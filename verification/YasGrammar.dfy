/** Which programs the assembler accepts: the shapes of operands and lines, and when a whole assembly is free of
    errors. */
module YasGrammar {
  import opened Lists
  import opened Words
  import opened ByteMemory
  import opened Yas

  predicate Known(symbols: seq<Symbol>, name: string) { exists k :: 0 <= k < |symbols| && symbols[k].name == name }

  /** A number, or a label that is defined. */
  predicate IsConstant(t: Token, symbols: seq<Symbol>) { t.Num? || (t.Ident? && Known(symbols, t.name)) }

  /** Where the tokens go on after an operand that starts at `p`, if it is well formed. */
  function OperandEnd(arg: Arg, ts: seq<Token>, p: nat, symbols: seq<Symbol>): Option<nat> {
    match arg
    case RArg => if Tok(ts, p).Reg? then Some(p + 1) else None
    case IArg => if IsConstant(Tok(ts, p), symbols) then Some(p + 1) else None
    case MArg =>
      var t := Tok(ts, p);
      if t.Ident? && !IsConstant(t, symbols) then None
      else
        var q := if t.Num? || t.Ident? then p + 1 else p;
        if Tok(ts, q) != Punct('(') then Some(q)
        else if Tok(ts, q + 1).Reg? && Tok(ts, q + 2) == Punct(')') then Some(q + 3)
        else None
    case NoArg => Some(p)
  }

  /** Both operands, with a comma between them if there are two. */
  predicate OperandsOk(row: Row, ts: seq<Token>, p: nat, symbols: seq<Symbol>) {
    var e := OperandEnd(row.arg1, ts, p, symbols);
    && e.Some?
    && (row.arg2 != NoArg ==> Tok(ts, e.value) == Punct(',') && OperandEnd(row.arg2, ts, e.value + 1, symbols).Some?)
  }

  predicate StatementOk(ts: seq<Token>, p: nat, symbols: seq<Symbol>) {
    match Tok(ts, p)
    case Op(PosD) => Tok(ts, p + 1).Num?
    case Op(AlignD) => Tok(ts, p + 1).Num? && Int32(Tok(ts, p + 1).value) > 0
    case Op(op) => RowsFit(op); OperandsOk(FindInstr(op).value, ts, p + 1, symbols)
    case _ => false
  }

  /** Nothing, a label with or without a statement, or a statement; whatever follows a statement is ignored. */
  predicate Accepted(ts: seq<Token>, symbols: seq<Symbol>) {
    if ts == [] then true
    else if !ts[0].Ident? then StatementOk(ts, 0, symbols)
    else Tok(ts, 1) == Punct(':') && (|ts| == 2 || StatementOk(ts, 2, symbols))
  }

  // ---------------------------------------------------------------------------------------------
  // One line
  // ---------------------------------------------------------------------------------------------

  lemma {:induction false} KnownIff(symbols: seq<Symbol>, name: string)
    ensures FindSymbol(symbols, name).Some? <==> Known(symbols, name)
  {
    if symbols != [] {
      KnownIff(symbols[1..], name);
      if Known(symbols[1..], name) {
        var k :| 0 <= k < |symbols[1..]| && symbols[1..][k].name == name;
        assert symbols[k + 1].name == name;
      }
      if Known(symbols, name) && symbols[0].name != name {
        var k :| 0 <= k < |symbols| && symbols[k].name == name;
        assert symbols[1..][k - 1].name == name;
      }
    }
  }

  lemma TokenKnown(t: Token, symbols: seq<Symbol>)
    ensures t.Ident? ==> (FindSymbol(symbols, t.name).Some? <==> Known(symbols, t.name))
  {
    if t.Ident? { KnownIff(symbols, t.name); }
  }

  /** An operand fails exactly if it is not well formed, and otherwise leaves the tokens behind it. */
  lemma OperandIff(p: Operands, ts: seq<Token>, symbols: seq<Symbol>, arg: Arg, pos: nat, hi: nat)
    requires |p.code| == 10 && ArgFits(arg, pos, hi)
    ensures var (q, e) := (GetArg(p, ts, symbols, arg, pos, hi), OperandEnd(arg, ts, p.tpos, symbols));
            && (q.failed <==> p.failed || e.None?)
            && (e.Some? ==> q.tpos == e.value)
  {
    hide PutBytes, FindSymbol, Known;
    TokenKnown(Tok(ts, p.tpos), symbols);
  }

  lemma BothIff(p: Operands, ts: seq<Token>, symbols: seq<Symbol>, row: Row)
    requires |p.code| == 10 && RowFits(row) && !p.failed
    ensures var (r, complete) := BothArgs(p, ts, symbols, row);
            !r.failed && complete <==> OperandsOk(row, ts, p.tpos, symbols)
  {
    hide GetArg, OperandEnd, ArgFits;
    OperandIff(p, ts, symbols, row.arg1, row.arg1pos, row.arg1hi);
    var q := GetArg(p, ts, symbols, row.arg1, row.arg1pos, row.arg1hi);
    OperandIff(q.(tpos := q.tpos + 1), ts, symbols, row.arg2, row.arg2pos, row.arg2hi);
  }

  lemma InstructionIff(a: Asm, ts: seq<Token>, tpos: nat, row: Row)
    requires |a.code| == 10 && RowFits(row)
    ensures var o := Instruction(a, ts, tpos, row, true);
            o.failed <==> o.abort || !OperandsOk(row, ts, tpos, a.symbols)
  {
    hide BothArgs, OperandsOk;
    BothIff(Operands(a.code[0 := row.code][1 := Hpack(15, 15)], tpos, false), ts, a.symbols, row);
  }

  lemma StatementIff(a: Asm, ts: seq<Token>, t: nat)
    requires |a.code| == 10
    ensures var o := Statement(a, ts, t, true);
            o.failed <==> o.abort || !StatementOk(ts, t, a.symbols)
  {
    hide Instruction, OperandsOk, FindInstr, Int32, DivTrunc;
    match Tok(ts, t)
    case Op(op) =>
      RowsFit(op);
      if op != PosD && op != AlignD { InstructionIff(a, ts, t + 1, FindInstr(op).value); }
    case _ =>
  }

  /** In the second pass a line is an error exactly if it is not accepted or its address is out of range. */
  lemma LineIff(a: Asm, ts: seq<Token>)
    requires |a.code| == 10
    ensures var o := Finish(a, ts, true);
            o.failed <==> o.abort || !Accepted(ts, a.symbols)
  {
    hide Statement, StatementOk;
    if ts != [] { StatementIff(a, ts, if ts[0].Ident? then 2 else 0); }
  }

  /** What the first pass rejects the second would not accept. */
  lemma FirstRejects(a: Asm, ts: seq<Token>, symbols: seq<Symbol>)
    requires |a.code| == 10 && Finish(a, ts, false).failed
    ensures !Accepted(ts, symbols)
  {
    hide OperandsOk, FindInstr, Int32, DivTrunc;
  }

  // ---------------------------------------------------------------------------------------------
  // Whole programs
  // ---------------------------------------------------------------------------------------------

  ghost predicate AllAccepted(lines: seq<SourceLine>, symbols: seq<Symbol>) {
    forall k :: 0 <= k < |lines| ==> Accepted(lines[k].tokens, symbols)
  }

  lemma {:induction false} FirstPassIff(start: Asm, lines: seq<SourceLine>, symbols: seq<Symbol>)
    requires |start.code| == 10 && AllAccepted(lines, symbols)
    ensures !Pass(start, lines, false).failed
  {
    hide Finish, Accepted;
    if lines != [] {
      var before, last := lines[..|lines| - 1], lines[|lines| - 1];
      assert forall k :: 0 <= k < |before| ==> before[k] == lines[k];
      FirstPassIff(start, before, symbols);
      var a := Pass(start, before, false).asm;
      if Finish(a, last.tokens, false).failed { FirstRejects(a, last.tokens, symbols); }
      FirstPrintsNothing(a, last.tokens);
    }
  }

  lemma {:induction false} SecondPassIff(start: Asm, lines: seq<SourceLine>)
    requires |start.code| == 10
    ensures Pass(start, lines, true).asm.symbols == start.symbols
    ensures !Pass(start, lines, true).failed <==>
            !Pass(start, lines, true).abort && AllAccepted(lines, start.symbols)
  {
    hide Finish, Accepted;
    if lines != [] {
      var before, last := lines[..|lines| - 1], lines[|lines| - 1];
      SecondPassIff(start, before);
      assert forall k :: 0 <= k < |before| ==> before[k] == lines[k];
      var a := Pass(start, before, true).asm;
      FinishKeeps(a, last.tokens, true);
      LineIff(a, last.tokens);
    }
  }

  /** A program assembles without error exactly if every line is accepted with the labels that the program
      defines, and no line is printed at an address above 0xFFFF. */
  lemma AssemblesIff(lines: seq<SourceLine>)
    ensures !FirstPass(lines).failed && !SecondPass(lines).failed <==>
            !SecondPass(lines).abort && AllAccepted(lines, FirstPass(lines).asm.symbols)
  {
    hide Pass, AllAccepted;
    var one := FirstPass(lines).asm;
    SecondPassIff(one.(pos := 0), lines);
    if AllAccepted(lines, one.symbols) { FirstPassIff(START, lines, one.symbols); }
  }
}
