/** The assembler of `yas.c` as it works: a code buffer written in place, token and address positions that
    advance, an error flag, and two passes over the source lines. */
module Assembler {
  import opened Lists
  import opened Words
  import opened ByteMemory
  import opened ObjectText
  import opened Yas

  class Assembler {
    const code: array<Byte>
    var second: bool
    var bytepos: int
    var symbols: seq<Symbol>
    var tokens: seq<Token>
    var tpos: nat
    var errorMode: bool
    var hitError: bool
    var outfile: seq<string>

    ghost predicate Valid()
      reads this
    {
      code.Length == 10 && (errorMode ==> hitError)
    }

    ghost function Buffer(): Operands
      reads this, code
    {
      Operands(code[..], tpos, errorMode)
    }

    ghost function Carried(): Asm
      reads this, code
    {
      Asm(bytepos, symbols, code[..])
    }

    constructor ()
      ensures Valid() && fresh(code) && Carried() == START
      ensures !second && !errorMode && !hitError && tokens == [] && outfile == []
    {
      code := new Byte[10](_ => 0);
      second, bytepos, symbols, tokens, tpos := false, 0, [], [], 0;
      errorMode, hitError, outfile := false, false, [];
    }

    method Fail()
      modifies this`errorMode, this`hitError
      ensures errorMode && hitError
    {
      errorMode, hitError := true, true;
    }

    /** find_symbol: the first entry with the name, or -1 and an error. */
    method SymbolPos(name: string) returns (pos: int)
      requires Valid()
      modifies this`errorMode, this`hitError
      ensures Valid() && var r := FindSymbol(symbols, name);
        match r
        case Some(p) => pos == p && errorMode == old(errorMode) && hitError == old(hitError)
        case None => pos == -1 && errorMode && hitError
    {
      var i := 0;
      while i < |symbols|
        invariant 0 <= i <= |symbols| && FindSymbol(symbols[i..], name) == FindSymbol(symbols, name)
      {
        assert symbols[i..][1..] == symbols[i + 1..];
        if symbols[i].name == name {
          return symbols[i].pos;
        }
        i := i + 1;
      }
      Fail();
      return -1;
    }

    method RegOperand(codepos: nat, hi: nat)
      requires Valid() && codepos < 10
      modifies this`tpos, this`errorMode, this`hitError, code
      ensures Valid() && Buffer() == GetReg(old(Buffer()), tokens, codepos, hi)
      ensures hitError == (old(hitError) || errorMode) && (old(errorMode) ==> errorMode)
    {
      match Tok(tokens, tpos) {
        case Reg(id) =>
          var c := code[codepos];
          code[codepos] := if hi != 0 then Hpack(id, c % 16) else Hpack(c / 16, id);
          tpos := tpos + 1;
        case _ =>
          Fail();
      }
    }

    method NumOperand(codepos: nat, bytes: nat)
      requires Valid() && codepos + bytes <= 10
      modifies this`tpos, this`errorMode, this`hitError, code
      ensures Valid() && Buffer() == GetNum(old(Buffer()), tokens, symbols, codepos, bytes)
      ensures hitError == (old(hitError) || errorMode) && (old(errorMode) ==> errorMode)
    {
      hide FindSymbol, PutBytes;
      var val: int;
      match Tok(tokens, tpos) {
        case Num(value) =>
          val := value;
        case Ident(name) =>
          val := SymbolPos(name);
        case _ =>
          Fail();
          return;
      }
      StoreBytes(code, codepos, val, bytes);
      tpos := tpos + 1;
    }

    method ReadDisplacement() returns (val: int)
      requires Valid()
      modifies this`tpos, this`errorMode, this`hitError
      ensures Valid() && (val, Buffer()) == Displacement(old(Buffer()), tokens, symbols)
      ensures hitError == (old(hitError) || errorMode) && (old(errorMode) ==> errorMode)
    {
      hide FindSymbol;
      val := 0;
      match Tok(tokens, tpos) {
        case Num(value) =>
          val := value;
          tpos := tpos + 1;
        case Ident(name) =>
          val := SymbolPos(name);
          tpos := tpos + 1;
        case _ =>
      }
    }

    method ReadBase() returns (rval: Option<nat>)
      requires Valid()
      modifies this`tpos, this`errorMode, this`hitError
      ensures Valid() && (rval, Buffer()) == Base(old(Buffer()), tokens)
      ensures hitError == (old(hitError) || errorMode) && (old(errorMode) ==> errorMode)
    {
      if Tok(tokens, tpos) != Punct('(') {
        return Some(15);
      }
      tpos := tpos + 1;
      if !Tok(tokens, tpos).Reg? {
        Fail();
        return None;
      }
      rval := Some(Tok(tokens, tpos).id);
      tpos := tpos + 1;
      if !Tok(tokens, tpos).Punct? {
        Fail();
        return None;
      }
      tpos := tpos + 1;
      if Tok(tokens, tpos - 1) != Punct(')') {
        Fail();
        return None;
      }
    }

    method MemOperand(codepos: nat)
      requires Valid() && codepos + 9 <= 10
      modifies this`tpos, this`errorMode, this`hitError, code
      ensures Valid() && Buffer() == GetMem(old(Buffer()), tokens, symbols, codepos)
      ensures hitError == (old(hitError) || errorMode) && (old(errorMode) ==> errorMode)
    {
      hide PutBytes, Displacement;
      var val := ReadDisplacement();
      var rval := ReadBase();
      if rval.Some? {
        code[codepos] := Hpack(code[codepos] / 16, rval.value);
        StoreBytes(code, codepos + 1, val, 8);
      }
    }

    method Operand(arg: Arg, pos: nat, hi: nat)
      requires Valid() && ArgFits(arg, pos, hi)
      modifies this`tpos, this`errorMode, this`hitError, code
      ensures Valid() && Buffer() == GetArg(old(Buffer()), tokens, symbols, arg, pos, hi)
      ensures hitError == (old(hitError) || errorMode) && (old(errorMode) ==> errorMode)
    {
      match arg {
        case RArg => RegOperand(pos, hi);
        case MArg => MemOperand(pos);
        case IArg => NumOperand(pos, hi);
        case NoArg =>
      }
    }

    /** print_code: an address above 0xFFFF is an error that ends the program. */
    method PrintLine(pos: int, bcount: nat, text: string) returns (abort: bool)
      requires Valid() && bcount <= 10
      modifies this`errorMode, this`hitError, this`outfile
      ensures Valid() && abort == (pos > 0xFFFF)
      ensures if abort then errorMode && hitError && outfile == old(outfile)
              else errorMode == old(errorMode) && hitError == old(hitError)
                   && outfile == old(outfile) + [CodeLine(pos, code[..bcount], text)]
    {
      if pos > 0xFFFF {
        Fail();
        return true;
      }
      var line := PrintCode(pos, code, bcount, text);
      outfile := outfile + [line];
      return false;
    }

    /** What the current line has done so far is what outcome `o` says, except for ending the line. */
    ghost predicate Did(o: Outcome, hadError: bool, before: seq<string>, text: string, abort: bool)
      reads this, code
    {
      && Carried() == o.asm && errorMode == o.failed && hitError == (hadError || o.failed) && abort == o.abort
      && Printable(Record(if o.line == Nothing then BlankAt(0) else o.line, text))
      && outfile == before + (if o.line == Nothing then [] else [TextOf(Record(o.line, text))])
    }

    method BothOperands(row: Row) returns (complete: bool)
      requires Valid() && RowFits(row)
      modifies this`tpos, this`errorMode, this`hitError, code
      ensures Valid() && (Buffer(), complete) == BothArgs(old(Buffer()), tokens, symbols, row)
      ensures hitError == (old(hitError) || errorMode) && (!complete ==> errorMode)
    {
      hide GetArg, ArgFits;
      Operand(row.arg1, row.arg1pos, row.arg1hi);
      if row.arg2 != NoArg {
        if Tok(tokens, tpos) != Punct(',') {
          Fail();
          return false;
        }
        tpos := tpos + 1;
        Operand(row.arg2, row.arg2pos, row.arg2hi);
      }
      return true;
    }

    method DoInstruction(row: Row, text: string) returns (abort: bool)
      requires Valid() && RowFits(row) && !errorMode
      modifies this`bytepos, this`tpos, this`errorMode, this`hitError, this`outfile, code
      ensures Valid()
      ensures Did(Instruction(old(Carried()), tokens, old(tpos), row, second), old(hitError), old(outfile), text, abort)
    {
      hide BothArgs, CodeLine;
      var savebytepos := bytepos;
      bytepos := bytepos + row.bytes;
      abort := false;
      if second {
        code[0] := row.code;
        code[1] := Hpack(15, 15);
        assert code[..] == old(code[..])[0 := row.code][1 := Hpack(15, 15)];
        var complete := BothOperands(row);
        if complete { abort := PrintLine(savebytepos, row.bytes, text); }
      }
    }

    method DoMove(pos: int, text: string) returns (abort: bool)
      requires Valid() && !errorMode
      modifies this`bytepos, this`errorMode, this`hitError, this`outfile
      ensures Valid() && Did(Moved(old(Carried()), pos, second), old(hitError), old(outfile), text, abort)
    {
      hide CodeLine;
      bytepos := pos;
      abort := false;
      if second {
        assert code[..0] == [];
        abort := PrintLine(bytepos, 0, text);
      }
    }

    method DoDirective(op: Mnemonic, text: string) returns (abort: bool)
      requires Valid() && !errorMode && op in {PosD, AlignD} && Tok(tokens, tpos) == Op(op)
      modifies this`bytepos, this`errorMode, this`hitError, this`outfile
      ensures Valid()
      ensures Did(Statement(old(Carried()), tokens, old(tpos), second), old(hitError), old(outfile), text, abort)
    {
      hide Instruction, FindInstr, Moved, TextOf, Int32, DivTrunc;
      abort := false;
      match Tok(tokens, tpos + 1) {
        case Num(value) =>
          var n := Int32(value);
          if op == PosD {
            abort := DoMove(n, text);
          } else if n <= 0 {
            Fail();
          } else {
            abort := DoMove(DivTrunc(bytepos + n - 1, n) * n, text);
          }
        case _ => Fail();
      }
    }

    method DoStatement(text: string) returns (abort: bool)
      requires Valid() && !errorMode
      modifies this`bytepos, this`tpos, this`errorMode, this`hitError, this`outfile, code
      ensures Valid()
      ensures Did(Statement(old(Carried()), tokens, old(tpos), second), old(hitError), old(outfile), text, abort)
    {
      hide Instruction, FindInstr, Moved, TextOf, Int32, DivTrunc;
      abort := false;
      var token := Tok(tokens, tpos);
      if !token.Op? {
        Fail();
      } else if token.op in {PosD, AlignD} {
        abort := DoDirective(token.op, text);
      } else {
        RowsFit(token.op);
        tpos := tpos + 1;
        abort := DoInstruction(FindInstr(token.op).value, text);
      }
    }

    method DoLine(text: string) returns (abort: bool)
      requires Valid() && !errorMode
      modifies this`bytepos, this`symbols, this`tpos, this`errorMode, this`hitError, this`outfile, code
      ensures Valid()
      ensures Did(Finish(old(Carried()), tokens, second), old(hitError), old(outfile), text, abort)
    {
      hide Statement, CodeLine, BlankLine;
      tpos := 0;
      abort := false;
      if tokens == [] {
        if second { outfile := outfile + [BlankLine(bytepos, text)]; }
        return;
      }
      match tokens[0] {
        case Ident(name) =>
          if Tok(tokens, 1) != Punct(':') {
            Fail();
            return;
          }
          if !second { symbols := symbols + [Symbol(name, bytepos)]; }
          tpos := 2;
          if |tokens| == 2 {
            if second {
              assert code[..0] == [];
              abort := PrintLine(bytepos, 0, text);
            }
            return;
          }
        case _ =>
      }
      abort := DoStatement(text);
    }

    /** finish_line: process the line's tokens, unless the line has already failed, and make ready for the
        next line. */
    method FinishLine(text: string) returns (abort: bool)
      requires Valid()
      modifies this`bytepos, this`symbols, this`tokens, this`tpos, this`errorMode, this`hitError, this`outfile, code
      ensures Valid() && !errorMode && tokens == []
      ensures old(errorMode) && old(tokens) != [] ==>
        !abort && Carried() == old(Carried()) && hitError && outfile == old(outfile)
      ensures !old(errorMode) || old(tokens) == [] ==>
        var o := Finish(old(Carried()), old(tokens), second);
        && Carried() == o.asm && hitError == (old(hitError) || o.failed) && abort == o.abort
        && Printable(Record(if o.line == Nothing then BlankAt(0) else o.line, text))
        && outfile == old(outfile) + (if o.line == Nothing then [] else [TextOf(Record(o.line, text))])
    {
      hide Finish, TextOf;
      abort := false;
      if tokens == [] || !errorMode {
        errorMode := false;
        abort := DoLine(text);
      }
      errorMode, tpos, tokens := false, 0, [];
    }
  }

  /** yylex in the first pass. */
  method RunFirst(a: Assembler, lines: seq<SourceLine>)
    requires a.Valid() && !a.errorMode && !a.second && !a.hitError && a.outfile == [] && a.Carried() == START
    modifies a, a.code
    ensures a.Valid() && !a.errorMode && !a.second && a.outfile == []
    ensures FirstPass(lines) == Assembled(a.Carried(), a.hitError, false, [])
  {
    hide Finish, TextOf;
    var i := 0;
    while i < |lines|
      invariant 0 <= i <= |lines| && a.Valid() && !a.errorMode && !a.second && a.outfile == []
      invariant Pass(START, lines[..i], false) == Assembled(a.Carried(), a.hitError, false, [])
    {
      assert lines[..i + 1][..i] == lines[..i];
      FirstPrintsNothing(a.Carried(), lines[i].tokens);
      a.tokens := lines[i].tokens;
      var abort := a.FinishLine(lines[i].text);
      i := i + 1;
    }
    assert lines[..i] == lines;
  }

  /** yylex in the second pass, which an address out of range ends early. */
  method RunSecond(a: Assembler, lines: seq<SourceLine>)
    requires a.Valid() && !a.errorMode && a.second && !a.hitError && a.outfile == []
    modifies a, a.code
    ensures var r := Pass(old(a.Carried()), lines, true);
            a.hitError == r.failed && AllPrintable(r.records) && a.outfile == Texts(r.records)
  {
    hide Finish, TextOf;
    ghost var start := a.Carried();
    var i := 0;
    while i < |lines|
      invariant 0 <= i <= |lines| && a.Valid() && !a.errorMode && a.second
      invariant var r := Pass(start, lines[..i], true);
        r == Assembled(a.Carried(), a.hitError, false, r.records) && AllPrintable(r.records)
          && a.outfile == Texts(r.records)
    {
      assert lines[..i + 1][..i] == lines[..i];
      LinePrintable(a.Carried(), lines[i].tokens);
      a.tokens := lines[i].tokens;
      var abort := a.FinishLine(lines[i].text);
      i := i + 1;
      if abort {
        PassStops(start, lines, i);
        return;
      }
    }
    assert lines[..i] == lines;
  }

  /** The whole program: a first pass for the labels, and, if that met no error, a second that prints. */
  method Assemble(lines: seq<SourceLine>) returns (status: int, output: seq<string>)
    ensures var one, two := FirstPass(lines), SecondPass(lines);
            && AllPrintable(two.records)
            && (if one.failed then status == 1 && output == []
                else status == (if two.failed then 1 else 0) && output == Texts(two.records))
  {
    hide Pass;
    var a := new Assembler();
    RunFirst(a, lines);
    SecondPassPrintable(FirstPass(lines).asm.(pos := 0), lines);
    if a.hitError {
      return 1, [];
    }
    a.second, a.bytepos := true, 0;
    RunSecond(a, lines);
    status, output := if a.hitError then 1 else 0, a.outfile;
  }
}
