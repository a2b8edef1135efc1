/** Whole programs through the assembler: source lines in, the instructions at their addresses in memory out. */
module Sources {
  import opened Lists
  import opened Words
  import opened ByteMemory
  import opened ObjectText
  import opened Yas
  import Assembly
  import Isa

  /** What both passes leave of the lines before line `k`: its address and what has been printed. */
  function Before(lines: seq<SourceLine>, k: nat): (r: Assembled)
    requires k <= |lines|
    ensures |r.asm.code| == 10
  {
    SecondPassOf(FirstPass(lines).asm, lines[..k])
  }

  /** The lines after line `k` only add to what has been printed. */
  lemma {:induction false} PassPrefix(start: Asm, lines: seq<SourceLine>, k: nat)
    requires |start.code| == 10 && k <= |lines| && !Pass(start, lines, true).abort
    ensures !Pass(start, lines[..k], true).abort
    ensures !Pass(start, lines, true).failed ==> !Pass(start, lines[..k], true).failed
    ensures Pass(start, lines[..k], true).records <= Pass(start, lines, true).records
    decreases |lines|
  {
    hide Finish;
    if k < |lines| {
      PassPrefix(start, lines[..|lines| - 1], k);
      assert lines[..|lines| - 1][..k] == lines[..k];
    } else {
      assert lines[..k] == lines;
    }
  }

  lemma PassSnoc(start: Asm, lines: seq<SourceLine>, k: nat, second: bool)
    requires |start.code| == 10 && k < |lines| && !Pass(start, lines[..k], second).abort
    ensures var p := Pass(start, lines[..k], second);
            var o := Finish(p.asm, lines[k].tokens, second);
            |o.asm.code| == 10 && Pass(start, lines[..k + 1], second) ==
              Assembled(o.asm, p.failed || o.failed, o.abort,
                        p.records + (if o.line == Nothing then [] else [Record(o.line, lines[k].text)]))
  {
    FinishKeeps(Pass(start, lines[..k], second).asm, lines[k].tokens, second);
    hide Finish;
    assert lines[..k + 1][..k] == lines[..k];
  }

  predicate Writing(line: SourceLine, mark: Option<string>, i: Assembly.Instr, imm: seq<Token>) {
    Valid(i) && line.tokens == LineOf(mark, Source(i, imm))
  }

  /** From a line of the source to the simulators: if the assembler meets no error, the line's instruction
      is printed at the line's address, and unless later lines overlap it, it is fetched from there. */
  lemma AssembledInstruction(lines: seq<SourceLine>, k: nat, mark: Option<string>, i: Assembly.Instr,
                             imm: seq<Token>, m: Bytes)
    requires !SecondPass(lines).failed && AllLoadable(SecondPass(lines).records, |m|)
    requires |m| <= Assembly.MAX_MEM && k < |lines| && Writing(lines[k], mark, i, imm)
    requires Denotes(imm, FirstPass(lines).asm.symbols, Assembly.Imm(i), MemoryOperand(i))
    requires forall l {:trigger SecondPass(lines).records[l]} ::
      |Before(lines, k).records| < l < |SecondPass(lines).records| ==>
        Apart(SecondPass(lines).records[|Before(lines, k).records|], SecondPass(lines).records[l])
    ensures var (rs, pos) := (SecondPass(lines).records, Before(lines, k).asm.pos);
            && AllPrintable(rs) && Assembly.At(LoadLines(m, Texts(rs)).m, pos, i)
            && Isa.Fetch(LoadLines(m, Texts(rs)).m, pos) == Some(Assembly.Decoded(i, pos))
  {
    hide SecondPass, Before, AllLoadable, Apart, Writing, Denotes, Assembly.Encode, Isa.Fetch, Texts, LoadLines,
      Assembly.Decoded, Assembly.At;
    LineRecord(lines, k, mark, i, imm);
    LoadedInstruction(m, SecondPass(lines).records, |Before(lines, k).records|, i);
  }

  /** Where a line's record is among those printed, and what it says. */
  lemma LineRecord(lines: seq<SourceLine>, k: nat, mark: Option<string>, i: Assembly.Instr, imm: seq<Token>)
    requires !SecondPass(lines).failed && k < |lines| && Writing(lines[k], mark, i, imm)
    requires Denotes(imm, FirstPass(lines).asm.symbols, Assembly.Imm(i), MemoryOperand(i))
    ensures Assembly.Encodable(i)
    ensures |Before(lines, k).records| < |SecondPass(lines).records|
    ensures SecondPass(lines).records[|Before(lines, k).records|]
         == Record(CodeAt(Before(lines, k).asm.pos, Assembly.Encode(i)), lines[k].text)
  {
    hide Finish, Pass, Assembly.Encode, Source, Valid, Denotes;
    var start := FirstPass(lines).asm.(pos := 0);
    AbortFails(start, lines);
    PassPrefix(start, lines, k + 1);
    PassPrefix(start, lines, k);
    PassSnoc(start, lines, k, true);
    SamePositions(start, start, lines[..k]);
    LinePrints(Before(lines, k).asm, mark, i, imm);
  }

  lemma AbortFails(start: Asm, lines: seq<SourceLine>)
    requires |start.code| == 10
    ensures Pass(start, lines, true).abort ==> Pass(start, lines, true).failed
    decreases |lines|
  {
    hide Finish;
    if lines != [] {
      AbortFails(start, lines[..|lines| - 1]);
      LinePrintable(Pass(start, lines[..|lines| - 1], true).asm, lines[|lines| - 1].tokens);
    }
  }

  /** What a line that writes an instruction prints, unless its address is too large. */
  lemma LinePrints(a: Asm, mark: Option<string>, i: Assembly.Instr, imm: seq<Token>)
    requires |a.code| == 10 && Valid(i) && Denotes(imm, a.symbols, Assembly.Imm(i), MemoryOperand(i))
    ensures Assembly.Encodable(i)
    ensures Emits(a, Finish(a, LineOf(mark, Source(i, imm)), true), Assembly.Encode(i))
  {
    hide Statement, Assembly.Encode;
    var ts := LineOf(mark, Source(i, imm));
    var t := if mark.Some? then 2 else 0;
    assert ts[t..] == Source(i, imm);
    StatementEncodes(a, ts, t, i, imm);
    SourceStarts(i, imm);
  }

  // ---------------------------------------------------------------------------------------------
  // Programs
  // ---------------------------------------------------------------------------------------------

  /** One line of a program: an instruction or a datum, perhaps behind a label, with the tokens `imm` of its
      constant; a label on its own; a directive; or a line without tokens. */
  datatype Item =
    | Code(mark: Option<string>, i: Assembly.Instr, imm: seq<Token>, text: string)
    | Datum(mark: Option<string>, bytes: nat, v: Word, imm: seq<Token>, text: string)
    | Label(name: string, text: string)
    | Align(n: nat, text: string)
    | Pos(p: nat, text: string)
    | Blank(text: string)

  function MarkOf(x: Item): Option<string> {
    match x
    case Code(mark, _, _, _) => mark
    case Datum(mark, _, _, _, _) => mark
    case Label(name, _) => Some(name)
    case _ => None
  }

  /** What can be written down, whatever its constant says. */
  predicate Writable(x: Item) {
    match x
    case Code(_, i, _, _) => Valid(i)
    case Datum(_, bytes, _, _, _) => bytes in {1, 2, 4, 8}
    case Align(n, _) => 0 < n < 0x8000_0000
    case Pos(p, _) => p < 0x8000_0000
    case _ => true
  }

  function Tokens(x: Item): seq<Token>
    requires Writable(x)
  {
    match x
    case Code(mark, i, imm, _) => LineOf(mark, Source(i, imm))
    case Datum(mark, bytes, _, imm, _) => LineOf(mark, [Op(DataOp(bytes))] + imm)
    case Label(name, _) => [Ident(name), Punct(':')]
    case Align(n, _) => [Op(AlignD), Num(n)]
    case Pos(p, _) => [Op(PosD), Num(p)]
    case Blank(_) => []
  }

  /** The address after a line that starts at `a`. */
  function Beyond(x: Item, a: nat): nat {
    match x
    case Code(_, i, _, _) => a + Assembly.Size(i)
    case Datum(_, bytes, _, _, _) => a + bytes
    case Align(n, _) => AlignUp(a, n)
    case Pos(p, _) => p
    case _ => a
  }

  function AlignUp(a: nat, n: nat): nat { if n == 0 then a else (a + n - 1) / n * n }

  /** What the line puts into memory. */
  function Chunk(x: Item): Bytes {
    match x
    case Code(_, i, _, _) => if Assembly.Encodable(i) then Assembly.Encode(i) else []
    case Datum(_, bytes, v, _, _) => ToBytes(v, bytes)
    case _ => []
  }

  /** What the second pass prints for a line that starts at `a`. */
  function PrintedBy(x: Item, a: nat): Printed {
    match x
    case Blank(_) => BlankAt(a)
    case Align(_, _) => CodeAt(Beyond(x, a), [])
    case Pos(_, _) => CodeAt(Beyond(x, a), [])
    case _ => CodeAt(a, Chunk(x))
  }

  /** The tokens of the line's constant stand for it. */
  predicate Denoting(x: Item, symbols: seq<Symbol>) {
    match x
    case Code(_, i, imm, _) => Denotes(imm, symbols, Assembly.Imm(i), MemoryOperand(i))
    case Datum(_, _, v, imm, _) => Denotes(imm, symbols, v, false)
    case _ => true
  }

  // ---------------------------------------------------------------------------------------------
  // One line in either pass
  // ---------------------------------------------------------------------------------------------

  lemma DatumPrints(a: Asm, x: Item)
    requires |a.code| == 10 && x.Datum? && Writable(x) && Denoting(x, a.symbols)
    ensures Emits(a, Finish(a, Tokens(x), true), ToBytes(x.v, x.bytes))
  {
    hide Statement, ToBytes;
    var ts := Tokens(x);
    var t := if x.mark.Some? then 2 else 0;
    assert ts[t] == Op(DataOp(x.bytes)) && ts[t + 1] == x.imm[0] && x.imm == [x.imm[0]];
    DataEncodes(a, ts, t, x.bytes, x.v);
  }

  /** A label on its own, or a line without tokens, leaves the address alone. */
  lemma NoCode(a: Asm, name: string, second: bool)
    requires |a.code| == 10
    ensures Finish(a, [Ident(name), Punct(':')], second).asm.pos == a.pos
    ensures Finish(a, [], second).asm == a && !Finish(a, [], second).failed
  {
  }

  lemma AlignLine(a: Asm, n: nat, second: bool)
    requires |a.code| == 10 && a.pos >= 0 && 0 < n < 0x8000_0000
    requires second ==> AlignUp(a.pos, n) <= 0xFFFF
    ensures var pos := AlignUp(a.pos, n);
            Finish(a, [Op(AlignD), Num(n)], second) ==
              Outcome(a.(pos := pos), false, false, if second then CodeAt(pos, []) else Nothing)
  {
    hide Instruction, FindInstr;
    assert Int32(n) == n && DivTrunc(a.pos + n - 1, n) == (a.pos + n - 1) / n;
  }

  lemma PosLine(a: Asm, p: nat, second: bool)
    requires |a.code| == 10 && p < 0x8000_0000 && (second ==> p <= 0xFFFF)
    ensures Finish(a, [Op(PosD), Num(p)], second) ==
              Outcome(a.(pos := p), false, false, if second then CodeAt(p, []) else Nothing)
  {
    hide Instruction, FindInstr;
  }

  lemma DirectiveLine(a: Asm, x: Item, second: bool)
    requires |a.code| == 10 && a.pos >= 0 && Writable(x) && (x.Align? || x.Pos?)
    requires second ==> Beyond(x, a.pos) <= 0xFFFF
    ensures Finish(a, Tokens(x), second) == Outcome(a.(pos := Beyond(x, a.pos)), false, false,
                                                    if second then CodeAt(Beyond(x, a.pos), []) else Nothing)
  {
    hide Finish, AlignUp;
    if x.Align? { AlignLine(a, x.n, second); } else { PosLine(a, x.p, second); }
  }

  /** What the second pass does with a line, unless its address is too large to print. */
  lemma SecondLine(a: Asm, x: Item)
    requires |a.code| == 10 && a.pos >= 0 && Writable(x) && Denoting(x, a.symbols)
    requires PrintedBy(x, a.pos).CodeAt? ==> PrintedBy(x, a.pos).pos <= 0xFFFF
    ensures var o := Finish(a, Tokens(x), true);
            && !o.failed && !o.abort && o.line == PrintedBy(x, a.pos)
            && o.asm.pos == Beyond(x, a.pos) && o.asm.symbols == a.symbols
  {
    hide Statement, Assembly.Encode, ToBytes, Source, Valid, AlignUp;
    match x
    case Code(mark, i, imm, _) => LinePrints(a, mark, i, imm);
    case Datum(_, _, _, _, _) => DatumPrints(a, x);
    case Align(_, _) => DirectiveLine(a, x, true);
    case Pos(_, _) => DirectiveLine(a, x, true);
    case _ =>
  }

  /** The first pass moves on as far as the second, and accepts whatever that accepts. */
  lemma FirstLine(a: Asm, x: Item, symbols: seq<Symbol>)
    requires |a.code| == 10 && a.pos >= 0 && Writable(x) && Denoting(x, symbols)
    ensures var o := Finish(a, Tokens(x), false);
            !o.failed && !o.abort && o.line == Nothing && o.asm.pos == Beyond(x, a.pos)
  {
    hide Statement, Assembly.Encode, ToBytes, Source, Valid, AlignUp;
    var b := a.(symbols := symbols);
    match x
    case Code(mark, i, imm, _) =>
      LinePrints(b, mark, i, imm);
      SamePosition(a, b, Tokens(x));
      Mnemonics(i, imm);
      FirstAccepts(a, mark, Source(i, imm));
    case Datum(mark, bytes, _, imm, _) =>
      DatumPrints(b, x);
      SamePosition(a, b, Tokens(x));
      FirstAccepts(a, mark, [Op(DataOp(bytes))] + imm);
    case Align(_, _) => DirectiveLine(a, x, false);
    case Pos(_, _) => DirectiveLine(a, x, false);
    case _ =>
  }

  lemma FirstAccepts(a: Asm, mark: Option<string>, src: seq<Token>)
    requires |a.code| == 10 && src != [] && src[0].Op? && src[0].op !in {PosD, AlignD}
    ensures var o := Finish(a, LineOf(mark, src), false); !o.failed && !o.abort && o.line == Nothing
  {
    hide Instruction, FindInstr;
    var ts := LineOf(mark, src);
    var t := if mark.Some? then 2 else 0;
    assert ts[t..] == src;
    TokenAt(ts, t, src);
    assert Tok(ts, t) == src[0];
    RowsFit(src[0].op);
    FirstInstruction(if mark.Some? then a.(symbols := a.symbols + [Symbol(mark.value, a.pos)]) else a, ts, t);
    if mark.Some? { assert ts[0] == Ident(mark.value) && ts[1] == Punct(':') && Tok(ts, 1) == Punct(':'); }
  }

  lemma FirstInstruction(a: Asm, ts: seq<Token>, t: nat)
    requires |a.code| == 10 && Tok(ts, t).Op? && FindInstr(Tok(ts, t).op).Some?
    ensures Statement(a, ts, t, false)
         == Outcome(a.(pos := a.pos + FindInstr(Tok(ts, t).op).value.bytes), false, false, Nothing)
  {
    hide Tok;
    RowsFit(Tok(ts, t).op);
  }

  lemma Mnemonics(i: Assembly.Instr, imm: seq<Token>)
    requires Valid(i)
    ensures Source(i, imm) != [] && Source(i, imm)[0].Op? && Source(i, imm)[0].op !in {PosD, AlignD}
  {
  }

  /** Which name the line defines. */
  lemma LineDefines(x: Item, name: string)
    requires Writable(x)
    ensures Defines(Tokens(x), name) <==> MarkOf(x) == Some(name)
  {
    hide Source, Valid;
    if x.Code? { SourceStarts(x.i, x.imm); }
  }

  // ---------------------------------------------------------------------------------------------
  // Addresses and labels
  // ---------------------------------------------------------------------------------------------

  /** The address at which line `k` starts. */
  function AddressOf(items: seq<Item>, k: nat): nat
    requires k <= |items|
  {
    if k == 0 then 0 else Beyond(items[k - 1], AddressOf(items, k - 1))
  }

  /** The first line with a label. */
  ghost predicate Labels(items: seq<Item>, name: string, k: nat) {
    k < |items| && MarkOf(items[k]) == Some(name) && forall j :: 0 <= j < k ==> MarkOf(items[j]) != Some(name)
  }

  /** The tokens stand for the constant `v`: a number, the label of a line, or nothing. */
  ghost predicate Means(items: seq<Item>, imm: seq<Token>, v: Word, optional: bool) {
    || imm == [Num(v)]
    || (|imm| == 1 && imm[0].Ident? && exists d: nat :: Labels(items, imm[0].name, d) && v == AddressOf(items, d))
    || (optional && imm == [] && v == 0)
  }

  ghost predicate ItemMeans(items: seq<Item>, x: Item) {
    match x
    case Code(_, i, imm, _) => Means(items, imm, Assembly.Imm(i), MemoryOperand(i))
    case Datum(_, _, v, imm, _) => Means(items, imm, v, false)
    case _ => true
  }

  ghost predicate WellWritten(items: seq<Item>) {
    forall k {:trigger items[k]} :: 0 <= k < |items| ==> Writable(items[k]) && ItemMeans(items, items[k])
  }

  ghost function Lines(items: seq<Item>): (lines: seq<SourceLine>)
    requires WellWritten(items)
    ensures |lines| == |items|
  {
    seq(|items|, k requires 0 <= k < |items| => SourceLine(Tokens(items[k]), items[k].text))
  }

  lemma LineAt(items: seq<Item>, k: nat)
    requires WellWritten(items) && k < |items|
    ensures Writable(items[k]) && Lines(items)[k] == SourceLine(Tokens(items[k]), items[k].text)
    ensures ItemMeans(items, items[k])
  {
    hide Writable, ItemMeans, Tokens;
  }

  lemma MeansSomething(items: seq<Item>, x: Item) returns (symbols: seq<Symbol>)
    requires ItemMeans(items, x)
    ensures Denoting(x, symbols)
  {
    hide Assembly.Imm, Labels;
    symbols := [];
    if (x.Code? || x.Datum?) && |x.imm| == 1 && x.imm[0].Ident? {
      symbols := [Symbol(x.imm[0].name, if x.Code? then Assembly.Imm(x.i) else x.v)];
    }
  }

  /** After `k` lines the first pass has reached the address of the next one. */
  lemma {:induction false} FirstPassAt(items: seq<Item>, k: nat)
    requires WellWritten(items) && k <= |items|
    ensures var p := Pass(START, Lines(items)[..k], false); !p.failed && !p.abort && p.asm.pos == AddressOf(items, k)
  {
    hide Finish, Tokens, Writable, ItemMeans, Beyond;
    var lines := Lines(items);
    if k == 0 {
      assert lines[..0] == [];
    } else {
      FirstPassAt(items, k - 1);
      LineAt(items, k - 1);
      var symbols := MeansSomething(items, items[k - 1]);
      FirstLine(Pass(START, lines[..k - 1], false).asm, items[k - 1], symbols);
      PassSnoc(START, lines, k - 1, false);
    }
  }

  lemma {:induction false} FirstDefinitionIs(lines: seq<SourceLine>, name: string, k: nat)
    requires k < |lines| && Defines(lines[k].tokens, name)
    requires forall j :: 0 <= j < k ==> !Defines(lines[j].tokens, name)
    ensures FirstDefinition(lines, name) == Some(k)
    decreases |lines|
  {
    var before := lines[..|lines| - 1];
    if k < |before| {
      FirstDefinitionIs(before, name, k);
    } else {
      assert forall j :: 0 <= j < |before| ==> before[j] == lines[j];
    }
  }

  /** The symbol table has every label at the address of its line. */
  lemma LabelAt(items: seq<Item>, name: string, d: nat)
    requires WellWritten(items) && Labels(items, name, d)
    ensures FindSymbol(FirstPass(Lines(items)).asm.symbols, name) == Some(AddressOf(items, d))
  {
    hide Tokens, Writable, ItemMeans, FindSymbol, Pass, FirstDefinition, MarkOf;
    var lines := Lines(items);
    forall j | 0 <= j <= d
      ensures Defines(lines[j].tokens, name) <==> MarkOf(items[j]) == Some(name)
    {
      LineAt(items, j);
      LineDefines(items[j], name);
    }
    FirstDefinitionIs(lines, name, d);
    NoSymbols(name);
    FirstPassSymbols(START, lines, name);
    FirstPassAt(items, d);
  }

  lemma NoSymbols(name: string)
    ensures FindSymbol(START.symbols, name) == None
  {
  }

  lemma MeansDenotes(items: seq<Item>, imm: seq<Token>, v: Word, optional: bool)
    requires WellWritten(items) && Means(items, imm, v, optional)
    ensures Denotes(imm, FirstPass(Lines(items)).asm.symbols, v, optional)
  {
    hide Lines, FirstPass, FindSymbol, AddressOf, WellWritten, MarkOf;
    if |imm| == 1 && imm[0].Ident? && imm != [Num(v)] {
      var d: nat :| Labels(items, imm[0].name, d) && v == AddressOf(items, d);
      LabelAt(items, imm[0].name, d);
    }
  }

  lemma ItemDenotes(items: seq<Item>, x: Item)
    requires WellWritten(items) && ItemMeans(items, x)
    ensures Denoting(x, FirstPass(Lines(items)).asm.symbols)
  {
    hide Lines, FirstPass, WellWritten, Means, Denotes, Assembly.Imm;
    match x
    case Code(_, i, imm, _) => MeansDenotes(items, imm, Assembly.Imm(i), MemoryOperand(i));
    case Datum(_, _, v, imm, _) => MeansDenotes(items, imm, v, false);
    case _ =>
  }

  // ---------------------------------------------------------------------------------------------
  // The second pass
  // ---------------------------------------------------------------------------------------------

  /** Every address that is printed has at most four hexadecimal digits. */
  ghost predicate InRange(items: seq<Item>) {
    forall k {:trigger items[k]} :: 0 <= k < |items| ==> PrintsInRange(items, k)
  }

  predicate PrintsInRange(items: seq<Item>, k: nat)
    requires k < |items|
  {
    var p := PrintedBy(items[k], AddressOf(items, k)); p.CodeAt? ==> p.pos <= 0xFFFF
  }

  /** What the first `k` lines print. */
  function Printout(items: seq<Item>, k: nat): (rs: seq<Record>)
    requires k <= |items|
    ensures |rs| == k
  {
    if k == 0 then []
    else Printout(items, k - 1) + [Record(PrintedBy(items[k - 1], AddressOf(items, k - 1)), items[k - 1].text)]
  }

  lemma {:induction false} SecondPassAt(items: seq<Item>, k: nat)
    requires WellWritten(items) && InRange(items) && k <= |items|
    ensures var p := Before(Lines(items), k);
            && !p.failed && !p.abort && p.asm.pos == AddressOf(items, k)
            && p.asm.symbols == FirstPass(Lines(items)).asm.symbols && p.records == Printout(items, k)
  {
    hide Finish, Tokens, Writable, ItemMeans, Beyond, PrintedBy, Denoting, Pass;
    var lines := Lines(items);
    var start := FirstPass(lines).asm.(pos := 0);
    PassNone(start);
    assert lines[..0] == [] && Before(lines, 0) == Assembled(start, false, false, []);
    if k > 0 {
      var x := items[k - 1];
      SecondPassAt(items, k - 1);
      LineAt(items, k - 1);
      assert PrintsInRange(items, k - 1);
      ItemDenotes(items, x);
      NotNothing(x, AddressOf(items, k - 1));
      SecondLine(Before(lines, k - 1).asm, x);
      PassSnoc(start, lines, k - 1, true);
    }
  }

  lemma NotNothing(x: Item, a: nat)
    ensures PrintedBy(x, a) != Nothing
  {
  }

  lemma PassNone(start: Asm)
    requires |start.code| == 10
    ensures Pass(start, [], true) == Assembled(start, false, false, [])
  {
  }

  lemma {:induction false} PrintoutAt(items: seq<Item>, k: nat, j: nat)
    requires j < k <= |items|
    ensures Printout(items, k)[j] == Record(PrintedBy(items[j], AddressOf(items, j)), items[j].text)
  {
    hide PrintedBy, AddressOf;
    if j < k - 1 { PrintoutAt(items, k - 1, j); }
  }

  // ---------------------------------------------------------------------------------------------
  // In memory
  // ---------------------------------------------------------------------------------------------

  /** The bytes of lines `j` and `k` do not overlap. */
  predicate ClearOf(items: seq<Item>, j: nat, k: nat)
    requires j < |items| && k < |items|
  {
    || Chunk(items[j]) == [] || Chunk(items[k]) == []
    || AddressOf(items, j) + |Chunk(items[j])| <= AddressOf(items, k)
    || AddressOf(items, k) + |Chunk(items[k])| <= AddressOf(items, j)
  }

  ghost predicate NoOverlap(items: seq<Item>) {
    forall j, k {:trigger ClearOf(items, j, k)} :: 0 <= j < k < |items| ==> ClearOf(items, j, k)
  }

  /** Line `k` lies inside a memory of `size` bytes. */
  predicate LineInside(items: seq<Item>, k: nat, size: nat)
    requires k < |items|
  {
    PrintedBy(items[k], AddressOf(items, k)).CodeAt? ==>
      PrintedBy(items[k], AddressOf(items, k)).pos + |Chunk(items[k])| <= size
  }

  ghost predicate Inside(items: seq<Item>, size: nat) {
    forall k {:trigger items[k]} :: 0 <= k < |items| ==> LineInside(items, k, size)
  }

  lemma ChunkSize(x: Item)
    requires Writable(x)
    ensures |Chunk(x)| <= 10
    ensures x.Code? ==> Assembly.Encodable(x.i)
  {
  }

  lemma PrintoutLoadable(items: seq<Item>, size: nat)
    requires WellWritten(items) && InRange(items) && Inside(items, size)
    ensures AllLoadable(Printout(items, |items|), size)
  {
    hide Printout, AddressOf, Chunk, Writable, ItemMeans;
    var rs := Printout(items, |items|);
    forall k | 0 <= k < |rs|
      ensures Loadable(rs[k], size)
    {
      PrintoutAt(items, |items|, k);
      assert Writable(items[k]) && PrintsInRange(items, k) && LineInside(items, k, size);
      ChunkSize(items[k]);
    }
  }

  predicate Covers(r: Record, p: nat) { r.printed.CodeAt? && r.printed.pos <= p < r.printed.pos + |r.printed.bytes| }

  /** The byte at `p` of the last record that covers it. */
  function LastByte(rs: seq<Record>, p: nat): Option<Byte> {
    if rs == [] then None
    else
      var last := rs[|rs| - 1];
      if Covers(last, p) then Some(last.printed.bytes[p - last.printed.pos]) else LastByte(rs[..|rs| - 1], p)
  }

  lemma {:induction false} ImageByte(m: Bytes, rs: seq<Record>, p: nat)
    requires AllLoadable(rs, |m|) && p < |m|
    ensures Image(m, rs).0[p] == match LastByte(rs, p) case None => m[p] case Some(b) => b
  {
    if rs != [] {
      assert Loadable(rs[|rs| - 1], |m|);
      ImageByte(m, rs[..|rs| - 1], p);
    }
  }

  lemma {:induction false} LastByteIs(rs: seq<Record>, k: nat, p: nat)
    requires k < |rs| && Covers(rs[k], p) && forall l :: k < l < |rs| ==> !Covers(rs[l], p)
    ensures LastByte(rs, p) == Some(rs[k].printed.bytes[p - rs[k].printed.pos])
  {
    if k < |rs| - 1 {
      assert !Covers(rs[|rs| - 1], p);
      LastByteIs(rs[..|rs| - 1], k, p);
    }
  }

  lemma {:induction false} NoByte(rs: seq<Record>, p: nat)
    requires forall k :: 0 <= k < |rs| ==> !Covers(rs[k], p)
    ensures LastByte(rs, p) == None
  {
    if rs != [] { NoByte(rs[..|rs| - 1], p); }
  }

  /** What a program leaves of memory `m`, as `m'`: every line's bytes at its address, all other bytes as before. */
  ghost predicate Holds(items: seq<Item>, m: Bytes, m': Bytes) {
    && |m'| == |m|
    && (forall k {:trigger items[k]} :: 0 <= k < |items| ==> HoldsLine(items, k, m'))
    && forall p: nat {:trigger m'[p]} :: p < |m| && Outside(items, p) ==> m'[p] == m[p]
  }

  predicate HoldsLine(items: seq<Item>, k: nat, m': Bytes)
    requires k < |items|
  {
    Chunk(items[k]) != [] ==>
      var a := AddressOf(items, k);
      a + |Chunk(items[k])| <= |m'| && m'[a..a + |Chunk(items[k])|] == Chunk(items[k])
  }

  ghost predicate Outside(items: seq<Item>, p: nat) {
    forall k {:trigger items[k]} :: 0 <= k < |items| ==>
      !(AddressOf(items, k) <= p < AddressOf(items, k) + |Chunk(items[k])|)
  }

  lemma PrintedCovers(items: seq<Item>, k: nat, p: nat)
    requires k < |items|
    ensures Covers(Printout(items, |items|)[k], p) <==>
            AddressOf(items, k) <= p < AddressOf(items, k) + |Chunk(items[k])|
    ensures Covers(Printout(items, |items|)[k], p) ==>
            var r := Printout(items, |items|)[k].printed; r.pos == AddressOf(items, k) && r.bytes == Chunk(items[k])
  {
    hide AddressOf, Printout, Beyond;
    PrintoutAt(items, |items|, k);
  }

  lemma ImageHolds(items: seq<Item>, m: Bytes)
    requires AllLoadable(Printout(items, |items|), |m|) && NoOverlap(items) && Inside(items, |m|)
    ensures Holds(items, m, Image(m, Printout(items, |items|)).0)
  {
    hide Printout, AddressOf, Chunk, AllLoadable, Image;
    var rs := Printout(items, |items|);
    var m' := Image(m, rs).0;
    forall k | 0 <= k < |items|
      ensures HoldsLine(items, k, m')
    {
      assert LineInside(items, k, |m|);
      LineHeld(items, k, m);
    }
    forall p: nat | p < |m| && Outside(items, p)
      ensures m'[p] == m[p]
    {
      ImageByte(m, rs, p);
      forall k | 0 <= k < |rs| ensures !Covers(rs[k], p) { PrintedCovers(items, k, p); }
      NoByte(rs, p);
    }
  }

  lemma LineHeld(items: seq<Item>, k: nat, m: Bytes)
    requires AllLoadable(Printout(items, |items|), |m|) && NoOverlap(items) && k < |items| && LineInside(items, k, |m|)
    ensures HoldsLine(items, k, Image(m, Printout(items, |items|)).0)
  {
    hide Printout, AddressOf, AllLoadable, Image, Beyond, Chunk;
    var m' := Image(m, Printout(items, |items|)).0;
    var a, chunk := AddressOf(items, k), Chunk(items[k]);
    if chunk != [] {
      HasAddress(items, k);
      forall b: nat | b < |chunk|
        ensures m'[a + b] == chunk[b]
      {
        ByteHeld(items, k, m, b);
      }
      assert m'[a..a + |chunk|] == chunk;
    }
  }

  lemma HasAddress(items: seq<Item>, k: nat)
    requires k < |items| && Chunk(items[k]) != []
    ensures PrintedBy(items[k], AddressOf(items, k)) == CodeAt(AddressOf(items, k), Chunk(items[k]))
  {
    hide AddressOf;
  }

  lemma ByteHeld(items: seq<Item>, k: nat, m: Bytes, b: nat)
    requires AllLoadable(Printout(items, |items|), |m|) && NoOverlap(items) && k < |items| && b < |Chunk(items[k])|
    requires AddressOf(items, k) + |Chunk(items[k])| <= |m|
    ensures Image(m, Printout(items, |items|)).0[AddressOf(items, k) + b] == Chunk(items[k])[b]
  {
    hide Printout, AddressOf, AllLoadable, Image, Chunk, Covers;
    var rs, p := Printout(items, |items|), AddressOf(items, k) + b;
    ImageByte(m, rs, p);
    PrintedCovers(items, k, p);
    forall l | k < l < |rs|
      ensures !Covers(rs[l], p)
    {
      PrintedCovers(items, l, p);
      assert ClearOf(items, k, l);
    }
    LastByteIs(rs, k, p);
  }

  /** A program whose constants are numbers or labels of its lines, and whose lines do not overlap, assembles
      without error; loading the output into any memory with room puts every instruction and datum, with every
      label resolved, at its address, and changes no other byte. */
  lemma ProgramLoads(items: seq<Item>, m: Bytes)
    requires WellWritten(items) && InRange(items) && NoOverlap(items) && Inside(items, |m|)
    ensures var one, two := FirstPass(Lines(items)), SecondPass(Lines(items));
            && !one.failed && !two.failed && AllPrintable(two.records)
            && LoadLines(m, Texts(two.records)).ok && Holds(items, m, LoadLines(m, Texts(two.records)).m)
  {
    hide WellWritten, InRange, NoOverlap, Inside, FirstPass, SecondPass, LoadLines, Texts, Lines, Holds, Printout,
      Image, AllLoadable;
    PassesEnd(items);
    PrintoutLoadable(items, |m|);
    OutputLoads(m, Printout(items, |items|));
    ImageHolds(items, m);
  }

  lemma PassesEnd(items: seq<Item>)
    requires WellWritten(items) && InRange(items)
    ensures !FirstPass(Lines(items)).failed && !SecondPass(Lines(items)).failed
    ensures SecondPass(Lines(items)).records == Printout(items, |items|)
  {
    hide WellWritten, InRange, Pass, Lines, Printout, AddressOf;
    FirstPassAt(items, |items|);
    SecondPassAt(items, |items|);
    assert Lines(items)[..|items|] == Lines(items);
  }

  /** The instruction of a line of a loaded program is fetched at the line's address. */
  lemma FetchedFrom(items: seq<Item>, m: Bytes, m': Bytes, k: nat)
    requires WellWritten(items) && Holds(items, m, m') && |m| <= Assembly.MAX_MEM && k < |items| && items[k].Code?
    ensures Assembly.At(m', AddressOf(items, k), items[k].i)
    ensures Isa.Fetch(m', AddressOf(items, k)) == Some(Assembly.Decoded(items[k].i, AddressOf(items, k)))
  {
    hide AddressOf, Isa.Fetch, Assembly.Decoded, ItemMeans, Assembly.Encode, Valid;
    assert HoldsLine(items, k, m') && Writable(items[k]);
    ChunkSize(items[k]);
    EncodeSome(items[k].i);
    Assembly.FetchEncoded(m', AddressOf(items, k), items[k].i);
  }

  lemma EncodeSome(i: Assembly.Instr)
    requires Assembly.Encodable(i)
    ensures Assembly.Encode(i) != []
  {
  }
}
