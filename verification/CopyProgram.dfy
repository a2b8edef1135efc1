/**
  The whole program of `copy_block.asm`, for source and destination blocks of any words and any length that fits
  below its stack: assembled from its source lines, loaded, and run on the ISA and on SEQ.
*/
module CopyProgram {
  import opened Lists
  import opened Words
  import opened Bits
  import opened ByteMemory
  import opened Yas
  import opened Isa
  import opened Assembly
  import opened Sources
  import opened Programs
  import opened ProgramText
  import opened Alu
  import opened SeqSim
  import opened SeqRefinement
  import CopyBlock

  const STACK: nat := 0x200
  const SRC: nat := 24

  /** With one word more the two return addresses on the stack would overwrite the end of the code. */
  const MAX_LENGTH: nat := 21

  function Dest(n: nat): nat { SRC + 8 * n }

  function MainAt(n: nat): nat { SRC + 16 * n }

  function CopyAt(n: nat): nat { SRC + 16 * n + 40 }

  // ---------------------------------------------------------------------------------------------
  // The source lines
  // ---------------------------------------------------------------------------------------------

  /** Where the fourteen instructions of `copy_block` start. */
  function CopyOffset(j: nat): nat
    requires j <= 14
  {
    match j
    case 0 => 0
    case 1 => 10
    case 2 => 12
    case 3 => 21
    case 4 => 31
    case 5 => 41
    case 6 => 43
    case 7 => 53
    case 8 => 55
    case 9 => 57
    case 10 => 67
    case 11 => 69
    case 12 => 71
    case 13 => 80
    case _ => 81
  }

  function StartLine(k: nat, n: nat): Item
    requires k < 6 && n <= MAX_LENGTH
  {
    match k
    case 0 => Pos(0, "")
    case 1 => Sources.Code(None, IRmov(STACK, RSP), [Ident("stack")], "")
    case 2 => Sources.Code(None, Call(MainAt(n)), [Ident("main")], "")
    case 3 => Sources.Code(None, Halt, [Num(0)], "")
    case 4 => Align(8, "")
    case _ => Label("src", "")
  }

  function MainLine(k: nat, n: nat): Item
    requires k < 6 && n <= MAX_LENGTH
  {
    match k
    case 0 => Label("main", "")
    case 1 => Sources.Code(None, IRmov(n, RDX), [Num(n)], "")
    case 2 => Sources.Code(None, IRmov(Dest(n), RSI), [Ident("dest")], "")
    case 3 => Sources.Code(None, IRmov(SRC, RDI), [Ident("src")], "")
    case 4 => Sources.Code(None, Call(CopyAt(n)), [Ident("copy_block")], "")
    case _ => Sources.Code(None, Ret, [Num(0)], "")
  }

  function CopyInstr(j: nat, n: nat): Instr
    requires j < 14 && n <= MAX_LENGTH
  {
    match j
    case 0 => IRmov(0, RAX)
    case 1 => Assembly.Alu(A_AND, RDX, RDX)
    case 2 => Jmp(C_LE, CopyAt(n) + 80)
    case 3 => MRmov(0, RDI, 10)
    case 4 => IRmov(8, 11)
    case 5 => Assembly.Alu(A_ADD, 11, RDI)
    case 6 => RMmov(10, 0, RSI)
    case 7 => Assembly.Alu(A_ADD, 11, RSI)
    case 8 => Assembly.Alu(A_XOR, 10, RAX)
    case 9 => IRmov(1, 11)
    case 10 => Assembly.Alu(A_SUB, 11, RDX)
    case 11 => Assembly.Alu(A_AND, RDX, RDX)
    case 12 => Jmp(C_G, CopyAt(n) + 21)
    case _ => Ret
  }

  function CopyLine(j: nat, n: nat): Item
    requires j < 14 && n <= MAX_LENGTH
  {
    var mark := if j == 3 then Some("loop") else if j == 13 then Some("test") else None;
    var i := CopyInstr(j, n);
    var imm := if j == 2 then [Ident("test")] else if j == 12 then [Ident("loop")]
               else if j in {3, 6} then [] else [Num(Imm(i))];
    Sources.Code(mark, i, imm, "")
  }

  /** Line `k` of the program for the words `xs` and a destination that first holds `ys`.  The text of the lines,
      which is only printed behind their code, is left empty. */
  function LineOfProgram(xs: seq<Word>, ys: seq<Word>, k: nat): Item
    requires |xs| == |ys| <= MAX_LENGTH && k < 30 + 2 * |xs|
  {
    var n := |xs|;
    if k < 6 then StartLine(k, n)
    else if k < 6 + n then Datum(None, 8, xs[k - 6], [Num(xs[k - 6])], "")
    else if k == 6 + n then Label("dest", "")
    else if k < 7 + 2 * n then Datum(None, 8, ys[k - 7 - n], [Num(ys[k - 7 - n])], "")
    else if k < 13 + 2 * n then MainLine(k - 7 - 2 * n, n)
    else if k == 13 + 2 * n then Label("copy_block", "")
    else if k < 28 + 2 * n then CopyLine(k - 14 - 2 * n, n)
    else if k == 28 + 2 * n then Pos(STACK, "")
    else Label("stack", "")
  }

  function Program(xs: seq<Word>, ys: seq<Word>): (items: seq<Item>)
    requires |xs| == |ys| <= MAX_LENGTH
    ensures |items| == 30 + 2 * |xs|
  {
    seq(30 + 2 * |xs|, k requires 0 <= k < 30 + 2 * |xs| => LineOfProgram(xs, ys, k))
  }

  /** The address at which line `k` starts. */
  function AddressIs(k: nat, n: nat): nat
    requires n <= MAX_LENGTH && k <= 30 + 2 * n
  {
    if k < 6 then StartAddress(k)
    else if k <= 6 + n then SRC + 8 * (k - 6)
    else if k <= 7 + 2 * n then Dest(n) + 8 * (k - 7 - n)
    else if k < 14 + 2 * n then MainAt(n) + MainOffset(k - 7 - 2 * n)
    else if k <= 28 + 2 * n then CopyAt(n) + CopyOffset(k - 14 - 2 * n)
    else STACK
  }

  function StartAddress(k: nat): nat
    requires k < 6
  {
    match k
    case 0 => 0
    case 1 => 0
    case 2 => 10
    case 3 => 19
    case 4 => 20
    case _ => 24
  }

  function MainOffset(k: nat): nat
    requires k < 7
  {
    match k
    case 0 => 0
    case 1 => 0
    case 2 => 10
    case 3 => 20
    case 4 => 30
    case 5 => 39
    case _ => 40
  }

  lemma StartStep(k: nat, n: nat)
    requires k < 6 && n <= MAX_LENGTH
    ensures Beyond(StartLine(k, n), StartAddress(k)) == if k < 5 then StartAddress(k + 1) else SRC
  {
  }

  lemma MainStep(k: nat, n: nat)
    requires k < 6 && n <= MAX_LENGTH
    ensures Beyond(MainLine(k, n), MainAt(n) + MainOffset(k)) == MainAt(n) + MainOffset(k + 1)
  {
  }

  lemma CopyStep(j: nat, n: nat)
    requires j < 14 && n <= MAX_LENGTH
    ensures Beyond(CopyLine(j, n), CopyAt(n) + CopyOffset(j)) == CopyAt(n) + CopyOffset(j + 1)
  {
  }

  lemma AddressStep(xs: seq<Word>, ys: seq<Word>, k: nat)
    requires |xs| == |ys| <= MAX_LENGTH && k < 30 + 2 * |xs|
    ensures AddressIs(k + 1, |xs|) == Beyond(LineOfProgram(xs, ys, k), AddressIs(k, |xs|))
  {
    hide StartLine, MainLine, CopyLine, StartAddress;
    var n := |xs|;
    FirstAddresses(n);
    if k < 6 {
      StartStep(k, n);
    } else if 7 + 2 * n <= k < 13 + 2 * n {
      MainStep(k - 7 - 2 * n, n);
    } else if 14 + 2 * n <= k < 28 + 2 * n {
      CopyStep(k - 14 - 2 * n, n);
    }
  }

  lemma FirstAddresses(n: nat)
    ensures StartAddress(5) == SRC && MainOffset(0) == 0 && MainOffset(6) == 40
    ensures CopyOffset(0) == 0 && CopyOffset(14) == 81
  {
  }

  lemma {:induction false} Addresses(xs: seq<Word>, ys: seq<Word>, k: nat)
    requires |xs| == |ys| <= MAX_LENGTH && k <= 30 + 2 * |xs|
    ensures AddressOf(Program(xs, ys), k) == AddressIs(k, |xs|)
  {
    hide Beyond, LineOfProgram;
    if k == 0 {
      NoLines(|xs|);
    } else {
      Addresses(xs, ys, k - 1);
      AddressStep(xs, ys, k - 1);
    }
  }

  lemma NoLines(n: nat)
    requires n <= MAX_LENGTH
    ensures AddressIs(0, n) == 0
  {
  }

  // ---------------------------------------------------------------------------------------------
  // It assembles and loads
  // ---------------------------------------------------------------------------------------------

  /** The lines that carry a label. */
  function MarkAt(k: nat, n: nat): Option<string> {
    if k == 5 then Some("src") else if k == 6 + n then Some("dest") else if k == 7 + 2 * n then Some("main")
    else if k == 13 + 2 * n then Some("copy_block") else if k == 17 + 2 * n then Some("loop")
    else if k == 27 + 2 * n then Some("test") else if k == 29 + 2 * n then Some("stack") else None
  }

  lemma MarkIs(xs: seq<Word>, ys: seq<Word>, k: nat)
    requires |xs| == |ys| <= MAX_LENGTH && k < 30 + 2 * |xs|
    ensures MarkOf(LineOfProgram(xs, ys, k)) == MarkAt(k, |xs|)
  {
    hide CopyInstr;
  }

  lemma MarkedOnce(j: nat, k: nat, n: nat)
    requires MarkAt(k, n).Some? && MarkAt(j, n) == MarkAt(k, n)
    ensures j == k
  {
    assert "src"[0] == 's' && "stack"[0] == 's' && "src"[1] == 'r' && "stack"[1] == 't';
    assert "dest"[0] == 'd' && "main"[0] == 'm' && "copy_block"[0] == 'c' && "loop"[0] == 'l' && "test"[0] == 't';
  }

  /** What a label's name stands for. */
  lemma NameMeans(xs: seq<Word>, ys: seq<Word>, k: nat, name: string)
    requires |xs| == |ys| <= MAX_LENGTH && k < 30 + 2 * |xs| && MarkAt(k, |xs|) == Some(name)
    ensures Means(Program(xs, ys), [Ident(name)], AddressIs(k, |xs|), false)
  {
    hide LineOfProgram, MarkAt, AddressIs;
    var items := Program(xs, ys);
    MarkIs(xs, ys, k);
    forall j: nat | j < k
      ensures MarkOf(items[j]) != Some(name)
    {
      MarkIs(xs, ys, j);
      if MarkAt(j, |xs|) == Some(name) { MarkedOnce(j, k, |xs|); }
    }
    Addresses(xs, ys, k);
    assert Labels(items, name, k);
  }

  lemma StartMeans(xs: seq<Word>, ys: seq<Word>, k: nat)
    requires |xs| == |ys| <= MAX_LENGTH && k < 6
    ensures Writable(StartLine(k, |xs|)) && ItemMeans(Program(xs, ys), StartLine(k, |xs|))
  {
    hide Means;
    var n := |xs|;
    NameMeans(xs, ys, 29 + 2 * n, "stack");
    NameMeans(xs, ys, 7 + 2 * n, "main");
    FirstAddresses(n);
    NumberMeans(Program(xs, ys), 0);
  }

  lemma NumberMeans(items: seq<Item>, v: Word)
    ensures Means(items, [Num(v)], v, false)
  {
  }

  lemma MainMeans(xs: seq<Word>, ys: seq<Word>, k: nat)
    requires |xs| == |ys| <= MAX_LENGTH && k < 6
    ensures Writable(MainLine(k, |xs|)) && ItemMeans(Program(xs, ys), MainLine(k, |xs|))
  {
    hide Means;
    var n := |xs|;
    NameMeans(xs, ys, 5, "src");
    NameMeans(xs, ys, 6 + n, "dest");
    NameMeans(xs, ys, 13 + 2 * n, "copy_block");
    FirstAddresses(n);
    NumberMeans(Program(xs, ys), 0);
    NumberMeans(Program(xs, ys), n);
  }

  lemma CopyMeans(xs: seq<Word>, ys: seq<Word>, j: nat)
    requires |xs| == |ys| <= MAX_LENGTH && j < 14
    ensures Writable(CopyLine(j, |xs|)) && ItemMeans(Program(xs, ys), CopyLine(j, |xs|))
  {
    hide LineOfProgram;
    var n := |xs|;
    if j == 2 {
      NameMeans(xs, ys, 27 + 2 * n, "test");
    } else if j == 12 {
      NameMeans(xs, ys, 17 + 2 * n, "loop");
    }
  }

  lemma ProgramWritten(xs: seq<Word>, ys: seq<Word>)
    requires |xs| == |ys| <= MAX_LENGTH
    ensures WellWritten(Program(xs, ys))
  {
    hide StartLine, MainLine, CopyLine;
    var items, n := Program(xs, ys), |xs|;
    forall k | 0 <= k < |items|
      ensures Writable(items[k]) && ItemMeans(items, items[k])
    {
      if k < 6 {
        StartMeans(xs, ys, k);
      } else if 7 + 2 * n <= k < 13 + 2 * n {
        MainMeans(xs, ys, k - 7 - 2 * n);
      } else if 14 + 2 * n <= k < 28 + 2 * n {
        CopyMeans(xs, ys, k - 14 - 2 * n);
      }
    }
  }

  /** Each line's bytes end where the next line starts, or before. */
  lemma LineEnds(xs: seq<Word>, ys: seq<Word>, k: nat)
    requires |xs| == |ys| <= MAX_LENGTH && k < 30 + 2 * |xs|
    ensures AddressIs(k, |xs|) + |Chunk(LineOfProgram(xs, ys, k))| <= AddressIs(k + 1, |xs|) <= STACK
    ensures PrintedBy(LineOfProgram(xs, ys, k), AddressIs(k, |xs|)).CodeAt? ==>
              PrintedBy(LineOfProgram(xs, ys, k), AddressIs(k, |xs|)).pos
                + |Chunk(LineOfProgram(xs, ys, k))| <= AddressIs(k + 1, |xs|)
  {
    AddressStep(xs, ys, k);
    AddressBound(k + 1, |xs|);
    AddressBound(k, |xs|);
    DirectiveIs(xs, ys, k);
    hide AddressIs, LineOfProgram, Beyond;
    ChunkBeyond(LineOfProgram(xs, ys, k), AddressIs(k, |xs|));
  }

  lemma AddressBound(k: nat, n: nat)
    requires n <= MAX_LENGTH && k <= 30 + 2 * n
    ensures AddressIs(k, n) <= STACK
  {
  }

  /** No directive moves the address back. */
  lemma DirectiveIs(xs: seq<Word>, ys: seq<Word>, k: nat)
    requires |xs| == |ys| <= MAX_LENGTH && k < 30 + 2 * |xs|
    ensures var x := LineOfProgram(xs, ys, k); x.Pos? || x.Align? ==> AddressIs(k, |xs|) <= AddressIs(k + 1, |xs|)
  {
    hide CopyInstr;
    AddressBound(k, |xs|);
  }

  lemma ChunkBeyond(x: Item, a: nat)
    requires x.Pos? || x.Align? ==> a <= Beyond(x, a)
    ensures a + |Chunk(x)| <= Beyond(x, a)
    ensures PrintedBy(x, a).CodeAt? ==> PrintedBy(x, a).pos + |Chunk(x)| <= Beyond(x, a)
  {
    hide Assembly.Encode, ToBytes, AlignUp;
  }

  lemma {:induction false} LinesApart(xs: seq<Word>, ys: seq<Word>, j: nat, k: nat)
    requires |xs| == |ys| <= MAX_LENGTH && j < k <= 30 + 2 * |xs|
    ensures AddressIs(j, |xs|) + |Chunk(LineOfProgram(xs, ys, j))| <= AddressIs(k, |xs|)
  {
    hide AddressIs, LineOfProgram, Chunk, PrintedBy;
    LineEnds(xs, ys, k - 1);
    if j + 1 < k { LinesApart(xs, ys, j, k - 1); }
  }

  lemma ProgramFits(xs: seq<Word>, ys: seq<Word>, size: nat)
    requires |xs| == |ys| <= MAX_LENGTH && STACK <= size
    ensures var items := Program(xs, ys); InRange(items) && NoOverlap(items) && Inside(items, size)
  {
    hide AddressIs, LineOfProgram, Chunk, PrintedBy, AddressOf;
    var items := Program(xs, ys);
    forall k | 0 <= k < |items|
      ensures PrintsInRange(items, k) && LineInside(items, k, size)
    {
      Addresses(xs, ys, k);
      LineEnds(xs, ys, k);
    }
    forall j, k | 0 <= j < k < |items|
      ensures ClearOf(items, j, k)
    {
      Addresses(xs, ys, j);
      Addresses(xs, ys, k);
      LinesApart(xs, ys, j, k);
    }
  }

  /** What loading the program makes of memory. */
  ghost predicate Image(xs: seq<Word>, m: Bytes) {
    var n := |xs|;
    && n <= MAX_LENGTH && STACK <= |m| <= MAX_MEM
    && At(m, 0, IRmov(STACK, RSP)) && At(m, 10, Call(MainAt(n))) && At(m, 19, Halt)
    && At(m, MainAt(n), IRmov(n, RDX)) && At(m, MainAt(n) + 10, IRmov(Dest(n), RSI))
    && At(m, MainAt(n) + 20, IRmov(SRC, RDI)) && At(m, MainAt(n) + 30, Call(CopyAt(n)))
    && At(m, MainAt(n) + 39, Ret) && CopyBlock.Loaded(m, CopyAt(n)) && WordsAt(m, SRC, xs)
  }

  /** The instruction of line `k` is at its address. */
  lemma LineLoaded(xs: seq<Word>, ys: seq<Word>, m: Bytes, m': Bytes, k: nat)
    requires |xs| == |ys| <= MAX_LENGTH && Holds(Program(xs, ys), m, m') && |m| <= MAX_MEM
    requires k < 30 + 2 * |xs| && LineOfProgram(xs, ys, k).Code?
    ensures At(m', AddressIs(k, |xs|), LineOfProgram(xs, ys, k).i)
  {
    hide LineOfProgram, AddressIs, AddressOf, Holds, At, WellWritten;
    ProgramWritten(xs, ys);
    Addresses(xs, ys, k);
    FetchedFrom(Program(xs, ys), m, m', k);
  }

  lemma WordLoaded(xs: seq<Word>, ys: seq<Word>, m: Bytes, m': Bytes, j: nat)
    requires |xs| == |ys| <= MAX_LENGTH && Holds(Program(xs, ys), m, m') && STACK <= |m| && j < |xs|
    ensures WordAt(m', SRC + 8 * j) == xs[j]
  {
    hide LineOfProgram, AddressOf, ToBytes, FromBytes, Wrap;
    Addresses(xs, ys, 6 + j);
    WordLine(xs, ys, j);
    assert HoldsLine(Program(xs, ys), 6 + j, m');
    WordRoundTrip(xs[j]);
  }

  lemma WordLine(xs: seq<Word>, ys: seq<Word>, j: nat)
    requires |xs| == |ys| <= MAX_LENGTH && j < |xs|
    ensures Chunk(LineOfProgram(xs, ys, 6 + j)) == ToBytes(xs[j], 8) && |ToBytes(xs[j], 8)| == 8
  {
    hide ToBytes;
  }

  lemma CopyLoaded(xs: seq<Word>, ys: seq<Word>, m: Bytes, m': Bytes)
    requires |xs| == |ys| <= MAX_LENGTH && Holds(Program(xs, ys), m, m') && STACK <= |m| <= MAX_MEM
    ensures CopyBlock.Loaded(m', CopyAt(|xs|))
  {
    hide LineOfProgram, At, CopyBlock.Listing, AddressIs;
    var n := |xs|;
    HoldsSize(Program(xs, ys), m, m');
    forall off: nat | CopyBlock.Listing(CopyAt(n), off).Some?
      ensures At(m', CopyAt(n) + off, CopyBlock.Listing(CopyAt(n), off).value)
    {
      var j := CopyListed(xs, ys, off);
      LineLoaded(xs, ys, m, m', 14 + 2 * n + j);
    }
  }

  lemma HoldsSize(items: seq<Item>, m: Bytes, m': Bytes)
    requires Holds(items, m, m')
    ensures |m'| == |m|
  {
  }

  /** The lines of `copy_block` are its listing. */
  lemma CopyListed(xs: seq<Word>, ys: seq<Word>, off: nat) returns (j: nat)
    requires |xs| == |ys| <= MAX_LENGTH && CopyBlock.Listing(CopyAt(|xs|), off).Some?
    ensures j < 14 && AddressIs(14 + 2 * |xs| + j, |xs|) == CopyAt(|xs|) + off
    ensures var x := LineOfProgram(xs, ys, 14 + 2 * |xs| + j);
            x.Code? && Some(x.i) == CopyBlock.Listing(CopyAt(|xs|), off)
  {
    j := CopyIndex(off);
    CopyEntry(|xs|, j);
  }

  lemma CopyIndex(off: nat) returns (j: nat)
    requires off in {0, 10, 12, 21, 31, 41, 43, 53, 55, 57, 67, 69, 71, 80}
    ensures j < 14 && CopyOffset(j) == off
  {
    j := match off
      case 0 => 0
      case 10 => 1
      case 12 => 2
      case 21 => 3
      case 31 => 4
      case 41 => 5
      case 43 => 6
      case 53 => 7
      case 55 => 8
      case 57 => 9
      case 67 => 10
      case 69 => 11
      case 71 => 12
      case _ => 13;
  }

  lemma CopyEntry(n: nat, j: nat)
    requires n <= MAX_LENGTH && j < 14
    ensures CopyBlock.Listing(CopyAt(n), CopyOffset(j)) == Some(CopyInstr(j, n))
  {
  }

  lemma ImageLoaded(xs: seq<Word>, ys: seq<Word>, m: Bytes, m': Bytes)
    requires |xs| == |ys| <= MAX_LENGTH && Holds(Program(xs, ys), m, m') && STACK <= |m| <= MAX_MEM
    ensures Image(xs, m')
  {
    hide Holds, At, CopyBlock.Loaded, CopyLine, WordAt;
    var n, items := |xs|, Program(xs, ys);
    HoldsSize(items, m, m');
    LineLoaded(xs, ys, m, m', 1);
    LineLoaded(xs, ys, m, m', 2);
    LineLoaded(xs, ys, m, m', 3);
    LineLoaded(xs, ys, m, m', 8 + 2 * n);
    LineLoaded(xs, ys, m, m', 9 + 2 * n);
    LineLoaded(xs, ys, m, m', 10 + 2 * n);
    LineLoaded(xs, ys, m, m', 11 + 2 * n);
    LineLoaded(xs, ys, m, m', 12 + 2 * n);
    CopyLoaded(xs, ys, m, m');
    forall i | 0 <= i < n
      ensures WordAt(m', SRC + 8 * i) == xs[i]
    {
      WordLoaded(xs, ys, m, m', i);
    }
  }

  /** The source assembles without error, and loading the output leaves the program and its data in memory. */
  lemma ProgramAssembles(xs: seq<Word>, ys: seq<Word>, m: Bytes)
    requires |xs| == |ys| <= MAX_LENGTH && STACK <= |m| <= MAX_MEM
    ensures var items := Program(xs, ys);
            WellWritten(items) && Assembles(items, m) && Image(xs, AfterLoading(items, m))
  {
    hide WellWritten, InRange, NoOverlap, Inside, Assembles, AfterLoading, Holds, Image;
    ProgramWritten(xs, ys);
    ProgramFits(xs, ys, |m|);
    LoadsItems(Program(xs, ys), m);
    ImageLoaded(xs, ys, m, AfterLoading(Program(xs, ys), m));
  }

  // ---------------------------------------------------------------------------------------------
  // It runs
  // ---------------------------------------------------------------------------------------------

  /** Whatever leaves the code and the source block alone leaves the program loaded. */
  lemma ImageKept(xs: seq<Word>, m: Bytes, m': Bytes)
    requires Image(xs, m) && |m'| == |m|
    requires m'[0..Dest(|xs|)] == m[0..Dest(|xs|)]
    requires m'[MainAt(|xs|)..STACK - 16] == m[MainAt(|xs|)..STACK - 16]
    ensures Image(xs, m')
  {
    hide At, CopyBlock.Loaded, WordAt;
    var n := |xs|;
    var dest, main, end := Dest(n), MainAt(n), STACK - 16;
    AtKept(m, m', 0, dest, 0, IRmov(STACK, RSP));
    AtKept(m, m', 0, dest, 10, Call(main));
    AtKept(m, m', 0, dest, 19, Halt);
    AtKept(m, m', main, end, main, IRmov(n, RDX));
    AtKept(m, m', main, end, main + 10, IRmov(dest, RSI));
    AtKept(m, m', main, end, main + 20, IRmov(SRC, RDI));
    AtKept(m, m', main, end, main + 30, Call(CopyAt(n)));
    AtKept(m, m', main, end, main + 39, Ret);
    CopyKept(m, m', n);
    WordsStay(m, m', dest, xs);
  }

  lemma CopyKept(m: Bytes, m': Bytes, n: nat)
    requires n <= MAX_LENGTH && STACK <= |m| == |m'| && CopyBlock.Loaded(m, CopyAt(n))
    requires m'[MainAt(n)..STACK - 16] == m[MainAt(n)..STACK - 16]
    ensures CopyBlock.Loaded(m', CopyAt(n))
  {
    hide CopyBlock.Listing, At;
    var base := CopyAt(n);
    forall off: nat | CopyBlock.Listing(base, off).Some?
      ensures At(m', base + off, CopyBlock.Listing(base, off).value)
    {
      CopyBlock.ListingInside(base, off);
      AtKept(m, m', MainAt(n), STACK - 16, base + off, CopyBlock.Listing(base, off).value);
    }
  }

  lemma WordsStay(m: Bytes, m': Bytes, hi: nat, xs: seq<Word>)
    requires hi <= |m| == |m'| && m'[0..hi] == m[0..hi] && WordsAt(m, SRC, xs) && SRC + 8 * |xs| <= hi
    ensures WordsAt(m', SRC, xs)
  {
    hide FromBytes, Wrap;
    forall i | 0 <= i < |xs|
      ensures WordAt(m', SRC + 8 * i) == xs[i]
    {
      SliceOfSlice(m, 0, hi, SRC + 8 * i, SRC + 8 * i + 8);
      SliceOfSlice(m', 0, hi, SRC + 8 * i, SRC + 8 * i + 8);
    }
  }

  /** A store above the code leaves the program loaded. */
  lemma ImageAfterPush(xs: seq<Word>, m: Bytes, a: int, v: Word)
    requires Image(xs, m) && STACK - 16 <= a && WordInside(m, a)
    ensures Image(xs, PutWord(m, a, v))
  {
    hide At, CopyBlock.Loaded, WordAt, PutWord;
    PutFrame(m, a, v, 0, Dest(|xs|));
    PutFrame(m, a, v, MainAt(|xs|), STACK - 16);
    ImageKept(xs, m, PutWord(m, a, v));
  }

  lemma ImageAfterCopy(xs: seq<Word>, m: Bytes)
    requires Image(xs, m) && Region(m, Dest(|xs|), |xs|)
    ensures Image(xs, WriteWords(m, Dest(|xs|), xs))
  {
    hide At, CopyBlock.Loaded, WordAt, WriteWords;
    WriteWordsFrame(m, Dest(|xs|), xs, 0, Dest(|xs|));
    WriteWordsFrame(m, Dest(|xs|), xs, MainAt(|xs|), STACK - 16);
    ImageKept(xs, m, WriteWords(m, Dest(|xs|), xs));
  }

  lemma ImageFits(xs: seq<Word>, m: Bytes)
    requires Image(xs, m)
    ensures |xs| <= MAX_LENGTH && STACK <= |m| <= MAX_MEM && Region(m, Dest(|xs|), |xs|)
    ensures MainAt(|xs|) < TWO_63 && CopyAt(|xs|) < TWO_63
  {
    hide At, CopyBlock.Loaded, WordAt;
  }

  /** From reset: the stack set up, and `main` called. */
  lemma Boot(xs: seq<Word>, s: State) returns (t: State)
    requires Image(xs, s.m) && s.pc == 0 && |s.r| == REG_NONE
    ensures Runs(s, 2, t) && Image(xs, t.m) && t.pc == MainAt(|xs|) && |t.r| == REG_NONE
    ensures t.r == s.r[RSP := STACK - 8] && |t.m| == |s.m|
    ensures WordInside(t.m, STACK - 8) && WordAt(t.m, STACK - 8) == 19
  {
    hide At, CopyBlock.Loaded, WordAt, PutWord, Runs, Step;
    StepIRmov(s, STACK, RSP);
    var u := s.(pc := 10, r := s.r[RSP := STACK]);
    StepCall(u, MainAt(|xs|));
    t := u.(pc := MainAt(|xs|), r := u.r[RSP := STACK - 8], m := PutWord(s.m, STACK - 8, 19));
    RunsTrans(s, 1, u, 1, t);
    ImageAfterPush(xs, s.m, STACK - 8, 19);
    ReadBack(s.m, STACK - 8, 19);
  }

  /** `main`, up to the first instruction of `copy_block`. */
  lemma Main(xs: seq<Word>, s: State) returns (t: State)
    requires Image(xs, s.m) && s.pc == MainAt(|xs|) && |s.r| == REG_NONE && s.r[RSP] == STACK - 8
    requires WordInside(s.m, STACK - 8) && WordAt(s.m, STACK - 8) == 19
    ensures Runs(s, 4, t) && Image(xs, t.m) && t.pc == CopyAt(|xs|) && |t.r| == REG_NONE && |t.m| == |s.m|
    ensures t.r == s.r[RDX := |xs|][RSI := Dest(|xs|)][RDI := SRC][RSP := STACK - 16]
    ensures WordInside(t.m, STACK - 8) && WordAt(t.m, STACK - 8) == 19
    ensures WordAt(t.m, STACK - 16) == MainAt(|xs|) + 39
  {
    hide At, CopyBlock.Loaded, WordAt, PutWord, Runs, Step;
    var n := |xs|;
    ImageFits(xs, s.m);
    StepIRmov(s, n, RDX);
    var u := s.(pc := MainAt(n) + 10, r := s.r[RDX := n]);
    StepIRmov(u, Dest(n), RSI);
    var v := u.(pc := MainAt(n) + 20, r := u.r[RSI := Dest(n)]);
    StepIRmov(v, SRC, RDI);
    var w := v.(pc := MainAt(n) + 30, r := v.r[RDI := SRC]);
    StepCall(w, CopyAt(n));
    var back: Word := MainAt(n) + 39;
    t := w.(pc := CopyAt(n), r := w.r[RSP := STACK - 16], m := PutWord(s.m, STACK - 16, back));
    RunsTrans(s, 1, u, 1, v);
    RunsTrans(s, 2, v, 1, w);
    RunsTrans(s, 3, w, 1, t);
    ImageAfterPush(xs, s.m, STACK - 16, back);
    ReadBack(s.m, STACK - 16, back);
    ReadOther(s.m, STACK - 16, back, STACK - 8);
  }

  lemma CallFits(xs: seq<Word>, s: State)
    requires Image(xs, s.m) && |s.r| == REG_NONE && s.r[RSP] == STACK - 16
    ensures CopyBlock.Fits(CopyBlock.Job(CopyAt(|xs|), SRC, Dest(|xs|), xs, s.m, s.r))
  {
    hide At, CopyBlock.Loaded, WordAt;
  }

  /** The two returns, to the halt. */
  lemma Return(xs: seq<Word>, s: State) returns (t: State)
    requires Image(xs, s.m) && s.pc == MainAt(|xs|) + 39 && |s.r| == REG_NONE && s.r[RSP] == STACK - 8
    requires WordInside(s.m, STACK - 8) && WordAt(s.m, STACK - 8) == 19
    ensures Runs(s, 1, t) && t == s.(pc := 19, r := s.r[RSP := STACK]) && Step(t).1 == HLT
  {
    hide At, CopyBlock.Loaded, WordAt, Runs, Step;
    StepRet(s);
    t := s.(pc := 19, r := s.r[RSP := STACK]);
    HaltAt(t);
  }

  lemma HaltAt(t: State)
    requires At(t.m, t.pc, Halt)
    ensures Step(t).1 == HLT
  {
    hide Encode, Step;
    StepAt(t, Halt);
    Halts(t);
  }

  lemma Halts(t: State)
    ensures Execute(t, Decoded(Halt, t.pc)).1 == HLT
  {
  }

  /** The copied block and the exclusive or: what the program is for. */
  ghost predicate Done(xs: seq<Word>, t: State) {
    && |t.r| == REG_NONE && t.r[RSP] == STACK
    && WordsAt(t.m, SRC, xs) && WordsAt(t.m, Dest(|xs|), xs)
    && forall i: nat {:trigger BitOf(t.r[RAX], i)} :: BitOf(t.r[RAX], i) <==> CopyBlock.BitCount(xs, i) % 2 == 1
  }

  /** From reset the loaded program halts with its work done. */
  lemma ImageRuns(xs: seq<Word>, s: State) returns (n: nat, t: State)
    requires Image(xs, s.m) && s.pc == 0 && |s.r| == REG_NONE
    ensures Runs(s, n, t) && Step(t).1 == HLT && Done(xs, t)
  {
    hide Image, CopyBlock.Fits, WordAt, WriteWords, Runs, Step, BitOf, CopyBlock.BitCount, WordsAt;
    var u := Boot(xs, s);
    var v := Main(xs, u);
    ImageFits(xs, v.m);
    CallFits(xs, v);
    var k, w := CopyBlock.CopyBlockCorrect(v, CopyAt(|xs|), SRC, Dest(|xs|), xs);
    AfterCopy(xs, v.m);
    t := Return(xs, w);
    RunsTrans(s, 2, u, 4, v);
    RunsTrans(s, 6, v, k, w);
    RunsTrans(s, 6 + k, w, 1, t);
    n := 6 + k + 1;
  }

  lemma AfterCopy(xs: seq<Word>, m: Bytes)
    requires Image(xs, m)
    ensures Region(m, Dest(|xs|), |xs|)
    ensures var m' := WriteWords(m, Dest(|xs|), xs);
            && Image(xs, m') && WordsAt(m', SRC, xs) && WordsAt(m', Dest(|xs|), xs)
            && WordInside(m, STACK - 8) && WordAt(m', STACK - 8) == WordAt(m, STACK - 8)
  {
    hide At, CopyBlock.Loaded, WriteWords, FromBytes, Wrap;
    var dest := Dest(|xs|);
    ImageFits(xs, m);
    ImageAfterCopy(xs, m);
    WordsWritten(m, dest, xs);
    WriteWordsFrame(m, dest, xs, STACK - 8, STACK);
  }

  /** The whole way: the source assembles, its output loads into cleared or any other memory, and from reset both
      the ISA and SEQ halt with the block copied and %rax its exclusive or, whatever the registers held. */
  lemma CopyProgramCorrect(xs: seq<Word>, ys: seq<Word>, m: Bytes, r: seq<Word>) returns (n: nat)
    requires |xs| == |ys| <= MAX_LENGTH && STACK <= |m| <= MAX_MEM && |r| == REG_NONE
    ensures WellWritten(Program(xs, ys)) && Assembles(Program(xs, ys), m)
    ensures var m' := AfterLoading(Program(xs, ys), m);
            forall limit: nat {:trigger IsaRun(State(0, r, m', DEFAULT_CC), limit)} :: n < limit ==>
              var t, e := IsaRun(State(0, r, m', DEFAULT_CC), limit).0, IsaRun(State(0, r, m', DEFAULT_CC), limit).1;
              var q, f := SeqRun(Reset(m', r), limit).0, SeqRun(Reset(m', r), limit).1;
              e == HLT && Done(xs, t) && f == HLT && CheckSucceeds(t, q)
  {
    hide WellWritten, Assembles, AfterLoading, Image, Runs, Step, Done, IsaRun, SeqRun, SeqStep;
    ProgramAssembles(xs, ys, m);
    var m' := AfterLoading(Program(xs, ys), m);
    var s := State(0, r, m', DEFAULT_CC);
    var t;
    n, t := ImageRuns(xs, s);
    assert Update(Reset(m', r)) == s;
    forall limit: nat | n < limit
      ensures IsaRun(s, limit) == (t, HLT)
      ensures SeqRun(Reset(m', r), limit).1 == HLT && CheckSucceeds(t, SeqRun(Reset(m', r), limit).0)
    {
      HaltingProgramPasses(s, n, t, limit);
      RunRefines(Reset(m', r), limit);
    }
  }

  // ---------------------------------------------------------------------------------------------
  // The blocks of the original
  // ---------------------------------------------------------------------------------------------

  lemma XorOfThree(x: Word, y: Word, z: Word)
    ensures CopyBlock.XorAll([x, y, z]) == ComputeAlu(A_XOR, z, ComputeAlu(A_XOR, y, ComputeAlu(A_XOR, x, 0)))
  {
    hide ComputeAlu;
    assert [x, y, z][..2] == [x, y] && [x, y][..1] == [x] && [x][..0] == [];
    assert CopyBlock.XorAll([x]) == ComputeAlu(A_XOR, x, CopyBlock.XorAll([]));
    assert CopyBlock.XorAll([x, y]) == ComputeAlu(A_XOR, y, CopyBlock.XorAll([x]));
  }

  lemma XorOfSmall(a: Word, b: Word)
    requires 0 <= a && 0 <= b && BitXor(a, b) < TWO_63
    ensures ComputeAlu(A_XOR, a, b) == BitXor(a, b)
  {
    hide BitXor;
  }

  lemma XorTwice(x: nat, y: nat, d: nat)
    requires d < 2
    ensures BitXor(2 * x, 2 * y + d) == 2 * BitXor(x, y) + d
  {
  }

  /** A digit that the other number leaves room for is put in. */
  lemma XorDigit(x: nat, y: nat, d: nat)
    requires d < 16
    ensures BitXor(16 * x, 16 * y + d) == 16 * BitXor(x, y) + d
  {
    hide BitXor;
    XorTwice(x, y, d / 8);
    XorTwice(2 * x, 2 * y + d / 8, d / 4 % 2);
    XorTwice(4 * x, 4 * y + d / 4, d / 2 % 2);
    XorTwice(8 * x, 8 * y + d / 2, d % 2);
  }

  /** For the source block of the original the answer is 0xcba. */
  lemma ChecksumExample(t: State)
    requires Done([0x00a, 0x0b0, 0xc00], t)
    ensures t.r[RAX] == 0xcba
  {
    hide BitOf, BitXor, ComputeAlu, CopyBlock.BitCount, CopyBlock.XorAll, WordsAt;
    var xs: seq<Word> := [0x00a, 0x0b0, 0xc00];
    forall i: nat { CopyBlock.XorAllBits(xs, i); }
    BitsDetermine(t.r[RAX], CopyBlock.XorAll(xs));
    XorOfThree(0x00a, 0x0b0, 0xc00);
    XorZero(0x00a);
    XorZero(0x00b);
    XorZero(0x00c);
    XorDigit(0x00b, 0x000, 0x00a);
    XorDigit(0x00c, 0x000, 0x00b);
    XorDigit(0x0c0, 0x00b, 0x00a);
    XorOfSmall(0x00a, 0);
    XorOfSmall(0x0b0, 0x00a);
    XorOfSmall(0xc00, 0x0ba);
  }
}
