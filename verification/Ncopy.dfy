/**
  The five-way unrolled `ncopy`, byte for byte as the assembler lays it out from address `base`, run
  on the ISA.
*/
module Ncopy {
  import opened Lists
  import opened Words
  import opened ByteMemory
  import opened Isa
  import opened Assembly
  import opened Programs

  const LENGTH: nat := 779
  const LOOP: nat := 21
  const END_UN: nat := 265
  const DONE: nat := 778

  /** The instruction at offset `off` of the listing, if one starts there. */
  function Listing(base: nat, off: nat): Option<Instr>
    requires base <= MAX_MEM
  {
    if off < 121 then Setup(base, off)
    else if off < 265 then LoopEnd(base, off)
    else if off < 341 then Leftover(base, off)
    else if off < 421 then FourLeft(base, off)
    else if off < 514 then FourTests(base, off)
    else if off < 646 then ThreeLeft(base, off)
    else TwoOrOneLeft(base, off)
  }

  /** Set up, and the loads and stores of the loop. */
  function Setup(base: nat, off: nat): Option<Instr>
    requires base <= MAX_MEM
  {
    match off
    case 0 => Some(Alu(A_XOR, RAX, RAX))  // ncopy
    case 2 => Some(Iadd(-5, RDX))
    case 12 => Some(Jmp(C_L, base + 265))
    case 21 => Some(MRmov(0, RDI, 10))  // LoopUn
    case 31 => Some(MRmov(8, RDI, 11))
    case 41 => Some(MRmov(16, RDI, 12))
    case 51 => Some(MRmov(24, RDI, 13))
    case 61 => Some(MRmov(32, RDI, 9))
    case 71 => Some(RMmov(10, 0, RSI))
    case 81 => Some(RMmov(11, 8, RSI))
    case 91 => Some(RMmov(12, 16, RSI))
    case 101 => Some(RMmov(13, 24, RSI))
    case 111 => Some(RMmov(9, 32, RSI))
    case _ => None
  }

  /** The tests of the loop and its end. */
  function LoopEnd(base: nat, off: nat): Option<Instr>
    requires base <= MAX_MEM
  {
    match off
    case 121 => Some(Alu(A_AND, 10, 10))
    case 123 => Some(Jmp(C_LE, base + 142))
    case 132 => Some(Iadd(1, RAX))
    case 142 => Some(Alu(A_AND, 11, 11))  // First
    case 144 => Some(Jmp(C_LE, base + 163))
    case 153 => Some(Iadd(1, RAX))
    case 163 => Some(Alu(A_AND, 12, 12))  // Second
    case 165 => Some(Jmp(C_LE, base + 184))
    case 174 => Some(Iadd(1, RAX))
    case 184 => Some(Alu(A_AND, 13, 13))  // Third
    case 186 => Some(Jmp(C_LE, base + 205))
    case 195 => Some(Iadd(1, RAX))
    case 205 => Some(Alu(A_AND, 9, 9))  // Fourth
    case 207 => Some(Jmp(C_LE, base + 226))
    case 216 => Some(Iadd(1, RAX))
    case 226 => Some(Iadd(40, RDI))  // Fifth
    case 236 => Some(Iadd(40, RSI))
    case 246 => Some(Iadd(-5, RDX))
    case 256 => Some(Jmp(C_GE, base + 21))
    case _ => None
  }

  /** Which of the tails to take. */
  function Leftover(base: nat, off: nat): Option<Instr>
    requires base <= MAX_MEM
  {
    match off
    case 265 => Some(Iadd(5, RDX))  // EndUn
    case 275 => Some(Jmp(C_E, base + 778))
    case 284 => Some(Iadd(-1, RDX))
    case 294 => Some(Jmp(C_E, base + 737))
    case 303 => Some(Iadd(-1, RDX))
    case 313 => Some(Jmp(C_E, base + 646))
    case 322 => Some(Iadd(-1, RDX))
    case 332 => Some(Jmp(C_E, base + 514))
    case _ => None
  }

  /** Four words are left: loads and stores. */
  function FourLeft(base: nat, off: nat): Option<Instr>
    requires base <= MAX_MEM
  {
    match off
    case 341 => Some(MRmov(0, RDI, 10))
    case 351 => Some(MRmov(8, RDI, 11))
    case 361 => Some(MRmov(16, RDI, 12))
    case 371 => Some(MRmov(24, RDI, 13))
    case 381 => Some(RMmov(10, 0, RSI))
    case 391 => Some(RMmov(11, 8, RSI))
    case 401 => Some(RMmov(12, 16, RSI))
    case 411 => Some(RMmov(13, 24, RSI))
    case _ => None
  }

  /** Four words are left: tests. */
  function FourTests(base: nat, off: nat): Option<Instr>
    requires base <= MAX_MEM
  {
    match off
    case 421 => Some(Alu(A_AND, 10, 10))
    case 423 => Some(Jmp(C_LE, base + 442))
    case 432 => Some(Iadd(1, RAX))
    case 442 => Some(Alu(A_AND, 11, 11))  // F1
    case 444 => Some(Jmp(C_LE, base + 463))
    case 453 => Some(Iadd(1, RAX))
    case 463 => Some(Alu(A_AND, 12, 12))  // F2
    case 465 => Some(Jmp(C_LE, base + 484))
    case 474 => Some(Iadd(1, RAX))
    case 484 => Some(Alu(A_AND, 13, 13))  // F3
    case 486 => Some(Jmp(C_LE, base + 778))
    case 495 => Some(Iadd(1, RAX))
    case 505 => Some(Jmp(C_YES, base + 778))
    case _ => None
  }

  /** Three words are left. */
  function ThreeLeft(base: nat, off: nat): Option<Instr>
    requires base <= MAX_MEM
  {
    match off
    case 514 => Some(MRmov(0, RDI, 10))  // Three
    case 524 => Some(MRmov(8, RDI, 11))
    case 534 => Some(MRmov(16, RDI, 12))
    case 544 => Some(RMmov(10, 0, RSI))
    case 554 => Some(RMmov(11, 8, RSI))
    case 564 => Some(RMmov(12, 16, RSI))
    case 574 => Some(Alu(A_AND, 10, 10))
    case 576 => Some(Jmp(C_LE, base + 595))
    case 585 => Some(Iadd(1, RAX))
    case 595 => Some(Alu(A_AND, 11, 11))  // Th1
    case 597 => Some(Jmp(C_LE, base + 616))
    case 606 => Some(Iadd(1, RAX))
    case 616 => Some(Alu(A_AND, 12, 12))  // Th2
    case 618 => Some(Jmp(C_LE, base + 778))
    case 627 => Some(Iadd(1, RAX))
    case 637 => Some(Jmp(C_YES, base + 778))
    case _ => None
  }

  /** Two words or one word are left; the end. */
  function TwoOrOneLeft(base: nat, off: nat): Option<Instr>
    requires base <= MAX_MEM
  {
    match off
    case 646 => Some(MRmov(0, RDI, 10))  // Two
    case 656 => Some(MRmov(8, RDI, 11))
    case 666 => Some(RMmov(10, 0, RSI))
    case 676 => Some(RMmov(11, 8, RSI))
    case 686 => Some(Alu(A_AND, 10, 10))
    case 688 => Some(Jmp(C_LE, base + 707))
    case 697 => Some(Iadd(1, RAX))
    case 707 => Some(Alu(A_AND, 11, 11))  // T1
    case 709 => Some(Jmp(C_LE, base + 778))
    case 718 => Some(Iadd(1, RAX))
    case 728 => Some(Jmp(C_YES, base + 778))
    case 737 => Some(MRmov(0, RDI, 10))  // One
    case 747 => Some(RMmov(10, 0, RSI))
    case 757 => Some(Alu(A_AND, 10, 10))
    case 759 => Some(Jmp(C_LE, base + 778))
    case 768 => Some(Iadd(1, RAX))
    case 778 => Some(Ret)  // Done
    case _ => None
  }

  ghost predicate Loaded(m: Bytes, base: nat) {
    && base + LENGTH <= |m| <= MAX_MEM
    && forall off {:trigger Listing(base, off)} :: 0 <= off && Listing(base, off).Some? ==>
      At(m, base + off, Listing(base, off).value)
  }

  lemma ListingInside(base: nat, off: nat)
    requires base <= MAX_MEM && Listing(base, off).Some?
    ensures off + Size(Listing(base, off).value) <= LENGTH
  {
  }

  lemma LoadedKept(m: Bytes, m': Bytes, base: nat)
    requires Loaded(m, base) && |m'| == |m| && m'[base..base + LENGTH] == m[base..base + LENGTH]
    ensures Loaded(m', base)
  {
    hide Listing;
    forall off: nat | Listing(base, off).Some?
      ensures At(m', base + off, Listing(base, off).value)
    {
      ListingInside(base, off);
      AtKept(m, m', base, base + LENGTH, base + off, Listing(base, off).value);
    }
  }

  /** The listed instruction is at the program counter. */
  lemma Listed(s: State, base: nat, off: nat, i: Instr)
    requires Loaded(s.m, base) && s.pc == base + off && Listing(base, off) == Some(i) && |s.r| == REG_NONE
    ensures Here(s, i)
  {
    hide Listing;
  }

  // ---------------------------------------------------------------------------------------------
  // A block: `c` loads, `c` stores, then one test per word
  // ---------------------------------------------------------------------------------------------

  /** The scratch registers, in the order the blocks use them. */
  function Scratch(j: nat): nat { if j < 4 then 10 + j else 9 }

  ghost predicate Block(base: nat, off: nat, c: nat)
    requires base <= MAX_MEM
  {
    c <= 5 && forall j {:trigger Scratch(j)} :: 0 <= j < c ==> MovesWord(base, off, c, j)
  }

  /** The load and the store of word `j` of a block of `c` words. */
  ghost predicate MovesWord(base: nat, off: nat, c: nat, j: nat)
    requires base <= MAX_MEM && j < 5
  {
    && Listing(base, off + 10 * j) == Some(MRmov(8 * j, RDI, Scratch(j)))
    && Listing(base, off + 10 * c + 10 * j) == Some(RMmov(Scratch(j), 8 * j, RSI))
  }

  /** `c` complete tests, each falling through to the next. */
  ghost predicate Tests(base: nat, off: nat, c: nat)
    requires base <= MAX_MEM
  {
    && c <= 5
    && (forall j {:trigger Scratch(j)} :: 0 <= j < c ==>
          && Listing(base, off + 21 * j) == Some(Alu(A_AND, Scratch(j), Scratch(j)))
          && Listing(base, off + 21 * j + 2) == Some(Jmp(C_LE, base + off + 21 * j + 21))
          && Listing(base, off + 21 * j + 11) == Some(Iadd(1, RAX)))
  }

  function LoadRegs(r: seq<Word>, xs: seq<Word>, j: nat): (r': seq<Word>)
    requires j <= |xs| && j <= 5
    ensures |r'| == |r|
  {
    if j == 0 then r else SetReg(LoadRegs(r, xs, j - 1), Scratch(j - 1), xs[j - 1])
  }

  lemma {:induction false} LoadRegsAt(r: seq<Word>, xs: seq<Word>, j: nat)
    requires j <= |xs| && j <= 5 && |r| == REG_NONE
    ensures forall i :: 0 <= i < j ==> LoadRegs(r, xs, j)[Scratch(i)] == xs[i]
    ensures forall id :: 0 <= id < REG_NONE && !(9 <= id <= 13) ==> LoadRegs(r, xs, j)[id] == r[id]
  {
    if j > 0 { LoadRegsAt(r, xs, j - 1); }
  }

  lemma LoadStep(s: State, base: nat, off: nat, d: Word, rb: nat, ra: nat)
    requires Loaded(s.m, base) && s.pc == base + off && Listing(base, off) == Some(MRmov(d, rb, ra))
    requires |s.r| == REG_NONE && ra < REG_NONE && rb < REG_NONE && WordInside(s.m, s.r[rb] + d)
    ensures base + off + 10 < TWO_63
    ensures Runs(s, 1, s.(pc := base + off + 10, r := SetReg(s.r, ra, WordAt(s.m, s.r[rb] + d))))
  {
    hide Listing, Loaded, Here;
    Listed(s, base, off, MRmov(d, rb, ra));
    StepLoad(s, d, rb, ra);
  }

  lemma StoreStep(s: State, base: nat, off: nat, d: Word, rb: nat, ra: nat)
    requires Loaded(s.m, base) && s.pc == base + off && Listing(base, off) == Some(RMmov(ra, d, rb))
    requires |s.r| == REG_NONE && ra < REG_NONE && rb < REG_NONE && WordInside(s.m, s.r[rb] + d)
    ensures base + off + 10 < TWO_63
    ensures Runs(s, 1, s.(pc := base + off + 10, m := PutWord(s.m, s.r[rb] + d, s.r[ra])))
  {
    hide Listing, Loaded, Here;
    Listed(s, base, off, RMmov(ra, d, rb));
    StepStore(s, ra, d, rb);
  }

  lemma {:induction false} LoadsRun(s: State, base: nat, off: nat, c: nat, xs: seq<Word>, j: nat)
    requires Loaded(s.m, base) && |s.r| == REG_NONE && s.pc == base + off && Block(base, off, c)
    requires j <= c == |xs| && WordsAt(s.m, s.r[RDI], xs)
    ensures base + off + 10 * j < TWO_63
    ensures Runs(s, j, s.(pc := base + off + 10 * j, r := LoadRegs(s.r, xs, j)))
  {
    hide Listing, Step, WordAt, Loaded, Runs;
    if j == 0 {
      RunsNone(s);
    } else {
      LoadsRun(s, base, off, c, xs, j - 1);
      var t := s.(pc := base + off + 10 * (j - 1), r := LoadRegs(s.r, xs, j - 1));
      LoadRegsAt(s.r, xs, j - 1);
      assert Scratch(j - 1) < REG_NONE;
      assert WordAt(s.m, s.r[RDI] + 8 * (j - 1)) == xs[j - 1];
      LoadStep(t, base, off + 10 * (j - 1), 8 * (j - 1), RDI, Scratch(j - 1));
      RunsTrans(s, j - 1, t, 1, s.(pc := base + off + 10 * j, r := LoadRegs(s.r, xs, j)));
    }
  }

  /** `dst` does not overlap the code. */
  ghost predicate OffCode(base: nat, dst: int, n: nat) {
    dst + 8 * n <= base || base + LENGTH <= dst
  }

  lemma LoadedInside(m: Bytes, base: nat)
    requires Loaded(m, base)
    ensures base + LENGTH <= |m|
  {
  }

  lemma LoadedAfter(m: Bytes, base: nat, dst: int, xs: seq<Word>)
    requires Loaded(m, base) && Region(m, dst, |xs|) && OffCode(base, dst, |xs|)
    ensures Loaded(WriteWords(m, dst, xs), base)
  {
    hide Loaded, WriteWords;
    LoadedInside(m, base);
    WriteWordsFrame(m, dst, xs, base, base + LENGTH);
    LoadedKept(m, WriteWords(m, dst, xs), base);
  }

  /** The scratch registers hold `xs`. */
  ghost predicate Holding(r: seq<Word>, xs: seq<Word>) {
    |r| == REG_NONE && |xs| <= 5 && forall i {:trigger Scratch(i)} :: 0 <= i < |xs| ==> r[Scratch(i)] == xs[i]
  }

  lemma {:induction false} StoresRun(s: State, base: nat, off: nat, c: nat, xs: seq<Word>, j: nat)
    requires Holding(s.r, xs) && Region(s.m, s.r[RSI], |xs|) && OffCode(base, s.r[RSI], |xs|)
    requires j <= c == |xs| && Loaded(s.m, base) && s.pc == base + off + 10 * c && Block(base, off, c)
    ensures base + off + 10 * c + 10 * j < TWO_63
    ensures Runs(s, j, s.(pc := base + off + 10 * c + 10 * j, m := WriteWords(s.m, s.r[RSI], xs[..j])))
  {
    hide Listing, Step, PutWord, Loaded, Runs;
    if j == 0 {
      RunsNone(s);
    } else {
      StoresRun(s, base, off, c, xs, j - 1);
      var dst := s.r[RSI];
      var t := s.(pc := base + off + 10 * c + 10 * (j - 1), m := WriteWords(s.m, dst, xs[..j - 1]));
      LoadedAfter(s.m, base, dst, xs[..j - 1]);
      assert Scratch(j - 1) < REG_NONE;
      StoreStep(t, base, off + 10 * c + 10 * (j - 1), 8 * (j - 1), RSI, Scratch(j - 1));
      assert xs[..j] == xs[..j - 1] + [xs[j - 1]];
      WriteWordsSnoc(s.m, dst, xs[..j - 1], xs[j - 1]);
      RunsTrans(s, j - 1, t, 1, s.(pc := base + off + 10 * c + 10 * j, m := WriteWords(s.m, dst, xs[..j])));
    }
  }

  // ---------------------------------------------------------------------------------------------
  // The tests and the loop control
  // ---------------------------------------------------------------------------------------------

  lemma AluStep(s: State, base: nat, off: nat, fn: nat, ra: nat, rb: nat)
    requires Loaded(s.m, base) && s.pc == base + off && Listing(base, off) == Some(Alu(fn, ra, rb))
    requires |s.r| == REG_NONE && ra < REG_NONE && rb < REG_NONE
    ensures base + off + 2 < TWO_63
    ensures Runs(s, 1, s.(pc := base + off + 2, r := s.r[rb := ComputeAlu(fn, s.r[ra], s.r[rb])],
                          cc := ComputeCc(fn, s.r[ra], s.r[rb])))
  {
    hide Listing, Loaded, Here;
    Listed(s, base, off, Alu(fn, ra, rb));
    StepAlu(s, fn, ra, rb);
  }

  lemma JmpStep(s: State, base: nat, off: nat, cond: nat, dest: Word)
    requires Loaded(s.m, base) && s.pc == base + off && Listing(base, off) == Some(Jmp(cond, dest))
    requires |s.r| == REG_NONE
    ensures base + off + 9 < TWO_63
    ensures Runs(s, 1, s.(pc := if CondHolds(s.cc, cond) then dest else base + off + 9))
  {
    hide Listing, Loaded, Here;
    Listed(s, base, off, Jmp(cond, dest));
    StepJmp(s, cond, dest);
  }

  lemma IaddStep(s: State, base: nat, off: nat, v: Word, rb: nat)
    requires Loaded(s.m, base) && s.pc == base + off && Listing(base, off) == Some(Iadd(v, rb))
    requires |s.r| == REG_NONE && rb < REG_NONE
    ensures base + off + 10 < TWO_63
    ensures Runs(s, 1, s.(pc := base + off + 10, r := s.r[rb := Wrap(s.r[rb] + v)], cc := ComputeCc(A_ADD, v, s.r[rb])))
  {
    hide Listing, Loaded, Here;
    Listed(s, base, off, Iadd(v, rb));
    StepIadd(s, v, rb);
  }

  /** `andq r,r; jle target; iaddq $1,%rax`. */
  lemma TestRun(s: State, base: nat, off: nat, reg: nat, target: nat) returns (n: nat, t: State)
    requires Loaded(s.m, base) && s.pc == base + off && |s.r| == REG_NONE && reg < REG_NONE && reg != RAX
    requires base + target < TWO_63 && 0 <= s.r[RAX] <= MAX_MEM
    requires Listing(base, off) == Some(Alu(A_AND, reg, reg))
    requires Listing(base, off + 2) == Some(Jmp(C_LE, base + target))
    requires Listing(base, off + 11) == Some(Iadd(1, RAX))
    ensures Runs(s, n, t) && t.m == s.m
    ensures s.r[reg] <= 0 ==> t.pc == base + target && t.r == s.r
    ensures s.r[reg] > 0 ==> t.pc == base + off + 21 && t.r == s.r[RAX := s.r[RAX] + 1]
  {
    hide Listing, Loaded, Step, Runs, ComputeAlu, ComputeCc, CondHolds;
    AluStep(s, base, off, A_AND, reg, reg);
    AndTests(s.r[reg], C_LE);
    var s1 := s.(pc := base + off + 2, cc := ComputeCc(A_AND, s.r[reg], s.r[reg]));
    assert s.r[reg := s.r[reg]] == s.r;
    JmpStep(s1, base, off + 2, C_LE, base + target);
    var s2 := s1.(pc := if s.r[reg] <= 0 then base + target else base + off + 11);
    RunsTrans(s, 1, s1, 1, s2);
    if s.r[reg] <= 0 {
      return 2, s2;
    }
    IaddStep(s2, base, off + 11, 1, RAX);
    t := s2.(pc := base + off + 21, r := s.r[RAX := s.r[RAX] + 1], cc := ComputeCc(A_ADD, 1, s.r[RAX]));
    RunsTrans(s, 2, s2, 1, t);
    n := 3;
  }

  /** The first `j` tests of a row add the positive words among the first `j` to %rax. */
  lemma {:induction false} TestsRun(s: State, base: nat, off: nat, c: nat, xs: seq<Word>,
    j: nat) returns (n: nat, t: State)
    requires Holding(s.r, xs) && j <= c <= |xs| && 0 <= s.r[RAX] && s.r[RAX] + c <= MAX_MEM
    requires base + off + 21 * c < TWO_63
    requires Loaded(s.m, base) && s.pc == base + off && Tests(base, off, c)
    ensures Runs(s, n, t) && t.m == s.m && t.pc == base + off + 21 * j
    ensures t.r == s.r[RAX := s.r[RAX] + Positives(xs[..j])]
  {
    hide Listing, Loaded, Step, Runs;
    if j == 0 {
      RunsNone(s);
      assert s.r[RAX := s.r[RAX]] == s.r;
      return 0, s;
    }
    var n1, u := TestsRun(s, base, off, c, xs, j - 1);
    assert xs[..j] == xs[..j - 1] + [xs[j - 1]];
    PositivesSnoc(xs[..j - 1], xs[j - 1]);
    assert Scratch(j - 1) < REG_NONE;
    var n2;
    n2, t := TestRun(u, base, off + 21 * (j - 1), Scratch(j - 1), off + 21 * j);
    RunsTrans(s, n1, u, n2, t);
    n := n1 + n2;
  }

  // ---------------------------------------------------------------------------------------------
  // The whole program
  // ---------------------------------------------------------------------------------------------

  /** One call: where the code is, the two arrays, the source words, and memory and registers on entry. */
  datatype Job = Job(base: nat, src: int, dst: int, xs: seq<Word>, m: Bytes, r: seq<Word>)

  predicate Apart(a: int, n: nat, b: int, k: nat) { a + n <= b || b + k <= a }

  ghost predicate Fits(job: Job) {
    && |job.r| == REG_NONE && Loaded(job.m, job.base)
    && WordsAt(job.m, job.src, job.xs) && Region(job.m, job.dst, |job.xs|)
    && Apart(job.src, 8 * |job.xs|, job.dst, 8 * |job.xs|)
    && OffCode(job.base, job.dst, |job.xs|)
    && WordInside(job.m, job.r[RSP]) && Apart(job.r[RSP], 8, job.dst, 8 * |job.xs|)
  }

  predicate Clobbered(id: nat) { id in {RAX, RDX, RSI, RDI} || 9 <= id <= 13 }

  ghost predicate SameOthers(r0: seq<Word>, r: seq<Word>) {
    |r| == |r0| && forall id {:trigger r[id]} :: 0 <= id < |r0| && !Clobbered(id) ==> r[id] == r0[id]
  }

  /** The first `i` words are copied and counted, and both pointers have moved past them. */
  ghost predicate Copied(job: Job, s: State, i: nat) {
    && i <= |job.xs| && Region(job.m, job.dst, |job.xs|) && |s.r| == |job.r| == REG_NONE
    && s.m == WriteWords(job.m, job.dst, job.xs[..i])
    && s.r[RAX] == Positives(job.xs[..i])
    && s.r[RDI] == job.src + 8 * i && s.r[RSI] == job.dst + 8 * i
    && SameOthers(job.r, s.r)
  }

  lemma PositivesAppend(xs: seq<Word>, i: nat, c: nat)
    requires i + c <= |xs|
    ensures Positives(xs[..i + c]) == Positives(xs[..i]) + Positives(xs[i..i + c])
    decreases c
  {
    if c == 0 {
      assert xs[..i + 0] == xs[..i] && xs[i..i + 0] == [];
    } else {
      PositivesAppend(xs, i, c - 1);
      assert xs[..i + c] == xs[..i + c - 1] + [xs[i + c - 1]];
      assert xs[i..i + c] == xs[i..i + c - 1] + [xs[i + c - 1]];
      PositivesSnoc(xs[..i + c - 1], xs[i + c - 1]);
      PositivesSnoc(xs[i..i + c - 1], xs[i + c - 1]);
    }
  }

  /** The next `c` source words are still in place. */
  lemma SourceAt(job: Job, s: State, i: nat, c: nat)
    requires Fits(job) && Copied(job, s, i) && i + c <= |job.xs|
    ensures WordsAt(s.m, s.r[RDI], job.xs[i..i + c])
    ensures Loaded(s.m, job.base)
  {
    hide Loaded, WordAt, WriteWords;
    LoadedAfter(job.m, job.base, job.dst, job.xs[..i]);
    WordsKept(job.m, job.src, job.xs, job.dst, job.xs[..i]);
    var part := job.xs[i..i + c];
    forall j | 0 <= j < |part|
      ensures WordAt(s.m, s.r[RDI] + 8 * j) == part[j]
    {
      assert job.xs[i + j] == part[j];
    }
  }

  /** State after a block's loads and stores. */
  ghost predicate Moved(job: Job, s: State, t: State, i: nat, c: nat) {
    && i + c <= |job.xs| && Region(job.m, job.dst, |job.xs|) && |s.r| == |t.r| == REG_NONE
    && t.m == WriteWords(job.m, job.dst, job.xs[..i + c])
    && Holding(t.r, job.xs[i..i + c])
    && t.r[RAX] == s.r[RAX] && t.r[RDX] == s.r[RDX] && t.r[RSI] == s.r[RSI] && t.r[RDI] == s.r[RDI]
    && SameOthers(job.r, t.r) && Loaded(t.m, job.base)
  }

  lemma Bounds(job: Job, s: State, i: nat)
    requires Fits(job) && Copied(job, s, i)
    ensures job.base + LENGTH <= MAX_MEM && 8 * |job.xs| <= MAX_MEM
    ensures 0 <= s.r[RDI] <= MAX_MEM && 0 <= s.r[RSI] <= MAX_MEM && 0 <= s.r[RAX] <= i
  {
    hide Listing, WordAt, WriteWords, SameOthers;
  }

  lemma BlockRun(job: Job, s: State, i: nat, off: nat, c: nat) returns (n: nat, t: State)
    requires Fits(job) && Copied(job, s, i) && i + c <= |job.xs| && s.pc == job.base + off && Block(job.base, off, c)
    ensures Runs(s, n, t) && t.pc == job.base + off + 20 * c && Moved(job, s, t, i, c)
  {
    hide Loaded, Listing, Block, Step, Runs, WordAt, WriteWords, WordsAt, Moved, SameOthers;
    var part := job.xs[i..i + c];
    SourceAt(job, s, i, c);
    Bounds(job, s, i);
    BlockSmall(job.base, off, c);
    LoadsRun(s, job.base, off, c, part, c);
    var u := s.(pc := job.base + off + 10 * c, r := LoadRegs(s.r, part, c));
    LoadRegsAt(s.r, part, c);
    StoresRun(u, job.base, off, c, part, c);
    assert part[..c] == part;
    t := u.(pc := job.base + off + 20 * c, m := WriteWords(s.m, s.r[RSI], part));
    RunsTrans(s, c, u, c, t);
    n := c + c;
    BlockMoved(job, s, t, i, c);
  }

  lemma BlockMoved(job: Job, s: State, t: State, i: nat, c: nat)
    requires Fits(job) && Copied(job, s, i) && i + c <= |job.xs| && c <= 5 && Region(s.m, s.r[RSI], c)
    requires t.r == LoadRegs(s.r, job.xs[i..i + c], c) && t.m == WriteWords(s.m, s.r[RSI], job.xs[i..i + c])
    ensures Moved(job, s, t, i, c)
  {
    hide Loaded, WordAt, WriteWords, WordsAt, LoadRegs;
    var part := job.xs[i..i + c];
    LoadRegsAt(s.r, part, c);
    assert job.xs[..i + c] == job.xs[..i] + part;
    WriteWordsAppend(job.m, job.dst, job.xs[..i], part);
    LoadedAfter(job.m, job.base, job.dst, job.xs[..i + c]);
  }

  lemma BlockSmall(base: nat, off: nat, c: nat)
    requires base <= MAX_MEM && Block(base, off, c)
    ensures c <= 5
  {
  }

  lemma LoopBlock(base: nat)
    requires base <= MAX_MEM
    ensures Block(base, 21, 5) && Tests(base, 121, 5)
  {
    assert MovesWord(base, 21, 5, 0) && MovesWord(base, 21, 5, 1) && MovesWord(base, 21, 5, 2);
    assert MovesWord(base, 21, 5, 3) && MovesWord(base, 21, 5, 4);
  }

  /** Loads, stores and five tests of the unrolled loop. */
  lemma TurnBody(job: Job, s: State, i: nat) returns (n: nat, t: State)
    requires Fits(job) && Copied(job, s, i) && s.pc == job.base + LOOP && i + 5 <= |job.xs|
    ensures Runs(s, n, t) && |t.r| == REG_NONE && t.pc == job.base + 226 && Loaded(t.m, job.base)
    ensures t.m == WriteWords(job.m, job.dst, job.xs[..i + 5]) && t.r[RAX] == Positives(job.xs[..i + 5])
    ensures t.r[RDX] == s.r[RDX] && t.r[RSI] == s.r[RSI] && t.r[RDI] == s.r[RDI] && SameOthers(job.r, t.r)
  {
    hide Fits, Loaded, Block, Tests, Step, Runs, WriteWords;
    Bounds(job, s, i);
    LoopBlock(job.base);
    var n1, u := BlockRun(job, s, i, 21, 5);
    var n2;
    n2, t := TestsRun(u, job.base, 121, 5, job.xs[i..i + 5], 5);
    assert job.xs[i..i + 5][..5] == job.xs[i..i + 5];
    PositivesAppend(job.xs, i, 5);
    RunsTrans(s, n1, u, n2, t);
    n := n1 + n2;
  }

  /** One turn of the unrolled loop: five words more. */
  lemma Turn(job: Job, s: State, i: nat) returns (n: nat, t: State)
    requires Fits(job) && Copied(job, s, i) && s.pc == job.base + LOOP
    requires s.r[RDX] == |job.xs| - i - 5 >= 0
    ensures Runs(s, n, t) && Copied(job, t, i + 5) && t.r[RDX] == |job.xs| - i - 10
    ensures t.pc == job.base + (if t.r[RDX] >= 0 then LOOP else END_UN)
  {
    hide Fits, Loaded, Step, Runs, WriteWords, Positives;
    Bounds(job, s, i);
    var n1, u := TurnBody(job, s, i);
    var n2;
    n2, t := Advance(u, job.base);
    RunsTrans(s, n1, u, n2, t);
    n := n1 + n2;
  }

  /** Both pointers forward by five words, the counter down by five, and the back branch. */
  lemma Advance(s: State, base: nat) returns (n: nat, t: State)
    requires Loaded(s.m, base) && |s.r| == REG_NONE && s.pc == base + 226
    requires -0x7FFF_FFFF <= s.r[RDX] <= MAX_MEM && 0 <= s.r[RDI] <= MAX_MEM && 0 <= s.r[RSI] <= MAX_MEM
    ensures Runs(s, n, t) && t.m == s.m
    ensures t.r == s.r[RDI := s.r[RDI] + 40][RSI := s.r[RSI] + 40][RDX := s.r[RDX] - 5]
    ensures t.pc == base + (if s.r[RDX] - 5 >= 0 then LOOP else END_UN)
  {
    hide Loaded, Step, Runs, ComputeCc, CondHolds;
    IaddStep(s, base, 226, 40, RDI);
    var s1 := s.(pc := base + 236, r := s.r[RDI := s.r[RDI] + 40], cc := ComputeCc(A_ADD, 40, s.r[RDI]));
    IaddStep(s1, base, 236, 40, RSI);
    var s2 := s1.(pc := base + 246, r := s1.r[RSI := s1.r[RSI] + 40], cc := ComputeCc(A_ADD, 40, s1.r[RSI]));
    IaddStep(s2, base, 246, -5, RDX);
    var s3 := s2.(pc := base + 256, r := s2.r[RDX := s2.r[RDX] - 5], cc := ComputeCc(A_ADD, -5, s2.r[RDX]));
    AddDecidesSign(-5, s2.r[RDX], C_GE);
    JmpStep(s3, base, 256, C_GE, base + 21);
    t := s3.(pc := base + (if s.r[RDX] - 5 >= 0 then LOOP else END_UN));
    RunsTrans(s, 1, s1, 1, s2);
    RunsTrans(s, 2, s2, 1, s3);
    RunsTrans(s, 3, s3, 1, t);
    n := 4;
  }

  /** The loop leaves fewer than five words. */
  lemma {:induction false} LoopRun(job: Job, s: State, i: nat) returns (n: nat, t: State, k: nat)
    requires Fits(job) && Copied(job, s, i) && s.r[RDX] == |job.xs| - i - 5
    requires s.pc == job.base + (if s.r[RDX] >= 0 then LOOP else END_UN)
    ensures Runs(s, n, t) && Copied(job, t, k) && |job.xs| - 5 < k <= |job.xs|
    ensures t.r[RDX] == |job.xs| - k - 5 && t.pc == job.base + END_UN
    decreases |job.xs| - i
  {
    hide Fits, Step, Runs, WriteWords, Positives, SameOthers;
    Bounds(job, s, i);
    if s.r[RDX] < 0 {
      RunsNone(s);
      return 0, s, i;
    }
    var n1, u := Turn(job, s, i);
    var n2;
    n2, t, k := LoopRun(job, u, i + 5);
    RunsTrans(s, n1, u, n2, t);
    n := n1 + n2;
  }

  /** Where the tail for `c` remaining words starts. */
  function TailEntry(c: nat): nat {
    match c
    case 0 => DONE
    case 1 => 737
    case 2 => 646
    case 3 => 514
    case _ => 341
  }

  /** `iaddq v,%rdx; je target`. */
  lemma CountDown(s: State, base: nat, off: nat, v: Word, target: nat) returns (t: State)
    requires Loaded(s.m, base) && s.pc == base + off && |s.r| == REG_NONE && -5 <= v <= 5 && -5 <= s.r[RDX] <= 5
    requires Listing(base, off) == Some(Iadd(v, RDX)) && base + target < TWO_63
    requires Listing(base, off + 10) == Some(Jmp(C_E, base + target))
    ensures Runs(s, 2, t) && t.m == s.m && t.r == s.r[RDX := s.r[RDX] + v]
    ensures t.pc == if s.r[RDX] + v == 0 then base + target else base + off + 19
  {
    hide Listing, Loaded, Step, Runs, ComputeCc, CondHolds;
    IaddStep(s, base, off, v, RDX);
    var s1 := s.(pc := base + off + 10, r := s.r[RDX := s.r[RDX] + v], cc := ComputeCc(A_ADD, v, s.r[RDX]));
    AddDecidesSign(v, s.r[RDX], C_E);
    JmpStep(s1, base, off + 10, C_E, base + target);
    t := s1.(pc := if s.r[RDX] + v == 0 then base + target else base + off + 19);
    RunsTrans(s, 1, s1, 1, t);
  }

  lemma Dispatch(s: State, base: nat) returns (n: nat, t: State)
    requires Loaded(s.m, base) && s.pc == base + END_UN && |s.r| == REG_NONE && -5 <= s.r[RDX] < 0
    requires base <= MAX_MEM
    ensures Runs(s, n, t) && t.m == s.m && t.pc == base + TailEntry(s.r[RDX] + 5)
    ensures |t.r| == REG_NONE && t.r == s.r[RDX := t.r[RDX]]
  {
    hide Loaded, Step, Runs;
    t := CountDown(s, base, 265, 5, 778);
    n := 2;
    if s.r[RDX] > -5 {
      var u := CountDown(t, base, 284, -1, 737);
      RunsTrans(s, 2, t, 2, u);
      n, t := 4, u;
    }
    if s.r[RDX] > -4 {
      var u := CountDown(t, base, 303, -1, 646);
      RunsTrans(s, 4, t, 2, u);
      n, t := 6, u;
    }
    if s.r[RDX] > -3 {
      var u := CountDown(t, base, 322, -1, 514);
      RunsTrans(s, 6, t, 2, u);
      n, t := 8, u;
    }
  }

  /** A tail's last test either skips to the end or falls or jumps there. */
  ghost predicate LastTest(base: nat, off: nat, reg: nat)
    requires base <= MAX_MEM
  {
    && Listing(base, off) == Some(Alu(A_AND, reg, reg))
    && Listing(base, off + 2) == Some(Jmp(C_LE, base + DONE))
    && Listing(base, off + 11) == Some(Iadd(1, RAX))
    && (off + 21 == DONE || Listing(base, off + 21) == Some(Jmp(C_YES, base + DONE)))
  }

  lemma TailBlock(base: nat, c: nat)
    requires base <= MAX_MEM && 1 <= c <= 4
    ensures Block(base, TailEntry(c), c) && Tests(base, TailEntry(c) + 20 * c, c - 1)
    ensures LastTest(base, TailEntry(c) + 20 * c + 21 * (c - 1), Scratch(c - 1))
  {
    hide Block, Tests, LastTest, Listing;
    if c == 1 { TailBlock1(base); } else if c == 2 { TailBlock2(base); }
    else if c == 3 { TailBlock3(base); } else { TailBlock4(base); }
  }

  lemma TailBlock1(base: nat)
    requires base <= MAX_MEM
    ensures Block(base, 737, 1) && Tests(base, 757, 0) && LastTest(base, 757, 10)
  {
    assert MovesWord(base, 737, 1, 0);
  }

  lemma TailBlock2(base: nat)
    requires base <= MAX_MEM
    ensures Block(base, 646, 2) && Tests(base, 686, 1) && LastTest(base, 707, 11)
  {
    assert MovesWord(base, 646, 2, 0) && MovesWord(base, 646, 2, 1);
  }

  lemma TailBlock3(base: nat)
    requires base <= MAX_MEM
    ensures Block(base, 514, 3) && Tests(base, 574, 2) && LastTest(base, 616, 12)
  {
    assert MovesWord(base, 514, 3, 0) && MovesWord(base, 514, 3, 1) && MovesWord(base, 514, 3, 2);
  }

  lemma TailBlock4(base: nat)
    requires base <= MAX_MEM
    ensures Block(base, 341, 4) && Tests(base, 421, 3) && LastTest(base, 484, 13)
  {
    assert MovesWord(base, 341, 4, 0) && MovesWord(base, 341, 4, 1) && MovesWord(base, 341, 4, 2);
    assert MovesWord(base, 341, 4, 3);
  }

  lemma LastTestRun(s: State, base: nat, off: nat, reg: nat) returns (n: nat, t: State)
    requires Loaded(s.m, base) && s.pc == base + off && |s.r| == REG_NONE && reg < REG_NONE && reg != RAX
    requires base <= MAX_MEM && 0 <= s.r[RAX] <= MAX_MEM && LastTest(base, off, reg)
    ensures Runs(s, n, t) && t.m == s.m && t.pc == base + DONE
    ensures t.r == s.r[RAX := s.r[RAX] + (if s.r[reg] > 0 then 1 else 0)]
  {
    hide Loaded, Listing, Step, Runs;
    n, t := TestRun(s, base, off, reg, DONE);
    assert s.r[RAX := s.r[RAX]] == s.r;
    if s.r[reg] > 0 && off + 21 != DONE {
      JmpStep(t, base, off + 21, C_YES, base + DONE);
      var u := t.(pc := base + DONE);
      RunsTrans(s, n, t, 1, u);
      n, t := n + 1, u;
    }
  }

  /** The words left over after the loop. */
  lemma TailRun(job: Job, s: State, k: nat, c: nat) returns (n: nat, t: State)
    requires Fits(job) && Copied(job, s, k) && k + c == |job.xs| && 1 <= c <= 4 && s.pc == job.base + TailEntry(c)
    ensures Runs(s, n, t) && t.pc == job.base + DONE && |t.r| == REG_NONE
    ensures t.m == WriteWords(job.m, job.dst, job.xs) && t.r[RAX] == Positives(job.xs) && SameOthers(job.r, t.r)
    ensures Loaded(t.m, job.base)
  {
    hide Fits, Loaded, Block, Tests, LastTest, Step, Runs, WriteWords, WordAt, Positives, LoadRegs, WordsAt;
    Bounds(job, s, k);
    TailBlock(job.base, c);
    var part := job.xs[k..k + c];
    assert job.xs[..k + c] == job.xs;
    var n1, u := BlockRun(job, s, k, TailEntry(c), c);
    var n2, v := TestsRun(u, job.base, TailEntry(c) + 20 * c, c - 1, part, c - 1);
    RunsTrans(s, n1, u, n2, v);
    assert Scratch(c - 1) < REG_NONE;
    var n3;
    n3, t := LastTestRun(v, job.base, TailEntry(c) + 20 * c + 21 * (c - 1), Scratch(c - 1));
    RunsTrans(s, n1 + n2, v, n3, t);
    n := n1 + n2 + n3;
    assert part == part[..c - 1] + [part[c - 1]];
    PositivesSnoc(part[..c - 1], part[c - 1]);
    PositivesAppend(job.xs, k, c);
  }

  /** `xorq %rax,%rax; iaddq $-5,%rdx; jl EndUn`. */
  lemma Prologue(s: State, base: nat) returns (t: State)
    requires Loaded(s.m, base) && s.pc == base && |s.r| == REG_NONE && base <= MAX_MEM && 0 <= s.r[RDX] <= MAX_MEM
    ensures Runs(s, 3, t) && t.m == s.m && t.r == s.r[RAX := 0][RDX := s.r[RDX] - 5]
    ensures t.pc == base + (if s.r[RDX] - 5 >= 0 then LOOP else END_UN)
  {
    hide Loaded, Step, Runs, ComputeCc, CondHolds;
    AluStep(s, base, 0, A_XOR, RAX, RAX);
    Xor64Self(s.r[RAX]);
    var s1 := s.(pc := base + 2, r := s.r[RAX := 0], cc := ComputeCc(A_XOR, s.r[RAX], s.r[RAX]));
    IaddStep(s1, base, 2, -5, RDX);
    var s2 := s1.(pc := base + 12, r := s1.r[RDX := s1.r[RDX] - 5], cc := ComputeCc(A_ADD, -5, s1.r[RDX]));
    AddDecidesSign(-5, s1.r[RDX], C_L);
    JmpStep(s2, base, 12, C_L, base + END_UN);
    t := s2.(pc := base + (if s.r[RDX] - 5 >= 0 then LOOP else END_UN));
    RunsTrans(s, 1, s1, 1, s2);
    RunsTrans(s, 2, s2, 1, t);
  }

  lemma RetStep(s: State, base: nat)
    requires Loaded(s.m, base) && s.pc == base + DONE && |s.r| == REG_NONE && WordInside(s.m, s.r[RSP])
    ensures s.r[RSP] + 8 < TWO_63
    ensures Runs(s, 1, s.(pc := WordAt(s.m, s.r[RSP]), r := s.r[RSP := s.r[RSP] + 8]))
  {
    hide Loaded, Here;
    Listed(s, base, DONE, Ret);
    StepRet(s);
  }

  /** From the entry to the final `ret`. */
  lemma ToDone(job: Job, s: State) returns (n: nat, t: State)
    requires Fits(job) && s.m == job.m && s.r == job.r
    requires s.pc == job.base && s.r[RDI] == job.src && s.r[RSI] == job.dst && s.r[RDX] == |job.xs|
    ensures Runs(s, n, t) && t.pc == job.base + DONE && |t.r| == REG_NONE
    ensures t.m == WriteWords(job.m, job.dst, job.xs) && t.r[RAX] == Positives(job.xs) && SameOthers(job.r, t.r)
    ensures Loaded(t.m, job.base)
  {
    hide Fits, Loaded, Step, Runs, WriteWords, WordAt, SameOthers;
    JobFacts(job);
    var s1 := Prologue(s, job.base);
    StartCopied(job, s, s1);
    var n1, u, k := LoopRun(job, s1, 0);
    RunsTrans(s, 3, s1, n1, u);
    SourceAt(job, u, k, 0);
    var n2, v := Dispatch(u, job.base);
    RunsTrans(s, 3 + n1, u, n2, v);
    DispatchCopied(job, u, v, k);
    n, t := Finish(job, v, k);
    RunsTrans(s, 3 + n1 + n2, v, n, t);
    n := 3 + n1 + n2 + n;
  }

  lemma Finish(job: Job, v: State, k: nat) returns (n: nat, t: State)
    requires Fits(job) && Copied(job, v, k) && |job.xs| - 5 < k && v.pc == job.base + TailEntry(|job.xs| - k)
    ensures Runs(v, n, t) && t.pc == job.base + DONE && |t.r| == REG_NONE
    ensures t.m == WriteWords(job.m, job.dst, job.xs) && t.r[RAX] == Positives(job.xs) && SameOthers(job.r, t.r)
    ensures Loaded(t.m, job.base)
  {
    hide Fits, Loaded, Step, Runs, WriteWords, WordAt, SameOthers;
    if k < |job.xs| {
      n, t := TailRun(job, v, k, |job.xs| - k);
    } else {
      assert job.xs[..k] == job.xs;
      SourceAt(job, v, k, 0);
      RunsNone(v);
      n, t := 0, v;
    }
  }

  /** Called with %rdi, %rsi and %rdx set to two arrays and their length, and a return address on the
      stack, `ncopy` returns to it with the words copied, %rax the number of positive words, %rsp popped,
      the registers it does not use intact, and no other byte of memory changed. */
  lemma NcopyCorrect(s: State, base: nat, src: int, dst: int, xs: seq<Word>) returns (n: nat, t: State)
    requires Fits(Job(base, src, dst, xs, s.m, s.r))
    requires s.pc == base && s.r[RDI] == src && s.r[RSI] == dst && s.r[RDX] == |xs|
    ensures Runs(s, n, t) && t.m == WriteWords(s.m, dst, xs) && t.pc == WordAt(s.m, s.r[RSP])
    ensures |t.r| == REG_NONE && t.r[RAX] == Positives(xs) && t.r[RSP] == s.r[RSP] + 8
    ensures forall id {:trigger t.r[id]} :: 0 <= id < REG_NONE && id != RSP && !Clobbered(id) ==> t.r[id] == s.r[id]
  {
    hide Fits, Loaded, Step, Runs, WriteWords, WordAt, SameOthers;
    var job := Job(base, src, dst, xs, s.m, s.r);
    JobFacts(job);
    var n1, u := ToDone(job, s);
    StackKept(job, u);
    RetStep(u, base);
    t := u.(pc := WordAt(u.m, u.r[RSP]), r := u.r[RSP := u.r[RSP] + 8]);
    RunsTrans(s, n1, u, 1, t);
    OthersAfterRet(s.r, u.r, t.r);
    n := n1 + 1;
  }

  lemma JobFacts(job: Job)
    requires Fits(job)
    ensures |job.r| == REG_NONE && Loaded(job.m, job.base) && job.base <= MAX_MEM
    ensures 8 * |job.xs| <= MAX_MEM && WordInside(job.m, job.r[RSP]) && Region(job.m, job.dst, |job.xs|)
  {
    hide WordAt, Listing;
  }

  lemma StartCopied(job: Job, s: State, t: State)
    requires Fits(job) && s.m == job.m && s.r == job.r && s.r[RDI] == job.src && s.r[RSI] == job.dst
    requires 0 <= s.r[RDX] && t.m == s.m && t.r == s.r[RAX := 0][RDX := s.r[RDX] - 5]
    ensures Copied(job, t, 0)
  {
    hide Loaded, WordAt;
    assert job.xs[..0] == [];
  }

  lemma DispatchCopied(job: Job, u: State, v: State, k: nat)
    requires Fits(job) && Copied(job, u, k) && v.m == u.m && |v.r| == REG_NONE && v.r == u.r[RDX := v.r[RDX]]
    ensures Copied(job, v, k) && SameOthers(job.r, v.r)
  {
    hide Fits, WriteWords;
  }

  lemma StackKept(job: Job, t: State)
    requires Fits(job) && t.m == WriteWords(job.m, job.dst, job.xs) && SameOthers(job.r, t.r)
    ensures |t.r| == REG_NONE && t.r[RSP] == job.r[RSP]
    ensures WordInside(t.m, job.r[RSP]) && WordAt(t.m, job.r[RSP]) == WordAt(job.m, job.r[RSP])
  {
    hide Loaded;
    var sp: int := job.r[RSP];
    WriteWordsFrame(job.m, job.dst, job.xs, sp, sp + 8);
  }

  lemma OthersAfterRet(r0: seq<Word>, r: seq<Word>, r': seq<Word>)
    requires |r0| == REG_NONE && SameOthers(r0, r) && |r'| == REG_NONE && r' == r[RSP := r'[RSP]]
    ensures forall id {:trigger r'[id]} :: 0 <= id < REG_NONE && id != RSP && !Clobbered(id) ==> r'[id] == r0[id]
  {
    forall id | 0 <= id < REG_NONE && id != RSP && !Clobbered(id)
      ensures r'[id] == r0[id]
    {
      assert r[id] == r0[id];
    }
  }
}
