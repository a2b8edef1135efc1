/** `copy_block`: the loop that copies words and answers their exclusive or, run on the ISA. */
module CopyBlock {
  import opened Lists
  import opened Words
  import opened Bits
  import opened ByteMemory
  import opened Isa
  import opened Alu
  import opened Assembly
  import opened Programs

  const LENGTH: nat := 81
  const LOOP: nat := 21
  const TEST: nat := 80

  /** The code from label copy_block on, when that label is at `base`. */
  function Listing(base: nat, off: nat): Option<Instr>
    requires base <= MAX_MEM
  {
    match off
    case 0 => Some(IRmov(0, RAX))
    case 10 => Some(Assembly.Alu(A_AND, RDX, RDX))
    case 12 => Some(Jmp(C_LE, base + 80))
    case 21 => Some(MRmov(0, RDI, 10))  // loop
    case 31 => Some(IRmov(8, 11))
    case 41 => Some(Assembly.Alu(A_ADD, 11, RDI))
    case 43 => Some(RMmov(10, 0, RSI))
    case 53 => Some(Assembly.Alu(A_ADD, 11, RSI))
    case 55 => Some(Assembly.Alu(A_XOR, 10, RAX))
    case 57 => Some(IRmov(1, 11))
    case 67 => Some(Assembly.Alu(A_SUB, 11, RDX))
    case 69 => Some(Assembly.Alu(A_AND, RDX, RDX))
    case 71 => Some(Jmp(C_G, base + 21))
    case 80 => Some(Ret)  // test
    case _ => None
  }

  ghost predicate Loaded(m: Bytes, base: nat) {
    && base + LENGTH <= |m| <= MAX_MEM
    && forall off {:trigger Listing(base, off)} :: 0 <= off && Listing(base, off).Some? ==>
      At(m, base + off, Listing(base, off).value)
  }

  lemma ListingInside(base: nat, off: nat)
    requires base <= MAX_MEM && Listing(base, off).Some?
    ensures off + Size(Listing(base, off).value) <= LENGTH
  {
  }

  /** Words written clear of the code leave it loaded. */
  lemma LoadedAfter(m: Bytes, base: nat, dst: int, xs: seq<Word>)
    requires Loaded(m, base) && Region(m, dst, |xs|) && (base + LENGTH <= dst || dst + 8 * |xs| <= base)
    ensures Loaded(WriteWords(m, dst, xs), base)
  {
    hide Listing, WriteWords, At;
    var m' := WriteWords(m, dst, xs);
    WriteWordsFrame(m, dst, xs, base, base + LENGTH);
    forall off: nat | Listing(base, off).Some?
      ensures At(m', base + off, Listing(base, off).value)
    {
      ListingInside(base, off);
      AtKept(m, m', base, base + LENGTH, base + off, Listing(base, off).value);
    }
  }

  /** The listed instruction is at the program counter. */
  lemma Listed(s: State, base: nat, off: nat, i: Instr)
    requires Loaded(s.m, base) && s.pc == base + off && Listing(base, off) == Some(i) && |s.r| == REG_NONE
    ensures Here(s, i)
  {
    hide Listing;
  }

  lemma LoadedSmall(m: Bytes, base: nat)
    requires Loaded(m, base)
    ensures base + LENGTH <= MAX_MEM
  {
    hide Listing;
  }

  lemma Code(base: nat)
    requires base <= MAX_MEM
    ensures Listing(base, 0) == Some(IRmov(0, RAX)) && Listing(base, 10) == Some(Assembly.Alu(A_AND, RDX, RDX))
    ensures Listing(base, 12) == Some(Jmp(C_LE, base + TEST))
    ensures Listing(base, 21) == Some(MRmov(0, RDI, 10)) && Listing(base, 31) == Some(IRmov(8, 11))
    ensures Listing(base, 41) == Some(Assembly.Alu(A_ADD, 11, RDI)) && Listing(base, 43) == Some(RMmov(10, 0, RSI))
    ensures Listing(base, 53) == Some(Assembly.Alu(A_ADD, 11, RSI))
    ensures Listing(base, 55) == Some(Assembly.Alu(A_XOR, 10, RAX))
    ensures Listing(base, 57) == Some(IRmov(1, 11)) && Listing(base, 67) == Some(Assembly.Alu(A_SUB, 11, RDX))
    ensures Listing(base, 69) == Some(Assembly.Alu(A_AND, RDX, RDX))
    ensures Listing(base, 71) == Some(Jmp(C_G, base + LOOP)) && Listing(base, 80) == Some(Ret)
  {
  }

  // ---------------------------------------------------------------------------------------------
  // The exclusive or of a row of words
  // ---------------------------------------------------------------------------------------------

  function XorAll(xs: seq<Word>): Word {
    if xs == [] then 0 else ComputeAlu(A_XOR, xs[|xs| - 1], XorAll(xs[..|xs| - 1]))
  }

  /** How many of the words have bit `i` set. */
  function BitCount(xs: seq<Word>, i: nat): nat {
    if xs == [] then 0 else BitCount(xs[..|xs| - 1], i) + (if BitOf(xs[|xs| - 1], i) then 1 else 0)
  }

  /** A bit of the answer is set exactly when it is set in an odd number of the words. */
  lemma {:induction false} XorAllBits(xs: seq<Word>, i: nat)
    ensures BitOf(XorAll(xs), i) <==> BitCount(xs, i) % 2 == 1
  {
    hide ComputeAlu, BitOf;
    if xs == [] {
      ZeroBits(i);
    } else {
      XorAllBits(xs[..|xs| - 1], i);
      LogicBits(xs[|xs| - 1], XorAll(xs[..|xs| - 1]), i);
    }
  }

  lemma ZeroBits(i: nat)
    ensures !BitOf(0, i)
  {
    assert 0 / Pow2(i) == 0;
  }

  // ---------------------------------------------------------------------------------------------
  // The loop
  // ---------------------------------------------------------------------------------------------

  /** One call: where the code is, the two blocks, the source words, and memory and registers on entry. */
  datatype Job = Job(base: nat, src: int, dst: int, xs: seq<Word>, m: Bytes, r: seq<Word>)

  predicate Clear(a: int, n: nat, b: int, k: nat) { a + n <= b || b + k <= a }

  ghost predicate Fits(job: Job) {
    && |job.r| == REG_NONE && Loaded(job.m, job.base)
    && WordsAt(job.m, job.src, job.xs) && Region(job.m, job.dst, |job.xs|)
    && Clear(job.src, 8 * |job.xs|, job.dst, 8 * |job.xs|)
    && Clear(job.base, LENGTH, job.dst, 8 * |job.xs|)
    && WordInside(job.m, job.r[RSP]) && Clear(job.r[RSP], 8, job.dst, 8 * |job.xs|)
  }

  predicate Clobbered(id: nat) { id in {RAX, RDX, RSI, RDI, 10, 11} }

  ghost predicate SameOthers(r0: seq<Word>, r: seq<Word>) {
    |r| == |r0| && forall id {:trigger r[id]} :: 0 <= id < |r0| && !Clobbered(id) ==> r[id] == r0[id]
  }

  /** The first `i` words are copied and their exclusive or is in %rax. */
  ghost predicate Copied(job: Job, s: State, i: nat) {
    && i <= |job.xs| && Region(job.m, job.dst, |job.xs|) && |s.r| == |job.r| == REG_NONE
    && s.m == WriteWords(job.m, job.dst, job.xs[..i])
    && s.r[RAX] == XorAll(job.xs[..i])
    && s.r[RDI] == job.src + 8 * i && s.r[RSI] == job.dst + 8 * i && s.r[RDX] == |job.xs| - i
    && SameOthers(job.r, s.r)
  }

  /** What is known at the top of the loop with `i` words copied. */
  lemma TurnFacts(job: Job, s: State, i: nat)
    requires Fits(job) && Copied(job, s, i) && i < |job.xs|
    ensures Loaded(s.m, job.base) && |s.r| == REG_NONE && job.base <= MAX_MEM
    ensures WordInside(s.m, s.r[RDI]) && WordAt(s.m, s.r[RDI]) == job.xs[i] && WordInside(s.m, s.r[RSI])
    ensures Loaded(PutWord(s.m, s.r[RSI], job.xs[i]), job.base)
    ensures PutWord(s.m, s.r[RSI], job.xs[i]) == WriteWords(job.m, job.dst, job.xs[..i + 1])
    ensures s.r[RDI] + 8 <= MAX_MEM && s.r[RSI] + 8 <= MAX_MEM && |job.xs| <= MAX_MEM
  {
    hide Loaded, WriteWords, PutWord, WordAt, SameOthers;
    FitsBound(job);
    assert job.xs[..i + 1] == job.xs[..i] + [job.xs[i]];
    LoadedAfter(job.m, job.base, job.dst, job.xs[..i]);
    LoadedAfter(job.m, job.base, job.dst, job.xs[..i + 1]);
    WriteWordsSnoc(job.m, job.dst, job.xs[..i], job.xs[i]);
    WordsKept(job.m, job.src, job.xs, job.dst, job.xs[..i]);
  }

  lemma FitsBound(job: Job)
    requires Fits(job)
    ensures |job.m| <= MAX_MEM && job.base <= MAX_MEM && 8 * |job.xs| <= MAX_MEM
  {
    hide Listing, WordAt;
  }

  /** `andq %rdx,%rdx`, then a jump on its sign. */
  lemma TestAndJump(s: State, base: nat, off: nat, cond: nat, target: nat) returns (t: State)
    requires Loaded(s.m, base) && s.pc == base + off && |s.r| == REG_NONE && base + target < TWO_63
    requires Listing(base, off) == Some(Assembly.Alu(A_AND, RDX, RDX))
    requires Listing(base, off + 2) == Some(Jmp(cond, base + target))
    ensures Runs(s, 2, t) && t.m == s.m && t.r == s.r
    ensures t.pc == base + (if Compares(cond, s.r[RDX], 0) then target else off + 11)
  {
    hide Listing, Loaded, Here, Step, Runs, ComputeAlu, ComputeCc, CondHolds;
    Listed(s, base, off, Assembly.Alu(A_AND, RDX, RDX));
    StepAlu(s, A_AND, RDX, RDX);
    AndTests(s.r[RDX], cond);
    assert s.r[RDX := s.r[RDX]] == s.r;
    var u := s.(pc := base + off + 2, cc := ComputeCc(A_AND, s.r[RDX], s.r[RDX]));
    Listed(u, base, off + 2, Jmp(cond, base + target));
    StepJmp(u, cond, base + target);
    t := u.(pc := base + (if Compares(cond, s.r[RDX], 0) then target else off + 11));
    RunsTrans(s, 1, u, 1, t);
  }

  /** The load, and the source pointer moved on. */
  lemma Take(s: State, base: nat, x: Word) returns (t: State)
    requires Loaded(s.m, base) && s.pc == base + LOOP && |s.r| == REG_NONE
    requires WordInside(s.m, s.r[RDI]) && WordAt(s.m, s.r[RDI]) == x && s.r[RDI] + 8 < TWO_63
    ensures Runs(s, 3, t) && t.m == s.m && t.pc == base + 43
    ensures t.r == s.r[10 := x][11 := 8][RDI := s.r[RDI] + 8]
  {
    hide Listing, Loaded, Here, Step, Runs, ComputeAlu, ComputeCc, WordAt;
    LoadedSmall(s.m, base);
    Code(base);
    AddsExactly(8, s.r[RDI]);
    Listed(s, base, 21, MRmov(0, RDI, 10));
    StepLoad(s, 0, RDI, 10);
    var u := s.(pc := base + 31, r := s.r[10 := x]);
    Listed(u, base, 31, IRmov(8, 11));
    StepIRmov(u, 8, 11);
    var v := u.(pc := base + 41, r := u.r[11 := 8]);
    Listed(v, base, 41, Assembly.Alu(A_ADD, 11, RDI));
    StepAlu(v, A_ADD, 11, RDI);
    t := v.(pc := base + 43, r := v.r[RDI := s.r[RDI] + 8], cc := ComputeCc(A_ADD, 8, v.r[RDI]));
    RunsTrans(s, 1, u, 1, v);
    RunsTrans(s, 2, v, 1, t);
  }

  lemma AddsExactly(a: Word, b: Word)
    requires -TWO_63 <= a + b < TWO_63
    ensures ComputeAlu(A_ADD, a, b) == a + b
  {
  }

  lemma SubtractsExactly(a: Word, b: Word)
    requires -TWO_63 <= b - a < TWO_63
    ensures ComputeAlu(A_SUB, a, b) == b - a
  {
  }

  /** The store, the destination pointer moved on, and the word taken into %rax. */
  lemma Give(s: State, base: nat) returns (t: State)
    requires Loaded(s.m, base) && s.pc == base + 43 && |s.r| == REG_NONE && s.r[11] == 8
    requires WordInside(s.m, s.r[RSI]) && s.r[RSI] + 8 < TWO_63
    requires Loaded(PutWord(s.m, s.r[RSI], s.r[10]), base)
    ensures Runs(s, 3, t) && t.m == PutWord(s.m, s.r[RSI], s.r[10]) && t.pc == base + 57
    ensures t.r == s.r[RSI := s.r[RSI] + 8][RAX := ComputeAlu(A_XOR, s.r[10], s.r[RAX])]
  {
    hide Listing, Loaded, Here, Step, Runs, ComputeAlu, ComputeCc, PutWord;
    LoadedSmall(s.m, base);
    Code(base);
    AddsExactly(8, s.r[RSI]);
    Listed(s, base, 43, RMmov(10, 0, RSI));
    StepStore(s, 10, 0, RSI);
    var u := s.(pc := base + 53, m := PutWord(s.m, s.r[RSI], s.r[10]));
    Listed(u, base, 53, Assembly.Alu(A_ADD, 11, RSI));
    StepAlu(u, A_ADD, 11, RSI);
    var v := u.(pc := base + 55, r := u.r[RSI := s.r[RSI] + 8], cc := ComputeCc(A_ADD, 8, s.r[RSI]));
    Listed(v, base, 55, Assembly.Alu(A_XOR, 10, RAX));
    StepAlu(v, A_XOR, 10, RAX);
    t := v.(pc := base + 57, r := v.r[RAX := ComputeAlu(A_XOR, v.r[10], v.r[RAX])],
            cc := ComputeCc(A_XOR, v.r[10], v.r[RAX]));
    RunsTrans(s, 1, u, 1, v);
    RunsTrans(s, 2, v, 1, t);
  }

  /** One word fewer to go, and back to the top while there are any. */
  lemma Count(s: State, base: nat) returns (t: State)
    requires Loaded(s.m, base) && s.pc == base + 57 && |s.r| == REG_NONE && 0 < s.r[RDX]
    ensures Runs(s, 4, t) && t.m == s.m && t.r == s.r[11 := 1][RDX := s.r[RDX] - 1]
    ensures t.pc == base + (if s.r[RDX] > 1 then LOOP else TEST)
  {
    hide Listing, Loaded, Here, Step, Runs, ComputeAlu, ComputeCc;
    LoadedSmall(s.m, base);
    Code(base);
    SubtractsExactly(1, s.r[RDX]);
    Listed(s, base, 57, IRmov(1, 11));
    StepIRmov(s, 1, 11);
    var u := s.(pc := base + 67, r := s.r[11 := 1]);
    Listed(u, base, 67, Assembly.Alu(A_SUB, 11, RDX));
    StepAlu(u, A_SUB, 11, RDX);
    var v := u.(pc := base + 69, r := u.r[RDX := s.r[RDX] - 1], cc := ComputeCc(A_SUB, 1, s.r[RDX]));
    t := TestAndJump(v, base, 69, C_G, LOOP);
    RunsTrans(s, 1, u, 1, v);
    RunsTrans(s, 2, v, 2, t);
  }

  /** One turn of the loop: one word more. */
  lemma Turn(job: Job, s: State, i: nat) returns (t: State)
    requires Fits(job) && Copied(job, s, i) && i < |job.xs| && s.pc == job.base + LOOP
    ensures Runs(s, 10, t) && Copied(job, t, i + 1)
    ensures t.pc == job.base + (if i + 1 < |job.xs| then LOOP else TEST)
  {
    hide Fits, Loaded, Step, Runs, WriteWords, PutWord, WordAt, ComputeAlu, SameOthers, XorAll;
    TurnFacts(job, s, i);
    CopiedRegisters(job, s, i);
    var u := Take(s, job.base, job.xs[i]);
    var v := Give(u, job.base);
    t := Count(v, job.base);
    RunsTrans(s, 3, u, 3, v);
    RunsTrans(s, 6, v, 4, t);
    XorAllSnoc(job.xs, i);
    OthersKept(job.r, s.r, t.r, job.xs[i], u.r, v.r);
  }

  lemma CopiedRegisters(job: Job, s: State, i: nat)
    requires Copied(job, s, i)
    ensures s.r[RDX] == |job.xs| - i
  {
  }

  lemma XorAllSnoc(xs: seq<Word>, i: nat)
    requires i < |xs|
    ensures XorAll(xs[..i + 1]) == ComputeAlu(A_XOR, xs[i], XorAll(xs[..i]))
  {
    assert xs[..i + 1][..i] == xs[..i];
  }

  lemma OthersKept(r0: seq<Word>, r: seq<Word>, t: seq<Word>, x: Word, u: seq<Word>, v: seq<Word>)
    requires SameOthers(r0, r) && |r| == REG_NONE && |u| == |v| == |t| == REG_NONE
    requires u == r[10 := x][11 := 8][RDI := u[RDI]] && v == u[RSI := v[RSI]][RAX := v[RAX]]
    requires t == v[11 := 1][RDX := t[RDX]]
    ensures SameOthers(r0, t)
  {
    forall id | 0 <= id < |r0| && !Clobbered(id)
      ensures t[id] == r0[id]
    {
      assert r[id] == r0[id];
    }
  }

  lemma {:induction false} LoopRun(job: Job, s: State, i: nat) returns (n: nat, t: State)
    requires Fits(job) && Copied(job, s, i)
    requires s.pc == job.base + (if i < |job.xs| then LOOP else TEST)
    ensures Runs(s, n, t) && Copied(job, t, |job.xs|) && t.pc == job.base + TEST
    decreases |job.xs| - i
  {
    hide Fits, Loaded, Step, Runs, WriteWords, SameOthers, XorAll;
    if i == |job.xs| {
      RunsNone(s);
      return 0, s;
    }
    var u := Turn(job, s, i);
    n, t := LoopRun(job, u, i + 1);
    RunsTrans(s, 10, u, n, t);
    n := 10 + n;
  }

  /** %rax cleared, and the loop entered unless there is nothing to copy. */
  lemma Enter(job: Job, s: State) returns (t: State)
    requires Fits(job) && s.m == job.m && s.r == job.r && s.pc == job.base
    requires s.r[RDI] == job.src && s.r[RSI] == job.dst && s.r[RDX] == |job.xs|
    ensures Runs(s, 3, t) && Copied(job, t, 0) && t.pc == job.base + (if 0 < |job.xs| then LOOP else TEST)
  {
    hide Listing, Loaded, Here, Step, Runs, WordAt;
    FitsBound(job);
    Code(job.base);
    assert job.xs[..0] == [];
    Listed(s, job.base, 0, IRmov(0, RAX));
    StepIRmov(s, 0, RAX);
    var u := s.(pc := job.base + 10, r := s.r[RAX := 0]);
    t := TestAndJump(u, job.base, 10, C_LE, TEST);
    RunsTrans(s, 1, u, 2, t);
  }

  /** Called with %rdi, %rsi and %rdx set to two blocks and their length, and a return address on the stack,
      `copy_block` returns to it with the words copied, %rax their exclusive or, %rsp popped, the registers it
      does not use intact, and no other byte of memory changed. */
  lemma CopyBlockCorrect(s: State, base: nat, src: int, dst: int, xs: seq<Word>) returns (n: nat, t: State)
    requires Fits(Job(base, src, dst, xs, s.m, s.r))
    requires s.pc == base && s.r[RDI] == src && s.r[RSI] == dst && s.r[RDX] == |xs|
    ensures Runs(s, n, t) && t.m == WriteWords(s.m, dst, xs) && t.pc == WordAt(s.m, s.r[RSP])
    ensures |t.r| == REG_NONE && t.r[RSP] == s.r[RSP] + 8
    ensures forall i: nat {:trigger BitOf(t.r[RAX], i)} :: BitOf(t.r[RAX], i) <==> BitCount(xs, i) % 2 == 1
    ensures forall id {:trigger t.r[id]} :: 0 <= id < REG_NONE && id != RSP && !Clobbered(id) ==> t.r[id] == s.r[id]
  {
    hide Fits, Loaded, Step, Runs, WriteWords, WordAt, XorAll, BitOf, Listing, Here;
    var job := Job(base, src, dst, xs, s.m, s.r);
    var u := Enter(job, s);
    var k, v := LoopRun(job, u, 0);
    assert xs[..|xs|] == xs;
    StackKept(job, v);
    FitsBound(job);
    Code(base);
    Listed(v, base, TEST, Ret);
    StepRet(v);
    t := v.(pc := WordAt(v.m, v.r[RSP]), r := v.r[RSP := v.r[RSP] + 8]);
    RunsTrans(s, 3, u, k, v);
    RunsTrans(s, 3 + k, v, 1, t);
    n := 3 + k + 1;
    forall i: nat { XorAllBits(xs, i); }
    assert forall id :: 0 <= id < REG_NONE && id != RSP && !Clobbered(id) ==> t.r[id] == v.r[id];
  }

  lemma StackKept(job: Job, t: State)
    requires Fits(job) && t.m == WriteWords(job.m, job.dst, job.xs) && SameOthers(job.r, t.r)
    ensures |t.r| == REG_NONE && t.r[RSP] == job.r[RSP] && Loaded(t.m, job.base)
    ensures WordInside(t.m, job.r[RSP]) && WordAt(t.m, job.r[RSP]) == WordAt(job.m, job.r[RSP])
  {
    LoadedAfter(job.m, job.base, job.dst, job.xs);
    hide Loaded;
    var sp: int := job.r[RSP];
    WriteWordsFrame(job.m, job.dst, job.xs, sp, sp + 8);
  }
}
