/**
  `rsum_list`: the recursive list sum, run on the ISA.  Every activation pushes %r12 and, unless the
  list is empty, a return address, so the stack it touches is linear in the length of the list.
*/
module RsumList {
  import opened Lists
  import opened Words
  import opened ByteMemory
  import opened Isa
  import opened Assembly
  import opened Programs

  const LENGTH: nat := 57
  const TEST: nat := 54

  /** The code from label rsum_list on, when that label is at `base`. */
  function Listing(base: nat, off: nat): Option<Instr>
    requires base <= MAX_MEM
  {
    match off
    case 0 => Some(Push(R12))
    case 2 => Some(IRmov(0, RAX))
    case 12 => Some(Alu(A_AND, RDI, RDI))
    case 14 => Some(Jmp(C_E, base + 54))
    case 23 => Some(MRmov(0, RDI, R12))
    case 33 => Some(MRmov(8, RDI, RDI))
    case 43 => Some(Call(base))
    case 52 => Some(Alu(A_ADD, R12, RAX))
    case 54 => Some(Pop(R12))  // test
    case 56 => Some(Ret)
    case _ => None
  }

  ghost predicate Loaded(m: Bytes, base: nat) {
    && base + LENGTH <= |m| <= MAX_MEM
    && forall off {:trigger Listing(base, off)} :: 0 <= off && Listing(base, off).Some? ==>
      At(m, base + off, Listing(base, off).value)
  }

  lemma ListingInside(base: nat, off: nat)
    requires base <= MAX_MEM && Listing(base, off).Some?
    ensures off + Size(Listing(base, off).value) <= LENGTH
  {
  }

  /** The memories differ at most in the bytes from `lo` up to `hi`. */
  ghost predicate SameOutside(m: Bytes, m': Bytes, lo: int, hi: int) {
    0 <= lo <= hi <= |m| == |m'| && m'[..lo] == m[..lo] && m'[hi..] == m[hi..]
  }

  lemma OutsideSlice(m: Bytes, m': Bytes, lo: int, hi: int, a: int, b: int)
    requires SameOutside(m, m', lo, hi) && 0 <= a <= b <= |m| && (b <= lo || hi <= a)
    ensures m'[a..b] == m[a..b]
  {
    if b <= lo {
      SliceOfSlice(m, 0, lo, a, b);
      SliceOfSlice(m', 0, lo, a, b);
    } else {
      SliceOfSlice(m, hi, |m|, a, b);
      SliceOfSlice(m', hi, |m|, a, b);
      assert m[hi..|m|] == m[hi..] && m'[hi..|m|] == m'[hi..];
    }
  }

  lemma OutsideWord(m: Bytes, m': Bytes, lo: int, hi: int, a: int)
    requires SameOutside(m, m', lo, hi) && WordInside(m, a) && (a + 8 <= lo || hi <= a)
    ensures WordAt(m', a) == WordAt(m, a)
  {
    OutsideSlice(m, m', lo, hi, a, a + 8);
  }

  lemma OutsideTrans(m: Bytes, m1: Bytes, m2: Bytes, lo: int, hi: int, lo1: int, hi1: int)
    requires SameOutside(m, m1, lo1, hi1) && SameOutside(m1, m2, lo, hi) && lo <= lo1 && hi1 <= hi
    ensures SameOutside(m, m2, lo, hi)
  {
    OutsideSlice(m, m1, lo1, hi1, 0, lo);
    OutsideSlice(m, m1, lo1, hi1, hi, |m|);
    assert m[..lo] == m[0..lo] && m1[..lo] == m1[0..lo] && m[hi..] == m[hi..|m|] && m1[hi..] == m1[hi..|m|];
  }

  lemma OutsideWiden(m: Bytes, m1: Bytes, lo: int, hi: int, lo1: int, hi1: int)
    requires SameOutside(m, m1, lo1, hi1) && 0 <= lo <= lo1 && hi1 <= hi <= |m|
    ensures SameOutside(m, m1, lo, hi)
  {
    OutsideSlice(m, m1, lo1, hi1, 0, lo);
    OutsideSlice(m, m1, lo1, hi1, hi, |m|);
    assert m[..lo] == m[0..lo] && m1[..lo] == m1[0..lo] && m[hi..] == m[hi..|m|] && m1[hi..] == m1[hi..|m|];
  }

  lemma PutOutside(m: Bytes, pos: int, v: Word)
    requires WordInside(m, pos)
    ensures SameOutside(m, PutWord(m, pos, v), pos, pos + 8)
  {
  }

  lemma LoadedKept(m: Bytes, m': Bytes, base: nat, lo: int, hi: int)
    requires Loaded(m, base) && SameOutside(m, m', lo, hi) && (base + LENGTH <= lo || hi <= base)
    ensures Loaded(m', base)
  {
    hide Listing;
    OutsideSlice(m, m', lo, hi, base, base + LENGTH);
    forall off: nat | Listing(base, off).Some?
      ensures At(m', base + off, Listing(base, off).value)
    {
      ListingInside(base, off);
      AtKept(m, m', base, base + LENGTH, base + off, Listing(base, off).value);
    }
  }

  /** The nodes of a null-terminated list holding `xs`, all of them clear of the bytes from `lo` to `hi`. */
  ghost predicate IsList(m: Bytes, p: Word, xs: seq<Word>, lo: int, hi: int)
    decreases |xs|
  {
    if xs == [] then p == 0
    else
      && p != 0 && WordInside(m, p) && WordInside(m, p + 8) && (p + 16 <= lo || hi <= p)
      && WordAt(m, p) == xs[0] && IsList(m, WordAt(m, p + 8), xs[1..], lo, hi)
  }

  function TrueSum(xs: seq<Word>): int {
    if xs == [] then 0 else xs[0] + TrueSum(xs[1..])
  }

  /** Bytes of stack below the caller's return address that `n` nodes need. */
  function StackNeed(n: nat): nat { 16 * n + 8 }

  /** A call of rsum_list about to execute its first instruction. */
  ghost predicate Called(s: State, base: nat, xs: seq<Word>) {
    && |s.r| == REG_NONE && s.pc == base && Loaded(s.m, base)
    && StackNeed(|xs|) <= s.r[RSP] && WordInside(s.m, s.r[RSP])
    && (base + LENGTH <= s.r[RSP] - StackNeed(|xs|) || s.r[RSP] <= base)
    && IsList(s.m, s.r[RDI], xs, s.r[RSP] - StackNeed(|xs|), s.r[RSP])
  }

  /** The state in which a call made in `s` must end: back at the return address with the sum in %rax,
      %rdi zero, the stack popped and everything else as it was. */
  ghost predicate Returned(s: State, t: State, xs: seq<Word>)
    requires |s.r| == REG_NONE && WordInside(s.m, s.r[RSP]) && s.r[RSP] + 8 < TWO_63
  {
    && t.pc == WordAt(s.m, s.r[RSP])
    && t.r == s.r[RAX := Wrap(TrueSum(xs))][RDI := 0][RSP := s.r[RSP] + 8]
    && SameOutside(s.m, t.m, s.r[RSP] - StackNeed(|xs|), s.r[RSP])
  }

  lemma Listed(s: State, base: nat, off: nat, i: Instr)
    requires Loaded(s.m, base) && s.pc == base + off && Listing(base, off) == Some(i) && |s.r| == REG_NONE
    ensures Here(s, i) && base + LENGTH <= |s.m| <= MAX_MEM
  {
    hide Listing;
  }

  /** `pushq %r12; irmovq $0,%rax; andq %rdi,%rdi; je test`. */
  lemma Enter(s: State, base: nat) returns (t: State)
    requires |s.r| == REG_NONE && s.pc == base && Loaded(s.m, base) && 8 <= s.r[RSP] <= |s.m|
    requires base + LENGTH <= s.r[RSP] - 8 || s.r[RSP] <= base
    ensures Runs(s, 4, t) && t.m == PutWord(s.m, s.r[RSP] - 8, s.r[R12]) && Loaded(t.m, base)
    ensures t.r == s.r[RSP := s.r[RSP] - 8][RAX := 0] && t.pc == base + (if s.r[RDI] == 0 then TEST else 23)
  {
    hide Loaded, Here, Step, Runs, PutWord, ComputeAlu, ComputeCc, CondHolds;
    var sp: int := s.r[RSP];
    Listed(s, base, 0, Push(R12));
    StepPush(s, R12);
    var s1 := s.(pc := base + 2, r := s.r[RSP := sp - 8], m := PutWord(s.m, sp - 8, s.r[R12]));
    PutOutside(s.m, sp - 8, s.r[R12]);
    LoadedKept(s.m, s1.m, base, sp - 8, sp);
    Listed(s1, base, 2, IRmov(0, RAX));
    StepIRmov(s1, 0, RAX);
    var s2 := s1.(pc := base + 12, r := s1.r[RAX := 0]);
    Listed(s2, base, 12, Alu(A_AND, RDI, RDI));
    StepAlu(s2, A_AND, RDI, RDI);
    AndTests(s2.r[RDI], C_E);
    var s3 := s2.(pc := base + 14, cc := ComputeCc(A_AND, s2.r[RDI], s2.r[RDI]));
    assert s2.r[RDI := s2.r[RDI]] == s2.r;
    Listed(s3, base, 14, Jmp(C_E, base + 54));
    StepJmp(s3, C_E, base + 54);
    t := s3.(pc := base + (if s.r[RDI] == 0 then TEST else 23));
    RunsTrans(s, 1, s1, 1, s2);
    RunsTrans(s, 2, s2, 1, s3);
    RunsTrans(s, 3, s3, 1, t);
  }

  /** `mrmovq (%rdi),%r12; mrmovq 8(%rdi),%rdi; call rsum_list`. */
  lemma Descend(s: State, base: nat) returns (t: State)
    requires |s.r| == REG_NONE && s.pc == base + 23 && Loaded(s.m, base) && 8 <= s.r[RSP] <= |s.m|
    requires base + LENGTH <= s.r[RSP] - 8 || s.r[RSP] <= base
    requires WordInside(s.m, s.r[RDI]) && WordInside(s.m, s.r[RDI] + 8)
    ensures Runs(s, 3, t) && t.m == PutWord(s.m, s.r[RSP] - 8, base + 52) && Loaded(t.m, base) && t.pc == base
    ensures t.r == s.r[R12 := WordAt(s.m, s.r[RDI])][RDI := WordAt(s.m, s.r[RDI] + 8)][RSP := s.r[RSP] - 8]
  {
    hide Loaded, Here, Step, Runs, PutWord, WordAt;
    var sp: int := s.r[RSP];
    var p: int := s.r[RDI];
    Listed(s, base, 23, MRmov(0, RDI, R12));
    StepLoad(s, 0, RDI, R12);
    var s1 := s.(pc := base + 33, r := s.r[R12 := WordAt(s.m, p)]);
    Listed(s1, base, 33, MRmov(8, RDI, RDI));
    StepLoad(s1, 8, RDI, RDI);
    var s2 := s1.(pc := base + 43, r := s1.r[RDI := WordAt(s.m, p + 8)]);
    Listed(s2, base, 43, Call(base));
    StepCall(s2, base);
    t := s2.(pc := base, r := s2.r[RSP := sp - 8], m := PutWord(s.m, sp - 8, base + 52));
    PutOutside(s.m, sp - 8, base + 52);
    LoadedKept(s.m, t.m, base, sp - 8, sp);
    RunsTrans(s, 1, s1, 1, s2);
    RunsTrans(s, 2, s2, 1, t);
  }

  /** `test: popq %r12; ret`. */
  lemma Leave(s: State, base: nat) returns (t: State)
    requires |s.r| == REG_NONE && s.pc == base + TEST && Loaded(s.m, base)
    requires WordInside(s.m, s.r[RSP]) && WordInside(s.m, s.r[RSP] + 8)
    ensures s.r[RSP] + 16 < TWO_63
    ensures Runs(s, 2, t) && t.m == s.m && t.pc == WordAt(s.m, s.r[RSP] + 8)
    ensures t.r == s.r[RSP := s.r[RSP] + 16][R12 := WordAt(s.m, s.r[RSP])]
  {
    hide Loaded, Here, Step, Runs, WordAt;
    var sp: int := s.r[RSP];
    Listed(s, base, 54, Pop(R12));
    StepPop(s, R12);
    var s1 := s.(pc := base + 56, r := s.r[RSP := sp + 8][R12 := WordAt(s.m, sp)]);
    Listed(s1, base, 56, Ret);
    StepRet(s1);
    t := s1.(pc := WordAt(s.m, sp + 8), r := s1.r[RSP := sp + 16]);
    RunsTrans(s, 1, s1, 1, t);
  }

  /** Back from the recursive call: `addq %r12,%rax`, then `test`. */
  lemma Ascend(s: State, base: nat) returns (t: State)
    requires |s.r| == REG_NONE && s.pc == base + 52 && Loaded(s.m, base)
    ensures Runs(s, 1, t) && t.m == s.m && t.pc == base + TEST
      && t.r == s.r[RAX := Wrap(s.r[R12] as int + s.r[RAX] as int)]
  {
    hide Loaded, Here, Step, Runs, ComputeCc;
    Listed(s, base, 52, Alu(A_ADD, R12, RAX));
    StepAlu(s, A_ADD, R12, RAX);
    t := s.(pc := base + TEST, r := s.r[RAX := Wrap(s.r[R12] as int + s.r[RAX] as int)], cc := ComputeCc(A_ADD,
      s.r[R12], s.r[RAX]));
  }

  lemma CalledBounds(s: State, base: nat, xs: seq<Word>)
    requires Called(s, base, xs)
    ensures |s.m| <= MAX_MEM && base <= MAX_MEM && 0 <= s.r[RSP] && s.r[RSP] + 8 < TWO_63
  {
    hide Listing, IsList;
  }

  ghost predicate Entered(s: State, u: State)
    requires |s.r| == REG_NONE && 8 <= s.r[RSP] <= |s.m|
  {
    u.m == PutWord(s.m, s.r[RSP] - 8, s.r[R12]) && u.r == s.r[RSP := s.r[RSP] - 8][RAX := 0]
  }

  ghost predicate Descended(u: State, v: State, base: nat)
    requires |u.r| == REG_NONE && 8 <= u.r[RSP] <= |u.m| <= MAX_MEM && base <= MAX_MEM
    requires WordInside(u.m, u.r[RDI]) && WordInside(u.m, u.r[RDI] + 8)
  {
    && v.m == PutWord(u.m, u.r[RSP] - 8, base + 52) && Loaded(v.m, base) && v.pc == base
    && v.r == u.r[R12 := WordAt(u.m, u.r[RDI])][RDI := WordAt(u.m, u.r[RDI] + 8)][RSP := u.r[RSP] - 8]
  }

  ghost predicate Left(u: State, t: State)
    requires |u.r| == REG_NONE && |u.m| <= MAX_MEM && 0 <= u.r[RSP] && u.r[RSP] + 16 <= |u.m|
  {
    && t.m == u.m && t.pc == WordAt(u.m, u.r[RSP] + 8)
    && t.r == u.r[RSP := u.r[RSP] + 16][R12 := WordAt(u.m, u.r[RSP])]
  }

  /** What Enter leaves on the stack: the saved %r12 below the untouched return address. */
  lemma Saved(s: State, u: State)
    requires |s.r| == REG_NONE && 8 <= s.r[RSP] && s.r[RSP] + 8 <= |s.m| <= MAX_MEM && Entered(s, u)
    ensures |u.m| == |s.m| && |u.r| == REG_NONE && u.r[RSP] == s.r[RSP] - 8
    ensures WordAt(u.m, u.r[RSP]) == s.r[R12] && WordAt(u.m, u.r[RSP] + 8) == WordAt(s.m, s.r[RSP])
    ensures SameOutside(s.m, u.m, s.r[RSP] - 8, s.r[RSP])
  {
    hide PutWord, WordAt;
    var sp: int := s.r[RSP];
    ReadBack(s.m, sp - 8, s.r[R12]);
    ReadOther(s.m, sp - 8, s.r[R12], sp);
    PutOutside(s.m, sp - 8, s.r[R12]);
  }

  lemma EmptyReturned(s: State, u: State, t: State)
    requires |s.r| == REG_NONE && 8 <= s.r[RSP] && s.r[RSP] + 8 <= |s.m| <= MAX_MEM && s.r[RDI] == 0
    requires Entered(s, u) && |u.r| == REG_NONE && |u.m| == |s.m| && u.r[RSP] == s.r[RSP] - 8 && Left(u, t)
    ensures Returned(s, t, [])
  {
    hide PutWord, WordAt, Entered;
    Saved(s, u);
    assert u.r == s.r[RSP := s.r[RSP] - 8][RAX := 0] by { EnteredRegs(s, u); }
  }

  lemma EnteredRegs(s: State, u: State)
    requires |s.r| == REG_NONE && 8 <= s.r[RSP] <= |s.m| && Entered(s, u)
    ensures u.r == s.r[RSP := s.r[RSP] - 8][RAX := 0]
  {
  }

  lemma MemBound(m: Bytes, base: nat)
    requires Loaded(m, base)
    ensures base + LENGTH <= |m| <= MAX_MEM
  {
    hide Listing;
  }

  /** The first node, seen after Enter. */
  lemma NodeHere(s: State, base: nat, u: State, xs: seq<Word>)
    requires Called(s, base, xs) && xs != [] && 8 <= s.r[RSP] <= |s.m| && Entered(s, u)
    ensures |u.r| == REG_NONE && 8 <= u.r[RSP] <= |u.m| <= MAX_MEM && u.r[RDI] == s.r[RDI]
    ensures base + LENGTH <= u.r[RSP] - 8 || u.r[RSP] <= base
    ensures WordInside(u.m, u.r[RDI]) && WordInside(u.m, u.r[RDI] + 8) && WordAt(u.m, u.r[RDI]) == xs[0]
    ensures var lo := s.r[RSP] - StackNeed(|xs|);
            IsList(u.m, WordAt(u.m, u.r[RDI] + 8), xs[1..], lo, s.r[RSP] - 8)
  {
    hide Loaded, PutWord, WordAt;
    MemBound(s.m, base);
    Saved(s, u);
    var sp, p: int := s.r[RSP], s.r[RDI];
    var lo := sp - StackNeed(|xs|);
    OutsideWord(s.m, u.m, sp - 8, sp, p);
    OutsideWord(s.m, u.m, sp - 8, sp, p + 8);
    InnerList(s.m, u.m, WordAt(s.m, p + 8), xs[1..], lo, sp);
  }

  /** A list clear of a whole stack area is clear of, and survives writes to, its top word. */
  lemma {:induction false} InnerList(m: Bytes, m': Bytes, p: Word, xs: seq<Word>, lo: int, sp: int)
    requires IsList(m, p, xs, lo, sp) && lo <= sp - 8 && SameOutside(m, m', sp - 8, sp)
    ensures IsList(m', p, xs, lo, sp - 8)
    decreases |xs|
  {
    hide WordAt;
    if xs != [] {
      OutsideWord(m, m', sp - 8, sp, p);
      OutsideWord(m, m', sp - 8, sp, p + 8);
      InnerList(m, m', WordAt(m, p + 8), xs[1..], lo, sp);
    }
  }

  lemma InnerCalled(s: State, base: nat, u: State, v: State, xs: seq<Word>)
    requires Called(s, base, xs) && xs != [] && |s.m| <= MAX_MEM && base <= MAX_MEM
    requires 8 <= s.r[RSP] <= |s.m| && Entered(s, u)
    requires |u.r| == REG_NONE && 8 <= u.r[RSP] <= |u.m| <= MAX_MEM
    requires WordInside(u.m, u.r[RDI]) && WordInside(u.m, u.r[RDI] + 8) && Descended(u, v, base)
    requires IsList(u.m, WordAt(u.m, u.r[RDI] + 8), xs[1..], s.r[RSP] - StackNeed(|xs|), s.r[RSP] - 8)
    ensures Called(v, base, xs[1..])
    ensures |v.m| == |u.m| && WordAt(v.m, v.r[RSP]) == base + 52 && v.r[RSP] == u.r[RSP] - 8
    ensures SameOutside(u.m, v.m, u.r[RSP] - 8, u.r[RSP])
  {
    hide Loaded, PutWord, WordAt, IsList;
    Saved(s, u);
    var sp: int := u.r[RSP];
    PutOutside(u.m, sp - 8, base + 52);
    ReadBack(u.m, sp - 8, base + 52);
    InnerList(u.m, v.m, WordAt(u.m, u.r[RDI] + 8), xs[1..], s.r[RSP] - StackNeed(|xs|), sp);
  }

  /** The stack, the code and the saved words are all as they were when the inner call returns. */
  lemma BackUp(s: State, base: nat, u: State, v: State, w: State, xs: seq<Word>)
    requires Called(s, base, xs) && xs != [] && |s.m| <= MAX_MEM && base <= MAX_MEM
    requires 8 <= s.r[RSP] && s.r[RSP] + 8 <= |s.m| && Entered(s, u)
    requires Called(v, base, xs[1..]) && v.r[RSP] + 8 < TWO_63 && Returned(v, w, xs[1..])
    requires |u.r| == REG_NONE && u.r[RSP] == s.r[RSP] - 8 && v.r[RSP] == s.r[RSP] - 16 && |v.m| == |u.m| == |s.m|
    requires WordAt(v.m, v.r[RSP]) == base + 52 && SameOutside(u.m, v.m, u.r[RSP] - 8, u.r[RSP])
    ensures |w.r| == REG_NONE && w.pc == base + 52 && Loaded(w.m, base) && |w.m| == |s.m|
    ensures w.r == v.r[RAX := Wrap(TrueSum(xs[1..]))][RDI := 0][RSP := s.r[RSP] - 8]
    ensures WordAt(w.m, s.r[RSP] - 8) == s.r[R12] && WordAt(w.m, s.r[RSP]) == WordAt(s.m, s.r[RSP])
    ensures SameOutside(s.m, w.m, s.r[RSP] - StackNeed(|xs|), s.r[RSP])
  {
    hide Listing, PutWord, WordAt, IsList, Entered;
    Saved(s, u);
    var sp: int := s.r[RSP];
    var lo := sp - StackNeed(|xs|);
    assert lo == v.r[RSP] - StackNeed(|xs[1..]|);
    OutsideTrans(u.m, v.m, w.m, lo, sp - 8, sp - 16, sp - 8);
    OutsideWord(u.m, w.m, lo, sp - 8, sp - 8);
    OutsideWord(u.m, w.m, lo, sp - 8, sp);
    LoadedKept(v.m, w.m, base, lo, sp - 16);
    OutsideWiden(u.m, w.m, lo, sp, lo, sp - 8);
    OutsideTrans(s.m, u.m, w.m, lo, sp, sp - 8, sp);
  }

  lemma ConsReturned(s: State, base: nat, u: State, v: State, w: State, x: State, t: State, xs: seq<Word>)
    requires |s.r| == REG_NONE && 8 <= s.r[RSP] && s.r[RSP] + 8 <= |s.m| <= MAX_MEM && base <= MAX_MEM && xs != []
    requires u.r == s.r[RSP := s.r[RSP] - 8][RAX := 0] && |u.m| == |s.m|
    requires 0 <= u.r[RDI] && u.r[RDI] + 16 <= |u.m| && 8 <= u.r[RSP] && Descended(u, v, base)
      && WordAt(u.m, u.r[RDI]) == xs[0]
    requires |w.m| == |s.m| && w.r == v.r[RAX := Wrap(TrueSum(xs[1..]))][RDI := 0][RSP := s.r[RSP] - 8]
    requires WordAt(w.m, s.r[RSP] - 8) == s.r[R12] && WordAt(w.m, s.r[RSP]) == WordAt(s.m, s.r[RSP])
    requires SameOutside(s.m, w.m, s.r[RSP] - StackNeed(|xs|), s.r[RSP])
    requires x.m == w.m && x.r == w.r[RAX := Wrap(w.r[R12] as int + w.r[RAX] as int)] && Left(x, t)
    ensures Returned(s, t, xs)
  {
    hide PutWord, WordAt, Loaded, SameOutside;
    WrapAdd(TrueSum(xs[1..]), xs[0]);
    assert w.r[R12] == xs[0];
    assert t.r == s.r[RAX := Wrap(TrueSum(xs))][RDI := 0][RSP := s.r[RSP] + 8];
  }

  /** For every list, `rsum_list` returns with the sum of its values modulo 2^64 in %rax, %r12 and all
      other registers as the caller left them (%rdi is zero), and has written nothing but the
      `16 * n + 8` bytes below the return address: the list itself is intact. */
  lemma {:induction false} RsumListCorrect(s: State, base: nat, xs: seq<Word>) returns (n: nat, t: State)
    requires Called(s, base, xs)
    ensures s.r[RSP] + 8 < TWO_63 && Runs(s, n, t) && Returned(s, t, xs)
    decreases |xs|
  {
    hide Called, Loaded, Step, Runs, PutWord, WordAt, Returned, IsList;
    CalledBounds(s, base, xs);
    CalledOpen(s, base, xs);
    var u := Enter(s, base);
    if xs == [] {
      Saved(s, u);
      t := Leave(u, base);
      RunsTrans(s, 4, u, 2, t);
      EmptyReturned(s, u, t);
      n := 6;
    } else {
      NodeHere(s, base, u, xs);
      var v := Descend(u, base);
      InnerCalled(s, base, u, v, xs);
      var n1, w := RsumListCorrect(v, base, xs[1..]);
      BackUp(s, base, u, v, w, xs);
      var x := Ascend(w, base);
      t := Leave(x, base);
      RunsTrans(s, 4, u, 3, v);
      RunsTrans(s, 7, v, n1, w);
      RunsTrans(s, 7 + n1, w, 1, x);
      RunsTrans(s, 8 + n1, x, 2, t);
      ConsReturned(s, base, u, v, w, x, t, xs);
      n := 10 + n1;
    }
  }

  lemma CalledOpen(s: State, base: nat, xs: seq<Word>)
    requires Called(s, base, xs)
    ensures |s.r| == REG_NONE && s.pc == base && Loaded(s.m, base) && 8 <= s.r[RSP] && s.r[RSP] + 8 <= |s.m|
    ensures base + LENGTH <= s.r[RSP] - 8 || s.r[RSP] <= base
    ensures xs == [] <==> s.r[RDI] == 0
  {
    hide Loaded, WordAt;
  }
}

