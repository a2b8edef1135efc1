/** The programs on the SEQ processor, the C loop that `ncopy` stands for, and the terminal
    simulator's check of SEQ against the ISA. */
module SeqPrograms {
  import opened Words
  import opened ByteMemory
  import opened Isa
  import opened SeqSim
  import opened SeqRefinement
  import opened Programs
  import Ncopy
  import RsumList
  import CopyBlock
  import Alu

  /** SEQ follows any run of the ISA, always one uncommitted instruction behind. */
  lemma SeqFollows(q: Seq, n: nat, t: State)
    requires Runs(Update(q), n, t)
    ensures SeqRun(q, n).1 == AOK && Update(SeqRun(q, n).0) == t
  {
    hide Step, SeqStep, Update;
    RunIs(Update(q), n, t);
    RunRefines(q, n);
  }

  lemma {:induction false} RunIs(s: State, n: nat, t: State)
    requires Runs(s, n, t)
    ensures IsaRun(s, n) == (t, AOK)
    decreases n
  {
    hide Step;
    if n > 0 { RunIs(Step(s).0, n - 1, t); }
  }

  /** `ncopy` on SEQ: some number of cycles after the call, what SEQ has or is about to commit is the
      copied memory and the count. */
  lemma NcopyOnSeq(q: Seq, base: nat, src: int, dst: int, xs: seq<Word>) returns (n: nat)
    requires var s := Update(q);
      && Ncopy.Fits(Ncopy.Job(base, src, dst, xs, s.m, s.r))
      && s.pc == base && s.r[RDI] == src && s.r[RSI] == dst && s.r[RDX] == |xs|
    ensures SeqRun(q, n).1 == AOK
    ensures var s, t := Update(q), Update(SeqRun(q, n).0);
      && t.pc == WordAt(s.m, s.r[RSP]) && t.m == WriteWords(s.m, dst, xs)
      && |t.r| == REG_NONE && t.r[RAX] == Positives(xs) && t.r[RSP] == s.r[RSP] + 8
  {
    hide Step, SeqStep, Update, WriteWords, WordAt, Ncopy.Loaded, Runs, SeqRun, Positives;
    var t;
    n, t := Ncopy.NcopyCorrect(Update(q), base, src, dst, xs);
    SeqFollows(q, n, t);
  }

  /** `rsum_list` on SEQ. */
  lemma RsumListOnSeq(q: Seq, base: nat, xs: seq<Word>) returns (n: nat)
    requires RsumList.Called(Update(q), base, xs)
    ensures var s := Update(q);
      && |s.r| == REG_NONE && WordInside(s.m, s.r[RSP]) && s.r[RSP] + 8 < TWO_63
      && SeqRun(q, n).1 == AOK && RsumList.Returned(s, Update(SeqRun(q, n).0), xs)
  {
    hide Step, SeqStep, Update, WordAt, RsumList.Loaded, RsumList.IsList, RsumList.Returned, Runs, SeqRun;
    var t;
    n, t := RsumList.RsumListCorrect(Update(q), base, xs);
    SeqFollows(q, n, t);
  }

  /** `copy_block` on SEQ. */
  lemma CopyBlockOnSeq(q: Seq, base: nat, src: int, dst: int, xs: seq<Word>) returns (n: nat)
    requires var s := Update(q);
      && CopyBlock.Fits(CopyBlock.Job(base, src, dst, xs, s.m, s.r))
      && s.pc == base && s.r[RDI] == src && s.r[RSI] == dst && s.r[RDX] == |xs|
    ensures SeqRun(q, n).1 == AOK
    ensures var s, t := Update(q), Update(SeqRun(q, n).0);
      && t.pc == WordAt(s.m, s.r[RSP]) && t.m == WriteWords(s.m, dst, xs)
      && |t.r| == REG_NONE && t.r[RSP] == s.r[RSP] + 8
      && forall i: nat {:trigger Alu.BitOf(t.r[RAX], i)} ::
           Alu.BitOf(t.r[RAX], i) <==> CopyBlock.BitCount(xs, i) % 2 == 1
  {
    hide Step, SeqStep, Update, WriteWords, WordAt, CopyBlock.Loaded, Runs, SeqRun, Alu.BitOf;
    var t;
    n, t := CopyBlock.CopyBlockCorrect(Update(q), base, src, dst, xs);
    SeqFollows(q, n, t);
  }

  // ---------------------------------------------------------------------------------------------
  // The loop that `ncopy` unrolls
  // ---------------------------------------------------------------------------------------------

  /** The C function, word by word in the same memory. It leaves the memory and returns the count that
      `Ncopy.NcopyCorrect` proves of the unrolled machine code. */
  method NcopyLoop(m: array<Byte>, src: int, dst: int, len: int, ghost xs: seq<Word>) returns (count: int)
    requires len == |xs| && WordsAt(m[..], src, xs) && Region(m[..], dst, |xs|)
    requires Ncopy.Apart(src, 8 * |xs|, dst, 8 * |xs|)
    modifies m
    ensures m[..] == WriteWords(old(m[..]), dst, xs) && count == Positives(xs)
  {
    hide WordAt, PutWord;
    count := 0;
    var s, d, left := src, dst, len;
    ghost var was := m[..];
    assert xs[..0] == [];
    while left > 0
      invariant 0 <= left <= len && s == src + 8 * (len - left) && d == dst + 8 * (len - left)
      invariant m[..] == WriteWords(was, dst, xs[..len - left]) && count == Positives(xs[..len - left])
    {
      ghost var k := len - left;
      SourceWord(was, src, dst, xs, k);
      var ok, val := GetWordVal(m, s);
      ok := SetWordVal(m, d, val);
      WriteWordsSnoc(was, dst, xs[..k], val);
      PositivesSnoc(xs[..k], val);
      assert xs[..k + 1] == xs[..k] + [xs[k]];
      s, d := s + 8, d + 8;
      if val > 0 { count := count + 1; }
      left := left - 1;
    }
    assert xs[..len] == xs;
  }

  /** The next source word is still unchanged after `k` words have been copied. */
  lemma SourceWord(m: Bytes, src: int, dst: int, xs: seq<Word>, k: nat)
    requires WordsAt(m, src, xs) && Region(m, dst, |xs|) && k < |xs| && Ncopy.Apart(src, 8 * |xs|, dst, 8 * |xs|)
    ensures var m' := WriteWords(m, dst, xs[..k]);
            WordInside(m', src + 8 * k) && WordAt(m', src + 8 * k) == xs[k] && WordInside(m', dst + 8 * k)
  {
    hide WriteWords, FromBytes, Wrap;
    WriteWordsFrame(m, dst, xs[..k], src + 8 * k, src + 8 * k + 8);
  }

  // ---------------------------------------------------------------------------------------------
  // run_tty_sim
  // ---------------------------------------------------------------------------------------------

  /** diff_mem without output: it stops at the first differing word. */
  method DiffMem(a: array<Byte>, b: array<Byte>) returns (diff: bool)
    requires a.Length == b.Length && a.Length % 8 == 0
    ensures diff == (a[..] != b[..])
  {
    var pos := 0;
    diff := false;
    while !diff && pos < a.Length
      invariant 0 <= pos <= a.Length && pos % 8 == 0 && !diff && a[..pos] == b[..pos]
    {
      var _, ov := GetWordVal(a, pos);
      var _, nv := GetWordVal(b, pos);
      if nv != ov {
        assert a[..][pos..pos + 8] != b[..][pos..pos + 8];
        return true;
      }
      SameWords(a[..], b[..], pos);
      assert a[..pos + 8] == a[..pos] + a[..][pos..pos + 8] && b[..pos + 8] == b[..pos] + b[..][pos..pos + 8];
      pos := pos + 8;
    }
    assert a[..] == a[..pos] && b[..] == b[..pos];
  }

  lemma SameWords(a: Bytes, b: Bytes, pos: int)
    requires WordInside(a, pos) && WordInside(b, pos) && WordAt(a, pos) == WordAt(b, pos)
    ensures a[pos..pos + 8] == b[pos..pos + 8]
  {
    hide FromBytes;
    var x, y := a[pos..pos + 8], b[pos..pos + 8];
    FromBytesBound(x);
    FromBytesBound(y);
    Pow256Is64();
    assert FromBytes(x) == FromBytes(y);
    FromBytesInjective(x, y);
  }

  lemma {:induction false} FromBytesBound(bs: Bytes)
    ensures FromBytes(bs) < Pow256(|bs|)
  {
    if bs != [] { FromBytesBound(bs[1..]); }
  }

  lemma {:induction false} FromBytesInjective(x: Bytes, y: Bytes)
    requires |x| == |y| && FromBytes(x) == FromBytes(y)
    ensures x == y
  {
    if x != [] {
      assert x[0] == y[0];
      FromBytesInjective(x[1..], y[1..]);
      assert x == [x[0]] + x[1..] && y == [y[0]] + y[1..];
    }
  }

  method DiffReg(a: array<Word>, b: array<Word>) returns (diff: bool)
    requires a.Length == b.Length
    ensures diff == (a[..] != b[..])
  {
    var pos := 0;
    diff := false;
    while !diff && pos < a.Length
      invariant 0 <= pos <= a.Length && !diff && a[..pos] == b[..pos]
    {
      if a[pos] != b[pos] { return true; }
      pos := pos + 1;
    }
    assert a[..] == a[..pos] && b[..] == b[..pos];
  }

  /** The register file after reset. */
  function Zeros(): (r: seq<Word>)
    ensures |r| == REG_NONE && forall id :: 0 <= id < |r| ==> r[id] == 0
  {
    seq(REG_NONE, _ => 0)
  }

  /** The reference loop of the check: `step_state` until it is not AOK or the limit is reached. */
  method StepIsa(isa: IsaMachine, limit: nat) returns (e: Stat)
    requires isa.r.Length == REG_NONE
    modifies isa, isa.r, isa.m
    ensures (isa.Abs(), e) == IsaRun(old(isa.Abs()), limit)
  {
    hide Step;
    e := AOK;
    var step := 0;
    while step < limit && e == AOK
      invariant 0 <= step <= limit
      invariant IsaRun(old(isa.Abs()), limit) == if e == AOK then IsaRun(isa.Abs(), limit - step) else (isa.Abs(), e)
    {
      e := isa.StepState();
      step := step + 1;
    }
  }

  /** run_tty_sim with the check: run SEQ, run the ISA on copies, and compare. Whenever the ISA run ends
      with a halt the check succeeds; `CheckVerdict` says what it answers for the other good runs. */
  method RunTtySim(program: array<Byte>, limit: nat) returns (ok: bool)
    requires program.Length % 8 == 0
    modifies program
    ensures var (s, e) := IsaRun(State(0, Zeros(), old(program[..]), DEFAULT_CC), limit);
            && ok == CheckSucceeds(s, SeqRun(Reset(old(program[..]), Zeros()), limit).0)
            && (e == HLT ==> ok)
  {
    hide Step, SeqStep, SeqRun, IsaRun;
    var mem := new Byte[program.Length](i requires 0 <= i < program.Length reads program => program[i]);
    assert mem[..] == program[..];
    var isa := new IsaMachine(mem);
    var seqSim := new Simulator(program);
    assert isa.r[..] == Zeros() && seqSim.reg[..] == Zeros();
    ghost var q := seqSim.Abs();
    assert Update(q) == isa.Abs();
    var _, _, resultCc := seqSim.SimRun(limit);
    var e := StepIsa(isa, limit);
    if e in {AOK, HLT} { RunRefines(q, limit); }
    var regs := DiffReg(isa.r, seqSim.reg);
    var mems := DiffMem(isa.m, seqSim.mem);
    ok := !regs && !mems && isa.cc == resultCc;
  }
}
