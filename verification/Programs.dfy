/** Tools for running a listed program on the ISA: words in a row, and steps that stay inside them. */
module Programs {
  import opened Words
  import opened ByteMemory
  import opened Isa
  import opened Assembly

  predicate Region(m: Bytes, a: int, n: nat) { 0 <= a && a + 8 * n <= |m| }

  /** The words `xs` lie in a row from address `a`. */
  ghost predicate WordsAt(m: Bytes, a: int, xs: seq<Word>) {
    Region(m, a, |xs|) && forall i {:trigger xs[i]} :: 0 <= i < |xs| ==> WordAt(m, a + 8 * i) == xs[i]
  }

  /** Store `xs` in a row from address `a`. */
  function WriteWords(m: Bytes, a: int, xs: seq<Word>): (m': Bytes)
    requires Region(m, a, |xs|)
    ensures |m'| == |m|
  {
    if xs == [] then m
    else PutWord(WriteWords(m, a, xs[..|xs| - 1]), a + 8 * (|xs| - 1), xs[|xs| - 1])
  }

  lemma WriteWordsSnoc(m: Bytes, a: int, xs: seq<Word>, x: Word)
    requires Region(m, a, |xs| + 1)
    ensures WriteWords(m, a, xs + [x]) == PutWord(WriteWords(m, a, xs), a + 8 * |xs|, x)
  {
    assert (xs + [x])[..|xs|] == xs;
  }

  lemma {:induction false} WriteWordsAppend(m: Bytes, a: int, xs: seq<Word>, ys: seq<Word>)
    requires Region(m, a, |xs| + |ys|)
    ensures WriteWords(m, a, xs + ys) == WriteWords(WriteWords(m, a, xs), a + 8 * |xs|, ys)
    decreases |ys|
  {
    hide PutWord;
    if ys == [] {
      assert xs + ys == xs;
    } else {
      var front, y := ys[..|ys| - 1], ys[|ys| - 1];
      assert xs + ys == (xs + front) + [y];
      WriteWordsSnoc(m, a, xs + front, y);
      WriteWordsAppend(m, a, xs, front);
    }
  }

  /** Bytes outside the written row are as before. */
  lemma {:induction false} WriteWordsFrame(m: Bytes, a: int, xs: seq<Word>, lo: int, hi: int)
    requires Region(m, a, |xs|) && 0 <= lo <= hi <= |m| && (hi <= a || a + 8 * |xs| <= lo)
    ensures WriteWords(m, a, xs)[lo..hi] == m[lo..hi]
    decreases |xs|
  {
    hide PutWord;
    if xs != [] {
      var front := xs[..|xs| - 1];
      WriteWordsFrame(m, a, front, lo, hi);
      PutFrame(WriteWords(m, a, front), a + 8 * (|xs| - 1), xs[|xs| - 1], lo, hi);
    }
  }

  lemma WordsKept(m: Bytes, a: int, xs: seq<Word>, b: int, ys: seq<Word>)
    requires WordsAt(m, a, xs) && Region(m, b, |ys|) && (a + 8 * |xs| <= b || b + 8 * |ys| <= a)
    ensures WordsAt(WriteWords(m, b, ys), a, xs)
  {
    hide WriteWords, FromBytes, Wrap;
    var m' := WriteWords(m, b, ys);
    forall i | 0 <= i < |xs|
      ensures WordAt(m', a + 8 * i) == xs[i]
    {
      WriteWordsFrame(m, b, ys, a + 8 * i, a + 8 * i + 8);
    }
  }

  /** What was stored in a row can be read back. */
  lemma {:induction false} WordsWritten(m: Bytes, a: int, xs: seq<Word>)
    requires Region(m, a, |xs|)
    ensures WordsAt(WriteWords(m, a, xs), a, xs)
    decreases |xs|
  {
    hide PutWord;
    if xs != [] {
      var front, x := xs[..|xs| - 1], xs[|xs| - 1];
      WordsWritten(m, a, front);
      var m1 := WriteWords(m, a, front);
      ReadBack(m1, a + 8 * |front|, x);
      forall i | 0 <= i < |xs|
        ensures WordAt(WriteWords(m, a, xs), a + 8 * i) == xs[i]
      {
        if i < |front| {
          ReadOther(m1, a + 8 * |front|, x, a + 8 * i);
          assert front[i] == xs[i];
        }
      }
    }
  }

  /** How many of the words are positive. */
  function Positives(xs: seq<Word>): (n: nat)
    ensures n <= |xs|
  {
    if xs == [] then 0
    else Positives(xs[..|xs| - 1]) + (if xs[|xs| - 1] > 0 then 1 else 0)
  }

  lemma PositivesSnoc(xs: seq<Word>, x: Word)
    ensures Positives(xs + [x]) == Positives(xs) + (if x > 0 then 1 else 0)
  {
    assert (xs + [x])[..|xs|] == xs;
  }

  /** A listing in a slice of memory survives whatever leaves the slice alone. */
  lemma AtKept(m: Bytes, m': Bytes, lo: int, hi: int, pc: int, i: Instr)
    requires At(m, pc, i) && lo <= pc && pc + Size(i) <= hi && 0 <= lo <= hi <= |m| && |m'| == |m|
    requires m'[lo..hi] == m[lo..hi]
    ensures At(m', pc, i)
  {
    hide Encode, Size, Encodable;
    SliceOfSlice(m, lo, hi, pc, pc + Size(i));
    SliceOfSlice(m', lo, hi, pc, pc + Size(i));
  }

  lemma SliceOfSlice(m: Bytes, lo: int, hi: int, p: int, q: int)
    requires 0 <= lo <= p <= q <= hi <= |m|
    ensures m[p..q] == m[lo..hi][p - lo..q - lo]
  {
    var a, b := m[p..q], m[lo..hi][p - lo..q - lo];
    assert forall k :: 0 <= k < q - p ==> a[k] == b[k];
  }

  lemma RunsNone(s: State)
    ensures Runs(s, 0, s)
  {
  }

  lemma OneStep(s: State, t: State)
    requires Step(s) == (t, AOK)
    ensures Runs(s, 1, t)
  {
    hide Step;
    assert Runs(t, 0, t);
  }

  // ---------------------------------------------------------------------------------------------
  // One step per kind of instruction
  // ---------------------------------------------------------------------------------------------

  ghost predicate Here(s: State, i: Instr) {
    At(s.m, s.pc, i) && |s.r| == REG_NONE
  }

  lemma NextPc(s: State, i: Instr)
    requires At(s.m, s.pc, i)
    ensures Step(s) == Execute(s, Decoded(i, s.pc))
    ensures Decoded(i, s.pc).ftpc == s.pc + Size(i) <= MAX_MEM
  {
    hide Encode;
    StepAt(s, i);
  }

  lemma StepLoad(s: State, d: Word, rb: nat, ra: nat)
    requires Here(s, MRmov(d, rb, ra)) && ra < REG_NONE && rb < REG_NONE && WordInside(s.m, s.r[rb] + d)
    ensures s.pc + 10 < TWO_63
    ensures Runs(s, 1, s.(pc := s.pc + 10, r := s.r[ra := WordAt(s.m, s.r[rb] + d)]))
  {
    hide At, WordAt, Step;
    NextPc(s, MRmov(d, rb, ra));
    MemSmall(s, MRmov(d, rb, ra));
    OneStep(s, s.(pc := s.pc + 10, r := s.r[ra := WordAt(s.m, s.r[rb] + d)]));
  }

  lemma StepStore(s: State, ra: nat, d: Word, rb: nat)
    requires Here(s, RMmov(ra, d, rb)) && ra < REG_NONE && rb < REG_NONE && WordInside(s.m, s.r[rb] + d)
    ensures s.pc + 10 < TWO_63
    ensures Runs(s, 1, s.(pc := s.pc + 10, m := PutWord(s.m, s.r[rb] + d, s.r[ra])))
  {
    hide At, PutWord, Step;
    NextPc(s, RMmov(ra, d, rb));
    MemSmall(s, RMmov(ra, d, rb));
    OneStep(s, s.(pc := s.pc + 10, m := PutWord(s.m, s.r[rb] + d, s.r[ra])));
  }

  lemma StepAlu(s: State, fn: nat, ra: nat, rb: nat)
    requires Here(s, Alu(fn, ra, rb)) && ra < REG_NONE && rb < REG_NONE
    ensures s.pc + 2 < TWO_63
    ensures Runs(s, 1, s.(pc := s.pc + 2, r := s.r[rb := ComputeAlu(fn, s.r[ra], s.r[rb])],
                          cc := ComputeCc(fn, s.r[ra], s.r[rb])))
  {
    hide At, ComputeAlu, ComputeCc, Step;
    NextPc(s, Alu(fn, ra, rb));
    OneStep(s, s.(pc := s.pc + 2, r := s.r[rb := ComputeAlu(fn, s.r[ra], s.r[rb])],
                  cc := ComputeCc(fn, s.r[ra], s.r[rb])));
  }

  lemma StepJmp(s: State, cond: nat, dest: Word)
    requires Here(s, Jmp(cond, dest))
    ensures s.pc + 9 < TWO_63
    ensures Runs(s, 1, s.(pc := if CondHolds(s.cc, cond) then dest else s.pc + 9))
  {
    hide At, CondHolds, Step;
    NextPc(s, Jmp(cond, dest));
    OneStep(s, s.(pc := if CondHolds(s.cc, cond) then dest else s.pc + 9));
  }

  lemma StepIadd(s: State, v: Word, rb: nat)
    requires Here(s, Iadd(v, rb)) && rb < REG_NONE
    ensures s.pc + 10 < TWO_63
    ensures Runs(s, 1, s.(pc := s.pc + 10, r := s.r[rb := Wrap(s.r[rb] + v)], cc := ComputeCc(A_ADD, v, s.r[rb])))
  {
    hide At, ComputeCc, Step;
    NextPc(s, Iadd(v, rb));
    OneStep(s, s.(pc := s.pc + 10, r := s.r[rb := Wrap(s.r[rb] + v)], cc := ComputeCc(A_ADD, v, s.r[rb])));
  }

  lemma StepIRmov(s: State, v: Word, rb: nat)
    requires Here(s, IRmov(v, rb)) && rb < REG_NONE
    ensures s.pc + 10 < TWO_63
    ensures Runs(s, 1, s.(pc := s.pc + 10, r := s.r[rb := v]))
  {
    hide At, Step;
    NextPc(s, IRmov(v, rb));
    OneStep(s, s.(pc := s.pc + 10, r := s.r[rb := v]));
  }

  lemma StepPush(s: State, ra: nat)
    requires Here(s, Push(ra)) && ra < REG_NONE && 8 <= s.r[RSP] <= |s.m|
    ensures s.pc + 2 < TWO_63
    ensures Runs(s, 1, s.(pc := s.pc + 2, r := s.r[RSP := s.r[RSP] - 8], m := PutWord(s.m, s.r[RSP] - 8, s.r[ra])))
  {
    hide At, PutWord, Step;
    NextPc(s, Push(ra));
    OneStep(s, s.(pc := s.pc + 2, r := s.r[RSP := s.r[RSP] - 8], m := PutWord(s.m, s.r[RSP] - 8, s.r[ra])));
  }

  lemma StepPop(s: State, ra: nat)
    requires Here(s, Pop(ra)) && ra < REG_NONE && ra != RSP && WordInside(s.m, s.r[RSP])
    ensures s.pc + 2 < TWO_63 && s.r[RSP] + 8 < TWO_63
    ensures Runs(s, 1, s.(pc := s.pc + 2, r := s.r[RSP := s.r[RSP] + 8][ra := WordAt(s.m, s.r[RSP])]))
  {
    hide At, WordAt, Step, Encode;
    NextPc(s, Pop(ra));
    MemSmall(s, Pop(ra));
    OneStep(s, s.(pc := s.pc + 2, r := s.r[RSP := s.r[RSP] + 8][ra := WordAt(s.m, s.r[RSP])]));
  }

  lemma StepCall(s: State, dest: Word)
    requires Here(s, Call(dest)) && 8 <= s.r[RSP] <= |s.m|
    ensures s.pc + 9 < TWO_63
    ensures Runs(s, 1, s.(pc := dest, r := s.r[RSP := s.r[RSP] - 8], m := PutWord(s.m, s.r[RSP] - 8, s.pc + 9)))
  {
    hide At, PutWord, Step;
    NextPc(s, Call(dest));
    OneStep(s, s.(pc := dest, r := s.r[RSP := s.r[RSP] - 8], m := PutWord(s.m, s.r[RSP] - 8, s.pc + 9)));
  }

  lemma StepRet(s: State)
    requires Here(s, Ret) && WordInside(s.m, s.r[RSP])
    ensures s.r[RSP] + 8 < TWO_63
    ensures Runs(s, 1, s.(pc := WordAt(s.m, s.r[RSP]), r := s.r[RSP := s.r[RSP] + 8]))
  {
    hide At, WordAt, Step;
    NextPc(s, Ret);
    MemSmall(s, Ret);
    OneStep(s, s.(pc := WordAt(s.m, s.r[RSP]), r := s.r[RSP := s.r[RSP] + 8]));
  }

  lemma MemSmall(s: State, i: Instr)
    requires At(s.m, s.pc, i)
    ensures |s.m| <= MAX_MEM
  {
    hide Encode;
  }
}
