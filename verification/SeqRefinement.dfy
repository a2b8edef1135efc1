/** SEQ implements the instruction set: one step, whole runs, and the simulator's built-in check. */
module SeqRefinement {
  import opened Lists
  import opened Words
  import opened ByteMemory
  import opened Isa
  import opened SeqHcl
  import opened SeqSim

  /** The operand bytes are all in memory and name registers where `step_state` insists on them. */
  predicate OperandsOk(f: Fetched) {
    && f.ok1 && f.okc
    && (f.hi0 in {I_RRMOVQ, I_RMMOVQ, I_MRMOVQ, I_PUSHQ, I_POPQ} ==> RegValid(f.hi1))
    && (f.hi0 in {I_RRMOVQ, I_IRMOVQ, I_IADDQ} ==> RegValid(f.lo1))
  }

  function Signals(f: Fetched): FetchStage {
    FetchStage(false, f.hi0, f.lo0, f.hi1, f.lo1, f.cval, f.ftpc)
  }

  lemma FetchAgrees(m: Bytes, pc: Word)
    requires Fetch(m, pc).Some? && Fetch(m, pc).value.ok1 && Fetch(m, pc).value.okc
    ensures FetchSignals(m, pc) == Signals(Fetch(m, pc).value)
  {
    hide WordAt;
  }

  /** Same status, and committing the pending results yields the ISA successor. */
  ghost predicate Implements(s: State, f: Fetched, oldM: Word) {
    var (s', e) := Execute(s, f);
    var (next, e') := Datapath(s, Signals(f), oldM);
    && e' == e
    && (e == AOK ==> Update(Seq(s, next)) == s')
    && (e == HLT ==> Update(Seq(s, next)).(pc := s.pc) == s')
  }

  lemma ImplementsRegister(s: State, f: Fetched, oldM: Word)
    requires OperandsOk(f) && f.hi0 in {I_NOP, I_HALT, I_RRMOVQ, I_IRMOVQ, I_ALU, I_JMP, I_IADDQ}
    ensures Implements(s, f, oldM)
  {
    hide WordAt, PutWord, And64, Xor64, CondHolds;
  }

  lemma ImplementsMove(s: State, f: Fetched, oldM: Word)
    requires OperandsOk(f) && f.hi0 in {I_RMMOVQ, I_MRMOVQ}
    ensures Implements(s, f, oldM)
  {
    hide WordAt, PutWord, And64, Xor64, CondHolds, ComputeCc;
  }

  lemma ImplementsCall(s: State, f: Fetched, oldM: Word)
    requires OperandsOk(f) && f.hi0 in {I_CALL, I_RET}
    ensures Implements(s, f, oldM)
  {
    hide WordAt, PutWord, And64, Xor64, CondHolds, ComputeCc;
  }

  /** Includes `pushq %rsp`, which stores the old pointer, and `popq %rsp`, which ends with the popped word. */
  lemma ImplementsStack(s: State, f: Fetched, oldM: Word)
    requires OperandsOk(f) && f.hi0 in {I_PUSHQ, I_POPQ}
    ensures Implements(s, f, oldM)
  {
    hide WordAt, PutWord, And64, Xor64, CondHolds, ComputeCc;
  }

  lemma ImplementsInvalid(s: State, f: Fetched, oldM: Word)
    requires OperandsOk(f) && f.hi0 > I_IADDQ
    ensures Implements(s, f, oldM)
  {
    hide WordAt, PutWord, ComputeAlu, CondHolds, ComputeCc;
  }

  /** There is no instruction to fetch, or all of its operands can be fetched and are valid. */
  predicate OperandsFine(s: State) {
    var f := Fetch(s.m, s.pc);
    f.Some? ==> OperandsOk(f.value)
  }

  /** Whenever the operands are fine the two agree on the status, whatever it is; and after AOK the
      pending results of SEQ are exactly the ISA successor. */
  lemma StepRefines(q: Seq)
    requires OperandsFine(Update(q))
    ensures var s := Update(q);
            var (s', e) := Step(s);
            var (q', e') := SeqStep(q);
            && e' == e && q'.now == s
            && (e == AOK ==> Update(q') == s')
            && (e == HLT ==> Update(q').(pc := s.pc) == s')
  {
    var s := Update(q);
    match Fetch(s.m, s.pc)
    case None =>
      FetchNone(s, q.next.valM);
    case Some(f) =>
      FetchAgrees(s.m, s.pc);
      hide Update, Fetch, FetchSignals, Execute, Datapath, OperandsOk;
      ImplementsAny(s, f, q.next.valM);
  }

  lemma FetchNone(s: State, oldM: Word)
    requires Fetch(s.m, s.pc).None?
    ensures Step(s) == (s, ADR)
    ensures Datapath(s, FetchSignals(s.m, s.pc), oldM).1 == ADR
  {
    hide WordAt, PutWord, ComputeAlu, CondHolds, ComputeCc;
  }

  lemma ImplementsAny(s: State, f: Fetched, oldM: Word)
    requires OperandsOk(f)
    ensures Implements(s, f, oldM)
  {
    hide Implements;
    if f.hi0 in {I_RMMOVQ, I_MRMOVQ} {
      ImplementsMove(s, f, oldM);
    } else if f.hi0 in {I_CALL, I_RET} {
      ImplementsCall(s, f, oldM);
    } else if f.hi0 in {I_PUSHQ, I_POPQ} {
      ImplementsStack(s, f, oldM);
    } else if f.hi0 <= I_IADDQ {
      ImplementsRegister(s, f, oldM);
    } else {
      ImplementsInvalid(s, f, oldM);
    }
  }

  lemma AcceptedOperands(s: State)
    requires Step(s).1 in {AOK, HLT}
    ensures OperandsFine(s)
  {
    hide WordAt, PutWord, ComputeAlu, CondHolds, ComputeCc;
  }

  /** SEQ lets through an instruction that the ISA refuses exactly when its operands are not fine and
      its data address, computed from whatever was fetched, happens to be inside memory. */
  lemma AcceptsRefusedIff(q: Seq)
    ensures var s := Update(q);
            var f := FetchSignals(s.m, s.pc);
            var addr := MemAddr(f.icode, GetReg(s.r, SrcA(f.icode, f.rA)), Datapath(s, f, q.next.valM).0.valE);
            SeqStep(q).1 == AOK && Step(s).1 != AOK
            <==> !OperandsFine(s) && !DataFault(f.icode, s.m, addr)
  {
    var s := Update(q);
    if OperandsFine(s) {
      StepRefines(q);
    } else {
      if Step(s).1 in {AOK, HLT} { AcceptedOperands(s); }
      RefusedSignals(s, q.next.valM);
    }
  }

  /** Such an instruction: rrmovq with a register byte that names no register. */
  lemma RefusedExample(r: seq<Word>)
    requires |r| == REG_NONE
    ensures var q := Reset([0x20, 0xFF], r); SeqStep(q).1 == AOK && Step(Update(q)).1 == INS
  {
    var m: Bytes := [0x20, 0xFF];
    assert m[0] == 0x20 && m[1] == 0xFF;
  }

  lemma RefusedSignals(s: State, oldM: Word)
    requires !OperandsFine(s)
    ensures var f := FetchSignals(s.m, s.pc);
            && !f.imemError && InstrValid(f.icode) && f.icode != I_HALT
  {
    hide WordAt;
  }

  // ---------------------------------------------------------------------------------------------
  // Whole runs
  // ---------------------------------------------------------------------------------------------

  /** The reference loop of run_tty_sim: `step_state` while the status is AOK, at most `limit` times. */
  function IsaRun(s: State, limit: nat): (State, Stat)
    decreases limit
  {
    if limit == 0 then (s, AOK)
    else
      var (s', e) := Step(s);
      if e == AOK then IsaRun(s', limit - 1) else (s', e)
  }

  /** What the built-in check compares: registers, memory and condition codes, not the pc. */
  predicate CheckSucceeds(isa: State, seq': Seq) {
    isa.r == seq'.now.r && isa.m == seq'.now.m && isa.cc == seq'.now.cc
  }

  /** Two runs from matching states.  If the ISA run halts, so does SEQ, and the check succeeds.  If
      the limit stops both, SEQ has committed everything but the last instruction. */
  lemma {:induction false} RunRefines(q: Seq, limit: nat)
    requires IsaRun(Update(q), limit).1 in {AOK, HLT}
    ensures var (s', e) := IsaRun(Update(q), limit);
            var (q', e') := SeqRun(q, limit);
            && e' == e
            && (e == HLT ==> CheckSucceeds(s', q'))
            && (e == AOK ==> Update(q') == s')
            && (e == AOK && limit > 0 ==> q'.now == IsaRun(Update(q), limit - 1).0)
    decreases limit
  {
    hide Step, SeqStep, Update, OperandsFine;
    if limit > 0 {
      var s := Update(q);
      AcceptedOperands(s);
      StepRefines(q);
      var (q', e) := SeqStep(q);
      if e == AOK {
        RunRefines(q', limit - 1);
      } else {
        HaltKeeps(s);
      }
    }
  }

  lemma HaltKeeps(s: State)
    requires Step(s).1 == HLT
    ensures Step(s).0 == s
  {
    hide WordAt, PutWord, ComputeAlu, CondHolds, ComputeCc;
  }

  /** For a program loaded at reset that never misbehaves within the limit: the check reports success
      exactly when the program halted, or was not run at all, or its last executed instruction changed
      neither registers, memory nor condition codes. */
  lemma CheckVerdict(m: Bytes, r: seq<Word>, limit: nat)
    requires IsaRun(State(0, r, m, DEFAULT_CC), limit).1 in {AOK, HLT}
    ensures var s := State(0, r, m, DEFAULT_CC);
            var (s', e) := IsaRun(s, limit);
            var q' := SeqRun(Reset(m, r), limit).0;
            CheckSucceeds(s', q') <==>
              || e == HLT
              || limit == 0
              || (var last := IsaRun(s, limit - 1).0; last.r == s'.r && last.m == s'.m && last.cc == s'.cc)
  {
    hide Step, SeqStep;
    var q := Reset(m, r);
    assert Update(q) == State(0, r, m, DEFAULT_CC);
    RunRefines(q, limit);
  }

  /** A good program that the check fails, limited to one instruction: irmovq $1, %rax, then halt. */
  lemma CheckFailsExample(r: seq<Word>)
    requires |r| == REG_NONE && r[RAX] == 0
    ensures var m: Bytes := [0x30, 0xF0, 1, 0, 0, 0, 0, 0, 0, 0, 0x00];
            var (s', e) := IsaRun(State(0, r, m, DEFAULT_CC), 1);
            e == AOK && Step(s').1 == HLT && !CheckSucceeds(s', SeqRun(Reset(m, r), 1).0)
  {
    var m: Bytes := [0x30, 0xF0, 1, 0, 0, 0, 0, 0, 0, 0, 0x00];
    var s := State(0, r, m, DEFAULT_CC);
    ExampleSteps(s);
    CheckVerdict(m, r, 1);
  }

  lemma ExampleSteps(s: State)
    requires s.pc == 0 && |s.r| == REG_NONE && s.m == [0x30, 0xF0, 1, 0, 0, 0, 0, 0, 0, 0, 0x00]
    ensures Step(s) == (s.(pc := 10, r := SetReg(s.r, RAX, 1)), AOK)
    ensures Step(Step(s).0).1 == HLT
  {
    assert s.m[2..10] == [1] + seq(7, _ => 0) && s.m[2..10][1..] == seq(7, _ => 0);
    ZeroBytes(7);
    assert WordAt(s.m, 2) == 1;
  }

  lemma {:induction false} ZeroBytes(n: nat)
    ensures FromBytes(seq(n, _ => 0)) == 0
  {
    if n > 0 {
      ZeroBytes(n - 1);
      assert seq<Byte>(n, _ => 0)[1..] == seq<Byte>(n - 1, _ => 0);
    }
  }

  /** A program that runs AOK for `n` instructions and then halts passes the check under any larger limit. */
  lemma HaltingProgramPasses(s: State, n: nat, t: State, limit: nat)
    requires Runs(s, n, t) && Step(t).1 == HLT && n < limit
    ensures IsaRun(s, limit) == (t, HLT)
    decreases n
  {
    hide Step;
    HaltKeeps(t);
    if n > 0 {
      HaltingProgramPasses(Step(s).0, n - 1, t, limit - 1);
    }
  }
}
