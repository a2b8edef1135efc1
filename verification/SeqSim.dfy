/**
  The SEQ simulator: a datapath that computes one instruction per step and commits its results at
  the start of the next step.
*/
module SeqSim {
  import opened Lists
  import opened Words
  import opened ByteMemory
  import opened Isa
  import opened SeqHcl

  /** Results waiting for the next `update_state`. */
  datatype Pending = Pending(
    pc: Word, cc: Cc, destE: nat, destM: nat, valE: Word, valM: Word,
    memWrite: bool, memAddr: Word, memData: Word)

  /** Committed processor state together with what is still pending. */
  datatype Seq = Seq(now: State, next: Pending)

  function Reset(m: Bytes, r: seq<Word>): Seq {
    Seq(State(0, r, m, DEFAULT_CC), Pending(0, DEFAULT_CC, REG_NONE, REG_NONE, 0, 0, false, 0, 0))
  }

  /** `update_state`, with the memory port's destination register written last. */
  function Update(q: Seq): State {
    var r1 := if q.next.destE != REG_NONE then SetReg(q.now.r, q.next.destE, q.next.valE) else q.now.r;
    var r2 := if q.next.destM != REG_NONE then SetReg(r1, q.next.destM, q.next.valM) else r1;
    var m1 := if q.next.memWrite && WordInside(q.now.m, q.next.memAddr)
              then PutWord(q.now.m, q.next.memAddr, q.next.memData) else q.now.m;
    State(q.next.pc, r2, m1, q.next.cc)
  }

  datatype FetchStage = FetchStage(
    imemError: bool, icode: nat, ifun: nat, rA: nat, rB: nat, valC: Word, valP: Word)

  function FetchSignals(m: Bytes, pc: Word): FetchStage {
    var instr := GetByte(m, pc);
    var imemError := instr.None?;
    var byte0 := match instr case Some(b) => b case None => 16 * I_NOP;
    var icode := if imemError then I_NOP else Hi4(byte0);
    var ifun := if imemError then 0 else Lo4(byte0);
    var p1 := Wrap(pc + 1);
    var regids := if NeedRegidsSignal(icode) then GetByte(m, p1) else None;
    var p2 := if NeedRegidsSignal(icode) then Wrap(p1 + 1) else p1;
    var imm := if NeedValC(icode) then GetWord(m, p2) else None;
    FetchStage(
      imemError, icode, ifun,
      match regids case Some(b) => Hi4(b) case None => REG_NONE,
      match regids case Some(b) => Lo4(b) case None => REG_NONE,
      match imm case Some(v) => v case None => 0,
      if NeedValC(icode) then Wrap(p2 + 8) else p2)
  }

  predicate DataFault(icode: nat, m: Bytes, addr: Word) {
    (MemRead(icode) || MemWrite(icode)) && !WordInside(m, addr)
  }

  /** The rest of the cycle, once the instruction is fetched; `oldM` is the value latched in valM. */
  function Datapath(s: State, f: FetchStage, oldM: Word): (Pending, Stat) {
    var valA := GetReg(s.r, SrcA(f.icode, f.rA));
    var valB := GetReg(s.r, SrcB(f.icode, f.rB));
    var cnd := CondHolds(s.cc, f.ifun);
    var aluA, aluB, fn := AluA(f.icode, valA, f.valC), AluB(f.icode, valB), AluFun(f.icode, f.ifun);
    var valE := ComputeAlu(fn, aluA, aluB);
    var addr := MemAddr(f.icode, valA, valE);
    var valM := if !MemRead(f.icode) then 0 else if WordInside(s.m, addr) then WordAt(s.m, addr) else oldM;
    (Pending(
       NewPc(f.icode, cnd, f.valC, valM, f.valP),
       if SetCc(f.icode) then ComputeCc(fn, aluA, aluB) else s.cc,
       DstE(f.icode, f.rB, cnd), DstM(f.icode, f.rA), valE, valM,
       MemWrite(f.icode), addr, MemData(f.icode, valA, f.valP)),
     StatSignal(f.imemError, DataFault(f.icode, s.m, addr), f.icode))
  }

  /** `sim_step`. */
  function SeqStep(q: Seq): (Seq, Stat) {
    var s := Update(q);
    var (next, stat) := Datapath(s, FetchSignals(s.m, s.pc), q.next.valM);
    (Seq(s, next), stat)
  }

  /** `sim_run`: at most `limit` steps, stopping after the first that is not AOK. */
  function SeqRun(q: Seq, limit: nat): (Seq, Stat)
    decreases limit
  {
    if limit == 0 then (q, AOK)
    else
      var (q', e) := SeqStep(q);
      if e == AOK then SeqRun(q', limit - 1) else (q', e)
  }

  /** One more step of a run that has not stopped. */
  lemma {:induction false} SeqRunOn(q: Seq, n: nat)
    requires SeqRun(q, n).1 == AOK
    ensures SeqRun(q, n + 1) == SeqStep(SeqRun(q, n).0)
    decreases n
  {
    hide SeqStep;
    if n > 0 { SeqRunOn(SeqStep(q).0, n - 1); }
  }

  class Simulator {
    const reg: array<Word>
    const mem: array<Byte>
    var pc: Word
    var pcIn: Word
    var cc: Cc
    var ccIn: Cc
    var destE: nat
    var destM: nat
    var valE: Word
    var valM: Word
    var memWrite: bool
    var memAddr: Word
    var memData: Word

    /** sim_init followed by loading the program. */
    constructor (program: array<Byte>)
      ensures mem == program && fresh(reg) && reg.Length == REG_NONE
      ensures Abs() == Reset(program[..], reg[..]) && forall id :: 0 <= id < reg.Length ==> reg[id] == 0
    {
      mem := program;
      reg := new Word[REG_NONE](_ => 0);
      pc, pcIn, cc, ccIn := 0, 0, DEFAULT_CC, DEFAULT_CC;
      destE, destM, valE, valM := REG_NONE, REG_NONE, 0, 0;
      memWrite, memAddr, memData := false, 0, 0;
    }

    ghost function Abs(): Seq
      reads this, reg, mem
    {
      Seq(State(pc, reg[..], mem[..], cc),
          Pending(pcIn, ccIn, destE, destM, valE, valM, memWrite, memAddr, memData))
    }

    method SetReg(id: nat, v: Word)
      modifies reg
      ensures reg[..] == Isa.SetReg(old(reg[..]), id, v)
    {
      if id < REG_NONE && id < reg.Length {
        reg[id] := v;
      }
    }

    method GetReg(id: nat) returns (v: Word)
      ensures v == Isa.GetReg(reg[..], id)
    {
      if id < REG_NONE && id < reg.Length {
        return reg[id];
      }
      return 0;
    }

    method UpdateState()
      modifies this, reg, mem
      ensures Abs() == Seq(Update(old(Abs())), old(Abs()).next)
    {
      pc := pcIn;
      cc := ccIn;
      if destE != REG_NONE {
        SetReg(destE, valE);
      }
      if destM != REG_NONE {
        SetReg(destM, valM);
      }
      if memWrite {
        var _ := SetWordVal(mem, memAddr, memData);
      }
    }

    method FetchInstruction() returns (f: FetchStage)
      ensures f == FetchSignals(mem[..], pc)
    {
      var instr: Byte := 16 * I_NOP;
      var imemError := !(0 <= pc < mem.Length);
      if !imemError {
        instr := mem[pc];
      }
      var icode := if imemError then I_NOP else Hi4(instr);
      var ifun := if imemError then 0 else Lo4(instr);
      var valP: int := Wrap(pc + 1);
      var rA, rB, valC: Word := REG_NONE, REG_NONE, 0;
      if NeedRegidsSignal(icode) {
        if 0 <= valP < mem.Length {
          rA, rB := Hi4(mem[valP]), Lo4(mem[valP]);
        }
        valP := Wrap(valP + 1);
      }
      if NeedValC(icode) {
        var ok, v := GetWordVal(mem, valP);
        if ok { valC := v; }
        valP := Wrap(valP + 8);
      }
      f := FetchStage(imemError, icode, ifun, rA, rB, valC, valP);
    }

    method SimStep() returns (status: Stat)
      modifies this, reg, mem
      ensures (Abs(), status) == SeqStep(old(Abs()))
    {
      UpdateState();
      var f := FetchInstruction();
      status := RunDatapath(f);
    }

    method RunDatapath(f: FetchStage) returns (status: Stat)
      modifies this
      ensures Abs().now == old(Abs().now)
      ensures (Abs().next, status) == Datapath(old(Abs().now), f, old(valM))
    {
      hide WordAt, ComputeAlu, ComputeCc, CondHolds, SrcA, SrcB, DstE, DstM, AluA, AluB, AluFun, SetCc,
        MemAddr, MemData,
           NewPc, MemRead, StatSignal;
      ghost var s := Abs().now;
      var valA := GetReg(SrcA(f.icode, f.rA));
      var valB := GetReg(SrcB(f.icode, f.rB));
      var cond := CondHolds(cc, f.ifun);
      destE := DstE(f.icode, f.rB, cond);
      destM := DstM(f.icode, f.rA);
      var aluA := AluA(f.icode, valA, f.valC);
      var aluB := AluB(f.icode, valB);
      var alufun := AluFun(f.icode, f.ifun);
      valE := ComputeAlu(alufun, aluA, aluB);
      ccIn := if SetCc(f.icode) then ComputeCc(alufun, aluA, aluB) else cc;
      memAddr := MemAddr(f.icode, valA, valE);
      memData := MemData(f.icode, valA, f.valP);
      var dmemError := MemoryStage(f.icode);
      status := StatSignal(f.imemError, dmemError, f.icode);
      pcIn := NewPc(f.icode, cond, f.valC, valM, f.valP);
    }

    method MemoryStage(icode: nat) returns (dmemError: bool)
      modifies this`valM, this`memWrite
      ensures memWrite == MemWrite(icode) && dmemError == DataFault(icode, mem[..], memAddr)
      ensures valM == if !MemRead(icode) then 0
                      else if WordInside(mem[..], memAddr) then WordAt(mem[..], memAddr) else old(valM)
    {
      hide WordAt;
      dmemError := false;
      if MemRead(icode) {
        var ok, v := GetWordVal(mem, memAddr);
        if ok { valM := v; }
        dmemError := !ok;
      } else {
        valM := 0;
      }
      memWrite := MemWrite(icode);
      if memWrite {
        var ok, _ := GetWordVal(mem, memAddr);
        dmemError := dmemError || !ok;
      }
    }

    method SimRun(limit: nat) returns (icount: nat, status: Stat, resultCc: Cc)
      modifies this, reg, mem
      ensures (Abs(), status) == SeqRun(old(Abs()), limit)
      ensures resultCc == Abs().now.cc
      ensures icount <= limit && (status == AOK ==> icount == limit) && SeqRun(old(Abs()), icount) == (Abs(), status)
      ensures forall k: nat {:trigger SeqRun(old(Abs()), k)} :: k < icount ==> SeqRun(old(Abs()), k).1 == AOK
    {
      hide SeqStep;
      ghost var start := Abs();
      icount, status := 0, AOK;
      while icount < limit
        invariant icount <= limit && status == AOK
        invariant SeqRun(start, limit) == SeqRun(Abs(), limit - icount)
        invariant SeqRun(start, icount) == (Abs(), AOK)
        invariant forall k: nat {:trigger SeqRun(start, k)} :: k < icount ==> SeqRun(start, k).1 == AOK
      {
        SeqRunOn(start, icount);
        status := SimStep();
        icount := icount + 1;
        if status != AOK {
          break;
        }
      }
      resultCc := cc;
    }
  }
}
