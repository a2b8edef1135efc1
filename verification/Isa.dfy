/** The Y86-64 instruction set as `isa.c` executes it: one function per routine, and the stepper. */
module Isa {
  import opened Lists
  import opened Words
  import opened ByteMemory

  // Instruction codes, ALU operations and conditions of isa.h.
  const I_HALT := 0
  const I_NOP := 1
  const I_RRMOVQ := 2
  const I_IRMOVQ := 3
  const I_RMMOVQ := 4
  const I_MRMOVQ := 5
  const I_ALU := 6
  const I_JMP := 7
  const I_CALL := 8
  const I_RET := 9
  const I_PUSHQ := 10
  const I_POPQ := 11
  const I_IADDQ := 12

  const A_ADD := 0
  const A_SUB := 1
  const A_AND := 2
  const A_XOR := 3

  const C_YES := 0
  const C_LE := 1
  const C_L := 2
  const C_E := 3
  const C_NE := 4
  const C_GE := 5
  const C_G := 6

  const RAX: nat := 0
  const RDX: nat := 2
  const RSP: nat := 4
  const RSI: nat := 6
  const RDI: nat := 7
  const R12: nat := 12
  const REG_NONE: nat := 15

  datatype Cc = Cc(zf: bool, sf: bool, of: bool)

  const DEFAULT_CC := Cc(true, false, false)

  datatype Stat = AOK | HLT | ADR | INS

  datatype State = State(pc: Word, r: seq<Word>, m: Bytes, cc: Cc)

  function Hi4(b: Byte): nat { b / 16 }

  function Lo4(b: Byte): nat { b % 16 }

  predicate RegValid(id: nat) { id < REG_NONE }

  /** The register file holds one word for each of the fifteen program registers. */
  function GetReg(r: seq<Word>, id: nat): Word {
    if id < REG_NONE && id < |r| then r[id] else 0
  }

  function SetReg(r: seq<Word>, id: nat, v: Word): (r': seq<Word>)
    ensures |r'| == |r|
  {
    if id < REG_NONE && id < |r| then r[id := v] else r
  }

  function ComputeAlu(op: nat, a: Word, b: Word): Word {
    if op == A_ADD then Wrap(a + b)
    else if op == A_SUB then Wrap(b - a)
    else if op == A_AND then And64(a, b)
    else if op == A_XOR then Xor64(a, b)
    else 0
  }

  function ComputeCc(op: nat, a: Word, b: Word): Cc {
    var val := ComputeAlu(op, a, b);
    var ovf :=
      if op == A_ADD then ((a < 0) == (b < 0)) && ((val < 0) != (a < 0))
      else if op == A_SUB then ((a > 0) == (b < 0)) && ((val < 0) != (b < 0))
      else false;
    Cc(val == 0, val < 0, ovf)
  }

  predicate CondHolds(cc: Cc, cond: nat) {
    if cond == C_YES then true
    else if cond == C_LE then (cc.sf != cc.of) || cc.zf
    else if cond == C_L then cc.sf != cc.of
    else if cond == C_E then cc.zf
    else if cond == C_NE then !cc.zf
    else if cond == C_GE then cc.sf == cc.of
    else if cond == C_G then cc.sf == cc.of && !cc.zf
    else false
  }

  /** How the condition `cond` compares two integers. */
  predicate Compares(cond: nat, x: int, y: int) {
    if cond == C_YES then true
    else if cond == C_LE then x <= y
    else if cond == C_L then x < y
    else if cond == C_E then x == y
    else if cond == C_NE then x != y
    else if cond == C_GE then x >= y
    else if cond == C_G then x > y
    else false
  }

  /** After a subtraction the conditions compare the operands in true signed order, overflow or not. */
  lemma SubDecidesOrder(a: Word, b: Word, cond: nat)
    ensures CondHolds(ComputeCc(A_SUB, a, b), cond) <==> Compares(cond, b, a)
  {
    assert Wrap(b - a) == b - a || Wrap(b - a) == b - a + TWO_64 || Wrap(b - a) == b - a - TWO_64;
  }

  /** After an addition without overflow the sign conditions compare the sum with zero; the equality
      conditions compare the wrapped sum. */
  lemma AddDecidesSign(a: Word, b: Word, cond: nat)
    ensures cond in {C_L, C_GE} ==>
      (CondHolds(ComputeCc(A_ADD, a, b), cond) <==> Compares(cond, a + b, 0))
    ensures cond in {C_E, C_NE} ==>
      (CondHolds(ComputeCc(A_ADD, a, b), cond) <==> Compares(cond, Wrap(a + b), 0))
    ensures -TWO_63 <= a + b < TWO_63 ==>
      (CondHolds(ComputeCc(A_ADD, a, b), cond) <==> Compares(cond, a + b, 0))
  {
    assert Wrap(a + b) == a + b || Wrap(a + b) == a + b + TWO_64 || Wrap(a + b) == a + b - TWO_64;
  }

  /** `andq r,r` tests the register itself. */
  lemma AndTests(a: Word, cond: nat)
    ensures ComputeAlu(A_AND, a, a) == a
    ensures CondHolds(ComputeCc(A_AND, a, a), cond) <==> Compares(cond, a, 0)
  {
    And64Self(a);
  }

  predicate NeedRegids(icode: nat) {
    icode in {I_RRMOVQ, I_ALU, I_PUSHQ, I_POPQ, I_IRMOVQ, I_RMMOVQ, I_MRMOVQ, I_IADDQ}
  }

  predicate NeedImm(icode: nat) {
    icode in {I_IRMOVQ, I_RMMOVQ, I_MRMOVQ, I_JMP, I_CALL, I_IADDQ}
  }

  /** What the fetch part of `step_state` finds at the program counter. */
  datatype Fetched = Fetched(hi0: nat, lo0: nat, hi1: nat, lo1: nat, ok1: bool, cval: Word, okc: bool, ftpc: Word)

  function Fetch(m: Bytes, pc: Word): Option<Fetched> {
    match GetByte(m, pc)
    case None => None
    case Some(byte0) =>
      var hi0, lo0 := Hi4(byte0), Lo4(byte0);
      var p1 := Wrap(pc + 1);
      var regids := if NeedRegids(hi0) then GetByte(m, p1) else None;
      var byte1 := match regids case Some(b) => b case None => 0;
      var p2 := if NeedRegids(hi0) then Wrap(p1 + 1) else p1;
      var imm := if NeedImm(hi0) then GetWord(m, p2) else None;
      Some(Fetched(
        hi0, lo0,
        if NeedRegids(hi0) then Hi4(byte1) else REG_NONE,
        if NeedRegids(hi0) then Lo4(byte1) else REG_NONE,
        NeedRegids(hi0) ==> regids.Some?,
        match imm case Some(v) => v case None => 0,
        NeedImm(hi0) ==> imm.Some?,
        if NeedImm(hi0) then Wrap(p2 + 8) else p2))
  }

  /** `step_state`: the successor and the status.  A failing call, push or pop has already moved %rsp. */
  function Step(s: State): (State, Stat) {
    match Fetch(s.m, s.pc)
    case None => (s, ADR)
    case Some(f) => Execute(s, f)
  }

  function Execute(s: State, f: Fetched): (State, Stat) {
    if f.hi0 == I_NOP then (s.(pc := f.ftpc), AOK)
    else if f.hi0 == I_HALT then (s, HLT)
    else if f.hi0 == I_RRMOVQ then
      if !f.ok1 then (s, ADR)
      else if !RegValid(f.hi1) || !RegValid(f.lo1) then (s, INS)
      else
        var r := if CondHolds(s.cc, f.lo0) then SetReg(s.r, f.lo1, GetReg(s.r, f.hi1)) else s.r;
        (s.(r := r, pc := f.ftpc), AOK)
    else if f.hi0 == I_IRMOVQ then
      if !f.ok1 then (s, ADR)
      else if !f.okc || !RegValid(f.lo1) then (s, INS)
      else (s.(r := SetReg(s.r, f.lo1, f.cval), pc := f.ftpc), AOK)
    else if f.hi0 == I_RMMOVQ then
      if !f.ok1 then (s, ADR)
      else if !f.okc || !RegValid(f.hi1) then (s, INS)
      else
        var addr := Wrap(f.cval + GetReg(s.r, f.lo1));
        if !WordInside(s.m, addr) then (s, ADR)
        else (s.(m := PutWord(s.m, addr, GetReg(s.r, f.hi1)), pc := f.ftpc), AOK)
    else if f.hi0 == I_MRMOVQ then
      if !f.ok1 then (s, ADR)
      else if !f.okc || !RegValid(f.hi1) then (s, INS)
      else
        var addr := Wrap(f.cval + GetReg(s.r, f.lo1));
        if !WordInside(s.m, addr) then (s, ADR)
        else (s.(r := SetReg(s.r, f.hi1, WordAt(s.m, addr)), pc := f.ftpc), AOK)
    else if f.hi0 == I_ALU then
      if !f.ok1 then (s, ADR)
      else
        var argA, argB := GetReg(s.r, f.hi1), GetReg(s.r, f.lo1);
        (s.(r := SetReg(s.r, f.lo1, ComputeAlu(f.lo0, argA, argB)),
            cc := ComputeCc(f.lo0, argA, argB), pc := f.ftpc), AOK)
    else if f.hi0 == I_JMP then
      if !f.okc then (s, ADR)
      else (s.(pc := if CondHolds(s.cc, f.lo0) then f.cval else f.ftpc), AOK)
    else if f.hi0 == I_CALL then
      if !f.okc then (s, ADR)
      else
        var sp := Wrap(GetReg(s.r, RSP) - 8);
        var s1 := s.(r := SetReg(s.r, RSP, sp));
        if !WordInside(s.m, sp) then (s1, ADR)
        else (s1.(m := PutWord(s.m, sp, f.ftpc), pc := f.cval), AOK)
    else if f.hi0 == I_RET then
      var sp := GetReg(s.r, RSP);
      if !WordInside(s.m, sp) then (s, ADR)
      else (s.(r := SetReg(s.r, RSP, Wrap(sp + 8)), pc := WordAt(s.m, sp)), AOK)
    else if f.hi0 == I_PUSHQ then
      if !f.ok1 then (s, ADR)
      else if !RegValid(f.hi1) then (s, INS)
      else
        var val := GetReg(s.r, f.hi1);
        var sp := Wrap(GetReg(s.r, RSP) - 8);
        var s1 := s.(r := SetReg(s.r, RSP, sp));
        if !WordInside(s.m, sp) then (s1, ADR)
        else (s1.(m := PutWord(s.m, sp, val), pc := f.ftpc), AOK)
    else if f.hi0 == I_POPQ then
      if !f.ok1 then (s, ADR)
      else if !RegValid(f.hi1) then (s, INS)
      else
        var sp := GetReg(s.r, RSP);
        var s1 := s.(r := SetReg(s.r, RSP, Wrap(sp + 8)));
        if !WordInside(s.m, sp) then (s1, ADR)
        else (s1.(r := SetReg(s1.r, f.hi1, WordAt(s.m, sp)), pc := f.ftpc), AOK)
    else if f.hi0 == I_IADDQ then
      if !f.ok1 then (s, ADR)
      else if !f.okc || !RegValid(f.lo1) then (s, INS)
      else
        var argB := GetReg(s.r, f.lo1);
        (s.(r := SetReg(s.r, f.lo1, Wrap(argB + f.cval)), cc := ComputeCc(A_ADD, f.cval, argB), pc := f.ftpc), AOK)
    else (s, INS)
  }

  /** `n` instructions, all of them AOK. */
  predicate Runs(s: State, n: nat, t: State)
    decreases n
  {
    if n == 0 then s == t
    else
      var (s', e) := Step(s);
      e == AOK && Runs(s', n - 1, t)
  }

  lemma {:induction false} RunsTrans(s: State, a: nat, t: State, b: nat, u: State)
    requires Runs(s, a, t) && Runs(t, b, u)
    ensures Runs(s, a + b, u)
    decreases a
  {
    hide Step;
    if a > 0 {
      RunsTrans(Step(s).0, a - 1, t, b, u);
    }
  }

  /** The interpreter's state record, updated in place. */
  class IsaMachine {
    var pc: Word
    const r: array<Word>
    const m: array<Byte>
    var cc: Cc

    constructor (mem: array<Byte>)
      ensures pc == 0 && cc == DEFAULT_CC && m == mem && fresh(r) && r.Length == REG_NONE
      ensures forall id :: 0 <= id < r.Length ==> r[id] == 0
    {
      pc, cc, m := 0, DEFAULT_CC, mem;
      r := new Word[REG_NONE](_ => 0);
    }

    ghost function Abs(): State
      reads this, r, m
    {
      State(pc, r[..], m[..], cc)
    }

    method GetByteVal(pos: int) returns (ok: bool, dest: Byte)
      ensures ok == GetByte(m[..], pos).Some? && (ok ==> dest == GetByte(m[..], pos).value)
      ensures !ok ==> dest == 0
    {
      if pos < 0 || pos >= m.Length {
        return false, 0;
      }
      return true, m[pos];
    }

    method GetRegVal(id: nat) returns (v: Word)
      ensures v == GetReg(r[..], id)
    {
      if id < REG_NONE && id < r.Length {
        return r[id];
      }
      return 0;
    }

    method SetRegVal(id: nat, v: Word)
      modifies r
      ensures r[..] == SetReg(old(r[..]), id, v)
    {
      if id < REG_NONE && id < r.Length {
        r[id] := v;
      }
    }

    /** The fetch part of `step_state`. */
    method FetchInstruction() returns (ok: bool, f: Fetched)
      ensures ok == Fetch(m[..], pc).Some?
      ensures ok ==> f == Fetch(m[..], pc).value
    {
      var okByte, byte0 := GetByteVal(pc);
      f := Fetched(0, 0, REG_NONE, REG_NONE, true, 0, true, 0);
      if !okByte {
        return false, f;
      }
      var ftpc: int := Wrap(pc + 1);
      var hi0, lo0 := Hi4(byte0), Lo4(byte0);
      var hi1, lo1, ok1 := REG_NONE, REG_NONE, true;
      if NeedRegids(hi0) {
        var byte1;
        ok1, byte1 := GetByteVal(ftpc);
        ftpc := Wrap(ftpc + 1);
        hi1, lo1 := Hi4(byte1), Lo4(byte1);
      }
      var cval: Word, okc := 0, true;
      if NeedImm(hi0) {
        var v;
        okc, v := GetWordVal(m, ftpc);
        if okc { cval := v; }
        ftpc := Wrap(ftpc + 8);
      }
      return true, Fetched(hi0, lo0, hi1, lo1, ok1, cval, okc, ftpc);
    }

    method StepState() returns (stat: Stat)
      requires r.Length == REG_NONE
      modifies this, r, m
      ensures (Abs(), stat) == Step(old(Abs()))
    {
      hide WordAt, PutWord, ComputeAlu, ComputeCc, CondHolds, Fetch;
      var ok, f := FetchInstruction();
      if !ok {
        return ADR;
      }
      stat := ExecuteInstruction(f);
    }

    method ExecuteInstruction(f: Fetched) returns (stat: Stat)
      modifies this, r, m
      ensures (Abs(), stat) == Execute(old(Abs()), f)
    {
      if f.hi0 == I_NOP {
        pc := f.ftpc;
      } else if f.hi0 == I_HALT {
        return HLT;
      } else if f.hi0 in {I_RRMOVQ, I_IRMOVQ, I_ALU, I_IADDQ} {
        stat := ExecuteRegister(f);
        return;
      } else if f.hi0 in {I_RMMOVQ, I_MRMOVQ} {
        stat := ExecuteMove(f);
        return;
      } else if f.hi0 in {I_CALL, I_RET, I_PUSHQ, I_POPQ} {
        stat := ExecuteStack(f);
        return;
      } else if f.hi0 == I_JMP {
        if !f.okc { return ADR; }
        if CondHolds(cc, f.lo0) {
          pc := f.cval;
        } else {
          pc := f.ftpc;
        }
      } else {
        return INS;
      }
      return AOK;
    }

    method ExecuteRegister(f: Fetched) returns (stat: Stat)
      requires f.hi0 in {I_RRMOVQ, I_IRMOVQ, I_ALU, I_IADDQ}
      modifies this, r
      ensures (Abs(), stat) == Execute(old(Abs()), f)
    {
      hide WordAt, PutWord, ComputeAlu, ComputeCc, CondHolds;
      if !f.ok1 { return ADR; }
      if f.hi0 == I_RRMOVQ {
        if !RegValid(f.hi1) || !RegValid(f.lo1) { return INS; }
        var val := GetRegVal(f.hi1);
        if CondHolds(cc, f.lo0) {
          SetRegVal(f.lo1, val);
        }
      } else if f.hi0 == I_IRMOVQ {
        if !f.okc || !RegValid(f.lo1) { return INS; }
        SetRegVal(f.lo1, f.cval);
      } else if f.hi0 == I_ALU {
        var argA := GetRegVal(f.hi1);
        var argB := GetRegVal(f.lo1);
        SetRegVal(f.lo1, ComputeAlu(f.lo0, argA, argB));
        cc := ComputeCc(f.lo0, argA, argB);
      } else {
        if !f.okc || !RegValid(f.lo1) { return INS; }
        var argB := GetRegVal(f.lo1);
        SetRegVal(f.lo1, Wrap(argB + f.cval));
        cc := ComputeCc(A_ADD, f.cval, argB);
      }
      pc := f.ftpc;
      return AOK;
    }

    method ExecuteMove(f: Fetched) returns (stat: Stat)
      requires f.hi0 in {I_RMMOVQ, I_MRMOVQ}
      modifies this, r, m
      ensures (Abs(), stat) == Execute(old(Abs()), f)
    {
      hide WordAt, PutWord;
      if !f.ok1 { return ADR; }
      if !f.okc || !RegValid(f.hi1) { return INS; }
      var cval: int := f.cval;
      if RegValid(f.lo1) {
        var b := GetRegVal(f.lo1);
        cval := Wrap(cval + b);
      }
      if f.hi0 == I_RMMOVQ {
        var val := GetRegVal(f.hi1);
        var ok := SetWordVal(m, cval, val);
        if !ok { return ADR; }
      } else {
        var ok, val := GetWordVal(m, cval);
        if !ok { return ADR; }
        SetRegVal(f.hi1, val);
      }
      pc := f.ftpc;
      return AOK;
    }

    method ExecuteStack(f: Fetched) returns (stat: Stat)
      requires f.hi0 in {I_CALL, I_RET, I_PUSHQ, I_POPQ}
      modifies this, r, m
      ensures (Abs(), stat) == Execute(old(Abs()), f)
    {
      hide WordAt, PutWord;
      var dval: int := GetRegVal(RSP);
      if f.hi0 == I_CALL {
        if !f.okc { return ADR; }
        var sp := Wrap(dval - 8);
        SetRegVal(RSP, sp);
        var ok := SetWordVal(m, sp, f.ftpc);
        if !ok { return ADR; }
        pc := f.cval;
        return AOK;
      }
      if f.hi0 == I_RET {
        var ok, val := GetWordVal(m, dval);
        if !ok { return ADR; }
        SetRegVal(RSP, Wrap(dval + 8));
        pc := val;
        return AOK;
      }
      if !f.ok1 { return ADR; }
      if !RegValid(f.hi1) { return INS; }
      if f.hi0 == I_PUSHQ {
        var val := GetRegVal(f.hi1);
        var sp := Wrap(dval - 8);
        SetRegVal(RSP, sp);
        var ok := SetWordVal(m, sp, val);
        if !ok { return ADR; }
      } else {
        SetRegVal(RSP, Wrap(dval + 8));
        var ok, val := GetWordVal(m, dval);
        if !ok { return ADR; }
        SetRegVal(f.hi1, val);
      }
      pc := f.ftpc;
      return AOK;
    }
  }
}
