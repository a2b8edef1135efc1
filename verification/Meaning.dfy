/** What `step_state` does with each written instruction, its failures included: from the bytes in memory to the
    next state. */
module Meaning {
  import opened Lists
  import opened Words
  import opened ByteMemory
  import opened Isa
  import opened Assembly
  import opened Programs

  predicate Regs(ra: nat, rb: nat) { ra < REG_NONE && rb < REG_NONE }

  /** The base register's value, or zero where an operand has none. */
  function BaseOf(s: State, rb: nat): Word
    requires |s.r| == REG_NONE && rb <= REG_NONE
  {
    if rb == REG_NONE then 0 else s.r[rb]
  }

  lemma RegisterInstruction(s: State, i: Instr)
    requires Here(s, i) && (i.Halt? || i.Nop? || i.RRmov? || i.IRmov? || i.Alu? || i.Iadd?)
    requires i.RRmov? || i.Alu? ==> Regs(i.ra, i.rb)
    requires i.IRmov? || i.Iadd? ==> i.rb < REG_NONE
    ensures s.pc + Size(i) < TWO_63
    ensures i.Halt? ==> Step(s) == (s, HLT)
    ensures i.Nop? ==> Step(s) == (s.(pc := s.pc + 1), AOK)
    ensures i.RRmov? ==>
      Step(s) == (s.(pc := s.pc + 2, r := if CondHolds(s.cc, i.fn) then s.r[i.rb := s.r[i.ra]] else s.r), AOK)
    ensures i.IRmov? ==> Step(s) == (s.(pc := s.pc + 10, r := s.r[i.rb := i.v]), AOK)
    ensures i.Alu? ==>
      Step(s) == (s.(pc := s.pc + 2, r := s.r[i.rb := ComputeAlu(i.fn, s.r[i.ra], s.r[i.rb])],
                     cc := ComputeCc(i.fn, s.r[i.ra], s.r[i.rb])), AOK)
    ensures i.Iadd? ==>
      Step(s) == (s.(pc := s.pc + 10, r := s.r[i.rb := ComputeAlu(A_ADD, i.v, s.r[i.rb])],
                     cc := ComputeCc(A_ADD, i.v, s.r[i.rb])), AOK)
  {
    hide At, And64, Xor64, ComputeCc, CondHolds, Step;
    NextPc(s, i);
  }

  /** Loads and stores, with or without a base register; outside memory they fail and change nothing. */
  lemma MoveInstruction(s: State, i: Instr)
    requires Here(s, i) && (i.RMmov? || i.MRmov?) && i.ra < REG_NONE && i.rb <= REG_NONE
    ensures s.pc + 10 < TWO_63
    ensures var a := Wrap(i.d + BaseOf(s, i.rb));
            && (!WordInside(s.m, a) ==> Step(s) == (s, ADR))
            && (WordInside(s.m, a) && i.RMmov? ==>
                  Step(s) == (s.(pc := s.pc + 10, m := PutWord(s.m, a, s.r[i.ra])), AOK))
            && (WordInside(s.m, a) && i.MRmov? ==>
                  Step(s) == (s.(pc := s.pc + 10, r := s.r[i.ra := WordAt(s.m, a)]), AOK))
  {
    hide At, WordAt, PutWord, Step;
    NextPc(s, i);
  }

  /** Pushes, pops, calls and returns.  `pushq %rsp` stores the old pointer, `popq %rsp` ends with the popped
      word; a push, pop or call that fails has already moved %rsp, a return has not. */
  lemma StackInstruction(s: State, i: Instr)
    requires Here(s, i) && (i.Push? || i.Pop? || i.Call? || i.Ret?)
    requires i.Push? || i.Pop? ==> i.ra < REG_NONE
    ensures s.pc + Size(i) < TWO_63
    ensures var below := Wrap(s.r[RSP] as int - 8);
            && (i.Push? && WordInside(s.m, below) ==>
                  Step(s) == (s.(pc := s.pc + 2, r := s.r[RSP := below], m := PutWord(s.m, below, s.r[i.ra])), AOK))
            && (i.Call? && WordInside(s.m, below) ==>
                  Step(s) == (s.(pc := i.dest, r := s.r[RSP := below], m := PutWord(s.m, below, s.pc + 9)), AOK))
            && ((i.Push? || i.Call?) && !WordInside(s.m, below) ==> Step(s) == (s.(r := s.r[RSP := below]), ADR))
    ensures var sp := s.r[RSP];
            var above := Wrap(sp as int + 8);
            && (i.Pop? && WordInside(s.m, sp) ==>
                  Step(s) == (s.(pc := s.pc + 2, r := s.r[RSP := above][i.ra := WordAt(s.m, sp)]), AOK))
            && (i.Pop? && !WordInside(s.m, sp) ==> Step(s) == (s.(r := s.r[RSP := above]), ADR))
            && (i.Ret? && WordInside(s.m, sp) ==>
                  Step(s) == (s.(pc := WordAt(s.m, sp), r := s.r[RSP := above]), AOK))
            && (i.Ret? && !WordInside(s.m, sp) ==> Step(s) == (s, ADR))
  {
    hide At, WordAt, PutWord, Step;
    NextPc(s, i);
  }

  lemma JumpInstruction(s: State, i: Instr)
    requires Here(s, i) && i.Jmp?
    ensures s.pc + 9 < TWO_63
    ensures Step(s) == (s.(pc := if CondHolds(s.cc, i.fn) then i.dest else s.pc + 9), AOK)
  {
    hide At, CondHolds, Step;
    NextPc(s, i);
  }

  /** What is refused before anything is changed: a program counter outside memory, an unknown code, missing
      operand bytes, and operand fields that name no register. */
  lemma Refused(s: State)
    requires |s.m| <= MAX_MEM
    ensures !(0 <= s.pc < |s.m|) ==> Step(s) == (s, ADR)
    ensures 0 <= s.pc < |s.m| ==>
      var c := s.m[s.pc] / 16;
      && (c > I_IADDQ ==> Step(s) == (s, INS))
      && (c in {I_RRMOVQ, I_IRMOVQ, I_RMMOVQ, I_MRMOVQ, I_ALU, I_PUSHQ, I_POPQ, I_IADDQ} && s.pc + 1 == |s.m| ==>
            Step(s) == (s, ADR))
      && (c in {I_JMP, I_CALL} && s.pc + 9 > |s.m| ==> Step(s) == (s, ADR))
    ensures 0 <= s.pc && s.pc + 1 < |s.m| ==>
      var c := s.m[s.pc] / 16;
      var high, low := s.m[s.pc + 1] / 16, s.m[s.pc + 1] % 16;
      && (c in {I_IRMOVQ, I_RMMOVQ, I_MRMOVQ, I_IADDQ} && s.pc + 10 > |s.m| ==> Step(s) == (s, INS))
      && (c in {I_RRMOVQ, I_RMMOVQ, I_MRMOVQ, I_PUSHQ, I_POPQ} && high == REG_NONE ==> Step(s) == (s, INS))
      && (c in {I_RRMOVQ, I_IRMOVQ, I_IADDQ} && low == REG_NONE ==> Step(s) == (s, INS))
  {
    hide WordAt, PutWord, ComputeAlu, ComputeCc, CondHolds;
  }
}
