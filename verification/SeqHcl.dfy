/** The control logic of the SEQ processor with `iaddq`: one function per HCL signal. */
module SeqHcl {
  import opened Words
  import opened Isa

  predicate InstrValid(icode: nat) {
    icode in {I_NOP, I_HALT, I_RRMOVQ, I_IRMOVQ, I_RMMOVQ, I_MRMOVQ, I_ALU, I_JMP, I_CALL, I_RET, I_PUSHQ, I_POPQ,
              I_IADDQ}
  }

  predicate NeedRegidsSignal(icode: nat) {
    icode in {I_RRMOVQ, I_ALU, I_PUSHQ, I_POPQ, I_IRMOVQ, I_RMMOVQ, I_MRMOVQ, I_IADDQ}
  }

  predicate NeedValC(icode: nat) {
    icode in {I_IRMOVQ, I_RMMOVQ, I_MRMOVQ, I_JMP, I_CALL, I_IADDQ}
  }

  function SrcA(icode: nat, rA: nat): nat {
    if icode in {I_RRMOVQ, I_RMMOVQ, I_ALU, I_PUSHQ} then rA
    else if icode in {I_POPQ, I_RET} then RSP
    else REG_NONE
  }

  function SrcB(icode: nat, rB: nat): nat {
    if icode in {I_ALU, I_RMMOVQ, I_MRMOVQ, I_IADDQ} then rB
    else if icode in {I_PUSHQ, I_POPQ, I_CALL, I_RET} then RSP
    else REG_NONE
  }

  function DstE(icode: nat, rB: nat, cnd: bool): nat {
    if icode == I_RRMOVQ && cnd then rB
    else if icode in {I_IRMOVQ, I_ALU, I_IADDQ} then rB
    else if icode in {I_PUSHQ, I_POPQ, I_CALL, I_RET} then RSP
    else REG_NONE
  }

  function DstM(icode: nat, rA: nat): nat {
    if icode in {I_MRMOVQ, I_POPQ} then rA else REG_NONE
  }

  function AluA(icode: nat, valA: Word, valC: Word): Word {
    if icode in {I_RRMOVQ, I_ALU} then valA
    else if icode in {I_IRMOVQ, I_RMMOVQ, I_MRMOVQ, I_IADDQ} then valC
    else if icode in {I_CALL, I_PUSHQ} then -8
    else if icode in {I_RET, I_POPQ} then 8
    else 0
  }

  function AluB(icode: nat, valB: Word): Word {
    if icode in {I_RMMOVQ, I_MRMOVQ, I_ALU, I_CALL, I_PUSHQ, I_RET, I_POPQ, I_IADDQ} then valB else 0
  }

  function AluFun(icode: nat, ifun: nat): nat { if icode == I_ALU then ifun else A_ADD }

  predicate SetCc(icode: nat) { icode in {I_ALU, I_IADDQ} }

  predicate MemRead(icode: nat) { icode in {I_MRMOVQ, I_POPQ, I_RET} }

  predicate MemWrite(icode: nat) { icode in {I_RMMOVQ, I_PUSHQ, I_CALL} }

  function MemAddr(icode: nat, valA: Word, valE: Word): Word {
    if icode in {I_RMMOVQ, I_PUSHQ, I_CALL, I_MRMOVQ} then valE
    else if icode in {I_POPQ, I_RET} then valA
    else 0
  }

  function MemData(icode: nat, valA: Word, valP: Word): Word {
    if icode in {I_RMMOVQ, I_PUSHQ} then valA
    else if icode == I_CALL then valP
    else 0
  }

  function StatSignal(imemError: bool, dmemError: bool, icode: nat): Stat {
    if imemError || dmemError then ADR
    else if !InstrValid(icode) then INS
    else if icode == I_HALT then HLT
    else AOK
  }

  function NewPc(icode: nat, cnd: bool, valC: Word, valM: Word, valP: Word): Word {
    if icode == I_CALL then valC
    else if icode == I_JMP && cnd then valC
    else if icode == I_RET then valM
    else valP
  }
}
