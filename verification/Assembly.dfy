/** Instructions as the assembler encodes them, and what one of them does when it is executed. */
module Assembly {
  import opened Lists
  import opened Words
  import opened ByteMemory
  import opened Isa

  datatype Instr =
    | Halt
    | Nop
    | RRmov(fn: nat, ra: nat, rb: nat)
    | IRmov(v: Word, rb: nat)
    | RMmov(ra: nat, d: Word, rb: nat)
    | MRmov(d: Word, rb: nat, ra: nat)
    | Alu(fn: nat, ra: nat, rb: nat)
    | Jmp(fn: nat, dest: Word)
    | Call(dest: Word)
    | Ret
    | Push(ra: nat)
    | Pop(ra: nat)
    | Iadd(v: Word, rb: nat)

  function Icode(i: Instr): nat {
    match i
    case Halt => I_HALT
    case Nop => I_NOP
    case RRmov(_, _, _) => I_RRMOVQ
    case IRmov(_, _) => I_IRMOVQ
    case RMmov(_, _, _) => I_RMMOVQ
    case MRmov(_, _, _) => I_MRMOVQ
    case Alu(_, _, _) => I_ALU
    case Jmp(_, _) => I_JMP
    case Call(_) => I_CALL
    case Ret => I_RET
    case Push(_) => I_PUSHQ
    case Pop(_) => I_POPQ
    case Iadd(_, _) => I_IADDQ
  }

  function Ifun(i: Instr): nat {
    match i
    case RRmov(fn, _, _) => fn
    case Alu(fn, _, _) => fn
    case Jmp(fn, _) => fn
    case _ => 0
  }

  /** High half of the register byte. */
  function RegA(i: Instr): nat {
    match i
    case RRmov(_, ra, _) => ra
    case RMmov(ra, _, _) => ra
    case MRmov(_, _, ra) => ra
    case Alu(_, ra, _) => ra
    case Push(ra) => ra
    case Pop(ra) => ra
    case _ => REG_NONE
  }

  /** Low half of the register byte. */
  function RegB(i: Instr): nat {
    match i
    case RRmov(_, _, rb) => rb
    case IRmov(_, rb) => rb
    case RMmov(_, _, rb) => rb
    case MRmov(_, rb, _) => rb
    case Alu(_, _, rb) => rb
    case Iadd(_, rb) => rb
    case _ => REG_NONE
  }

  function Imm(i: Instr): Word {
    match i
    case IRmov(v, _) => v
    case RMmov(_, d, _) => d
    case MRmov(d, _, _) => d
    case Jmp(_, dest) => dest
    case Call(dest) => dest
    case Iadd(v, _) => v
    case _ => 0
  }

  predicate Encodable(i: Instr) { Ifun(i) < 16 && RegA(i) < 16 && RegB(i) < 16 }

  function Size(i: Instr): nat {
    1 + (if NeedRegids(Icode(i)) then 1 else 0) + (if NeedImm(Icode(i)) then 8 else 0)
  }

  /** The bytes that `finish_line` puts in code[]. */
  function Encode(i: Instr): (bs: Bytes)
    requires Encodable(i)
    ensures |bs| == Size(i)
  {
    [16 * Icode(i) + Ifun(i)]
    + (if NeedRegids(Icode(i)) then [16 * RegA(i) + RegB(i)] else [])
    + (if NeedImm(Icode(i)) then ToBytes(Imm(i), 8) else [])
  }

  /** The encoding of every instruction, byte by byte. */
  lemma EncodingIs(i: Instr)
    requires Encodable(i)
    ensures Encode(i) ==
      match i
      case Halt => [0x00]
      case Nop => [0x10]
      case RRmov(fn, ra, rb) => [0x20 + fn, 16 * ra + rb]
      case IRmov(v, rb) => [0x30, 0xF0 + rb] + ToBytes(v, 8)
      case RMmov(ra, d, rb) => [0x40, 16 * ra + rb] + ToBytes(d, 8)
      case MRmov(d, rb, ra) => [0x50, 16 * ra + rb] + ToBytes(d, 8)
      case Alu(fn, ra, rb) => [0x60 + fn, 16 * ra + rb]
      case Jmp(fn, dest) => [0x70 + fn] + ToBytes(dest, 8)
      case Call(dest) => [0x80] + ToBytes(dest, 8)
      case Ret => [0x90]
      case Push(ra) => [0xA0, 16 * ra + 0x0F]
      case Pop(ra) => [0xB0, 16 * ra + 0x0F]
      case Iadd(v, rb) => [0xC0, 0xF0 + rb] + ToBytes(v, 8)
  {
    hide ToBytes;
  }

  /** A memory's length is a C int. */
  const MAX_MEM: nat := 0x7FFF_FFFF

  /** Instruction `i` lies at address `pc`. */
  ghost predicate At(m: Bytes, pc: int, i: Instr) {
    |m| <= MAX_MEM && Encodable(i) && 0 <= pc && pc + Size(i) <= |m| && m[pc..pc + Size(i)] == Encode(i)
  }

  /** What the fetch stage delivers for `i` at `pc`. */
  function Decoded(i: Instr, pc: Word): Fetched {
    Fetched(Icode(i), Ifun(i), RegA(i), RegB(i), true, Imm(i), true, Wrap(pc + Size(i)))
  }

  /** Where the parts of an encoded instruction lie. */
  lemma AtParts(m: Bytes, pc: int, i: Instr)
    requires At(m, pc, i)
    ensures m[pc] == 16 * Icode(i) + Ifun(i)
    ensures NeedRegids(Icode(i)) ==> m[pc + 1] == 16 * RegA(i) + RegB(i)
    ensures var p := if NeedRegids(Icode(i)) then pc + 2 else pc + 1;
            NeedImm(Icode(i)) ==> WordInside(m, p) && WordAt(m, p) == Imm(i)
  {
    hide Icode, Ifun, RegA, RegB, Imm, NeedRegids, NeedImm, ToBytes, FromBytes, WordAt;
    var slice := m[pc..pc + Size(i)];
    assert slice[0] == m[pc];
    if NeedRegids(Icode(i)) {
      assert slice[1] == m[pc + 1];
    }
    if NeedImm(Icode(i)) {
      var k := if NeedRegids(Icode(i)) then 2 else 1;
      assert slice[k..] == ToBytes(Imm(i), 8);
      assert slice[k..] == m[pc + k..pc + k + 8];
      WordOfBytes(m, pc + k, Imm(i));
    }
  }

  lemma WordOfBytes(m: Bytes, pos: int, v: Word)
    requires WordInside(m, pos) && m[pos..pos + 8] == ToBytes(v, 8)
    ensures WordAt(m, pos) == v
  {
    WordRoundTrip(v);
  }

  /** Encoding and fetching are inverse. */
  lemma FetchEncoded(m: Bytes, pc: Word, i: Instr)
    requires At(m, pc, i)
    ensures Fetch(m, pc) == Some(Decoded(i, pc))
  {
    hide WordAt, ToBytes, FromBytes, Encode;
    AtParts(m, pc, i);
    HalvesOf(Icode(i), Ifun(i));
    if NeedRegids(Icode(i)) { HalvesOf(RegA(i), RegB(i)); }
  }

  lemma HalvesOf(hi: nat, lo: nat)
    requires hi < 16 && lo < 16
    ensures Hi4(16 * hi + lo) == hi && Lo4(16 * hi + lo) == lo
  {
  }

  lemma StepAt(s: State, i: Instr)
    requires At(s.m, s.pc, i)
    ensures Step(s) == Execute(s, Decoded(i, s.pc))
  {
    FetchEncoded(s.m, s.pc, i);
  }
}
