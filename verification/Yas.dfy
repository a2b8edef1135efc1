/** The assembler `yas.c`, from the tokens of a line to its bytes: operand parsing into the code buffer,
    labels over two passes, and the round trip through the .yo text to what the simulators fetch. */
module Yas {
  import opened Lists
  import opened Words
  import opened ByteMemory
  import opened ObjectText
  import Assembly
  import Isa

  datatype Mnemonic =
    | NopI | HaltI | RrmovqI | CmovleI | CmovlI | CmoveI | CmovneI | CmovgeI | CmovgI | IrmovqI | RmmovqI | MrmovqI
    | AddqI | SubqI | AndqI | XorqI | JmpI | JleI | JlI | JeI | JneI | JgeI | JgI | CallI | RetI | PushqI | PopqI
    | IaddqI | ByteD | WordD | LongD | QuadD | PosD | AlignD

  /** Tokens as the lexer delivers them: a register token names one of the fifteen program registers. */
  datatype Token = Ident(name: string) | Num(value: Word) | Reg(id: RegId) | Op(op: Mnemonic) | Punct(c: char) | TokErr

  type RegId = x: int | 0 <= x < 15 witness 0

  function Tok(ts: seq<Token>, i: nat): Token { if i < |ts| then ts[i] else TokErr }

  datatype Arg = RArg | MArg | IArg | NoArg

  datatype Row = Row(code: Byte, bytes: nat, arg1: Arg, arg1pos: nat, arg1hi: nat, arg2: Arg, arg2pos: nat, arg2hi: nat)

  function Hpack(hi: nat, lo: nat): Byte
    requires hi < 16 && lo < 16
  {
    16 * hi + lo
  }

  function RegReg(code: Byte): Row { Row(code, 2, RArg, 1, 1, RArg, 1, 0) }

  function Jump(fn: nat): Row
    requires fn < 16
  {
    Row(Hpack(Isa.I_JMP, fn), 9, IArg, 1, 8, NoArg, 0, 0)
  }

  function Data(bytes: nat): Row { Row(0, bytes, IArg, 0, bytes, NoArg, 0, 0) }

  /** instruction_set[]; the directives .pos and .align have no row. */
  function FindInstr(op: Mnemonic): Option<Row> {
    match op
    case NopI => Some(Row(Hpack(Isa.I_NOP, 0), 1, NoArg, 0, 0, NoArg, 0, 0))
    case HaltI => Some(Row(Hpack(Isa.I_HALT, 0), 1, NoArg, 0, 0, NoArg, 0, 0))
    case RrmovqI => Some(RegReg(Hpack(Isa.I_RRMOVQ, 0)))
    case CmovleI => Some(RegReg(Hpack(Isa.I_RRMOVQ, Isa.C_LE)))
    case CmovlI => Some(RegReg(Hpack(Isa.I_RRMOVQ, Isa.C_L)))
    case CmoveI => Some(RegReg(Hpack(Isa.I_RRMOVQ, Isa.C_E)))
    case CmovneI => Some(RegReg(Hpack(Isa.I_RRMOVQ, Isa.C_NE)))
    case CmovgeI => Some(RegReg(Hpack(Isa.I_RRMOVQ, Isa.C_GE)))
    case CmovgI => Some(RegReg(Hpack(Isa.I_RRMOVQ, Isa.C_G)))
    case IrmovqI => Some(Row(Hpack(Isa.I_IRMOVQ, 0), 10, IArg, 2, 8, RArg, 1, 0))
    case RmmovqI => Some(Row(Hpack(Isa.I_RMMOVQ, 0), 10, RArg, 1, 1, MArg, 1, 0))
    case MrmovqI => Some(Row(Hpack(Isa.I_MRMOVQ, 0), 10, MArg, 1, 0, RArg, 1, 1))
    case AddqI => Some(RegReg(Hpack(Isa.I_ALU, Isa.A_ADD)))
    case SubqI => Some(RegReg(Hpack(Isa.I_ALU, Isa.A_SUB)))
    case AndqI => Some(RegReg(Hpack(Isa.I_ALU, Isa.A_AND)))
    case XorqI => Some(RegReg(Hpack(Isa.I_ALU, Isa.A_XOR)))
    case JmpI => Some(Jump(Isa.C_YES))
    case JleI => Some(Jump(Isa.C_LE))
    case JlI => Some(Jump(Isa.C_L))
    case JeI => Some(Jump(Isa.C_E))
    case JneI => Some(Jump(Isa.C_NE))
    case JgeI => Some(Jump(Isa.C_GE))
    case JgI => Some(Jump(Isa.C_G))
    case CallI => Some(Row(Hpack(Isa.I_CALL, 0), 9, IArg, 1, 8, NoArg, 0, 0))
    case RetI => Some(Row(Hpack(Isa.I_RET, 0), 1, NoArg, 0, 0, NoArg, 0, 0))
    case PushqI => Some(Row(Hpack(Isa.I_PUSHQ, 0), 2, RArg, 1, 1, NoArg, 0, 0))
    case PopqI => Some(Row(Hpack(Isa.I_POPQ, 0), 2, RArg, 1, 1, NoArg, 0, 0))
    case IaddqI => Some(Row(Hpack(Isa.I_IADDQ, 0), 10, IArg, 2, 8, RArg, 1, 0))
    case ByteD => Some(Data(1))
    case WordD => Some(Data(2))
    case LongD => Some(Data(4))
    case QuadD => Some(Data(8))
    case PosD => None
    case AlignD => None
  }

  predicate ArgFits(arg: Arg, pos: nat, hi: nat) {
    match arg
    case RArg => pos < 10
    case MArg => pos + 9 <= 10
    case IArg => pos + hi <= 10
    case NoArg => true
  }

  lemma RowsFit(op: Mnemonic)
    ensures FindInstr(op) == None <==> op in {PosD, AlignD}
    ensures FindInstr(op).Some? ==> var row := FindInstr(op).value;
      1 <= row.bytes <= 10 && ArgFits(row.arg1, row.arg1pos, row.arg1hi) && ArgFits(row.arg2, row.arg2pos, row.arg2hi)
  {
  }

  /** The first byte and the size of every mnemonic. */
  lemma CodesAre(op: Mnemonic)
    requires op !in {PosD, AlignD}
    ensures FindInstr(op).Some?
    ensures (FindInstr(op).value.code, FindInstr(op).value.bytes) ==
      match op
      case NopI => (0x10, 1)
      case HaltI => (0x00, 1)
      case RrmovqI => (0x20, 2)
      case CmovleI => (0x21, 2)
      case CmovlI => (0x22, 2)
      case CmoveI => (0x23, 2)
      case CmovneI => (0x24, 2)
      case CmovgeI => (0x25, 2)
      case CmovgI => (0x26, 2)
      case IrmovqI => (0x30, 10)
      case RmmovqI => (0x40, 10)
      case MrmovqI => (0x50, 10)
      case AddqI => (0x60, 2)
      case SubqI => (0x61, 2)
      case AndqI => (0x62, 2)
      case XorqI => (0x63, 2)
      case JmpI => (0x70, 9)
      case JleI => (0x71, 9)
      case JlI => (0x72, 9)
      case JeI => (0x73, 9)
      case JneI => (0x74, 9)
      case JgeI => (0x75, 9)
      case JgI => (0x76, 9)
      case CallI => (0x80, 9)
      case RetI => (0x90, 1)
      case PushqI => (0xA0, 2)
      case PopqI => (0xB0, 2)
      case IaddqI => (0xC0, 10)
      case ByteD => (0x00, 1)
      case WordD => (0x00, 2)
      case LongD => (0x00, 4)
      case QuadD => (0x00, 8)
      case _ => (0, 0)
  {
  }

  /** Conversion to an int keeps the value modulo 2^32. */
  lemma Int32Is(v: int)
    ensures -0x8000_0000 <= Int32(v) < 0x8000_0000 && (Int32(v) - v) % 0x1_0000_0000 == 0
  {
  }

  // ---------------------------------------------------------------------------------------------
  // Operands
  // ---------------------------------------------------------------------------------------------

  datatype Symbol = Symbol(name: string, pos: int)

  function FindSymbol(symbols: seq<Symbol>, name: string): Option<int> {
    if symbols == [] then None
    else if symbols[0].name == name then Some(symbols[0].pos)
    else FindSymbol(symbols[1..], name)
  }

  /** The code buffer, the next token, and whether the line has failed. */
  datatype Operands = Operands(code: Bytes, tpos: nat, failed: bool)

  function Failed(p: Operands): Operands { p.(failed := true) }

  function GetReg(p: Operands, ts: seq<Token>, codepos: nat, hi: nat): Operands
    requires codepos < |p.code|
  {
    match Tok(ts, p.tpos)
    case Reg(id) =>
      var c := p.code[codepos];
      Operands(p.code[codepos := if hi != 0 then Hpack(id, c % 16) else Hpack(c / 16, id)], p.tpos + 1, p.failed)
    case _ => Failed(p)
  }

  function GetNum(p: Operands, ts: seq<Token>, symbols: seq<Symbol>, codepos: nat, bytes: nat): Operands
    requires codepos + bytes <= |p.code|
  {
    match Tok(ts, p.tpos)
    case Num(value) => Operands(PutBytes(p.code, codepos, value, bytes), p.tpos + 1, p.failed)
    case Ident(name) =>
      (match FindSymbol(symbols, name)
       case Some(pos) => Operands(PutBytes(p.code, codepos, pos, bytes), p.tpos + 1, p.failed)
       case None => Operands(PutBytes(p.code, codepos, -1, bytes), p.tpos + 1, true))
    case _ => Failed(p)
  }

  /** The displacement, if there is one, and where the tokens go on. */
  function Displacement(p: Operands, ts: seq<Token>, symbols: seq<Symbol>): (int, Operands) {
    match Tok(ts, p.tpos)
    case Num(value) => (value, p.(tpos := p.tpos + 1))
    case Ident(name) =>
      (match FindSymbol(symbols, name)
       case Some(pos) => (pos, p.(tpos := p.tpos + 1))
       case None => (-1, Operands(p.code, p.tpos + 1, true)))
    case _ => (0, p)
  }

  /** The optional register in parentheses; None after an error. */
  function Base(q: Operands, ts: seq<Token>): (r: (Option<nat>, Operands))
    ensures r.0.Some? ==> r.0.value < 16
  {
    if Tok(ts, q.tpos) != Punct('(') then (Some(Isa.REG_NONE), q)
    else if !Tok(ts, q.tpos + 1).Reg? then (None, q.(tpos := q.tpos + 1, failed := true))
    else if !Tok(ts, q.tpos + 2).Punct? then (None, q.(tpos := q.tpos + 2, failed := true))
    else if Tok(ts, q.tpos + 2) != Punct(')') then (None, q.(tpos := q.tpos + 3, failed := true))
    else (Some(Tok(ts, q.tpos + 1).id), q.(tpos := q.tpos + 3))
  }

  /** A memory reference: displacement, register in parentheses, or both. */
  function GetMem(p: Operands, ts: seq<Token>, symbols: seq<Symbol>, codepos: nat): Operands
    requires codepos + 9 <= |p.code|
  {
    var (val, q) := Displacement(p, ts, symbols);
    var (base, r) := Base(q, ts);
    match base
    case None => r
    case Some(rval) =>
      var c := r.code[codepos];
      r.(code := PutBytes(r.code[codepos := Hpack(c / 16, rval)], codepos + 1, val, 8))
  }

  function GetArg(p: Operands, ts: seq<Token>, symbols: seq<Symbol>, arg: Arg, pos: nat, hi: nat): (r: Operands)
    requires |p.code| == 10 && ArgFits(arg, pos, hi)
    ensures |r.code| == 10
  {
    match arg
    case RArg => GetReg(p, ts, pos, hi)
    case MArg => GetMem(p, ts, symbols, pos)
    case IArg => GetNum(p, ts, symbols, pos, hi)
    case NoArg => p
  }

  // ---------------------------------------------------------------------------------------------
  // Lines
  // ---------------------------------------------------------------------------------------------

  /** What is carried from line to line: the address, the symbol table and the code buffer. */
  datatype Asm = Asm(pos: int, symbols: seq<Symbol>, code: Bytes)

  /** What a line prints. */
  datatype Printed = Nothing | BlankAt(pos: int) | CodeAt(pos: int, bytes: Bytes)

  /** `abort` stands for the exit on an address above 0xFFFF. */
  datatype Outcome = Outcome(asm: Asm, failed: bool, abort: bool, line: Printed)

  function Print(a: Asm, failed: bool, pos: int, bytes: Bytes): Outcome {
    if pos > 0xFFFF then Outcome(a, true, true, Nothing) else Outcome(a, failed, false, CodeAt(pos, bytes))
  }

  /** Conversion of a 64-bit value to a C int. */
  function Int32(v: int): int { (v + 0x8000_0000) % 0x1_0000_0000 - 0x8000_0000 }

  /** C division truncates toward zero. */
  function DivTrunc(a: int, b: int): int
    requires b > 0
  {
    if a >= 0 then a / b else -(-a / b)
  }

  lemma DivTruncIs(a: int, b: int)
    requires b > 0
    ensures a >= 0 ==> DivTrunc(a, b) * b <= a < DivTrunc(a, b) * b + b
    ensures a < 0 ==> DivTrunc(a, b) * b - b < a <= DivTrunc(a, b) * b
  {
    if a >= 0 { assert a == b * (a / b) + a % b; } else { assert -a == b * (-a / b) + -a % b; }
  }

  /** finish_line on the tokens of one line without an earlier error. */
  function Finish(a: Asm, ts: seq<Token>, second: bool): Outcome
    requires |a.code| == 10
  {
    if ts == [] then Outcome(a, false, false, if second then BlankAt(a.pos) else Nothing)
    else if ts[0].Ident? then
      if Tok(ts, 1) != Punct(':') then Outcome(a, true, false, Nothing)
      else
        var b := if second then a else a.(symbols := a.symbols + [Symbol(ts[0].name, a.pos)]);
        if |ts| == 2 then (if second then Print(b, false, b.pos, []) else Outcome(b, false, false, Nothing))
        else Statement(b, ts, 2, second)
    else Statement(a, ts, 0, second)
  }

  /** The part of a line after the label. */
  function Statement(a: Asm, ts: seq<Token>, tpos: nat, second: bool): Outcome
    requires |a.code| == 10
  {
    var bad := Outcome(a, true, false, Nothing);
    match Tok(ts, tpos)
    case Op(PosD) =>
      (match Tok(ts, tpos + 1)
       case Num(value) => Moved(a, Int32(value), second)
       case _ => bad)
    case Op(AlignD) =>
      (match Tok(ts, tpos + 1)
       case Num(value) =>
         var n := Int32(value);
         if n <= 0 then bad else Moved(a, DivTrunc(a.pos + n - 1, n) * n, second)
       case _ => bad)
    case Op(op) => RowsFit(op); Instruction(a, ts, tpos + 1, FindInstr(op).value, second)
    case _ => bad
  }

  function Moved(a: Asm, pos: int, second: bool): Outcome {
    var b := a.(pos := pos);
    if second then Print(b, false, pos, []) else Outcome(b, false, false, Nothing)
  }

  predicate RowFits(row: Row) {
    1 <= row.bytes <= 10 && ArgFits(row.arg1, row.arg1pos, row.arg1hi) && ArgFits(row.arg2, row.arg2pos, row.arg2hi)
  }

  /** Both operands, with the comma between them; false when it is missing. */
  function BothArgs(p: Operands, ts: seq<Token>, symbols: seq<Symbol>, row: Row): (r: (Operands, bool))
    requires |p.code| == 10 && RowFits(row)
    ensures |r.0.code| == 10
  {
    var q := GetArg(p, ts, symbols, row.arg1, row.arg1pos, row.arg1hi);
    if row.arg2 == NoArg then (q, true)
    else if Tok(ts, q.tpos) != Punct(',') then (Failed(q), false)
    else (GetArg(q.(tpos := q.tpos + 1), ts, symbols, row.arg2, row.arg2pos, row.arg2hi), true)
  }

  function Instruction(a: Asm, ts: seq<Token>, tpos: nat, row: Row, second: bool): Outcome
    requires |a.code| == 10 && RowFits(row)
  {
    var b := a.(pos := a.pos + row.bytes);
    if !second then Outcome(b, false, false, Nothing)
    else
      var (r, complete) := BothArgs(
        Operands(a.code[0 := row.code][1 := Hpack(15, 15)], tpos, false), ts, a.symbols, row);
      if complete then Print(b.(code := r.code), r.failed, a.pos, r.code[..row.bytes])
      else Outcome(b.(code := r.code), true, false, Nothing)
  }

  lemma FinishKeeps(a: Asm, ts: seq<Token>, second: bool)
    requires |a.code| == 10
    ensures |Finish(a, ts, second).asm.code| == 10
    ensures second ==> Finish(a, ts, second).asm.symbols == a.symbols
  {
  }

  // ---------------------------------------------------------------------------------------------
  // Source lines and what they encode
  // ---------------------------------------------------------------------------------------------

  predicate IsReg(id: nat) { id < 15 }

  /** Instructions that can be written down: conditions and operations that have a mnemonic, and program
      registers, except that a memory operand may lack its base register. */
  predicate Valid(i: Assembly.Instr) {
    match i
    case RRmov(fn, ra, rb) => fn <= 6 && IsReg(ra) && IsReg(rb)
    case IRmov(_, rb) => IsReg(rb)
    case RMmov(ra, _, rb) => IsReg(ra) && rb <= 15
    case MRmov(_, rb, ra) => IsReg(ra) && rb <= 15
    case Alu(fn, ra, rb) => fn <= 3 && IsReg(ra) && IsReg(rb)
    case Jmp(fn, _) => fn <= 6
    case Push(ra) => IsReg(ra)
    case Pop(ra) => IsReg(ra)
    case Iadd(_, rb) => IsReg(rb)
    case _ => true
  }

  function MoveOp(fn: nat): Mnemonic {
    if fn == 0 then RrmovqI else if fn == 1 then CmovleI else if fn == 2 then CmovlI else if fn == 3 then CmoveI
    else if fn == 4 then CmovneI else if fn == 5 then CmovgeI else CmovgI
  }

  function AluOp(fn: nat): Mnemonic {
    if fn == 0 then AddqI else if fn == 1 then SubqI else if fn == 2 then AndqI else XorqI
  }

  function JumpOp(fn: nat): Mnemonic {
    if fn == 0 then JmpI else if fn == 1 then JleI else if fn == 2 then JlI else if fn == 3 then JeI
    else if fn == 4 then JneI else if fn == 5 then JgeI else JgI
  }

  /** A memory operand: displacement tokens and an optional base register. */
  function Mem(imm: seq<Token>, rb: nat): seq<Token>
    requires rb <= 15
  {
    imm + (if rb == 15 then [] else [Punct('('), Reg(rb), Punct(')')])
  }

  /** The tokens of an instruction, with `imm` for its constant. */
  function Source(i: Assembly.Instr, imm: seq<Token>): seq<Token>
    requires Valid(i)
  {
    match i
    case Halt => [Op(HaltI)]
    case Nop => [Op(NopI)]
    case RRmov(fn, ra, rb) => [Op(MoveOp(fn)), Reg(ra), Punct(','), Reg(rb)]
    case IRmov(_, rb) => [Op(IrmovqI)] + imm + [Punct(','), Reg(rb)]
    case RMmov(ra, _, rb) => [Op(RmmovqI), Reg(ra), Punct(',')] + Mem(imm, rb)
    case MRmov(_, rb, ra) => [Op(MrmovqI)] + Mem(imm, rb) + [Punct(','), Reg(ra)]
    case Alu(fn, ra, rb) => [Op(AluOp(fn)), Reg(ra), Punct(','), Reg(rb)]
    case Jmp(fn, _) => [Op(JumpOp(fn))] + imm
    case Call(_) => [Op(CallI)] + imm
    case Ret => [Op(RetI)]
    case Push(ra) => [Op(PushqI), Reg(ra)]
    case Pop(ra) => [Op(PopqI), Reg(ra)]
    case Iadd(_, rb) => [Op(IaddqI)] + imm + [Punct(','), Reg(rb)]
  }

  /** The tokens `imm` stand for `v`: a number, a label, or, for a zero displacement, nothing. */
  predicate Denotes(imm: seq<Token>, symbols: seq<Symbol>, v: Word, optional: bool) {
    || imm == [Num(v)]
    || (|imm| == 1 && imm[0].Ident? && FindSymbol(symbols, imm[0].name) == Some(v))
    || (optional && imm == [] && v == 0)
  }

  predicate MemoryOperand(i: Assembly.Instr) { i.RMmov? || i.MRmov? }

  ghost predicate Writes(a: Asm, ts: seq<Token>, t: nat, i: Assembly.Instr, imm: seq<Token>) {
    && |a.code| == 10 && Valid(i) && t <= |ts| && ts[t..] == Source(i, imm)
    && Denotes(imm, a.symbols, Assembly.Imm(i), MemoryOperand(i))
  }

  /** Line `o` of assembler state `a` printed exactly `bytes`, without an error unless the address is too large. */
  ghost predicate Emits(a: Asm, o: Outcome, bytes: Bytes) {
    o == Print(Asm(a.pos + |bytes|, a.symbols, o.asm.code), false, a.pos, bytes)
  }

  /** The operands of the statement end up in the buffer as the encoding of `i`. */
  ghost predicate Encodes(a: Asm, ts: seq<Token>, t: nat, i: Assembly.Instr)
    requires |a.code| == 10
  {
    Assembly.Encodable(i) && Emits(a, Statement(a, ts, t, true), Assembly.Encode(i))
  }

  lemma TokenAt(ts: seq<Token>, t: nat, src: seq<Token>)
    requires t <= |ts| && ts[t..] == src
    ensures forall k: nat {:trigger src[k]} :: k < |src| ==> Tok(ts, t + k) == src[k]
    ensures Tok(ts, t + |src|) == TokErr
  {
  }

  lemma Dispatch(a: Asm, ts: seq<Token>, t: nat, op: Mnemonic, row: Row)
    requires |a.code| == 10 && Tok(ts, t) == Op(op) && FindInstr(op) == Some(row)
    ensures RowFits(row) && Statement(a, ts, t, true) == Instruction(a, ts, t + 1, row, true)
  {
    hide Instruction;
    RowsFit(op);
  }

  // One lemma for each shape of operands.

  lemma PlainLine(a: Asm, ts: seq<Token>, tpos: nat, code: Byte)
    requires |a.code| == 10
    ensures Emits(a, Instruction(a, ts, tpos, Row(code, 1, NoArg, 0, 0, NoArg, 0, 0), true), [code])
  {
    assert a.code[0 := code][1 := Hpack(15, 15)][..1] == [code];
  }

  lemma RegRegLine(a: Asm, ts: seq<Token>, tpos: nat, code: Byte, ra: RegId, rb: RegId)
    requires |a.code| == 10
    requires Tok(ts, tpos) == Reg(ra) && Tok(ts, tpos + 1) == Punct(',') && Tok(ts, tpos + 2) == Reg(rb)
    ensures Emits(a, Instruction(a, ts, tpos, RegReg(code), true), [code, 16 * ra + rb])
  {
    hide Tok, GetMem, GetNum;
    var q := GetReg(Operands(a.code[0 := code][1 := Hpack(15, 15)], tpos, false), ts, 1, 1);
    assert q.code[1] == 16 * ra + 15;
    var r := GetReg(q.(tpos := tpos + 2), ts, 1, 0);
    assert r.code[..2] == [code, 16 * ra + rb];
  }

  lemma RegLine(a: Asm, ts: seq<Token>, tpos: nat, code: Byte, ra: RegId)
    requires |a.code| == 10 && Tok(ts, tpos) == Reg(ra)
    ensures Emits(a, Instruction(a, ts, tpos, Row(code, 2, RArg, 1, 1, NoArg, 0, 0), true), [code, 16 * ra + 15])
  {
    hide Tok, GetMem, GetNum;
    var q := GetReg(Operands(a.code[0 := code][1 := Hpack(15, 15)], tpos, false), ts, 1, 1);
    assert q.code[..2] == [code, 16 * ra + 15];
  }

  lemma ImmToken(p: Operands, ts: seq<Token>, symbols: seq<Symbol>, codepos: nat, v: Word)
    requires codepos + 8 <= |p.code| && Denotes([Tok(ts, p.tpos)], symbols, v, false)
    ensures GetNum(p, ts, symbols, codepos, 8) == Operands(PutBytes(p.code, codepos, v, 8), p.tpos + 1, p.failed)
  {
    hide PutBytes, Tok;
  }

  lemma ImmLine(a: Asm, ts: seq<Token>, tpos: nat, code: Byte, v: Word)
    requires |a.code| == 10 && Denotes([Tok(ts, tpos)], a.symbols, v, false)
    ensures Emits(a, Instruction(a, ts, tpos, Row(code, 9, IArg, 1, 8, NoArg, 0, 0), true), [code] + ToBytes(v, 8))
  {
    hide Tok, GetMem, GetReg, ToBytes;
    var p := Operands(a.code[0 := code][1 := Hpack(15, 15)], tpos, false);
    ImmToken(p, ts, a.symbols, 1, v);
    assert PutBytes(p.code, 1, v, 8)[..9] == [code] + ToBytes(v, 8);
  }

  lemma ImmRegLine(a: Asm, ts: seq<Token>, tpos: nat, code: Byte, v: Word, rb: RegId)
    requires |a.code| == 10 && Denotes([Tok(ts, tpos)], a.symbols, v, false)
    requires Tok(ts, tpos + 1) == Punct(',') && Tok(ts, tpos + 2) == Reg(rb)
    ensures Emits(a, Instruction(a, ts, tpos, Row(code, 10, IArg, 2, 8, RArg, 1, 0), true),
                  [code, 240 + rb] + ToBytes(v, 8))
  {
    hide Tok, GetMem, ToBytes;
    var p := Operands(a.code[0 := code][1 := Hpack(15, 15)], tpos, false);
    ImmToken(p, ts, a.symbols, 2, v);
    var q := GetNum(p, ts, a.symbols, 2, 8);
    var r := GetReg(q.(tpos := tpos + 2), ts, 1, 0);
    assert r.code[..10] == [code, 240 + rb] + ToBytes(v, 8);
  }

  /** The tokens from `t` on are the memory operand `imm(rb)`, and what follows starts no register. */
  ghost predicate MemAt(ts: seq<Token>, t: nat, imm: seq<Token>, rb: nat) {
    && rb <= 15 && |imm| <= 1 && (imm != [] ==> Tok(ts, t) == imm[0])
    && (rb != 15 ==> Tok(ts, t + |imm|) == Punct('(') && Tok(ts, t + |imm| + 1) == Reg(rb)
                     && Tok(ts, t + |imm| + 2) == Punct(')'))
    && (rb == 15 ==> var after := Tok(ts, t + |imm|); after == Punct(',') || after == TokErr)
  }

  function MemLength(imm: seq<Token>, rb: nat): nat { |imm| + if rb == 15 then 0 else 3 }

  lemma MemOperand(p: Operands, ts: seq<Token>, symbols: seq<Symbol>, imm: seq<Token>, rb: nat, v: Word)
    requires |p.code| == 10 && MemAt(ts, p.tpos, imm, rb) && Denotes(imm, symbols, v, true)
    ensures GetMem(p, ts, symbols, 1)
         == Operands(PutBytes(p.code[1 := Hpack(p.code[1] / 16, rb)], 2, v, 8), p.tpos + MemLength(imm, rb), p.failed)
  {
    hide Tok, PutBytes;
  }

  lemma StoreLine(a: Asm, ts: seq<Token>, tpos: nat, code: Byte, ra: RegId, imm: seq<Token>, v: Word, rb: nat)
    requires |a.code| == 10 && Tok(ts, tpos) == Reg(ra) && Tok(ts, tpos + 1) == Punct(',')
    requires MemAt(ts, tpos + 2, imm, rb) && Denotes(imm, a.symbols, v, true)
    ensures Emits(a, Instruction(a, ts, tpos, Row(code, 10, RArg, 1, 1, MArg, 1, 0), true),
                  [code, 16 * ra + rb] + ToBytes(v, 8))
  {
    hide Tok, GetMem, GetNum, ToBytes, Denotes;
    var q := GetReg(Operands(a.code[0 := code][1 := Hpack(15, 15)], tpos, false), ts, 1, 1);
    assert q.code[1] == 16 * ra + 15;
    var q' := q.(tpos := tpos + 2);
    MemOperand(q', ts, a.symbols, imm, rb, v);
    assert PutBytes(q'.code[1 := Hpack(q'.code[1] / 16, rb)], 2, v, 8)[..10] == [code, 16 * ra + rb] + ToBytes(v, 8);
  }

  lemma LoadMemLine(a: Asm, ts: seq<Token>, tpos: nat, code: Byte, imm: seq<Token>, v: Word, rb: nat, ra: RegId)
    requires |a.code| == 10 && MemAt(ts, tpos, imm, rb) && Denotes(imm, a.symbols, v, true)
    requires Tok(ts, tpos + MemLength(imm, rb)) == Punct(',') && Tok(ts, tpos + MemLength(imm, rb) + 1) == Reg(ra)
    ensures Emits(a, Instruction(a, ts, tpos, Row(code, 10, MArg, 1, 0, RArg, 1, 1), true),
                  [code, 16 * ra + rb] + ToBytes(v, 8))
  {
    hide Tok, GetMem, GetNum, ToBytes, PutBytes, Denotes;
    var p := Operands(a.code[0 := code][1 := Hpack(15, 15)], tpos, false);
    MemOperand(p, ts, a.symbols, imm, rb, v);
    MemBytes(p.code, code, ra, rb, v);
  }

  /** The register byte, its low half first, and then the displacement. */
  lemma MemBytes(c: Bytes, code: Byte, ra: RegId, rb: nat, v: Word)
    requires |c| == 10 && c[0] == code && c[1] == 0xFF && rb < 16
    ensures var d := PutBytes(c[1 := Hpack(c[1] / 16, rb)], 2, v, 8);
            |d| == 10 && d[1] == 240 + rb && d[1 := Hpack(ra, d[1] % 16)][..10] == [code, 16 * ra + rb] + ToBytes(v, 8)
  {
    hide ToBytes;
  }

  lemma NamedRows(fn: nat)
    requires fn <= 6
    ensures FindInstr(MoveOp(fn)) == Some(RegReg(Hpack(Isa.I_RRMOVQ, fn)))
    ensures fn <= 3 ==> FindInstr(AluOp(fn)) == Some(RegReg(Hpack(Isa.I_ALU, fn)))
    ensures FindInstr(JumpOp(fn)) == Some(Jump(fn))
  {
  }

  lemma EncodedAs(i: Assembly.Instr)
    requires Valid(i)
    ensures Assembly.Encodable(i)
    ensures var c, r := 16 * Assembly.Icode(i) + Assembly.Ifun(i), 16 * Assembly.RegA(i) + Assembly.RegB(i);
            && (i.Halt? || i.Nop? || i.Ret? ==> Assembly.Encode(i) == [c])
            && (i.RRmov? || i.Alu? || i.Push? || i.Pop? ==> Assembly.Encode(i) == [c, r])
            && (i.Jmp? || i.Call? ==> Assembly.Encode(i) == [c] + ToBytes(Assembly.Imm(i), 8))
            && (i.IRmov? || i.Iadd? || MemoryOperand(i) ==> Assembly.Encode(i) == [c, r] + ToBytes(Assembly.Imm(i), 8))
  {
    hide ToBytes;
  }

  lemma TwoRegistersEncodes(a: Asm, ts: seq<Token>, t: nat, i: Assembly.Instr, imm: seq<Token>)
    requires Writes(a, ts, t, i, imm) && (i.RRmov? || i.Alu?)
    ensures Encodes(a, ts, t, i)
  {
    hide Statement, Instruction, MoveOp, AluOp, JumpOp, Tok, Emits, ToBytes, FindSymbol, Assembly.Encode;
    EncodedAs(i);
    var src := Source(i, imm);
    TokenAt(ts, t, src);
    var c: Byte := Hpack(Assembly.Icode(i), Assembly.Ifun(i));
    NamedRows(i.fn);
    assert src[0].Op? && src[1] == Reg(i.ra) && src[2] == Punct(',') && src[3] == Reg(i.rb);
    Dispatch(a, ts, t, src[0].op, RegReg(c));
    RegRegLine(a, ts, t + 1, c, i.ra, i.rb);
  }

  lemma OneRegisterEncodes(a: Asm, ts: seq<Token>, t: nat, i: Assembly.Instr, imm: seq<Token>)
    requires Writes(a, ts, t, i, imm) && (i.Push? || i.Pop?)
    ensures Encodes(a, ts, t, i)
  {
    hide Statement, Instruction, MoveOp, AluOp, JumpOp, Tok, Emits, ToBytes, FindSymbol, Assembly.Encode;
    EncodedAs(i);
    var src := Source(i, imm);
    TokenAt(ts, t, src);
    var c: Byte := Hpack(Assembly.Icode(i), Assembly.Ifun(i));
    assert src[0].Op? && src[1] == Reg(i.ra);
    Dispatch(a, ts, t, src[0].op, FindInstr(src[0].op).value);
    RegLine(a, ts, t + 1, c, i.ra);
  }

  lemma PlainEncodes(a: Asm, ts: seq<Token>, t: nat, i: Assembly.Instr, imm: seq<Token>)
    requires Writes(a, ts, t, i, imm) && (i.Halt? || i.Nop? || i.Ret?)
    ensures Encodes(a, ts, t, i)
  {
    hide Statement, Instruction, MoveOp, AluOp, JumpOp, Tok, Emits, ToBytes, FindSymbol, Assembly.Encode;
    EncodedAs(i);
    var src := Source(i, imm);
    TokenAt(ts, t, src);
    var c: Byte := Hpack(Assembly.Icode(i), Assembly.Ifun(i));
    assert src[0].Op?;
    Dispatch(a, ts, t, src[0].op, FindInstr(src[0].op).value);
    PlainLine(a, ts, t + 1, c);
  }

  lemma LongEncodes(a: Asm, ts: seq<Token>, t: nat, i: Assembly.Instr, imm: seq<Token>)
    requires Writes(a, ts, t, i, imm) && (i.Jmp? || i.Call? || i.IRmov? || i.Iadd?)
    ensures Encodes(a, ts, t, i)
  {
    hide Statement, Instruction, MoveOp, AluOp, JumpOp, Tok, Emits, ToBytes, FindSymbol, Assembly.Encode;
    EncodedAs(i);
    var src := Source(i, imm);
    TokenAt(ts, t, src);
    var c: Byte := Hpack(Assembly.Icode(i), Assembly.Ifun(i));
    assert src[0].Op? && src[1] == imm[0] && imm == [imm[0]];
    match i {
      case Jmp(fn, v) =>
        NamedRows(fn);
        Dispatch(a, ts, t, src[0].op, Jump(fn));
        ImmLine(a, ts, t + 1, c, v);
      case Call(v) =>
        Dispatch(a, ts, t, CallI, FindInstr(CallI).value);
        ImmLine(a, ts, t + 1, c, v);
      case IRmov(v, rb) =>
        assert src[2] == Punct(',') && src[3] == Reg(rb);
        Dispatch(a, ts, t, IrmovqI, FindInstr(IrmovqI).value);
        ImmRegLine(a, ts, t + 1, c, v, rb);
      case Iadd(v, rb) =>
        assert src[2] == Punct(',') && src[3] == Reg(rb);
        Dispatch(a, ts, t, IaddqI, FindInstr(IaddqI).value);
        ImmRegLine(a, ts, t + 1, c, v, rb);
    }
  }

  lemma StoreEncodes(a: Asm, ts: seq<Token>, t: nat, i: Assembly.Instr, imm: seq<Token>)
    requires Writes(a, ts, t, i, imm) && i.RMmov?
    ensures Encodes(a, ts, t, i)
  {
    hide Statement, Instruction, Tok, Emits, ToBytes, FindSymbol, Assembly.Encode;
    EncodedAs(i);
    var src, n := Source(i, imm), |imm|;
    TokenAt(ts, t, src);
    var c: Byte := Hpack(Isa.I_RMMOVQ, 0);
    assert src[0] == Op(RmmovqI) && src[1] == Reg(i.ra) && src[2] == Punct(',');
    assert n > 0 ==> src[3] == imm[0];
    assert i.rb != 15 ==> src[3 + n] == Punct('(') && src[4 + n] == Reg(i.rb) && src[5 + n] == Punct(')');
    Dispatch(a, ts, t, RmmovqI, FindInstr(RmmovqI).value);
    StoreLine(a, ts, t + 1, c, i.ra, imm, i.d, i.rb);
  }

  lemma LoadEncodes(a: Asm, ts: seq<Token>, t: nat, i: Assembly.Instr, imm: seq<Token>)
    requires Writes(a, ts, t, i, imm) && i.MRmov?
    ensures Encodes(a, ts, t, i)
  {
    hide Statement, Instruction, Tok, Emits, ToBytes, FindSymbol, Assembly.Encode;
    EncodedAs(i);
    var src, n := Source(i, imm), |imm|;
    TokenAt(ts, t, src);
    var c: Byte := Hpack(Isa.I_MRMOVQ, 0);
    assert src[0] == Op(MrmovqI) && (n > 0 ==> src[1] == imm[0]);
    assert i.rb != 15 ==> src[1 + n] == Punct('(') && src[2 + n] == Reg(i.rb) && src[3 + n] == Punct(')');
    var k := 1 + MemLength(imm, i.rb);
    assert src[k] == Punct(',') && src[k + 1] == Reg(i.ra);
    Dispatch(a, ts, t, MrmovqI, FindInstr(MrmovqI).value);
    LoadMemLine(a, ts, t + 1, c, imm, i.d, i.rb, i.ra);
  }

  lemma StatementEncodes(a: Asm, ts: seq<Token>, t: nat, i: Assembly.Instr, imm: seq<Token>)
    requires Writes(a, ts, t, i, imm)
    ensures Encodes(a, ts, t, i)
  {
    hide Encodes, Writes;
    if i.RMmov? {
      StoreEncodes(a, ts, t, i, imm);
    } else if i.MRmov? {
      LoadEncodes(a, ts, t, i, imm);
    } else if i.Jmp? || i.Call? || i.IRmov? || i.Iadd? {
      LongEncodes(a, ts, t, i, imm);
    } else if i.RRmov? || i.Alu? {
      TwoRegistersEncodes(a, ts, t, i, imm);
    } else if i.Push? || i.Pop? {
      OneRegisterEncodes(a, ts, t, i, imm);
    } else {
      PlainEncodes(a, ts, t, i, imm);
    }
  }

  function DataOp(bytes: nat): Mnemonic {
    if bytes == 1 then ByteD else if bytes == 2 then WordD else if bytes == 4 then LongD else QuadD
  }

  /** A data directive prints the low bytes of its constant or label, lowest first. */
  lemma DataEncodes(a: Asm, ts: seq<Token>, t: nat, bytes: nat, v: Word)
    requires |a.code| == 10 && bytes in {1, 2, 4, 8}
    requires Tok(ts, t) == Op(DataOp(bytes)) && Denotes([Tok(ts, t + 1)], a.symbols, v, false)
    ensures Emits(a, Statement(a, ts, t, true), ToBytes(v, bytes))
  {
    hide Tok, GetMem, GetReg, ToBytes, Statement;
    Dispatch(a, ts, t, DataOp(bytes), Data(bytes));
    var code := a.code[0 := 0][1 := Hpack(15, 15)];
    assert GetNum(Operands(code, t + 1, false), ts, a.symbols, 0, bytes).code == PutBytes(code, 0, v, bytes);
    assert PutBytes(code, 0, v, bytes)[..bytes] == ToBytes(v, bytes);
  }

  /** After `.align n` the address is the least multiple of `n` that is not below the old one. */
  lemma AlignMoves(a: Asm, ts: seq<Token>, t: nat, n: Word, second: bool)
    requires |a.code| == 10 && a.pos >= 0 && Tok(ts, t) == Op(AlignD) && Tok(ts, t + 1) == Num(n)
    requires 0 < n < 0x8000_0000
    ensures var pos := Statement(a, ts, t, second).asm.pos;
            && a.pos <= pos < a.pos + n && pos % n == 0
            && forall q {:trigger q * n} :: q * n >= a.pos ==> q * n >= pos
  {
    hide Statement, Tok;
    var k := (a.pos + n - 1) / n;
    AlignStatement(a, ts, t, n, second);
    Multiple(a.pos + n - 1, n, k);
    forall q | q * n >= a.pos
      ensures q * n >= k * n
    {
      if q < k { LessMultiple(q, k, n); }
    }
  }

  lemma AlignStatement(a: Asm, ts: seq<Token>, t: nat, n: Word, second: bool)
    requires |a.code| == 10 && a.pos >= 0 && Tok(ts, t) == Op(AlignD) && Tok(ts, t + 1) == Num(n)
    requires 0 < n < 0x8000_0000
    ensures Statement(a, ts, t, second).asm.pos == (a.pos + n - 1) / n * n
  {
    hide Tok, Instruction;
    assert Int32(n) == n;
  }

  lemma Multiple(x: nat, n: nat, k: nat)
    requires n > 0 && k == x / n
    ensures x - n < k * n <= x && k * n % n == 0
  {
    var r := x % n;
    assert x == n * k + r;
    ModUnique2(k * n, n, k, 0);
  }

  lemma {:induction false} LessMultiple(q: int, k: int, n: nat)
    requires q < k
    ensures q * n <= k * n - n
    decreases k - q
  {
    if q < k - 1 { LessMultiple(q, k - 1, n); }
    assert k * n == (k - 1) * n + n;
  }

  /** A line: an optional label, then an instruction. */
  function LineOf(mark: Option<string>, src: seq<Token>): seq<Token> {
    match mark
    case None => src
    case Some(name) => [Ident(name), Punct(':')] + src
  }

  /** The assembler round trip: whatever instruction is written, with its constant as a number or a label,
      the second pass encodes it, prints it, and the loader puts at its address exactly the bytes from which
      the simulators fetch that instruction with its operands. */
  lemma RoundTrip(a: Asm, mark: Option<string>, i: Assembly.Instr, imm: seq<Token>, text: string, m: Bytes)
    requires |a.code| == 10 && Valid(i) && Denotes(imm, a.symbols, Assembly.Imm(i), MemoryOperand(i))
    requires 0 <= a.pos <= 0xFFFF && a.pos + Assembly.Size(i) <= |m| <= Assembly.MAX_MEM
    ensures Assembly.Encodable(i)
    ensures var o := Finish(a, LineOf(mark, Source(i, imm)), true);
            && !o.failed && o.line == CodeAt(a.pos, Assembly.Encode(i)) && o.asm.pos == a.pos + Assembly.Size(i)
    ensures var loaded := LoadLine(m, CodeLine(a.pos, Assembly.Encode(i), text));
            && loaded.ok && Isa.Fetch(loaded.m, a.pos) == Some(Assembly.Decoded(i, a.pos))
  {
    hide Statement, Assembly.Encode, Assembly.Decoded, Isa.Fetch, ParseLine, CodeLine;
    var ts := LineOf(mark, Source(i, imm));
    var t := if mark.Some? then 2 else 0;
    assert ts[t..] == Source(i, imm);
    StatementEncodes(a, ts, t, i, imm);
    SourceStarts(i, imm);
    var bytes := Assembly.Encode(i);
    ParsePrinted(a.pos, bytes, text);
    var m' := Splice(m, a.pos, bytes);
    assert m'[a.pos..a.pos + |bytes|] == bytes;
    Assembly.FetchEncoded(m', a.pos, i);
  }

  lemma SourceStarts(i: Assembly.Instr, imm: seq<Token>)
    requires Valid(i)
    ensures Source(i, imm) != [] && Source(i, imm)[0].Op?
  {
  }

  // ---------------------------------------------------------------------------------------------
  // Two passes
  // ---------------------------------------------------------------------------------------------

  datatype SourceLine = SourceLine(tokens: seq<Token>, text: string)

  datatype Record = Record(printed: Printed, text: string)

  datatype Assembled = Assembled(asm: Asm, failed: bool, abort: bool, records: seq<Record>)

  function Pass(start: Asm, lines: seq<SourceLine>, second: bool): (r: Assembled)
    requires |start.code| == 10
    ensures |r.asm.code| == 10
  {
    if lines == [] then Assembled(start, false, false, [])
    else
      var before, last := Pass(start, lines[..|lines| - 1], second), lines[|lines| - 1];
      if before.abort then before
      else
        FinishKeeps(before.asm, last.tokens, second);
        var o := Finish(before.asm, last.tokens, second);
        Assembled(o.asm, before.failed || o.failed, o.abort,
                  before.records + (if o.line == Nothing then [] else [Record(o.line, last.text)]))
  }

  const START := Asm(0, [], [0, 0, 0, 0, 0, 0, 0, 0, 0, 0])

  function FirstPass(lines: seq<SourceLine>): Assembled { Pass(START, lines, false) }

  function SecondPass(lines: seq<SourceLine>): Assembled { SecondPassOf(FirstPass(lines).asm, lines) }

  function SecondPassOf(one: Asm, lines: seq<SourceLine>): Assembled
    requires |one.code| == 10
  {
    Pass(one.(pos := 0), lines, true)
  }

  /** A line moves the address on in the same way in both passes, errors or not. */
  lemma SamePosition(a: Asm, b: Asm, ts: seq<Token>)
    requires |a.code| == 10 && |b.code| == 10 && a.pos == b.pos
    ensures Finish(a, ts, false).asm.pos == Finish(b, ts, true).asm.pos && !Finish(a, ts, false).abort
  {
    hide FindInstr, GetArg, Int32, DivTrunc;
  }

  lemma {:induction false} SamePositions(a: Asm, b: Asm, lines: seq<SourceLine>)
    requires |a.code| == 10 && |b.code| == 10 && a.pos == b.pos && !Pass(b, lines, true).abort
    ensures Pass(a, lines, false).asm.pos == Pass(b, lines, true).asm.pos && !Pass(a, lines, false).abort
    ensures Pass(b, lines, true).asm.symbols == b.symbols
  {
    hide Finish;
    if lines != [] {
      var before, last := lines[..|lines| - 1], lines[|lines| - 1];
      SamePositions(a, b, before);
      SamePosition(Pass(a, before, false).asm, Pass(b, before, true).asm, last.tokens);
      FinishKeeps(Pass(b, before, true).asm, last.tokens, true);
    }
  }

  predicate Defines(ts: seq<Token>, name: string) {
    |ts| >= 2 && ts[0] == Ident(name) && ts[1] == Punct(':')
  }

  /** The first line that defines a label. */
  function FirstDefinition(lines: seq<SourceLine>, name: string): (r: Option<nat>)
    ensures r.Some? ==> r.value < |lines| && Defines(lines[r.value].tokens, name)
  {
    if lines == [] then None
    else
      var before := FirstDefinition(lines[..|lines| - 1], name);
      if before.Some? then before
      else if Defines(lines[|lines| - 1].tokens, name) then Some(|lines| - 1) else None
  }

  lemma {:induction false} FindSymbolSnoc(symbols: seq<Symbol>, x: Symbol, name: string)
    ensures FindSymbol(symbols + [x], name) == var r := FindSymbol(symbols, name);
      if r.Some? then r else if x.name == name then Some(x.pos) else None
  {
    if symbols == [] {
      assert ([] + [x])[1..] == [];
    } else {
      assert (symbols + [x])[1..] == symbols[1..] + [x];
      FindSymbolSnoc(symbols[1..], x, name);
    }
  }

  lemma LineSymbols(a: Asm, ts: seq<Token>, name: string)
    requires |a.code| == 10
    ensures FindSymbol(Finish(a, ts, false).asm.symbols, name) == var r := FindSymbol(a.symbols, name);
      if r.Some? then r else if Defines(ts, name) then Some(a.pos) else None
  {
    hide FindInstr, GetArg, Int32, DivTrunc, FindSymbol;
    if ts != [] && ts[0].Ident? { FindSymbolSnoc(a.symbols, Symbol(ts[0].name, a.pos), name); }
  }

  lemma {:induction false} FirstPassSymbols(start: Asm, lines: seq<SourceLine>, name: string)
    requires |start.code| == 10 && FindSymbol(start.symbols, name) == None
    ensures !Pass(start, lines, false).abort
    ensures FindSymbol(Pass(start, lines, false).asm.symbols, name) ==
      match FirstDefinition(lines, name)
      case None => None
      case Some(k) => Some(Pass(start, lines[..k], false).asm.pos)
  {
    hide Finish, FindSymbol;
    if lines != [] {
      var before, last := lines[..|lines| - 1], lines[|lines| - 1];
      FirstPassSymbols(start, before, name);
      var a := Pass(start, before, false).asm;
      LineSymbols(a, last.tokens, name);
      SamePosition(a, a, last.tokens);
      var r := FirstDefinition(before, name);
      if r.Some? { assert before[..r.value] == lines[..r.value]; }
    }
  }

  /** Pass 2 sees every label at its pass-1 address: looking a label up, throughout the second pass, gives
      the address that pass reaches at the first line defining the label, and fails for undefined labels. */
  lemma LabelsResolve(lines: seq<SourceLine>, name: string)
    requires !SecondPass(lines).abort
    ensures SecondPass(lines).asm.symbols == FirstPass(lines).asm.symbols
    ensures FindSymbol(FirstPass(lines).asm.symbols, name) ==
      match FirstDefinition(lines, name)
      case None => None
      case Some(k) => Some(SecondPassOf(FirstPass(lines).asm, lines[..k]).asm.pos)
  {
    hide Finish;
    var one := FirstPass(lines).asm;
    FirstPassSymbols(START, lines, name);
    SamePositions(START, one.(pos := 0), lines);
    match FirstDefinition(lines, name) {
      case None =>
      case Some(k) =>
        NoAbortBefore(one.(pos := 0), lines, k);
        SamePositions(START, one.(pos := 0), lines[..k]);
    }
  }

  lemma {:induction false} NoAbortBefore(a: Asm, lines: seq<SourceLine>, k: nat)
    requires |a.code| == 10 && k <= |lines| && !Pass(a, lines, true).abort
    ensures !Pass(a, lines[..k], true).abort
    decreases |lines|
  {
    hide Finish;
    if k < |lines| {
      NoAbortBefore(a, lines[..|lines| - 1], k);
      assert lines[..|lines| - 1][..k] == lines[..k];
    } else {
      assert lines[..k] == lines;
    }
  }

  lemma FirstPrintsNothing(a: Asm, ts: seq<Token>)
    requires |a.code| == 10
    ensures Finish(a, ts, false).line == Nothing && !Finish(a, ts, false).abort
  {
    hide FindInstr, GetArg, Int32, DivTrunc;
  }

  /** An aborted pass goes no further. */
  lemma {:induction false} PassStops(start: Asm, lines: seq<SourceLine>, k: nat)
    requires |start.code| == 10 && k <= |lines| && Pass(start, lines[..k], true).abort
    ensures Pass(start, lines, true) == Pass(start, lines[..k], true)
    decreases |lines|
  {
    hide Finish;
    if k < |lines| {
      assert lines[..|lines| - 1][..k] == lines[..k];
      PassStops(start, lines[..|lines| - 1], k);
    } else {
      assert lines[..k] == lines;
    }
  }

  // ---------------------------------------------------------------------------------------------
  // Loading the whole output
  // ---------------------------------------------------------------------------------------------

  predicate Printable(r: Record) {
    r.printed != Nothing && (r.printed.CodeAt? ==> |r.printed.bytes| <= 10)
  }

  function TextOf(r: Record): string
    requires Printable(r)
  {
    match r.printed
    case BlankAt(pos) => BlankLine(pos, r.text)
    case CodeAt(pos, bytes) => CodeLine(pos, bytes, r.text)
  }

  predicate AllPrintable(rs: seq<Record>) {
    forall k :: 0 <= k < |rs| ==> Printable(rs[k])
  }

  function Texts(rs: seq<Record>): seq<string>
    requires AllPrintable(rs)
  {
    seq(|rs|, k requires 0 <= k < |rs| => TextOf(rs[k]))
  }

  /** The address of a record is in the range that can be printed, and its code inside a memory of `size` bytes. */
  predicate Loadable(r: Record, size: nat) {
    Printable(r) && (r.printed.CodeAt? ==> 0 <= r.printed.pos <= 0xFFFF && r.printed.pos + |r.printed.bytes| <= size)
  }

  predicate AllLoadable(rs: seq<Record>, size: nat) {
    forall k :: 0 <= k < |rs| ==> Loadable(rs[k], size)
  }

  function BytesOf(r: Record): nat { if r.printed.CodeAt? then |r.printed.bytes| else 0 }

  /** Memory with the code of each record in turn, and the number of bytes. */
  function Image(m: Bytes, rs: seq<Record>): (x: (Bytes, nat))
    requires AllLoadable(rs, |m|)
    ensures |x.0| == |m|
  {
    if rs == [] then (m, 0)
    else
      var last := rs[|rs| - 1];
      assert Loadable(last, |m|);
      var (m1, n) := Image(m, rs[..|rs| - 1]);
      (if last.printed.CodeAt? then Splice(m1, last.printed.pos, last.printed.bytes) else m1, n + BytesOf(last))
  }

  lemma RecordLoads(m: Bytes, r: Record)
    requires Loadable(r, |m|)
    ensures LoadLine(m, TextOf(r)) == Loaded(
      if r.printed.CodeAt? then Splice(m, r.printed.pos, r.printed.bytes) else m, BytesOf(r), true)
  {
    hide ParseLine, CodeLine, BlankLine;
    match r.printed {
      case BlankAt(pos) => BlankSkipped(pos, r.text);
      case CodeAt(pos, bytes) =>
        ParsePrinted(pos, bytes, r.text);
        if bytes == [] { assert Splice(m, pos, bytes) == m; }
    }
  }

  /** Loading the printed output of an assembly gives memory with every line's code at its address. */
  lemma {:induction false} OutputLoads(m: Bytes, rs: seq<Record>)
    requires AllLoadable(rs, |m|)
    ensures AllPrintable(rs)
    ensures LoadLines(m, Texts(rs)) == Loaded(Image(m, rs).0, Image(m, rs).1, true)
  {
    hide LoadLine, TextOf, Splice;
    assert forall k :: 0 <= k < |rs| ==> Loadable(rs[k], |m|) && Printable(rs[k]);
    if rs != [] {
      var before, last := rs[..|rs| - 1], rs[|rs| - 1];
      OutputLoads(m, before);
      assert Texts(rs)[..|rs| - 1] == Texts(before);
      RecordLoads(Image(m, before).0, last);
    }
  }

  /** What the second pass prints fits its columns. */
  lemma {:induction false} SecondPassPrintable(start: Asm, lines: seq<SourceLine>)
    requires |start.code| == 10
    ensures AllPrintable(Pass(start, lines, true).records)
  {
    hide Finish;
    if lines != [] {
      SecondPassPrintable(start, lines[..|lines| - 1]);
      LinePrintable(Pass(start, lines[..|lines| - 1], true).asm, lines[|lines| - 1].tokens);
    }
  }

  /** A printed line has at most ten bytes and an address in range, and an abort is an error. */
  lemma LinePrintable(a: Asm, ts: seq<Token>)
    requires |a.code| == 10
    ensures var line := Finish(a, ts, true).line; line.CodeAt? ==> |line.bytes| <= 10 && line.pos <= 0xFFFF
    ensures Finish(a, ts, true).abort ==> Finish(a, ts, true).failed
  {
    hide FindInstr, BothArgs, Int32, DivTrunc;
    var t := if ts != [] && ts[0].Ident? then 2 else 0;
    if Tok(ts, t).Op? { RowsFit(Tok(ts, t).op); }
  }

  predicate Apart(r: Record, q: Record) {
    r.printed.CodeAt? && q.printed.CodeAt? ==>
      r.printed.pos + |r.printed.bytes| <= q.printed.pos || q.printed.pos + |q.printed.bytes| <= r.printed.pos
  }

  /** Code that no later line overlaps is in the loaded memory, and the simulators fetch it from there. */
  lemma {:induction false} LoadedInstruction(m: Bytes, rs: seq<Record>, k: nat, i: Assembly.Instr)
    requires AllLoadable(rs, |m|) && k < |rs| && |m| <= Assembly.MAX_MEM && Assembly.Encodable(i)
    requires rs[k].printed.CodeAt? && rs[k].printed.bytes == Assembly.Encode(i)
    requires forall j :: k < j < |rs| ==> Apart(rs[k], rs[j])
    ensures AllPrintable(rs) && Assembly.At(LoadLines(m, Texts(rs)).m, rs[k].printed.pos, i)
    ensures Isa.Fetch(LoadLines(m, Texts(rs)).m, rs[k].printed.pos) == Some(Assembly.Decoded(i, rs[k].printed.pos))
  {
    hide Isa.Fetch, Assembly.Encode, Assembly.Decoded, Texts, LoadLines;
    OutputLoads(m, rs);
    ImageKeeps(m, rs, k);
    assert Loadable(rs[k], |m|);
    Assembly.FetchEncoded(Image(m, rs).0, rs[k].printed.pos, i);
  }

  lemma {:induction false} ImageKeeps(m: Bytes, rs: seq<Record>, k: nat)
    requires AllLoadable(rs, |m|) && k < |rs| && rs[k].printed.CodeAt?
    requires forall j :: k < j < |rs| ==> Apart(rs[k], rs[j])
    ensures var p := rs[k].printed;
            && 0 <= p.pos && p.pos + |p.bytes| <= |m|
            && Image(m, rs).0[p.pos..p.pos + |p.bytes|] == p.bytes
  {
    var p, last := rs[k].printed, rs[|rs| - 1];
    assert Loadable(rs[k], |m|) && Loadable(last, |m|);
    if k < |rs| - 1 {
      ImageKeeps(m, rs[..|rs| - 1], k);
      assert Apart(rs[k], last);
    }
  }
}
