/** MethodCompiler::GenerateCode for integer constants, stack shuffling and arithmetic. */
module Jitter {
  import opened Words
  import opened Arm
  import opened LongImmediate

  datatype DataType = I4 | I8

  datatype BinaryOp = And | Or | Xor | Add | Sub

  datatype Op = LdcI4(w: Word) | LdcI8(v: Long) | Dup | Pop | Binary(op: BinaryOp) | Not | Neg

  /** CLR_RT_HEAPBLOCK_RAW_ID( dataType, 0, 1 ) */
  function RawId(dt: DataType): (w: Word)
  {
    0x1_0000 + match dt case I4 => 7 case I8 => 10
  }

  /** Byte offset of slot k of the evaluation stack, and of its numeric field. */
  function SlotAt(k: int): (at: int) { 12 * k }
  function NumericAt(k: int): (at: int) { 12 * k + 4 }

  function Pops(op: Op): (n: nat)
  {
    match op
    case LdcI4(_) => 0
    case LdcI8(_) => 0
    case Binary(_) => 2
    case _ => 1
  }

  /** The static types after an opcode: a binary result has the type of the second operand. */
  function TypesAfter(op: Op, ts: seq<DataType>): (ts': seq<DataType>)
    requires Pops(op) <= |ts|
  {
    var d := |ts|;
    match op
    case LdcI4(_) => ts + [I4]
    case LdcI8(_) => ts + [I8]
    case Dup => ts + [ts[d - 1]]
    case Pop => ts[..d - 1]
    case Binary(_) => ts[..d - 2] + [ts[d - 1]]
    case _ => ts
  }

  /** The slot of operand idx on the evaluation stack. */
  function OperandSlot(op: Op, depth: int, idx: int): (k: int)
  {
    depth - Pops(op) + idx
  }

  function LoadMultiple(offset: int, list: seq<Reg>, tmp: Reg): (code: seq<Instr>)
  {
    if offset == 4 then [Ldm(R6, true, list)]
    else if offset == 0 then [Ldm(R6, false, list)]
    else [AddOffset(tmp, R6, offset), Ldm(tmp, false, list)]
  }

  function StoreMultiple(offset: int, list: seq<Reg>, tmp: Reg): (code: seq<Instr>)
  {
    if offset == 4 then [Stm(R6, true, list)]
    else if offset == 0 then [Stm(R6, false, list)]
    else [AddOffset(tmp, R6, offset), Stm(tmp, false, list)]
  }

  /** The ARM operation for one word, or for the low word of two. */
  function LowOp(op: BinaryOp): (a: AluOp)
  {
    match op case And => AND case Or => ORR case Xor => EOR case Add => ADD case Sub => SUB
  }

  function HighOp(op: BinaryOp): (a: AluOp)
  {
    match op case And => AND case Or => ORR case Xor => EOR case Add => ADC case Sub => SBC
  }

  function BinaryCode(op: BinaryOp, dt: DataType, op1: int, op2: int): (code: seq<Instr>)
  {
    match dt
    case I4 => [Ldr(R0, R6, op1), Ldr(R1, R6, op2), Alu(LowOp(op), false, R0, R0, R1), Str(R0, R6, op1)]
    case I8 =>
      LoadMultiple(op1, [R0, R1], R12) + LoadMultiple(op2, [R2, R3], R2)
      + [Alu(LowOp(op), op.Add? || op.Sub?, R0, R0, R2), Alu(HighOp(op), false, R1, R1, R3)]
      + StoreMultiple(op1, [R0, R1], R12)
  }

  function UnaryCode(not: bool, dt: DataType, op1: int): (code: seq<Instr>)
  {
    match dt
    case I4 =>
      [Ldr(R0, R6, op1),
       if not then Alu(MVN, false, R0, R0, R0) else AluImm(RSB, false, R0, R0, 0),
       Str(R0, R6, op1)]
    case I8 =>
      LoadMultiple(op1, [R0, R1], R12)
      + (if not then [Alu(MVN, false, R0, R0, R0), Alu(MVN, false, R1, R1, R1)]
         else [AluImm(RSB, true, R0, R0, 0), AluImm(RSC, false, R1, R1, 0)])
      + StoreMultiple(op1, [R0, R1], R12)
  }

  /** What is emitted for one opcode, given the static types on the stack. */
  function Compile(op: Op, ts: seq<DataType>): (code: seq<Instr>)
    requires Pops(op) <= |ts|
  {
    var d := |ts|;
    match op
    case LdcI4(w) =>
      Constant(R0, RawId(I4)) + Constant(R1, w) + StoreMultiple(SlotAt(OperandSlot(op, d, 0)), [R0, R1], R3)
    case LdcI8(v) =>
      Constant(R0, RawId(I8)) + Constant(R1, LowWord(v)) + Constant(R2, HighWord(v))
      + StoreMultiple(SlotAt(OperandSlot(op, d, 0)), [R0, R1, R2], R3)
    case Dup =>
      LoadMultiple(SlotAt(OperandSlot(op, d, 0)), [R0, R1, R2], R3)
      + StoreMultiple(SlotAt(OperandSlot(op, d, 1)), [R0, R1, R2], R3)
    case Pop => []
    case Binary(b) => BinaryCode(b, ts[d - 2], NumericAt(OperandSlot(op, d, 0)), NumericAt(OperandSlot(op, d, 1)))
    case Not => UnaryCode(true, ts[d - 1], NumericAt(OperandSlot(op, d, 0)))
    case Neg => UnaryCode(false, ts[d - 1], NumericAt(OperandSlot(op, d, 0)))
  }

  /** A program the verifier of the IL accepts: enough operands, operands of a binary opcode of one
      type, and never more than `max` values on the stack. */
  predicate WellTyped(op: Op, ts: seq<DataType>, max: nat)
  {
    && Pops(op) <= |ts| <= max
    && (op.Binary? ==> ts[|ts| - 2] == ts[|ts| - 1])
    && |TypesAfter(op, ts)| <= max
  }

  predicate ProgramOk(prog: seq<Op>, ts: seq<DataType>, max: nat)
    decreases |prog|
  {
    prog == [] || (WellTyped(prog[0], ts, max) && ProgramOk(prog[1..], TypesAfter(prog[0], ts), max))
  }

  function CompileAll(prog: seq<Op>, ts: seq<DataType>, max: nat): (code: seq<Instr>)
    requires ProgramOk(prog, ts, max)
    decreases |prog|
  {
    if prog == [] then [] else Compile(prog[0], ts) + CompileAll(prog[1..], TypesAfter(prog[0], ts), max)
  }

  function TypesAfterAll(prog: seq<Op>, ts: seq<DataType>, max: nat): (ts': seq<DataType>)
    requires ProgramOk(prog, ts, max)
    decreases |prog|
  {
    if prog == [] then ts else TypesAfterAll(prog[1..], TypesAfter(prog[0], ts), max)
  }
}
