/** The part of an ARM processor that compiled integer code uses. */
module Arm {
  import opened Wrappers
  import opened Words

  datatype Reg = R0 | R1 | R2 | R3 | R6 | R12

  /** A register holds a number, or an address: a byte offset from the bottom of the evaluation stack. */
  datatype Value = Num(w: Word) | Addr(at: int)

  datatype Regs = Regs(r0: Value, r1: Value, r2: Value, r3: Value, r6: Value, r12: Value)
  {
    function Get(r: Reg): (v: Value)
    {
      match r case R0 => r0 case R1 => r1 case R2 => r2 case R3 => r3 case R6 => r6 case R12 => r12
    }

    function Set(r: Reg, v: Value): (rs: Regs)
      ensures rs.Get(r) == v && forall q :: q != r ==> rs.Get(q) == Get(q)
    {
      match r
      case R0 => this.(r0 := v)
      case R1 => this.(r1 := v)
      case R2 => this.(r2 := v)
      case R3 => this.(r3 := v)
      case R6 => this.(r6 := v)
      case R12 => this.(r12 := v)
    }
  }

  /** Registers, carry flag, and the words of the evaluation stack. */
  datatype Machine = Machine(regs: Regs, carry: bool, mem: seq<Word>)

  datatype AluOp = AND | ORR | EOR | ADD | ADC | SUB | SBC | RSB | RSC | MOV | MVN

  datatype Instr =
    | Alu(op: AluOp, setCC: bool, rd: Reg, rn: Reg, rm: Reg)
    | AluImm(op: AluOp, setCC: bool, rd: Reg, rn: Reg, imm: Word)
    | AddOffset(rd: Reg, rn: Reg, offset: int)
    | Ldr(rd: Reg, rn: Reg, offset: int)
    | Str(rd: Reg, rn: Reg, offset: int)
    | Ldm(rn: Reg, before: bool, list: seq<Reg>)
    | Stm(rn: Reg, before: bool, list: seq<Reg>)

  function Result(op: AluOp, x: Word, y: Word, carry: bool): (r: Word)
  {
    match op
    case AND => BitsWord(BitAnd, x, y)
    case ORR => BitsWord(BitOr, x, y)
    case EOR => BitsWord(BitXor, x, y)
    case ADD => Sum(x, y, false)
    case ADC => Sum(x, y, carry)
    case SUB => Sum(x, NotWord(y), true)
    case SBC => Sum(x, NotWord(y), carry)
    case RSB => Sum(NotWord(x), y, true)
    case RSC => Sum(NotWord(x), y, carry)
    case MOV => y
    case MVN => NotWord(y)
  }

  function NewCarry(op: AluOp, x: Word, y: Word, carry: bool): (c: bool)
  {
    match op
    case ADD => CarryOut(x, y, false)
    case ADC => CarryOut(x, y, carry)
    case SUB => CarryOut(x, NotWord(y), true)
    case SBC => CarryOut(x, NotWord(y), carry)
    case RSB => CarryOut(NotWord(x), y, true)
    case RSC => CarryOut(NotWord(x), y, carry)
    case _ => carry
  }

  predicate Mapped(mem: seq<Word>, at: int)
  {
    0 <= at < 4 * |mem| && at % 4 == 0
  }

  /** Registers of the list take consecutive words. */
  function LoadList(regs: Regs, mem: seq<Word>, at: int, list: seq<Reg>): (r: Option<Regs>)
    decreases |list|
  {
    if list == [] then Some(regs)
    else if Mapped(mem, at) then LoadList(regs.Set(list[0], Num(mem[at / 4])), mem, at + 4, list[1..])
    else None
  }

  function StoreList(regs: Regs, mem: seq<Word>, at: int, list: seq<Reg>): (r: Option<seq<Word>>)
    decreases |list|
  {
    if list == [] then Some(mem)
    else if Mapped(mem, at) && regs.Get(list[0]).Num?
        then StoreList(regs, mem[at / 4 := regs.Get(list[0]).w], at + 4, list[1..])
    else None
  }

  function AluStep(s: Machine, op: AluOp, setCC: bool, rd: Reg, x: Value, y: Value): (r: Option<Machine>)
  {
    if x.Num? && y.Num? then
      Some(s.(regs := s.regs.Set(rd, Num(Result(op, x.w, y.w, s.carry))),
              carry := if setCC then NewCarry(op, x.w, y.w, s.carry) else s.carry))
    else None
  }

  /** One instruction; None where the access would leave the evaluation stack. */
  function Exec(i: Instr, s: Machine): (r: Option<Machine>)
  {
    match i
    case Alu(op, setCC, rd, rn, rm) =>
        AluStep(s, op, setCC, rd, if op.MVN? then Num(0) else s.regs.Get(rn), s.regs.Get(rm))
    case AluImm(op, setCC, rd, rn, imm) =>
        AluStep(s, op, setCC, rd, if op.MOV? then Num(0) else s.regs.Get(rn), Num(imm))
    case AddOffset(rd, rn, offset) =>
      var v := s.regs.Get(rn);
      if v.Addr? then Some(s.(regs := s.regs.Set(rd, Addr(v.at + offset)))) else None
    case Ldr(rd, rn, offset) =>
      var v := s.regs.Get(rn);
      if v.Addr? && Mapped(s.mem, v.at + offset)
        then Some(s.(regs := s.regs.Set(rd, Num(s.mem[(v.at + offset) / 4]))))
        else None
    case Str(rd, rn, offset) =>
      var v := s.regs.Get(rn);
      if v.Addr? && Mapped(s.mem, v.at + offset) && s.regs.Get(rd).Num? then
        Some(s.(mem := s.mem[(v.at + offset) / 4 := s.regs.Get(rd).w]))
      else None
    case Ldm(rn, before, list) =>
      var v := s.regs.Get(rn);
      if !v.Addr? then None
      else
        var r := LoadList(s.regs, s.mem, v.at + (if before then 4 else 0), list);
        if r.Some? then Some(s.(regs := r.value)) else None
    case Stm(rn, before, list) =>
      var v := s.regs.Get(rn);
      if !v.Addr? then None
      else
        var r := StoreList(s.regs, s.mem, v.at + (if before then 4 else 0), list);
        if r.Some? then Some(s.(mem := r.value)) else None
  }

  /** Straight-line execution. */
  function Run(code: seq<Instr>, s: Machine): (r: Option<Machine>)
  {
    if code == [] then Some(s)
    else
      var r := Exec(code[0], s);
      if r.Some? then Run(code[1..], r.value) else None
  }

  lemma {:induction false} RunAppend(a: seq<Instr>, b: seq<Instr>, s: Machine)
    ensures Run(a + b, s) == var r := Run(a, s); if r.Some? then Run(b, r.value) else None
    decreases |a|
  {
    if a == [] {
      assert a + b == b;
    } else {
      assert (a + b)[1..] == a[1..] + b && (a + b)[0] == a[0];
      var r := Exec(a[0], s);
      if r.Some? { RunAppend(a[1..], b, r.value); }
    }
  }

  lemma RunOne(i: Instr, s: Machine)
    ensures Run([i], s) == Exec(i, s)
  {
    assert [i][1..] == [];
    var r := Exec(i, s);
    if r.Some? { assert Run([], r.value) == r; }
  }
}
