/** Compiled code and the interpreter leave the same typed evaluation stack. */
module JitSimulation {
  import opened Wrappers
  import opened Words
  import opened Arm
  import opened LongImmediate
  import opened Jitter
  import opened Interpreter

  /** Slot i of the interpreter and words 3i.. of the machine agree, as far as type t can see. */
  ghost predicate SlotAgrees(t: DataType, s: Slot, mem: seq<Word>, i: int)
  {
    && 0 <= i && 3 * i + 2 < |mem|
    && s.id == RawId(t) == mem[3 * i] && s.lo == mem[3 * i + 1] && (t == I8 ==> s.hi == mem[3 * i + 2])
  }

  ghost predicate Agree(ts: seq<DataType>, f: Frame, mem: seq<Word>)
  {
    && |mem| == 3 * |f.slots| && |ts| == f.depth <= |f.slots|
    && forall i :: 0 <= i < |ts| ==> SlotAgrees(ts[i], f.slots[i], mem, i)
  }

  ghost predicate Base(s: Machine) { s.regs.r6 == Addr(0) }

  // ---- Loading and storing several registers ----

  /** Registers that a code fragment leaves alone. */
  ghost predicate Others(s: Machine, s': Machine, changed: set<Reg>)
  {
    forall r :: r !in changed ==> s'.regs.Get(r) == s.regs.Get(r)
  }

  lemma Load2(offset: int, a: Reg, b: Reg, tmp: Reg, s: Machine) returns (s': Machine)
    requires Base(s) && a != b && tmp != R6 && a != R6 && b != R6
    requires 0 <= offset && offset % 4 == 0 && offset / 4 + 1 < |s.mem|
    ensures Run(LoadMultiple(offset, [a, b], tmp), s) == Some(s') && s'.mem == s.mem && s'.carry == s.carry && Base(s')
    ensures s'.regs.Get(a) == Num(s.mem[offset / 4]) && s'.regs.Get(b) == Num(s.mem[offset / 4 + 1])
    ensures Others(s, s', {a, b, tmp})
  {
    hide LoadList, Run, LoadMultiple;
    var regs := if offset == 4 || offset == 0 then s.regs else s.regs.Set(tmp, Addr(offset));
    var k := offset / 4;
    var regs' := regs.Set(a, Num(s.mem[k])).Set(b, Num(s.mem[k + 1]));
    ListTwo(regs, s.mem, offset, a, b);
    s' := s.(regs := regs');
    RunLoad(offset, [a, b], tmp, s, regs');
  }

  lemma ListTwo(regs: Regs, mem: seq<Word>, offset: int, a: Reg, b: Reg)
    requires 0 <= offset && offset % 4 == 0 && offset / 4 + 1 < |mem|
    ensures LoadList(regs, mem, offset, [a, b])
          == Some(regs.Set(a, Num(mem[offset / 4])).Set(b, Num(mem[offset / 4 + 1])))
  {
    var list := [a, b];
    assert list[1..] == [b] && [b][1..] == [];
    var regs1 := regs.Set(a, Num(mem[offset / 4]));
    assert Mapped(mem, offset) && Mapped(mem, offset + 4);
    assert LoadList(regs1, mem, offset + 4, [b])
        == LoadList(regs1.Set(b, Num(mem[offset / 4 + 1])), mem, offset + 8, []);
  }

  /** The three forms of a multiple load do the same. */
  lemma RunLoad(offset: int, list: seq<Reg>, tmp: Reg, s: Machine, regs': Regs)
    requires Base(s) && tmp != R6
    requires LoadList(if offset == 4 || offset == 0 then s.regs else s.regs.Set(tmp, Addr(offset)), s.mem, offset, list)
           == Some(regs')
    ensures Run(LoadMultiple(offset, list, tmp), s) == Some(s.(regs := regs'))
  {
    if offset == 4 {
      RunOne(Ldm(R6, true, list), s);
    } else if offset == 0 {
      RunOne(Ldm(R6, false, list), s);
    } else {
      var s1 := s.(regs := s.regs.Set(tmp, Addr(offset)));
      RunOne(AddOffset(tmp, R6, offset), s);
      RunOne(Ldm(tmp, false, list), s1);
      RunAppend([AddOffset(tmp, R6, offset)], [Ldm(tmp, false, list)], s);
    }
  }

  lemma RunStore(offset: int, list: seq<Reg>, tmp: Reg, s: Machine, mem': seq<Word>) returns (s': Machine)
    requires Base(s) && tmp != R6
    requires StoreList(if offset == 4 || offset == 0 then s.regs else s.regs.Set(tmp, Addr(offset)),
        s.mem, offset, list)
           == Some(mem')
    ensures Run(StoreMultiple(offset, list, tmp), s) == Some(s') && s'.mem == mem' && Base(s')
  {
    if offset == 4 {
      RunOne(Stm(R6, true, list), s);
      s' := s.(mem := mem');
    } else if offset == 0 {
      RunOne(Stm(R6, false, list), s);
      s' := s.(mem := mem');
    } else {
      var s1 := s.(regs := s.regs.Set(tmp, Addr(offset)));
      RunOne(AddOffset(tmp, R6, offset), s);
      RunOne(Stm(tmp, false, list), s1);
      RunAppend([AddOffset(tmp, R6, offset)], [Stm(tmp, false, list)], s);
      s' := s1.(mem := mem');
    }
  }

  lemma Store2(offset: int, a: Reg, b: Reg, tmp: Reg, s: Machine, x: Word, y: Word) returns (s': Machine)
    requires Base(s) && tmp != R6 && tmp != a && tmp != b && s.regs.Get(a) == Num(x) && s.regs.Get(b) == Num(y)
    requires 0 <= offset && offset % 4 == 0 && offset / 4 + 1 < |s.mem|
    ensures Run(StoreMultiple(offset, [a, b], tmp), s) == Some(s') && Base(s')
    ensures s'.mem == s.mem[offset / 4 := x][offset / 4 + 1 := y]
  {
    var regs := if offset == 4 || offset == 0 then s.regs else s.regs.Set(tmp, Addr(offset));
    var k, list := offset / 4, [a, b];
    assert list[1..] == [b] && [b][1..] == [];
    var mem1 := s.mem[k := x];
    var mem2 := mem1[k + 1 := y];
    assert StoreList(regs, mem2, offset + 8, []) == Some(mem2);
    assert StoreList(regs, mem1, offset + 4, [b]) == Some(mem2);
    s' := RunStore(offset, list, tmp, s, mem2);
  }

  lemma Store3(offset: int, s: Machine, x: Word, y: Word, z: Word) returns (s': Machine)
    requires Base(s) && s.regs.r0 == Num(x) && s.regs.r1 == Num(y) && s.regs.r2 == Num(z)
    requires 0 <= offset && offset % 4 == 0 && offset / 4 + 2 < |s.mem|
    ensures Run(StoreMultiple(offset, [R0, R1, R2], R3), s) == Some(s') && Base(s')
    ensures s'.mem == s.mem[offset / 4 := x][offset / 4 + 1 := y][offset / 4 + 2 := z]
  {
    var regs := if offset == 4 || offset == 0 then s.regs else s.regs.Set(R3, Addr(offset));
    var k, list := offset / 4, [R0, R1, R2];
    assert list[1..] == [R1, R2] && [R1, R2][1..] == [R2] && [R2][1..] == [];
    var mem1 := s.mem[k := x];
    var mem2 := mem1[k + 1 := y];
    var mem3 := mem2[k + 2 := z];
    assert StoreList(regs, mem3, offset + 12, []) == Some(mem3);
    assert StoreList(regs, mem2, offset + 8, [R2]) == Some(mem3);
    assert StoreList(regs, mem1, offset + 4, [R1, R2]) == Some(mem3);
    s' := RunStore(offset, list, R3, s, mem3);
  }

  lemma Load3(offset: int, s: Machine) returns (s': Machine)
    requires Base(s) && 0 <= offset && offset % 4 == 0 && offset / 4 + 2 < |s.mem|
    ensures Run(LoadMultiple(offset, [R0, R1, R2], R3), s) == Some(s') && s'.mem == s.mem && Base(s')
    ensures s'.regs.r0 == Num(s.mem[offset / 4]) && s'.regs.r1 == Num(s.mem[offset / 4 + 1])
    ensures s'.regs.r2 == Num(s.mem[offset / 4 + 2])
  {
    var regs := if offset == 4 || offset == 0 then s.regs else s.regs.Set(R3, Addr(offset));
    hide Run, LoadMultiple;
    var k, list := offset / 4, [R0, R1, R2];
    assert list[1..] == [R1, R2];
    var regs1 := regs.Set(R0, Num(s.mem[k]));
    ListTwo(regs1, s.mem, offset + 4, R1, R2);
    var regs' := regs1.Set(R1, Num(s.mem[k + 1])).Set(R2, Num(s.mem[k + 2]));
    assert LoadList(regs, s.mem, offset, list) == Some(regs');
    s' := s.(regs := regs');
    RunLoad(offset, list, R3, s, regs');
  }

  /** Two fragments one after the other. */
  lemma Then(a: seq<Instr>, b: seq<Instr>, s: Machine, s1: Machine, s2: Machine)
    requires Run(a, s) == Some(s1) && Run(b, s1) == Some(s2)
    ensures Run(a + b, s) == Some(s2)
  {
    RunAppend(a, b, s);
  }

  // ---- Arithmetic ----

  /** The 64-bit meaning of a binary opcode. */
  function LongOp(op: BinaryOp, x: Long, y: Long): (r: Long)
  {
    match op
    case And => BitsLong(BitAnd, x, y)
    case Or => BitsLong(BitOr, x, y)
    case Xor => BitsLong(BitXor, x, y)
    case Add => AddLong(x, y)
    case Sub => SubLong(x, y)
  }

  /** Two ARM operations, chained by the carry where there is one, make the 64-bit operation. */
  lemma PairOperation(op: BinaryOp, x0: Word, x1: Word, y0: Word, y1: Word, carry: bool)
    ensures var low := LowOp(op);
      var mid := if op.Add? || op.Sub? then NewCarry(low, x0, y0, carry) else carry;
      Wide(Result(low, x0, y0, carry), Result(HighOp(op), x1, y1, mid)) == LongOp(op, Wide(x0, x1), Wide(y0, y1))
  {
    hide BitsWord, BitsLong, Wide, Sum, CarryOut, NotWord;
    match op {
      case And => BitsWide(BitAnd, x0, x1, y0, y1);
      case Or => BitsWide(BitOr, x0, x1, y0, y1);
      case Xor => BitsWide(BitXor, x0, x1, y0, y1);
      case Add => SumWide(x0, x1, y0, y1);
      case Sub => DifferenceWide(x0, x1, y0, y1);
    }
  }

  lemma PairNegation(x0: Word, x1: Word)
    ensures Wide(Result(RSB, x0, 0, false), Result(RSC, x1, 0, NewCarry(RSB, x0, 0, false))) == SubLong(0, Wide(x0, x1))
    ensures Wide(NotWord(x0), NotWord(x1)) == NotLong(Wide(x0, x1))
  {
    hide BitsWord;
    assert Wide(0, 0) == 0;
  }

  /** The interpreter, for each type. */
  lemma InterpretBinary(op: BinaryOp, left: Slot, right: Slot, carry: bool)
    requires left.id == RawId(I4) || left.id == RawId(I8)
    ensures var r := BinaryStep(op, left, right);
      && r.Some? && r.value.id == left.id
      && (left.id == RawId(I4) ==> r.value.lo == Result(LowOp(op), left.lo, right.lo, carry))
      && (left.id == RawId(I8) ==> r.value == SetU8(left, LongOp(op, U8(left), U8(right))))
  {
    hide BitsWord, BitsLong, Wide, LowWord, HighWord;
    match op {
      case And => BitsWide(BitAnd, left.lo, left.hi, right.lo, right.hi);
      case Or => BitsWide(BitOr, left.lo, left.hi, right.lo, right.hi);
      case Xor => BitsWide(BitXor, left.lo, left.hi, right.lo, right.hi);
      case _ =>
    }
    if op.And? || op.Or? || op.Xor? {
      var f := if op.And? then BitAnd else if op.Or? then BitOr else BitXor;
      WideHalves(BitsWord(f, left.lo, right.lo), BitsWord(f, left.hi, right.hi));
    }
  }

  lemma InterpretUnary(s: Slot)
    requires s.id == RawId(I4) || s.id == RawId(I8)
    ensures var r := NumericNeg(s);
      && r.Some? && r.value.id == s.id
      && (s.id == RawId(I4) ==> r.value.lo == Result(RSB, s.lo, 0, false))
      && (s.id == RawId(I8) ==> r.value == SetU8(s, SubLong(0, U8(s))))
    ensures SetU8(s, NotLong(U8(s))) == s.(lo := NotWord(s.lo), hi := NotWord(s.hi))
  {
    hide BitsWord;
    PairNegation(s.lo, s.hi);
    WideHalves(NotWord(s.lo), NotWord(s.hi));
  }

  // ---- The stack after one opcode ----

  /** Slot k was rewritten and is the top of the stack now. */
  lemma AgreeTop(ts: seq<DataType>, f: Frame, mem: seq<Word>, mem': seq<Word>, k: nat, t: DataType, slot: Slot)
    requires Agree(ts, f, mem) && k <= |ts| && k < |f.slots| && |mem'| == |mem|
    requires forall j :: 0 <= j < |mem| && !(3 * k <= j <= 3 * k + 2) ==> mem'[j] == mem[j]
    requires SlotAgrees(t, slot, mem', k)
    ensures Agree(ts[..k] + [t], Frame(f.slots[k := slot], k + 1), mem')
  {
    var ts', slots' := ts[..k] + [t], f.slots[k := slot];
    forall i | 0 <= i < k + 1 ensures SlotAgrees(ts'[i], slots'[i], mem', i) {
      if i < k { assert SlotAgrees(ts[i], f.slots[i], mem, i); }
    }
  }

  /** The two halves of a 64-bit slot. */
  lemma SlotHalves(s: Slot, v: Long, lo: Word, hi: Word)
    requires v == Wide(lo, hi)
    ensures SetU8(s, v) == s.(lo := lo, hi := hi)
  {
    WideHalves(lo, hi);
  }

  lemma BinaryI4Runs(op: BinaryOp, i: nat, s: Machine, x: Slot, y: Slot) returns (s': Machine)
    requires Base(s) && SlotAgrees(I4, x, s.mem, i) && SlotAgrees(I4, y, s.mem, i + 1)
    ensures Run(BinaryCode(op, I4, NumericAt(i), NumericAt(i + 1)), s) == Some(s') && Base(s')
    ensures s'.mem == s.mem[3 * i + 1 := Result(LowOp(op), x.lo, y.lo, s.carry)]
  {
    hide Run, Result, LowOp;
    var op1, op2 := NumericAt(i), NumericAt(i + 1);
    OffsetWords(i);
    OffsetWords(i + 1);
    var s1 := s.(regs := s.regs.Set(R0, Num(x.lo)));
    var s2 := s1.(regs := s1.regs.Set(R1, Num(y.lo)));
    var z := Result(LowOp(op), x.lo, y.lo, s.carry);
    var s3 := s2.(regs := s2.regs.Set(R0, Num(z)));
    s' := s3.(mem := s.mem[3 * i + 1 := z]);
    assert Exec(Alu(LowOp(op), false, R0, R0, R1), s2) == Some(s3) by { OneWordOp(op, s2, x.lo, y.lo); }
    RunFour(Ldr(R0, R6, op1), Ldr(R1, R6, op2), Alu(LowOp(op), false, R0, R0, R1), Str(R0, R6, op1), s, s1, s2, s3, s');
  }

  lemma OneWordOp(op: BinaryOp, s: Machine, x: Word, y: Word)
    requires s.regs.r0 == Num(x) && s.regs.r1 == Num(y)
    ensures Exec(Alu(LowOp(op), false, R0, R0, R1), s)
          == Some(s.(regs := s.regs.Set(R0, Num(Result(LowOp(op), x, y, s.carry)))))
  {
    hide Result;
  }

  lemma CompileBinary(op: BinaryOp, ts: seq<DataType>, i: nat)
    requires |ts| == i + 2
    ensures Compile(Binary(op), ts) == BinaryCode(op, ts[i], NumericAt(i), NumericAt(i + 1))
  {
    hide BinaryCode;
  }

  lemma StepBinary(op: BinaryOp, f: Frame)
    requires 2 <= f.depth <= |f.slots| && BinaryStep(op, f.slots[f.depth - 2], f.slots[f.depth - 1]).Some?
    ensures Step(Binary(op), f)
         == Some(Frame(f.slots[f.depth - 2 := BinaryStep(op, f.slots[f.depth - 2], f.slots[f.depth - 1]).value],
                     f.depth - 1))
  {
    hide BinaryStep;
  }

  lemma BinaryI4(op: BinaryOp, ts: seq<DataType>, f: Frame, s: Machine) returns (s': Machine, f': Frame)
    requires Agree(ts, f, s.mem) && Base(s) && WellTyped(Binary(op), ts, |f.slots|) && ts[|ts| - 2] == I4
    ensures Step(Binary(op), f) == Some(f') && Run(Compile(Binary(op), ts), s) == Some(s') && Base(s')
    ensures Agree(TypesAfter(Binary(op), ts), f', s'.mem)
  {
    hide Run, Compile, Step, Result, BinaryStep, BinaryCode;
    var d := |ts|;
    var x, y := f.slots[d - 2], f.slots[d - 1];
    assert SlotAgrees(ts[d - 2], x, s.mem, d - 2) && SlotAgrees(ts[d - 1], y, s.mem, d - 1);
    s' := BinaryI4Runs(op, d - 2, s, x, y);
    CompileBinary(op, ts, d - 2);
    InterpretBinary(op, x, y, s.carry);
    StepBinary(op, f);
    f' := Frame(f.slots[d - 2 := BinaryStep(op, x, y).value], d - 1);
    AgreeTop(ts, f, s.mem, s'.mem, d - 2, I4, f'.slots[d - 2]);
  }

  lemma RunFour(a: Instr, b: Instr, c: Instr, e: Instr, s: Machine, s1: Machine, s2: Machine, s3: Machine, s4: Machine)
    requires Exec(a, s) == Some(s1) && Exec(b, s1) == Some(s2) && Exec(c, s2) == Some(s3) && Exec(e, s3) == Some(s4)
    ensures Run([a, b, c, e], s) == Some(s4)
  {
    hide Exec;
    RunThree(a, b, c, s, s1, s2, s3);
    RunOne(e, s3);
    Then([a, b, c], [e], s, s3, s4);
    assert [a, b, c] + [e] == [a, b, c, e];
  }

  lemma RunThree(a: Instr, b: Instr, c: Instr, s: Machine, s1: Machine, s2: Machine, s3: Machine)
    requires Exec(a, s) == Some(s1) && Exec(b, s1) == Some(s2) && Exec(c, s2) == Some(s3)
    ensures Run([a, b, c], s) == Some(s3)
  {
    hide Exec;
    RunTwo(a, b, s, s1, s2);
    RunOne(c, s2);
    Then([a, b], [c], s, s2, s3);
    assert [a, b] + [c] == [a, b, c];
  }

  lemma RunTwo(a: Instr, b: Instr, s: Machine, s1: Machine, s2: Machine)
    requires Exec(a, s) == Some(s1) && Exec(b, s1) == Some(s2)
    ensures Run([a, b], s) == Some(s2)
  {
    hide Exec;
    RunOne(a, s);
    RunOne(b, s1);
    Then([a], [b], s, s1, s2);
    assert [a] + [b] == [a, b];
  }

  /** The two data-processing instructions of a 64-bit operation. */
  lemma PairRuns(op: BinaryOp, s: Machine, x0: Word, x1: Word, y0: Word, y1: Word) returns (s': Machine)
    requires s.regs.r0 == Num(x0) && s.regs.r1 == Num(x1) && s.regs.r2 == Num(y0) && s.regs.r3 == Num(y1) && Base(s)
    ensures Run([Alu(LowOp(op), op.Add? || op.Sub?, R0, R0, R2), Alu(HighOp(op), false, R1, R1, R3)], s) == Some(s')
    ensures s'.mem == s.mem && Base(s') && s'.regs.r0.Num? && s'.regs.r1.Num?
    ensures Wide(s'.regs.r0.w, s'.regs.r1.w) == LongOp(op, Wide(x0, x1), Wide(y0, y1))
  {
    hide Result, NewCarry, LongOp, Wide;
    var setCC := op.Add? || op.Sub?;
    var z0 := Result(LowOp(op), x0, y0, s.carry);
    var mid := if setCC then NewCarry(LowOp(op), x0, y0, s.carry) else s.carry;
    var s1 := s.(regs := s.regs.Set(R0, Num(z0)), carry := mid);
    var z1 := Result(HighOp(op), x1, y1, mid);
    s' := s1.(regs := s1.regs.Set(R1, Num(z1)));
    RunTwo(Alu(LowOp(op), setCC, R0, R0, R2), Alu(HighOp(op), false, R1, R1, R3), s, s1, s');
    PairOperation(op, x0, x1, y0, y1, s.carry);
  }

  /** What a 64-bit result in r0, r1, written back to slot k, amounts to. */
  lemma AgreeLong(ts: seq<DataType>, f: Frame, mem: seq<Word>, mem': seq<Word>, k: nat, v: Long, lo: Word, hi: Word)
    requires Agree(ts, f, mem) && k < |ts| && ts[k] == I8 && v == Wide(lo, hi)
    requires 3 * k + 2 < |mem| && mem' == mem[3 * k + 1 := lo][3 * k + 2 := hi]
    ensures Agree(ts[..k] + [I8], Frame(f.slots[k := SetU8(f.slots[k], v)], k + 1), mem')
  {
    hide Wide, SetU8;
    assert SlotAgrees(ts[k], f.slots[k], mem, k);
    SlotHalves(f.slots[k], v, lo, hi);
    AgreeTop(ts, f, mem, mem', k, I8, SetU8(f.slots[k], v));
  }

  lemma OffsetWords(k: nat)
    ensures NumericAt(k) % 4 == 0 && NumericAt(k) / 4 == 3 * k + 1
    ensures SlotAt(k) % 4 == 0 && SlotAt(k) / 4 == 3 * k
  {
    QuarterOf(3 * k);
    QuarterOf(3 * k + 1);
  }

  lemma BinaryI8Runs(op: BinaryOp, i: nat, s: Machine, x: Slot, y: Slot) returns (s': Machine, lo: Word, hi: Word)
    requires Base(s) && SlotAgrees(I8, x, s.mem, i) && SlotAgrees(I8, y, s.mem, i + 1)
    ensures Run(BinaryCode(op, I8, NumericAt(i), NumericAt(i + 1)), s) == Some(s') && Base(s')
    ensures s'.mem == s.mem[3 * i + 1 := lo][3 * i + 2 := hi] && Wide(lo, hi) == LongOp(op, U8(x), U8(y))
  {
    hide Run, LongOp, Wide, LoadMultiple, StoreMultiple, Exec, LowOp, HighOp;
    var op1, op2 := NumericAt(i), NumericAt(i + 1);
    OffsetWords(i);
    OffsetWords(i + 1);
    var s1 := Load2(op1, R0, R1, R12, s);
    var s2 := Load2(op2, R2, R3, R2, s1);
    assert s2.regs.Get(R0) == s1.regs.Get(R0) && s2.regs.Get(R1) == s1.regs.Get(R1);
    var s3 := PairRuns(op, s2, x.lo, x.hi, y.lo, y.hi);
    lo, hi := s3.regs.r0.w, s3.regs.r1.w;
    s' := Store2(op1, R0, R1, R12, s3, lo, hi);
    var a, b := LoadMultiple(op1, [R0, R1], R12), LoadMultiple(op2, [R2, R3], R2);
    var c := [Alu(LowOp(op), op.Add? || op.Sub?, R0, R0, R2), Alu(HighOp(op), false, R1, R1, R3)];
    Then(a, b, s, s1, s2);
    Then(a + b, c, s, s2, s3);
    Then(a + b + c, StoreMultiple(op1, [R0, R1], R12), s, s3, s');
  }

  lemma BinaryI8(op: BinaryOp, ts: seq<DataType>, f: Frame, s: Machine) returns (s': Machine, f': Frame)
    requires Agree(ts, f, s.mem) && Base(s) && WellTyped(Binary(op), ts, |f.slots|) && ts[|ts| - 2] == I8
    ensures Step(Binary(op), f) == Some(f') && Run(Compile(Binary(op), ts), s) == Some(s') && Base(s')
    ensures Agree(TypesAfter(Binary(op), ts), f', s'.mem)
  {
    hide Run, Compile, Step, LongOp, BinaryStep, BinaryCode, Result, Wide, SetU8;
    var d := |ts|;
    var x, y := f.slots[d - 2], f.slots[d - 1];
    assert SlotAgrees(ts[d - 2], x, s.mem, d - 2) && SlotAgrees(ts[d - 1], y, s.mem, d - 1);
    var lo, hi;
    s', lo, hi := BinaryI8Runs(op, d - 2, s, x, y);
    CompileBinary(op, ts, d - 2);
    InterpretBinary(op, x, y, false);
    StepBinary(op, f);
    f' := Frame(f.slots[d - 2 := SetU8(x, LongOp(op, U8(x), U8(y)))], d - 1);
    AgreeLong(ts, f, s.mem, s'.mem, d - 2, LongOp(op, U8(x), U8(y)), lo, hi);
  }

  function UnaryOp(not: bool): (op: Op) { if not then Not else Neg }

  lemma UnaryI4Runs(not: bool, i: nat, s: Machine, x: Slot) returns (s': Machine)
    requires Base(s) && SlotAgrees(I4, x, s.mem, i)
    ensures Run(UnaryCode(not, I4, NumericAt(i)), s) == Some(s') && Base(s')
    ensures s'.mem == s.mem[3 * i + 1 := if not then NotWord(x.lo) else Result(RSB, x.lo, 0, false)]
  {
    hide Run, Result, NotWord;
    var op1 := NumericAt(i);
    OffsetWords(i);
    UnaryWord(not, x.lo, s.carry);
    var step := if not then Alu(MVN, false, R0, R0, R0) else AluImm(RSB, false, R0, R0, 0);
    var z := if not then NotWord(x.lo) else Result(RSB, x.lo, 0, false);
    var s1 := s.(regs := s.regs.Set(R0, Num(x.lo)));
    var s2 := s1.(regs := s1.regs.Set(R0, Num(z)));
    s' := s2.(mem := s.mem[3 * i + 1 := z]);
    RunThree(Ldr(R0, R6, op1), step, Str(R0, R6, op1), s, s1, s2, s');
  }

  lemma CompileUnary(not: bool, ts: seq<DataType>, i: nat)
    requires |ts| == i + 1
    ensures Compile(UnaryOp(not), ts) == UnaryCode(not, ts[i], NumericAt(i))
  {
    hide UnaryCode, NumericAt;
  }

  lemma UnaryI4(not: bool, ts: seq<DataType>, f: Frame, s: Machine) returns (s': Machine, f': Frame)
    requires Agree(ts, f, s.mem) && Base(s) && ts != [] && ts[|ts| - 1] == I4
    ensures Step(UnaryOp(not), f) == Some(f') && Run(Compile(UnaryOp(not), ts), s) == Some(s') && Base(s')
    ensures Agree(ts, f', s'.mem)
  {
    hide Run, Compile, UnaryCode, Result, NumericNeg, SetU8;
    var d := |ts|;
    var x := f.slots[d - 1];
    assert SlotAgrees(ts[d - 1], x, s.mem, d - 1);
    InterpretUnary(x);
    CompileUnary(not, ts, d - 1);
    s' := UnaryI4Runs(not, d - 1, s, x);
    f' := Frame(f.slots[d - 1 := if not then SetU8(x, NotLong(U8(x))) else NumericNeg(x).value], d);
    AgreeTop(ts, f, s.mem, s'.mem, d - 1, I4, f'.slots[d - 1]);
    assert ts[..d - 1] + [I4] == ts;
  }

  lemma UnaryWord(not: bool, x: Word, carry: bool)
    ensures Result(MVN, 0, x, carry) == NotWord(x) && Result(RSB, x, 0, carry) == Result(RSB, x, 0, false)
    ensures NewCarry(RSB, x, 0, carry) == NewCarry(RSB, x, 0, false)
  {
  }

  /** The two data-processing instructions of a 64-bit complement or negation. */
  lemma PairUnaryRuns(not: bool, s: Machine, x0: Word, x1: Word) returns (s': Machine)
    requires s.regs.r0 == Num(x0) && s.regs.r1 == Num(x1) && Base(s)
    ensures Run(if not then [Alu(MVN, false, R0, R0, R0), Alu(MVN, false, R1, R1, R1)]
                else [AluImm(RSB, true, R0, R0, 0), AluImm(RSC, false, R1, R1, 0)], s) == Some(s')
    ensures s'.mem == s.mem && Base(s') && s'.regs.r0.Num? && s'.regs.r1.Num?
    ensures Wide(s'.regs.r0.w, s'.regs.r1.w) == if not then NotLong(Wide(x0, x1)) else SubLong(0, Wide(x0, x1))
  {
    hide Result, NewCarry, Wide;
    PairNegation(x0, x1);
    UnaryWord(not, x0, s.carry);
    UnaryWord(not, x1, s.carry);
    if not {
      var s1 := s.(regs := s.regs.Set(R0, Num(NotWord(x0))));
      s' := s1.(regs := s1.regs.Set(R1, Num(NotWord(x1))));
      RunTwo(Alu(MVN, false, R0, R0, R0), Alu(MVN, false, R1, R1, R1), s, s1, s');
    } else {
      var mid := NewCarry(RSB, x0, 0, false);
      var s1 := s.(regs := s.regs.Set(R0, Num(Result(RSB, x0, 0, false))), carry := mid);
      s' := s1.(regs := s1.regs.Set(R1, Num(Result(RSC, x1, 0, mid))));
      RunTwo(AluImm(RSB, true, R0, R0, 0), AluImm(RSC, false, R1, R1, 0), s, s1, s');
    }
  }

  lemma UnaryI8(not: bool, ts: seq<DataType>, f: Frame, s: Machine) returns (s': Machine, f': Frame)
    requires Agree(ts, f, s.mem) && Base(s) && ts != [] && ts[|ts| - 1] == I8
    ensures Step(UnaryOp(not), f) == Some(f') && Run(Compile(UnaryOp(not), ts), s) == Some(s') && Base(s')
    ensures Agree(ts, f', s'.mem)
  {
    hide Run, Result, NumericNeg, SetU8, Wide, LoadMultiple, StoreMultiple, Exec;
    var d := |ts|;
    var x := f.slots[d - 1];
    var op1 := NumericAt(d - 1);
    assert SlotAgrees(ts[d - 1], x, s.mem, d - 1);
    OffsetWords(d - 1);
    var s1 := Load2(op1, R0, R1, R12, s);
    var s2 := PairUnaryRuns(not, s1, x.lo, x.hi);
    s' := Store2(op1, R0, R1, R12, s2, s2.regs.r0.w, s2.regs.r1.w);
    var a := LoadMultiple(op1, [R0, R1], R12);
    var b := if not then [Alu(MVN, false, R0, R0, R0), Alu(MVN, false, R1, R1, R1)]
             else [AluImm(RSB, true, R0, R0, 0), AluImm(RSC, false, R1, R1, 0)];
    Then(a, b, s, s1, s2);
    Then(a + b, StoreMultiple(op1, [R0, R1], R12), s, s2, s');
    InterpretUnary(x);
    var v := if not then NotLong(U8(x)) else SubLong(0, U8(x));
    f' := Frame(f.slots[d - 1 := SetU8(x, v)], d);
    AgreeLong(ts, f, s.mem, s'.mem, d - 1, v, s2.regs.r0.w, s2.regs.r1.w);
    assert ts[..d - 1] + [I8] == ts;
  }

  lemma LoadConstantI4(w: Word, ts: seq<DataType>, f: Frame, s: Machine) returns (s': Machine, f': Frame)
    requires Agree(ts, f, s.mem) && Base(s) && |ts| < |f.slots|
    ensures Step(LdcI4(w), f) == Some(f') && Run(Compile(LdcI4(w), ts), s) == Some(s') && Base(s')
    ensures Agree(ts + [I4], f', s'.mem)
  {
    hide Run, Constant, StoreMultiple;
    var d := |ts|;
    OffsetWords(d);
    var s1 := s.(regs := s.regs.Set(R0, Num(RawId(I4))));
    var s2 := s1.(regs := s1.regs.Set(R1, Num(w)));
    ConstantRuns(R0, RawId(I4), s);
    ConstantRuns(R1, w, s1);
    s' := Store2(SlotAt(d), R0, R1, R3, s2, RawId(I4), w);
    Then(Constant(R0, RawId(I4)), Constant(R1, w), s, s1, s2);
    Then(Constant(R0, RawId(I4)) + Constant(R1, w), StoreMultiple(SlotAt(d), [R0, R1], R3), s, s2, s');
    f' := Frame(f.slots[d := f.slots[d].(id := RawId(I4), lo := w)], d + 1);
    AgreeTop(ts, f, s.mem, s'.mem, d, I4, f'.slots[d]);
    assert ts[..d] == ts;
  }

  lemma LoadConstantI8(v: Long, ts: seq<DataType>, f: Frame, s: Machine) returns (s': Machine, f': Frame)
    requires Agree(ts, f, s.mem) && Base(s) && |ts| < |f.slots|
    ensures Step(LdcI8(v), f) == Some(f') && Run(Compile(LdcI8(v), ts), s) == Some(s') && Base(s')
    ensures Agree(ts + [I8], f', s'.mem)
  {
    hide Run, Constant, StoreMultiple, LowWord, HighWord;
    var d, lo, hi := |ts|, LowWord(v), HighWord(v);
    OffsetWords(d);
    var s1 := s.(regs := s.regs.Set(R0, Num(RawId(I8))));
    var s2 := s1.(regs := s1.regs.Set(R1, Num(lo)));
    var s3 := s2.(regs := s2.regs.Set(R2, Num(hi)));
    ConstantRuns(R0, RawId(I8), s);
    ConstantRuns(R1, lo, s1);
    ConstantRuns(R2, hi, s2);
    s' := Store3(SlotAt(d), s3, RawId(I8), lo, hi);
    var a, b, c := Constant(R0, RawId(I8)), Constant(R1, lo), Constant(R2, hi);
    Then(a, b, s, s1, s2);
    Then(a + b, c, s, s2, s3);
    Then(a + b + c, StoreMultiple(SlotAt(d), [R0, R1, R2], R3), s, s3, s');
    f' := Frame(f.slots[d := SetU8(f.slots[d].(id := RawId(I8)), v)], d + 1);
    AgreeTop(ts, f, s.mem, s'.mem, d, I8, f'.slots[d]);
    assert ts[..d] == ts;
  }

  lemma Duplicate(ts: seq<DataType>, f: Frame, s: Machine) returns (s': Machine, f': Frame)
    requires Agree(ts, f, s.mem) && Base(s) && 0 < |ts| < |f.slots|
    ensures Step(Dup, f) == Some(f') && Run(Compile(Dup, ts), s) == Some(s') && Base(s')
    ensures Agree(ts + [ts[|ts| - 1]], f', s'.mem)
  {
    hide Run, StoreMultiple, LoadMultiple;
    var d := |ts|;
    OffsetWords(d - 1);
    OffsetWords(d);
    assert SlotAgrees(ts[d - 1], f.slots[d - 1], s.mem, d - 1);
    var k := 3 * (d - 1);
    var s1 := Load3(SlotAt(d - 1), s);
    s' := Store3(SlotAt(d), s1, s.mem[k], s.mem[k + 1], s.mem[k + 2]);
    Then(LoadMultiple(SlotAt(d - 1), [R0, R1, R2], R3), StoreMultiple(SlotAt(d), [R0, R1, R2], R3), s, s1, s');
    f' := Frame(f.slots[d := f.slots[d - 1]], d + 1);
    AgreeTop(ts, f, s.mem, s'.mem, d, ts[d - 1], f'.slots[d]);
    assert ts[..d] == ts;
  }

  /** One opcode: neither side faults, and the typed stacks still agree. */
  lemma OpcodeSimulates(op: Op, ts: seq<DataType>, f: Frame, s: Machine) returns (s': Machine, f': Frame)
    requires Agree(ts, f, s.mem) && Base(s) && WellTyped(op, ts, |f.slots|)
    ensures Step(op, f) == Some(f') && Run(Compile(op, ts), s) == Some(s') && Base(s')
    ensures Agree(TypesAfter(op, ts), f', s'.mem) && |f'.slots| == |f.slots|
  {
    hide Run, Compile, Agree, Step;
    AgreeBounds(ts, f, s.mem);
    match op {
      case LdcI4(w) => s', f' := LoadConstantI4(w, ts, f, s);
      case LdcI8(v) => s', f' := LoadConstantI8(v, ts, f, s);
      case Dup => s', f' := Duplicate(ts, f, s);
      case Pop => s', f' := Drop(ts, f, s);
      case Binary(b) =>
        if ts[|ts| - 2] == I4 { s', f' := BinaryI4(b, ts, f, s); }
        else { s', f' := BinaryI8(b, ts, f, s); }
      case Not =>
        if ts[|ts| - 1] == I4 { s', f' := UnaryI4(true, ts, f, s); }
        else { s', f' := UnaryI8(true, ts, f, s); }
      case Neg =>
        if ts[|ts| - 1] == I4 { s', f' := UnaryI4(false, ts, f, s); }
        else { s', f' := UnaryI8(false, ts, f, s); }
    }
    StepSize(op, f);
  }

  lemma AgreeBounds(ts: seq<DataType>, f: Frame, mem: seq<Word>)
    requires Agree(ts, f, mem)
    ensures |ts| == f.depth <= |f.slots|
  {
  }

  lemma StepSize(op: Op, f: Frame)
    ensures Step(op, f).Some? ==> |Step(op, f).value.slots| == |f.slots|
  {
  }

  lemma Drop(ts: seq<DataType>, f: Frame, s: Machine) returns (s': Machine, f': Frame)
    requires Agree(ts, f, s.mem) && Base(s) && 0 < |ts|
    ensures Step(Pop, f) == Some(f') && Run(Compile(Pop, ts), s) == Some(s') && Base(s')
    ensures Agree(ts[..|ts| - 1], f', s'.mem)
  {
    s', f' := s, Frame(f.slots, f.depth - 1);
  }

  /** A whole program: compiled and interpreted from agreeing stacks, it ends in agreeing stacks. */
  lemma {:induction false} ProgramSimulates(prog: seq<Op>, ts: seq<DataType>, f: Frame, s: Machine)
    returns (s': Machine, f': Frame)
    requires Agree(ts, f, s.mem) && Base(s) && ProgramOk(prog, ts, |f.slots|)
    ensures Execute(prog, f) == Some(f') && Run(CompileAll(prog, ts, |f.slots|), s) == Some(s')
    ensures Agree(TypesAfterAll(prog, ts, |f.slots|), f', s'.mem) && Base(s')
    decreases |prog|
  {
    hide Run, Compile, Agree, Step, TypesAfter;
    if prog == [] {
      s', f' := s, f;
      NothingToRun(s);
    } else {
      var s1, f1 := OpcodeSimulates(prog[0], ts, f, s);
      s', f' := ProgramSimulates(prog[1..], TypesAfter(prog[0], ts), f1, s1);
      Then(Compile(prog[0], ts), CompileAll(prog[1..], TypesAfter(prog[0], ts), |f.slots|), s, s1, s');
    }
  }

  lemma NothingToRun(s: Machine)
    ensures Run([], s) == Some(s)
  {
  }

  /** With operands of different types the stack never agrees again: the static result type is the second
      operand's, the value the interpreter leaves has the first's. */
  lemma MixedOperandsDisagree(op: BinaryOp, ts: seq<DataType>, f: Frame, mem: seq<Word>, mem': seq<Word>)
    requires Agree(ts, f, mem) && 2 <= |ts| && ts[|ts| - 2] != ts[|ts| - 1]
    ensures Step(Binary(op), f).Some?
    ensures !Agree(TypesAfter(Binary(op), ts), Step(Binary(op), f).value, mem')
  {
    hide BinaryStep, Result, SetU8;
    var d := |ts|;
    assert SlotAgrees(ts[d - 2], f.slots[d - 2], mem, d - 2);
    InterpretBinary(op, f.slots[d - 2], f.slots[d - 1], false);
    var f', ts' := Step(Binary(op), f).value, TypesAfter(Binary(op), ts);
    assert f'.slots[d - 2].id != RawId(ts'[d - 2]);
  }
}
