/** Execute_IL for the same opcodes: the reference semantics. */
module Interpreter {
  import opened Wrappers
  import opened Words
  import opened Jitter

  /** One CLR_RT_HeapBlock of the evaluation stack. */
  datatype Slot = Slot(id: Word, lo: Word, hi: Word)

  /** All slots of the frame's evaluation stack, and how many are in use. */
  datatype Frame = Frame(slots: seq<Slot>, depth: nat)

  function U8(s: Slot): (v: Long) { Wide(s.lo, s.hi) }

  function SetU8(s: Slot, v: Long): (s': Slot) { s.(lo := LowWord(v), hi := HighWord(v)) }

  /** NumericAdd, NumericSub: by the type of the left operand. */
  function Numeric(sub: bool, left: Slot, right: Slot): (r: Option<Slot>)
  {
    if left.id == RawId(I4)
      then Some(left.(lo := if sub then SubWord(left.lo, right.lo) else AddWord(left.lo, right.lo)))
    else if left.id == RawId(I8)
      then Some(SetU8(left, if sub then SubLong(U8(left), U8(right)) else AddLong(U8(left), U8(right))))
    else None
  }

  function NumericNeg(s: Slot): (r: Option<Slot>)
  {
    if s.id == RawId(I4) then Some(s.(lo := SubWord(0, s.lo)))
    else if s.id == RawId(I8) then Some(SetU8(s, SubLong(0, U8(s))))
    else None
  }

  /** And, or, xor work on all eight bytes, whatever the type. */
  function BinaryStep(op: BinaryOp, left: Slot, right: Slot): (r: Option<Slot>)
  {
    match op
    case And => Some(SetU8(left, BitsLong(BitAnd, U8(left), U8(right))))
    case Or => Some(SetU8(left, BitsLong(BitOr, U8(left), U8(right))))
    case Xor => Some(SetU8(left, BitsLong(BitXor, U8(left), U8(right))))
    case Add => Numeric(false, left, right)
    case Sub => Numeric(true, left, right)
  }

  /** One opcode; None for a stack fault or an operand of the wrong type. */
  function Step(op: Op, f: Frame): (r: Option<Frame>)
  {
    var Frame(slots, d) := f;
    if d > |slots| || d < Pops(op) then None
    else
      match op
      case LdcI4(w) => if d < |slots| then Some(Frame(slots[d := slots[d].(id := RawId(I4), lo := w)], d + 1)) else None
      case LdcI8(v) =>
        if d < |slots| then Some(Frame(slots[d := SetU8(slots[d].(id := RawId(I8)), v)], d + 1))
        else None
      case Dup => if d < |slots| then Some(Frame(slots[d := slots[d - 1]], d + 1)) else None
      case Pop => Some(Frame(slots, d - 1))
      case Binary(b) =>
        var r := BinaryStep(b, slots[d - 2], slots[d - 1]);
        if r.Some? then Some(Frame(slots[d - 2 := r.value], d - 1)) else None
      case Not => Some(Frame(slots[d - 1 := SetU8(slots[d - 1], NotLong(U8(slots[d - 1])))], d))
      case Neg =>
        var r := NumericNeg(slots[d - 1]);
        if r.Some? then Some(Frame(slots[d - 1 := r.value], d)) else None
  }

  function Execute(prog: seq<Op>, f: Frame): (r: Option<Frame>)
  {
    if prog == [] then Some(f)
    else
      var r := Step(prog[0], f);
      if r.Some? then Execute(prog[1..], r.value) else None
  }

  // ---- What the opcodes mean to each other ----

  /** The stack in use. */
  function InUse(f: Frame): (s: seq<Slot>)
    requires f.depth <= |f.slots|
  {
    f.slots[..f.depth]
  }

  predicate Typed(s: Slot) { s.id == RawId(I4) || s.id == RawId(I8) }

  /** The number in a slot, by its type. */
  function Value(s: Slot): (v: Long) { if s.id == RawId(I4) then s.lo else U8(s) }

  function Modulus(s: Slot): (n: nat)
    ensures n > 0
  {
    if s.id == RawId(I4) then TWO32 else TWO64
  }

  lemma ExecuteTwo(a: Op, b: Op, f: Frame)
    ensures Execute([a], f) == Step(a, f)
    ensures Step(a, f).Some? ==> Execute([a, b], f) == Step(b, Step(a, f).value)
  {
    hide Step;
    assert [a, b][1..] == [b] && [a][1..] == [] && [b][1..] == [];
    var r := Step(a, f);
    if r.Some? { assert Execute([b], r.value) == Step(b, r.value); }
  }

  /** A constant that is pushed is on top with its type, and nothing below it changes. */
  lemma {:induction false} PushLaws(f: Frame, w: Word, v: Long)
    requires f.depth < |f.slots|
    ensures var r := Execute([LdcI4(w)], f);
      r.Some? && r.value.depth == f.depth + 1 <= |r.value.slots| && InUse(r.value)[..f.depth] == InUse(f)
      && r.value.slots[f.depth].id == RawId(I4) && Value(r.value.slots[f.depth]) == w
    ensures var r := Execute([LdcI8(v)], f);
      r.Some? && r.value.depth == f.depth + 1 <= |r.value.slots| && InUse(r.value)[..f.depth] == InUse(f)
      && r.value.slots[f.depth].id == RawId(I8) && Value(r.value.slots[f.depth]) == v
  {
    ExecuteTwo(LdcI4(w), Pop, f);
    ExecuteTwo(LdcI8(v), Pop, f);
  }

  /** Duplicating and dropping changes nothing ... */
  lemma {:induction false} DupPop(f: Frame)
    requires 0 < f.depth < |f.slots|
    ensures var r := Execute([Dup, Pop], f);
      r.Some? && r.value.depth == f.depth <= |r.value.slots| && InUse(r.value) == InUse(f)
  {
    ExecuteTwo(Dup, Pop, f);
  }

  /** ... and a value combined with its duplicate gives the value itself, its double, or 0. */
  lemma {:induction false} DupLaws(f: Frame, op: BinaryOp)
    requires 0 < f.depth < |f.slots| && Typed(f.slots[f.depth - 1])
    ensures var r, k := Execute([Dup, Binary(op)], f), f.depth - 1;
      && r.Some? && r.value.depth == f.depth <= |r.value.slots| && InUse(r.value)[..k] == InUse(f)[..k]
      && r.value.slots[k].id == f.slots[k].id
      && var x, y := Value(f.slots[k]), Value(r.value.slots[k]);
      match op
      case And => y == x
      case Or => y == x
      case Xor => y == 0
      case Sub => y == 0
      case Add => y == 2 * x - if 2 * x < Modulus(f.slots[k]) then 0 else Modulus(f.slots[k])
  {
    hide BitsLong;
    var x := f.slots[f.depth - 1];
    ExecuteTwo(Dup, Binary(op), f);
    SelfLaws(U8(x));
    WideHalves(x.lo, x.hi);
    WideHalves(0, 0);
  }

  lemma SelfLaws(x: Long)
    ensures BitsLong(BitAnd, x, x) == x && BitsLong(BitOr, x, x) == x && BitsLong(BitXor, x, x) == 0
  {
    hide Bits;
    Pow2s();
    AndLaws(x, 64);
    XorLaws(x, 64);
    BitsAndSums(x, x, 64);
  }

  /** Complement and negation undo themselves. */
  lemma {:induction false} NotNot(f: Frame)
    requires 0 < f.depth <= |f.slots|
    ensures Execute([Not, Not], f) == Some(f)
  {
    ExecuteTwo(Not, Not, f);
    assert Step(Not, Step(Not, f).value).value.slots == f.slots;
  }

  lemma {:induction false} NegNeg(f: Frame)
    requires 0 < f.depth <= |f.slots| && Typed(f.slots[f.depth - 1])
    ensures Execute([Neg, Neg], f) == Some(f)
  {
    ExecuteTwo(Neg, Neg, f);
    assert Step(Neg, Step(Neg, f).value).value.slots == f.slots;
  }
}
