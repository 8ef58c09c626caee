/** Arm_LongMovIMM: any 32-bit constant from moves and ors of bytes the processor can encode. */
module LongImmediate {
  import opened Wrappers
  import opened Words
  import opened Arm

  /** An ARM immediate: one byte, shifted by an even number of bits. */
  ghost predicate Encodable(imm: int)
  {
    exists b, rot :: ByteAt(imm, b, rot)
  }

  predicate ByteAt(imm: int, b: nat, rot: nat)
  {
    b < 256 && rot < 32 && rot % 2 == 0 && imm == b * Pow2(rot)
  }

  /** The instructions that bring value, shifted left by rot, into rd; `first` until something was moved. */
  function LongMove(rd: Reg, value: nat, rot: nat, first: bool): (code: seq<Instr>)
    requires value * Pow2(rot) < TWO32
    decreases value
  {
    if value == 0 then if first then [AluImm(MOV, false, rd, rd, 0)] else []
    else if value % 4 != 0 then
      LowByte(value, rot);
      [AluImm(if first then MOV else ORR, false, rd, rd, value % 256 * Pow2(rot))]
      + LongMove(rd, value / 256, rot + 8, false)
    else
      DropTwo(value, rot);
      LongMove(rd, value / 4, rot + 2, first)
  }

  lemma LowByte(value: nat, rot: nat)
    requires value * Pow2(rot) < TWO32
    ensures 0 <= value % 256 * Pow2(rot) < TWO32 && value / 256 * Pow2(rot + 8) < TWO32
    ensures value * Pow2(rot) == value % 256 * Pow2(rot) + value / 256 * Pow2(rot + 8)
  {
    Pow2Sum(rot, 8);
    Pow2Eight();
    var p, h, l := Pow2(rot), value / 256, value % 256;
    assert value == 256 * h + l;
    assert h * (p * 256) == 256 * h * p;
    assert value * p == 256 * h * p + l * p;
  }

  lemma DropTwo(value: nat, rot: nat)
    requires value * Pow2(rot) < TWO32 && value % 4 == 0
    ensures value / 4 * Pow2(rot + 2) == value * Pow2(rot)
  {
    Pow2Sum(rot, 2);
    assert Pow2(2) == 4;
    var p, h := Pow2(rot), value / 4;
    assert h * (p * 4) == 4 * h * p;
  }

  /** A shift of 32 or more would leave the word. */
  lemma ShiftInside(value: nat, rot: nat)
    requires value * Pow2(rot) < TWO32 && 0 < value
    ensures rot < 32 && value < Pow2(32 - rot)
  {
    hide Pow2;
    Pow2s();
    assert Pow2(rot) <= value * Pow2(rot);
    if rot >= 32 { TooFar(rot); }
    Pow2Sum(rot, 32 - rot);
    Cancel(value, Pow2(32 - rot), Pow2(rot));
  }

  lemma TooFar(rot: nat)
    requires 32 <= rot
    ensures Pow2(32) <= Pow2(rot)
  {
    hide Pow2;
    Pow2Sum(32, rot - 32);
    var p, q := Pow2(32), Pow2(rot - 32);
    assert p * 1 <= p * q;
  }

  lemma Cancel(x: nat, y: nat, p: nat)
    requires x * p < p * y
    ensures x < y
  {
    assert y <= x ==> y * p <= x * p;
  }

  /** Setting a register twice is setting it once, and setting it to what it holds is nothing. */
  lemma SetTwice(rs: Regs, r: Reg, v: Value, w: Value)
    ensures rs.Set(r, v).Set(r, w) == rs.Set(r, w) && rs.Set(r, rs.Get(r)) == rs
  {
  }

  /** The bits below the next byte. */
  lemma NextBits(acc: nat, value: nat, rot: nat)
    requires acc < Pow2(rot)
    ensures acc + value % 256 * Pow2(rot) < Pow2(rot + 8) && value % 256 * Pow2(rot) < Pow2(rot + 8)
    ensures acc < Pow2(rot + 2)
  {
    hide Pow2;
    Pow2Sum(rot, 8);
    Pow2Eight();
    Pow2Sum(rot, 2);
    Pow2Two();
    var p, l := Pow2(rot), value % 256;
    assert l * p <= 255 * p;
  }

  lemma Pow2Two()
    ensures Pow2(2) == 4
  {
  }

  /** Moving or or-ing in the next byte. */
  lemma ByteRuns(rd: Reg, value: nat, rot: nat, first: bool, acc: Word, s: Machine)
    requires 0 < value && value * Pow2(rot) < TWO32 && value % 256 * Pow2(rot) < TWO32
    requires if first then acc == 0 else acc < Pow2(rot) && s.regs.Get(rd) == Num(acc)
    ensures acc + value % 256 * Pow2(rot) < TWO32
    ensures Exec(AluImm(if first then MOV else ORR, false, rd, rd, value % 256 * Pow2(rot)), s)
         == Some(s.(regs := s.regs.Set(rd, Num(acc + value % 256 * Pow2(rot)))))
  {
    hide Pow2, BitsWord;
    if !first { OrByte(acc, value, rot); }
  }

  lemma OrByte(acc: Word, value: nat, rot: nat)
    requires 0 < value && value * Pow2(rot) < TWO32 && value % 256 * Pow2(rot) < TWO32 && acc < Pow2(rot)
    ensures BitsWord(BitOr, acc, value % 256 * Pow2(rot)) == acc + value % 256 * Pow2(rot)
  {
    hide Pow2, Bits;
    var l := value % 256;
    ShiftInside(value, rot);
    OrDisjoint(acc, l, rot, 32 - rot);
    assert Pow2(rot) * l == l * Pow2(rot);
  }

  /** Run from any state whose rd holds the bits below rot, the code leaves those bits and the value. */
  lemma {:induction false} LongMoveRuns(rd: Reg, value: nat, rot: nat, first: bool, acc: Word, s: Machine)
    requires value * Pow2(rot) < TWO32 && (if first then acc == 0 else acc < Pow2(rot) && s.regs.Get(rd) == Num(acc))
    ensures 0 <= acc + value * Pow2(rot) < TWO32
    ensures Run(LongMove(rd, value, rot, first), s) == Some(s.(regs := s.regs.Set(rd, Num(acc + value * Pow2(rot)))))
    decreases value
  {
    hide Pow2, Run, Exec;
    if value == 0 {
      SetTwice(s.regs, rd, Num(acc), Num(acc));
      NoneLeft(rd, first, acc, s);
    } else if value % 4 != 0 {
      LowByte(value, rot);
      var imm := value % 256 * Pow2(rot);
      ByteRuns(rd, value, rot, first, acc, s);
      if !first { NextBits(acc, value, rot); } else { NextBits(0, value, rot); }
      var s' := s.(regs := s.regs.Set(rd, Num(acc + imm)));
      LongMoveRuns(rd, value / 256, rot + 8, false, acc + imm, s');
      SetTwice(s.regs, rd, Num(acc + imm), Num(acc + value * Pow2(rot)));
      var i := AluImm(if first then MOV else ORR, false, rd, rd, imm);
      RunOne(i, s);
      RunAppend([i], LongMove(rd, value / 256, rot + 8, false), s);
    } else {
      DropTwo(value, rot);
      if !first { NextBits(acc, value, rot); }
      LongMoveRuns(rd, value / 4, rot + 2, first, acc, s);
    }
  }

  lemma NoneLeft(rd: Reg, first: bool, acc: Word, s: Machine)
    requires if first then acc == 0 else s.regs.Get(rd) == Num(acc)
    ensures Run(if first then [AluImm(MOV, false, rd, rd, 0)] else [], s) == Some(s.(regs := s.regs.Set(rd, Num(acc))))
  {
    if first { RunOne(AluImm(MOV, false, rd, rd, 0), s); } else { SetTwice(s.regs, rd, Num(acc), Num(acc)); }
  }

  /** Every immediate of the sequence can be encoded. */
  lemma {:induction false} LongMoveEncodable(rd: Reg, value: nat, rot: nat, first: bool)
    requires value * Pow2(rot) < TWO32 && rot % 2 == 0
    ensures forall i :: 0 <= i < |LongMove(rd, value, rot, first)| ==>
      LongMove(rd, value, rot, first)[i].AluImm? && Encodable(LongMove(rd, value, rot, first)[i].imm)
    decreases value
  {
    hide Pow2;
    if value == 0 {
      assert ByteAt(0, 0, 0);
    } else if value % 4 != 0 {
      LowByte(value, rot);
      ShiftInside(value, rot);
      assert ByteAt(value % 256 * Pow2(rot), value % 256, rot);
      LongMoveEncodable(rd, value / 256, rot + 8, false);
    } else {
      DropTwo(value, rot);
      LongMoveEncodable(rd, value / 4, rot + 2, first);
    }
  }

  /** The emitting loop. */
  method EmitLongMove(rd: Reg, constant: Word) returns (code: seq<Instr>)
    ensures code == Constant(rd, constant)
  {
    hide Pow2;
    PowZero();
    var value, rot, first := constant, 0, true;
    code := [];
    while value != 0
      invariant 0 <= value && value * Pow2(rot) < TWO32
      invariant Constant(rd, constant) == code + LongMove(rd, value, rot, first)
      decreases value
    {
      if value % 4 != 0 {
        LowByte(value, rot);
        code := code + [AluImm(if first then MOV else ORR, false, rd, rd, value % 256 * Pow2(rot))];
        first := false;
        value, rot := value / 256, rot + 8;
      } else {
        DropTwo(value, rot);
        value, rot := value / 4, rot + 2;
      }
    }
    if first { code := code + [AluImm(MOV, false, rd, rd, 0)]; }
  }

  lemma PowZero()
    ensures Pow2(0) == 1
  {
  }

  function Constant(rd: Reg, constant: Word): (code: seq<Instr>)
  {
    PowZero();
    LongMove(rd, constant, 0, true)
  }

  /** Whatever the state, rd ends up with the constant, every other register and flag untouched. */
  lemma ConstantRuns(rd: Reg, constant: Word, s: Machine)
    ensures Run(Constant(rd, constant), s) == Some(s.(regs := s.regs.Set(rd, Num(constant))))
    ensures forall i :: 0 <= i < |Constant(rd, constant)| ==>
      Constant(rd, constant)[i].AluImm? && Encodable(Constant(rd, constant)[i].imm)
  {
    hide Run, Exec, LongMove;
    PowZero();
    LongMoveRuns(rd, constant, 0, true, 0, s);
    LongMoveEncodable(rd, constant, 0, true);
  }
}
