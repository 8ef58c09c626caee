/** 32-bit words and pairs of them, as numbers.  Addition wraps; the carry is explicit. */
module Words {
  const TWO32: int := 0x1_0000_0000
  const TWO64: int := TWO32 * TWO32

  type Word = w: int | 0 <= w < TWO32
  type Long = v: int | 0 <= v < TWO64

  /** The double word with the given halves. */
  function Wide(lo: Word, hi: Word): (v: Long)
  {
    lo + TWO32 * hi
  }

  function LowWord(v: Long): (w: Word) { v % TWO32 }
  function HighWord(v: Long): (w: Word) { v / TWO32 }

  lemma WideHalves(lo: Word, hi: Word)
    ensures LowWord(Wide(lo, hi)) == lo && HighWord(Wide(lo, hi)) == hi
  {
  }

  lemma QuarterOf(a: nat)
    ensures (4 * a) % 4 == 0 && (4 * a) / 4 == a
  {
  }

  function NotWord(x: Word): (r: Word) { TWO32 - 1 - x }
  function NotLong(x: Long): (r: Long) { TWO64 - 1 - x }

  function AddLong(x: Long, y: Long): (r: Long) { if x + y < TWO64 then x + y else x + y - TWO64 }
  function SubLong(x: Long, y: Long): (r: Long) { if y <= x then x - y else x - y + TWO64 }
  function AddWord(x: Word, y: Word): (r: Word) { if x + y < TWO32 then x + y else x + y - TWO32 }
  function SubWord(x: Word, y: Word): (r: Word) { if y <= x then x - y else x - y + TWO32 }

  /** The ARM adder: sum and carry-out. */
  function Sum(x: Word, y: Word, carry: bool): (r: Word)
  {
    var s := x + y + (if carry then 1 else 0);
    if s < TWO32 then s else s - TWO32
  }

  function CarryOut(x: Word, y: Word, carry: bool): (c: bool)
  {
    x + y + (if carry then 1 else 0) >= TWO32
  }

  lemma SumWide(x0: Word, x1: Word, y0: Word, y1: Word)
    ensures Wide(Sum(x0, y0, false), Sum(x1, y1, CarryOut(x0, y0, false))) == AddLong(Wide(x0, x1), Wide(y0, y1))
  {
  }

  lemma DifferenceWide(x0: Word, x1: Word, y0: Word, y1: Word)
    ensures Wide(Sum(x0, NotWord(y0), true), Sum(x1, NotWord(y1), CarryOut(x0, NotWord(y0), true)))
         == SubLong(Wide(x0, x1), Wide(y0, y1))
  {
  }

  // ---- Bit by bit ----

  datatype BitOp = BitAnd | BitOr | BitXor

  function Bit(f: BitOp, x: int, y: int): (b: int)
    ensures 0 <= b < 2
  {
    match f
    case BitAnd => if x == 1 && y == 1 then 1 else 0
    case BitOr => if x == 1 || y == 1 then 1 else 0
    case BitXor => if x != y then 1 else 0
  }

  function Pow2(n: nat): (p: nat)
    ensures 0 < p
  {
    if n == 0 then 1 else 2 * Pow2(n - 1)
  }

  /** The low n bits of a bitwise operation. */
  function Bits(f: BitOp, x: nat, y: nat, n: nat): (r: nat)
    ensures r < Pow2(n)
  {
    if n == 0 then 0 else Bit(f, x % 2, y % 2) + 2 * Bits(f, x / 2, y / 2, n - 1)
  }

  lemma Pow2s()
    ensures Pow2(32) == TWO32 && Pow2(64) == TWO64
  {
    hide Pow2;
    Pow2Eight();
    Pow2Sum(8, 8);
    Pow2Sum(16, 16);
    Pow2Sum(32, 32);
  }

  lemma Pow2Eight()
    ensures Pow2(8) == 256
  {
  }

  lemma {:induction false} Pow2Sum(a: nat, b: nat)
    ensures Pow2(a + b) == Pow2(a) * Pow2(b)
  {
    if a > 0 { Pow2Sum(a - 1, b); }
  }

  /** A bitwise operation works on the low k bits and on the rest separately. */
  lemma {:induction false} BitsSplit(f: BitOp, x: nat, y: nat, u: nat, v: nat, k: nat, n: nat)
    requires x < Pow2(k) && y < Pow2(k)
    ensures Bits(f, x + Pow2(k) * u, y + Pow2(k) * v, k + n) == Bits(f, x, y, k) + Pow2(k) * Bits(f, u, v, n)
    decreases k
  {
    hide Bits, Bit, Pow2;
    if k == 0 {
      BitsNone(f, x, y, u, v, n);
    } else {
      var a, b := x + Pow2(k) * u, y + Pow2(k) * v;
      var q, h, high := Pow2(k - 1), Pow2(k), Bits(f, u, v, n);
      Halve(x, u, k);
      Halve(y, v, k);
      var a', b' := a / 2, b / 2;
      BitsSplit(f, x / 2, y / 2, u, v, k - 1, n);
      assert Bits(f, a', b', k + n - 1) == Bits(f, x / 2, y / 2, k - 1) + q * high;
      BitsStep(f, a, b, k + n);
      BitsStep(f, x, y, k);
      Double(high, k);
    }
  }

  lemma BitsNone(f: BitOp, x: nat, y: nat, u: nat, v: nat, n: nat)
    requires x < Pow2(0) && y < Pow2(0)
    ensures Bits(f, x + Pow2(0) * u, y + Pow2(0) * v, n) == Bits(f, x, y, 0) + Pow2(0) * Bits(f, u, v, n)
  {
    assert x == 0 && y == 0;
  }

  lemma BitsStep(f: BitOp, x: nat, y: nat, n: nat)
    requires n > 0
    ensures Bits(f, x, y, n) == Bit(f, x % 2, y % 2) + 2 * Bits(f, x / 2, y / 2, n - 1)
  {
  }

  lemma Double(v: nat, k: nat)
    requires k > 0
    ensures Pow2(k) * v == 2 * (Pow2(k - 1) * v)
  {
  }

  lemma Halve(x: nat, u: nat, k: nat)
    requires k > 0 && x < Pow2(k)
    ensures (x + Pow2(k) * u) % 2 == x % 2 && (x + Pow2(k) * u) / 2 == x / 2 + Pow2(k - 1) * u && x / 2 < Pow2(k - 1)
  {
    var h := Pow2(k - 1) * u;
    assert Pow2(k) * u == 2 * h;
  }

  function BitsWord(f: BitOp, x: Word, y: Word): (r: Word)
  {
    Pow2s();
    Bits(f, x, y, 32)
  }

  function BitsLong(f: BitOp, x: Long, y: Long): (r: Long)
  {
    Pow2s();
    Bits(f, x, y, 64)
  }

  /** A 64-bit bitwise operation is two 32-bit ones. */
  lemma BitsWide(f: BitOp, x0: Word, x1: Word, y0: Word, y1: Word)
    ensures Wide(BitsWord(f, x0, y0), BitsWord(f, x1, y1)) == BitsLong(f, Wide(x0, x1), Wide(y0, y1))
  {
    Pow2s();
    BitsSplit(f, x0, y0, x1, y1, 32, 32);
  }

  /** x or 0 is x. */
  lemma {:induction false} OrZero(x: nat, n: nat)
    requires x < Pow2(n)
    ensures Bits(BitOr, x, 0, n) == x && Bits(BitOr, 0, x, n) == x
  {
    if n > 0 {
      Halve(x, 0, n);
      OrZero(x / 2, n - 1);
    }
  }

  /** And with itself or with all ones gives x back, with 0 gives 0. */
  lemma {:induction false} AndLaws(x: nat, n: nat)
    requires x < Pow2(n)
    ensures Bits(BitAnd, x, x, n) == x && Bits(BitAnd, x, 0, n) == 0 == Bits(BitAnd, 0, x, n)
    ensures Bits(BitAnd, x, Pow2(n) - 1, n) == x
  {
    if n > 0 {
      Halve(x, 0, n);
      AndLaws(x / 2, n - 1);
    }
  }

  /** Exclusive or with 0 gives x back, with itself 0, with all ones the complement. */
  lemma {:induction false} XorLaws(x: nat, n: nat)
    requires x < Pow2(n)
    ensures Bits(BitXor, x, 0, n) == x == Bits(BitXor, 0, x, n) && Bits(BitXor, x, x, n) == 0
    ensures Bits(BitXor, x, Pow2(n) - 1, n) == Pow2(n) - 1 - x
  {
    if n > 0 {
      Halve(x, 0, n);
      XorLaws(x / 2, n - 1);
    }
  }

  /** And is the carries of a sum, exclusive or the sum without them, or both together. */
  lemma {:induction false} BitsAndSums(x: nat, y: nat, n: nat)
    requires x < Pow2(n) && y < Pow2(n)
    ensures Bits(BitXor, x, y, n) + 2 * Bits(BitAnd, x, y, n) == x + y
    ensures Bits(BitOr, x, y, n) + Bits(BitAnd, x, y, n) == x + y
  {
    if n > 0 {
      Halve(x, 0, n);
      Halve(y, 0, n);
      BitsAndSums(x / 2, y / 2, n - 1);
    }
  }

  /** Or of two numbers without common bits is their sum. */
  lemma OrDisjoint(x: nat, v: nat, k: nat, n: nat)
    requires x < Pow2(k) && v < Pow2(n)
    ensures Bits(BitOr, x, Pow2(k) * v, k + n) == x + Pow2(k) * v
  {
    BitsSplit(BitOr, x, 0, 0, v, k, n);
    OrZero(x, k);
    OrZero(v, n);
  }
}
