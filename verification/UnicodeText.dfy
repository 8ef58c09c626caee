/** UTF-16 and UTF-8 text: what is well formed, how it is encoded, and what the decoder makes of it. */
module UnicodeText {

  const HIGH_START := 0xD800
  const HIGH_END := 0xDBFF
  const LOW_START := 0xDC00
  const LOW_END := 0xDFFF

  predicate High(u: int) { HIGH_START <= u <= HIGH_END }
  predicate Low(u: int) { LOW_START <= u <= LOW_END }

  /** A character of the basic plane in one UTF-16 unit, other than the terminator. */
  predicate Bmp(u: int) { 0 < u < 0x1_0000 && !High(u) && !Low(u) }

  ghost predicate AllBmp(s: seq<int>) { forall i :: 0 <= i < |s| ==> Bmp(s[i]) }

  ghost predicate Bytes(s: seq<int>) { forall i :: 0 <= i < |s| ==> 0 <= s[i] < 0x100 }
  ghost predicate Units(s: seq<int>) { forall i :: 0 <= i < |s| ==> 0 <= s[i] < 0x1_0000 }

  /** UTF-16 without a terminator: characters of the basic plane and surrogate pairs. */
  ghost predicate WellFormed(s: seq<int>)
  {
    s == [] ||
    if High(s[0]) then |s| > 1 && Low(s[1]) && WellFormed(s[2..]) else Bmp(s[0]) && WellFormed(s[1..])
  }

  /** Units of the first character. */
  function Width(s: seq<int>): (n: nat)
    requires s != []
    ensures 1 <= n <= |s|
  {
    if High(s[0]) && |s| > 1 then 2 else 1
  }

  /** UTF-8 of one unit (section 3 of RFC 3629). */
  function Enc(u: int): (b: seq<int>)
  {
    if u < 0x80 then [u]
    else if u < 0x800 then [0xC0 + u / 64, 0x80 + u % 64]
    else [0xE0 + u / 4096, 0x80 + u / 64 % 64, 0x80 + u % 64]
  }

  function FourBytes(ch: int): (b: seq<int>)
  {
    [0xF0 + ch / 262144 % 8, 0x80 + ch / 4096 % 64, 0x80 + ch / 64 % 64, 0x80 + ch % 64]
  }

  /** The bytes of a unit, or of a surrogate pair, as ConvertToUTF8 computes them with 32-bit arithmetic. */
  function UnitBytes(u: int, low: int): (b: seq<int>)
  {
    if High(u) then FourBytes((0x1_0000 + (u - HIGH_START) * 0x400 + (low - LOW_START)) % 0x1_0000_0000) else Enc(u)
  }

  function FirstBytes(s: seq<int>): (b: seq<int>)
    requires s != []
  {
    UnitBytes(s[0], if Width(s) == 2 then s[1] else 0)
  }

  /** UTF-8 of a string. */
  function EncAll(s: seq<int>): (b: seq<int>)
  {
    if s == [] then [] else FirstBytes(s) + EncAll(s[Width(s)..])
  }

  /** The unit or the two units that the bytes of one character become; continuation bytes are not checked. */
  function Decode(b: seq<int>): (u: seq<int>)
    requires 1 <= |b| <= 4
    ensures |u| == if |b| == 4 then 2 else 1
  {
    if |b| == 1 then [b[0]]
    else if |b| == 2 then [b[0] % 32 * 64 + b[1] % 64]
    else if |b| == 3 then [(b[0] % 16 * 64 + b[1] % 64) * 64 + b[2] % 64]
    else
      var ch := ((b[0] % 8 * 64 + b[1] % 64) * 64 + b[2] % 64) * 64 + b[3] % 64;
      [ch / 0x400 + HIGH_START, ch % 0x400 + LOW_START]
  }

  /** The string with every high surrogate 0x40 further up. */
  function Shifted(s: seq<int>): (t: seq<int>)
    ensures |t| == |s| && forall i :: 0 <= i < |s| ==> t[i] == if High(s[i]) then s[i] + 0x40 else s[i]
  {
    seq(|s|, i requires 0 <= i < |s| => if High(s[i]) then s[i] + 0x40 else s[i])
  }

  /** A well-formed string is its own shift exactly when all of it is in the basic plane. */
  lemma {:induction false} ShiftedSame(s: seq<int>)
    requires WellFormed(s)
    ensures Shifted(s) == s <==> AllBmp(s)
    ensures AllBmp(s) <==> forall i :: 0 <= i < |s| ==> !High(s[i])
    decreases |s|
  {
    if s != [] {
      var n := Width(s);
      ShiftedSame(s[n..]);
      assert forall i :: n <= i < |s| ==> s[i] == s[n..][i - n];
      assert forall i :: 0 <= i < |s| && High(s[i]) ==> Shifted(s)[i] != s[i];
      if AllBmp(s[n..]) && n == 1 { assert AllBmp(s); }
      if exists i :: 0 <= i < |s| && High(s[i]) {
        var i :| 0 <= i < |s| && High(s[i]);
        assert !Bmp(s[i]);
      }
    }
  }

  /** Every string of the basic plane is well formed. */
  lemma {:induction false} BmpWellFormed(s: seq<int>)
    requires AllBmp(s)
    ensures WellFormed(s)
    decreases |s|
  {
    if s != [] { BmpWellFormed(s[1..]); }
  }

  // ---- One character ----

  /** Bytes of the character that starts with b, 0 when reading stops there. */
  function LeadLength(b: int): (n: nat)
  {
    if b <= 0 then 0 else if b < 0x80 then 1 else if b < 0xC2 then 0 else if b < 0xE0 then 2
    else if b < 0xF0 then 3 else if b < 0xF5 then 4 else 0
  }

  /** Bytes of a character as CountNumberOfCharacters reads it, 0 for an illegal first byte. */
  function NibbleLength(b: int): (n: nat)
  {
    if b < 0x80 then 1 else if b < 0xC0 then 0 else if b < 0xE0 then 2 else if b < 0xF0 then 3 else 4
  }

  predicate Continuation(b: int) { 0x80 <= b <= 0xBF }

  /** The bytes of one character, as every reader expects them. */
  ghost predicate OneCharacter(b: seq<int>)
  {
    && 1 <= |b| <= 4 && 0 < b[0] < 0x100 && NibbleLength(b[0]) == LeadLength(b[0]) == |b|
    && forall j :: 1 <= j < |b| ==> Continuation(b[j])
  }

  lemma EncUnit(u: int)
    requires Bmp(u)
    ensures OneCharacter(Enc(u)) && |Enc(u)| <= 3
  {
  }

  lemma DecodeTwo(u: int)
    requires 0x80 <= u < 0x800
    ensures Decode(Enc(u)) == [u]
  {
    assert (0xC0 + u / 64) % 32 == u / 64;
    LowPart(0x80, u % 64);
  }

  lemma DecodeThree(u: int)
    requires 0x800 <= u < 0x1_0000
    ensures Decode(Enc(u)) == [u]
  {
    var hi, mid, lo := u / 4096, u / 64 % 64, u % 64;
    assert (0xE0 + hi) % 16 == hi;
    LowPart(0x80, mid);
    LowPart(0x80, lo);
    Digits(u);
    assert u / 262144 == 0 && u / 4096 % 64 == hi;
  }

  /** Decoding the bytes of a unit gives it back. */
  lemma DecodeUnit(u: int)
    requires Bmp(u)
    ensures 1 <= |Enc(u)| <= 3 && Decode(Enc(u)) == [u]
  {
    hide Decode;
    if u < 0x80 { DecodeOne(u); } else if u < 0x800 { DecodeTwo(u); } else { DecodeThree(u); }
  }

  lemma DecodeOne(u: int)
    requires 0 <= u < 0x80
    ensures Decode(Enc(u)) == [u]
  {
  }

  /** Of a surrogate pair the high half comes back 0x40 too large: encoding adds the base of the
      supplementary planes, decoding does not take it off again. */
  lemma DecodePair(high: int, low: int)
    requires High(high) && Low(low)
    ensures OneCharacter(UnitBytes(high, low)) && |UnitBytes(high, low)| == 4
    ensures Decode(UnitBytes(high, low)) == [high + 0x40, low]
  {
    hide Decode, FourBytes;
    var ch := 0x1_0000 + (high - HIGH_START) * 0x400 + (low - LOW_START);
    PairValue(high - HIGH_START, low - LOW_START);
    DecodeFour(ch);
    FourCharacter(ch);
    assert UnitBytes(high, low) == FourBytes(ch);
  }

  lemma PairValue(hi: int, lo: int)
    requires 0 <= hi < 0x400 && 0 <= lo < 0x400
    ensures var ch := 0x1_0000 + hi * 0x400 + lo;
      0x1_0000 <= ch < 0x11_0000 && ch % 0x1_0000_0000 == ch && ch / 0x400 == hi + 0x40 && ch % 0x400 == lo
  {
  }

  lemma FourCharacter(ch: int)
    requires 0x1_0000 <= ch < 0x11_0000
    ensures OneCharacter(FourBytes(ch)) && |FourBytes(ch)| == 4
  {
    assert 0 <= ch / 262144 < 5;
  }

  lemma DecodeFour(ch: int)
    requires 0 <= ch < 0x20_0000
    ensures Decode(FourBytes(ch)) == [ch / 0x400 + HIGH_START, ch % 0x400 + LOW_START]
  {
    var a, b, c, d := ch / 262144, ch / 4096 % 64, ch / 64 % 64, ch % 64;
    Digits(ch);
    LowPart(0x80, b);
    LowPart(0x80, c);
    LowPart(0x80, d);
    LeadPart(a);
    assert FourBytes(ch) == [0xF0 + a, 0x80 + b, 0x80 + c, 0x80 + d];
    assert ((a * 64 + b) * 64 + c) * 64 + d == ch;
  }

  lemma LeadPart(a: int)
    requires 0 <= a < 8
    ensures a % 8 == a && (0xF0 + a) % 8 == a
  {
  }

  lemma LowPart(mark: int, x: int)
    requires mark % 64 == 0 && 0 <= x < 64
    ensures (mark + x) % 64 == x
  {
  }

  /** A number from its digits to base 64. */
  lemma Digits(ch: int)
    requires 0 <= ch < 0x20_0000
    ensures ((ch / 262144 * 64 + ch / 4096 % 64) * 64 + ch / 64 % 64) * 64 + ch % 64 == ch && 0 <= ch / 262144 < 8
  {
    var a, b, c := ch / 64, ch / 4096, ch / 262144;
    assert ch == 64 * a + ch % 64;
    assert a / 64 == b && a == 64 * b + a % 64;
    assert b / 64 == c && b == 64 * c + b % 64;
  }

  lemma FirstParts(s: seq<int>)
    requires WellFormed(s) && s != []
    ensures WellFormed(s[Width(s)..]) && s[0] > 0 && (High(s[0]) <==> Width(s) == 2)
    ensures if High(s[0]) then Low(s[1]) && FirstBytes(s) == UnitBytes(s[0], s[1])
            else Bmp(s[0]) && FirstBytes(s) == Enc(s[0])
  {
  }

  lemma FirstShifted(s: seq<int>, n: nat)
    requires n <= |s|
    ensures Shifted(s) == Shifted(s)[..n] + Shifted(s[n..])
    ensures n == 1 && !High(s[0]) ==> Shifted(s)[..n] == [s[0]]
    ensures n == 2 && High(s[0]) && !High(s[1]) ==> Shifted(s)[..n] == [s[0] + 0x40, s[1]]
  {
    assert Shifted(s)[n..] == Shifted(s[n..]);
  }

  /** The first character of a well-formed string: its bytes, and what they decode to. */
  lemma FirstCharacter(s: seq<int>)
    requires WellFormed(s) && s != []
    ensures WellFormed(s[Width(s)..]) && s[0] > 0 && (High(s[0]) <==> Width(s) == 2)
    ensures OneCharacter(FirstBytes(s)) && (|FirstBytes(s)| == 4 <==> High(s[0]))
    ensures Decode(FirstBytes(s)) == Shifted(s)[..Width(s)]
    ensures EncAll(s) == FirstBytes(s) + EncAll(s[Width(s)..])
    ensures Shifted(s) == Shifted(s)[..Width(s)] + Shifted(s[Width(s)..])
  {
    hide Decode, UnitBytes, Enc, FirstBytes, OneCharacter, WellFormed;
    FirstParts(s);
    FirstShifted(s, Width(s));
    if High(s[0]) {
      DecodePair(s[0], s[1]);
    } else {
      EncUnit(s[0]);
      DecodeUnit(s[0]);
    }
  }

  lemma CharacterBytes(b: seq<int>, rest: seq<int>)
    requires OneCharacter(b) && Bytes(rest)
    ensures Bytes(b + rest)
  {
  }

  /** At most three bytes for every unit. */
  lemma {:induction false} EncBound(s: seq<int>)
    requires WellFormed(s)
    ensures |EncAll(s)| <= 3 * |s| && Bytes(EncAll(s))
    decreases |s|
  {
    hide FirstBytes, Decode, OneCharacter, Bytes, WellFormed;
    if s != [] {
      FirstCharacter(s);
      EncBound(s[Width(s)..]);
      CharacterBytes(FirstBytes(s), EncAll(s[Width(s)..]));
      CharacterLength(FirstBytes(s));
    } else {
      NoBytes();
    }
  }

  lemma NoBytes()
    ensures Bytes([])
  {
  }

  lemma CharacterLength(b: seq<int>)
    requires OneCharacter(b)
    ensures 1 <= |b| <= 4
  {
  }

  lemma {:induction false} WellFormedUnits(s: seq<int>)
    requires WellFormed(s)
    ensures Units(s)
    decreases |s|
  {
    if s != [] {
      var n := Width(s);
      WellFormedUnits(s[n..]);
      assert forall i :: n <= i < |s| ==> s[i] == s[n..][i - n];
    }
  }

  /** The smallest string that does not come back: U+10000. */
  lemma PairInstance()
    ensures var s := [0xD800, 0xDC00];
      WellFormed(s) && EncAll(s) == [0xF0, 0x90, 0x80, 0x80] && Shifted(s) == [0xD840, 0xDC00] && !AllBmp(s)
  {
    var s := [0xD800, 0xDC00];
    assert s[2..] == [] && EncAll([]) == [];
    assert FourBytes(0x1_0000) == [0xF0, 0x90, 0x80, 0x80];
    assert !Bmp(s[0]);
  }
}
