/** CLR_RT_UnicodeHelper's two counts, and where the converters may read. */
module UnicodeHelper {
  import opened UnicodeText

  // ---- Where the converters may read ----

  /** Every character that is announced from position i on is there in full, up to the terminator. */
  ghost predicate Framed8(s: seq<int>, i: int)
    decreases |s| - i
  {
    0 <= i < |s| && (LeadLength(s[i]) == 0 || Framed8(s, i + LeadLength(s[i])))
  }

  /** A high surrogate is followed by another unit before the terminator. */
  ghost predicate Framed16(s: seq<int>, i: int)
    decreases |s| - i
  {
    0 <= i < |s| && (s[i] == 0 || Framed16(s, i + (if High(s[i]) then 2 else 1)))
  }

  // ---- Counting ----

  /** From position i on, first bytes are followed by the right number of continuation bytes, for max
      characters (for all if max is negative) or up to the first zero. */
  ghost predicate Grammar8(s: seq<int>, i: int, max: int)
    decreases |s| - i
  {
    && 0 <= i < |s|
    && (s[i] == 0 || max == 0 ||
        (var n := NibbleLength(s[i]);
         && n >= 1 && i + n <= |s| && (forall j :: i < j < i + n ==> Continuation(s[j]))
            && Grammar8(s, i + n, max - 1)))
  }

  /** UTF-16 units of these characters. */
  ghost function Units8(s: seq<int>, i: int, max: int): (n: nat)
    requires Grammar8(s, i, max)
    decreases |s| - i
  {
    if s[i] == 0 || max == 0 then 0
    else (if NibbleLength(s[i]) == 4 then 2 else 1) + Units8(s, i + NibbleLength(s[i]), max - 1)
  }

  /** There is a zero at or behind position i. */
  ghost predicate Terminated(s: seq<int>, i: int)
  {
    0 <= i < |s| && exists j :: i <= j < |s| && s[j] == 0
  }

  lemma StillTerminated(s: seq<int>, i: int, n: nat)
    requires Terminated(s, i) && (forall j :: i <= j < i + n && j < |s| ==> s[j] != 0)
    ensures Terminated(s, i + n)
  {
  }

  /** The n - 1 bytes behind position p continue a character. */
  method Continued(input: seq<int>, p: nat, n: nat) returns (ok: bool)
    requires n >= 1 && Terminated(input, p + 1)
    ensures ok ==> Terminated(input, p + n) && forall j :: p < j < p + n ==> Continuation(input[j])
    ensures !ok ==> exists j :: p < j < p + n && j < |input| && !Continuation(input[j])
  {
    var k := 1;
    while k < n
      invariant 1 <= k <= n && Terminated(input, p + k) && forall j :: p < j < p + k ==> Continuation(input[j])
    {
      if !Continuation(input[p + k]) { return false; }
      StillTerminated(input, p + k, 1);
      k := k + 1;
    }
    return true;
  }

  /** CountNumberOfCharacters: the UTF-16 length of the first max characters of a UTF-8 string, all of them if
      max is negative; -1 if they are ill-formed.  Nothing is read behind the terminator. */
  method CountNumberOfCharacters(input: seq<int>, max: int) returns (num: int)
    requires Bytes(input) && Terminated(input, 0)
    ensures num == if Grammar8(input, 0, max) then Units8(input, 0, max) else -1
  {
    var p, left := 0, max;
    num := 0;
    while true
      invariant Terminated(input, p) && 0 <= num
      invariant Grammar8(input, 0, max) <==> Grammar8(input, p, left)
      invariant Grammar8(input, 0, max) ==> num + Units8(input, p, left) == Units8(input, 0, max)
      decreases |input| - p
    {
      var ch := input[p];
      if ch == 0 { break; }
      if left == 0 { break; }
      left := left - 1;
      if ch < 0x80 {
        num := num + 1;
        StillTerminated(input, p, 1);
        p := p + 1;
      } else if ch < 0xC0 {
        return -1;
      } else {
        var n := if ch < 0xE0 then 2 else if ch < 0xF0 then 3 else 4;
        StillTerminated(input, p, 1);
        var ok := Continued(input, p, n);
        if !ok { return -1; }
        num := num + if n == 4 then 2 else 1;
        p := p + n;
      }
    }
  }

  /** From position i on, surrogates come in pairs, for max characters or up to the first zero. */
  ghost predicate Grammar16(s: seq<int>, i: int, max: int)
    decreases |s| - i
  {
    && 0 <= i < |s|
    && (s[i] == 0 || max == 0 ||
        if High(s[i]) then i + 1 < |s| && LOW_START <= s[i + 1] <= LOW_END && Grammar16(s, i + 2, max - 1)
        else !(LOW_START <= s[i] <= LOW_END) && Grammar16(s, i + 1, max - 1))
  }

  function ByteLength(u: int): (n: nat)
  {
    if u < 0x80 then 1 else if u < 0x800 then 2 else if High(u) then 4 else 3
  }

  ghost function Bytes16(s: seq<int>, i: int, max: int): (n: nat)
    requires Grammar16(s, i, max)
    decreases |s| - i
  {
    if s[i] == 0 || max == 0 then 0 else ByteLength(s[i]) + Bytes16(s, i + (if High(s[i]) then 2 else 1), max - 1)
  }

  /** CountNumberOfBytes: the UTF-8 length of the first max characters of a UTF-16 string, -1 for an unpaired
      surrogate among them. */
  method CountNumberOfBytes(input: seq<int>, max: int) returns (num: int)
    requires Units(input) && Terminated(input, 0)
    ensures num == if Grammar16(input, 0, max) then Bytes16(input, 0, max) else -1
  {
    var p, left := 0, max;
    num := 0;
    while true
      invariant Terminated(input, p) && 0 <= num
      invariant Grammar16(input, 0, max) <==> Grammar16(input, p, left)
      invariant Grammar16(input, 0, max) ==> num + Bytes16(input, p, left) == Bytes16(input, 0, max)
      decreases |input| - p
    {
      var ch := input[p];
      if ch == 0 { break; }
      if left == 0 { break; }
      left := left - 1;
      StillTerminated(input, p, 1);
      p := p + 1;
      if ch < 0x80 {
        num := num + 1;
      } else if ch < 0x800 {
        num := num + 2;
      } else if LOW_START <= ch <= LOW_END {
        return -1;
      } else if High(ch) {
        var low := input[p];
        if !(LOW_START <= low <= LOW_END) { return -1; }
        StillTerminated(input, p, 1);
        p := p + 1;
        num := num + 4;
      } else {
        num := num + 3;
      }
    }
  }

  // ---- The counts of well-formed strings ----

  /** s, and a zero behind it, from position i on. */
  ghost predicate TextAt(input: seq<int>, i: int, s: seq<int>)
  {
    0 <= i && i + |s| < |input| && input[i..i + |s|] == s && input[i + |s|] == 0
  }

  lemma TextNext(input: seq<int>, i: int, s: seq<int>, n: nat)
    requires TextAt(input, i, s) && n <= |s|
    ensures TextAt(input, i + n, s[n..]) && 0 <= i && i + n < |input| && input[i..i + n] == s[..n]
    ensures forall j :: 0 <= j < n ==> input[i + j] == s[j]
  {
    var piece := input[i..i + |s|];
    forall j | 0 <= j < |s| ensures input[i + j] == s[j] { assert piece[j] == input[i + j]; }
    assert input[i + n..i + |s|] == s[n..];
  }

  /** The encoding of a string is read to its end, and counted as the string's own length. */
  lemma {:induction false} EncGrammar(s: seq<int>, input: seq<int>, i: int, max: int)
    requires WellFormed(s) && TextAt(input, i, EncAll(s)) && max < 0
    ensures Grammar8(input, i, max) && Units8(input, i, max) == |s| && Framed8(input, i)
    decreases |s|
  {
    hide WellFormed, FirstBytes, EncAll, Decode, TextAt, NibbleLength, LeadLength, Continuation;
    if s == [] {
      NoneEncoded(input, i);
    } else {
      FirstCharacter(s);
      var b, rest := FirstBytes(s), s[Width(s)..];
      CharacterLength(b);
      assert EncAll(s)[|b|..] == EncAll(rest) && EncAll(s)[..|b|] == b;
      TextNext(input, i, EncAll(s), |b|);
      EncGrammar(rest, input, i + |b|, max - 1);
      CharacterAt(input, i, b);
    }
  }

  lemma NoneEncoded(input: seq<int>, i: int)
    requires TextAt(input, i, EncAll([]))
    ensures 0 <= i < |input| && input[i] == 0 && LeadLength(input[i]) == 0
  {
  }

  lemma CharacterAt(input: seq<int>, i: int, b: seq<int>)
    requires OneCharacter(b) && 0 <= i && i + |b| <= |input| && input[i..i + |b|] == b
    ensures input[i] != 0 && NibbleLength(input[i]) == LeadLength(input[i]) == |b|
    ensures forall j :: i < j < i + |b| ==> Continuation(input[j])
  {
    assert input[i..i + |b|][0] == input[i];
    forall j | i < j < i + |b| ensures Continuation(input[j]) { assert input[i..i + |b|][j - i] == b[j - i]; }
  }

  /** A well-formed string is read to its end, and counted as the length of its encoding. */
  lemma {:induction false} SourceGrammar(s: seq<int>, input: seq<int>, i: int, max: int)
    requires WellFormed(s) && TextAt(input, i, s) && max < 0
    ensures Grammar16(input, i, max) && Bytes16(input, i, max) == |EncAll(s)| && Framed16(input, i)
    decreases |s|
  {
    hide EncAll, TextAt, UnitBytes;
    TextNext(input, i, s, 0);
    if s == [] {
      SourceEnd(input, i);
    } else {
      var n := Width(s);
      TextNext(input, i, s, n);
      SourceGrammar(s[n..], input, i + n, max - 1);
      FirstLength(s);
      assert input[i + 0] == s[0];
      if n == 2 { assert input[i + 1] == s[1]; }
    }
  }

  lemma SourceEnd(input: seq<int>, i: int)
    requires TextAt(input, i, [])
    ensures 0 <= i < |input| && input[i] == 0 && |EncAll([])| == 0
  {
  }

  lemma FirstLength(s: seq<int>)
    requires WellFormed(s) && s != []
    ensures |EncAll(s)| == ByteLength(s[0]) + |EncAll(s[Width(s)..])|
  {
  }
}
