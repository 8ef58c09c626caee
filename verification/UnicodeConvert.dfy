/** The two converters.  Each works on a window of the output and reports how far it came. */
module UnicodeConvert {
  import opened UnicodeText
  import opened UnicodeHelper

  /** What lies outside the window [to, to + size) is left alone. */
  ghost predicate Outside(a: seq<int>, a': seq<int>, to: int, size: int)
  {
    |a'| == |a| && forall i :: 0 <= i < |a| && !(to <= i < to + size) ==> a'[i] == a[i]
  }

  // ---- To UTF-8 ----

  /** Reading s uses up the allowance of max characters exactly, or the terminator follows; a surrogate pair
      costs nothing of the allowance. */
  ghost predicate Stops(s: seq<int>, max: int, next: int)
    decreases |s|
  {
    if s == [] then max <= 0 || next == 0
    else max > 0 && Stops(s[Width(s)..], max - (if High(s[0]) then 0 else 1), next)
  }

  /** s is what a conversion of at most max characters reads from position i on. */
  ghost predicate Reads(input: seq<int>, i: int, s: seq<int>, max: int)
  {
    WellFormed(s) && 0 <= i && i + |s| < |input| && input[i..i + |s|] == s && Stops(s, max, input[i + |s|])
  }

  /** One character further. */
  lemma ReadsNext(input: seq<int>, i: int, s: seq<int>, max: int)
    requires Reads(input, i, s, max)
    ensures max <= 0 ==> s == []
    ensures s == [] ==> 0 <= i < |input| && (max > 0 ==> input[i] == 0)
    ensures s != [] ==>
      && 0 <= i && i + Width(s) < |input| && input[i] == s[0] && s[0] != 0 && (High(s[0]) <==> Width(s) == 2)
      && (High(s[0]) ==> input[i + 1] == s[1])
      && Reads(input, i + Width(s), s[Width(s)..], max - (if High(s[0]) then 0 else 1))
  {
    if s != [] {
      var n := Width(s);
      var piece := input[i..i + |s|];
      assert input[i] == piece[0] && (n == 2 ==> input[i + 1] == piece[1]);
      assert input[i + n..i + n + |s[n..]|] == piece[n..];
    }
  }

  /** A terminated string is read in full whenever the allowance is at least its length. */
  lemma {:induction false} StopsAtEnd(s: seq<int>, max: int)
    requires |s| <= max
    ensures Stops(s, max, 0)
    decreases |s|
  {
    if s != [] { StopsAtEnd(s[Width(s)..], max - (if High(s[0]) then 0 else 1)); }
  }

  /** A string of the basic plane is read in full when the allowance is its length. */
  lemma {:induction false} StopsBmp(s: seq<int>, next: int)
    requires AllBmp(s)
    ensures Stops(s, |s|, next)
    decreases |s|
  {
    if s != [] { StopsBmp(s[1..], next); }
  }

  /** A string of the basic plane is read when the allowance ends with it, or it is terminated within the
      allowance. */
  lemma ReadsBmp(input: seq<int>, i: int, s: seq<int>, max: int)
    requires AllBmp(s) && 0 <= i && i + |s| < |input| && input[i..i + |s|] == s
    requires |s| <= max && (|s| == max || input[i + |s|] == 0)
    ensures Reads(input, i, s, max)
  {
    BmpWellFormed(s);
    if |s| == max { StopsBmp(s, input[i + |s|]); } else { StopsAtEnd(s, max); }
  }

  method WriteBytes(output: array<int>, to: nat, bytes: seq<int>)
    requires to + |bytes| <= output.Length
    modifies output
    ensures Outside(old(output[..]), output[..], to, |bytes|)
    ensures output[..][..to] == old(output[..])[..to] && output[..][to..to + |bytes|] == bytes
  {
    for i := 0 to |bytes|
      invariant forall j :: 0 <= j < output.Length && !(to <= j < to + i) ==> output[j] == old(output[j])
      invariant forall j :: 0 <= j < i ==> output[to + j] == bytes[j]
    {
      output[to + i] := bytes[i];
    }
  }

  /** A change inside part of the window is a change inside the window. */
  lemma OutsideCompose(a: seq<int>, a1: seq<int>, a2: seq<int>, to0: int, size0: int, to: int, n: int)
    requires Outside(a, a1, to0, size0) && Outside(a1, a2, to, n) && to0 <= to && to + n <= to0 + size0
    ensures Outside(a, a2, to0, size0)
  {
  }

  lemma UnitBytesLength(u: int, low: int)
    ensures 1 <= |UnitBytes(u, low)| <= 4
  {
  }

  lemma FirstBytesOf(s: seq<int>, ch: int, low: int)
    requires WellFormed(s) && s != [] && ch == s[0] && (High(ch) ==> low == s[1])
    ensures FirstBytes(s) == UnitBytes(ch, low) && EncAll(s) == UnitBytes(ch, low) + EncAll(s[Width(s)..])
  {
  }

  /** The text in the window grows by what was written behind it. */
  lemma Grown(a: seq<int>, a': seq<int>, to0: int, to: int, b: seq<int>, rest: seq<int>, whole: seq<int>)
    requires 0 <= to0 <= to && to + |b| <= |a| == |a'| && a'[..to] == a[..to] && a'[to..to + |b|] == b
    requires a[to0..to] + (b + rest) == whole
    ensures a'[to0..to + |b|] + rest == whole
  {
    assert a'[to0..to] == a'[..to][to0..] == a[..to][to0..] == a[to0..to];
    assert a'[to0..to + |b|] == a'[to0..to] + a'[to..to + |b|];
  }

  lemma OutsideNone(a: seq<int>, to: int, size: int)
    ensures Outside(a, a, to, size)
  {
  }

  lemma Finished(a: seq<int>, a': seq<int>, to0: int, to: int)
    requires 0 <= to0 <= to < |a| == |a'| && a'[..to] == a[..to] && a'[to..to + 1] == [0]
    ensures a'[to0..to] == a[to0..to] && a'[to] == 0
  {
    assert a'[to0..to] == a'[..to][to0..] && a[to0..to] == a[..to][to0..];
    assert a'[to..to + 1][0] == a'[to];
  }

  /** A string can be read on while it is not at its end. */
  lemma FramedNext(input: seq<int>, i: int)
    requires Framed16(input, i)
    ensures 0 <= i < |input| && (input[i] != 0 ==> Framed16(input, i + if High(input[i]) then 2 else 1))
    ensures input[i] != 0 && High(input[i]) ==> i + 1 < |input|
  {
  }

  /** The bytes of the next character, and the room they leave. */
  lemma NextBytes(rest: seq<int>, ch: int, low: int, a: seq<int>, to0: int, to: int, whole: seq<int>)
    requires WellFormed(rest) && rest != [] && ch == rest[0] && (High(ch) ==> low == rest[1])
    requires 0 <= to0 <= to <= |a| && a[to0..to] + EncAll(rest) == whole
    ensures a[to0..to] + (UnitBytes(ch, low) + EncAll(rest[Width(rest)..])) == whole
    ensures to - to0 + |UnitBytes(ch, low)| <= |whole|
  {
    FirstBytesOf(rest, ch, low);
    assert |a[to0..to] + EncAll(rest)| == |whole|;
  }

  lemma AllWritten(a: seq<int>, to0: int, to: int, s: seq<int>)
    requires 0 <= to0 <= to <= |a| && a[to0..to] + EncAll([]) == EncAll(s)
    ensures a[to0..to] == EncAll(s) && to - to0 == |EncAll(s)|
  {
    assert EncAll([]) == [];
  }

  lemma ReadsWellFormed(input: seq<int>, i: int, s: seq<int>, max: int)
    requires Reads(input, i, s, max)
    ensures WellFormed(s)
  {
  }

  lemma NothingWritten(a: seq<int>, to: int, whole: seq<int>)
    requires 0 <= to <= |a|
    ensures a[to..to] + whole == whole
  {
  }

  /** ConvertToUTF8; s is a name for what is read. */
  method ConvertToUTF8(input: seq<int>, from0: nat, output: array<int>, to0: nat, size0: nat,
                       maxChars: int, justMove: bool, ghost s: seq<int>)
    returns (res: bool, from: nat, to: nat, size: nat)
    requires Units(input) && Framed16(input, from0) && to0 + size0 <= output.Length
    modifies output
    ensures Outside(old(output[..]), output[..], to0, size0) && to0 <= to && to + size == to0 + size0
    ensures justMove ==> res && output[..] == old(output[..]) && to == to0
    ensures Reads(input, from0, s, maxChars) && !justMove ==> (res <==> |EncAll(s)| + 1 <= size0)
    ensures Reads(input, from0, s, maxChars) && !justMove && res ==>
      && to == to0 + |EncAll(s)| < output.Length && output[..][to0..to] == EncAll(s) && output[to] == 0
  {
    hide EncAll, FirstBytes, UnitBytes, Framed16, Outside, Reads, WellFormed;
    OutsideNone(output[..], to0, size0);
    NothingWritten(output[..], to0, EncAll(s));
    from, to, size := from0, to0, size0;
    var left := maxChars;
    ghost var rest, stopped := s, false;
    ghost var exact := Reads(input, from0, s, maxChars) && !justMove;
    while left > 0
      invariant Framed16(input, from) && to0 <= to && to + size == to0 + size0
      invariant Outside(old(output[..]), output[..], to0, size0)
      invariant !stopped && (justMove ==> output[..] == old(output[..]) && to == to0)
      invariant exact ==> Reads(input, from, rest, left) && output[..][to0..to] + EncAll(rest) == EncAll(s)
      decreases |input| - from
    {
      FramedNext(input, from);
      if exact { ReadsNext(input, from, rest, left); }
      ghost var start, allowance := from, left;
      var ch := input[from];
      from := from + 1;
      if ch == 0 {
        stopped := true;
        break;
      }
      var low := 0;
      if High(ch) {
        low := input[from];
        from := from + 1;
      } else {
        left := left - 1;
      }
      if !justMove {
        UnitBytesLength(ch, low);
        var bytes := UnitBytes(ch, low);
        if exact {
          ReadsWellFormed(input, start, rest, allowance);
          NextBytes(rest, ch, low, output[..], to0, to, EncAll(s));
        }
        if size < |bytes| { return false, from, to, size; }
        ghost var before := output[..];
        WriteBytes(output, to, bytes);
        OutsideCompose(old(output[..]), before, output[..], to0, size0, to, |bytes|);
        if exact {
          Grown(before, output[..], to0, to, bytes, EncAll(rest[Width(rest)..]), EncAll(s));
          rest := rest[Width(rest)..];
        }
        to, size := to + |bytes|, size - |bytes|;
      }
    }
    if exact {
      if !stopped { ReadsNext(input, from, rest, left); }
      AllWritten(output[..], to0, to, s);
    }
    if !justMove {
      if size < 1 { return false, from, to, size; }
      ghost var before := output[..];
      WriteBytes(output, to, [0]);
      OutsideCompose(old(output[..]), before, output[..], to0, size0, to, 1);
      Finished(before, output[..], to0, to);
    }
    res := true;
  }

  // ---- Back to UTF-16 ----

  /** The bytes of s stand in the input from position i on. */
  ghost predicate ReadsBytes(input: seq<int>, i: int, s: seq<int>)
  {
    WellFormed(s) && 0 <= i && i + |EncAll(s)| < |input| && input[i..i + |EncAll(s)|] == EncAll(s)
  }

  /** One character further. */
  lemma ReadsBytesNext(input: seq<int>, i: int, s: seq<int>)
    requires ReadsBytes(input, i, s) && s != []
    ensures var n, w := |FirstBytes(s)|, Width(s);
      && 1 <= n <= 4 && 0 <= i && i + n < |input| && LeadLength(input[i]) == n && w == (if n == 4 then 2 else 1)
      && |EncAll(s)| == n + |EncAll(s[w..])| && ReadsBytes(input, i + n, s[w..])
      && Decode(input[i..i + n]) + Shifted(s[w..]) == Shifted(s)
  {
    hide FirstBytes, EncAll, Decode, Shifted, LeadLength, NibbleLength, WellFormed;
    FirstCharacter(s);
    var b, rest := FirstBytes(s), EncAll(s[Width(s)..]);
    CharacterLength(b);
    var piece := input[i..i + |EncAll(s)|];
    assert piece == b + rest;
    assert input[i..i + |b|] == piece[..|b|] == b;
    assert input[i + |b|..i + |b| + |rest|] == piece[|b|..] == rest;
    CharacterAt(input, i, b);
  }

  lemma EncNotEmpty(s: seq<int>)
    ensures s == [] ==> EncAll(s) == [] && Shifted(s) == []
    ensures WellFormed(s) && s != [] ==> |EncAll(s)| >= 1
  {
    hide Decode, OneCharacter;
    if WellFormed(s) && s != [] {
      FirstCharacter(s);
      CharacterLength(FirstBytes(s));
    }
  }

  lemma ReadsBytesBounds(input: seq<int>, i: int, s: seq<int>)
    requires ReadsBytes(input, i, s)
    ensures WellFormed(s)
  {
  }

  lemma Framed8Next(input: seq<int>, i: int)
    requires Framed8(input, i)
    ensures 0 <= i < |input|
    ensures LeadLength(input[i]) > 0 ==> i + LeadLength(input[i]) < |input| && Framed8(input, i + LeadLength(input[i]))
  {
  }

  lemma PieceLength(input: seq<int>, i: nat, n: nat)
    requires i + n <= |input|
    ensures |input[i..i + n]| == n
  {
  }

  lemma LeadBounds(b: int)
    ensures LeadLength(b) <= 4
  {
  }

  lemma AllDecoded(a: seq<int>, to0: int, to: int, s: seq<int>)
    requires 0 <= to0 <= to <= |a| && a[to0..to] + Shifted([]) == Shifted(s)
    ensures a[to0..to] == Shifted(s) && to - to0 == |s|
  {
    assert Shifted([]) == [];
  }

  /** The decoder has come to `from`, and the rest of s is still to be read. */
  ghost predicate Decoding(input: seq<int>, from0: int, from: int, s: seq<int>, rest: seq<int>, chars: int, bytes: int)
  {
    && ReadsBytes(input, from, rest) && chars == |rest| && bytes >= |EncAll(rest)|
    && from + |EncAll(rest)| == from0 + |EncAll(s)|
  }

  /** ... and this much of it is written. */
  ghost predicate Decoded(a: seq<int>, to0: int, to: int, s: seq<int>, rest: seq<int>)
  {
    0 <= to0 <= to <= |a| && a[to0..to] + Shifted(rest) == Shifted(s) && to - to0 + |rest| == |s|
  }

  lemma DecodingStart(input: seq<int>, i: int, s: seq<int>, chars: int, bytes: int, a: seq<int>, to: int)
    requires ReadsBytes(input, i, s) && chars == |s| && (bytes == chars * 3 || |EncAll(s)| <= bytes) && 0 <= to <= |a|
    ensures Decoding(input, i, i, s, s, chars, bytes) && Decoded(a, to, to, s, s)
  {
    hide EncAll;
    EncBound(s);
    NothingWritten(a, to, Shifted(s));
  }

  lemma DecodingNext(input: seq<int>, from0: int, from: int, s: seq<int>, rest: seq<int>, chars: int, bytes: int)
    requires Decoding(input, from0, from, s, rest, chars, bytes) && chars > 0
    ensures rest != [] && 0 <= from < |input|
    ensures var n, w := LeadLength(input[from]), Width(rest);
      && 1 <= n <= 4 && n <= bytes && w == (if n == 4 then 2 else 1) && from + n < |input|
      && Decoding(input, from0, from + n, s, rest[w..], chars - w, bytes - n)
      && Decode(input[from..from + n]) + Shifted(rest[w..]) == Shifted(rest)
  {
    hide EncAll, LeadLength, Decode, Shifted, ReadsBytes;
    ReadsBytesNext(input, from, rest);
  }

  lemma DecodedNext(a: seq<int>, a': seq<int>, to0: int, to: int, s: seq<int>, rest: seq<int>, u: seq<int>, w: nat)
    requires Decoded(a, to0, to, s, rest) && w <= |rest| && |u| == w && u + Shifted(rest[w..]) == Shifted(rest)
    requires to + w <= |a| == |a'| && a'[..to] == a[..to] && a'[to..to + w] == u
    ensures Decoded(a', to0, to + w, s, rest[w..])
  {
    Grown(a, a', to0, to, u, Shifted(rest[w..]), Shifted(s));
  }

  /** Characters and bytes run out together. */
  lemma DecodingEnd(input: seq<int>, from0: int, from: int, s: seq<int>, rest: seq<int>, chars: int, bytes: int)
    requires Decoding(input, from0, from, s, rest, chars, bytes) && (chars <= 0 || bytes <= 0)
    ensures rest == [] && from == from0 + |EncAll(s)|
  {
    EncNotEmpty(rest);
  }

  lemma DecodedBounds(a: seq<int>, to0: int, to: int, s: seq<int>, rest: seq<int>)
    requires Decoded(a, to0, to, s, rest)
    ensures to - to0 + |rest| == |s| && (rest == [] ==> a[to0..to] == Shifted(s))
  {
    if rest == [] { AllDecoded(a, to0, to, s); }
  }

  /** ConvertFromUTF8; maxBytes -1 stands for three bytes a unit, and s names what the bytes encode. */
  method ConvertFromUTF8(input: seq<int>, from0: nat, output: array<int>, to0: nat, size0: nat,
                         maxChars: int, justMove: bool, maxBytes: int, ghost s: seq<int>)
    returns (res: bool, from: nat, to: nat, size: nat)
    requires Bytes(input) && Framed8(input, from0) && to0 + size0 <= output.Length
    modifies output
    ensures Outside(old(output[..]), output[..], to0, size0) && to0 <= to && to + size == to0 + size0
    ensures justMove ==> output[..] == old(output[..]) && to == to0
    ensures ReadsBytes(input, from0, s) && maxChars == |s| && (maxBytes == -1 || |EncAll(s)| <= maxBytes) ==>
      && (res <==> justMove || |s| + 1 <= size0)
      && (res ==> from == from0 + |EncAll(s)|)
      && (res && !justMove ==> to == to0 + |s| < output.Length && output[..][to0..to] == Shifted(s) && output[to] == 0)
  {
    hide EncAll, Framed8, Outside, ReadsBytes, Decode, Bytes, LeadLength, Shifted, Decoding, Decoded;
    OutsideNone(output[..], to0, size0);
    from, to, size := from0, to0, size0;
    var chars, bytes := maxChars, if maxBytes == -1 then maxChars * 3 else maxBytes;
    ghost var rest := s;
    ghost var exact := ReadsBytes(input, from0, s) && maxChars == |s| && (maxBytes == -1 || |EncAll(s)| <= maxBytes);
    if exact { DecodingStart(input, from0, s, chars, bytes, output[..], to0); }
    while chars > 0 && bytes > 0
      invariant Framed8(input, from) && to0 <= to && to + size == to0 + size0
      invariant Outside(old(output[..]), output[..], to0, size0)
      invariant justMove ==> output[..] == old(output[..]) && to == to0
      invariant exact ==> Decoding(input, from0, from, s, rest, chars, bytes)
      invariant exact && !justMove ==> Decoded(output[..], to0, to, s, rest)
      decreases |input| - from
    {
      Framed8Next(input, from);
      if exact { DecodingNext(input, from0, from, s, rest, chars, bytes); }
      var ch := input[from];
      var n := LeadLength(ch);
      LeadBounds(ch);
      if n == 0 {
        if 0x80 <= ch < 0xC0 { from := from + 1; }
        return false, from, to, size;
      }
      if bytes < n { return false, from, to, size; }
      var units := if n == 4 then 2 else 1;
      if !justMove {
        if exact { DecodedBounds(output[..], to0, to, s, rest); }
        if size < units { return false, from, to, size; }
        ghost var before := output[..];
        var piece := input[from..from + n];
        PieceLength(input, from, n);
        WriteBytes(output, to, Decode(piece));
        OutsideCompose(old(output[..]), before, output[..], to0, size0, to, units);
        if exact { DecodedNext(before, output[..], to0, to, s, rest, Decode(piece), units); }
        to, size := to + units, size - units;
      }
      from, chars, bytes := from + n, chars - units, bytes - n;
      if exact { rest := rest[units..]; }
    }
    if exact {
      DecodingEnd(input, from0, from, s, rest, chars, bytes);
      if !justMove { DecodedBounds(output[..], to0, to, s, rest); }
    }
    if !justMove {
      if size < 1 { return false, from, to, size; }
      ghost var before := output[..];
      WriteBytes(output, to, [0]);
      OutsideCompose(old(output[..]), before, output[..], to0, size0, to, 1);
      Finished(before, output[..], to0, to);
    }
    res := true;
  }

  // ---- There and back ----

  lemma RoundTripSource(s: seq<int>)
    requires WellFormed(s)
    ensures Units(s + [0]) && Terminated(s + [0], 0) && Framed16(s + [0], 0) && Reads(s + [0], 0, s, |s|)
    ensures Grammar16(s + [0], 0, -1) && Bytes16(s + [0], 0, -1) == |EncAll(s)|
  {
    hide WellFormed, Framed16, Grammar16, Bytes16, EncAll;
    var input := s + [0];
    assert input[|s|] == 0 && input[0..|s|] == s;
    SourceGrammar(s, input, 0, -1);
    StopsAtEnd(s, |s|);
    WellFormedUnits(s);
  }

  lemma RoundTripMiddle(s: seq<int>, b: seq<int>)
    requires WellFormed(s) && b == EncAll(s) + [0]
    ensures Bytes(b) && Terminated(b, 0) && Framed8(b, 0) && ReadsBytes(b, 0, s)
    ensures Grammar8(b, 0, -1) && Units8(b, 0, -1) == |s|
  {
    hide WellFormed, Framed8, Grammar8, Units8, EncAll;
    var n := |EncAll(s)|;
    assert b[n] == 0 && b[0..n] == EncAll(s);
    EncGrammar(s, b, 0, -1);
    EncBound(s);
  }

  /** For every well-formed string, with buffers of the sizes the two counts give: the bytes are its
      encoding, and what comes back is the string with its high surrogates moved up.  So it is the string
      itself exactly when all of it is in the basic plane. */
  method RoundTrip(s: seq<int>) returns (bytes: array<int>, units: array<int>)
    requires WellFormed(s)
    ensures bytes[..] == EncAll(s) + [0] && units[..] == Shifted(s) + [0]
    ensures units[..] == s + [0] <==> AllBmp(s)
  {
    hide WellFormed, EncAll, Framed16, Framed8, Outside, Reads, ReadsBytes, Grammar8, Grammar16, Bytes16, Units8,
         Terminated, Shifted, AllBmp, Bytes, Units;
    RoundTripSource(s);
    var n := CountNumberOfBytes(s + [0], -1);
    bytes := new int[n + 1];
    var ok, from, to, size := ConvertToUTF8(s + [0], 0, bytes, 0, n + 1, |s|, false, s);
    assert bytes[..] == bytes[..][0..to] + [bytes[to]];
    RoundTripMiddle(s, bytes[..]);
    var m := CountNumberOfCharacters(bytes[..], -1);
    units := new int[m + 1];
    ok, from, to, size := ConvertFromUTF8(bytes[..], 0, units, 0, m + 1, m, false, -1, s);
    assert units[..] == units[..][0..to] + [units[to]];
    ShiftedSame(s);
    assert units[..][..|s|] == Shifted(s) && (s + [0])[..|s|] == s;
  }

  /** U+10000 does not come back: the converters make U+20000 of it. */
  method SurrogatePair() returns (bytes: array<int>, units: array<int>)
    ensures bytes[..] == [0xF0, 0x90, 0x80, 0x80, 0] && units[..] == [0xD840, 0xDC00, 0]
  {
    hide WellFormed, EncAll, Shifted, AllBmp;
    PairInstance();
    bytes, units := RoundTrip([0xD800, 0xDC00]);
  }
}
