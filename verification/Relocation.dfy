/** Relocation regions: where stretches of memory went.  `Reloc` is the plain linear scan; the
    collector's min/max test and binary search compute the same. */
module Relocation {

  /** Memory [start, end) was moved by `offset`. */
  datatype Region = Region(start: int, end: int, destination: int, offset: int)

  predicate Contains(r: Region, p: int) { r.start <= p < r.end }

  function Reloc(rs: seq<Region>, p: int): (p': int)
  {
    if rs == [] then p
    else if Contains(rs[0], p) then p + rs[0].offset
    else Reloc(rs[1..], p)
  }

  /** Sorted by start and pairwise disjoint. */
  ghost predicate Ordered(rs: seq<Region>)
  {
    && (forall i :: 0 <= i < |rs| ==> rs[i].start < rs[i].end)
    && (forall i, j :: 0 <= i < j < |rs| ==> rs[i].end <= rs[j].start)
  }

  /** Every region moved towards lower addresses. */
  ghost predicate Downward(rs: seq<Region>)
  {
    forall i :: 0 <= i < |rs| ==> rs[i].offset < 0
  }

  lemma {:induction false} RelocHit(rs: seq<Region>, i: nat, p: int)
    requires Ordered(rs) && i < |rs| && Contains(rs[i], p)
    ensures Reloc(rs, p) == p + rs[i].offset
  {
    if i > 0 {
      assert !Contains(rs[0], p);
      RelocHit(rs[1..], i - 1, p);
    }
  }

  lemma {:induction false} RelocMiss(rs: seq<Region>, p: int)
    requires forall i :: 0 <= i < |rs| ==> !Contains(rs[i], p)
    ensures Reloc(rs, p) == p
  {
    if rs != [] { RelocMiss(rs[1..], p); }
  }

  /** An address is moved by the region that holds it, or not at all. */
  lemma RelocCases(rs: seq<Region>, p: int) returns (i: int)
    requires Ordered(rs)
    ensures 0 <= i < |rs| ==> Contains(rs[i], p) && Reloc(rs, p) == p + rs[i].offset
    ensures !(0 <= i < |rs|) ==> Reloc(rs, p) == p && forall k :: 0 <= k < |rs| ==> !Contains(rs[k], p)
  {
    if k :| 0 <= k < |rs| && Contains(rs[k], p) {
      RelocHit(rs, k, p);
      i := k;
    } else {
      RelocMiss(rs, p);
      i := -1;
    }
  }

  /** Relocating by an earlier batch and then by a later one is relocating by both at once. */
  lemma {:induction false} RelocCompose(a: seq<Region>, b: seq<Region>, p: int)
    requires Ordered(a + b) && Downward(a)
    ensures Reloc(a + b, p) == Reloc(b, Reloc(a, p))
    decreases |a|
  {
    var rs := a + b;
    if a == [] {
      assert rs == b;
    } else if Contains(a[0], p) {
      forall j | 0 <= j < |b| ensures !Contains(b[j], p + a[0].offset) {
        assert rs[0].end <= rs[|a| + j].start;
      }
      RelocMiss(b, p + a[0].offset);
    } else {
      assert rs[1..] == a[1..] + b;
      OrderedRest(rs);
      RelocCompose(a[1..], b, p);
    }
  }

  lemma OrderedRest(rs: seq<Region>)
    requires Ordered(rs) && rs != []
    ensures Ordered(rs[1..])
  {
  }

  lemma RelocAppend(rs: seq<Region>, r: Region, p: int)
    requires Ordered(rs + [r])
    ensures Ordered(rs)
    ensures Reloc(rs + [r], p) == if Contains(r, p) then p + r.offset else Reloc(rs, p)
  {
    var all := rs + [r];
    assert forall i :: 0 <= i < |rs| ==> all[i] == rs[i];
    assert all[|rs|] == r;
    var i := RelocCases(all, p);
    if Contains(r, p) {
      RelocHit(all, |rs|, p);
    } else if 0 <= i < |all| {
      RelocHit(rs, i, p);
    } else {
      forall k | 0 <= k < |rs| ensures !Contains(rs[k], p) { assert !Contains(all[k], p); }
      RelocMiss(rs, p);
    }
  }

  /** The bounds Heap_Relocate computes before a pass. */
  method Bounds(rs: seq<Region>) returns (minimum: int, maximum: int)
    requires |rs| > 0
    ensures forall i :: 0 <= i < |rs| ==> minimum <= rs[i].start && rs[i].end <= maximum
    ensures exists i :: 0 <= i < |rs| && minimum == rs[i].start
    ensures exists i :: 0 <= i < |rs| && maximum == rs[i].end
  {
    minimum, maximum := rs[0].start, rs[0].end;
    for i := 0 to |rs|
      invariant forall k :: 0 <= k < i ==> minimum <= rs[k].start && rs[k].end <= maximum
      invariant exists k :: 0 <= k < |rs| && minimum == rs[k].start
      invariant exists k :: 0 <= k < |rs| && maximum == rs[k].end
    {
      if minimum > rs[i].start { minimum := rs[i].start; }
      if maximum < rs[i].end { maximum := rs[i].end; }
    }
  }

  /** Heap_Relocate( void** ref ): bounds test, then binary search. */
  method RelocatePointer(rs: seq<Region>, minimum: int, maximum: int, dst: int) returns (p: int)
    requires Ordered(rs)
    requires forall i :: 0 <= i < |rs| ==> minimum <= rs[i].start && rs[i].end <= maximum
    ensures p == Reloc(rs, dst)
  {
    if dst >= minimum && dst < maximum {
      var left, right := 0, |rs|;
      while left < right
        invariant 0 <= left <= right <= |rs|
        invariant forall i :: 0 <= i < left ==> rs[i].end <= dst
        invariant forall i :: right <= i < |rs| ==> dst < rs[i].start
      {
        var center := (left + right) / 2;
        if dst < rs[center].start {
          right := center;
        } else if dst >= rs[center].end {
          left := center + 1;
        } else {
          RelocHit(rs, center, dst);
          return dst + rs[center].offset;
        }
      }
    }
    RelocMiss(rs, dst);
    return dst;
  }

  /** Heap_Relocate_AddBlock, up to the flush: the new region goes before the first one that starts
      above it. */
  method AddBlock(rs: seq<Region>, dst: int, src: int, length: nat) returns (rs': seq<Region>, ghost i: nat)
    requires Ordered(rs) && length > 0
    requires forall k :: 0 <= k < |rs| ==> src + length <= rs[k].start || rs[k].end <= src
    ensures i <= |rs| && rs' == rs[..i] + [Region(src, src + length, dst, dst - src)] + rs[i..]
    ensures Ordered(rs')
    ensures forall p :: Reloc(rs', p) == if src <= p < src + length then p + (dst - src) else Reloc(rs, p)
  {
    var k := 0;
    while k < |rs| && !(rs[k].start > src)
      invariant 0 <= k <= |rs|
      invariant forall j :: 0 <= j < k ==> rs[j].end <= src
    {
      k := k + 1;
    }
    var r := Region(src, src + length, dst, dst - src);
    rs' := rs[..k] + [r] + rs[k..];
    i := k;
    InsertOrdered(rs, k, r);
    forall p ensures Reloc(rs', p) == if src <= p < src + length then p + (dst - src) else Reloc(rs, p) {
      InsertReloc(rs, k, r, p);
    }
  }

  lemma InsertOrdered(rs: seq<Region>, k: nat, r: Region)
    requires Ordered(rs) && k <= |rs| && r.start < r.end
    requires forall j :: 0 <= j < k ==> rs[j].end <= r.start
    requires forall j :: k <= j < |rs| ==> r.end <= rs[j].start
    ensures Ordered(rs[..k] + [r] + rs[k..])
  {
  }

  lemma {:induction false} InsertReloc(rs: seq<Region>, k: nat, r: Region, p: int)
    requires k <= |rs| && forall j :: 0 <= j < |rs| ==> r.end <= rs[j].start || rs[j].end <= r.start
    ensures Reloc(rs[..k] + [r] + rs[k..], p) == if Contains(r, p) then p + r.offset else Reloc(rs, p)
  {
    var all := rs[..k] + [r] + rs[k..];
    if k == 0 {
      assert all[1..] == rs;
    } else {
      assert all[1..] == rs[1..][..k - 1] + [r] + rs[1..][k - 1..];
      InsertReloc(rs[1..], k - 1, r, p);
    }
  }
}
