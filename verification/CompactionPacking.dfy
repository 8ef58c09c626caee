/** What a turn of the compaction loop moves, and what becomes of the free space when every block in use above
    free space may be moved: what is behind the source cursor is packed. */
module CompactionPacking {
  import opened HeapBlocks
  import opened ClusterInvariant
  import opened HeapCluster
  import opened CompactionMoves
  import opened CompactionSpec
  import opened CompactionStep
  import opened CompactionGaps

  // ---- One turn ----

  /** A turn with free region g and the source cursor at `from` takes the blocks [from, e): all movable ones
      that follow when the region ends there, otherwise as many as fit into it, one after the other. */
  ghost predicate TurnTakes(m: Memory, r: Range, g: Range, from: int, e: int)
  {
    && MovableRun(m, from, e) && from <= e <= r.hi && Boundary(m, r, e) && (e < r.hi ==> 0 <= e < |m|)
    && if from == g.hi then e == r.hi || Unmovable(m[e])
       else e - from <= g.hi - g.lo && (e == r.hi || Unmovable(m[e]) || g.hi - g.lo < e - from + m[e].size)
  }

  /** The cursor goes on from e to the next block that may be moved. */
  ghost predicate Skipped(m: Memory, r: Range, e: int, cs: int)
  {
    && e <= cs <= r.hi && Boundary(m, r, cs) && (cs < r.hi ==> 0 <= cs < |m| && !Unmovable(m[cs]))
    && forall a :: a in Starts(m, r.lo, r.hi) && e <= a < cs ==> Unmovable(m[a])
  }

  /** The free block that follows fr in its cluster, NULL if there is none. */
  ghost predicate NextFree(m: Memory, r: Range, fr: int, next: int)
  {
    if next == NULL then forall f :: FreeAt(m, r, f) ==> f <= fr
    else FreeAt(m, r, next) && fr < next && forall f :: FreeAt(m, r, f) && fr < f ==> next <= f
  }

  /** The free region to go on with: what is left of this one; the next one, if this one is full or not even one
      block fitted; or, if the next one begins where the blocks taken ended, the free space they left. */
  ghost predicate GoesOn(m: Memory, r: Range, g: Range, from: int, e: int, fr': int)
  {
    if from < e && (from == g.hi || e - from < g.hi - g.lo) then fr' == g.lo + (e - from)
    else if from < e && NextFree(m, r, g.lo, e) then fr' == from
    else NextFree(m, r, g.lo, fr')
  }

  /** Free space that ends at s begins at b; without any, b is s. */
  ghost predicate FreeBehind(m: Memory, r: Range, s: int, b: int)
  {
    b <= s && (b < s ==> Range(b, s) in Gaps(m, r)) && forall h :: h in Gaps(m, r) && h.hi == s ==> h.lo == b
  }

  /** The free blocks after the turn: b is where the free space begins that the blocks taken leave. */
  ghost predicate TurnGaps(m: Memory, m': Memory, cl: seq<Range>, fc: nat, g: Range, sc: nat, from: int, e: int, b: int)
    requires fc < |cl| && sc < |cl|
  {
    var x := After(m, cl[sc], e);
    && (from != g.hi ==> FreeBehind(m, cl[sc], from, b))
    && forall d :: 0 <= d < |cl| ==>
      var gs := Gaps(m, cl[d]);
      if from == g.hi then
        Gaps(m', cl[d]) == if d == sc then Replaced(gs, g.lo, e, Range(g.lo + (e - from), x)) else gs
      else
        var rest := g.lo + (e - from);
        var filled :=
          if d != fc then gs else if rest < g.hi then Replaced(gs, g.lo, g.lo, Range(rest, g.hi)) else gs - {g};
        Gaps(m', cl[d]) == if d == sc then Replaced(filled, b, e, Range(b, x)) else filled
  }

  /** Sliding is such a turn ... */
  lemma SlideTurn(m: Memory, m': Memory, cl: seq<Range>, c: nat, fl: seq<int>, fl': seq<int>, fr: int, s: int, e: int)
    requires c < |cl| && ClusterOk(m, cl[c], fl) && FreeAt(m, cl[c], fr) && fr + m[fr].size == s < e
    requires Boundary(m, cl[c], s) && Boundary(m, cl[c], e) && AllLive(m, s, e)
    requires Slid(m, m', cl[c], fl', fr, s, e - s) && OthersSame(m, m', cl, c)
    ensures TurnGaps(m, m', cl, c, Range(fr, s), c, s, e, s)
  {
    hide Gaps, Slid, ClusterOk, Boundary, AllLive, After, Replaced, SameBlocks;
    SlidGaps(m, m', cl[c], fl, fl', fr, s, e - s);
    forall d | 0 <= d < |cl| && d != c ensures Gaps(m', cl[d]) == Gaps(m, cl[d]) { GapsSame(m, m', cl[d]); }
  }

  /** ... and so is copying into the region and giving up what was copied. */
  lemma CopyTurn(m: Memory, m1: Memory, m2: Memory, cl: seq<Range>, fl: seq<int>, fc: nat, sc: nat, fl1: seq<int>,
                 fl2: seq<int>, fr: int, s: int, e: int, b: int)
    requires fc < |cl| && sc < |cl| && ClusterOk(m, cl[fc], fl) && FreeAt(m, cl[fc], fr)
    requires fr + m[fr].size < s < e && e - s <= m[fr].size
    requires FreeFilled(m, m1, cl[fc], fl1, fr, s, e - s) && OthersSame(m, m1, cl, fc)
    requires Boundary(m1, cl[sc], s) && Boundary(m1, cl[sc], e) && AllLive(m1, s, e)
    requires Returned(m1, m2, cl[sc], s, e, fl2, b) && OthersSame(m1, m2, cl, sc)
    requires StartsAround(m1, cl[sc], s, e) == Starts(m1, cl[sc].lo, cl[sc].hi) - Starts(m1, s, e)
    requires BeginsFree(m1, e, cl[sc].hi) == BeginsFree(m, e, cl[sc].hi)
    ensures TurnGaps(m, m2, cl, fc, Range(fr, fr + m[fr].size), sc, s, e, b) && FreeBehind(m, cl[sc], s, b)
    ensures 0 <= b < |m2| && b + m2[b].size == After(m, cl[sc], e)
  {
    hide Gaps, ClusterOk, Boundary, AllLive, SameBlocks, Starts, StartsAround, Replaced, FreeFilled, Returned, After,
         FreeBehind, BeginsFree, FreeAt;
    FreeAtRange(m, cl[fc], fr);
    GapAt(m, cl[fc], Range(fr, fr + m[fr].size));
    var g := Range(fr, fr + m[fr].size);
    ClusterTiled(m, cl[fc], fl);
    FilledGaps(m, m1, cl[fc], fl1, fr, s, e - s);
    ReturnedBack(m1, m2, cl[sc], s, e, fl2, b);
    AfterCopy(m, m1, cl[fc], cl[sc], fl1, fr, s, e);
    forall d | 0 <= d < |cl| && d != fc ensures Gaps(m1, cl[d]) == Gaps(m, cl[d]) { GapsSame(m, m1, cl[d]); }
    forall d | 0 <= d < |cl| && d != sc ensures Gaps(m2, cl[d]) == Gaps(m1, cl[d]) { GapsSame(m1, m2, cl[d]); }
    BehindCopy(m, m1, cl[sc], g, fc == sc, s, e, b);
  }

  lemma ClusterTiled(m: Memory, r: Range, fl: seq<int>)
    requires ClusterOk(m, r, fl)
    ensures Tiled(m, r.lo, r.hi)
  {
  }

  lemma ReturnedBack(m: Memory, m': Memory, r: Range, s: int, e: int, fl': seq<int>, b: int)
    requires Boundary(m, r, s) && Boundary(m, r, e) && AllLive(m, s, e) && s < e
    requires Returned(m, m', r, s, e, fl', b)
    requires StartsAround(m, r, s, e) == Starts(m, r.lo, r.hi) - Starts(m, s, e)
    ensures Gaps(m', r) == Replaced(Gaps(m, r), b, e, Range(b, After(m, r, e))) && FreeBehind(m, r, s, b)
    ensures 0 <= b < |m'| && b + m'[b].size == After(m, r, e)
  {
    hide Gaps, Starts, Tiled, AllLive, Tidy, FreeList, FreeSize, Live, EndsFree;
    ReturnedGaps(m, m', r, s, e, fl', b);
  }

  lemma AfterCopy(m: Memory, m1: Memory, r: Range, q: Range, fl1: seq<int>, fr: int, s: int, e: int)
    requires 0 <= fr < |m| && FreeFilled(m, m1, r, fl1, fr, s, e - s) && fr + m[fr].size < s < e
    requires BeginsFree(m1, e, q.hi) == BeginsFree(m, e, q.hi)
    ensures After(m1, q, e) == After(m, q, e)
  {
  }

  /** The region is not what ends at s, so filling it changes nothing there. */
  lemma BehindCopy(m: Memory, m1: Memory, r: Range, g: Range, same: bool, s: int, e: int, b: int)
    requires FreeBehind(m1, r, s, b) && g.hi < s
    requires !same ==> Gaps(m1, r) == Gaps(m, r)
    requires same && g.lo + (e - s) < g.hi ==>
      Gaps(m1, r) == Replaced(Gaps(m, r), g.lo, g.lo, Range(g.lo + (e - s), g.hi))
    requires same && g.lo + (e - s) >= g.hi ==> Gaps(m1, r) == Gaps(m, r) - {g}
    requires same ==> g in Gaps(m, r)
    ensures FreeBehind(m, r, s, b)
  {
    hide Gaps;
    forall h | h in Gaps(m, r) && h.hi == s ensures h.lo == b {
      if same && h.lo == g.lo { SameGap(m, r, g, r, h); }
      assert h in Gaps(m1, r);
    }
  }

  lemma SameGap(m: Memory, r: Range, g: Range, r': Range, h: Range)
    requires g in Gaps(m, r) && h in Gaps(m, r') && h.lo == g.lo
    ensures h == g
  {
  }

  /** A free block inside the vacated space was right behind the blocks taken, and then nothing free was right
      before them. */
  lemma Swallowed(m: Memory, r: Range, fl: seq<int>, g: Range, s: int, e: int, b: int, next: int)
    requires ClusterOk(m, r, fl) && g in Gaps(m, r) && g.hi < s < e && NextFree(m, r, g.lo, next) && next != NULL
    requires Boundary(m, r, s) && Boundary(m, r, e) && AllLive(m, s, e) && FreeBehind(m, r, s, b)
    requires b < next < After(m, r, e)
    ensures next == e && b == s
  {
    hide Starts, Tiled, Tidy, FreeList, FreeAt, Gaps, AllLive, BeginsFree;
    var h := Range(next, if 0 <= next < |m| then next + m[next].size else 0);
    FreeAtRange(m, r, next);
    GapAt(m, r, h);
    NoGapInRun(m, r, s, e, next);
    AfterIs(m, r, e);
    GapEnds(m, r, fl, g);
    GapEnds(m, r, fl, h);
    if b < s {
      GapsApart(m, r, fl, Range(b, s), g);
      GapLo(m, r, Range(b, s));
      if h != Range(b, s) { GapsApart(m, r, fl, Range(b, s), h); }
    }
    if e < After(m, r, e) && next != e {
      FollowingGap(m, r, e);
      GapsApart(m, r, fl, Range(e, After(m, r, e)), h);
    }
  }

  lemma FollowingGap(m: Memory, r: Range, e: int)
    requires Boundary(m, r, e) && e < After(m, r, e)
    ensures e < r.hi && Range(e, After(m, r, e)) in Gaps(m, r)
  {
    hide Starts, Tiled;
    BoundaryNext(m, r, e);
  }

  lemma GapLo(m: Memory, r: Range, g: Range)
    requires g in Gaps(m, r)
    ensures FreeAt(m, r, g.lo)
  {
  }

  /** An address of two clusters, ends included, is of one. */
  lemma SameCluster(cl: seq<Range>, c: nat, d: nat, x: int)
    requires Spaced(cl) && c < |cl| && d < |cl| && cl[c].lo <= x <= cl[c].hi && cl[d].lo <= x <= cl[d].hi
    ensures c == d
  {
  }

  /** Where the loop goes on after a copy: `next` is what follows the region, unless the vacated space from b on
      has swallowed it. */
  lemma GoesOnAfterCopy(m: Memory, cl: seq<Range>, fls: seq<seq<int>>, fc: nat, g: Range, sc: nat, s: int, e: int,
                        b: int, next: int)
    requires Spaced(cl) && ClustersOk(m, cl, fls) && fc < |cl| && sc < |cl| && g in Gaps(m, cl[fc])
    requires g.hi < s < e && Boundary(m, cl[sc], s) && Boundary(m, cl[sc], e) && AllLive(m, s, e)
    requires FreeBehind(m, cl[sc], s, b) && NextFree(m, cl[fc], g.lo, next)
    requires e - s == g.hi - g.lo
    ensures GoesOn(m, cl[fc], g, s, e, if b < next < After(m, cl[sc], e) then b else next)
  {
    hide Starts, Tiled, Tidy, FreeList, FreeAt, Gaps, AllLive, BeginsFree, Boundary;
    var r := cl[sc];
    assert ClusterOk(m, r, fls[sc]);
    BoundaryRange(m, r, s);
    BoundaryRange(m, r, e);
    AfterIs(m, r, e);
    if b < s { GapEnds(m, r, fls[sc], Range(b, s)); }
    if e < After(m, r, e) {
      FollowingGap(m, r, e);
      GapEnds(m, r, fls[sc], Range(e, After(m, r, e)));
    }
    if next != NULL {
      FreeAtRange(m, cl[fc], next);
      if next == e || b < next < After(m, r, e) {
        SameCluster(cl, fc, sc, next);
        GapAt(m, r, Range(next, next + m[next].size));
        GapLength(m, r, Range(next, next + m[next].size));
        Swallowed(m, r, fls[sc], g, s, e, b, next);
      }
    }
  }

  lemma GapLength(m: Memory, r: Range, g: Range)
    requires g in Gaps(m, r)
    ensures g.lo < g.hi
  {
  }

  // ---- Packed clusters ----

  /** Up to address x of the cluster, free space is one block at most, and that ends at x. */
  ghost predicate PackedTo(m: Memory, r: Range, x: int)
  {
    forall g :: g in Gaps(m, r) && g.lo < x ==> g.hi == x
  }

  /** Packed up to the source cursor. */
  ghost predicate Packing(m: Memory, cl: seq<Range>, sc: nat, cs: int)
  {
    && (forall c :: 0 <= c < sc && c < |cl| ==> PackedTo(m, cl[c], cl[c].hi))
    && (sc < |cl| ==> PackedTo(m, cl[sc], cs))
  }

  /** Every block in use above free space may be moved. */
  ghost predicate Loose(m: Memory, cl: seq<Range>)
  {
    forall c, g, a :: 0 <= c < |cl| && g in Gaps(m, cl[c]) && a in Blocks(m, cl) && g.lo < a ==> !Unmovable(m[a])
  }

  /** At a block boundary not below free space there is a movable block, free space, or the end. */
  lemma LooseAt(m: Memory, cl: seq<Range>, fls: seq<seq<int>>, fc: nat, g: Range, sc: nat, a: int)
    requires ClustersOk(m, cl, fls) && Loose(m, cl) && fc < |cl| && sc < |cl| && g in Gaps(m, cl[fc])
    requires Boundary(m, cl[sc], a) && g.lo <= a < cl[sc].hi && 0 <= a < |m| && Unmovable(m[a])
    ensures Range(a, After(m, cl[sc], a)) in Gaps(m, cl[sc])
  {
    hide Starts, Tiled, Tidy, FreeList;
    BoundaryNext(m, cl[sc], a);
    assert a in Live(m, cl[sc].lo, cl[sc].hi) ==> a in Blocks(m, cl);
    assert FreeAt(m, cl[sc], a);
    AfterIs(m, cl[sc], a);
  }

  /** So skipping what is unmovable skips one free block at most. */
  lemma SkippedGap(m: Memory, cl: seq<Range>, fls: seq<seq<int>>, fc: nat, g: Range, sc: nat, e: int, cs: int)
    requires ClustersOk(m, cl, fls) && Loose(m, cl) && fc < |cl| && sc < |cl| && g in Gaps(m, cl[fc])
    requires g.lo <= e && Boundary(m, cl[sc], e) && Skipped(m, cl[sc], e, cs)
    ensures e <= cs == After(m, cl[sc], e)
    ensures e < cs ==> Range(e, cs) in Gaps(m, cl[sc])
  {
    hide Starts, Tiled, Tidy, FreeList, FreeAt;
    var r := cl[sc];
    assert ClusterOk(m, r, fls[sc]);
    if e < cs {
      BoundaryNext(m, r, e);
      LooseAt(m, cl, fls, fc, g, sc, e);
      var h := Range(e, After(m, r, e));
      GapEnds(m, r, fls[sc], h);
      if cs < r.hi { BoundaryNext(m, r, cs); }
      Disjoint(m, r.lo, r.hi, e, cs);
      if h.hi < cs {
        LooseAt(m, cl, fls, fc, g, sc, h.hi);
      }
    } else if e < r.hi {
      BoundaryNext(m, r, e);
      if IsFree(m[e]) { TidyPinned(m, r.lo, r.hi, e); }
    }
    AfterIs(m, r, e);
  }

  /** When everything above free space may be moved, the region lies right before the cursor or at the end of
      an earlier cluster. */
  lemma RegionPlace(m: Memory, cl: seq<Range>, fls: seq<seq<int>>, fc: nat, g: Range, sc: nat, from: int)
    requires Spaced(cl) && ClustersOk(m, cl, fls) && fc < |cl| && sc < |cl| && g in Gaps(m, cl[fc])
    requires Packing(m, cl, sc, from) && g.lo < from < cl[sc].hi && Boundary(m, cl[sc], from)
    ensures fc <= sc && (from == g.hi <==> fc == sc) && (fc < sc ==> g.hi == cl[fc].hi)
  {
    hide Starts, Tiled, Tidy, FreeList, FreeAt;
    assert ClusterOk(m, cl[fc], fls[fc]);
    GapEnds(m, cl[fc], fls[fc], g);
    TiledBounds(m, cl[sc].lo, from);
    if fc < sc { assert PackedTo(m, cl[fc], cl[fc].hi); }
  }

  /** A free block is not where blocks in use are, and next to no other. */
  lemma GapAround(m: Memory, r: Range, fl: seq<int>, from: int, e: int, cs: int, h: Range)
    requires ClusterOk(m, r, fl) && Boundary(m, r, from) && Boundary(m, r, e) && AllLive(m, from, e)
    requires e <= cs && (e < cs ==> Range(e, cs) in Gaps(m, r)) && h in Gaps(m, r)
    ensures h.lo < h.hi && (h.lo < from || h == Range(e, cs) || cs <= h.lo)
  {
    hide Starts, Tiled, Tidy, FreeList, FreeAt, Gaps, AllLive;
    GapLo(m, r, h);
    NoGapInRun(m, r, from, e, h.lo);
    GapEnds(m, r, fl, h);
    if e < cs && h != Range(e, cs) { GapsApart(m, r, fl, Range(e, cs), h); }
  }

  lemma PackedSlideIn(m: Memory, m': Memory, r: Range, fl: seq<int>, g: Range, from: int, e: int, cs: int)
    requires ClusterOk(m, r, fl) && g in Gaps(m, r) && PackedTo(m, r, from) && g.hi == from < e
    requires Boundary(m, r, from) && Boundary(m, r, e) && AllLive(m, from, e)
    requires e <= cs && (e < cs ==> Range(e, cs) in Gaps(m, r))
    requires Gaps(m', r) == Replaced(Gaps(m, r), g.lo, e, Range(g.lo + (e - from), cs))
    ensures PackedTo(m', r, cs)
  {
    hide Starts, Tiled, Tidy, FreeList, FreeAt, Gaps, AllLive;
    GapEnds(m, r, fl, g);
    forall h | h in Gaps(m', r) && h.lo < cs ensures h.hi == cs {
      if h in Gaps(m, r) {
        GapAround(m, r, fl, from, e, cs, h);
        if h != g { GapsApart(m, r, fl, g, h); }
      }
    }
  }

  lemma PackedCopyIn(m: Memory, m': Memory, r: Range, fl: seq<int>, from: int, e: int, b: int, cs: int)
    requires ClusterOk(m, r, fl) && PackedTo(m, r, from) && from < e
    requires Boundary(m, r, from) && Boundary(m, r, e) && AllLive(m, from, e)
    requires e <= cs && (e < cs ==> Range(e, cs) in Gaps(m, r))
    requires FreeBehind(m, r, from, b)
    requires Gaps(m', r) == Replaced(Gaps(m, r), b, e, Range(b, cs))
    ensures PackedTo(m', r, cs)
  {
    hide Starts, Tiled, Tidy, FreeList, FreeAt, Gaps, AllLive;
    forall h | h in Gaps(m', r) && h.lo < cs ensures h.hi == cs {
      if h in Gaps(m, r) {
        GapAround(m, r, fl, from, e, cs, h);
        if b < from && h != Range(b, from) { GapsApart(m, r, fl, Range(b, from), h); }
      }
    }
  }

  /** The effect of a turn on one cluster, when the region is in an earlier cluster or right before the cursor. */
  lemma TurnGapsAt(m: Memory, m': Memory, cl: seq<Range>, fc: nat, g: Range, sc: nat, from: int, e: int, b: int, c: nat)
    requires fc <= sc < |cl| && c < |cl| && (from == g.hi <==> fc == sc)
    requires from < e && TurnGaps(m, m', cl, fc, g, sc, from, e, b)
    ensures c != fc && c != sc ==> Gaps(m', cl[c]) == Gaps(m, cl[c])
    ensures c == sc == fc ==>
      Gaps(m', cl[c]) == Replaced(Gaps(m, cl[c]), g.lo, e, Range(g.lo + (e - from), After(m, cl[c], e)))
    ensures c == sc != fc ==>
      Gaps(m', cl[c]) == Replaced(Gaps(m, cl[c]), b, e, Range(b, After(m, cl[c], e))) && FreeBehind(m, cl[c], from, b)
    ensures c == fc != sc ==> forall h :: h in Gaps(m', cl[c]) ==>
      h in Gaps(m, cl[c]) || (h.hi == g.hi && g.lo < h.lo)
  {
    hide Gaps, After, FreeBehind;
  }

  lemma PackedEarlier(m: Memory, m': Memory, r: Range, g: Range)
    requires PackedTo(m, r, r.hi) && g.hi == r.hi
    requires forall h :: h in Gaps(m', r) ==> h in Gaps(m, r) || (h.hi == g.hi && g.lo < h.lo)
    ensures PackedTo(m', r, r.hi)
  {
    hide Gaps;
    forall h | h in Gaps(m', r) && h.lo < r.hi ensures h.hi == r.hi {}
  }

  lemma SamePacked(m: Memory, m': Memory, r: Range, x: int)
    requires PackedTo(m, r, x) && Gaps(m', r) == Gaps(m, r)
    ensures PackedTo(m', r, x)
  {
  }

  lemma AllLiveOf(m: Memory, from: int, e: int)
    requires MovableRun(m, from, e)
    ensures AllLive(m, from, e)
  {
  }

  /** One turn keeps what lies behind the cursor packed. */
  lemma PackedTurn(m: Memory, m': Memory, cl: seq<Range>, fls: seq<seq<int>>, fc: nat, g: Range, sc: nat, from: int,
                   e: int, b: int, cs: int)
    requires Spaced(cl) && ClustersOk(m, cl, fls) && fc < |cl| && sc < |cl| && g in Gaps(m, cl[fc])
    requires Loose(m, cl) && Packing(m, cl, sc, from) && g.lo < from < e && Boundary(m, cl[sc], from)
    requires TurnTakes(m, cl[sc], g, from, e) && Skipped(m, cl[sc], e, cs) && TurnGaps(m, m', cl, fc, g, sc, from, e, b)
    ensures Packing(m', cl, sc, cs)
  {
    hide Starts, Tiled, Tidy, FreeList, FreeAt, Gaps, AllLive, After, Skipped, Loose, TurnGaps, PackedTo;
    var r := cl[sc];
    assert ClusterOk(m, r, fls[sc]);
    SkippedGap(m, cl, fls, fc, g, sc, e, cs);
    AllLiveOf(m, from, e);
    RegionPlace(m, cl, fls, fc, g, sc, from);
    assert PackedTo(m, r, from);
    forall c | 0 <= c <= sc && c < |cl| ensures PackedTo(m', cl[c], if c < sc then cl[c].hi else cs) {
      TurnGapsAt(m, m', cl, fc, g, sc, from, e, b, c);
      if c == sc {
        if from == g.hi { PackedSlideIn(m, m', r, fls[sc], g, from, e, cs); }
        else { PackedCopyIn(m, m', r, fls[sc], from, e, b, cs); }
      } else {
        assert PackedTo(m, cl[c], cl[c].hi);
        if c == fc { PackedEarlier(m, m', cl[c], g); } else { SamePacked(m, m', cl[c], cl[c].hi); }
      }
    }
  }

  /** Free space does not come into being below the region. */
  lemma GapsRise(m: Memory, m': Memory, cl: seq<Range>, fc: nat, g: Range, sc: nat, from: int, e: int, b: int, d: nat,
                 h: Range) returns (c: nat, k: Range)
    requires fc < |cl| && sc < |cl| && d < |cl| && g in Gaps(m, cl[fc]) && g.lo < from < e
    requires TurnGaps(m, m', cl, fc, g, sc, from, e, b) && h in Gaps(m', cl[d])
    ensures c < |cl| && k in Gaps(m, cl[c]) && k.lo <= h.lo
  {
    hide Gaps, TurnGaps, Replaced;
    NewGap(m, m', cl, fc, g, sc, from, e, b, d, h);
    if h in Gaps(m, cl[d]) {
      c, k := d, h;
    } else if from != g.hi && d == sc && h.lo == b && b < from {
      c, k := sc, Range(b, from);
    } else {
      c, k := fc, g;
    }
  }

  lemma NewGap(m: Memory, m': Memory, cl: seq<Range>, fc: nat, g: Range, sc: nat, from: int, e: int, b: int, d: nat,
               h: Range)
    requires fc < |cl| && sc < |cl| && d < |cl| && TurnGaps(m, m', cl, fc, g, sc, from, e, b) && h in Gaps(m', cl[d])
    ensures h in Gaps(m, cl[d]) || h.lo == g.lo + (e - from) || (from != g.hi && d == sc && h.lo == b)
    ensures from != g.hi ==> FreeBehind(m, cl[sc], from, b)
  {
    hide Gaps, After, FreeBehind;
    var gs := Gaps(m, cl[d]);
    if from != g.hi && d == fc && g.lo + (e - from) < g.hi {
      assert Replaced(gs, g.lo, g.lo, Range(g.lo + (e - from), g.hi)) <= gs + {Range(g.lo + (e - from), g.hi)};
    }
  }

  /** A block that moved is movable, and a block that stayed is as it was. */
  lemma MovedPinned(m: Memory, m': Memory, cl: seq<Range>, s: int, e: int, f: int, a: int)
    requires Moved(m, m', cl, s, e, f) && a in Blocks(m', cl) && Unmovable(m'[a])
    ensures a in Blocks(m, cl) && Unmovable(m[a])
  {
    hide Starts, Tiled, AllLive, Blocks;
    if a in Starts(m', f, f + (e - s)) {
      AllLiveBounds(m, s, e);
      AllLiveBounds(m', f, f + (e - s));
      ShiftAt(m, m', s, e, f, f + (e - s), a - f + s);
      CopiedAt(m, m', s, e, f, f + (e - s), a - f + s);
      assert false;
    }
    BlockInside(m, cl, a);
  }

  lemma LooseTurn(m: Memory, m': Memory, cl: seq<Range>, fc: nat, g: Range, sc: nat, from: int, e: int, b: int)
    requires fc < |cl| && sc < |cl| && g in Gaps(m, cl[fc]) && g.lo < from < e && Loose(m, cl)
    requires TurnGaps(m, m', cl, fc, g, sc, from, e, b) && Moved(m, m', cl, from, e, g.lo)
    ensures Loose(m', cl)
  {
    hide Gaps, Blocks, TurnGaps, Moved;
    forall d, h, a | 0 <= d < |cl| && h in Gaps(m', cl[d]) && a in Blocks(m', cl) && h.lo < a
      ensures !Unmovable(m'[a])
    {
      if Unmovable(m'[a]) {
        var c, k := GapsRise(m, m', cl, fc, g, sc, from, e, b, d, h);
        MovedPinned(m, m', cl, from, e, g.lo, a);
      }
    }
  }

  /** Where the loop goes on. */
  lemma RegionAfter(m: Memory, cl: seq<Range>, fls: seq<seq<int>>, fc: nat, g: Range, sc: nat, from: int, e: int,
                    fr: int)
    requires Spaced(cl) && ClustersOk(m, cl, fls) && fc < |cl| && sc < |cl| && g in Gaps(m, cl[fc])
    requires Packing(m, cl, sc, from) && g.lo < from < cl[sc].hi && Boundary(m, cl[sc], from)
    requires 0 <= from < |m| && !Unmovable(m[from])
    requires TurnTakes(m, cl[sc], g, from, e) && GoesOn(m, cl[fc], g, from, e, fr)
    ensures if fr == NULL then fc < sc else fr < e
  {
    hide Starts, Tiled, Tidy, FreeList, FreeAt, Gaps, MovableRun, Packing;
    assert ClusterOk(m, cl[fc], fls[fc]);
    GapEnds(m, cl[fc], fls[fc], g);
    RegionPlace(m, cl, fls, fc, g, sc, from);
    if fc < sc {
      forall f | FreeAt(m, cl[fc], f) ensures f <= g.lo {
        FreeAtRange(m, cl[fc], f);
        var h := Range(f, f + m[f].size);
        GapEnds(m, cl[fc], fls[fc], h);
        if h != g { GapsApart(m, cl[fc], fls[fc], g, h); }
      }
    }
  }

  /** Skipping leaves packed what is packed. */
  lemma PackedSkip(m: Memory, cl: seq<Range>, fls: seq<seq<int>>, fc: nat, g: Range, sc: nat, x: int, cs: int)
    requires ClustersOk(m, cl, fls) && Loose(m, cl) && fc < |cl| && sc < |cl| && g in Gaps(m, cl[fc])
    requires g.lo <= x && Packing(m, cl, sc, x) && Boundary(m, cl[sc], x) && Skipped(m, cl[sc], x, cs)
    ensures Packing(m, cl, sc, cs)
  {
    hide Gaps, Boundary, Skipped, Loose, ClusterOk;
    SkippedGap(m, cl, fls, fc, g, sc, x, cs);
    var r := cl[sc];
    assert ClusterOk(m, r, fls[sc]);
    forall h | h in Gaps(m, r) && h.lo < cs ensures h.hi == cs {
      if x < cs && h != Range(x, cs) {
        GapEnds(m, r, fls[sc], h);
        GapsApart(m, r, fls[sc], h, Range(x, cs));
      }
    }
  }

  /** No free space below fr from cluster sc on. */
  ghost predicate Ahead(m: Memory, cl: seq<Range>, sc: nat, fr: int)
  {
    forall d, g :: sc <= d < |cl| && g in Gaps(m, cl[d]) ==> fr <= g.lo
  }

  /** No free space at all from cluster c on. */
  ghost predicate FullFrom(m: Memory, cl: seq<Range>, c: nat)
  {
    forall d, g :: c <= d < |cl| ==> g !in Gaps(m, cl[d])
  }

  /** When the cursor jumps up to the free region, it leaves nothing behind that is not packed. */
  lemma PackedJump(m: Memory, cl: seq<Range>, fls: seq<seq<int>>, fc: nat, fr: int, sc: nat, cs: int)
    requires Spaced(cl) && ClustersOk(m, cl, fls) && fc < |cl| && sc < |cl| && FreeAt(m, cl[fc], fr) && cs < fr
    requires Packing(m, cl, sc, cs) && Ahead(m, cl, sc, fr) && cl[sc].lo <= cs
    ensures sc <= fc && Packing(m, cl, fc, fr)
  {
    hide Gaps;
    FreeAtRange(m, cl[fc], fr);
    assert fc < |cl| && cl[fc].lo <= fr < cl[fc].hi;
    forall c | sc <= c < fc ensures PackedTo(m, cl[c], cl[c].hi) {
      assert cl[c].hi < cl[fc].lo;
    }
  }

  /** What the loop keeps when every block in use above free space may be moved. */
  ghost predicate Orderly(m: Memory, cl: seq<Range>, fr: int, sc: nat, cs: int)
  {
    Loose(m, cl) && Packing(m, cl, sc, cs) && (cs < fr ==> Ahead(m, cl, sc, fr))
  }

  lemma OrderlyTurn(m: Memory, m': Memory, cl: seq<Range>, fls: seq<seq<int>>, fc: nat, g: Range, sc: nat, from: int,
                    e: int, b: int, cs: int, fr: int)
    requires Spaced(cl) && ClustersOk(m, cl, fls) && fc < |cl| && sc < |cl| && g in Gaps(m, cl[fc])
    requires Orderly(m, cl, g.lo, sc, from) && g.lo < from < cl[sc].hi && Boundary(m, cl[sc], from)
    requires 0 <= from < |m| && !Unmovable(m[from])
    requires TurnTakes(m, cl[sc], g, from, e) && Skipped(m, cl[sc], e, cs) && GoesOn(m, cl[fc], g, from, e, fr)
    requires if from < e then Moved(m, m', cl, from, e, g.lo) && TurnGaps(m, m', cl, fc, g, sc, from, e, b)
             else m' == m && cs == from
    ensures Orderly(m', cl, fr, sc, cs) && (fr == NULL ==> fc < sc)
  {
    hide Gaps, Moved, TurnGaps, ClustersOk, Boundary, Loose, Packing, GoesOn;
    RegionAfter(m, cl, fls, fc, g, sc, from, e, fr);
    if from < e {
      PackedTurn(m, m', cl, fls, fc, g, sc, from, e, b, cs);
      LooseTurn(m, m', cl, fc, g, sc, from, e, b);
    }
  }

  /** Going on with the first free block of a later cluster. */
  lemma OrderlyRegion(m: Memory, cl: seq<Range>, fc: nat, sc: nat, cs: int, fr: int)
    requires Orderly(m, cl, NULL, sc, cs) && fc < sc && Ahead(m, cl, fc + 1, fr)
    ensures Orderly(m, cl, fr, sc, cs)
  {
    hide Gaps;
  }

  /** Without free space from some cluster on, all clusters up to the source are packed to their ends. */
  lemma OrderlyEnd(m: Memory, cl: seq<Range>, fc: nat, sc: nat, cs: int)
    requires Orderly(m, cl, NULL, sc, cs) && fc < sc < |cl| && 0 <= cl[sc].hi
    requires FullFrom(m, cl, fc + 1)
    ensures Orderly(m, cl, NULL, sc, cl[sc].hi)
  {
    hide Gaps;
  }
}
