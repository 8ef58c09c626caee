/** Heap_Compact: move blocks into lower free regions, cluster after cluster, recording each move and
    patching all pointers whenever the record is full. */
module Compaction {
  import opened HeapBlocks
  import opened ClusterInvariant
  import opened HeapCluster
  import opened CompactionMoves
  import opened Relocation
  import opened CompactionSpec
  import opened CompactionStep
  import opened CompactionGaps
  import opened CompactionPacking
  import opened CompactionIdle
  import opened RelocationPass

  lemma MovableRunExtend(m: Memory, s: int, q: int)
    requires MovableRun(m, s, q) && Fits(m, q, |m|) && !IsFree(m[q]) && !Unmovable(m[q])
    ensures MovableRun(m, s, q + m[q].size)
  {
    hide Starts, Tiled, AllLive;
    AllLiveBounds(m, s, q);
    AllLiveExtend(m, s, q);
    OneBlock(m, q, q + m[q].size);
    Join(m, s, q, q + m[q].size);
  }

  /** Advance to the next movable block. */
  method SkipUnmovable(h: Heap, c: nat, from: int) returns (cs: int)
    requires c < |h.clusters| && Boundary(h.mem[..], h.clusters[c], from)
    ensures from <= cs <= h.clusters[c].hi && Boundary(h.mem[..], h.clusters[c], cs)
    ensures cs < h.clusters[c].hi ==> 0 <= cs < h.mem.Length && !Unmovable(h.mem[cs])
    ensures from < h.clusters[c].hi && 0 <= from < h.mem.Length && Unmovable(h.mem[from]) ==>
      from + h.mem[from].size <= cs
    ensures Skipped(h.mem[..], h.clusters[c], from, cs)
  {
    hide Starts, Tiled;
    ghost var m, r := h.mem[..], h.clusters[c];
    cs := from;
    TiledBounds(m, cs, r.hi);
    while cs < h.clusters[c].hi && (assert cs < h.mem.Length; Unmovable(h.mem[cs]))
      invariant 0 <= from <= cs <= r.hi <= |m| && Boundary(m, r, cs)
      invariant from < r.hi && Unmovable(m[from]) ==> cs == from || from + m[from].size <= cs
      invariant forall a :: a in Starts(m, r.lo, r.hi) && from <= a < cs ==> Unmovable(m[a])
    {
      BoundaryNext(m, r, cs);
      SkipOne(m, r, from, cs);
      cs := cs + h.mem[cs].size;
    }
  }

  lemma SkipOne(m: Memory, r: Range, from: int, cs: int)
    requires Boundary(m, r, cs) && cs < r.hi && 0 <= cs < |m| && Unmovable(m[cs])
    requires forall a :: a in Starts(m, r.lo, r.hi) && from <= a < cs ==> Unmovable(m[a])
    ensures forall a :: a in Starts(m, r.lo, r.hi) && from <= a < cs + m[cs].size ==> Unmovable(m[a])
  {
    hide Starts, Tiled;
    Join(m, r.lo, cs, r.hi);
    BoundaryNext(m, r, cs);
    forall a | a in Starts(m, r.lo, r.hi) && cs < a ensures cs + m[cs].size <= a {
      Disjoint(m, r.lo, r.hi, cs, a);
    }
  }

  /** The run of movable blocks that starts at `from`, all of it. */
  method TakeMovable(h: Heap, c: nat, from: int) returns (cs: int)
    requires h.Valid() && c < |h.clusters| && Boundary(h.mem[..], h.clusters[c], from)
    ensures from <= cs <= h.clusters[c].hi && MovableRun(h.mem[..], from, cs) && Boundary(h.mem[..], h.clusters[c], cs)
    ensures from < h.clusters[c].hi && 0 <= from < h.mem.Length && !Unmovable(h.mem[from]) ==> from < cs
    ensures cs < h.clusters[c].hi ==> 0 <= cs < h.mem.Length && Unmovable(h.mem[cs])
  {
    hide Starts, Tiled, AllLive, MovableRun;
    ghost var m, r := h.mem[..], h.clusters[c];
    cs := from;
    TiledBounds(m, cs, r.hi);
    MovableRunEmpty(m, from);
    while cs < h.clusters[c].hi && (assert cs < h.mem.Length; !Unmovable(h.mem[cs]))
      invariant 0 <= from <= cs <= r.hi <= |m| && Boundary(m, r, cs) && MovableRun(m, from, cs)
    {
      TakeOne(m, r, h.freeLists[c], from, cs);
      cs := cs + h.mem[cs].size;
    }
  }

  /** The blocks of that run that fit, one after the other, into `size` cells. */
  method TakeFitting(h: Heap, c: nat, from: int, size: nat) returns (cs: int)
    requires h.Valid() && c < |h.clusters| && Boundary(h.mem[..], h.clusters[c], from)
    ensures from <= cs <= h.clusters[c].hi && MovableRun(h.mem[..], from, cs) && Boundary(h.mem[..], h.clusters[c], cs)
    ensures cs - from <= size
    ensures cs < h.clusters[c].hi ==>
      0 <= cs < h.mem.Length && (Unmovable(h.mem[cs]) || size < cs - from + h.mem[cs].size)
  {
    hide Starts, Tiled, AllLive, MovableRun;
    ghost var m, r := h.mem[..], h.clusters[c];
    cs := from;
    var left := size;
    TiledBounds(m, cs, r.hi);
    MovableRunEmpty(m, from);
    while left != 0 && cs < h.clusters[c].hi && (assert cs < h.mem.Length; !Unmovable(h.mem[cs]))
      invariant 0 <= from <= cs <= r.hi <= |m| && Boundary(m, r, cs) && MovableRun(m, from, cs)
      invariant left == size - (cs - from)
      decreases r.hi - cs
    {
      var len := h.mem[cs].size;
      if left < len { break; }
      TakeOne(m, r, h.freeLists[c], from, cs);
      left := left - len;
      cs := cs + len;
    }
    if cs < r.hi { BoundaryNext(m, r, cs); }
  }

  lemma MovableRunEmpty(m: Memory, s: int)
    requires 0 <= s <= |m|
    ensures MovableRun(m, s, s)
  {
  }

  lemma TakeOne(m: Memory, r: Range, fl: seq<int>, s: int, cs: int)
    requires ClusterOk(m, r, fl) && Boundary(m, r, cs) && cs < r.hi && MovableRun(m, s, cs)
    requires 0 <= cs < |m| && !Unmovable(m[cs])
    ensures Fits(m, cs, r.hi) && Boundary(m, r, cs + m[cs].size) && MovableRun(m, s, cs + m[cs].size)
  {
    hide Starts, Tiled, AllLive, MovableRun, Tidy, FreeList;
    BoundaryNext(m, r, cs);
    if IsFree(m[cs]) { TidyPinned(m, r.lo, r.hi, cs); }
    TiledBounds(m, r.lo, r.hi);
    MovableRunExtend(m, s, cs);
  }

  /** The first free region of the first cluster, from c on, that has one. */
  method NextRegion(h: Heap, from: nat) returns (c: nat, fr: int)
    requires h.Valid() && from <= |h.clusters|
    ensures fr == NULL || (from <= c < |h.clusters| && FreeAt(h.mem[..], h.clusters[c], fr))
    ensures fr == NULL ==> forall d :: from <= d < |h.clusters| ==> h.freeLists[d] == []
    ensures fr != NULL ==> forall d :: from <= d < c ==> h.freeLists[d] == []
    ensures fr == NULL ==> FullFrom(h.mem[..], h.clusters, from)
    ensures fr != NULL ==> Ahead(h.mem[..], h.clusters, from, fr)
  {
    hide Starts, Tidy, FreeList, Gaps;
    c, fr := from, NULL;
    while c < |h.clusters|
      invariant from <= c <= |h.clusters| && fr == NULL
      invariant forall d :: from <= d < c ==> h.freeLists[d] == []
      invariant forall d, g :: from <= d < c ==> g !in Gaps(h.mem[..], h.clusters[d])
    {
      FirstGap(h.mem[..], h.clusters, h.freeLists, c);
      if h.freeLists[c] != [] {
        assert ClusterOk(h.mem[..], h.clusters[c], h.freeLists[c]);
        fr := h.freeLists[c][0];
        FreeListAt(h.mem[..], h.clusters[c].lo, h.clusters[c].hi, 0);
        FirstAhead(h.mem[..], h.clusters, from, c, fr);
        return;
      }
      c := c + 1;
    }
  }

  /** The list starts with the first free block. */
  lemma FirstGap(m: Memory, cl: seq<Range>, fls: seq<seq<int>>, c: nat)
    requires ClustersOk(m, cl, fls) && c < |cl|
    ensures forall g :: g in Gaps(m, cl[c]) ==> fls[c] != [] && fls[c][0] <= g.lo
  {
    hide Starts, Tiled, Tidy, FreeList;
    var r, fl := cl[c], fls[c];
    assert ClusterOk(m, r, fl);
    forall g | g in Gaps(m, r) ensures fl != [] && fl[0] <= g.lo {
      FreeListMember(m, r.lo, r.hi, g.lo);
      var j :| 0 <= j < |fl| && fl[j] == g.lo;
      if j > 0 { FreeListSorted(m, r.lo, r.hi, 0, j); }
    }
  }

  lemma FirstAhead(m: Memory, cl: seq<Range>, from: nat, c: nat, fr: int)
    requires Spaced(cl) && from <= c < |cl| && FreeAt(m, cl[c], fr)
    requires forall d, g :: from <= d < c ==> g !in Gaps(m, cl[d])
    requires forall g :: g in Gaps(m, cl[c]) ==> fr <= g.lo
    ensures Ahead(m, cl, from, fr)
  {
    hide Starts;
    forall d, g | from <= d < |cl| && g in Gaps(m, cl[d]) ensures fr <= g.lo {
      if c < d { assert cl[c].hi < cl[d].lo; }
    }
  }

  /** Where fr stands in its cluster's list. */
  method IndexOf(fl: seq<int>, fr: int) returns (k: nat)
    requires fr in fl
    ensures k < |fl| && fl[k] == fr
  {
    k := 0;
    while fl[k] != fr
      invariant k < |fl| && fr in fl[k..]
      decreases |fl| - k
    {
      k := k + 1;
    }
  }

  /** The free region after number k is further up and free. */
  lemma NextInList(m: Memory, r: Range, fl: seq<int>, k: nat)
    requires ClusterOk(m, r, fl) && k + 1 < |fl|
    ensures FreeAt(m, r, fl[k]) && FreeAt(m, r, fl[k + 1]) && fl[k] + m[fl[k]].size <= fl[k + 1]
  {
    hide Starts, Tiled, Tidy, FreeList;
    FreeListAt(m, r.lo, r.hi, k);
    FreeListAt(m, r.lo, r.hi, k + 1);
    FreeListSorted(m, r.lo, r.hi, k, k + 1);
  }

  /** Ghost record of a compaction: the heap and roots it started from, all regions recorded so far,
      those already flushed, and where each block came from. */
  datatype Trace = Trace(m0: Memory, roots0: seq<Data>, all: seq<Region>, flushed: seq<Region>, origin: map<int, int>)

  /** One more region is recorded and nothing flushed. */
  ghost predicate RecordedMove(t: Trace, t': Trace, s: int, e: int, f: int)
  {
    t'.m0 == t.m0 && t'.roots0 == t.roots0 && t'.flushed == t.flushed && t'.all == t.all + [Move(s, e, f)]
  }

  /** Every region lies inside one cluster. */
  ghost predicate Within(rs: seq<Region>, cl: seq<Range>)
  {
    forall i :: 0 <= i < |rs| ==> exists c :: 0 <= c < |cl| && cl[c].lo <= rs[i].start && rs[i].end <= cl[c].hi
  }

  lemma WithinAppend(rs: seq<Region>, r: Region, cl: seq<Range>, c: nat)
    requires Within(rs, cl) && c < |cl| && cl[c].lo <= r.start && r.end <= cl[c].hi
    ensures Within(rs + [r], cl)
  {
  }

  /** What holds between any two steps, with the source cursor at cs. */
  ghost predicate Progress(g: Relocator, t: Trace, cs: int)
    reads g, g.heap, g.heap.mem
  {
    && g.heap.Valid() && Laid(t.m0, g.heap.clusters)
    && Below(t.all, cs) && Within(t.all, g.heap.clusters)
    && t.all == t.flushed + g.relocBlocks && |g.relocBlocks| <= g.relocTotal
    && Preserved(t.m0, g.heap.mem[..], g.heap.clusters, t.all, t.flushed, t.origin)
    && TotalFree(g.heap.mem[..], g.heap.clusters) == TotalFree(t.m0, g.heap.clusters)
    && g.roots == PatchRoots(t.flushed, t.roots0)
  }

  /** A block boundary above everything that changed is still one. */
  lemma BoundaryAfterSlide(m: Memory, m': Memory, r: Range, fl': seq<int>, f: int, s: int, n: int, cs: int)
    requires Slid(m, m', r, fl', f, s, n) && Boundary(m, r, cs) && s + n <= cs
    requires BeginsFree(m, s + n, r.hi) ==> s + n < cs
    ensures Boundary(m', r, cs)
  {
    hide Starts, Tiled, AllLive, Tidy, FreeList, FreeSize, Live;
    TiledBounds(m, cs, r.hi);
    if cs < r.hi { BoundaryNext(m, r, cs); }
    Split(m', r.lo, r.hi, cs);
  }

  method MoveBySlide(g: Relocator, ghost t: Trace, c: nat, fr: int, s: int, e: int, cs: int)
    returns (fr': int, ghost t': Trace)
    requires Progress(g, t, s) && |g.relocBlocks| < g.relocTotal
    requires c < |g.heap.clusters| && FreeAt(g.heap.mem[..], g.heap.clusters[c], fr)
    requires fr < s < e <= cs && fr + g.heap.mem[fr].size == s
    requires Boundary(g.heap.mem[..], g.heap.clusters[c], s) && Boundary(g.heap.mem[..], g.heap.clusters[c], e)
    requires Boundary(g.heap.mem[..], g.heap.clusters[c], cs) && MovableRun(g.heap.mem[..], s, e)
    requires BeginsFree(g.heap.mem[..], e, g.heap.clusters[c].hi) ==> e < cs
    modifies g`relocBlocks, g.heap`freeLists, g.heap.mem
    ensures Progress(g, t', e) && RecordedMove(t, t', s, e, fr)
    ensures FreeAt(g.heap.mem[..], g.heap.clusters[c], fr') && Boundary(g.heap.mem[..], g.heap.clusters[c], cs)
    ensures fr' == fr + (e - s) && Moved(old(g.heap.mem[..]), g.heap.mem[..], g.heap.clusters, s, e, fr)
    ensures TurnGaps(old(g.heap.mem[..]), g.heap.mem[..], g.heap.clusters, c, Range(fr, s), c, s, e, s)
  {
    hide Starts, Tiled, AllLive, Tidy, FreeList, FreeSize, Live, Blocks, Preserved, Slid, Moved, SameBlocks, PatchRoots,
         Laid, Below, Within, MovableRun, EndsFree, TotalFree, BeginsFree, TurnGaps;
    ghost var m, cl := g.heap.mem[..], g.heap.clusters;
    ghost var r := cl[c];
    assert ClusterOk(m, r, g.heap.freeLists[c]);
    FreeListMember(m, r.lo, r.hi, fr);
    ghost var fl := g.heap.freeLists[c];
    var k := IndexOf(g.heap.freeLists[c], fr);
    MovableLive(m, s, e);
    fr' := SlideDown(g.heap, c, k, e - s);
    ghost var m' := g.heap.mem[..];
    SlideTurn(m, m', cl, c, fl, g.heap.freeLists[c], fr, s, e);
    SlideMoved(m, m', cl, c, g.heap.freeLists[c], fr, s, e - s);
    BoundaryAfterSlide(m, m', r, g.heap.freeLists[c], fr, s, e - s, cs);
    SlidFree(m, m', r, g.heap.freeLists[c], fr, s, e - s);
    g.relocBlocks := g.relocBlocks + [Move(s, e, fr)];
    t' := Recorded(t, m, m', cl, s, e, fr);
    BoundaryRange(m, r, s);
    BoundaryRange(m, r, e);
    WithinAppend(t.all, Move(s, e, fr), cl, c);
  }

  lemma MovableLive(m: Memory, s: int, e: int)
    requires MovableRun(m, s, e)
    ensures AllLive(m, s, e)
  {
  }

  lemma SlidFree(m: Memory, m': Memory, r: Range, fl': seq<int>, f: int, s: int, n: int)
    requires Slid(m, m', r, fl', f, s, n)
    ensures FreeAt(m', r, f + n)
  {
  }

  /** The record after one more move. */
  lemma Recorded(t: Trace, m: Memory, m': Memory, cl: seq<Range>, s: int, e: int, f: int) returns (t': Trace)
    requires Below(t.all, s) && Moved(m, m', cl, s, e, f) && Laid(t.m0, cl)
    requires Preserved(t.m0, m, cl, t.all, t.flushed, t.origin)
    ensures RecordedMove(t, t', s, e, f)
    ensures Below(t'.all, e) && Preserved(t'.m0, m', cl, t'.all, t'.flushed, t'.origin)
  {
    hide Preserved;
    var origin' := PreservedMove(t.m0, m, m', cl, t.all, t.flushed, t.origin, s, e, f);
    BelowAppend(t.all, Move(s, e, f));
    t' := t.(all := t.all + [Move(s, e, f)], origin := origin');
  }

  lemma BoundaryGrows(m: Memory, m': Memory, r: Range, x: int)
    requires Boundary(m, r, x) && Tiled(m', r.lo, r.hi) && Starts(m, r.lo, r.hi) <= Starts(m', r.lo, r.hi)
    ensures Boundary(m', r, x)
  {
    hide Starts, Tiled;
    TiledBounds(m, x, r.hi);
    if x < r.hi { BoundaryNext(m, r, x); }
    Split(m', r.lo, r.hi, x);
  }

  lemma BoundaryAfterReturn(m: Memory, m': Memory, r: Range, p: int, q: int, fl': seq<int>, b: int, cs: int)
    requires Boundary(m, r, q) && Boundary(m, r, cs) && q <= cs && (BeginsFree(m, q, r.hi) ==> q < cs)
    requires Returned(m, m', r, p, q, fl', b)
    ensures Boundary(m', r, cs)
  {
    hide Starts, Tiled, Tidy, FreeList, FreeSize, Live, EndsFree;
    TiledBounds(m, cs, r.hi);
    Boundaries(m, r, q, cs);
    Split(m', r.lo, r.hi, cs);
  }

  /** The free region to continue with after [p, q) was returned, if it was in that cluster. */
  lemma FreeAfterReturn(m: Memory, m': Memory, r: Range, p: int, q: int, fl': seq<int>, b: int, fr: int)
    requires Boundary(m, r, p) && Boundary(m, r, q) && AllLive(m, p, q) && FreeAt(m, r, fr)
    requires Returned(m, m', r, p, q, fl', b)
    ensures FreeAt(m', r, b)
    ensures b < fr < b + m'[b].size || FreeAt(m', r, fr)
  {
    hide Starts, Tiled, Tidy, FreeList, FreeSize, EndsFree, AllLive;
    RunInCluster(m, r, p, q);
    AllLiveFacts(m, p, q);
    Join(m, r.lo, p, q);
    Join(m, r.lo, q, r.hi);
    OutsideRun(m, r, p, q, fr);
    TiledBounds(m, p, q);
  }

  lemma SameRun(m: Memory, m': Memory, s: int, e: int)
    requires AllLive(m, s, e) && Unchanged(m, m', s, e)
    ensures AllLive(m', s, e) && Starts(m', s, e) == Starts(m, s, e)
  {
    AllLiveBounds(m, s, e);
    FrameUnchanged(m, m', s, e);
    assert m'[s..e] == m[s..e];
    Shift(m, m', s, e, s, e);
  }

  /** A free region below the source cursor ends at or below it. */
  lemma RegionBelow(m: Memory, cl: seq<Range>, fc: nat, sc: nat, fr: int, s: int)
    requires Spaced(cl) && fc < |cl| && sc < |cl| && FreeAt(m, cl[fc], fr) && Tiled(m, cl[fc].lo, cl[fc].hi)
    requires Boundary(m, cl[sc], s) && s < cl[sc].hi && fr < s
    ensures fr + m[fr].size <= s && (fr + m[fr].size == s ==> fc == sc)
  {
    hide Starts, Tiled;
    TiledBounds(m, cl[sc].lo, s);
    if fc == sc {
      BoundaryNext(m, cl[sc], s);
      Disjoint(m, cl[sc].lo, cl[sc].hi, fr, s);
    } else {
      assert fc < sc;
    }
  }

  /** After the copy, source cluster and cursor are as they were. */
  lemma SourceAfterCopy(m: Memory, m': Memory, cl: seq<Range>, fls: seq<seq<int>>, fc: nat, sc: nat, fl': seq<int>,
                        f: int, s: int, e: int, cs: int)
    requires Spaced(cl) && fc < |cl| && sc < |cl| && 0 <= f < |m| && ClustersOk(m', cl, fls)
    requires FreeFilled(m, m', cl[fc], fl', f, s, e - s) && OthersSame(m, m', cl, fc) && f + m[f].size <= s
    requires Boundary(m, cl[sc], s) && Boundary(m, cl[sc], e) && Boundary(m, cl[sc], cs) && AllLive(m, s, e)
    ensures Boundary(m', cl[sc], s) && Boundary(m', cl[sc], e) && Boundary(m', cl[sc], cs)
    ensures AllLive(m', s, e) && Starts(m', s, e) == Starts(m, s, e)
    ensures BeginsFree(m', e, cl[sc].hi) == BeginsFree(m, e, cl[sc].hi)
  {
    hide Starts, Tiled, AllLive, Tidy, FreeList, FreeSize, Live, EndsFree;
    var r := cl[sc];
    SameRun(m, m', s, e);
    AllLiveBounds(m, s, e);
    assert ClusterOk(m', r, fls[sc]);
    BoundaryGrows(m, m', r, s);
    BoundaryGrows(m, m', r, e);
    BoundaryGrows(m, m', r, cs);
  }

  /** After the copy, the region FillFree gave back is free. */
  lemma FreeAfterCopy(m: Memory, m': Memory, r: Range, fl: seq<int>, fl': seq<int>, k: nat, s: int, n: int, next: int)
    requires ClusterOk(m, r, fl) && k < |fl| && 0 <= fl[k] < |m| && 0 < n <= m[fl[k]].size
    requires FreeFilled(m, m', r, fl', fl[k], s, n)
    requires next == (if n < m[fl[k]].size then fl[k] + n else if k + 1 < |fl| then fl[k + 1] else NULL)
    ensures next == NULL || FreeAt(m', r, next)
  {
    hide Starts, Tiled, AllLive, Tidy, FreeList, FreeSize, Live, EndsFree;
    if n == m[fl[k]].size && k + 1 < |fl| { NextInList(m, r, fl, k); }
  }

  method MoveByCopy(g: Relocator, ghost t: Trace, fc: nat, fr: int, sc: nat, s: int, e: int, cs: int)
    returns (fr': int, ghost t': Trace, ghost b: int)
    requires Progress(g, t, s) && |g.relocBlocks| < g.relocTotal
    requires fc < |g.heap.clusters| && FreeAt(g.heap.mem[..], g.heap.clusters[fc], fr)
    requires sc < |g.heap.clusters| && s < e <= cs && fr + g.heap.mem[fr].size < s && e - s <= g.heap.mem[fr].size
    requires Boundary(g.heap.mem[..], g.heap.clusters[sc], s) && Boundary(g.heap.mem[..], g.heap.clusters[sc], e)
    requires Boundary(g.heap.mem[..], g.heap.clusters[sc], cs) && MovableRun(g.heap.mem[..], s, e)
    requires BeginsFree(g.heap.mem[..], e, g.heap.clusters[sc].hi) ==> e < cs
    modifies g`relocBlocks, g.heap`freeLists, g.heap.mem
    ensures Progress(g, t', e) && RecordedMove(t, t', s, e, fr)
    ensures fr' == NULL || FreeAt(g.heap.mem[..], g.heap.clusters[fc], fr')
    ensures Boundary(g.heap.mem[..], g.heap.clusters[sc], cs)
    ensures var m, g0 := old(g.heap.mem[..]), Range(fr, fr + old(g.heap.mem[..])[fr].size);
      && Moved(m, g.heap.mem[..], g.heap.clusters, s, e, fr) && GoesOn(m, g.heap.clusters[fc], g0, s, e, fr')
      && TurnGaps(m, g.heap.mem[..], g.heap.clusters, fc, g0, sc, s, e, b)
  {
    hide Starts, Tiled, AllLive, Tidy, FreeList, FreeSize, Live, Blocks, Preserved, FreeFilled, Returned, Moved,
         SameBlocks, TurnGaps, FreeBehind, After, GoesOn,
         PatchRoots, Laid, Below, Within, MovableRun, EndsFree, TotalFree, BeginsFree, FreeAt;
    ghost var m, cl, fls := g.heap.mem[..], g.heap.clusters, g.heap.freeLists;
    ghost var r := cl[sc];
    var k := RegionIndex(g.heap, fc, fr);
    MovableLive(m, s, e);
    fr' := FillFree(g.heap, fc, k, s, e - s);
    ghost var m1, fls1 := g.heap.mem[..], g.heap.freeLists;
    FillCopies(m, m1, cl, fc, fls1[fc], fr, s, e - s);
    FreeAfterCopy(m, m1, cl[fc], fls[fc], fls1[fc], k, s, e - s, fr');
    SourceAfterCopy(m, m1, cl, fls1, fc, sc, fls1[fc], fr, s, e, cs);
    var dst := Vacate(g.heap, sc, s, e - s);
    ghost var m2, fl2 := g.heap.mem[..], g.heap.freeLists[sc];
    VacateBlocks(m1, m2, cl, sc, fl2, s, e, dst);
    RunInCluster(m, r, s, e);
    RunBlocks(m, cl, sc, s, e);
    FillVacateMoved(m, m1, m2, cl, fc, sc, fl2, fr, s, e, dst);
    BoundaryAfterReturn(m1, m2, r, s, e, fl2, dst, cs);
    CopyTurn(m, m1, m2, cl, fls[fc], fc, sc, fls1[fc], fl2, fr, s, e, dst);
    b := dst;
    CopyGoesOn(m, m2, cl, fls, fc, k, sc, s, e, b, fr');
    fr' := Continue(g.heap, m1, fls1[fc], fc, sc, s, e, dst, fr');
    g.relocBlocks := g.relocBlocks + [Move(s, e, fr)];
    t' := Recorded(t, m, m2, cl, s, e, fr);
    BoundaryRange(m, r, s);
    BoundaryRange(m, r, e);
    WithinAppend(t.all, Move(s, e, fr), cl, sc);
  }

  /** Where to go on after a copy. */
  lemma CopyGoesOn(m: Memory, m2: Memory, cl: seq<Range>, fls: seq<seq<int>>, fc: nat, k: nat, sc: nat, s: int, e: int,
                   b: int, next: int)
    requires Spaced(cl) && ClustersOk(m, cl, fls) && fc < |cl| && sc < |cl| && k < |fls[fc]| && 0 <= fls[fc][k] < |m|
    requires FreeAt(m, cl[fc], fls[fc][k])
    requires fls[fc][k] + m[fls[fc][k]].size < s < e && e - s <= m[fls[fc][k]].size
    requires Boundary(m, cl[sc], s) && Boundary(m, cl[sc], e) && AllLive(m, s, e)
    requires FreeBehind(m, cl[sc], s, b) && 0 <= b < |m2| && b + m2[b].size == After(m, cl[sc], e)
    requires next == (if e - s < m[fls[fc][k]].size then fls[fc][k] + (e - s)
                      else if k + 1 < |fls[fc]| then fls[fc][k + 1] else NULL)
    ensures var g := Range(fls[fc][k], fls[fc][k] + m[fls[fc][k]].size);
      GoesOn(m, cl[fc], g, s, e, if b < next < b + m2[b].size then b else next)
  {
    hide Starts, Tiled, AllLive, Tidy, FreeList, BeginsFree, Boundary, FreeAt, NextFree;
    var g := Range(fls[fc][k], fls[fc][k] + m[fls[fc][k]].size);
    assert ClusterOk(m, cl[fc], fls[fc]);
    GapAt(m, cl[fc], g);
    if e - s < g.hi - g.lo {
      RemainderApart(m, cl, fls, fc, g, sc, s, b, next);
    } else {
      ListNext(m, cl[fc], fls[fc], k);
      GoesOnAfterCopy(m, cl, fls, fc, g, sc, s, e, b, next);
    }
  }

  /** What is left of the region is not in the vacated space. */
  lemma RemainderApart(m: Memory, cl: seq<Range>, fls: seq<seq<int>>, fc: nat, g: Range, sc: nat, s: int, b: int,
                       x: int)
    requires Spaced(cl) && ClustersOk(m, cl, fls) && fc < |cl| && sc < |cl| && g in Gaps(m, cl[fc])
    requires g.lo < x < g.hi < s && Boundary(m, cl[sc], s) && FreeBehind(m, cl[sc], s, b)
    ensures x <= b
  {
    hide Starts, Tiled, Tidy, FreeList, FreeAt, Gaps, Boundary;
    if b < s {
      var h := Range(b, s);
      assert ClusterOk(m, cl[fc], fls[fc]) && ClusterOk(m, cl[sc], fls[sc]);
      GapEnds(m, cl[fc], fls[fc], g);
      GapEnds(m, cl[sc], fls[sc], h);
      if fc == sc { GapsApart(m, cl[fc], fls[fc], g, h); }
    }
  }

  /** The list leads from a free block to the next. */
  lemma ListNext(m: Memory, r: Range, fl: seq<int>, k: nat)
    requires ClusterOk(m, r, fl) && k < |fl|
    ensures NextFree(m, r, fl[k], if k + 1 < |fl| then fl[k + 1] else NULL)
  {
    hide Starts, Tiled, Tidy, FreeList;
    if k + 1 < |fl| { NextInList(m, r, fl, k); }
    forall f | FreeAt(m, r, f) && fl[k] < f ensures k + 1 < |fl| && fl[k + 1] <= f {
      FreeListMember(m, r.lo, r.hi, f);
      var j :| 0 <= j < |fl| && fl[j] == f;
      if j < k { FreeListSorted(m, r.lo, r.hi, j, k); }
      if k + 1 < j { FreeListSorted(m, r.lo, r.hi, k + 1, j); }
      FreeListAt(m, r.lo, r.hi, k);
    }
  }

  method RegionIndex(h: Heap, c: nat, fr: int) returns (k: nat)
    requires h.Valid() && c < |h.clusters| && FreeAt(h.mem[..], h.clusters[c], fr)
    ensures |h.freeLists| == |h.clusters|
    ensures k < |h.freeLists[c]| && h.freeLists[c][k] == fr && 0 <= fr < h.mem.Length
    ensures IsFree(h.mem[fr]) && fr in Starts(h.mem[..], h.clusters[c].lo, h.clusters[c].hi)
    ensures Tiled(h.mem[..], h.clusters[c].lo, h.clusters[c].hi)
  {
    hide Starts, Tiled, Tidy, FreeList;
    assert ClusterOk(h.mem[..], h.clusters[c], h.freeLists[c]);
    FreeListMember(h.mem[..], h.clusters[c].lo, h.clusters[c].hi, fr);
    k := IndexOf(h.freeLists[c], fr);
  }

  /** If the region to continue with was swallowed by the vacated stretch, continue with that. */
  method Continue(h: Heap, ghost m1: Memory, ghost fl: seq<int>, fc: nat, sc: nat, ghost s: int, ghost e: int, dst: int,
                  next: int)
    returns (fr: int)
    requires h.Valid() && fc < |h.clusters| && sc < |h.clusters|
    requires ClusterOk(m1, h.clusters[fc], fl) && OthersSame(m1, h.mem[..], h.clusters, sc)
    requires Boundary(m1, h.clusters[sc], s) && Boundary(m1, h.clusters[sc], e) && AllLive(m1, s, e)
    requires Returned(m1, h.mem[..], h.clusters[sc], s, e, h.freeLists[sc], dst)
    requires next == NULL || FreeAt(m1, h.clusters[fc], next)
    ensures fr == NULL || FreeAt(h.mem[..], h.clusters[fc], fr)
    ensures 0 <= dst < h.mem.Length && fr == if dst < next < dst + h.mem[dst].size then dst else next
  {
    hide Starts, Tiled, AllLive, Tidy, FreeList, FreeSize, Live, EndsFree;
    ghost var m, cl := h.mem[..], h.clusters;
    fr := next;
    if next != NULL {
      if fc == sc {
        FreeAfterReturn(m1, m, cl[sc], s, e, h.freeLists[sc], dst, next);
      } else {
        assert SameBlocks(m1, m, cl[fc].lo, cl[fc].hi);
        FreeListMember(m1, cl[fc].lo, cl[fc].hi, next);
        FreeListMember(m, cl[fc].lo, cl[fc].hi, next);
        assert dst in Starts(m, cl[sc].lo, cl[sc].hi);
        assert cl[fc].hi < cl[sc].lo || cl[sc].hi < cl[fc].lo;
      }
    }
    if dst < fr && fr < dst + h.mem[dst].size { fr := dst; }
  }

  lemma BelowMono(rs: seq<Region>, s: int, s': int)
    requires Below(rs, s) && s <= s'
    ensures Below(rs, s')
  {
  }

  /** The source cursor and the free region, as the loop keeps them. */
  ghost predicate Cursors(h: Heap, fc: nat, fr: int, sc: nat, cs: int)
    reads h, h.mem
  {
    && sc < |h.clusters| && Boundary(h.mem[..], h.clusters[sc], cs)
    && fc < |h.clusters| && FreeAt(h.mem[..], h.clusters[fc], fr)
  }

  /** Move what can be moved from the source cursor into the free region, or give up on the region: [from, e) are
      the blocks that move, and b is where the free space begins that they leave. */
  method StepMove(g: Relocator, ghost t: Trace, fc: nat, fr: int, sc: nat, from: int)
    returns (cs: int, fr': int, ghost t': Trace, ghost e: int, ghost b: int)
    requires Progress(g, t, from) && |g.relocBlocks| < g.relocTotal && Cursors(g.heap, fc, fr, sc, from)
    requires fr < from < g.heap.clusters[sc].hi && 0 <= from < g.heap.mem.Length && !Unmovable(g.heap.mem[from])
    modifies g`relocBlocks, g.heap`freeLists, g.heap.mem
    ensures Progress(g, t', cs) && t'.m0 == t.m0 && t'.roots0 == t.roots0
    ensures Boundary(g.heap.mem[..], g.heap.clusters[sc], cs) && from <= cs <= g.heap.clusters[sc].hi
    ensures fr' == NULL || FreeAt(g.heap.mem[..], g.heap.clusters[fc], fr')
    ensures from < cs || fr' == NULL || fr < fr'
    // Which blocks move, and that exactly their move is recorded.
    ensures var m, cl := old(g.heap.mem[..]), g.heap.clusters; var r := Range(fr, fr + m[fr].size);
      && TurnTakes(m, cl[sc], r, from, e) && Skipped(m, cl[sc], e, cs) && GoesOn(m, cl[fc], r, from, e, fr')
      && (if from < e then RecordedMove(t, t', from, e, fr) && Moved(m, g.heap.mem[..], cl, from, e, fr)
                           && TurnGaps(m, g.heap.mem[..], cl, fc, r, sc, from, e, b)
          else t' == t && cs == from && g.heap.mem[..] == m && g.heap.freeLists == old(g.heap.freeLists))
    // The region is given up only when not even the first block fits.
    ensures e == from ==>
      var size := old(g.heap.mem[fr].size); fr + size != from && size < old(g.heap.mem[from].size)
  {
    hide Starts, Tiled, AllLive, Tidy, FreeList, FreeSize, Live, Blocks, Preserved, PatchRoots, Laid, Below, Within,
         MovableRun, EndsFree, TotalFree, FreeAt, ClustersOk, TurnGaps, Skipped, Moved, NextFree;
    ghost var m, cl := g.heap.mem[..], g.heap.clusters;
    var k := RegionIndex(g.heap, fc, fr);
    var size := g.heap.mem[fr].size;
    RegionBelow(m, cl, fc, sc, fr, from);
    var end;
    if from == fr + size {
      end := TakeMovable(g.heap, sc, from);
    } else {
      end := TakeFitting(g.heap, sc, from, size);
    }
    e, b := end, from;
    if end > from {
      cs := SkipUnmovable(g.heap, sc, end);
      SkippedFree(m, cl[sc], g.heap.freeLists, cl, sc, e, cs);
      if from == fr + size {
        fr', t' := MoveBySlide(g, t, sc, fr, from, end, cs);
      } else {
        fr', t', b := MoveByCopy(g, t, fc, fr, sc, from, end, cs);
      }
      BelowMono(t'.all, e, cs);
    } else {
      cs, t' := from, t;
      fr' := if k + 1 < |g.heap.freeLists[fc]| then g.heap.freeLists[fc][k + 1] else NULL;
      NextRegionAbove(m, cl, g.heap.freeLists, fc, k);
      NothingSkipped(m, cl[sc], from);
    }
  }

  lemma NothingSkipped(m: Memory, r: Range, x: int)
    requires Boundary(m, r, x) && x < r.hi && 0 <= x < |m| && !Unmovable(m[x])
    ensures Skipped(m, r, x, x)
  {
    hide Starts, Tiled;
  }

  lemma NextRegionAbove(m: Memory, cl: seq<Range>, fls: seq<seq<int>>, c: nat, k: nat)
    requires ClustersOk(m, cl, fls) && c < |cl| && k < |fls[c]|
    ensures k + 1 < |fls[c]| ==> FreeAt(m, cl[c], fls[c][k + 1]) && fls[c][k] < fls[c][k + 1]
    ensures NextFree(m, cl[c], fls[c][k], if k + 1 < |fls[c]| then fls[c][k + 1] else NULL)
  {
    assert ClusterOk(m, cl[c], fls[c]);
    ListNext(m, cl[c], fls[c], k);
    if k + 1 < |fls[c]| { NextInList(m, cl[c], fls[c], k); }
  }

  /** The cursor does not stop in front of a free block. */
  lemma SkippedFree(m: Memory, r: Range, fls: seq<seq<int>>, cl: seq<Range>, c: nat, e: int, cs: int)
    requires ClustersOk(m, cl, fls) && c < |cl| && r == cl[c] && Boundary(m, r, e) && e <= cs
    requires e < r.hi && 0 <= e < |m| && Unmovable(m[e]) ==> e + m[e].size <= cs
    ensures BeginsFree(m, e, r.hi) ==> e < cs
  {
    hide Starts, Tiled, Tidy, FreeList;
    if BeginsFree(m, e, r.hi) {
      assert ClusterOk(m, r, fls[c]);
      BoundaryNext(m, r, e);
      TidyPinned(m, r.lo, r.hi, e);
    }
  }

  /** Patching pointers moves no block boundary, frees nothing and pins nothing. */
  lemma CursorsPatched(m: Memory, m': Memory, cl: seq<Range>, fls: seq<seq<int>>, rs: seq<Region>, fc: nat, fr: int,
                       sc: nat, cs: int)
    requires Patched(m, m', cl, rs) && ClustersOk(m, cl, fls)
    requires sc < |cl| && Boundary(m, cl[sc], cs) && fc < |cl| && FreeAt(m, cl[fc], fr)
    requires cs < cl[sc].hi && 0 <= cs < |m| && !Unmovable(m[cs])
    ensures Boundary(m', cl[sc], cs) && FreeAt(m', cl[fc], fr) && !Unmovable(m'[cs])
  {
    hide Starts, Tiled, Tidy, FreeList;
    var r := cl[sc];
    assert SameBlocks(m, m', r.lo, r.hi) && SameBlocks(m, m', cl[fc].lo, cl[fc].hi);
    BoundaryGrows(m, m', r, cs);
    FreeListMember(m, cl[fc].lo, cl[fc].hi, fr);
    FreeListMember(m', cl[fc].lo, cl[fc].hi, fr);
    BoundaryNext(m, r, cs);
    assert ClusterOk(m, r, fls[sc]);
    if IsFree(m[cs]) { TidyPinned(m, r.lo, r.hi, cs); }
    assert cs in Live(m, r.lo, r.hi);
    TiledBounds(m, cs, r.hi);
    PatchedHeader(m, m', rs, cs);
  }

  /** Flush the recorded regions. */
  method Flush(g: Relocator, ghost t: Trace, ghost cs: int) returns (ghost t': Trace)
    requires Progress(g, t, cs)
    modifies g`relocBlocks, g`roots, g.heap.mem
    ensures Progress(g, t', cs) && t' == t.(flushed := t.all) && g.relocBlocks == []
    ensures Patched(old(g.heap.mem[..]), g.heap.mem[..], g.heap.clusters, old(g.relocBlocks))
  {
    hide Starts, Tiled, Tidy, FreeList, FreeSize, Live, Blocks, Preserved, Patched, ClustersOk;
    ghost var m, cl, pending := g.heap.mem[..], g.heap.clusters, g.relocBlocks;
    OrderedTail(t.flushed, pending);
    g.HeapRelocate();
    PreservedFlush(t.m0, m, g.heap.mem[..], cl, t.all, t.flushed, pending, t.origin);
    PatchedFree(m, g.heap.mem[..], cl, pending);
    PatchRootsTwice(t.all, t.flushed, pending, t.roots0);
    t' := t.(flushed := t.all);
  }

  lemma OrderedTail(a: seq<Region>, b: seq<Region>)
    requires Ordered(a + b) && Downward(a + b)
    ensures Ordered(b) && Downward(a)
  {
    var rs := a + b;
    assert forall i :: 0 <= i < |a| ==> rs[i] == a[i];
    assert forall j :: 0 <= j < |b| ==> rs[|a| + j] == b[j];
  }

  lemma PatchedFree(m: Memory, m': Memory, cl: seq<Range>, rs: seq<Region>)
    requires Patched(m, m', cl, rs)
    ensures TotalFree(m', cl) == TotalFree(m, cl)
  {
    TotalFreeSame(m, m', cl);
  }

  lemma PatchRootsTwice(all: seq<Region>, a: seq<Region>, b: seq<Region>, roots: seq<Data>)
    requires all == a + b && Ordered(all) && Downward(a)
    ensures PatchRoots(b, PatchRoots(a, roots)) == PatchRoots(all, roots)
  {
    forall i | 0 <= i < |roots| ensures PatchData(b, PatchData(a, roots[i])) == PatchData(all, roots[i]) {
      match roots[i] {
        case Ref(p) => RelocCompose(a, b, p);
        case Raw(_) =>
      }
    }
  }

  /** A free region of a later cluster is further up. */
  lemma RegionOrder(m: Memory, m': Memory, cl: seq<Range>, c: nat, d: nat, x: int, y: int)
    requires Spaced(cl) && c < d < |cl| && x < cl[c].hi && FreeAt(m', cl[d], y)
    ensures x < y
  {
  }

  lemma FreeAtBoundary(m: Memory, r: Range, fl: seq<int>, fr: int)
    requires ClusterOk(m, r, fl) && FreeAt(m, r, fr)
    ensures Boundary(m, r, fr)
  {
    Split(m, r.lo, r.hi, fr);
  }

  lemma ClusterStart(m: Memory, r: Range, fl: seq<int>)
    requires ClusterOk(m, r, fl)
    ensures Boundary(m, r, r.lo)
  {
    Split(m, r.lo, r.hi, r.lo);
  }

  /** Patching pointers leaves free space where it is, and pins nothing. */
  lemma OrderlyPatched(m: Memory, m': Memory, cl: seq<Range>, rs: seq<Region>, fr: int, sc: nat, cs: int)
    requires Patched(m, m', cl, rs) && Orderly(m, cl, fr, sc, cs) && sc < |cl|
    ensures Orderly(m', cl, fr, sc, cs)
  {
    hide Gaps, Blocks, SameBlocks;
    forall d | 0 <= d < |cl| ensures Gaps(m', cl[d]) == Gaps(m, cl[d]) { GapsSame(m, m', cl[d]); }
    LoosePatched(m, m', cl, rs);
    forall c | 0 <= c < sc ensures PackedTo(m', cl[c], cl[c].hi) { assert PackedTo(m, cl[c], cl[c].hi); }
  }

  lemma PatchedBlock(m: Memory, m': Memory, cl: seq<Range>, rs: seq<Region>, a: int)
    requires Patched(m, m', cl, rs) && a in Blocks(m', cl)
    ensures a in Blocks(m, cl) && 0 <= a < |m| == |m'| && Unmovable(m'[a]) == Unmovable(m[a])
  {
    hide Starts, Tiled, Tidy, FreeList, FreeSize, Live, EndsFree;
    var d :| 0 <= d < |cl| && a in Live(m', cl[d].lo, cl[d].hi);
    assert SameBlocks(m, m', cl[d].lo, cl[d].hi);
    BlockInside(m, cl, a);
    PatchedHeader(m, m', rs, a);
  }

  lemma LoosePatched(m: Memory, m': Memory, cl: seq<Range>, rs: seq<Region>)
    requires Patched(m, m', cl, rs) && Loose(m, cl)
    requires forall d :: 0 <= d < |cl| ==> Gaps(m', cl[d]) == Gaps(m, cl[d])
    ensures Loose(m', cl)
  {
    hide Gaps, Blocks, Patched, Unmovable, SameBlocks;
    forall c, g, a | 0 <= c < |cl| && g in Gaps(m', cl[c]) && a in Blocks(m', cl) && g.lo < a
      ensures !Unmovable(m'[a])
    {
      PatchedBlock(m, m', cl, rs, a);
    }
  }

  method FlushIfFull(g: Relocator, ghost t: Trace, ghost fc: nat, ghost fr: int, ghost sc: nat, ghost cs: int)
    returns (ghost t': Trace)
    requires g.relocTotal >= 1 && Progress(g, t, cs) && Cursors(g.heap, fc, fr, sc, cs)
    requires cs < g.heap.clusters[sc].hi && 0 <= cs < g.heap.mem.Length && !Unmovable(g.heap.mem[cs])
    modifies g`relocBlocks, g`roots, g.heap.mem
    ensures Progress(g, t', cs) && t'.m0 == t.m0 && t'.roots0 == t.roots0 && |g.relocBlocks| < g.relocTotal
    ensures Cursors(g.heap, fc, fr, sc, cs) && !Unmovable(g.heap.mem[cs])
    ensures t'.all == t.all && (t.all == [] ==> g.heap.mem[..] == old(g.heap.mem[..]))
    ensures Orderly(old(g.heap.mem[..]), g.heap.clusters, fr, sc, cs) ==>
      Orderly(g.heap.mem[..], g.heap.clusters, fr, sc, cs)
  {
    hide Preserved, PatchRoots, Laid, Below, Within, TotalFree, FreeAt, Boundary, ClusterOk, Patched, Orderly;
    t' := t;
    if |g.relocBlocks| >= g.relocTotal {
      ghost var m, rs := g.heap.mem[..], g.relocBlocks;
      t' := Flush(g, t', cs);
      CursorsPatched(m, g.heap.mem[..], g.heap.clusters, g.heap.freeLists, rs, fc, fr, sc, cs);
      if Orderly(m, g.heap.clusters, fr, sc, cs) {
        OrderlyPatched(m, g.heap.mem[..], g.heap.clusters, rs, fr, sc, cs);
      }
    }
  }

  /** Bring the source cursor up to the free region, if it is below, and on to the next movable block. */
  method Approach(h: Heap, fc: nat, fr: int, sc0: nat, cs0: int) returns (sc: nat, cs: int)
    requires h.Valid() && Cursors(h, fc, fr, sc0, cs0)
    ensures Cursors(h, fc, fr, sc, cs) && sc0 <= sc && cs0 <= cs && fr <= cs <= h.clusters[sc].hi
    ensures cs < h.clusters[sc].hi ==> fr < cs && 0 <= cs < h.mem.Length && !Unmovable(h.mem[cs])
    ensures Orderly(h.mem[..], h.clusters, fr, sc0, cs0) ==> Orderly(h.mem[..], h.clusters, fr, sc, cs)
    ensures Tried(h.mem[..], h.clusters, fr, cs0) ==> Tried(h.mem[..], h.clusters, fr, cs)
  {
    hide FreeAt, Boundary, ClusterOk, Gaps, Skipped, Loose, Packing, Ahead, Blocks, Stuck;
    ghost var m, cl := h.mem[..], h.clusters;
    sc, cs := sc0, cs0;
    BoundaryRange(m, cl[sc], cs);
    FreeAtRange(m, cl[fc], fr);
    if cs < fr {
      FreeAtBoundary(m, cl[fc], h.freeLists[fc], fr);
      if Orderly(m, cl, fr, sc0, cs0) { PackedJump(m, cl, h.freeLists, fc, fr, sc, cs); }
      ClusterOrder(m, cl, fc, fr, sc, cs);
      sc, cs := fc, fr;
    }
    ghost var x := cs;
    cs := SkipUnmovable(h, sc, cs);
    SkippedRange(m, cl[sc], x, cs);
    if Orderly(m, cl, fr, sc0, cs0) { OrderlySkip(m, cl, h.freeLists, fc, fr, sc, x, cs); }
    if Tried(m, cl, fr, x) { TriedSkip(m, cl, sc, fr, x, cs); }
    if cs < h.clusters[sc].hi { FreeCursor(m, cl[fc], h.freeLists[fc], fr, cs); }
  }

  lemma OrderlySkip(m: Memory, cl: seq<Range>, fls: seq<seq<int>>, fc: nat, fr: int, sc: nat, x: int, cs: int)
    requires ClustersOk(m, cl, fls) && fc < |cl| && sc < |cl| && FreeAt(m, cl[fc], fr) && fr <= x
    requires Loose(m, cl) && Packing(m, cl, sc, x) && Boundary(m, cl[sc], x) && Skipped(m, cl[sc], x, cs)
    ensures Orderly(m, cl, fr, sc, cs)
  {
    hide FreeAt, Boundary, Gaps, ClustersOk, Loose, Packing, Ahead;
    FreeAtRange(m, cl[fc], fr);
    GapAt(m, cl[fc], Range(fr, fr + m[fr].size));
    PackedSkip(m, cl, fls, fc, Range(fr, fr + m[fr].size), sc, x, cs);
  }

  lemma SkippedRange(m: Memory, r: Range, x: int, cs: int)
    requires Skipped(m, r, x, cs)
    ensures x <= cs <= r.hi && Boundary(m, r, cs) && (cs < r.hi ==> 0 <= cs < |m| && !Unmovable(m[cs]))
  {
  }

  /** A free region above the cursor is in the same cluster or a later one. */
  lemma ClusterOrder(m: Memory, cl: seq<Range>, fc: nat, fr: int, sc: nat, cs: int)
    requires Spaced(cl) && fc < |cl| && sc < |cl| && FreeAt(m, cl[fc], fr) && cl[sc].lo <= cs < fr
    ensures sc <= fc
  {
    FreeAtRange(m, cl[fc], fr);
  }

  lemma OrderlyStep(m: Memory, m': Memory, cl: seq<Range>, fls: seq<seq<int>>, fc: nat, fr0: int, sc: nat, from: int,
                    e: int, b: int, cs: int, fr: int)
    requires Spaced(cl) && ClustersOk(m, cl, fls) && fc < |cl| && sc < |cl| && FreeAt(m, cl[fc], fr0)
    requires Orderly(m, cl, fr0, sc, from) && fr0 < from < cl[sc].hi && Boundary(m, cl[sc], from)
    requires 0 <= from < |m| && !Unmovable(m[from])
    requires var g := Range(fr0, fr0 + m[fr0].size);
      && TurnTakes(m, cl[sc], g, from, e) && Skipped(m, cl[sc], e, cs) && GoesOn(m, cl[fc], g, from, e, fr)
      && if from < e then Moved(m, m', cl, from, e, fr0) && TurnGaps(m, m', cl, fc, g, sc, from, e, b)
         else m' == m && cs == from
    ensures Orderly(m', cl, fr, sc, cs) && (fr == NULL ==> fc < sc)
  {
    hide FreeAt, Boundary, Gaps, ClustersOk, Orderly, Moved, TurnGaps, TurnTakes, Skipped, GoesOn;
    FreeAtRange(m, cl[fc], fr0);
    var g := Range(fr0, fr0 + m[fr0].size);
    GapAt(m, cl[fc], g);
    OrderlyTurn(m, m', cl, fls, fc, g, sc, from, e, b, cs, fr);
  }

  /** As long as nothing has moved, a region that is given up is stuck: fr1 is the next free block of its cluster,
      fr the next one at all. */
  lemma TriedStep(m: Memory, cl: seq<Range>, fls: seq<seq<int>>, fc: nat, fr0: int, sc: nat, from: int, e: int,
                  fr1: int, fr: int)
    requires Spaced(cl) && ClustersOk(m, cl, fls) && fc < |cl| && sc < |cl| && FreeAt(m, cl[fc], fr0)
    requires Tried(m, cl, fr0, from) && fr0 < from < cl[sc].hi && Boundary(m, cl[sc], from)
    requires 0 <= from < |m| && !Unmovable(m[from])
    requires fr0 + m[fr0].size != from && m[fr0].size < m[from].size
    requires NextFree(m, cl[fc], fr0, fr1)
    requires if fr1 != NULL then fr == fr1
             else if fr != NULL then fr0 < fr && Ahead(m, cl, fc + 1, fr)
             else FullFrom(m, cl, fc + 1)
    ensures TriedSoFar(m, cl, fr, from)
  {
    hide FreeAt, Boundary, Gaps, ClustersOk, Stuck, Blocks, Starts;
    FreeAtRange(m, cl[fc], fr0);
    var g := Range(fr0, fr0 + m[fr0].size);
    GapAt(m, cl[fc], g);
    SourceLive(m, cl, fls, sc, from);
    var top := if fr == NULL then from + |m| + 1 else fr;
    if fr1 != NULL { FreeAtRange(m, cl[fc], fr1); }
    forall d, h | 0 <= d < |cl| && h in Gaps(m, cl[d]) ensures h.lo <= g.lo || top <= h.lo {
      GapAt(m, cl[d], h);
      FreeAtRange(m, cl[d], h.lo);
      if d < fc { ClustersApart(cl, d, fc); }
      if fc < d { ClustersApart(cl, fc, d); }
    }
    TriedNext(m, cl, g, fc, sc, from, top);
    if fr == NULL {
      forall d, h | 0 <= d < |cl| && h in Gaps(m, cl[d]) ensures h.lo < top {
        GapAt(m, cl[d], h);
        FreeAtRange(m, cl[d], h.lo);
      }
      TriedAll(m, cl, top, from);
    }
  }

  lemma ClustersApart(cl: seq<Range>, c: nat, d: nat)
    requires Spaced(cl) && c < d < |cl|
    ensures cl[c].hi < cl[d].lo
  {
  }

  lemma SourceLive(m: Memory, cl: seq<Range>, fls: seq<seq<int>>, sc: nat, cs: int)
    requires ClustersOk(m, cl, fls) && sc < |cl| && Boundary(m, cl[sc], cs) && cs < cl[sc].hi
    requires 0 <= cs < |m| && !Unmovable(m[cs])
    ensures cs in Live(m, cl[sc].lo, cl[sc].hi)
  {
    hide Starts, Tiled, Tidy, FreeList;
    assert ClusterOk(m, cl[sc], fls[sc]);
    BoundaryNext(m, cl[sc], cs);
    if IsFree(m[cs]) { TidyPinned(m, cl[sc].lo, cl[sc].hi, cs); }
  }

  lemma TurnUp(m: Memory, r: Range, g: Range, from: int, e: int)
    requires TurnTakes(m, r, g, from, e)
    ensures from <= e
  {
  }

  /** Without a region given up, the turn is a move. */
  lemma GivenUp(m: Memory, r: Range, g: Range, from: int, fr: int)
    requires GoesOn(m, r, g, from, from, fr)
    ensures NextFree(m, r, g.lo, fr)
  {
  }

  /** A turn at a movable block, and the choice of the region to go on with. */
  method Advance(g: Relocator, ghost t: Trace, fc0: nat, fr0: int, sc: nat, from: int)
    returns (fc: nat, fr: int, cs: int, ghost t': Trace)
    requires Progress(g, t, from) && |g.relocBlocks| < g.relocTotal && Cursors(g.heap, fc0, fr0, sc, from)
    requires fr0 < from < g.heap.clusters[sc].hi && 0 <= from < g.heap.mem.Length && !Unmovable(g.heap.mem[from])
    modifies g`relocBlocks, g.heap`freeLists, g.heap.mem
    ensures Progress(g, t', cs) && t'.m0 == t.m0 && t'.roots0 == t.roots0
    ensures Boundary(g.heap.mem[..], g.heap.clusters[sc], cs) && from <= cs <= g.heap.clusters[sc].hi
    ensures fr != NULL ==> fc < |g.heap.clusters| && FreeAt(g.heap.mem[..], g.heap.clusters[fc], fr)
    ensures from < cs || fr == NULL || fr0 < fr
    ensures Orderly(old(g.heap.mem[..]), g.heap.clusters, fr0, sc, from) ==>
      Orderly(g.heap.mem[..], g.heap.clusters, fr, sc, if fr == NULL then g.heap.clusters[sc].hi else cs)
    ensures t'.all == [] ==> t.all == [] && cs == from && g.heap.mem[..] == old(g.heap.mem[..])
    ensures t'.all == [] && Tried(old(g.heap.mem[..]), g.heap.clusters, fr0, from) ==>
      TriedSoFar(old(g.heap.mem[..]), g.heap.clusters, fr, from)
  {
    hide Progress, Preserved, PatchRoots, Laid, Below, Within, TotalFree, FreeAt, Boundary, ClusterOk, Patched, Orderly,
         Tried, Gaps, TurnGaps, Moved, GoesOn, TurnTakes, Skipped, NextFree, Ahead, AllStuck, FullFrom, TriedSoFar;
    ghost var m, fls, cl := g.heap.mem[..], g.heap.freeLists, g.heap.clusters;
    ghost var e, b;
    ProgressValid(g, t, from);
    fc := fc0;
    cs, fr, t', e, b := StepMove(g, t, fc, fr0, sc, from);
    ProgressValid(g, t', cs);
    ghost var m', fr1, orderly := g.heap.mem[..], fr, Orderly(m, cl, fr0, sc, from);
    if orderly { OrderlyStep(m, m', cl, fls, fc, fr0, sc, from, e, b, cs, fr); }
    if fr == NULL {
      fc, fr := NextRegion(g.heap, fc + 1);
      FreeAtRange(m, cl[fc0], fr0);
      if fr == NULL {
        if orderly { OrderlyEnd(m', cl, fc0, sc, cs); }
      } else {
        RegionOrder(m, m', cl, fc0, fc, fr0, fr);
        if orderly { OrderlyRegion(m', cl, fc0, sc, cs, fr); }
      }
    }
    if t'.all == [] && Tried(m, cl, fr0, from) {
      FreeAtRange(m, cl[fc0], fr0);
      TurnUp(m, cl[sc], Range(fr0, fr0 + m[fr0].size), from, e);
      assert e == from;
      GivenUp(m, cl[fc0], Range(fr0, fr0 + m[fr0].size), from, fr1);
      TriedStep(m, cl, fls, fc0, fr0, sc, from, e, fr1, fr);
    }
  }

  lemma ProgressValid(g: Relocator, t: Trace, cs: int)
    requires Progress(g, t, cs)
    ensures g.heap.Valid()
  {
  }

  /** One turn of the loop.  `done` says that it was the last for cluster sc: the cursor has come to its end, or no
      free region is left to go on with. */
  method Turn(g: Relocator, ghost t: Trace, fc0: nat, fr0: int, sc0: nat, cs0: int)
    returns (done: bool, fc: nat, fr: int, sc: nat, cs: int, ghost t': Trace)
    requires g.relocTotal >= 1 && Progress(g, t, cs0) && Cursors(g.heap, fc0, fr0, sc0, cs0)
    modifies g`relocBlocks, g`roots, g.heap`freeLists, g.heap.mem
    ensures sc0 <= sc < |g.heap.clusters| && cs0 <= cs <= g.heap.clusters[sc].hi
    ensures done ==> fr <= g.heap.clusters[sc].hi
    ensures Progress(g, t', if done then g.heap.clusters[sc].hi else cs) && t'.m0 == t.m0 && t'.roots0 == t.roots0
    ensures !done ==> Cursors(g.heap, fc, fr, sc, cs) && (cs0 < cs || fr0 < fr)
    ensures fr == NULL || (fc < |g.heap.clusters| && FreeAt(g.heap.mem[..], g.heap.clusters[fc], fr))
    ensures Orderly(old(g.heap.mem[..]), g.heap.clusters, fr0, sc0, cs0) ==>
      Orderly(g.heap.mem[..], g.heap.clusters, fr, sc, if done then g.heap.clusters[sc].hi else cs)
    ensures t'.all == [] ==> t.all == [] && g.heap.mem[..] == old(g.heap.mem[..])
    ensures t'.all == [] && Tried(old(g.heap.mem[..]), g.heap.clusters, fr0, cs0) ==>
      TriedSoFar(old(g.heap.mem[..]), g.heap.clusters, fr, if done then g.heap.clusters[sc].hi else cs)
  {
    hide Preserved, PatchRoots, Laid, Below, Within, TotalFree, FreeAt, Boundary, ClusterOk, Patched, Orderly, Tried,
         AllStuck;
    ghost var cl := g.heap.clusters;
    fc, fr := fc0, fr0;
    FreeAtRange(g.heap.mem[..], cl[fc], fr);
    sc, cs := Approach(g.heap, fc, fr, sc0, cs0);
    BelowMono(t.all, cs0, cs);
    t' := t;
    done := cs == g.heap.clusters[sc].hi;
    if !done {
      t' := FlushIfFull(g, t', fc, fr, sc, cs);
      fc, fr, cs, t' := Advance(g, t', fc, fr, sc, cs);
      done := fr == NULL;
      if done { BelowMono(t'.all, cs, cl[sc].hi); }
    }
  }

  lemma RegionBelowTop(m: Memory, cl: seq<Range>, c: nat, fr: int)
    requires Spaced(cl) && c < |cl| && FreeAt(m, cl[c], fr)
    ensures NULL < fr <= cl[|cl| - 1].hi
  {
    FreeAtRange(m, cl[c], fr);
  }

  /** One cluster's worth of compaction: the inner loop of Heap_Compact, from the start of cluster sc. */
  method CompactFrom(g: Relocator, ghost t: Trace, fc0: nat, fr0: int, sc0: nat)
    returns (fc: nat, fr: int, sc: nat, ghost t': Trace)
    requires g.relocTotal >= 1 && sc0 < |g.heap.clusters| && Progress(g, t, g.heap.clusters[sc0].lo)
    requires fc0 < |g.heap.clusters| && FreeAt(g.heap.mem[..], g.heap.clusters[fc0], fr0)
    modifies g`relocBlocks, g`roots, g.heap`freeLists, g.heap.mem
    ensures sc0 <= sc < |g.heap.clusters| && Progress(g, t', g.heap.clusters[sc].hi)
    ensures t'.m0 == t.m0 && t'.roots0 == t.roots0
    ensures fr == NULL || (fc < |g.heap.clusters| && FreeAt(g.heap.mem[..], g.heap.clusters[fc], fr))
    ensures fr <= g.heap.clusters[sc].hi
    ensures Orderly(old(g.heap.mem[..]), g.heap.clusters, fr0, sc0, g.heap.clusters[sc0].lo) ==>
      Orderly(g.heap.mem[..], g.heap.clusters, fr, sc, g.heap.clusters[sc].hi)
    ensures t'.all == [] ==> t.all == [] && g.heap.mem[..] == old(g.heap.mem[..])
    ensures t'.all == [] && Tried(g.heap.mem[..], g.heap.clusters, fr0, g.heap.clusters[sc0].lo) ==>
      TriedSoFar(g.heap.mem[..], g.heap.clusters, fr, g.heap.clusters[sc].hi)
  {
    hide Preserved, PatchRoots, Laid, Below, Within, TotalFree, FreeAt, Boundary, ClusterOk, Orderly, Tried, AllStuck;
    ghost var m, cl := g.heap.mem[..], g.heap.clusters;
    ghost var top := cl[|cl| - 1].hi;
    fc, fr, sc, t' := fc0, fr0, sc0, t;
    var cs := g.heap.clusters[sc].lo;
    ClusterStart(g.heap.mem[..], cl[sc], g.heap.freeLists[sc]);
    FreeAtRange(g.heap.mem[..], cl[fc], fr);
    var done := false;
    while !done
      invariant sc0 <= sc < |cl| && cs <= cl[sc].hi <= top && fr <= top
      invariant Progress(g, t', if done then cl[sc].hi else cs) && t'.m0 == t.m0 && t'.roots0 == t.roots0
      invariant !done ==> Cursors(g.heap, fc, fr, sc, cs)
      invariant done ==> fr <= cl[sc].hi
      invariant fr == NULL || (fc < |cl| && FreeAt(g.heap.mem[..], cl[fc], fr))
      invariant Orderly(m, cl, fr0, sc0, cl[sc0].lo) ==>
        Orderly(g.heap.mem[..], cl, fr, sc, if done then cl[sc].hi else cs)
      invariant t'.all == [] ==> t.all == [] && g.heap.mem[..] == m
      invariant t'.all == [] && Tried(m, cl, fr0, cl[sc0].lo) ==>
        if done then TriedSoFar(m, cl, fr, cl[sc].hi) else Tried(m, cl, fr, cs)
      decreases !done, top - cs, top - fr
    {
      done, fc, fr, sc, cs, t' := Turn(g, t', fc, fr, sc, cs);
      if !done { RegionBelowTop(g.heap.mem[..], cl, fc, fr); }
    }
  }

  /** A free region is not movable, so the cursor is past it. */
  lemma FreeCursor(m: Memory, r: Range, fl: seq<int>, fr: int, cs: int)
    requires ClusterOk(m, r, fl) && FreeAt(m, r, fr) && fr <= cs < |m| && !Unmovable(m[cs])
    ensures fr < cs
  {
    TidyPinned(m, r.lo, r.hi, fr);
  }

  // ---- The outer loop ----

  /** All free space of a cluster is one block at its end. */
  ghost predicate Packed(m: Memory, r: Range, fl: seq<int>)
  {
    |fl| <= 1 && forall i :: 0 <= i < |fl| ==> 0 <= fl[i] < |m| && fl[i] + m[fl[i]].size == r.hi
  }

  /** The clusters below sc are packed. */
  ghost predicate PackedBelow(m: Memory, cl: seq<Range>, sc: nat)
  {
    Loose(m, cl) && forall c :: 0 <= c < sc && c < |cl| ==> PackedTo(m, cl[c], cl[c].hi)
  }

  /** At the start of a cluster nothing is in the way. */
  lemma OrderlyStart(m: Memory, cl: seq<Range>, fr: int, sc: nat)
    requires PackedBelow(m, cl, sc) && sc < |cl| && (fr < cl[sc].lo || Ahead(m, cl, 0, fr))
    ensures Orderly(m, cl, fr, sc, cl[sc].lo)
  {
    hide Gaps;
    forall g | g in Gaps(m, cl[sc]) ensures cl[sc].lo <= g.lo { GapStart(m, cl[sc], g); }
  }

  lemma GapStart(m: Memory, r: Range, g: Range)
    requires g in Gaps(m, r)
    ensures r.lo <= g.lo < g.hi
  {
    GapSize(m, r, g);
  }

  lemma OrderlyDone(m: Memory, cl: seq<Range>, fr: int, sc: nat)
    requires sc < |cl| && Orderly(m, cl, fr, sc, cl[sc].hi)
    ensures PackedBelow(m, cl, sc + 1)
  {
    hide Gaps;
  }

  lemma NothingFree(m: Memory, cl: seq<Range>, sc: nat)
    requires FullFrom(m, cl, 0)
    ensures AllStuck(m, cl) && (PackedBelow(m, cl, sc) ==> PackedBelow(m, cl, |cl|))
  {
    hide Gaps;
  }

  lemma PackedLists(m: Memory, cl: seq<Range>, fls: seq<seq<int>>)
    requires ClustersOk(m, cl, fls) && PackedBelow(m, cl, |cl|)
    ensures forall c :: 0 <= c < |cl| ==> Packed(m, cl[c], fls[c])
  {
    hide Starts, Tiled, Tidy, FreeList, Loose;
    forall c | 0 <= c < |cl| ensures Packed(m, cl[c], fls[c]) {
      var r, fl := cl[c], fls[c];
      assert ClusterOk(m, r, fl);
      forall i | 0 <= i < |fl| ensures 0 <= fl[i] < |m| && fl[i] + m[fl[i]].size == r.hi {
        FreeListAt(m, r.lo, r.hi, i);
        FreeAtRange(m, r, fl[i]);
        assert Range(fl[i], fl[i] + m[fl[i]].size) in Gaps(m, r);
      }
      OneAtEnd(m, r, fl);
    }
  }

  lemma OneAtEnd(m: Memory, r: Range, fl: seq<int>)
    requires ClusterOk(m, r, fl)
    requires forall i :: 0 <= i < |fl| ==> 0 <= fl[i] < |m| && fl[i] + m[fl[i]].size == r.hi
    ensures |fl| <= 1
  {
    hide Starts, Tiled, Tidy, FreeList;
    if |fl| > 1 { NextInList(m, r, fl, 0); }
  }

  lemma PackedPatched(m: Memory, m': Memory, cl: seq<Range>, rs: seq<Region>)
    requires Patched(m, m', cl, rs) && PackedBelow(m, cl, |cl|)
    ensures PackedBelow(m', cl, |cl|)
  {
    hide Gaps, Blocks, SameBlocks;
    forall d | 0 <= d < |cl| ensures Gaps(m', cl[d]) == Gaps(m, cl[d]) {
      assert SameBlocks(m, m', cl[d].lo, cl[d].hi);
      GapsSame(m, m', cl[d]);
    }
    LoosePatched(m, m', cl, rs);
  }

  lemma TriedStart(m: Memory, cl: seq<Range>, c: nat, fr: int)
    requires Spaced(cl) && c < |cl| && FreeAt(m, cl[c], fr) && Ahead(m, cl, 0, fr)
    ensures Tried(m, cl, fr, cl[0].lo)
  {
    hide Gaps, Blocks;
    FreeAtRange(m, cl[c], fr);
    if c > 0 { ClustersApart(cl, 0, c); }
  }

  /** The cursor has been through the last cluster. */
  lemma TriedEnd(m: Memory, cl: seq<Range>, fr: int)
    requires Spaced(cl) && (cl == [] || Tried(m, cl, fr, cl[|cl| - 1].hi))
    ensures AllStuck(m, cl)
  {
    hide Gaps, Starts, Tried;
    if cl == [] { return; }
    var top := cl[|cl| - 1].hi;
    forall a | a in Blocks(m, cl) ensures a < top {
      var c :| 0 <= c < |cl| && a in Live(m, cl[c].lo, cl[c].hi);
      if c < |cl| - 1 { ClustersApart(cl, c, |cl| - 1); }
    }
    TriedAll(m, cl, fr, top);
  }

  /** What the outer loop keeps: packed below sc, or tried so far. */
  ghost predicate Covered(m0: Memory, m: Memory, cl: seq<Range>, all: seq<Region>, fr: int, sc: nat, low: int)
  {
    && (Loose(m0, cl) ==> PackedBelow(m, cl, sc))
    && (all == [] ==> m == m0 && (AllStuck(m0, cl) || (if fr == NULL then sc == 0 else Tried(m0, cl, fr, low))))
  }

  /** The outer loop of Heap_Compact. */
  method CompactClusters(g: Relocator, ghost t0: Trace) returns (ghost t: Trace, ghost low: int)
    requires Progress(g, t0, 0) && t0.all == [] && g.relocTotal >= 1
    modifies g`relocBlocks, g`roots, g.heap`freeLists, g.heap.mem
    ensures Progress(g, t, low) && t.m0 == t0.m0 && t.roots0 == t0.roots0
    ensures Loose(old(g.heap.mem[..]), g.heap.clusters) ==>
      PackedBelow(g.heap.mem[..], g.heap.clusters, |g.heap.clusters|)
    ensures t.all == [] ==> g.heap.mem[..] == old(g.heap.mem[..]) && AllStuck(g.heap.mem[..], g.heap.clusters)
  {
    hide Progress, FreeAt, Loose, PackedBelow, Tried, AllStuck, Orderly, Ahead, FullFrom, ClustersOk;
    ghost var m, cl := g.heap.mem[..], g.heap.clusters;
    t, low := t0, 0;
    var fc: nat, fr: int, sc: nat := 0, NULL, 0;
    ProgressValid(g, t, low);
    NonePacked(m, cl);
    while sc < |g.heap.clusters|
      invariant Progress(g, t, low) && t.m0 == t0.m0 && t.roots0 == t0.roots0
      invariant sc <= |cl| && (sc > 0 ==> low == cl[sc - 1].hi && fr <= low) && (sc == 0 ==> low == 0)
      invariant fr == NULL || (sc > 0 && fc < |cl| && FreeAt(g.heap.mem[..], cl[fc], fr))
      invariant Covered(m, g.heap.mem[..], cl, t.all, fr, sc, low)
    {
      ProgressValid(g, t, low);
      ghost var first := fr == NULL;
      if fr == NULL {
        fc, fr := NextRegion(g.heap, 0);
        if fr == NULL {
          NothingFree(g.heap.mem[..], cl, sc);
          return;
        }
      }
      ProgressOn(g, t, low, sc);
      if Loose(m, cl) { OrderlyStart(g.heap.mem[..], cl, fr, sc); }
      if t.all == [] && !AllStuck(m, cl) {
        if first { TriedStart(m, cl, fc, fr); } else { TriedOn(m, cl, sc - 1, fr); }
      }
      fc, fr, sc, t := CompactFrom(g, t, fc, fr, sc);
      low := cl[sc].hi;
      if Loose(m, cl) { OrderlyDone(g.heap.mem[..], cl, fr, sc); }
      sc := sc + 1;
    }
    ProgressValid(g, t, low);
    if t.all == [] && !AllStuck(m, cl) { TriedEnd(m, cl, fr); }
  }

  lemma ProgressOn(g: Relocator, t: Trace, low: int, sc: nat)
    requires Progress(g, t, low) && sc < |g.heap.clusters|
    requires low == if sc > 0 then g.heap.clusters[sc - 1].hi else 0
    ensures Progress(g, t, g.heap.clusters[sc].lo) && low < g.heap.clusters[sc].lo
  {
    BelowMono(t.all, low, g.heap.clusters[sc].lo);
  }

  /** Heap_Compact, for any batch size: `all` are the regions it recorded, `origin` takes each block of
      the compacted heap back to the block of the old heap it is. */
  method HeapCompact(g: Relocator) returns (ghost all: seq<Region>, ghost origin: map<int, int>)
    requires g.heap.Valid() && g.relocTotal >= 1 && g.relocBlocks == []
    modifies g`relocBlocks, g`roots, g.heap`freeLists, g.heap.mem
    ensures g.heap.Valid() && g.relocBlocks == []
    ensures Ordered(all) && Downward(all) && Within(all, g.heap.clusters)
    ensures Preserved(old(g.heap.mem[..]), g.heap.mem[..], g.heap.clusters, all, all, origin)
    ensures TotalFree(g.heap.mem[..], g.heap.clusters) == TotalFree(old(g.heap.mem[..]), g.heap.clusters)
    ensures g.roots == PatchRoots(all, old(g.roots))
    // What it achieves: when every block in use above free space may be moved, the free space of every cluster
    // is one block at its end.
    ensures Loose(old(g.heap.mem[..]), g.heap.clusters) ==>
      forall c :: 0 <= c < |g.heap.clusters| ==> Packed(g.heap.mem[..], g.heap.clusters[c], g.heap.freeLists[c])
    // And whatever is pinned, it moves nothing only if no free block can take in the next movable block.
    ensures all == [] ==> g.heap.mem[..] == old(g.heap.mem[..]) && AllStuck(g.heap.mem[..], g.heap.clusters)
  {
    hide Starts, Tiled, AllLive, Tidy, FreeList, FreeSize, Live, Blocks, Preserved, EndsFree, TotalFree, FreeAt,
         Boundary, Patched, Loose, PackedBelow, AllStuck, Packed;
    ghost var m, cl := g.heap.mem[..], g.heap.clusters;
    ghost var t := Trace(m, g.roots, [], [], map a | a in Blocks(m, cl) :: a);
    PreservedInitially(m, cl);
    LaidOut(m, cl, g.heap.freeLists);
    assert PatchRoots([], g.roots) == g.roots;
    ghost var low;
    t, low := CompactClusters(g, t);
    if |g.relocBlocks| > 0 {
      ghost var m1, rs := g.heap.mem[..], g.relocBlocks;
      t := Flush(g, t, low);
      if Loose(m, cl) { PackedPatched(m1, g.heap.mem[..], cl, rs); }
    }
    assert t.flushed == t.all;
    if Loose(m, cl) { PackedLists(g.heap.mem[..], cl, g.heap.freeLists); }
    all, origin := t.all, t.origin;
  }

  lemma NonePacked(m: Memory, cl: seq<Range>)
    ensures Loose(m, cl) ==> PackedBelow(m, cl, 0)
  {
  }

  lemma LaidOut(m: Memory, cl: seq<Range>, fls: seq<seq<int>>)
    requires Spaced(cl) && ClustersOk(m, cl, fls)
    ensures Laid(m, cl)
  {
    forall c | 0 <= c < |cl| ensures Tiled(m, cl[c].lo, cl[c].hi) { assert ClusterOk(m, cl[c], fls[c]); }
  }

  /** The compacted heap is the same object graph: a block's slot that held a pointer to offset o of
      block b now holds, in the moved block, a pointer to offset o of the moved block b. */
  lemma GraphPreserved(m0: Memory, m: Memory, cl: seq<Range>, all: seq<Region>, origin: map<int, int>,
                       a: int, i: nat, b: int, o: nat)
    requires Preserved(m0, m, cl, all, all, origin)
    requires a in Blocks(m0, cl) && i < m0[a].size && a + i < |m0|
    requires b in Blocks(m0, cl) && o < m0[b].size && m0[a + i].data == Ref(b + o)
    ensures Reloc(all, a) in Blocks(m, cl) && Reloc(all, b) in Blocks(m, cl)
    ensures 0 <= Reloc(all, a) + i < |m| && m[Reloc(all, a) + i] == m0[a + i].(data := Ref(Reloc(all, b) + o))
  {
    hide Blocks, Reloc;
    var a', n := Reloc(all, a), m0[a].size;
    assert Kept(m0, m, all, all, a) && Kept(m0, m, all, all, b);
    assert m[a'..a' + n][i] == PatchCells(all, m0[a..a + n])[i];
  }

  /** A pointer that leads out of the heap stays as it is. */
  lemma OutsidePointer(all: seq<Region>, cl: seq<Range>, p: int)
    requires Ordered(all) && Within(all, cl)
    requires forall c :: 0 <= c < |cl| ==> !(cl[c].lo <= p < cl[c].hi)
    ensures Reloc(all, p) == p
  {
    var i := RelocCases(all, p);
  }

  /** Cells that hold no pointer are copied as they are. */
  lemma RawPreserved(m0: Memory, m: Memory, cl: seq<Range>, all: seq<Region>, origin: map<int, int>, a: int, i: nat)
    requires Preserved(m0, m, cl, all, all, origin)
    requires a in Blocks(m0, cl) && i < m0[a].size && a + i < |m0| && m0[a + i].data.Raw?
    ensures 0 <= Reloc(all, a) + i < |m| && m[Reloc(all, a) + i] == m0[a + i]
  {
    var a', n := Reloc(all, a), m0[a].size;
    assert Kept(m0, m, all, all, a);
    assert m[a'..a' + n][i] == PatchCells(all, m0[a..a + n])[i];
  }

  /** Compaction loses no block, invents none and merges none. */
  lemma BijectionOnBlocks(m0: Memory, m: Memory, cl: seq<Range>, all: seq<Region>, origin: map<int, int>, a: int,
                          b: int)
    requires Preserved(m0, m, cl, all, all, origin) && a in Blocks(m0, cl) && b in Blocks(m0, cl)
    ensures Reloc(all, a) == Reloc(all, b) ==> a == b
    ensures forall x :: x in Blocks(m, cl) ==> exists y :: y in Blocks(m0, cl) && Reloc(all, y) == x
  {
    forall x | x in Blocks(m, cl) ensures exists y :: y in Blocks(m0, cl) && Reloc(all, y) == x {
      assert origin[x] in Blocks(m0, cl);
    }
  }
}
