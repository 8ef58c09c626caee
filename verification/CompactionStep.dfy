/** Each way of moving blocks is a move in the sense of the specification: one run of blocks changes
    place, every other block is untouched, and no cell is lost. */
module CompactionStep {
  import opened HeapBlocks
  import opened ClusterInvariant
  import opened HeapCluster
  import opened CompactionMoves
  import opened CompactionSpec

  /** A run of whole blocks that may all be moved. */
  ghost predicate MovableRun(m: Memory, s: int, e: int)
  {
    AllLive(m, s, e) && forall a :: a in Starts(m, s, e) ==> !Unmovable(m[a])
  }

  /** A block outside a run of blocks does not overlap it. */
  lemma OutsideRun(m: Memory, r: Range, p: int, q: int, a: int)
    requires Tiled(m, r.lo, p) && Tiled(m, p, q) && Tiled(m, q, r.hi)
    requires a in Starts(m, r.lo, r.hi) && a !in Starts(m, p, q)
    ensures a + m[a].size <= p || q <= a
  {
    hide Starts, Tiled;
    Join(m, r.lo, p, q);
    Join(m, r.lo, q, r.hi);
  }

  lemma RunInCluster(m: Memory, r: Range, p: int, q: int)
    requires Tiled(m, r.lo, p) && AllLive(m, p, q) && Tiled(m, q, r.hi)
    ensures Tiled(m, p, q) && Tiled(m, r.lo, r.hi)
    ensures Starts(m, p, q) <= Live(m, r.lo, r.hi)
  {
    hide Starts, Tiled;
    AllLiveBounds(m, p, q);
    AllLiveFacts(m, p, q);
    Join(m, r.lo, p, q);
    Join(m, r.lo, q, r.hi);
  }

  /** Blocks of different clusters do not overlap, nor does a block reach outside its cluster. */
  lemma BlockCluster(m: Memory, cl: seq<Range>, c: nat, a: int)
    requires Spaced(cl) && c < |cl| && a in Blocks(m, cl)
    ensures 0 <= a < |m|
    ensures a in Live(m, cl[c].lo, cl[c].hi) || a + m[a].size < cl[c].lo || cl[c].hi < a
  {
    hide Starts;
    var d :| 0 <= d < |cl| && a in Live(m, cl[d].lo, cl[d].hi);
  }

  lemma SlideMoved(m: Memory, m': Memory, cl: seq<Range>, c: nat, fl': seq<int>, f: int, s: int, n: int)
    requires Spaced(cl) && c < |cl| && OthersSame(m, m', cl, c)
    requires 0 < n && f < s && f in Starts(m, cl[c].lo, cl[c].hi) && IsFree(m[f]) && f + m[f].size == s
    requires Tiled(m, cl[c].lo, s) && MovableRun(m, s, s + n) && Tiled(m, s + n, cl[c].hi)
    requires Slid(m, m', cl[c], fl', f, s, n)
    ensures Moved(m, m', cl, s, s + n, f)
    ensures TotalFree(m', cl) == TotalFree(m, cl)
  {
    hide Starts, Tiled, AllLive, FreeSize, Tidy, FreeList, EndsFree, Live, Blocks;
    var r := cl[c];
    var e := s + n;
    RunInCluster(m, r, s, e);
    RunBlocks(m, cl, c, s, e);
    BlocksUpdate(m, m', cl, c, Starts(m, s, e), Starts(m', f, f + n));
    TotalFreeUpdate(m, m', cl, c);
    forall a | a in Blocks(m, cl) && a !in Starts(m, s, e)
      ensures 0 <= a < |m| && (a + m[a].size <= f || e <= a)
    {
      SlideOther(m, cl, c, f, s, e, a);
    }
  }

  lemma SlideOther(m: Memory, cl: seq<Range>, c: nat, f: int, s: int, e: int, a: int)
    requires Spaced(cl) && c < |cl|
    requires f in Starts(m, cl[c].lo, cl[c].hi) && IsFree(m[f]) && f + m[f].size == s
    requires Tiled(m, cl[c].lo, cl[c].hi) && AllLive(m, s, e) && Tiled(m, e, cl[c].hi)
    requires a in Blocks(m, cl) && a !in Starts(m, s, e)
    ensures 0 <= a < |m| && (a + m[a].size <= f || e <= a)
  {
    hide Starts, Tiled, AllLive, Blocks;
    var r := cl[c];
    TiledBounds(m, e, r.hi);
    BlockCluster(m, cl, c, a);
    if a in Live(m, r.lo, r.hi) {
      Split(m, r.lo, r.hi, f);
      OneBlock(m, f, s);
      AllLiveBounds(m, s, e);
      Join(m, f, s, e);
      OutsideRun(m, r, f, e, a);
    }
  }

  lemma RunBlocks(m: Memory, cl: seq<Range>, c: nat, s: int, e: int)
    requires c < |cl| && Starts(m, s, e) <= Live(m, cl[c].lo, cl[c].hi)
    ensures Starts(m, s, e) <= Blocks(m, cl)
    ensures forall a :: a in Starts(m, s, e) ==> cl[c].lo <= a < cl[c].hi
  {
    hide Starts;
    forall a | a in Starts(m, s, e) ensures a in Blocks(m, cl) { assert a in Live(m, cl[c].lo, cl[c].hi); }
  }

  /** Blocks were copied into free block f of cluster fc; they still exist at [s, e) of cluster sc. */
  ghost predicate CopyMade(m: Memory, m': Memory, cl: seq<Range>, fc: nat, f: int, s: int, e: int)
  {
    && fc < |cl| && f in Starts(m, cl[fc].lo, cl[fc].hi) && IsFree(m[f]) && 0 < e - s <= m[f].size && f + m[f].size <= s
    && |m'| == |m| && (forall i :: 0 <= i < |m| && !(f <= i < f + m[f].size) ==> m'[i] == m[i])
    && AllLive(m', f, f + (e - s)) && Copied(m, m', s, e, f, f + (e - s))
    && Blocks(m', cl) == Blocks(m, cl) + Starts(m', f, f + (e - s))
    && TotalFree(m', cl) + (e - s) == TotalFree(m, cl)
  }

  lemma FillCopies(m: Memory, m': Memory, cl: seq<Range>, fc: nat, fl': seq<int>, f: int, s: int, n: int)
    requires Spaced(cl) && fc < |cl| && OthersSame(m, m', cl, fc)
    requires f in Starts(m, cl[fc].lo, cl[fc].hi) && IsFree(m[f]) && 0 < n <= m[f].size && f + m[f].size <= s
    requires FreeFilled(m, m', cl[fc], fl', f, s, n)
    ensures CopyMade(m, m', cl, fc, f, s, s + n)
  {
    hide Starts, Tiled, AllLive, FreeSize, Tidy, FreeList, EndsFree, Live, Blocks;
    BlocksUpdate(m, m', cl, fc, {}, Starts(m', f, f + n));
    TotalFreeUpdate(m, m', cl, fc);
  }

  /** A free block shares no cell with a block in use. */
  lemma FreeApart(m: Memory, cl: seq<Range>, c: nat, f: int, a: int)
    requires Spaced(cl) && c < |cl| && Tiled(m, cl[c].lo, cl[c].hi)
    requires f in Starts(m, cl[c].lo, cl[c].hi) && IsFree(m[f]) && a in Blocks(m, cl)
    ensures 0 <= a < |m| && (a + m[a].size <= f || f + m[f].size <= a)
  {
    hide Starts, Tiled, Blocks;
    BlockCluster(m, cl, c, a);
    if a in Live(m, cl[c].lo, cl[c].hi) {
      if a < f { Disjoint(m, cl[c].lo, cl[c].hi, a, f); } else { Disjoint(m, cl[c].lo, cl[c].hi, f, a); }
    }
  }

  /** Returning [s, e) to the free list touches no block in use outside it. */
  lemma VacateApart(m: Memory, m': Memory, cl: seq<Range>, c: nat, fl': seq<int>, s: int, e: int, dst: int, a: int)
    requires Spaced(cl) && c < |cl|
    requires Tiled(m, cl[c].lo, s) && AllLive(m, s, e) && s < e && Tiled(m, e, cl[c].hi)
    requires Returned(m, m', cl[c], s, e, fl', dst)
    requires a in Blocks(m, cl) && a !in Starts(m, s, e)
    ensures 0 <= a < |m| && (a + m[a].size <= s || e <= a) && Unchanged(m, m', a, a + m[a].size)
  {
    hide Starts, Tiled, AllLive, Blocks, EndsFree, FreeSize, FreeList, Tidy;
    var r := cl[c];
    RunInCluster(m, r, s, e);
    TiledBounds(m, r.lo, s);
    TiledBounds(m, e, r.hi);
    BlockCluster(m, cl, c, a);
    if a in Live(m, r.lo, r.hi) {
      OutsideRun(m, r, s, e, a);
      if dst < s {
        Join(m, s, e, r.hi);
        Join(m, r.lo, s, r.hi);
        FreeApart(m, cl, c, dst, a);
      }
    }
  }

  lemma VacateBlocks(m: Memory, m': Memory, cl: seq<Range>, c: nat, fl': seq<int>, s: int, e: int, dst: int)
    requires Spaced(cl) && c < |cl| && OthersSame(m, m', cl, c)
    requires Tiled(m, cl[c].lo, s) && AllLive(m, s, e) && s < e && Tiled(m, e, cl[c].hi)
    requires LiveAround(m, cl[c], s, e) == Live(m, cl[c].lo, cl[c].hi) - Starts(m, s, e)
    requires FreeAround(m, cl[c], s, e) == FreeSize(m, cl[c].lo, cl[c].hi)
    requires Returned(m, m', cl[c], s, e, fl', dst)
    ensures Blocks(m', cl) == Blocks(m, cl) - Starts(m, s, e)
    ensures TotalFree(m', cl) == TotalFree(m, cl) + (e - s)
  {
    hide Starts, Tiled, AllLive, FreeSize, Tidy, FreeList, EndsFree, Live, Blocks;
    RunInCluster(m, cl[c], s, e);
    RunBlocks(m, cl, c, s, e);
    BlocksUpdate(m, m', cl, c, Starts(m, s, e), {});
    TotalFreeUpdate(m, m', cl, c);
  }

  /** The vacated run is at or above where the copy went, so the copy survives. */
  lemma CopySurvives(m: Memory, m1: Memory, m2: Memory, cl: seq<Range>, fc: nat, sc: nat, fl': seq<int>,
                     f: int, s: int, e: int, dst: int)
    requires Spaced(cl) && sc < |cl|
    requires CopyMade(m, m1, cl, fc, f, s, e)
    requires Tiled(m1, cl[sc].lo, s) && AllLive(m1, s, e) && Tiled(m1, e, cl[sc].hi)
    requires Returned(m1, m2, cl[sc], s, e, fl', dst)
    ensures Copied(m, m2, s, e, f, f + (e - s)) && AllLive(m2, f, f + (e - s))
    ensures Starts(m2, f, f + (e - s)) == Starts(m1, f, f + (e - s))
  {
    hide Starts, Tiled, AllLive, Blocks, EndsFree, FreeSize, FreeList, Tidy, Live;
    var q := f + (e - s);
    AllLiveBounds(m1, f, q);
    forall i | f <= i < q ensures m2[i] == m1[i] {
      if dst == i {
        DstNotInCopy(m1, cl, sc, s, e, f, q, dst);
      }
    }
    FillFrame(m, m1, m2, f, s, e - s);
  }

  lemma {:induction false} CellOwner(m: Memory, p: int, q: int, i: int) returns (a: int)
    requires AllLive(m, p, q) && p <= i < q
    ensures a in Starts(m, p, q) && !IsFree(m[a]) && a <= i < a + m[a].size
    decreases q - p
  {
    if i < p + m[p].size { a := p; } else { a := CellOwner(m, p + m[p].size, q, i); }
  }

  lemma DstNotInCopy(m: Memory, cl: seq<Range>, c: nat, s: int, e: int, f: int, q: int, dst: int)
    requires Spaced(cl) && c < |cl| && Tiled(m, cl[c].lo, s) && AllLive(m, s, e) && Tiled(m, e, cl[c].hi) && q <= s
    requires AllLive(m, f, q) && Starts(m, f, q) <= Blocks(m, cl)
    requires dst == s || (dst in Starts(m, cl[c].lo, s) && IsFree(m[dst]))
    ensures !(f <= dst < q)
  {
    hide Starts, Tiled, AllLive, Blocks, Live;
    if f <= dst < q {
      var a := CellOwner(m, f, q, dst);
      RunInCluster(m, cl[c], s, e);
      Join(m, cl[c].lo, s, e);
      Join(m, cl[c].lo, e, cl[c].hi);
      FreeApart(m, cl, c, dst, a);
    }
  }

  /** Copying into a free block and then vacating the originals is a move. */
  lemma FillVacateMoved(m: Memory, m1: Memory, m2: Memory, cl: seq<Range>, fc: nat, sc: nat, fl': seq<int>,
                        f: int, s: int, e: int, dst: int)
    requires Spaced(cl) && sc < |cl| && fc < |cl| && Tiled(m, cl[fc].lo, cl[fc].hi)
    requires CopyMade(m, m1, cl, fc, f, s, e) && MovableRun(m, s, e) && Starts(m, s, e) <= Blocks(m, cl)
    requires Tiled(m1, cl[sc].lo, s) && AllLive(m1, s, e) && Tiled(m1, e, cl[sc].hi)
    requires Starts(m1, s, e) == Starts(m, s, e)
    requires Returned(m1, m2, cl[sc], s, e, fl', dst)
    requires Blocks(m2, cl) == Blocks(m1, cl) - Starts(m1, s, e)
    ensures Moved(m, m2, cl, s, e, f)
  {
    hide Starts, Tiled, AllLive, Blocks, EndsFree, FreeSize, FreeList, Tidy, Live;
    CopySurvives(m, m1, m2, cl, fc, sc, fl', f, s, e, dst);
    var q := f + (e - s);
    var gone, come := Starts(m, s, e), Starts(m1, f, q);
    assert forall b :: b in come ==> b < s;
    assert gone !! come;
    assert Blocks(m2, cl) == (Blocks(m, cl) + come) - gone;
    assert Blocks(m2, cl) == (Blocks(m, cl) - gone) + come;
    forall a | a in Blocks(m, cl) && a !in Starts(m, s, e)
      ensures 0 <= a < |m| && !(s <= a < e) && !(f <= a < f + (e - s)) && Unchanged(m, m2, a, a + m[a].size)
    {
      FreeApart(m, cl, fc, f, a);
      BlockInside(m, cl, a);
      assert m1[a] == m[a];
      VacateApart(m1, m2, cl, sc, fl', s, e, dst, a);
    }
  }
}
