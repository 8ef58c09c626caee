/** When a compaction moves nothing at all: the next movable block of every free block is neither right behind
    it nor small enough for it. */
module CompactionIdle {
  import opened HeapBlocks
  import opened ClusterInvariant
  import opened CompactionSpec
  import opened CompactionGaps
  import opened CompactionPacking

  /** The first movable block above address x, in any cluster. */
  ghost predicate NextMovable(m: Memory, cl: seq<Range>, x: int, a: int)
  {
    && a in Blocks(m, cl) && !Unmovable(m[a]) && x < a
    && forall b :: b in Blocks(m, cl) && !Unmovable(m[b]) && x < b ==> a <= b
  }

  /** Nothing can be moved into g: the next movable block does not start where g ends, and is larger than g. */
  ghost predicate Stuck(m: Memory, cl: seq<Range>, g: Range)
  {
    forall a :: NextMovable(m, cl, g.lo, a) ==> a != g.hi && g.hi - g.lo < m[a].size
  }

  ghost predicate AllStuck(m: Memory, cl: seq<Range>)
  {
    forall c, g :: 0 <= c < |cl| && g in Gaps(m, cl[c]) ==> Stuck(m, cl, g)
  }

  /** What has been tried, as long as nothing has moved: all free blocks below fr, and there is no movable block
      between fr and the source cursor. */
  ghost predicate Tried(m: Memory, cl: seq<Range>, fr: int, cs: int)
  {
    && (forall c, g :: 0 <= c < |cl| && g in Gaps(m, cl[c]) && g.lo < fr ==> Stuck(m, cl, g))
    && (forall a :: a in Blocks(m, cl) && fr < a < cs ==> Unmovable(m[a]))
  }

  /** Skipping passes unmovable blocks only. */
  lemma TriedSkip(m: Memory, cl: seq<Range>, sc: nat, fr: int, x: int, cs: int)
    requires Spaced(cl) && sc < |cl| && Tried(m, cl, fr, x) && Boundary(m, cl[sc], x) && Skipped(m, cl[sc], x, cs)
    ensures Tried(m, cl, fr, cs)
  {
    hide Starts, Tiled, Gaps, Boundary;
    forall a | a in Blocks(m, cl) && fr < a < cs ensures Unmovable(m[a]) {
      if x <= a {
        var c :| 0 <= c < |cl| && a in Live(m, cl[c].lo, cl[c].hi);
        BoundaryRange(m, cl[sc], x);
      }
    }
  }

  /** The next cluster starts above everything in this one. */
  lemma TriedOn(m: Memory, cl: seq<Range>, sc: nat, fr: int)
    requires Spaced(cl) && sc + 1 < |cl| && Tried(m, cl, fr, cl[sc].hi)
    ensures Tried(m, cl, fr, cl[sc + 1].lo)
  {
    hide Starts, Gaps;
    forall a | a in Blocks(m, cl) && fr < a < cl[sc + 1].lo ensures Unmovable(m[a]) {
      var c :| 0 <= c < |cl| && a in Live(m, cl[c].lo, cl[c].hi);
    }
  }

  /** The region was given up, and fr' is the next one: no free block is between them. */
  lemma TriedNext(m: Memory, cl: seq<Range>, g: Range, c: nat, sc: nat, cs: int, fr: int)
    requires c < |cl| && g in Gaps(m, cl[c]) && Tried(m, cl, g.lo, cs) && g.lo < cs && g.lo < fr
    requires sc < |cl| && cs in Live(m, cl[sc].lo, cl[sc].hi) && !Unmovable(m[cs])
    requires cs != g.hi && g.hi - g.lo < m[cs].size
    requires forall d, h :: 0 <= d < |cl| && h in Gaps(m, cl[d]) ==> h.lo <= g.lo || fr <= h.lo
    ensures Tried(m, cl, fr, cs)
    ensures Stuck(m, cl, g)
  {
    hide Starts, Gaps, Live, Blocks;
    assert cs in Blocks(m, cl);
    forall a | NextMovable(m, cl, g.lo, a) ensures a == cs {
      assert a <= cs;
    }
    forall d, h | 0 <= d < |cl| && h in Gaps(m, cl[d]) && h.lo < fr ensures Stuck(m, cl, h) {
      if h.lo == g.lo { SameGap(m, cl[c], g, cl[d], h); }
    }
  }

  /** All free blocks have been tried. */
  lemma TriedAll(m: Memory, cl: seq<Range>, fr: int, cs: int)
    requires Tried(m, cl, fr, cs)
    requires (forall d, h :: 0 <= d < |cl| && h in Gaps(m, cl[d]) ==> h.lo < fr)
      || (forall a :: a in Blocks(m, cl) ==> a < cs)
    ensures AllStuck(m, cl)
  {
    hide Starts, Gaps, Blocks;
    forall c, g | 0 <= c < |cl| && g in Gaps(m, cl[c]) ensures Stuck(m, cl, g) {
      if g.lo >= fr {
        assert forall a :: a in Blocks(m, cl) && g.lo < a ==> Unmovable(m[a]);
      }
    }
  }

  /** The same for a run of the loop that may be at its end. */
  ghost predicate TriedSoFar(m: Memory, cl: seq<Range>, fr: int, cs: int)
  {
    if fr == NULL then AllStuck(m, cl) else Tried(m, cl, fr, cs)
  }
}
