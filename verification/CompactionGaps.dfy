/** The free regions of a cluster as intervals, and what each way of moving blocks does to them. */
module CompactionGaps {
  import opened HeapBlocks
  import opened ClusterInvariant
  import opened HeapCluster
  import opened CompactionMoves
  import opened CompactionStep

  lemma {:induction false} TidyPinned(m: Memory, p: int, q: int, a: int)
    requires Tidy(m, p, q) && a in Starts(m, p, q) && IsFree(m[a])
    ensures Unmovable(m[a])
    decreases q - p
  {
    if a != p { TidyPinned(m, p + m[p].size, q, a); }
  }

  /** cs is a block boundary of cluster r. */
  ghost predicate Boundary(m: Memory, r: Range, cs: int)
  {
    Tiled(m, r.lo, cs) && Tiled(m, cs, r.hi)
  }

  lemma BoundaryNext(m: Memory, r: Range, cs: int)
    requires Boundary(m, r, cs) && cs < r.hi
    ensures Fits(m, cs, r.hi) && Boundary(m, r, cs + m[cs].size) && cs in Starts(m, r.lo, r.hi)
  {
    hide Starts;
    OneBlock(m, cs, cs + m[cs].size);
    Join(m, r.lo, cs, cs + m[cs].size);
    Join(m, r.lo, cs + m[cs].size, r.hi);
  }

  lemma BoundaryRange(m: Memory, r: Range, cs: int)
    requires Boundary(m, r, cs)
    ensures r.lo <= cs <= r.hi
  {
    TiledBounds(m, r.lo, cs);
    TiledBounds(m, cs, r.hi);
  }

  /** fr is a free block of cluster r. */
  ghost predicate FreeAt(m: Memory, r: Range, fr: int)
  {
    fr in Starts(m, r.lo, r.hi) && IsFree(m[fr])
  }

  lemma FreeAtRange(m: Memory, r: Range, fr: int)
    requires FreeAt(m, r, fr)
    ensures 0 <= r.lo <= fr < r.hi && fr < |m|
  {
  }

  /** Two boundaries delimit a run of whole blocks. */
  lemma Boundaries(m: Memory, r: Range, p: int, q: int)
    requires Boundary(m, r, p) && Boundary(m, r, q) && p <= q
    ensures Tiled(m, p, q) && (q < r.hi ==> q in Starts(m, p, r.hi))
  {
    hide Starts, Tiled;
    TiledBounds(m, q, r.hi);
    if q < r.hi { BoundaryNext(m, r, q); }
    Join(m, r.lo, p, r.hi);
    Split(m, p, r.hi, q);
  }

  /** The free blocks of a cluster. */
  ghost function Gaps(m: Memory, r: Range): (s: set<Range>)
    ensures forall g :: g in s ==> FreeAt(m, r, g.lo) && g.hi == g.lo + m[g.lo].size
    ensures forall f :: FreeAt(m, r, f) ==> Range(f, f + m[f].size) in s
  {
    set f | f in Starts(m, r.lo, r.hi) && IsFree(m[f]) :: Range(f, f + m[f].size)
  }

  /** A free block ends at a block in use or at the end of its cluster. */
  lemma GapEnds(m: Memory, r: Range, fl: seq<int>, g: Range)
    requires ClusterOk(m, r, fl) && g in Gaps(m, r)
    ensures r.lo <= g.lo < g.hi <= r.hi <= |m| && Boundary(m, r, g.lo) && Boundary(m, r, g.hi)
    ensures g.hi < r.hi ==> g.hi in Live(m, r.lo, r.hi)
  {
    hide Starts, Tiled, Tidy, FreeList, FreeSize, EndsFree;
    FreeListMember(m, r.lo, r.hi, g.lo);
    var k :| 0 <= k < |fl| && fl[k] == g.lo;
    OpenFree(m, r, fl, k);
    TiledBounds(m, r.lo, r.hi);
    Split(m, r.lo, r.hi, g.lo);
    BoundaryNext(m, r, g.lo);
    if g.hi < r.hi { BoundaryNext(m, r, g.hi); }
  }

  /** Free blocks do not touch. */
  lemma GapsApart(m: Memory, r: Range, fl: seq<int>, g: Range, h: Range)
    requires ClusterOk(m, r, fl) && g in Gaps(m, r) && h in Gaps(m, r) && g != h
    ensures g.hi < h.lo || h.hi < g.lo
  {
    hide Starts, Tiled, Tidy, FreeList;
    GapEnds(m, r, fl, g);
    GapEnds(m, r, fl, h);
    if g.lo < h.lo { Disjoint(m, r.lo, r.hi, g.lo, h.lo); } else { Disjoint(m, r.lo, r.hi, h.lo, g.lo); }
  }

  /** Two walks that meet the same headers find the same sizes. */
  lemma {:induction false} SameSizes(m: Memory, m': Memory, p: int, q: int, a: int)
    requires Tiled(m, p, q) && Tiled(m', p, q) && Starts(m', p, q) == Starts(m, p, q) && a in Starts(m, p, q)
    ensures m'[a].size == m[a].size
    decreases q - p
  {
    var n, n' := p + m[p].size, p + m'[p].size;
    NextStart(m, n, q);
    NextStart(m', n', q);
    assert p in Starts(m, p, q) && p in Starts(m', p, q);
    if n < q { Disjoint(m', p, q, p, n); }
    if n' < q { Disjoint(m, p, q, p, n'); }
    assert n == n';
    assert Starts(m, n, q) == Starts(m, p, q) - {p} && Starts(m', n, q) == Starts(m', p, q) - {p};
    if a != p { SameSizes(m, m', n, q, a); }
  }

  lemma GapsSame(m: Memory, m': Memory, r: Range)
    requires SameBlocks(m, m', r.lo, r.hi)
    ensures Gaps(m', r) == Gaps(m, r)
  {
    hide Starts, Tiled, FreeList;
    forall a | a in Starts(m, r.lo, r.hi) ensures m'[a].size == m[a].size && IsFree(m'[a]) == IsFree(m[a]) {
      SameSizes(m, m', r.lo, r.hi, a);
      assert a in Live(m, r.lo, r.hi) <==> a in Live(m', r.lo, r.hi);
    }
  }

  // ---- What a move does to the free regions ----

  /** Where free space that begins at e ends. */
  ghost function After(m: Memory, r: Range, e: int): (x: int)
  {
    if BeginsFree(m, e, r.hi) then e + m[e].size else e
  }

  /** The free blocks without those that start at f or e, and with g. */
  ghost function Replaced(gs: set<Range>, f: int, e: int, g: Range): (gs': set<Range>)
  {
    (set h | h in gs && h.lo != f && h.lo != e) + {g}
  }

  /** No free block starts inside a run of blocks in use. */
  lemma NoGapInRun(m: Memory, r: Range, s: int, e: int, f: int)
    requires Boundary(m, r, s) && Boundary(m, r, e) && AllLive(m, s, e) && FreeAt(m, r, f)
    ensures f < s || e <= f
  {
    hide Starts, Tiled, AllLive;
    RunInCluster(m, r, s, e);
    AllLiveFacts(m, s, e);
    Join(m, r.lo, s, e);
    Join(m, r.lo, e, r.hi);
    assert f !in Live(m, s, e);
  }

  lemma SlidFreeAt(m: Memory, m': Memory, r: Range, fl: seq<int>, fl': seq<int>, f: int, s: int, n: int, a: int)
    requires ClusterOk(m, r, fl) && FreeAt(m, r, f) && f + m[f].size == s && n > 0
    requires Boundary(m, r, s) && Boundary(m, r, s + n) && AllLive(m, s, s + n)
    requires Slid(m, m', r, fl', f, s, n)
    ensures FreeAt(m', r, a) <==>
      a == f + n || (FreeAt(m, r, a) && a != f && !(a == s + n && BeginsFree(m, s + n, r.hi)))
    ensures FreeAt(m, r, a) && a != f ==> (a < f || s + n <= a) && m'[a] == m[a]
  {
    hide Starts, Tiled, AllLive, Tidy, FreeList, FreeSize, EndsFree, BeginsFree;
    AllLiveFacts(m', f, f + n);
    NextStart(m', f, f + n);
    assert a in Starts(m', f, f + n) ==> a in Live(m', f, f + n);
    if a in Starts(m, r.lo, r.hi) {
      if a > f { Disjoint(m, r.lo, r.hi, f, a); }
      if FreeAt(m, r, a) { NoGapInRun(m, r, s, s + n, a); }
      if s <= a < s + n { InRun(m, r, s, s + n, a); }
    }
  }

  lemma InRun(m: Memory, r: Range, s: int, e: int, a: int)
    requires Boundary(m, r, s) && Boundary(m, r, e) && AllLive(m, s, e) && a in Starts(m, r.lo, r.hi) && s <= a < e
    ensures a in Starts(m, s, e)
  {
    hide Starts, Tiled, AllLive;
    AllLiveBounds(m, s, e);
    Join(m, r.lo, s, e);
    Join(m, r.lo, e, r.hi);
  }

  lemma SlidGaps(m: Memory, m': Memory, r: Range, fl: seq<int>, fl': seq<int>, f: int, s: int, n: int)
    requires ClusterOk(m, r, fl) && FreeAt(m, r, f) && f + m[f].size == s && n > 0
    requires Boundary(m, r, s) && Boundary(m, r, s + n) && AllLive(m, s, s + n)
    requires Slid(m, m', r, fl', f, s, n)
    ensures Gaps(m', r) == Replaced(Gaps(m, r), f, s + n, Range(f + n, After(m, r, s + n)))
  {
    hide Starts, Tiled, AllLive, Tidy, FreeList, FreeSize, Live, EndsFree, FreeAt, Gaps, Boundary, ClusterOk, Slid,
         After, BeginsFree;
    var g0 := Range(f + n, After(m, r, s + n));
    SlidEnd(m, m', r, fl', f, s, n);
    forall g ensures g in Gaps(m', r) <==> g == g0 || (g in Gaps(m, r) && g.lo != f && g.lo != s + n) {
      SlidFreeAt(m, m', r, fl, fl', f, s, n, g.lo);
      GapAt(m, r, g);
      GapAt(m', r, g);
    }
  }

  lemma SlidEnd(m: Memory, m': Memory, r: Range, fl': seq<int>, f: int, s: int, n: int)
    requires Slid(m, m', r, fl', f, s, n)
    ensures 0 <= f + n < |m'| && f + n + m'[f + n].size == After(m, r, s + n)
  {
  }

  lemma GapAt(m: Memory, r: Range, g: Range)
    ensures g in Gaps(m, r) <==> FreeAt(m, r, g.lo) && g.hi == g.lo + m[g.lo].size
    ensures FreeAt(m, r, g.lo) ==> BeginsFree(m, g.lo, r.hi)
  {
  }

  lemma GapSize(m: Memory, r: Range, g: Range)
    requires g in Gaps(m, r)
    ensures 0 <= g.lo < g.hi <= |m| && r.lo <= g.lo && g.hi <= r.hi && g == Range(g.lo, g.lo + m[g.lo].size)
    ensures FreeAt(m, r, g.lo) && BeginsFree(m, g.lo, r.hi)
  {
  }

  lemma AfterIs(m: Memory, r: Range, e: int)
    ensures BeginsFree(m, e, r.hi) ==> 0 <= e < |m| && After(m, r, e) == e + m[e].size
    ensures !BeginsFree(m, e, r.hi) ==> After(m, r, e) == e
  {
  }

  lemma FilledFreeAt(m: Memory, m': Memory, r: Range, fl': seq<int>, f: int, s: int, n: int, a: int)
    requires Tiled(m, r.lo, r.hi) && FreeAt(m, r, f) && 0 < n <= m[f].size && FreeFilled(m, m', r, fl', f, s, n)
    ensures FreeAt(m', r, a) <==> (n < m[f].size && a == f + n) || (FreeAt(m, r, a) && a != f)
    ensures FreeAt(m, r, a) && a != f ==> m'[a] == m[a]
    ensures n < m[f].size ==> 0 <= f + n < |m'| && f + n + m'[f + n].size == f + m[f].size
  {
    hide Starts, Tiled, AllLive, Tidy, FreeList, FreeSize, EndsFree, BeginsFree;
    AllLiveFacts(m', f, f + n);
    NextStart(m', f, f + n);
    assert a in Starts(m', f, f + n) ==> a in Live(m', f, f + n);
    if a in Starts(m, r.lo, r.hi) {
      if a > f { Disjoint(m, r.lo, r.hi, f, a); }
    }
  }

  /** Blocks copied to the front of a free block leave the rest of it free. */
  lemma FilledGaps(m: Memory, m': Memory, r: Range, fl': seq<int>, f: int, s: int, n: int)
    requires Tiled(m, r.lo, r.hi) && FreeAt(m, r, f) && 0 < n <= m[f].size && FreeFilled(m, m', r, fl', f, s, n)
    ensures n < m[f].size ==> Gaps(m', r) == Replaced(Gaps(m, r), f, f, Range(f + n, f + m[f].size))
    ensures n == m[f].size ==> Gaps(m', r) == Gaps(m, r) - {Range(f, f + n)}
  {
    hide Starts, Tiled, AllLive, Tidy, FreeList, FreeSize, Live, EndsFree, FreeAt, Gaps, FreeFilled, BeginsFree;
    FreeAtRange(m, r, f);
    var size := m[f].size;
    forall g
      ensures g in Gaps(m', r) <==>
        (n < size && g == Range(f + n, f + size)) || (g in Gaps(m, r) && g.lo != f)
    {
      FilledFreeAt(m, m', r, fl', f, s, n, g.lo);
      GapAt(m, r, g);
      GapAt(m', r, g);
    }
  }

  lemma ReturnedFreeAt(m: Memory, m': Memory, r: Range, s: int, e: int, fl': seq<int>, b: int, a: int)
    requires Boundary(m, r, s) && Boundary(m, r, e) && AllLive(m, s, e) && s < e
    requires Returned(m, m', r, s, e, fl', b)
    requires StartsAround(m, r, s, e) == Starts(m, r.lo, r.hi) - Starts(m, s, e)
    ensures FreeAt(m', r, a) <==> a == b || (FreeAt(m, r, a) && !(a == e && BeginsFree(m, e, r.hi)))
    ensures FreeAt(m, r, a) && a != b ==> m'[a] == m[a]
    ensures 0 <= b < |m'| && b + m'[b].size == After(m, r, e)
  {
    hide Starts, Tiled, AllLive, Tidy, FreeList, FreeSize, Live, EndsFree, BeginsFree;
    AfterIs(m, r, e);
    if FreeAt(m, r, a) { NoGapInRun(m, r, s, e, a); }
    if a in Starts(m, r.lo, r.hi) && s <= a < e { InRun(m, r, s, e, a); }
  }

  /** A stretch that is given up takes in the free space on both sides. */
  lemma ReturnedGaps(m: Memory, m': Memory, r: Range, s: int, e: int, fl': seq<int>, b: int)
    requires Boundary(m, r, s) && Boundary(m, r, e) && AllLive(m, s, e) && s < e
    requires Returned(m, m', r, s, e, fl', b)
    requires StartsAround(m, r, s, e) == Starts(m, r.lo, r.hi) - Starts(m, s, e)
    ensures Gaps(m', r) == Replaced(Gaps(m, r), b, e, Range(b, After(m, r, e)))
    ensures b <= s && (b < s ==> Range(b, s) in Gaps(m, r))
    ensures forall g :: g in Gaps(m, r) && g.hi == s ==> g.lo == b
  {
    hide Starts, Tiled, AllLive, Tidy, FreeList, FreeSize, Live, EndsFree, FreeAt, Gaps, Boundary, Returned,
         After, BeginsFree;
    forall g
      ensures g in Gaps(m', r) <==> g == Range(b, After(m, r, e)) || (g in Gaps(m, r) && g.lo != b && g.lo != e)
    {
      ReturnedFreeAt(m, m', r, s, e, fl', b, g.lo);
      GapAt(m, r, g);
      GapAt(m', r, g);
    }
    ReturnedStart(m, m', r, s, e, fl', b);
    forall g | g in Gaps(m, r) && g.hi == s ensures g.lo == b { ReturnedBehind(m, m', r, s, e, fl', b, g); }
  }

  lemma ReturnedBehind(m: Memory, m': Memory, r: Range, s: int, e: int, fl': seq<int>, b: int, g: Range)
    requires Boundary(m, r, s) && Returned(m, m', r, s, e, fl', b) && g in Gaps(m, r) && g.hi == s
    ensures g.lo == b
  {
    hide Starts, Tiled, Tidy, FreeList, FreeSize, Live, EndsFree;
    TiledBounds(m, s, r.hi);
    Join(m, r.lo, s, r.hi);
    GapSize(m, r, g);
    Split(m, r.lo, s, g.lo);
    OneBlock(m, g.lo, s);
    JoinTidy(m, r.lo, g.lo, s);
    if b < g.lo { Disjoint(m, r.lo, s, b, g.lo); }
    if g.lo < b { Disjoint(m, r.lo, s, g.lo, b); }
  }

  lemma ReturnedStart(m: Memory, m': Memory, r: Range, s: int, e: int, fl': seq<int>, b: int)
    requires Boundary(m, r, s) && Returned(m, m', r, s, e, fl', b)
    requires StartsAround(m, r, s, e) == Starts(m, r.lo, r.hi) - Starts(m, s, e)
    ensures b <= s && (b < s ==> Range(b, s) in Gaps(m, r))
  {
    hide Starts, Tiled, Tidy, FreeList, FreeSize, Live, EndsFree;
    if b < s { assert FreeAt(m, r, b); }
  }
}
