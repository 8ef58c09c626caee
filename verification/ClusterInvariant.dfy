/** What a cluster keeps between operations: it is tiled, its free list is the address-ordered list of
    its free blocks, and free blocks are fully coalesced.  While blocks are being moved or returned, a
    stretch [p, q) of the cluster belongs to no block: such a cluster has a hole. */
module ClusterInvariant {
  import opened HeapBlocks

  ghost predicate ClusterOk(m: Memory, r: Range, fl: seq<int>)
  {
    Tiled(m, r.lo, r.hi) && Tidy(m, r.lo, r.hi) && fl == FreeList(m, r.lo, r.hi)
  }

  ghost predicate TiledAround(m: Memory, r: Range, p: int, q: int)
  {
    p <= q && Tiled(m, r.lo, p) && Tiled(m, q, r.hi)
  }

  ghost function LiveAround(m: Memory, r: Range, p: int, q: int): (s: set<int>)
  {
    Live(m, r.lo, p) + Live(m, q, r.hi)
  }

  ghost function StartsAround(m: Memory, r: Range, p: int, q: int): (s: set<int>)
  {
    Starts(m, r.lo, p) + Starts(m, q, r.hi)
  }

  ghost function FreeAround(m: Memory, r: Range, p: int, q: int): (n: nat)
  {
    FreeSize(m, r.lo, p) + FreeSize(m, q, r.hi)
  }

  /** Everything outside [p, q) is in order. */
  ghost predicate HoleOk(m: Memory, r: Range, p: int, q: int, fl: seq<int>)
  {
    && TiledAround(m, r, p, q)
    && Tidy(m, r.lo, p) && Tidy(m, q, r.hi)
    && fl == FreeList(m, r.lo, p) + FreeList(m, q, r.hi)
    && (p == q ==> !(EndsFree(m, r.lo, p) && BeginsFree(m, q, r.hi)))
  }

  /** A cluster is a cluster with an empty hole at any of its block boundaries. */
  lemma EmptyHole(m: Memory, r: Range, p: int, fl: seq<int>)
    requires Tiled(m, r.lo, p) && Tiled(m, p, r.hi)
    ensures HoleOk(m, r, p, p, fl) <==> ClusterOk(m, r, fl)
    ensures Tiled(m, r.lo, r.hi)
    ensures LiveAround(m, r, p, p) == Live(m, r.lo, r.hi)
    ensures StartsAround(m, r, p, p) == Starts(m, r.lo, r.hi)
    ensures FreeAround(m, r, p, p) == FreeSize(m, r.lo, r.hi)
  {
    Join(m, r.lo, p, r.hi);
    JoinList(m, r.lo, p, r.hi);
    JoinTidy(m, r.lo, p, r.hi);
  }

  function Without(fl: seq<int>, i: nat): (fl': seq<int>)
    requires i < |fl|
  {
    fl[..i] + fl[i + 1..]
  }

  /** The k-th element of the free list is a free block with k free blocks before it. */
  lemma {:induction false} FreeListAt(m: Memory, p: int, q: int, k: nat)
    requires Tiled(m, p, q) && k < |FreeList(m, p, q)|
    ensures var f := FreeList(m, p, q)[k];
      && f in Starts(m, p, q) && IsFree(m[f])
      && Tiled(m, p, f) && Tiled(m, f, q) && Tiled(m, f + m[f].size, q)
      && |FreeList(m, p, f)| == k
    decreases q - p
  {
    hide EndsFree, Tidy, FreeSize;
    var n := p + m[p].size;
    if !(IsFree(m[p]) && k == 0) {
      FreeListAt(m, n, q, if IsFree(m[p]) then k - 1 else k);
    }
  }

  /** The free list divides at each of its elements. */
  lemma FreeListSplit(m: Memory, p: int, q: int, k: nat)
    requires Tiled(m, p, q) && k < |FreeList(m, p, q)|
    ensures var fl := FreeList(m, p, q);
      FreeList(m, p, fl[k]) == fl[..k] && (0 <= fl[k] < |m| ==> FreeList(m, fl[k] + m[fl[k]].size, q) == fl[k + 1..])
  {
    hide FreeList, Starts, Tiled;
    FreeListAt(m, p, q, k);
    var f := FreeList(m, p, q)[k];
    var e := f + m[f].size;
    OneBlock(m, f, e);
    JoinList(m, p, f, q);
    JoinList(m, f, e, q);
  }

  /** Free list elements are exactly the free blocks ... */
  lemma {:induction false} FreeListMember(m: Memory, p: int, q: int, a: int)
    requires Tiled(m, p, q)
    ensures a in FreeList(m, p, q) <==> a in Starts(m, p, q) && IsFree(m[a])
    decreases q - p
  {
    if p < q { FreeListMember(m, p + m[p].size, q, a); }
  }

  /** ... in address order. */
  lemma FreeListSorted(m: Memory, p: int, q: int, i: nat, j: nat)
    requires Tiled(m, p, q) && i < j < |FreeList(m, p, q)|
    ensures var fl := FreeList(m, p, q);
      fl[i] in Starts(m, p, q) && fl[j] in Starts(m, p, q) && fl[i] + m[fl[i]].size <= fl[j]
  {
    hide FreeList, Starts, Tiled;
    var fl := FreeList(m, p, q);
    FreeListAt(m, p, q, j);
    FreeListSplit(m, p, q, j);
    FreeListAt(m, p, fl[j], i);
    FreeListAt(m, p, q, i);
  }

  /** A walk ends with a free block exactly when the last free block reaches its end. */
  lemma {:induction false} LastFree(m: Memory, p: int, q: int)
    requires Tiled(m, p, q)
    ensures var fl := FreeList(m, p, q);
      fl != [] ==>
        (fl[|fl| - 1] in Starts(m, p, q) && (EndsFree(m, p, q) <==> fl[|fl| - 1] + m[fl[|fl| - 1]].size == q))
    ensures FreeList(m, p, q) == [] ==> !EndsFree(m, p, q)
    decreases q - p
  {
    if p < q {
      var n := p + m[p].size;
      LastFree(m, n, q);
      if n < q && IsFree(m[p]) && FreeList(m, n, q) == [] {
        assert FreeList(m, p, q) == [p];
      }
    }
  }

  /** A walk begins with a free block exactly when the first free block is at its beginning. */
  lemma {:induction false} FirstFree(m: Memory, p: int, q: int)
    requires Tiled(m, p, q)
    ensures var fl := FreeList(m, p, q); BeginsFree(m, p, q) <==> fl != [] && fl[0] == p
    ensures var fl := FreeList(m, p, q); fl != [] ==> p <= fl[0]
    decreases q - p
  {
    if p < q { FirstFree(m, p + m[p].size, q); }
  }

  /** Unlinking a free block leaves a hole where it was. */
  lemma OpenFree(m: Memory, r: Range, fl: seq<int>, k: nat)
    requires ClusterOk(m, r, fl) && k < |fl|
    ensures 0 <= fl[k] < |m| && fl[k] in Starts(m, r.lo, r.hi) && IsFree(m[fl[k]]) && 1 <= m[fl[k]].size
    ensures var f := fl[k]; var e := f + m[f].size;
      && HoleOk(m, r, f, e, Without(fl, k))
      && !EndsFree(m, r.lo, f) && !BeginsFree(m, e, r.hi)
      && LiveAround(m, r, f, e) == Live(m, r.lo, r.hi)
      && StartsAround(m, r, f, e) == Starts(m, r.lo, r.hi) - {f}
      && FreeAround(m, r, f, e) + m[f].size == FreeSize(m, r.lo, r.hi)
  {
    hide Starts, FreeList, FreeSize, EndsFree, Tidy;
    FreeListAt(m, r.lo, r.hi, k);
    FreeListSplit(m, r.lo, r.hi, k);
    var f := fl[k];
    var e := f + m[f].size;
    OneBlock(m, f, e);
    Join(m, r.lo, f, e);
    Join(m, r.lo, e, r.hi);
    JoinTidy(m, r.lo, f, e);
    JoinTidy(m, r.lo, e, r.hi);
  }

  /** A hole can swallow the live blocks that follow it. */
  lemma ExtendHole(m: Memory, r: Range, p: int, q: int, e: int, fl: seq<int>)
    requires HoleOk(m, r, p, q, fl) && AllLive(m, q, e) && Tiled(m, e, r.hi) && q < e
    ensures HoleOk(m, r, p, e, fl)
    ensures LiveAround(m, r, p, e) == LiveAround(m, r, p, q) - Starts(m, q, e)
    ensures StartsAround(m, r, p, e) == StartsAround(m, r, p, q) - Starts(m, q, e)
    ensures FreeAround(m, r, p, e) == FreeAround(m, r, p, q)
  {
    hide Starts, FreeList, FreeSize, EndsFree, Tidy;
    Join(m, q, e, r.hi);
    JoinList(m, q, e, r.hi);
    JoinTidy(m, q, e, r.hi);
    AllLiveFacts(m, q, e);
  }

  /** Copying live blocks [s, s + n) to the front of a hole shrinks the hole. */
  lemma FillHole(m: Memory, m': Memory, r: Range, p: int, q: int, s: int, n: int, fl: seq<int>)
    requires HoleOk(m, r, p, q, fl) && 0 < n <= q - p
    requires AllLive(m, s, s + n) && Copied(m, m', s, s + n, p, p + n)
    requires Unchanged(m, m', r.lo, p) && Unchanged(m, m', q, r.hi)
    ensures AllLive(m', p, p + n)
    ensures HoleOk(m', r, p + n, q, fl) && !EndsFree(m', r.lo, p + n)
    ensures LiveAround(m', r, p + n, q) == LiveAround(m, r, p, q) + Starts(m', p, p + n)
    ensures StartsAround(m', r, p + n, q) == StartsAround(m, r, p, q) + Starts(m', p, p + n)
    ensures FreeAround(m', r, p + n, q) == FreeAround(m, r, p, q)
  {
    hide Tiled, Starts, FreeList, FreeSize, EndsFree, Tidy, AllLive;
    FrameUnchanged(m, m', r.lo, p);
    FrameUnchanged(m, m', q, r.hi);
    Shift(m, m', s, s + n, p, p + n);
    AllLiveFacts(m', p, p + n);
    Join(m', r.lo, p, p + n);
    JoinList(m', r.lo, p, p + n);
    JoinTidy(m', r.lo, p, p + n);
  }

  /** m' is m with one free block at [b, e) that covers the hole [p, q), the free block that ends at p
      and the free block that starts at q. */
  ghost predicate Covered(m: Memory, m': Memory, r: Range, p: int, q: int, b: int, e: int)
  {
    && p < q
    && (if EndsFree(m, r.lo, p) then b in Starts(m, r.lo, p) && IsFree(m[b]) && b + m[b].size == p else b == p)
    && e == (if BeginsFree(m, q, r.hi) then q + m[q].size else q)
    && 0 <= b < |m| && b <= e && |m'| == |m| && m'[b] == FreeHeader(e - b)
    && forall i :: 0 <= i < |m| && i != b && !(p <= i < q) ==> m'[i] == m[i]
  }

  lemma CoveredBefore(m: Memory, m': Memory, r: Range, p: int, q: int, b: int, e: int)
    requires TiledAround(m, r, p, q) && Covered(m, m', r, p, q, b, e) && Tidy(m, r.lo, p)
    ensures r.lo <= b && Tiled(m', r.lo, b) && Tidy(m', r.lo, b) && !EndsFree(m', r.lo, b)
    ensures Starts(m', r.lo, b) == Starts(m, r.lo, p) - {b}
    ensures Live(m', r.lo, b) == Live(m, r.lo, p)
    ensures FreeList(m', r.lo, b) + (if b < p then [b] else []) == FreeList(m, r.lo, p)
    ensures FreeSize(m', r.lo, b) + (p - b) == FreeSize(m, r.lo, p)
  {
    if b < p {
      Split(m, r.lo, p, b);
      OneBlock(m, b, p);
      Join(m, r.lo, b, p);
      JoinList(m, r.lo, b, p);
      JoinTidy(m, r.lo, b, p);
    }
    FrameUnchanged(m, m', r.lo, b);
  }

  lemma CoveredAfter(m: Memory, m': Memory, r: Range, p: int, q: int, b: int, e: int)
    requires TiledAround(m, r, p, q) && Covered(m, m', r, p, q, b, e) && Tidy(m, q, r.hi)
    ensures Tiled(m', e, r.hi) && Tidy(m', e, r.hi) && !BeginsFree(m', e, r.hi)
    ensures Starts(m', e, r.hi) == if e == q then Starts(m, q, r.hi) else Starts(m, q, r.hi) - {q}
    ensures Live(m', e, r.hi) == Live(m, q, r.hi)
    ensures (if e == q then [] else [q]) + FreeList(m', e, r.hi) == FreeList(m, q, r.hi)
    ensures FreeSize(m', e, r.hi) + (e - q) == FreeSize(m, q, r.hi)
  {
    FrameUnchanged(m, m', e, r.hi);
  }

  /** Returning the stretch [p, q) gives back an ordinary cluster, with the same live blocks and
      q - p more free cells. */
  lemma CoveredCluster(m: Memory, m': Memory, r: Range, p: int, q: int, b: int, e: int)
    requires TiledAround(m, r, p, q) && Covered(m, m', r, p, q, b, e) && Tidy(m, r.lo, p) && Tidy(m, q, r.hi)
    ensures Tiled(m', r.lo, b) && Tiled(m', e, r.hi)
    ensures FreeList(m', r.lo, b) + (if b < p then [b] else []) == FreeList(m, r.lo, p)
    ensures (if e == q then [] else [q]) + FreeList(m', e, r.hi) == FreeList(m, q, r.hi)
    ensures ClusterOk(m', r, FreeList(m', r.lo, b) + [b] + FreeList(m', e, r.hi))
    ensures Live(m', r.lo, r.hi) == LiveAround(m, r, p, q)
    ensures Starts(m', r.lo, r.hi) == (StartsAround(m, r, p, q) - (if e == q then {} else {q})) + {b}
    ensures FreeSize(m', r.lo, r.hi) == FreeAround(m, r, p, q) + (q - p)
  {
    hide Tiled, Starts, FreeList, FreeSize, EndsFree, Tidy;
    CoveredBefore(m, m', r, p, q, b, e);
    CoveredAfter(m, m', r, p, q, b, e);
    CoveredJoin(m', r, b, e);
  }

  lemma CoveredJoin(m: Memory, r: Range, b: int, e: int)
    requires TiledAround(m, r, b, e) && Tidy(m, r.lo, b) && Tidy(m, e, r.hi)
    requires !EndsFree(m, r.lo, b) && !BeginsFree(m, e, r.hi)
    requires b < e && m[b] == FreeHeader(e - b)
    ensures ClusterOk(m, r, FreeList(m, r.lo, b) + [b] + FreeList(m, e, r.hi))
    ensures Live(m, r.lo, r.hi) == LiveAround(m, r, b, e)
    ensures Starts(m, r.lo, r.hi) == StartsAround(m, r, b, e) + {b}
    ensures FreeSize(m, r.lo, r.hi) == FreeAround(m, r, b, e) + (e - b)
  {
    hide Starts, FreeList, FreeSize, EndsFree, Tidy;
    OneBlock(m, b, e);
    Join(m, r.lo, b, e);
    Join(m, r.lo, e, r.hi);
    JoinList(m, r.lo, b, e);
    JoinList(m, r.lo, e, r.hi);
    JoinTidy(m, r.lo, b, e);
    JoinTidy(m, r.lo, e, r.hi);
  }

  /** Sum of the sizes of the blocks on a list. */
  ghost function ListSize(m: Memory, fl: seq<int>): (n: nat)
  {
    if fl == [] then 0
    else (if 0 <= fl[0] < |m| then m[fl[0]].size else 0) + ListSize(m, fl[1..])
  }

  lemma ListSizeRest(m: Memory, fl: seq<int>, i: nat)
    requires i < |fl| && 0 <= fl[i] < |m|
    ensures ListSize(m, fl[i..]) == m[fl[i]].size + ListSize(m, fl[i + 1..])
  {
    assert fl[i..][1..] == fl[i + 1..];
  }

  lemma NoneListed(m: Memory)
    ensures ListSize(m, []) == 0
  {
  }

  /** Clusters are linked in address order, and a cluster's own record separates its payload from the
      payload before it. */
  ghost predicate Spaced(cl: seq<Range>)
  {
    && (forall c :: 0 <= c < |cl| ==> 0 < cl[c].lo <= cl[c].hi)
    && (forall c, d :: 0 <= c < d < |cl| ==> cl[c].hi < cl[d].lo)
  }

  ghost predicate ClustersOk(m: Memory, cl: seq<Range>, fls: seq<seq<int>>)
  {
    |fls| == |cl| && forall c :: 0 <= c < |cl| ==> ClusterOk(m, cl[c], fls[c])
  }

  /** m' differs from m only inside cluster c. */
  ghost predicate OnlyInside(m: Memory, m': Memory, r: Range)
  {
    |m'| == |m| && forall i :: 0 <= i < |m| && !(r.lo <= i < r.hi) ==> m'[i] == m[i]
  }

  /** A change confined to cluster c leaves every other cluster in order. */
  lemma ClustersFrame(m: Memory, m': Memory, cl: seq<Range>, fls: seq<seq<int>>, c: nat, fl: seq<int>)
    requires Spaced(cl) && c < |cl| && |fls| == |cl|
    requires forall d :: 0 <= d < |cl| && d != c ==> ClusterOk(m, cl[d], fls[d])
    requires ClusterOk(m', cl[c], fl) && OnlyInside(m, m', cl[c])
    ensures ClustersOk(m', cl, fls[c := fl])
    ensures forall d :: 0 <= d < |cl| && d != c ==> SameBlocks(m, m', cl[d].lo, cl[d].hi)
  {
    forall d | 0 <= d < |cl| && d != c
      ensures ClusterOk(m', cl[d], fls[d]) && SameBlocks(m, m', cl[d].lo, cl[d].hi)
    {
      assert cl[c].hi < cl[d].lo || cl[d].hi < cl[c].lo;
      FrameUnchanged(m, m', cl[d].lo, cl[d].hi);
    }
  }
}
