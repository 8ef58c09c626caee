/** The two ways Heap_Compact moves blocks: copying them into a free region that lies elsewhere, or
    sliding them down over the free region that ends where they start. */
module CompactionMoves {
  import opened HeapBlocks
  import opened ClusterInvariant
  import opened HeapCluster

  /** memmove towards a lower address. */
  method MemMove(mem: array<Cell>, dst: int, src: int, n: nat)
    requires 0 <= dst <= src && src + n <= mem.Length
    modifies mem
    ensures Copied(old(mem[..]), mem[..], src, src + n, dst, dst + n)
    ensures forall i :: 0 <= i < mem.Length && !(dst <= i < dst + n) ==> mem[..][i] == old(mem[..])[i]
  {
    ghost var m := mem[..];
    for k := 0 to n
      invariant mem[dst..dst + k] == m[src..src + k]
      invariant forall i :: 0 <= i < mem.Length && !(dst <= i < dst + k) ==> mem[i] == m[i]
    {
      mem[dst + k] := mem[src + k];
      assert mem[dst..dst + (k + 1)] == mem[dst..dst + k] + [m[src + k]];
      assert m[src..src + (k + 1)] == m[src..src + k] + [m[src + k]];
    }
    assert mem[..][dst..dst + n] == mem[dst..dst + n];
  }

  /** Cluster r after blocks [s, s + n) were copied to the front of its free block f. */
  ghost predicate FreeFilled(m: Memory, m': Memory, r: Range, fl': seq<int>, f: int, s: int, n: int)
    requires 0 <= f < |m|
  {
    && ClusterOk(m', r, fl')
    && AllLive(m', f, f + n) && Copied(m, m', s, s + n, f, f + n)
    && Live(m', r.lo, r.hi) == Live(m, r.lo, r.hi) + Starts(m', f, f + n)
    && Starts(m', r.lo, r.hi) == Starts(m, r.lo, r.hi) + Starts(m', f, f + n) + (if n < m[f].size then {f + n} else {})
    && (n < m[f].size ==> f + n < |m'| && IsFree(m'[f + n]) && f + n + m'[f + n].size == f + m[f].size)
    && FreeSize(m', r.lo, r.hi) + n == FreeSize(m, r.lo, r.hi)
    && |m'| == |m| && (forall i :: 0 <= i < |m| && !(f <= i < f + m[f].size) ==> m'[i] == m[i])
  }

  /** After the copy, what is left of the free block is a hole. */
  lemma FillOpened(m: Memory, m1: Memory, r: Range, fl: seq<int>, k: nat, s: int, n: int)
    requires ClusterOk(m, r, fl) && k < |fl| && 0 <= fl[k] < |m| && 0 < n <= m[fl[k]].size
    requires AllLive(m, s, s + n) && Copied(m, m1, s, s + n, fl[k], fl[k] + n)
    requires |m1| == |m| && forall i :: 0 <= i < |m| && !(fl[k] <= i < fl[k] + n) ==> m1[i] == m[i]
    ensures var f := fl[k]; var e := f + m[f].size;
      && AllLive(m1, f, f + n)
      && HoleOk(m1, r, f + n, e, Without(fl, k)) && !EndsFree(m1, r.lo, f + n) && !BeginsFree(m1, e, r.hi)
      && LiveAround(m1, r, f + n, e) == Live(m, r.lo, r.hi) + Starts(m1, f, f + n)
      && StartsAround(m1, r, f + n, e) == (Starts(m, r.lo, r.hi) - {f}) + Starts(m1, f, f + n)
      && FreeAround(m1, r, f + n, e) + m[f].size == FreeSize(m, r.lo, r.hi)
  {
    hide FreeList, Starts, FreeSize, Tidy, EndsFree, AllLive;
    OpenFree(m, r, fl, k);
    FillHole(m, m1, r, fl[k], fl[k] + m[fl[k]].size, s, n, Without(fl, k));
  }

  lemma FillReturned(m: Memory, m1: Memory, m2: Memory, r: Range, fl: seq<int>, k: nat, s: int, n: int, fl': seq<int>,
                     b: int)
    requires ClusterOk(m, r, fl) && k < |fl| && 0 <= fl[k] < |m| && 0 < n < m[fl[k]].size
    requires AllLive(m, s, s + n) && Copied(m, m1, s, s + n, fl[k], fl[k] + n)
    requires |m1| == |m| && forall i :: 0 <= i < |m| && !(fl[k] <= i < fl[k] + n) ==> m1[i] == m[i]
    requires TiledAround(m1, r, fl[k] + n, fl[k] + m[fl[k]].size)
    requires Returned(m1, m2, r, fl[k] + n, fl[k] + m[fl[k]].size, fl', b)
    ensures b == fl[k] + n && fl[k] in Starts(m, r.lo, r.hi) && FreeFilled(m, m2, r, fl', fl[k], s, n)
    ensures ClusterOk(m2, r, fl') && OnlyInside(m, m2, r)
  {
    hide FreeList, Starts, FreeSize, Tidy, EndsFree, AllLive, Tiled;
    var f := fl[k];
    OpenFree(m, r, fl, k);
    FillOpened(m, m1, r, fl, k, s, n);
    FillFrame(m, m1, m2, f, s, n);
  }

  /** What is written behind the copied blocks does not touch them. */
  lemma FillFrame(m: Memory, m1: Memory, m2: Memory, f: int, s: int, n: int)
    requires Copied(m, m1, s, s + n, f, f + n) && AllLive(m1, f, f + n) && |m2| == |m1|
    requires forall i :: 0 <= i < |m1| && f <= i < f + n ==> m2[i] == m1[i]
    ensures Copied(m, m2, s, s + n, f, f + n) && AllLive(m2, f, f + n)
    ensures Starts(m2, f, f + n) == Starts(m1, f, f + n)
    ensures n > 0 ==> f in Starts(m1, f, f + n)
  {
    FrameUnchanged(m1, m2, f, f + n);
    assert m2[f..f + n] == m1[f..f + n];
    Shift(m1, m2, f, f + n, f, f + n);
  }

  lemma FillExact(m: Memory, m1: Memory, r: Range, fl: seq<int>, k: nat, s: int, n: int)
    requires ClusterOk(m, r, fl) && k < |fl| && 0 <= fl[k] < |m| && 0 < n == m[fl[k]].size
    requires AllLive(m, s, s + n) && Copied(m, m1, s, s + n, fl[k], fl[k] + n)
    requires |m1| == |m| && forall i :: 0 <= i < |m| && !(fl[k] <= i < fl[k] + n) ==> m1[i] == m[i]
    ensures fl[k] in Starts(m, r.lo, r.hi) && FreeFilled(m, m1, r, Without(fl, k), fl[k], s, n)
    ensures ClusterOk(m1, r, Without(fl, k)) && OnlyInside(m, m1, r)
  {
    hide FreeList, Starts, FreeSize, Tidy, EndsFree, AllLive, Tiled;
    var f := fl[k];
    OpenFree(m, r, fl, k);
    FillOpened(m, m1, r, fl, k, s, n);
    FillFrame(m, m1, m1, f, s, n);
    EmptyHole(m1, r, f + n, Without(fl, k));
  }

  ghost predicate OthersSame(m: Memory, m': Memory, cl: seq<Range>, c: nat)
  {
    forall d :: 0 <= d < |cl| && d != c ==> SameBlocks(m, m', cl[d].lo, cl[d].hi)
  }

  /** Unlink free block number k of cluster c, copy the blocks at [s, s + n) over its front and relink
      what is left of it.  Gives back the free block to continue with, NULL at the end of the list. */
  method FillFree(h: Heap, c: nat, k: nat, s: int, n: nat) returns (next: int)
    requires h.Valid() && c < |h.clusters| && k < |h.freeLists[c]|
    requires 0 <= h.freeLists[c][k] < h.mem.Length && 0 < n <= h.mem[h.freeLists[c][k]].size
    requires h.freeLists[c][k] + h.mem[h.freeLists[c][k]].size <= s && AllLive(h.mem[..], s, s + n)
    modifies h`freeLists, h.mem
    ensures h.Valid() && h.freeLists == old(h.freeLists)[c := h.freeLists[c]]
    ensures var m, fl, r := old(h.mem[..]), old(h.freeLists[c]), h.clusters[c];
      && Tiled(m, r.lo, r.hi) && fl[k] in Starts(m, r.lo, r.hi)
      && FreeFilled(m, h.mem[..], r, h.freeLists[c], fl[k], s, n)
      && OthersSame(m, h.mem[..], h.clusters, c)
      && next == (if n < m[fl[k]].size then fl[k] + n else if k + 1 < |fl| then fl[k + 1] else NULL)
  {
    hide FreeList, Starts, FreeSize, Live, Tidy, EndsFree, Tiled, AllLive, Copied, FreeFilled, Returned, SameBlocks;
    ghost var m, fls, r := h.mem[..], h.freeLists, h.clusters[c];
    var fl := h.freeLists[c];
    var f := fl[k];
    var size := h.mem[f].size;
    AllLiveBounds(m, s, s + n);
    OpenFree(m, r, fl, k);
    h.freeLists := h.freeLists[c := Without(fl, k)];
    MemMove(h.mem, f, s, n);
    ghost var m1 := h.mem[..];
    FillOpened(m, m1, r, fl, k, s, n);
    if n < size {
      next := h.InsertInOrder(c, f + n, size - n);
      FillReturned(m, m1, h.mem[..], r, fl, k, s, n, h.freeLists[c], next);
    } else {
      next := if k + 1 < |fl| then fl[k + 1] else NULL;
      FillExact(m, m1, r, fl, k, s, n);
    }
    ClustersFrame(m, h.mem[..], h.clusters, fls, c, h.freeLists[c]);
  }

  /** Return the blocks [s, s + n) of cluster c, whose contents now live elsewhere, to its free list. */
  method Vacate(h: Heap, c: nat, s: int, n: nat) returns (dst: int)
    requires h.Valid() && c < |h.clusters| && 0 < n
    requires AllLive(h.mem[..], s, s + n)
    requires Tiled(h.mem[..], h.clusters[c].lo, s) && Tiled(h.mem[..], s + n, h.clusters[c].hi)
    modifies h`freeLists, h.mem
    ensures h.Valid() && h.freeLists == old(h.freeLists)[c := h.freeLists[c]]
    ensures var m, r := old(h.mem[..]), h.clusters[c];
      && TiledAround(m, r, s, s + n)
      && LiveAround(m, r, s, s + n) == Live(m, r.lo, r.hi) - Starts(m, s, s + n)
      && StartsAround(m, r, s, s + n) == Starts(m, r.lo, r.hi) - Starts(m, s, s + n)
      && FreeAround(m, r, s, s + n) == FreeSize(m, r.lo, r.hi)
      && Returned(m, h.mem[..], r, s, s + n, h.freeLists[c], dst)
      && OthersSame(m, h.mem[..], h.clusters, c)
  {
    hide FreeList, Starts, FreeSize, Tidy, EndsFree;
    ghost var m, fls, r := h.mem[..], h.freeLists, h.clusters[c];
    Join(m, s, s + n, r.hi);
    EmptyHole(m, r, s, h.freeLists[c]);
    ExtendHole(m, r, s, s, s + n, h.freeLists[c]);
    dst := h.InsertInOrder(c, s, n);
    ClustersFrame(m, h.mem[..], h.clusters, fls, c, h.freeLists[c]);
  }

  /** Cluster r after the blocks [s, s + n) slid down over the free block f that ended at s. */
  ghost predicate Slid(m: Memory, m': Memory, r: Range, fl': seq<int>, f: int, s: int, n: int)
  {
    && ClusterOk(m', r, fl')
    && AllLive(m', f, f + n) && Copied(m, m', s, s + n, f, f + n)
    && Live(m', r.lo, r.hi) == (Live(m, r.lo, r.hi) - Starts(m, s, s + n)) + Starts(m', f, f + n)
    && Starts(m', r.lo, r.hi) == (Starts(m, r.lo, r.hi) - Starts(m, s, s + n)
                                  - (if BeginsFree(m, s + n, r.hi) then {s + n} else {}))
                               + Starts(m', f, f + n) + {f + n}
    && f + n < |m'| && IsFree(m'[f + n])
    && f + n + m'[f + n].size == (if BeginsFree(m, s + n, r.hi) then s + n + m[s + n].size else s + n)
    && FreeSize(m', r.lo, r.hi) == FreeSize(m, r.lo, r.hi)
    && |m'| == |m| && (forall i :: 0 <= i < |m| && !(f <= i < s + n) ==> m'[i] == m[i])
  }

  lemma SlideOpened(m: Memory, m1: Memory, r: Range, fl: seq<int>, k: nat, n: nat)
    requires ClusterOk(m, r, fl) && k < |fl| && 0 <= fl[k] < |m| && 0 < n
    requires var s := fl[k] + m[fl[k]].size;
      && AllLive(m, s, s + n) && Tiled(m, s + n, r.hi) && Copied(m, m1, s, s + n, fl[k], fl[k] + n)
    requires |m1| == |m| && forall i :: 0 <= i < |m| && !(fl[k] <= i < fl[k] + n) ==> m1[i] == m[i]
    ensures var f := fl[k]; var s := f + m[f].size; var e := s + n;
      && f in Starts(m, r.lo, r.hi) && IsFree(m[f]) && 1 <= m[f].size
      && AllLive(m1, f, f + n)
      && HoleOk(m1, r, f + n, e, Without(fl, k)) && !EndsFree(m1, r.lo, f + n)
      && LiveAround(m1, r, f + n, e) == (Live(m, r.lo, r.hi) - Starts(m, s, e)) + Starts(m1, f, f + n)
      && StartsAround(m1, r, f + n, e) == (Starts(m, r.lo, r.hi) - {f} - Starts(m, s, e)) + Starts(m1, f, f + n)
      && FreeAround(m1, r, f + n, e) + m[f].size == FreeSize(m, r.lo, r.hi)
  {
    hide FreeList, Starts, FreeSize, Tidy, EndsFree, AllLive;
    var f := fl[k];
    var s := f + m[f].size;
    OpenFree(m, r, fl, k);
    ExtendHole(m, r, f, s, s + n, Without(fl, k));
    FillHole(m, m1, r, f, s + n, s, n, Without(fl, k));
  }

  lemma SlideReturned(m: Memory, m1: Memory, m2: Memory, r: Range, fl: seq<int>, k: nat, n: nat, fl': seq<int>, b: int)
    requires ClusterOk(m, r, fl) && k < |fl| && 0 <= fl[k] < |m| && 0 < n
    requires var s := fl[k] + m[fl[k]].size;
      && AllLive(m, s, s + n) && Tiled(m, s + n, r.hi) && Copied(m, m1, s, s + n, fl[k], fl[k] + n)
    requires |m1| == |m| && forall i :: 0 <= i < |m| && !(fl[k] <= i < fl[k] + n) ==> m1[i] == m[i]
    requires TiledAround(m1, r, fl[k] + n, fl[k] + m[fl[k]].size + n)
    requires Returned(m1, m2, r, fl[k] + n, fl[k] + m[fl[k]].size + n, fl', b)
    ensures ClusterOk(m2, r, fl') && OnlyInside(m, m2, r)
    ensures b == fl[k] + n && Slid(m, m2, r, fl', fl[k], fl[k] + m[fl[k]].size, n)
  {
    hide FreeList, Starts, FreeSize, Tidy, EndsFree, AllLive;
    var f := fl[k];
    var s := f + m[f].size;
    SlideOpened(m, m1, r, fl, k, n);
    FillFrame(m, m1, m2, f, s, n);
  }

  /** Unlink free block number k of cluster c, slide the n cells of blocks behind it down over it, and
      relink it behind them. */
  method SlideDown(h: Heap, c: nat, k: nat, n: nat) returns (next: int)
    requires h.Valid() && c < |h.clusters| && k < |h.freeLists[c]|
    requires 0 <= h.freeLists[c][k] < h.mem.Length && 0 < n
    requires var s := h.freeLists[c][k] + h.mem[h.freeLists[c][k]].size;
      AllLive(h.mem[..], s, s + n) && Tiled(h.mem[..], s + n, h.clusters[c].hi)
    modifies h`freeLists, h.mem
    ensures h.Valid() && h.freeLists == old(h.freeLists)[c := h.freeLists[c]]
    ensures var m, f, r := old(h.mem[..]), old(h.freeLists[c][k]), h.clusters[c];
      && Tiled(m, r.lo, r.hi) && f in Starts(m, r.lo, r.hi) && IsFree(m[f])
      && Slid(m, h.mem[..], r, h.freeLists[c], f, f + m[f].size, n)
      && OthersSame(m, h.mem[..], h.clusters, c)
      && next == f + n
  {
    hide FreeList, Starts, FreeSize, Live, Tidy, EndsFree, Tiled, AllLive, Copied, Slid, Returned, SameBlocks;
    ghost var m, fls, r := h.mem[..], h.freeLists, h.clusters[c];
    var fl := h.freeLists[c];
    var f := fl[k];
    var size := h.mem[f].size;
    AllLiveBounds(m, f + size, f + size + n);
    h.freeLists := h.freeLists[c := Without(fl, k)];
    MemMove(h.mem, f, f + size, n);
    ghost var m1 := h.mem[..];
    SlideOpened(m, m1, r, fl, k, n);
    next := h.InsertInOrder(c, f + n, size);
    SlideReturned(m, m1, h.mem[..], r, fl, k, n, h.freeLists[c], next);
    ClustersFrame(m, h.mem[..], h.clusters, fls, c, h.freeLists[c]);
  }
}
