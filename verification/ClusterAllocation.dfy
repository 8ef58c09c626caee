/** CLR_RT_HeapCluster::ExtractBlocks: allocation from one cluster. */
module ClusterAllocation {
  import opened HeapBlocks
  import opened ClusterInvariant
  import opened HeapCluster

  const ZERO_CELL := Cell(Other, Flags(false, false, false), 0, Raw(0))

  /** Re-dividing free block number k leaves the rest of the cluster as it was. */
  lemma Refill(m: Memory, m': Memory, r: Range, fl: seq<int>, k: nat)
    requires ClusterOk(m, r, fl) && k < |fl| && 0 <= fl[k] < |m|
    requires var f := fl[k]; var e := f + m[f].size;
      && Unchanged(m, m', r.lo, f) && Unchanged(m, m', e, r.hi)
      && Tiled(m', f, e) && Tidy(m', f, e)
    ensures var f := fl[k]; var e := f + m[f].size;
      && ClusterOk(m', r, fl[..k] + FreeList(m', f, e) + fl[k + 1..])
      && Live(m', r.lo, r.hi) == Live(m, r.lo, r.hi) + Live(m', f, e)
      && Starts(m', r.lo, r.hi) == (Starts(m, r.lo, r.hi) - {f}) + Starts(m', f, e)
      && FreeSize(m', r.lo, r.hi) + m[f].size == FreeSize(m, r.lo, r.hi) + FreeSize(m', f, e)
  {
    hide Starts, Tidy, FreeList, FreeSize, EndsFree, Live;
    var f := fl[k];
    var e := f + m[f].size;
    OpenFree(m, r, fl, k);
    FreeListAt(m, r.lo, r.hi, k);
    FreeListSplit(m, r.lo, r.hi, k);
    FrameUnchanged(m, m', r.lo, f);
    FrameUnchanged(m, m', e, r.hi);
    Join(m', r.lo, f, e);
    Join(m', r.lo, e, r.hi);
    JoinTidy(m', r.lo, f, e);
    JoinTidy(m', r.lo, e, r.hi);
    JoinList(m', r.lo, f, e);
    JoinList(m', r.lo, e, r.hi);
  }

  /** Two adjacent blocks, one of them free. */
  lemma TwoBlocks(m: Memory, p: int, x: int, q: int)
    requires 0 <= p < x < q <= |m| && p + m[p].size == x && x + m[x].size == q
    requires IsFree(m[p]) != IsFree(m[x])
    requires (IsFree(m[p]) ==> m[p].flags == PINNED_ONLY) && (IsFree(m[x]) ==> m[x].flags == PINNED_ONLY)
    ensures Tiled(m, p, q) && Tidy(m, p, q) && Starts(m, p, q) == {p, x}
    ensures Live(m, p, q) == {if IsFree(m[p]) then x else p}
    ensures FreeList(m, p, q) == [if IsFree(m[p]) then p else x]
    ensures FreeSize(m, p, q) == if IsFree(m[p]) then x - p else q - x
  {
    hide Starts, Tidy, FreeList, FreeSize, EndsFree, Live;
    OneBlock(m, p, x);
    OneBlock(m, x, q);
    Join(m, p, x, q);
    JoinList(m, p, x, q);
    JoinTidy(m, p, x, q);
  }

  /** A block of `length` cells with header `hd` was cut from free block f: from its end for events, from
      its front otherwise. */
  ghost predicate Cut(m: Memory, m': Memory, r: Range, f: int, length: nat, event: bool, hd: Cell, res: int)
  {
    && 0 <= f < |m| && 1 <= length <= m[f].size && f + m[f].size <= |m| == |m'|
    && res == (if event then f + m[f].size - length else f)
    && m'[res] == hd
    && (length < m[f].size ==>
          if event then m'[f] == m[f].(size := m[f].size - length)
                   else m'[f + length] == FreeHeader(m[f].size - length))
    && Unchanged(m, m', 0, f) && Unchanged(m, m', f + m[f].size, |m|)
  }

  /** The list after the cut. */
  function CutList(fl: seq<int>, k: nat, length: nat, available: nat, event: bool): (fl': seq<int>)
    requires k < |fl|
  {
    if length == available then Without(fl, k) else if event then fl else fl[k := fl[k] + length]
  }

  /** What an allocation does to a cluster. */
  ghost predicate Allocated(m: Memory, m': Memory, r: Range, length: nat, res: int)
  {
    && Live(m', r.lo, r.hi) == Live(m, r.lo, r.hi) + {res} && res !in Live(m, r.lo, r.hi)
    && FreeSize(m', r.lo, r.hi) + length == FreeSize(m, r.lo, r.hi)
    && r.lo <= res && res + length <= r.hi <= |m| == |m'| && m'[res].size == length
    && (forall a :: a in Live(m, r.lo, r.hi) ==> Unchanged(m, m', a, a + m[a].size))
  }

  lemma CutCluster(m: Memory, m': Memory, r: Range, fl: seq<int>, k: nat, length: nat, event: bool, hd: Cell, res: int)
    requires ClusterOk(m, r, fl) && k < |fl| && Cut(m, m', r, fl[k], length, event, hd, res)
    requires hd.size == length && !IsFree(hd)
    ensures ClusterOk(m', r, CutList(fl, k, length, m[fl[k]].size, event))
    ensures Allocated(m, m', r, length, res) && OnlyInside(m, m', r)
  {
    hide Starts, Tidy, FreeList, FreeSize, EndsFree, Tiled;
    var f := fl[k];
    var e := f + m[f].size;
    OpenFree(m, r, fl, k);
    FreeFlags(m, r, fl, k);
    if length == m[f].size {
      OneBlock(m', f, e);
    } else {
      TwoBlocks(m', f, if event then res else f + length, e);
    }
    Refill(m, m', r, fl, k);
    assert fl[..k] + [fl[k]] + fl[k + 1..] == fl;
    forall a | a in Live(m, r.lo, r.hi) ensures Unchanged(m, m', a, a + m[a].size) && a != res {
      if a < f { Disjoint(m, r.lo, r.hi, a, f); } else { Disjoint(m, r.lo, r.hi, f, a); }
    }
  }

  lemma FreeFlags(m: Memory, r: Range, fl: seq<int>, k: nat)
    requires ClusterOk(m, r, fl) && k < |fl|
    ensures 0 <= fl[k] < |m| && IsFree(m[fl[k]]) && m[fl[k]].flags == PINNED_ONLY
  {
    FreeListAt(m, r.lo, r.hi, k);
    TidyFlags(m, r.lo, r.hi, fl[k]);
  }

  lemma {:induction false} TidyFlags(m: Memory, p: int, q: int, a: int)
    requires Tidy(m, p, q) && a in Starts(m, p, q) && IsFree(m[a])
    ensures m[a].flags == PINNED_ONLY
    decreases q - p
  {
    if a != p { TidyFlags(m, p + m[p].size, q, a); }
  }

  /** First fit from the front of the list, or from its back; -1 when nothing fits. */
  method FindFit(h: Heap, c: nat, length: nat, event: bool) returns (k: int)
    requires h.Valid() && c < |h.clusters|
    ensures -1 <= k < |h.freeLists[c]|
    ensures k == -1 ==> NoFit(h.mem[..], h.freeLists[c], length)
    ensures 0 <= k ==> 0 <= h.freeLists[c][k] < h.mem.Length && h.mem[h.freeLists[c][k]].size >= length
    ensures 0 <= k ==>
      if event then NoFit(h.mem[..], h.freeLists[c][k + 1..], length) else NoFit(h.mem[..], h.freeLists[c][..k], length)
  {
    hide Starts, Tidy, FreeList, FreeSize, EndsFree, Live, Tiled;
    var fl := h.freeLists[c];
    assert ClusterOk(h.mem[..], h.clusters[c], fl);
    forall i | 0 <= i < |fl| ensures 0 <= fl[i] < h.mem.Length {
      FreeListAt(h.mem[..], h.clusters[c].lo, h.clusters[c].hi, i);
    }
    if event {
      k := |fl| - 1;
      while k >= 0 && h.mem[fl[k]].size < length
        invariant -1 <= k < |fl|
        invariant forall i :: k < i < |fl| ==> h.mem[fl[i]].size < length
      {
        k := k - 1;
      }
    } else {
      k := 0;
      while k < |fl| && h.mem[fl[k]].size < length
        invariant 0 <= k <= |fl|
        invariant forall i :: 0 <= i < k ==> h.mem[fl[i]].size < length
      {
        k := k + 1;
      }
      if k == |fl| { k := -1; }
    }
  }

  method ZeroFill(mem: array<Cell>, res: int, length: nat)
    requires 0 <= res && 1 <= length && res + length <= mem.Length
    modifies mem
    ensures mem[..][res] == old(mem[..])[res].(data := Raw(0))
    ensures forall i :: res < i < res + length ==> mem[..][i] == ZERO_CELL
    ensures forall i :: 0 <= i < mem.Length && !(res <= i < res + length) ==> mem[..][i] == old(mem[..])[i]
  {
    mem[res] := mem[res].(data := Raw(0));
    for i := res + 1 to res + length
      invariant mem[res] == old(mem[res]).(data := Raw(0))
      invariant forall j :: res < j < i ==> mem[j] == ZERO_CELL
      invariant forall j :: 0 <= j < mem.Length && !(res <= j < i) ==> mem[j] == old(mem[j])
    {
      mem[i] := ZERO_CELL;
    }
  }

  /** Cut `length` cells from free block number k and relink what is left. */
  method CutFrom(h: Heap, c: nat, k: nat, dt: DataType, flags: Flags, length: nat) returns (res: int)
    requires c < |h.clusters| == |h.freeLists| && k < |h.freeLists[c]|
    requires var f := h.freeLists[c][k];
      0 < f < h.mem.Length && 1 <= length <= h.mem[f].size && f + h.mem[f].size <= h.mem.Length
    modifies h`freeLists, h.mem
    ensures 0 <= res < h.mem.Length && h.mem[res].dt == dt && h.mem[res].flags == flags && h.mem[res].size == length
    ensures var m, fl := old(h.mem[..]), old(h.freeLists[c]);
      && Cut(m, h.mem[..], h.clusters[c], fl[k], length, flags.event, h.mem[..][res], res)
      && h.freeLists == old(h.freeLists)[c := CutList(fl, k, length, m[fl[k]].size, flags.event)]
  {
    var fl := h.freeLists[c];
    var f := fl[k];
    var available := h.mem[f].size;
    res := f;
    if length < available {
      if flags.event {
        h.mem[f] := h.mem[f].(size := available - length);
        res := f + (available - length);
      } else {
        h.mem[f + length] := FreeHeader(available - length);
        h.freeLists := h.freeLists[c := fl[k := f + length]];
      }
    } else {
      h.freeLists := h.freeLists[c := Without(fl, k)];
    }
    h.mem[res] := Cell(dt, flags, length, h.mem[res].data);
  }

  /** Zeroing the block afterwards leaves it the same cut. */
  lemma CutZeroed(m: Memory, m1: Memory, m2: Memory, r: Range, f: int, length: nat, event: bool, res: int)
    requires 0 <= res < |m1| && Cut(m, m1, r, f, length, event, m1[res], res) && |m2| == |m1|
    requires m2[res] == m1[res].(data := Raw(0))
    requires forall i :: 0 <= i < |m1| && !(res <= i < res + length) ==> m2[i] == m1[i]
    ensures Cut(m, m2, r, f, length, event, m2[res], res)
  {
  }

  /** Allocate `length` cells; NULL when no free block is large enough. */
  method ExtractBlocks(h: Heap, c: nat, dt: DataType, flags: Flags, initializeToZero: bool, length: nat)
    returns (res: int)
    requires h.Valid() && c < |h.clusters| && 1 <= length && !dt.FreeBlock?
    modifies h`freeLists, h.mem
    ensures h.Valid()
    ensures res == NULL ==> h.freeLists == old(h.freeLists) && h.mem[..] == old(h.mem[..])
    ensures res == NULL <==> NoFit(old(h.mem[..]), old(h.freeLists[c]), length)
    ensures res != NULL ==>
      && Allocated(old(h.mem[..]), h.mem[..], h.clusters[c], length, res)
      && OnlyInside(old(h.mem[..]), h.mem[..], h.clusters[c])
      && h.freeLists == old(h.freeLists)[c := h.freeLists[c]]
      && h.mem[res].dt == dt && h.mem[res].flags == flags
      && FirstFit(old(h.mem[..]), old(h.freeLists[c]), length, flags.event, res)
      && (initializeToZero ==> Zeroed(h.mem[..], res, length))
  {
    hide Starts, Tidy, FreeList, FreeSize, EndsFree, Live, Tiled, CutList;
    ghost var m, fls, r := h.mem[..], h.freeLists, h.clusters[c];
    var k := FindFit(h, c, length, flags.event);
    res := NULL;
    if k >= 0 {
      ghost var fl := h.freeLists[c];
      OpenFree(m, r, fl, k);
      res := CutFrom(h, c, k, dt, flags, length);
      if initializeToZero {
        ghost var m1 := h.mem[..];
        ZeroFill(h.mem, res, length);
        CutZeroed(m, m1, h.mem[..], r, fl[k], length, flags.event, res);
      }
      CutCluster(m, h.mem[..], r, fl, k, length, flags.event, h.mem[..][res], res);
      ClustersFrame(m, h.mem[..], h.clusters, fls, c, h.freeLists[c]);
    }
  }

  /** No block of the list has `length` cells. */
  ghost predicate NoFit(m: Memory, fl: seq<int>, length: nat)
  {
    forall i :: 0 <= i < |fl| ==> 0 <= fl[i] < |m| && m[fl[i]].size < length
  }

  /** res was cut from the first block, in scan direction, that is large enough. */
  ghost predicate FirstFit(m: Memory, fl: seq<int>, length: nat, event: bool, res: int)
  {
    exists k :: 0 <= k < |fl| && 0 <= fl[k] < |m| && m[fl[k]].size >= length
      && (if event then NoFit(m, fl[k + 1..], length) else NoFit(m, fl[..k], length))
      && res == if event then fl[k] + m[fl[k]].size - length else fl[k]
  }

  ghost predicate Zeroed(m: Memory, res: int, length: nat)
  {
    && 0 <= res && 1 <= length && res + length <= |m|
    && m[res].data == Raw(0) && forall i :: res < i < res + length ==> m[i] == ZERO_CELL
  }
}
