/** CLR_RT_HeapCluster: the clusters of one heap share its memory, and each owns a free list. */
module HeapCluster {
  import opened HeapBlocks
  import opened ClusterInvariant

  function Inserted(fl: seq<int>, i: nat, x: int): (fl': seq<int>)
    requires i <= |fl|
  {
    fl[..i] + [x] + fl[i..]
  }

  /** Does a block at p, linked at position i, follow directly on the free block before it? */
  predicate MergesBefore(m: Memory, p: int, fl: seq<int>, i: nat)
  {
    0 < i <= |fl| && 0 <= fl[i - 1] < |m| && fl[i - 1] + m[fl[i - 1]].size == p
  }

  /** Does a block that ends at q, linked at position i, reach the free block after it? */
  predicate MergesAfter(q: int, fl: seq<int>, i: nat)
  {
    i < |fl| && fl[i] == q
  }

  /** The list after linking p at position i and unlinking whatever it merges with. */
  function Relinked(fl: seq<int>, i: nat, p: int, before: bool, after: bool): (fl': seq<int>)
    requires i <= |fl| && (before ==> 0 < i) && (after ==> i < |fl|)
  {
    var fl1 := Inserted(fl, i, p);
    var fl2 := if after then Without(fl1, i + 1) else fl1;
    if before then Without(fl2, i) else fl2
  }

  lemma RelinkedShape(xs: seq<int>, ys: seq<int>, p: int, before: bool, after: bool)
    requires (before ==> xs != []) && (after ==> ys != [])
    ensures Relinked(xs + ys, |xs|, p, before, after)
         == (if before then xs else xs + [p]) + (if after then ys[1..] else ys)
  {
    var fl1 := Inserted(xs + ys, |xs|, p);
    assert fl1 == xs + [p] + ys;
    var fl2 := if after then Without(fl1, |xs| + 1) else fl1;
    assert fl2 == xs + [p] + (if after then ys[1..] else ys);
  }

  /** What InsertInOrder does to a cluster whose stretch [p, q) is being returned; b is the address it
      gives back. */
  ghost predicate Returned(m: Memory, m': Memory, r: Range, p: int, q: int, fl': seq<int>, b: int)
  {
    && ClusterOk(m', r, fl')
    && Live(m', r.lo, r.hi) == LiveAround(m, r, p, q)
    && FreeSize(m', r.lo, r.hi) == FreeAround(m, r, p, q) + (q - p)
    && b in Starts(m', r.lo, r.hi) && IsFree(m'[b])
    && (if EndsFree(m, r.lo, p) then b in Starts(m, r.lo, p) && IsFree(m[b]) && b + m[b].size == p else b == p)
    && b + m'[b].size == (if BeginsFree(m, q, r.hi) then q + m[q].size else q)
    && Starts(m', r.lo, r.hi) == (StartsAround(m, r, p, q) - (if BeginsFree(m, q, r.hi) then {q} else {})) + {b}
    && |m'| == |m| && (forall i :: 0 <= i < |m| && i != b && !(p <= i < q) ==> m'[i] == m[i])
  }

  /** Free blocks before the hole precede it in the list, free blocks behind it follow. */
  lemma HoleOrder(m: Memory, r: Range, p: int, q: int, fl: seq<int>)
    requires HoleOk(m, r, p, q, fl)
    ensures var n := |FreeList(m, r.lo, p)|;
      && n <= |fl|
      && (forall k :: 0 <= k < n ==> 0 <= fl[k] < p)
      && (forall k :: n <= k < |fl| ==> q <= fl[k] < |m|)
  {
    var xs, ys := FreeList(m, r.lo, p), FreeList(m, q, r.hi);
    forall k | 0 <= k < |xs| ensures 0 <= fl[k] < p { FreeListAt(m, r.lo, p, k); }
    forall k | |xs| <= k < |fl| ensures q <= fl[k] < |m| { FreeListAt(m, q, r.hi, k - |xs|); }
  }

  lemma MergeConditions(m: Memory, r: Range, p: int, q: int, fl: seq<int>)
    requires HoleOk(m, r, p, q, fl)
    ensures var i := |FreeList(m, r.lo, p)|;
      && (MergesBefore(m, p, fl, i) <==> EndsFree(m, r.lo, p))
      && (MergesAfter(q, fl, i) <==> BeginsFree(m, q, r.hi))
      && (MergesBefore(m, p, fl, i) ==>
         FreeList(m, r.lo, p) != [] && fl[i - 1] in Starts(m, r.lo, p) && IsFree(m[fl[i - 1]]))
      && (MergesAfter(q, fl, i) ==> FreeList(m, q, r.hi) != [] && 1 <= m[q].size)
  {
    var xs, ys := FreeList(m, r.lo, p), FreeList(m, q, r.hi);
    LastFree(m, r.lo, p);
    FirstFree(m, q, r.hi);
    if xs != [] { FreeListAt(m, r.lo, p, |xs| - 1); }
  }

  lemma InsertDone(m: Memory, m': Memory, r: Range, p: int, q: int, fl: seq<int>, i: nat, b: int, e: int)
    requires HoleOk(m, r, p, q, fl) && p < q && i == |FreeList(m, r.lo, p)| <= |fl|
    requires b == if MergesBefore(m, p, fl, i) then fl[i - 1] else p
    requires MergesAfter(q, fl, i) ==> q < |m|
    requires e == if MergesAfter(q, fl, i) then q + m[q].size else q
    requires 0 <= b < |m| && |m'| == |m| && b <= e && m'[b] == FreeHeader(e - b)
    requires forall i :: 0 <= i < |m| && i != b && !(p <= i < q) ==> m'[i] == m[i]
    ensures Returned(m, m', r, p, q, Relinked(fl, i, p, MergesBefore(m, p, fl, i), MergesAfter(q, fl, i)), b)
  {
    hide FreeList, Starts, FreeSize, Tidy, Tiled, EndsFree;
    MergeConditions(m, r, p, q, fl);
    assert Covered(m, m', r, p, q, b, e);
    CoveredCluster(m, m', r, p, q, b, e);
    var xs, ys := FreeList(m, r.lo, p), FreeList(m, q, r.hi);
    var before, after := MergesBefore(m, p, fl, i), MergesAfter(q, fl, i);
    RelinkedShape(xs, ys, p, before, after);
    assert FreeList(m', r.lo, b) + [b] == if before then xs else xs + [p];
    assert FreeList(m', e, r.hi) == if after then ys[1..] else ys;
  }

  class Heap {
    const mem: array<Cell>
    const clusters: seq<Range>
    var freeLists: seq<seq<int>>

    constructor (mem: array<Cell>, clusters: seq<Range>, freeLists: seq<seq<int>>)
      ensures this.mem == mem && this.clusters == clusters && this.freeLists == freeLists
    {
      this.mem, this.clusters, this.freeLists := mem, clusters, freeLists;
    }

    ghost predicate Shaped()
      reads this
    {
      |freeLists| == |clusters|
    }

    /** Every cluster is tiled, coalesced, and has the right free list. */
    ghost predicate Valid()
      reads this, mem
    {
      Spaced(clusters) && ClustersOk(mem[..], clusters, freeLists)
    }

    /** Position of the first list element above `node`: where InsertInOrder links it. */
    static method Position(fl: seq<int>, node: int, ghost n: nat) returns (i: nat)
      requires n <= |fl| && (forall k :: 0 <= k < n ==> fl[k] < node) && (forall k :: n <= k < |fl| ==> node < fl[k])
      ensures i == n
    {
      i := 0;
      while i < |fl| && !(fl[i] > node)
        invariant i <= n
      {
        i := i + 1;
      }
    }

    /** The linking half of InsertInOrder: put `node` at position i of the list and let it take in the
        free block after it and the one before it. */
    method LinkAndMerge(c: nat, i: nat, node: int, size: nat) returns (start: int)
      requires Shaped() && c < |clusters| && i <= |freeLists[c]| && 0 <= node < mem.Length
      requires forall k :: 0 <= k < |freeLists[c]| ==> 0 <= freeLists[c][k] < mem.Length && freeLists[c][k] != node
      modifies this`freeLists, mem
      ensures var m, fl := old(mem[..]), old(freeLists[c]);
        var before, after := MergesBefore(m, node, fl, i), MergesAfter(node + size, fl, i);
        && start == (if before then fl[i - 1] else node)
        && mem[..] == m[node := m[node].(data := Raw(0))]
                       [start := FreeHeader(size + (if after then m[fl[i]].size else 0)
                                           + (if before then m[start].size else 0))]
        && freeLists == old(freeLists)[c := Relinked(fl, i, node, before, after)]
    {
      var fl := freeLists[c];
      var total := size;
      start := node;
      mem[node] := mem[node].(data := Raw(0));
      fl := Inserted(fl, i, node);
      if i + 1 < |fl| && node + size == fl[i + 1] {
        total := total + mem[fl[i + 1]].size;
        fl := Without(fl, i + 1);
      }
      if i > 0 && fl[i - 1] + mem[fl[i - 1]].size == node {
        start := fl[i - 1];
        total := total + mem[start].size;
        fl := Without(fl, i);
      }
      mem[start] := FreeHeader(total);
      freeLists := freeLists[c := fl];
    }

    method InsertInOrder(c: nat, node: int, size: nat) returns (res: int)
      requires Shaped() && c < |clusters| && 1 <= size
      requires HoleOk(mem[..], clusters[c], node, node + size, freeLists[c])
      modifies this`freeLists, mem
      ensures Shaped() && freeLists == old(freeLists)[c := freeLists[c]]
      ensures Returned(old(mem[..]), mem[..], clusters[c], node, node + size, freeLists[c], res)
    {
      hide FreeList, Starts, FreeSize, Tidy, EndsFree, Relinked;
      ghost var m, r, fl := mem[..], clusters[c], freeLists[c];
      HoleOrder(m, r, node, node + size, fl);
      var i := Position(freeLists[c], node, |FreeList(m, r.lo, node)|);
      res := LinkAndMerge(c, i, node, size);
      ghost var e := if MergesAfter(node + size, fl, i) then node + size + m[node + size].size else node + size;
      InsertDone(m, mem[..], r, node, node + size, fl, i, res, e);
    }
  }
}
