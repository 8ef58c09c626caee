/** Heap_Relocate: once a batch of regions is full, every pointer in the heap and in the roots is
    taken through it. */
module RelocationPass {
  import opened HeapBlocks
  import opened ClusterInvariant
  import opened HeapCluster
  import opened Relocation
  import opened CompactionSpec

  /** m' holds the blocks of m between p and q, pointers patched, free blocks untouched. */
  ghost predicate PatchedRun(m: Memory, m': Memory, rs: seq<Region>, p: int, q: int)
  {
    |m'| == |m| && forall a :: a in Starts(m, p, q) ==>
      if IsFree(m[a]) then m'[a] == m[a]
      else m'[a..a + m[a].size] == PatchCells(rs, m[a..a + m[a].size])
  }

  /** The whole heap after one pass. */
  ghost predicate Patched(m: Memory, m': Memory, cl: seq<Range>, rs: seq<Region>)
  {
    && |m'| == |m|
    && (forall c :: 0 <= c < |cl| ==> SameBlocks(m, m', cl[c].lo, cl[c].hi))
    && (forall a :: a in Blocks(m, cl) ==> m'[a..a + m[a].size] == PatchCells(rs, m[a..a + m[a].size]))
  }

  lemma PatchedHeader(m: Memory, m': Memory, rs: seq<Region>, a: int)
    requires 0 <= a < |m| == |m'| && 0 < m[a].size && a + m[a].size <= |m|
    requires m'[a..a + m[a].size] == PatchCells(rs, m[a..a + m[a].size])
    ensures m'[a] == PatchCell(rs, m[a])
  {
    assert m'[a] == m'[a..a + m[a].size][0];
    assert m[a] == m[a..a + m[a].size][0];
  }

  lemma PatchedRunSame(m: Memory, m': Memory, rs: seq<Region>, p: int, q: int)
    requires Tiled(m, p, q) && PatchedRun(m, m', rs, p, q)
    ensures SameBlocks(m, m', p, q)
  {
    hide Starts, Tiled;
    TiledBounds(m, p, q);
    forall a | a in Starts(m, p, q)
      ensures m'[a].size == m[a].size && IsFree(m'[a]) == IsFree(m[a]) && m'[a].flags == m[a].flags
    {
      if !IsFree(m[a]) { PatchedHeader(m, m', rs, a); }
    }
    Frame(m, m', p, q);
  }

  lemma PatchedRunEmpty(m: Memory, rs: seq<Region>, p: int)
    ensures PatchedRun(m, m, rs, p, p)
  {
  }

  lemma PatchedRunExtend(m: Memory, m1: Memory, m2: Memory, rs: seq<Region>, p: int, q: int)
    requires Tiled(m, p, q) && Fits(m, q, |m|) && PatchedRun(m, m1, rs, p, q)
    requires Unchanged(m1, m2, p, q)
    requires if IsFree(m[q]) then m2[q] == m[q] else m2[q..q + m[q].size] == PatchCells(rs, m[q..q + m[q].size])
    ensures Tiled(m, p, q + m[q].size) && PatchedRun(m, m2, rs, p, q + m[q].size)
  {
    hide Starts;
    OneBlock(m, q, q + m[q].size);
    Join(m, p, q, q + m[q].size);
    forall a | a in Starts(m, p, q)
      ensures if IsFree(m[a]) then m2[a] == m[a] else m2[a..a + m[a].size] == PatchCells(rs, m[a..a + m[a].size])
    {
      assert m2[a..a + m[a].size] == m1[a..a + m[a].size];
    }
  }

  /** A block's relocation handler takes each of its pointers through the batch. */
  method RelocateCells(mem: array<Cell>, ptr: int, n: nat, rs: seq<Region>, minimum: int, maximum: int)
    requires Ordered(rs) && forall i :: 0 <= i < |rs| ==> minimum <= rs[i].start && rs[i].end <= maximum
    requires 0 <= ptr && ptr + n <= mem.Length
    modifies mem
    ensures mem[..][ptr..ptr + n] == PatchCells(rs, old(mem[..])[ptr..ptr + n])
    ensures forall i :: 0 <= i < mem.Length && !(ptr <= i < ptr + n) ==> mem[..][i] == old(mem[..])[i]
  {
    ghost var m := mem[..];
    var i := ptr;
    while i < ptr + n
      invariant ptr <= i <= ptr + n
      invariant forall k :: ptr <= k < i ==> mem[k] == PatchCell(rs, m[k])
      invariant forall k :: 0 <= k < mem.Length && !(ptr <= k < i) ==> mem[k] == m[k]
    {
      match mem[i].data {
        case Ref(p) =>
          var p' := RelocatePointer(rs, minimum, maximum, p);
          mem[i] := mem[i].(data := Ref(p'));
        case Raw(_) =>
      }
      i := i + 1;
    }
    assert mem[..][ptr..ptr + n] == PatchCells(rs, m[ptr..ptr + n]);
  }

  method RelocateCluster(h: Heap, c: nat, rs: seq<Region>, minimum: int, maximum: int)
    requires Ordered(rs) && forall i :: 0 <= i < |rs| ==> minimum <= rs[i].start && rs[i].end <= maximum
    requires c < |h.clusters| && Tiled(h.mem[..], h.clusters[c].lo, h.clusters[c].hi)
    modifies h.mem
    ensures PatchedRun(old(h.mem[..]), h.mem[..], rs, h.clusters[c].lo, h.clusters[c].hi)
    ensures OnlyInside(old(h.mem[..]), h.mem[..], h.clusters[c])
  {
    hide Starts, PatchedRun;
    ghost var m := h.mem[..];
    var lo, end := h.clusters[c].lo, h.clusters[c].hi;
    var ptr := lo;
    PatchedRunEmpty(m, rs, lo);
    while ptr < end
      invariant Tiled(m, lo, ptr) && Tiled(m, ptr, end)
      invariant PatchedRun(m, h.mem[..], rs, lo, ptr)
      invariant OnlyInside(m, h.mem[..], Range(lo, ptr))
    {
      ghost var m1 := h.mem[..];
      var size := h.mem[ptr].size;
      assert h.mem[ptr] == m[ptr];
      if !IsFree(h.mem[ptr]) {
        RelocateCells(h.mem, ptr, size, rs, minimum, maximum);
        assert m1[ptr..ptr + size] == m[ptr..ptr + size];
      }
      PatchedRunExtend(m, m1, h.mem[..], rs, lo, ptr);
      ptr := ptr + size;
    }
  }

  /** The collector's relocation state: the batch being filled and the roots outside the heap. */
  class Relocator {
    const heap: Heap
    const relocTotal: nat
    var relocBlocks: seq<Region>
    var roots: seq<Data>

    /** Heap_Relocate_Prepare. */
    constructor (heap: Heap, relocTotal: nat, roots: seq<Data>)
      ensures this.heap == heap && this.relocTotal == relocTotal && this.roots == roots && relocBlocks == []
    {
      this.heap, this.relocTotal, this.roots, relocBlocks := heap, relocTotal, roots, [];
    }

    /** Heap_Relocate with its pass over all clusters and over the execution engine's own pointers. */
    method HeapRelocate()
      requires heap.Valid() && Ordered(relocBlocks)
      modifies this`relocBlocks, this`roots, heap.mem
      ensures heap.Valid() && relocBlocks == []
      ensures Patched(old(heap.mem[..]), heap.mem[..], heap.clusters, old(relocBlocks))
      ensures roots == PatchRoots(old(relocBlocks), old(roots))
    {
      var rs := relocBlocks;
      if |rs| > 0 {
        var minimum, maximum := Bounds(rs);
        RelocateClusters(heap, rs, minimum, maximum);
        roots := RelocateRoots(roots, rs, minimum, maximum);
        relocBlocks := [];
      } else {
        PatchedByNothing(heap.mem[..], heap.clusters, heap.freeLists);
        assert PatchRoots([], roots) == roots;
      }
    }

    /** Heap_Relocate_AddBlock: the region goes before the first one that starts above it; a full batch is
        flushed. */
    method AddBlock(dst: int, src: int, length: nat) returns (ghost rs: seq<Region>)
      requires heap.Valid() && Ordered(relocBlocks) && length > 0 && |relocBlocks| < relocTotal
      requires forall k :: 0 <= k < |relocBlocks| ==>
        src + length <= relocBlocks[k].start || relocBlocks[k].end <= src
      modifies this`relocBlocks, this`roots, heap.mem
      ensures heap.Valid() && Ordered(rs) && |relocBlocks| < relocTotal
      ensures |rs| == |old(relocBlocks)| + 1
      ensures forall p ::
        Reloc(rs, p) == if src <= p < src + length then p + (dst - src) else Reloc(old(relocBlocks), p)
      ensures if |rs| < relocTotal then relocBlocks == rs && heap.mem[..] == old(heap.mem[..]) && roots == old(roots)
              else relocBlocks == [] && Patched(old(heap.mem[..]), heap.mem[..], heap.clusters, rs)
                   && roots == PatchRoots(rs, old(roots))
    {
      hide Reloc, Patched, PatchRoots;
      ghost var i;
      relocBlocks, i := Relocation.AddBlock(relocBlocks, dst, src, length);
      rs := relocBlocks;
      if |relocBlocks| == relocTotal { HeapRelocate(); }
    }
  }

  function PatchData(rs: seq<Region>, d: Data): (d': Data)
  {
    match d case Ref(p) => Ref(Reloc(rs, p)) case Raw(_) => d
  }

  function PatchRoots(rs: seq<Region>, roots: seq<Data>): (roots': seq<Data>)
    ensures |roots'| == |roots|
    ensures forall i :: 0 <= i < |roots| ==> roots'[i] == PatchData(rs, roots[i])
  {
    seq(|roots|, i requires 0 <= i < |roots| => PatchData(rs, roots[i]))
  }

  method RelocateRoots(roots: seq<Data>, rs: seq<Region>, minimum: int, maximum: int) returns (rts: seq<Data>)
    requires Ordered(rs) && forall i :: 0 <= i < |rs| ==> minimum <= rs[i].start && rs[i].end <= maximum
    ensures rts == PatchRoots(rs, roots)
  {
    rts := [];
    for i := 0 to |roots|
      invariant rts == PatchRoots(rs, roots[..i])
    {
      var d := roots[i];
      if d.Ref? {
        var p := RelocatePointer(rs, minimum, maximum, d.ptr);
        d := Ref(p);
      }
      rts := rts + [d];
      assert roots[..i + 1] == roots[..i] + [roots[i]];
    }
    assert roots[..|roots|] == roots;
  }

  lemma PatchedByNothing(m: Memory, cl: seq<Range>, fls: seq<seq<int>>)
    requires ClustersOk(m, cl, fls)
    ensures Patched(m, m, cl, [])
  {
    hide Starts;
    forall a | a in Blocks(m, cl) ensures m[a..a + m[a].size] == PatchCells([], m[a..a + m[a].size]) {
      BlockInside(m, cl, a);
    }
  }

  /** What the pass has done to the clusters below c. */
  ghost predicate PatchedBelow(m: Memory, m': Memory, cl: seq<Range>, rs: seq<Region>, c: nat)
  {
    && |m'| == |m|
    && (forall d :: 0 <= d < c && d < |cl| ==> PatchedRun(m, m', rs, cl[d].lo, cl[d].hi))
    && (forall d :: c <= d < |cl| ==> Unchanged(m, m', cl[d].lo, cl[d].hi))
  }

  lemma PatchedBelowStep(m: Memory, m1: Memory, m2: Memory, cl: seq<Range>, rs: seq<Region>, c: nat)
    requires Spaced(cl) && c < |cl| && PatchedBelow(m, m1, cl, rs, c)
    requires Tiled(m, cl[c].lo, cl[c].hi) && Unchanged(m, m1, cl[c].lo, cl[c].hi)
    requires PatchedRun(m1, m2, rs, cl[c].lo, cl[c].hi) && OnlyInside(m1, m2, cl[c])
    ensures PatchedBelow(m, m2, cl, rs, c + 1)
  {
    hide Starts, PatchedRun;
    forall d | 0 <= d < c ensures PatchedRun(m, m2, rs, cl[d].lo, cl[d].hi) {
      assert cl[d].hi < cl[c].lo;
      PatchedRunFrame(m, m1, m2, rs, cl[d].lo, cl[d].hi);
    }
    forall d | c < d < |cl| ensures Unchanged(m, m2, cl[d].lo, cl[d].hi) { assert cl[c].hi < cl[d].lo; }
    PatchedRunTransfer(m, m1, m2, rs, cl[c].lo, cl[c].hi);
  }

  lemma PatchedRunFrame(m: Memory, m1: Memory, m2: Memory, rs: seq<Region>, p: int, q: int)
    requires PatchedRun(m, m1, rs, p, q) && Unchanged(m1, m2, p, q)
    ensures PatchedRun(m, m2, rs, p, q)
  {
    hide Starts;
    forall a | a in Starts(m, p, q)
      ensures m2[a] == m1[a] && m2[a..a + m[a].size] == m1[a..a + m[a].size] {}
  }

  lemma PatchedRunTransfer(m: Memory, m1: Memory, m2: Memory, rs: seq<Region>, p: int, q: int)
    requires Tiled(m, p, q) && Unchanged(m, m1, p, q) && PatchedRun(m1, m2, rs, p, q)
    ensures PatchedRun(m, m2, rs, p, q)
  {
    FrameUnchanged(m, m1, p, q);
    hide Starts, Tiled;
    forall a | a in Starts(m, p, q)
      ensures m1[a] == m[a] && m1[a..a + m[a].size] == m[a..a + m[a].size] {}
  }

  lemma PatchedAll(m: Memory, m': Memory, cl: seq<Range>, rs: seq<Region>, fls: seq<seq<int>>)
    requires ClustersOk(m, cl, fls) && PatchedBelow(m, m', cl, rs, |cl|)
    ensures Patched(m, m', cl, rs) && ClustersOk(m', cl, fls)
  {
    hide Starts, Tiled, Tidy, FreeList;
    forall c | 0 <= c < |cl| ensures SameBlocks(m, m', cl[c].lo, cl[c].hi) && ClusterOk(m', cl[c], fls[c]) {
      assert ClusterOk(m, cl[c], fls[c]);
      PatchedRunSame(m, m', rs, cl[c].lo, cl[c].hi);
    }
  }

  method RelocateClusters(h: Heap, rs: seq<Region>, minimum: int, maximum: int)
    requires h.Valid() && Ordered(rs)
    requires forall i :: 0 <= i < |rs| ==> minimum <= rs[i].start && rs[i].end <= maximum
    modifies h.mem
    ensures h.Valid() && Patched(old(h.mem[..]), h.mem[..], h.clusters, rs)
  {
    hide Starts, Tidy, FreeList, PatchedRun;
    ghost var m := h.mem[..];
    for c := 0 to |h.clusters|
      invariant PatchedBelow(m, h.mem[..], h.clusters, rs, c)
    {
      ghost var m1, r := h.mem[..], h.clusters[c];
      assert ClusterOk(m, r, h.freeLists[c]);
      FrameUnchanged(m, m1, r.lo, r.hi);
      RelocateCluster(h, c, rs, minimum, maximum);
      PatchedBelowStep(m, m1, h.mem[..], h.clusters, rs, c);
    }
    PatchedAll(m, h.mem[..], h.clusters, rs, h.freeLists);
  }

  lemma PatchTwice(all: seq<Region>, a: seq<Region>, b: seq<Region>, cells: seq<Cell>)
    requires all == a + b && Ordered(all) && Downward(a)
    ensures PatchCells(b, PatchCells(a, cells)) == PatchCells(all, cells)
  {
    forall i | 0 <= i < |cells| ensures PatchCell(b, PatchCell(a, cells[i])) == PatchCell(all, cells[i]) {
      match cells[i].data {
        case Ref(p) => RelocCompose(a, b, p);
        case Raw(_) =>
      }
    }
  }

  /** Flushing a batch brings every pointer up to date with every move so far. */
  lemma PreservedFlush(m0: Memory, m: Memory, m': Memory, cl: seq<Range>, all: seq<Region>,
                       flushed: seq<Region>, pending: seq<Region>, origin: map<int, int>)
    requires Preserved(m0, m, cl, all, flushed, origin)
    requires all == flushed + pending && Ordered(all) && Downward(flushed)
    requires Patched(m, m', cl, pending)
    ensures Preserved(m0, m', cl, all, all, origin)
  {
    hide Starts, Tiled, Tidy, FreeList;
    assert Blocks(m', cl) == Blocks(m, cl);
    forall a | a in Blocks(m0, cl) ensures Kept(m0, m', all, all, a) {
      BlockInside(m0, cl, a);
      KeptHeader(m0, m, all, flushed, a);
      var b, n := Reloc(all, a), m0[a].size;
      assert m'[b..b + n] == PatchCells(pending, m[b..b + n]);
      PatchTwice(all, flushed, pending, m0[a..a + n]);
    }
  }
}
