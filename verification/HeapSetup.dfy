/** How the heap comes into being: memory is divided into clusters in address order, and each cluster
    starts as a single free block. */
module HeapSetup {
  import opened HeapBlocks
  import opened ClusterInvariant
  import opened HeapCluster
  import opened Sweep

  /** The whole blocks that fit behind a cluster's record. */
  function PayloadBytes(size: int, recordBytes: int): (n: int)
    requires recordBytes <= size
    ensures size - recordBytes - BLOCK_BYTES < n <= size - recordBytes && n % BLOCK_BYTES == 0 && 0 <= n
  {
    (size - recordBytes) / BLOCK_BYTES * BLOCK_BYTES
  }

  /** A payload is a whole number of blocks. */
  predicate WholeBlocks(r: Range) { (r.hi - r.lo) % BLOCK_BYTES == 0 }

  /** The region [location, end) cut into clusters: each takes clusterBytes, the last what remains, and each is
      its record followed by all whole blocks that fit. */
  ghost predicate Cut(cl: seq<Range>, location: int, end: int, recordBytes: int, clusterBytes: int)
  {
    forall c :: 0 <= c < |cl| ==>
      var start := location + c * clusterBytes;
      && cl[c].lo == start + recordBytes && WholeBlocks(cl[c])
      && var left := (if c < |cl| - 1 then start + clusterBytes else end) - cl[c].hi; 0 <= left < BLOCK_BYTES
  }

  /** One more cluster of clusterBytes or less behind clusters of clusterBytes. */
  lemma CutNext(cl: seq<Range>, location: int, recordBytes: int, clusterBytes: int, size: int)
    requires Cut(cl, location, location + |cl| * clusterBytes, recordBytes, clusterBytes)
    requires recordBytes <= size <= clusterBytes
    ensures var start := location + |cl| * clusterBytes;
      var r := Range(start + recordBytes, start + recordBytes + PayloadBytes(size, recordBytes));
      Cut(cl + [r], location, start + size, recordBytes, clusterBytes)
  {
    hide PayloadBytes;
    var end := location + |cl| * clusterBytes;
    var r := Range(end + recordBytes, end + recordBytes + PayloadBytes(size, recordBytes));
    var all := cl + [r];
    forall c | 0 <= c < |all|
      ensures var start := location + c * clusterBytes;
        && all[c].lo == start + recordBytes && WholeBlocks(all[c])
        && var left := (if c < |all| - 1 then start + clusterBytes else end + size) - all[c].hi; 0 <= left < BLOCK_BYTES
    {
      if c == |cl| - 1 { NextCluster(location, c, clusterBytes); }
    }
  }

  lemma NextCluster(location: int, c: int, clusterBytes: int)
    ensures location + c * clusterBytes + clusterBytes == location + (c + 1) * clusterBytes
  {
  }

  /** Clusters come out in address order, separated by their records. */
  lemma CutSpaced(cl: seq<Range>, location: int, end: int, recordBytes: int, clusterBytes: int)
    requires Cut(cl, location, end, recordBytes, clusterBytes) && 0 <= location && 0 < recordBytes < clusterBytes
    requires cl != [] ==> location + (|cl| - 1) * clusterBytes + recordBytes < end
    ensures Spaced(cl)
  {
    forall c | 0 <= c < |cl| ensures 0 < cl[c].lo <= cl[c].hi { StartsApart(0, c, clusterBytes); }
    forall c, d | 0 <= c < d < |cl| ensures cl[c].hi < cl[d].lo { StartsApart(c, d, clusterBytes); }
  }

  lemma {:induction false} StartsApart(c: int, d: int, clusterBytes: int)
    requires c <= d && 0 < clusterBytes
    ensures c * clusterBytes <= d * clusterBytes && (c < d ==> c * clusterBytes + clusterBytes <= d * clusterBytes)
    decreases d - c
  {
    if c < d {
      NextCluster(0, d - 1, clusterBytes);
      StartsApart(c, d - 1, clusterBytes);
    }
  }

  /** AllocateHeaps, in byte addresses: the payload limits of the clusters, in the order they are linked.
      None for a region too small to hold a cluster's own record; what is left over at the end holds no more
      than a record. */
  method AllocateHeaps(location: int, bytes: nat, recordBytes: nat, clusterBytes: nat) returns (cl: seq<Range>)
    requires 0 <= location && 0 < recordBytes < clusterBytes
    ensures cl == [] <==> bytes <= recordBytes
    ensures Spaced(cl)
    ensures var taken := if bytes <= |cl| * clusterBytes then bytes else |cl| * clusterBytes;
      Cut(cl, location, location + taken, recordBytes, clusterBytes) && bytes - taken <= recordBytes
    ensures cl != [] ==> (|cl| - 1) * clusterBytes + recordBytes < bytes
  {
    hide PayloadBytes, Cut;
    cl := [];
    var firstFree, free := location, bytes;
    CutNothing(location, recordBytes, clusterBytes);
    while free > recordBytes
      invariant firstFree + free == location + bytes && 0 <= free
      invariant free > 0 ==> firstFree == location + |cl| * clusterBytes
      invariant free == 0 ==> bytes <= |cl| * clusterBytes
      invariant (cl == [] <==> free == bytes) && (cl != [] ==> (|cl| - 1) * clusterBytes + recordBytes < bytes)
      invariant Cut(cl, location, firstFree, recordBytes, clusterBytes)
    {
      var size := if free < clusterBytes then free else clusterBytes;
      CutNext(cl, location, recordBytes, clusterBytes, size);
      NextCluster(location, |cl|, clusterBytes);
      cl := cl + [Range(firstFree + recordBytes, firstFree + recordBytes + PayloadBytes(size, recordBytes))];
      firstFree, free := firstFree + size, free - size;
    }
    if cl != [] { NextCluster(location, |cl| - 1, clusterBytes); }
    CutSpaced(cl, location, firstFree, recordBytes, clusterBytes);
  }

  lemma CutNothing(location: int, recordBytes: int, clusterBytes: int)
    ensures Cut([], location, location, recordBytes, clusterBytes)
  {
  }

  /** Memory cut into free blocks of one cell, as initialization leaves it. */
  ghost predicate AllUnits(m: Memory, p: int, q: int)
  {
    0 <= p <= q <= |m| && forall i :: p <= i < q ==> IsFree(m[i]) && m[i].size == 1 && !m[i].flags.alive
  }

  lemma {:induction false} UnitsTiled(m: Memory, p: int, q: int)
    requires AllUnits(m, p, q)
    ensures Tiled(m, p, q) && Alive(m, p, q) == {} && AliveSize(m, p, q) == 0
    decreases q - p
  {
    if p < q { UnitsTiled(m, p + 1, q); }
  }

  /** HeapCluster_Initialize without anything to salvage: the cluster becomes one free block. */
  method InitializeCluster(h: Heap, c: nat)
    requires c < |h.clusters| == |h.freeLists| && 0 <= h.clusters[c].lo <= h.clusters[c].hi <= h.mem.Length
    modifies h`freeLists, h.mem
    ensures |h.freeLists| == |h.clusters| && h.freeLists == old(h.freeLists)[c := h.freeLists[c]]
    ensures OnlyInside(old(h.mem[..]), h.mem[..], h.clusters[c])
    ensures ClusterOk(h.mem[..], h.clusters[c], h.freeLists[c])
    ensures h.freeLists[c] == if h.clusters[c].lo == h.clusters[c].hi then [] else [h.clusters[c].lo]
    ensures FreeSize(h.mem[..], h.clusters[c].lo, h.clusters[c].hi) == h.clusters[c].hi - h.clusters[c].lo
  {
    hide Starts, Tiled, Tidy, FreeList, FreeSize, EndsFree, Alive, AliveSize, Recovered, Live, FreeUnmarked;
    ghost var m0 := h.mem[..];
    var ptr, end := h.clusters[c].lo, h.clusters[c].hi;
    while ptr < end
      invariant h.clusters[c].lo <= ptr <= end && h.freeLists == old(h.freeLists)
      invariant AllUnits(h.mem[..], h.clusters[c].lo, ptr)
      invariant forall i :: 0 <= i < h.mem.Length && !(h.clusters[c].lo <= i < ptr) ==> h.mem[i] == m0[i]
    {
      h.mem[ptr] := Cell(FreeBlock, Flags(false, false, false), 1, h.mem[ptr].data);
      ptr := ptr + 1;
    }
    ghost var m := h.mem[..];
    UnitsTiled(m, h.clusters[c].lo, end);
    UnitsUnmarked(m, h.clusters[c].lo, end);
    RecoverFromGC(h, c);
    NothingAlive(m, h.mem[..], h.clusters[c].lo, end);
  }

  lemma UnitsUnmarked(m: Memory, p: int, q: int)
    requires AllUnits(m, p, q)
    ensures FreeUnmarked(m, p, q)
  {
  }

  /** A coalesced stretch without live blocks is at most one free block. */
  lemma NothingAlive(m: Memory, m': Memory, p: int, q: int)
    requires Recovered(m, m', p, q) && Alive(m, p, q) == {} && AliveSize(m, p, q) == 0
    ensures FreeSize(m', p, q) == q - p && FreeList(m', p, q) == if p == q then [] else [p]
  {
    if p < q {
      var n := p + m'[p].size;
      assert p in Starts(m', p, q) && p !in Live(m', p, q);
      assert IsFree(m'[p]);
      assert Starts(m', p, q) == {p} + Starts(m', n, q);
      NextStart(m', n, q);
      assert n < q ==> n in Live(m', p, q);
      assert FreeList(m', n, q) == [];
    }
  }
}
