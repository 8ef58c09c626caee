/** CLR_RT_HeapCluster::RecoverFromGC: rebuild a cluster's free list from the alive flags. */
module Sweep {
  import opened HeapBlocks
  import opened ClusterInvariant
  import opened HeapCluster

  /** The blocks marked alive. */
  ghost function Alive(m: Memory, p: int, q: int): (s: set<int>)
  {
    set a | a in Starts(m, p, q) && m[a].flags.alive
  }

  /** Number of cells in blocks marked alive. */
  ghost function AliveSize(m: Memory, p: int, q: int): (n: nat)
    decreases q - p
  {
    if Fits(m, p, q) then (if m[p].flags.alive then m[p].size else 0) + AliveSize(m, p + m[p].size, q) else 0
  }

  /** A surviving header: events keep their mark, everything else loses it. */
  function Unmarked(c: Cell): (c': Cell)
  {
    if c.flags.event then c else c.(flags := c.flags.(alive := false))
  }

  /** Free blocks are never marked. */
  ghost predicate FreeUnmarked(m: Memory, p: int, q: int)
  {
    forall a :: a in Starts(m, p, q) && IsFree(m[a]) ==> !m[a].flags.alive
  }

  /** Blocks of m between p and q after the sweep: the alive ones, in place and intact, and nothing else. */
  ghost predicate Recovered(m: Memory, m': Memory, p: int, q: int)
  {
    && |m'| == |m| && Tiled(m', p, q) && Tidy(m', p, q)
    && Live(m', p, q) == Alive(m, p, q)
    && (forall a :: a in Alive(m, p, q) ==> m'[a] == Unmarked(m[a]) && Unchanged(m, m', a + 1, a + m[a].size))
    && FreeSize(m', p, q) + AliveSize(m, p, q) == q - p
    && Starts(m', p, q) <= Starts(m, p, q)
    && (forall i :: p <= i < q && 0 <= i < |m| && i !in Starts(m, p, q) ==> m'[i] == m[i])
  }

  lemma RecoveredEmpty(m: Memory, p: int)
    requires 0 <= p <= |m|
    ensures Recovered(m, m, p, p) && FreeList(m, p, p) == [] && !EndsFree(m, p, p)
  {
  }

  lemma AliveJoin(m: Memory, p: int, q: int, r: int)
    requires Tiled(m, p, q) && Tiled(m, q, r)
    ensures Tiled(m, p, r) && Alive(m, p, r) == Alive(m, p, q) + Alive(m, q, r)
  {
    hide Starts, Tiled;
    Join(m, p, q, r);
  }

  lemma {:induction false} AliveSizeJoin(m: Memory, p: int, q: int, r: int)
    requires Tiled(m, p, q) && Tiled(m, q, r)
    ensures AliveSize(m, p, r) == AliveSize(m, p, q) + AliveSize(m, q, r)
    decreases q - p
  {
    if p < q {
      Join(m, p, q, r);
      AliveSizeJoin(m, p + m[p].size, q, r);
    }
  }

  /** Two recovered stretches side by side. */
  lemma RecoveredJoin(m: Memory, m1: Memory, m': Memory, p: int, q: int, r: int)
    requires Tiled(m, p, q) && Tiled(m, q, r) && Recovered(m, m1, p, q)
    requires Unchanged(m1, m', p, q) && Recovered(m, m', q, r)
    requires !(EndsFree(m1, p, q) && BeginsFree(m', q, r))
    ensures Recovered(m, m', p, r) && EndsFree(m', p, r) == (if q < r then EndsFree(m', q, r) else EndsFree(m1, p, q))
    ensures FreeList(m', p, r) == FreeList(m1, p, q) + FreeList(m', q, r)
  {
    hide Starts, Tiled, Tidy, FreeList, FreeSize, EndsFree, AliveSize;
    TiledBounds(m1, p, q);
    FrameUnchanged(m1, m', p, q);
    Join(m, p, q, r);
    AliveJoin(m, p, q, r);
    AliveSizeJoin(m, p, q, r);
    Join(m', p, q, r);
    JoinTidy(m', p, q, r);
    JoinList(m', p, q, r);
    forall a | a in Alive(m, p, q) ensures m'[a] == m1[a] && Unchanged(m1, m', a + 1, a + m[a].size) {}
  }

  /** A block that stays. */
  lemma RecoveredAlive(m: Memory, m': Memory, p: int)
    requires Fits(m, p, |m|) && m[p].flags.alive && !IsFree(m[p])
    requires |m'| == |m| && m'[p] == Unmarked(m[p]) && Unchanged(m, m', p + 1, p + m[p].size)
    ensures Tiled(m, p, p + m[p].size) && Recovered(m, m', p, p + m[p].size)
    ensures !EndsFree(m', p, p + m[p].size) && !BeginsFree(m', p, p + m[p].size) && FreeList(m', p, p + m[p].size) == []
  {
    var q := p + m[p].size;
    OneBlock(m, p, q);
    OneBlock(m', p, q);
    assert AliveSize(m, q, q) == 0;
  }

  /** A run of dead blocks that becomes one free block. */
  lemma RecoveredDead(m: Memory, m': Memory, p: int, q: int)
    requires Tiled(m, p, q) && p < q && Alive(m, p, q) == {} && AliveSize(m, p, q) == 0
    requires |m'| == |m| && m'[p] == m[p].(dt := FreeBlock, flags := PINNED_ONLY, size := q - p)
    requires Unchanged(m, m', p + 1, q)
    ensures Recovered(m, m', p, q) && EndsFree(m', p, q) && BeginsFree(m', p, q) && FreeList(m', p, q) == [p]
  {
    TiledBounds(m, p, q);
    OneBlock(m', p, q);
  }

  lemma {:induction false} DeadExtend(m: Memory, p: int, q: int)
    requires Tiled(m, p, q) && Alive(m, p, q) == {} && AliveSize(m, p, q) == 0
    requires Fits(m, q, |m|) && !m[q].flags.alive
    ensures Tiled(m, p, q + m[q].size) && Alive(m, p, q + m[q].size) == {} && AliveSize(m, p, q + m[q].size) == 0
  {
    hide Starts;
    var r := q + m[q].size;
    OneBlock(m, q, r);
    AliveJoin(m, p, q, r);
    AliveSizeJoin(m, p, q, r);
    assert AliveSize(m, r, r) == 0;
  }

  /** The maximal run of dead blocks at ptr. */
  method DeadRun(mem: array<Cell>, ptr: int, end: int) returns (next: int)
    requires Tiled(mem[..], ptr, end) && ptr < end && 0 <= ptr < mem.Length && !mem[ptr].flags.alive
    ensures ptr < next <= end && Tiled(mem[..], ptr, next) && Tiled(mem[..], next, end)
    ensures Alive(mem[..], ptr, next) == {} && AliveSize(mem[..], ptr, next) == 0
    ensures next < end ==> 0 <= next < mem.Length && mem[next].flags.alive
  {
    hide Starts, AliveSize;
    ghost var m := mem[..];
    TiledBounds(m, ptr, end);
    EmptyRun(m, ptr);
    next := ptr;
    while next < end && (assert next < mem.Length; !mem[next].flags.alive)
      invariant ptr <= next <= end && Tiled(m, ptr, next) && Tiled(m, next, end)
      invariant Alive(m, ptr, next) == {} && AliveSize(m, ptr, next) == 0
    {
      DeadExtend(m, ptr, next);
      next := next + mem[next].size;
    }
  }

  lemma EmptyRun(m: Memory, p: int)
    requires 0 <= p <= |m|
    ensures Tiled(m, p, p) && Alive(m, p, p) == {} && AliveSize(m, p, p) == 0
  {
  }

  /** Rebuild cluster c.  Nothing is asked of the old free list, nor that dead blocks are coalesced. */
  method RecoverFromGC(h: Heap, c: nat)
    requires c < |h.clusters| == |h.freeLists|
    requires Tiled(h.mem[..], h.clusters[c].lo, h.clusters[c].hi)
    requires FreeUnmarked(h.mem[..], h.clusters[c].lo, h.clusters[c].hi)
    modifies h`freeLists, h.mem
    ensures |h.freeLists| == |h.clusters|
    ensures h.freeLists == old(h.freeLists)[c := h.freeLists[c]] && OnlyInside(old(h.mem[..]), h.mem[..], h.clusters[c])
    ensures ClusterOk(h.mem[..], h.clusters[c], h.freeLists[c])
    ensures Recovered(old(h.mem[..]), h.mem[..], h.clusters[c].lo, h.clusters[c].hi)
  {
    hide Starts, Tiled, Tidy, FreeList, FreeSize, EndsFree, Alive, AliveSize, Recovered, Live, Unmarked, FreeUnmarked;
    ghost var m, r := h.mem[..], h.clusters[c];
    var ptr, end := h.clusters[c].lo, h.clusters[c].hi;
    var fl: seq<int> := [];
    TiledBounds(m, ptr, end);
    RecoveredEmpty(m, ptr);
    while ptr < end
      invariant r.lo <= ptr <= end && Tiled(m, r.lo, ptr) && Tiled(m, ptr, end)
      invariant Recovered(m, h.mem[..], r.lo, ptr) && fl == FreeList(h.mem[..], r.lo, ptr)
      invariant EndsFree(h.mem[..], r.lo, ptr) ==> ptr == end || m[ptr].flags.alive
      invariant OnlyInside(m, h.mem[..], Range(r.lo, ptr)) && h.freeLists == old(h.freeLists)
    {
      ghost var m1 := h.mem[..];
      assert h.mem[ptr] == m[ptr];
      if !h.mem[ptr].flags.alive {
        FrameTail(m, m1, ptr, end);
        var next := DeadRun(h.mem, ptr, end);
        h.mem[ptr] := h.mem[ptr].(dt := FreeBlock, flags := PINNED_ONLY, size := next - ptr);
        DeadStep(m, m1, h.mem[..], r.lo, ptr, next, end);
        fl := fl + [ptr];
        ptr := next;
      } else {
        var size := h.mem[ptr].size;
        if !h.mem[ptr].flags.event { h.mem[ptr] := h.mem[ptr].(flags := h.mem[ptr].flags.(alive := false)); }
        AliveStep(m, m1, h.mem[..], r.lo, ptr, end);
        ptr := ptr + size;
      }
    }
    h.freeLists := h.freeLists[c := fl];
    RecoveredTidy(m, h.mem[..], r);
  }

  lemma FrameTail(m: Memory, m': Memory, p: int, q: int)
    requires Tiled(m, p, q) && Unchanged(m, m', p, q)
    ensures Tiled(m', p, q)
  {
    FrameUnchanged(m, m', p, q);
  }

  /** What DeadRun saw in the current memory it would have seen in the original. */
  lemma RunFrame(m: Memory, m1: Memory, p: int, n: int, q: int)
    requires Tiled(m, p, q) && Unchanged(m, m1, p, q)
    requires Tiled(m1, p, n) && Tiled(m1, n, q) && p <= n <= q && Alive(m1, p, n) == {} && AliveSize(m1, p, n) == 0
    ensures Tiled(m, p, n) && Tiled(m, n, q) && Alive(m, p, n) == {} && AliveSize(m, p, n) == 0
  {
    FrameUnchanged(m1, m, p, n);
    FrameUnchanged(m1, m, n, q);
    AliveSizeFrame(m1, m, p, n);
  }

  lemma {:induction false} AliveSizeFrame(m: Memory, m': Memory, p: int, q: int)
    requires Tiled(m, p, q) && Unchanged(m, m', p, q)
    ensures AliveSize(m', p, q) == AliveSize(m, p, q) && Alive(m', p, q) == Alive(m, p, q)
    decreases q - p
  {
    FrameUnchanged(m, m', p, q);
    if p < q { AliveSizeFrame(m, m', p + m[p].size, q); }
  }

  lemma StartMember(m: Memory, lo: int, p: int, hi: int)
    requires Tiled(m, lo, p) && Tiled(m, p, hi) && p < hi && FreeUnmarked(m, lo, hi) && m[p].flags.alive
    ensures Fits(m, p, hi) && !IsFree(m[p])
  {
    hide Starts;
    Join(m, lo, p, hi);
    OneBlock(m, p, p + m[p].size);
    Join(m, p, p + m[p].size, hi);
  }

  /** One dead run of the loop. */
  lemma DeadStep(m: Memory, m1: Memory, m2: Memory, lo: int, p: int, n: int, hi: int)
    requires Tiled(m, lo, p) && Tiled(m, p, hi) && 0 <= p < n <= hi && Recovered(m, m1, lo, p) && !EndsFree(m1, lo, p)
    requires Unchanged(m, m1, p, hi) && Tiled(m1, p, n) && Tiled(m1, n, hi) && Alive(m1, p, n) == {}
    requires AliveSize(m1, p, n) == 0
    requires p < |m1| && m2 == m1[p := m1[p].(dt := FreeBlock, flags := PINNED_ONLY, size := n - p)]
    ensures Tiled(m, lo, n) && Tiled(m, n, hi) && Recovered(m, m2, lo, n) && EndsFree(m2, lo, n)
    ensures FreeList(m2, lo, n) == FreeList(m1, lo, p) + [p]
  {
    hide Starts, Tiled, Tidy, FreeList, FreeSize, EndsFree, Alive, AliveSize, Recovered, Live;
    TiledBounds(m, p, hi);
    RunFrame(m, m1, p, n, hi);
    RecoveredDead(m, m2, p, n);
    RecoveredJoin(m, m1, m2, lo, p, n);
    Join(m, lo, p, n);
  }

  /** One surviving block of the loop. */
  lemma AliveStep(m: Memory, m1: Memory, m2: Memory, lo: int, p: int, hi: int)
    requires Tiled(m, lo, p) && Tiled(m, p, hi) && 0 <= p < hi && FreeUnmarked(m, lo, hi)
    requires Recovered(m, m1, lo, p) && Unchanged(m, m1, p, hi) && p < |m| && m[p].flags.alive
    requires m2 == m1[p := if m[p].flags.event then m[p] else m[p].(flags := m[p].flags.(alive := false))]
    ensures var n := p + m[p].size;
      && p < n <= hi && Tiled(m, lo, n) && Tiled(m, n, hi) && Recovered(m, m2, lo, n) && !EndsFree(m2, lo, n)
      && FreeList(m2, lo, n) == FreeList(m1, lo, p)
  {
    hide Starts, Tidy, FreeList, FreeSize, EndsFree, Alive, AliveSize, Recovered, Live;
    var n := p + m[p].size;
    StartMember(m, lo, p, hi);
    RecoveredAlive(m, m2, p);
    RecoveredJoin(m, m1, m2, lo, p, n);
    Join(m, lo, p, n);
  }

  lemma RecoveredTidy(m: Memory, m': Memory, r: Range)
    requires Recovered(m, m', r.lo, r.hi)
    ensures ClusterOk(m', r, FreeList(m', r.lo, r.hi))
  {
  }
}
