/** CLR_RT_EventCache: freed event blocks are kept in lists by size and handed out again. */
module EventCache {
  import opened HeapBlocks
  import opened ClusterInvariant
  import opened HeapCluster
  import opened ClusterAllocation
  import opened CompactionSpec

  const MAX_FAST_LISTS := 32

  const EVENT_FLAGS := Flags(true, true, false)

  /** The list a block of the given size belongs to; list 0 takes the large ones. */
  function SizeClass(size: nat): (i: nat)
    ensures i < MAX_FAST_LISTS
  {
    if size < MAX_FAST_LISTS then size else 0
  }

  /** Position k of list i. */
  predicate Slot(events: seq<seq<int>>, i: int, k: int)
  {
    0 <= i < |events| && 0 <= k < |events[i]|
  }

  ghost predicate Distinct(events: seq<seq<int>>)
  {
    forall i, k, j, l :: Slot(events, i, k) && Slot(events, j, l) && events[i][k] == events[j][l] ==> i == j && k == l
  }

  /** All cached blocks. */
  ghost function Cached(events: seq<seq<int>>): (s: set<int>)
    ensures forall a :: a in s ==> exists i, k :: Slot(events, i, k) && events[i][k] == a
    ensures forall i, k :: Slot(events, i, k) ==> events[i][k] in s
  {
    set i, k | 0 <= i < |events| && 0 <= k < |events[i]| :: events[i][k]
  }

  /** A cached block: in use as far as the heap is concerned, in the list for its size. */
  ghost predicate CachedAt(m: Memory, cl: seq<Range>, i: int, a: int)
  {
    a in Blocks(m, cl) && m[a].dt == CachedBlock && m[a].flags == EVENT_FLAGS && SizeClass(m[a].size) == i
  }

  ghost predicate CacheOk(m: Memory, cl: seq<Range>, events: seq<seq<int>>)
  {
    && |events| == MAX_FAST_LISTS && Distinct(events)
    && forall i, k :: Slot(events, i, k) ==> CachedAt(m, cl, i, events[i][k])
  }

  // ---- What the heap keeps ----

  /** Giving a block another type, other flags or other data changes nothing about the heap. */
  lemma Retagged(m: Memory, m': Memory, cl: seq<Range>, fls: seq<seq<int>>, a: int)
    requires Spaced(cl) && ClustersOk(m, cl, fls) && a in Blocks(m, cl) && 0 <= a < |m|
    requires |m'| == |m| && m'[a].size == m[a].size && !IsFree(m'[a])
    requires forall i :: 0 <= i < |m| && !(a <= i < a + m[a].size) ==> m'[i] == m[i]
    ensures ClustersOk(m', cl, fls) && Blocks(m', cl) == Blocks(m, cl)
    ensures forall c :: 0 <= c < |cl| ==> SameBlocks(m, m', cl[c].lo, cl[c].hi)
  {
    hide Starts, Tiled, Tidy, FreeList, FreeSize, EndsFree;
    forall c | 0 <= c < |cl| ensures SameBlocks(m, m', cl[c].lo, cl[c].hi) {
      assert ClusterOk(m, cl[c], fls[c]);
      TiledBounds(m, cl[c].lo, cl[c].hi);
      RetaggedWalk(m, m', cl, fls, a, c);
      Frame(m, m', cl[c].lo, cl[c].hi);
    }
    forall c | 0 <= c < |cl| ensures ClusterOk(m', cl[c], fls[c]) { assert ClusterOk(m, cl[c], fls[c]); }
  }

  lemma RetaggedWalk(m: Memory, m': Memory, cl: seq<Range>, fls: seq<seq<int>>, a: int, c: nat)
    requires Spaced(cl) && ClustersOk(m, cl, fls) && a in Blocks(m, cl) && 0 <= a < |m| && c < |cl|
    requires |m'| == |m| && m'[a].size == m[a].size && !IsFree(m'[a])
    requires forall i :: 0 <= i < |m| && !(a <= i < a + m[a].size) ==> m'[i] == m[i]
    ensures SameWalk(m, m', cl[c].lo, cl[c].hi)
  {
    hide Starts, Tiled, Tidy, FreeList;
    var d :| 0 <= d < |cl| && a in Live(m, cl[d].lo, cl[d].hi);
    assert ClusterOk(m, cl[c], fls[c]) && ClusterOk(m, cl[d], fls[d]);
    TiledBounds(m, cl[c].lo, cl[c].hi);
    forall s | s in Starts(m, cl[c].lo, cl[c].hi) && s != a ensures m'[s] == m[s] {
      if c == d && a < s { Disjoint(m, cl[c].lo, cl[c].hi, a, s); }
    }
  }

  /** A block in use cut in two blocks in use. */
  lemma SplitInCluster(m: Memory, m': Memory, r: Range, fl: seq<int>, a: int, n: nat)
    requires ClusterOk(m, r, fl) && a in Live(m, r.lo, r.hi) && 0 < n < m[a].size
    requires |m'| == |m| && m'[a].size == n && m'[a + n].size == m[a].size - n && !IsFree(m'[a]) && !IsFree(m'[a + n])
    requires Unchanged(m, m', 0, a) && Unchanged(m, m', a + m[a].size, |m|)
    ensures ClusterOk(m', r, fl) && Live(m', r.lo, r.hi) == Live(m, r.lo, r.hi) + {a + n}
    ensures FreeSize(m', r.lo, r.hi) == FreeSize(m, r.lo, r.hi) && OnlyInside(m, m', r)
  {
    hide Starts, Tiled, Tidy, FreeList, FreeSize, EndsFree, AllLive;
    var e := a + m[a].size;
    Split(m, r.lo, r.hi, a);
    AfterBlock(m, a, r.hi);
    WholeBlock(m, a, e);
    Around(m, r, a, e);
    TwoLive(m', a, a + n, e);
    FrameUnchanged(m, m', r.lo, a);
    FrameUnchanged(m, m', e, r.hi);
    Around(m', r, a, e);
  }

  lemma AfterBlock(m: Memory, a: int, hi: int)
    requires Tiled(m, a, hi) && a < hi
    ensures Fits(m, a, hi) && Tiled(m, a + m[a].size, hi)
  {
  }

  lemma WholeBlock(m: Memory, a: int, e: int)
    requires 0 <= a < e <= |m| && e == a + m[a].size && !IsFree(m[a])
    ensures AllLive(m, a, e) && Live(m, a, e) == {a}
  {
    OneBlock(m, a, e);
    assert AllLive(m, e, e);
  }

  lemma TwoLive(m: Memory, a: int, x: int, e: int)
    requires 0 <= a < x < e <= |m| && a + m[a].size == x && x + m[x].size == e && !IsFree(m[a]) && !IsFree(m[x])
    ensures AllLive(m, a, e) && Live(m, a, e) == {a, x}
  {
    hide Starts, FreeList, FreeSize, EndsFree, Tidy;
    WholeBlock(m, x, e);
    OneBlock(m, a, x);
    Join(m, a, x, e);
  }

  /** What a stretch of live blocks in the middle contributes. */
  lemma Around(m: Memory, r: Range, a: int, e: int)
    requires Tiled(m, r.lo, a) && AllLive(m, a, e) && Tiled(m, e, r.hi) && a < e
    ensures Tiled(m, r.lo, r.hi) && FreeList(m, r.lo, r.hi) == FreeList(m, r.lo, a) + FreeList(m, e, r.hi)
    ensures Tidy(m, r.lo, r.hi) <==> Tidy(m, r.lo, a) && Tidy(m, e, r.hi)
    ensures Live(m, r.lo, r.hi) == Live(m, r.lo, a) + Live(m, a, e) + Live(m, e, r.hi)
    ensures FreeSize(m, r.lo, r.hi) == FreeSize(m, r.lo, a) + FreeSize(m, e, r.hi)
  {
    hide Starts, Tiled, Tidy, FreeList, FreeSize, EndsFree, AllLive, Live, BeginsFree;
    AllLiveFacts(m, a, e);
    Join(m, r.lo, a, e);
    Join(m, r.lo, e, r.hi);
    JoinList(m, r.lo, a, e);
    JoinList(m, r.lo, e, r.hi);
    JoinTidy(m, r.lo, a, e);
    JoinTidy(m, r.lo, e, r.hi);
  }

  lemma SplitInHeap(m: Memory, m': Memory, cl: seq<Range>, fls: seq<seq<int>>, a: int, n: nat)
    requires Spaced(cl) && ClustersOk(m, cl, fls) && a in Blocks(m, cl) && 0 <= a < |m| && 0 < n < m[a].size
    requires a + n < |m'| == |m| && m'[a].size == n && m'[a + n].size == m[a].size - n && !IsFree(m'[a])
    requires !IsFree(m'[a + n])
    requires Unchanged(m, m', 0, a) && Unchanged(m, m', a + m[a].size, |m|)
    ensures ClustersOk(m', cl, fls) && Blocks(m', cl) == Blocks(m, cl) + {a + n} && a + n !in Blocks(m, cl)
    ensures TotalFree(m', cl) == TotalFree(m, cl)
  {
    hide Starts, Tiled, Tidy, FreeList, FreeSize, EndsFree, TotalFree, Live, OnlyInside, Unchanged;
    var c :| 0 <= c < |cl| && a in Live(m, cl[c].lo, cl[c].hi);
    assert ClusterOk(m, cl[c], fls[c]);
    SplitInCluster(m, m', cl[c], fls[c], a, n);
    ClustersFrame(m, m', cl, fls, c, fls[c]);
    assert fls[c := fls[c]] == fls;
    BlocksUpdate(m, m', cl, c, {}, {a + n});
    TotalFreeSame(m, m', cl);
    TailInside(m, cl, fls, a, n);
  }

  lemma TailInside(m: Memory, cl: seq<Range>, fls: seq<seq<int>>, a: int, n: nat)
    requires Spaced(cl) && ClustersOk(m, cl, fls) && a in Blocks(m, cl) && 0 <= a < |m| && 0 < n < m[a].size
    ensures a + n !in Blocks(m, cl)
  {
    hide Blocks, IsLive, ClusterOk;
    LaidFrom(m, cl, fls);
    if a + n in Blocks(m, cl) { BlocksApart(m, cl, a, a + n); }
  }

  lemma LaidFrom(m: Memory, cl: seq<Range>, fls: seq<seq<int>>)
    requires Spaced(cl) && ClustersOk(m, cl, fls)
    ensures Laid(m, cl)
  {
  }

  // ---- What the lists keep ----

  lemma CacheFrame(m: Memory, m': Memory, cl: seq<Range>, events: seq<seq<int>>)
    requires CacheOk(m, cl, events) && Blocks(m, cl) <= Blocks(m', cl) && |m'| == |m|
    requires forall a :: a in Cached(events) && 0 <= a < |m| ==>
      m'[a].dt == m[a].dt && m'[a].flags == m[a].flags && SizeClass(m'[a].size) == SizeClass(m[a].size)
    ensures CacheOk(m', cl, events)
  {
    hide Blocks, Distinct;
    forall i, k | Slot(events, i, k) ensures CachedAt(m', cl, i, events[i][k]) {
      assert CachedAt(m, cl, i, events[i][k]) && events[i][k] in Cached(events);
    }
  }

  function Appended(events: seq<seq<int>>, i: nat, a: int): (events': seq<seq<int>>)
    requires i < |events|
  {
    events[i := events[i] + [a]]
  }

  function Dropped(events: seq<seq<int>>, i: nat, k: nat): (events': seq<seq<int>>)
    requires i < |events| && k < |events[i]|
  {
    events[i := events[i][..k] + events[i][k + 1..]]
  }

  lemma AppendedCache(m: Memory, cl: seq<Range>, events: seq<seq<int>>, i: nat, a: int)
    requires CacheOk(m, cl, events) && i < |events| && CachedAt(m, cl, i, a) && a !in Cached(events)
    ensures CacheOk(m, cl, Appended(events, i, a))
    ensures Cached(Appended(events, i, a)) == Cached(events) + {a}
  {
    hide CachedAt;
    var events' := Appended(events, i, a);
    forall j, l | Slot(events', j, l)
      ensures if j == i && l == |events[i]| then events'[j][l] == a
            else Slot(events, j, l) && events'[j][l] == events[j][l] && events'[j][l] != a
    {
      if !(j == i && l == |events[i]|) { assert Slot(events, j, l); }
    }
    forall j, l | Slot(events', j, l) ensures CachedAt(m, cl, j, events'[j][l]) {
      if Slot(events, j, l) { assert CachedAt(m, cl, j, events[j][l]); }
    }
    assert Slot(events', i, |events[i]|);
    forall b | b in Cached(events) ensures b in Cached(events') {
      var j, l :| Slot(events, j, l) && events[j][l] == b;
      assert Slot(events', j, l);
    }
  }

  /** Where an entry was before position k of list i was dropped. */
  function Before(i: int, k: int, j: int, l: int): (l': int) { if j == i && l >= k then l + 1 else l }

  lemma DroppedCache(m: Memory, cl: seq<Range>, events: seq<seq<int>>, i: nat, k: nat)
    requires CacheOk(m, cl, events) && Slot(events, i, k)
    ensures CacheOk(m, cl, Dropped(events, i, k))
    ensures Cached(Dropped(events, i, k)) == Cached(events) - {events[i][k]}
  {
    hide CachedAt;
    var events' := Dropped(events, i, k);
    forall j, l | Slot(events', j, l)
      ensures Slot(events, j, Before(i, k, j, l)) && events'[j][l] == events[j][Before(i, k, j, l)]
      ensures events'[j][l] != events[i][k]
    {
      assert Slot(events, j, Before(i, k, j, l));
    }
    forall j, l | Slot(events', j, l) ensures CachedAt(m, cl, j, events'[j][l]) {
      assert CachedAt(m, cl, j, events[j][Before(i, k, j, l)]);
    }
    forall b | b in Cached(events) && b != events[i][k] ensures b in Cached(events') {
      var j, l :| Slot(events, j, l) && events[j][l] == b;
      var l' := if j == i && l > k then l - 1 else l;
      assert Slot(events', j, l') && events'[j][l'] == b;
    }
  }

  /** Acceptable for a request of n cells: at most a quarter more. */
  predicate Acceptable(size: nat, n: nat)
  {
    n <= size <= n * 20 / 16
  }

  /** list[k] is the first of the smallest acceptable blocks. */
  ghost predicate BestFit(m: Memory, list: seq<int>, n: nat, k: int)
  {
    && 0 <= k < |list| && (forall j :: 0 <= j < |list| ==> 0 <= list[j] < |m|) && Acceptable(m[list[k]].size, n)
    && (forall j :: 0 <= j < |list| && Acceptable(m[list[j]].size, n) ==> m[list[k]].size <= m[list[j]].size)
    && (forall j :: 0 <= j < k && Acceptable(m[list[j]].size, n) ==> m[list[k]].size < m[list[j]].size)
  }

  ghost predicate NoneAcceptable(m: Memory, list: seq<int>, n: nat)
  {
    forall j :: 0 <= j < |list| ==> 0 <= list[j] < |m| && !Acceptable(m[list[j]].size, n)
  }

  /** The scan of Extract_Node_Slow. */
  method FindBest(mem: array<Cell>, list: seq<int>, n: nat) returns (best: int)
    requires forall j :: 0 <= j < |list| ==> 0 <= list[j] < mem.Length
    ensures -1 <= best < |list|
    ensures best == -1 <==> NoneAcceptable(mem[..], list, n)
    ensures best >= 0 ==> BestFit(mem[..], list, n, best)
  {
    best := -1;
    var bestSize := 0;
    for i := 0 to |list|
      invariant -1 <= best < i
      invariant (best >= 0 ==> bestSize == mem[list[best]].size && bestSize != n && Acceptable(bestSize, n))
      invariant best == -1 ==> forall j :: 0 <= j < i ==> !Acceptable(mem[list[j]].size, n)
      invariant best >= 0 ==>
        forall j :: 0 <= j < i && Acceptable(mem[list[j]].size, n) ==> bestSize <= mem[list[j]].size
      invariant best >= 0 ==>
        forall j :: 0 <= j < best && Acceptable(mem[list[j]].size, n) ==> bestSize < mem[list[j]].size
    {
      var size := mem[list[i]].size;
      if size == n {
        best, bestSize := i, n;
        break;
      }
      if size >= n && ((best >= 0 && size < bestSize) || (best < 0 && size <= n * 20 / 16)) {
        best, bestSize := i, size;
      }
    }
  }

  lemma CachedInside(m: Memory, cl: seq<Range>, fls: seq<seq<int>>, events: seq<seq<int>>, i: nat)
    requires CacheOk(m, cl, events) && i < |events| && Spaced(cl) && ClustersOk(m, cl, fls)
    ensures forall k :: 0 <= k < |events[i]| ==>
      0 < events[i][k] < |m| && CachedAt(m, cl, i, events[i][k]) && events[i][k] in Cached(events)
      && m[events[i][k]].size >= 1
  {
    forall k | 0 <= k < |events[i]|
      ensures 0 < events[i][k] < |m| && CachedAt(m, cl, i, events[i][k]) && events[i][k] in Cached(events)
      ensures m[events[i][k]].size >= 1
    {
      assert Slot(events, i, k);
      BlockInside(m, cl, events[i][k]);
      BlockPositive(m, cl, events[i][k]);
    }
  }

  lemma BlockPositive(m: Memory, cl: seq<Range>, a: int)
    requires Spaced(cl) && a in Blocks(m, cl)
    ensures 0 < a
  {
    hide Starts;
  }

  /** A cached block is a block. */
  lemma CachedIsBlock(m: Memory, cl: seq<Range>, events: seq<seq<int>>, a: int)
    requires CacheOk(m, cl, events) && a in Cached(events)
    ensures a in Blocks(m, cl)
  {
    hide Blocks;
    var i, k :| Slot(events, i, k) && events[i][k] == a;
    assert CachedAt(m, cl, i, a);
  }

  /** Rewriting one block does not touch the headers of cached ones. */
  lemma CacheUntouched(m: Memory, m': Memory, cl: seq<Range>, fls: seq<seq<int>>, events: seq<seq<int>>, a: int)
    requires Spaced(cl) && ClustersOk(m, cl, fls) && CacheOk(m, cl, events) && a in Blocks(m, cl)
    requires a !in Cached(events)
    requires 0 <= a < |m| == |m'| && Blocks(m, cl) <= Blocks(m', cl)
    requires forall i :: 0 <= i < |m| && !(a <= i < a + m[a].size) ==> m'[i] == m[i]
    ensures CacheOk(m', cl, events)
  {
    hide Blocks, ClusterOk, Distinct;
    LaidFrom(m, cl, fls);
    forall b | b in Cached(events) && 0 <= b < |m| ensures m'[b] == m[b] {
      CachedIsBlock(m, cl, events, b);
      if a < b { BlocksApart(m, cl, a, b); }
    }
    CacheFrame(m, m', cl, events);
  }

  /** The list Extract_Node looks at, and the entry it picks: the first of its size, or the best fit. */
  ghost predicate Picked(m: Memory, events: seq<seq<int>>, n: nat, i: nat, k: int)
  {
    && |events| == MAX_FAST_LISTS && i == SizeClass(n) && Slot(events, i, k)
    && if i > 0 then k == 0 else BestFit(m, events[0], n, k)
  }

  ghost predicate NothingFits(m: Memory, events: seq<seq<int>>, n: nat)
  {
    |events| == MAX_FAST_LISTS && if SizeClass(n) > 0 then events[n] == [] else NoneAcceptable(m, events[0], n)
  }

  /** A cached block that may serve a request of n cells: of the very size if that is below 32, otherwise of at
      most a quarter more. */
  ghost predicate Serves(m: Memory, events: seq<seq<int>>, a: int, n: nat)
  {
    a in Cached(events) && 0 <= a < |m| && if n < 32 then m[a].size == n else n <= m[a].size <= n * 20 / 16
  }

  /** The one list that is looked at has all the blocks that may serve. */
  lemma NothingServes(m: Memory, cl: seq<Range>, events: seq<seq<int>>, n: nat)
    requires CacheOk(m, cl, events)
    ensures NothingFits(m, events, n) <==> forall a :: !Serves(m, events, a, n)
  {
    hide Blocks, Distinct;
    forall a | Serves(m, events, a, n) ensures !NothingFits(m, events, n) {
      var i, k :| Slot(events, i, k) && events[i][k] == a;
      assert CachedAt(m, cl, i, a);
      BlockInside(m, cl, a);
    }
    if !NothingFits(m, events, n) {
      var i := SizeClass(n);
      var k :| 0 <= k < |events[i]| && (i > 0 || !(0 <= events[0][k] < |m|) || Acceptable(m[events[0][k]].size, n));
      assert Slot(events, i, k) && CachedAt(m, cl, i, events[i][k]);
      BlockInside(m, cl, events[i][k]);
      assert Serves(m, events, events[i][k], n);
    }
  }

  class Cache {
    const heap: Heap
    var events: seq<seq<int>>

    constructor (heap: Heap)
      requires heap.Valid()
      ensures this.heap == heap && Valid() && events == seq(MAX_FAST_LISTS, i => [])
    {
      this.heap := heap;
      events := seq(MAX_FAST_LISTS, i => []);
    }

    ghost predicate Valid()
      reads this, heap, heap.mem
    {
      heap.Valid() && CacheOk(heap.mem[..], heap.clusters, events)
    }

    method AppendNode(node: int)
      requires Valid() && node in Blocks(heap.mem[..], heap.clusters) && node !in Cached(events)
      modifies this, heap.mem
      ensures Valid() && 0 <= node < heap.mem.Length
      ensures var m := old(heap.mem[..]);
        && heap.mem[..] == m[node := m[node].(dt := CachedBlock, flags := EVENT_FLAGS)]
        && events == Appended(old(events), SizeClass(m[node].size), node)
      ensures Blocks(heap.mem[..], heap.clusters) == old(Blocks(heap.mem[..], heap.clusters))
      ensures Cached(events) == old(Cached(events)) + {node}
    {
      hide Blocks, IsLive, ClusterOk, Cached, Distinct;
      ghost var m, cl := heap.mem[..], heap.clusters;
      BlockInside(m, cl, node);
      var i := SizeClass(heap.mem[node].size);
      heap.mem[node] := heap.mem[node].(dt := CachedBlock, flags := EVENT_FLAGS);
      Retagged(m, heap.mem[..], cl, heap.freeLists, node);
      CacheFrame(m, heap.mem[..], cl, events);
      AppendedCache(heap.mem[..], cl, events, i, node);
      events := events[i := events[i] + [node]];
    }

    /** Cut a large cached block to n cells and requeue the tail. */
    method SplitNode(k: nat, n: nat) returns (ptr: int)
      requires Valid() && Slot(events, 0, k) && MAX_FAST_LISTS <= n
      requires 0 <= events[0][k] < heap.mem.Length && n < heap.mem[events[0][k]].size
      modifies this, heap.mem
      ensures Valid() && ptr == old(events[0][k]) && 0 < ptr && ptr + n < heap.mem.Length
      ensures var m := old(heap.mem[..]);
        && heap.mem[..] == m[ptr := Cell(CachedBlock, EVENT_FLAGS, n, m[ptr].data)]
                           [ptr + n := Cell(CachedBlock, EVENT_FLAGS, m[ptr].size - n, Raw(0))]
        && events == Appended(old(events), SizeClass(m[ptr].size - n), ptr + n)
      ensures Blocks(heap.mem[..], heap.clusters) == old(Blocks(heap.mem[..], heap.clusters)) + {ptr + n}
      ensures TotalFree(heap.mem[..], heap.clusters) == old(TotalFree(heap.mem[..], heap.clusters))
      ensures Cached(events) == old(Cached(events)) + {ptr + n} && ptr + n !in old(Cached(events))
    {
      hide Blocks, IsLive, ClusterOk, Cached, Distinct, TotalFree;
      ghost var m, cl := heap.mem[..], heap.clusters;
      ptr := events[0][k];
      CachedInside(m, cl, heap.freeLists, events, 0);
      BlockInside(m, cl, ptr);
      var size := heap.mem[ptr].size;
      heap.mem[ptr] := Cell(CachedBlock, EVENT_FLAGS, n, heap.mem[ptr].data);
      heap.mem[ptr + n] := Cell(CachedBlock, EVENT_FLAGS, size - n, Raw(0));
      SplitEverything(m, heap.mem[..], cl, heap.freeLists, events, ptr, n);
      ghost var m1 := heap.mem[..];
      AppendNode(ptr + n);
      assert heap.mem[..] == m1;
    }

    /** Unlink entry k of list i and give its block out. */
    method TakeNode(i: nat, k: nat, dt: DataType, initializeToZero: bool) returns (ptr: int)
      requires Valid() && Slot(events, i, k) && !dt.FreeBlock?
      modifies this, heap.mem
      ensures Valid() && ptr == old(events[i][k]) && 0 < ptr < heap.mem.Length
      ensures heap.mem[ptr].dt == dt && heap.mem[ptr].flags == EVENT_FLAGS
      ensures heap.mem[ptr].size == old(heap.mem[..])[ptr].size
      ensures forall j :: 0 <= j < heap.mem.Length && !(ptr <= j < ptr + heap.mem[ptr].size) ==>
        heap.mem[j] == old(heap.mem[..])[j]
      ensures !initializeToZero ==> heap.mem[..] == old(heap.mem[..])[ptr := heap.mem[ptr]]
      ensures initializeToZero ==> Zeroed(heap.mem[..], ptr, heap.mem[ptr].size)
      ensures Blocks(heap.mem[..], heap.clusters) == old(Blocks(heap.mem[..], heap.clusters))
      ensures Cached(events) == old(Cached(events)) - {ptr}
      ensures TotalFree(heap.mem[..], heap.clusters) == old(TotalFree(heap.mem[..], heap.clusters))
    {
      hide Blocks, IsLive, ClusterOk, Cached, Distinct, TotalFree, SameBlocks;
      ghost var m, cl := heap.mem[..], heap.clusters;
      CachedInside(m, cl, heap.freeLists, events, i);
      ptr := events[i][k];
      BlockInside(m, cl, ptr);
      DroppedCache(m, cl, events, i, k);
      events := events[i := events[i][..k] + events[i][k + 1..]];
      var size := heap.mem[ptr].size;
      heap.mem[ptr] := heap.mem[ptr].(dt := dt, flags := EVENT_FLAGS);
      if initializeToZero { ZeroFill(heap.mem, ptr, size); }
      Retagged(m, heap.mem[..], cl, heap.freeLists, ptr);
      CacheUntouched(m, heap.mem[..], cl, heap.freeLists, events, ptr);
      SameFree(m, heap.mem[..], cl);
    }

    /** EventCache_Cleanup: give all cached blocks up, so that the next collection reclaims them. */
    method Cleanup() returns (tot: nat)
      requires Valid()
      modifies this, heap.mem
      ensures Valid() && Cached(events) == {}
      ensures Blocks(heap.mem[..], heap.clusters) == old(Blocks(heap.mem[..], heap.clusters))
      ensures Retired(old(heap.mem[..]), heap.mem[..], old(Cached(events)))
      ensures tot == TotalSize(old(heap.mem[..]), old(events))
    {
      hide Blocks, IsLive, ClusterOk, CacheOk, Distinct, Retired, TotalSize, ListSize, Cached;
      ghost var m, cl, done := heap.mem[..], heap.clusters, {};
      ListCount(m, cl, events);
      tot := 0;
      StartRetiring(m, events);
      for i := 0 to MAX_FAST_LISTS
        invariant events == old(events) && Retired(m, heap.mem[..], done) && tot == TotalSize(m, events[..i])
        invariant done <= Cached(events) && forall j, l :: Slot(events, j, l) && j < i ==> events[j][l] in done
      {
        CachedInside(m, cl, heap.freeLists, events, i);
        var list := events[i];
        ghost var before := tot;
        assert list[0..] == list;
        for k := 0 to |list|
          invariant Retired(m, heap.mem[..], done) && tot + ListSize(m, list[k..]) == before + ListSize(m, list)
          invariant events == old(events) && done <= Cached(events)
          invariant forall j, l :: Slot(events, j, l) && (j < i || (j == i && l < k)) ==> events[j][l] in done
        {
          var ptr := list[k];
          RetiredHeader(m, heap.mem[..], done, ptr);
          ListSizeRest(m, list, k);
          RetireOne(m, heap.mem[..], done, ptr);
          tot := tot + heap.mem[ptr].size;
          heap.mem[ptr] := heap.mem[ptr].(flags := heap.mem[ptr].flags.(alive := false), data := Raw(0));
          done := done + {ptr};
        }
        NoneListed(m);
        assert list[|list|..] == [];
        NextList(m, events, i);
      }
      assert events[..MAX_FAST_LISTS] == events;
      AllRetired(events, done);
      RetiredHeap(m, heap.mem[..], cl, heap.freeLists, events);
      events := seq(MAX_FAST_LISTS, i => []);
      EmptyCache(heap.mem[..], cl);
    }

    /** Extract_Node: a block from the cache; NULL where it would go on to allocate from the heap. */
    method ExtractNode(dt: DataType, initializeToZero: bool, n: nat) returns (res: int, ghost k: int)
      requires Valid() && !dt.FreeBlock?
      modifies this, heap.mem
      ensures Valid()
      ensures res == NULL <==> forall a :: !Serves(old(heap.mem[..]), old(events), a, n)
      ensures res == NULL ==> events == old(events) && heap.mem[..] == old(heap.mem[..])
      ensures res != NULL ==>
        && Picked(old(heap.mem[..]), old(events), n, SizeClass(n), k) && res == old(events)[SizeClass(n)][k]
        && 0 < res < heap.mem.Length && heap.mem[res].size == n && heap.mem[res].dt == dt
        && heap.mem[res].flags == EVENT_FLAGS
        && (initializeToZero ==> Zeroed(heap.mem[..], res, n))
      // Nothing is lost: what was picked and not needed is a block of its own, and cached.
      ensures res != NULL ==>
        var tail := if old(heap.mem[..])[res].size > n then {res + n} else {};
        && Blocks(heap.mem[..], heap.clusters) == old(Blocks(heap.mem[..], heap.clusters)) + tail
        && Cached(events) == old(Cached(events)) - {res} + tail
        && (forall a :: a in tail ==> 0 <= a < heap.mem.Length && heap.mem[a].size == old(heap.mem[..])[res].size - n)
        && TotalFree(heap.mem[..], heap.clusters) == old(TotalFree(heap.mem[..], heap.clusters))
    {
      hide Blocks, IsLive, ClusterOk, Cached, Distinct, TotalFree, Zeroed, CacheOk, BestFit, NoneAcceptable;
      ghost var m, events0 := heap.mem[..], events;
      NothingServes(m, heap.clusters, events, n);
      var i := SizeClass(n);
      ListCount(m, heap.clusters, events);
      CachedInside(m, heap.clusters, heap.freeLists, events, i);
      res, k := NULL, -1;
      var best := if i > 0 && events[i] != [] then 0 else -1;
      if i == 0 { best := FindBest(heap.mem, events[0], n); }
      if best >= 0 {
        k := best;
        PickedSize(m, heap.clusters, events, n, i, best);
        PlusNothing(Blocks(m, heap.clusters), Cached(events), events[i][best]);
        if heap.mem[events[i][best]].size > n {
          res := SplitNode(best, n);
        }
        res := TakeNode(i, best, dt, initializeToZero);
      }
    }
  }

  /** The blocks of `done` are marked dead and cleared, everything else is as it was. */
  ghost predicate Retired(m: Memory, m': Memory, done: set<int>)
  {
    |m'| == |m| && forall j :: 0 <= j < |m| ==>
      m'[j] == if j in done then m[j].(flags := m[j].flags.(alive := false), data := Raw(0)) else m[j]
  }

  ghost function TotalSize(m: Memory, events: seq<seq<int>>): (n: nat)
  {
    if events == [] then 0 else TotalSize(m, events[..|events| - 1]) + ListSize(m, events[|events| - 1])
  }

  lemma StartRetiring(m: Memory, events: seq<seq<int>>)
    ensures Retired(m, m, {}) && TotalSize(m, events[..0]) == 0
  {
  }

  lemma NextList(m: Memory, events: seq<seq<int>>, i: nat)
    requires i < |events|
    ensures TotalSize(m, events[..i + 1]) == TotalSize(m, events[..i]) + ListSize(m, events[i])
  {
    assert events[..i + 1][..i] == events[..i];
  }

  lemma RetiredHeader(m: Memory, m': Memory, done: set<int>, a: int)
    requires Retired(m, m', done) && 0 <= a < |m|
    ensures |m'| == |m| && m'[a].size == m[a].size
  {
  }

  lemma RetireOne(m: Memory, m': Memory, done: set<int>, a: int)
    requires Retired(m, m', done) && 0 <= a < |m| == |m'|
    ensures Retired(m, m'[a := m'[a].(flags := m'[a].flags.(alive := false), data := Raw(0))], done + {a})
  {
  }

  lemma AllRetired(events: seq<seq<int>>, done: set<int>)
    requires done <= Cached(events) && forall j, l :: Slot(events, j, l) ==> events[j][l] in done
    ensures done == Cached(events)
  {
  }

  lemma EmptyCache(m: Memory, cl: seq<Range>)
    ensures CacheOk(m, cl, seq(MAX_FAST_LISTS, i => [])) && Cached(seq(MAX_FAST_LISTS, i => [])) == {}
  {
    var events: seq<seq<int>> := seq(MAX_FAST_LISTS, i => []);
    assert forall i, k :: !Slot(events, i, k);
  }

  /** Retiring blocks changes neither where blocks are nor which are free. */
  lemma RetiredHeap(m: Memory, m': Memory, cl: seq<Range>, fls: seq<seq<int>>, events: seq<seq<int>>)
    requires Spaced(cl) && ClustersOk(m, cl, fls) && CacheOk(m, cl, events) && Retired(m, m', Cached(events))
    ensures ClustersOk(m', cl, fls) && Blocks(m', cl) == Blocks(m, cl)
    ensures forall c :: 0 <= c < |cl| ==> SameBlocks(m, m', cl[c].lo, cl[c].hi)
  {
    hide Starts, Tiled, Tidy, FreeList, FreeSize, EndsFree, CacheOk, Cached;
    forall c | 0 <= c < |cl| ensures ClusterOk(m', cl[c], fls[c]) && SameBlocks(m, m', cl[c].lo, cl[c].hi) {
      var lo, hi := cl[c].lo, cl[c].hi;
      assert ClusterOk(m, cl[c], fls[c]);
      TiledBounds(m, lo, hi);
      forall s | s in Starts(m, lo, hi) && IsFree(m[s]) ensures m'[s] == m[s] {
        FreeNotCached(m, cl, events, s);
      }
      Frame(m, m', lo, hi);
    }
    forall a ensures a in Blocks(m', cl) <==> a in Blocks(m, cl) {}
  }

  lemma FreeNotCached(m: Memory, cl: seq<Range>, events: seq<seq<int>>, a: int)
    requires CacheOk(m, cl, events) && 0 <= a < |m| && IsFree(m[a])
    ensures a !in Cached(events)
  {
    hide Blocks, Distinct;
    if a in Cached(events) { CachedHeader(m, cl, events, a); }
  }

  lemma ListCount(m: Memory, cl: seq<Range>, events: seq<seq<int>>)
    requires CacheOk(m, cl, events)
    ensures |events| == MAX_FAST_LISTS
  {
  }

  lemma PlusNothing(s: set<int>, t: set<int>, x: int)
    ensures s + {} == s && t - {x} + {} == t - {x}
    ensures forall y :: y != x ==> t + {y} - {x} == t - {x} + {y}
  {
  }

  /** What the picked block's size can be. */
  lemma PickedSize(m: Memory, cl: seq<Range>, events: seq<seq<int>>, n: nat, i: nat, k: int)
    requires CacheOk(m, cl, events) && Picked(m, events, n, i, k) && 0 <= events[i][k] < |m|
    ensures m[events[i][k]].size >= n && (i > 0 ==> m[events[i][k]].size == n)
    ensures m[events[i][k]].size > n ==> i == 0 && MAX_FAST_LISTS <= n
  {
    hide Blocks, Distinct;
    assert CachedAt(m, cl, i, events[i][k]);
  }

  /** The heap and the cache after a cached block was cut in two. */
  lemma SplitEverything(m: Memory, m': Memory, cl: seq<Range>, fls: seq<seq<int>>, events: seq<seq<int>>, a: int,
                        n: nat)
    requires Spaced(cl) && ClustersOk(m, cl, fls) && CacheOk(m, cl, events) && a in Cached(events) && a in Blocks(m, cl)
    requires 0 <= a && a + n < |m| && MAX_FAST_LISTS <= n < m[a].size
    requires m'
           == m[a := Cell(CachedBlock, EVENT_FLAGS, n, m[a].data)]
                [a + n := Cell(CachedBlock, EVENT_FLAGS, m[a].size - n, Raw(0))]
    ensures ClustersOk(m', cl, fls) && CacheOk(m', cl, events)
    ensures Blocks(m', cl) == Blocks(m, cl) + {a + n} && a + n !in Cached(events)
    ensures TotalFree(m', cl) == TotalFree(m, cl)
  {
    hide Blocks, IsLive, ClusterOk, Cached, Distinct, TotalFree, CacheOk;
    SplitInHeap(m, m', cl, fls, a, n);
    TailIsNew(m, cl, events, a + n);
    SplitCache(m, m', cl, events, a, n);
  }

  lemma TailIsNew(m: Memory, cl: seq<Range>, events: seq<seq<int>>, a: int)
    requires CacheOk(m, cl, events) && a !in Blocks(m, cl)
    ensures a !in Cached(events)
  {
    hide Blocks, Distinct;
    if a in Cached(events) { CachedIsBlock(m, cl, events, a); }
  }

  lemma SplitCache(m: Memory, m': Memory, cl: seq<Range>, events: seq<seq<int>>, a: int, n: nat)
    requires CacheOk(m, cl, events) && a in Cached(events) && Blocks(m, cl) <= Blocks(m', cl)
    requires MAX_FAST_LISTS <= n < m[a].size
    requires 0 <= a && a + n < |m| == |m'| && a + n !in Cached(events)
    requires m' == m[a := Cell(CachedBlock, EVENT_FLAGS, n, m[a].data)][a + n := m'[a + n]]
    ensures CacheOk(m', cl, events)
  {
    hide Blocks, IsLive, Distinct, Cached, CacheOk;
    CachedHeader(m, cl, events, a);
    CacheFrame(m, m', cl, events);
  }

  lemma CachedHeader(m: Memory, cl: seq<Range>, events: seq<seq<int>>, a: int)
    requires CacheOk(m, cl, events) && a in Cached(events) && 0 <= a < |m|
    ensures m[a].dt == CachedBlock && m[a].flags == EVENT_FLAGS
  {
    hide Blocks, Distinct;
    var i, k :| Slot(events, i, k) && events[i][k] == a;
    assert CachedAt(m, cl, i, a);
  }

  lemma SameFree(m: Memory, m': Memory, cl: seq<Range>)
    requires forall c :: 0 <= c < |cl| ==> SameBlocks(m, m', cl[c].lo, cl[c].hi)
    ensures TotalFree(m', cl) == TotalFree(m, cl)
  {
    hide Starts, Tiled, Tidy, FreeList, FreeSize, EndsFree;
    TotalFreeSame(m, m', cl);
  }
}
