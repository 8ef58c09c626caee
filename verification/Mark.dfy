/** CLR_RT_GarbageCollector::Mark and MarkSlow: mark from all roots, recover from stack overflow by
    rescanning the heap, then resurrect objects with finalizers. */
module Mark {
  import opened HeapBlocks
  import opened ClusterInvariant
  import opened CompactionSpec
  import opened Reachability
  import opened Marking
  import opened MarkStack

  lemma StartList(m0: Memory, m: Memory, cl: seq<Range>, roots: set<int>, t: Tally, flag: bool, lst: int, num: nat)
    requires Settled(m0, m, cl, roots, t, flag, flag, Dead(m0, m, cl))
    requires ScalarList(m0, cl, lst, num) && JustifiedList(m0, cl, roots, lst, num)
    ensures Marks(m0, m, cl, roots, Work([], lst, num, NULL),
              t.(extra := t.extra + Interval(lst, num)), flag, flag, false, NULL, Dead(m0, m, cl))
  {
    hide Blocks, Dead, Reachable, OnlyMarks, FreeIntact, DroppedOwned, ScalarAt, Justified;
    var w := Work([], lst, num, NULL);
    forall x | 0 <= x < |m0| && Handled(m0, m, IDLE, t.dropped, x) ensures Handled(m0, m, w, t.dropped, x) {}
    forall x | x in Interval(lst, num) && 0 <= x < |m0| ensures Handled(m0, m, w, t.dropped, x) {}
  }

  lemma StartHeader(m0: Memory, m: Memory, cl: seq<Range>, roots: set<int>, t: Tally, flag: bool, b: int)
    requires Settled(m0, m, cl, roots, t, flag, flag, Dead(m0, m, cl))
    requires b != NULL && b in Blocks(m0, cl) && (m0[b].flags.alive || Reachable(m0, cl, roots, b))
    ensures Marks(m0, m, cl, roots, Work([], 0, 0, b), t, flag, flag, true, NULL, Dead(m0, m, cl))
  {
    hide Blocks, Dead, Reachable, OnlyMarks, FreeIntact, DroppedOwned, ScalarAt, Justified;
    var w := Work([], 0, 0, b);
    forall x | 0 <= x < |m0| && Handled(m0, m, IDLE, t.dropped, x) ensures Handled(m0, m, w, t.dropped, x) {}
  }

  /** Blocks still dead can only become fewer; a newly raised flag means they did. */
  ghost predicate Advanced(m0: Memory, m: Memory, m': Memory, cl: seq<Range>, flag: bool, flag': bool)
  {
    && Dead(m0, m', cl) <= Dead(m0, m, cl)
    && (flag ==> flag')
    && (flag' && !flag ==> Dead(m0, m', cl) < Dead(m0, m, cl))
  }

  ghost predicate Rest(m0: Memory, m: Memory, cl: seq<Range>, roots: set<int>, t: Tally, flag: bool)
  {
    Settled(m0, m, cl, roots, t, flag, flag, Dead(m0, m, cl))
  }

  /** CheckMultipleBlocks: a list of root cells. */
  method CheckMultipleBlocks(k: Marker, lst: int, num: nat, ghost m0: Memory, ghost roots: set<int>, ghost t: Tally)
    returns (ghost t': Tally)
    requires GraphOk(m0, k.heap.clusters) && NoMarks(m0, k.heap.clusters) && k.Ready()
    requires Rest(m0, k.heap.mem[..], k.heap.clusters, roots, t, k.outOfStackSpace)
    requires lst != NULL ==>
      ScalarList(m0, k.heap.clusters, lst, num) && JustifiedList(m0, k.heap.clusters, roots, lst, num)
    modifies k.heap.mem, k.markStack, k`top, k`outOfStackSpace
    ensures k.Ready() && Rest(m0, k.heap.mem[..], k.heap.clusters, roots, t', k.outOfStackSpace)
    ensures Advanced(m0, old(k.heap.mem[..]), k.heap.mem[..],
              k.heap.clusters, old(k.outOfStackSpace), k.outOfStackSpace)
    ensures t'.todo == t.todo
    ensures t'.extra == t.extra + (if lst == NULL then {} else Interval(lst, num)) && t.dropped <= t'.dropped
    ensures Ample(m0, k.heap.clusters, k.markStack.Length) ==> k.outOfStackSpace == old(k.outOfStackSpace)
  {
    hide Settled, Marks, Dead, GraphOk, NoMarks, Ample;
    t' := t;
    if lst != NULL {
      StartList(m0, k.heap.mem[..], k.heap.clusters, roots, t, k.outOfStackSpace, lst, num);
      ghost var m, flag := k.heap.mem[..], k.outOfStackSpace;
      t' := k.Run(lst, num, m0, roots, Work([], lst, num, NULL), t.(extra := t.extra + Interval(lst, num)), false);
      RunAdvanced(m0, m, k.heap.mem[..], k.heap.clusters, roots, t', flag, k.outOfStackSpace);
    }
  }

  lemma RunAdvanced(m0: Memory, m: Memory, m': Memory, cl: seq<Range>, roots: set<int>, t: Tally, flag: bool,
                    flag': bool)
    requires Settled(m0, m', cl, roots, t, flag', flag, Dead(m0, m, cl)) && (flag ==> flag')
    ensures Advanced(m0, m, m', cl, flag, flag') && Rest(m0, m', cl, roots, t, flag')
  {
  }

  /** CheckSingleBlock_Force on a block. */
  method CheckForce(k: Marker, b: int, ghost m0: Memory, ghost roots: set<int>, ghost t: Tally)
    returns (ghost t': Tally)
    requires GraphOk(m0, k.heap.clusters) && NoMarks(m0, k.heap.clusters) && k.Ready()
    requires Rest(m0, k.heap.mem[..], k.heap.clusters, roots, t, k.outOfStackSpace)
    requires b != NULL ==>
      b in Blocks(m0, k.heap.clusters) && (m0[b].flags.alive || Reachable(m0, k.heap.clusters, roots, b))
    modifies k.heap.mem, k.markStack, k`top, k`outOfStackSpace
    ensures k.Ready() && Rest(m0, k.heap.mem[..], k.heap.clusters, roots, t', k.outOfStackSpace)
    ensures Advanced(m0, old(k.heap.mem[..]), k.heap.mem[..],
              k.heap.clusters, old(k.outOfStackSpace), k.outOfStackSpace)
    ensures t'.todo == WithoutTodo(t, b).todo && t'.extra == t.extra && t.dropped <= t'.dropped
    ensures b != NULL ==> IsAlive(k.heap.mem[..], b)
    ensures Ample(m0, k.heap.clusters, k.markStack.Length) ==> k.outOfStackSpace == old(k.outOfStackSpace)
  {
    hide Settled, Marks, Dead, GraphOk, NoMarks, Ample;
    t' := t;
    if b != NULL {
      StartHeader(m0, k.heap.mem[..], k.heap.clusters, roots, t, k.outOfStackSpace, b);
      ghost var m, flag := k.heap.mem[..], k.outOfStackSpace;
      t' := k.Run(b, 1, m0, roots, Work([], 0, 0, b), t, true);
      RunAdvanced(m0, m, k.heap.mem[..], k.heap.clusters, roots, t', flag, k.outOfStackSpace);
    }
  }

  /** CheckSingleBlock: the same, unless the block is marked already. */
  method CheckSingleBlock(k: Marker, b: int, ghost m0: Memory, ghost roots: set<int>, ghost t: Tally)
    returns (ghost t': Tally)
    requires GraphOk(m0, k.heap.clusters) && NoMarks(m0, k.heap.clusters) && k.Ready()
    requires Rest(m0, k.heap.mem[..], k.heap.clusters, roots, t, k.outOfStackSpace) && t.todo == {}
    requires b != NULL ==>
      b in Blocks(m0, k.heap.clusters) && (m0[b].flags.alive || Reachable(m0, k.heap.clusters, roots, b))
    modifies k.heap.mem, k.markStack, k`top, k`outOfStackSpace
    ensures k.Ready() && Rest(m0, k.heap.mem[..], k.heap.clusters, roots, t', k.outOfStackSpace)
    ensures Advanced(m0, old(k.heap.mem[..]), k.heap.mem[..],
              k.heap.clusters, old(k.outOfStackSpace), k.outOfStackSpace)
    ensures t'.todo == {} && t'.extra == t.extra && t.dropped <= t'.dropped
    ensures b != NULL ==> IsAlive(k.heap.mem[..], b)
    ensures Ample(m0, k.heap.clusters, k.markStack.Length) ==> k.outOfStackSpace == old(k.outOfStackSpace)
  {
    hide Settled, Marks, Dead, GraphOk, NoMarks, Ample;
    t' := t;
    if b != NULL {
      BlockInRange(m0, k.heap.mem[..], k.heap.clusters, roots, t, k.outOfStackSpace, b);
      if !k.heap.mem[b].flags.alive {
        t' := CheckForce(k, b, m0, roots, t);
      }
    }
  }

  lemma BlockInRange(m0: Memory, m: Memory, cl: seq<Range>, roots: set<int>, t: Tally, flag: bool, b: int)
    requires Rest(m0, m, cl, roots, t, flag) && b in Blocks(m0, cl)
    ensures 0 <= b < |m| == |m0|
  {
  }

  /** The blocks at or above address p that a rescan has not come to yet. */
  ghost predicate FromHere(m0: Memory, cl: seq<Range>, todo: set<int>, p: int)
  {
    forall b :: b in todo ==> b in Blocks(m0, cl) && p <= b
  }

  /** A block that is dead, or an event, needs no rescan. */
  lemma Accounted(m0: Memory, m: Memory, cl: seq<Range>, roots: set<int>, t: Tally, flag: bool, b: int)
    requires GraphOk(m0, cl) && Rest(m0, m, cl, roots, t, flag)
    requires b in Blocks(m0, cl) ==> !IsAlive(m, b) || m0[b].flags.event
    ensures Rest(m0, m, cl, roots, t.(todo := t.todo - {b}), flag)
  {
    hide Blocks, Dead, Reachable, Sound, OnlyMarks, FreeIntact, DroppedOwned;
    var t' := t.(todo := t.todo - {b});
    forall a, x | a in Blocks(m0, cl) && IsAlive(m, a) && a !in t'.todo && CellOf(m0, a, x) && 0 <= x < |m0|
      ensures Handled(m0, m, IDLE, t'.dropped, x)
    {
      if a == b { assert Leaf(m0[b]); } else { assert Handled(m0, m, IDLE, t.dropped, x); }
    }
  }

  /** What the header at ptr says in the marked memory. */
  lemma HeaderSays(m0: Memory, m: Memory, cl: seq<Range>, roots: set<int>, t: Tally, flag: bool, c: nat, p: int)
    requires Rest(m0, m, cl, roots, t, flag) && c < |cl| && p in Starts(m0, cl[c].lo, cl[c].hi)
    requires NoMarks(m0, cl) && NoFreeMarks(m0, cl)
    ensures 0 <= p < |m0| == |m| && m[p].size == m0[p].size && m[p].flags.event == m0[p].flags.event
    ensures m[p].flags.alive ==> p in Blocks(m0, cl) && (m0[p].flags.event || Reachable(m0, cl, roots, p))
  {
    hide Starts;
    if m[p].flags.alive {
      assert !IsFree(m0[p]);
      assert p in Live(m0, cl[c].lo, cl[c].hi);
    }
  }

  ghost predicate NoFreeMarks(m: Memory, cl: seq<Range>)
  {
    forall c, a :: 0 <= c < |cl| && a in Starts(m, cl[c].lo, cl[c].hi) && IsFree(m[a]) ==> !m[a].flags.alive
  }

  /** No block starts inside block p. */
  lemma NothingInside(m0: Memory, cl: seq<Range>, c: nat, p: int, b: int)
    requires Laid(m0, cl) && c < |cl| && p in Starts(m0, cl[c].lo, cl[c].hi) && b in Blocks(m0, cl) && p < b
    ensures 0 <= p < |m0| && p + m0[p].size <= b
  {
    hide Starts;
    var d :| 0 <= d < |cl| && b in Live(m0, cl[d].lo, cl[d].hi);
    if d == c { Disjoint(m0, cl[c].lo, cl[c].hi, p, b); }
  }

  lemma FromHereNext(m0: Memory, cl: seq<Range>, c: nat, p: int, todo: set<int>)
    requires Laid(m0, cl) && c < |cl| && p in Starts(m0, cl[c].lo, cl[c].hi) && FromHere(m0, cl, todo, p)
    ensures 0 <= p < |m0| && FromHere(m0, cl, todo - {p}, p + m0[p].size)
  {
    hide Starts, Blocks;
    forall b | b in todo - {p} ensures p + m0[p].size <= b { NothingInside(m0, cl, c, p, b); }
  }

  lemma FromNextCluster(m0: Memory, cl: seq<Range>, c: nat, todo: set<int>)
    requires Spaced(cl) && c < |cl| && FromHere(m0, cl, todo, cl[c].hi)
    ensures c + 1 < |cl| ==> FromHere(m0, cl, todo, cl[c + 1].lo)
    ensures c + 1 == |cl| ==> todo == {}
  {
    hide Starts;
    forall b | b in todo ensures c + 1 < |cl| && cl[c + 1].lo <= b {
      var d :| 0 <= d < |cl| && b in Live(m0, cl[d].lo, cl[d].hi);
      assert d > c;
    }
  }

  lemma Layout(m0: Memory, cl: seq<Range>, c: nat)
    requires Laid(m0, cl) && c < |cl|
    ensures 0 < cl[c].lo <= cl[c].hi && Tiled(m0, cl[c].lo, cl[c].lo) && Tiled(m0, cl[c].lo, cl[c].hi)
  {
    TiledBounds(m0, cl[c].lo, cl[c].hi);
  }

  /** The header a walk has come to. */
  lemma WalkStep(m: Memory, lo: int, p: int, hi: int)
    requires Tiled(m, lo, p) && Tiled(m, p, hi) && p < hi
    ensures p in Starts(m, lo, hi) && Fits(m, p, hi)
    ensures Tiled(m, lo, p + m[p].size) && Tiled(m, p + m[p].size, hi)
  {
    hide Starts;
    OneBlock(m, p, p + m[p].size);
    Join(m, p, p + m[p].size, hi);
    Join(m, lo, p, hi);
    Join(m, lo, p, p + m[p].size);
  }

  lemma GraphLaid(m0: Memory, cl: seq<Range>)
    requires GraphOk(m0, cl)
    ensures Laid(m0, cl)
  {
  }

  /** The part of a MarkSlow pass that rescans cluster c. */
  method RescanCluster(k: Marker, c: nat, ghost m0: Memory, ghost roots: set<int>, ghost t: Tally,
                       ghost dead0: set<int>)
    returns (ghost t': Tally)
    requires GraphOk(m0, k.heap.clusters) && NoMarks(m0, k.heap.clusters) && NoFreeMarks(m0, k.heap.clusters)
    requires k.Ready()
    requires Rest(m0, k.heap.mem[..], k.heap.clusters, roots, t, k.outOfStackSpace)
    requires c < |k.heap.clusters| && FromHere(m0, k.heap.clusters, t.todo, k.heap.clusters[c].lo)
    requires Dead(m0, k.heap.mem[..], k.heap.clusters) <= dead0
    requires k.outOfStackSpace ==> Dead(m0, k.heap.mem[..], k.heap.clusters) < dead0
    modifies k.heap.mem, k.markStack, k`top, k`outOfStackSpace
    ensures k.Ready() && Rest(m0, k.heap.mem[..], k.heap.clusters, roots, t', k.outOfStackSpace)
    ensures t'.extra == t.extra && FromHere(m0, k.heap.clusters, t'.todo, k.heap.clusters[c].hi)
    ensures Dead(m0, k.heap.mem[..], k.heap.clusters) <= dead0
    ensures k.outOfStackSpace ==> Dead(m0, k.heap.mem[..], k.heap.clusters) < dead0
  {
    hide Starts, Tiled, Settled, Rest, Dead, Laid, GraphOk, NoMarks, NoFreeMarks, Blocks, FromHere, Reachable;
    ghost var cl := k.heap.clusters;
    var ptr, end := k.heap.clusters[c].lo, k.heap.clusters[c].hi;
    t' := t;
    GraphLaid(m0, cl);
    Layout(m0, cl, c);
    while ptr < end
      invariant Tiled(m0, cl[c].lo, ptr) && Tiled(m0, ptr, end) && cl[c].lo <= ptr <= end
      invariant k.Ready() && Rest(m0, k.heap.mem[..], cl, roots, t', k.outOfStackSpace)
      invariant t'.extra == t.extra && FromHere(m0, cl, t'.todo, ptr)
      invariant Dead(m0, k.heap.mem[..], cl) <= dead0
      invariant k.outOfStackSpace ==> Dead(m0, k.heap.mem[..], cl) < dead0
    {
      WalkStep(m0, cl[c].lo, ptr, end);
      FromHereNext(m0, cl, c, ptr, t'.todo);
      HeaderSays(m0, k.heap.mem[..], cl, roots, t', k.outOfStackSpace, c, ptr);
      if k.heap.mem[ptr].flags.alive && !k.heap.mem[ptr].flags.event {
        t' := CheckForce(k, ptr, m0, roots, t');
      } else {
        Accounted(m0, k.heap.mem[..], cl, roots, t', k.outOfStackSpace, ptr);
        t' := t'.(todo := t'.todo - {ptr});
      }
      HeaderSays(m0, k.heap.mem[..], cl, roots, t', k.outOfStackSpace, c, ptr);
      ptr := ptr + k.heap.mem[ptr].size;
    }
  }

  /** A MarkSlow pass starts with every block to be rescanned and the dropped cells forgotten. */
  lemma StartPass(m0: Memory, m: Memory, cl: seq<Range>, roots: set<int>, t: Tally, flag: bool, lost: set<int>,
                  lost': set<int>)
    requires Laid(m0, cl) && Rest(m0, m, cl, roots, t, flag) && DroppedOwned(m0, m, cl, lost)
    requires lost' == lost + t.dropped
    ensures Rest(m0, m, cl, roots, Tally(Blocks(m0, cl), {}, t.extra - t.dropped), false)
    ensures DroppedOwned(m0, m, cl, lost')
    ensures |cl| > 0 ==> FromHere(m0, cl, Blocks(m0, cl), cl[0].lo)
    ensures |cl| == 0 ==> Blocks(m0, cl) == {}
  {
    hide Starts, Dead, Reachable, Sound, OnlyMarks, FreeIntact;
    forall x | x in t.extra - t.dropped && 0 <= x < |m0| ensures Handled(m0, m, IDLE, {}, x) {
      assert Handled(m0, m, IDLE, t.dropped, x);
    }
    forall b | b in Blocks(m0, cl) ensures |cl| > 0 && cl[0].lo <= b {
      var d :| 0 <= d < |cl| && b in Live(m0, cl[d].lo, cl[d].hi);
    }
  }

  /** Cells of marked blocks stay cells of marked blocks. */
  lemma LostOwned(m0: Memory, m: Memory, m': Memory, cl: seq<Range>, lost: set<int>)
    requires DroppedOwned(m0, m, cl, lost) && Dead(m0, m', cl) <= Dead(m0, m, cl)
    ensures DroppedOwned(m0, m', cl, lost)
  {
    hide Blocks, CellOf;
    forall x | x in lost
      ensures exists b :: b in Blocks(m0, cl) && IsAlive(m', b) && !m0[b].flags.event && CellOf(m0, b, x)
    {
      var b :| b in Blocks(m0, cl) && IsAlive(m, b) && !m0[b].flags.event && CellOf(m0, b, x);
      assert b !in Dead(m0, m', cl);
    }
  }

  lemma NoneDropped(m0: Memory, m: Memory, cl: seq<Range>)
    ensures DroppedOwned(m0, m, cl, {})
  {
  }

  /** With nothing dropped any more, a cell lost on the way has been visited through its owner. */
  lemma NothingLost(m0: Memory, m: Memory, cl: seq<Range>, roots: set<int>, t: Tally, lost: set<int>, extra: set<int>)
    requires Rest(m0, m, cl, roots, t, false) && t.todo == {} && DroppedOwned(m0, m, cl, lost)
    requires extra <= t.extra + lost
    ensures Rest(m0, m, cl, roots, Tally({}, {}, extra), false)
  {
    hide Blocks, Dead, Reachable, Sound, OnlyMarks, FreeIntact, Handled;
    assert t.dropped == {};
    forall x | x in extra && 0 <= x < |m0| ensures Handled(m0, m, IDLE, {}, x) {
      if x !in t.extra {
        var b :| b in Blocks(m0, cl) && IsAlive(m, b) && !m0[b].flags.event && CellOf(m0, b, x);
      }
    }
  }

  /** One pass of MarkSlow over all clusters. */
  method RescanHeap(k: Marker, ghost m0: Memory, ghost roots: set<int>, ghost t: Tally) returns (ghost t': Tally)
    requires GraphOk(m0, k.heap.clusters) && NoMarks(m0, k.heap.clusters) && NoFreeMarks(m0, k.heap.clusters)
    requires k.Ready()
    requires Rest(m0, k.heap.mem[..], k.heap.clusters, roots, t, k.outOfStackSpace) && !k.outOfStackSpace
    requires |k.heap.clusters| > 0 ==> FromHere(m0, k.heap.clusters, t.todo, k.heap.clusters[0].lo)
    requires |k.heap.clusters| == 0 ==> t.todo == {}
    modifies k.heap.mem, k.markStack, k`top, k`outOfStackSpace
    ensures k.Ready() && Rest(m0, k.heap.mem[..], k.heap.clusters, roots, t', k.outOfStackSpace)
    ensures t'.extra == t.extra && t'.todo == {}
    ensures Advanced(m0, old(k.heap.mem[..]), k.heap.mem[..], k.heap.clusters, false, k.outOfStackSpace)
  {
    hide Settled, Rest, Dead, Laid, GraphOk, NoMarks, NoFreeMarks, Blocks, FromHere, Reachable;
    ghost var cl, dead0 := k.heap.clusters, Dead(m0, k.heap.mem[..], k.heap.clusters);
    GraphSpaced(m0, cl);
    t' := t;
    var c := 0;
    while c < |k.heap.clusters|
      invariant c <= |cl| && k.Ready() && Rest(m0, k.heap.mem[..], cl, roots, t', k.outOfStackSpace)
      invariant t'.extra == t.extra
      invariant if c < |cl| then FromHere(m0, cl, t'.todo, cl[c].lo) else t'.todo == {}
      invariant Dead(m0, k.heap.mem[..], cl) <= dead0
      invariant k.outOfStackSpace ==> Dead(m0, k.heap.mem[..], cl) < dead0
    {
      t' := RescanCluster(k, c, m0, roots, t', dead0);
      FromNextCluster(m0, cl, c, t'.todo);
      c := c + 1;
    }
  }

  lemma GraphSpaced(m0: Memory, cl: seq<Range>)
    requires GraphOk(m0, cl)
    ensures Spaced(cl)
  {
  }

  /** MarkSlow: rescan until a pass overflows no more.  Each pass that overflows has marked a block. */
  method MarkSlow(k: Marker, ghost m0: Memory, ghost roots: set<int>, ghost t: Tally)
    requires GraphOk(m0, k.heap.clusters) && NoMarks(m0, k.heap.clusters) && NoFreeMarks(m0, k.heap.clusters)
    requires k.Ready()
    requires Rest(m0, k.heap.mem[..], k.heap.clusters, roots, t, k.outOfStackSpace) && t.todo == {}
    modifies k.heap.mem, k.markStack, k`top, k`outOfStackSpace
    ensures k.Ready() && !k.outOfStackSpace
    ensures Rest(m0, k.heap.mem[..], k.heap.clusters, roots, Tally({}, {}, t.extra), false)
    ensures Dead(m0, k.heap.mem[..], k.heap.clusters) <= Dead(m0, old(k.heap.mem[..]), k.heap.clusters)
  {
    hide Settled, Rest, Dead, Laid, GraphOk, NoMarks, NoFreeMarks, Blocks, FromHere, Reachable, DroppedOwned;
    ghost var cl, t', lost := k.heap.clusters, t, {};
    GraphLaid(m0, cl);
    NoneDropped(m0, k.heap.mem[..], cl);
    while k.outOfStackSpace
      invariant k.Ready() && Rest(m0, k.heap.mem[..], cl, roots, t', k.outOfStackSpace) && t'.todo == {}
      invariant DroppedOwned(m0, k.heap.mem[..], cl, lost) && t.extra <= t'.extra + lost
      invariant Dead(m0, k.heap.mem[..], cl) <= Dead(m0, old(k.heap.mem[..]), cl)
      decreases Dead(m0, k.heap.mem[..], cl), k.outOfStackSpace
    {
      ghost var m := k.heap.mem[..];
      StartPass(m0, m, cl, roots, t', k.outOfStackSpace, lost, lost + t'.dropped);
      lost := lost + t'.dropped;
      k.outOfStackSpace := false;
      t' := RescanHeap(k, m0, roots, Tally(Blocks(m0, cl), {}, t'.extra - t'.dropped));
      LostOwned(m0, m, k.heap.mem[..], cl, lost);
    }
    NothingLost(m0, k.heap.mem[..], cl, roots, t', lost, t.extra);
  }
}
