/** CLR_RT_GarbageCollector::Mark as a whole: roots, overflow recovery, then the resurrection of dead
    objects that have a finalizer. */
module Finalization {
  import opened Selection
  import opened HeapBlocks
  import opened HeapCluster
  import opened CompactionSpec
  import opened Reachability
  import opened Marking
  import opened MarkStack
  import opened Mark

  datatype Finalizer = Finalizer(obj: int, id: int)

  /** What the global markers hand to the collector: one block, or a list of cells outside any header. */
  datatype Root = Forced(block: int) | Cells(first: int, count: nat)

  ghost predicate RootOk(m: Memory, cl: seq<Range>, r: Root)
  {
    match r
    case Forced(b) => b == NULL || b in Blocks(m, cl)
    case Cells(first, count) => first == NULL || ScalarList(m, cl, first, count)
  }

  ghost predicate RootsOk(m: Memory, cl: seq<Range>, rs: seq<Root>)
  {
    forall i :: 0 <= i < |rs| ==> RootOk(m, cl, rs[i])
  }

  /** The blocks a root refers to. */
  ghost function RootBlocks(m: Memory, r: Root): (s: set<int>)
  {
    match r
    case Forced(b) => {b} - {NULL}
    case Cells(first, count) =>
      if first == NULL then {} else (set x | x in Interval(first, count) && 0 <= x < |m| :: Target(m[x])) - {NULL}
  }

  ghost function AllRoots(m: Memory, rs: seq<Root>): (s: set<int>)
  {
    if rs == [] then {} else AllRoots(m, rs[..|rs| - 1]) + RootBlocks(m, rs[|rs| - 1])
  }

  ghost function Objects(fs: seq<Finalizer>): (s: set<int>)
    ensures forall i :: 0 <= i < |fs| ==> fs[i].obj in s
  {
    set f | f in fs :: f.obj
  }

  lemma ObjectsNext(fs: seq<Finalizer>, i: nat)
    requires i < |fs|
    ensures Objects(fs[..i + 1]) == Objects(fs[..i]) + {fs[i].obj}
  {
    assert fs[..i + 1] == fs[..i] + [fs[i]];
    forall b ensures b in Objects(fs[..i + 1]) <==> b in Objects(fs[..i]) + {fs[i].obj} {
      if b in Objects(fs[..i]) {
        var f :| f in fs[..i] && f.obj == b;
        assert f in fs[..i + 1];
      }
    }
  }

  /** Every root block is marked, or some root cell that leads to it has been handed to the marker. */
  ghost predicate Seeded(m0: Memory, m: Memory, cl: seq<Range>, extra: set<int>, rs: set<int>)
  {
    forall r :: r in rs ==>
      && r in Blocks(m0, cl) && r != NULL
      && (IsAlive(m, r) || exists x :: x in extra && 0 <= x < |m0| && Target(m0[x]) == r)
  }

  lemma SeededNext(m0: Memory, m: Memory, m': Memory, cl: seq<Range>, extra: set<int>, extra': set<int>, rs: set<int>,
                   r: Root)
    requires Seeded(m0, m, cl, extra, rs) && RootOk(m0, cl, r) && Dead(m0, m', cl) <= Dead(m0, m, cl)
    requires match r
      case Forced(b) => extra' == extra && (b != NULL ==> IsAlive(m', b))
      case Cells(first, count) => extra' == extra + (if first == NULL then {} else Interval(first, count))
    ensures Seeded(m0, m', cl, extra', rs + RootBlocks(m0, r))
  {
    hide Blocks;
    forall b | b in rs + RootBlocks(m0, r)
      ensures b in Blocks(m0, cl) && b != NULL
      ensures (IsAlive(m', b) || exists x :: x in extra' && 0 <= x < |m0| && Target(m0[x]) == b)
    {
      if b in rs {
        if IsAlive(m, b) {
          assert b !in Dead(m0, m', cl);
        } else {
          var x :| x in extra && 0 <= x < |m0| && Target(m0[x]) == b;
          assert x in extra';
        }
      } else if r.Cells? {
        var x :| x in Interval(r.first, r.count) && 0 <= x < |m0| && Target(m0[x]) == b;
        assert ScalarAt(m0, cl, x) && x in extra';
      }
    }
  }

  /** A larger root set justifies all the more. */
  lemma Widen(m0: Memory, m: Memory, cl: seq<Range>, rs: set<int>, rs': set<int>, t: Tally, flag: bool)
    requires Rest(m0, m, cl, rs, t, flag) && rs <= rs'
    ensures Rest(m0, m, cl, rs', t, flag)
  {
    hide Blocks, Dead, OnlyMarks, FreeIntact, DroppedOwned, Complete;
    forall b | b in Blocks(m0, cl) && IsAlive(m, b) ensures m0[b].flags.alive || Reachable(m0, cl, rs', b) {
      if !m0[b].flags.alive { ReachableWiden(m0, cl, rs, rs', b); }
    }
  }

  lemma ReachableWiden(m0: Memory, cl: seq<Range>, rs: set<int>, rs': set<int>, b: int)
    requires Reachable(m0, cl, rs, b) && rs <= rs'
    ensures Reachable(m0, cl, rs', b)
  {
    var path :| PathTo(m0, cl, rs, path, b);
    assert PathTo(m0, cl, rs', path, b);
  }

  /** What a finished mark amounts to. */
  ghost predicate Exact(m0: Memory, m: Memory, cl: seq<Range>, rs: set<int>)
  {
    && OnlyMarks(m0, m) && FreeIntact(m0, m, cl)
    && forall b :: b in Blocks(m0, cl) ==> (IsAlive(m, b) <==> m0[b].flags.alive || Reachable(m0, cl, rs, b))
  }

  /** A mark with nothing dropped has marked exactly what is reachable. */
  lemma ExactlyReachable(m0: Memory, m: Memory, cl: seq<Range>, rs: set<int>, t: Tally)
    requires GraphOk(m0, cl) && Rest(m0, m, cl, rs, t, false) && t.todo == {}
    requires Seeded(m0, m, cl, t.extra, rs)
    ensures Exact(m0, m, cl, rs)
  {
    hide Blocks, Dead, Complete, Sound, Seeded, Edge, PathTo, GraphOk, Settled, Reachable, OnlyMarks, FreeIntact;
    RestFacts(m0, m, cl, rs, t);
    var s := set b | b in Blocks(m0, cl) && IsAlive(m, b);
    forall a | a in rs ensures a in s { SeedAlive(m0, m, cl, rs, t, a); }
    forall a, b | a in s && b in Blocks(m0, cl) && Edge(m0, a, b) ensures b in s {
      EdgeAlive(m0, m, cl, rs, t, a, b);
    }
    forall b | b in Blocks(m0, cl) && Reachable(m0, cl, rs, b) ensures b in s {
      ClosedHolds(m0, cl, rs, s, b);
    }
  }

  lemma RestFacts(m0: Memory, m: Memory, cl: seq<Range>, rs: set<int>, t: Tally)
    requires Rest(m0, m, cl, rs, t, false)
    ensures t.dropped == {} && OnlyMarks(m0, m) && FreeIntact(m0, m, cl)
    ensures forall b :: b in Blocks(m0, cl) && IsAlive(m, b) ==> m0[b].flags.alive || Reachable(m0, cl, rs, b)
    ensures forall b :: b in Blocks(m0, cl) && m0[b].flags.alive ==> IsAlive(m, b)
  {
    hide Blocks, Dead, Reachable;
  }

  lemma ClosedHolds(m: Memory, cl: seq<Range>, rs: set<int>, s: set<int>, b: int)
    requires Reachable(m, cl, rs, b)
    requires forall a :: a in rs && a in Blocks(m, cl) ==> a in s
    requires forall a, t :: a in s && a in Blocks(m, cl) && t in Blocks(m, cl) && Edge(m, a, t) ==> t in s
    ensures b in s
  {
    hide Blocks, Edge;
    var path :| PathTo(m, cl, rs, path, b);
    ClosedHoldsPath(m, cl, rs, s, path, b);
  }

  /** A marked block's references are marked. */
  lemma EdgeAlive(m0: Memory, m: Memory, cl: seq<Range>, rs: set<int>, t: Tally, a: int, b: int)
    requires Rest(m0, m, cl, rs, t, false) && t.todo == {} && t.dropped == {}
    requires a in Blocks(m0, cl) && IsAlive(m, a) && b in Blocks(m0, cl) && Edge(m0, a, b)
    ensures IsAlive(m, b)
  {
    hide Blocks, Dead, Sound, OnlyMarks, FreeIntact, DroppedOwned;
    var x :| CellOf(m0, a, x) && 0 <= x < |m0| && Target(m0[x]) == b;
    assert Handled(m0, m, IDLE, t.dropped, x);
  }

  lemma SeedAlive(m0: Memory, m: Memory, cl: seq<Range>, rs: set<int>, t: Tally, a: int)
    requires Rest(m0, m, cl, rs, t, false) && t.dropped == {} && Seeded(m0, m, cl, t.extra, rs) && a in rs
    ensures a in Blocks(m0, cl) && IsAlive(m, a)
  {
    hide Blocks, Dead, Sound, OnlyMarks, FreeIntact, DroppedOwned;
  }

  /** Before anything is marked, nothing is missing: the only marked blocks are events, which refer to nothing. */
  lemma StartMark(m: Memory, cl: seq<Range>, rs: set<int>)
    requires GraphOk(m, cl) && NoMarks(m, cl)
    ensures Rest(m, m, cl, rs, Tally({}, {}, {}), false) && Seeded(m, m, cl, {}, {})
  {
    hide Blocks, Dead;
    forall b, x | b in Blocks(m, cl) && IsAlive(m, b) && CellOf(m, b, x) && 0 <= x < |m|
      ensures Handled(m, m, IDLE, {}, x)
    {
      assert Leaf(m[b]);
    }
  }

  /** A root's blocks are reachable from any root set that holds them. */
  lemma RootJustified(m: Memory, cl: seq<Range>, rs: set<int>, r: Root)
    requires RootOk(m, cl, r) && RootBlocks(m, r) <= rs
    ensures r.Forced? && r.block != NULL ==> r.block in Blocks(m, cl) && Reachable(m, cl, rs, r.block)
    ensures r.Cells? && r.first != NULL ==>
      ScalarList(m, cl, r.first, r.count) && JustifiedList(m, cl, rs, r.first, r.count)
  {
    hide Blocks, Reachable;
    match r {
      case Forced(b) => if b != NULL { ReachableRoot(m, cl, rs, b); }
      case Cells(first, count) =>
        if first != NULL {
          forall x | first <= x < first + count ensures Justified(m, cl, rs, x) {
            assert ScalarAt(m, cl, x) && x in Interval(first, count);
            if Target(m[x]) != NULL { ReachableRoot(m, cl, rs, Target(m[x])); }
          }
        }
    }
  }

  /** The collector between two calls of its marker; `done` are the root blocks handed over so far. */
  ghost predicate Going(m0: Memory, m: Memory, cl: seq<Range>, rs: set<int>, t: Tally, flag: bool, done: set<int>)
  {
    Rest(m0, m, cl, rs, t, flag) && t.todo == {} && Seeded(m0, m, cl, t.extra, done)
  }

  method MarkRoot(k: Marker, r: Root, ghost m0: Memory, ghost rs: set<int>, ghost t: Tally, ghost done: set<int>)
    returns (ghost t': Tally)
    requires GraphOk(m0, k.heap.clusters) && NoMarks(m0, k.heap.clusters) && k.Ready()
    requires Going(m0, k.heap.mem[..], k.heap.clusters, rs, t, k.outOfStackSpace, done)
    requires RootOk(m0, k.heap.clusters, r) && RootBlocks(m0, r) <= rs
    modifies k.heap.mem, k.markStack, k`top, k`outOfStackSpace
    ensures k.Ready() && Going(m0, k.heap.mem[..], k.heap.clusters, rs, t', k.outOfStackSpace, done + RootBlocks(m0, r))
    ensures Dead(m0, k.heap.mem[..], k.heap.clusters) <= Dead(m0, old(k.heap.mem[..]), k.heap.clusters)
    ensures Ample(m0, k.heap.clusters, k.markStack.Length) ==> k.outOfStackSpace == old(k.outOfStackSpace)
  {
    hide Ample, Rest, Dead, GraphOk, NoMarks, Seeded, Blocks, Reachable, RootBlocks, ScalarList, JustifiedList, RootOk;
    ghost var m, cl := k.heap.mem[..], k.heap.clusters;
    RootJustified(m0, cl, rs, r);
    match r {
      case Forced(b) => t' := CheckForce(k, b, m0, rs, t);
      case Cells(first, count) => t' := CheckMultipleBlocks(k, first, count, m0, rs, t);
    }
    SeededNext(m0, m, k.heap.mem[..], cl, t.extra, t'.extra, done, r);
  }

  lemma AllRootsNext(m: Memory, rs: seq<Root>, i: nat)
    requires i < |rs|
    ensures AllRoots(m, rs[..i + 1]) == AllRoots(m, rs[..i]) + RootBlocks(m, rs[i])
  {
    assert rs[..i + 1][..i] == rs[..i];
  }

  lemma {:induction false} AllRootsMember(m: Memory, rs: seq<Root>, i: nat)
    requires i < |rs|
    ensures RootBlocks(m, rs[i]) <= AllRoots(m, rs)
  {
    if i < |rs| - 1 { AllRootsMember(m, rs[..|rs| - 1], i); }
  }

  method MarkRoots(k: Marker, roots: seq<Root>, ghost m0: Memory, ghost rs: set<int>, ghost t: Tally,
                   ghost done: set<int>)
    returns (ghost t': Tally)
    requires GraphOk(m0, k.heap.clusters) && NoMarks(m0, k.heap.clusters) && k.Ready()
    requires Going(m0, k.heap.mem[..], k.heap.clusters, rs, t, k.outOfStackSpace, done)
    requires RootsOk(m0, k.heap.clusters, roots) && AllRoots(m0, roots) <= rs
    modifies k.heap.mem, k.markStack, k`top, k`outOfStackSpace
    ensures k.Ready()
    ensures Going(m0, k.heap.mem[..], k.heap.clusters, rs, t', k.outOfStackSpace, done + AllRoots(m0, roots))
    ensures Ample(m0, k.heap.clusters, k.markStack.Length) ==> k.outOfStackSpace == old(k.outOfStackSpace)
  {
    hide Ample, Going, GraphOk, NoMarks, RootOk, AllRoots, RootBlocks;
    t' := t;
    NoRoots(m0);
    assert roots[..0] == [] && done + {} == done;
    for i := 0 to |roots|
      invariant k.Ready()
      invariant Going(m0, k.heap.mem[..], k.heap.clusters, rs, t', k.outOfStackSpace, done + AllRoots(m0, roots[..i]))
      invariant Ample(m0, k.heap.clusters, k.markStack.Length) ==> k.outOfStackSpace == old(k.outOfStackSpace)
    {
      AllRootsMember(m0, roots, i);
      AllRootsNext(m0, roots, i);
      ghost var done' := done + AllRoots(m0, roots[..i]);
      t' := MarkRoot(k, roots[i], m0, rs, t', done');
      assert done' + RootBlocks(m0, roots[i]) == done + AllRoots(m0, roots[..i + 1]);
    }
    assert roots[..|roots|] == roots;
  }

  lemma NoRoots(m: Memory)
    ensures AllRoots(m, []) == {}
  {
  }

  ghost predicate FinalizersOk(m: Memory, cl: seq<Range>, fs: seq<Finalizer>)
  {
    forall i :: 0 <= i < |fs| ==> fs[i].obj in Blocks(m, cl)
  }

  /** Hand one finalizer's object to the marker, unless it is marked. */
  method MarkObject(k: Marker, b: int, ghost m0: Memory, ghost rs: set<int>, ghost t: Tally, ghost done: set<int>)
    returns (ghost t': Tally)
    requires GraphOk(m0, k.heap.clusters) && NoMarks(m0, k.heap.clusters) && k.Ready()
    requires Going(m0, k.heap.mem[..], k.heap.clusters, rs, t, k.outOfStackSpace, done)
    requires b in Blocks(m0, k.heap.clusters) && b in rs
    modifies k.heap.mem, k.markStack, k`top, k`outOfStackSpace
    ensures k.Ready() && Going(m0, k.heap.mem[..], k.heap.clusters, rs, t', k.outOfStackSpace, done + {b})
    ensures Dead(m0, k.heap.mem[..], k.heap.clusters) <= Dead(m0, old(k.heap.mem[..]), k.heap.clusters)
    ensures Ample(m0, k.heap.clusters, k.markStack.Length) ==> k.outOfStackSpace == old(k.outOfStackSpace)
    ensures old(k.outOfStackSpace) ==> k.outOfStackSpace
  {
    hide Ample, Rest, Dead, GraphOk, NoMarks, Seeded, Blocks, Reachable;
    ghost var m, cl := k.heap.mem[..], k.heap.clusters;
    ReachableRoot(m0, cl, rs, b);
    BlockNotNull(m0, cl, b);
    t' := CheckSingleBlock(k, b, m0, rs, t);
    assert RootBlocks(m0, Forced(b)) == {b};
    SeededNext(m0, m, k.heap.mem[..], cl, t.extra, t'.extra, done, Forced(b));
  }

  lemma BlockNotNull(m: Memory, cl: seq<Range>, b: int)
    requires GraphOk(m, cl) && b in Blocks(m, cl)
    ensures b != NULL && 0 <= b < |m|
  {
  }

  method MarkPending(k: Marker, fs: seq<Finalizer>, ghost m0: Memory, ghost rs: set<int>, ghost t: Tally)
    returns (ghost t': Tally)
    requires GraphOk(m0, k.heap.clusters) && NoMarks(m0, k.heap.clusters) && k.Ready()
    requires Going(m0, k.heap.mem[..], k.heap.clusters, rs, t, k.outOfStackSpace, {})
    requires FinalizersOk(m0, k.heap.clusters, fs) && Objects(fs) <= rs
    modifies k.heap.mem, k.markStack, k`top, k`outOfStackSpace
    ensures k.Ready() && Going(m0, k.heap.mem[..], k.heap.clusters, rs, t', k.outOfStackSpace, Objects(fs))
    ensures Ample(m0, k.heap.clusters, k.markStack.Length) ==> k.outOfStackSpace == old(k.outOfStackSpace)
  {
    hide Ample, Going, GraphOk, NoMarks, Blocks;
    t' := t;
    assert fs[..0] == [] && Objects([]) == {};
    for i := 0 to |fs|
      invariant k.Ready() && Going(m0, k.heap.mem[..], k.heap.clusters, rs, t', k.outOfStackSpace, Objects(fs[..i]))
      invariant Ample(m0, k.heap.clusters, k.markStack.Length) ==> k.outOfStackSpace == old(k.outOfStackSpace)
    {
      ObjectsNext(fs, i);
      t' := MarkObject(k, fs[i].obj, m0, rs, t', Objects(fs[..i]));
    }
    assert fs[..|fs|] == fs;
  }

  // ---- Resurrection ----

  /** The finalizers whose verdict is `want`, in order. */
  ghost function Chosen(fs: seq<Finalizer>, verdicts: seq<bool>, want: bool): (r: seq<Finalizer>)
    requires |fs| == |verdicts|
  {
    if fs == [] then []
    else
      Chosen(fs[..|fs| - 1], verdicts[..|fs| - 1], want)
      + (if verdicts[|fs| - 1] == want then [fs[|fs| - 1]] else [])
  }

  lemma ChosenNext(fs: seq<Finalizer>, verdicts: seq<bool>, n: nat, v: bool, want: bool)
    requires n == |verdicts| < |fs|
    ensures Chosen(fs[..n + 1], verdicts + [v], want)
          == Chosen(fs[..n], verdicts, want) + (if v == want then [fs[n]] else [])
  {
    assert fs[..n + 1][..n] == fs[..n] && (verdicts + [v])[..n] == verdicts;
  }

  /** No finalizer is lost or duplicated ... */
  lemma {:induction false} ChosenPartition(fs: seq<Finalizer>, verdicts: seq<bool>)
    requires |fs| == |verdicts|
    ensures multiset(Chosen(fs, verdicts, true)) + multiset(Chosen(fs, verdicts, false)) == multiset(fs)
  {
    if fs != [] {
      ChosenPartition(fs[..|fs| - 1], verdicts[..|fs| - 1]);
      assert fs == fs[..|fs| - 1] + [fs[|fs| - 1]];
    }
  }

  /** ... and each list keeps the order there was. */
  lemma {:induction false} ChosenPicks(fs: seq<Finalizer>, verdicts: seq<bool>, want: bool) returns (rank: seq<int>)
    requires |fs| == |verdicts|
    ensures Picks(fs, Chosen(fs, verdicts, want), rank)
    ensures forall i :: 0 <= i < |fs| ==> (Taken(rank, i) <==> verdicts[i] == want)
  {
    rank := [0];
    if fs != [] {
      var n := |fs| - 1;
      rank := ChosenPicks(fs[..n], verdicts[..n], want);
      PicksBack(fs[..n], fs[n], Chosen(fs[..n], verdicts[..n], want), rank, verdicts[n] == want);
      rank := AtEnd(rank, verdicts[n] == want);
      assert fs == fs[..n] + [fs[n]];
    }
  }

  /** Neither an event nor reachable: the object would be swept. */
  ghost predicate Doomed(m0: Memory, cl: seq<Range>, rs: set<int>, b: int)
  {
    b in Blocks(m0, cl) && !m0[b].flags.alive && !Reachable(m0, cl, rs, b)
  }

  /** Which finalizers are made pending: at least those whose object nothing examined earlier keeps
      alive, and only those whose object the roots do not keep alive.  Without overflow, exactly the former. */
  ghost predicate Verdicts(m0: Memory, cl: seq<Range>, rs: set<int>, fs: seq<Finalizer>, dead: seq<bool>,
                           overflow: bool)
  {
    |dead| <= |fs| && forall i :: 0 <= i < |dead| ==>
      && (dead[i] ==> Doomed(m0, cl, rs, fs[i].obj))
      && (Doomed(m0, cl, rs + Objects(fs[..i]), fs[i].obj) ==> dead[i])
      && (dead[i] && !overflow ==> Doomed(m0, cl, rs + Objects(fs[..i]), fs[i].obj))
  }

  /** What an object's mark says when its finalizer is examined. */
  lemma Judge(m0: Memory, m1: Memory, m: Memory, cl: seq<Range>, rs: set<int>, rs': set<int>, t: Tally, flag: bool,
              b: int)
    requires GraphOk(m0, cl) && Exact(m0, m1, cl, rs) && Going(m0, m, cl, rs', t, flag, rs')
    requires Dead(m0, m, cl) <= Dead(m0, m1, cl) && b in Blocks(m0, cl)
    ensures 0 <= b < |m| == |m0|
    ensures !m[b].flags.alive ==> Doomed(m0, cl, rs, b) && (!flag ==> Doomed(m0, cl, rs', b))
    ensures Doomed(m0, cl, rs', b) ==> !m[b].flags.alive
  {
    hide Blocks, GraphOk, Complete, Reachable, Seeded, FreeIntact, DroppedOwned;
    BlockNotNull(m0, cl, b);
    if !IsAlive(m, b) {
      assert b in Dead(m0, m1, cl);
      if !flag { ExactlyReachable(m0, m, cl, rs', t); }
    }
  }

  /** An object that is marked may join the root set. */
  lemma JoinRoots(m0: Memory, m: Memory, cl: seq<Range>, rs: set<int>, t: Tally, flag: bool, b: int)
    requires GraphOk(m0, cl) && Going(m0, m, cl, rs, t, flag, rs) && b in Blocks(m0, cl)
    ensures Going(m0, m, cl, rs + {b}, t, flag, rs)
    ensures IsAlive(m, b) ==> Going(m0, m, cl, rs + {b}, t, flag, rs + {b})
  {
    hide Blocks, GraphOk, Rest;
    Widen(m0, m, cl, rs, rs + {b}, t, flag);
    BlockNotNull(m0, cl, b);
  }

  lemma VerdictsNext(m0: Memory, cl: seq<Range>, rs: set<int>, fs: seq<Finalizer>, dead: seq<bool>, v: bool, flag: bool,
                     flag': bool)
    requires Verdicts(m0, cl, rs, fs, dead, flag) && |dead| < |fs| && (flag ==> flag')
    requires var b, rs' := fs[|dead|].obj, rs + Objects(fs[..|dead|]);
      (v ==> Doomed(m0, cl, rs, b) && (!flag ==> Doomed(m0, cl, rs', b))) && (Doomed(m0, cl, rs', b) ==> v)
    ensures Verdicts(m0, cl, rs, fs, dead + [v], flag')
  {
    hide Doomed;
  }

  /** What Mark leaves behind, given the heap and the lists it found. */
  ghost predicate Marked(m0: Memory, m: Memory, cl: seq<Range>, roots: seq<Root>, fs: seq<Finalizer>,
                         ps: seq<Finalizer>,
                         fs': seq<Finalizer>, ps': seq<Finalizer>, dead: seq<bool>, overflow: bool)
  {
    var rs := Objects(ps) + AllRoots(m0, roots);
    && Exact(m0, m, cl, rs + Objects(fs))
    && |dead| == |fs| && Verdicts(m0, cl, rs, fs, dead, overflow)
    && fs' == Chosen(fs, dead, false) && ps' == ps + Chosen(fs, dead, true)
  }

  lemma StartGoing(m: Memory, cl: seq<Range>, rs: set<int>)
    requires GraphOk(m, cl) && NoMarks(m, cl)
    ensures Going(m, m, cl, rs, Tally({}, {}, {}), false, {})
  {
    hide Rest, GraphOk, NoMarks, Seeded;
    StartMark(m, cl, rs);
  }

  lemma SeededLater(m0: Memory, m: Memory, m': Memory, cl: seq<Range>, extra: set<int>, rs: set<int>)
    requires Seeded(m0, m, cl, extra, rs) && Dead(m0, m', cl) <= Dead(m0, m, cl)
    ensures Seeded(m0, m', cl, extra, rs)
  {
    hide Blocks;
    assert RootBlocks(m0, Forced(NULL)) == {} && rs + {} == rs;
    SeededNext(m0, m, m', cl, extra, extra, rs, Forced(NULL));
  }

  class Collector {
    const marker: Marker
    var finalizersAlive: seq<Finalizer>
    var finalizersPending: seq<Finalizer>

    constructor (marker: Marker)
      ensures this.marker == marker && finalizersAlive == [] && finalizersPending == []
    {
      this.marker := marker;
      finalizersAlive, finalizersPending := [], [];
    }

    /** The loop over the list of finalizers of live objects. */
    method Resurrect(ghost m0: Memory, ghost rs: set<int>, ghost t: Tally)
      returns (ghost t': Tally, ghost dead: seq<bool>)
      requires GraphOk(m0, marker.heap.clusters) && NoMarks(m0, marker.heap.clusters) && marker.Ready()
      requires !marker.outOfStackSpace
      requires Going(m0, marker.heap.mem[..], marker.heap.clusters, rs, t, false, rs)
      requires Exact(m0, marker.heap.mem[..], marker.heap.clusters, rs)
      requires FinalizersOk(m0, marker.heap.clusters, finalizersAlive)
      modifies this, marker.heap.mem, marker.markStack, marker`top, marker`outOfStackSpace
      ensures marker.Ready() && |dead| == |old(finalizersAlive)|
      ensures var rs' := rs + Objects(old(finalizersAlive));
        Going(m0, marker.heap.mem[..], marker.heap.clusters, rs', t', marker.outOfStackSpace, rs')
      ensures Verdicts(m0, marker.heap.clusters, rs, old(finalizersAlive), dead, marker.outOfStackSpace)
      ensures finalizersAlive == Chosen(old(finalizersAlive), dead, false)
      ensures finalizersPending == old(finalizersPending) + Chosen(old(finalizersAlive), dead, true)
      ensures Ample(m0, marker.heap.clusters, marker.markStack.Length) ==> !marker.outOfStackSpace
    {
      hide Going, GraphOk, NoMarks, Exact, Verdicts, Dead, Chosen, Blocks, Doomed, FinalizersOk, Ample;
      ghost var fs, m1, cl, n := finalizersAlive, marker.heap.mem[..], marker.heap.clusters, 0;
      var i := 0;
      t', dead := t, [];
      StartResurrection(m0, cl, rs, fs);
      assert rs + Objects(fs[..0]) == rs && fs[0..] == fs;
      while i < |finalizersAlive|
        invariant n == |dead| <= |fs| && i <= |finalizersAlive| && finalizersAlive[..i] == Chosen(fs[..n], dead, false)
        invariant finalizersAlive[i..] == fs[n..]
        invariant finalizersPending == old(finalizersPending) + Chosen(fs[..n], dead, true)
        invariant marker.Ready() && Verdicts(m0, cl, rs, fs, dead, marker.outOfStackSpace)
        invariant Going(m0, marker.heap.mem[..], cl, rs + Objects(fs[..n]), t', marker.outOfStackSpace,
                rs + Objects(fs[..n]))
        invariant Dead(m0, marker.heap.mem[..], cl) <= Dead(m0, m1, cl)
        invariant Ample(m0, cl, marker.markStack.Length) ==> !marker.outOfStackSpace
        decreases |finalizersAlive| - i
      {
        var fin := finalizersAlive[i];
        assert fin == finalizersAlive[i..][0] == fs[n];
        ghost var rs', flag := rs + Objects(fs[..n]), marker.outOfStackSpace;
        ObjectInside(m0, cl, fs, n);
        Judge(m0, m1, marker.heap.mem[..], cl, rs, rs', t', flag, fin.obj);
        JoinRoots(m0, marker.heap.mem[..], cl, rs', t', flag, fin.obj);
        ObjectsNext(fs, n);
        assert rs' + {fin.obj} == rs + Objects(fs[..n + 1]);
        ghost var v := !marker.heap.mem[fin.obj].flags.alive;
        ChosenNext(fs, dead, n, v, true);
        ChosenNext(fs, dead, n, v, false);
        assert finalizersAlive[i..][1..] == fs[n + 1..];
        if !marker.heap.mem[fin.obj].flags.alive {
          t' := MarkObject(marker, fin.obj, m0, rs' + {fin.obj}, t', rs');
          finalizersAlive := finalizersAlive[..i] + finalizersAlive[i + 1..];
          finalizersPending := finalizersPending + [fin];
        } else {
          i := i + 1;
        }
        VerdictsNext(m0, cl, rs, fs, dead, v, flag, marker.outOfStackSpace);
        dead, n := dead + [v], n + 1;
      }
      assert n == |fs| && fs[..n] == fs && finalizersAlive[..i] == finalizersAlive;
    }

    /** Mark everything reachable from the roots, the pending finalizers and, in the end, all finalizers. */
    method Mark(roots: seq<Root>) returns (ghost dead: seq<bool>, ghost overflow: bool)
      requires GraphOk(marker.heap.mem[..], marker.heap.clusters) && NoMarks(marker.heap.mem[..], marker.heap.clusters)
      requires NoFreeMarks(marker.heap.mem[..], marker.heap.clusters) && marker.markStack.Length >= 2
      requires RootsOk(marker.heap.mem[..], marker.heap.clusters, roots)
      requires FinalizersOk(marker.heap.mem[..], marker.heap.clusters, finalizersAlive)
      requires FinalizersOk(marker.heap.mem[..], marker.heap.clusters, finalizersPending)
      modifies this, marker.heap.mem, marker.markStack, marker`top, marker`outOfStackSpace
      ensures Marked(old(marker.heap.mem[..]), marker.heap.mem[..], marker.heap.clusters, roots,
                     old(finalizersAlive), old(finalizersPending), finalizersAlive, finalizersPending, dead, overflow)
      // Which lists have all their doomed objects finalized, for a stack that is large enough to tell.
      ensures var m0, cl, fs := old(marker.heap.mem[..]), marker.heap.clusters, old(finalizersAlive);
        var rs := Objects(old(finalizersPending)) + AllRoots(m0, roots);
        && |dead| == |fs| && (Independent(m0, cl, rs, fs) ==> AllPended(m0, cl, rs, fs, dead))
        && (Ample(m0, cl, marker.markStack.Length) ==>
              !overflow && (Independent(m0, cl, rs, fs) <==> AllPended(m0, cl, rs, fs, dead)))
    {
      hide Ample, Independent, AllPended, Going, GraphOk, NoMarks, NoFreeMarks, Exact, Verdicts, Dead, Chosen, Blocks,
           FinalizersOk, RootsOk, AllRoots, Objects;
      ghost var m0, cl, fs, ps := marker.heap.mem[..], marker.heap.clusters, finalizersAlive, finalizersPending;
      ghost var rs := Objects(ps) + AllRoots(m0, roots);
      marker.outOfStackSpace, marker.top := false, 0;
      marker.markStack[0] := Elem(NULL, 0);
      StartGoing(m0, cl, rs);
      ghost var t := MarkPending(marker, finalizersPending, m0, rs, Tally({}, {}, {}));
      t := MarkRoots(marker, roots, m0, rs, t, Objects(ps));
      t := Recover(m0, rs, t);
      t, dead := Resurrect(m0, rs, t);
      overflow := marker.outOfStackSpace;
      t := Recover(m0, rs + Objects(fs), t);
      PendedIffIndependent(m0, cl, rs, fs, dead, overflow, marker.markStack.Length);
    }

    /** MarkSlow, if marking overflowed. */
    method Recover(ghost m0: Memory, ghost rs: set<int>, ghost t: Tally) returns (ghost t': Tally)
      requires GraphOk(m0, marker.heap.clusters) && NoMarks(m0, marker.heap.clusters)
      requires NoFreeMarks(m0, marker.heap.clusters)
      requires marker.Ready() && Going(m0, marker.heap.mem[..], marker.heap.clusters, rs, t, marker.outOfStackSpace, rs)
      modifies marker.heap.mem, marker.markStack, marker`top, marker`outOfStackSpace
      ensures marker.Ready() && !marker.outOfStackSpace
      ensures Going(m0, marker.heap.mem[..], marker.heap.clusters, rs, t', false, rs)
      ensures Exact(m0, marker.heap.mem[..], marker.heap.clusters, rs)
    {
      hide GraphOk, NoMarks, NoFreeMarks, Exact, Dead, Blocks, Rest, Seeded;
      ghost var m, cl := marker.heap.mem[..], marker.heap.clusters;
      t' := t;
      if marker.outOfStackSpace {
        MarkSlow(marker, m0, rs, t);
        t' := Tally({}, {}, t.extra);
        SeededLater(m0, m, marker.heap.mem[..], cl, t.extra, rs);
      }
      ExactlyReachable(m0, marker.heap.mem[..], cl, rs, t');
    }
  }

  /** Whether every object that was doomed before resurrection ends up with a pending finalizer ... */
  ghost predicate AllPended(m0: Memory, cl: seq<Range>, rs: set<int>, fs: seq<Finalizer>, dead: seq<bool>)
    requires |dead| == |fs|
  {
    forall i :: 0 <= i < |fs| && Doomed(m0, cl, rs, fs[i].obj) ==> dead[i]
  }

  /** ... depends on the order of the list: no doomed object may be referred to, directly or not, by an
      object listed before it. */
  ghost predicate Independent(m0: Memory, cl: seq<Range>, rs: set<int>, fs: seq<Finalizer>)
  {
    forall i :: 0 <= i < |fs| && Doomed(m0, cl, rs, fs[i].obj) ==> !Reachable(m0, cl, Objects(fs[..i]), fs[i].obj)
  }

  lemma ReachableUnion(m: Memory, cl: seq<Range>, rs: set<int>, rs': set<int>, b: int)
    ensures Reachable(m, cl, rs + rs', b) <==> Reachable(m, cl, rs, b) || Reachable(m, cl, rs', b)
  {
    if Reachable(m, cl, rs + rs', b) {
      var path :| PathTo(m, cl, rs + rs', path, b);
      assert path[0] in rs ==> PathTo(m, cl, rs, path, b);
      assert path[0] in rs' ==> PathTo(m, cl, rs', path, b);
    }
    if Reachable(m, cl, rs, b) { ReachableWiden(m, cl, rs, rs + rs', b); }
    if Reachable(m, cl, rs', b) { ReachableWiden(m, cl, rs', rs + rs', b); }
  }

  /** An independent list always gets every doomed object finalized; with a mark stack large enough for the
      heap no other list does. */
  lemma PendedIffIndependent(m0: Memory, cl: seq<Range>, rs: set<int>, fs: seq<Finalizer>, dead: seq<bool>,
                             overflow: bool, capacity: nat)
    requires Verdicts(m0, cl, rs, fs, dead, overflow) && |dead| == |fs| && (Ample(m0, cl, capacity) ==> !overflow)
    ensures Independent(m0, cl, rs, fs) ==> AllPended(m0, cl, rs, fs, dead)
    ensures Ample(m0, cl, capacity) ==> (Independent(m0, cl, rs, fs) <==> AllPended(m0, cl, rs, fs, dead))
  {
    hide Reachable, Blocks, Objects, Ample;
    forall i | 0 <= i < |fs|
      ensures Doomed(m0, cl, rs + Objects(fs[..i]), fs[i].obj) <==>
              Doomed(m0, cl, rs, fs[i].obj) && !Reachable(m0, cl, Objects(fs[..i]), fs[i].obj)
    {
      ReachableUnion(m0, cl, rs, Objects(fs[..i]), fs[i].obj);
    }
  }

  // Two objects with finalizers, nothing else: the one at 1 refers to the one at 3.
  const NO_FLAGS := Flags(false, false, false)
  const CHAIN: Memory :=
    [Cell(Other, NO_FLAGS, 1, Raw(0)), Cell(Class, NO_FLAGS, 2, Raw(0)),
     Cell(Object, NO_FLAGS, 1, Ref(3)), Cell(Class, NO_FLAGS, 1, Raw(0))]
  const CHAIN_CLUSTERS := [Range(1, 4)]

  lemma ChainBlocks()
    ensures Starts(CHAIN, 1, 4) == {1, 3} && Blocks(CHAIN, CHAIN_CLUSTERS) == {1, 3} && Laid(CHAIN, CHAIN_CLUSTERS)
  {
    assert Tiled(CHAIN, 4, 4) && Starts(CHAIN, 4, 4) == {};
    assert Tiled(CHAIN, 3, 4) && Starts(CHAIN, 3, 4) == {3};
    assert Tiled(CHAIN, 1, 4) && Starts(CHAIN, 1, 4) == {1, 3};
    assert Live(CHAIN, 1, 4) == {1, 3};
    assert CHAIN_CLUSTERS[0] == Range(1, 4);
  }

  lemma ChainGraph()
    ensures GraphOk(CHAIN, CHAIN_CLUSTERS) && NoMarks(CHAIN, CHAIN_CLUSTERS) && NoFreeMarks(CHAIN, CHAIN_CLUSTERS)
    ensures Reachable(CHAIN, CHAIN_CLUSTERS, {1}, 3) && Doomed(CHAIN, CHAIN_CLUSTERS, {}, 3)
    ensures Doomed(CHAIN, CHAIN_CLUSTERS, {}, 1) && Ample(CHAIN, CHAIN_CLUSTERS, 4)
  {
    hide Starts, Tiled, Blocks, Laid;
    ChainBlocks();
    assert CellOf(CHAIN, 1, 2) && Edge(CHAIN, 1, 3);
    ReachableRoot(CHAIN, CHAIN_CLUSTERS, {1}, 1);
    ReachableEdge(CHAIN, CHAIN_CLUSTERS, {1}, 1, 3);
  }

  lemma ChainVerdicts(dead: seq<bool>)
    requires |dead| == 2 && Verdicts(CHAIN, CHAIN_CLUSTERS, {}, [Finalizer(1, 0), Finalizer(3, 1)], dead, false)
    ensures dead == [true, false]
  {
    hide Reachable, Blocks, Objects;
    ChainGraph();
    var fs := [Finalizer(1, 0), Finalizer(3, 1)];
    assert fs[..0] == [] && fs[..1] == [fs[0]];
    ChainObjects(fs);
  }

  lemma ChainObjects(fs: seq<Finalizer>)
    requires fs == [Finalizer(1, 0), Finalizer(3, 1)]
    ensures {} + Objects(fs[..0]) == {} && {} + Objects(fs[..1]) == {1}
  {
    assert fs[..1] == [fs[0]];
  }

  lemma ChainChosen()
    ensures Chosen([Finalizer(1, 0), Finalizer(3, 1)], [true, false], true) == [Finalizer(1, 0)]
    ensures Chosen([Finalizer(1, 0), Finalizer(3, 1)], [true, false], false) == [Finalizer(3, 1)]
  {
    var fs := [Finalizer(1, 0), Finalizer(3, 1)];
    assert fs[..2] == fs;
    ChosenNext(fs, [], 0, true, true);
    ChosenNext(fs, [], 0, true, false);
    ChosenNext(fs, [true], 1, false, true);
    ChosenNext(fs, [true], 1, false, false);
  }

  lemma ChainRoots()
    ensures Objects([]) + AllRoots(CHAIN, []) == {} && RootsOk(CHAIN, CHAIN_CLUSTERS, [])
    ensures FinalizersOk(CHAIN, CHAIN_CLUSTERS, [])
    ensures FinalizersOk(CHAIN, CHAIN_CLUSTERS, [Finalizer(1, 0), Finalizer(3, 1)])
  {
    hide Blocks;
    ChainBlocks();
  }

  /** Listed first, the referring object keeps the other from being finalized along with it: marking this heap
      leaves a doomed object without a pending finalizer. */
  method DoomedNotPended() returns (c: Collector)
    ensures Doomed(CHAIN, CHAIN_CLUSTERS, {}, 3)
    ensures c.finalizersPending == [Finalizer(1, 0)] && c.finalizersAlive == [Finalizer(3, 1)]
  {
    hide Reachable, Blocks, GraphOk, NoMarks, NoFreeMarks, Verdicts, Chosen, Doomed, Ample, Independent, AllPended,
         Exact;
    var mem := new Cell[4](i requires 0 <= i < 4 => CHAIN[i]);
    var heap := new Heap(mem, CHAIN_CLUSTERS, [[]]);
    var marker := new Marker(heap, 4);
    c := new Collector(marker);
    c.finalizersAlive := [Finalizer(1, 0), Finalizer(3, 1)];
    assert heap.mem[..] == CHAIN;
    ChainGraph();
    ChainRoots();
    ghost var dead, overflow := c.Mark([]);
    ChainVerdicts(dead);
    ChainChosen();
  }

  lemma StartResurrection(m0: Memory, cl: seq<Range>, rs: set<int>, fs: seq<Finalizer>)
    ensures Verdicts(m0, cl, rs, fs, [], false) && Chosen([], [], true) == [] == Chosen([], [], false)
    ensures Objects([]) == {}
  {
  }

  lemma ObjectInside(m0: Memory, cl: seq<Range>, fs: seq<Finalizer>, n: nat)
    requires FinalizersOk(m0, cl, fs) && n < |fs|
    ensures fs[n].obj in Blocks(m0, cl)
  {
  }
}
