/** Compaction and reachability: a block is reachable after compaction exactly when the block it was is
    reachable before. */
module CompactedGraph {
  import opened HeapBlocks
  import opened ClusterInvariant
  import opened Relocation
  import opened CompactionSpec
  import opened Compaction
  import opened Reachability

  /** What HeapCompact leaves behind. */
  ghost predicate Compacted(m0: Memory, m: Memory, cl: seq<Range>, all: seq<Region>, origin: map<int, int>)
  {
    && Preserved(m0, m, cl, all, all, origin) && Ordered(all) && Within(all, cl)
    && GraphOk(m0, cl)
  }

  /** A moved block, cell by cell. */
  lemma MovedCell(m0: Memory, m: Memory, cl: seq<Range>, all: seq<Region>, origin: map<int, int>, a: int, i: nat)
    requires Preserved(m0, m, cl, all, all, origin) && a in Blocks(m0, cl) && 0 <= a < |m0| && i < m0[a].size
    ensures a + i < |m0| && 0 <= Reloc(all, a) && Reloc(all, a) + i < |m|
    ensures m[Reloc(all, a) + i] == PatchCell(all, m0[a + i])
  {
    hide Blocks, Reloc;
    var a', n := Reloc(all, a), m0[a].size;
    assert Kept(m0, m, all, all, a);
    assert m[a'..a' + n][i] == PatchCells(all, m0[a..a + n])[i];
  }

  /** Its cells are the old ones, moved along. */
  lemma CellsMove(m0: Memory, m: Memory, cl: seq<Range>, all: seq<Region>, origin: map<int, int>, a: int, x: int)
    requires Compacted(m0, m, cl, all, origin) && a in Blocks(m0, cl)
    ensures var a' := Reloc(all, a);
      && (CellOf(m0, a, x) <==> CellOf(m, a', x - a + a'))
      && (CellOf(m0, a, x) ==> 0 <= x - a < m0[a].size)
  {
    hide Blocks, Reloc, ScalarList, Laid;
    BlockInside(m0, cl, a);
    MovedCell(m0, m, cl, all, origin, a, 0);
  }

  lemma NotMoved(cl: seq<Range>, all: seq<Region>)
    requires Ordered(all) && Within(all, cl) && Spaced(cl)
    ensures Reloc(all, NULL) == NULL
  {
    OutsidePointer(all, cl, NULL);
  }

  lemma BlockAbove(m: Memory, cl: seq<Range>, b: int)
    requires Spaced(cl) && b in Blocks(m, cl)
    ensures 0 < b
  {
    hide Starts;
  }

  lemma GraphParts(m: Memory, cl: seq<Range>)
    requires GraphOk(m, cl)
    ensures Spaced(cl)
  {
  }

  /** References move with the blocks ... */
  lemma EdgeMoves(m0: Memory, m: Memory, cl: seq<Range>, all: seq<Region>, origin: map<int, int>, a: int, t: int)
    requires Compacted(m0, m, cl, all, origin) && a in Blocks(m0, cl) && t in Blocks(m0, cl) && Edge(m0, a, t)
    ensures Reloc(all, t) in Blocks(m, cl) && Edge(m, Reloc(all, a), Reloc(all, t))
  {
    hide Blocks, Reloc, GraphOk, Within, CellOf;
    var x :| CellOf(m0, a, x) && 0 <= x < |m0| && Target(m0[x]) == t;
    GraphParts(m0, cl);
    BlockInside(m0, cl, a);
    CellsMove(m0, m, cl, all, origin, a, x);
    MovedCell(m0, m, cl, all, origin, a, x - a);
    BlockAbove(m, cl, Reloc(all, t));
    var x' := x - a + Reloc(all, a);
    assert Target(m[x']) == Reloc(all, t);
  }

  /** ... and no others appear. */
  lemma EdgeBack(m0: Memory, m: Memory, cl: seq<Range>, all: seq<Region>, origin: map<int, int>, a: int, t': int)
    returns (t: int)
    requires Compacted(m0, m, cl, all, origin) && a in Blocks(m0, cl) && Edge(m, Reloc(all, a), t')
    ensures t in Blocks(m0, cl) && Reloc(all, t) == t' && Edge(m0, a, t)
  {
    hide Blocks, Reloc, Within, CellOf, GraphOk;
    var x' :| CellOf(m, Reloc(all, a), x') && 0 <= x' < |m| && Target(m[x']) == t';
    GraphParts(m0, cl);
    BlockInside(m0, cl, a);
    var x := x' - Reloc(all, a) + a;
    CellsMove(m0, m, cl, all, origin, a, x);
    MovedCell(m0, m, cl, all, origin, a, x - a);
    NotMoved(cl, all);
    t := Target(m0[x]);
    TargetIsBlock(m0, cl, a, x);
  }

  lemma TargetIsBlock(m: Memory, cl: seq<Range>, a: int, x: int)
    requires GraphOk(m, cl) && a in Blocks(m, cl) && CellOf(m, a, x) && 0 <= x < |m|
    ensures Target(m[x]) == NULL || Target(m[x]) in Blocks(m, cl)
  {
    hide Blocks, Laid, NotStart;
    if x != a { assert ScalarAt(m, cl, x); }
  }

  ghost function MovedRoots(all: seq<Region>, rs: set<int>): (rs': set<int>) { set r | r in rs :: Reloc(all, r) }

  /** A chain of references before gives one after ... */
  lemma {:induction false} PathMoves(m0: Memory, m: Memory, cl: seq<Range>, all: seq<Region>, origin: map<int, int>,
                                     rs: set<int>, path: seq<int>, b: int)
    requires Compacted(m0, m, cl, all, origin) && PathTo(m0, cl, rs, path, b)
    ensures b in Blocks(m0, cl) && Reloc(all, b) in Blocks(m, cl)
    ensures Reachable(m, cl, MovedRoots(all, rs), Reloc(all, b))
    decreases |path|
  {
    hide Blocks, Reloc, Edge, GraphOk, Within, Kept, Reachable;
    if |path| == 1 {
      ReachableRoot(m, cl, MovedRoots(all, rs), Reloc(all, b));
    } else {
      var shorter := path[..|path| - 1];
      var a := path[|path| - 2];
      assert shorter[|shorter| - 1] == a && Edge(m0, path[|path| - 2], path[|path| - 1]);
      PathMoves(m0, m, cl, all, origin, rs, shorter, a);
      EdgeMoves(m0, m, cl, all, origin, a, b);
      ReachableEdge(m, cl, MovedRoots(all, rs), Reloc(all, a), Reloc(all, b));
    }
  }

  /** ... and the other way round. */
  lemma {:induction false} PathBack(m0: Memory, m: Memory, cl: seq<Range>, all: seq<Region>, origin: map<int, int>,
                                    rs: set<int>, path: seq<int>, b': int)
    requires Compacted(m0, m, cl, all, origin) && PathTo(m, cl, MovedRoots(all, rs), path, b') && rs <= Blocks(m0, cl)
    ensures b' in origin && origin[b'] in Blocks(m0, cl) && Reloc(all, origin[b']) == b'
    ensures Reachable(m0, cl, rs, origin[b'])
    decreases |path|
  {
    hide Blocks, Reloc, Edge, GraphOk, Within, Kept, Reachable;
    if |path| == 1 {
      var r :| r in rs && Reloc(all, r) == b';
      ReachableRoot(m0, cl, rs, r);
    } else {
      var shorter := path[..|path| - 1];
      var a' := path[|path| - 2];
      assert shorter[|shorter| - 1] == a' && Edge(m, path[|path| - 2], path[|path| - 1]);
      PathBack(m0, m, cl, all, origin, rs, shorter, a');
      var t := EdgeBack(m0, m, cl, all, origin, origin[a'], b');
      ReachableEdge(m0, cl, rs, origin[a'], t);
    }
  }

  /** Compaction changes where blocks are, not which of them are reachable. */
  lemma ReachabilityPreserved(m0: Memory, m: Memory, cl: seq<Range>, all: seq<Region>, origin: map<int, int>,
                              rs: set<int>, b: int)
    requires Compacted(m0, m, cl, all, origin) && rs <= Blocks(m0, cl) && b in Blocks(m0, cl)
    ensures Reachable(m0, cl, rs, b) <==> Reachable(m, cl, MovedRoots(all, rs), Reloc(all, b))
  {
    hide Blocks, Reloc, PathTo, GraphOk, Within, Kept;
    if Reachable(m0, cl, rs, b) {
      var path :| PathTo(m0, cl, rs, path, b);
      PathMoves(m0, m, cl, all, origin, rs, path, b);
    }
    if Reachable(m, cl, MovedRoots(all, rs), Reloc(all, b)) {
      var path :| PathTo(m, cl, MovedRoots(all, rs), path, Reloc(all, b));
      PathBack(m0, m, cl, all, origin, rs, path, Reloc(all, b));
    }
  }
}
