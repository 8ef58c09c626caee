/** Which blocks the program can still reach, and the state of a mark in progress. */
module Reachability {
  import opened HeapBlocks
  import opened CompactionSpec

  /** The cells a block header sends the marker to: first cell and count. */
  function FieldList(c: Cell, b: int): (r: (int, nat))
  {
    match c.dt
    case Class => (b + 1, if c.size > 0 then c.size - 1 else 0)
    case ValueType => (b + 1, if c.size > 0 then c.size - 1 else 0)
    case SZArray(fReference, n) => if fReference then (b + 1, n) else (b, 0)
    case Delegate(at) => (b + at, 1)
    case DelegateList(first, n) => (b + first, n)
    case _ => (b, 0)
  }

  /** The block a reference cell leads to, NULL for anything else. */
  function Target(c: Cell): (t: int)
  {
    if (c.dt.Object? || c.dt.ArrayByRef?) && c.data.Ref? then c.data.ptr else NULL
  }

  predicate Leaf(c: Cell)
  {
    c.dt.Other? || c.dt.CachedBlock? || c.dt.FreeBlock?
  }

  /** x is one of the cells of block b whose references keep other blocks alive. */
  ghost predicate CellOf(m: Memory, b: int, x: int)
  {
    0 <= b < |m| && (x == b || FieldList(m[b], b).0 <= x < FieldList(m[b], b).0 + FieldList(m[b], b).1)
  }

  /** x is no block header of any cluster. */
  ghost predicate NotStart(m: Memory, cl: seq<Range>, x: int)
  {
    forall c :: 0 <= c < |cl| ==> x !in Starts(m, cl[c].lo, cl[c].hi)
  }

  /** A field or root cell: it holds a value or a reference to a block, and contains nothing further. */
  ghost predicate ScalarAt(m: Memory, cl: seq<Range>, x: int)
  {
    && 0 <= x < |m| && NotStart(m, cl, x) && FieldList(m[x], x).1 == 0
    && (Target(m[x]) == NULL || Target(m[x]) in Blocks(m, cl))
  }

  ghost predicate ScalarList(m: Memory, cl: seq<Range>, lst: int, num: nat)
  {
    forall x :: lst <= x < lst + num ==> ScalarAt(m, cl, x)
  }

  /** The cells block b sends the marker to are its own. */
  ghost predicate FieldsInside(m: Memory, b: int)
  {
    0 <= b < |m| && b <= FieldList(m[b], b).0 && FieldList(m[b], b).0 + FieldList(m[b], b).1 <= b + m[b].size
  }

  /** What the runtime guarantees about its object graph: references lead to blocks, fields are scalar
      cells inside their block, and event blocks are leaves. */
  ghost predicate GraphOk(m: Memory, cl: seq<Range>)
  {
    && Laid(m, cl)
    && forall b :: b in Blocks(m, cl) ==>
         && 0 < b < |m| && FieldsInside(m, b)
         && ScalarList(m, cl, FieldList(m[b], b).0, FieldList(m[b], b).1)
         && (Target(m[b]) == NULL || Target(m[b]) in Blocks(m, cl))
         && (m[b].flags.event ==> Leaf(m[b]))
  }

  /** Block b refers to block t. */
  ghost predicate Edge(m: Memory, b: int, t: int)
  {
    t != NULL && exists x :: CellOf(m, b, x) && 0 <= x < |m| && Target(m[x]) == t
  }

  /** x is a field of an object, an element of an array of references, the object of a delegate or a delegate
      of a list: a place in block b, whose header is c, where a reference counts. */
  predicate HoldsReferences(c: Cell, b: int, x: int)
  {
    match c.dt
    case Class => b < x < b + c.size
    case ValueType => b < x < b + c.size
    case SZArray(fReference, n) => fReference && b < x <= b + n
    case Delegate(at) => x == b + at
    case DelegateList(first, n) => b + first <= x < b + first + n
    case _ => false
  }

  /** Blocks refer to each other by the references that stand in such places, or in the header itself. */
  lemma EdgeIs(m: Memory, b: int, t: int)
    ensures Edge(m, b, t) <==>
      && t != NULL && 0 <= b < |m|
      && exists x :: 0 <= x < |m| && (x == b || HoldsReferences(m[b], b, x)) && m[x].data == Ref(t)
                     && (m[x].dt == Object || m[x].dt == ArrayByRef)
  {
    if Edge(m, b, t) {
      var x :| CellOf(m, b, x) && 0 <= x < |m| && Target(m[x]) == t;
      assert x == b || HoldsReferences(m[b], b, x);
    }
    if t != NULL && 0 <= b < |m| {
      forall x | 0 <= x < |m| && (x == b || HoldsReferences(m[b], b, x)) && m[x].data == Ref(t)
                 && (m[x].dt == Object || m[x].dt == ArrayByRef)
        ensures Edge(m, b, t)
      {
        assert CellOf(m, b, x) && Target(m[x]) == t;
      }
    }
  }

  /** A chain of references from a root block to b. */
  ghost predicate PathTo(m: Memory, cl: seq<Range>, roots: set<int>, path: seq<int>, b: int)
  {
    && |path| > 0 && path[0] in roots && path[|path| - 1] == b
    && (forall i :: 0 <= i < |path| ==> path[i] in Blocks(m, cl))
    && (forall i :: 0 <= i < |path| - 1 ==> Edge(m, path[i], path[i + 1]))
  }

  ghost predicate Reachable(m: Memory, cl: seq<Range>, roots: set<int>, b: int)
  {
    exists path :: PathTo(m, cl, roots, path, b)
  }

  lemma ReachableRoot(m: Memory, cl: seq<Range>, roots: set<int>, b: int)
    requires b in roots && b in Blocks(m, cl)
    ensures Reachable(m, cl, roots, b)
  {
    assert PathTo(m, cl, roots, [b], b);
  }

  lemma ReachableEdge(m: Memory, cl: seq<Range>, roots: set<int>, b: int, t: int)
    requires Reachable(m, cl, roots, b) && b in Blocks(m, cl) && Edge(m, b, t) && t in Blocks(m, cl)
    ensures Reachable(m, cl, roots, t)
  {
    var path :| PathTo(m, cl, roots, path, b);
    var longer := path + [t];
    forall i | 0 <= i < |longer| - 1 ensures Edge(m, longer[i], longer[i + 1]) {
      if i == |path| - 1 { assert longer[i] == b && longer[i + 1] == t; }
    }
    assert PathTo(m, cl, roots, longer, t);
  }

  /** A set that holds the roots and is closed under references holds everything reachable. */
  lemma {:induction false} ClosedHoldsPath(m: Memory, cl: seq<Range>, roots: set<int>, s: set<int>, path: seq<int>,
                                           b: int)
    requires PathTo(m, cl, roots, path, b)
    requires forall a :: a in roots && a in Blocks(m, cl) ==> a in s
    requires forall a, t :: a in s && a in Blocks(m, cl) && t in Blocks(m, cl) && Edge(m, a, t) ==> t in s
    ensures b in s
    decreases |path|
  {
    if |path| > 1 {
      var shorter := path[..|path| - 1];
      ClosedHoldsPath(m, cl, roots, s, shorter, shorter[|shorter| - 1]);
      assert Edge(m, path[|path| - 2], path[|path| - 1]);
    }
  }
}
