/** ComputeReachabilityGraphForMultipleBlocks: marking with a bounded explicit stack that, when full,
    drops work and raises a flag. */
module Marking {
  import opened HeapBlocks
  import opened CompactionSpec
  import opened Reachability

  /** A list of cells still to be visited. */
  datatype Elem = Elem(ptr: int, num: nat)

  /** Memory that differs from m0 only by marks added. */
  ghost predicate OnlyMarks(m0: Memory, m: Memory)
  {
    |m| == |m0| && forall i :: 0 <= i < |m0| ==>
      m[i] == m0[i].(flags := m0[i].flags.(alive := m[i].flags.alive)) && (m0[i].flags.alive ==> m[i].flags.alive)
  }

  /** No free block gets marked. */
  ghost predicate FreeIntact(m0: Memory, m: Memory, cl: seq<Range>)
  {
    |m| == |m0|
    && forall c, a :: 0 <= c < |cl| && a in Starts(m0, cl[c].lo, cl[c].hi) && IsFree(m0[a]) ==>
         m[a] == m0[a]
  }

  lemma FreeIntactMark(m0: Memory, m: Memory, m': Memory, cl: seq<Range>, x: int)
    requires FreeIntact(m0, m, cl) && 0 <= x < |m| && (NotStart(m0, cl, x) || x in Blocks(m0, cl))
    requires m' == m[x := m[x].(flags := m[x].flags.(alive := true))]
    ensures FreeIntact(m0, m', cl)
  {
    hide Starts;
  }

  /** Before a collection only events are marked. */
  ghost predicate NoMarks(m: Memory, cl: seq<Range>)
  {
    forall b :: b in Blocks(m, cl) && m[b].flags.alive ==> m[b].flags.event
  }

  predicate IsAlive(m: Memory, b: int)
  {
    0 <= b < |m| && m[b].flags.alive
  }

  ghost function Dead(m0: Memory, m: Memory, cl: seq<Range>): (s: set<int>)
  {
    set b | b in Blocks(m0, cl) && !IsAlive(m, b)
  }

  /** What is left to do: lists on the stack, the current list (scalars) or the current header hd. */
  datatype Work = Work(stack: seq<Elem>, lst: int, num: nat, hd: int)

  ghost predicate OnStack(stack: seq<Elem>, x: int)
  {
    exists i :: 0 <= i < |stack| && stack[i].ptr <= x < stack[i].ptr + stack[i].num
  }

  ghost predicate Pending(w: Work, x: int)
  {
    OnStack(w.stack, x) || w.lst <= x < w.lst + w.num
  }

  ghost function StackLoad(stack: seq<Elem>): (n: nat)
  {
    if stack == [] then 0 else StackLoad(stack[..|stack| - 1]) + stack[|stack| - 1].num
  }

  /** The reference in cell x has been followed, or will be. */
  ghost predicate Handled(m0: Memory, m: Memory, w: Work, dropped: set<int>, x: int)
    requires 0 <= x < |m0|
  {
    var t := Target(m0[x]);
    t == NULL || IsAlive(m, t) || t == w.hd || Pending(w, x) || x in dropped
  }

  /** All references of marked blocks, except those in todo, and of root cells are handled. */
  ghost predicate Complete(m0: Memory, m: Memory, cl: seq<Range>, w: Work, t: Tally)
  {
    && (forall b, x :: b in Blocks(m0, cl) && IsAlive(m, b) && b !in t.todo && CellOf(m0, b, x) && 0 <= x < |m0|
          ==> Handled(m0, m, w, t.dropped, x))
    && (forall x :: x in t.extra && 0 <= x < |m0| ==> Handled(m0, m, w, t.dropped, x))
  }

  /** Ghost book-keeping of a mark: marked blocks not yet accounted for, cells whose visit was dropped,
      and root cells that have been handed to the marker. */
  datatype Tally = Tally(todo: set<int>, dropped: set<int>, extra: set<int>)

  /** Cell x leads nowhere, or to a reachable block. */
  ghost predicate Justified(m0: Memory, cl: seq<Range>, roots: set<int>, x: int)
  {
    0 <= x < |m0| && (Target(m0[x]) == NULL || Reachable(m0, cl, roots, Target(m0[x])))
  }

  ghost predicate JustifiedList(m0: Memory, cl: seq<Range>, roots: set<int>, lst: int, num: nat)
  {
    forall x :: lst <= x < lst + num ==> Justified(m0, cl, roots, x)
  }

  /** Only reachable blocks get marked or queued. */
  ghost predicate Sound(m0: Memory, m: Memory, cl: seq<Range>, roots: set<int>, w: Work)
  {
    && (forall b :: b in Blocks(m0, cl) && IsAlive(m, b) ==> m0[b].flags.alive || Reachable(m0, cl, roots, b))
    && (forall i :: 0 <= i < |w.stack| ==>
          w.stack[i].num > 0 && ScalarList(m0, cl, w.stack[i].ptr, w.stack[i].num)
          && JustifiedList(m0, cl, roots, w.stack[i].ptr, w.stack[i].num))
    && ScalarList(m0, cl, w.lst, w.num) && JustifiedList(m0, cl, roots, w.lst, w.num)
    && (w.hd != NULL ==> w.hd in Blocks(m0, cl) && (m0[w.hd].flags.alive || Reachable(m0, cl, roots, w.hd)))
  }

  /** Every dropped cell belongs to a marked block that is no event. */
  ghost predicate DroppedOwned(m0: Memory, m: Memory, cl: seq<Range>, dropped: set<int>)
  {
    forall x :: x in dropped ==>
      exists b :: b in Blocks(m0, cl) && IsAlive(m, b) && !m0[b].flags.event && CellOf(m0, b, x)
  }

  // ---- The steps of the worklist loop ----

  /** Marking a cell that is no header changes no block's mark. */
  lemma MarkScalar(m0: Memory, m: Memory, m': Memory, cl: seq<Range>, x: int)
    requires OnlyMarks(m0, m) && ScalarAt(m0, cl, x) && m' == m[x := m[x].(flags := m[x].flags.(alive := true))]
    ensures OnlyMarks(m0, m') && Dead(m0, m', cl) == Dead(m0, m, cl)
    ensures forall b :: b in Blocks(m0, cl) ==> IsAlive(m', b) == IsAlive(m, b)
  {
    hide Starts;
    forall b | b in Blocks(m0, cl) ensures b != x {
      var c :| 0 <= c < |cl| && b in Live(m0, cl[c].lo, cl[c].hi);
      assert x !in Starts(m0, cl[c].lo, cl[c].hi);
    }
  }

  lemma MarkHeader(m0: Memory, m: Memory, m': Memory, cl: seq<Range>, b: int)
    requires OnlyMarks(m0, m) && b in Blocks(m0, cl) && 0 <= b < |m|
    requires m' == m[b := m[b].(flags := m[b].flags.(alive := true))]
    ensures OnlyMarks(m0, m') && Dead(m0, m', cl) == Dead(m0, m, cl) - {b}
    ensures forall a :: IsAlive(m', a) <==> IsAlive(m, a) || a == b
  {
    hide Blocks;
  }

  /** Visiting scalar cell x, taken off the work: its target is alive or becomes the header to visit. */
  lemma ScalarStep(m0: Memory, m: Memory, m': Memory, cl: seq<Range>, roots: set<int>, t: Tally,
                   w: Work, w': Work, x: int)
    requires OnlyMarks(m0, m) && Sound(m0, m, cl, roots, w) && Complete(m0, m, cl, w, t)
    requires ScalarAt(m0, cl, x) && Justified(m0, cl, roots, x) && w.hd == NULL
    requires m' == m[x := m[x].(flags := m[x].flags.(alive := true))]
    requires w'.lst == w'.num == 0 && w'.hd ==
        if Target(m0[x]) == NULL || IsAlive(m', Target(m0[x])) then NULL else Target(m0[x])
    requires forall y :: Pending(w, y) ==> y == x || Pending(w', y)
    requires forall i :: 0 <= i < |w'.stack| ==>
      w'.stack[i].num > 0 && ScalarList(m0, cl, w'.stack[i].ptr, w'.stack[i].num)
      && JustifiedList(m0, cl, roots, w'.stack[i].ptr, w'.stack[i].num)
    ensures OnlyMarks(m0, m') && Dead(m0, m', cl) == Dead(m0, m, cl)
    ensures Sound(m0, m', cl, roots, w') && Complete(m0, m', cl, w', t)
    ensures w'.hd != NULL ==> w'.hd in Dead(m0, m', cl)
    ensures DroppedOwned(m0, m, cl, t.dropped) ==> DroppedOwned(m0, m', cl, t.dropped)
  {
    hide Blocks, Pending, Reachable;
    MarkScalar(m0, m, m', cl, x);
    forall b, y | b in Blocks(m0, cl) && IsAlive(m', b) && b !in t.todo && CellOf(m0, b, y) && 0 <= y < |m0|
      ensures Handled(m0, m', w', t.dropped, y)
    {
      assert Handled(m0, m, w, t.dropped, y);
    }
    forall y | y in t.extra && 0 <= y < |m0| ensures Handled(m0, m', w', t.dropped, y) {
      assert Handled(m0, m, w, t.dropped, y);
    }
  }

  /** Visiting header b: it is marked, its fields become the current list, a reference header leads on. */
  lemma HeaderStep(m0: Memory, m: Memory, m': Memory, cl: seq<Range>, roots: set<int>, t: Tally,
                   w: Work, w': Work)
    requires GraphOk(m0, cl) && NoMarks(m0, cl)
    requires OnlyMarks(m0, m) && Sound(m0, m, cl, roots, w) && Complete(m0, m, cl, w, t)
    requires w.hd != NULL && w.num == 0 && 0 <= w.hd < |m|
    requires m' == m[w.hd := m[w.hd].(flags := m[w.hd].flags.(alive := true))]
    requires w'.stack == w.stack && w'.lst == FieldList(m0[w.hd], w.hd).0 && w'.num == FieldList(m0[w.hd], w.hd).1
    requires w'.hd == if Target(m0[w.hd]) == NULL || IsAlive(m', Target(m0[w.hd])) then NULL else Target(m0[w.hd])
    ensures OnlyMarks(m0, m') && Dead(m0, m', cl) == Dead(m0, m, cl) - {w.hd}
    ensures Sound(m0, m', cl, roots, w') && Complete(m0, m', cl, w', t.(todo := t.todo - {w.hd}))
    ensures w'.hd != NULL ==> w'.hd in Dead(m0, m', cl)
    ensures DroppedOwned(m0, m, cl, t.dropped) ==> DroppedOwned(m0, m', cl, t.dropped)
    ensures IsAlive(m', w.hd)
  {
    hide Blocks, Reachable;
    var b := w.hd;
    MarkHeader(m0, m, m', cl, b);
    HeaderJustified(m0, cl, roots, b);
    forall a, y | a in Blocks(m0, cl) && IsAlive(m', a) && a !in t.todo - {b} && CellOf(m0, a, y) && 0 <= y < |m0|
      ensures Handled(m0, m', w', t.dropped, y)
    {
      if a != b {
        assert Handled(m0, m, w, t.dropped, y);
      }
    }
    forall y | y in t.extra && 0 <= y < |m0| ensures Handled(m0, m', w', t.dropped, y) {
      assert Handled(m0, m, w, t.dropped, y);
    }
  }

  /** Everything block b refers to is reachable when b is. */
  lemma HeaderJustified(m0: Memory, cl: seq<Range>, roots: set<int>, b: int)
    requires GraphOk(m0, cl) && b in Blocks(m0, cl)
    requires m0[b].flags.event || Reachable(m0, cl, roots, b)
    ensures JustifiedList(m0, cl, roots, FieldList(m0[b], b).0, FieldList(m0[b], b).1)
    ensures Justified(m0, cl, roots, b)
  {
    hide Blocks, Reachable;
    var (first, n) := FieldList(m0[b], b);
    forall x | first <= x < first + n ensures Justified(m0, cl, roots, x) {
      assert ScalarAt(m0, cl, x);
      CellJustified(m0, cl, roots, b, x);
    }
    CellJustified(m0, cl, roots, b, b);
  }

  lemma CellJustified(m0: Memory, cl: seq<Range>, roots: set<int>, b: int, x: int)
    requires b in Blocks(m0, cl) && CellOf(m0, b, x) && 0 <= x < |m0|
    requires Leaf(m0[b]) || Reachable(m0, cl, roots, b)
    requires Target(m0[x]) == NULL || Target(m0[x]) in Blocks(m0, cl)
    ensures Justified(m0, cl, roots, x)
  {
    hide Blocks;
    var t := Target(m0[x]);
    if t != NULL && Reachable(m0, cl, roots, b) {
      assert Edge(m0, b, t);
      ReachableEdge(m0, cl, roots, b, t);
    }
  }
}
