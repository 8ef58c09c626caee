/** The worklist loop of the marker, over a mark stack of any capacity that holds at least one entry
    beyond the sentinel. */
module MarkStack {
  import opened HeapBlocks
  import opened HeapCluster
  import opened CompactionSpec
  import opened Reachability
  import opened Marking

  const IDLE := Work([], 0, 0, NULL)

  /** Taking one cell off the top list. */
  function Popped(stack: seq<Elem>): (stack': seq<Elem>)
    requires stack != [] && stack[|stack| - 1].num > 0
  {
    var e := stack[|stack| - 1];
    if e.num == 1 then stack[..|stack| - 1] else stack[|stack| - 1 := Elem(e.ptr + 1, e.num - 1)]
  }

  ghost predicate StackOk(m0: Memory, cl: seq<Range>, roots: set<int>, stack: seq<Elem>)
  {
    forall i :: 0 <= i < |stack| ==>
      stack[i].num > 0 && ScalarList(m0, cl, stack[i].ptr, stack[i].num)
      && JustifiedList(m0, cl, roots, stack[i].ptr, stack[i].num)
  }

  lemma PoppedOk(m0: Memory, cl: seq<Range>, roots: set<int>, stack: seq<Elem>)
    requires StackOk(m0, cl, roots, stack) && stack != []
    ensures StackOk(m0, cl, roots, Popped(stack)) && StackLoad(Popped(stack)) + 1 == StackLoad(stack)
    ensures var x := stack[|stack| - 1].ptr;
      && ScalarAt(m0, cl, x) && Justified(m0, cl, roots, x)
      && forall y :: OnStack(stack, y) ==> y == x || OnStack(Popped(stack), y)
  {
    hide ScalarAt, Justified;
    assert stack[|stack| - 1].num > 0;
    PoppedLoad(stack);
    PoppedCovers(stack);
  }

  lemma PoppedLoad(stack: seq<Elem>)
    requires stack != [] && stack[|stack| - 1].num > 0
    ensures StackLoad(Popped(stack)) + 1 == StackLoad(stack)
  {
    var n, stack' := |stack| - 1, Popped(stack);
    if stack[n].num > 1 { assert stack'[..n] == stack[..n]; }
  }

  lemma PoppedCovers(stack: seq<Elem>)
    requires stack != [] && stack[|stack| - 1].num > 0
    ensures forall y :: OnStack(stack, y) ==> y == stack[|stack| - 1].ptr || OnStack(Popped(stack), y)
  {
    var e, stack' := stack[|stack| - 1], Popped(stack);
    forall y | OnStack(stack, y) ensures y == e.ptr || OnStack(stack', y) {
      var i :| 0 <= i < |stack| && stack[i].ptr <= y < stack[i].ptr + stack[i].num;
      if y != e.ptr {
        assert i < |stack'| && stack'[i].ptr <= y < stack'[i].ptr + stack'[i].num;
      }
    }
  }

  lemma PushedOk(m0: Memory, cl: seq<Range>, roots: set<int>, stack: seq<Elem>, lst: int, num: nat)
    requires StackOk(m0, cl, roots, stack) && num > 1
    requires ScalarList(m0, cl, lst, num) && JustifiedList(m0, cl, roots, lst, num)
    ensures var stack' := stack + [Elem(lst + 1, num - 1)];
      && StackOk(m0, cl, roots, stack') && StackLoad(stack') == StackLoad(stack) + (num - 1)
      && (forall y :: OnStack(stack, y) || lst <= y < lst + num ==> y == lst || OnStack(stack', y))
    ensures ScalarAt(m0, cl, lst) && Justified(m0, cl, roots, lst)
  {
    hide ScalarAt, Justified;
    var stack' := stack + [Elem(lst + 1, num - 1)];
    assert stack'[..|stack|] == stack;
    forall y | OnStack(stack, y) || lst <= y < lst + num ensures y == lst || OnStack(stack', y) {
      if OnStack(stack, y) {
        var i :| 0 <= i < |stack| && stack[i].ptr <= y < stack[i].ptr + stack[i].num;
        assert stack'[i] == stack[i];
      } else if y != lst {
        assert stack'[|stack|].ptr <= y < stack'[|stack|].ptr + stack'[|stack|].num;
      }
    }
  }

  /** The current list is the field list of the marked block `owner`. */
  ghost predicate OwnedList(m0: Memory, m: Memory, cl: seq<Range>, w: Work, owner: int)
  {
    owner in Blocks(m0, cl) && IsAlive(m, owner) && FieldList(m0[owner], owner) == (w.lst, w.num)
  }

  /** Everything the loop keeps.  `first` holds only while the header it was called with is unvisited. */
  ghost predicate Marks(m0: Memory, m: Memory, cl: seq<Range>, roots: set<int>, w: Work, t: Tally,
                        flag: bool, raised: bool, first: bool, owner: int, dead0: set<int>)
  {
    && OnlyMarks(m0, m) && FreeIntact(m0, m, cl) && Sound(m0, m, cl, roots, w) && Complete(m0, m, cl, w, t)
    && DroppedOwned(m0, m, cl, t.dropped) && (t.dropped != {} ==> flag)
    && Dead(m0, m, cl) <= dead0
    && (flag && !raised ==> Dead(m0, m, cl) < dead0)
    && (w.num > 0 && w.stack != [] ==> Dead(m0, m, cl) < dead0 && OwnedList(m0, m, cl, w, owner))
    && (first ==> w.hd != NULL && w.stack == [])
    && (w.hd != NULL && !first ==> w.hd in Dead(m0, m, cl))
    && (w.hd != NULL ==> w.num == 0)
  }

  /** A mark between calls: nothing pending. */
  ghost predicate Settled(m0: Memory, m: Memory, cl: seq<Range>, roots: set<int>, t: Tally, flag: bool, raised: bool,
                          dead0: set<int>)
  {
    && OnlyMarks(m0, m) && FreeIntact(m0, m, cl) && Sound(m0, m, cl, roots, IDLE) && Complete(m0, m, cl, IDLE, t)
    && DroppedOwned(m0, m, cl, t.dropped) && (t.dropped != {} ==> flag)
    && Dead(m0, m, cl) <= dead0 && (flag && !raised ==> Dead(m0, m, cl) < dead0)
  }

  lemma WorkDone(m0: Memory, m: Memory, cl: seq<Range>, roots: set<int>, w: Work, t: Tally,
                 flag: bool, raised: bool, owner: int, dead0: set<int>)
    requires Marks(m0, m, cl, roots, w, t, flag, raised, false, owner, dead0) && w.stack == [] && w.num == 0
    requires w.hd == NULL
    ensures Settled(m0, m, cl, roots, t, flag, raised, dead0)
  {
    hide Blocks, Dead, Reachable, OnlyMarks, FreeIntact, DroppedOwned, ScalarAt, Justified;
    forall x | 0 <= x < |m0| && Handled(m0, m, w, t.dropped, x) ensures Handled(m0, m, IDLE, t.dropped, x) {}
  }

  /** Overflow: the list is dropped, and with it nothing but cells of a marked block. */
  lemma DropStep(m0: Memory, m: Memory, cl: seq<Range>, roots: set<int>, w: Work, t: Tally,
                 flag: bool, raised: bool, owner: int, dead0: set<int>) returns (t': Tally)
    requires GraphOk(m0, cl) && Marks(m0, m, cl, roots, w, t, flag, raised, false, owner, dead0) && w.num > 1
    requires w.stack != []
    ensures t'.todo == t.todo && t'.extra == t.extra && t.dropped <= t'.dropped
    ensures Marks(m0, m, cl, roots, w.(lst := 0, num := 0), t', true, raised, false, owner, dead0)
  {
    hide Blocks, Reachable, ScalarAt, Dead, FreeIntact;
    var gone := Interval(w.lst, w.num);
    t' := t.(dropped := t.dropped + gone);
    var w' := w.(lst := 0, num := 0);
    assert !m0[owner].flags.event by { assert !Leaf(m0[owner]); }
    forall x | x in gone
      ensures exists b :: b in Blocks(m0, cl) && IsAlive(m, b) && !m0[b].flags.event && CellOf(m0, b, x)
    {
      assert CellOf(m0, owner, x);
    }
    forall b, x | b in Blocks(m0, cl) && IsAlive(m, b) && b !in t.todo && CellOf(m0, b, x) && 0 <= x < |m0|
      ensures Handled(m0, m, w', t'.dropped, x)
    {
      assert Handled(m0, m, w, t.dropped, x);
    }
    forall x | x in t.extra && 0 <= x < |m0| ensures Handled(m0, m, w', t'.dropped, x) {
      assert Handled(m0, m, w, t.dropped, x);
    }
  }

  /** The cells of a list. */
  ghost function Interval(lst: int, num: nat): (s: set<int>)
    ensures forall x :: x in s <==> lst <= x < lst + num
    decreases num
  {
    if num == 0 then {} else {lst} + Interval(lst + 1, num - 1)
  }

  /** A scalar cell taken from the work. */
  lemma VisitScalar(m0: Memory, m: Memory, m': Memory, cl: seq<Range>, roots: set<int>, w: Work, w': Work, t: Tally,
                    flag: bool, raised: bool, owner: int, dead0: set<int>, x: int)
    requires Marks(m0, m, cl, roots, w, t, flag, raised, false, owner, dead0) && w.hd == NULL
    requires ScalarAt(m0, cl, x) && Justified(m0, cl, roots, x)
    requires m' == m[x := m[x].(flags := m[x].flags.(alive := true))]
    requires w'.lst == w'.num == 0 && w'.hd ==
        if Target(m0[x]) == NULL || IsAlive(m', Target(m0[x])) then NULL else Target(m0[x])
    requires StackOk(m0, cl, roots, w'.stack)
    requires forall y :: Pending(w, y) ==> y == x || OnStack(w'.stack, y)
    ensures Marks(m0, m', cl, roots, w', t, flag, raised, false, owner, dead0) && Dead(m0, m', cl) == Dead(m0, m, cl)
  {
    hide Sound, Complete, OnlyMarks, FreeIntact, NotStart, DroppedOwned, Dead, Blocks, ScalarAt, Justified;
    forall y | Pending(w, y) ensures y == x || Pending(w', y) {}
    ScalarStep(m0, m, m', cl, roots, t, w, w', x);
    ScalarNotStart(m0, m, cl, x);
    FreeIntactMark(m0, m, m', cl, x);
  }

  /** The current header. */
  lemma VisitHeader(m0: Memory, m: Memory, m': Memory, cl: seq<Range>, roots: set<int>, w: Work, w': Work, t: Tally,
                    flag: bool, raised: bool, first: bool, owner: int, dead0: set<int>)
    requires GraphOk(m0, cl) && NoMarks(m0, cl)
    requires Marks(m0, m, cl, roots, w, t, flag, raised, first, owner, dead0) && w.hd != NULL
    requires 0 <= w.hd < |m| && m' == m[w.hd := m[w.hd].(flags := m[w.hd].flags.(alive := true))]
    requires w'.stack == w.stack && w'.lst == FieldList(m0[w.hd], w.hd).0 && w'.num == FieldList(m0[w.hd], w.hd).1
    requires w'.hd == if Target(m0[w.hd]) == NULL || IsAlive(m', Target(m0[w.hd])) then NULL else Target(m0[w.hd])
    ensures Marks(m0, m', cl, roots, w', t.(todo := t.todo - {w.hd}), flag, raised, false, w.hd, dead0)
    ensures Dead(m0, m', cl) == Dead(m0, m, cl) - {w.hd} && IsAlive(m', w.hd)
  {
    hide Sound, Complete, OnlyMarks, FreeIntact, NotStart, DroppedOwned, Dead, ScalarAt, Justified, NoMarks, Blocks;
    HeaderStep(m0, m, m', cl, roots, t, w, w');
    HeaderInside(m0, m, cl, roots, w);
    FreeIntactMark(m0, m, m', cl, w.hd);
  }

  lemma ScalarNotStart(m0: Memory, m: Memory, cl: seq<Range>, x: int)
    requires ScalarAt(m0, cl, x) && FreeIntact(m0, m, cl)
    ensures NotStart(m0, cl, x) && 0 <= x < |m|
  {
  }

  lemma HeaderInside(m0: Memory, m: Memory, cl: seq<Range>, roots: set<int>, w: Work)
    requires Sound(m0, m, cl, roots, w) && w.hd != NULL
    ensures w.hd in Blocks(m0, cl) && 0 <= w.hd < |m0|
  {
  }

  /** A marked memory leads where the unmarked one does. */
  lemma ScalarBounds(m0: Memory, m: Memory, cl: seq<Range>, x: int)
    requires OnlyMarks(m0, m) && ScalarAt(m0, cl, x)
    ensures 0 <= x < |m0| == |m| && Target(m[x]) == Target(m0[x]) && FieldList(m[x], x) == FieldList(m0[x], x)
    ensures FieldList(m0[x], x).1 == 0 && (Target(m0[x]) == NULL || 0 <= Target(m0[x]) < |m|)
  {
  }

  lemma HeaderBounds(m0: Memory, m: Memory, cl: seq<Range>, roots: set<int>, w: Work)
    requires OnlyMarks(m0, m) && GraphOk(m0, cl) && Sound(m0, m, cl, roots, w) && w.hd != NULL
    ensures 0 <= w.hd < |m0| == |m| && Target(m[w.hd]) == Target(m0[w.hd])
    ensures FieldList(m[w.hd], w.hd) == FieldList(m0[w.hd], w.hd)
    ensures Target(m0[w.hd]) == NULL || (0 <= Target(m0[w.hd]) < |m| && FieldList(m0[w.hd], w.hd).1 == 0)
  {
    hide Reachable, ScalarList, JustifiedList, Laid, FieldsInside, Blocks, StackOk;
  }

  lemma WorkOk(m0: Memory, m: Memory, cl: seq<Range>, roots: set<int>, w: Work)
    requires Sound(m0, m, cl, roots, w)
    ensures StackOk(m0, cl, roots, w.stack) && ScalarList(m0, cl, w.lst, w.num)
    ensures JustifiedList(m0, cl, roots, w.lst, w.num)
  {
  }

  lemma LastOne(m0: Memory, cl: seq<Range>, roots: set<int>, w: Work)
    requires w.num == 1 && ScalarList(m0, cl, w.lst, w.num) && JustifiedList(m0, cl, roots, w.lst, w.num)
    ensures ScalarAt(m0, cl, w.lst) && Justified(m0, cl, roots, w.lst)
  {
  }

  function WithoutTodo(t: Tally, hd: int): (t': Tally)
  {
    if hd == NULL then t else t.(todo := t.todo - {hd})
  }

  /** Stack entries the work takes up, or will once the current list is saved. */
  ghost function Depth(w: Work): (n: nat)
  {
    |w.stack| + if w.num > 0 then 1 else 0
  }

  /** A mark stack with an entry for every block, one more for a list of roots and the sentinel: it cannot
      overflow, because every list on it is the field list of a block marked meanwhile, or the first list. */
  ghost predicate Ample(m0: Memory, cl: seq<Range>, capacity: nat)
  {
    capacity >= |Blocks(m0, cl)| + 2
  }

  /** The loop's variables lst, num stand for the ghost work: a header, or a list of scalars. */
  ghost predicate Stands(lst: int, num: nat, w: Work)
  {
    if w.hd != NULL then lst == w.hd && num == 1 else num == w.num && (num > 0 ==> lst == w.lst)
  }

  class Marker {
    const heap: Heap
    const markStack: array<Elem>
    var top: nat
    var outOfStackSpace: bool

    /** MarkStack::Initialize: an empty stack is the sentinel alone. */
    constructor (heap: Heap, capacity: nat)
      requires capacity >= 2
      ensures this.heap == heap && markStack.Length == capacity && fresh(markStack) && Ready() && !outOfStackSpace
    {
      this.heap := heap;
      markStack := new Elem[capacity](_ => Elem(NULL, 0));
      top, outOfStackSpace := 0, false;
    }

    ghost predicate Ready()
      reads this, markStack
    {
      markStack.Length >= 2 && top == 0 && markStack[0].num == 0
    }

    /** The entries above the sentinel are the ghost stack. */
    ghost predicate Holds(stack: seq<Elem>)
      reads this, markStack
    {
      && markStack.Length >= 2 && top < markStack.Length && markStack[0].num == 0
      && markStack[1..top + 1] == stack
    }

    /** Mark cell ptr and look at what it holds: the next list to visit. */
    method Visit(ptr: int) returns (lst: int, num: nat)
      requires 0 <= ptr < heap.mem.Length
      requires Target(heap.mem[ptr]) == NULL || 0 <= Target(heap.mem[ptr]) < heap.mem.Length
      modifies heap.mem
      ensures heap.mem[..]
            == old(heap.mem[..])[ptr := old(heap.mem[ptr]).(flags := old(heap.mem[ptr]).flags.(alive := true))]
      ensures var t := Target(old(heap.mem[ptr]));
        if t != NULL && !IsAlive(heap.mem[..], t) then lst == t && num == 1
        else (lst, num) == FieldList(old(heap.mem[ptr]), ptr)
    {
      var cell := heap.mem[ptr];
      heap.mem[ptr] := cell.(flags := cell.flags.(alive := true));
      var sub := NULL;
      lst, num := ptr, 0;
      match cell.dt {
        case Object => sub := Target(cell);
        case ArrayByRef => sub := Target(cell);
        case Class => lst, num := ptr + 1, if cell.size > 0 then cell.size - 1 else 0;
        case ValueType => lst, num := ptr + 1, if cell.size > 0 then cell.size - 1 else 0;
        case SZArray(fReference, numOfElements) => if fReference { lst, num := ptr + 1, numOfElements; }
        case Delegate(objectAt) => lst, num := ptr + objectAt, 1;
        case DelegateList(first, length) => lst, num := ptr + first, length;
        case _ =>
      }
      if sub != NULL {
        if !heap.mem[sub].flags.alive { lst, num := sub, 1; }
      }
    }

    /** Take the next cell: from the current list, saving its rest, or from the stack. */
    method Advance(lst: int, num: nat, ghost stack: seq<Elem>) returns (ptr: int, full: bool)
      requires Holds(stack) && (num > 0 || stack != []) && forall i :: 0 <= i < |stack| ==> stack[i].num > 0
      modifies markStack, `top
      ensures full <==> num > 1 && |stack| == markStack.Length - 1
      ensures Holds(if full || num == 1 then stack else if num == 0 then Popped(stack)
                    else stack + [Elem(lst + 1, num - 1)])
      ensures !full ==> ptr == if num == 0 then stack[|stack| - 1].ptr else lst
    {
      ptr, full := lst, false;
      assert |stack| == top;
      assert top > 0 ==> markStack[top] == stack[top - 1];
      if num == 0 {
        ptr := markStack[top].ptr;
        markStack[top] := Elem(ptr + 1, markStack[top].num - 1);
        if markStack[top].num == 0 { top := top - 1; }
      } else if num > 1 {
        if top == markStack.Length - 1 {
          full := true;
        } else {
          top := top + 1;
          markStack[top] := Elem(lst + 1, num - 1);
        }
      }
    }

    method Run(lst0: int, num0: nat, ghost m0: Memory, ghost roots: set<int>, ghost w0: Work, ghost t0: Tally,
               ghost first0: bool)
      returns (ghost t: Tally)
      requires GraphOk(m0, heap.clusters) && NoMarks(m0, heap.clusters) && Ready()
      requires Stands(lst0, num0, w0) && w0.stack == [] && (first0 <==> w0.hd != NULL)
      requires Marks(m0, heap.mem[..], heap.clusters, roots, w0, t0, outOfStackSpace, outOfStackSpace, first0, NULL,
                     Dead(m0, heap.mem[..], heap.clusters))
      modifies heap.mem, markStack, `top, `outOfStackSpace
      ensures Ready()
      ensures Settled(m0, heap.mem[..], heap.clusters, roots, t, outOfStackSpace, old(outOfStackSpace),
                      Dead(m0, old(heap.mem[..]), heap.clusters))
      ensures t.todo == WithoutTodo(t0, w0.hd).todo && t.extra == t0.extra && t0.dropped <= t.dropped
      ensures old(outOfStackSpace) ==> outOfStackSpace
      ensures Ample(m0, heap.clusters, markStack.Length) ==> outOfStackSpace == old(outOfStackSpace)
      ensures w0.hd != NULL ==> IsAlive(heap.mem[..], w0.hd)
    {
      hide Marks, Dead, Blocks, NoMarks, GraphOk, StackLoad, Settled, Ample;
      ghost var cl, dead0, raised := heap.clusters, Dead(m0, heap.mem[..], heap.clusters), outOfStackSpace;
      var lst, num := lst0, num0;
      ghost var w, first, owner := w0, first0, NULL;
      t := t0;
      MarksFacts(m0, heap.mem[..], cl, roots, w0, t0, outOfStackSpace, raised, first, owner, dead0);
      AmpleDead(m0, heap.mem[..], cl, markStack.Length);
      while !(num == 0 && markStack[top].num == 0)
        invariant Holds(w.stack) && Stands(lst, num, w)
        invariant Marks(m0, heap.mem[..], cl, roots, w, t, outOfStackSpace, raised, first, owner, dead0)
        invariant first ==> w.hd == w0.hd && t == t0
        invariant !first ==> t.todo == WithoutTodo(t0, w0.hd).todo && (w0.hd != NULL ==> IsAlive(heap.mem[..], w0.hd))
        invariant t.extra == t0.extra && t0.dropped <= t.dropped && (raised ==> outOfStackSpace)
        invariant Depth(w) + |Dead(m0, heap.mem[..], cl)| + (if first then 1 else 0) <= 1 + |dead0|
        invariant Ample(m0, cl, markStack.Length) ==> outOfStackSpace == raised
        decreases Dead(m0, heap.mem[..], cl), first, StackLoad(w.stack) + w.num
      {
        lst, num, w, t, first, owner := Step(lst, num, m0, roots, w, t, raised, first, owner, dead0);
      }
      StackEmpty(w.stack);
      MarksFacts(m0, heap.mem[..], cl, roots, w, t, outOfStackSpace, raised, first, owner, dead0);
      WorkDone(m0, heap.mem[..], cl, roots, w, t, outOfStackSpace, raised, owner, dead0);
    }

    lemma StackEmpty(stack: seq<Elem>)
      requires Holds(stack) && markStack[top].num == 0
      ensures (forall i :: 0 <= i < |stack| ==> stack[i].num > 0) ==> stack == []
    {
      assert |stack| == top && (top > 0 ==> markStack[top] == stack[top - 1]);
    }

    lemma StackLast(stack: seq<Elem>)
      requires Holds(stack)
      ensures |stack| == top && (stack == [] ==> markStack[top].num == 0)
    {
      assert |stack| == top;
    }

    /** One turn of the loop. */
    method Step(lst0: int, num0: nat, ghost m0: Memory, ghost roots: set<int>, ghost w: Work, ghost t: Tally,
                ghost raised: bool, ghost first: bool, ghost owner: int, ghost dead0: set<int>)
      returns (lst: int, num: nat, ghost w': Work, ghost t': Tally, ghost first': bool, ghost owner': int)
      requires GraphOk(m0, heap.clusters) && NoMarks(m0, heap.clusters) && Holds(w.stack) && Stands(lst0, num0, w)
      requires Marks(m0, heap.mem[..], heap.clusters, roots, w, t, outOfStackSpace, raised, first, owner, dead0)
      requires !(num0 == 0 && markStack[top].num == 0)
      modifies heap.mem, markStack, `top, `outOfStackSpace
      ensures Holds(w'.stack) && Stands(lst, num, w')
      ensures Marks(m0, heap.mem[..], heap.clusters, roots, w', t', outOfStackSpace, raised, first', owner', dead0)
      ensures t'.extra == t.extra && t.dropped <= t'.dropped && (old(outOfStackSpace) ==> outOfStackSpace)
      ensures !first' && (forall b :: IsAlive(old(heap.mem[..]), b) ==> IsAlive(heap.mem[..], b))
      ensures t'.todo == if first then WithoutTodo(t, w.hd).todo else t.todo
      ensures first ==> IsAlive(heap.mem[..], w.hd)
      ensures Depth(w') + |Dead(m0, heap.mem[..], heap.clusters)|
           <= Depth(w) + |Dead(m0, old(heap.mem[..]), heap.clusters)| + (if first then 1 else 0)
      ensures outOfStackSpace && !old(outOfStackSpace) ==> Depth(w) >= markStack.Length
      ensures
        || Dead(m0, heap.mem[..], heap.clusters) < Dead(m0, old(heap.mem[..]), heap.clusters)
        || (Dead(m0, heap.mem[..], heap.clusters) == Dead(m0, old(heap.mem[..]), heap.clusters)
            && (first || StackLoad(w'.stack) + w'.num < StackLoad(w.stack) + w.num))
    {
      hide Marks, Sound, Complete, OnlyMarks, DroppedOwned, Dead, Blocks, ScalarAt, Justified, NoMarks, GraphOk,
           OnStack, StackLoad,
           Target, Pending, StackOk, ScalarList, JustifiedList;
      ghost var m, cl := heap.mem[..], heap.clusters;
      MarksFacts(m0, m, cl, roots, w, t, outOfStackSpace, raised, first, owner, dead0);
      StackLast(w.stack);
      var ptr, full := Advance(lst0, num0, w.stack);
      w', t', first', owner' := w, t, false, owner;
      if full {
        ghost var flag := outOfStackSpace;
        outOfStackSpace := true;
        lst, num := NULL, 0;
        t' := DropStep(m0, m, cl, roots, w, t, flag, raised, owner, dead0);
        w' := w.(lst := 0, num := 0);
      } else {
        ghost var stack' := TakeOne(m0, m, cl, roots, w);
        lst, num, w', t', owner' := VisitCell(ptr, m0, roots, w, t, raised, first, owner, dead0, stack');
      }
    }

    /** Visit the cell that was taken from the work. */
    method VisitCell(ptr: int, ghost m0: Memory, ghost roots: set<int>, ghost w: Work, ghost t: Tally,
                     ghost raised: bool, ghost first: bool, ghost owner: int, ghost dead0: set<int>,
                     ghost stack': seq<Elem>)
      returns (lst: int, num: nat, ghost w': Work, ghost t': Tally, ghost owner': int)
      requires GraphOk(m0, heap.clusters) && NoMarks(m0, heap.clusters)
      requires Marks(m0, heap.mem[..], heap.clusters, roots, w, t, outOfStackSpace, raised, first, owner, dead0)
      requires w.hd != NULL ==> ptr == w.hd && stack' == w.stack
      requires w.hd == NULL ==>
        && ScalarAt(m0, heap.clusters, ptr) && Justified(m0, heap.clusters, roots, ptr)
        && StackOk(m0, heap.clusters, roots, stack')
        && (forall y :: Pending(w, y) ==> y == ptr || OnStack(stack', y))
      modifies heap.mem
      ensures Stands(lst, num, w') && w'.stack == stack'
      ensures Marks(m0, heap.mem[..], heap.clusters, roots, w', t', outOfStackSpace, raised, false, owner', dead0)
      ensures t'.extra == t.extra && t.dropped == t'.dropped
      ensures forall b :: IsAlive(old(heap.mem[..]), b) ==> IsAlive(heap.mem[..], b)
      ensures t'.todo == if first then WithoutTodo(t, w.hd).todo else t.todo
      ensures w.hd != NULL ==> IsAlive(heap.mem[..], w.hd)
      ensures w.hd != NULL ==>
        Dead(m0, heap.mem[..], heap.clusters) == Dead(m0, old(heap.mem[..]), heap.clusters) - {w.hd}
      ensures w.hd == NULL ==>
        w'.num == 0 && Dead(m0, heap.mem[..], heap.clusters) == Dead(m0, old(heap.mem[..]), heap.clusters)
      ensures Depth(w') + |Dead(m0, heap.mem[..], heap.clusters)|
           <= |stack'| + |Dead(m0, old(heap.mem[..]), heap.clusters)| + (if first then 1 else 0)
    {
      hide Marks, Sound, Complete, OnlyMarks, DroppedOwned, Dead, Blocks, ScalarAt, Justified, NoMarks, GraphOk,
           OnStack,
           Target, Pending, StackOk, FieldList;
      ghost var m, cl := heap.mem[..], heap.clusters;
      MarksFacts(m0, m, cl, roots, w, t, outOfStackSpace, raised, first, owner, dead0);
      if w.hd == NULL { ScalarBounds(m0, m, cl, ptr); } else { HeaderBounds(m0, m, cl, roots, w); }
      lst, num := Visit(ptr);
      t', owner' := t, owner;
      if w.hd == NULL {
        w' := Work(stack', 0, 0, if num == 1 then lst else NULL);
        VisitScalar(m0, m, heap.mem[..], cl, roots, w, w', t, outOfStackSpace, raised, owner, dead0, ptr);
      } else {
        owner' := w.hd;
        w' := Work(stack', FieldList(m0[owner'], owner').0, FieldList(m0[owner'], owner').1,
                   if Target(m0[owner']) == NULL || IsAlive(heap.mem[..], Target(m0[owner'])) then NULL else lst);
        VisitHeader(m0, m, heap.mem[..], cl, roots, w, w', t, outOfStackSpace, raised, first, owner, dead0);
        OneLess(Dead(m0, m, cl), w.hd);
        if first {
          t' := WithoutTodo(t, w.hd);
        } else {
          TodoGrows(m0, heap.mem[..], cl, roots, w', WithoutTodo(t, w.hd), t.todo, outOfStackSpace, raised, owner',
                    dead0);
        }
      }
    }
  }

  /** There are no more dead blocks than blocks. */
  lemma AmpleDead(m0: Memory, m: Memory, cl: seq<Range>, capacity: nat)
    ensures Ample(m0, cl, capacity) ==> capacity >= |Dead(m0, m, cl)| + 2
  {
    hide Blocks;
    SubsetSize(Dead(m0, m, cl), Blocks(m0, cl));
  }

  lemma SubsetSize(s: set<int>, t: set<int>)
    requires s <= t
    ensures |s| <= |t|
  {
    assert s + (t - s) == t && s * (t - s) == {};
    assert |s + (t - s)| == |s| + |t - s|;
  }

  lemma OneLess(s: set<int>, x: int)
    ensures |s - {x}| == |s| - if x in s then 1 else 0
  {
    if x !in s { assert s - {x} == s; }
  }

  lemma MarksFacts(m0: Memory, m: Memory, cl: seq<Range>, roots: set<int>, w: Work, t: Tally,
                   flag: bool, raised: bool, first: bool, owner: int, dead0: set<int>)
    requires Marks(m0, m, cl, roots, w, t, flag, raised, first, owner, dead0)
    ensures OnlyMarks(m0, m) && Sound(m0, m, cl, roots, w)
    ensures (forall i :: 0 <= i < |w.stack| ==> w.stack[i].num > 0) && (w.hd != NULL ==> w.num == 0)
    ensures first ==> w.hd != NULL && w.stack == []
    ensures w.hd != NULL && !first ==> w.hd in Dead(m0, m, cl)
  {
  }

  /** The stack after the next cell was taken, and what that cell is. */
  lemma TakeOne(m0: Memory, m: Memory, cl: seq<Range>, roots: set<int>, w: Work) returns (stack': seq<Elem>)
    requires Sound(m0, m, cl, roots, w) && (w.hd != NULL ==> w.num == 0)
    requires w.hd != NULL || w.num > 0 || w.stack != []
    ensures w.hd != NULL ==> stack' == w.stack
    ensures w.hd == NULL ==>
      && (w.num == 0 ==> w.stack[|w.stack| - 1].num > 0)
      && stack' == (if w.num == 0 then Popped(w.stack) else if w.num == 1 then w.stack
                   else w.stack + [Elem(w.lst + 1, w.num - 1)])
      && var x := if w.num == 0 then w.stack[|w.stack| - 1].ptr else w.lst;
      && ScalarAt(m0, cl, x) && Justified(m0, cl, roots, x) && StackOk(m0, cl, roots, stack')
      && (forall y :: Pending(w, y) ==> y == x || OnStack(stack', y))
      && StackLoad(stack') < StackLoad(w.stack) + w.num
  {
    hide Blocks, ScalarAt, Justified;
    WorkOk(m0, m, cl, roots, w);
    stack' := w.stack;
    if w.hd == NULL {
      if w.num == 0 {
        PoppedOk(m0, cl, roots, w.stack);
        stack' := Popped(w.stack);
      } else if w.num == 1 {
        LastOne(m0, cl, roots, w);
      } else {
        PushedOk(m0, cl, roots, w.stack, w.lst, w.num);
        stack' := w.stack + [Elem(w.lst + 1, w.num - 1)];
      }
    }
  }

  /** Leaving more blocks unaccounted for is always possible. */
  lemma TodoGrows(m0: Memory, m: Memory, cl: seq<Range>, roots: set<int>, w: Work, t: Tally, todo: set<int>,
                  flag: bool, raised: bool, owner: int, dead0: set<int>)
    requires Marks(m0, m, cl, roots, w, t, flag, raised, false, owner, dead0) && t.todo <= todo
    ensures Marks(m0, m, cl, roots, w, t.(todo := todo), flag, raised, false, owner, dead0)
  {
    hide Blocks, Dead, Reachable, Sound, OnlyMarks, FreeIntact, DroppedOwned;
    var t' := t.(todo := todo);
    assert Complete(m0, m, cl, w, t') by {
      forall b, x | b in Blocks(m0, cl) && IsAlive(m, b) && b !in todo && CellOf(m0, b, x) && 0 <= x < |m0|
        ensures Handled(m0, m, w, t'.dropped, x) {}
    }
  }
}
