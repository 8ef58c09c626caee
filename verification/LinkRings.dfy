/** Doubly linked rings kept as index links in one array: the heads follow the entries, every head starts a
    ring, and an entry in no ring is unused. */
module LinkRings {

  datatype Link = Link(next: int, prev: int)

  /** Position k of a ring: the head sits before the first and behind the last entry. */
  function RingAt(head: int, list: seq<int>, k: int): (i: int)
  {
    if 0 <= k < |list| then list[k] else head
  }

  ghost predicate InRange(a: seq<Link>, head: int, list: seq<int>)
  {
    0 <= head < |a| && forall k :: 0 <= k < |list| ==> 0 <= list[k] < |a|
  }

  /** The links of the ring, forward and backward. */
  ghost predicate Chain(a: seq<Link>, head: int, list: seq<int>)
  {
    InRange(a, head, list) && forall k :: 0 <= k <= |list| ==> Joint(a, head, list, k)
  }

  /** Positions k - 1 and k are linked. */
  ghost predicate Joint(a: seq<Link>, head: int, list: seq<int>, k: int)
    requires InRange(a, head, list)
  {
    a[RingAt(head, list, k - 1)].next == RingAt(head, list, k)
    && a[RingAt(head, list, k)].prev == RingAt(head, list, k - 1)
  }

  /** Entries are below p, and none appears twice, in one list or two. */
  ghost predicate Apart(p: nat, lists: seq<seq<int>>)
  {
    && (forall b, k :: 0 <= b < |lists| && 0 <= k < |lists[b]| ==> 0 <= lists[b][k] < p)
    && (forall b, k, c, l ::
          0 <= b < |lists| && 0 <= k < |lists[b]| && 0 <= c < |lists| && 0 <= l < |lists[c]|
            && lists[b][k] == lists[c][l] ==>
            b == c && k == l)
  }

  ghost predicate Listed(lists: seq<seq<int>>, i: int)
  {
    exists b :: 0 <= b < |lists| && i in lists[b]
  }

  /** Entries 0..p, then one head per list. */
  ghost predicate Rings(a: seq<Link>, p: nat, lists: seq<seq<int>>)
  {
    && |a| == p + |lists| && Apart(p, lists)
    && (forall b :: 0 <= b < |lists| ==> Chain(a, p + b, lists[b]))
    && (forall i :: 0 <= i < p && !Listed(lists, i) ==> a[i] == Link(i, i))
  }

  function Without(list: seq<int>, i: int): (list': seq<int>)
  {
    if list == [] then [] else if list[0] == i then list[1..] else [list[0]] + Without(list[1..], i)
  }

  lemma {:induction false} WithoutAt(list: seq<int>, k: nat)
    requires k < |list| && forall j :: 0 <= j < k ==> list[j] != list[k]
    ensures Without(list, list[k]) == list[..k] + list[k + 1..]
  {
    if k > 0 { WithoutAt(list[1..], k - 1); }
  }

  lemma {:induction false} WithoutNone(list: seq<int>, i: int)
    requires i !in list
    ensures Without(list, i) == list
  {
    if list != [] { WithoutNone(list[1..], i); }
  }

  /** The lists after entry i left whatever list it was in. */
  function Removed(lists: seq<seq<int>>, i: int): (lists': seq<seq<int>>)
    ensures |lists'| == |lists| && forall b :: 0 <= b < |lists| ==> lists'[b] == Without(lists[b], i)
  {
    seq(|lists|, b requires 0 <= b < |lists| => Without(lists[b], i))
  }

  /** ... and went to the top of list b. */
  function Promoted(lists: seq<seq<int>>, b: nat, i: int): (lists': seq<seq<int>>)
    requires b < |lists|
  {
    Removed(lists, i)[b := [i] + Without(lists[b], i)]
  }

  /** Rings with entry x taken out: its own links say nothing. */
  ghost predicate RingsBut(a: seq<Link>, p: nat, lists: seq<seq<int>>, x: int)
  {
    && |a| == p + |lists| && Apart(p, lists) && 0 <= x < p && !Listed(lists, x)
    && (forall b :: 0 <= b < |lists| ==> Chain(a, p + b, lists[b]))
    && (forall i :: 0 <= i < p && i != x && !Listed(lists, i) ==> a[i] == Link(i, i))
  }

  /** Joining the neighbours of entry x. */
  function Bypassed(a: seq<Link>, x: int): (a': seq<Link>)
    requires 0 <= x < |a| && 0 <= a[x].next < |a| && 0 <= a[x].prev < |a|
  {
    var (n, p) := (a[x].next, a[x].prev);
    var a1 := a[n := a[n].(prev := p)];
    a1[p := a1[p].(next := n)]
  }

  /** Entry x is linked behind `slot`. */
  function Spliced(a: seq<Link>, slot: int, x: int): (a': seq<Link>)
    requires 0 <= slot < |a| && 0 <= x < |a| && 0 <= a[slot].next < |a|
  {
    var n := a[slot].next;
    var a1 := a[x := Link(n, slot)];
    var a2 := a1[slot := a1[slot].(next := x)];
    a2[n := a2[n].(prev := x)]
  }

  /** Where two positions of a ring hold the same index, they are the same, or both are the head. */
  lemma SamePosition(p: nat, lists: seq<seq<int>>, b: nat, k: int, l: int)
    requires Apart(p, lists) && b < |lists| && -1 <= k <= |lists[b]| && -1 <= l <= |lists[b]|
    requires RingAt(p + b, lists[b], k) == RingAt(p + b, lists[b], l)
    ensures k == l || (!(0 <= k < |lists[b]|) && !(0 <= l < |lists[b]|))
  {
    if 0 <= k < |lists[b]| && 0 <= l < |lists[b]| { assert lists[b][k] == lists[b][l]; }
  }

  /** Bypassing position k of a ring leaves a ring without it. */
  lemma BypassedRing(a: seq<Link>, p: nat, lists: seq<seq<int>>, b: nat, k: nat)
    requires Apart(p, lists) && b < |lists| && k < |lists[b]| && Chain(a, p + b, lists[b])
    ensures var x := lists[b][k];
      && 0 <= x < |a| && a[x].next == RingAt(p + b, lists[b], k + 1) && a[x].prev == RingAt(p + b, lists[b], k - 1)
      && 0 <= a[x].next < |a| && 0 <= a[x].prev < |a|
      && Chain(Bypassed(a, x), p + b, lists[b][..k] + lists[b][k + 1..])
  {
    var head, list := p + b, lists[b];
    var x, list' := list[k], list[..k] + list[k + 1..];
    assert Joint(a, head, list, k) && Joint(a, head, list, k + 1);
    var a' := Bypassed(a, x);
    forall j | 0 <= j <= |list'| ensures Joint(a', head, list', j) {
      var i := if j <= k then j else j + 1;
      assert Joint(a, head, list, i);
      if j != k {
        BypassedElsewhere(a, p, lists, b, k, i);
      }
    }
  }

  lemma BypassedElsewhere(a: seq<Link>, p: nat, lists: seq<seq<int>>, b: nat, k: nat, i: nat)
    requires Apart(p, lists) && b < |lists| && k < |lists[b]| && Chain(a, p + b, lists[b]) && i <= |lists[b]| && i != k
    requires i != k + 1
    ensures var list, head := lists[b], p + b;
      && 0 <= list[k] < |a| && 0 <= a[list[k]].next < |a| && 0 <= a[list[k]].prev < |a|
      && Bypassed(a, list[k])[RingAt(head, list, i - 1)].next == a[RingAt(head, list, i - 1)].next
      && Bypassed(a, list[k])[RingAt(head, list, i)].prev == a[RingAt(head, list, i)].prev
  {
    var head, list := p + b, lists[b];
    assert Joint(a, head, list, k) && Joint(a, head, list, k + 1);
    if RingAt(head, list, i - 1) == RingAt(head, list, k - 1) { SamePosition(p, lists, b, i - 1, k - 1); }
    if RingAt(head, list, i) == RingAt(head, list, k + 1) { SamePosition(p, lists, b, i, k + 1); }
  }

  /** No index of ring c belongs to ring b. */
  lemma RingsDisjoint(p: nat, lists: seq<seq<int>>, b: nat, k: int, c: nat, l: int)
    requires Apart(p, lists) && b < |lists| && c < |lists| && b != c
    ensures RingAt(p + b, lists[b], k) != RingAt(p + c, lists[c], l)
  {
  }

  lemma BypassedOther(a: seq<Link>, p: nat, lists: seq<seq<int>>, b: nat, k: nat, c: nat)
    requires |a| == p + |lists| && Apart(p, lists) && b < |lists| && k < |lists[b]| && c < |lists| && c != b
    requires Chain(a, p + b, lists[b]) && Chain(a, p + c, lists[c])
    ensures var x := lists[b][k];
      0 <= x < |a| && 0 <= a[x].next < |a| && 0 <= a[x].prev < |a| && Chain(Bypassed(a, x), p + c, lists[c])
  {
    hide Apart;
    BypassedRing(a, p, lists, b, k);
    var x := lists[b][k];
    var a', head, list := Bypassed(a, x), p + c, lists[c];
    forall j | 0 <= j <= |list| ensures Joint(a', head, list, j) {
      assert Joint(a, head, list, j);
      RingsDisjoint(p, lists, b, k + 1, c, j);
      RingsDisjoint(p, lists, b, k - 1, c, j - 1);
    }
  }

  /** Taking an entry out of its list. */
  lemma RemovedLists(p: nat, lists: seq<seq<int>>, b: nat, k: nat)
    requires Apart(p, lists) && b < |lists| && k < |lists[b]|
    ensures var x := lists[b][k];
      && Removed(lists, x) == lists[b := lists[b][..k] + lists[b][k + 1..]]
      && Apart(p, Removed(lists, x)) && !Listed(Removed(lists, x), x)
      && forall i :: i != x && Listed(lists, i) ==> Listed(Removed(lists, x), i)
  {
    var x := lists[b][k];
    WithoutAt(lists[b], k);
    forall c | 0 <= c < |lists| && c != b ensures Without(lists[c], x) == lists[c] {
      WithoutNone(lists[c], x);
    }
    var lists' := lists[b := lists[b][..k] + lists[b][k + 1..]];
    assert Removed(lists, x) == lists';
    RemovedApart(p, lists, b, k);
    forall i | i != x && Listed(lists, i) ensures Listed(lists', i) { StillListed(lists, b, k, i); }
  }

  lemma StillListed(lists: seq<seq<int>>, b: nat, k: nat, i: int)
    requires b < |lists| && k < |lists[b]| && i != lists[b][k] && Listed(lists, i)
    ensures Listed(lists[b := lists[b][..k] + lists[b][k + 1..]], i)
  {
    var lists' := lists[b := lists[b][..k] + lists[b][k + 1..]];
    var c :| 0 <= c < |lists| && i in lists[c];
    if c == b {
      var l :| 0 <= l < |lists[b]| && lists[b][l] == i;
      assert lists'[b][if l < k then l else l - 1] == i;
    }
    assert i in lists'[c];
  }

  lemma RemovedApart(p: nat, lists: seq<seq<int>>, b: nat, k: nat)
    requires Apart(p, lists) && b < |lists| && k < |lists[b]|
    ensures var lists' := lists[b := lists[b][..k] + lists[b][k + 1..]];
      Apart(p, lists') && !Listed(lists', lists[b][k])
  {
    var lists' := lists[b := lists[b][..k] + lists[b][k + 1..]];
    forall c, l | 0 <= c < |lists'| && 0 <= l < |lists'[c]|
      ensures lists'[c][l] == lists[c][Old(b, k, c, l)]
    {}
  }

  /** Position before the removal of what is at position l now. */
  function Old(b: int, k: int, c: int, l: int): (m: int) { if c == b && l >= k then l + 1 else l }

  /** The first half of MoveEntryToTop. */
  lemma Unlinked(a: seq<Link>, p: nat, lists: seq<seq<int>>, x: int)
    requires Rings(a, p, lists) && 0 <= x < p
    ensures 0 <= a[x].next < |a| && 0 <= a[x].prev < |a| && RingsBut(Bypassed(a, x), p, Removed(lists, x), x)
  {
    hide Apart, Chain;
    if Listed(lists, x) {
      var b :| 0 <= b < |lists| && x in lists[b];
      var k :| 0 <= k < |lists[b]| && lists[b][k] == x;
      BypassedRing(a, p, lists, b, k);
      RemovedLists(p, lists, b, k);
      forall c | 0 <= c < |lists| ensures Chain(Bypassed(a, x), p + c, Removed(lists, x)[c]) {
        if c != b { BypassedOther(a, p, lists, b, k, c); }
      }
      UnusedStay(a, p, lists, b, k);
    } else {
      forall c | 0 <= c < |lists| ensures Without(lists[c], x) == lists[c] { WithoutNone(lists[c], x); }
      assert Removed(lists, x) == lists;
      assert Bypassed(a, x) == a;
    }
  }

  lemma UnusedStay(a: seq<Link>, p: nat, lists: seq<seq<int>>, b: nat, k: nat)
    requires Rings(a, p, lists) && b < |lists| && k < |lists[b]|
    ensures var x := lists[b][k];
      && 0 <= x < |a| && 0 <= a[x].next < |a| && 0 <= a[x].prev < |a|
      && forall i :: 0 <= i < p && !Listed(lists, i) ==> Bypassed(a, x)[i] == Link(i, i)
  {
    BypassedRing(a, p, lists, b, k);
  }

  /** The second half. */
  lemma Linked(a: seq<Link>, p: nat, lists: seq<seq<int>>, x: int, b: nat)
    requires RingsBut(a, p, lists, x) && b < |lists|
    ensures 0 <= a[p + b].next < |a| && Rings(Spliced(a, p + b, x), p, lists[b := [x] + lists[b]])
  {
    hide Apart, Chain;
    var lists' := lists[b := [x] + lists[b]];
    LinkedRing(a, p, lists, x, b);
    LinkedApart(p, lists, x, b);
    forall c | 0 <= c < |lists| ensures Chain(Spliced(a, p + b, x), p + c, lists'[c]) {
      if c != b { LinkedOther(a, p, lists, x, b, c); }
    }
    LinkedUnused(a, p, lists, x, b);
  }

  lemma LinkedRing(a: seq<Link>, p: nat, lists: seq<seq<int>>, x: int, b: nat)
    requires RingsBut(a, p, lists, x) && b < |lists|
    ensures 0 <= a[p + b].next < |a| && a[p + b].next == RingAt(p + b, lists[b], 0)
    ensures Chain(Spliced(a, p + b, x), p + b, [x] + lists[b])
  {
    var head, list := p + b, lists[b];
    assert Joint(a, head, list, 0);
    var a', list' := Spliced(a, head, x), [x] + list;
    forall j | 0 <= j <= |list'| ensures Joint(a', head, list', j) {
      if j >= 2 { SplicedElsewhere(a, p, lists, x, b, j - 1); }
    }
  }

  lemma SplicedElsewhere(a: seq<Link>, p: nat, lists: seq<seq<int>>, x: int, b: nat, i: nat)
    requires RingsBut(a, p, lists, x) && b < |lists| && 1 <= i <= |lists[b]|
    ensures 0 <= a[p + b].next < |a| && InRange(a, p + b, [x] + lists[b])
    ensures Joint(Spliced(a, p + b, x), p + b, [x] + lists[b], i + 1)
  {
    hide Apart;
    var head, list := p + b, lists[b];
    assert Joint(a, head, list, 0) && Joint(a, head, list, i) && Chain(a, head, list);
    assert x !in list;
    if RingAt(head, list, i) == RingAt(head, list, 0) { SamePosition(p, lists, b, i, 0); }
    if RingAt(head, list, i - 1) == head { SamePosition(p, lists, b, i - 1, -1); }
  }

  lemma LinkedOther(a: seq<Link>, p: nat, lists: seq<seq<int>>, x: int, b: nat, c: nat)
    requires RingsBut(a, p, lists, x) && b < |lists| && c < |lists| && c != b
    ensures 0 <= a[p + b].next < |a| && Chain(Spliced(a, p + b, x), p + c, lists[c])
  {
    hide Apart;
    assert Joint(a, p + b, lists[b], 0);
    var a', head, list := Spliced(a, p + b, x), p + c, lists[c];
    assert x !in list;
    forall j | 0 <= j <= |list| ensures Joint(a', head, list, j) {
      assert Joint(a, head, list, j);
      RingsDisjoint(p, lists, b, 0, c, j);
      RingsDisjoint(p, lists, b, -1, c, j - 1);
    }
  }

  lemma LinkedApart(p: nat, lists: seq<seq<int>>, x: int, b: nat)
    requires Apart(p, lists) && 0 <= x < p && !Listed(lists, x) && b < |lists|
    ensures Apart(p, lists[b := [x] + lists[b]])
  {
    var lists' := lists[b := [x] + lists[b]];
    forall c, l | 0 <= c < |lists'| && 0 <= l < |lists'[c]|
      ensures if c == b && l == 0 then lists'[c][l] == x
            else lists'[c][l] == lists[c][if c == b then l - 1 else l] && lists'[c][l] != x
    {
      if !(c == b && l == 0) { assert lists'[c][l] in lists[c]; }
    }
  }

  lemma LinkedUnused(a: seq<Link>, p: nat, lists: seq<seq<int>>, x: int, b: nat)
    requires RingsBut(a, p, lists, x) && b < |lists|
    ensures 0 <= a[p + b].next < |a|
    ensures forall i :: 0 <= i < p && !Listed(lists[b := [x] + lists[b]], i) ==> Spliced(a, p + b, x)[i] == Link(i, i)
  {
    hide Apart;
    var lists' := lists[b := [x] + lists[b]];
    assert Joint(a, p + b, lists[b], 0);
    forall i | 0 <= i < p && !Listed(lists', i) ensures Spliced(a, p + b, x)[i] == Link(i, i) {
      assert lists'[b][0] == x;
      assert i != x;
      forall c | 0 <= c < |lists| ensures i !in lists[c] {
        var list := lists'[c];
        assert list == lists[c] || list == [x] + lists[c];
      }
      assert !Listed(lists, i);
    }
  }

  /** MoveEntryToTop: make entry idx the first of ring `slot`, wherever it was. */
  method MoveEntryToTop(entries: array<Link>, slot: int, idx: int, ghost p: nat, ghost lists: seq<seq<int>>)
    requires Rings(entries[..], p, lists) && 0 <= idx < p <= slot < entries.Length
    modifies entries
    ensures Rings(entries[..], p, Promoted(lists, slot - p, idx))
  {
    hide Rings, RingsBut;
    ghost var a, b := entries[..], slot - p;
    Bounds(a, p, lists, slot);
    Unlinked(a, p, lists, idx);
    if entries[slot].next != idx {
      var next, prev := entries[idx].next, entries[idx].prev;
      entries[next] := entries[next].(prev := prev);
      entries[prev] := entries[prev].(next := next);
      assert entries[..] == Bypassed(a, idx);
      Linked(entries[..], p, Removed(lists, idx), idx, b);
      ghost var a1 := entries[..];
      next := entries[slot].next;
      entries[idx] := Link(next, slot);
      entries[slot] := entries[slot].(next := idx);
      entries[next] := entries[next].(prev := idx);
      assert entries[..] == Spliced(a1, slot, idx);
    } else {
      AlreadyFirst(a, p, lists, idx, b);
    }
  }

  lemma Bounds(a: seq<Link>, p: nat, lists: seq<seq<int>>, slot: int)
    requires Rings(a, p, lists) && p <= slot < |a|
    ensures |lists| == |a| - p
  {
  }

  lemma AlreadyFirst(a: seq<Link>, p: nat, lists: seq<seq<int>>, idx: int, b: nat)
    requires Rings(a, p, lists) && 0 <= idx < p && b < |lists| && a[p + b].next == idx
    ensures Promoted(lists, b, idx) == lists
  {
    hide Apart;
    assert Joint(a, p + b, lists[b], 0);
    assert lists[b][0] == idx;
    RemovedLists(p, lists, b, 0);
    assert [idx] + lists[b][1..] == lists[b];
  }
}
