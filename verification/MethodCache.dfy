/** The virtual-method cache: hash buckets and a most-recently-used order, both kept as index rings, in
    front of a slow lookup. */
module MethodCache {
  import opened Wrappers
  import opened LinkRings

  datatype Key = Key(mdVirtual: int, cls: int)
  datatype Payload = Payload(key: Key, md: int)

  /** The type system and the hash, as the cache sees them: FindVirtualMethodDef, the class a method belongs
      to, and the bucket of a key. */
  datatype Types = Types(resolve: Key -> Option<int>, owner: int -> int, bucket: Key -> nat)

  /** A method looked up on its own class is itself. */
  ghost predicate TypesOk(ts: Types, buckets: nat)
  {
    && (forall k: Key :: k.cls == ts.owner(k.mdVirtual) ==> ts.resolve(k) == Some(k.mdVirtual))
    && (forall k: Key :: ts.bucket(k) < buckets)
  }

  /** What is cached is right, and in its bucket. */
  ghost predicate Truthful(ts: Types, pl: seq<Payload>, lists: seq<seq<int>>)
  {
    forall b, k :: 0 <= b < |lists| && 0 <= k < |lists[b]| ==>
      && 0 <= lists[b][k] < |pl| && ts.bucket(pl[lists[b][k]].key) == b
      && ts.resolve(pl[lists[b][k]].key) == Some(pl[lists[b][k]].md)
  }

  /** No key is cached twice in a bucket (nor, its bucket being determined by the key, anywhere). */
  ghost predicate NoKeyTwice(pl: seq<Payload>, lists: seq<seq<int>>)
  {
    forall b, k, l ::
      0 <= b < |lists| && 0 <= k < l < |lists[b]| && 0 <= lists[b][k] < |pl| && 0 <= lists[b][l] < |pl| ==>
      pl[lists[b][k]].key != pl[lists[b][l]].key
  }

  /** The order of the ring is the order of last use. */
  ghost predicate ByRecency(recency: seq<int>, stamps: seq<int>, clock: int)
  {
    && (forall i :: 0 <= i < |recency| ==> 0 <= recency[i] < |stamps| && stamps[recency[i]] < clock)
    && (forall i, j :: 0 <= i < j < |recency| ==> stamps[recency[i]] > stamps[recency[j]])
  }

  /** List b after the promotion of x, entry by entry. */
  lemma PromotedAt(p: nat, lists: seq<seq<int>>, b: nat, x: int, c: nat, k: nat)
    requires Apart(p, lists) && b < |lists| && c < |lists| && k < |Promoted(lists, b, x)[c]|
    ensures var y := Promoted(lists, b, x)[c][k];
      if c == b && k == 0 then y == x
      else y != x && y in lists[c]
  {
    WithoutMembers(p, lists, c, x);
  }

  lemma WithoutMembers(p: nat, lists: seq<seq<int>>, c: nat, x: int)
    requires Apart(p, lists) && c < |lists|
    ensures forall y :: y in Without(lists[c], x) <==> y in lists[c] && y != x
    ensures |Without(lists[c], x)| == |lists[c]| - (if x in lists[c] then 1 else 0)
  {
    if x in lists[c] {
      var k :| 0 <= k < |lists[c]| && lists[c][k] == x;
      WithoutAt(lists[c], k);
      var list' := lists[c][..k] + lists[c][k + 1..];
      forall y | y in lists[c] && y != x ensures y in list' {
        var j :| 0 <= j < |lists[c]| && lists[c][j] == y;
        assert list'[if j < k then j else j - 1] == y;
      }
    } else {
      WithoutNone(lists[c], x);
    }
  }

  /** After key q was written to entry x, or found there, and x promoted to q's bucket. */
  lemma TruthfulAfter(ts: Types, pl: seq<Payload>, p: nat, lists: seq<seq<int>>, x: int, q: Payload)
    requires Truthful(ts, pl, lists) && Apart(p, lists) && |pl| == p && 0 <= x < p
    requires ts.resolve(q.key) == Some(q.md) && ts.bucket(q.key) < |lists|
    ensures Truthful(ts, pl[x := q], Promoted(lists, ts.bucket(q.key), x))
  {
    var b := ts.bucket(q.key);
    var lists', pl' := Promoted(lists, b, x), pl[x := q];
    forall c, k | 0 <= c < |lists'| && 0 <= k < |lists'[c]|
      ensures 0 <= lists'[c][k] < |pl'| && ts.bucket(pl'[lists'[c][k]].key) == c
      ensures ts.resolve(pl'[lists'[c][k]].key) == Some(pl'[lists'[c][k]].md)
    {
      PromotedAt(p, lists, b, x, c, k);
    }
  }

  /** Provided no other entry of the bucket had the key. */
  lemma NoKeyTwiceAfter(pl: seq<Payload>, p: nat, lists: seq<seq<int>>, b: nat, x: int, q: Payload)
    requires NoKeyTwice(pl, lists) && Apart(p, lists) && |pl| == p && 0 <= x < p && b < |lists|
    requires forall k :: 0 <= k < |lists[b]| && lists[b][k] != x ==>
      0 <= lists[b][k] < |pl| && pl[lists[b][k]].key != q.key
    requires Apart(p, Promoted(lists, b, x))
    ensures NoKeyTwice(pl[x := q], Promoted(lists, b, x))
  {
    var lists', pl' := Promoted(lists, b, x), pl[x := q];
    forall c, k, l | 0 <= c < |lists'| && 0 <= k < l < |lists'[c]| && 0 <= lists'[c][k] < |pl'|
      && 0 <= lists'[c][l] < |pl'|
      ensures pl'[lists'[c][k]].key != pl'[lists'[c][l]].key
    {
      PromotedAt(p, lists, b, x, c, k);
      PromotedAt(p, lists, b, x, c, l);
      if !(c == b && k == 0) {
        assert lists'[c][k] != lists'[c][l];
        DifferentKeys(pl, p, lists, c, lists'[c][k], lists'[c][l]);
      }
    }
  }

  lemma DifferentKeys(pl: seq<Payload>, p: nat, lists: seq<seq<int>>, c: nat, x: int, y: int)
    requires NoKeyTwice(pl, lists) && Apart(p, lists) && |pl| == p && c < |lists| && x in lists[c] && y in lists[c]
    requires x != y
    ensures 0 <= x < p && 0 <= y < p && pl[x].key != pl[y].key
  {
    var k :| 0 <= k < |lists[c]| && lists[c][k] == x;
    var l :| 0 <= l < |lists[c]| && lists[c][l] == y;
    if l < k { assert pl[lists[c][l]].key != pl[lists[c][k]].key; }
  }

  /** Every entry has its place in the order. */
  ghost predicate Complete(p: nat, recency: seq<int>)
  {
    forall i :: 0 <= i < p ==> i in recency
  }

  /** Using entry x now makes it the most recent. */
  lemma ByRecencyAfter(p: nat, recency: seq<int>, stamps: seq<int>, clock: int, x: int)
    requires ByRecency(recency, stamps, clock) && Apart(p, [recency]) && Complete(p, recency) && |stamps| == p
    requires 0 <= x < p
    ensures ByRecency([x] + Without(recency, x), stamps[x := clock], clock + 1)
    ensures Complete(p, [x] + Without(recency, x)) && |[x] + Without(recency, x)| == |recency|
  {
    WithoutMembers(p, [recency], 0, x);
    var k :| 0 <= k < |recency| && recency[k] == x;
    assert [recency][0] == recency;
    WithoutAt(recency, k);
    PromotedOrder(recency, stamps, clock, k);
  }

  lemma PromotedOrder(recency: seq<int>, stamps: seq<int>, clock: int, k: nat)
    requires ByRecency(recency, stamps, clock) && k < |recency|
    ensures ByRecency([recency[k]] + (recency[..k] + recency[k + 1..]), stamps[recency[k] := clock], clock + 1)
  {
    var x := recency[k];
    var r, s := [x] + (recency[..k] + recency[k + 1..]), stamps[x := clock];
    forall i | 1 <= i < |r|
      ensures r[i] == recency[if i <= k then i - 1 else i] && r[i] != x && s[r[i]] == stamps[r[i]] < clock {}
    forall i, j | 0 <= i < j < |r| ensures s[r[i]] > s[r[j]] {
      assert r[j] == recency[if j <= k then j - 1 else j];
    }
  }

  class MethodTable {
    const types: Types
    const p: nat
    const entries: array<Link>
    const mru: array<Link>
    const payloads: array<Payload>
    ghost var lists: seq<seq<int>>
    ghost var recency: seq<int>
    ghost var stamps: seq<int>
    ghost var clock: int

    ghost predicate Valid()
      reads this, entries, mru, payloads
    {
      && entries != mru && payloads.Length == p >= 1
      && |lists| >= 1 && entries.Length == p + |lists| && mru.Length == p + 1
      && TypesOk(types, |lists|)
      && Rings(entries[..], p, lists) && Truthful(types, payloads[..], lists) && NoKeyTwice(payloads[..], lists)
      && Rings(mru[..], p, [recency]) && |recency| == p
      && Complete(p, recency) && |stamps| == p && ByRecency(recency, stamps, clock)
    }

    /** Initialize: empty buckets, and all entries in the order. */
    constructor (types: Types, p: nat, buckets: nat)
      requires p >= 1 && buckets >= 1 && TypesOk(types, buckets)
      ensures Valid() && this.types == types && this.p == p && lists == seq(buckets, b => []) && fresh(entries)
      ensures fresh(mru) && fresh(payloads)
    {
      this.types, this.p := types, p;
      entries := new Link[p + buckets](i => Link(i, i));
      mru := new Link[p + 1](i => Link(if i == p then 0 else i + 1, if i == 0 then p else i - 1));
      payloads := new Payload[p](i => Payload(Key(0, 0), 0));
      lists, recency, stamps, clock := seq(buckets, b => []), seq(p, i => i), seq(p, i => -i), 1;
      new;
      EmptyRings(entries[..], p, buckets);
      FullRing(mru[..], p);
    }

    /** Walk the bucket of a key; the head itself when the key is not there. */
    method Search(key: Key) returns (idx: int)
      requires Valid()
      ensures var b := types.bucket(key);
        if idx == p + b then forall k :: 0 <= k < |lists[b]| ==>
            0 <= lists[b][k] < p && payloads[lists[b][k]].key != key
        else idx in lists[b] && 0 <= idx < p && payloads[idx].key == key
    {
      hide Rings, Truthful, NoKeyTwice, ByRecency, Complete;
      var b := types.bucket(key);
      BucketChain(entries[..], p, lists, b);
      assert Joint(entries[..], p + b, lists[b], 0);
      idx := entries[p + b].next;
      ghost var k := 0;
      while idx != p + b
        invariant 0 <= k <= |lists[b]| && idx == RingAt(p + b, lists[b], k)
        invariant forall j :: 0 <= j < k ==> payloads[lists[b][j]].key != key
        decreases |lists[b]| - k
      {
        if payloads[idx].key == key { return; }
        assert Joint(entries[..], p + b, lists[b], k + 1);
        idx, k := entries[idx].next, k + 1;
      }
    }

    /** FindVirtualMethod; `used` is the entry that served the lookup, -1 if none did. */
    method FindVirtualMethod(key: Key) returns (found: bool, md: int, ghost used: int)
      requires Valid()
      modifies this, entries, mru, payloads
      ensures Valid()
      ensures found == types.resolve(key).Some? && (found ==> md == types.resolve(key).value)
      ensures used == -1 <==> !found || key.cls == types.owner(key.mdVirtual)
      ensures used == -1 ==> lists == old(lists) && recency == old(recency) && payloads[..] == old(payloads[..])
      ensures used != -1 ==>
        && 0 <= used < p && payloads[..] == old(payloads[..])[used := Payload(key, md)]
        && lists == Promoted(old(lists), types.bucket(key), used)
        && recency == [used] + Without(old(recency), used)
        && stamps == old(stamps)[used := old(clock)]
      // A cached key is served from its entry; otherwise the least recently used entry is replaced.
      ensures used != -1 ==>
        if used in old(lists)[types.bucket(key)] && old(payloads[..])[used].key == key then true
        else used == old(recency)[p - 1] && forall i :: 0 <= i < p ==> old(stamps)[used] <= old(stamps)[i]
    {
      hide Rings, Truthful, NoKeyTwice, ByRecency, Promoted, Complete;
      used := -1;
      if key.cls == types.owner(key.mdVirtual) { return true, key.mdVirtual, used; }
      var b := types.bucket(key);
      var idx := Search(key);
      if idx == p + b {
        var r := types.resolve(key);
        if r.None? { return false, 0, used; }
        md := r.value;
        LastOfRing(mru[..], p, recency);
        idx := mru[p].prev;
        Oldest(recency, stamps, clock, p, idx);
      } else {
        md := payloads[idx].md;
        HitIsTrue(types, payloads[..], lists, b, idx);
      }
      found, used := true, idx;
      Use(idx, Payload(key, md), b);
    }

    /** Write the payload and move the entry to the top of both rings. */
    method Use(idx: int, q: Payload, b: nat)
      requires Valid() && 0 <= idx < p && b == types.bucket(q.key) && types.resolve(q.key) == Some(q.md)
      requires forall k :: 0 <= k < |lists[b]| && lists[b][k] != idx ==>
        0 <= lists[b][k] < p && payloads[lists[b][k]].key != q.key
      modifies this, entries, mru, payloads
      ensures Valid() && payloads[..] == old(payloads[..])[idx := q]
      ensures lists == Promoted(old(lists), b, idx) && recency == [idx] + Without(old(recency), idx)
      ensures stamps == old(stamps)[idx := old(clock)] && clock == old(clock) + 1
    {
      hide Rings, Truthful, NoKeyTwice, ByRecency, Promoted, Apart, Complete;
      ghost var pl, ls, rs := payloads[..], lists, recency;
      RingsApart(entries[..], p, ls);
      RingsApart(mru[..], p, [rs]);
      payloads[idx] := q;
      MoveEntryToTop(entries, p + b, idx, p, ls);
      MoveEntryToTop(mru, p, idx, p, [rs]);
      RingsApart(entries[..], p, Promoted(ls, b, idx));
      TruthfulAfter(types, pl, p, ls, idx, q);
      NoKeyTwiceAfter(pl, p, ls, b, idx, q);
      ByRecencyAfter(p, rs, stamps, clock, idx);
      PromotedSize(p, ls, b, rs, idx);
      lists, recency := Promoted(ls, b, idx), [idx] + Without(rs, idx);
      stamps, clock := stamps[idx := clock], clock + 1;
    }
  }

  lemma RingsApart(a: seq<Link>, p: nat, lists: seq<seq<int>>)
    requires Rings(a, p, lists)
    ensures Apart(p, lists)
  {
  }

  lemma BucketChain(a: seq<Link>, p: nat, lists: seq<seq<int>>, b: nat)
    requires Rings(a, p, lists) && b < |lists|
    ensures Chain(a, p + b, lists[b]) && forall k :: 0 <= k < |lists[b]| ==> 0 <= lists[b][k] < p
  {
  }

  lemma LastOfRing(a: seq<Link>, p: nat, recency: seq<int>)
    requires Rings(a, p, [recency]) && |recency| == p >= 1
    ensures a[p].prev == recency[p - 1] && 0 <= a[p].prev < p
  {
    assert Chain(a, p + 0, [recency][0]);
    assert Joint(a, p, recency, |recency|);
  }

  /** The last of the ring is the least recently used. */
  lemma Oldest(recency: seq<int>, stamps: seq<int>, clock: int, p: nat, idx: int)
    requires ByRecency(recency, stamps, clock) && Complete(p, recency) && |recency| == p == |stamps| >= 1
    requires idx == recency[p - 1]
    ensures 0 <= idx < p && forall i :: 0 <= i < p ==> stamps[idx] <= stamps[i]
  {
    forall i | 0 <= i < p ensures stamps[idx] <= stamps[i] {
      assert i in recency;
      var j :| 0 <= j < |recency| && recency[j] == i;
      if j < p - 1 { assert stamps[recency[j]] > stamps[recency[p - 1]]; }
    }
  }

  lemma HitIsTrue(ts: Types, pl: seq<Payload>, lists: seq<seq<int>>, b: nat, idx: int)
    requires Truthful(ts, pl, lists) && NoKeyTwice(pl, lists) && b < |lists| && idx in lists[b] && 0 <= idx < |pl|
    ensures ts.resolve(pl[idx].key) == Some(pl[idx].md)
    ensures forall k :: 0 <= k < |lists[b]| && lists[b][k] != idx ==>
      0 <= lists[b][k] < |pl| && pl[lists[b][k]].key != pl[idx].key
  {
    var j :| 0 <= j < |lists[b]| && lists[b][j] == idx;
    forall k | 0 <= k < |lists[b]| && lists[b][k] != idx
      ensures 0 <= lists[b][k] < |pl| && pl[lists[b][k]].key != pl[idx].key
    {
      if k < j {
        assert pl[lists[b][k]].key != pl[lists[b][j]].key;
      } else {
        assert pl[lists[b][j]].key != pl[lists[b][k]].key;
      }
    }
  }

  lemma PromotedSize(p: nat, lists: seq<seq<int>>, b: nat, recency: seq<int>, x: int)
    requires b < |lists|
    ensures |Promoted(lists, b, x)| == |lists| && Promoted([recency], 0, x) == [[x] + Without(recency, x)]
  {
  }

  lemma EmptyRings(a: seq<Link>, p: nat, buckets: nat)
    requires |a| == p + buckets && forall i :: 0 <= i < |a| ==> a[i] == Link(i, i)
    ensures Rings(a, p, seq(buckets, b => []))
  {
    var lists: seq<seq<int>> := seq(buckets, b => []);
    forall b | 0 <= b < buckets ensures Chain(a, p + b, lists[b]) {
      assert Joint(a, p + b, [], 0);
    }
  }

  lemma FullRing(a: seq<Link>, p: nat)
    requires |a| == p + 1 && p >= 1
    requires forall i :: 0 <= i <= p ==> a[i] == Link(if i == p then 0 else i + 1, if i == 0 then p else i - 1)
    ensures Rings(a, p, [seq(p, i => i)])
    ensures Complete(p, seq(p, i => i))
  {
    var list := seq(p, i => i);
    forall k | 0 <= k <= |list| ensures Joint(a, p, list, k) {}
    forall i | 0 <= i < p ensures i in list { assert list[i] == i; }
    assert list in [list];
    assert [list][0] == list;
  }
}
