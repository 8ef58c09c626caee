/** The list walks of LockObject, UnlockObject, DestroyOwner and the request timeout, proved to carry out
    the steps of the monitor. */
module MonitorEngine {
  import opened Wrappers
  import opened Monitor

  lemma {:induction false} OwnerBumped(owners: seq<Owner>, sub: Sub, i: nat)
    requires i < |owners| && owners[i].sub == sub && forall j :: 0 <= j < i ==> owners[j].sub != sub
    ensures Owns(owners, sub) && Bump(owners, sub) == owners[i := Owner(sub, owners[i].recursion + 1)]
  {
    if i > 0 {
      OwnerBumped(owners[1..], sub, i - 1);
      assert [owners[0]] + owners[1..][i - 1 := Owner(sub, owners[i].recursion + 1)]
          == owners[i := Owner(sub, owners[i].recursion + 1)];
    }
  }

  lemma {:induction false} OwnerReleased(owners: seq<Owner>, sub: Sub, i: nat)
    requires i < |owners| && owners[i].sub == sub && forall j :: 0 <= j < i ==> owners[j].sub != sub
    ensures Owns(owners, sub)
    ensures Release(owners, sub)
         == owners[..i] + (if owners[i].recursion <= 1 then [] else [Owner(sub, owners[i].recursion - 1)])
            + owners[i + 1..]
  {
    var left := if owners[i].recursion <= 1 then [] else [Owner(sub, owners[i].recursion - 1)];
    if i == 0 {
      assert owners[..0] + left + owners[1..] == left + owners[1..];
    } else {
      var first, rest := [owners[0]], owners[1..];
      OwnerReleased(rest, sub, i - 1);
      Regroup(first, rest[..i - 1], left, rest[i..]);
      assert rest[i..] == owners[i + 1..] && first + rest[..i - 1] == owners[..i];
    }
  }

  lemma Regroup(a: seq<Owner>, b: seq<Owner>, c: seq<Owner>, d: seq<Owner>)
    ensures a + (b + c + d) == (a + b) + c + d
  {
  }

  lemma {:induction false} OwnerMissing(owners: seq<Owner>, sub: Sub)
    requires forall j :: 0 <= j < |owners| ==> owners[j].sub != sub
    ensures !Owns(owners, sub)
  {
    if owners != [] { OwnerMissing(owners[1..], sub); }
  }

  class Engine {
    var locks: map<int, Lock>
    var lists: map<int, seq<int>>
    var field: map<Resource, int>
    const threads: seq<int>
    var next: int

    constructor (threads: seq<int>)
      ensures Safe(Now()) && Now().threads == threads
    {
      this.threads := threads;
      locks, lists, field, next := map[], map[], map[], 0;
      new;
      InitiallySafe(threads);
    }

    ghost function Now(): (s: State)
      reads this
    {
      State(locks, lists, field, threads, next)
    }

    method ListOf(t: int) returns (list: seq<int>)
      ensures list == List(Now(), t)
    {
      list := if t in lists then lists[t] else [];
    }

    method FindLock(r: Resource) returns (f: Option<int>)
      ensures f == FindLockObject(Now(), r)
    {
      if r.hasField { return if r in field then Some(field[r]) else None; }
      ghost var s := Now();
      for i := 0 to |threads|
        invariant SearchThreads(s, threads, r) == SearchThreads(s, threads[i..], r)
      {
        var list := ListOf(threads[i]);
        for j := 0 to |list|
          invariant SearchList(s, list, r) == SearchList(s, list[j..], r)
        {
          if list[j] in locks && locks[list[j]].resource == r { return Some(list[j]); }
          assert list[j..][1..] == list[j + 1..];
        }
        assert threads[i..][1..] == threads[i + 1..];
      }
      return None;
    }

    method LockObject(r: Resource, sub: Sub, expire: int) returns (res: Result)
      requires Safe(Now()) && sub.thread in threads
      modifies this
      ensures (Now(), res) == Step(old(Now()), Monitor.LockObject(r, sub, expire)) && Safe(Now())
    {
      hide Safe, FindLockObject;
      ghost var s := Now();
      StepSafe(s, Monitor.LockObject(r, sub, expire));
      SafeParts(s, 0);
      var f := FindLock(r);
      var l := next;
      if f.Some? {
        l := f.value;
        FindLockExact(s, r, l);
      } else {
        var list := ListOf(sub.thread);
        locks := locks[next := Lock(r, sub.thread, [], [])];
        if r.hasField { field := field[r := next]; }
        lists := lists[sub.thread := list + [next]];
        next := next + 1;
      }
      res := Increment(l, sub, expire);
    }

    method Increment(l: int, sub: Sub, expire: int) returns (res: Result)
      requires l in locks
      modifies this`locks
      ensures (Now(), res) == IncrementOwnership(old(Now()), l, sub, expire)
    {
      var k := locks[l];
      if k.thread != sub.thread {
        locks := locks[l := k.(requests := k.requests + [Request(sub, expire)])];
        return ThreadWaiting;
      }
      var i := FindOwner(k.owners, sub);
      if i < |k.owners| {
        locks := locks[l := k.(owners := k.owners[i := Owner(sub, k.owners[i].recursion + 1)])];
      } else {
        locks := locks[l := k.(owners := [Owner(sub, 1)] + k.owners)];
      }
      return Ok;
    }

    /** Position of sub's record, or the number of records. */
    static method FindOwner(owners: seq<Owner>, sub: Sub) returns (i: nat)
      ensures i <= |owners| && (i < |owners| <==> Owns(owners, sub))
      ensures i < |owners| ==>
        && owners[i].sub == sub
        && Bump(owners, sub) == owners[i := Owner(sub, owners[i].recursion + 1)]
        && Release(owners, sub)
           == owners[..i] + (if owners[i].recursion <= 1 then [] else [Owner(sub, owners[i].recursion - 1)])
              + owners[i + 1..]
    {
      hide Owns, Bump, Release;
      i := 0;
      while i < |owners| && owners[i].sub != sub
        invariant 0 <= i <= |owners| && forall j :: 0 <= j < i ==> owners[j].sub != sub
      {
        i := i + 1;
      }
      if i < |owners| {
        OwnerBumped(owners, sub, i);
        OwnerReleased(owners, sub, i);
      } else {
        OwnerMissing(owners, sub);
      }
    }

    method UnlockObject(r: Resource, sub: Sub) returns (res: Result)
      requires Safe(Now())
      modifies this
      ensures (Now(), res) == Step(old(Now()), Monitor.UnlockObject(r, sub)) && Safe(Now())
    {
      hide Safe, FindLockObject, ChangeOwner, Bump;
      ghost var s := Now();
      StepSafe(s, Monitor.UnlockObject(r, sub));
      SafeParts(s, 0);
      var f := FindLock(r);
      if f.Some? {
        var l := f.value;
        FindLockExact(s, r, l);
        var k := locks[l];
        if k.thread == sub.thread {
          var i := FindOwner(k.owners, sub);
          if i < |k.owners| {
            var left := if k.owners[i].recursion <= 1 then [] else [Owner(sub, k.owners[i].recursion - 1)];
            SetOwners(l, k.owners[..i] + left + k.owners[i + 1..]);
            return Ok;
          }
        }
      }
      return SynchronizationException;
    }

    method SetOwners(l: int, owners: seq<Owner>)
      requires l in locks
      modifies this
      ensures Now() == WithOwners(old(Now()), l, owners)
    {
      locks := locks[l := locks[l].(owners := owners)];
      if owners == [] { HandOver(l); }
    }

    /** ChangeOwner: the first request gets the lock, or the lock goes away. */
    method HandOver(l: int)
      requires l in locks
      modifies this
      ensures Now() == ChangeOwner(old(Now()), l)
    {
      var k := locks[l];
      var list := Unlink(k.thread, l);
      lists := lists[k.thread := list];
      if k.requests != [] {
        var sub := k.requests[0].sub;
        list := ListOf(sub.thread);
        lists := lists[sub.thread := list + [l]];
        locks := locks[l := Lock(k.resource, sub.thread, [Owner(sub, 1)], k.requests[1..])];
      } else {
        if k.resource.hasField { field := field - {k.resource}; }
        locks := locks - {l};
      }
    }

    method Unlink(t: int, l: int) returns (list': seq<int>)
      ensures list' == Unlinked(List(Now(), t), l)
    {
      var list := ListOf(t);
      list' := [];
      for i := 0 to |list|
        invariant Unlinked(list, l) == list' + Unlinked(list[i..], l)
      {
        assert list[i..][1..] == list[i + 1..];
        if list[i] != l { list' := list' + [list[i]]; }
      }
    }

    /** The records of everybody but sub. */
    static method DropOwner(owners: seq<Owner>, sub: Sub) returns (left: seq<Owner>)
      ensures left == Disown(owners, sub)
    {
      left := [];
      assert owners[0..] == owners;
      for i := 0 to |owners|
        invariant Disown(owners, sub) == left + Disown(owners[i..], sub)
      {
        assert owners[i..][1..] == owners[i + 1..];
        if owners[i].sub != sub { left := left + [owners[i]]; }
      }
    }

    static method DropExpired(requests: seq<Request>, now: int) returns (left: seq<Request>)
      ensures left == Unexpired(requests, now)
    {
      left := [];
      assert requests[0..] == requests;
      for i := 0 to |requests|
        invariant Unexpired(requests, now) == left + Unexpired(requests[i..], now)
      {
        assert requests[i..][1..] == requests[i + 1..];
        if requests[i].expire > now { left := left + [requests[i]]; }
      }
    }

    method DestroyOwner(l: int, sub: Sub)
      requires Safe(Now()) && l in locks
      modifies this
      ensures Now() == Step(old(Now()), Monitor.DestroyOwner(l, sub)).0 && Safe(Now())
    {
      hide Safe, WithOwners, Disown;
      StepSafe(Now(), Monitor.DestroyOwner(l, sub));
      var left := DropOwner(locks[l].owners, sub);
      SetOwners(l, left);
    }

    /** The part of CheckThreads that drops expired lock requests of one lock. */
    method ExpireRequests(l: int, now: int)
      requires Safe(Now()) && l in locks
      modifies this`locks
      ensures Now() == Step(old(Now()), Expire(l, now)).0 && Safe(Now())
    {
      hide Safe, Unexpired;
      StepSafe(Now(), Expire(l, now));
      var left := DropExpired(locks[l].requests, now);
      locks := locks[l := locks[l].(requests := left)];
    }
  }
}
