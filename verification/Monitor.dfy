/** Recursive monitors: a lock per resource in use, owned by one thread through its subthreads, with a
    queue of requests.  The steps are functions of the engine's state; MonitorEngine carries out the list walks. */
module Monitor {
  import opened Wrappers
  import opened Selection

  /** A subthread and the thread it belongs to. */
  datatype Sub = Sub(thread: int, id: int)

  /** Objects of class or value types have a field for their lock. */
  datatype Resource = Resource(id: int, hasField: bool)

  datatype Owner = Owner(sub: Sub, recursion: nat)
  datatype Request = Request(sub: Sub, expire: int)
  datatype Lock = Lock(resource: Resource, thread: int, owners: seq<Owner>, requests: seq<Request>)

  /** All locks, the lock list of each thread, the lock fields of objects, the threads, and the next lock. */
  datatype State = State(locks: map<int, Lock>, lists: map<int, seq<int>>, field: map<Resource, int>,
                   threads: seq<int>, next: int)

  datatype Result = Ok | ThreadWaiting | SynchronizationException

  datatype Event =
    | LockObject(r: Resource, sub: Sub, expire: int)
    | UnlockObject(r: Resource, sub: Sub)
    | DestroyOwner(lock: int, sub: Sub)
    | Expire(lock: int, now: int)

  // ---- Owners ----

  /** How often sub holds a lock. */
  function Depth(owners: seq<Owner>, sub: Sub): (n: nat)
  {
    if owners == [] then 0 else if owners[0].sub == sub then owners[0].recursion else Depth(owners[1..], sub)
  }

  function Bump(owners: seq<Owner>, sub: Sub): (owners': seq<Owner>)
    requires Owns(owners, sub)
  {
    if owners[0].sub == sub then [Owner(sub, owners[0].recursion + 1)] + owners[1..]
    else [owners[0]] + Bump(owners[1..], sub)
  }

  predicate Owns(owners: seq<Owner>, sub: Sub)
  {
    owners != [] && (owners[0].sub == sub || Owns(owners[1..], sub))
  }

  function Release(owners: seq<Owner>, sub: Sub): (owners': seq<Owner>)
    requires Owns(owners, sub)
  {
    if owners[0].sub == sub
      then (if owners[0].recursion <= 1 then [] else [Owner(sub, owners[0].recursion - 1)]) + owners[1..]
    else [owners[0]] + Release(owners[1..], sub)
  }

  function Disown(owners: seq<Owner>, sub: Sub): (owners': seq<Owner>)
  {
    if owners == [] then [] else (if owners[0].sub == sub then [] else [owners[0]]) + Disown(owners[1..], sub)
  }

  /** Owner records: distinct subthreads of one thread, each at least once. */
  ghost predicate OwnersOk(owners: seq<Owner>, thread: int)
  {
    owners == [] || (owners[0].recursion >= 1 && owners[0].sub.thread == thread && !Owns(owners[1..], owners[0].sub)
                     && OwnersOk(owners[1..], thread))
  }

  lemma {:induction false} BumpOk(owners: seq<Owner>, sub: Sub, thread: int)
    requires OwnersOk(owners, thread) && Owns(owners, sub)
    ensures OwnersOk(Bump(owners, sub), thread) && Bump(owners, sub) != []
    ensures forall x :: Owns(Bump(owners, sub), x) == Owns(owners, x)
    ensures forall x :: Depth(Bump(owners, sub), x) == Depth(owners, x) + if x == sub then 1 else 0
  {
    if owners[0].sub == sub {
      assert Bump(owners, sub)[1..] == owners[1..];
    } else {
      BumpOk(owners[1..], sub, thread);
      assert Bump(owners, sub)[1..] == Bump(owners[1..], sub);
    }
  }

  lemma {:induction false} ReleaseOk(owners: seq<Owner>, sub: Sub, thread: int)
    requires OwnersOk(owners, thread) && Owns(owners, sub)
    ensures OwnersOk(Release(owners, sub), thread)
    ensures forall x :: Owns(Release(owners, sub), x) ==> Owns(owners, x)
    ensures forall x :: Depth(Release(owners, sub), x) == Depth(owners, x) - if x == sub then 1 else 0
  {
    if owners[0].sub == sub {
      assert Release(owners, sub)[if owners[0].recursion <= 1 then 0 else 1..] == owners[1..];
      NotOwned(owners[1..], sub);
    } else {
      ReleaseOk(owners[1..], sub, thread);
      assert Release(owners, sub)[1..] == Release(owners[1..], sub);
    }
  }

  lemma {:induction false} NotOwned(owners: seq<Owner>, sub: Sub)
    requires !Owns(owners, sub)
    ensures Depth(owners, sub) == 0
  {
    if owners != [] { NotOwned(owners[1..], sub); }
  }

  lemma {:induction false} DisownOk(owners: seq<Owner>, sub: Sub, thread: int)
    requires OwnersOk(owners, thread)
    ensures OwnersOk(Disown(owners, sub), thread)
    ensures forall x :: Owns(Disown(owners, sub), x) == (Owns(owners, x) && x != sub)
    ensures forall x :: Depth(Disown(owners, sub), x) == if x == sub then 0 else Depth(owners, x)
  {
    if owners != [] {
      DisownOk(owners[1..], sub, thread);
      assert Disown(owners, sub)[if owners[0].sub == sub then 0 else 1..] == Disown(owners[1..], sub);
    }
  }

  /** With good records, owning is having a depth of at least one. */
  lemma {:induction false} OwnsDepth(owners: seq<Owner>, sub: Sub, thread: int)
    requires OwnersOk(owners, thread)
    ensures Owns(owners, sub) <==> Depth(owners, sub) >= 1
    ensures Owns(owners, sub) ==> sub.thread == thread
  {
    if owners != [] { OwnsDepth(owners[1..], sub, thread); }
  }

  // ---- Lock lists ----

  function List(s: State, t: int): (l: seq<int>) { if t in s.lists then s.lists[t] else [] }

  function Unlinked(list: seq<int>, l: int): (list': seq<int>)
  {
    if list == [] then [] else (if list[0] == l then [] else [list[0]]) + Unlinked(list[1..], l)
  }

  lemma {:induction false} UnlinkedMembers(list: seq<int>, l: int)
    ensures multiset(Unlinked(list, l)) == multiset(list)[l := 0]
  {
    if list != [] {
      UnlinkedMembers(list[1..], l);
      assert list == [list[0]] + list[1..];
    }
  }

  ghost function LocksOf(s: State, t: int): (ls: set<int>)
  {
    set l | l in s.locks && s.locks[l].thread == t
  }

  // ---- Finding a lock ----

  function SearchList(s: State, list: seq<int>, r: Resource): (l: Option<int>)
  {
    if list == [] then None
    else if list[0] in s.locks && s.locks[list[0]].resource == r then Some(list[0])
    else SearchList(s, list[1..], r)
  }

  function SearchThreads(s: State, threads: seq<int>, r: Resource): (l: Option<int>)
  {
    if threads == [] then None
    else
      var l := SearchList(s, List(s, threads[0]), r);
      if l.Some? then l else SearchThreads(s, threads[1..], r)
  }

  function FindLockObject(s: State, r: Resource): (l: Option<int>)
  {
    if r.hasField then if r in s.field then Some(s.field[r]) else None
    else SearchThreads(s, s.threads, r)
  }

  // ---- Steps ----

  function CreateInstance(s: State, r: Resource, t: int): (s': State)
  {
    s.(locks := s.locks[s.next := Lock(r, t, [], [])], lists := s.lists[t := List(s, t) + [s.next]],
       field := if r.hasField then s.field[r := s.next] else s.field, next := s.next + 1)
  }

  function IncrementOwnership(s: State, l: int, sub: Sub, expire: int): (r: (State, Result))
    requires l in s.locks
  {
    var k := s.locks[l];
    if k.thread == sub.thread then
      (s.(locks := s.locks[l := k.(owners :=
         if Owns(k.owners, sub) then Bump(k.owners, sub) else [Owner(sub, 1)] + k.owners)]), Ok)
    else
      (s.(locks := s.locks[l := k.(requests := k.requests + [Request(sub, expire)])]), ThreadWaiting)
  }

  /** The owners are gone: the first request gets the lock, or the lock goes away. */
  function ChangeOwner(s: State, l: int): (s': State)
    requires l in s.locks
  {
    var k := s.locks[l];
    var lists := s.lists[k.thread := Unlinked(List(s, k.thread), l)];
    if k.requests == [] then
      s.(locks := s.locks - {l}, lists := lists,
          field := if k.resource.hasField then s.field - {k.resource} else s.field)
    else
      var sub := k.requests[0].sub;
      var s1 := s.(lists := lists);
      s1.(lists := lists[sub.thread := List(s1, sub.thread) + [l]],
          locks := s.locks[l := Lock(k.resource, sub.thread, [Owner(sub, 1)], k.requests[1..])])
  }

  function WithOwners(s: State, l: int, owners: seq<Owner>): (s': State)
    requires l in s.locks
  {
    var s1 := s.(locks := s.locks[l := s.locks[l].(owners := owners)]);
    if owners == [] then ChangeOwner(s1, l) else s1
  }

  function Unexpired(rs: seq<Request>, now: int): (rs': seq<Request>)
  {
    if rs == [] then [] else (if rs[0].expire <= now then [] else [rs[0]]) + Unexpired(rs[1..], now)
  }

  function Step(s: State, e: Event): (r: (State, Result))
  {
    match e
    case LockObject(r, sub, expire) =>
      var f := FindLockObject(s, r);
      var s1 := if f.Some? then s else CreateInstance(s, r, sub.thread);
      var l := if f.Some? then f.value else s.next;
      if l in s1.locks then IncrementOwnership(s1, l, sub, expire) else (s, SynchronizationException)
    case UnlockObject(r, sub) =>
      var f := FindLockObject(s, r);
      if f.Some? && f.value in s.locks && s.locks[f.value].thread == sub.thread && Owns(s.locks[f.value].owners, sub)
      then (WithOwners(s, f.value, Release(s.locks[f.value].owners, sub)), Ok)
      else (s, SynchronizationException)
    case DestroyOwner(l, sub) =>
      if l in s.locks then (WithOwners(s, l, Disown(s.locks[l].owners, sub)), Ok) else (s, Ok)
    case Expire(l, now) =>
      if l in s.locks
        then (s.(locks := s.locks[l := s.locks[l].(requests := Unexpired(s.locks[l].requests, now))]), Ok)
        else (s, Ok)
  }

  // ---- What every step keeps ----

  ghost predicate Listed(s: State)
  {
    forall t :: multiset(List(s, t)) == multiset(LocksOf(s, t))
  }

  ghost predicate OnePerResource(s: State)
  {
    forall l, k :: l in s.locks && k in s.locks && s.locks[l].resource == s.locks[k].resource ==> l == k
  }

  ghost predicate FieldsOk(s: State)
  {
    && (forall r :: r in s.field ==> r.hasField && s.field[r] in s.locks && s.locks[s.field[r]].resource == r)
    && (forall l :: l in s.locks && s.locks[l].resource.hasField ==> s.locks[l].resource in s.field)
  }

  ghost predicate LockOk(k: Lock)
  {
    k.owners != [] && OwnersOk(k.owners, k.thread)
  }

  ghost predicate ThreadsOk(s: State)
  {
    && (forall l :: l in s.locks ==> s.locks[l].thread in s.threads && l < s.next)
    && (forall l, i :: l in s.locks && 0 <= i < |s.locks[l].requests| ==>
        s.locks[l].requests[i].sub.thread in s.threads)
  }

  /** Everything but the owners of lock x, which may be between owners. */
  ghost predicate Almost(s: State, x: int)
  {
    Listed(s) && OnePerResource(s) && FieldsOk(s) && ThreadsOk(s)
    && forall l :: l in s.locks && l != x ==> LockOk(s.locks[l])
  }

  ghost predicate Safe(s: State)
  {
    Almost(s, -1) && forall l :: l in s.locks ==> LockOk(s.locks[l])
  }

  /** The events an engine sees come from threads it knows. */
  ghost predicate Known(s: State, e: Event)
  {
    e.LockObject? ==> e.sub.thread in s.threads
  }

  lemma {:induction false} SearchListFinds(s: State, list: seq<int>, r: Resource)
    ensures var f := SearchList(s, list, r);
      if f.Some? then f.value in list && f.value in s.locks && s.locks[f.value].resource == r
      else forall l :: l in list && l in s.locks ==> s.locks[l].resource != r
  {
    if list != [] { SearchListFinds(s, list[1..], r); }
  }

  lemma {:induction false} SearchThreadsFinds(s: State, threads: seq<int>, r: Resource)
    ensures var f := SearchThreads(s, threads, r);
      if f.Some? then f.value in s.locks && s.locks[f.value].resource == r
      else forall t, l :: t in threads && l in List(s, t) && l in s.locks ==> s.locks[l].resource != r
  {
    if threads != [] {
      SearchListFinds(s, List(s, threads[0]), r);
      SearchThreadsFinds(s, threads[1..], r);
    }
  }

  lemma InList(s: State, l: int)
    requires Listed(s) && l in s.locks
    ensures l in List(s, s.locks[l].thread)
  {
    var t := s.locks[l].thread;
    assert l in LocksOf(s, t);
    assert multiset(List(s, t))[l] == multiset(LocksOf(s, t))[l];
  }

  /** FindLockObject finds the lock of a resource exactly when there is one. */
  lemma FindLockExact(s: State, r: Resource, l: int)
    requires Listed(s) && OnePerResource(s) && FieldsOk(s) && ThreadsOk(s)
    ensures FindLockObject(s, r) == Some(l) <==> l in s.locks && s.locks[l].resource == r
    ensures FindLockObject(s, r).Some? ==> FindLockObject(s, r).value in s.locks
  {
    var f := FindLockObject(s, r);
    if !r.hasField { SearchThreadsFinds(s, s.threads, r); }
    assert f.Some? ==> f.value in s.locks && s.locks[f.value].resource == r;
    if l in s.locks && s.locks[l].resource == r {
      InList(s, l);
      assert s.locks[l].thread in s.threads;
      assert f.Some? && s.locks[f.value].resource == s.locks[l].resource;
      assert f.value == l;
    }
  }

  lemma UnlinkedAt(s: State, l: int, t: int, x: int)
    requires Listed(s) && l in s.locks && s.locks[l].thread == t
    ensures multiset(List(s.(lists := s.lists[t := Unlinked(List(s, t), l)]), x)) == multiset(LocksOf(s, x) - {l})
  {
    UnlinkedMembers(List(s, t), l);
    assert multiset(List(s, x)) == multiset(LocksOf(s, x));
  }

  /** Lock l is with thread t' now, or gone; every other lock is where it was. */
  ghost predicate OnlyMoved(s: State, s': State, l: int, linked: bool, t': int)
  {
    && (l in s'.locks <==> linked) && (linked ==> s'.locks[l].thread == t')
    && s'.locks.Keys - {l} == s.locks.Keys - {l}
    && forall k :: k in s.locks.Keys - {l} ==> s'.locks[k].thread == s.locks[k].thread
  }

  lemma LocksMoved(s: State, s': State, l: int, linked: bool, t': int, x: int)
    requires OnlyMoved(s, s', l, linked, t')
    ensures LocksOf(s', x) == (LocksOf(s, x) - {l}) + if linked && x == t' then {l} else {}
  {
    forall k ensures k in LocksOf(s', x) <==> k in (LocksOf(s, x) - {l}) + if linked && x == t' then {l} else {} {
      if k != l { assert k in s'.locks.Keys - {l} <==> k in s.locks.Keys - {l}; }
    }
  }

  /** The lock lists after lock l moved from thread t to t', or away. */
  lemma Relisted(s: State, s': State, l: int, t: int, linked: bool, t': int)
    requires Listed(s) && l in s.locks && s.locks[l].thread == t && OnlyMoved(s, s', l, linked, t')
    requires var s1 := s.(lists := s.lists[t := Unlinked(List(s, t), l)]);
      s'.lists == if linked then s1.lists[t' := List(s1, t') + [l]] else s1.lists
    ensures Listed(s')
  {
    hide LocksOf, OnlyMoved;
    var s1 := s.(lists := s.lists[t := Unlinked(List(s, t), l)]);
    forall x ensures multiset(List(s', x)) == multiset(LocksOf(s', x)) {
      UnlinkedAt(s, l, t, x);
      LocksMoved(s, s', l, linked, t', x);
    }
  }

  /** A step that changes one lock's owners or requests only. */
  lemma Rewritten(s: State, s': State, l: int, k: Lock)
    requires Almost(s, l) && l in s.locks && s' == s.(locks := s.locks[l := k])
    requires k.resource == s.locks[l].resource && k.thread == s.locks[l].thread && LockOk(k)
    requires forall i :: 0 <= i < |k.requests| ==> k.requests[i].sub.thread in s.threads
    ensures Safe(s')
  {
    hide OwnersOk;
    forall t ensures multiset(List(s', t)) == multiset(LocksOf(s', t)) {
      assert multiset(List(s, t)) == multiset(LocksOf(s, t));
      assert LocksOf(s', t) == LocksOf(s, t);
    }
  }

  lemma CreateListed(s: State, r: Resource, t: int)
    requires Listed(s) && s.next !in s.locks
    ensures Listed(CreateInstance(s, r, t))
  {
    var s' := CreateInstance(s, r, t);
    forall x ensures multiset(List(s', x)) == multiset(LocksOf(s', x)) {
      assert multiset(List(s, x)) == multiset(LocksOf(s, x));
      CreatedLocks(s, s', r, t, x);
    }
  }

  lemma CreatedLocks(s: State, s': State, r: Resource, t: int, x: int)
    requires s.next !in s.locks && s' == CreateInstance(s, r, t)
    ensures LocksOf(s', x) == if x == t then LocksOf(s, x) + {s.next} else LocksOf(s, x)
    ensures s.next !in LocksOf(s, x)
  {
  }

  lemma CreateAlmost(s: State, r: Resource, t: int)
    requires Safe(s) && t in s.threads && forall l :: l in s.locks ==> s.locks[l].resource != r
    ensures Almost(CreateInstance(s, r, t), s.next)
  {
    hide LockOk, Listed;
    CreateListed(s, r, t);
  }

  /** Handing over or retiring a lock restores safety. */
  lemma ChangeOwnerSafe(s: State, l: int)
    requires Almost(s, l) && l in s.locks
    ensures Safe(ChangeOwner(s, l))
  {
    var k, s' := s.locks[l], ChangeOwner(s, l);
    if k.requests == [] {
      Relisted(s, s', l, k.thread, false, 0);
    } else {
      Relisted(s, s', l, k.thread, true, k.requests[0].sub.thread);
      assert k.requests[0].sub.thread in s.threads;
      HandedOver(k.requests[0].sub);
    }
    ChangeOwnerOthers(s, l);
  }

  lemma HandedOver(sub: Sub)
    ensures OwnersOk([Owner(sub, 1)], sub.thread)
  {
    assert OwnersOk([], sub.thread) && !Owns([], sub);
  }

  lemma ChangeOwnerOthers(s: State, l: int)
    requires Almost(s, l) && l in s.locks
    ensures var s' := ChangeOwner(s, l);
      OnePerResource(s') && FieldsOk(s') && ThreadsOk(s') && forall k :: k in s'.locks && k != l ==> LockOk(s'.locks[k])
  {
    hide OwnersOk, Listed;
  }

  lemma WithOwnersSafe(s: State, l: int, owners: seq<Owner>)
    requires Safe(s) && l in s.locks && OwnersOk(owners, s.locks[l].thread)
    ensures Safe(WithOwners(s, l, owners))
  {
    hide OwnersOk, ChangeOwner;
    var s1 := s.(locks := s.locks[l := s.locks[l].(owners := owners)]);
    if owners == [] {
      AlmostWithout(s, l, s1);
      ChangeOwnerSafe(s1, l);
    } else {
      Rewritten(s, s1, l, s1.locks[l]);
    }
  }

  lemma AlmostWithout(s: State, l: int, s1: State)
    requires Safe(s) && l in s.locks && s1 == s.(locks := s.locks[l := s.locks[l].(owners := [])])
    ensures Almost(s1, l)
  {
    hide OwnersOk;
    forall t ensures multiset(List(s1, t)) == multiset(LocksOf(s1, t)) {
      assert multiset(List(s, t)) == multiset(LocksOf(s, t));
      assert LocksOf(s1, t) == LocksOf(s, t);
    }
  }

  lemma IncrementSafe(s: State, l: int, sub: Sub, expire: int)
    requires Almost(s, l) && l in s.locks && OwnersOk(s.locks[l].owners, s.locks[l].thread) && sub.thread in s.threads
    requires s.locks[l].thread != sub.thread ==> s.locks[l].owners != []
    ensures Safe(IncrementOwnership(s, l, sub, expire).0)
  {
    hide Almost, Safe;
    AlmostRequests(s, l);
    var k, s' := s.locks[l], IncrementOwnership(s, l, sub, expire).0;
    if k.thread == sub.thread {
      if Owns(k.owners, sub) {
        BumpOk(k.owners, sub, k.thread);
      } else {
        assert ([Owner(sub, 1)] + k.owners)[1..] == k.owners;
      }
    }
    Rewritten(s, s', l, s'.locks[l]);
  }

  lemma AlmostRequests(s: State, l: int)
    requires Almost(s, l) && l in s.locks
    ensures forall i :: 0 <= i < |s.locks[l].requests| ==> s.locks[l].requests[i].sub.thread in s.threads
  {
  }

  lemma {:induction false} UnexpiredMembers(rs: seq<Request>, now: int)
    ensures forall q :: q in Unexpired(rs, now) <==> q in rs && q.expire > now
  {
    if rs != [] { UnexpiredMembers(rs[1..], now); }
  }

  /** Unexpired requests stay, each as often as it was there and in the order it was in. */
  lemma {:induction false} UnexpiredPicks(rs: seq<Request>, now: int) returns (rank: seq<int>)
    ensures Picks(rs, Unexpired(rs, now), rank)
    ensures forall i :: 0 <= i < |rs| ==> (Taken(rank, i) <==> rs[i].expire > now)
  {
    rank := [0];
    if rs != [] {
      var kept := rs[0].expire > now;
      rank := UnexpiredPicks(rs[1..], now);
      PicksFront(rs[0], rs[1..], Unexpired(rs[1..], now), rank, kept);
      rank := InFront(rank, kept);
      assert rs == [rs[0]] + rs[1..];
    }
  }

  lemma SafeParts(s: State, l: int)
    requires Safe(s)
    ensures Almost(s, l) && Listed(s) && OnePerResource(s) && FieldsOk(s) && ThreadsOk(s)
    ensures l in s.locks ==> LockOk(s.locks[l])
  {
    hide OwnersOk;
  }

  lemma StepSafe(s: State, e: Event)
    requires Safe(s) && Known(s, e)
    ensures Safe(Step(s, e).0) && Step(s, e).0.threads == s.threads
  {
    hide Safe, Almost, OwnersOk, Listed, OnePerResource, FieldsOk, ThreadsOk, FindLockObject, ChangeOwner;
    match e {
      case LockObject(r, sub, expire) =>
        var f := FindLockObject(s, r);
        SafeParts(s, if f.Some? then f.value else s.next);
        if f.Some? {
          FindLockExact(s, r, f.value);
          IncrementSafe(s, f.value, sub, expire);
        } else {
          forall l | l in s.locks ensures s.locks[l].resource != r { FindLockExact(s, r, l); }
          CreateAlmost(s, r, sub.thread);
          NoOwners(sub.thread);
          IncrementSafe(CreateInstance(s, r, sub.thread), s.next, sub, expire);
        }
      case UnlockObject(r, sub) =>
        var f := FindLockObject(s, r);
        if f.Some? && f.value in s.locks && s.locks[f.value].thread == sub.thread
           && Owns(s.locks[f.value].owners, sub) {
          SafeParts(s, f.value);
          ReleaseOk(s.locks[f.value].owners, sub, sub.thread);
          WithOwnersSafe(s, f.value, Release(s.locks[f.value].owners, sub));
          ThreadsStay(s, f.value, Release(s.locks[f.value].owners, sub));
        }
      case DestroyOwner(l, sub) =>
        if l in s.locks {
          SafeParts(s, l);
          DisownOk(s.locks[l].owners, sub, s.locks[l].thread);
          WithOwnersSafe(s, l, Disown(s.locks[l].owners, sub));
          ThreadsStay(s, l, Disown(s.locks[l].owners, sub));
        }
      case Expire(l, now) =>
        if l in s.locks {
          SafeParts(s, l);
          AlmostRequests(s, l);
          UnexpiredMembers(s.locks[l].requests, now);
          Rewritten(s, Step(s, e).0, l, s.locks[l].(requests := Unexpired(s.locks[l].requests, now)));
        }
    }
  }

  lemma NoOwners(thread: int)
    ensures OwnersOk([], thread)
  {
  }

  lemma ThreadsStay(s: State, l: int, owners: seq<Owner>)
    requires l in s.locks
    ensures WithOwners(s, l, owners).threads == s.threads
  {
  }

  function Run(s: State, es: seq<Event>): (s': State)
  {
    if es == [] then s else Step(Run(s, es[..|es| - 1]), es[|es| - 1]).0
  }

  /** Every state of every run is safe. */
  lemma {:induction false} RunSafe(s: State, es: seq<Event>)
    requires Safe(s) && forall i :: 0 <= i < |es| ==> Known(s, es[i])
    ensures Safe(Run(s, es)) && Run(s, es).threads == s.threads
    decreases |es|
  {
    hide Safe, Step;
    if es != [] {
      RunSafe(s, es[..|es| - 1]);
      StepSafe(Run(s, es[..|es| - 1]), es[|es| - 1]);
    }
  }

  lemma InitiallySafe(threads: seq<int>)
    ensures Safe(State(map[], map[], map[], threads, 0))
  {
    var s := State(map[], map[], map[], threads, 0);
    forall t ensures multiset(List(s, t)) == multiset(LocksOf(s, t)) { assert LocksOf(s, t) == {}; }
  }
}
