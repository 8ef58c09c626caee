/** What monitors promise: exclusion between threads, exact recursion counts, and hand-off in request order. */
module MonitorSpec {
  import opened Wrappers
  import opened Monitor
  import opened Selection

  /** The lock of a resource, if it has one. */
  function Record(s: State, r: Resource): (k: Option<Lock>)
  {
    var f := FindLockObject(s, r);
    if f.Some? && f.value in s.locks then Some(s.locks[f.value]) else None
  }

  /** How often sub holds resource r. */
  function Held(s: State, r: Resource, sub: Sub): (n: nat)
  {
    var k := Record(s, r);
    if k.Some? then Depth(k.value.owners, sub) else 0
  }

  /** The requests for resource r, oldest first. */
  function Queue(s: State, r: Resource): (q: seq<Request>)
  {
    var k := Record(s, r);
    if k.Some? then k.value.requests else []
  }

  lemma RecordIs(s: State, l: int)
    requires Safe(s) && l in s.locks
    ensures Record(s, s.locks[l].resource) == Some(s.locks[l])
  {
    hide FindLockObject;
    SafeParts(s, l);
    FindLockExact(s, s.locks[l].resource, l);
  }

  lemma RecordNone(s: State, r: Resource)
    requires Safe(s) && forall l :: l in s.locks ==> s.locks[l].resource != r
    ensures Record(s, r) == None
  {
    hide FindLockObject;
    SafeParts(s, 0);
    var f := FindLockObject(s, r);
    if f.Some? { FindLockExact(s, r, f.value); }
  }

  /** A resource whose lock is untouched. */
  lemma RecordSame(s: State, s': State, r: Resource)
    requires Safe(s) && Safe(s')
    requires forall l :: l in s.locks && s.locks[l].resource == r ==> l in s'.locks && s'.locks[l] == s.locks[l]
    requires forall l :: l in s'.locks && s'.locks[l].resource == r ==> l in s.locks && s'.locks[l] == s.locks[l]
    ensures Record(s', r) == Record(s, r)
  {
    hide FindLockObject, Safe, Record;
    if l :| l in s.locks && s.locks[l].resource == r {
      RecordIs(s, l);
      RecordIs(s', l);
    } else {
      RecordNone(s, r);
      RecordNone(s', r);
    }
  }

  /** Only the lock of r differs between s and s': it is k' now. */
  ghost predicate OnlyRecord(s: State, s': State, r: Resource, k': Option<Lock>)
  {
    Record(s', r) == k' && forall x :: x != r ==> Record(s', x) == Record(s, x)
  }

  lemma OneLockChanged(s: State, s': State, l: int, k': Option<Lock>)
    requires Safe(s) && Safe(s') && l in s.locks
    requires s'.locks == if k'.Some? then s.locks[l := k'.value] else s.locks - {l}
    requires k'.Some? ==> k'.value.resource == s.locks[l].resource
    ensures OnlyRecord(s, s', s.locks[l].resource, k')
  {
    hide FindLockObject, Safe, Record;
    var r := s.locks[l].resource;
    Unique(s, l);
    if k'.Some? { RecordIs(s', l); } else { RecordNone(s', r); }
    forall x | x != r ensures Record(s', x) == Record(s, x) { RecordSame(s, s', x); }
  }

  lemma Unique(s: State, l: int)
    requires Safe(s) && l in s.locks
    ensures forall m :: m in s.locks && s.locks[m].resource == s.locks[l].resource ==> m == l
  {
  }

  /** What an event does to the lock of its resource. */
  function LockedBy(k: Option<Lock>, r: Resource, sub: Sub, expire: int): (k': Lock)
  {
    if k.None? then Lock(r, sub.thread, [Owner(sub, 1)], [])
    else if k.value.thread != sub.thread then k.value.(requests := k.value.requests + [Request(sub, expire)])
    else k.value.(owners :=
             if Owns(k.value.owners, sub) then Bump(k.value.owners, sub)
             else [Owner(sub, 1)] + k.value.owners)
  }

  function Passed(k: Lock, owners: seq<Owner>): (k': Option<Lock>)
  {
    if owners != [] then Some(k.(owners := owners))
    else if k.requests == [] then None
    else Some(Lock(k.resource, k.requests[0].sub.thread, [Owner(k.requests[0].sub, 1)], k.requests[1..]))
  }

  lemma LockRecord(s: State, r: Resource, sub: Sub, expire: int)
    requires Safe(s) && sub.thread in s.threads
    ensures var (s', res) := Step(s, LockObject(r, sub, expire));
      && Safe(s') && OnlyRecord(s, s', r, Some(LockedBy(Record(s, r), r, sub, expire)))
      && res == (if Record(s, r).None? || Record(s, r).value.thread == sub.thread then Ok else ThreadWaiting)
  {
    hide FindLockObject, Safe, OnlyRecord, Bump;
    var e := LockObject(r, sub, expire);
    StepSafe(s, e);
    SafeParts(s, 0);
    var f, s' := FindLockObject(s, r), Step(s, e).0;
    if f.Some? {
      FindLockExact(s, r, f.value);
      OneLockChanged(s, s', f.value, Some(s'.locks[f.value]));
    } else {
      forall l | l in s.locks ensures s.locks[l].resource != r { FindLockExact(s, r, l); }
      assert [Owner(sub, 1)] + [] == [Owner(sub, 1)];
      assert s'.locks == s.locks[s.next := Lock(r, sub.thread, [Owner(sub, 1)], [])];
      NewLock(s, s', r, sub);
    }
  }

  lemma NewLock(s: State, s': State, r: Resource, sub: Sub)
    requires Safe(s) && Safe(s') && forall l :: l in s.locks ==> s.locks[l].resource != r
    requires s'.locks == s.locks[s.next := Lock(r, sub.thread, [Owner(sub, 1)], [])]
    ensures OnlyRecord(s, s', r, Some(Lock(r, sub.thread, [Owner(sub, 1)], [])))
  {
    hide FindLockObject, Record;
    RecordIs(s', s.next);
    forall x | x != r ensures Record(s', x) == Record(s, x) { RecordSame(s, s', x); }
  }

  lemma UnlockRecord(s: State, r: Resource, sub: Sub)
    requires Safe(s)
    ensures var (s', res) := Step(s, UnlockObject(r, sub));
      && Safe(s') && (res == Ok <==> Held(s, r, sub) >= 1)
      && (res != Ok ==> s' == s && res == SynchronizationException)
      && (res == Ok ==> Record(s, r).Some? && Owns(Record(s, r).value.owners, sub)
                        && OnlyRecord(s, s', r, Passed(Record(s, r).value, Release(Record(s, r).value.owners, sub))))
  {
    hide FindLockObject, Safe, OnlyRecord, Owns, Release, ChangeOwner, Depth;
    var e := UnlockObject(r, sub);
    StepSafe(s, e);
    SafeParts(s, 0);
    var f, s' := FindLockObject(s, r), Step(s, e).0;
    if f.Some? {
      FindLockExact(s, r, f.value);
      SafeParts(s, f.value);
      var k := s.locks[f.value];
      OwnsDepth(k.owners, sub, k.thread);
      if Owns(k.owners, sub) { PassedOn(s, f.value, Release(k.owners, sub)); }
    }
  }

  lemma PassedOn(s: State, l: int, owners: seq<Owner>)
    requires Safe(s) && l in s.locks && Safe(WithOwners(s, l, owners))
    ensures OnlyRecord(s, WithOwners(s, l, owners), s.locks[l].resource, Passed(s.locks[l], owners))
  {
    hide FindLockObject, Safe, OnlyRecord;
    var s' := WithOwners(s, l, owners);
    var s1 := s.(locks := s.locks[l := s.locks[l].(owners := owners)]);
    assert owners == [] && s.locks[l].requests == [] ==> s'.locks == s.locks - {l};
    assert owners != [] || s.locks[l].requests != [] ==> l in s'.locks && s'.locks == s.locks[l := s'.locks[l]];
    OneLockChanged(s, s', l, Passed(s.locks[l], owners));
  }

  lemma DestroyRecord(s: State, l: int, sub: Sub)
    requires Safe(s) && l in s.locks
    ensures var s' := Step(s, DestroyOwner(l, sub)).0;
      Safe(s') && OnlyRecord(s, s', s.locks[l].resource, Passed(s.locks[l], Disown(s.locks[l].owners, sub)))
  {
    hide Safe, OnlyRecord, WithOwners, Disown;
    StepSafe(s, DestroyOwner(l, sub));
    PassedOn(s, l, Disown(s.locks[l].owners, sub));
  }

  // ---- Promises ----

  /** Subthreads that hold a resource belong to one thread. */
  lemma MutualExclusion(s: State, r: Resource, a: Sub, b: Sub)
    requires Safe(s) && Held(s, r, a) >= 1 && Held(s, r, b) >= 1
    ensures a.thread == b.thread
  {
    hide FindLockObject, Safe, Depth;
    var f := FindLockObject(s, r);
    SafeParts(s, f.value);
    var k := s.locks[f.value];
    OwnsDepth(k.owners, a, k.thread);
    OwnsDepth(k.owners, b, k.thread);
  }

  /** Locking succeeds unless another thread holds the resource, and then counts one more; otherwise the
      request goes to the end of the queue.  Nothing else changes. */
  lemma LockPromise(s: State, r: Resource, sub: Sub, expire: int)
    requires Safe(s) && sub.thread in s.threads
    ensures var (s', res) := Step(s, LockObject(r, sub, expire));
      && (res == Ok <==> forall x :: Held(s, r, x) >= 1 ==> x.thread == sub.thread)
      && (forall x :: Held(s', r, x) == Held(s, r, x) + if res == Ok && x == sub then 1 else 0)
      && Queue(s', r) == Queue(s, r) + (if res == Ok then [] else [Request(sub, expire)])
      && (forall q, x :: q != r ==> Held(s', q, x) == Held(s, q, x))
      && (forall q :: q != r ==> Queue(s', q) == Queue(s, q))
  {
    hide FindLockObject, Safe, Step;
    LockRecord(s, r, sub, expire);
    HeldByThread(s, r, sub.thread);
    if Record(s, r).Some? { DepthAfterLock(s, r, sub); } else { OneOwner(sub); }
  }

  lemma DepthAfterLock(s: State, r: Resource, sub: Sub)
    requires Safe(s) && Record(s, r).Some?
    ensures var owners := Record(s, r).value.owners;
      var owners' := if Owns(owners, sub) then Bump(owners, sub) else [Owner(sub, 1)] + owners;
      forall x :: Depth(owners', x) == Depth(owners, x) + if x == sub then 1 else 0
  {
    hide FindLockObject, Safe;
    var f := FindLockObject(s, r);
    SafeParts(s, f.value);
    var owners := s.locks[f.value].owners;
    if Owns(owners, sub) {
      BumpOk(owners, sub, s.locks[f.value].thread);
    } else {
      NotOwned(owners, sub);
      assert ([Owner(sub, 1)] + owners)[1..] == owners;
    }
  }

  /** The owning thread, seen through who holds the resource. */
  lemma HeldByThread(s: State, r: Resource, t: int)
    requires Safe(s)
    ensures Record(s, r).None? || Record(s, r).value.thread == t <==> forall x :: Held(s, r, x) >= 1 ==> x.thread == t
  {
    hide FindLockObject, Safe;
    var f := FindLockObject(s, r);
    if Record(s, r).Some? {
      SafeParts(s, f.value);
      var k := s.locks[f.value];
      forall x ensures Held(s, r, x) >= 1 ==> x.thread == k.thread { OwnsDepth(k.owners, x, k.thread); }
      var first := k.owners[0].sub;
      assert Held(s, r, first) >= 1;
    }
  }

  /** Somebody other than sub, or sub more than once. */
  ghost predicate StillHeld(s: State, r: Resource, sub: Sub)
  {
    Held(s, r, sub) > 1 || exists x :: x != sub && Held(s, r, x) >= 1
  }

  /** Unlocking succeeds for a holder only and counts one less.  When nobody holds the resource any more,
      the oldest request gets it, or, without one, the lock and the object's lock field go away. */
  lemma UnlockPromise(s: State, r: Resource, sub: Sub)
    requires Safe(s)
    ensures var (s', res) := Step(s, UnlockObject(r, sub));
      && (res == Ok <==> Held(s, r, sub) >= 1) && (res != Ok ==> s' == s)
      && (forall q, x :: q != r ==> Held(s', q, x) == Held(s, q, x))
      && (forall q :: q != r ==> Queue(s', q) == Queue(s, q))
      && (res == Ok && StillHeld(s, r, sub) ==>
            Queue(s', r) == Queue(s, r) && forall x :: Held(s', r, x) == Held(s, r, x) - if x == sub then 1 else 0)
      && (res == Ok && !StillHeld(s, r, sub) && Queue(s, r) != [] ==>
            Queue(s', r) == Queue(s, r)[1..] && forall x :: Held(s', r, x) == if x == Queue(s, r)[0].sub then 1 else 0)
      && (res == Ok && !StillHeld(s, r, sub) && Queue(s, r) == [] ==>
            r !in s'.field && forall l :: l in s'.locks ==> s'.locks[l].resource != r)
  {
    hide FindLockObject, Safe, Step, Release, Owns, Depth;
    UnlockRecord(s, r, sub);
    var s' := Step(s, UnlockObject(r, sub)).0;
    if Held(s, r, sub) >= 1 {
      var k := Record(s, r).value;
      RecordOk(s, r);
      ReleaseOk(k.owners, sub, k.thread);
      ReleaseLast(s, r, sub);
      if k.requests != [] { OneOwner(k.requests[0].sub); }
      if Record(s', r).None? { Retired(s', r); }
    }
  }

  lemma RecordOk(s: State, r: Resource)
    requires Safe(s) && Record(s, r).Some?
    ensures LockOk(Record(s, r).value)
  {
    hide FindLockObject, Safe;
    SafeParts(s, FindLockObject(s, r).value);
  }

  lemma OneOwner(sub: Sub)
    ensures forall x :: Depth([Owner(sub, 1)], x) == if x == sub then 1 else 0
  {
    assert [Owner(sub, 1)][1..] == [];
    assert forall x :: Depth([], x) == 0;
  }

  lemma ReleaseLast(s: State, r: Resource, sub: Sub)
    requires Safe(s) && Record(s, r).Some? && Owns(Record(s, r).value.owners, sub)
    ensures Release(Record(s, r).value.owners, sub) == [] <==> !StillHeld(s, r, sub)
  {
    hide FindLockObject, Safe, Owns, Depth, Release;
    RecordOk(s, r);
    var k := Record(s, r).value;
    var owners := Release(k.owners, sub);
    ReleaseOk(k.owners, sub, k.thread);
    if owners != [] {
      FirstOwner(owners, k.thread);
      assert Held(s, r, owners[0].sub) >= 1;
    } else {
      NobodyOwns();
      forall x ensures Held(s, r, x) == if x == sub then 1 else 0 { assert Depth([], x) == 0; }
    }
  }

  lemma FirstOwner(owners: seq<Owner>, thread: int)
    requires owners != [] && OwnersOk(owners, thread)
    ensures Depth(owners, owners[0].sub) >= 1
  {
  }

  lemma NobodyOwns()
    ensures forall x :: Depth([], x) == 0
  {
  }

  lemma Retired(s: State, r: Resource)
    requires Safe(s) && Record(s, r).None?
    ensures r !in s.field && forall l :: l in s.locks ==> s.locks[l].resource != r
  {
    hide FindLockObject;
    forall l | l in s.locks ensures s.locks[l].resource != r { RecordIs(s, l); }
  }

  /** Expiry takes exactly the expired requests out of the queue, leaves the rest in their order, and changes
      no ownership. */
  lemma ExpirePromise(s: State, l: int, now: int) returns (rank: seq<int>)
    requires Safe(s) && l in s.locks
    ensures var s' := Step(s, Expire(l, now)).0; var r := s.locks[l].resource;
      && Picks(Queue(s, r), Queue(s', r), rank)
      && (forall i :: 0 <= i < |Queue(s, r)| ==> (Taken(rank, i) <==> Queue(s, r)[i].expire > now))
      && (forall q, x :: Held(s', q, x) == Held(s, q, x))
      && (forall q :: q != r ==> Queue(s', q) == Queue(s, q))
  {
    hide FindLockObject, Safe, Unexpired;
    var s' := Step(s, Expire(l, now)).0;
    StepSafe(s, Expire(l, now));
    RecordIs(s, l);
    OneLockChanged(s, s', l, Some(s'.locks[l]));
    rank := UnexpiredPicks(s.locks[l].requests, now);
  }

  /** Destroying a subthread's ownership leaves it holding nothing of that lock, whatever its recursion;
      the other holders keep the lock, or it is handed on as by an unlock. */
  lemma DestroyPromise(s: State, l: int, sub: Sub)
    requires Safe(s) && l in s.locks
    ensures var s' := Step(s, DestroyOwner(l, sub)).0; var r := s.locks[l].resource;
      var others := exists x :: x != sub && Held(s, r, x) >= 1;
      && (others ==> Queue(s', r) == Queue(s, r) && forall x :: Held(s', r, x) == if x == sub then 0 else Held(s, r, x))
      && (!others && Queue(s, r) != [] ==>
            Queue(s', r) == Queue(s, r)[1..] && forall x :: Held(s', r, x) == if x == Queue(s, r)[0].sub then 1 else 0)
      && (!others && Queue(s, r) == [] ==> r !in s'.field && forall k :: k in s'.locks ==> s'.locks[k].resource != r)
      && (forall q, x :: q != r ==> Held(s', q, x) == Held(s, q, x))
      && (forall q :: q != r ==> Queue(s', q) == Queue(s, q))
  {
    hide FindLockObject, Safe, Step, Disown, Owns, Depth;
    var s', k, r := Step(s, DestroyOwner(l, sub)).0, s.locks[l], s.locks[l].resource;
    RecordIs(s, l);
    RecordOk(s, r);
    DestroyRecord(s, l, sub);
    DisownOk(k.owners, sub, k.thread);
    var owners := Disown(k.owners, sub);
    if owners != [] {
      FirstOwner(owners, k.thread);
      assert owners[0].sub != sub && Held(s, r, owners[0].sub) >= 1;
    } else {
      NobodyOwns();
      forall x | x != sub ensures Held(s, r, x) == 0 { assert Depth([], x) == 0; }
    }
    if k.requests != [] { OneOwner(k.requests[0].sub); }
    if Record(s', r).None? { Retired(s', r); }
  }
}
