/** Wait handles: threads wait for any or all of a list of objects, signals release them, and signals of
    auto-reset objects are used up.  First the steps as functions, then the loops that carry them out. */
module WaitHandles {
  import opened Selection

  /** A thread on the waiting list. */
  datatype Waiter = Waiter(thread: int, objects: seq<int>, all: bool)

  /** The signaled objects and the waiting list. */
  datatype World = World(signaled: set<int>, waiting: seq<Waiter>)

  /** An outcome, and the auto-reset signals that were used up on the way. */
  datatype Outcome = Outcome(world: World, used: multiset<int>)

  predicate Satisfied(signaled: set<int>, w: Waiter)
  {
    if w.all then forall i :: 0 <= i < |w.objects| ==> w.objects[i] in signaled
    else exists i :: 0 <= i < |w.objects| && w.objects[i] in signaled
  }

  function FirstSignaled(signaled: set<int>, objects: seq<int>): (i: nat)
    ensures i <= |objects| && forall j :: 0 <= j < i ==> objects[j] !in signaled
    ensures i < |objects| ==> objects[i] in signaled
  {
    if objects == [] || objects[0] in signaled then 0 else 1 + FirstSignaled(signaled, objects[1..])
  }

  function Members(objects: seq<int>): (s: set<int>) { set i | 0 <= i < |objects| :: objects[i] }

  /** The signals a satisfied waiter takes: all of its auto-reset objects, or its first signaled object. */
  function Consumed(auto: set<int>, signaled: set<int>, w: Waiter): (s: set<int>)
    requires Satisfied(signaled, w)
    ensures s <= signaled * auto
  {
    if w.all then Members(w.objects) * auto
    else {w.objects[FirstSignaled(signaled, w.objects)]} * auto
  }

  function Remove(ws: seq<Waiter>, i: nat): (ws': seq<Waiter>)
    requires i < |ws|
  {
    ws[..i] + ws[i + 1..]
  }

  /** Offer the signals to the waiters from position i on, as long as object o stays signaled. */
  function Drain(auto: set<int>, w: World, o: int, i: nat): (r: Outcome)
    requires i <= |w.waiting|
    decreases |w.waiting| - i
  {
    if i == |w.waiting| || o !in w.signaled then Outcome(w, multiset{})
    else if Satisfied(w.signaled, w.waiting[i]) then
      var taken := Consumed(auto, w.signaled, w.waiting[i]);
      var r := Drain(auto, World(w.signaled - taken, Remove(w.waiting, i)), o, i);
      r.(used := r.used + multiset(taken))
    else Drain(auto, w, o, i + 1)
  }

  datatype Event = Wait(waiter: Waiter) | Signal(obj: int) | Reset(obj: int) | Timeout(thread: int)

  function Without(ws: seq<Waiter>, thread: int): (ws': seq<Waiter>)
  {
    if ws == [] then [] else (if ws[0].thread == thread then [] else [ws[0]]) + Without(ws[1..], thread)
  }

  function Step(auto: set<int>, w: World, e: Event): (r: Outcome)
  {
    match e
    case Wait(q) =>
      if Satisfied(w.signaled, q) then
        var taken := Consumed(auto, w.signaled, q);
        Outcome(w.(signaled := w.signaled - taken), multiset(taken))
      else Outcome(w.(waiting := w.waiting + [q]), multiset{})
    case Signal(o) => Drain(auto, w.(signaled := w.signaled + {o}), o, 0)
    case Reset(o) => Outcome(w.(signaled := w.signaled - {o}), multiset{})
    case Timeout(t) => Outcome(w.(waiting := Without(w.waiting, t)), multiset{})
  }

  function Run(auto: set<int>, w: World, es: seq<Event>): (r: Outcome)
  {
    if es == [] then Outcome(w, multiset{})
    else
      var a := Run(auto, w, es[..|es| - 1]);
      var b := Step(auto, a.world, es[|es| - 1]);
      b.(used := a.used + b.used)
  }

  // ---- No lost wakeups ----

  /** Nobody waits for what is already there. */
  ghost predicate Settled(w: World)
  {
    forall i :: 0 <= i < |w.waiting| ==> !Satisfied(w.signaled, w.waiting[i])
  }

  /** A signal taken away satisfies nobody. */
  lemma FewerSignals(s: set<int>, s': set<int>, q: Waiter)
    requires s' <= s && !Satisfied(s, q)
    ensures !Satisfied(s', q)
  {
  }

  /** The state in the middle of a signal: waiters before i have been offered it, and nobody is waiting
      for anything but o. */
  ghost predicate Offering(w: World, o: int, i: nat)
  {
    && i <= |w.waiting|
    && (forall j :: 0 <= j < i ==> !Satisfied(w.signaled, w.waiting[j]))
    && (forall j :: 0 <= j < |w.waiting| ==> !Satisfied(w.signaled - {o}, w.waiting[j]))
  }

  lemma OfferingNext(auto: set<int>, w: World, o: int, i: nat)
    requires Offering(w, o, i) && i < |w.waiting| && o in w.signaled && Satisfied(w.signaled, w.waiting[i])
    ensures Offering(World(w.signaled - Consumed(auto, w.signaled, w.waiting[i]), Remove(w.waiting, i)), o, i)
    ensures o in auto ==> o in Consumed(auto, w.signaled, w.waiting[i])
  {
    var q, taken := w.waiting[i], Consumed(auto, w.signaled, w.waiting[i]);
    var ws, s := Remove(w.waiting, i), w.signaled - taken;
    forall j | 0 <= j < |ws| ensures !Satisfied(s - {o}, ws[j]) && (j < i ==> !Satisfied(s, ws[j])) {
      var k := if j < i then j else j + 1;
      assert ws[j] == w.waiting[k];
      FewerSignals(w.signaled - {o}, s - {o}, ws[j]);
      if j < i { FewerSignals(w.signaled, s, ws[j]); }
    }
    if !q.all {
      var f := FirstSignaled(w.signaled, q.objects);
      assert q.objects[f] !in w.signaled - {o};
    }
  }

  lemma {:induction false} DrainSettles(auto: set<int>, w: World, o: int, i: nat)
    requires Offering(w, o, i)
    ensures Settled(Drain(auto, w, o, i).world)
    decreases |w.waiting| - i
  {
    if i == |w.waiting| {
    } else if o !in w.signaled {
      assert w.signaled - {o} == w.signaled;
    } else if Satisfied(w.signaled, w.waiting[i]) {
      OfferingNext(auto, w, o, i);
      DrainSettles(auto, World(w.signaled - Consumed(auto, w.signaled, w.waiting[i]), Remove(w.waiting, i)), o, i);
    } else {
      DrainSettles(auto, w, o, i + 1);
    }
  }

  lemma SignalStarts(w: World, o: int)
    requires Settled(w)
    ensures Offering(w.(signaled := w.signaled + {o}), o, 0)
  {
    forall j | 0 <= j < |w.waiting| ensures !Satisfied(w.signaled + {o} - {o}, w.waiting[j]) {
      FewerSignals(w.signaled, w.signaled + {o} - {o}, w.waiting[j]);
    }
  }

  lemma {:induction false} WithoutSettled(signaled: set<int>, ws: seq<Waiter>, t: int)
    requires Settled(World(signaled, ws))
    ensures Settled(World(signaled, Without(ws, t)))
  {
    if ws != [] {
      assert forall i :: 0 <= i < |ws| - 1 ==> ws[1..][i] == ws[i + 1];
      WithoutSettled(signaled, ws[1..], t);
    }
  }

  lemma StepSettles(auto: set<int>, w: World, e: Event)
    requires Settled(w)
    ensures Settled(Step(auto, w, e).world)
  {
    match e {
      case Wait(q) =>
        if Satisfied(w.signaled, q) {
          forall i | 0 <= i < |w.waiting| ensures !Satisfied(w.signaled - Consumed(auto, w.signaled, q), w.waiting[i]) {
            FewerSignals(w.signaled, w.signaled - Consumed(auto, w.signaled, q), w.waiting[i]);
          }
        }
      case Signal(o) =>
        SignalStarts(w, o);
        DrainSettles(auto, w.(signaled := w.signaled + {o}), o, 0);
      case Reset(o) =>
        forall i | 0 <= i < |w.waiting| ensures !Satisfied(w.signaled - {o}, w.waiting[i]) {
          FewerSignals(w.signaled, w.signaled - {o}, w.waiting[i]);
        }
      case Timeout(t) => WithoutSettled(w.signaled, w.waiting, t);
    }
  }

  /** After any run, no waiting thread has its condition satisfied. */
  lemma {:induction false} NoLostWakeups(auto: set<int>, w: World, es: seq<Event>)
    requires Settled(w)
    ensures Settled(Run(auto, w, es).world)
    decreases |es|
  {
    if es != [] {
      NoLostWakeups(auto, w, es[..|es| - 1]);
      StepSettles(auto, Run(auto, w, es[..|es| - 1]).world, es[|es| - 1]);
    }
  }

  // ---- Signals are conserved ----

  function Count(b: bool): (n: nat) { if b then 1 else 0 }

  function SignalsOf(es: seq<Event>, o: int): (n: nat)
  {
    if es == [] then 0 else SignalsOf(es[..|es| - 1], o) + Count(es[|es| - 1] == Signal(o))
  }

  lemma {:induction false} DrainConserves(auto: set<int>, w: World, o: int, i: nat, x: int)
    requires i <= |w.waiting|
    ensures var r := Drain(auto, w, o, i); r.used[x] + Count(x in r.world.signaled) == Count(x in w.signaled)
    decreases |w.waiting| - i
  {
    if i < |w.waiting| && o in w.signaled {
      if Satisfied(w.signaled, w.waiting[i]) {
        var taken := Consumed(auto, w.signaled, w.waiting[i]);
        DrainConserves(auto, World(w.signaled - taken, Remove(w.waiting, i)), o, i, x);
      } else {
        DrainConserves(auto, w, o, i + 1, x);
      }
    }
  }

  /** Over any run, no object's signal is used more often than it was given. */
  lemma {:induction false} SignalsConserved(auto: set<int>, w: World, es: seq<Event>, x: int)
    ensures var r := Run(auto, w, es);
      r.used[x] + Count(x in r.world.signaled) <= SignalsOf(es, x) + Count(x in w.signaled)
    decreases |es|
  {
    if es != [] {
      var a, e := Run(auto, w, es[..|es| - 1]), es[|es| - 1];
      SignalsConserved(auto, w, es[..|es| - 1], x);
      if e.Signal? { DrainConserves(auto, a.world.(signaled := a.world.signaled + {e.obj}), e.obj, 0, x); }
    }
  }

  /** One signal of an auto-reset object releases the first waiter it satisfies, and nobody else; the
      signal stays only if nobody takes it. */
  lemma AutoResetReleasesOne(auto: set<int>, w: World, o: int, k: nat)
    requires Settled(w) && o in auto && k <= |w.waiting|
    requires forall j :: 0 <= j < k ==> !Satisfied(w.signaled + {o}, w.waiting[j])
    requires k < |w.waiting| ==> Satisfied(w.signaled + {o}, w.waiting[k])
    ensures var r := Step(auto, w, Signal(o)).world;
      if k == |w.waiting| then r == World(w.signaled + {o}, w.waiting)
      else r == World(w.signaled + {o} - Consumed(auto, w.signaled + {o}, w.waiting[k]), Remove(w.waiting, k))
           && o !in r.signaled
  {
    var w1 := w.(signaled := w.signaled + {o});
    SignalStarts(w, o);
    SkipUnsatisfied(auto, w1, o, 0, k);
    if k < |w.waiting| {
      OfferedTo(w1, o, k);
      OfferingNext(auto, w1, o, k);
      var w2 := World(w1.signaled - Consumed(auto, w1.signaled, w.waiting[k]), Remove(w.waiting, k));
      assert Drain(auto, w2, o, k).world == w2;
    }
  }

  lemma OfferedTo(w: World, o: int, k: nat)
    requires Offering(w, o, 0) && k <= |w.waiting| && forall j :: 0 <= j < k ==> !Satisfied(w.signaled, w.waiting[j])
    ensures Offering(w, o, k)
  {
  }

  lemma {:induction false} SkipUnsatisfied(auto: set<int>, w: World, o: int, i: nat, k: nat)
    requires i <= k <= |w.waiting| && o in w.signaled && forall j :: i <= j < k ==> !Satisfied(w.signaled, w.waiting[j])
    ensures Drain(auto, w, o, i) == Drain(auto, w, o, k)
    decreases k - i
  {
    if i < k { SkipUnsatisfied(auto, w, o, i + 1, k); }
  }

  // ---- What each step does ----

  /** A waiter that is released takes the signal of auto-reset object x: of all its objects, or of the first
      one that is signaled. */
  ghost predicate Uses(auto: set<int>, signaled: set<int>, q: Waiter, x: int)
  {
    && x in auto
    && if q.all then x in q.objects
       else exists k :: 0 <= k < |q.objects| && q.objects[k] == x && x in signaled
                        && forall j :: 0 <= j < k ==> q.objects[j] !in signaled
  }

  lemma UsesConsumed(auto: set<int>, signaled: set<int>, q: Waiter)
    requires Satisfied(signaled, q)
    ensures forall x :: x in Consumed(auto, signaled, q) <==> Uses(auto, signaled, q, x)
  {
    var k := FirstSignaled(signaled, q.objects);
    forall x ensures x in Consumed(auto, signaled, q) <==> Uses(auto, signaled, q, x) {
      if !q.all && x in auto && q.objects[k] == x { assert Uses(auto, signaled, q, x); }
    }
  }

  /** A wait whose condition holds takes its signals and joins no list; any other joins the end of the list
      and takes nothing. */
  lemma WaitPromise(auto: set<int>, w: World, q: Waiter)
    ensures var r := Step(auto, w, Wait(q)).world;
      if Satisfied(w.signaled, q)
      then r.waiting == w.waiting
           && forall x :: x in r.signaled <==> x in w.signaled && !Uses(auto, w.signaled, q, x)
      else r.waiting == w.waiting + [q] && r.signaled == w.signaled
  {
    if Satisfied(w.signaled, q) { UsesConsumed(auto, w.signaled, q); }
  }

  /** Waiter i is released when the signal is offered to it with `signaled` still there. */
  ghost predicate Freed(signaled: set<int>, o: int, q: Waiter)
  {
    o in signaled && Satisfied(signaled, q)
  }

  /** A signal of o is offered to the waiters one after the other, `left[i]` being the signals left for
      waiter i: released are those who find o and their condition there, each takes what it uses, and all
      others stay on the list in their order. */
  ghost predicate Offered(auto: set<int>, ws: seq<Waiter>, o: int, r: World, left: seq<set<int>>, rank: seq<int>)
  {
    && |left| == |ws| + 1 && left[|ws|] == r.signaled && Picks(ws, r.waiting, rank)
    && forall i :: 0 <= i < |ws| ==>
         && (Selection.Taken(rank, i) <==> !Freed(left[i], o, ws[i]))
         && forall x :: x in left[i + 1] <==>
              x in left[i] && !(Freed(left[i], o, ws[i]) && Uses(auto, left[i], ws[i], x))
  }

  lemma SignalPromise(auto: set<int>, w: World, o: int) returns (left: seq<set<int>>, rank: seq<int>)
    ensures left != [] && left[0] == w.signaled + {o}
    ensures Offered(auto, w.waiting, o, Step(auto, w, Signal(o)).world, left, rank)
  {
    left, rank := DrainOffers(auto, w.(signaled := w.signaled + {o}), o, 0);
    assert w.waiting[0..] == w.waiting;
  }

  lemma {:induction false} DrainOffers(auto: set<int>, w: World, o: int, i: nat)
    returns (left: seq<set<int>>, rank: seq<int>)
    requires i <= |w.waiting|
    ensures left != [] && left[0] == w.signaled
    ensures var r := Drain(auto, w, o, i).world;
      && i <= |r.waiting| && r.waiting[..i] == w.waiting[..i]
      && Offered(auto, w.waiting[i..], o, World(r.signaled, r.waiting[i..]), left, rank)
    decreases |w.waiting| - i
  {
    hide Offered, Satisfied, Consumed, Uses;
    if i == |w.waiting| {
      left, rank := [w.signaled], [0];
      NobodyLeft(auto, o, w.signaled);
      assert w.waiting[i..] == [];
    } else {
      var q, ws := w.waiting[i], w.waiting[i + 1..];
      var r, freed := Drain(auto, w, o, i).world, Freed(w.signaled, o, q);
      assert w.waiting[i..] == [q] + ws;
      if freed {
        var w' := World(w.signaled - Consumed(auto, w.signaled, q), Remove(w.waiting, i));
        left, rank := DrainOffers(auto, w', o, i);
        assert w'.waiting[i..] == ws && w'.waiting[..i] == w.waiting[..i];
        UsesConsumed(auto, w.signaled, q);
        OfferedFront(auto, q, ws, o, World(r.signaled, r.waiting[i..]), left, rank, w.signaled);
        assert [] + r.waiting[i..] == r.waiting[i..];
      } else {
        left, rank := DrainOffers(auto, w, o, i + 1);
        assert r.waiting[i] == r.waiting[..i + 1][i];
        assert r.waiting[i..] == [q] + r.waiting[i + 1..] && r.waiting[..i] == r.waiting[..i + 1][..i];
        OfferedFront(auto, q, ws, o, World(r.signaled, r.waiting[i + 1..]), left, rank, w.signaled);
      }
      left, rank := [w.signaled] + left, InFront(rank, !freed);
    }
  }

  lemma NobodyLeft(auto: set<int>, o: int, signaled: set<int>)
    ensures Offered(auto, [], o, World(signaled, []), [signaled], [0])
  {
  }

  lemma OfferedFront(auto: set<int>, q: Waiter, ws: seq<Waiter>, o: int, r: World, left: seq<set<int>>, rank: seq<int>,
                     signaled: set<int>)
    requires Offered(auto, ws, o, r, left, rank)
    requires forall x :: x in left[0] <==> x in signaled && !(Freed(signaled, o, q) && Uses(auto, signaled, q, x))
    ensures var freed := Freed(signaled, o, q);
      Offered(auto, [q] + ws, o, World(r.signaled, (if freed then [] else [q]) + r.waiting), [signaled] + left,
              InFront(rank, !freed))
  {
    hide Uses, Satisfied, Picks, InFront;
    var freed, ws', left' := Freed(signaled, o, q), [q] + ws, [signaled] + left;
    PicksFront(q, ws, r.waiting, rank, !freed);
    var rank' := InFront(rank, !freed);
    PicksLength(ws, r.waiting, rank);
    PicksLength(ws', (if !freed then [q] else []) + r.waiting, rank');
    forall i | 0 <= i < |ws'|
      ensures Selection.Taken(rank', i) <==> !Freed(left'[i], o, ws'[i])
      ensures forall x :: x in left'[i + 1] <==>
        x in left'[i] && !(Freed(left'[i], o, ws'[i]) && Uses(auto, left'[i], ws'[i], x))
    {
      if i > 0 { assert ws'[i] == ws[i - 1] && left'[i] == left[i - 1] && left'[i + 1] == left[i]; }
    }
  }

  // ---- Everybody who waits is accounted for ----

  /** Who has joined the waiting list: those who were on it, and every wait that did not succeed at once. */
  function Arrived(auto: set<int>, w: World, es: seq<Event>): (ws: seq<Waiter>)
  {
    if es == [] then w.waiting
    else
      var last, before := |es| - 1, es[..|es| - 1];
      Arrived(auto, w, before)
      + match es[last]
        case Wait(q) => if Satisfied(Run(auto, w, before).world.signaled, q) then [] else [q]
        case _ => []
  }

  /** What became of somebody who joined the list: still there, released by a signal, or timed out. */
  datatype Fate = StillWaiting | Released(at: nat) | TimedOut(at: nat)

  /** Releases are by signals that satisfy the waiter, and timeouts are its own. */
  ghost predicate FateOk(auto: set<int>, w: World, es: seq<Event>, i: nat, f: Fate)
    requires i < |Arrived(auto, w, es)|
  {
    var q := Arrived(auto, w, es)[i];
    match f
    case StillWaiting => true
    case Released(k) =>
      && k < |es| && es[k].Signal? && i < |Arrived(auto, w, es[..k])|
      && Satisfied(Run(auto, w, es[..k]).world.signaled + {es[k].obj}, q)
    case TimedOut(k) => k < |es| && es[k] == Timeout(q.thread) && i < |Arrived(auto, w, es[..k])|
  }
  /** A timeout of its thread ends a waiter's stay, if nothing has before. */
  ghost predicate GoneBy(f: Fate, k: nat)
  {
    match f case StillWaiting => false case Released(j) => j <= k case TimedOut(j) => j <= k
  }

  ghost predicate TimeoutsObeyed(auto: set<int>, w: World, es: seq<Event>, i: nat, f: Fate)
    requires i < |Arrived(auto, w, es)|
  {
    forall k :: 0 <= k < |es| && i < |Arrived(auto, w, es[..k])| && es[k] == Timeout(Arrived(auto, w, es)[i].thread) ==>
      GoneBy(f, k)
  }

  /** `fates` says what became of each of those who joined the list. */
  ghost predicate Accounts(auto: set<int>, w: World, es: seq<Event>, fates: seq<Fate>, rank: seq<int>)
  {
    var ws := Arrived(auto, w, es);
    && |fates| == |ws| && Picks(ws, Run(auto, w, es).world.waiting, rank) && |rank| == |ws| + 1
    && (forall i :: 0 <= i < |ws| ==> (Selection.Taken(rank, i) <==> fates[i].StillWaiting?))
    && (forall i :: 0 <= i < |ws| ==> FateOk(auto, w, es, i, fates[i]))
    && (forall i :: 0 <= i < |ws| ==> TimeoutsObeyed(auto, w, es, i, fates[i]))
  }

  /** What a step does to the list: `rank` selects those who stay, and whoever leaves has a reason. */
  ghost predicate Stays(w: World, e: Event, ws: seq<Waiter>, rank: seq<int>)
  {
    && |rank| == |w.waiting| + 1 && Picks(w.waiting, ws, rank)
    && forall i :: 0 <= i < |w.waiting| ==>
         match e
         case Wait(_) => Selection.Taken(rank, i)
         case Reset(_) => Selection.Taken(rank, i)
         case Signal(o) => Selection.Taken(rank, i) || Satisfied(w.signaled + {o}, w.waiting[i])
         case Timeout(t) => Selection.Taken(rank, i) <==> w.waiting[i].thread != t
  }

  /** A timeout takes the thread off the list, nobody else, and nobody changes places. */
  lemma {:induction false} WithoutPicks(ws: seq<Waiter>, t: int) returns (rank: seq<int>)
    ensures Picks(ws, Without(ws, t), rank)
    ensures forall i :: 0 <= i < |ws| ==> (Selection.Taken(rank, i) <==> ws[i].thread != t)
  {
    rank := [0];
    if ws != [] {
      rank := WithoutPicks(ws[1..], t);
      PicksFront(ws[0], ws[1..], Without(ws[1..], t), rank, ws[0].thread != t);
      rank := InFront(rank, ws[0].thread != t);
      assert ws == [ws[0]] + ws[1..];
    }
  }

  lemma TimeoutPromise(auto: set<int>, w: World, t: int) returns (rank: seq<int>)
    ensures var r := Step(auto, w, Timeout(t)).world;
      && r.signaled == w.signaled && Picks(w.waiting, r.waiting, rank)
      && forall i :: 0 <= i < |w.waiting| ==> (Selection.Taken(rank, i) <==> w.waiting[i].thread != t)
  {
    rank := WithoutPicks(w.waiting, t);
  }

  /** Taking a signal back releases nobody and takes nothing else. */
  lemma ResetPromise(auto: set<int>, w: World, o: int)
    ensures var r := Step(auto, w, Reset(o)).world;
      r.waiting == w.waiting && forall x :: x in r.signaled <==> x in w.signaled && x != o
  {
  }

  lemma {:induction false} AllStay(ws: seq<Waiter>) returns (rank: seq<int>)
    ensures Picks(ws, ws, rank) && forall i :: 0 <= i < |ws| ==> Selection.Taken(rank, i)
  {
    rank := seq(|ws| + 1, i => i);
  }

  /** The part of the list that was there before. */
  lemma StepStays(auto: set<int>, w: World, e: Event) returns (ws: seq<Waiter>, rank: seq<int>)
    ensures Stays(w, e, ws, rank)
    ensures Step(auto, w, e).world.waiting ==
      ws + if e.Wait? && !Satisfied(w.signaled, e.waiter) then [e.waiter] else []
  {
    var r := Step(auto, w, e).world;
    match e {
      case Wait(q) =>
        WaitPromise(auto, w, q);
        ws := w.waiting;
        rank := AllStay(ws);
      case Reset(o) =>
        ws := w.waiting;
        rank := AllStay(ws);
      case Timeout(t) =>
        rank := TimeoutPromise(auto, w, t);
        ws := r.waiting;
      case Signal(o) =>
        var left;
        left, rank := SignalPromise(auto, w, o);
        ws := r.waiting;
        FewerLeft(auto, w.waiting, o, r, left, rank);
    }
  }

  /** What is left for a waiter are some of the signals there were. */
  lemma FewerLeft(auto: set<int>, ws: seq<Waiter>, o: int, r: World, left: seq<set<int>>, rank: seq<int>)
    requires Offered(auto, ws, o, r, left, rank)
    ensures forall i :: 0 <= i < |ws| && !Selection.Taken(rank, i) ==> Satisfied(left[0], ws[i])
  {
    for i := 0 to |ws|
      invariant left[i] <= left[0]
      invariant forall k :: 0 <= k < i && !Selection.Taken(rank, k) ==> Satisfied(left[0], ws[k])
    {
      if !Satisfied(left[0], ws[i]) { FewerSignals(left[0], left[i], ws[i]); }
      assert forall x :: x in left[i + 1] ==> x in left[i];
    }
  }

  /** Over any run, everybody who joined the list is still on it, in order of arrival, or was released by a
      signal that satisfied them, or timed out, exactly one of the three. */
  lemma {:induction false} Accounted(auto: set<int>, w: World, es: seq<Event>)
    returns (fates: seq<Fate>, rank: seq<int>)
    ensures Accounts(auto, w, es, fates, rank)
    decreases |es|
  {
    if es == [] {
      rank := AllStay(w.waiting);
      fates := seq(|w.waiting|, i => StillWaiting);
    } else {
      var n, before := |es| - 1, es[..|es| - 1];
      var fates0, rank0 := Accounted(auto, w, before);
      var w1 := Run(auto, w, before).world;
      var ws, stay := StepStays(auto, w1, es[n]);
      StillAccounted(auto, w, es, fates0, rank0, ws, stay);
      fates, rank := LaterFates(es[n], n, fates0, rank0, stay), Then(rank0, stay);
      if es[n].Wait? && !Satisfied(w1.signaled, es[n].waiter) {
        NewcomerAccounted(auto, w, es, ws, fates, rank);
        fates, rank := fates + [StillWaiting], AtEnd(rank, true);
      }
    }
  }

  /** Who leaves at step n, leaves for good. */
  function LaterFates(e: Event, n: nat, fates: seq<Fate>, rank: seq<int>, stay: seq<int>): (fates': seq<Fate>)
    requires |rank| == |fates| + 1
    ensures |fates'| == |fates|
  {
    seq(|fates|, i requires 0 <= i < |fates| =>
      if !fates[i].StillWaiting? || (0 <= rank[i] < |stay| - 1 && Selection.Taken(stay, rank[i])) then fates[i]
      else if e.Signal? then Released(n) else TimedOut(n))
  }

  lemma {:induction false} ArrivedBefore(auto: set<int>, w: World, es: seq<Event>, k: nat)
    requires k <= |es|
    ensures |Arrived(auto, w, es[..k])| <= |Arrived(auto, w, es)|
    ensures Arrived(auto, w, es[..k]) == Arrived(auto, w, es)[..|Arrived(auto, w, es[..k])|]
    decreases |es|
  {
    if k == |es| { assert es[..k] == es; } else {
      var before := es[..|es| - 1];
      ArrivedBefore(auto, w, before, k);
      assert before[..k] == es[..k];
    }
  }

  /** Accounts of those who came before step n, after it: `ws` are those of them still on the list. */
  ghost predicate AccountsBefore(auto: set<int>, w: World, es: seq<Event>, ws: seq<Waiter>, fates: seq<Fate>,
                                 rank: seq<int>)
    requires es != []
  {
    var joined := Arrived(auto, w, es[..|es| - 1]);
    && |joined| <= |Arrived(auto, w, es)|
    && |fates| == |joined| && Picks(joined, ws, rank) && |rank| == |joined| + 1
    && (forall i :: 0 <= i < |joined| ==> (Selection.Taken(rank, i) <==> fates[i].StillWaiting?))
    && (forall i :: 0 <= i < |joined| ==> FateOk(auto, w, es, i, fates[i]))
    && (forall i :: 0 <= i < |joined| ==> TimeoutsObeyed(auto, w, es, i, fates[i]))
  }

  lemma StillAccounted(auto: set<int>, w: World, es: seq<Event>, fates: seq<Fate>, rank: seq<int>, ws: seq<Waiter>,
                       stay: seq<int>)
    requires es != [] && Accounts(auto, w, es[..|es| - 1], fates, rank)
    requires Stays(Run(auto, w, es[..|es| - 1]).world, es[|es| - 1], ws, stay)
    ensures forall i :: 0 <= i < |rank| ==> 0 <= rank[i] < |stay|
    ensures AccountsBefore(auto, w, es, ws, LaterFates(es[|es| - 1], |es| - 1, fates, rank, stay), Then(rank, stay))
  {
    hide Satisfied, Run, Arrived;
    var n, before := |es| - 1, es[..|es| - 1];
    var w1, joined := Run(auto, w, before).world, Arrived(auto, w, before);
    PicksTwice(joined, w1.waiting, ws, rank, stay);
    ArrivedBefore(auto, w, es, n);
    var fates' := LaterFates(es[n], n, fates, rank, stay);
    forall i | 0 <= i < |joined|
      ensures Selection.Taken(Then(rank, stay), i) <==> fates'[i].StillWaiting?
      ensures FateOk(auto, w, es, i, fates'[i]) && TimeoutsObeyed(auto, w, es, i, fates'[i])
    {
      assert Selection.Taken(rank, i) <==> fates[i].StillWaiting?;
      FateLater(auto, w, es, i, fates[i]);
      if Selection.Taken(rank, i) { Leaves(auto, w, es, fates, rank, ws, stay, i); }
    }
  }

  /** A fate stays as it is when it is sealed. */
  lemma FateLater(auto: set<int>, w: World, es: seq<Event>, i: nat, f: Fate)
    requires es != [] && i < |Arrived(auto, w, es[..|es| - 1])|
    requires FateOk(auto, w, es[..|es| - 1], i, f) && TimeoutsObeyed(auto, w, es[..|es| - 1], i, f)
    ensures i < |Arrived(auto, w, es)| && FateOk(auto, w, es, i, f)
    ensures !f.StillWaiting? || es[|es| - 1] != Timeout(Arrived(auto, w, es)[i].thread) ==>
      TimeoutsObeyed(auto, w, es, i, f)
  {
    hide Satisfied, Run, Arrived;
    var n, before := |es| - 1, es[..|es| - 1];
    ArrivedBefore(auto, w, es, n);
    assert forall k :: 0 <= k <= n ==> before[..k] == es[..k];
    assert Arrived(auto, w, es)[i] == Arrived(auto, w, before)[i];
    forall k | 0 <= k < |es| && i < |Arrived(auto, w, es[..k])| && es[k] == Timeout(Arrived(auto, w, es)[i].thread)
      ensures !f.StillWaiting? || es[n] != Timeout(Arrived(auto, w, es)[i].thread) ==> GoneBy(f, k)
    {
      if k < n { assert before[k] == es[k] && before[..k] == es[..k]; }
    }
  }

  /** The step ends somebody's wait, or does not concern them. */
  lemma Leaves(auto: set<int>, w: World, es: seq<Event>, fates: seq<Fate>, rank: seq<int>, ws: seq<Waiter>,
               stay: seq<int>, i: nat)
    requires es != [] && Accounts(auto, w, es[..|es| - 1], fates, rank)
    requires Stays(Run(auto, w, es[..|es| - 1]).world, es[|es| - 1], ws, stay)
    requires i < |fates| && Selection.Taken(rank, i) && i < |Arrived(auto, w, es)|
    ensures 0 <= rank[i] < |stay| - 1
    ensures var f := LaterFates(es[|es| - 1], |es| - 1, fates, rank, stay)[i];
      && (f.StillWaiting? <==> Selection.Taken(stay, rank[i]))
      && FateOk(auto, w, es, i, f) && TimeoutsObeyed(auto, w, es, i, f)
  {
    hide Satisfied, Run, Arrived;
    var n, before := |es| - 1, es[..|es| - 1];
    var w1, q := Run(auto, w, before).world, Arrived(auto, w, before)[i];
    assert w1.waiting[rank[i]] == q && fates[i].StillWaiting?;
    ArrivedBefore(auto, w, es, n);
    FateLater(auto, w, es, i, fates[i]);
    forall k | 0 <= k < n && i < |Arrived(auto, w, es[..k])| ensures es[k] != Timeout(q.thread) {
      assert before[k] == es[k] && before[..k] == es[..k];
      assert !GoneBy(fates[i], k);
    }
  }

  /** Whoever has just joined the list is waiting. */
  lemma NewcomerAccounted(auto: set<int>, w: World, es: seq<Event>, ws: seq<Waiter>, fates: seq<Fate>, rank: seq<int>)
    requires es != [] && AccountsBefore(auto, w, es, ws, fates, rank)
    requires es[|es| - 1].Wait? && !Satisfied(Run(auto, w, es[..|es| - 1]).world.signaled, es[|es| - 1].waiter)
    requires Run(auto, w, es).world.waiting == ws + [es[|es| - 1].waiter]
    ensures Accounts(auto, w, es, fates + [StillWaiting], AtEnd(rank, true))
  {
    hide Satisfied, Run;
    var n, q, joined := |es| - 1, es[|es| - 1].waiter, Arrived(auto, w, es[..|es| - 1]);
    assert Arrived(auto, w, es) == joined + [q];
    PicksBack(joined, q, ws, rank, true);
    forall k | 0 <= k < |es| ensures |Arrived(auto, w, es[..k])| <= |joined| {
      ArrivedBefore(auto, w, es[..n], k);
      assert es[..n][..k] == es[..k];
    }
  }

  // ---- The loops ----

  const MAX_OBJECTS := 64
  const NO_OBJECT := 0

  datatype Result = Done(index: int) | Waiting | InvalidParameter | NullReference

  /** TH_WAIT_RESULT_HANDLE_ALL */
  const HANDLE_ALL := -1

  class Engine {
    const auto: set<int>
    var signaled: set<int>
    var waiting: seq<Waiter>

    constructor (auto: set<int>)
      ensures this.auto == auto && Now() == World({}, []) && Settled(Now())
    {
      this.auto := auto;
      signaled, waiting := {}, [];
    }

    ghost function Now(): (w: World)
      reads this
    {
      World(signaled, waiting)
    }

    /** TryWaitForSignal on a list of objects: succeed and take the signals, or leave everything alone. */
    method TryWait(q: Waiter) returns (ok: bool, index: int)
      modifies this`signaled
      ensures ok <==> Satisfied(old(signaled), q)
      ensures signaled == if ok then old(signaled) - Consumed(auto, old(signaled), q) else old(signaled)
      ensures ok ==> forall x :: x in signaled <==> x in old(signaled) && !Uses(auto, old(signaled), q, x)
      ensures ok ==> index == if q.all then HANDLE_ALL else FirstSignaled(old(signaled), q.objects)
    {
      if Satisfied(signaled, q) { UsesConsumed(auto, signaled, q); }
      index := HANDLE_ALL;
      var n := |q.objects|;
      if q.all {
        for i := 0 to n
          invariant forall j :: 0 <= j < i ==> q.objects[j] in signaled
        {
          if q.objects[i] !in signaled { return false, index; }
        }
        for i := 0 to n
          invariant signaled == old(signaled) - Members(q.objects[..i]) * auto
        {
          if q.objects[i] in auto { signaled := signaled - {q.objects[i]}; }
          MembersNext(q.objects, i);
        }
        assert q.objects[..n] == q.objects;
        return true, index;
      }
      for i := 0 to n
        invariant forall j :: 0 <= j < i ==> q.objects[j] !in signaled
        invariant signaled == old(signaled)
      {
        if q.objects[i] in signaled {
          FirstIs(signaled, q.objects, i);
          if q.objects[i] in auto { signaled := signaled - {q.objects[i]}; }
          return true, i;
        }
      }
      return false, index;
    }

    /** SignalObject: offer the signal down the waiting list until somebody uses it up. */
    method SignalObject(o: int)
      modifies this
      ensures Now() == Step(auto, old(Now()), Signal(o)).world
    {
      hide Satisfied, Taken;
      signaled := signaled + {o};
      ghost var start := Now();
      var i := 0;
      while i < |waiting|
        invariant 0 <= i <= |waiting| && o in signaled
        invariant Drain(auto, start, o, 0).world == Drain(auto, Now(), o, i).world
        decreases |waiting| - i
      {
        var ok, index := TryWait(waiting[i]);
        if ok { waiting := Remove(waiting, i); } else { i := i + 1; }
        if o !in signaled { break; }
      }
    }

    /** WaitForSignal: check the arguments, try, and wait if that fails. */
    method WaitForSignal(q: Waiter) returns (r: Result)
      modifies this
      ensures r.InvalidParameter? <==> |q.objects| > MAX_OBJECTS
      ensures r.NullReference? <==> |q.objects| <= MAX_OBJECTS && NO_OBJECT in q.objects
      ensures r.InvalidParameter? || r.NullReference? ==> Now() == old(Now())
      ensures r.Waiting? || r.Done? ==>
        Now() == Step(auto, old(Now()), Wait(q)).world && (r.Done? <==> Satisfied(old(signaled), q))
      ensures r.Waiting? ==> waiting == old(waiting) + [q] && signaled == old(signaled)
      ensures r.Done? ==> waiting == old(waiting)
      ensures r.Done? ==> forall x :: x in signaled <==> x in old(signaled) && !Uses(auto, old(signaled), q, x)
      ensures r.Done? && q.all ==> r.index == HANDLE_ALL
      ensures r.Done? && !q.all ==>
        && 0 <= r.index < |q.objects| && q.objects[r.index] in old(signaled)
        && forall j :: 0 <= j < r.index ==> q.objects[j] !in old(signaled)
    {
      if |q.objects| > MAX_OBJECTS { return InvalidParameter; }
      for i := 0 to |q.objects|
        invariant NO_OBJECT !in q.objects[..i]
      {
        if q.objects[i] == NO_OBJECT { return NullReference; }
      }
      assert q.objects[..|q.objects|] == q.objects;
      var ok, index := TryWait(q);
      if ok { return Done(index); }
      waiting := waiting + [q];
      return Waiting;
    }
  }

  lemma MembersNext(objects: seq<int>, i: nat)
    requires i < |objects|
    ensures Members(objects[..i + 1]) == Members(objects[..i]) + {objects[i]}
  {
    assert objects[..i + 1] == objects[..i] + [objects[i]];
    forall x | x in Members(objects[..i]) ensures x in Members(objects[..i + 1]) {
      var j :| 0 <= j < i && objects[..i][j] == x;
      assert objects[..i + 1][j] == x;
    }
    assert objects[..i + 1][i] == objects[i];
  }

  lemma FirstIs(signaled: set<int>, objects: seq<int>, i: nat)
    requires i < |objects| && objects[i] in signaled && forall j :: 0 <= j < i ==> objects[j] !in signaled
    ensures FirstSignaled(signaled, objects) == i
  {
  }
}
