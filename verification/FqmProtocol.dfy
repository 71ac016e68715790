// The worker pool of server/fqm.c as a transition system: pushers that check
// for room before they take the lock, and workers that wait once, not in a
// loop, on a condition variable that may wake several or wake for no reason.
module FqmProtocol {

  type Id = nat

  // A request is known by its ticket, its place in the order of acceptance.
  type Ticket = nat

  // What the lock protects, where the threads are, and what has happened.
  //   pushing   pushers past the check, not yet in the critical section
  //   ready     workers about to take the lock in fqm_pop
  //   asleep    workers in cond_wait; woken: out of it, not yet holding the lock
  //   busy      workers running a handler, and for which ticket
  //   accepted  how many requests were queued; started, in that order, those
  //             taken off; finished, those whose handler has returned
  datatype Pool = Pool(
    maxitems: nat, nitems: int, queue: seq<Ticket>,
    pushing: set<Id>,
    ready: set<Id>, asleep: set<Id>, woken: set<Id>, busy: map<Id, Ticket>,
    accepted: nat, started: seq<Ticket>, finished: set<Ticket>)

  // fqm_new: as many workers as items.
  function Start(maxitems: nat): Pool {
    Pool(maxitems, 0, [], {}, Ids(maxitems), {}, {}, map[], 0, [], {})
  }

  function Ids(n: nat): (ids: set<Id>)
    ensures |ids| == n && forall i :: i in ids ==> i < n
  {
    if n == 0 then {} else Ids(n - 1) + {n - 1}
  }

  datatype Event =
    | Check(p: Id)
    | Push(p: Id, signalled: set<Id>)
    | Pop(w: Id)
    | Resume(w: Id)
    | Finish(w: Id)
    | Spurious(w: Id)

  predicate Enabled(s: Pool, e: Event) {
    match e
    case Check(p) => p !in s.pushing
    // cond_signal unblocks at least one sleeper, if there is one.
    case Push(p, signalled) => p in s.pushing && signalled <= s.asleep && (s.asleep != {} ==> signalled != {})
    case Pop(w) => w in s.ready
    case Resume(w) => w in s.woken
    case Finish(w) => w in s.busy
    case Spurious(w) => w in s.asleep
  }

  // The end of fqm_pop: take the first request, if there is one.
  function Take(s: Pool, w: Id): Pool
    requires s.queue != []
  {
    s.(queue := s.queue[1..], nitems := s.nitems - 1,
       busy := s.busy[w := s.queue[0]], started := s.started + [s.queue[0]])
  }

  // The critical section of fqm_push.
  function PushStep(s: Pool, p: Id, signalled: set<Id>): Pool {
    s.(pushing := s.pushing - {p}, queue := s.queue + [s.accepted], nitems := s.nitems + 1,
       accepted := s.accepted + 1, asleep := s.asleep - signalled, woken := s.woken + signalled)
  }

  // fqm_pop up to the wait, or to its end if there is a request.
  function PopStep(s: Pool, w: Id): Pool {
    var u := s.(ready := s.ready - {w});
    if s.queue == [] then u.(asleep := s.asleep + {w}) else Take(u, w)
  }

  // fqm_pop after the wait; with nothing queued it returns NULL and is called
  // again.
  function ResumeStep(s: Pool, w: Id): Pool {
    var u := s.(woken := s.woken - {w});
    if s.queue == [] then u.(ready := s.ready + {w}) else Take(u, w)
  }

  function FinishStep(s: Pool, w: Id): Pool
    requires w in s.busy
  {
    s.(busy := s.busy - {w}, ready := s.ready + {w}, finished := s.finished + {s.busy[w]})
  }

  function Apply(s: Pool, e: Event): Pool
    requires Enabled(s, e)
  {
    match e
    case Check(p) => if s.nitems == s.maxitems then s else s.(pushing := s.pushing + {p})
    case Push(p, signalled) => PushStep(s, p, signalled)
    case Pop(w) => PopStep(s, w)
    case Resume(w) => ResumeStep(s, w)
    case Finish(w) => FinishStep(s, w)
    case Spurious(w) => s.(asleep := s.asleep - {w}, woken := s.woken + {w})
  }

  predicate Runs(s: Pool, events: seq<Event>)
    decreases |events|
  {
    events == [] || (Enabled(s, events[0]) && Runs(Apply(s, events[0]), events[1..]))
  }

  function After(s: Pool, events: seq<Event>): Pool
    requires Runs(s, events)
    decreases |events|
  {
    if events == [] then s else After(Apply(s, events[0]), events[1..])
  }

  ghost predicate Reachable(s: Pool) {
    exists maxitems, events :: Runs(Start(maxitems), events) && After(Start(maxitems), events) == s
  }

  // ---- The invariant ----

  // No worker is in two places ...
  predicate Apart(s: Pool) {
    && s.ready !! s.asleep && s.ready !! s.woken && s.asleep !! s.woken
    && s.ready !! s.busy.Keys && s.asleep !! s.busy.Keys && s.woken !! s.busy.Keys
  }

  // ... and every worker is in one.
  predicate Places(s: Pool) {
    && Apart(s)
    && |s.ready| + |s.asleep| + |s.woken| + |s.busy| == s.maxitems
  }

  // First in, first out, and nothing lost: the requests taken off and those
  // queued are together the accepted ones in order of acceptance.
  predicate InOrder(s: Pool) {
    && s.nitems == |s.queue|
    && |s.started| + |s.queue| == s.accepted
    && (forall i :: 0 <= i < |s.started| ==> s.started[i] == i)
    && (forall i :: 0 <= i < |s.queue| ==> s.queue[i] == |s.started| + i)
  }

  // Some worker is running the handler of request k.
  ghost predicate InProgress(s: Pool, k: Ticket) {
    exists w :: w in s.busy && s.busy[w] == k
  }

  // Each request taken off is with exactly one worker or finished, not both.
  ghost predicate Once(s: Pool) {
    && (forall w :: w in s.busy ==> s.busy[w] < |s.started| && s.busy[w] !in s.finished)
    && (forall v, w :: v in s.busy && w in s.busy && s.busy[v] == s.busy[w] ==> v == w)
    && (forall k :: k in s.finished ==> k < |s.started|)
    && (forall k: nat :: k < |s.started| ==> k in s.finished || InProgress(s, k))
  }

  // No request waits on a missed wakeup.
  predicate WorkConserving(s: Pool) {
    s.asleep != {} ==> |s.queue| <= |s.ready| + |s.woken|
  }

  predicate NoRoom(s: Pool) {
    s.maxitems == 0 ==> s.queue == [] && s.pushing == {}
  }

  ghost predicate Inv(s: Pool) {
    Places(s) && InOrder(s) && Once(s) && WorkConserving(s) && NoRoom(s)
  }

  lemma CardAdd(a: set<Id>, w: Id)
    requires w !in a
    ensures |a + {w}| == |a| + 1
  {
  }

  lemma CardRemove(a: set<Id>, w: Id)
    requires w in a
    ensures |a - {w}| == |a| - 1
  {
  }

  lemma CardMove(a: set<Id>, b: set<Id>, c: set<Id>)
    requires a !! b && c <= a
    ensures |a - c| + |b + c| == |a| + |b|
    ensures a != {} && c != {} ==> |b + c| > |b|
  {
    assert (a - c) + (b + c) == a + b;
    assert |(a - c) + (b + c)| == |a - c| + |b + c|;
    assert |b + c| == |b| + |c|;
  }

  // Taking the head of the queue keeps the order and hands its ticket to one
  // worker.
  lemma TakeKeeps(s: Pool, w: Id)
    requires s.queue != [] && w !in s.busy && InOrder(s) && Once(s)
    ensures InOrder(Take(s, w)) && Once(Take(s, w))
  {
    assert s.queue[0] == |s.started|;
    TakeOnce(s, w);
    hide Once;
  }

  lemma TakeOnce(s: Pool, w: Id)
    requires s.queue != [] && w !in s.busy && Once(s) && s.queue[0] == |s.started|
    ensures Once(Take(s, w))
  {
    var u := Take(s, w);
    TakenInProgress(s, w);
    hide InProgress;
  }

  lemma TakenInProgress(s: Pool, w: Id)
    requires s.queue != [] && w !in s.busy && s.queue[0] == |s.started|
    ensures InProgress(Take(s, w), |s.started|)
    ensures forall k :: InProgress(s, k) ==> InProgress(Take(s, w), k)
  {
    var u := Take(s, w);
    assert w in u.busy && u.busy[w] == |s.started|;
    forall k | InProgress(s, k)
      ensures InProgress(u, k)
    {
      var v :| v in s.busy && s.busy[v] == k;
      assert v in u.busy && u.busy[v] == k;
    }
  }

  lemma WakePlaces(s: Pool, u: Pool, signalled: set<Id>)
    requires Places(s) && signalled <= s.asleep && (s.asleep != {} ==> signalled != {})
    requires u.ready == s.ready && u.busy == s.busy && u.maxitems == s.maxitems
    requires u.asleep == s.asleep - signalled && u.woken == s.woken + signalled
    ensures Places(u) && |u.woken| >= |s.woken| && (s.asleep != {} ==> |u.woken| > |s.woken|)
  {
    CardMove(s.asleep, s.woken, signalled);
  }

  lemma PushKeeps(s: Pool, p: Id, signalled: set<Id>)
    requires Inv(s) && Enabled(s, Push(p, signalled))
    ensures Inv(PushStep(s, p, signalled))
  {
    var u := PushStep(s, p, signalled);
    SameBusy(s, u);
    PushInOrder(s, p, signalled);
    assert s.nitems == |s.queue|;
    hide Once, InOrder;
    WakePlaces(s, u, signalled);
    hide Places;
    assert u.asleep != {} ==> s.asleep != {};
  }

  // Moving workers about, without touching their requests.
  lemma SameBusy(s: Pool, u: Pool)
    requires Once(s) && u.busy == s.busy && u.started == s.started && u.finished == s.finished
    ensures Once(u)
    ensures InOrder(s) && u.queue == s.queue && u.nitems == s.nitems && u.accepted == s.accepted ==> InOrder(u)
  {
    forall k | InProgress(s, k)
      ensures InProgress(u, k)
    {
    }
  }

  lemma PushInOrder(s: Pool, p: Id, signalled: set<Id>)
    requires InOrder(s)
    ensures InOrder(PushStep(s, p, signalled))
  {
  }

  // A worker on its way to the lock takes the head of the queue.
  lemma TakePlaces(s: Pool, w: Id)
    requires s.queue != [] && w !in s.ready && w !in s.asleep && w !in s.woken && w !in s.busy
    requires Apart(s) && |s.ready| + |s.asleep| + |s.woken| + |s.busy| + 1 == s.maxitems
    ensures Places(Take(s, w)) && NoRoom(Take(s, w))
  {
    var u := Take(s, w);
    assert u.busy.Keys == s.busy.Keys + {w};
    CardAdd(s.busy.Keys, w);
  }

  // The worker is no longer ready or woken, and goes on to take the head.
  lemma WorkerTakes(s: Pool, v: Pool, w: Id)
    requires Inv(s) && s.queue != []
    requires || (w in s.ready && v == s.(ready := s.ready - {w}))
             || (w in s.woken && v == s.(woken := s.woken - {w}))
    ensures Inv(Take(v, w))
  {
    SameBusy(s, v);
    hide InOrder, Once;
    TakeKeeps(v, w);
    if w in s.ready {
      CardRemove(s.ready, w);
    } else {
      CardRemove(s.woken, w);
    }
    TakePlaces(v, w);
    hide Places, NoRoom;
    assert WorkConserving(Take(v, w));
  }

  lemma PopKeeps(s: Pool, w: Id)
    requires Inv(s) && w in s.ready
    ensures Inv(PopStep(s, w))
  {
    hide Inv, Take;
    if s.queue == [] {
      GoesToSleep(s, w);
    } else {
      WorkerTakes(s, s.(ready := s.ready - {w}), w);
    }
  }

  lemma GoesToSleep(s: Pool, w: Id)
    requires Inv(s) && w in s.ready && s.queue == []
    ensures Inv(s.(ready := s.ready - {w}, asleep := s.asleep + {w}))
  {
    var u := s.(ready := s.ready - {w}, asleep := s.asleep + {w});
    SameBusy(s, u);
    hide Once, InOrder;
    SleepPlaces(s, w);
    hide Places;
  }

  lemma SleepPlaces(s: Pool, w: Id)
    requires Places(s) && w in s.ready
    ensures Places(s.(ready := s.ready - {w}, asleep := s.asleep + {w}))
  {
    CardRemove(s.ready, w);
    CardAdd(s.asleep, w);
  }

  lemma ResumeKeeps(s: Pool, w: Id)
    requires Inv(s) && w in s.woken
    ensures Inv(ResumeStep(s, w))
  {
    hide Inv, Take;
    if s.queue == [] {
      ComesBack(s, w);
    } else {
      WorkerTakes(s, s.(woken := s.woken - {w}), w);
    }
  }

  lemma ComesBack(s: Pool, w: Id)
    requires Inv(s) && w in s.woken && s.queue == []
    ensures Inv(s.(woken := s.woken - {w}, ready := s.ready + {w}))
  {
    var u := s.(woken := s.woken - {w}, ready := s.ready + {w});
    SameBusy(s, u);
    hide Once, InOrder;
    BackPlaces(s, w);
    hide Places;
  }

  lemma BackPlaces(s: Pool, w: Id)
    requires Places(s) && w in s.woken
    ensures Places(s.(woken := s.woken - {w}, ready := s.ready + {w}))
  {
    CardRemove(s.woken, w);
    CardAdd(s.ready, w);
  }

  lemma FinishKeeps(s: Pool, w: Id)
    requires Inv(s) && w in s.busy
    ensures Inv(FinishStep(s, w))
  {
    var u := FinishStep(s, w);
    CardAdd(s.ready, w);
    CardRemove(s.busy.Keys, w);
    assert u.busy.Keys == s.busy.Keys - {w};
    forall k: nat | k < |u.started|
      ensures k in u.finished || InProgress(u, k)
    {
      if InProgress(s, k) && k !in u.finished {
        var v :| v in s.busy && s.busy[v] == k;
        assert v in u.busy && u.busy[v] == k;
      }
    }
  }

  lemma CheckKeeps(s: Pool, p: Id)
    requires Inv(s) && Enabled(s, Check(p))
    ensures Inv(Apply(s, Check(p)))
  {
    hide PushStep, PopStep, ResumeStep, FinishStep, Places, Once, WorkConserving;
    assert s.nitems == |s.queue|;
    hide InOrder;
    if s.nitems != s.maxitems {
      PushingOnly(s, s.pushing + {p});
    }
  }

  lemma PushingOnly(s: Pool, pushing: set<Id>)
    requires Places(s) && InOrder(s) && Once(s) && WorkConserving(s)
    ensures var u := s.(pushing := pushing);
            Places(u) && InOrder(u) && Once(u) && WorkConserving(u)
  {
    SameBusy(s, s.(pushing := pushing));
    hide Once, InOrder;
  }

  lemma SpuriousKeeps(s: Pool, w: Id)
    requires Inv(s) && Enabled(s, Spurious(w))
    ensures Inv(Apply(s, Spurious(w)))
  {
    hide PushStep, PopStep, ResumeStep, FinishStep;
    WakePlaces(s, Apply(s, Spurious(w)), {w});
    SameBusy(s, Apply(s, Spurious(w)));
    hide Once, InOrder, Places;
  }

  lemma StepKeepsInv(s: Pool, e: Event)
    requires Inv(s) && Enabled(s, e)
    ensures Inv(Apply(s, e))
  {
    hide Inv, PushStep, PopStep, ResumeStep, FinishStep;
    match e {
      case Check(p) => CheckKeeps(s, p);
      case Push(p, signalled) => PushKeeps(s, p, signalled);
      case Pop(w) => PopKeeps(s, w);
      case Resume(w) => ResumeKeeps(s, w);
      case Finish(w) => FinishKeeps(s, w);
      case Spurious(w) => SpuriousKeeps(s, w);
    }
  }

  lemma {:induction false} RunKeepsInv(s: Pool, events: seq<Event>)
    requires Inv(s) && Runs(s, events)
    ensures Inv(After(s, events))
    decreases |events|
  {
    hide Inv, Enabled, Apply;
    if events != [] {
      StepKeepsInv(s, events[0]);
      RunKeepsInv(Apply(s, events[0]), events[1..]);
    }
  }

  lemma StartInv(maxitems: nat)
    ensures Inv(Start(maxitems))
  {
  }

  lemma ReachableInv(s: Pool)
    requires Reachable(s)
    ensures Inv(s)
  {
    var maxitems, events :| Runs(Start(maxitems), events) && After(Start(maxitems), events) == s;
    StartInv(maxitems);
    RunKeepsInv(Start(maxitems), events);
  }

  // ---- What holds in every reachable state ----

  // If a worker sleeps, every queued request has a worker on its way to the
  // lock; so while requests are queued not all workers are asleep.
  lemma NoMissedWakeup(s: Pool)
    requires Reachable(s)
    ensures WorkConserving(s)
    ensures s.queue != [] ==> |s.asleep| < s.maxitems
  {
    ReachableInv(s);
  }

  // Requests are taken off in the order they were accepted, and each accepted
  // request is queued, with exactly one worker, or finished.
  lemma EachRequestOnce(s: Pool, k: Ticket)
    requires Reachable(s) && k < s.accepted
    ensures s.nitems == |s.queue| && |s.started| + |s.queue| == s.accepted
    ensures if k < |s.started| then s.started[k] == k else s.queue[k - |s.started|] == k
    ensures k < |s.started| ==> (k in s.finished <==> !InProgress(s, k))
    ensures k >= |s.started| ==> k !in s.finished && !InProgress(s, k)
    ensures forall v, w :: v in s.busy && w in s.busy && s.busy[v] == s.busy[w] ==> v == w
  {
    ReachableInv(s);
  }

  // ---- The bound on the queue ----

  // No more than p pushers between the check and the critical section.
  predicate AtMost(p: nat, s: Pool, events: seq<Event>)
    requires Runs(s, events)
    decreases |events|
  {
    |s.pushing| <= p && (events == [] || AtMost(p, Apply(s, events[0]), events[1..]))
  }

  lemma {:induction false} AtMostMore(p: nat, q: nat, s: Pool, events: seq<Event>)
    requires Runs(s, events) && AtMost(p, s, events) && p <= q
    ensures AtMost(q, s, events)
    decreases |events|
  {
    hide Enabled, Apply;
    if events != [] {
      AtMostMore(p, q, Apply(s, events[0]), events[1..]);
    }
  }

  // The check outside the lock is enough for one pusher ...
  lemma {:induction false} OnePusherKeepsBound(s: Pool, events: seq<Event>)
    requires Inv(s) && Runs(s, events) && AtMost(1, s, events)
    requires s.nitems + |s.pushing| <= s.maxitems
    ensures After(s, events).nitems + |After(s, events).pushing| <= s.maxitems
    decreases |events|
  {
    if events != [] {
      var e := events[0];
      StepKeepsInv(s, e);
      BoundStep(s, e);
      hide Inv, Enabled, Apply;
      OnePusherKeepsBound(Apply(s, e), events[1..]);
    }
  }

  lemma BoundStep(s: Pool, e: Event)
    requires Enabled(s, e) && |Apply(s, e).pushing| <= 1
    requires s.nitems + |s.pushing| <= s.maxitems
    ensures Apply(s, e).nitems + |Apply(s, e).pushing| <= Apply(s, e).maxitems == s.maxitems
  {
    if e.Check? {
      CardAdd(s.pushing, e.p);
    } else if e.Push? {
      CardRemove(s.pushing, e.p);
    }
  }

  lemma BoundForOnePusher(maxitems: nat, events: seq<Event>)
    requires Runs(Start(maxitems), events) && AtMost(1, Start(maxitems), events)
    ensures After(Start(maxitems), events).nitems <= maxitems
  {
    StartInv(maxitems);
    OnePusherKeepsBound(Start(maxitems), events);
  }

  // ... but with two pushers there is no bound at all: once both have passed
  // the check for the last place the count steps over the limit, and the test
  // for equality never holds again.
  lemma NoBoundForTwoPushers(maxitems: nat, n: nat) returns (events: seq<Event>)
    requires maxitems > 0
    ensures Runs(Start(maxitems), events) && AtMost(2, Start(maxitems), events)
    ensures After(Start(maxitems), events).nitems >= n
  {
    var s := Start(maxitems);
    var fill := PushMany(s, maxitems - 1);
    var u := After(s, fill);
    var both := [Check(0), Check(1), Push(0, {}), Push(1, {})];
    TwoPushers(u);
    var v := After(u, both);
    var more := PushMany(v, n);
    Chain(s, fill, both);
    Chain(s, fill + both, more);
    events := fill + both + more;
  }

  // A queue without places takes nothing, whoever pushes.
  lemma {:induction false} NoPlaces(s: Pool, events: seq<Event>)
    requires Inv(s) && Runs(s, events) && s.maxitems == 0
    ensures After(s, events).nitems == 0
    decreases |events|
  {
    hide Places, Once, WorkConserving;
    if events != [] {
      StepKeepsInv(s, events[0]);
      NoPlaces(Apply(s, events[0]), events[1..]);
    }
  }

  // So the bound holds in every run with at most p pushers between check and
  // lock if and only if p is at most one, or there are no places.
  lemma BoundIffOnePusher(maxitems: nat, p: nat)
    ensures (forall events :: Runs(Start(maxitems), events) && AtMost(p, Start(maxitems), events) ==>
               After(Start(maxitems), events).nitems <= maxitems)
            <==> p <= 1 || maxitems == 0
  {
    hide Runs, After, AtMost;
    var s := Start(maxitems);
    if p <= 1 || maxitems == 0 {
      forall events | Runs(s, events) && AtMost(p, s, events)
        ensures After(s, events).nitems <= maxitems
      {
        if maxitems == 0 {
          StartInv(maxitems);
          NoPlaces(s, events);
        } else {
          AtMostMore(p, 1, s, events);
          BoundForOnePusher(maxitems, events);
        }
      }
    } else {
      var events := NoBoundForTwoPushers(maxitems, maxitems + 1);
      AtMostMore(2, p, s, events);
    }
  }

  // The state in which nothing but pushes have happened.
  predicate OnlyPushes(s: Pool) {
    s.pushing == {} && s.asleep == {}
  }

  lemma TwoPushers(u: Pool)
    requires OnlyPushes(u) && u.nitems != u.maxitems
    ensures var both := [Check(0), Check(1), Push(0, {}), Push(1, {})];
            && Runs(u, both) && AtMost(2, u, both)
            && OnlyPushes(After(u, both))
            && After(u, both).nitems == u.nitems + 2 && After(u, both).maxitems == u.maxitems
  {
    var both := [Check(0), Check(1), Push(0, {}), Push(1, {})];
    assert both[1..] == [Check(1), Push(0, {}), Push(1, {})];
    assert both[1..][1..] == [Push(0, {}), Push(1, {})];
    assert both[1..][1..][1..] == [Push(1, {})];
    assert both[1..][1..][1..][1..] == [];
    assert {0, 1} - {0} == {1} && {1} - {1} == {};
  }

  // One pusher adds n requests, as long as the count does not meet the limit.
  lemma {:induction false} PushMany(s: Pool, n: nat) returns (events: seq<Event>)
    requires OnlyPushes(s) && (s.nitems + n <= s.maxitems || s.nitems > s.maxitems)
    ensures Runs(s, events) && AtMost(2, s, events)
    ensures OnlyPushes(After(s, events))
    ensures After(s, events).nitems == s.nitems + n && After(s, events).maxitems == s.maxitems
    decreases n
  {
    if n == 0 {
      events := [];
    } else {
      var one := [Check(0), Push(0, {})];
      assert one[1..] == [Push(0, {})] && one[1..][1..] == [];
      var u := Apply(Apply(s, Check(0)), Push(0, {}));
      assert After(s, one) == u;
      var rest := PushMany(u, n - 1);
      Chain(s, one, rest);
      events := one + rest;
    }
  }

  lemma {:induction false} Chain(s: Pool, a: seq<Event>, b: seq<Event>)
    requires Runs(s, a) && Runs(After(s, a), b) && AtMost(2, s, a) && AtMost(2, After(s, a), b)
    ensures Runs(s, a + b) && AtMost(2, s, a + b) && After(s, a + b) == After(After(s, a), b)
    decreases |a|
  {
    hide Enabled, Apply;
    if a == [] {
      assert a + b == b;
    } else {
      assert (a + b)[0] == a[0] && (a + b)[1..] == a[1..] + b;
      Chain(Apply(s, a[0]), a[1..], b);
    }
  }

  // ---- Once no more requests come, every accepted one is finished ----

  predicate Draining(e: Event) {
    e.Push? || e.Pop? || e.Resume? || e.Finish?
  }

  // Each push may wake every worker.
  function PushBudget(s: Pool): nat {
    (2 * s.maxitems + 4) * |s.pushing|
  }

  function Budget(s: Pool): nat {
    PushBudget(s) + 3 * |s.queue| + |s.ready| + 2 * |s.woken| + 2 * |s.busy|
  }

  lemma PushBudgetDrops(s: Pool, u: Pool)
    requires u.maxitems == s.maxitems && |u.pushing| + 1 == |s.pushing|
    ensures PushBudget(u) + 2 * s.maxitems + 4 == PushBudget(s)
  {
  }

  lemma PushShrinks(s: Pool, p: Id, signalled: set<Id>)
    requires Inv(s) && Enabled(s, Push(p, signalled))
    ensures Budget(Apply(s, Push(p, signalled))) < Budget(s)
  {
    hide PushBudget, InOrder, Once;
    CardRemove(s.pushing, p);
    CardMove(s.asleep, s.woken, signalled);
    assert |s.woken| + |s.asleep| <= s.maxitems;
    PushBudgetDrops(s, Apply(s, Push(p, signalled)));
  }

  lemma TakeShrinks(s: Pool, e: Event)
    requires Inv(s) && Enabled(s, e) && (e.Pop? || e.Resume?)
    ensures Budget(Apply(s, e)) < Budget(s)
  {
    hide PushBudget, InOrder, Once, WorkConserving, NoRoom;
    var w := e.w;
    SamePushBudget(Apply(s, e), s);
    if e.Pop? {
      CardRemove(s.ready, w);
    } else {
      CardRemove(s.woken, w);
      CardAdd(s.ready, w);
    }
    if s.queue != [] {
      BusyGrows(s.busy, w, s.queue[0]);
    }
  }

  lemma BusyGrows(busy: map<Id, Ticket>, w: Id, k: Ticket)
    requires w !in busy
    ensures |busy[w := k]| == |busy| + 1
  {
    CardAdd(busy.Keys, w);
    assert busy[w := k].Keys == busy.Keys + {w};
  }

  lemma SamePushBudget(s: Pool, u: Pool)
    requires s.maxitems == u.maxitems && s.pushing == u.pushing
    ensures PushBudget(s) == PushBudget(u)
  {
  }

  lemma FinishShrinks(s: Pool, w: Id)
    requires Inv(s) && Enabled(s, Finish(w))
    ensures Budget(Apply(s, Finish(w))) < Budget(s)
  {
    hide PushBudget;
    SamePushBudget(Apply(s, Finish(w)), s);
    CardAdd(s.ready, w);
    CardRemove(s.busy.Keys, w);
    assert (s.busy - {w}).Keys == s.busy.Keys - {w};
  }

  lemma DrainingShrinks(s: Pool, e: Event)
    requires Inv(s) && Enabled(s, e) && Draining(e)
    ensures Budget(Apply(s, e)) < Budget(s)
  {
    hide Inv, Apply, Budget;
    match e {
      case Push(p, signalled) => PushShrinks(s, p, signalled);
      case Pop(w) => TakeShrinks(s, e);
      case Resume(w) => TakeShrinks(s, e);
      case Finish(w) => FinishShrinks(s, w);
    }
  }

  // However the threads are scheduled, a run without new checks or spurious
  // wakeups ends ...
  lemma {:induction false} DrainingEnds(s: Pool, events: seq<Event>)
    requires Inv(s) && Runs(s, events) && forall i :: 0 <= i < |events| ==> Draining(events[i])
    ensures |events| + Budget(After(s, events)) <= Budget(s)
    decreases |events|
  {
    hide Inv, Enabled, Apply, Budget;
    if events != [] {
      DrainingShrinks(s, events[0]);
      StepKeepsInv(s, events[0]);
      DrainingEnds(Apply(s, events[0]), events[1..]);
    }
  }

  // ... and where it can go no further every accepted request is finished.
  lemma DrainedMeansFinished(s: Pool)
    requires Reachable(s) && forall e :: Draining(e) ==> !Enabled(s, e)
    ensures s.queue == [] && s.busy.Keys == {}
    ensures forall k: nat :: k in s.finished <==> k < s.accepted
  {
    ReachableInv(s);
    forall w: Id
      ensures w !in s.ready && w !in s.woken && w !in s.busy && w !in s.pushing
    {
      assert !Enabled(s, Pop(w)) && !Enabled(s, Resume(w)) && !Enabled(s, Finish(w));
      assert !Enabled(s, Push(w, s.asleep));
    }
    assert s.ready == {} && s.woken == {} && s.busy.Keys == {};
  }
}
