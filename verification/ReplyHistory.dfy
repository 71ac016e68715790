// Replies over whole histories: each goes to the connection that asked, with the
// request id it asked with, once; and it is told exactly when one is missing.
module ReplyHistory {
  import opened Bytes
  import opened Wrappers
  import opened CacheSpec
  import opened Wire
  import opened CdbRecord
  import opened ServerSpec
  import opened History
  import opened Replies

  function Ids(w: World, k: Sock): multiset<Short> {
    WrittenIds(if k in w.conns then w.conns[k].out else []) + PendingIds(w.waiting, k) + PendingIds(w.busy, k)
  }

  ghost function EventAccount(w: World, e: Event, timeout: int, k: Sock): Account
    requires EventOk(w, e, timeout)
  {
    match e
    case Received(j, env, frames, next) =>
      if j == k then ProcessAccount(View(w, k), env, frames, next) else NOTHING
    case Answered(env, i, answer) =>
      if w.busy[i].sock == k && !Answerable(w, i, answer) then Account(multiset{}, multiset{w.busy[i].reqid})
      else NOTHING
    case _ => NOTHING
  }

  // A worker can answer a connection that is still there, with what fits.
  predicate Answerable(w: World, i: nat, answer: Option<seq<Text>>)
    requires i < |w.busy| && w.busy[i].sock in w.conns
  {
    w.conns[w.busy[i].sock].open && (answer.Some? ==> FitsResponse(answer.value))
  }

  ghost function AccountOf(w: World, events: seq<Event>, timeout: int, k: Sock): Account
    requires EventsOk(w, events, timeout)
    decreases |events|
  {
    if events == [] then NOTHING
    else Both(EventAccount(w, events[0], timeout, k),
              AccountOf(StepWorld(w, events[0], timeout), events[1..], timeout, k))
  }

  ghost predicate InBalance(w: World, u: World, k: Sock, a: Account) {
    Ids(u, k) + a.lost == Ids(w, k) + a.asked
  }

  lemma ReceivedBalances(w: World, j: Sock, env: Env, frames: seq<Text>, next: Byte, timeout: int, k: Sock)
    requires EventOk(w, Received(j, env, frames, next), timeout)
    ensures var e := Received(j, env, frames, next);
            InBalance(w, StepWorld(w, e, timeout), k, EventAccount(w, e, timeout, k))
  {
    hide EnvOk, Process, ProcessAccount, WrittenIds, PendingIds;
    if j == k {
      ProcessBalances(View(w, k), env, frames, next);
    } else {
      ProcessLeavesOthers(View(w, j), env, frames, next, k);
      ProcessKeepsSock(View(w, j), env, frames, next);
    }
  }

  // A worker's answer takes the place of the request it had taken.
  lemma AnsweredBalances(w: World, env: Env, i: nat, answer: Option<seq<Text>>, timeout: int, k: Sock)
    requires EventOk(w, Answered(env, i, answer), timeout)
    ensures var e := Answered(env, i, answer);
            InBalance(w, StepWorld(w, e, timeout), k, EventAccount(w, e, timeout, k))
  {
    hide FitsResponse, WrittenIds, PendingIds, DoFallthrough;
    var req := w.busy[i];
    PendingWithout(w.busy, i, k);
    if w.conns[req.sock].open {
      AnswerWrites(View(w, req.sock), env, i, answer);
    }
  }

  lemma OtherBalances(w: World, e: Event, timeout: int, k: Sock)
    requires EventOk(w, e, timeout) && (e.Opened? || e.Closed? || e.Taken?)
    ensures InBalance(w, StepWorld(w, e, timeout), k, NOTHING)
  {
    hide EnvOk, Process, DoFallthrough, PendingIds;
    if e.Taken? {
      hide WrittenIds;
      TakenBalances(w, k);
      var out := WrittenIds(if k in w.conns then w.conns[k].out else []);
      Regroup(out, PendingIds(w.waiting, k), PendingIds(w.busy, k),
              PendingIds(w.waiting[1..], k), PendingIds(w.busy + [w.waiting[0]], k));
    } else {
      hide WrittenIds;
      NothingWritten();
    }
  }

  lemma Regroup(a: multiset<Short>, b: multiset<Short>, c: multiset<Short>, d: multiset<Short>, e: multiset<Short>)
    requires d + e == b + c
    ensures a + d + e == a + b + c
  {
    assert a + d + e == a + (d + e) && a + b + c == a + (b + c);
  }

  lemma NothingWritten()
    ensures WrittenIds([]) == multiset{}
  {
  }

  lemma TakenBalances(w: World, k: Sock)
    requires w.waiting != []
    ensures PendingIds(w.waiting[1..], k) + PendingIds(w.busy + [w.waiting[0]], k) ==
            PendingIds(w.waiting, k) + PendingIds(w.busy, k)
  {
    hide PendingIds;
    var req := w.waiting[0];
    PendingAppend(w.busy, [req], k);
    PendingAppend([req], w.waiting[1..], k);
    PendingOne(req, k);
    assert w.waiting == [req] + w.waiting[1..];
  }

  // Over every history, on every connection: each command that asked has exactly
  // one reply with its request id, written or to come, unless it is counted as
  // lost; and there are no replies but these.
  lemma {:induction false} RepliesBalance(w: World, events: seq<Event>, timeout: int, k: Sock)
    requires EventsOk(w, events, timeout)
    ensures InBalance(w, After(w, events, timeout), k, AccountOf(w, events, timeout, k))
    decreases |events|
  {
    hide EventOk, StepWorld, EventAccount, Ids;
    if events != [] {
      var e := events[0];
      StepBalances(w, e, timeout, k);
      var u := StepWorld(w, e, timeout);
      RepliesBalance(u, events[1..], timeout, k);
      InBalanceThen(w, u, After(u, events[1..], timeout), k, EventAccount(w, e, timeout, k),
                    AccountOf(u, events[1..], timeout, k));
    }
  }

  lemma InBalanceThen(w: World, u: World, v: World, k: Sock, a: Account, b: Account)
    requires InBalance(w, u, k, a) && InBalance(u, v, k, b)
    ensures InBalance(w, v, k, Both(a, b))
  {
    hide Ids;
    assert Ids(v, k) + (a.lost + b.lost) == (Ids(v, k) + b.lost) + a.lost;
    assert Ids(u, k) + b.asked + a.lost == (Ids(u, k) + a.lost) + b.asked;
    assert (Ids(w, k) + a.asked) + b.asked == Ids(w, k) + (a.asked + b.asked);
  }

  lemma StepBalances(w: World, e: Event, timeout: int, k: Sock)
    requires EventOk(w, e, timeout)
    ensures InBalance(w, StepWorld(w, e, timeout), k, EventAccount(w, e, timeout, k))
  {
    hide EnvOk, Process, ProcessAccount, Ids, DoFallthrough, StepWorld, InBalance;
    match e {
      case Received(j, env, frames, next) => ReceivedBalances(w, j, env, frames, next, timeout, k);
      case Answered(env, i, answer) => AnsweredBalances(w, env, i, answer, timeout, k);
      case _ => OtherBalances(w, e, timeout, k);
    }
  }

  // Every command that asked was served, and every answer could be written.
  ghost predicate Undisturbed(w: World, e: Event, timeout: int, k: Sock)
    requires EventOk(w, e, timeout)
  {
    match e
    case Received(j, env, frames, next) => j == k ==> AllServed(View(w, k), env, frames, next)
    case Answered(env, i, answer) => w.busy[i].sock == k ==> Answerable(w, i, answer)
    case _ => true
  }

  ghost predicate AllUndisturbed(w: World, events: seq<Event>, timeout: int, k: Sock)
    requires EventsOk(w, events, timeout)
    decreases |events|
  {
    events == [] || (Undisturbed(w, events[0], timeout, k)
                     && AllUndisturbed(StepWorld(w, events[0], timeout), events[1..], timeout, k))
  }

  lemma EventLoses(w: World, e: Event, timeout: int, k: Sock)
    requires EventOk(w, e, timeout)
    ensures EventAccount(w, e, timeout, k).lost == multiset{} <==> Undisturbed(w, e, timeout, k)
  {
    hide EnvOk, ProcessAccount, AllServed, Answerable;
    if e.Received? && e.k == k {
      NoneLost(View(w, k), e.env, e.frames, e.next);
    }
  }

  lemma {:induction false} NothingLostIff(w: World, events: seq<Event>, timeout: int, k: Sock)
    requires EventsOk(w, events, timeout)
    ensures AccountOf(w, events, timeout, k).lost == multiset{} <==> AllUndisturbed(w, events, timeout, k)
    decreases |events|
  {
    hide EventOk, StepWorld, EventAccount, Undisturbed;
    if events != [] {
      var u := StepWorld(w, events[0], timeout);
      EventLoses(w, events[0], timeout, k);
      NothingLostIff(u, events[1..], timeout, k);
      EmptySum(EventAccount(w, events[0], timeout, k).lost, AccountOf(u, events[1..], timeout, k).lost);
    }
  }

  // Once nothing of a new connection is waiting or with a worker, each request id
  // has been replied to as often as it asked if and only if every command was
  // served and every answer could be written.
  lemma AllReplied(w: World, events: seq<Event>, timeout: int, k: Sock)
    requires EventsOk(w, events, timeout) && Ids(w, k) == multiset{}
    requires var u := After(w, events, timeout);
             k in u.conns && PendingIds(u.waiting, k) == multiset{} && PendingIds(u.busy, k) == multiset{}
    ensures WrittenIds(After(w, events, timeout).conns[k].out) == AccountOf(w, events, timeout, k).asked <==>
            AllUndisturbed(w, events, timeout, k)
  {
    hide After, AccountOf, EventsOk, WrittenIds, PendingIds, AllUndisturbed;
    RepliesBalance(w, events, timeout, k);
    NothingLostIff(w, events, timeout, k);
    var u, a := After(w, events, timeout), AccountOf(w, events, timeout, k);
    var written := WrittenIds(u.conns[k].out);
    assert Ids(u, k) == written && multiset{} + a.asked == a.asked;
    Cancel(written, a.lost, a.asked);
  }

  lemma Cancel(a: multiset<Short>, b: multiset<Short>, c: multiset<Short>)
    requires a + b == c
    ensures a == c <==> b == multiset{}
  {
    if a == c {
      assert forall x :: (a + b)[x] == a[x] + b[x];
    }
  }

  // A received command that asks, with a request id of its own, has a reply,
  // written or to come, exactly when it is served: when every command before it in
  // its buffer goes on, and its own answer fits.
  lemma AnsweredIffServed(w: World, k: Sock, env: Env, frames: seq<Text>, next: Byte, i: nat)
    requires EventOk(w, Received(k, env, frames, next), env.timeout)
    requires i < |frames| && Asks(frames[i]) && OnlyOne(frames, i)
    requires FrameId(frames[i]) !in Ids(w, k)
    ensures FrameId(frames[i]) in Ids(StepWorld(w, Received(k, env, frames, next), env.timeout), k) <==>
            Served(View(w, k), env, frames, next, i)
  {
    hide EnvOk, Process, ProcessAccount, WrittenIds, PendingIds, Served, Asks, Ids, StepWorld;
    ReceivedBalances(w, k, env, frames, next, env.timeout, k);
    CountedOnce(View(w, k), env, frames, next, i);
    var u, a := StepWorld(w, Received(k, env, frames, next), env.timeout),
                ProcessAccount(View(w, k), env, frames, next);
    var r := FrameId(frames[i]);
    assert (Ids(u, k) + a.lost)[r] == Ids(u, k)[r] + a.lost[r];
    assert (Ids(w, k) + a.asked)[r] == Ids(w, k)[r] + a.asked[r];
  }

  // A connection is open after a buffer exactly when no frame that the loop comes
  // to says that it is to end.
  lemma OpenUnlessDie(w: World, k: Sock, env: Env, frames: seq<Text>, next: Byte)
    requires EventOk(w, Received(k, env, frames, next), env.timeout)
    ensures StepWorld(w, Received(k, env, frames, next), env.timeout).conns[k].open <==>
            !DieReached(View(w, k), env, frames, next)
  {
    hide EnvOk, Process, DieReached, StopReached;
    ProcessEnds(View(w, k), env, frames, next);
    ProcessKeepsSock(View(w, k), env, frames, next);
  }

  // ---- First come, first taken ----

  // What an event puts into the queue, and how often it takes something out.
  ghost function Queued(w: World, e: Event, timeout: int): seq<Pending>
    requires EventOk(w, e, timeout)
  {
    var n := |w.waiting|;
    if e.Received? && n <= |StepWorld(w, e, timeout).waiting| then StepWorld(w, e, timeout).waiting[n..] else []
  }

  ghost function AllQueued(w: World, events: seq<Event>, timeout: int): seq<Pending>
    requires EventsOk(w, events, timeout)
    decreases |events|
  {
    if events == [] then []
    else Queued(w, events[0], timeout) + AllQueued(StepWorld(w, events[0], timeout), events[1..], timeout)
  }

  function TimesTaken(events: seq<Event>): nat {
    if events == [] then 0 else (if events[0].Taken? then 1 else 0) + TimesTaken(events[1..])
  }

  lemma StepQueues(w: World, e: Event, timeout: int)
    requires EventOk(w, e, timeout)
    ensures var u := StepWorld(w, e, timeout);
            if e.Taken? then w.waiting == [u.busy[|u.busy| - 1]] + u.waiting && u.busy[..|w.busy|] == w.busy
            else u.waiting == w.waiting + Queued(w, e, timeout)
  {
    hide EnvOk, Process, DoFallthrough;
    if e.Received? {
      QueueGrows(View(w, e.k), e.env, e.frames, e.next);
    } else if e.Answered? && w.conns[w.busy[e.i].sock].open {
      FallthroughQueues(View(w, w.busy[e.i].sock), e.env, e.i, e.answer);
    }
  }

  lemma FallthroughQueues(s: Server, env: Env, i: nat, answer: Option<seq<Text>>)
    requires i < |s.busy|
    ensures DoFallthrough(s, env, i, answer).waiting == s.waiting
  {
    hide FitsResponse, Add;
  }

  // Over every history the requests are taken in the order in which they were
  // queued, whoever queued them, and none is skipped.
  lemma {:induction false} TakenInOrder(w: World, events: seq<Event>, timeout: int)
    requires EventsOk(w, events, timeout)
    ensures var all, n := w.waiting + AllQueued(w, events, timeout), TimesTaken(events);
            n <= |all| && After(w, events, timeout).waiting == all[n..]
    decreases |events|
  {
    hide StepWorld, Queued, EventOk;
    if events != [] {
      var u := StepWorld(w, events[0], timeout);
      StepQueues(w, events[0], timeout);
      TakenInOrder(u, events[1..], timeout);
      var q, more := Queued(w, events[0], timeout), AllQueued(u, events[1..], timeout);
      QueuedOne(w, events[0], timeout);
      if events[0].Taken? {
        assert w.waiting + ([] + more) == [w.waiting[0]] + (u.waiting + more);
      } else {
        assert w.waiting + (q + more) == u.waiting + more;
      }
    }
  }

  lemma QueuedOne(w: World, e: Event, timeout: int)
    requires EventOk(w, e, timeout)
    ensures e.Taken? ==> Queued(w, e, timeout) == []
  {
  }

  // ---- Requests belong to connections ----

  ghost predicate Known(reqs: seq<Pending>, conns: map<Sock, Conn>) {
    forall i :: 0 <= i < |reqs| ==> reqs[i].sock in conns
  }

  // Every request is one of a connection there is or was, so that there is always
  // one to answer.
  lemma RequestsKnown(w: World, e: Event, timeout: int)
    requires EventOk(w, e, timeout) && Known(w.waiting, w.conns) && Known(w.busy, w.conns)
    ensures var u := StepWorld(w, e, timeout); Known(u.waiting, u.conns) && Known(u.busy, u.conns)
  {
    hide EnvOk, Process, DoFallthrough;
    match e {
      case Received(k, env, frames, next) =>
        ProcessKeepsSock(View(w, k), env, frames, next);
        ProcessKnown(View(w, k), env, frames, next, w.conns);
      case Answered(env, i, answer) => AnsweredKnown(w, env, i, answer, timeout);
      case _ =>
    }
  }

  lemma AnsweredKnown(w: World, env: Env, i: nat, answer: Option<seq<Text>>, timeout: int)
    requires EventOk(w, Answered(env, i, answer), timeout) && Known(w.waiting, w.conns) && Known(w.busy, w.conns)
    ensures var u := StepWorld(w, Answered(env, i, answer), timeout);
            Known(u.waiting, u.conns) && Known(u.busy, u.conns)
  {
    hide EnvOk, DoFallthrough, FitsResponse, WrittenIds;
    if w.conns[w.busy[i].sock].open {
      AnswerWrites(View(w, w.busy[i].sock), env, i, answer);
    }
  }

  lemma {:induction false} ProcessKnown(s: Server, env: Env, frames: seq<Text>, next: Byte, conns: map<Sock, Conn>)
    requires EnvOk(env) && Commands(frames) && s.sock in conns
    requires Known(s.waiting, conns) && Known(s.busy, conns)
    ensures var u := Process(s, env, frames, next).0; Known(u.waiting, conns) && Known(u.busy, conns)
    decreases |frames|
  {
    hide EnvOk, Dispatch, TooLong, GoesOn;
    if frames != [] {
      OneReply(s, env, frames[0], FirstByte(frames[1..], next));
      var (u, o) := Dispatch(s, env, frames[0], FirstByte(frames[1..], next));
      if o == Continue {
        ProcessKnown(u, env, frames[1..], next, conns);
      }
    }
  }
}
