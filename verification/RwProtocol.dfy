// Any number of threads using one reader/writer lock: every interleaving of
// its critical sections, with condition variables that may wake one waiter or
// several on a signal, and any waiter at any time for no reason.
module RwProtocol {
  import opened RwMutex

  type Tid = nat

  // Where the threads are; a thread in none of the sets is outside the lock.
  // A woken thread has left the condition variable but not yet the mutex.
  datatype Sys = Sys(
    lock: Lock,
    readers: set<Tid>, writers: set<Tid>,
    readWait: set<Tid>, readWoken: set<Tid>,
    writeWait: set<Tid>, writeWoken: set<Tid>)

  const START := Sys(UNLOCKED, {}, {}, {}, {}, {}, {})

  datatype Event =
    | LockRead(t: Tid) | ResumeRead(t: Tid)
    | LockWrite(t: Tid) | ResumeWrite(t: Tid)
    | UnlockRead(t: Tid, woken: set<Tid>)
    | UnlockWrite(t: Tid, woken: set<Tid>)
    | SpuriousRead(t: Tid) | SpuriousWrite(t: Tid)

  predicate Outside(s: Sys, t: Tid) {
    && t !in s.readers && t !in s.writers
    && t !in s.readWait && t !in s.readWoken && t !in s.writeWait && t !in s.writeWoken
  }

  // pthread_cond_signal unblocks at least one waiter, if there is one.
  predicate Signalled(sig: Signal, s: Sys, woken: set<Tid>) {
    if sig.SignalWriter? then woken <= s.writeWait && (s.writeWait != {} ==> woken != {}) else woken == {}
  }

  // A thread unlocks only what it holds.
  predicate Enabled(s: Sys, e: Event) {
    match e
    case LockRead(t) => Outside(s, t)
    case ResumeRead(t) => t in s.readWoken
    case LockWrite(t) => Outside(s, t)
    case ResumeWrite(t) => t in s.writeWoken
    case UnlockRead(t, woken) => t in s.readers && Signalled(Unlock(s.lock).1, s, woken)
    case UnlockWrite(t, woken) => t in s.writers && Signalled(Unlock(s.lock).1, s, woken)
    case SpuriousRead(t) => t in s.readWait
    case SpuriousWrite(t) => t in s.writeWait
  }

  function Wake(s: Sys, sig: Signal, woken: set<Tid>): Sys {
    match sig
    case NoSignal => s
    case SignalWriter => s.(writeWait := s.writeWait - woken, writeWoken := s.writeWoken + woken)
    case BroadcastReaders => s.(readWait := {}, readWoken := s.readWoken + s.readWait)
  }

  function Apply(s: Sys, e: Event): Sys {
    match e
    case LockRead(t) =>
      var (l, ok) := ReadTry(s.lock);
      if ok then s.(lock := l, readers := s.readers + {t}) else s.(lock := l, readWait := s.readWait + {t})
    case ResumeRead(t) =>
      var (l, ok) := ReadTry(s.lock);
      var u := s.(lock := l, readWoken := s.readWoken - {t});
      if ok then u.(readers := s.readers + {t}) else u.(readWait := s.readWait + {t})
    case LockWrite(t) =>
      var (l, ok) := WriteTry(s.lock);
      if ok then s.(lock := l, writers := s.writers + {t}) else s.(lock := l, writeWait := s.writeWait + {t})
    case ResumeWrite(t) =>
      var (l, ok) := WriteResume(s.lock);
      var u := s.(lock := l, writeWoken := s.writeWoken - {t});
      if ok then u.(writers := s.writers + {t}) else u.(writeWait := s.writeWait + {t})
    case UnlockRead(t, woken) =>
      var (l, sig, _) := Unlock(s.lock);
      Wake(s.(lock := l, readers := s.readers - {t}), sig, woken)
    case UnlockWrite(t, woken) =>
      var (l, sig, _) := Unlock(s.lock);
      Wake(s.(lock := l, writers := s.writers - {t}), sig, woken)
    case SpuriousRead(t) => s.(readWait := s.readWait - {t}, readWoken := s.readWoken + {t})
    case SpuriousWrite(t) => s.(writeWait := s.writeWait - {t}, writeWoken := s.writeWoken + {t})
  }

  // ---- Runs ----

  predicate Runs(s: Sys, events: seq<Event>)
    decreases |events|
  {
    events == [] || (Enabled(s, events[0]) && Runs(Apply(s, events[0]), events[1..]))
  }

  function After(s: Sys, events: seq<Event>): Sys
    decreases |events|
  {
    if events == [] then s else After(Apply(s, events[0]), events[1..])
  }

  ghost predicate Reachable(s: Sys) {
    exists events :: Runs(START, events) && After(START, events) == s
  }

  // ---- The invariant ----

  predicate Places(s: Sys) {
    && s.readers !! s.writers && s.readers !! s.readWait && s.readers !! s.readWoken
    && s.readers !! s.writeWait && s.readers !! s.writeWoken
    && s.writers !! s.readWait && s.writers !! s.readWoken
    && s.writers !! s.writeWait && s.writers !! s.writeWoken
    && s.readWait !! s.readWoken && s.readWait !! s.writeWait && s.readWait !! s.writeWoken
    && s.readWoken !! s.writeWait && s.readWoken !! s.writeWoken
    && s.writeWait !! s.writeWoken
  }

  // state counts the holders, blocked_writers the writers inside the wait.
  predicate Counts(s: Sys) {
    && s.lock.blockedWriters == |s.writeWait| + |s.writeWoken|
    && |s.writers| <= 1
    && (s.writers != {} ==> s.readers == {})
    && s.lock.state == if s.writers != {} then -1 else |s.readers|
  }

  // No wakeup is lost: a reader still asleep has a reason to be, and when the
  // lock is free the writers asleep have a woken one ahead of them.
  predicate NoLostWakeup(s: Sys) {
    && (s.readWait != {} ==> s.lock.blockedWriters > 0 || s.lock.state < 0)
    && (s.writeWait != {} && s.lock.state == 0 ==> s.writeWoken != {})
  }

  predicate Inv(s: Sys) {
    Places(s) && Counts(s) && NoLostWakeup(s)
  }

  lemma CardAdd(a: set<Tid>, t: Tid)
    requires t !in a
    ensures |a + {t}| == |a| + 1
  {
  }

  lemma CardRemove(a: set<Tid>, t: Tid)
    requires t in a
    ensures |a - {t}| == |a| - 1
  {
  }

  lemma CardMove(a: set<Tid>, b: set<Tid>, w: set<Tid>)
    requires a !! b && w <= a
    ensures |a - w| + |b + w| == |a| + |b|
  {
    assert (a - w) + (b + w) == a + b;
    assert |(a - w) + (b + w)| == |a - w| + |b + w|;
  }

  lemma Holder(a: set<Tid>, t: Tid)
    requires |a| <= 1 && t in a
    ensures a == {t}
  {
    assert |a - {t}| == 0;
  }

  lemma LockReadKeeps(s: Sys, t: Tid)
    requires Inv(s) && Enabled(s, LockRead(t))
    ensures Inv(Apply(s, LockRead(t)))
  {
    CardAdd(s.readers, t);
  }

  lemma ResumeReadKeeps(s: Sys, t: Tid)
    requires Inv(s) && Enabled(s, ResumeRead(t))
    ensures Inv(Apply(s, ResumeRead(t)))
  {
    CardAdd(s.readers, t);
  }

  lemma LockWriteKeeps(s: Sys, t: Tid)
    requires Inv(s) && Enabled(s, LockWrite(t))
    ensures Inv(Apply(s, LockWrite(t)))
  {
    CardAdd(s.writers, t);
    CardAdd(s.writeWait, t);
  }

  lemma ResumeWriteKeeps(s: Sys, t: Tid)
    requires Inv(s) && Enabled(s, Event.ResumeWrite(t))
    ensures Inv(Apply(s, Event.ResumeWrite(t)))
  {
    CardAdd(s.writers, t);
    CardAdd(s.writeWait, t);
    CardRemove(s.writeWoken, t);
  }

  lemma UnlockReadKeeps(s: Sys, t: Tid, woken: set<Tid>)
    requires Inv(s) && Enabled(s, UnlockRead(t, woken))
    ensures Inv(Apply(s, UnlockRead(t, woken)))
  {
    CardRemove(s.readers, t);
    CardMove(s.writeWait, s.writeWoken, woken * s.writeWait);
    assert Unlock(s.lock).1.SignalWriter? ==> woken * s.writeWait == woken;
  }

  lemma UnlockWriteKeeps(s: Sys, t: Tid, woken: set<Tid>)
    requires Inv(s) && Enabled(s, UnlockWrite(t, woken))
    ensures Inv(Apply(s, UnlockWrite(t, woken)))
  {
    Holder(s.writers, t);
    assert s.writers - {t} == {} && s.readers == {};
    CardMove(s.writeWait, s.writeWoken, woken * s.writeWait);
    assert Unlock(s.lock).1.SignalWriter? ==> woken * s.writeWait == woken;
  }

  lemma StepKeepsInv(s: Sys, e: Event)
    requires Inv(s) && Enabled(s, e)
    ensures Inv(Apply(s, e))
  {
    match e {
      case LockRead(t) => LockReadKeeps(s, t);
      case ResumeRead(t) => ResumeReadKeeps(s, t);
      case LockWrite(t) => LockWriteKeeps(s, t);
      case ResumeWrite(t) => ResumeWriteKeeps(s, t);
      case UnlockRead(t, woken) => UnlockReadKeeps(s, t, woken);
      case UnlockWrite(t, woken) => UnlockWriteKeeps(s, t, woken);
      case SpuriousRead(t) =>
      case SpuriousWrite(t) =>
        CardMove(s.writeWait, s.writeWoken, {t});
    }
  }

  lemma {:induction false} RunKeepsInv(s: Sys, events: seq<Event>)
    requires Inv(s) && Runs(s, events)
    ensures Inv(After(s, events))
    decreases |events|
  {
    if events != [] {
      StepKeepsInv(s, events[0]);
      RunKeepsInv(Apply(s, events[0]), events[1..]);
    }
  }

  // ---- What holds in every reachable state ----

  lemma MutualExclusion(s: Sys)
    requires Reachable(s)
    ensures s.lock.state == -1 <==> |s.writers| == 1 && s.readers == {}
    ensures s.lock.state >= 0 <==> s.writers == {}
    ensures s.lock.state >= 0 ==> s.lock.state == |s.readers|
    ensures s.lock.state >= -1
    ensures s.lock.blockedWriters == |s.writeWait| + |s.writeWoken|
  {
    var events :| Runs(START, events) && After(START, events) == s;
    RunKeepsInv(START, events);
  }

  lemma SleepersHaveReason(s: Sys)
    requires Reachable(s)
    ensures NoLostWakeup(s)
  {
    var events :| Runs(START, events) && After(START, events) == s;
    RunKeepsInv(START, events);
  }

  // Whenever some thread is asleep, a holder can unlock or a woken writer can
  // take the lock: nothing is stuck.
  lemma SomeoneCanMove(s: Sys) returns (e: Event)
    requires Reachable(s) && s.readWait + s.writeWait != {}
    ensures Enabled(s, e)
    ensures || (e.UnlockRead? && e.t in s.readers)
            || (e.UnlockWrite? && e.t in s.writers)
            || (e.ResumeWrite? && Apply(s, e).writers == {e.t})
  {
    var events :| Runs(START, events) && After(START, events) == s;
    RunKeepsInv(START, events);
    var woken := if Unlock(s.lock).1.SignalWriter? then s.writeWait else {};
    if s.writers != {} {
      var t :| t in s.writers;
      e := UnlockWrite(t, woken);
    } else if s.readers != {} {
      var t :| t in s.readers;
      e := UnlockRead(t, woken);
    } else {
      var t :| t in s.writeWoken;
      e := Event.ResumeWrite(t);
    }
  }

  // A reader gets the lock at once exactly if no writer has it or is inside the
  // wait, and a writer exactly if nobody has it.
  lemma WhoEnters(s: Sys, t: Tid)
    requires Reachable(s) && Outside(s, t)
    ensures t in Apply(s, LockRead(t)).readers <==> s.writers + s.writeWait + s.writeWoken == {}
    ensures t in Apply(s, LockWrite(t)).writers <==> s.writers + s.readers == {}
  {
    MutualExclusion(s);
    NoneBlocked(s);
  }

  lemma NoneBlocked(s: Sys)
    requires s.lock.blockedWriters == |s.writeWait| + |s.writeWoken|
    ensures s.lock.blockedWriters == 0 <==> s.writeWait + s.writeWoken == {}
  {
    assert |s.writeWait| == 0 <==> s.writeWait == {};
    assert |s.writeWoken| == 0 <==> s.writeWoken == {};
  }

  // An unlock by a holder succeeds.  It signals a writer exactly if it leaves the
  // lock free and a writer is inside the wait, and all readers exactly if a writer
  // leaves and none is.
  lemma WhomUnlockWakes(s: Sys, e: Event)
    requires Reachable(s) && Enabled(s, e) && (e.UnlockRead? || e.UnlockWrite?)
    ensures var (_, signal, rc) := Unlock(s.lock);
            var u := Apply(s, e);
            && rc == 0
            && (signal == SignalWriter <==> u.readers + u.writers == {} && s.writeWait + s.writeWoken != {})
            && (signal == BroadcastReaders <==> e.UnlockWrite? && s.writeWait + s.writeWoken == {})
            && (signal == BroadcastReaders ==> u.readWait == {} && s.readWait <= u.readWoken)
  {
    MutualExclusion(s);
    NoneBlocked(s);
    if e.UnlockRead? {
      CardRemove(s.readers, e.t);
    } else {
      CardRemove(s.writers, e.t);
    }
  }

  // Unlocking a lock that nobody has is refused, with EINVAL, and only that.
  lemma RefusedIffFree(s: Sys)
    requires Reachable(s)
    ensures var (l, signal, rc) := Unlock(s.lock);
            && (rc == 22 <==> s.readers + s.writers == {})
            && (rc == 0 <==> s.readers + s.writers != {})
            && (rc != 0 ==> l == s.lock && signal == NoSignal)
  {
    MutualExclusion(s);
  }

  // ---- Writer preference over runs ----

  // Some writer is inside the wait before and after every event of the run.
  predicate WriterBlocked(s: Sys, events: seq<Event>)
    decreases |events|
  {
    s.lock.blockedWriters > 0 && (events == [] || WriterBlocked(Apply(s, events[0]), events[1..]))
  }

  function ReadUnlocks(events: seq<Event>): nat {
    if events == [] then 0 else (if events[0].UnlockRead? then 1 else 0) + ReadUnlocks(events[1..])
  }

  lemma NoReaderEnters(s: Sys, e: Event)
    requires Enabled(s, e) && s.lock.blockedWriters > 0
    ensures Apply(s, e).readers <= s.readers
    ensures |Apply(s, e).readers| + (if e.UnlockRead? then 1 else 0) == |s.readers|
  {
    if e.UnlockRead? {
      CardRemove(s.readers, e.t);
    }
  }

  // While a writer is blocked no reader gets in: the readers only leave, each
  // by one unlock, so a writer is kept waiting by at most as many read unlocks
  // as there were readers when it blocked.
  lemma {:induction false} WritersGoFirst(s: Sys, events: seq<Event>)
    requires Inv(s) && Runs(s, events) && WriterBlocked(s, events)
    ensures After(s, events).readers <= s.readers
    ensures |After(s, events).readers| + ReadUnlocks(events) == |s.readers|
    decreases |events|
  {
    if events != [] {
      var e := events[0];
      StepKeepsInv(s, e);
      NoReaderEnters(s, e);
      hide Inv, Enabled, Apply;
      WritersGoFirst(Apply(s, e), events[1..]);
    }
  }

  // When those unlocks have happened and no writer holds the lock, it is free
  // and a writer has been woken for it.
  lemma LastReaderWakesWriter(s: Sys, events: seq<Event>)
    requires Reachable(s) && Runs(s, events) && WriterBlocked(s, events)
    requires ReadUnlocks(events) == |s.readers| && After(s, events).writers == {}
    ensures After(s, events).lock.state == 0 && After(s, events).writeWoken != {}
  {
    var before :| Runs(START, before) && After(START, before) == s;
    RunKeepsInv(START, before);
    WritersGoFirst(s, events);
    RunKeepsInv(s, events);
    var u := After(s, events);
    StillBlocked(s, events);
    assert u.writeWait + u.writeWoken != {};
  }

  lemma {:induction false} StillBlocked(s: Sys, events: seq<Event>)
    requires WriterBlocked(s, events)
    ensures After(s, events).lock.blockedWriters > 0
    decreases |events|
  {
    if events != [] {
      StillBlocked(Apply(s, events[0]), events[1..]);
    }
  }

  // ---- Once arrivals stop, every thread gets the lock and leaves ----

  predicate Settling(e: Event) {
    e.ResumeRead? || e.ResumeWrite? || e.UnlockRead? || e.UnlockWrite?
  }

  function Inside(s: Sys): nat {
    |s.readers| + |s.writers| + |s.readWait| + |s.readWoken| + |s.writeWait| + |s.writeWoken|
  }

  function Woken(s: Sys): nat {
    |s.readWoken| + |s.writeWoken|
  }

  // Each unlock takes a thread out for good and can wake at most those left;
  // each resumption uses up one wakeup.
  function Budget(s: Sys): nat {
    Inside(s) * (Inside(s) + 1) + Woken(s)
  }

  lemma ResumeReadCounts(s: Sys, t: Tid)
    requires Inv(s) && t in s.readWoken
    ensures var u := Apply(s, ResumeRead(t)); Inside(u) == Inside(s) && Woken(u) + 1 == Woken(s)
  {
    CardRemove(s.readWoken, t);
    CardAdd(s.readers, t);
    CardAdd(s.readWait, t);
    hide Counts, NoLostWakeup, Places;
  }

  lemma ResumeWriteCounts(s: Sys, t: Tid)
    requires Inv(s) && t in s.writeWoken
    ensures var u := Apply(s, Event.ResumeWrite(t)); Inside(u) == Inside(s) && Woken(u) + 1 == Woken(s)
  {
    CardRemove(s.writeWoken, t);
    CardAdd(s.writers, t);
    CardAdd(s.writeWait, t);
    hide Counts, NoLostWakeup, Places;
  }

  lemma WakeCounts(s: Sys, sig: Signal, woken: set<Tid>)
    requires s.writeWait !! s.writeWoken && s.readWait !! s.readWoken
    requires sig.SignalWriter? ==> woken <= s.writeWait
    ensures Inside(Wake(s, sig, woken)) == Inside(s)
  {
    if sig.SignalWriter? {
      CardMove(s.writeWait, s.writeWoken, woken);
    } else if sig.BroadcastReaders? {
      CardMove(s.readWait, s.readWoken, s.readWait);
      assert s.readWait - s.readWait == {};
    }
  }

  lemma UnlockCounts(s: Sys, e: Event)
    requires Inv(s) && Enabled(s, e) && (e.UnlockRead? || e.UnlockWrite?)
    ensures Inside(Apply(s, e)) + 1 == Inside(s)
  {
    hide Counts, NoLostWakeup;
    var (l, sig, _) := Unlock(s.lock);
    var u := if e.UnlockRead? then s.(lock := l, readers := s.readers - {e.t})
             else s.(lock := l, writers := s.writers - {e.t});
    if e.UnlockRead? {
      CardRemove(s.readers, e.t);
    } else {
      CardRemove(s.writers, e.t);
    }
    WakeCounts(u, sig, e.woken);
    hide Inside, Wake;
    assert Apply(s, e) == Wake(u, sig, e.woken);
  }

  lemma SettlingShrinks(s: Sys, e: Event)
    requires Inv(s) && Enabled(s, e) && Settling(e)
    ensures Budget(Apply(s, e)) < Budget(s)
  {
    hide Inv, Apply;
    if e.ResumeRead? {
      ResumeReadCounts(s, e.t);
    } else if e.ResumeWrite? {
      ResumeWriteCounts(s, e.t);
    } else {
      UnlockCounts(s, e);
      var n := Inside(s);
      assert Woken(Apply(s, e)) <= n - 1;
      assert (n - 1) * n + (n - 1) < n * (n + 1);
    }
  }

  // However the waiters are scheduled, a run without new arrivals or spurious
  // wakeups is no longer than the budget it starts with ...
  lemma {:induction false} SettlingEnds(s: Sys, events: seq<Event>)
    requires Inv(s) && Runs(s, events) && forall i :: 0 <= i < |events| ==> Settling(events[i])
    ensures |events| + Budget(After(s, events)) <= Budget(s)
    decreases |events|
  {
    hide Inv, Enabled, Apply, Budget;
    if events != [] {
      SettlingShrinks(s, events[0]);
      StepKeepsInv(s, events[0]);
      SettlingEnds(Apply(s, events[0]), events[1..]);
    }
  }

  // ... and can stop only when every thread has had the lock and left.
  lemma SettledMeansAllServed(s: Sys)
    requires Reachable(s)
    ensures (exists e :: Settling(e) && Enabled(s, e)) <==> Inside(s) > 0
  {
    if Inside(s) > 0 {
      var e := SettlingEvent(s);
    }
  }

  lemma SettlingEvent(s: Sys) returns (e: Event)
    requires Reachable(s) && Inside(s) > 0
    ensures Settling(e) && Enabled(s, e)
  {
    if s.readWait + s.writeWait != {} {
      e := SomeoneCanMove(s);
    } else if t :| t in s.readWoken {
      e := ResumeRead(t);
    } else if t :| t in s.writeWoken {
      e := Event.ResumeWrite(t);
    } else if t :| t in s.readers {
      e := UnlockRead(t, {});
    } else {
      var t :| t in s.writers;
      e := UnlockWrite(t, {});
    }
  }
}
