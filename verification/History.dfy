// What a server goes through: clients that connect and leave, buffers of
// commands, workers taking requests off the queue, and answers of the
// fallthrough database, each at its own time.  Whatever the history, the cache
// has gone through a run of cache operations.
module History {
  import opened Bytes
  import opened Wrappers
  import opened Separated
  import opened CdbFormat
  import opened CdbRecord
  import opened CacheSpec
  import CacheRuns
  import opened Wire
  import opened ServerSpec

  // A connection, under a name of its own; what the server shares between them.
  datatype Conn = Conn(opts: Options, open: bool, out: seq<Text>)

  datatype World = World(conns: map<Sock, Conn>, cache: Cache, waiting: seq<Pending>, busy: seq<Pending>)

  // The server as one connection sees it, and as that leaves it.
  function View(w: World, k: Sock): Server
    requires k in w.conns
  {
    Server(k, w.conns[k].opts, w.cache, w.waiting, w.busy, w.conns[k].out)
  }

  function Put(w: World, s: Server, open: bool): World {
    World(w.conns[s.sock := Conn(s.opts, open, s.out)], s.cache, s.waiting, s.busy)
  }

  // Frames are followed in memory by `next'; workers take requests in order and
  // answer those they have taken in any order.
  datatype Event =
    | Opened(k: Sock)
    | Closed(k: Sock)
    | Received(k: Sock, env: Env, frames: seq<Text>, next: Byte)
    | Taken
    | Answered(env: Env, i: nat, answer: Option<seq<Text>>)

  ghost predicate EventOk(w: World, e: Event, timeout: int) {
    match e
    case Opened(k) => k !in w.conns
    case Closed(k) => k in w.conns && w.conns[k].open
    case Received(k, env, frames, _) =>
      k in w.conns && w.conns[k].open && EnvOk(env) && env.timeout == timeout && Commands(frames)
    case Taken => w.waiting != []
    case Answered(env, i, _) => env.timeout == timeout && i < |w.busy| && w.busy[i].sock in w.conns
  }

  // A NASTDIE ends the connection.  What is written to one that has ended is not
  // written at all, and a worker then does not cache it either.
  ghost function StepWorld(w: World, e: Event, timeout: int): World
    requires EventOk(w, e, timeout)
  {
    match e
    case Opened(k) => w.(conns := w.conns[k := Conn(DEFAULT_OPTIONS, true, [])])
    case Closed(k) => w.(conns := w.conns[k := w.conns[k].(open := false)])
    case Received(k, env, frames, next) =>
      var (u, o) := Process(View(w, k), env, frames, next);
      Put(w, u, o != Die)
    case Taken => w.(waiting := w.waiting[1..], busy := w.busy + [w.waiting[0]])
    case Answered(env, i, answer) =>
      if w.conns[w.busy[i].sock].open then Put(w, DoFallthrough(View(w, w.busy[i].sock), env, i, answer), true)
      else w.(busy := w.busy[..i] + w.busy[i + 1..])
  }

  // A worker's taking is the same on every connection.
  lemma TakenIsShared(w: World, k: Sock, timeout: int)
    requires k in w.conns && EventOk(w, Taken, timeout)
    ensures View(StepWorld(w, Taken, timeout), k) == TakeRequest(View(w, k))
  {
  }

  ghost predicate EventsOk(w: World, events: seq<Event>, timeout: int)
    decreases |events|
  {
    events == [] || (EventOk(w, events[0], timeout)
                     && EventsOk(StepWorld(w, events[0], timeout), events[1..], timeout))
  }

  ghost function After(w: World, events: seq<Event>, timeout: int): World
    requires EventsOk(w, events, timeout)
    decreases |events|
  {
    if events == [] then w else After(StepWorld(w, events[0], timeout), events[1..], timeout)
  }

  // ---- What commands do to the cache ----

  // The cache operations that a frame amounts to.
  function CacheOps(s: Server, env: Env, f: Text): seq<CacheRuns.Op>
    requires Framed(f, COMMAND_HEAD)
  {
    var args := f[6..];
    if f[4] != NASTCMD then []
    else if f[5] == NASTGET then
      if s.opts.use_qcache && !s.opts.always_fallthrough then [CacheRuns.OpGet(args, env.now, env.mtime)] else []
    else if f[5] == NASTUPD && FieldLen(args, NASTSEP) < |args| then
      var keylen := FieldLen(args, NASTSEP);
      [CacheRuns.OpUpdate(args[..keylen], Items(args[keylen + 1..], NASTSEP), env.now, env.fieldcount)]
    else []
  }

  ghost function ProcessOps(s: Server, env: Env, frames: seq<Text>, next: Byte): seq<CacheRuns.Op>
    requires EnvOk(env) && Commands(frames)
    decreases |frames|
  {
    if frames == [] then []
    else
      var (u, o) := Dispatch(s, env, frames[0], FirstByte(frames[1..], next));
      CacheOps(s, env, frames[0]) + if o == Continue then ProcessOps(u, env, frames[1..], next) else []
  }

  ghost function EventOps(w: World, e: Event, timeout: int): seq<CacheRuns.Op>
    requires EventOk(w, e, timeout)
  {
    match e
    case Received(k, env, frames, next) => ProcessOps(View(w, k), env, frames, next)
    case Answered(env, i, answer) =>
      if w.conns[w.busy[i].sock].open && answer.Some? && FitsResponse(answer.value)
      then [CacheRuns.OpAdd(CString(w.busy[i].key), answer.value, env.now)]
      else []
    case _ => []
  }

  // All the cache operations of a run, in order.
  ghost function OpsOf(w: World, events: seq<Event>, timeout: int): seq<CacheRuns.Op>
    requires EventsOk(w, events, timeout)
    decreases |events|
  {
    if events == [] then []
    else EventOps(w, events[0], timeout) + OpsOf(StepWorld(w, events[0], timeout), events[1..], timeout)
  }

  lemma DispatchRunsOps(s: Server, env: Env, f: Text, next: Byte)
    requires EnvOk(env) && Framed(f, COMMAND_HEAD)
    ensures Dispatch(s, env, f, next).0.cache == CacheRuns.Run(s.cache, CacheOps(s, env, f), env.timeout)
  {
    hide EnvOk, DoGet, DoUpdate, FieldLen, Items, SetOptions, OptionBytes, FitsResponse, CacheRuns.Run, CacheRuns.Step;
    GetRunsOp(s, env, FrameId(f), f[6..]);
    UpdateRunsOp(s, env, FrameId(f), f[6..]);
    NoOps(s.cache, env.timeout);
  }

  lemma GetRunsOp(s: Server, env: Env, reqid: Short, key: Text)
    requires EnvOk(env)
    ensures DoGet(s, env, reqid, key).0.cache ==
            if s.opts.use_qcache && !s.opts.always_fallthrough
            then CacheRuns.Run(s.cache, [CacheRuns.OpGet(key, env.now, env.mtime)], env.timeout) else s.cache
  {
    hide WellFormed, LocalAnswer, Get, Send, CacheRuns.Run;
    SendKeepsCache();
    OneOp(s.cache, CacheRuns.OpGet(key, env.now, env.mtime), env.timeout);
  }

  lemma UpdateRunsOp(s: Server, env: Env, reqid: Short, args: Text)
    ensures var keylen := FieldLen(args, NASTSEP);
            DoUpdate(s, env, reqid, args).0.cache ==
            if keylen < |args|
            then CacheRuns.Run(s.cache, [CacheRuns.OpUpdate(args[..keylen], Items(args[keylen + 1..], NASTSEP),
                                                            env.now, env.fieldcount)], env.timeout)
            else s.cache
  {
    hide FieldLen, Items, Update, CacheRuns.Run, DoUpdate;
    UpdateCache(s, env, reqid, args);
    var keylen := FieldLen(args, NASTSEP);
    if keylen < |args| {
      UpdateIsOp(s.cache, args[..keylen], Items(args[keylen + 1..], NASTSEP), env.now, env.fieldcount, env.timeout);
    }
  }

  lemma UpdateIsOp(m: Cache, key: Text, vals: seq<Text>, now: Time, fieldcount: int, timeout: int)
    ensures CacheRuns.Run(m, [CacheRuns.OpUpdate(key, vals, now, fieldcount)], timeout) ==
            Update(m, key, vals, now, timeout, fieldcount).0
  {
    hide Update;
    OneOp(m, CacheRuns.OpUpdate(key, vals, now, fieldcount), timeout);
  }

  lemma UpdateCache(s: Server, env: Env, reqid: Short, args: Text)
    ensures var keylen := FieldLen(args, NASTSEP);
            DoUpdate(s, env, reqid, args).0.cache ==
            if keylen < |args|
            then Update(s.cache, args[..keylen], Items(args[keylen + 1..], NASTSEP),
                        env.now, env.timeout, env.fieldcount).0
            else s.cache
  {
    hide FieldLen, Items, Update, Send, SendError;
    var keylen := FieldLen(args, NASTSEP);
    ErrorKeepsCache(s, reqid, "Need values for update");
    if keylen < |args| {
      var cache := Update(s.cache, args[..keylen], Items(args[keylen + 1..], NASTSEP),
                          env.now, env.timeout, env.fieldcount).0;
      ErrorKeepsCache(s.(cache := cache), reqid, "Couldn't update cache");
      OneSendKeepsCache(s.(cache := cache), reqid, NASTOK, []);
    }
  }

  lemma OneSendKeepsCache(s: Server, reqid: Short, code: Byte, items: seq<Text>)
    ensures Send(s, reqid, code, items).0.cache == s.cache
  {
    hide Join;
  }

  lemma ErrorKeepsCache(s: Server, reqid: Short, message: string)
    ensures SendError(s, reqid, message).0.cache == s.cache
  {
    hide Send, Message;
    OneSendKeepsCache(s, reqid, NASTERR, [Message(message)]);
  }

  lemma SendKeepsCache()
    ensures forall s, reqid, code, items :: Send(s, reqid, code, items).0.cache == s.cache
  {
    hide Join;
  }

  lemma OneOp(m: Cache, op: CacheRuns.Op, timeout: int)
    ensures CacheRuns.Run(m, [op], timeout) == CacheRuns.Step(m, op, timeout)
  {
    assert [op][1..] == [];
  }

  lemma NoOps(m: Cache, timeout: int)
    ensures CacheRuns.Run(m, [], timeout) == m
  {
  }

  lemma {:induction false} RunAppend(m: Cache, a: seq<CacheRuns.Op>, b: seq<CacheRuns.Op>, timeout: int)
    ensures CacheRuns.Run(m, a + b, timeout) == CacheRuns.Run(CacheRuns.Run(m, a, timeout), b, timeout)
    decreases |a|
  {
    if a == [] {
      assert a + b == b;
    } else {
      assert (a + b)[1..] == a[1..] + b;
      RunAppend(CacheRuns.Step(m, a[0], timeout), a[1..], b, timeout);
    }
  }

  lemma {:induction false} ProcessRunsOps(s: Server, env: Env, frames: seq<Text>, next: Byte)
    requires EnvOk(env) && Commands(frames)
    ensures Process(s, env, frames, next).0.cache ==
            CacheRuns.Run(s.cache, ProcessOps(s, env, frames, next), env.timeout)
    decreases |frames|
  {
    hide EnvOk, Dispatch, CacheOps;
    if frames != [] {
      var after := FirstByte(frames[1..], next);
      var (u, o) := Dispatch(s, env, frames[0], after);
      DispatchRunsOps(s, env, frames[0], after);
      var first := CacheOps(s, env, frames[0]);
      if o == Continue {
        ProcessRunsOps(u, env, frames[1..], next);
        RunAppend(s.cache, first, ProcessOps(u, env, frames[1..], next), env.timeout);
      } else {
        assert first + [] == first;
      }
    }
  }

  lemma EventRunsOps(w: World, e: Event, timeout: int)
    requires EventOk(w, e, timeout)
    ensures StepWorld(w, e, timeout).cache == CacheRuns.Run(w.cache, EventOps(w, e, timeout), timeout)
  {
    hide EnvOk, Process, ProcessOps, FitsResponse, CacheRuns.Run, CacheRuns.Step;
    NoOps(w.cache, timeout);
    match e {
      case Received(k, env, frames, next) => ProcessRunsOps(View(w, k), env, frames, next);
      case Answered(env, i, answer) =>
        if answer.Some? {
          AddIsOp(w.cache, CString(w.busy[i].key), answer.value, env.now, timeout);
        }
      case _ =>
    }
  }

  lemma AddIsOp(m: Cache, key: Text, vals: seq<Text>, now: Time, timeout: int)
    ensures CacheRuns.Run(m, [CacheRuns.OpAdd(key, vals, now)], timeout) == Add(m, key, vals, now, timeout)
  {
    OneOp(m, CacheRuns.OpAdd(key, vals, now), timeout);
  }

  lemma {:induction false} EventsRunOps(w: World, events: seq<Event>, timeout: int)
    requires EventsOk(w, events, timeout)
    ensures After(w, events, timeout).cache == CacheRuns.Run(w.cache, OpsOf(w, events, timeout), timeout)
    decreases |events|
  {
    hide EventOk, StepWorld, EventOps;
    if events != [] {
      var u := StepWorld(w, events[0], timeout);
      EventRunsOps(w, events[0], timeout);
      EventsRunOps(u, events[1..], timeout);
      RunAppend(w.cache, EventOps(w, events[0], timeout), OpsOf(u, events[1..], timeout), timeout);
    }
  }
}
