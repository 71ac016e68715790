// From a client's call to its answer: requests encoded by the client library,
// dispatched by the server, answered from its cache or database, and decoded.
module EndToEnd {
  import opened Bytes
  import opened Wrappers
  import opened Separated
  import opened CdbFormat
  import opened CdbFind
  import opened CdbRecord
  import opened CacheSpec
  import CacheRuns
  import opened Wire
  import opened Client
  import opened ServerSpec
  import opened History

  // ---- Several commands in one buffer ----

  predicate Sent(cs: seq<Command>) {
    forall i :: 0 <= i < |cs| ==> Sendable(cs[i])
  }

  function Encoded(cs: seq<Command>): seq<Text>
    requires Sent(cs)
  {
    seq(|cs|, i requires 0 <= i < |cs| => CommandFrame(cs[i]))
  }

  ghost function ObeyAll(s: Server, env: Env, cs: seq<Command>, next: Byte): (Server, Next)
    requires EnvOk(env) && Sent(cs)
    decreases |cs|
  {
    if cs == [] then (s, Continue)
    else
      var (u, o) := Obey(s, env, cs[0], FirstByte(Encoded(cs[1..]), next));
      if o == Continue then ObeyAll(u, env, cs[1..], next) else (u, o)
  }

  lemma DispatchObeys(s: Server, env: Env, c: Command, next: Byte)
    requires EnvOk(env) && Sendable(c)
    ensures Framed(CommandFrame(c), COMMAND_HEAD)
    ensures Dispatch(s, env, CommandFrame(c), next) == Obey(s, env, c, next)
  {
    hide EnvOk, Obey, CommandOf;
    CommandReads(c);
  }

  lemma {:induction false} ProcessObeys(s: Server, env: Env, cs: seq<Command>, next: Byte)
    requires EnvOk(env) && Sent(cs)
    ensures Commands(Encoded(cs))
    ensures Process(s, env, Encoded(cs), next) == ObeyAll(s, env, cs, next)
    decreases |cs|
  {
    hide EnvOk, Dispatch, Obey, CommandFrame, FirstByte;
    forall i | 0 <= i < |cs|
      ensures Framed(Encoded(cs)[i], COMMAND_HEAD)
    {
      DispatchObeys(s, env, cs[i], next);
    }
    if cs != [] {
      var after := FirstByte(Encoded(cs[1..]), next);
      DispatchObeys(s, env, cs[0], after);
      var (u, o) := Obey(s, env, cs[0], after);
      assert Encoded(cs)[1..] == Encoded(cs[1..]);
      if o == Continue {
        ProcessObeys(u, env, cs[1..], next);
      }
    }
  }

  // Any commands the client encodes, sent back to back in one buffer, are
  // dispatched as exactly those commands: in order, with their request ids and
  // arguments, until one of them fails or ends the connection.
  lemma ManyCommandsInOneBuffer(s: Server, env: Env, cs: seq<Command>, beyond: nat -> Byte)
    requires EnvOk(env) && Sent(cs)
    ensures var buf := Concat(Encoded(cs));
            && Covered(buf, beyond, 0, COMMAND_HEAD)
            && var (frames, end) := FramesAt(buf, beyond, 0, COMMAND_HEAD);
               && Commands(frames) && end == |buf|
               && Process(s, env, frames, beyond(end)) == ObeyAll(s, env, cs, beyond(end))
  {
    hide Dispatch, Obey, Process, ObeyAll, EnvOk, Commands, CommandFrame, Whole, Covered, FramesAt;
    var buf := Concat(Encoded(cs));
    ProcessObeys(s, env, cs, beyond(|buf|));
    EncodedFramed(cs);
    FramesOfConcat(Encoded(cs), COMMAND_HEAD);
    assert buf[0..] == buf;
    WholeIsCovered(buf, beyond, 0, COMMAND_HEAD);
  }

  lemma EncodedFramed(cs: seq<Command>)
    requires Sent(cs)
    ensures forall i :: 0 <= i < |cs| ==> Framed(Encoded(cs)[i], COMMAND_HEAD)
  {
    forall i | 0 <= i < |cs|
      ensures Framed(Encoded(cs)[i], COMMAND_HEAD)
    {
      CommandReads(cs[i]);
    }
  }

  // ---- Responses ----

  // What the client library makes of a response frame.
  function Decoded(f: Text): (Short, ErrCode, seq<Text>)
    requires Framed(f, RESPONSE_HEAD)
  {
    (FrameId(f), ErrCodeOf(f[4]), Split(f[5..], NASTSEP))
  }

  lemma ResponseSplits(reqid: Short, code: Byte, items: seq<Text>)
    requires FitsResponse(items)
    ensures var f := ItemsResponse(reqid, code, items);
            && Framed(f, RESPONSE_HEAD)
            && Decoded(f) == (reqid, ErrCodeOf(code), Split(Join(items, NASTSEP), NASTSEP))
  {
    hide Join, Split;
    ResponseReads(Response(reqid, code, Join(items, NASTSEP)));
  }

  // A list comes back as it was sent exactly when it has items and none holds a
  // separator; in particular no values at all come back as one empty value.
  lemma ResponseDecodes(reqid: Short, code: Byte, items: seq<Text>)
    requires FitsResponse(items)
    ensures var f := ItemsResponse(reqid, code, items);
            && Framed(f, RESPONSE_HEAD)
            && (Decoded(f) == (reqid, ErrCodeOf(code), items) <==> items != [] && SepFree(items, NASTSEP))
            && (items == [] ==> Decoded(f) == (reqid, ErrCodeOf(code), [[]]))
  {
    hide Join, Split, FieldLen, Decoded, ItemsResponse;
    ResponseSplits(reqid, code, items);
    JoinSplit(Join(items, NASTSEP), NASTSEP);
    if items != [] && SepFree(items, NASTSEP) {
      SplitJoin(items, NASTSEP);
    }
    if items == [] {
      EmptyText(NASTSEP);
      JoinCons([], [], NASTSEP);
    }
  }

  // ---- What a client updates is what a client gets ----

  // Keys and values that can be sent: C strings without a separator in the
  // key, and no separator in a value.
  ghost predicate Updatable(key: Text, vals: seq<Text>) {
    && 0 !in key && NASTSEP !in key && |key| <= 504
    && SepFree(vals, NASTSEP) && FitsRequest(key, vals)
  }

  // The update command, as the server reads it.
  lemma UpdateReads(key: Text, vals: seq<Text>)
    requires Updatable(key, vals)
    ensures var args := UpdateCommand(0, key, vals).args;
            && FieldLen(args, NASTSEP) == |key| < |args| && args[..|key|] == key
            && args[|key| + 1..] == Join(vals, NASTSEP)
  {
    hide Join;
    var args := UpdateCommand(0, key, vals).args;
    assert args[..|key|] == key;
    FieldLenIs(args, |key|, NASTSEP);
  }

  // What the client library takes for success.
  predicate SaysOk(f: Text) {
    Framed(f, RESPONSE_HEAD) && ErrCodeOf(f[4]) == NAST_OK
  }

  // What the server keeps of an update's values.
  function Kept(vals: seq<Text>): seq<Text> {
    Items(Join(vals, NASTSEP), NASTSEP)
  }

  // The server accepts an update exactly when its values make as many groups as
  // the database has fields, an empty value being taken together with the one
  // after it; otherwise it answers with an error and the cache is unchanged.
  lemma UpdateAccepted(s: Server, env: Env, reqid: Short, key: Text, vals: seq<Text>)
    requires EnvOk(env) && Updatable(key, vals)
    ensures var (u, o) := Obey(s, env, UpdateCommand(reqid, key, vals), 0);
            && o == Continue && |u.out| == |s.out| + 1 && u.out[..|s.out|] == s.out
            && u.sock == s.sock && u.opts == s.opts && u.waiting == s.waiting && u.busy == s.busy
            && Framed(u.out[|s.out|], RESPONSE_HEAD) && FrameId(u.out[|s.out|]) == reqid
            && (SaysOk(u.out[|s.out|]) <==> Groups(vals) == env.fieldcount)
            && u.cache == if Groups(vals) == env.fieldcount
                          then Update(s.cache, key, Kept(vals), env.now, env.timeout, env.fieldcount).0
                          else s.cache
    ensures |Kept(vals)| == Groups(vals) && AllNonEmpty(Kept(vals)) && (Kept(vals) == vals <==> AllNonEmpty(vals))
  {
    hide Join, Items, FieldLen, WellFormed, Message, Groups;
    UpdateReads(key, vals);
    ItemsOfAnyList(vals, NASTSEP);
    ItemsNonEmpty(Join(vals, NASTSEP), NASTSEP);
    ItemsOfJoined(vals, NASTSEP);
    JoinOfOne(Message("Couldn't update cache"), NASTSEP);
    ResponseReads(Response(reqid, NASTOK, []));
    ResponseReads(Response(reqid, NASTERR, Message("Couldn't update cache")));
  }

  lemma JoinOfOne(item: Text, sep: Byte)
    ensures Join([item], sep) == item && Join([], sep) == []
  {
  }

  // Three values, one of them empty, pass for the two fields of a database, and
  // the second field then holds a separator.
  lemma EmptyValueTaken()
    ensures var vals: seq<Text> := [[65], [], [66]];
            && Updatable([75], vals) && Groups(vals) == 2
            && Kept(vals) == [[65], [NASTSEP, 66]] && Survivors(vals) == vals
  {
    hide Items, Join, Groups, LosesLast;
    JoinedThree();
    GroupsOfThree();
    FirstItem(65, [], [NASTSEP, 66], NASTSEP);
    FirstItem(NASTSEP, [66], [], NASTSEP);
    assert [65] + [] + [NASTSEP] + [NASTSEP, 66] == [65, NASTSEP, NASTSEP, 66];
    assert [NASTSEP] + [66] == [NASTSEP, 66] && [65] + [] == [65];
  }

  lemma JoinedThree()
    ensures Join([[65], [], [66]], NASTSEP) == [65, NASTSEP, NASTSEP, 66]
  {
    hide Join;
    var vals: seq<Text> := [[65], [], [66]];
    assert vals[1..] == [[], [66]] && vals[2..] == [[66]] && vals[1..][1..] == vals[2..];
    JoinHead(vals, NASTSEP);
    JoinHead(vals[1..], NASTSEP);
  }

  lemma GroupsOfThree()
    ensures var vals: seq<Text> := [[65], [], [66]];
            Groups(vals) == 2 && Survivors(vals) == vals
  {
    var vals: seq<Text> := [[65], [], [66]];
    assert vals[1..] == [[], [66]] && vals[1..][2..] == [];
  }

  // A get of a key the cache has is answered from the cache.
  lemma GetAnswered(s: Server, env: Env, reqid: Short, key: Text, items: seq<Text>)
    requires EnvOk(env) && s.opts.use_qcache && !s.opts.always_fallthrough
    requires Get(s.cache, key, env.now, env.mtime).1 == Some(items) && FitsResponse(items)
    ensures var (u, o) := Obey(s, env, GetCommand(reqid, key), 0);
            && o == Continue && u.sock == s.sock
            && u.out == s.out + [ItemsResponse(reqid, NASTOK, items)]
  {
    hide WellFormed, LocalAnswer, FitsResponse, ItemsResponse, Get;
  }

  // A command of one connection.
  ghost function ObeyOn(w: World, k: Sock, env: Env, c: Command): World
    requires k in w.conns && EnvOk(env)
  {
    var (u, o) := Obey(View(w, k), env, c, 0);
    Put(w, u, o != Die)
  }

  // One frame more on connection k, and nothing on the others.
  ghost predicate Written(w: World, u: World, k: Sock) {
    && k in w.conns && u.conns.Keys == w.conns.Keys
    && |u.conns[k].out| == |w.conns[k].out| + 1 && u.conns[k].out[..|w.conns[k].out|] == w.conns[k].out
    && forall j :: j in w.conns && j != k ==> u.conns[j] == w.conns[j]
  }

  ghost function NewFrame(w: World, u: World, k: Sock): Text
    requires Written(w, u, k)
  {
    u.conns[k].out[|w.conns[k].out|]
  }

  // The frame says that all is well, and holds these values.
  ghost predicate AnsweredWith(w: World, u: World, k: Sock, reqid: Short, vals: seq<Text>) {
    && Written(w, u, k) && Framed(NewFrame(w, u, k), RESPONSE_HEAD)
    && Decoded(NewFrame(w, u, k)) == (reqid, NAST_OK, vals)
  }

  ghost predicate UsesCache(w: World, k: Sock) {
    k in w.conns && w.conns[k].opts.use_qcache && !w.conns[k].opts.always_fallthrough
  }

  // From u on, nothing is done about the key but gets and late answers.
  ghost predicate Quiet(u: World, events: seq<Event>, key: Text, timeout: int) {
    EventsOk(u, events, timeout) && CacheRuns.LeftAlone(OpsOf(u, events, timeout), key)
  }

  lemma CacheThenGet(w: World, k: Sock, env: Env, reqid: Short, key: Text, items: seq<Text>)
    requires EnvOk(env) && UsesCache(w, k)
    requires Get(w.cache, key, env.now, env.mtime).1 == Some(items) && FitsResponse(items)
    ensures AnsweredWith(w, ObeyOn(w, k, env, GetCommand(reqid, key)), k, reqid,
                         Split(Join(items, NASTSEP), NASTSEP))
  {
    hide Obey, Join, Split, EnvOk, FitsResponse, ItemsResponse, Decoded, Get;
    GetAnswered(View(w, k), env, reqid, key, items);
    ResponseSplits(reqid, NASTOK, items);
  }

  // The end-to-end promise.  One client updates a key.  If the server's answer is
  // OK, then after any history that does not update or delete the key, a get of
  // it by any client decodes to the values that were sent, but for a last empty
  // one if LosesLast says so, until the database file is newer than the update.
  lemma UpdateThenGet(w: World, a: Sock, env: Env, upd: Short, key: Text, vals: seq<Text>,
                      events: seq<Event>, later: Env, b: Sock, get: Short)
    requires EnvOk(env) && EnvOk(later) && later.timeout == env.timeout && env.fieldcount > 0
    requires Updatable(key, vals) && a in w.conns
    requires var u := ObeyOn(w, a, env, UpdateCommand(upd, key, vals));
             && Written(w, u, a) && SaysOk(NewFrame(w, u, a))
             && Quiet(u, events, key, env.timeout)
             && CacheRuns.NoNewerDatabase(OpsOf(u, events, env.timeout), key, later.mtime)
             && UsesCache(After(u, events, env.timeout), b)
    requires later.mtime <= env.now
    ensures var u := ObeyOn(w, a, env, UpdateCommand(upd, key, vals));
            var v := After(u, events, env.timeout);
            AnsweredWith(v, ObeyOn(v, b, later, GetCommand(get, key)), b, get, Survivors(vals))
    ensures AllNonEmpty(vals) ==> Survivors(vals) == vals
  {
    hide Obey, After, OpsOf, EventsOk, EnvOk, Join, Decoded, AllNonEmpty, SaysOk, Groups, Items, LosesLast, Split;
    hide CacheRuns.LeftAlone, CacheRuns.NoNewerDatabase, AnsweredWith, UsesCache;
    var u := ObeyOn(w, a, env, UpdateCommand(upd, key, vals));
    UpdateAccepted(View(w, a), env, upd, key, vals);
    EventsRunOps(u, events, env.timeout);
    CacheRuns.GetAfterUpdate(w.cache, OpsOf(u, events, env.timeout), key, Kept(vals), env.now,
                             later.now, later.mtime, env.timeout, env.fieldcount);
    KeptFits(key, vals);
    CacheThenGet(After(u, events, env.timeout), b, later, get, key, Kept(vals));
    SplitSurvivors(vals);
    if AllNonEmpty(vals) {
      NothingLost(vals);
    }
  }

  lemma KeptFits(key: Text, vals: seq<Text>)
    requires Updatable(key, vals)
    ensures FitsResponse(Kept(vals))
  {
    hide Join, Items;
    ItemsRejoined(Join(vals, NASTSEP), NASTSEP);
  }

  lemma SplitSurvivors(vals: seq<Text>)
    requires SepFree(vals, NASTSEP) && Groups(vals) > 0
    ensures Split(Join(Kept(vals), NASTSEP), NASTSEP) == Survivors(vals)
  {
    hide Join, Items, Split, LosesLast;
    ItemsOfAnyList(vals, NASTSEP);
    SplitJoin(Survivors(vals), NASTSEP);
  }

  // The same, from the buffers the clients send to what a caller gets when its
  // answer arrives, among any answers for other threads: the values, unless the
  // thread's id is the one that marks an empty slot.
  lemma WhatIsUpdatedIsGot(w: World, a: Sock, env: Env, upd: Short, key: Text, vals: seq<Text>,
                           events: seq<Event>, later: Env, b: Sock, get: Short,
                           slots: seq<Slot>, before: seq<Arrival>, after: seq<Arrival>)
    requires EnvOk(later) && later.timeout == env.timeout && env.fieldcount > 0
    requires Updatable(key, vals)
    requires get != 0 && ForOthers(before, get) && ForOthers(after, get)
    requires var sent := Received(a, env, [CommandFrame(UpdateCommand(upd, key, vals))], 0);
             && EventOk(w, sent, env.timeout)
             && var u := StepWorld(w, sent, env.timeout);
                && Written(w, u, a) && SaysOk(NewFrame(w, u, a))
                && Quiet(u, events, key, env.timeout)
                && CacheRuns.NoNewerDatabase(OpsOf(u, events, env.timeout), key, later.mtime)
                && UsesCache(After(u, events, env.timeout), b)
                && After(u, events, env.timeout).conns[b].open
    requires later.mtime <= env.now
    ensures var u := StepWorld(w, Received(a, env, [CommandFrame(UpdateCommand(upd, key, vals))], 0), env.timeout);
            var v, query := After(u, events, env.timeout), Received(b, later, [CommandFrame(GetCommand(get, key))], 0);
            && EventOk(v, query, env.timeout)
            && var x := StepWorld(v, query, env.timeout);
               && Written(v, x, b) && Framed(NewFrame(v, x, b), RESPONSE_HEAD)
               && FrameId(NewFrame(v, x, b)) == get
               && var all := before + [ArrivalOf(NewFrame(v, x, b))] + after;
                  && Addressed(all)
                  && (Got(DeliverAll(Prepared(slots, get), all), get) == Some((NAST_OK, Survivors(vals)))
                      <==> get != NO_RESPONSE)
  {
    hide Obey, After, OpsOf, EventsOk, EnvOk, Join, SaysOk, Split, Got, DeliverAll, Process, LosesLast;
    hide CacheRuns.LeftAlone, CacheRuns.NoNewerDatabase, ForOthers, Addressed, Commands, Written, UsesCache;
    OneCommand(w, a, env, UpdateCommand(upd, key, vals));
    var u := ObeyOn(w, a, env, UpdateCommand(upd, key, vals));
    var v := After(u, events, env.timeout);
    UpdateThenGet(w, a, env, upd, key, vals, events, later, b, get);
    assert b in v.conns && v.conns[b].open by { InConns(v, b); }
    OneCommand(v, b, later, GetCommand(get, key));
    var x := ObeyOn(v, b, later, GetCommand(get, key));
    var f := NewFrame(v, x, b);
    assert ArrivalOf(f) == Arrival(get, f[4], Some(f[5..]));
    assert (get, ErrCodeOf(f[4]), Split(f[5..], NASTSEP)) == (get, NAST_OK, Survivors(vals));
    GotAmongOthers(slots, ArrivalOf(f), before, after);
  }

  lemma InConns(w: World, k: Sock)
    requires UsesCache(w, k)
    ensures k in w.conns
  {
  }

  // A command alone in its buffer.
  lemma OneCommand(w: World, k: Sock, env: Env, c: Command)
    requires k in w.conns && w.conns[k].open && EnvOk(env) && Sendable(c)
    ensures var e := Received(k, env, [CommandFrame(c)], 0);
            EventOk(w, e, env.timeout) && StepWorld(w, e, env.timeout) == ObeyOn(w, k, env, c)
  {
    hide EnvOk, Obey, CommandFrame, Dispatch, Process;
    OneFrame(View(w, k), env, c);
  }

  lemma OneFrame(s: Server, env: Env, c: Command)
    requires EnvOk(env) && Sendable(c)
    ensures Commands([CommandFrame(c)])
    ensures Process(s, env, [CommandFrame(c)], 0) == Obey(s, env, c, 0)
  {
    hide EnvOk, Obey, CommandFrame, Dispatch;
    DispatchObeys(s, env, c, 0);
    assert [CommandFrame(c)][1..] == [];
  }

  // ---- What the database stores is what a client gets ----

  // A key that is not in the cache but in a well-formed database is answered
  // with the fields of its first record, if they fit into a response.
  lemma DatabaseThenGet(s: Server, env: Env, reqid: Short, key: Text)
    requires EnvOk(env) && Get(s.cache, key, env.now, env.mtime).1 == None
    requires s.opts.use_localdb && !s.opts.always_fallthrough
    requires Stored(env.image, key) && Searchable(env.image, key)
    ensures Lookup(env.image, key).Some?
    ensures var fields := Split(Lookup(env.image, key).value, env.sep);
            FitsResponse(fields) && SepFree(fields, NASTSEP) ==>
              var (u, o) := Obey(s, env, GetCommand(reqid, key), 0);
              && o == Continue && |u.out| == |s.out| + 1
              && Framed(u.out[|s.out|], RESPONSE_HEAD)
              && Decoded(u.out[|s.out|]) == (reqid, NAST_OK, fields)
  {
    hide Join, Split, WellFormed, Lookup, Stored, FitsResponse, ItemsResponse, Decoded, SepFree, Get;
    LookupFindsStored(env.image, key);
    var fields := Split(Lookup(env.image, key).value, env.sep);
    if FitsResponse(fields) && SepFree(fields, NASTSEP) {
      ResponseDecodes(reqid, NASTOK, fields);
    }
  }

  // A get is queued, with nothing written, exactly when the cache misses the
  // key and the database does not store it or cannot be searched for it.
  lemma MissIsQueued(s: Server, env: Env, reqid: Short, key: Text)
    requires EnvOk(env) && s.opts.use_qcache && s.opts.use_localdb
    requires !s.opts.always_fallthrough && !s.opts.no_fallthrough && |s.waiting| != env.maxitems
    ensures var (u, o) := Obey(s, env, GetCommand(reqid, key), 0);
            (u.out == s.out && u.waiting == s.waiting + [Pending(s.sock, reqid, key)] && o == Continue) <==>
              && Get(s.cache, key, env.now, env.mtime).1 == None
              && !(Stored(env.image, key) && Searchable(env.image, key))
  {
    hide Join, WellFormed, Lookup, Stored, FitsResponse, ItemsResponse, Get;
    LookupFindsStored(env.image, key);
  }

  // ---- What the fallthrough answers is what clients get ----

  // The fallthrough's answer is written to the connection that asked, and to no
  // other; and unless the key has been updated meanwhile, it is then served to
  // every client like an update, whatever else comes between.
  lemma FallthroughThenGet(w: World, env: Env, i: nat, vals: seq<Text>,
                           events: seq<Event>, later: Env, b: Sock, get: Short)
    requires EnvOk(later) && later.timeout == env.timeout
    requires EventOk(w, Answered(env, i, Some(vals)), env.timeout)
    requires w.conns[w.busy[i].sock].open && 0 !in w.busy[i].key
    requires FitsResponse(vals) && vals != [] && SepFree(vals, NASTSEP)
    ensures var req, u := w.busy[i], StepWorld(w, Answered(env, i, Some(vals)), env.timeout);
            && AnsweredWith(w, u, req.sock, req.reqid, vals)
            && ((req.key in w.cache ==> Replaceable(w.cache[req.key]))
                && Quiet(u, events, req.key, env.timeout) && later.mtime <= env.now
                && CacheRuns.NoNewerDatabase(OpsOf(u, events, env.timeout), req.key, later.mtime)
                && UsesCache(After(u, events, env.timeout), b) ==>
                  var v := After(u, events, env.timeout);
                  AnsweredWith(v, ObeyOn(v, b, later, GetCommand(get, req.key)), b, get, vals))
  {
    hide Join, Split, EnvOk, Obey, FitsResponse, ItemsResponse, Decoded, SepFree, After, OpsOf, EventsOk;
    hide CacheRuns.LeftAlone, CacheRuns.NoNewerDatabase, UsesCache;
    var req, u := w.busy[i], StepWorld(w, Answered(env, i, Some(vals)), env.timeout);
    ResponseDecodes(req.reqid, NASTOK, vals);
    WholeCString(req.key);
    if && (req.key in w.cache ==> Replaceable(w.cache[req.key]))
       && Quiet(u, events, req.key, env.timeout) && later.mtime <= env.now
       && CacheRuns.NoNewerDatabase(OpsOf(u, events, env.timeout), req.key, later.mtime)
       && UsesCache(After(u, events, env.timeout), b) {
      EventsRunOps(u, events, env.timeout);
      CacheRuns.GetAfterAdd(w.cache, OpsOf(u, events, env.timeout), req.key, vals, env.now,
                            later.now, later.mtime, env.timeout);
      CacheThenGet(After(u, events, env.timeout), b, later, get, req.key, vals);
      SplitJoin(vals, NASTSEP);
    }
  }

  lemma WholeCString(key: Text)
    requires 0 !in key
    ensures CString(key) == key
  {
    FieldLenIs(key, |key|, 0);
    assert key[..|key|] == key;
  }

  // An answer without values is cached too: until it expires a get is answered
  // with it, which decodes as one empty value, and from then on the cache has
  // nothing, as long as the fallthrough has not been asked again.
  lemma EmptyAnswerExpires(w: World, env: Env, i: nat, events: seq<Event>, later: Env, b: Sock, get: Short)
    requires EnvOk(later) && later.timeout == env.timeout
    requires EventOk(w, Answered(env, i, Some([])), env.timeout)
    requires w.conns[w.busy[i].sock].open && 0 !in w.busy[i].key
    requires w.busy[i].key in w.cache ==> Replaceable(w.cache[w.busy[i].key])
    requires var key, u := w.busy[i].key, StepWorld(w, Answered(env, i, Some([])), env.timeout);
             && Quiet(u, events, key, env.timeout)
             && CacheRuns.NotAdded(OpsOf(u, events, env.timeout), key)
             && CacheRuns.AskedBefore(OpsOf(u, events, env.timeout), key, later.now)
             && UsesCache(After(u, events, env.timeout), b)
    ensures var key, u := w.busy[i].key, StepWorld(w, Answered(env, i, Some([])), env.timeout);
            var v := After(u, events, env.timeout);
            if later.now < env.now + env.timeout
            then AnsweredWith(v, ObeyOn(v, b, later, GetCommand(get, key)), b, get, [[]])
            else Get(v.cache, key, later.now, later.mtime).1 == None
  {
    hide EnvOk, Obey, ItemsResponse, Decoded, After, OpsOf, EventsOk, UsesCache, Split, Join, AnsweredWith;
    hide CacheRuns.LeftAlone, CacheRuns.NotAdded, CacheRuns.AskedBefore, Get;
    var key, u := w.busy[i].key, StepWorld(w, Answered(env, i, Some([])), env.timeout);
    WholeCString(key);
    NothingFits();
    EventsRunOps(u, events, env.timeout);
    CacheRuns.GetAfterEmptyAdd(w.cache, OpsOf(u, events, env.timeout), key, env.now,
                               later.now, later.mtime, env.timeout);
    if later.now < env.now + env.timeout {
      CacheThenGet(After(u, events, env.timeout), b, later, get, key, []);
      EmptyText(NASTSEP);
      JoinCons([], [], NASTSEP);
    }
  }

  lemma NothingFits()
    ensures FitsResponse([])
  {
  }
}
