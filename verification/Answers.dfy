// What the server answers, in the bytes of the protocol: for each command the code
// and the data of its response, under every setting of the options, and what else
// it changes.
module Answers {
  import opened Bytes
  import opened Wrappers
  import opened Separated
  import opened CdbFormat
  import opened CdbFind
  import opened CdbRecord
  import opened CacheSpec
  import opened Wire
  import Client
  import opened ServerSpec
  import opened History

  // A frame as the client library sends it: 255, the code, the arguments.
  predicate IsCommand(f: Text, code: Byte) {
    Framed(f, 6) && f[4] == 255 && f[5] == code
  }

  // One more frame with the request id, the code and the data.
  ghost predicate Wrote(s: Server, u: Server, reqid: Short, code: Byte, data: Text) {
    && |u.out| == |s.out| + 1 && u.out[..|s.out|] == s.out
    && var f := u.out[|s.out|];
       Framed(f, 5) && FrameId(f) == reqid && f[4] == code && f[5..] == data
  }

  // Queue, workers and options are as they were.
  ghost predicate RestKept(s: Server, u: Server) {
    u.sock == s.sock && u.opts == s.opts && u.waiting == s.waiting && u.busy == s.busy
  }

  // What the client library makes of such a frame.
  lemma WroteDecodes(s: Server, u: Server, reqid: Short, code: Byte, data: Text)
    requires Wrote(s, u, reqid, code, data)
    ensures var a := Client.ArrivalOf(u.out[|s.out|]);
            && a.reqid == reqid && a.data == Some(data)
            && Client.ErrCodeOf(a.code) == (if code == 241 then Client.NAST_OK
                                            else if code == 242 then Client.NAST_SERVER_ERR
                                            else Client.NAST_UNKNOWN_RESPONSE)
  {
  }

  lemma NoValues()
    ensures Join([], 252) == [] && Split([], 252) == [[]]
  {
    EmptyText(252);
  }

  lemma MessageIs(m: string)
    requires forall i :: 0 <= i < |m| ==> m[i] as int < 128
    ensures |Message(m)| == |m| && forall i :: 0 <= i < |m| ==> Message(m)[i] == m[i] as int
  {
  }

  lemma SendIs(s: Server, reqid: Short, code: Byte, items: seq<Text>)
    ensures var (u, ok) := Send(s, reqid, code, items);
            && RestKept(s, u) && u.cache == s.cache
            && (ok <==> 5 + |Join(items, 252)| <= 1024)
            && if ok then Wrote(s, u, reqid, code, Join(items, 252)) else u.out == s.out
  {
    hide Join;
    if 5 + |Join(items, 252)| <= 1024 {
      ResponseReads(Response(reqid, code, Join(items, NASTSEP)));
    }
  }

  lemma ErrorIs(s: Server, reqid: Short, message: string)
    requires |message| <= 32
    ensures var (u, ok) := SendError(s, reqid, message);
            ok && RestKept(s, u) && u.cache == s.cache && Wrote(s, u, reqid, 242, Message(message))
  {
    hide Send, Message, Wrote, RestKept;
    SendIs(s, reqid, NASTERR, [Message(message)]);
    JoinOne(Message(message), 252);
  }

  // ---- Get ----

  // The values in the cache, and the fields in the database, for a connection that
  // looks there.
  ghost function Cached(s: Server, env: Env, key: Text): Option<seq<Text>> {
    if s.opts.use_qcache && !s.opts.always_fallthrough then Get(s.cache, key, env.now, env.mtime).1 else None
  }

  ghost predicate InDatabase(s: Server, env: Env, key: Text)
    requires EnvOk(env)
  {
    && s.opts.use_localdb && !s.opts.always_fallthrough && Stored(env.image, key)
    && (|key| <= 32 || |key| % 32 == 0) && |env.image| < 2147483648
  }

  ghost predicate Missed(s: Server, env: Env, key: Text)
    requires EnvOk(env)
  {
    Cached(s, env, key) == None && !InDatabase(s, env, key)
  }

  // An answer that is there is sent as it is, or fails as too long.
  ghost predicate Sent(s: Server, u: Server, o: Next, reqid: Short, vals: seq<Text>) {
    && RestKept(s, u)
    && if 5 + |Join(vals, 252)| <= 1024 then o == Continue && Wrote(s, u, reqid, 241, Join(vals, 252))
       else o == Fail && u.out == s.out
  }

  // Only looking in the cache changes it.
  ghost predicate CacheLooked(s: Server, u: Server, env: Env, key: Text) {
    u.cache == if s.opts.use_qcache && !s.opts.always_fallthrough
               then Get(s.cache, key, env.now, env.mtime).0 else s.cache
  }

  lemma GetIsAnswered(s: Server, env: Env, f: Text, next: Byte)
    requires EnvOk(env) && IsCommand(f, 4)
    ensures var (u, o) := Dispatch(s, env, f, next);
            var key, reqid := f[6..], FrameId(f);
            && CacheLooked(s, u, env, key)
            && (Cached(s, env, key).Some? ==> Sent(s, u, o, reqid, Cached(s, env, key).value))
            && (Cached(s, env, key) == None && InDatabase(s, env, key) ==>
                  Lookup(env.image, key).Some?
                  && Sent(s, u, o, reqid, Split(Lookup(env.image, key).value, env.sep)))
            && (Missed(s, env, key) && s.opts.no_fallthrough ==>
                  o == Continue && RestKept(s, u) && Wrote(s, u, reqid, 241, []))
            && (Missed(s, env, key) && !s.opts.no_fallthrough && |s.waiting| == env.maxitems ==>
                  o == Fail && RestKept(s, u) && Wrote(s, u, reqid, 242, Message("Couldn't add req to FQM")))
            && (Missed(s, env, key) && !s.opts.no_fallthrough && |s.waiting| != env.maxitems ==>
                  && o == Continue && u.out == s.out && u.opts == s.opts && u.busy == s.busy
                  && u.waiting == s.waiting + [Pending(s.sock, reqid, key)])
  {
    hide WellFormed, Send, Get, Lookup, Stored, Join, Split, Message, Searchable;
    var key, reqid := f[6..], FrameId(f);
    var t := s.(cache := if s.opts.use_qcache && !s.opts.always_fallthrough
                         then Get(s.cache, key, env.now, env.mtime).0 else s.cache);
    LookupFindsStored(env.image, key);
    SearchableIs(env.image, key);
    NoValues();
    ErrorIs(t, reqid, "Couldn't add req to FQM");
    SendIs(t, reqid, 241, []);
    if Cached(s, env, key).Some? {
      SendIs(t, reqid, 241, Cached(s, env, key).value);
    } else if InDatabase(s, env, key) {
      SendIs(t, reqid, 241, Split(Lookup(env.image, key).value, env.sep));
    }
  }

  // ---- Update ----

  lemma UpdateIsAnswered(s: Server, env: Env, f: Text, next: Byte)
    requires EnvOk(env) && IsCommand(f, 3)
    ensures var (u, o) := Dispatch(s, env, f, next);
            && o == Continue && RestKept(s, u)
            && (252 !in f[6..] ==>
                  u.cache == s.cache && Wrote(s, u, FrameId(f), 242, Message("Need values for update")))
  {
    hide WellFormed, Send, Update, Join, Message, Items, FieldLen;
    var reqid, args := FrameId(f), f[6..];
    NoValues();
    ErrorIs(s, reqid, "Need values for update");
    if 252 !in args {
      assert args[..|args|] == args;
      FieldLenIs(args, |args|, 252);
    }
    var keylen := FieldLen(args, 252);
    if keylen < |args| {
      var t := s.(cache := Update(s.cache, args[..keylen], Items(args[keylen + 1..], 252),
                                  env.now, env.timeout, env.fieldcount).0);
      ErrorIs(t, reqid, "Couldn't update cache");
      SendIs(t, reqid, 241, []);
    }
  }

  lemma UpdateIsDone(s: Server, env: Env, f: Text, key: Text, rest: Text, next: Byte)
    requires EnvOk(env) && IsCommand(f, 3) && 252 !in key && f[6..] == key + [252] + rest
    ensures var (u, o) := Dispatch(s, env, f, next);
            var vals := Items(rest, 252);
            if |vals| == env.fieldcount then
              && Wrote(s, u, FrameId(f), 241, [])
              && u.cache == Update(s.cache, key, vals, env.now, env.timeout, env.fieldcount).0
            else
              && Wrote(s, u, FrameId(f), 242, Message("Couldn't update cache"))
              && u.cache == s.cache
  {
    hide WellFormed, Send, Join, Message, Items, FieldLen;
    var reqid, args := FrameId(f), f[6..];
    NoValues();
    assert args[..|key|] == key && args[|key| + 1..] == rest;
    FieldLenIs(args, |key|, 252);
    var t := s.(cache := Update(s.cache, key, Items(rest, 252), env.now, env.timeout, env.fieldcount).0);
    hide Update;
    WrongCount(s.cache, key, Items(rest, 252), env.now, env.timeout, env.fieldcount);
    ErrorIs(t, reqid, "Couldn't update cache");
    SendIs(t, reqid, 241, []);
  }

  lemma WrongCount(m: Cache, key: Text, vals: seq<Text>, now: Time, timeout: int, fieldcount: int)
    ensures Update(m, key, vals, now, timeout, fieldcount).1 <==> |vals| == fieldcount
    ensures |vals| != fieldcount ==> Update(m, key, vals, now, timeout, fieldcount).0 == m
  {
  }

  // ---- The other commands ----

  lemma StatsAreAnswered(s: Server, env: Env, f: Text, next: Byte)
    requires EnvOk(env) && IsCommand(f, 32)
    ensures var (u, o) := Dispatch(s, env, f, next);
            u.cache == s.cache && Sent(s, u, o, FrameId(f), env.stats)
  {
    hide EnvOk, Send, Join;
    SendIs(s, FrameId(f), 241, env.stats);
  }

  function Bit(b: bool): Byte {
    if b then 1 else 0
  }

  lemma OptionsAreAnswered(s: Server, env: Env, f: Text, next: Byte)
    requires EnvOk(env) && IsCommand(f, 16)
    ensures var (u, o) := Dispatch(s, env, f, next);
            && o == Continue && RestKept(s, u) && u.cache == s.cache
            && Wrote(s, u, FrameId(f), 241,
                     [1, Bit(s.opts.use_qcache), 2, Bit(s.opts.use_localdb), 3, Bit(s.opts.fallthrough_async),
                      4, Bit(s.opts.always_fallthrough), 5, Bit(s.opts.fail_once), 7, Bit(s.opts.no_fallthrough)])
  {
    hide EnvOk, Send, Join;
    JoinOne(OptionBytes(s.opts), 252);
    SendIs(s, FrameId(f), 241, [OptionBytes(s.opts)]);
  }

  predicate Known(option: Byte) {
    1 <= option <= 5 || option == 7
  }

  lemma SettingIsAnswered(s: Server, env: Env, f: Text, next: Byte)
    requires EnvOk(env) && IsCommand(f, 17)
    ensures var (u, o) := Dispatch(s, env, f, next);
            && u.sock == s.sock && u.cache == s.cache && u.waiting == s.waiting && u.busy == s.busy
            && u.opts == SetOptions(s.opts, f[6..], next).0
            && if SetOptions(s.opts, f[6..], next).1 then o == Continue && Wrote(s, u, FrameId(f), 241, [])
               else o == Fail && Wrote(s, u, FrameId(f), 242, Message("Sent unknown option"))
  {
    hide EnvOk, Send, Join, Message, SetOptions;
    var t := s.(opts := SetOptions(s.opts, f[6..], next).0);
    NoValues();
    ErrorIs(t, FrameId(f), "Sent unknown option");
    SendIs(t, FrameId(f), 241, []);
  }

  // Adds and deletes are only logged; a die command ends the connection; anything
  // else is an error, and none of these is answered.
  lemma OthersAreNotAnswered(s: Server, env: Env, f: Text, next: Byte)
    requires EnvOk(env) && Framed(f, 6)
    ensures IsCommand(f, 1) || IsCommand(f, 2) ==> Dispatch(s, env, f, next) == (s, Continue)
    ensures IsCommand(f, 15) ==> Dispatch(s, env, f, next) == (s, Die)
    ensures f[4] != 255 ==> Dispatch(s, env, f, next) == (s, Fail)
    ensures f[5] !in {1, 2, 3, 4, 15, 16, 17, 32} ==> Dispatch(s, env, f, next) == (s, Fail)
  {
    hide EnvOk;
  }

  // ---- Options ----

  // Each option is set by its own code, to anything but 0; an unknown one is not.
  lemma OneOption(o: Options, v: Byte, next: Byte)
    ensures SetOptions(o, [1, v], next) == (o.(use_qcache := v != 0), true)
    ensures SetOptions(o, [2, v], next) == (o.(use_localdb := v != 0), true)
    ensures SetOptions(o, [3, v], next) == (o.(fallthrough_async := v != 0), true)
    ensures SetOptions(o, [4, v], next) == (o.(always_fallthrough := v != 0), true)
    ensures SetOptions(o, [5, v], next) == (o.(fail_once := v != 0), true)
    ensures SetOptions(o, [7, v], next) == (o.(no_fallthrough := v != 0), true)
  {
  }

  lemma UnknownOption(o: Options, option: Byte, v: Byte, next: Byte)
    ensures !Known(option) ==> SetOptions(o, [option, v], next) == (o, false)
    ensures Known(option) ==> SetOptions(o, [option, v], next).1
    ensures SetOptions(o, [], next) == (o, true)
  {
  }

  // Pair after pair, up to the first unknown one.
  lemma OptionsInTurn(o: Options, option: Byte, v: Byte, rest: Text, next: Byte)
    ensures var (p, ok) := SetOptions(o, [option, v], next);
            SetOptions(o, [option, v] + rest, next) == if ok then SetOptions(p, rest, next) else (p, false)
  {
    var t := [option, v] + rest;
    assert t[2..] == rest && [option, v][2..] == [];
  }

  // One option set as in o, then the rest.
  lemma NextOption(o: Options, p: Options, q: Options, option: Byte, flag: bool, rest: Text, next: Byte)
    requires SetOptions(p, [option, Bit(flag)], next) == (q, true)
    requires SetOptions(q, rest, next) == (o, true)
    ensures SetOptions(p, [option, Bit(flag)] + rest, next) == (o, true)
  {
    hide SetOptions;
    OptionsInTurn(p, option, Bit(flag), rest, next);
  }

  lemma LastOptions(o: Options, p: Options, next: Byte)
    requires p.use_qcache == o.use_qcache && p.use_localdb == o.use_localdb && p.fallthrough_async == o.fallthrough_async
    ensures SetOptions(p, [4, Bit(o.always_fallthrough)] + ([5, Bit(o.fail_once)] + [7, Bit(o.no_fallthrough)]), next) == (o, true)
  {
    hide SetOptions;
    var q := p.(always_fallthrough := o.always_fallthrough);
    var r := q.(fail_once := o.fail_once);
    OneOption(p, Bit(o.always_fallthrough), next);
    OneOption(q, Bit(o.fail_once), next);
    OneOption(r, Bit(o.no_fallthrough), next);
    NextOption(o, q, r, 5, o.fail_once, [7, Bit(o.no_fallthrough)], next);
    NextOption(o, p, q, 4, o.always_fallthrough, [5, Bit(o.fail_once)] + [7, Bit(o.no_fallthrough)], next);
  }

  lemma FirstOptions(o: Options, p: Options, rest: Text, next: Byte)
    requires forall q: Options ::
               q.use_qcache == o.use_qcache && q.use_localdb == o.use_localdb && q.fallthrough_async == o.fallthrough_async ==>
                 SetOptions(q, rest, next) == (o, true)
    ensures SetOptions(p, [1, Bit(o.use_qcache)] + ([2, Bit(o.use_localdb)] + ([3, Bit(o.fallthrough_async)] + rest)), next) == (o, true)
  {
    hide SetOptions;
    var q := p.(use_qcache := o.use_qcache);
    var r := q.(use_localdb := o.use_localdb);
    var s := r.(fallthrough_async := o.fallthrough_async);
    OneOption(p, Bit(o.use_qcache), next);
    OneOption(q, Bit(o.use_localdb), next);
    OneOption(r, Bit(o.fallthrough_async), next);
    NextOption(o, r, s, 3, o.fallthrough_async, rest, next);
    NextOption(o, q, r, 2, o.use_localdb, [3, Bit(o.fallthrough_async)] + rest, next);
    NextOption(o, p, q, 1, o.use_qcache, [2, Bit(o.use_localdb)] + ([3, Bit(o.fallthrough_async)] + rest), next);
  }

  lemma OptionPairs(o: Options)
    ensures OptionBytes(o) ==
            [1, Bit(o.use_qcache)] + ([2, Bit(o.use_localdb)] + ([3, Bit(o.fallthrough_async)] +
            ([4, Bit(o.always_fallthrough)] + ([5, Bit(o.fail_once)] + [7, Bit(o.no_fallthrough)]))))
  {
  }

  // Sending the server what it says its options are changes nothing, and makes any
  // other connection the same.
  lemma OptionsRoundTrip(o: Options, p: Options, next: Byte)
    ensures SetOptions(p, OptionBytes(o), next) == (o, true)
  {
    hide SetOptions, Bit, OptionBytes;
    var rest: Text := [4, Bit(o.always_fallthrough)] + ([5, Bit(o.fail_once)] + [7, Bit(o.no_fallthrough)]);
    OptionPairs(o);
    forall q: Options | q.use_qcache == o.use_qcache && q.use_localdb == o.use_localdb && q.fallthrough_async == o.fallthrough_async
      ensures SetOptions(q, rest, next) == (o, true)
    {
      LastOptions(o, q, next);
    }
    FirstOptions(o, p, rest, next);
  }

  // A new connection looks in the cache and in the database, and then falls through.
  lemma NewConnection(w: World, k: Sock, timeout: int)
    requires EventOk(w, Opened(k), timeout)
    ensures var c := StepWorld(w, Opened(k), timeout).conns[k];
            && c.open && c.out == []
            && c.opts.use_qcache && c.opts.use_localdb
            && !c.opts.fallthrough_async && !c.opts.always_fallthrough && !c.opts.fail_once && !c.opts.no_fallthrough
  {
    hide EnvOk, Process, DoFallthrough;
  }

  // ---- The fallthrough ----

  lemma CStringIs(k: Text, rest: Text)
    requires 0 !in k
    ensures CString(k) == k && CString(k + [0] + rest) == k
  {
    hide FieldLen;
    assert k[..|k|] == k && (k + [0] + rest)[..|k|] == k;
    FieldLenIs(k, |k|, 0);
    FieldLenIs(k + [0] + rest, |k|, 0);
  }

  // No answer of the SQL server is an empty answer to the client, and is not
  // cached; an answer is, under the key up to its first NUL, if it could be sent.
  lemma FallthroughIsAnswered(s: Server, env: Env, i: nat, answer: Option<seq<Text>>)
    requires i < |s.busy|
    ensures var u := DoFallthrough(s, env, i, answer);
            var reqid, key := s.busy[i].reqid, s.busy[i].key;
            && u.sock == s.sock && u.opts == s.opts && u.waiting == s.waiting
            && u.busy == s.busy[..i] + s.busy[i + 1..]
            && (answer == None ==> Wrote(s, u, reqid, 241, []) && u.cache == s.cache)
            && (answer.Some? && 5 + |Join(answer.value, 252)| <= 1024 ==>
                  && Wrote(s, u, reqid, 241, Join(answer.value, 252))
                  && u.cache == Add(s.cache, CString(key), answer.value, env.now, env.timeout))
            && (answer.Some? && 5 + |Join(answer.value, 252)| > 1024 ==> u.out == s.out && u.cache == s.cache)
  {
    hide Send, Join, Add, CString;
    var t := s.(busy := s.busy[..i] + s.busy[i + 1..]);
    NoValues();
    SendIs(t, s.busy[i].reqid, 241, []);
    if answer.Some? {
      SendIs(t, s.busy[i].reqid, 241, answer.value);
    }
  }
}
