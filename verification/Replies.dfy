// Who is answered.  A command that asks is answered, or waits for the fallthrough,
// exactly when its own answer fits into a response and every command before it in
// its buffer goes on; the others are lost.
module Replies {
  import opened Bytes
  import opened Wrappers
  import opened Separated
  import opened CdbFormat
  import opened CdbRecord
  import opened CacheSpec
  import opened Wire
  import opened ServerSpec
  import opened History

  // Commands that ask for an answer; adds and deletes do not, nor does what the
  // server does not know.
  predicate Asks(f: Text)
    requires Framed(f, COMMAND_HEAD)
  {
    && f[4] == NASTCMD
    && (f[5] == NASTGET || f[5] == NASTUPD || f[5] == NASTSTATS || f[5] == NASTOPTSET || f[5] == NASTOPTGET)
  }

  // What a get is answered at once, if it is.
  ghost function AtOnce(s: Server, env: Env, key: Text): Option<seq<Text>>
    requires EnvOk(env)
  {
    var cached := if s.opts.use_qcache && !s.opts.always_fallthrough
                  then Get(s.cache, key, env.now, env.mtime).1 else None;
    var local := if !s.opts.always_fallthrough && s.opts.use_localdb
                 then LocalAnswer(env.image, env.sep, key) else None;
    if cached.Some? then cached
    else if local.Some? then local
    else if s.opts.no_fallthrough then Some([])
    else None
  }

  // The answer there is does not fit into a response.
  ghost predicate TooLong(s: Server, env: Env, f: Text)
    requires EnvOk(env) && Framed(f, COMMAND_HEAD)
  {
    f[4] == NASTCMD &&
    if f[5] == NASTSTATS then !FitsResponse(env.stats)
    else if f[5] == NASTGET then AtOnce(s, env, f[6..]).Some? && !FitsResponse(AtOnce(s, env, f[6..]).value)
    else false
  }

  predicate KnownOption(option: Byte) {
    || option == OPTQCACHE || option == OPTLOCALDB || option == OPTFALLASYNC
    || option == OPTALWAYSFALL || option == OPTFAILONCE || option == OPTNOFALLTHROUGH
  }

  predicate KnownOptions(args: Text) {
    forall i :: 0 <= i < |args| && i % 2 == 0 ==> KnownOption(args[i])
  }

  lemma {:induction false} OptionsTaken(o: Options, args: Text, next: Byte)
    ensures SetOptions(o, args, next).1 <==> KnownOptions(args)
    decreases |args|
  {
    if args != [] {
      var first := SetOption(o, args[0], if |args| > 1 then args[1] else next);
      if first.Some? && |args| > 1 {
        OptionsTaken(first.value, args[2..], next);
        assert forall i :: 0 <= i < |args| - 2 ==> args[2..][i] == args[i + 2];
        assert KnownOptions(args) <==> KnownOption(args[0]) && KnownOptions(args[2..]) by {
          if KnownOption(args[0]) && KnownOptions(args[2..]) {
            forall i | 0 <= i < |args| && i % 2 == 0
              ensures KnownOption(args[i])
            {
              assert i >= 2 ==> args[i] == args[2..][i - 2];
            }
          }
          if KnownOptions(args) {
            forall i | 0 <= i < |args| - 2 && i % 2 == 0
              ensures KnownOption(args[2..][i])
            {
              assert args[2..][i] == args[i + 2] && (i + 2) % 2 == 0;
            }
          }
        }
      }
    }
  }

  // Whether process_cmd goes on after a frame: it knows the command, an option
  // set knows its options, a get that nobody can answer at once finds room in the
  // queue, and the answer fits.
  ghost predicate GoesOn(s: Server, env: Env, f: Text)
    requires EnvOk(env) && Framed(f, COMMAND_HEAD)
  {
    && f[4] == NASTCMD && f[5] != NASTDIE && (Asks(f) || f[5] == NASTADD || f[5] == NASTDEL)
    && (f[5] == NASTOPTSET ==> KnownOptions(f[6..]))
    && (f[5] == NASTGET && AtOnce(s, env, f[6..]) == None ==> |s.waiting| != env.maxitems)
    && !TooLong(s, env, f)
  }

  // The command that ends the connection.
  predicate SaysDie(f: Text)
    requires Framed(f, COMMAND_HEAD)
  {
    f[4] == NASTCMD && f[5] == NASTDIE
  }

  // One frame with the request id has been written.
  ghost predicate Replied(s: Server, u: Server, reqid: Short) {
    && |u.out| == |s.out| + 1 && u.out[..|s.out|] == s.out && u.waiting == s.waiting
    && Framed(u.out[|s.out|], RESPONSE_HEAD) && FrameId(u.out[|s.out|]) == reqid
  }

  // The request has been queued for the fallthrough.
  ghost predicate Deferred(s: Server, u: Server, reqid: Short, key: Text) {
    u.out == s.out && u.waiting == s.waiting + [Pending(s.sock, reqid, key)]
  }

  ghost predicate Unanswered(s: Server, u: Server) {
    u.out == s.out && u.waiting == s.waiting
  }

  // Neither handler nor loop takes requests from a worker.
  ghost predicate SameRest(s: Server, u: Server) {
    u.sock == s.sock && u.busy == s.busy
  }

  lemma SendReplies(s: Server, reqid: Short, code: Byte, items: seq<Text>)
    ensures var (u, ok) := Send(s, reqid, code, items);
            && ok == FitsResponse(items) && SameRest(s, u) && u.cache == s.cache
            && if ok then Replied(s, u, reqid) else Unanswered(s, u)
  {
    hide Join;
    if FitsResponse(items) {
      ResponseReads(Response(reqid, code, Join(items, NASTSEP)));
    }
  }

  // The server's own messages fit.
  lemma ErrorReplies(s: Server, reqid: Short, message: string)
    requires |message| <= 32
    ensures var (u, ok) := SendError(s, reqid, message);
            ok && SameRest(s, u) && Replied(s, u, reqid)
  {
    hide Send, Replied, Message, SameRest;
    SendReplies(s, reqid, NASTERR, [Message(message)]);
  }

  lemma NothingFits()
    ensures FitsResponse([])
  {
  }

  lemma GetReplies(s: Server, env: Env, reqid: Short, key: Text)
    requires EnvOk(env)
    ensures var (u, ok) := DoGet(s, env, reqid, key);
            var answer := AtOnce(s, env, key);
            && SameRest(s, u)
            && (answer == None ==> if |s.waiting| != env.maxitems then ok && Deferred(s, u, reqid, key)
                                   else !ok && Replied(s, u, reqid))
            && (answer.Some? ==> if FitsResponse(answer.value) then ok && Replied(s, u, reqid)
                                 else !ok && Unanswered(s, u))
  {
    hide WellFormed, Send, Get, LocalAnswer, FitsResponse;
    var cached := s.opts.use_qcache && !s.opts.always_fallthrough;
    var u := s.(cache := if cached then Get(s.cache, key, env.now, env.mtime).0 else s.cache);
    ErrorReplies(u, reqid, "Couldn't add req to FQM");
    if AtOnce(s, env, key).Some? {
      SendReplies(u, reqid, NASTOK, AtOnce(s, env, key).value);
    }
  }

  lemma UpdateReplies(s: Server, env: Env, reqid: Short, args: Text)
    ensures var (u, ok) := DoUpdate(s, env, reqid, args);
            ok && SameRest(s, u) && Replied(s, u, reqid)
  {
    hide Send, Update, Items, FieldLen, Message;
    NothingFits();
    hide FitsResponse;
    var keylen := FieldLen(args, NASTSEP);
    if keylen == |args| {
      ErrorReplies(s, reqid, "Need values for update");
    } else {
      var m := Update(s.cache, args[..keylen], Items(args[keylen + 1..], NASTSEP),
                      env.now, env.timeout, env.fieldcount).0;
      ErrorReplies(s.(cache := m), reqid, "Couldn't update cache");
      SendReplies(s.(cache := m), reqid, NASTOK, []);
    }
  }

  lemma OptSetReplies(s: Server, reqid: Short, args: Text, next: Byte)
    ensures var (u, ok) := DoOptSet(s, reqid, args, next);
            (ok <==> KnownOptions(args)) && SameRest(s, u) && Replied(s, u, reqid)
  {
    hide Send, SetOptions, Message, KnownOptions;
    NothingFits();
    hide FitsResponse;
    OptionsTaken(s.opts, args, next);
    var o := SetOptions(s.opts, args, next).0;
    ErrorReplies(s.(opts := o), reqid, "Sent unknown option");
    SendReplies(s.(opts := o), reqid, NASTOK, []);
  }

  lemma OptionsFit(o: Options)
    ensures FitsResponse([OptionBytes(o)])
  {
  }

  // Every command that asks is answered in one of the two ways, with its own
  // request id, or fails because its answer is too long; no other is answered.
  // And when the loop goes on can be told from the command and the state.
  lemma OneReply(s: Server, env: Env, f: Text, next: Byte)
    requires EnvOk(env) && Framed(f, COMMAND_HEAD)
    ensures var (u, o) := Dispatch(s, env, f, next);
            && SameRest(s, u)
            && (if Asks(f) && !TooLong(s, env, f)
                then Replied(s, u, FrameId(f)) || (f[5] == NASTGET && Deferred(s, u, FrameId(f), f[6..]))
                else Unanswered(s, u))
            && (o == Continue <==> GoesOn(s, env, f))
            && (o == Die <==> SaysDie(f))
  {
    hide EnvOk, Send, FitsResponse, DoGet, DoUpdate, DoOptSet, AtOnce, OptionBytes, Replied, Deferred, KnownOptions;
    if f[4] == NASTCMD {
      var reqid := FrameId(f);
      if f[5] == NASTGET {
        GetReplies(s, env, reqid, f[6..]);
      } else if f[5] == NASTUPD {
        UpdateReplies(s, env, reqid, f[6..]);
      } else if f[5] == NASTOPTSET {
        OptSetReplies(s, reqid, f[6..], next);
      } else if f[5] == NASTOPTGET {
        OptionsFit(s.opts);
        SendReplies(s, reqid, NASTOK, [OptionBytes(s.opts)]);
      } else if f[5] == NASTSTATS {
        SendReplies(s, reqid, NASTOK, env.stats);
      }
    }
  }

  // Requests are queued behind those that wait.
  lemma {:induction false} QueueGrows(s: Server, env: Env, frames: seq<Text>, next: Byte)
    requires EnvOk(env) && Commands(frames)
    ensures s.waiting <= Process(s, env, frames, next).0.waiting
    decreases |frames|
  {
    hide EnvOk, Dispatch, GoesOn, SaysDie, TooLong, Framed;
    if frames != [] {
      var after := FirstByte(frames[1..], next);
      OneReply(s, env, frames[0], after);
      QueueGrows(Dispatch(s, env, frames[0], after).0, env, frames[1..], next);
    }
  }

  // ---- Which commands of a buffer are served ----

  // The server when the loop comes to frame i, if no frame before it stops it.
  ghost function StateAt(s: Server, env: Env, frames: seq<Text>, next: Byte, i: nat): Option<Server>
    requires EnvOk(env) && Commands(frames) && i < |frames|
    decreases i
  {
    if i == 0 then Some(s)
    else
      var (u, o) := Dispatch(s, env, frames[0], FirstByte(frames[1..], next));
      if o == Continue then StateAt(u, env, frames[1..], next, i - 1) else None
  }

  // Every frame before frame i goes on, and its own answer fits.
  ghost predicate Served(s: Server, env: Env, frames: seq<Text>, next: Byte, i: nat)
    requires EnvOk(env) && Commands(frames) && i < |frames|
  {
    && (forall j :: 0 <= j < i ==> Passed(s, env, frames, next, j))
    && match StateAt(s, env, frames, next, i)
       case None => false
       case Some(t) => !TooLong(t, env, frames[i])
  }

  ghost predicate Passed(s: Server, env: Env, frames: seq<Text>, next: Byte, j: nat)
    requires EnvOk(env) && Commands(frames) && j < |frames|
  {
    match StateAt(s, env, frames, next, j)
    case None => false
    case Some(t) => GoesOn(t, env, frames[j])
  }

  lemma PassedLater(s: Server, env: Env, frames: seq<Text>, next: Byte, j: nat)
    requires EnvOk(env) && Commands(frames) && 0 < j < |frames|
    ensures var (u, o) := Dispatch(s, env, frames[0], FirstByte(frames[1..], next));
            Passed(s, env, frames, next, j) <==> o == Continue && Passed(u, env, frames[1..], next, j - 1)
  {
    hide EnvOk, Dispatch, GoesOn;
    assert frames[1..][j - 1] == frames[j];
  }

  lemma PassedFirst(s: Server, env: Env, frames: seq<Text>, next: Byte)
    requires EnvOk(env) && Commands(frames) && frames != []
    ensures Passed(s, env, frames, next, 0) <==>
            Dispatch(s, env, frames[0], FirstByte(frames[1..], next)).1 == Continue
  {
    hide EnvOk, Dispatch, GoesOn, Replied, Deferred, TooLong;
    OneReply(s, env, frames[0], FirstByte(frames[1..], next));
  }

  // The loop comes to a frame exactly when all before it go on.
  lemma {:induction false} ReachedIffPassed(s: Server, env: Env, frames: seq<Text>, next: Byte, i: nat)
    requires EnvOk(env) && Commands(frames) && i < |frames|
    ensures StateAt(s, env, frames, next, i).Some? <==> forall j :: 0 <= j < i ==> Passed(s, env, frames, next, j)
    decreases i
  {
    hide EnvOk, Dispatch, Passed;
    if i > 0 {
      var rest := frames[1..];
      var (u, o) := Dispatch(s, env, frames[0], FirstByte(rest, next));
      PassedFirst(s, env, frames, next);
      if o == Continue {
        ReachedIffPassed(u, env, rest, next, i - 1);
        if StateAt(s, env, frames, next, i).Some? {
          forall j | 0 <= j < i
            ensures Passed(s, env, frames, next, j)
          {
            if j > 0 {
              PassedLater(s, env, frames, next, j);
            }
          }
        } else {
          var j :| 0 <= j < i - 1 && !Passed(u, env, rest, next, j);
          PassedLater(s, env, frames, next, j + 1);
        }
      }
    }
  }

  // ---- How a buffer ends ----

  ghost predicate Reached(s: Server, env: Env, frames: seq<Text>, next: Byte, i: nat)
    requires EnvOk(env) && Commands(frames) && i < |frames|
  {
    forall j :: 0 <= j < i ==> Passed(s, env, frames, next, j)
  }

  ghost predicate DieReached(s: Server, env: Env, frames: seq<Text>, next: Byte)
    requires EnvOk(env) && Commands(frames)
  {
    exists i :: 0 <= i < |frames| && Reached(s, env, frames, next, i) && SaysDie(frames[i])
  }

  ghost predicate StopReached(s: Server, env: Env, frames: seq<Text>, next: Byte)
    requires EnvOk(env) && Commands(frames)
  {
    exists i :: 0 <= i < |frames| && Reached(s, env, frames, next, i) && !Passed(s, env, frames, next, i)
                && !SaysDie(frames[i])
  }

  lemma ReachedFirst(s: Server, env: Env, frames: seq<Text>, next: Byte)
    requires EnvOk(env) && Commands(frames) && frames != []
    ensures Reached(s, env, frames, next, 0)
    ensures Passed(s, env, frames, next, 0) <==>
            Dispatch(s, env, frames[0], FirstByte(frames[1..], next)).1 == Continue
    ensures SaysDie(frames[0]) <==> Dispatch(s, env, frames[0], FirstByte(frames[1..], next)).1 == Die
  {
    hide EnvOk, Dispatch, GoesOn, Replied, Deferred, TooLong;
    OneReply(s, env, frames[0], FirstByte(frames[1..], next));
  }

  lemma ReachedLater(s: Server, env: Env, frames: seq<Text>, next: Byte, i: nat)
    requires EnvOk(env) && Commands(frames) && 0 < i < |frames|
    ensures var (u, o) := Dispatch(s, env, frames[0], FirstByte(frames[1..], next));
            && (Reached(s, env, frames, next, i) <==> o == Continue && Reached(u, env, frames[1..], next, i - 1))
            && (Passed(s, env, frames, next, i) <==> o == Continue && Passed(u, env, frames[1..], next, i - 1))
            && frames[1..][i - 1] == frames[i]
  {
    hide EnvOk, Dispatch, Passed;
    var (u, o) := Dispatch(s, env, frames[0], FirstByte(frames[1..], next));
    PassedLater(s, env, frames, next, i);
    ReachedIffPassed(s, env, frames, next, i);
    ReachedIffPassed(u, env, frames[1..], next, i - 1);
  }

  lemma EndsSplit(s: Server, env: Env, frames: seq<Text>, next: Byte)
    requires EnvOk(env) && Commands(frames) && frames != []
    ensures var (u, o) := Dispatch(s, env, frames[0], FirstByte(frames[1..], next));
            && (DieReached(s, env, frames, next) <==>
                  o == Die || (o == Continue && DieReached(u, env, frames[1..], next)))
            && (StopReached(s, env, frames, next) <==>
                  o == Fail || (o == Continue && StopReached(u, env, frames[1..], next)))
  {
    hide EnvOk, Dispatch, Passed, Reached, SaysDie;
    var rest := frames[1..];
    var (u, o) := Dispatch(s, env, frames[0], FirstByte(rest, next));
    ReachedFirst(s, env, frames, next);
    forall i | 0 < i < |frames|
      ensures Reached(s, env, frames, next, i) <==> o == Continue && Reached(u, env, rest, next, i - 1)
      ensures Passed(s, env, frames, next, i) <==> o == Continue && Passed(u, env, rest, next, i - 1)
      ensures rest[i - 1] == frames[i]
    {
      ReachedLater(s, env, frames, next, i);
    }
    if o == Continue && DieReached(u, env, rest, next) {
      var i :| 0 <= i < |rest| && Reached(u, env, rest, next, i) && SaysDie(rest[i]);
      assert Reached(s, env, frames, next, i + 1);
    }
    if o == Continue && StopReached(u, env, rest, next) {
      var i :| 0 <= i < |rest| && Reached(u, env, rest, next, i) && !Passed(u, env, rest, next, i) && !SaysDie(rest[i]);
      assert Reached(s, env, frames, next, i + 1);
    }
  }

  // A buffer ends the connection exactly when the loop comes to a frame that says
  // so, and fails exactly when it comes to another that stops it.
  lemma {:induction false} ProcessEnds(s: Server, env: Env, frames: seq<Text>, next: Byte)
    requires EnvOk(env) && Commands(frames)
    ensures Process(s, env, frames, next).1 == Die <==> DieReached(s, env, frames, next)
    ensures Process(s, env, frames, next).1 == Fail <==> StopReached(s, env, frames, next)
    decreases |frames|
  {
    hide EnvOk, Dispatch, DieReached, StopReached;
    if frames == [] {
      NothingReached(s, env, next);
    } else {
      EndsSplit(s, env, frames, next);
      var (u, o) := Dispatch(s, env, frames[0], FirstByte(frames[1..], next));
      if o == Continue {
        ProcessEnds(u, env, frames[1..], next);
      }
    }
  }

  lemma NothingReached(s: Server, env: Env, next: Byte)
    requires EnvOk(env)
    ensures !DieReached(s, env, [], next) && !StopReached(s, env, [], next)
  {
  }

  lemma ServedFirst(s: Server, env: Env, frames: seq<Text>, next: Byte)
    requires EnvOk(env) && Commands(frames) && frames != []
    ensures Served(s, env, frames, next, 0) <==> !TooLong(s, env, frames[0])
  {
    hide EnvOk, TooLong;
  }

  // Served behind the first frame.
  lemma ServedLater(s: Server, env: Env, frames: seq<Text>, next: Byte, i: nat)
    requires EnvOk(env) && Commands(frames) && 0 < i < |frames|
    ensures var (u, o) := Dispatch(s, env, frames[0], FirstByte(frames[1..], next));
            Served(s, env, frames, next, i) <==>
              o == Continue && Served(u, env, frames[1..], next, i - 1)
  {
    hide EnvOk, Dispatch, GoesOn, TooLong, Passed;
    var (u, o) := Dispatch(s, env, frames[0], FirstByte(frames[1..], next));
    ReachedIffPassed(s, env, frames, next, i);
    ReachedIffPassed(u, env, frames[1..], next, i - 1);
    assert frames[1..][i - 1] == frames[i];
  }

  // ---- The account of one buffer ----

  // The request ids of the frames written, and of one connection's requests that
  // are waiting or with a worker.
  function WrittenIds(out: seq<Text>): multiset<Short> {
    if out == [] then multiset{}
    else WrittenIds(out[..|out| - 1]) + multiset{if |out[|out| - 1]| >= 4 then FrameId(out[|out| - 1]) else 0}
  }

  function PendingIds(reqs: seq<Pending>, k: Sock): multiset<Short> {
    if reqs == [] then multiset{}
    else (if reqs[0].sock == k then multiset{reqs[0].reqid} else multiset{}) + PendingIds(reqs[1..], k)
  }

  function OwnIds(s: Server): multiset<Short> {
    WrittenIds(s.out) + PendingIds(s.waiting, s.sock) + PendingIds(s.busy, s.sock)
  }

  lemma {:induction false} PendingAppend(a: seq<Pending>, b: seq<Pending>, k: Sock)
    ensures PendingIds(a + b, k) == PendingIds(a, k) + PendingIds(b, k)
  {
    if a == [] {
      assert a + b == b;
    } else {
      assert (a + b)[1..] == a[1..] + b;
      PendingAppend(a[1..], b, k);
    }
  }

  lemma PendingOne(r: Pending, k: Sock)
    ensures PendingIds([r], k) == if r.sock == k then multiset{r.reqid} else multiset{}
  {
  }

  // The ids of the commands that asked, and of those that are not replied to.
  datatype Account = Account(asked: multiset<Short>, lost: multiset<Short>)

  const NOTHING := Account(multiset{}, multiset{})

  function Both(a: Account, b: Account): Account {
    Account(a.asked + b.asked, a.lost + b.lost)
  }

  // Of frames that the loop never comes to.
  ghost function DroppedIds(frames: seq<Text>): multiset<Short>
    requires Commands(frames)
  {
    if frames == [] then multiset{}
    else (if Asks(frames[0]) then multiset{FrameId(frames[0])} else multiset{}) + DroppedIds(frames[1..])
  }

  ghost function FrameAccount(s: Server, env: Env, f: Text): Account
    requires EnvOk(env) && Framed(f, COMMAND_HEAD)
  {
    if !Asks(f) then NOTHING
    else Account(multiset{FrameId(f)}, if TooLong(s, env, f) then multiset{FrameId(f)} else multiset{})
  }

  ghost function ProcessAccount(s: Server, env: Env, frames: seq<Text>, next: Byte): Account
    requires EnvOk(env) && Commands(frames)
    decreases |frames|
  {
    if frames == [] then NOTHING
    else
      var (u, o) := Dispatch(s, env, frames[0], FirstByte(frames[1..], next));
      Both(FrameAccount(s, env, frames[0]),
           if o == Continue then ProcessAccount(u, env, frames[1..], next)
           else Account(DroppedIds(frames[1..]), DroppedIds(frames[1..])))
  }

  // All that ask are counted, whether the loop comes to them or not.
  lemma {:induction false} AllCounted(s: Server, env: Env, frames: seq<Text>, next: Byte)
    requires EnvOk(env) && Commands(frames)
    ensures ProcessAccount(s, env, frames, next).asked == DroppedIds(frames)
    decreases |frames|
  {
    hide EnvOk, Dispatch, TooLong;
    if frames != [] {
      var (u, o) := Dispatch(s, env, frames[0], FirstByte(frames[1..], next));
      if o == Continue {
        AllCounted(u, env, frames[1..], next);
      }
    }
  }

  ghost predicate AllServed(s: Server, env: Env, frames: seq<Text>, next: Byte)
    requires EnvOk(env) && Commands(frames)
  {
    forall i :: 0 <= i < |frames| && Asks(frames[i]) ==> Served(s, env, frames, next, i)
  }

  ghost predicate NoneAsks(frames: seq<Text>)
    requires Commands(frames)
  {
    forall i :: 0 <= i < |frames| ==> !Asks(frames[i])
  }

  lemma {:induction false} NoneDropped(frames: seq<Text>)
    requires Commands(frames)
    ensures DroppedIds(frames) == multiset{} <==> NoneAsks(frames)
  {
    hide Asks;
    if frames != [] {
      NoneDropped(frames[1..]);
      assert forall i :: 0 <= i < |frames| - 1 ==> frames[1..][i] == frames[i + 1];
      if NoneAsks(frames[1..]) && !Asks(frames[0]) {
        forall i | 0 <= i < |frames|
          ensures !Asks(frames[i])
        {
          assert i > 0 ==> frames[i] == frames[1..][i - 1];
        }
      }
    }
  }

  lemma AllServedSplit(s: Server, env: Env, frames: seq<Text>, next: Byte)
    requires EnvOk(env) && Commands(frames) && frames != []
    ensures var (u, o) := Dispatch(s, env, frames[0], FirstByte(frames[1..], next));
            AllServed(s, env, frames, next) <==>
              && (Asks(frames[0]) ==> !TooLong(s, env, frames[0]))
              && if o == Continue then AllServed(u, env, frames[1..], next) else NoneAsks(frames[1..])
  {
    hide EnvOk, Dispatch, TooLong, Served, Asks;
    var rest := frames[1..];
    var (u, o) := Dispatch(s, env, frames[0], FirstByte(rest, next));
    ServedFirst(s, env, frames, next);
    if AllServed(s, env, frames, next) {
      forall i | 0 <= i < |rest|
        ensures Asks(rest[i]) ==> o == Continue && Served(u, env, rest, next, i)
      {
        assert rest[i] == frames[i + 1];
        ServedLater(s, env, frames, next, i + 1);
      }
    } else {
      var i :| 0 <= i < |frames| && Asks(frames[i]) && !Served(s, env, frames, next, i);
      if i > 0 {
        assert rest[i - 1] == frames[i];
        ServedLater(s, env, frames, next, i);
      }
    }
  }

  // None is lost exactly when all that ask are served.
  lemma {:induction false} NoneLost(s: Server, env: Env, frames: seq<Text>, next: Byte)
    requires EnvOk(env) && Commands(frames)
    ensures ProcessAccount(s, env, frames, next).lost == multiset{} <==> AllServed(s, env, frames, next)
    decreases |frames|
  {
    hide EnvOk, Dispatch, TooLong, Served, Asks;
    if frames != [] {
      var (u, o) := Dispatch(s, env, frames[0], FirstByte(frames[1..], next));
      AllServedSplit(s, env, frames, next);
      var first := FrameAccount(s, env, frames[0]).lost;
      if o == Continue {
        NoneLost(u, env, frames[1..], next);
        EmptySum(first, ProcessAccount(u, env, frames[1..], next).lost);
      } else {
        NoneDropped(frames[1..]);
        EmptySum(first, DroppedIds(frames[1..]));
      }
    }
  }

  lemma EmptySum(a: multiset<Short>, b: multiset<Short>)
    ensures a + b == multiset{} <==> a == multiset{} && b == multiset{}
  {
    if a + b == multiset{} {
      assert forall x :: (a + b)[x] == a[x] + b[x];
    }
  }

  // ---- Own replies balance ----

  // The replies of u, written or to come, are those of s and one for each command
  // that asked, but for those lost.
  ghost predicate Balanced(s: Server, u: Server, a: Account) {
    u.sock == s.sock && OwnIds(u) + a.lost == OwnIds(s) + a.asked
  }

  lemma BalancedThen(s: Server, u: Server, v: Server, a: Account, b: Account)
    requires Balanced(s, u, a) && Balanced(u, v, b)
    ensures Balanced(s, v, Both(a, b))
  {
    hide OwnIds;
    assert OwnIds(v) + (a.lost + b.lost) == (OwnIds(v) + b.lost) + a.lost;
    assert OwnIds(u) + b.asked + a.lost == (OwnIds(u) + a.lost) + b.asked;
    assert (OwnIds(s) + a.asked) + b.asked == OwnIds(s) + (a.asked + b.asked);
  }

  lemma NothingMore(s: Server, a: Account)
    ensures Both(a, NOTHING) == a && Balanced(s, s, NOTHING)
  {
  }

  lemma DroppedBalance(s: Server, ids: multiset<Short>)
    ensures Balanced(s, s, Account(ids, ids))
  {
  }

  lemma ReplyBalances(s: Server, u: Server, reqid: Short)
    requires SameRest(s, u) && Replied(s, u, reqid)
    ensures OwnIds(u) == OwnIds(s) + multiset{reqid}
  {
    assert u.out[..|u.out| - 1] == s.out;
  }

  lemma FrameBalances(s: Server, env: Env, f: Text, next: Byte)
    requires EnvOk(env) && Framed(f, COMMAND_HEAD)
    ensures Balanced(s, Dispatch(s, env, f, next).0, FrameAccount(s, env, f))
  {
    hide EnvOk, Dispatch, TooLong, GoesOn, Replied, WrittenIds, PendingIds;
    OneReply(s, env, f, next);
    var u := Dispatch(s, env, f, next).0;
    if Asks(f) && !TooLong(s, env, f) {
      if Replied(s, u, FrameId(f)) {
        ReplyBalances(s, u, FrameId(f));
      } else {
        var r := Pending(s.sock, FrameId(f), f[6..]);
        PendingAppend(s.waiting, [r], s.sock);
        PendingOne(r, s.sock);
      }
    }
  }

  lemma {:induction false} ProcessBalances(s: Server, env: Env, frames: seq<Text>, next: Byte)
    requires EnvOk(env) && Commands(frames)
    ensures Balanced(s, Process(s, env, frames, next).0, ProcessAccount(s, env, frames, next))
    decreases |frames|
  {
    hide EnvOk, Dispatch, FrameAccount, OwnIds, Balanced, DroppedIds, Both;
    if frames == [] {
      NothingMore(s, NOTHING);
    } else {
      var after := FirstByte(frames[1..], next);
      FrameBalances(s, env, frames[0], after);
      var (u, o) := Dispatch(s, env, frames[0], after);
      var first := FrameAccount(s, env, frames[0]);
      if o == Continue {
        ProcessBalances(u, env, frames[1..], next);
        BalancedThen(s, u, Process(u, env, frames[1..], next).0, first, ProcessAccount(u, env, frames[1..], next));
      } else {
        DroppedBalance(u, DroppedIds(frames[1..]));
        BalancedThen(s, u, u, first, Account(DroppedIds(frames[1..]), DroppedIds(frames[1..])));
      }
    }
  }

  // What one connection sends leaves the replies owed to the others alone.
  ghost predicate OthersSame(s: Server, u: Server, k: Sock) {
    u.sock == s.sock && PendingIds(u.waiting, k) == PendingIds(s.waiting, k) && u.busy == s.busy
  }

  lemma {:induction false} ProcessLeavesOthers(s: Server, env: Env, frames: seq<Text>, next: Byte, k: Sock)
    requires EnvOk(env) && Commands(frames) && k != s.sock
    ensures OthersSame(s, Process(s, env, frames, next).0, k)
    decreases |frames|
  {
    hide EnvOk, Dispatch, TooLong, GoesOn, PendingIds, Replied;
    if frames != [] {
      var after := FirstByte(frames[1..], next);
      OneReply(s, env, frames[0], after);
      var (u, o) := Dispatch(s, env, frames[0], after);
      if Deferred(s, u, FrameId(frames[0]), frames[0][6..]) {
        var r := Pending(s.sock, FrameId(frames[0]), frames[0][6..]);
        PendingAppend(s.waiting, [r], k);
        PendingOne(r, k);
      } else {
        assert Replied(s, u, FrameId(frames[0])) ==> u.waiting == s.waiting by { RepliedWaits(s, u, FrameId(frames[0])); }
      }
      if o == Continue {
        ProcessLeavesOthers(u, env, frames[1..], next, k);
      }
    }
  }

  lemma RepliedWaits(s: Server, u: Server, reqid: Short)
    ensures Replied(s, u, reqid) ==> u.waiting == s.waiting
  {
  }

  // ---- One command of a buffer ----

  lemma {:induction false} CountedOnce(s: Server, env: Env, frames: seq<Text>, next: Byte, i: nat)
    requires EnvOk(env) && Commands(frames) && i < |frames| && Asks(frames[i]) && OnlyOne(frames, i)
    ensures var a := ProcessAccount(s, env, frames, next);
            a.asked[FrameId(frames[i])] == 1
            && a.lost[FrameId(frames[i])] == if Served(s, env, frames, next, i) then 0 else 1
    decreases i
  {
    hide EnvOk, Dispatch, TooLong, Served, Asks;
    var rest, r := frames[1..], FrameId(frames[i]);
    var (u, o) := Dispatch(s, env, frames[0], FirstByte(rest, next));
    if i == 0 {
      ServedFirst(s, env, frames, next);
      assert NotAsked(rest, r) by {
        assert forall j :: 0 <= j < |rest| ==> rest[j] == frames[j + 1];
      }
      NotDropped(rest, r);
      if o == Continue {
        NotCounted(u, env, rest, next, r);
      }
    } else {
      ServedLater(s, env, frames, next, i);
      assert rest[i - 1] == frames[i];
      assert OnlyOne(rest, i - 1) by {
        assert forall j :: 0 <= j < |rest| ==> rest[j] == frames[j + 1];
      }
      if o == Continue {
        CountedOnce(u, env, rest, next, i - 1);
      } else {
        DroppedOnce(rest, i - 1);
      }
    }
  }

  // No other command that asks has the request id of command i.
  ghost predicate OnlyOne(frames: seq<Text>, i: nat)
    requires Commands(frames) && i < |frames|
  {
    forall j :: 0 <= j < |frames| && j != i && Asks(frames[j]) ==> FrameId(frames[j]) != FrameId(frames[i])
  }

  ghost predicate NotAsked(frames: seq<Text>, r: Short)
    requires Commands(frames)
  {
    forall j :: 0 <= j < |frames| && Asks(frames[j]) ==> FrameId(frames[j]) != r
  }

  lemma {:induction false} NotDropped(frames: seq<Text>, r: Short)
    requires Commands(frames) && NotAsked(frames, r)
    ensures DroppedIds(frames)[r] == 0
  {
    hide Asks;
    if frames != [] {
      assert forall j :: 0 <= j < |frames| - 1 ==> frames[1..][j] == frames[j + 1];
      NotDropped(frames[1..], r);
    }
  }

  lemma {:induction false} DroppedOnce(frames: seq<Text>, i: nat)
    requires Commands(frames) && i < |frames| && Asks(frames[i]) && OnlyOne(frames, i)
    ensures DroppedIds(frames)[FrameId(frames[i])] == 1
    decreases i
  {
    hide Asks;
    var rest := frames[1..];
    assert forall j :: 0 <= j < |rest| ==> rest[j] == frames[j + 1];
    if i == 0 {
      NotDropped(rest, FrameId(frames[0]));
    } else {
      DroppedOnce(rest, i - 1);
    }
  }

  lemma {:induction false} NotCounted(s: Server, env: Env, frames: seq<Text>, next: Byte, r: Short)
    requires EnvOk(env) && Commands(frames) && NotAsked(frames, r)
    ensures ProcessAccount(s, env, frames, next).asked[r] == 0
    ensures ProcessAccount(s, env, frames, next).lost[r] == 0
    decreases |frames|
  {
    hide EnvOk, Dispatch, TooLong, Asks;
    if frames != [] {
      var rest := frames[1..];
      var (u, o) := Dispatch(s, env, frames[0], FirstByte(rest, next));
      assert forall j :: 0 <= j < |rest| ==> rest[j] == frames[j + 1];
      NotDropped(rest, r);
      if o == Continue {
        NotCounted(u, env, rest, next, r);
      }
    }
  }

  lemma {:induction false} ProcessKeepsSock(s: Server, env: Env, frames: seq<Text>, next: Byte)
    requires EnvOk(env) && Commands(frames)
    ensures Process(s, env, frames, next).0.sock == s.sock
    decreases |frames|
  {
    hide EnvOk, Dispatch, TooLong, GoesOn, Replied, Deferred;
    if frames != [] {
      OneReply(s, env, frames[0], FirstByte(frames[1..], next));
      var (u, o) := Dispatch(s, env, frames[0], FirstByte(frames[1..], next));
      if o == Continue {
        ProcessKeepsSock(u, env, frames[1..], next);
      }
    }
  }

  // A request out of the middle of those with a worker.
  lemma PendingWithout(busy: seq<Pending>, i: nat, k: Sock)
    requires i < |busy|
    ensures PendingIds(busy, k) == PendingIds(busy[..i] + busy[i + 1..], k) +
                                   if busy[i].sock == k then multiset{busy[i].reqid} else multiset{}
  {
    hide PendingIds;
    assert busy == busy[..i] + ([busy[i]] + busy[i + 1..]);
    PendingAppend(busy[..i], [busy[i]] + busy[i + 1..], k);
    PendingAppend([busy[i]], busy[i + 1..], k);
    PendingAppend(busy[..i], busy[i + 1..], k);
    PendingOne(busy[i], k);
  }

  // What a worker's answer writes.
  lemma AnswerWrites(s: Server, env: Env, i: nat, answer: Option<seq<Text>>)
    requires i < |s.busy|
    ensures var u := DoFallthrough(s, env, i, answer);
            && u.sock == s.sock && u.waiting == s.waiting && u.busy == s.busy[..i] + s.busy[i + 1..]
            && WrittenIds(u.out) == WrittenIds(s.out) +
               if answer.Some? ==> FitsResponse(answer.value) then multiset{s.busy[i].reqid} else multiset{}
  {
    hide Send, FitsResponse, WrittenIds, Add, CString;
    NothingFits();
    var v := s.(busy := s.busy[..i] + s.busy[i + 1..]);
    var items := if answer.Some? then answer.value else [];
    SendReplies(v, s.busy[i].reqid, NASTOK, items);
    if FitsResponse(items) {
      WrittenMore(v.out, Send(v, s.busy[i].reqid, NASTOK, items).0.out, s.busy[i].reqid);
    }
  }

  lemma WrittenMore(out: seq<Text>, more: seq<Text>, reqid: Short)
    requires |more| == |out| + 1 && more[..|out|] == out
    requires Framed(more[|out|], RESPONSE_HEAD) && FrameId(more[|out|]) == reqid
    ensures WrittenIds(more) == WrittenIds(out) + multiset{reqid}
  {
  }

  // An option the server does not know makes it drop the rest of the buffer: the
  // command behind it is neither answered nor kept.
  lemma CommandIsDropped(s: Server, env: Env, reqid: Short, behind: Text)
    requires EnvOk(env) && Framed(behind, COMMAND_HEAD) && Asks(behind)
    ensures var bad := CommandFrame(Command(reqid, NASTOPTSET, [6, 1]));
            && Commands([bad, behind])
            && !Served(s, env, [bad, behind], 0, 1)
            && ProcessAccount(s, env, [bad, behind], 0) ==
               Account(multiset{reqid, FrameId(behind)}, multiset{FrameId(behind)})
            && Replied(s, Process(s, env, [bad, behind], 0).0, reqid)
  {
    hide EnvOk, Dispatch, Asks, Replied, TooLong, Deferred, CommandFrame, Served, GoesOn;
    var bad := CommandFrame(Command(reqid, NASTOPTSET, [6, 1]));
    var frames: seq<Text> := [bad, behind];
    BadOption(s, env, reqid);
    assert frames[1..] == [behind];
    var after := FirstByte(frames[1..], 0);
    OneReply(s, env, bad, after);
    ServedLater(s, env, frames, 0, 1);
    DroppedOne(behind);
    assert multiset{reqid} + multiset{FrameId(behind)} == multiset{reqid, FrameId(behind)};
    assert multiset{} + multiset{FrameId(behind)} == multiset{FrameId(behind)};
  }

  lemma DroppedOne(f: Text)
    requires Framed(f, COMMAND_HEAD) && Asks(f)
    ensures Commands([f]) && DroppedIds([f]) == multiset{FrameId(f)}
  {
    hide Asks;
    assert |[f][1..]| == 0;
  }

  lemma BadOption(s: Server, env: Env, reqid: Short)
    requires EnvOk(env)
    ensures var bad := CommandFrame(Command(reqid, NASTOPTSET, [6, 1]));
            && Framed(bad, COMMAND_HEAD) && Asks(bad) && !GoesOn(s, env, bad) && !TooLong(s, env, bad)
            && bad[5] == NASTOPTSET && FrameId(bad) == reqid
  {
    hide EnvOk, FitsResponse, AtOnce;
    var c := Command(reqid, NASTOPTSET, [6, 1]);
    CommandReads(c);
    assert CommandFrame(c)[6..][0] == 6 && !KnownOption(6);
  }

  // An odd option takes the byte behind its command as its value.
  lemma OddOptionReadsOn(o: Options)
    ensures SetOptions(o, [OPTQCACHE], 0) == (o.(use_qcache := false), true)
    ensures SetOptions(o, [OPTQCACHE], 1) == (o.(use_qcache := true), true)
  {
  }
}
