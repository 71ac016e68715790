// server/nastdio.c as it runs: handlers that change the connection's options,
// the cache and the fallthrough queue and write frames to the socket.  Each is
// proved to be the handler of ServerSpec on the abstract server.
module ServerRun {
  import opened Bytes
  import opened Wrappers
  import opened Separated
  import opened CdbFormat
  import opened CdbRecord
  import CacheSpec
  import opened MemDb
  import opened Fqm
  import opened Wire
  import opened Codec
  import opened ServerSpec
  import Replies

  function Waiting(items: seq<Request>): seq<Pending> {
    seq(|items|, i requires 0 <= i < |items| => Pending(items[i].sock, items[i].reqid, items[i].req))
  }

  // A client connection, with the cache and queue that all connections share.
  class Session {
    const sock: int
    var opts: Options
    const cache: MemDbT
    const queue: FqmT
    var written: seq<Text>
    // The requests that workers have taken off the queue and not yet answered.
    ghost var busy: seq<Pending>

    ghost function Repr(): set<object>
      reads this, cache, queue
    {
      {this, cache, queue} + cache.repr + set r: Request | r in queue.items
    }

    ghost predicate Owned()
      reads this, cache, queue
    {
      && this !in cache.repr && queue !in cache.repr
      && (forall i :: 0 <= i < |queue.items| ==>
            queue.items[i] !in cache.repr && |queue.items[i].req| < MAX_FRAME)
      && forall i :: 0 <= i < |busy| ==> |busy[i].key| < MAX_FRAME
    }

    ghost predicate Valid()
      reads this, cache, cache.memdb, cache.repr, queue, queue.items
    {
      cache.Valid() && queue.Valid() && Owned()
    }

    ghost function State(): Server
      reads this, cache, queue
    {
      Server(sock, opts, cache.model, Waiting(queue.items), busy, written)
    }

    // The configuration the cache and the queue were made with.
    ghost predicate Serves(env: Env) {
      EnvOk(env) && env.timeout == cache.null_cache_timeout && env.maxitems == queue.maxitems
    }

    // set_default_opts, on a new connection.
    constructor (sock: int, cache: MemDbT, queue: FqmT)
      requires cache.Valid() && queue.Valid() && queue !in cache.repr
      requires forall i :: 0 <= i < |queue.items| ==>
                 queue.items[i] !in cache.repr && |queue.items[i].req| < MAX_FRAME
      ensures Valid() && fresh(this) && this.sock == sock && this.cache == cache && this.queue == queue
      ensures State() == Server(sock, DEFAULT_OPTIONS, cache.model, Waiting(queue.items), [], [])
    {
      this.sock, this.cache, this.queue := sock, cache, queue;
      opts := Options(true, true, false, false, false, false);
      written, busy := [], [];
    }

    // What arr_send_response ends with.
    method Write(f: Text)
      requires Valid()
      modifies this`written
      ensures Valid() && Repr() == old(Repr())
      ensures State() == old(State()).(out := old(State()).out + [f])
    {
      written := written + [f];
    }

    // arr_send_response
    method SendResponse(reqid: Short, code: Byte, items: seq<Text>) returns (ok: bool)
      requires Valid()
      modifies this`written
      ensures Valid() && Repr() == old(Repr())
      ensures (State(), ok) == Send(old(State()), reqid, code, items)
    {
      hide Valid, ItemsResponse, FitsResponse;
      var f;
      ok, f := PackResponse(reqid, code, items);
      if ok {
        Write(f);
      }
    }

    // send_response with one message.
    method SendMessage(reqid: Short, message: string) returns (ok: bool)
      requires Valid()
      modifies this`written
      ensures Valid() && Repr() == old(Repr())
      ensures (State(), ok) == SendError(old(State()), reqid, message)
    {
      hide Send, Valid;
      ok := SendResponse(reqid, NASTERR, [Message(message)]);
    }

    // memdb_upd, memdb_get and memdb_add, as the handlers call them.
    method CacheUpdate(env: Env, key: Text, vals: seq<Text>) returns (ok: bool)
      requires Valid() && Serves(env) && |key| < MAX_FRAME
      modifies Repr()
      ensures Valid() && fresh(Repr() - old(Repr()))
      ensures var (m, done) := CacheSpec.Update(old(State()).cache, key, vals, env.now, env.timeout, env.fieldcount);
              ok == done && State() == old(State()).(cache := m)
    {
      hide EnvOk, MemDbT.Valid, FqmT.Valid, CacheSpec.Update;
      ok := cache.Update(key, vals, env.now, env.fieldcount);
    }

    method CacheGet(env: Env, key: Text) returns (hit: Option<seq<Text>>)
      requires Valid() && |key| < MAX_FRAME
      modifies Repr()
      ensures Valid() && fresh(Repr() - old(Repr()))
      ensures var (m, found) := CacheSpec.Get(old(State()).cache, key, env.now, env.mtime);
              hit == found && State() == old(State()).(cache := m)
    {
      hide MemDbT.Valid, FqmT.Valid, CacheSpec.Get;
      hit := cache.Get(key, env.now, env.mtime);
    }

    method CacheAdd(env: Env, key: Text, vals: seq<Text>)
      requires Valid() && Serves(env) && |key| < MAX_FRAME
      modifies Repr()
      ensures Valid() && fresh(Repr() - old(Repr()))
      ensures State() ==
              old(State()).(cache := CacheSpec.Add(old(State()).cache, key, vals, env.now, env.timeout))
    {
      hide EnvOk, MemDbT.Valid, FqmT.Valid, CacheSpec.Add;
      cache.Add(key, vals, env.now);
    }

    method DoUpdate(env: Env, reqid: Short, args: Text) returns (ok: bool)
      requires Valid() && Serves(env) && |args| < MAX_FRAME
      modifies Repr()
      ensures Valid() && fresh(Repr() - old(Repr()))
      ensures (State(), ok) == ServerSpec.DoUpdate(old(State()), env, reqid, args)
    {
      hide FieldLen, Items, Send, EnvOk, Valid, State, CacheSpec.Update;
      var keylen := ScanKey(args, NASTSEP);
      if keylen == |args| {
        ok := SendMessage(reqid, "Need values for update");
        return;
      }
      var aa := BuildArray(args[keylen + 1..], NASTSEP);
      var updated := CacheUpdate(env, args[..keylen], aa);
      if !updated {
        ok := SendMessage(reqid, "Couldn't update cache");
      } else {
        ok := SendResponse(reqid, NASTOK, []);
      }
    }

    method DoGet(env: Env, reqid: Short, key: Text, after: nat -> Byte) returns (ok: bool)
      requires Valid() && Serves(env) && |key| < MAX_FRAME
      modifies Repr()
      ensures Valid() && fresh(Repr() - old(Repr()))
      ensures (State(), ok) == ServerSpec.DoGet(old(State()), env, reqid, key)
    {
      hide Send, WellFormed, Valid, CacheSpec.Get, LocalAnswer, Join;
      if opts.use_qcache && !opts.always_fallthrough {
        var hit := CacheGet(env, key);
        if hit.Some? {
          ok := SendResponse(reqid, NASTOK, hit.value);
          return;
        }
      }
      var local: Option<seq<Text>> := None;
      if !opts.always_fallthrough && opts.use_localdb {
        local := CdbGet(env.image, env.sep, key, after, after);
      }
      if local == None && !opts.no_fallthrough {
        ok := QueueRequest(reqid, key);
        return;
      }
      ok := SendResponse(reqid, NASTOK, if local.Some? then local.value else []);
    }

    // do_get's last resort: the fallthrough queue.
    method QueueRequest(reqid: Short, key: Text) returns (ok: bool)
      requires Valid() && |key| < MAX_FRAME
      modifies this`written, queue, queue.items
      ensures Valid() && fresh(Repr() - old(Repr()))
      ensures ok <==> |old(State()).waiting| != queue.maxitems
      ensures State() == if ok then old(State()).(waiting := old(State()).waiting + [Pending(sock, reqid, key)])
                         else SendError(old(State()), reqid, "Couldn't add req to FQM").0
    {
      hide Valid, Send, Message;
      var req := new Request(sock, reqid, key);
      ok := PushRequest(req);
      if !ok {
        var _ := SendMessage(reqid, "Couldn't add req to FQM");
      }
    }

    // fqm_push of a request just made.
    method PushRequest(req: Request) returns (ok: bool)
      requires Valid() && |req.req| < MAX_FRAME && req !in cache.repr && req !in queue.items
      modifies queue, queue.items, req
      ensures Valid() && Repr() <= old(Repr()) + {req}
      ensures ok <==> |old(State()).waiting| != queue.maxitems
      ensures State() == if !ok then old(State())
                         else old(State()).(waiting := old(State()).waiting + [Pending(req.sock, req.reqid, req.req)])
    {
      hide MemDbT.Valid, FqmT.Valid;
      var rc := queue.Push(req);
      ok := rc != -1;
      assert ok ==> Waiting(queue.items) == Waiting(old(queue.items)) + [Pending(req.sock, req.reqid, req.req)];
    }

    // What a worker does in fqm_pop: the first request is now its own.
    method TakeRequest() returns (req: Request)
      requires Valid() && queue.items != []
      modifies this`busy, queue, queue.items
      ensures Valid() && Repr() <= old(Repr())
      ensures old(State()).waiting[0] == Pending(req.sock, req.reqid, req.req)
      ensures State() == ServerSpec.TakeRequest(old(State()))
    {
      hide MemDbT.Valid, FqmT.Valid;
      req := queue.Take();
      busy := busy + [Pending(req.sock, req.reqid, req.req)];
      assert Waiting(queue.items) == Waiting(old(queue.items))[1..];
    }

    // It is done with a request.
    ghost method LetGo(i: nat)
      requires Valid() && i < |State().busy|
      modifies this`busy
      ensures Valid() && Repr() == old(Repr()) && |old(State()).busy[i].key| < MAX_FRAME
      ensures State() == old(State()).(busy := old(State()).busy[..i] + old(State()).busy[i + 1..])
    {
      busy := busy[..i] + busy[i + 1..];
    }

    // do_fallthrough, with the answer of the SQL server, on the connection that
    // asked.
    method DoFallthrough(env: Env, req: Request, answer: Option<seq<Text>>, ghost i: nat)
      requires Valid() && Serves(env)
      requires req.sock == sock
      requires i < |State().busy| && State().busy[i] == Pending(req.sock, req.reqid, req.req)
      modifies Repr()
      ensures Valid() && fresh(Repr() - old(Repr()))
      ensures State() == ServerSpec.DoFallthrough(old(State()), env, i, answer)
    {
      hide Send, EnvOk, Valid, CacheSpec.Add, Join, FieldLen;
      LetGo(i);
      match answer {
        case None =>
          var _ := SendResponse(req.reqid, NASTOK, []);
        case Some(aa) =>
          var sent := SendResponse(req.reqid, NASTOK, aa);
          if sent {
            CacheAdd(env, CString(req.req), aa);
          }
      }
    }

    // One option changed.
    method SetOpts(o: Options)
      requires Valid()
      modifies this`opts
      ensures Valid() && Repr() == old(Repr()) && State() == old(State()).(opts := o)
    {
      opts := o;
    }

    // The options of a command, with the byte that follows it in memory.
    method DoOptSet(reqid: Short, args: Text, next: Byte) returns (ok: bool)
      requires Valid()
      modifies this`opts, this`written
      ensures Valid() && Repr() == old(Repr())
      ensures (State(), ok) == ServerSpec.DoOptSet(old(State()), reqid, args, next)
    {
      hide Valid, Send, Message;
      var i := 0;
      while i < |args|
        invariant i <= |args| + 1 && Valid() && Repr() == old(Repr())
        invariant i <= |args| ==> SetOptions(opts, args[i..], next) == SetOptions(old(opts), args, next)
        invariant i > |args| ==> SetOptions(old(opts), args, next) == (opts, true)
        invariant State() == old(State()).(opts := opts)
      {
        var option, value := args[i], ByteAt(args, _ => next, i + 1) != OPTFALSE;
        if option == OPTQCACHE {
          SetOpts(opts.(use_qcache := value));
        } else if option == OPTLOCALDB {
          SetOpts(opts.(use_localdb := value));
        } else if option == OPTFALLASYNC {
          SetOpts(opts.(fallthrough_async := value));
        } else if option == OPTALWAYSFALL {
          SetOpts(opts.(always_fallthrough := value));
        } else if option == OPTFAILONCE {
          SetOpts(opts.(fail_once := value));
        } else if option == OPTNOFALLTHROUGH {
          SetOpts(opts.(no_fallthrough := value));
        } else {
          var _ := SendMessage(reqid, "Sent unknown option");
          return false;
        }
        i := i + 2;
      }
      ok := SendResponse(reqid, NASTOK, []);
    }

    method DoOptGet(reqid: Short) returns (ok: bool)
      requires Valid()
      modifies this`written
      ensures Valid() && Repr() == old(Repr())
      ensures (State(), ok) == Send(old(State()), reqid, NASTOK, [OptionBytes(opts)])
    {
      hide Send, Valid, OptionBytes;
      var bytes := OptionBuffer();
      ok := SendResponse(reqid, NASTOK, [bytes]);
    }

    // The buffer that do_opt_get fills.
    method OptionBuffer() returns (bytes: Text)
      ensures bytes == OptionBytes(opts)
    {
      var buffer := new Byte[512];
      buffer[0], buffer[1] := OPTQCACHE, Flag(opts.use_qcache);
      buffer[2], buffer[3] := OPTLOCALDB, Flag(opts.use_localdb);
      buffer[4], buffer[5] := OPTFALLASYNC, Flag(opts.fallthrough_async);
      buffer[6], buffer[7] := OPTALWAYSFALL, Flag(opts.always_fallthrough);
      buffer[8], buffer[9] := OPTFAILONCE, Flag(opts.fail_once);
      buffer[10], buffer[11] := OPTNOFALLTHROUGH, Flag(opts.no_fallthrough);
      bytes := buffer[..12];
    }

    // One pass of the loop of process_cmd, on the frame it is at and the byte
    // after it.
    method Command(env: Env, p: Text, next: Byte, after: nat -> Byte) returns (rc: int)
      requires Valid() && Serves(env) && Framed(p, COMMAND_HEAD)
      modifies Repr()
      ensures Valid() && fresh(Repr() - old(Repr()))
      ensures rc == 0 || rc == 1 || rc == -1
      ensures (State(), NextOf(rc)) == Dispatch(old(State()), env, p, next)
    {
      hide Send, ServerSpec.DoGet, ServerSpec.DoUpdate, ServerSpec.DoOptSet, OptionBytes;
      hide Valid, EnvOk;
      var ok := true;
      var reqid, cmd := FromBe16(p[2..4]), p[5];
      if p[4] != NASTCMD {
        return -1;
      }
      if cmd == NASTDIE {
        return 1;
      } else if cmd == NASTOPTSET {
        ok := DoOptSet(reqid, p[6..], next);
      } else if cmd == NASTOPTGET {
        ok := DoOptGet(reqid);
      } else if cmd == NASTGET {
        ok := DoGet(env, reqid, p[6..], after);
      } else if cmd == NASTUPD {
        ok := DoUpdate(env, reqid, p[6..]);
      } else if cmd == NASTSTATS {
        ok := SendResponse(reqid, NASTOK, env.stats);
      } else if cmd != NASTADD && cmd != NASTDEL {
        return -1;
      }
      rc := if ok then 0 else -1;
    }

    // process_cmd: every frame of the buffer, until one fails or says die.  What
    // follows the buffer is `beyond', what follows a key is `after'.
    method ProcessCmd(env: Env, buffer: Text, beyond: nat -> Byte, after: nat -> Byte) returns (rc: int)
      requires Valid() && Serves(env) && Covered(buffer, beyond, 0, COMMAND_HEAD)
      modifies Repr()
      ensures Valid() && fresh(Repr() - old(Repr()))
      ensures rc == 0 || rc == 1 || rc == -1
      ensures |buffer| < COMMAND_HEAD ==> rc == -1 && State() == old(State())
      ensures |buffer| >= COMMAND_HEAD ==>
                var (frames, end) := FramesAt(buffer, beyond, 0, COMMAND_HEAD);
                && Commands(frames)
                && (State(), NextOf(rc)) == Process(old(State()), env, frames, ByteAt(buffer, beyond, end))
                && (rc == 1 <==> Replies.DieReached(old(State()), env, frames, ByteAt(buffer, beyond, end)))
                && (rc == -1 <==> Replies.StopReached(old(State()), env, frames, ByteAt(buffer, beyond, end)))
    {
      hide Process, Commands, Covered, FramesAt, Dispatch, Valid, State, EnvOk, Framed, FromBe16, BytesAt, LenAt, ByteAt;
      if |buffer| < COMMAND_HEAD {
        return -1;
      }
      ghost var (all, end) := FramesAt(buffer, beyond, 0, COMMAND_HEAD);
      ghost var last := ByteAt(buffer, beyond, end);
      FramesAtFramed(buffer, beyond, 0);
      hide Replies.DieReached, Replies.StopReached;
      Replies.ProcessEnds(State(), env, all, last);
      var p := 0;
      while p < |buffer|
        invariant Valid() && fresh(Repr() - old(Repr())) && Serves(env)
        invariant Covered(buffer, beyond, p, COMMAND_HEAD)
        invariant FramesAt(buffer, beyond, p, COMMAND_HEAD).1 == end
        invariant Commands(FramesAt(buffer, beyond, p, COMMAND_HEAD).0)
        invariant Process(State(), env, FramesAt(buffer, beyond, p, COMMAND_HEAD).0, last)
               == Process(old(State()), env, all, last)
        decreases |buffer| - p
      {
        NextCommand(buffer, beyond, p);
        FirstByteAt(buffer, beyond, p + LenAt(buffer, beyond, p));
        FramesAtFramed(buffer, beyond, p + LenAt(buffer, beyond, p));
        ProcessNext(State(), env, FrameAt(buffer, beyond, p),
                    FramesAt(buffer, beyond, p + LenAt(buffer, beyond, p), COMMAND_HEAD).0, last);
        var len := LenAt(buffer, beyond, p);
        rc := Command(env, BytesAt(buffer, beyond, p, len), ByteAt(buffer, beyond, p + len), after);
        if rc != 0 {
          return;
        }
        p := p + len;
      }
      NoCommands(State(), env, buffer, beyond, p, last);
      rc := 0;
    }
  }

  // The frame that arr_send_response writes, if all of it fits.
  method PackResponse(reqid: Short, code: Byte, items: seq<Text>) returns (ok: bool, f: Text)
    ensures ok <==> FitsResponse(items)
    ensures ok ==> f == ItemsResponse(reqid, code, items)
  {
    hide Join, Be16, ItemsResponse;
    var buffer := new Byte[RESPONSE_BUFFER + 1];
    var n_reqid := Be16(reqid);
    buffer[2], buffer[3], buffer[4] := n_reqid[0], n_reqid[1], code;
    ghost var head := buffer[..5];
    assert head[2..] == n_reqid + [code];
    var l;
    ok, l := PackItems(buffer, 5, RESPONSE_BUFFER, items, NASTSEP);
    f := [];
    if ok {
      ghost var data := Join(items, NASTSEP);
      assert buffer[2..l] == head[2..] + data;
      ghost var tail := buffer[2..l];
      var n_l := Be16(l);
      buffer[0], buffer[1] := n_l[0], n_l[1];
      f := buffer[..l];
      assert f == n_l + tail;
      ResponseIs(reqid, code, items);
    }
  }

  lemma ResponseIs(reqid: Short, code: Byte, items: seq<Text>)
    requires FitsResponse(items)
    ensures var data := Join(items, NASTSEP);
            ItemsResponse(reqid, code, items) == Be16(5 + |data|) + (Be16(reqid) + [code] + data)
  {
    hide Join, Be16;
    var data := Join(items, NASTSEP);
    assert Be16(reqid) + [code] + data == Be16(reqid) + ([code] + data);
    assert ItemsResponse(reqid, code, items) == Be16(5 + |data|) + Be16(reqid) + ([code] + data);
  }

  lemma {:induction false} FramesAtFramed(buffer: Text, beyond: nat -> Byte, p: nat)
    requires Covered(buffer, beyond, p, COMMAND_HEAD)
    ensures Commands(FramesAt(buffer, beyond, p, COMMAND_HEAD).0)
    decreases |buffer| - p
  {
    hide Framed, ByteAt, FromBe16;
    if p < |buffer| {
      var len := LenAt(buffer, beyond, p);
      FramedAt(buffer, beyond, p, COMMAND_HEAD);
      FramesAtFramed(buffer, beyond, p + len);
    }
  }

  lemma NoCommands(s: Server, env: Env, buffer: Text, beyond: nat -> Byte, p: nat, last: Byte)
    requires EnvOk(env) && p >= |buffer| && Covered(buffer, beyond, p, COMMAND_HEAD)
    ensures FramesAt(buffer, beyond, p, COMMAND_HEAD).0 == []
    ensures Process(s, env, [], last) == (s, Continue)
  {
  }

  // What the return code of process_cmd says.
  function NextOf(rc: int): Next {
    if rc == 0 then Continue else if rc == 1 then Die else Fail
  }

  // The frame at p, and what is left after it.
  lemma NextCommand(buffer: Text, beyond: nat -> Byte, p: nat)
    requires p < |buffer| && Covered(buffer, beyond, p, COMMAND_HEAD)
    ensures var f, q := FrameAt(buffer, beyond, p), p + LenAt(buffer, beyond, p);
            && q > p && Framed(f, COMMAND_HEAD) && Covered(buffer, beyond, q, COMMAND_HEAD)
            && FramesAt(buffer, beyond, p, COMMAND_HEAD).0 == [f] + FramesAt(buffer, beyond, q, COMMAND_HEAD).0
            && FramesAt(buffer, beyond, p, COMMAND_HEAD).1 == FramesAt(buffer, beyond, q, COMMAND_HEAD).1
  {
    hide Framed, ByteAt, FromBe16;
    FramedAt(buffer, beyond, p, COMMAND_HEAD);
  }

  function FrameAt(buffer: Text, beyond: nat -> Byte, p: nat): Text {
    BytesAt(buffer, beyond, p, LenAt(buffer, beyond, p))
  }

  lemma ProcessNext(s: Server, env: Env, f: Text, rest: seq<Text>, last: Byte)
    requires EnvOk(env) && Framed(f, COMMAND_HEAD) && Commands(rest)
    ensures Commands([f] + rest)
    ensures var (u, o) := Dispatch(s, env, f, FirstByte(rest, last));
            Process(s, env, [f] + rest, last) == if o == Continue then Process(u, env, rest, last) else (u, o)
  {
    hide Dispatch, EnvOk, Framed, FirstByte;
    var all := [f] + rest;
    assert all[0] == f && all[1..] == rest;
  }

  // The byte at p is the first of the frames from there on.
  lemma FirstByteAt(buffer: Text, beyond: nat -> Byte, p: nat)
    requires Covered(buffer, beyond, p, COMMAND_HEAD)
    ensures var (frames, end) := FramesAt(buffer, beyond, p, COMMAND_HEAD);
            FirstByte(frames, ByteAt(buffer, beyond, end)) == ByteAt(buffer, beyond, p)
  {
    hide FromBe16, ByteAt;
  }
}
