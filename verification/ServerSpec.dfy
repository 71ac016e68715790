// What the server does with each command, as a function on its state: the
// handlers and dispatch of server/nastdio.c.
module ServerSpec {
  import opened Bytes
  import opened Wrappers
  import opened Separated
  import opened CdbFormat
  import opened CdbRecord
  import opened CacheSpec
  import opened Wire

  const RESPONSE_BUFFER := 1024

  // nast_options
  datatype Options = Options(
    use_qcache: bool, use_localdb: bool, fallthrough_async: bool,
    always_fallthrough: bool, fail_once: bool, no_fallthrough: bool)

  const DEFAULT_OPTIONS := Options(true, true, false, false, false, false)

  type Sock = int

  // What a fallthrough request remembers.
  datatype Pending = Pending(sock: Sock, reqid: Short, key: Text)

  // One connection's view of the server: its socket and options, the cache, the
  // requests waiting for the fallthrough workers and those some worker has taken,
  // which all connections share, and the frames written to the client.
  datatype Server = Server(sock: Sock, opts: Options, cache: Cache, waiting: seq<Pending>,
                           busy: seq<Pending>, out: seq<Text>)

  // The clock, the configuration and the loaded database.
  datatype Env = Env(now: Time, timeout: int, image: Text, sep: Byte, mtime: Time,
                     fieldcount: int, maxitems: int, stats: seq<Text>)

  ghost predicate EnvOk(env: Env) {
    WellFormed(env.image)
  }

  // ---- Responses ----

  predicate FitsResponse(items: seq<Text>) {
    RESPONSE_HEAD + |Join(items, NASTSEP)| <= RESPONSE_BUFFER
  }

  function ItemsResponse(reqid: Short, code: Byte, items: seq<Text>): Text
    requires FitsResponse(items)
  {
    ResponseFrame(Response(reqid, code, Join(items, NASTSEP)))
  }

  // arr_send_response: all or nothing.
  function Send(s: Server, reqid: Short, code: Byte, items: seq<Text>): (Server, bool) {
    if FitsResponse(items) then (s.(out := s.out + [ItemsResponse(reqid, code, items)]), true) else (s, false)
  }

  // A message of the server, byte by byte.
  function Message(m: string): (t: Text)
    ensures |t| == |m|
  {
    seq(|m|, i requires 0 <= i < |m| => m[i] as int % 0x100)
  }

  function SendError(s: Server, reqid: Short, message: string): (Server, bool) {
    Send(s, reqid, NASTERR, [Message(message)])
  }

  // ---- Handlers ----

  function DoUpdate(s: Server, env: Env, reqid: Short, args: Text): (Server, bool) {
    var keylen := FieldLen(args, NASTSEP);
    if keylen == |args| then SendError(s, reqid, "Need values for update")
    else
      var (cache, ok) := Update(s.cache, args[..keylen], Items(args[keylen + 1..], NASTSEP),
                                env.now, env.timeout, env.fieldcount);
      if !ok then SendError(s.(cache := cache), reqid, "Couldn't update cache")
      else Send(s.(cache := cache), reqid, NASTOK, [])
  }

  // The cache, then the local database, then the fallthrough queue.
  ghost function DoGet(s: Server, env: Env, reqid: Short, key: Text): (Server, bool)
    requires EnvOk(env)
  {
    var cached := s.opts.use_qcache && !s.opts.always_fallthrough;
    var (cache, hit) := if cached then Get(s.cache, key, env.now, env.mtime) else (s.cache, None);
    var u := s.(cache := cache);
    if hit.Some? then Send(u, reqid, NASTOK, hit.value)
    else
      var local := if !s.opts.always_fallthrough && s.opts.use_localdb
                   then LocalAnswer(env.image, env.sep, key) else None;
      if local.Some? then Send(u, reqid, NASTOK, local.value)
      else if s.opts.no_fallthrough then Send(u, reqid, NASTOK, [])
      else if |s.waiting| == env.maxitems then (SendError(u, reqid, "Couldn't add req to FQM").0, false)
      else (u.(waiting := s.waiting + [Pending(s.sock, reqid, key)]), true)
  }

  // A worker takes the first waiting request ...
  function TakeRequest(s: Server): Server
    requires s.waiting != []
  {
    s.(waiting := s.waiting[1..], busy := s.busy + [s.waiting[0]])
  }

  // ... and some time later the SQL server answers it, or does not; the workers
  // overlap, so in any order.  The request string is a C string.
  function DoFallthrough(s: Server, env: Env, i: nat, answer: Option<seq<Text>>): Server
    requires i < |s.busy|
  {
    var req, u := s.busy[i], s.(busy := s.busy[..i] + s.busy[i + 1..]);
    match answer
    case None => Send(u, req.reqid, NASTOK, []).0
    case Some(vals) =>
      var (v, sent) := Send(u, req.reqid, NASTOK, vals);
      if sent then v.(cache := Add(v.cache, CString(req.key), vals, env.now, env.timeout)) else v
  }

  // One option of a set command; None if it is not known.
  function SetOption(o: Options, option: Byte, value: Byte): Option<Options> {
    var on := value != OPTFALSE;
    if option == OPTQCACHE then Some(o.(use_qcache := on))
    else if option == OPTLOCALDB then Some(o.(use_localdb := on))
    else if option == OPTFALLASYNC then Some(o.(fallthrough_async := on))
    else if option == OPTALWAYSFALL then Some(o.(always_fallthrough := on))
    else if option == OPTFAILONCE then Some(o.(fail_once := on))
    else if option == OPTNOFALLTHROUGH then Some(o.(no_fallthrough := on))
    else None
  }

  // Options before an unknown one have taken effect.  An option without a value
  // takes the byte that follows the command in memory.
  function SetOptions(o: Options, args: Text, next: Byte): (Options, bool)
    decreases |args|
  {
    if args == [] then (o, true)
    else
      match SetOption(o, args[0], if |args| > 1 then args[1] else next)
      case None => (o, false)
      case Some(o') => if |args| > 1 then SetOptions(o', args[2..], next) else (o', true)
  }

  function Flag(b: bool): Byte {
    if b then OPTTRUE else OPTFALSE
  }

  function OptionBytes(o: Options): Text {
    [OPTQCACHE, Flag(o.use_qcache), OPTLOCALDB, Flag(o.use_localdb),
     OPTFALLASYNC, Flag(o.fallthrough_async), OPTALWAYSFALL, Flag(o.always_fallthrough),
     OPTFAILONCE, Flag(o.fail_once), OPTNOFALLTHROUGH, Flag(o.no_fallthrough)]
  }

  function DoOptSet(s: Server, reqid: Short, args: Text, next: Byte): (Server, bool) {
    var (o, ok) := SetOptions(s.opts, args, next);
    var u := s.(opts := o);
    if ok then Send(u, reqid, NASTOK, []) else (SendError(u, reqid, "Sent unknown option").0, false)
  }

  // ---- Dispatch ----

  datatype Next = Continue | Die | Fail

  ghost predicate Commands(frames: seq<Text>) {
    forall i :: 0 <= i < |frames| ==> Framed(frames[i], COMMAND_HEAD)
  }

  function Checked(r: (Server, bool)): (Server, Next) {
    (r.0, if r.1 then Continue else Fail)
  }

  // What a command is meant to do.  Only an option without a value looks at the
  // byte that follows.
  ghost function Obey(s: Server, env: Env, c: Command, next: Byte): (Server, Next)
    requires EnvOk(env)
  {
    if c.code == NASTDIE then (s, Die)
    else if c.code == NASTOPTSET then Checked(DoOptSet(s, c.reqid, c.args, next))
    else if c.code == NASTOPTGET then Checked(Send(s, c.reqid, NASTOK, [OptionBytes(s.opts)]))
    else if c.code == NASTGET then Checked(DoGet(s, env, c.reqid, c.args))
    else if c.code == NASTUPD then Checked(DoUpdate(s, env, c.reqid, c.args))
    else if c.code == NASTSTATS then Checked(Send(s, c.reqid, NASTOK, env.stats))
    else if c.code == NASTADD || c.code == NASTDEL then (s, Continue)
    else (s, Fail)
  }

  // One pass of the process_cmd loop; next is the byte after the frame.
  ghost function Dispatch(s: Server, env: Env, f: Text, next: Byte): (Server, Next)
    requires EnvOk(env) && Framed(f, COMMAND_HEAD)
  {
    if f[4] != NASTCMD then (s, Fail) else Obey(s, env, CommandOf(f), next)
  }

  // The first byte of some frames in a row, the last of them followed by next.
  function FirstByte(frames: seq<Text>, next: Byte): Byte {
    if frames == [] || frames[0] == [] then next else frames[0][0]
  }

  // process_cmd on a list of frames: in order, until one stops it.
  ghost function Process(s: Server, env: Env, frames: seq<Text>, next: Byte): (Server, Next)
    requires EnvOk(env) && Commands(frames)
    decreases |frames|
  {
    if frames == [] then (s, Continue)
    else
      var (u, o) := Dispatch(s, env, frames[0], FirstByte(frames[1..], next));
      if o == Continue then Process(u, env, frames[1..], next) else (u, o)
  }
}
