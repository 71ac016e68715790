// client/nastapi.c: building requests, receiving responses into per-thread
// slots, and decoding them.
module Client {
  import opened Bytes
  import opened Wrappers
  import opened Separated
  import opened Codec
  import opened Wire

  const REQUEST_BUFFER := 512

  datatype ErrCode = NAST_OK | NAST_NOMEM | NAST_UNKNOWN_RESPONSE | NAST_SERVER_ERR

  // nast_response; its request id is an unsigned short, and set to -1 it marks
  // a slot without a response.
  datatype Slot = Slot(reqid: Short, errcode: ErrCode, buffer: Text)

  const NO_RESPONSE: Short := 0xffff

  const EMPTY_SLOT := Slot(NO_RESPONSE, NAST_OK, [])

  // ---- Requests ----

  // The command that asks for an update of key to vals.
  function UpdateCommand(reqid: Short, key: Text, vals: seq<Text>): Command {
    Command(reqid, NASTUPD, key + [NASTSEP] + Join(vals, NASTSEP))
  }

  function GetCommand(reqid: Short, query: Text): Command {
    Command(reqid, NASTGET, query)
  }

  // How much of a text snprintf writes after the request id, before the NUL.
  function Printed(text: Text): (t: Text)
    ensures |t| < REQUEST_BUFFER - 4
  {
    if |text| < REQUEST_BUFFER - 4 then text else text[..REQUEST_BUFFER - 5]
  }

  // snprintf of "%c%c%s..." into the rest of the buffer.
  method Snprintf(buffer: array<Byte>, text: Text)
    requires buffer.Length >= REQUEST_BUFFER
    modifies buffer
    ensures buffer[4..4 + |Printed(text)| + 1] == Printed(text) + [0]
    ensures buffer[..4] == old(buffer[..4])
  {
    Memcpy(buffer, 4, 4, Printed(text) + [0]);
    assert 4 + |Printed(text) + [0]| == 4 + |Printed(text)| + 1;
  }

  // The start of every request: room for the length, the request id, then the
  // command bytes and a string.
  method StartRequest(reqid: Short, text: Text) returns (buffer: array<Byte>, bufflen: nat)
    ensures fresh(buffer) && buffer.Length == REQUEST_BUFFER + 1
    ensures bufflen == 4 + |text|
    ensures buffer[2..4 + |Printed(text)| + 1] == Be16(reqid) + Printed(text) + [0]
  {
    hide Be16, Printed;
    buffer := new Byte[REQUEST_BUFFER + 1];
    Memcpy(buffer, 2, 2, Be16(reqid));
    ghost var head := buffer[..4];
    assert head[2..] == Be16(reqid);
    Snprintf(buffer, text);
    bufflen := 4 + |text|;
    assert buffer[2..4 + |Printed(text)| + 1] == head[2..] + (Printed(text) + [0]);
  }

  // The end of every request: the length goes in front.
  method FinishRequest(buffer: array<Byte>, bufflen: nat, ghost reqid: Short, ghost body: Text) returns (f: Text)
    requires bufflen == 4 + |body| <= REQUEST_BUFFER < buffer.Length
    requires buffer[2..bufflen] == Be16(reqid) + body
    modifies buffer
    ensures f == Frame(reqid, body)
  {
    ghost var tail := buffer[2..bufflen];
    var n := Be16(bufflen);
    buffer[0], buffer[1] := n[0], n[1];
    f := buffer[..bufflen];
    assert f[2..] == tail && f == f[..2] + f[2..] && f[..2] == n;
  }

  // What nast_get sends: the last byte of the longest query is lost to the NUL.
  function Query(query: Text): Text {
    if |query| <= 505 then query else query[..505] + [0]
  }

  // A longer query would be sent from beyond the buffer.
  method NastGet(reqid: Short, query: Text) returns (f: Text)
    requires |query| <= 506
    ensures f == CommandFrame(GetCommand(reqid, Query(query)))
  {
    var text := [NASTCMD, NASTGET] + query;
    var buffer, bufflen := StartRequest(reqid, text);
    ghost var sent := [NASTCMD, NASTGET] + Query(query);
    SentWithin(buffer, bufflen, reqid, text, sent);
    f := FinishRequest(buffer, bufflen, reqid, sent);
  }

  // What is sent of a printed text, with at most its NUL.
  lemma SentWithin(buffer: array<Byte>, bufflen: nat, reqid: Short, text: Text, sent: Text)
    requires buffer.Length == REQUEST_BUFFER + 1 && bufflen == 4 + |text| <= REQUEST_BUFFER
    requires buffer[2..4 + |Printed(text)| + 1] == Be16(reqid) + Printed(text) + [0]
    requires sent == if |text| < REQUEST_BUFFER - 4 then text else text[..REQUEST_BUFFER - 5] + [0]
    ensures buffer[2..bufflen] == Be16(reqid) + sent
  {
    var whole := buffer[2..4 + |Printed(text)| + 1];
    assert buffer[2..bufflen] == whole[..bufflen - 2];
  }

  method NastStats(reqid: Short) returns (f: Text)
    ensures f == CommandFrame(Command(reqid, NASTSTATS, []))
  {
    var text := [NASTCMD, NASTSTATS];
    var buffer, bufflen := StartRequest(reqid, text);
    SentWithin(buffer, bufflen, reqid, text, text);
    assert text + [] == text;
    f := FinishRequest(buffer, bufflen, reqid, text);
  }

  method NastDie(reqid: Short) returns (f: Text)
    ensures f == CommandFrame(Command(reqid, NASTDIE, []))
  {
    var text := [NASTCMD, NASTDIE];
    var buffer, bufflen := StartRequest(reqid, text);
    SentWithin(buffer, bufflen, reqid, text, text);
    assert text + [] == text;
    f := FinishRequest(buffer, bufflen, reqid, text);
  }

  predicate FitsRequest(key: Text, vals: seq<Text>) {
    7 + |key| + |Join(vals, NASTSEP)| <= REQUEST_BUFFER
  }

  // What nast_upd sends, if anything: with a key of 505 bytes nothing but an
  // empty value fits, and the NUL takes the place of the separator.
  function UpdateSent(reqid: Short, key: Text, vals: seq<Text>): Option<Command> {
    if !FitsRequest(key, vals) then None
    else if |key| <= 504 then Some(UpdateCommand(reqid, key, vals))
    else Some(Command(reqid, NASTUPD, key + [0]))
  }

  // Refused, and nothing sent, exactly when the request does not fit.  A longer
  // key with no values at all would be sent from beyond the buffer.
  method NastUpd(reqid: Short, key: Text, vals: seq<Text>) returns (r: Option<Text>)
    requires |key| <= 505 || vals != []
    ensures r == match UpdateSent(reqid, key, vals) {
                   case None => None
                   case Some(command) => Some(CommandFrame(command))
                 }
  {
    hide Join, Be16, Printed;
    var head := [NASTCMD, NASTUPD] + key + [NASTSEP];
    var buffer, bufflen := StartRequest(reqid, head);
    ghost var start := bufflen;
    ghost var sent := if |key| <= 504 then head else [NASTCMD, NASTUPD] + key + [0];
    ghost var before := if start <= REQUEST_BUFFER then buffer[..start] else [];
    if |key| <= 505 {
      KeyCut(key, head);
      SentWithin(buffer, bufflen, reqid, head, sent);
      assert before[2..] == Be16(reqid) + sent;
    }
    var ok;
    ok, bufflen := PackItems(buffer, bufflen, REQUEST_BUFFER, vals, NASTSEP);
    if !ok {
      return None;
    }
    ghost var packed := Join(vals, NASTSEP);
    Spliced(buffer[..], start, bufflen, before, packed);
    assert buffer[2..bufflen] == buffer[..][2..bufflen];
    Regroup(Be16(reqid), sent, packed);
    UpdateBody(reqid, key, vals, sent);
    var f := FinishRequest(buffer, bufflen, reqid, sent + packed);
    return Some(f);
  }

  lemma Spliced(whole: Text, start: nat, end: nat, before: Text, packed: Text)
    requires 2 <= start <= end <= |whole| && whole[..start] == before && whole[start..end] == packed
    ensures whole[2..end] == before[2..] + packed
  {
  }

  lemma KeyCut(key: Text, head: Text)
    requires head == [NASTCMD, NASTUPD] + key + [NASTSEP]
    ensures |key| == 505 ==> head[..REQUEST_BUFFER - 5] == [NASTCMD, NASTUPD] + key
  {
  }

  lemma Regroup(a: Text, b: Text, c: Text)
    ensures a + b + c == a + (b + c)
  {
  }

  lemma UpdateBody(reqid: Short, key: Text, vals: seq<Text>, sent: Text)
    requires UpdateSent(reqid, key, vals).Some?
    requires sent == [NASTCMD, NASTUPD] + key + [if |key| <= 504 then NASTSEP else 0]
    ensures sent + Join(vals, NASTSEP) == [NASTCMD, NASTUPD] + UpdateSent(reqid, key, vals).value.args
  {
    hide Join;
  }

  // ---- Responses ----

  function ErrCodeOf(code: Byte): ErrCode {
    if code == NASTOK then NAST_OK else if code == NASTERR then NAST_SERVER_ERR else NAST_UNKNOWN_RESPONSE
  }

  // What getresponse makes of the bytes of a response; there is no data if the
  // length leaves no room even for the code, since malloc then fails.
  datatype Arrival = Arrival(reqid: Short, code: Byte, data: Option<Text>)

  function ArrivalOf(f: Text): Arrival
    requires |f| >= RESPONSE_HEAD
  {
    Arrival(FrameId(f), f[4], Some(f[5..]))
  }

  // addresponse: kept if the thread has a slot, dropped otherwise.
  function Deliver(slots: seq<Slot>, a: Arrival): seq<Slot>
    requires a.reqid != 0
  {
    if |slots| < a.reqid then slots
    else
      slots[a.reqid - 1 := if a.data.Some? then Slot(a.reqid, ErrCodeOf(a.code), a.data.value)
                           else Slot(a.reqid, NAST_NOMEM, [])]
  }

  // Responses, each for some thread.
  predicate Addressed(arrivals: seq<Arrival>) {
    forall i :: 0 <= i < |arrivals| ==> arrivals[i].reqid != 0
  }

  function DeliverAll(slots: seq<Slot>, arrivals: seq<Arrival>): seq<Slot>
    requires Addressed(arrivals)
    decreases |arrivals|
  {
    if arrivals == [] then slots else DeliverAll(Deliver(slots, arrivals[0]), arrivals[1..])
  }

  // grow_responses.
  function Grown(slots: seq<Slot>, n: nat): (s: seq<Slot>)
    ensures |s| >= n && |s| >= |slots| && s[..|slots|] == slots
    ensures forall i :: |slots| <= i < |s| ==> s[i] == EMPTY_SLOT
  {
    if n <= |slots| then slots else slots + seq(n - |slots|, _ => EMPTY_SLOT)
  }

  // The slots of a thread that sends a command: its own is emptied.
  function Prepared(slots: seq<Slot>, tid: Short): (s: seq<Slot>)
    requires tid != 0
    ensures |s| >= tid
  {
    var s := Grown(slots, tid);
    s[tid - 1 := s[tid - 1].(reqid := NO_RESPONSE, buffer := [])]
  }

  // nast_get_result on a slot.
  function Result(slot: Slot): seq<Text> {
    Split(slot.buffer, NASTSEP)
  }

  // What a thread has to return to its caller, if checkresponse says there is
  // something: the comparison with -1 is of shorts.
  function Got(slots: seq<Slot>, tid: Short): Option<(ErrCode, seq<Text>)>
    requires tid != 0
  {
    if |slots| < tid || slots[tid - 1].reqid == NO_RESPONSE then None
    else Some((slots[tid - 1].errcode, Result(slots[tid - 1])))
  }

  // Responses, none of them for this thread.
  predicate ForOthers(arrivals: seq<Arrival>, tid: Short) {
    forall i :: 0 <= i < |arrivals| ==> arrivals[i].reqid != 0 && arrivals[i].reqid != tid
  }

  lemma {:induction false} OthersDoNotMatter(slots: seq<Slot>, arrivals: seq<Arrival>, tid: Short)
    requires tid != 0 && ForOthers(arrivals, tid)
    ensures |DeliverAll(slots, arrivals)| == |slots|
    ensures |slots| >= tid ==> DeliverAll(slots, arrivals)[tid - 1] == slots[tid - 1]
    decreases |arrivals|
  {
    if arrivals != [] {
      OthersDoNotMatter(Deliver(slots, arrivals[0]), arrivals[1..], tid);
    }
  }

  lemma {:induction false} DeliverAllAppend(slots: seq<Slot>, a: seq<Arrival>, b: seq<Arrival>)
    requires Addressed(a) && Addressed(b)
    ensures Addressed(a + b) && DeliverAll(slots, a + b) == DeliverAll(DeliverAll(slots, a), b)
    decreases |a|
  {
    hide Deliver;
    if a == [] {
      assert a + b == b;
    } else {
      assert (a + b)[1..] == a[1..] + b;
      DeliverAllAppend(Deliver(slots, a[0]), a[1..], b);
    }
  }

  // A response is seen by the thread that sent the command, among any responses
  // for other threads, unless its request id is the mark of an empty slot.
  lemma GotAmongOthers(slots: seq<Slot>, a: Arrival, before: seq<Arrival>, after: seq<Arrival>)
    requires a.reqid != 0 && a.data.Some?
    requires ForOthers(before, a.reqid) && ForOthers(after, a.reqid)
    ensures Addressed(before + [a] + after)
    ensures Got(DeliverAll(Prepared(slots, a.reqid), before + [a] + after), a.reqid) ==
            if a.reqid == NO_RESPONSE then None
            else Some((ErrCodeOf(a.code), Split(a.data.value, NASTSEP)))
  {
    hide Split, DeliverAll;
    var s := Prepared(slots, a.reqid);
    DeliverAllAppend(s, before, [a]);
    DeliverAllAppend(s, before + [a], after);
    var t := DeliverAll(s, before);
    OthersDoNotMatter(s, before, a.reqid);
    DeliverOne(t, a);
    OthersDoNotMatter(Deliver(t, a), after, a.reqid);
  }

  lemma DeliverOne(slots: seq<Slot>, a: Arrival)
    requires a.reqid != 0
    ensures DeliverAll(slots, [a]) == Deliver(slots, a)
  {
    assert [a][1..] == [];
  }

  // The sanity check of getresponse, on a signed length; n bytes were received.
  predicate Munged(len: Short, n: nat) {
    len == 0 || len >= MAX_FRAME || len > n
  }

  function ArrivalAt(recvd: Text, after: nat -> Byte, p: nat): Arrival {
    var len := LenAt(recvd, after, p);
    Arrival(FromBe16(BytesAt(recvd, after, p + 2, 2)), ByteAt(recvd, after, p + 4),
            if len < RESPONSE_HEAD then None else Some(BytesAt(recvd, after, p + 5, len - 5)))
  }

  // The responses from position p on, up to the end or to a munged length, and
  // whether all was well.  The last one may run on into what follows in memory.
  function Arrivals(recvd: Text, after: nat -> Byte, p: nat): (seq<Arrival>, bool)
    decreases |recvd| - p
  {
    if p >= |recvd| then ([], true)
    else if Munged(LenAt(recvd, after, p), |recvd|) then ([], false)
    else
      var (arrivals, ok) := Arrivals(recvd, after, p + LenAt(recvd, after, p));
      ([ArrivalAt(recvd, after, p)] + arrivals, ok)
  }

  function ArrivalsOf(frames: seq<Text>): seq<Arrival>
    requires forall i :: 0 <= i < |frames| ==> |frames[i]| >= RESPONSE_HEAD
  {
    seq(|frames|, i requires 0 <= i < |frames| => ArrivalOf(frames[i]))
  }

  // Whole responses back to back are all delivered, in order.
  lemma {:induction false} WholeIsRead(recvd: Text, after: nat -> Byte, p: nat)
    requires p <= |recvd| && Whole(recvd[p..], RESPONSE_HEAD)
    ensures var frames := Frames(recvd[p..], RESPONSE_HEAD);
            && (forall i :: 0 <= i < |frames| ==> |frames[i]| >= RESPONSE_HEAD)
            && Arrivals(recvd, after, p) == (ArrivalsOf(frames), true)
    decreases |recvd| - p
  {
    hide FromBe16, BytesAt, LenAt, FrameLen, Whole, Frames, ArrivalAt, ArrivalOf;
    var buf := recvd[p..];
    if buf == [] {
      NoFrames(RESPONSE_HEAD);
      assert ArrivalsOf([]) == [];
    } else {
      NextFrame(buf, RESPONSE_HEAD);
      var len := FrameLen(buf);
      WholeAt(recvd, after, p, len);
      WholeIsRead(recvd, after, p + len);
      ArrivalIs(recvd, after, p, len);
      assert ArrivalsOf([buf[..len]] + Frames(buf[len..], RESPONSE_HEAD)) ==
             [ArrivalOf(buf[..len])] + ArrivalsOf(Frames(buf[len..], RESPONSE_HEAD));
    }
  }

  lemma ArrivalIs(recvd: Text, after: nat -> Byte, p: nat, len: nat)
    requires LenAt(recvd, after, p) == len >= RESPONSE_HEAD && p + len <= |recvd|
    ensures ArrivalAt(recvd, after, p) == ArrivalOf(recvd[p..][..len])
  {
    hide FromBe16, BytesAt, LenAt;
    var f := recvd[p..][..len];
    assert f[2..4] == recvd[p + 2..p + 4] && f[5..] == recvd[p + 5..p + len];
  }

  lemma ArrivalsEnd(recvd: Text, after: nat -> Byte, p: nat)
    requires p >= |recvd| || Munged(LenAt(recvd, after, p), |recvd|)
    ensures Arrivals(recvd, after, p) == ([], p >= |recvd|)
    ensures forall slots :: DeliverAll(slots, []) == slots
  {
  }

  lemma DeliverFirst(slots: seq<Slot>, a: Arrival, rest: seq<Arrival>)
    requires Addressed([a] + rest) && Addressed(rest) && a.reqid != 0
    ensures DeliverAll(slots, [a] + rest) == DeliverAll(Deliver(slots, a), rest)
  {
    assert ([a] + rest)[1..] == rest;
  }

  // One pass of the receive loop that finds a response.
  lemma ArrivalsNext(recvd: Text, after: nat -> Byte, p: nat)
    requires p < |recvd| && !Munged(LenAt(recvd, after, p), |recvd|)
    ensures var (arrivals, ok) := Arrivals(recvd, after, p);
            var (rest, ok') := Arrivals(recvd, after, p + LenAt(recvd, after, p));
            && arrivals == [ArrivalAt(recvd, after, p)] + rest && ok == ok'
            && (Addressed(arrivals) ==> Addressed([ArrivalAt(recvd, after, p)]) && Addressed(rest))
  {
    hide ArrivalAt, LenAt;
    var a, rest := ArrivalAt(recvd, after, p), Arrivals(recvd, after, p + LenAt(recvd, after, p)).0;
    assert ([a] + rest)[0] == a;
    assert forall i :: 0 <= i < |rest| ==> rest[i] == ([a] + rest)[i + 1];
  }

  class Sphincter {
    var responses: seq<Slot>

    constructor ()
      ensures responses == []
    {
      responses := [];
    }

    // grow_responses and delresponse, before a command is sent.
    method Prepare(tid: Short)
      requires tid != 0
      modifies this
      ensures responses == Prepared(old(responses), tid)
    {
      while |responses| < tid
        invariant |old(responses)| <= |responses| && responses == Grown(old(responses), |responses|)
        invariant |responses| <= tid || responses == old(responses)
      {
        responses := responses + [EMPTY_SLOT];
      }
      assert responses == Grown(old(responses), tid);
      responses := responses[tid - 1 := responses[tid - 1].(reqid := NO_RESPONSE, buffer := [])];
    }

    method AddResponse(reqid: Short, code: Byte, data: Option<Text>)
      requires reqid != 0
      modifies this
      ensures responses == Deliver(old(responses), Arrival(reqid, code, data))
    {
      if |responses| < reqid {
        return;
      }
      var errcode := NAST_UNKNOWN_RESPONSE;
      if code == NASTOK {
        errcode := NAST_OK;
      } else if code == NASTERR {
        errcode := NAST_SERVER_ERR;
      }
      var buffer := [];
      if data == None {
        errcode := NAST_NOMEM;
      } else {
        buffer := data.value;
      }
      responses := responses[reqid - 1 := Slot(reqid, errcode, buffer)];
    }

    // The response at position p is taken apart and kept.
    method ReadArrival(recvd: Text, after: nat -> Byte, p: nat, bufflen: Short)
      requires bufflen == LenAt(recvd, after, p) && Addressed([ArrivalAt(recvd, after, p)])
      modifies this
      ensures ArrivalAt(recvd, after, p).reqid != 0
      ensures responses == Deliver(old(responses), ArrivalAt(recvd, after, p))
    {
      hide Deliver, ByteAt, FromBe16, BytesAt, LenAt;
      assert [ArrivalAt(recvd, after, p)][0].reqid != 0;
      var data := None;
      if bufflen >= 5 {
        data := Some(BytesAt(recvd, after, p + 5, bufflen - 5));
      }
      AddResponse(FromBe16(BytesAt(recvd, after, p + 2, 2)), ByteAt(recvd, after, p + 4), data);
    }

    // The frame loop of getresponse on what one recv returned.
    method Receive(recvd: Text, after: nat -> Byte) returns (ok: bool)
      requires Addressed(Arrivals(recvd, after, 0).0)
      modifies this
      ensures ok == (|recvd| >= RESPONSE_HEAD && Arrivals(recvd, after, 0).1)
      ensures responses == if |recvd| < RESPONSE_HEAD then old(responses)
                           else DeliverAll(old(responses), Arrivals(recvd, after, 0).0)
    {
      hide Deliver, ByteAt, FromBe16, BytesAt, LenAt, ArrivalAt, Arrivals, DeliverAll;
      if |recvd| < RESPONSE_HEAD {
        return false;
      }
      ghost var all := Arrivals(recvd, after, 0);
      var p := 0;
      while p < |recvd|
        invariant Arrivals(recvd, after, p).1 == all.1 && Addressed(Arrivals(recvd, after, p).0)
        invariant DeliverAll(old(responses), all.0) == DeliverAll(responses, Arrivals(recvd, after, p).0)
        decreases |recvd| - p
      {
        var bufflen := LenAt(recvd, after, p);
        if bufflen == 0 || bufflen >= MAX_FRAME || bufflen > |recvd| {
          ArrivalsEnd(recvd, after, p);
          return false;
        }
        ArrivalsNext(recvd, after, p);
        assert [ArrivalAt(recvd, after, p)][0].reqid != 0;
        DeliverFirst(responses, ArrivalAt(recvd, after, p), Arrivals(recvd, after, p + bufflen).0);
        ReadArrival(recvd, after, p, bufflen);
        p := p + bufflen;
      }
      ArrivalsEnd(recvd, after, p);
      ok := true;
    }

    // checkresponse, then nast_get_result.
    method GetResult(tid: Short) returns (r: Option<(ErrCode, seq<Text>)>)
      requires tid != 0
      ensures r == Got(responses, tid)
    {
      hide Split;
      if |responses| < tid || responses[tid - 1].reqid == NO_RESPONSE {
        return None;
      }
      var aa := SplitAll(responses[tid - 1].buffer, NASTSEP);
      return Some((responses[tid - 1].errcode, aa));
    }
  }
}
