// The bytes on the wire: what the frames of the protocol of include/nastipc.h look
// like, and what a client makes of any bytes that it receives.
module WireBytes {
  import opened Bytes
  import opened Wrappers
  import opened Separated
  import opened Wire
  import opened Client

  // Two bytes, the high one first, that say n.
  predicate Says(hi: Byte, lo: Byte, n: nat) {
    256 * (hi as int) + lo == n
  }

  // Length and request id of a frame.
  predicate Head(f: Text, reqid: Short) {
    4 <= |f| < 32768 && Says(f[0], f[1], |f|) && Says(f[2], f[3], reqid)
  }

  // ---- Frames ----

  // A frame says its length and its id in its first four bytes, and no other text
  // reads the same.
  lemma FrameBytes(f: Text, reqid: Short, body: Text)
    requires 4 + |body| < 32768
    ensures f == Frame(reqid, body) <==> Head(f, reqid) && f[4..] == body
  {
    var g := Frame(reqid, body);
    assert g[4..] == body;
    if Head(f, reqid) && f[4..] == body {
      assert f == [f[0], f[1], f[2], f[3]] + f[4..];
      assert g == [g[0], g[1], g[2], g[3]] + g[4..];
    }
  }

  // What the receivers read.
  lemma ReadsBytes(f: Text)
    requires |f| >= 4
    ensures Says(f[0], f[1], FrameLen(f)) && Says(f[2], f[3], FrameId(f))
    ensures Framed(f, 5) <==> 5 <= |f| < 32768 && Says(f[0], f[1], |f|)
    ensures Framed(f, 6) <==> 6 <= |f| < 32768 && Says(f[0], f[1], |f|)
  {
  }

  lemma CommandBytes(c: Command)
    requires 6 + |c.args| < 32768
    ensures var f := CommandFrame(c);
            Head(f, c.reqid) && |f| == 6 + |c.args| && f[4] == 255 && f[5] == c.code && f[6..] == c.args
  {
    var f := CommandFrame(c);
    var body := [NASTCMD, c.code] + c.args;
    FrameBytes(f, c.reqid, body);
    assert f[4] == body[0] && f[5] == body[1] && f[6..] == body[2..];
  }

  lemma ResponseBytes(r: Response)
    requires 5 + |r.data| < 32768
    ensures var f := ResponseFrame(r);
            Head(f, r.reqid) && |f| == 5 + |r.data| && f[4] == r.code && f[5..] == r.data
  {
    var f := ResponseFrame(r);
    var body := [r.code] + r.data;
    FrameBytes(f, r.reqid, body);
    assert f[4] == body[0] && f[5..] == body[1..];
  }

  // ---- Requests ----

  lemma GetBytes(reqid: Short, query: Text)
    requires |query| <= 506
    ensures var f := CommandFrame(GetCommand(reqid, Query(query)));
            && Head(f, reqid) && |f| == 6 + |query| && f[4] == 255 && f[5] == 4
            && if |query| <= 505 then f[6..] == query else f[6..511] == query[..505] && f[511] == 0
  {
    var f := CommandFrame(GetCommand(reqid, Query(query)));
    CommandBytes(GetCommand(reqid, Query(query)));
    assert |query| == 506 ==> f[6..511] == f[6..][..505] && f[511] == f[6..][505];
  }

  // Nothing is sent exactly if key and values need more than 505 bytes; the byte
  // behind the key is 252 unless the key fills the buffer.
  lemma UpdateBytes(reqid: Short, key: Text, vals: seq<Text>)
    requires |key| <= 505 || vals != []
    ensures UpdateSent(reqid, key, vals) == None <==> |key| + |Join(vals, 252)| > 505
    ensures UpdateSent(reqid, key, vals).Some? ==>
              Sendable(UpdateSent(reqid, key, vals).value)
              && var f, end := CommandFrame(UpdateSent(reqid, key, vals).value), 6 + |key|;
                 && Head(f, reqid) && end < |f| && f[4] == 255 && f[5] == 3
                 && f[6..end] == key && f[end + 1..] == Join(vals, 252)
                 && f[end] == if |key| == 505 then 0 else 252
  {
    hide Join;
    if UpdateSent(reqid, key, vals).Some? {
      var command := UpdateSent(reqid, key, vals).value;
      CommandBytes(command);
      UpdateArgs(CommandFrame(command), reqid, key, vals);
    }
  }

  lemma UpdateArgs(f: Text, reqid: Short, key: Text, vals: seq<Text>)
    requires UpdateSent(reqid, key, vals).Some? && |f| >= 6
    requires f[6..] == UpdateSent(reqid, key, vals).value.args
    ensures var end := 6 + |key|;
            && end < |f| && f[6..end] == key && f[end + 1..] == Join(vals, 252)
            && f[end] == if |key| == 505 then 0 else 252
  {
    hide Join;
    var args := f[6..];
    var end := 6 + |key|;
    var sep: Byte := if |key| == 505 then 0 else 252;
    assert |key| == 505 ==> |Join(vals, 252)| == 0;
    assert args == key + [sep] + Join(vals, 252);
    assert f[6..end] == args[..|key|] && f[end] == args[|key|] && f[end + 1..] == args[|key| + 1..];
  }

  lemma BareBytes(reqid: Short)
    ensures var f := CommandFrame(Command(reqid, NASTSTATS, [])); Head(f, reqid) && f[4..] == [255, 32]
    ensures var f := CommandFrame(Command(reqid, NASTDIE, [])); Head(f, reqid) && f[4..] == [255, 15]
  {
    CommandBytes(Command(reqid, NASTSTATS, []));
    CommandBytes(Command(reqid, NASTDIE, []));
  }

  // ---- Responses ----

  // Frames with room for a code.
  predicate AllFramed(frames: seq<Text>) {
    forall i :: 0 <= i < |frames| ==> Framed(frames[i], 5)
  }

  // What is behind them begins with a length that the client does not believe: not
  // positive as a short, or more than was received.
  predicate Bogus(junk: Text, after: nat -> Byte, received: nat) {
    && junk != []
    && var len := 256 * junk[0] + (if |junk| > 1 then junk[1] else after(received));
       len == 0 || len >= 32768 || len > received
  }

  // Responses are taken up to such a length, and those before it are delivered.
  lemma {:induction false} BogusEnds(frames: seq<Text>, junk: Text, after: nat -> Byte, recvd: Text, p: nat)
    requires AllFramed(frames) && p <= |recvd| && recvd[p..] == Concat(frames) + junk
    requires junk == [] || Bogus(junk, after, |recvd|)
    ensures Arrivals(recvd, after, p) == (ArrivalsOf(frames), junk == [])
    decreases |frames|
  {
    hide BytesAt, LenAt, ArrivalAt, ArrivalOf, FromBe16;
    if frames == [] {
      assert ArrivalsOf([]) == [];
      if junk != [] {
        BogusLen(junk, after, recvd, p);
      }
    } else {
      var f := frames[0];
      FrameAhead(frames, junk, after, recvd, p);
      BogusEnds(frames[1..], junk, after, recvd, p + |f|);
      ArrivalIs(recvd, after, p, |f|);
      assert frames == [f] + frames[1..];
      assert ArrivalsOf(frames) == [ArrivalOf(f)] + ArrivalsOf(frames[1..]);
    }
  }

  lemma BogusLen(junk: Text, after: nat -> Byte, recvd: Text, p: nat)
    requires p <= |recvd| && recvd[p..] == junk && Bogus(junk, after, |recvd|)
    ensures Munged(LenAt(recvd, after, p), |recvd|) && p < |recvd|
  {
    var two := BytesAt(recvd, after, p, 2);
    assert two[0] == recvd[p..][0];
    assert |junk| > 1 ==> two[1] == recvd[p..][1];
  }

  lemma FrameAhead(frames: seq<Text>, junk: Text, after: nat -> Byte, recvd: Text, p: nat)
    requires AllFramed(frames) && frames != [] && p <= |recvd| && recvd[p..] == Concat(frames) + junk
    ensures var f := frames[0];
            && p + |f| <= |recvd| && recvd[p..][..|f|] == f && recvd[p + |f|..] == Concat(frames[1..]) + junk
            && LenAt(recvd, after, p) == |f| >= 5 && !Munged(|f|, |recvd|)
  {
    hide FrameLen, LenAt, Concat;
    var f, rest := frames[0], Concat(frames[1..]) + junk;
    Regroup(f, Concat(frames[1..]), junk, frames);
    FirstCut(f, rest);
    assert recvd[p + |f|..] == recvd[p..][|f|..];
    WholeAt(recvd, after, p, |f|);
    SameLength(f, rest);
  }

  lemma Regroup(f: Text, more: Text, junk: Text, frames: seq<Text>)
    requires frames != [] && f == frames[0] && more == Concat(frames[1..])
    ensures Concat(frames) + junk == f + (more + junk)
  {
  }

  lemma FirstCut(f: Text, rest: Text)
    ensures (f + rest)[..|f|] == f && (f + rest)[|f|..] == rest
  {
  }

  lemma SameLength(f: Text, rest: Text)
    requires Framed(f, 5)
    ensures FrameLen(f + rest) == |f|
  {
    assert (f + rest)[..2] == f[..2];
  }

  // A length of one to four bytes is believed: it makes a response without data.
  lemma ShortGoesOn(recvd: Text, after: nat -> Byte, p: nat)
    requires p < |recvd|
    requires 1 <= 256 * ByteAt(recvd, after, p) + ByteAt(recvd, after, p + 1) <= 4
    requires 256 * ByteAt(recvd, after, p) + ByteAt(recvd, after, p + 1) <= |recvd|
    ensures var (arrivals, ok) := Arrivals(recvd, after, p);
            var (rest, ok') := Arrivals(recvd, after, p + ByteAt(recvd, after, p + 1));
            && |arrivals| == 1 + |rest| && arrivals[1..] == rest && ok == ok'
            && arrivals[0].reqid == 256 * ByteAt(recvd, after, p + 2) + ByteAt(recvd, after, p + 3)
            && arrivals[0].code == ByteAt(recvd, after, p + 4) && arrivals[0].data == None
  {
    hide ByteAt;
    assert LenAt(recvd, after, p) == ByteAt(recvd, after, p + 1);
    ArrivalsNext(recvd, after, p);
  }

  // ---- A thread and its slot ----

  // Whatever the slot held before the command, only a response that came after it
  // is taken for its answer; and of several the last.
  lemma NothingYet(slots: seq<Slot>, tid: Short, others: seq<Arrival>)
    requires tid != 0 && ForOthers(others, tid)
    ensures Got(DeliverAll(Prepared(slots, tid), others), tid) == None
    ensures var s := DeliverAll(Prepared(slots, tid), others); |s| >= tid && s[tid - 1].buffer == []
  {
    OthersDoNotMatter(Prepared(slots, tid), others, tid);
  }

  // And a command leaves what other threads have got as it was.
  lemma OthersKept(slots: seq<Slot>, tid: Short, t: Short)
    requires tid != 0 && t != 0 && t != tid
    ensures Got(Prepared(slots, tid), t) == Got(slots, t)
  {
    hide Split;
  }

  lemma {:induction false} SlotsStay(slots: seq<Slot>, arrivals: seq<Arrival>)
    requires Addressed(arrivals)
    ensures |DeliverAll(slots, arrivals)| == |slots|
    decreases |arrivals|
  {
    if arrivals != [] {
      SlotsStay(Deliver(slots, arrivals[0]), arrivals[1..]);
    }
  }

  lemma LastIsGot(slots: seq<Slot>, a: Arrival, before: seq<Arrival>, after: seq<Arrival>)
    requires a.reqid != 0 && Addressed(before) && ForOthers(after, a.reqid)
    ensures Addressed(before + [a] + after)
    ensures Got(DeliverAll(Prepared(slots, a.reqid), before + [a] + after), a.reqid) ==
            if a.reqid == 65535 then None
            else if a.data == None then Some((NAST_NOMEM, [[]]))
            else Some((if a.code == 241 then NAST_OK else if a.code == 242 then NAST_SERVER_ERR else NAST_UNKNOWN_RESPONSE,
                       Split(a.data.value, 252)))
  {
    hide Split, DeliverAll;
    var s := Prepared(slots, a.reqid);
    DeliverAllAppend(s, before, [a]);
    DeliverAllAppend(s, before + [a], after);
    SlotsStay(s, before);
    var t := DeliverAll(s, before);
    DeliverOne(t, a);
    OthersDoNotMatter(Deliver(t, a), after, a.reqid);
    EmptyText(252);
  }
}
