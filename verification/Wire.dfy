// The wire protocol of include/nastipc.h: length-prefixed frames with a
// request id, commands to the server and responses from it.
module Wire {
  import opened Bytes
  import opened Separated

  const NASTCMD: Byte := 0xff
  const NASTADD: Byte := 0x01
  const NASTDEL: Byte := 0x02
  const NASTUPD: Byte := 0x03
  const NASTGET: Byte := 0x04
  const NASTDIE: Byte := 0x0f
  const NASTOPTGET: Byte := 0x10
  const NASTOPTSET: Byte := 0x11
  const NASTSTATS: Byte := 0x20
  const NASTOK: Byte := 0xf1
  const NASTERR: Byte := 0xf2
  const NASTSEP: Byte := 0xfc

  // The options of a set command; any value but OPTFALSE is true.
  const OPTFALSE: Byte := 0x00
  const OPTTRUE: Byte := 0x01
  const OPTQCACHE: Byte := 0x01
  const OPTLOCALDB: Byte := 0x02
  const OPTFALLASYNC: Byte := 0x03
  const OPTALWAYSFALL: Byte := 0x04
  const OPTFAILONCE: Byte := 0x05
  const OPTNOFALLTHROUGH: Byte := 0x07

  // A frame length is sent as a signed short.
  const MAX_FRAME := 0x8000

  const COMMAND_HEAD := 6
  const RESPONSE_HEAD := 5

  // Length of the whole frame, request id, body.
  function Frame(reqid: Short, body: Text): (f: Text)
    requires 4 + |body| < MAX_FRAME
    ensures |f| == 4 + |body|
  {
    Be16(4 + |body|) + Be16(reqid) + body
  }

  datatype Command = Command(reqid: Short, code: Byte, args: Text)

  datatype Response = Response(reqid: Short, code: Byte, data: Text)

  predicate Sendable(c: Command) {
    COMMAND_HEAD + |c.args| < MAX_FRAME
  }

  function CommandFrame(c: Command): Text
    requires Sendable(c)
  {
    Frame(c.reqid, [NASTCMD, c.code] + c.args)
  }

  function ResponseFrame(r: Response): Text
    requires RESPONSE_HEAD + |r.data| < MAX_FRAME
  {
    Frame(r.reqid, [r.code] + r.data)
  }

  // What the receivers read out of a frame.
  function FrameLen(f: Text): Short
    requires |f| >= 2
  {
    FromBe16(f[..2])
  }

  function FrameId(f: Text): Short
    requires |f| >= 4
  {
    FromBe16(f[2..4])
  }

  // The command in a frame that says it is one.
  function CommandOf(f: Text): Command
    requires |f| >= COMMAND_HEAD
  {
    Command(FrameId(f), f[5], f[6..])
  }

  // A buffer holds whole frames of at least min bytes, back to back.
  predicate Whole(buf: Text, min: nat)
    requires min >= 4
    decreases |buf|
  {
    buf == [] || (|buf| >= min && min <= FrameLen(buf) <= |buf| && FrameLen(buf) < MAX_FRAME
                  && Whole(buf[FrameLen(buf)..], min))
  }

  function Frames(buf: Text, min: nat): seq<Text>
    requires min >= 4 && Whole(buf, min)
    decreases |buf|
  {
    if buf == [] then [] else [buf[..FrameLen(buf)]] + Frames(buf[FrameLen(buf)..], min)
  }

  function Concat(frames: seq<Text>): Text {
    if frames == [] then [] else frames[0] + Concat(frames[1..])
  }

  // A frame that says its own length.
  predicate Framed(f: Text, min: nat) {
    4 <= min <= |f| < MAX_FRAME && FrameLen(f) == |f|
  }

  lemma FrameReads(reqid: Short, body: Text)
    requires 4 + |body| < MAX_FRAME
    ensures var f := Frame(reqid, body);
            FrameLen(f) == |f| && FrameId(f) == reqid && f[4..] == body
  {
    var f := Frame(reqid, body);
    assert f[..2] == Be16(|f|) && f[2..4] == Be16(reqid);
    Be16RoundTrip(|f|);
    Be16RoundTrip(reqid);
  }

  lemma CommandReads(c: Command)
    requires Sendable(c)
    ensures var f := CommandFrame(c);
            && Framed(f, COMMAND_HEAD) && FrameId(f) == c.reqid
            && f[4] == NASTCMD && CommandOf(f) == c
  {
    var body := [NASTCMD, c.code] + c.args;
    FrameReads(c.reqid, body);
    var f := CommandFrame(c);
    assert f[4] == f[4..][0] && f[5] == f[4..][1] && f[6..] == f[4..][2..];
  }

  lemma ResponseReads(r: Response)
    requires RESPONSE_HEAD + |r.data| < MAX_FRAME
    ensures var f := ResponseFrame(r);
            Framed(f, RESPONSE_HEAD) && FrameId(f) == r.reqid && f[4] == r.code && f[5..] == r.data
  {
    FrameReads(r.reqid, [r.code] + r.data);
    var f := ResponseFrame(r);
    assert f[4] == f[4..][0] && f[5..] == f[4..][1..];
  }

  // Frames sent back to back are received as those frames, in order.
  lemma {:induction false} FramesOfConcat(frames: seq<Text>, min: nat)
    requires min >= 4 && forall i :: 0 <= i < |frames| ==> Framed(frames[i], min)
    ensures Whole(Concat(frames), min) && Frames(Concat(frames), min) == frames
  {
    if frames != [] {
      var f, buf := frames[0], Concat(frames);
      FramesOfConcat(frames[1..], min);
      assert buf[..2] == f[..2];
      assert buf[..|f|] == f && buf[|f|..] == Concat(frames[1..]);
      assert frames == [f] + frames[1..];
    }
  }

  // One pass of a receive loop.
  lemma NextFrame(buf: Text, min: nat)
    requires min >= 4 && Whole(buf, min) && buf != []
    ensures |buf| >= min && min <= FrameLen(buf) <= |buf| && FrameLen(buf) < MAX_FRAME
    ensures Whole(buf[FrameLen(buf)..], min)
    ensures Frames(buf, min) == [buf[..FrameLen(buf)]] + Frames(buf[FrameLen(buf)..], min)
  {
  }

  // ---- Frames as they lie in memory ----

  function LenAt(buf: Text, after: nat -> Byte, p: nat): Short {
    FromBe16(BytesAt(buf, after, p, 2))
  }

  // Every length met from position p on covers at least the head; the last frame
  // may run on into what follows the buffer.
  predicate Covered(buf: Text, after: nat -> Byte, p: nat, min: nat)
    requires min > 0
    decreases |buf| - p
  {
    p >= |buf| || (min <= LenAt(buf, after, p) < MAX_FRAME
                   && Covered(buf, after, p + LenAt(buf, after, p), min))
  }

  // The frames from position p on, and where the last of them ends.
  function FramesAt(buf: Text, after: nat -> Byte, p: nat, min: nat): (seq<Text>, nat)
    requires min > 0 && Covered(buf, after, p, min)
    decreases |buf| - p
  {
    if p >= |buf| then ([], p)
    else
      var len := LenAt(buf, after, p);
      var (frames, end) := FramesAt(buf, after, p + len, min);
      ([BytesAt(buf, after, p, len)] + frames, end)
  }

  // Whole frames are found as such, and nothing after them is looked at.
  lemma {:induction false} WholeIsCovered(buf: Text, after: nat -> Byte, p: nat, min: nat)
    requires min >= 4 && p <= |buf| && Whole(buf[p..], min)
    ensures Covered(buf, after, p, min)
    ensures FramesAt(buf, after, p, min) == (Frames(buf[p..], min), |buf|)
    decreases |buf| - p
  {
    hide FromBe16, BytesAt, Whole, Frames, LenAt, FrameLen;
    var rest := buf[p..];
    if rest == [] {
      NoFrames(min);
    } else {
      NextFrame(rest, min);
      var len := FrameLen(rest);
      WholeAt(buf, after, p, len);
      WholeIsCovered(buf, after, p + len, min);
    }
  }

  lemma NoFrames(min: nat)
    requires min >= 4
    ensures Whole([], min) && Frames([], min) == []
  {
  }

  // Where memory and buffer are the same.
  lemma WholeAt(buf: Text, after: nat -> Byte, p: nat, len: nat)
    requires p + 2 <= |buf| && p + len <= |buf|
    ensures LenAt(buf, after, p) == FrameLen(buf[p..])
    ensures BytesAt(buf, after, p, len) == buf[p..][..len] && buf[p + len..] == buf[p..][len..]
  {
    hide BytesAt, FromBe16;
    assert buf[p..p + 2] == buf[p..][..2];
  }

  // A frame taken from memory says its own length.
  lemma FramedAt(buf: Text, after: nat -> Byte, p: nat, min: nat)
    requires 4 <= min <= LenAt(buf, after, p) < MAX_FRAME
    ensures Framed(BytesAt(buf, after, p, LenAt(buf, after, p)), min)
  {
    var f := BytesAt(buf, after, p, LenAt(buf, after, p));
    assert f[..2] == BytesAt(buf, after, p, 2);
  }
}
