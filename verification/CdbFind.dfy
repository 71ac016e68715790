// The lookup code of server/cdb_find.c, server/cdb_hash.c and
// server/cdb_unpack.c, over an image held as a sequence of bytes.  Pointers
// into the image are offsets; `end` is |img|.
module CdbFind {
  import opened Bytes
  import opened Wrappers
  import opened CdbFormat

  const MATCH_BUFFER := 32

  method CdbHash(buf: Text) returns (h: Word)
    ensures h == HashOf(buf)
  {
    h := 5381;
    var p, len := 0, |buf|;
    while len != 0
      invariant 0 <= p <= |buf| && p + len == |buf|
      invariant h == HashOf(buf[..p])
    {
      len := len - 1;
      ShiftAdd(h);
      h := (h + h * 32 % WORD) % WORD;
      h := XorByte(h, buf[p]);
      assert buf[..p + 1][..p] == buf[..p];
      p := p + 1;
    }
    assert buf[..p] == buf;
  }

  // h += h << 5 multiplies by 33, modulo the word size.
  lemma ShiftAdd(h: Word)
    ensures (h + h * 32 % WORD) % WORD == 33 * h % WORD
  {
    var q := h * 32 / WORD;
    assert h * 32 == q * WORD + h * 32 % WORD;
    AddMultiple(h + h * 32 % WORD, q);
  }

  lemma AddMultiple(a: nat, q: nat)
    ensures (a + q * WORD) % WORD == a % WORD
  {
    if q > 0 {
      AddMultiple(a, q - 1);
      assert a + q * WORD == a + (q - 1) * WORD + WORD;
    }
  }

  method CdbUnpack(buf: Text) returns (num: Word)
    requires |buf| >= 4
    ensures num == FromLe32(buf[..4])
  {
    num := buf[3];
    num := num * 0x100 % WORD;
    num := num + buf[2];
    assert num < 0x1_0000 && num == 0x100 * buf[3] as int + buf[2];
    num := num * 0x100 % WORD;
    num := num + buf[1];
    assert num < 0x100_0000 && num == 0x1_0000 * buf[3] as int + 0x100 * buf[2] as int + buf[1];
    num := num * 0x100 % WORD;
    num := num + buf[0];
  }

  // Copies len bytes out of the image and moves past them, or fails with EIO.
  method CdbBread(img: Text, ptr: nat, len: nat) returns (ok: bool, buf: Text, ptr': nat)
    ensures ok <==> ptr + len <= |img|
    ensures if ok then ptr' == ptr + len && buf == img[ptr..ptr'] else ptr' == ptr
  {
    if ptr + len > |img| {
      return false, [], ptr;
    }
    return true, img[ptr..ptr + len], ptr + len;
  }

  // The lengths that `match` can compare to the end: the chunk size is fixed
  // before its loop, so longer keys must be whole chunks.
  predicate Comparable(len: nat) {
    len <= 32 || len % 32 == 0
  }

  // The image ends within the chunk at byte m of the key, and agrees with the key
  // up to there.
  ghost predicate OutAfter(img: Text, ptr: nat, key: Text, m: nat) {
    && m < |key| && m % 32 == 0 && ptr + m <= |img| && img[ptr..ptr + m] == key[..m]
    && ptr + m + Chunk(|key|) > |img|
  }

  ghost predicate RunsOut(img: Text, ptr: nat, key: Text) {
    exists m: nat :: OutAfter(img, ptr, key, m)
  }

  function Chunk(len: nat): nat {
    if len < 32 then len else 32
  }

  // The first n bytes of the image from ptr on are those at the key pointer.
  ghost predicate Agree(img: Text, ptr: nat, key: Text, after: nat -> Byte, n: nat)
    requires ptr + n <= |img|
  {
    forall i :: 0 <= i < n ==> img[ptr + i] == ByteAt(key, after, i)
  }

  // Compares the key with the image from ptr on, in chunks.  When the key is
  // not Comparable its length counter wraps past zero, the comparison runs
  // beyond the key, and no content of that memory can make it succeed.
  method Match(img: Text, ptr: nat, key: Text, after: nat -> Byte) returns (rc: int, ptr': nat)
    requires |key| < WORD && ptr <= |img|
    ensures rc == 0 || rc == 1 || rc == -1
    ensures rc == 1 <==>
            Comparable(|key|) && ptr + |key| <= |img| && img[ptr..ptr + |key|] == key
    ensures rc == 1 ==> ptr' == ptr + |key|
    ensures Comparable(|key|) ==> (rc == -1 <==> RunsOut(img, ptr, key))
  {
    hide Agree, RunsOut, OutAfter, Comparable;
    NoneDiffer(img, ptr, key, after);
    FirstCount(|key|);
    ptr' := ptr;
    var len := |key|;
    var n := MATCH_BUFFER;
    if n > len {
      n := len;
    }
    var k := 0;
    while len > 0
      invariant ptr' == ptr + k
      invariant ptr' <= |img|
      invariant 0 <= len < WORD && n <= MATCH_BUFFER
      invariant Comparable(|key|) ==> k + len == |key|
      invariant n < MATCH_BUFFER ==> n == |key| && (len == n || len == 0)
      invariant n == MATCH_BUFFER ==> (len % MATCH_BUFFER == 0 <==> Comparable(|key|))
      invariant n == MATCH_BUFFER || Comparable(|key|)
      invariant len > 0 ==> n > 0
      invariant Agree(img, ptr, key, after, k)
      decreases |img| + |key| - k
    {
      var ok, buf;
      ok, buf, ptr' := CdbBread(img, ptr', n);
      if !ok {
        if Comparable(|key|) {
          OutHere(img, ptr, key, after, k, len, n);
        }
        return -1, ptr';
      }
      var same := SameChunk(img, ptr, key, after, k, n, buf);
      if !same {
        if Comparable(|key|) && ptr + |key| <= |img| && img[ptr..ptr + |key|] == key {
          AgreeIfEqual(img, ptr, key, after, k + n);
        }
        if Comparable(|key|) {
          DiffersBeforeOut(img, ptr, key, after, k, len, n);
        }
        return 0, ptr';
      }
      k := k + n;
      CountDown(len, n);
      len := (len - n) % WORD;
    }
    EqualIfAgree(img, ptr, key, after);
    NotOutIfAll(img, ptr, key);
    return 1, ptr';
  }

  lemma FirstCount(len: nat)
    ensures len <= 32 ==> Comparable(len)
    ensures len > 32 ==> (Comparable(len) <==> len % 32 == 0)
  {
  }

  // The length counter is a 32-bit word.
  lemma CountDown(len: nat, n: nat)
    requires len < WORD && n <= 32
    ensures n <= len ==> (len - n) % WORD == len - n
    ensures n == 32 ==> (len - n) % WORD % 32 == len % 32
  {
  }

  // The inner loop of match: one chunk against the key from byte k on.
  method SameChunk(img: Text, ptr: nat, key: Text, after: nat -> Byte, k: nat, n: nat, buf: Text)
      returns (same: bool)
    requires ptr + k + n <= |img| && buf == img[ptr + k..ptr + k + n]
    requires Agree(img, ptr, key, after, k)
    ensures same <==> Agree(img, ptr, key, after, k + n)
  {
    for i := 0 to n
      invariant Agree(img, ptr, key, after, k + i)
    {
      assert buf[i] == img[ptr + (k + i)];
      if buf[i] != ByteAt(key, after, k + i) {
        return false;
      }
    }
    return true;
  }

  // Where the loop is when len bytes are left: at the start of a chunk.
  lemma ChunkStart(keylen: nat, k: nat, len: nat, n: nat)
    requires Comparable(keylen) && k + len == keylen && 0 < len
    requires n == Chunk(keylen) && (n == 32 ==> len % 32 == 0) && (n < 32 ==> k == 0)
    ensures k % 32 == 0 && k + n <= keylen
  {
  }

  lemma OutHere(img: Text, ptr: nat, key: Text, after: nat -> Byte, k: nat, len: nat, n: nat)
    requires Comparable(|key|) && k + len == |key| && 0 < len
    requires n == Chunk(|key|) && (n == 32 ==> len % 32 == 0) && (n < 32 ==> k == 0)
    requires ptr + k <= |img| < ptr + k + n && Agree(img, ptr, key, after, k)
    ensures RunsOut(img, ptr, key)
  {
    ChunkStart(|key|, k, len, n);
    forall i | 0 <= i < k
      ensures img[ptr..ptr + k][i] == key[..k][i]
    {
      assert img[ptr + i] == ByteAt(key, after, i);
    }
    assert img[ptr..ptr + k] == key[..k];
    assert OutAfter(img, ptr, key, k);
  }

  lemma DiffersBeforeOut(img: Text, ptr: nat, key: Text, after: nat -> Byte, k: nat, len: nat, n: nat)
    requires Comparable(|key|) && k + len == |key| && 0 < len
    requires n == Chunk(|key|) && (n == 32 ==> len % 32 == 0) && (n < 32 ==> k == 0)
    requires ptr + k + n <= |img| && !Agree(img, ptr, key, after, k + n)
    ensures !RunsOut(img, ptr, key)
  {
    hide Agree, OutAfter, Comparable;
    ChunkStart(|key|, k, len, n);
    forall m: nat
      ensures !OutAfter(img, ptr, key, m)
    {
      NotOutAt(img, ptr, key, after, k, n, m);
    }
  }

  lemma NotOutAt(img: Text, ptr: nat, key: Text, after: nat -> Byte, k: nat, n: nat, m: nat)
    requires n == Chunk(|key|) && k % 32 == 0
    requires ptr + k + n <= |img| && !Agree(img, ptr, key, after, k + n)
    ensures !OutAfter(img, ptr, key, m)
  {
    hide Agree;
    if OutAfter(img, ptr, key, m) {
      AgreesThatFar(img, ptr, key, after, m, k + n);
      NextChunk(k, m);
    }
  }

  lemma NextChunk(k: nat, m: nat)
    requires k % 32 == 0 && m % 32 == 0
    ensures m <= k || m >= k + 32
  {
  }

  lemma AgreesThatFar(img: Text, ptr: nat, key: Text, after: nat -> Byte, m: nat, n: nat)
    requires m <= |key| && ptr + m <= |img| && img[ptr..ptr + m] == key[..m] && ptr + n <= |img|
    ensures n <= m ==> Agree(img, ptr, key, after, n)
  {
    if n <= m {
      forall i | 0 <= i < n
        ensures img[ptr + i] == ByteAt(key, after, i)
      {
        assert img[ptr..ptr + m][i] == key[..m][i];
      }
    }
  }

  lemma NotOutIfAll(img: Text, ptr: nat, key: Text)
    ensures Comparable(|key|) && ptr + |key| <= |img| ==> !RunsOut(img, ptr, key)
  {
  }

  lemma NoneDiffer(img: Text, ptr: nat, key: Text, after: nat -> Byte)
    requires ptr <= |img|
    ensures Agree(img, ptr, key, after, 0)
  {
  }

  lemma AgreeIfEqual(img: Text, ptr: nat, key: Text, after: nat -> Byte, n: nat)
    requires n <= |key| && ptr + |key| <= |img| && img[ptr..ptr + |key|] == key
    ensures Agree(img, ptr, key, after, n)
  {
    forall i | 0 <= i < n
      ensures img[ptr + i] == ByteAt(key, after, i)
    {
      assert img[ptr + i] == img[ptr..ptr + |key|][i];
    }
  }

  lemma EqualIfAgree(img: Text, ptr: nat, key: Text, after: nat -> Byte)
    requires ptr + |key| <= |img| && Agree(img, ptr, key, after, |key|)
    ensures img[ptr..ptr + |key|] == key
  {
    forall i | 0 <= i < |key|
      ensures img[ptr..ptr + |key|][i] == key[i]
    {
      assert img[ptr + i] == ByteAt(key, after, i);
    }
  }

  // The record that a successful search points at: its key is the one asked
  // for, ret is the offset of its data and retlen the data length it declares.
  ghost predicate Answer(img: Text, key: Text, ret: nat, retlen: Word) {
    && 8 + |key| <= ret <= |img|
    && img[ret - |key|..ret] == key
    && WordAt(img, ret - |key| - 8) == |key|
    && WordAt(img, ret - |key| - 4) == retlen
  }

  // One step of reading a header pointer, a slot or a record head: the bounds
  // check on the pointer, then two words.
  method ReadPair(img: Text, ptr: nat) returns (ok: bool, first: Word, second: Word, ptr': nat)
    ensures ok <==> ptr + 8 <= |img|
    ensures ok ==> first == WordAt(img, ptr) && second == WordAt(img, ptr + 4) && ptr' == ptr + 8
  {
    if ptr > |img| {
      return false, 0, 0, ptr;
    }
    var packbuf;
    ok, packbuf, ptr' := CdbBread(img, ptr, 8);
    if !ok {
      return false, 0, 0, ptr;
    }
    assert packbuf[..4] == img[ptr..ptr + 4];
    assert packbuf[4..][..4] == img[ptr + 4..ptr + 8];
    first := CdbUnpack(packbuf);
    second := CdbUnpack(packbuf[4..]);
  }

  // How one pass of the probe loop ends.
  datatype Outcome = IoError | Empty | Hit | Passed

  // What an outcome says about the slot at an address and the record it names.
  ghost predicate Tried(img: Text, key: Text, h: Word, slot: nat, o: Outcome, ret: nat, retlen: Word) {
    var fits := slot + 8 <= |img|;
    var p := if fits then WordAt(img, slot + 4) else 0;
    var selected := fits && p != 0 && WordAt(img, slot) == h;
    var candidate := selected && p + 8 <= |img| && WordAt(img, p) == |key|;
    match o
    case Empty => fits && p == 0
    case Hit => candidate && Comparable(|key|) && Answer(img, key, ret, retlen) && ret == p + 8 + |key|
    case Passed =>
      && fits && p != 0
      && (selected ==> p + 8 <= |img|)
      && (candidate && Comparable(|key|) ==>
            && !RunsOut(img, p + 8, key)
            && (p + 8 + |key| > |img| || img[p + 8..p + 8 + |key|] != key))
    case IoError =>
      Comparable(|key|) && fits ==> selected && (p + 8 > |img| || (candidate && RunsOut(img, p + 8, key)))
  }

  // The body of the probe loop: read a slot and, if its hash matches, compare
  // the key of its record.
  method TrySlot(img: Text, key: Text, after: nat -> Byte, h: Word, slot: nat)
      returns (o: Outcome, ret: nat, retlen: Word)
    requires |key| < WORD
    ensures Tried(img, key, h, slot, o, ret, retlen)
    ensures o == Hit ==> Comparable(|key|) && Answer(img, key, ret, retlen)
  {
    var ok, slotHash, poskd, cur := ReadPair(img, slot);
    if !ok {
      return IoError, 0, 0;
    }
    if poskd == 0 {
      return Empty, 0, 0;
    }
    if slotHash == h {
      var keyLen;
      ok, keyLen, retlen, cur := ReadPair(img, poskd);
      if !ok {
        return IoError, 0, 0;
      }
      if keyLen == |key| {
        var m;
        m, ret := Match(img, cur, key, after);
        if m == -1 {
          return IoError, 0, 0;
        } else if m == 1 {
          return Hit, ret, retlen;
        }
      }
    }
    return Passed, 0, 0;
  }

  // What an outcome means for a slot that satisfies the format.
  lemma OutcomeAtSlot(img: Text, t: nat, s: nat, key: Text, o: Outcome, ret: nat, retlen: Word)
    requires HasTable(img, t) && s < TableLen(img, t) && SlotOk(img, t, s)
    requires TableOf(HashOf(key)) == t
    requires Tried(img, key, HashOf(key), TablePos(img, t) + 8 * s, o, ret, retlen)
    ensures o == Empty ==> !Occupied(img, t, s)
    ensures o == Hit ==>
              && Comparable(|key|) && HoldsKey(img, t, s, key) && ret + retlen <= |img|
              && RecordData(img, SlotRecord(img, t, s)) == img[ret..ret + retlen]
    ensures Comparable(|key|) ==> o != IoError
    ensures Comparable(|key|) && o == Passed ==> !HoldsKey(img, t, s, key)
  {
    hide HashOf, WordAt, RunsOut, Comparable, TableOf;
    var slot := TablePos(img, t) + 8 * s;
    NotOutIfAll(img, SlotRecord(img, t, s) + 8, key);
    assert WordAt(img, slot) == SlotHash(img, t, s) && WordAt(img, slot + 4) == SlotRecord(img, t, s);
    assert slot + 8 <= |img|;
  }

  // In a well-formed image each outcome settles the probe it came from.
  lemma ProbeSettled(img: Text, key: Text, j: nat, o: Outcome, ret: nat, retlen: Word)
    requires WellFormed(img) && j < TableLen(img, HomeTable(key))
    requires Comparable(|key|) ==> Missed(img, key, j)
    requires var t := HomeTable(key);
             Tried(img, key, HashOf(key), TablePos(img, t) + 8 * KeySlot(img, key, j), o, ret, retlen)
    ensures o == Hit ==>
              && Stored(img, key) && ret + retlen <= |img|
              && Lookup(img, key) == Some(img[ret..ret + retlen])
    ensures Comparable(|key|) ==> o != IoError
    ensures Comparable(|key|) && o == Empty ==> !Stored(img, key)
    ensures Comparable(|key|) && o == Passed ==> Missed(img, key, j + 1)
  {
    hide WellFormed, HashOf, Tried, Lookup, Stored, HoldsKey, RecordData, SlotRecord, KeySlot, SlotOk;
    hide Occupied, Missed, TableOf, TablePos;
    ProbedSlotOk(img, key, j);
    OutcomeAtSlot(img, HomeTable(key), KeySlot(img, key, j), key, o, ret, retlen);
    if o == Hit {
      HitIsAnswer(img, key, j);
    } else if Comparable(|key|) && o == Empty {
      EmptySlotProvesAbsence(img, key, j);
    } else if Comparable(|key|) && o == Passed {
      MissedMore(img, key, j);
    }
  }

  lemma ProbedSlotOk(img: Text, key: Text, j: nat)
    requires WellFormed(img) && j < TableLen(img, HomeTable(key))
    ensures HasTable(img, HomeTable(key)) && SlotOk(img, HomeTable(key), KeySlot(img, key, j))
    ensures TableOf(HashOf(key)) == HomeTable(key)
  {
    hide HashOf, SlotOk;
  }

  lemma MissedMore(img: Text, key: Text, j: nat)
    requires WellFormed(img) && j < TableLen(img, HomeTable(key)) && Missed(img, key, j)
    requires !HoldsKey(img, HomeTable(key), KeySlot(img, key, j), key)
    ensures Missed(img, key, j + 1)
  {
    hide HoldsKey, HashOf, KeySlot;
  }

  // Slot addresses of a well-formed image do not wrap.
  lemma SlotAddress(img: Text, t: nat, s: nat)
    requires WellFormed(img) && t < TABLES && s < TableLen(img, t)
    ensures TablePos(img, t) + 8 * s + 8 <= |img|
    ensures (TablePos(img, t) + 8 * s) % WORD == TablePos(img, t) + 8 * s
  {
    assert HasTable(img, t);
  }

  // Where probe j of a table at pos finds its slot, in 32 bits.
  function SlotAt(pos: Word, h: Word, n: nat, j: nat): nat
    requires j < n
  {
    (pos + 8 * ProbeSlot(h, n, j)) % WORD
  }

  ghost predicate AllPassed(img: Text, key: Text, h: Word, pos: Word, n: nat, count: nat)
    requires count <= n
  {
    forall j :: 0 <= j < count ==> Tried(img, key, h, SlotAt(pos, h, n, j), Passed, 0, 0)
  }

  // How the search ends on any image at all: at a pointer that cannot be read, in
  // a table without slots, after a whole tour, or at the first probe that is not
  // passed over.
  ghost predicate Ended(img: Text, key: Text, rc: int) {
    var h := HashOf(key);
    var p := 8 * (h % 256);
    if p + 8 > |img| then rc == -1
    else
      var pos, n := WordAt(img, p), WordAt(img, p + 4);
      if n == 0 then rc == 0
      else (AllPassed(img, key, h, pos, n, n) && rc == 0) || EndedAtProbe(img, key, h, pos, n, rc)
  }

  ghost predicate EndedAtProbe(img: Text, key: Text, h: Word, pos: Word, n: nat, rc: int) {
    exists j :: 0 <= j < n && AllPassed(img, key, h, pos, n, j) && EndsAt(img, key, h, SlotAt(pos, h, n, j), rc)
  }

  ghost predicate EndsAt(img: Text, key: Text, h: Word, slot: nat, rc: int) {
    || (rc == -1 && Tried(img, key, h, slot, IoError, 0, 0))
    || (rc == 0 && Tried(img, key, h, slot, Empty, 0, 0))
    || (rc == 1 && exists ret: nat, retlen: Word :: Tried(img, key, h, slot, Hit, ret, retlen))
  }

  lemma EndsHere(img: Text, key: Text, h: Word, pos: Word, n: nat, j: nat, o: Outcome, ret: nat, retlen: Word, rc: int)
    requires j < n && AllPassed(img, key, h, pos, n, j) && Tried(img, key, h, SlotAt(pos, h, n, j), o, ret, retlen)
    requires (o == IoError && rc == -1) || (o == Empty && rc == 0) || (o == Hit && rc == 1)
    ensures EndedAtProbe(img, key, h, pos, n, rc)
  {
    hide SlotAt, AllPassed;
    var slot := SlotAt(pos, h, n, j);
    assert o != Hit ==> Tried(img, key, h, slot, o, 0, 0);
    hide Tried;
    assert EndsAt(img, key, h, slot, rc);
  }

  // If the home slot cannot be read, the search is an error.
  lemma FirstProbeBreaks(img: Text, key: Text, h: Word, pos: Word, n: nat, rc: int)
    requires n > 0 && SlotAt(pos, h, n, 0) + 8 > |img|
    requires (AllPassed(img, key, h, pos, n, n) && rc == 0) || EndedAtProbe(img, key, h, pos, n, rc)
    ensures rc == -1
  {
    hide SlotAt, Tried, AllPassed, EndsAt;
    NotPassed(img, key, h, pos, n, n);
    var j :| 0 <= j < n && AllPassed(img, key, h, pos, n, j) && EndsAt(img, key, h, SlotAt(pos, h, n, j), rc);
    NotPassed(img, key, h, pos, n, j);
    BrokenSlot(img, key, h, SlotAt(pos, h, n, j), rc);
  }

  lemma NotPassed(img: Text, key: Text, h: Word, pos: Word, n: nat, count: nat)
    requires count <= n && n > 0 && SlotAt(pos, h, n, 0) + 8 > |img|
    ensures AllPassed(img, key, h, pos, n, count) ==> count == 0
  {
    hide SlotAt, WordAt;
  }

  lemma BrokenSlot(img: Text, key: Text, h: Word, slot: nat, rc: int)
    requires slot + 8 > |img| && EndsAt(img, key, h, slot, rc)
    ensures rc == -1
  {
    hide WordAt, Answer;
  }

  lemma NonePassed(img: Text, key: Text, h: Word, pos: Word, n: nat)
    ensures AllPassed(img, key, h, pos, n, 0)
  {
  }

  lemma PassedOneMore(img: Text, key: Text, h: Word, pos: Word, n: nat, j: nat, ret: nat, retlen: Word)
    requires j < n && AllPassed(img, key, h, pos, n, j) && Tried(img, key, h, SlotAt(pos, h, n, j), Passed, ret, retlen)
    ensures AllPassed(img, key, h, pos, n, j + 1)
  {
    hide SlotAt;
  }

  method CdbFind(img: Text, key: Text, after: nat -> Byte) returns (rc: int, ret: nat, retlen: Word)
    requires |key| < WORD
    ensures rc == 0 || rc == 1 || rc == -1
    // On any image at all, success means the key matched.
    ensures rc == 1 ==> Comparable(|key|) && Answer(img, key, ret, retlen)
    ensures Ended(img, key, rc)
    // On a well-formed image the search is exact for the comparable lengths.
    ensures WellFormed(img) && Comparable(|key|) ==> rc == if Stored(img, key) then 1 else 0
    ensures WellFormed(img) && rc == 1 ==>
              && ret + retlen <= |img|
              && Lookup(img, key) == Some(img[ret..ret + retlen])
  {
    hide HashOf, Tried, Answer, Lookup, Stored, HoldsKey, WordAt, AllPassed, EndedAtProbe;
    var h := CdbHash(key);
    var ok, pos, lenhash, _ := ReadPair(img, 8 * (h % 256));
    if !ok {
      return -1, 0, 0;
    }
    if lenhash == 0 {
      if WellFormed(img) {
        FullTourProvesAbsence(img, key);
      }
      return 0, 0, 0;
    }
    var h2 := h / 256 % lenhash;
    var loop := 0;
    NonePassed(img, key, h, pos, lenhash);
    while loop < lenhash
      invariant loop <= lenhash
      invariant h2 == ProbeSlot(h, lenhash, loop)
      invariant AllPassed(img, key, h, pos, lenhash, loop)
      invariant WellFormed(img) && Comparable(|key|) ==> Missed(img, key, loop)
    {
      var o;
      o, ret, retlen := TrySlot(img, key, after, h, (pos + 8 * h2) % WORD);
      if o == Passed {
        PassedOneMore(img, key, h, pos, lenhash, loop, ret, retlen);
      } else {
        EndsHere(img, key, h, pos, lenhash, loop, o, ret, retlen,
                 if o == IoError then -1 else if o == Empty then 0 else 1);
      }
      if WellFormed(img) {
        SlotAddress(img, HomeTable(key), h2);
        ProbeSettled(img, key, loop, o, ret, retlen);
      }
      match o {
        case IoError => return -1, 0, 0;
        case Empty => return 0, 0, 0;
        case Hit => return 1, ret, retlen;
        case Passed =>
      }
      h2 := h2 + 1;
      if h2 == lenhash {
        h2 := 0;
      }
      loop := loop + 1;
    }
    if WellFormed(img) && Comparable(|key|) {
      FullTourProvesAbsence(img, key);
    }
    return 0, 0, 0;
  }

  lemma HitIsAnswer(img: Text, key: Text, j: nat)
    requires WellFormed(img)
    requires j < TableLen(img, HomeTable(key)) && Missed(img, key, j)
    requires HoldsKey(img, HomeTable(key), KeySlot(img, key, j), key)
    ensures Stored(img, key)
    ensures Lookup(img, key) ==
            Some(RecordData(img, SlotRecord(img, HomeTable(key), KeySlot(img, key, j))))
  {
    assert FirstHit(img, key, j);
    var i: nat :| FirstHit(img, key, i) &&
                  Lookup(img, key) == Some(RecordData(img, SlotRecord(img, HomeTable(key), KeySlot(img, key, i))));
    FirstHitUnique(img, key, i, j);
  }
}
