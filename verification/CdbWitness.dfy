// A database of one record: well-formed images exist, for every key and every
// datum, and not every stored key in them is found.
module CdbWitness {
  import opened Bytes
  import opened Wrappers
  import opened CdbFormat
  import opened CdbFind
  import opened CdbRecord

  // The header points at one table of one slot; the other tables are empty.
  function Header(t: nat, pos: Word): (s: Text)
    ensures |s| == HEADER
  {
    seq(HEADER, i requires 0 <= i < HEADER => if i / 8 == t then (Le32(pos) + Le32(1))[i % 8] else 0)
  }

  function Record(key: Text, data: Text): (r: Text)
    requires |key| < WORD && |data| < WORD
    ensures |r| == 8 + |key| + |data|
  {
    Le32(|key|) + Le32(|data|) + key + data
  }

  function OneRecord(key: Text, data: Text): Text
    requires HEADER + |key| + |data| + 16 < WORD
  {
    Header(HomeTable(key), HEADER + 8 + |key| + |data|) +
    Record(key, data) + (Le32(HashOf(key)) + Le32(HEADER))
  }

  lemma HeaderWords(key: Text, data: Text, t: nat)
    requires HEADER + |key| + |data| + 16 < WORD && t < TABLES
    ensures var img := OneRecord(key, data);
            && TablePos(img, t) == (if t == HomeTable(key) then HEADER + 8 + |key| + |data| else 0)
            && TableLen(img, t) == if t == HomeTable(key) then 1 else 0
  {
    hide HashOf, Le32, FromLe32, Header, Record;
    var img, home := OneRecord(key, data), HomeTable(key);
    var pos := HEADER + 8 + |key| + |data|;
    var header := Header(home, pos);
    HeaderEntry(home, pos, t);
    assert img[8 * t..8 * t + 4] == header[8 * t..8 * t + 8][..4];
    assert img[8 * t + 4..8 * t + 8] == header[8 * t..8 * t + 8][4..];
    Le32RoundTrip(pos);
    Le32RoundTrip(1);
    Le32RoundTrip(0);
  }

  lemma HeaderEntry(home: nat, pos: Word, t: nat)
    requires t < TABLES
    ensures Header(home, pos)[8 * t..8 * t + 8] ==
            if t == home then Le32(pos) + Le32(1) else Le32(0) + Le32(0)
  {
    var header := Header(home, pos);
    var pair := if t == home then Le32(pos) + Le32(1) else Le32(0) + Le32(0);
    forall i | 0 <= i < 8
      ensures header[8 * t..8 * t + 8][i] == pair[i]
    {
      assert (8 * t + i) / 8 == t && (8 * t + i) % 8 == i;
    }
  }

  lemma RecordWords(key: Text, data: Text)
    requires HEADER + |key| + |data| + 16 < WORD
    ensures var img, pos := OneRecord(key, data), HEADER + 8 + |key| + |data|;
            && pos + 8 == |img|
            && HasRecord(img, HEADER) && RecordKey(img, HEADER) == key && RecordData(img, HEADER) == data
            && WordAt(img, pos) == HashOf(key) && WordAt(img, pos + 4) == HEADER
  {
    hide HashOf, FromLe32, Le32;
    var img, pos := OneRecord(key, data), HEADER + 8 + |key| + |data|;
    Le32RoundTrip(|key|);
    Le32RoundTrip(|data|);
    Le32RoundTrip(HashOf(key));
    Le32RoundTrip(HEADER);
    assert img[HEADER..HEADER + 4] == Le32(|key|);
    assert img[HEADER + 4..HEADER + 8] == Le32(|data|);
    assert img[pos..pos + 4] == Le32(HashOf(key));
    assert img[pos + 4..pos + 8] == Le32(HEADER);
    assert img[HEADER + 8..HEADER + 8 + |key|] == key;
    assert img[HEADER + 8 + |key|..HEADER + 8 + |key| + |data|] == data;
  }

  lemma OneRecordWellFormed(key: Text, data: Text)
    requires HEADER + |key| + |data| + 16 < WORD
    ensures WellFormed(OneRecord(key, data))
    ensures Stored(OneRecord(key, data), key)
    ensures Lookup(OneRecord(key, data), key) == Some(data)
  {
    hide HashOf, FromLe32, Le32, OneRecord;
    var img := OneRecord(key, data);
    var home := HomeTable(key);
    RecordWords(key, data);
    forall t: nat | t < TABLES
      ensures HasTable(img, t) && TableLen(img, t) == if t == home then 1 else 0
    {
      HeaderWords(key, data, t);
    }
    HeaderWords(key, data, home);
    assert SlotOk(img, home, 0);
    assert Reachable(img, home, 0) by {
      assert ProbeSlot(HashOf(key), 1, 0) == 0;
      assert Crowded(img, home, HashOf(key), 0);
    }
    assert WellFormed(img);
    assert HoldsKey(img, home, 0, key);
    HitIsAnswer(img, key, 0);
  }

  // The lookup promise fails for these keys: the record is there, and whatever
  // follows the key in memory, the search does not return it.
  method LongKeyIsLost(key: Text, data: Text, after: nat -> Byte) returns (rc: int)
    requires HEADER + |key| + |data| + 16 < WORD
    requires !Comparable(|key|)
    ensures WellFormed(OneRecord(key, data)) && Lookup(OneRecord(key, data), key) == Some(data)
    ensures rc != 1
  {
    OneRecordWellFormed(key, data);
    var r, _, _ := CdbFind.CdbFind(OneRecord(key, data), key, after);
    rc := r;
  }

  // Nor does it in an image too long for an int, whatever the key.
  method LongImageIsLost(key: Text, data: Text, after: nat -> Byte) returns (r: Option<(nat, Word)>)
    requires HEADER + |key| + |data| + 16 < WORD
    requires HEADER + |key| + |data| + 16 >= 0x8000_0000
    ensures WellFormed(OneRecord(key, data)) && Lookup(OneRecord(key, data), key) == Some(data)
    ensures r == None
  {
    hide WellFormed, Lookup, Stored;
    OneRecordWellFormed(key, data);
    r := CdbFindByKey(OneRecord(key, data), key, after);
  }
}
