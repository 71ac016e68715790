// The constant database file format: 256 header pointers, records, and 256
// open-addressed hash tables (D. J. Bernstein, "A structure for constant
// databases").  Everything here describes images; nothing here searches them.
module CdbFormat {
  import opened Bytes
  import opened Wrappers

  const TABLES := 256
  const HEADER := 2048

  // Where just one of the bytes has the bit of weight w.
  function Differ(a: Byte, b: Byte, w: nat): (r: nat)
    requires w > 0
    ensures r == 0 || r == w
  {
    if (a as int / w + b as int / w) % 2 == 1 then w else 0
  }

  function Xor(a: Byte, b: Byte): Byte {
    Differ(a, b, 1) + Differ(a, b, 2) + Differ(a, b, 4) + Differ(a, b, 8) +
    Differ(a, b, 16) + Differ(a, b, 32) + Differ(a, b, 64) + Differ(a, b, 128)
  }

  // The exclusive or of a word and a byte.
  function XorByte(h: Word, c: Byte): Word {
    hide Xor;
    h / 0x100 * 0x100 + Xor(h % 0x100, c)
  }

  // "The cdb hash function is h = ((h << 5) + h) ^ c, with a starting hash of 5381."
  function HashOf(key: Text): Word {
    if key == [] then 5381
    else XorByte(33 * HashOf(key[..|key| - 1]) % WORD, key[|key| - 1])
  }

  function WordAt(img: Text, p: nat): Word
    requires p + 4 <= |img|
  {
    FromLe32(img[p..p + 4])
  }

  // ---- Header and hash tables ----

  function TablePos(img: Text, t: nat): Word
    requires t < TABLES && HEADER <= |img|
  {
    WordAt(img, 8 * t)
  }

  function TableLen(img: Text, t: nat): Word
    requires t < TABLES && HEADER <= |img|
  {
    WordAt(img, 8 * t + 4)
  }

  predicate HasTable(img: Text, t: nat) {
    && t < TABLES
    && HEADER <= |img|
    && TablePos(img, t) + 8 * TableLen(img, t) <= |img|
  }

  function SlotHash(img: Text, t: nat, s: nat): Word
    requires HasTable(img, t) && s < TableLen(img, t)
  {
    WordAt(img, TablePos(img, t) + 8 * s)
  }

  // A slot whose record position is 0 is empty.
  function SlotRecord(img: Text, t: nat, s: nat): Word
    requires HasTable(img, t) && s < TableLen(img, t)
  {
    WordAt(img, TablePos(img, t) + 8 * s + 4)
  }

  predicate Occupied(img: Text, t: nat, s: nat)
    requires HasTable(img, t) && s < TableLen(img, t)
  {
    SlotRecord(img, t, s) != 0
  }

  // ---- Records: key length, data length, key, data ----

  predicate HasRecord(img: Text, p: nat) {
    && p + 8 <= |img|
    && p + 8 + WordAt(img, p) + WordAt(img, p + 4) <= |img|
  }

  function RecordKey(img: Text, p: nat): Text
    requires HasRecord(img, p)
  {
    img[p + 8..p + 8 + WordAt(img, p)]
  }

  function RecordData(img: Text, p: nat): Text
    requires HasRecord(img, p)
  {
    var d := p + 8 + WordAt(img, p);
    img[d..d + WordAt(img, p + 4)]
  }

  // ---- Probing ----

  function TableOf(h: Word): nat {
    h % TABLES
  }

  // The slot that probe number j for hash h visits in a table of n slots: the
  // home slot plus j, wrapping at the end of the table.
  function ProbeSlot(h: Word, n: nat, j: nat): (s: nat)
    requires n > 0 && j <= n
    ensures s < n
  {
    var s := h / TABLES % n + j;
    if s < n then s else s - n
  }

  // Slot s holds a record of this table and records its hash.
  ghost predicate SlotOk(img: Text, t: nat, s: nat)
    requires HasTable(img, t) && s < TableLen(img, t)
  {
    Occupied(img, t, s) ==>
      && HasRecord(img, SlotRecord(img, t, s))
      && SlotHash(img, t, s) == HashOf(RecordKey(img, SlotRecord(img, t, s)))
      && TableOf(SlotHash(img, t, s)) == t
  }

  // Probes 0..j for hash h in table t meet only occupied slots.
  ghost predicate Crowded(img: Text, t: nat, h: Word, j: nat)
    requires HasTable(img, t) && 0 < TableLen(img, t) && j <= TableLen(img, t)
  {
    forall i :: 0 <= i < j ==> Occupied(img, t, ProbeSlot(h, TableLen(img, t), i))
  }

  // Slot s is where probing from its hash's home arrives without crossing an
  // empty slot.
  ghost predicate Reachable(img: Text, t: nat, s: nat)
    requires HasTable(img, t) && s < TableLen(img, t)
  {
    Occupied(img, t, s) ==>
      exists j: nat ::
        && j < TableLen(img, t)
        && ProbeSlot(SlotHash(img, t, s), TableLen(img, t), j) == s
        && Crowded(img, t, SlotHash(img, t, s), j)
  }

  ghost predicate WellFormed(img: Text) {
    && HEADER <= |img| < WORD
    && (forall t: nat :: t < TABLES ==> HasTable(img, t))
    && (forall t: nat, s: nat :: t < TABLES && s < TableLen(img, t) ==> SlotOk(img, t, s))
    && (forall t: nat, s: nat :: t < TABLES && s < TableLen(img, t) ==> Reachable(img, t, s))
  }

  // ---- What a lookup means ----

  ghost predicate HoldsKey(img: Text, t: nat, s: nat, key: Text)
    requires HasTable(img, t) && s < TableLen(img, t)
  {
    && Occupied(img, t, s)
    && HasRecord(img, SlotRecord(img, t, s))
    && RecordKey(img, SlotRecord(img, t, s)) == key
  }

  // Some slot of some table points at a record with this key.
  ghost predicate Stored(img: Text, key: Text)
    requires WellFormed(img)
  {
    exists t: nat, s: nat :: t < TABLES && s < TableLen(img, t) && HoldsKey(img, t, s, key)
  }

  function HomeTable(key: Text): (t: nat)
    ensures t < TABLES
  {
    TableOf(HashOf(key))
  }

  // The slot that probe j for a key visits.
  function KeySlot(img: Text, key: Text, j: nat): (s: nat)
    requires HasTable(img, HomeTable(key)) && j <= TableLen(img, HomeTable(key)) != 0
    ensures s < TableLen(img, HomeTable(key))
  {
    ProbeSlot(HashOf(key), TableLen(img, HomeTable(key)), j)
  }

  // Probe j is the first one that meets a record with this key.
  ghost predicate FirstHit(img: Text, key: Text, j: nat)
    requires WellFormed(img)
  {
    && j < TableLen(img, HomeTable(key))
    && HoldsKey(img, HomeTable(key), KeySlot(img, key, j), key)
    && forall i :: 0 <= i < j ==> !HoldsKey(img, HomeTable(key), KeySlot(img, key, i), key)
  }

  lemma FirstHitUnique(img: Text, key: Text, i: nat, j: nat)
    requires WellFormed(img) && FirstHit(img, key, i) && FirstHit(img, key, j)
    ensures i == j
  {
  }

  // The wrapping probe visits each slot at most once.
  lemma ProbesDistinct(h: Word, n: nat, i: nat, j: nat)
    requires i < j < n
    ensures ProbeSlot(h, n, i) != ProbeSlot(h, n, j)
  {
  }

  // In a well-formed image a stored key is met by some probe, and every probe
  // before it meets an occupied slot: an empty slot proves absence.
  lemma StoredIsProbed(img: Text, key: Text) returns (j: nat)
    requires WellFormed(img) && Stored(img, key)
    ensures TableLen(img, HomeTable(key)) > 0
    ensures j < TableLen(img, HomeTable(key))
    ensures HoldsKey(img, HomeTable(key), KeySlot(img, key, j), key)
    ensures Crowded(img, HomeTable(key), HashOf(key), j)
  {
    var t: nat, s: nat :| t < TABLES && s < TableLen(img, t) && HoldsKey(img, t, s, key);
    assert SlotOk(img, t, s) && Reachable(img, t, s);
    j :| && j < TableLen(img, t)
         && ProbeSlot(SlotHash(img, t, s), TableLen(img, t), j) == s
         && Crowded(img, t, SlotHash(img, t, s), j);
  }

  lemma FirstHitExists(img: Text, key: Text) returns (j: nat)
    requires WellFormed(img) && Stored(img, key)
    ensures FirstHit(img, key, j)
  {
    var last := StoredIsProbed(img, key);
    j := FirstHitUpTo(img, key, last);
  }

  lemma {:induction false} FirstHitUpTo(img: Text, key: Text, last: nat) returns (j: nat)
    requires WellFormed(img)
    requires last < TableLen(img, HomeTable(key))
    requires HoldsKey(img, HomeTable(key), KeySlot(img, key, last), key)
    ensures FirstHit(img, key, j)
    decreases last
  {
    if i: nat :| i < last && HoldsKey(img, HomeTable(key), KeySlot(img, key, i), key) {
      j := FirstHitUpTo(img, key, i);
    } else {
      j := last;
    }
  }

  // What a reader of the format expects for a key: the data of the first
  // matching record in probe order, or nothing if no record has the key.
  ghost function Lookup(img: Text, key: Text): Option<Text>
    requires WellFormed(img)
  {
    if j: nat :| FirstHit(img, key, j) then
      Some(RecordData(img, SlotRecord(img, HomeTable(key), KeySlot(img, key, j))))
    else
      None
  }

  lemma LookupFindsStored(img: Text, key: Text)
    requires WellFormed(img)
    ensures Lookup(img, key).Some? <==> Stored(img, key)
  {
    if Stored(img, key) {
      var j := FirstHitExists(img, key);
    }
  }

  // ---- When a search may stop ----

  // No probe among the first n meets a record with this key.
  ghost predicate Missed(img: Text, key: Text, n: nat)
    requires WellFormed(img) && n <= TableLen(img, HomeTable(key)) != 0
  {
    forall i :: 0 <= i < n ==> !HoldsKey(img, HomeTable(key), KeySlot(img, key, i), key)
  }

  lemma EmptySlotProvesAbsence(img: Text, key: Text, j: nat)
    requires WellFormed(img)
    requires j < TableLen(img, HomeTable(key)) && Missed(img, key, j)
    requires !Occupied(img, HomeTable(key), KeySlot(img, key, j))
    ensures !Stored(img, key)
  {
    if Stored(img, key) {
      var d := StoredIsProbed(img, key);
    }
  }

  lemma FullTourProvesAbsence(img: Text, key: Text)
    requires WellFormed(img)
    requires TableLen(img, HomeTable(key)) > 0 ==> Missed(img, key, TableLen(img, HomeTable(key)))
    ensures !Stored(img, key)
  {
    if Stored(img, key) {
      var d := StoredIsProbed(img, key);
    }
  }
}
