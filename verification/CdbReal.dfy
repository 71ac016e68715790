// A database file as cdbmake writes it, byte by byte, and the keys that nastd
// looks up when it loads one.  The numbers are those of the format; nothing in the
// statements says how they are computed.
module CdbReal {
  import opened Bytes
  import opened Wrappers
  import opened CdbFormat
  import opened CdbFind

  // ---- The hash, in numbers ----

  lemma HashStarts()
    ensures HashOf([]) == 5381
  {
  }

  // One byte more: the low byte of 33 times the hash is xored with it.
  lemma HashNext(key: Text, h: Word, m: Word, low: Byte, c: Byte, x: Byte, g: Word, more: Text)
    requires HashOf(key) == h && 33 * h % WORD == m && m % 0x100 == low
    requires Xor(low, c) == x && g == m - m % 0x100 + x && more == key + [c]
    ensures HashOf(more) == g
  {
    hide Xor;
    assert more[..|key|] == key;
  }

  // The first 3 bytes of _KEY_
  lemma HashOfKey1()
    ensures HashOf([95, 75, 69]) == 193471444
  {
    hide HashOf;
    HashStarts();
    HashNext([], 5381, 177573, 165, 95, 250, 177658, [95]);
    HashNext([95], 177658, 5862714, 58, 75, 113, 5862769, [95, 75]);
    HashNext([95, 75], 5862769, 193471377, 145, 69, 212, 193471444, [95, 75, 69]);
  }

  // _KEY_
  lemma HashOfKey()
    ensures HashOf([95, 75, 69, 89, 95]) == 237002738
  {
    hide HashOf;
    HashOfKey1();
    HashNext([95, 75, 69], 193471444, 2089590356, 84, 89, 13, 2089590285, [95, 75, 69, 89]);
    HashNext([95, 75, 69, 89], 2089590285, 237002669, 173, 95, 242, 237002738, [95, 75, 69, 89, 95]);
  }

  // The first 3 bytes of _DB_
  lemma HashOfDb1()
    ensures HashOf([95, 68, 66]) == 193471868
  {
    hide HashOf;
    HashStarts();
    HashNext([], 5381, 177573, 165, 95, 250, 177658, [95]);
    HashNext([95], 177658, 5862714, 58, 68, 126, 5862782, [95, 68]);
    HashNext([95, 68], 5862782, 193471806, 62, 66, 124, 193471868, [95, 68, 66]);
  }

  // _DB_
  lemma HashOfDb()
    ensures HashOf([95, 68, 66, 95]) == 2089604259
  {
    hide HashOf;
    HashOfDb1();
    HashNext([95, 68, 66], 193471868, 2089604348, 252, 95, 163, 2089604259, [95, 68, 66, 95]);
  }

  // The first 3 bytes of _TABLE_
  lemma HashOfTable1()
    ensures HashOf([95, 84, 65]) == 193471343
  {
    hide HashOf;
    HashStarts();
    HashNext([], 5381, 177573, 165, 95, 250, 177658, [95]);
    HashNext([95], 177658, 5862714, 58, 84, 110, 5862766, [95, 84]);
    HashNext([95, 84], 5862766, 193471278, 46, 65, 111, 193471343, [95, 84, 65]);
  }

  // The first 6 bytes of _TABLE_
  lemma HashOfTable2()
    ensures HashOf([95, 84, 65, 66, 76, 69]) == 3522498372
  {
    hide HashOf;
    HashOfTable1();
    HashNext([95, 84, 65], 193471343, 2089587023, 79, 66, 13, 2089586957, [95, 84, 65, 66]);
    HashNext([95, 84, 65, 66], 2089586957, 236892845, 173, 76, 225, 236892897, [95, 84, 65, 66, 76]);
    HashNext([95, 84, 65, 66, 76], 236892897, 3522498305, 1, 69, 68, 3522498372, [95, 84, 65, 66, 76, 69]);
  }

  // _TABLE_
  lemma HashOfTable()
    ensures HashOf([95, 84, 65, 66, 76, 69, 95]) == 278329243
  {
    hide HashOf;
    HashOfTable2();
    HashNext([95, 84, 65, 66, 76, 69], 3522498372, 278329284, 196, 95, 155, 278329243, [95, 84, 65, 66, 76, 69, 95]);
  }

  // The first 3 bytes of _DELIM_
  lemma HashOfDelim1()
    ensures HashOf([95, 68, 69]) == 193471867
  {
    hide HashOf;
    HashStarts();
    HashNext([], 5381, 177573, 165, 95, 250, 177658, [95]);
    HashNext([95], 177658, 5862714, 58, 68, 126, 5862782, [95, 68]);
    HashNext([95, 68], 5862782, 193471806, 62, 69, 123, 193471867, [95, 68, 69]);
  }

  // The first 6 bytes of _DELIM_
  lemma HashOfDelim2()
    ensures HashOf([95, 68, 69, 76, 73, 77]) == 3541323443
  {
    hide HashOf;
    HashOfDelim1();
    HashNext([95, 68, 69], 193471867, 2089604315, 219, 76, 151, 2089604247, [95, 68, 69, 76]);
    HashNext([95, 68, 69, 76], 2089604247, 237463415, 119, 73, 62, 237463358, [95, 68, 69, 76, 73]);
    HashNext([95, 68, 69, 76, 73], 237463358, 3541323518, 254, 77, 179, 3541323443, [95, 68, 69, 76, 73, 77]);
  }

  // _DELIM_
  lemma HashOfDelim()
    ensures HashOf([95, 68, 69, 76, 73, 77, 95]) == 899556684
  {
    hide HashOf;
    HashOfDelim2();
    HashNext([95, 68, 69, 76, 73, 77], 3541323443, 899556627, 19, 95, 76, 899556684, [95, 68, 69, 76, 73, 77, 95]);
  }

  // The first 3 bytes of _VALUES_
  lemma HashOfValues1()
    ensures HashOf([95, 86, 65]) == 193471149
  {
    hide HashOf;
    HashStarts();
    HashNext([], 5381, 177573, 165, 95, 250, 177658, [95]);
    HashNext([95], 177658, 5862714, 58, 86, 108, 5862764, [95, 86]);
    HashNext([95, 86], 5862764, 193471212, 236, 65, 173, 193471149, [95, 86, 65]);
  }

  // The first 6 bytes of _VALUES_
  lemma HashOfValues2()
    ensures HashOf([95, 86, 65, 76, 85, 69]) == 3515516593
  {
    hide HashOf;
    HashOfValues1();
    HashNext([95, 86, 65], 193471149, 2089580621, 77, 76, 1, 2089580545, [95, 86, 65, 76]);
    HashNext([95, 86, 65, 76], 2089580545, 236681249, 33, 85, 116, 236681332, [95, 86, 65, 76, 85]);
    HashNext([95, 86, 65, 76, 85], 236681332, 3515516660, 244, 69, 177, 3515516593, [95, 86, 65, 76, 85, 69]);
  }

  // _VALUES_
  lemma HashOfValues()
    ensures HashOf([95, 86, 65, 76, 85, 69, 83, 95]) == 1581706397
  {
    hide HashOf;
    HashOfValues2();
    HashNext([95, 86, 65, 76, 85, 69], 3515516593, 47930577, 209, 83, 130, 47930498, [95, 86, 65, 76, 85, 69, 83]);
    HashNext([95, 86, 65, 76, 85, 69, 83], 47930498, 1581706434, 194, 95, 157, 1581706397, [95, 86, 65, 76, 85, 69, 83, 95]);
  }

  // ---- A file ----

  // cdbmake's file for the one entry `_KEY_' with the datum `id': 256 pointers, of
  // which number 242 has two slots, then the record, then the slots.
  const KEY: Text := [95, 75, 69, 89, 95]
  const RECORD: Text := [5, 0, 0, 0, 2, 0, 0, 0, 95, 75, 69, 89, 95, 105, 100]
  const SLOTS: Text := [0, 0, 0, 0, 0, 0, 0, 0, 242, 95, 32, 14, 0, 8, 0, 0]

  const BEFORE: Text := [15, 8, 0, 0, 0, 0, 0, 0]
  const HOME: Text := [15, 8, 0, 0, 2, 0, 0, 0]
  const BEHIND: Text := [31, 8, 0, 0, 0, 0, 0, 0]

  function Times(n: nat, b: Text): (t: Text)
    requires |b| == 8
    ensures |t| == 8 * n
  {
    if n == 0 then [] else Times(n - 1, b) + b
  }

  function File(): (img: Text)
    ensures |img| == 2079
  {
    Times(242, BEFORE) + HOME + Times(13, BEHIND) + RECORD + SLOTS
  }

  lemma {:induction false} TimesAt(n: nat, b: Text, i: nat)
    requires |b| == 8 && i < n
    ensures Times(n, b)[8 * i..8 * i + 8] == b
  {
    if i < n - 1 {
      TimesAt(n - 1, b, i);
      assert Times(n, b)[8 * i..8 * i + 8] == Times(n - 1, b)[8 * i..8 * i + 8];
    }
  }

  lemma Pointers(t: nat)
    requires t < 256
    ensures File()[8 * t..8 * t + 8] == if t < 242 then BEFORE else if t == 242 then HOME else BEHIND
  {
    hide Times;
    var a, c := Times(242, BEFORE), Times(13, BEHIND);
    if t < 242 {
      TimesAt(242, BEFORE, t);
      assert File()[8 * t..8 * t + 8] == a[8 * t..8 * t + 8];
    } else if t > 242 {
      TimesAt(13, BEHIND, t - 243);
      assert File()[8 * t..8 * t + 8] == c[8 * (t - 243)..8 * (t - 243) + 8];
    }
  }

  lemma PointerWords(t: nat)
    requires t < 256
    ensures TablePos(File(), t) == if t <= 242 then 2063 else 2079
    ensures TableLen(File(), t) == if t == 242 then 2 else 0
  {
    hide File;
    Pointers(t);
    var img := File();
    assert img[8 * t..8 * t + 4] == img[8 * t..8 * t + 8][..4];
    assert img[8 * t + 4..8 * t + 8] == img[8 * t..8 * t + 8][4..];
  }

  lemma RecordAndSlots()
    ensures File()[2048..2063] == RECORD && File()[2063..2079] == SLOTS
  {
    hide Times;
  }

  lemma Words()
    ensures var img := File();
            && WordAt(img, 2048) == 5 && WordAt(img, 2052) == 2
            && img[2056..2061] == KEY && img[2061..2063] == [105, 100]
            && WordAt(img, 2067) == 0 && WordAt(img, 2071) == 237002738 && WordAt(img, 2075) == 2048
  {
    hide File;
    RecordAndSlots();
    var img := File();
    Part(img, 2048, 2063, 0, 4);
    Part(img, 2048, 2063, 4, 8);
    Part(img, 2048, 2063, 8, 13);
    Part(img, 2048, 2063, 13, 15);
    Part(img, 2063, 2079, 4, 8);
    Part(img, 2063, 2079, 8, 12);
    Part(img, 2063, 2079, 12, 16);
    assert RECORD[0..4] == [5, 0, 0, 0] && RECORD[4..8] == [2, 0, 0, 0];
    assert SLOTS[4..8] == [0, 0, 0, 0] && SLOTS[8..12] == [242, 95, 32, 14] && SLOTS[12..16] == [0, 8, 0, 0];
  }

  lemma Part(t: Text, a: nat, b: nat, i: nat, j: nat)
    requires a <= b <= |t| && i <= j <= b - a
    ensures t[a..b][i..j] == t[a + i..a + j]
  {
    var u, v := t[a..b][i..j], t[a + i..a + j];
    assert forall k :: 0 <= k < j - i ==> u[k] == t[a..b][i + k] == t[a + i + k] == v[k];
  }

  lemma Tables()
    ensures forall t: nat :: t < 256 ==> HasTable(File(), t)
    ensures forall t: nat :: t < 256 ==> TablePos(File(), t) == if t <= 242 then 2063 else 2079
    ensures forall t: nat :: t < 256 ==> TableLen(File(), t) == if t == 242 then 2 else 0
  {
    hide File;
    forall t: nat | t < 256
      ensures HasTable(File(), t) && TablePos(File(), t) == (if t <= 242 then 2063 else 2079)
      ensures TableLen(File(), t) == if t == 242 then 2 else 0
    {
      PointerWords(t);
    }
  }

  lemma SlotsOk()
    ensures HasTable(File(), 242) && TableLen(File(), 242) == 2
    ensures SlotOk(File(), 242, 0) && SlotOk(File(), 242, 1)
    ensures Reachable(File(), 242, 0) && Reachable(File(), 242, 1)
  {
    hide File, HashOf, WordAt, TableOf, TablePos, TableLen;
    var img := File();
    Words();
    HashOfKey();
    HomeOfKey();
    Tables();
    assert RecordKey(img, 2048) == KEY;
    assert Crowded(img, 242, 237002738, 0);
  }

  // The file is well-formed.
  lemma FileIsWellFormed()
    ensures WellFormed(File())
  {
    hide File, HashOf, WordAt, TableOf, TablePos, TableLen, SlotOk, Reachable;
    var img := File();
    Words();
    HashOfKey();
    HomeOfKey();
    Tables();
    SlotsOk();
    forall t: nat, s: nat | t < 256 && s < TableLen(img, t)
      ensures SlotOk(img, t, s) && Reachable(img, t, s)
    {
      assert t == 242 && (s == 0 || s == 1);
    }
    assert forall t: nat :: t < TABLES ==> HasTable(img, t);
    assert HEADER <= |img| < WORD;
  }

  // It holds that entry and no other.
  lemma FileHoldsOne(key: Text)
    ensures WellFormed(File()) && (Stored(File(), key) <==> key == KEY)
  {
    hide File, HashOf, WordAt, TableOf, TablePos, TableLen, WellFormed;
    FileIsWellFormed();
    Words();
    Tables();
    var img := File();
    assert RecordKey(img, 2048) == KEY;
    assert HoldsKey(img, 242, 1, KEY);
  }

  lemma FileAnswers()
    ensures WellFormed(File()) && Lookup(File(), KEY) == Some([105, 100])
  {
    hide File, HashOf, WordAt, TableOf, TablePos, TableLen, WellFormed, Lookup;
    FileIsWellFormed();
    Words();
    Tables();
    HashOfKey();
    HomeOfKey();
    var img := File();
    assert RecordKey(img, 2048) == KEY && RecordData(img, 2048) == [105, 100];
    assert HoldsKey(img, 242, 1, KEY);
    HitIsAnswer(img, KEY, 0);
  }

  lemma HomeOfKey()
    ensures TableOf(237002738) == 242 && ProbeSlot(237002738, 2, 0) == 1
  {
  }

  // The search finds that entry in the file, and nothing else in it.
  method Search(key: Text, after: nat -> Byte) returns (rc: int, ret: nat, retlen: Word)
    requires |key| <= 32
    ensures rc == if key == KEY then 1 else 0
    ensures key == KEY ==> ret + retlen <= 2079 && File()[ret..ret + retlen] == [105, 100]
  {
    hide File, WellFormed, Stored, Lookup, Answer, Ended;
    FileHoldsOne(key);
    FileAnswers();
    rc, ret, retlen := CdbFind.CdbFind(File(), key, after);
  }

  // In a file that has been cut short, anywhere, the search for it is an error.
  method SearchCut(n: nat, after: nat -> Byte) returns (rc: int)
    requires n < 2079
    ensures rc == -1
  {
    hide File, WellFormed, Stored, Lookup, Answer, Ended;
    var img := File()[..n];
    var r, _, _ := CdbFind.CdbFind(img, KEY, after);
    CutEnds(n, r);
    rc := r;
  }

  lemma CutEnds(n: nat, rc: int)
    requires n < 2079 && Ended(File()[..n], KEY, rc)
    ensures rc == -1
  {
    hide File, HashOf, WordAt, AllPassed, EndedAtProbe, SlotAt;
    HashOfKey();
    if 1944 <= n {
      CutPointer(n);
      HomeSlot();
      FirstProbeBreaks(File()[..n], KEY, 237002738, 2063, 2, rc);
    }
  }

  lemma HomeSlot()
    ensures SlotAt(2063, 237002738, 2, 0) == 2071
  {
  }

  lemma CutPointer(n: nat)
    requires 1944 <= n < 2079
    ensures var img := File()[..n]; WordAt(img, 1936) == 2063 && WordAt(img, 1940) == 2
  {
    hide File, FromLe32;
    var img := File()[..n];
    Pointers(242);
    Part(File(), 1936, 1944, 0, 4);
    Part(File(), 1936, 1944, 4, 8);
    Part(File(), 0, n, 1936, 1940);
    Part(File(), 0, n, 1940, 1944);
    assert File()[0..n] == img;
    PointerLiteral();
  }

  lemma PointerLiteral()
    ensures FromLe32(HOME[0..4]) == 2063 && FromLe32(HOME[4..8]) == 2
  {
    assert HOME[0..4] == [15, 8, 0, 0] && HOME[4..8] == [2, 0, 0, 0];
  }

  // The slots of a table in the order of the search.
  lemma ProbeOrder(h: Word, n: nat, j: nat)
    requires j < n
    ensures ProbeSlot(h, n, 0) == h / 256 % n
    ensures ProbeSlot(h, n, j + 1) == if ProbeSlot(h, n, j) + 1 == n then 0 else ProbeSlot(h, n, j) + 1
  {
  }
}
