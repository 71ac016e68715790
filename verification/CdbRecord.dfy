// server/cdb.c: what the server does with the answers of cdb_find.
module CdbRecord {
  import opened Bytes
  import opened Wrappers
  import opened CdbFormat
  import opened CdbFind
  import opened Codec
  import opened Separated

  // Which stored keys are found: those that `match` can compare, in images
  // whose length is a positive int.
  predicate Searchable(img: Text, key: Text) {
    Comparable(|key|) && |img| < 0x8000_0000
  }

  lemma SearchableIs(img: Text, key: Text)
    ensures Searchable(img, key) <==> (|key| <= 32 || |key| % 32 == 0) && |img| < 2147483648
  {
  }

  // cdb_findbykey takes the length of the image as an int.  A negative one puts
  // the end of the image before its start, and the first bounds check fails.
  // Anything but a find is a failure.
  method CdbFindByKey(img: Text, key: Text, after: nat -> Byte) returns (r: Option<(nat, Word)>)
    requires |key| < WORD
    ensures WellFormed(img) ==>
              (r.Some? <==> Stored(img, key) && (|key| <= 32 || |key| % 32 == 0) && |img| < 2147483648)
    ensures WellFormed(img) && r.Some? ==>
              && r.value.0 + r.value.1 <= |img|
              && Lookup(img, key) == Some(img[r.value.0..r.value.0 + r.value.1])
    // On any image at all, success means the key matched.
    ensures r.Some? ==> Comparable(|key|) && Answer(img, key, r.value.0, r.value.1)
  {
    hide Stored, Lookup, Answer;
    var len := Int32(|img|);
    if WellFormed(img) {
      IntLength(|img|);
    }
    hide WellFormed;
    if len < 0 {
      return None;
    }
    LowBits(|img|);
    assert len == |img| ==> img[..len] == img;
    var rc, data, dlen := CdbFind.CdbFind(img[..len], key, after);
    if rc != 1 {
      return None;
    }
    AnswerInPrefix(img, len, key, data, dlen);
    return Some((data, dlen));
  }

  lemma AnswerInPrefix(img: Text, len: nat, key: Text, ret: nat, retlen: Word)
    requires len <= |img| && Answer(img[..len], key, ret, retlen)
    ensures Answer(img, key, ret, retlen)
  {
    hide FromLe32;
    var p := ret - |key| - 8;
    InPrefix(img, len, ret - |key|, ret);
    InPrefix(img, len, p, p + 4);
    InPrefix(img, len, p + 4, p + 8);
  }

  lemma InPrefix(img: Text, len: nat, i: nat, j: nat)
    requires i <= j <= len <= |img|
    ensures img[..len][i..j] == img[i..j]
  {
  }

  lemma IntLength(n: nat)
    requires n < WORD
    ensures Int32(n) == if n < 0x8000_0000 then n else n - WORD
  {
  }

  lemma LowBits(n: nat)
    ensures Int32(n) <= n
  {
  }

  // cdb_get: look the key up and split its record into fields.  On an image that
  // is not well-formed a record may run on into what follows the image.
  method CdbGet(img: Text, sep: Byte, key: Text, after: nat -> Byte, beyond: nat -> Byte)
      returns (r: Option<seq<Text>>)
    requires |key| < WORD
    ensures WellFormed(img) ==> r == LocalAnswer(img, sep, key)
    ensures r.Some? ==> FieldsOf(img, sep, key, beyond, r.value)
  {
    hide WellFormed, Stored, Lookup, Searchable, Answer, BytesAt, FieldsOf;
    if WellFormed(img) {
      LookupFindsStored(img, key);
      SearchableIs(img, key);
    }
    var found := CdbFindByKey(img, key, after);
    if found == None {
      return None;
    }
    var fields := SplitAll(BytesAt(img, beyond, found.value.0, found.value.1), sep);
    FieldsAre(img, sep, key, beyond, found.value.0, found.value.1);
    return Some(fields);
  }

  // The fields of some record with the key, wherever the record ends.
  ghost predicate FieldsOf(img: Text, sep: Byte, key: Text, beyond: nat -> Byte, fields: seq<Text>) {
    exists ret: nat, retlen: Word ::
      Answer(img, key, ret, retlen) && fields == Split(BytesAt(img, beyond, ret, retlen), sep)
  }

  lemma FieldsAre(img: Text, sep: Byte, key: Text, beyond: nat -> Byte, ret: nat, retlen: Word)
    requires Answer(img, key, ret, retlen)
    ensures FieldsOf(img, sep, key, beyond, Split(BytesAt(img, beyond, ret, retlen), sep))
  {
    hide Answer, BytesAt, Split;
  }

  // What a client asking the local database for a key is answered.
  ghost function LocalAnswer(img: Text, sep: Byte, key: Text): Option<seq<Text>>
    requires WellFormed(img)
  {
    if Lookup(img, key).Some? && Searchable(img, key) then Some(Split(Lookup(img, key).value, sep)) else None
  }

  // The field names of cdb_new, from a NUL-terminated copy of the `_VALUES_'
  // record: the first pass counts the names, the second cuts exactly that many
  // and never reads past the terminator.
  method FieldNames(values: Text, sep: Byte) returns (fieldcount: nat, names: seq<Text>)
    ensures fieldcount == |names| && names == Split(CString(values), sep)
  {
    var buf := values + [0];
    var fieldslen := FieldLen(values, 0);
    assert buf[..fieldslen] == CString(values);
    assert forall i :: 0 <= i < fieldslen ==> buf[i] == values[..fieldslen][i];
    fieldcount := CountNames(buf, fieldslen, sep);
    names := CutNames(buf, fieldslen, sep, fieldcount);
  }

  // A buffer holds a C string of a given length.
  predicate Terminated(buf: Text, len: nat) {
    len < |buf| && buf[len] == 0 && forall i :: 0 <= i < len ==> buf[i] != 0
  }

  method CountNames(buf: Text, fieldslen: nat, sep: Byte) returns (fieldcount: nat)
    requires Terminated(buf, fieldslen)
    ensures fieldcount == |Split(buf[..fieldslen], sep)|
  {
    hide Split, Count;
    ghost var text := buf[..fieldslen];
    fieldcount := 0;
    assert text[0..] == text;
    for i := 0 to fieldslen + 1
      invariant i <= fieldslen ==> fieldcount + Count(text[i..], sep) == Count(text, sep)
      invariant i == fieldslen + 1 ==> fieldcount == Count(text, sep) + 1
    {
      CountStep(text, i, sep);
      if buf[i] == sep || i == fieldslen {
        fieldcount := fieldcount + 1;
      }
    }
    SplitCount(text, sep);
  }

  method CutNames(buf: Text, fieldslen: nat, sep: Byte, fieldcount: nat) returns (names: seq<Text>)
    requires Terminated(buf, fieldslen) && fieldcount == |Split(buf[..fieldslen], sep)|
    ensures names == Split(buf[..fieldslen], sep)
  {
    hide Split, Terminated, Count;
    TerminatedLength(buf, fieldslen);
    ghost var text := buf[..fieldslen];
    names := [];
    var s := 0;
    assert text[0..] == text;
    for i := 0 to fieldcount
      invariant i == |names|
      invariant i < fieldcount ==> s <= fieldslen && names + Split(text[s..], sep) == Split(text, sep)
      invariant i == fieldcount ==> names == Split(text, sep)
    {
      var e := NameEnd(buf, fieldslen, sep, s);
      TakeField(names, text, s, e, sep);
      assert buf[s..e] == text[s..e];
      names := names + [buf[s..e]];
      s := e + 1;
    }
  }

  lemma TerminatedLength(buf: Text, len: nat)
    requires Terminated(buf, len)
    ensures len < |buf|
  {
  }

  // The inner loop: where the name that starts at s ends.
  method NameEnd(buf: Text, fieldslen: nat, sep: Byte, s: nat) returns (e: nat)
    requires Terminated(buf, fieldslen) && s <= fieldslen
    ensures s <= e <= fieldslen < |buf| && buf[s..e] == buf[..fieldslen][s..e]
    ensures sep !in buf[..fieldslen][s..e]
    ensures e == fieldslen || buf[..fieldslen][e] == sep
  {
    e := s;
    while buf[e] != sep && buf[e] != 0
      invariant s <= e <= fieldslen
      invariant sep !in buf[s..e]
      decreases fieldslen - e
    {
      e := e + 1;
    }
    assert buf[s..e] == buf[..fieldslen][s..e];
  }

  lemma CountStep(t: Text, i: nat, sep: Byte)
    requires i <= |t|
    ensures Count(t[i..], sep) ==
            if i == |t| then 0 else (if t[i] == sep then 1 else 0) + Count(t[i + 1..], sep)
  {
    if i < |t| {
      assert t[i..][1..] == t[i + 1..];
    }
  }

  // A buffer as a C string: up to its first NUL.
  function CString(t: Text): Text {
    t[..FieldLen(t, 0)]
  }
}
