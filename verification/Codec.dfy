// The loops that turn lists of items into bytes and back, in the server and in
// the client library.
module Codec {
  import opened Bytes
  import opened Separated

  // What the packing loops have written before item i: the items so far, and a
  // separator if there are both items before and items to come.
  function Packed(items: seq<Text>, i: nat, sep: Byte): Text
    requires i <= |items|
  {
    Join(items[..i], sep) + if 0 < i < |items| then [sep] else []
  }

  lemma {:induction false} JoinSnoc(items: seq<Text>, x: Text, sep: Byte)
    ensures Join(items + [x], sep) == Join(items, sep) + (if items == [] then [] else [sep]) + x
  {
    if |items| > 0 {
      JoinSnoc(items[1..], x, sep);
      assert (items + [x])[1..] == items[1..] + [x];
      if |items| == 1 {
        assert items[1..] == [];
      }
    }
  }

  lemma PackStep(items: seq<Text>, i: nat, sep: Byte)
    requires i < |items|
    ensures Packed(items, i + 1, sep) ==
            Packed(items, i, sep) + items[i] + if i + 1 < |items| then [sep] else []
  {
    assert items[..i + 1] == items[..i] + [items[i]];
    JoinSnoc(items[..i], items[i], sep);
  }

  lemma PackDone(items: seq<Text>, sep: Byte)
    ensures Packed(items, |items|, sep) == Join(items, sep) && Packed(items, 0, sep) == []
  {
    assert items[..|items|] == items;
  }

  // Lengths only grow, so if some item overruns the room the whole list would.
  lemma {:induction false} PackGrows(items: seq<Text>, i: nat, sep: Byte)
    requires i < |items|
    ensures |Packed(items, i, sep)| + |items[i]| <= |Join(items, sep)|
    decreases |items| - i
  {
    hide Packed, Join;
    PackStep(items, i, sep);
    if i + 1 < |items| {
      PackGrows(items, i + 1, sep);
    } else {
      PackDone(items, sep);
    }
  }

  // The item loop of arr_send_response and nast_upd.  Room is checked for an
  // item but not for the separator after it, which may land on the byte after
  // a full buffer; the next item then fails.  The array has that one byte more.
  method PackItems(buffer: array<Byte>, start: nat, size: nat, items: seq<Text>, sep: Byte)
      returns (ok: bool, l: nat)
    requires buffer.Length == size + 1 && (start <= size || items != [])
    modifies buffer
    ensures start <= size ==> buffer[..start] == old(buffer[..start])
    ensures ok <==> start + |Join(items, sep)| <= size
    ensures ok ==> l == start + |Join(items, sep)| && buffer[start..l] == Join(items, sep)
  {
    hide Packed, Join;
    l := start;
    PackDone(items, sep);
    for i := 0 to |items|
      invariant l == start + |Packed(items, i, sep)|
      invariant if start > size then i == 0 else l <= size + if i < |items| then 1 else 0
      invariant start <= size ==> buffer[start..l] == Packed(items, i, sep)
      invariant start <= size ==> buffer[..start] == old(buffer[..start])
    {
      if l + |items[i]| > size {
        PackGrows(items, i, sep);
        return false, l;
      }
      PackStep(items, i, sep);
      Memcpy(buffer, start, l, items[i]);
      l := l + |items[i]|;
      if i < |items| - 1 {
        Memcpy(buffer, start, l, [sep]);
        l := l + 1;
      }
    }
    ok := true;
  }

  method Memcpy(buffer: array<Byte>, ghost start: nat, at: nat, bytes: Text)
    requires start <= at && at + |bytes| <= buffer.Length
    modifies buffer
    ensures buffer[start..at + |bytes|] == old(buffer[start..at]) + bytes
    ensures buffer[..start] == old(buffer[..start])
    ensures buffer[..at + |bytes|] == old(buffer[..at]) + bytes
  {
    forall j | 0 <= j < |bytes| {
      buffer[at + j] := bytes[j];
    }
  }

  // The splitting loops of cdb_get and build_result.
  method SplitAll(data: Text, sep: Byte) returns (aa: seq<Text>)
    ensures aa == Split(data, sep)
    ensures |aa| == Count(data, sep) + 1 && Join(aa, sep) == data
  {
    hide Split, Join, Count;
    aa := [];
    var s, e := 0, 0;
    assert data[0..] == data;
    while e <= |data|
      invariant 0 <= s <= e <= |data| + 1
      invariant s <= |data| ==> e <= |data| && sep !in data[s..e]
      invariant s <= |data| ==> aa + Split(data[s..], sep) == Split(data, sep)
      invariant s == |data| + 1 ==> aa == Split(data, sep)
    {
      if e == |data| || data[e] == sep {
        TakeField(aa, data, s, e, sep);
        aa := aa + [data[s..e]];
        s := e + 1;
      }
      e := e + 1;
    }
    SplitCount(data, sep);
    JoinSplit(data, sep);
  }

  // build_array: an empty item is not cut, and swallows its separator.
  method BuildArray(buff: Text, sep: Byte) returns (aa: seq<Text>)
    ensures aa == Items(buff, sep)
  {
    hide Items;
    aa := [];
    var sp, ep := 0, 0;
    assert buff[0..] == buff;
    while ep <= |buff|
      invariant 0 <= sp <= ep <= |buff| + 1 && (ep == |buff| + 1 ==> sp >= |buff|)
      invariant sp < |buff| ==> ep <= |buff| && sep !in buff[sp + 1..if ep <= sp then sp + 1 else ep]
      invariant sp <= |buff| ==> aa + Items(buff[sp..], sep) == Items(buff, sep)
      invariant sp == |buff| + 1 ==> aa == Items(buff, sep)
    {
      if (ep == |buff| || buff[ep] == sep) && ep - sp > 0 {
        TakeItem(aa, buff, sp, ep, sep);
        aa := aa + [buff[sp..ep]];
        sp := ep + 1;
      }
      ep := ep + 1;
    }
    if sp == |buff| {
      NoItems(sep);
      assert buff[sp..] == [];
    }
  }

  lemma NoItems(sep: Byte)
    ensures Items([], sep) == []
  {
  }

  // One item of build_array, from sp to the separator or end at ep.
  lemma ItemStep(t: Text, sp: nat, ep: nat, sep: Byte)
    requires sp < ep <= |t| && sep !in t[sp + 1..ep] && (ep == |t| || t[ep] == sep)
    ensures Items(t[sp..], sep) == if ep == |t| then [t[sp..ep]] else [t[sp..ep]] + Items(t[ep + 1..], sep)
  {
    hide Items, FieldLen;
    var u := t[sp..];
    ItemsCons(u, sep);
    assert u[1..] == t[sp + 1..];
    assert u[1..][..ep - sp - 1] == t[sp + 1..ep];
    FieldLenIs(u[1..], ep - sp - 1, sep);
    assert u[..ep - sp] == t[sp..ep];
    if ep < |t| {
      assert u[ep - sp + 1..] == t[ep + 1..];
    }
  }

  // The same for a scan that has some items already.
  lemma TakeItem(done: seq<Text>, t: Text, sp: nat, ep: nat, sep: Byte)
    requires sp < ep <= |t| && sep !in t[sp + 1..ep] && (ep == |t| || t[ep] == sep)
    ensures done + Items(t[sp..], sep) ==
            if ep == |t| then done + [t[sp..ep]] else (done + [t[sp..ep]]) + Items(t[ep + 1..], sep)
  {
    hide Items;
    ItemStep(t, sp, ep, sep);
    if ep < |t| {
      assert done + ([t[sp..ep]] + Items(t[ep + 1..], sep)) == (done + [t[sp..ep]]) + Items(t[ep + 1..], sep);
    }
  }

  // The key scan of do_update.
  method ScanKey(buffer: Text, sep: Byte) returns (keylen: nat)
    ensures keylen == FieldLen(buffer, sep)
  {
    hide FieldLen;
    keylen := 0;
    while keylen < |buffer| && buffer[keylen] != sep
      invariant keylen <= |buffer| && sep !in buffer[..keylen]
    {
      keylen := keylen + 1;
    }
    FieldLenIs(buffer, keylen, sep);
  }
}
