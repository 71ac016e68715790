// The libconfig parser as it runs: offsets moving through one buffer, child
// arrays that grow, and recursion through getDataFrom:.  Each method computes
// the function of the same text in ConfigParse.  A buffer is a C string: its
// text, then a NUL.
module ConfigParser {
  import opened Wrappers
  import opened ConfigScan
  import opened ConfigNum
  import opened ConfigParse

  const MALLOC_GRANULARITY := 10

  // The children of a DictData or ArrayData: an array that is reallocated for
  // every ten entries.
  class Children<T(0)> {
    var data: array<T>
    var numChildren: nat

    ghost predicate Valid()
      reads this
    {
      && numChildren <= data.Length
      && data.Length % MALLOC_GRANULARITY == 0
      && (numChildren == data.Length ==> numChildren % MALLOC_GRANULARITY == 0)
    }

    ghost function Contents(): seq<T>
      reads this, data
      requires Valid()
    {
      data[..numChildren]
    }

    constructor ()
      ensures Valid() && fresh(data) && Contents() == []
    {
      data := new T[MALLOC_GRANULARITY];
      numChildren := 0;
    }

    method AddChild(child: T)
      requires Valid()
      modifies this, data
      ensures Valid() && (data == old(data) || fresh(data))
      ensures Contents() == old(Contents()) + [child]
    {
      if numChildren % MALLOC_GRANULARITY == 0 {
        var grown := new T[numChildren + MALLOC_GRANULARITY];
        forall i | 0 <= i < numChildren {
          grown[i] := data[i];
        }
        data := grown;
      }
      data[numChildren] := child;
      numChildren := numChildren + 1;
    }
  }

  // findChild: the first entry with the key.
  method FindChild(data: seq<Entry>, keyName: string) returns (r: Option<Data>)
    ensures r.None? <==> forall i :: 0 <= i < |data| ==> data[i].key != keyName
    ensures r.Some? ==> exists i :: 0 <= i < |data| && data[i] == Entry(keyName, r.value)
                                    && forall j :: 0 <= j < i ==> data[j].key != keyName
  {
    for i := 0 to |data|
      invariant forall j :: 0 <= j < i ==> data[j].key != keyName
    {
      if data[i].key == keyName {
        return Some(data[i].data);
      }
    }
    return None;
  }

  // ---- Loops over the buffer ----

  method SkipSpaces(buffer: string, start: nat, last: int) returns (offset: nat)
    requires start <= |buffer| && last < |buffer|
    ensures offset == start + SpacesWithin(buffer[start..], last + 1 - start)
  {
    offset := start;
    while offset <= last && IsSpace(buffer[offset])
      invariant start <= offset <= |buffer|
      invariant SpacesWithin(buffer[start..], last + 1 - start) ==
                offset - start + SpacesWithin(buffer[offset..], last + 1 - offset)
    {
      assert buffer[offset..][1..] == buffer[offset + 1..];
      offset := offset + 1;
    }
  }

  method DropTrailing(buffer: string, end: int) returns (len: int)
    requires -1 <= end < |buffer|
    ensures len == TrimEnd(buffer, end + 1) - 1
  {
    len := end;
    while len >= 0 && IsSpace(buffer[len])
      invariant -1 <= len <= end
      invariant TrimEnd(buffer, end + 1) == TrimEnd(buffer, len + 1)
    {
      len := len - 1;
    }
  }

  method Strchr(buffer: string, start: nat, c: char) returns (r: Option<nat>)
    requires start <= |buffer| && c != '\0'
    ensures r == Shift(IndexOf(buffer[start..], c), start)
    ensures r.Some? ==> start <= r.value < |buffer|
  {
    var p := start;
    while p < |buffer| && buffer[p] != '\0'
      invariant start <= p <= |buffer|
      invariant Shift(IndexOf(buffer[start..], c), start) == Shift(IndexOf(buffer[p..], c), p)
    {
      if buffer[p] == c {
        return Some(p);
      }
      assert buffer[p..][1..] == buffer[p + 1..];
      p := p + 1;
    }
    return None;
  }

  function Shift(r: Option<nat>, n: nat): Option<nat> {
    match r
    case None => None
    case Some(k) => Some(n + k)
  }

  // The white space and brace handling that DictData and ArrayData share.
  method FindBody(buffer: string, open: char, close: char) returns (r: Option<(nat, int)>)
    requires open != '\0' && !IsSpace(open)
    ensures r == Body(buffer, open, close)
  {
    var len := |buffer|;
    len := len - 1;
    var offset := SkipSpaces(buffer, 0, len);
    assert buffer[0..] == buffer;
    SpacesAre(buffer);
    len := DropTrailing(buffer, len);
    if At(buffer, offset) == open {
      if buffer[len] != close {
        return None;
      }
      offset := offset + 1;
      len := len - 1;
      len := DropTrailing(buffer, len);
    }
    return Some((offset, len));
  }

  lemma {:induction false} SpacesAre(t: string)
    ensures SpacesWithin(t, |t|) == LeadSpaces(t)
  {
    if t != [] {
      SpacesAre(t[1..]);
    }
  }

  // The text between two offsets of the loop, as the scanner and setStr: cut it.
  method TakeValue(buffer: string, start: nat, len: int) returns (value: string, offset: nat)
    requires start <= |buffer| && len < |buffer|
    ensures value == ValueText(buffer[start..], len - start)
    ensures offset == start + |value| + 1 && Rest(buffer, offset) == After(buffer[start..], |value|)
  {
    var strLen := GetLineLen(buffer, start, len);
    assert start < len ==> buffer[start..][..len - start] == Window(buffer, start, len);
    value := buffer[start..start + strLen];
    offset := start + strLen + 1;
  }

  // The unread part of the buffer.
  function Rest(buffer: string, offset: nat): string {
    if offset <= |buffer| then buffer[offset..] else []
  }

  // The key before the equals sign at sep, without the spaces after it.
  method TakeKey(buffer: string, offset: nat, sep: nat) returns (key: string)
    requires offset <= sep < |buffer|
    ensures key == KeyBefore(buffer[offset..], sep - offset)
  {
    ghost var t := buffer[offset..];
    var p: int := sep - 1;
    while p > offset && IsSpace(buffer[p])
      invariant offset - 1 <= p < sep && (sep > offset ==> offset <= p)
      invariant TrimEnd(t, sep - offset) == TrimEnd(t, p + 1 - offset)
    {
      p := p - 1;
    }
    key := buffer[offset..p + 1];
    assert key == t[..p + 1 - offset];
  }

  // The head of the DictData loop: the key, then the value's text.
  method NextEntry(buffer: string, start: nat, len: int)
      returns (ok: bool, key: string, value: string, offset: nat)
    requires start < len < |buffer|
    ensures match CutEntry(buffer[start..], len - start)
            case None => !ok
            case Some(cut) =>
              && ok && cut == Cut(key, value, Rest(buffer, offset), len - offset)
              && |value| < |buffer|
  {
    hide SpacesWithin, IndexOf, ValueText, TrimEnd, KeyBefore, After, Rest;
    offset := SkipSpaces(buffer, start, len);
    ghost var first := offset;
    assert buffer[start..][first - start..] == buffer[first..];
    var sep := Strchr(buffer, offset, '=');
    if sep == None {
      return false, [], [], 0;
    }
    key := TakeKey(buffer, offset, sep.value);
    assert buffer[first..][sep.value - first + 1..] == buffer[sep.value + 1..];
    offset := SkipSpaces(buffer, sep.value + 1, len - 1);
    assert buffer[first..][offset - first..] == buffer[offset..];
    value, offset := TakeValue(buffer, offset, len);
    return true, key, value, offset;
  }

  // The head of the ArrayData loop.
  method NextItem(buffer: string, start: nat, len: int) returns (value: string, offset: nat)
    requires start < len < |buffer|
    ensures CutItem(buffer[start..], len - start) == Cut([], value, Rest(buffer, offset), len - offset)
    ensures |value| < |buffer|
  {
    hide SpacesWithin, ValueText;
    offset := SkipSpaces(buffer, start, len);
    assert buffer[start..][offset - start..] == buffer[offset..];
    value, offset := TakeValue(buffer, offset, len);
  }

  // ---- setFromBuffer: ----

  method DictSetFromBuffer(buffer: string) returns (r: Option<Data>)
    ensures r == ParseDict(buffer)
    decreases |buffer|, 2
  {
    hide CutEntry, GetData, Body;
    var body := FindBody(buffer, '{', '}');
    if body == None {
      return None;
    }
    var offset, len := body.value.0, body.value.1;
    var self := new Children<Entry>();
    ghost var whole := Entries(buffer[offset..], len - offset);
    PrependLaws([], [], whole);
    while offset < len
      invariant len < |buffer| && fresh(self) && fresh(self.data) && self.Valid()
      invariant whole == Prepend(self.Contents(), Entries(Rest(buffer, offset), len - offset))
      decreases len - offset
    {
      var ok, key, value, next := NextEntry(buffer, offset, len);
      if !ok {
        return None;
      }
      var dataObj := GetDataFrom(value);
      if dataObj == None {
        return None;
      }
      offset := next;
      PrependLaws(self.Contents(), [Entry(key, dataObj.value)], Entries(Rest(buffer, offset), len - offset));
      self.AddChild(Entry(key, dataObj.value));
    }
    PrependLaws(self.Contents(), [], Some([]));
    return Some(Dict(self.data[..self.numChildren]));
  }

  method ArraySetFromBuffer(buffer: string) returns (r: Option<Data>)
    ensures r == ParseArray(buffer)
    decreases |buffer|, 2
  {
    hide CutItem, GetData, Body;
    var body := FindBody(buffer, '[', ']');
    if body == None {
      return None;
    }
    var offset, len := body.value.0, body.value.1;
    var self := new Children<Data>();
    ghost var whole := Items(buffer[offset..], len - offset);
    PrependLaws([], [], whole);
    while offset < len
      invariant len < |buffer| && fresh(self) && fresh(self.data) && self.Valid()
      invariant whole == Prepend(self.Contents(), Items(Rest(buffer, offset), len - offset))
      decreases len - offset
    {
      var value, next := NextItem(buffer, offset, len);
      var dataObj := GetDataFrom(value);
      if dataObj == None {
        return None;
      }
      offset := next;
      PrependLaws(self.Contents(), [dataObj.value], Items(Rest(buffer, offset), len - offset));
      self.AddChild(dataObj.value);
    }
    PrependLaws(self.Contents(), [], Some([]));
    return Some(Array(self.data[..self.numChildren]));
  }

  method StringSetFromBuffer(buffer: string) returns (r: Option<Data>)
    ensures r == ParseStr(buffer)
  {
    var startPtr := Strchr(buffer, 0, '"');
    assert buffer[0..] == buffer;
    if startPtr == None {
      return None;
    }
    var start := startPtr.value + 1;
    var endPtr := |buffer|;
    while endPtr > start && At(buffer, endPtr) != '"'
      invariant start <= endPtr <= |buffer|
      invariant LastQuote(buffer, start, |buffer|) == LastQuote(buffer, start, endPtr)
    {
      endPtr := endPtr - 1;
    }
    if endPtr == start {
      return None;
    }
    return Some(Str(buffer[start..endPtr]));
  }

  method NumSetFromBuffer(buffer: string) returns (r: Option<Data>)
    ensures r == ParseNum(buffer)
  {
    var (data, end) := Strtol(buffer);
    if At(buffer, end) != '\0' {
      return None;
    }
    return Some(Num(data));
  }

  method GetDataFrom(dataStr: string) returns (r: Option<Data>)
    ensures r == GetData(dataStr)
    decreases |dataStr|, 3
  {
    match At(dataStr, 0) {
      case '{' => r := DictSetFromBuffer(dataStr);
      case '[' => r := ArraySetFromBuffer(dataStr);
      case '"' => r := StringSetFromBuffer(dataStr);
      case _ => r := NumSetFromBuffer(dataStr);
    }
  }
}
