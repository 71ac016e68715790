// Exactly which keys a configuration may hold.
module ConfigKeys {
  import opened Wrappers
  import opened ConfigScan
  import opened ConfigInert
  import opened ConfigNum
  import opened ConfigParse
  import opened ConfigPrint
  import opened ConfigRoundTrip
  import opened ConfigSafety

  // One entry with the key, by itself; in a dictionary with another entry after
  // it; in two dictionaries; and in two arrays.
  function Single(key: string): Data {
    Dict([Entry(key, Num(0))])
  }

  function KeyProbe(key: string, n: int): Data {
    if n == 0 then Dict([Entry([], Single(key)), Entry([], Num(0))])
    else if n == 1 then Dict([Entry([], Dict([Entry([], Single(key))]))])
    else if n == 2 then Array([Array([Single(key)])])
    else Single(key)
  }

  // Every key is either safe in whatever configuration it is part of, or lost in
  // one of four small ones; which of the two can be told from the key.
  lemma KeySafe(key: string)
    ensures KeyOk(key) <==> Writable(Single(key))
    ensures KeyOk(key) <==>
            forall n :: 0 <= n <= 3 ==> GetData(PrintData(TIGHT, KeyProbe(key, n))) == Some(KeyProbe(key, n))
  {
    hide KeyQuiet, KeyPlain;
    if KeyOk(key) {
      forall n | 0 <= n <= 3
        ensures GetData(PrintData(TIGHT, KeyProbe(key, n))) == Some(KeyProbe(key, n))
      {
        KeyProbeWritable(key, n);
        DataParses(TIGHT, KeyProbe(key, n));
      }
    } else {
      assert Single(key).entries[0].key == key;
      var n := UnsafeKey(key);
    }
  }

  lemma KeyProbeWritable(key: string, n: int)
    requires KeyOk(key)
    ensures Writable(KeyProbe(key, n))
  {
    KeyInert([]);
    PlainInert([], InDict);
    assert Writable(Single(key));
    assert Writable(Dict([Entry([], Single(key))])) && Writable(Array([Single(key)]));
  }

  lemma UnsafeKey(key: string) returns (n: int)
    requires !KeyOk(key)
    ensures 0 <= n <= 3 && GetData(PrintData(TIGHT, KeyProbe(key, n))) != Some(KeyProbe(key, n))
  {
    hide GetData, PrintData, Walk, Intact, Floor, Balanced, Quotes, Sealed, KeyPlain;
    IntactInside(key, IN_DICT, 1, 0);
    WalkApart(key, IN_DICT);
    if !KeyPlain(key) {
      n := 3;
      KeyChanged(key);
    } else if !Intact(key, IN_DICT) || Walk(key, IN_DICT) != IN_DICT {
      n := 0;
      LostInDict(key);
    } else if !Balanced(key, 1, 1, '{', '}') {
      n := 1;
      UnbalancedDrifts(key, 1, 1, '{', '}');
      WalkApart(key, Scan(false, 2, 0));
      IntactInside(key, IN_DICT, 2, 0);
      LostDeeper(key);
    } else {
      n := 2;
      UnbalancedDrifts(key, 0, 0, '[', ']');
      WalkApart(key, Scan(false, 1, 1));
      IntactInside(key, IN_DICT, 1, 1);
      LostInArray(key);
    }
  }

  // ---- A key the parser cannot make ----

  lemma CutKeyPlain(u: string, e: int)
    requires 0 < e < |u| && !IsSpace(u[e])
    ensures CutEntry(u, e).Some? ==> KeyPlain(CutEntry(u, e).value.key)
  {
    hide ValueText, SpacesWithin, After, TrimEnd;
    SpacesStop(u, e);
    var s := SpacesWithin(u, e + 1);
    var w := u[s..];
    if IndexOf(w, '=').Some? {
      IndexIsFirst(w, '=');
    }
  }

  lemma {:induction false} SpacesStop(u: string, e: nat)
    requires e < |u| && !IsSpace(u[e])
    ensures SpacesWithin(u, e + 1) <= e && !IsSpace(u[SpacesWithin(u, e + 1)])
  {
    if IsSpace(u[0]) {
      SpacesStop(u[1..], e - 1);
    }
  }

  lemma {:induction false} IndexIsFirst(t: string, c: char)
    requires IndexOf(t, c).Some? && c != '\0'
    ensures var k := IndexOf(t, c).value; t[k] == c && c !in t[..k] && '\0' !in t[..k]
  {
    if t[0] != c {
      IndexIsFirst(t[1..], c);
      var k := IndexOf(t, c).value;
      assert t[..k] == [t[0]] + t[1..][..k - 1];
    }
  }

  lemma KeyChanged(key: string)
    requires !KeyPlain(key)
    ensures GetData(PrintData(TIGHT, Single(key))) != Some(Single(key))
  {
    hide GetData, Body, CutEntry, KeyPlain;
    var u := key + "=0;}";
    var e := |u| - 2;
    PrintedSingle(key);
    var p := key + "=0;";
    assert p + [] == p;
    BodyPrinted(p, [], false);
    assert p + ([] + "}") == u;
    DictParse(PrintData(TIGHT, Single(key)), u, e);
    CutKeyPlain(u, e);
    match Entries(u, e) {
      case None =>
      case Some(entries) =>
        assert entries[0].key == CutEntry(u, e).value.key;
        assert Single(key).entries[0].key == key;
    }
  }

  lemma PrintedSingle(key: string)
    ensures PrintData(TIGHT, Single(key)) == Braced(key + "=0;" + [], false)
    ensures PrintData(TIGHT, Single(key)) == "{" + key + "=0;}"
  {
    hide Decimal;
    assert Decimal(0) == "0" by { ZeroPrints(); }
    var entries := [Entry(key, Num(0))];
    assert entries[1..] == [];
    assert PrintEntry(TIGHT, entries[0]) == key + "=0;";
    assert PrintEntries(TIGHT, entries) == key + "=0;" + [];
    assert "{" + (key + "=0;" + [] + []) + "}" == "{" + key + "=0;}";
  }

  // ---- A key that disturbs the scanner ----

  // A value that ends before its brace is closed.
  lemma NotClosedBy(v: string)
    requires v != [] && (v[0] == '{' || v[0] == '[') && !IsSpace(v[|v| - 1])
    requires v[|v| - 1] != if v[0] == '{' then '}' else ']'
    ensures GetData(v) == None
  {
    hide LeadSpaces, TrimEnd, Entries, Items;
    NoLeadSpaces(v);
    TrimsTo(v, |v|, |v|);
  }

  // A value that ends before its first equals sign.
  lemma NoEquals(v: string)
    requires v != [] && v[0] == '{' && '=' !in v
    ensures GetData(v) == None || GetData(v) == Some(Dict([]))
  {
    hide Body, Entries, GetData;
    DictFirst(v);
    match Body(v, '{', '}') {
      case None =>
      case Some((offset, len)) => NoEntriesWithoutEquals(v[offset..], len - offset);
    }
  }

  lemma NoEntriesWithoutEquals(u: string, e: int)
    requires '=' !in u && (e <= 0 || e < |u|)
    ensures Entries(u, e) == None || Entries(u, e) == Some([])
  {
    hide IndexOf, SpacesWithin, GetData;
    if e > 0 && IndexOf(u[SpacesWithin(u, e + 1)..], '=').Some? {
      IndexIsFirst(u[SpacesWithin(u, e + 1)..], '=');
    }
  }

  lemma DictFirst(v: string)
    requires v != [] && v[0] == '{'
    ensures GetData(v) == ParseDict(v)
  {
  }

  // The scanner from before a key's brace to after the key.
  lemma KeyScanned(head: string, key: string, tail: string, s: Scan)
    requires Walk(head, IDLE) == s && Intact(head, IDLE) && Intact(key, s)
    ensures LineLen(head + key + tail, IDLE) == |head + key| + LineLen(tail, Walk(key, s))
  {
    hide Walk, Intact, LineLen;
    WalkAppend(head, key, IDLE);
    LineLenAppend(head + key, tail, IDLE);
  }

  lemma Heads()
    ensures Walk("{", IDLE) == IN_DICT && Intact("{", IDLE)
    ensures Walk("{={", IDLE) == Scan(false, 2, 0) && Intact("{={", IDLE)
    ensures Walk("[{", IDLE) == Scan(false, 1, 1) && Intact("[{", IDLE)
  {
    assert "{"[1..] == [] && "[{"[1..] == "{";
    assert "{={"[1..] == "={" && "={"[1..] == "{";
  }

  // What follows a key of value 0 in the first probe, from any state but the one
  // the key should leave.
  lemma TailScanned(s: Scan)
    requires s != IN_DICT
    ensures LineLen("=0;};=0", s) == if s == IDLE then 2 else 7
  {
    hide LineLen;
    var t := "=0;};=0";
    var after := Step(s, '}');
    assert t[0..] == t;
    LineLenStep(t, 0, s);
    LineLenStep(t, 1, s);
    LineLenStep(t, 2, s);
    LineLenStep(t, 3, s);
    LineLenStep(t, 4, after);
    LineLenStep(t, 5, after);
    LineLenStep(t, 6, after);
    LineLenStep(t, 7, after);
  }

  // And in the others, from the state of an entry's value.
  lemma TailStops(rest: string)
    ensures LineLen("=0;};" + rest, IN_DICT) == 4
    ensures LineLen("=0", IN_DICT) == 2
  {
    hide LineLen;
    var t, u := "=0;};" + rest, "=0";
    assert t[0..] == t && u[0..] == u;
    LineLenStep(t, 0, IN_DICT);
    LineLenStep(t, 1, IN_DICT);
    LineLenStep(t, 2, IN_DICT);
    LineLenStep(t, 3, IN_DICT);
    LineLenStep(t, 4, IDLE);
    LineLenStep(u, 0, IN_DICT);
    LineLenStep(u, 1, IN_DICT);
    LineLenStep(u, 2, IN_DICT);
  }

  // The value the scanner finds for a single entry with the key, with another
  // entry after it.
  lemma ValueOfKey(key: string)
    requires KeyPlain(key) && (!Intact(key, IN_DICT) || Walk(key, IN_DICT) != IN_DICT)
    ensures var y := "{" + key + "=0;};=0";
            GetData(y[..LineLen(y, IDLE)]) != Some(Single(key))
  {
    hide GetData, Walk, Intact, LineLen, KeyPlain;
    Heads();
    var head, y := "{" + key, "{" + key + "=0;};=0";
    var n := LineLen(y, IDLE);
    if !Intact(key, IN_DICT) {
      WalkAppend("{", key, IDLE);
      LineLenCut(head, "=0;};=0", IDLE);
      StartsWithin(head);
      assert y[..n] == head[..n];
      NoEqualsIn(key, n);
      NoEquals(y[..n]);
    } else {
      KeyScanned("{", key, "=0;};=0", IN_DICT);
      TailScanned(Walk(key, IN_DICT));
      NotClosedBy(y[..n]);
    }
  }

  lemma StartsWithin(head: string)
    requires head != [] && head[0] == '{'
    ensures LineLen(head, IDLE) > 0
  {
  }

  lemma NoEqualsIn(key: string, n: nat)
    requires KeyPlain(key) && n <= |"{" + key|
    ensures '=' !in ("{" + key)[..n]
  {
    var head := "{" + key;
    assert forall i :: 1 <= i < |head| ==> head[i] == key[i - 1] && head[i] in key;
  }

  lemma LostInDict(key: string)
    requires KeyPlain(key) && (!Intact(key, IN_DICT) || Walk(key, IN_DICT) != IN_DICT)
    ensures GetData(PrintData(TIGHT, KeyProbe(key, 0))) != Some(KeyProbe(key, 0))
  {
    hide GetData, PrintData, Walk, Intact, KeyPlain, CutEntry, Body, LineLen;
    var y := "{" + key + "=0;};=0";
    var p := "=" + y + ";";
    var t, u, x := "{" + p + "}", p + "}", y + ";}";
    PrintedInDict(key);
    assert p + [] == p;
    BodyPrinted(p, [], false);
    Regroup("=", y);
    var e := |p| - 1;
    assert x[..e - 1] == y;
    var n := LineLen(y, IDLE);
    FirstUnnamedEntry(x, e - 1, n);
    assert x[..n] == y[..n];
    ValueOfKey(key);
    DictParse(t, u, e);
    match Entries(u, e) {
      case None =>
      case Some(entries) =>
        assert GetData(y[..n]).Some? && entries[0].data == GetData(y[..n]).value;
        assert KeyProbe(key, 0).entries[0].data == Single(key);
    }
  }

  lemma LostDeeper(key: string)
    requires Intact(key, IN_DICT) && Walk(key, IN_DICT) == IN_DICT
    requires Intact(key, Scan(false, 2, 0)) && Walk(key, Scan(false, 2, 0)) == IN_DICT
    ensures GetData(PrintData(TIGHT, KeyProbe(key, 1))) == None
  {
    hide GetData, PrintData, Walk, Intact, CutEntry, Body, LineLen;
    var v := "{={" + key + "=0;};}";
    var p := "=" + v + ";";
    var t, u, x := "{" + p + "}", p + "}", v + ";}";
    PrintedDeeper(key);
    assert p + [] == p;
    BodyPrinted(p, [], false);
    Regroup("=", v);
    var e := |p| - 1;
    assert x[..e - 1] == v;
    Heads();
    KeyScanned("{={", key, "=0;};}", Scan(false, 2, 0));
    TailStops("}");
    assert "=0;};" + "}" == "=0;};}";
    var n := |"{={" + key| + 4;
    FirstUnnamedEntry(x, e - 1, n);
    assert x[..n] == "{={" + key + "=0;}";
    UnfinishedInner(key);
    DictParse(t, u, e);
  }

  // Cut off after its first entry, the outer dictionary still has a brace at its
  // end; but then the inner one has none.
  lemma UnfinishedInner(key: string)
    requires Intact(key, IN_DICT) && Walk(key, IN_DICT) == IN_DICT
    ensures GetData("{={" + key + "=0;}") == None
  {
    hide GetData, Walk, Intact, CutEntry, Body, LineLen;
    var y := "{" + key + "=0";
    var p := "=" + y + ";";
    var t, u, x := "{" + p + "}", p + "}", y + ";}";
    assert t == "{={" + key + "=0;}";
    assert p + [] == p;
    BodyPrinted(p, [], false);
    Regroup("=", y);
    var e := |p| - 1;
    assert x[..e - 1] == y;
    Heads();
    KeyScanned("{", key, "=0", IN_DICT);
    TailStops([]);
    FirstUnnamedEntry(x, e - 1, |y|);
    assert x[..|y|] == y;
    NotClosedBy(y);
    DictParse(t, u, e);
  }

  lemma LostInArray(key: string)
    requires Intact(key, Scan(false, 1, 1)) && Walk(key, Scan(false, 1, 1)) == IN_DICT
    ensures GetData(PrintData(TIGHT, KeyProbe(key, 2))) == None
  {
    hide GetData, PrintData, Walk, Intact, CutItem, Body, LineLen;
    var z := "[{" + key + "=0;}";
    var v := z + ";]";
    var p := v + ";";
    var u := p + "]";
    PrintedInArray(key);
    assert v == "[{" + key + "=0;};]" && "[" + p + "]" == "[" + (v + ";") + "]";
    assert p + [] == p;
    BodyPrinted(p, [], true);
    Prefix(z, ";]", ";]");
    assert u == z + ";]" + ";]";
    Heads();
    KeyScanned("[{", key, "=0;};]", Scan(false, 1, 1));
    TailStops("]");
    assert "=0;};" + "]" == "=0;};]";
    FirstItem(u, |v|, |z|);
    NotClosedBy(z);
    ArrayParse("[" + p + "]", u, |v|);
  }

  // ---- The probes as printed ----

  lemma PrintedInDict(key: string)
    ensures PrintData(TIGHT, KeyProbe(key, 0)) == "{" + ("=" + ("{" + key + "=0;};=0") + ";") + "}"
  {
    hide Decimal;
    assert Decimal(0) == "0" by { ZeroPrints(); }
    PrintedSingle(key);
    var first, second := Entry([], Single(key)), Entry([], Num(0));
    var entries := [first, second];
    hide PrintData;
    PrintedEntry(first);
    assert PrintEntry(TIGHT, second) == "=0;" by { PrintedEntry(second); PrintedZero(); }
    assert entries[1..] == [second] && [second][1..] == [];
    assert PrintEntries(TIGHT, []) == [];
    assert PrintEntries(TIGHT, [second]) == "=0;" + [] == "=0;";
    PrintedDict(entries);
    assert "=" + ("{" + key + "=0;}") + ";" + "=0;" == "=" + ("{" + key + "=0;};=0") + ";" by {
      assert "=0;}" + ";" + "=0;" == "=0;};=0" + ";";
    }
  }

  lemma PrintedZero()
    ensures PrintData(TIGHT, Num(0)) == "0"
  {
    ZeroPrints();
  }

  lemma PrintedEntry(e: Entry)
    requires e.key == []
    ensures PrintEntry(TIGHT, e) == "=" + PrintData(TIGHT, e.data) + ";"
  {
    hide PrintData;
  }

  lemma PrintedDict(entries: seq<Entry>)
    ensures PrintData(TIGHT, Dict(entries)) == "{" + PrintEntries(TIGHT, entries) + "}"
  {
    hide PrintEntries;
    assert PrintEntries(TIGHT, entries) + [] == PrintEntries(TIGHT, entries);
  }

  // A dictionary of one unnamed entry.
  lemma PrintedUnnamed(d: Data)
    ensures PrintData(TIGHT, Dict([Entry([], d)])) == "{" + ("=" + PrintData(TIGHT, d) + ";") + "}"
  {
    hide PrintData;
    var e := Entry([], d);
    PrintedEntry(e);
    assert [e][1..] == [];
    assert PrintEntries(TIGHT, [e]) == PrintEntry(TIGHT, e) + [] == PrintEntry(TIGHT, e);
    PrintedDict([e]);
  }

  lemma PrintedItem(d: Data)
    ensures PrintData(TIGHT, Array([d])) == "[" + (PrintData(TIGHT, d) + ";") + "]"
  {
    assert [d][1..] == [];
    assert PrintItems(TIGHT, [d]) + [] == PrintData(TIGHT, d) + ";";
  }

  lemma PrintedDeeper(key: string)
    ensures PrintData(TIGHT, KeyProbe(key, 1)) == "{" + ("=" + ("{={" + key + "=0;};}") + ";") + "}"
  {
    hide PrintData;
    PrintedSingle(key);
    PrintedUnnamed(Single(key));
    PrintedUnnamed(Dict([Entry([], Single(key))]));
    assert "{" + ("=" + ("{" + key + "=0;}") + ";") + "}" == "{={" + key + "=0;};}" by {
      assert "{" + "=" + "{" == "{={" && "=0;}" + ";" + "}" == "=0;};}";
    }
  }

  lemma PrintedInArray(key: string)
    ensures PrintData(TIGHT, KeyProbe(key, 2)) == "[" + ("[{" + key + "=0;};]" + ";") + "]"
  {
    hide PrintData;
    PrintedSingle(key);
    PrintedItem(Single(key));
    PrintedItem(Array([Single(key)]));
    assert "[" + ("{" + key + "=0;}" + ";") + "]" == "[{" + key + "=0;};]" by {
      assert "[" + "{" == "[{" && "=0;}" + ";" + "]" == "=0;};]";
    }
  }

  // ---- A file may not start with a braced key ----

  // Such a key is safe in a dictionary, but the file it comes first in is taken
  // for a braced one.
  lemma BracedKeyLost()
    ensures KeyOk("{}") && EntriesPlain([Entry("{}", Num(1))])
    ensures ParseDict(PrintFile(TIGHT, [Entry("{}", Num(1))])) != Some(Dict([Entry("{}", Num(1))]))
  {
    BracedKeyOk();
    hide KeyOk, PrintFile, ParseDict;
    FileParses(TIGHT, [Entry("{}", Num(1))]);
  }

  lemma BracedKeyOk()
    ensures KeyOk("{}")
  {
    assert "{}"[1..] == "}" && "}"[1..] == [];
  }

  // ---- Texts that are errors ----

  // An entry without an equals sign.
  lemma MissingEquals(a: string)
    requires a != [] && !IsSpace(a[0]) && a[0] != '{' && '=' !in a
    ensures ParseDict(a + ";") == None
  {
    hide LeadSpaces, TrimEnd, Entries;
    var t := a + ";";
    NoLeadSpaces(t);
    TrimsTo(t, |t|, |t|);
    assert t[0..] == t;
    NoneWithoutEquals(t, |a|);
  }

  lemma NoneWithoutEquals(u: string, e: int)
    requires '=' !in u && 0 < e < |u|
    ensures Entries(u, e) == None
  {
    hide IndexOf, SpacesWithin, GetData;
    if IndexOf(u[SpacesWithin(u, e + 1)..], '=').Some? {
      IndexIsFirst(u[SpacesWithin(u, e + 1)..], '=');
    }
  }

  // A string without its second quote.
  lemma QuoteNeedsPartner(text: string)
    requires '"' !in text
    ensures GetData("\"" + text) == None
  {
    hide LastQuote;
    var t := "\"" + text;
    assert IndexOf(t, '"') == Some(0);
    var k := LastQuote(t, 1, |t|);
    assert forall i :: 1 <= i < |t| ==> t[i] == text[i - 1] && t[i] in text;
    assert k == 1;
  }

  // A text without any.
  lemma NoQuoteNoString(text: string)
    requires '"' !in text
    ensures ParseStr(text) == None
  {
    hide IndexOf, LastQuote;
    if IndexOf(text, '"').Some? {
      IndexIsFirst(text, '"');
    }
  }

  // ---- The key of an entry ----

  // The text before the equals sign without the white space at its end, but always
  // with its first character.
  lemma KeyBeforeIs(t: string, k: nat)
    requires k < |t|
    ensures KeyBefore(t, 0) == []
    ensures k > 0 ==>
              var key := KeyBefore(t, k);
              && 1 <= |key| <= k && key == t[..|key|]
              && (|key| == 1 || !IsSpace(t[|key| - 1]))
              && forall i :: |key| <= i < k ==> IsSpace(t[i])
  {
    hide TrimEnd, IsSpace;
  }
}
