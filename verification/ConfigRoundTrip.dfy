// Parsing printed configuration text gives back the tree it was printed from.
module ConfigRoundTrip {
  import opened Wrappers
  import opened ConfigScan
  import opened ConfigInert
  import opened ConfigNum
  import opened ConfigParse
  import opened ConfigPrint

  // ---- The pieces of an entry ----

  lemma {:induction false} SpacesSkipped(a: string, b: string, n: int)
    requires AllSpace(a) && |a| <= n && (b == [] || !IsSpace(b[0]))
    ensures SpacesWithin(a + b, n) == |a|
  {
    if a == [] {
      assert a + b == b;
    } else {
      assert (a + b)[1..] == a[1..] + b;
      SpacesSkipped(a[1..], b, n - 1);
    }
  }

  lemma {:induction false} EqualsFound(a: string, b: string)
    requires '=' !in a && '\0' !in a
    ensures IndexOf(a + ("=" + b), '=') == Some(|a|)
  {
    var t := a + ("=" + b);
    if a == [] {
      assert t == "=" + b;
    } else {
      assert a[0] in a;
      assert t[1..] == a[1..] + ("=" + b);
      EqualsFound(a[1..], b);
    }
  }

  lemma KeyTaken(key: string, spaces: string, b: string)
    requires key != [] && !IsSpace(key[|key| - 1]) && AllSpace(spaces)
    ensures KeyBefore(key + spaces + ("=" + b), |key + spaces|) == key
  {
    var t := key + spaces + ("=" + b);
    var n := TrimEnd(t, |key + spaces|);
    assert !IsSpace(t[|key| - 1]);
    assert forall i :: |key| <= i < |key + spaces| ==> IsSpace(t[i]);
    assert n == |key|;
    assert t[..|key|] == key;
  }

  lemma ValueTaken(v: string, rest: string, n: nat)
    requires v != [] && Intact(v, IDLE) && Walk(v, IDLE) == IDLE && n <= |rest|
    ensures ValueText(v + (";" + rest), |v| + n) == v
  {
    var x := v + (";" + rest);
    var tail := (";" + rest)[..n];
    assert x[..|v| + n] == v + tail;
    LineLenAppend(v, tail, IDLE);
    assert LineLen(tail, IDLE) == 0;
    assert x[..|v|] == v;
  }

  // The first character of a printed value is not white space.
  lemma ValueStarts(w: Layout, d: Data)
    requires Writable(d)
    ensures PrintData(w, d) != [] && !IsSpace(PrintData(w, d)[0])
  {
    if d.Num? {
      DecimalPlain(d.value);
    }
  }

  lemma ValueNeutral(w: Layout, d: Data)
    requires IsLayout(w) && Writable(d)
    ensures Intact(PrintData(w, d), IDLE) && Walk(PrintData(w, d), IDLE) == IDLE
  {
    PrintInert(w, d);
    assert KeepsScan(PrintData(w, d), 0, 0);
  }

  // ---- One entry off the front ----

  // What the value part of an entry is cut into.
  lemma CutValue(spaces: string, v: string, rest: string, n: nat)
    requires AllSpace(spaces) && v != [] && !IsSpace(v[0])
    requires Intact(v, IDLE) && Walk(v, IDLE) == IDLE && n <= |rest|
    ensures var x := v + (";" + rest);
            && SpacesWithin(spaces + x, |spaces| + |v| + n) == |spaces|
            && SpacesWithin(spaces + x, |spaces| + |v| + n + 1) == |spaces|
            && (spaces + x)[|spaces|..] == x
            && ValueText(x, |v| + n) == v
            && After(x, |v|) == rest
  {
    hide SpacesWithin, ValueText;
    var x := v + (";" + rest);
    SpacesSkipped(spaces, x, |spaces| + |v| + n);
    SpacesSkipped(spaces, x, |spaces| + |v| + n + 1);
    ValueTaken(v, rest, n);
    assert x[|v| + 1..] == rest;
  }

  // What the key part is cut into: the spaces skipped, and the rest up to the
  // equals sign.  With an empty key the two runs of spaces are one.
  lemma CutKey(w: Layout, key: string, y: string, n: nat)
    requires IsLayout(w) && KeyPlain(key) && n >= |w.lead| + |key| + |w.beforeEq|
    ensures var p := if key == [] then w.lead + w.beforeEq else w.lead;
            var q := if key == [] then [] else key + w.beforeEq;
            && SpacesWithin(p + (q + ("=" + y)), n) == |p|
            && IndexOf(q + ("=" + y), '=') == Some(|q|)
            && KeyBefore(q + ("=" + y), |q|) == key
  {
    var p := if key == [] then w.lead + w.beforeEq else w.lead;
    var q := if key == [] then [] else key + w.beforeEq;
    assert AllSpace(p);
    SpacesSkipped(p, q + ("=" + y), n);
    assert '=' !in w.beforeEq && '\0' !in w.beforeEq;
    EqualsFound(q, y);
    if key != [] {
      KeyTaken(key, w.beforeEq, y);
    }
  }

  // CutEntry on a text already split into its parts.
  lemma CutEntryParts(p: string, q: string, s: string, x: string, key: string, v: string, rest: string, e: int)
    requires 0 < e < |p| + |q| + 1 + |s| + |x|
    requires SpacesWithin(p + (q + ("=" + (s + x))), e + 1) == |p|
    requires IndexOf(q + ("=" + (s + x)), '=') == Some(|q|)
    requires KeyBefore(q + ("=" + (s + x)), |q|) == key
    requires SpacesWithin(s + x, e - |p| - |q| - 1) == |s|
    requires ValueText(x, e - |p| - |q| - 1 - |s|) == v && After(x, |v|) == rest
    ensures CutEntry(p + (q + ("=" + (s + x))), e) ==
            Some(Cut(key, v, rest, e - |p| - |q| - |s| - |v| - 2))
  {
    hide SpacesWithin, ValueText, IndexOf, KeyBefore, After;
    var t := q + ("=" + (s + x));
    assert (p + t)[|p|..] == t;
    assert t[|q| + 1..] == s + x;
    assert t[|q| + 1 + |s|..] == x;
  }

  lemma EntryParts(w: Layout, e: Entry, rest: string)
    ensures var p := if e.key == [] then w.lead + w.beforeEq else w.lead;
            var q := if e.key == [] then [] else e.key + w.beforeEq;
            PrintEntry(w, e) + rest == p + (q + ("=" + (w.afterEq + (PrintData(w, e.data) + (";" + rest)))))
  {
    hide PrintData;
  }

  lemma CutEntryPrinted(w: Layout, e: Entry, rest: string, n: nat)
    requires IsLayout(w) && KeyPlain(e.key) && Writable(e.data) && n <= |rest|
    ensures |PrintEntry(w, e)| > 1
    ensures CutEntry(PrintEntry(w, e) + rest, |PrintEntry(w, e)| - 1 + n) ==
            Some(Cut(e.key, PrintData(w, e.data), rest, n - 1))
  {
    hide SpacesWithin, ValueText, PrintData, Writable, IndexOf, KeyBefore, After, KeyPlain, CutEntry;
    var v := PrintData(w, e.data);
    var last := |PrintEntry(w, e)| - 1 + n;
    var x := v + (";" + rest);
    var p := if e.key == [] then w.lead + w.beforeEq else w.lead;
    var q := if e.key == [] then [] else e.key + w.beforeEq;
    ValueStarts(w, e.data);
    ValueNeutral(w, e.data);
    CutKey(w, e.key, w.afterEq + x, last + 1);
    CutValue(w.afterEq, v, rest, n);
    assert last - |p| - |q| - 1 == |w.afterEq| + |v| + n;
    CutEntryParts(p, q, w.afterEq, x, e.key, v, rest, last);
    EntryParts(w, e, rest);
  }

  lemma CutItemPrinted(w: Layout, d: Data, rest: string, n: nat)
    requires IsLayout(w) && Writable(d) && n <= |rest|
    ensures |PrintItem(w, d)| > 1
    ensures CutItem(PrintItem(w, d) + rest, |PrintItem(w, d)| - 1 + n) ==
            Cut([], PrintData(w, d), rest, n - 1)
  {
    hide SpacesWithin, ValueText, PrintData, Writable, After, CutItem;
    var v := PrintData(w, d);
    ValueStarts(w, d);
    ValueNeutral(w, d);
    CutValue(w.lead, v, rest, n);
    CutItemParts(w.lead, v + (";" + rest), v, rest, |w.lead| + |v| + n);
    assert PrintItem(w, d) + rest == w.lead + (v + (";" + rest));
  }

  // CutItem on a text already split into its parts.
  lemma CutItemParts(s: string, x: string, v: string, rest: string, e: int)
    requires 0 < e < |s| + |x|
    requires SpacesWithin(s + x, e + 1) == |s|
    requires ValueText(x, e - |s|) == v && After(x, |v|) == rest
    ensures CutItem(s + x, e) == Cut([], v, rest, e - |s| - |v| - 1)
  {
    hide SpacesWithin, ValueText, After;
    assert (s + x)[|s|..] == x;
  }

  // ---- Whole bodies ----

  predicate EndsEntry(t: string) {
    t == [] || t[|t| - 1] == ';'
  }

  lemma BodyPrinted(p: string, trail: string, square: bool)
    requires EndsEntry(p) && AllSpace(trail)
    ensures Body(Braced(p + trail, square), if square then '[' else '{', if square then ']' else '}') ==
            Some((1, |p|))
    ensures Braced(p + trail, square)[1..] == p + (trail + if square then "]" else "}")
  {
    hide LeadSpaces, TrimEnd, Braced;
    var t := Braced(p + trail, square);
    BracedParts(p, trail, square);
    NoLeadSpaces(t);
    TrimsTo(t, |t|, |t|);
    TrimsTo(t, |t| - 1, 1 + |p|);
  }

  // Where everything is in a printed body.
  lemma BracedParts(p: string, trail: string, square: bool)
    requires EndsEntry(p) && AllSpace(trail)
    ensures var t := Braced(p + trail, square);
            && |t| == |p| + |trail| + 2
            && t[0] == (if square then '[' else '{') && t[|t| - 1] == (if square then ']' else '}')
            && t[|p|] == (if p != [] then ';' else t[0])
            && (forall i :: 1 + |p| <= i < |t| - 1 ==> IsSpace(t[i]))
            && t[1..] == p + (trail + if square then "]" else "}")
  {
    var t := Braced(p + trail, square);
    assert t[1..] == p + (trail + if square then "]" else "}");
    assert p != [] ==> t[|p|] == t[1..][|p| - 1] == p[|p| - 1];
    assert forall i :: 1 + |p| <= i < |t| - 1 ==> t[i] == trail[i - 1 - |p|];
  }

  lemma {:induction false} TrimsTo(t: string, n: nat, k: nat)
    requires k <= n <= |t| && (k > 0 ==> !IsSpace(t[k - 1]))
    requires forall i :: k <= i < n ==> IsSpace(t[i])
    ensures TrimEnd(t, n) == k
  {
    hide IsSpace;
    if n > k {
      TrimsTo(t, n - 1, k);
    }
  }

  lemma {:induction false} EntriesEnd(w: Layout, entries: seq<Entry>)
    ensures EndsEntry(PrintEntries(w, entries))
  {
    if entries != [] {
      EntriesEnd(w, entries[1..]);
    }
  }

  lemma {:induction false} ItemsEnd(w: Layout, items: seq<Data>)
    ensures EndsEntry(PrintItems(w, items))
  {
    if items != [] {
      ItemsEnd(w, items[1..]);
    }
  }

  // ---- The round trip ----

  lemma {:induction false} DataParses(w: Layout, d: Data)
    requires IsLayout(w) && Writable(d)
    ensures GetData(PrintData(w, d)) == Some(d)
    decreases d, 1
  {
    hide Body, Entries, Items, PrintEntries, PrintItems, Decimal, Strtol, ParseStr;
    match d {
      case Dict(entries) =>
        var p := PrintEntries(w, entries);
        EntriesEnd(w, entries);
        BodyPrinted(p, w.trail, false);
        EntriesParse(w, entries, w.trail + "}");
      case Array(items) =>
        var p := PrintItems(w, items);
        ItemsEnd(w, items);
        BodyPrinted(p, w.trail, true);
        ItemsParse(w, items, w.trail + "]");
      case Str(text) =>
        StringParses(text, []);
        assert Quoted(text) + [] == Quoted(text);
      case Num(value) =>
        DecimalParses(value);
        DecimalPlain(value);
    }
  }

  lemma {:induction false} EntriesParse(w: Layout, entries: seq<Entry>, tail: string)
    requires IsLayout(w) && EntriesPlain(entries)
    ensures Entries(PrintEntries(w, entries) + tail, |PrintEntries(w, entries)| - 1) == Some(entries)
    decreases entries, 0
  {
    hide CutEntry, GetData, PrintEntry, PrintData, KeyPlain;
    if entries != [] {
      var e, more := entries[0], PrintEntries(w, entries[1..]);
      CutEntryPrinted(w, e, more + tail, |more|);
      assert PrintEntries(w, entries) + tail == PrintEntry(w, e) + (more + tail);
      DataParses(w, e.data);
      EntriesParse(w, entries[1..], tail);
      assert entries == [e] + entries[1..];
    }
  }

  lemma {:induction false} ItemsParse(w: Layout, items: seq<Data>, tail: string)
    requires IsLayout(w) && ItemsOk(items)
    ensures Items(PrintItems(w, items) + tail, |PrintItems(w, items)| - 1) == Some(items)
    decreases items, 0
  {
    hide CutItem, GetData, PrintItem, PrintData;
    if items != [] {
      var d, more := items[0], PrintItems(w, items[1..]);
      CutItemPrinted(w, d, more + tail, |more|);
      assert PrintItems(w, items) + tail == PrintItem(w, d) + (more + tail);
      DataParses(w, d);
      ItemsParse(w, items[1..], tail);
      assert items == [d] + items[1..];
    }
  }

  // A quoted text, whatever unquoted text follows it, reads as its content.
  lemma StringParses(text: string, rest: string)
    requires text != [] && '"' !in rest
    ensures GetData(Quoted(text) + rest) == Some(Str(text))
  {
    var t := Quoted(text) + rest;
    var end := |text| + 1;
    assert t[0] == '"' && t[end] == '"';
    assert IndexOf(t, '"') == Some(0);
    var k := LastQuote(t, 1, |t|);
    assert forall i :: end < i < |t| ==> t[i] == rest[i - end - 1];
    assert forall i :: end < i < |t| ==> t[i] != '"';
    assert k == end;
    assert t[1..end] == text;
  }
}
