// Configuration text as people write it, with any white space around keys,
// equals signs and entries, and the proof that parsing it gives back the tree.
module ConfigPrint {
  import opened Wrappers
  import opened ConfigScan
  import opened ConfigInert
  import opened ConfigNum
  import opened ConfigParse

  // White space before an entry, on both sides of an equals sign, and before
  // a closing brace.
  datatype Layout = Layout(lead: string, beforeEq: string, afterEq: string, trail: string)

  predicate AllSpace(t: string) {
    forall i :: 0 <= i < |t| ==> IsSpace(t[i])
  }

  predicate IsLayout(w: Layout) {
    AllSpace(w.lead) && AllSpace(w.beforeEq) && AllSpace(w.afterEq) && AllSpace(w.trail)
  }

  // ---- Printing: every entry ends in `;' ----

  function PrintData(w: Layout, d: Data): string
    decreases d, 1
  {
    match d
    case Dict(entries) => Braced(PrintEntries(w, entries) + w.trail, false)
    case Array(items) => Braced(PrintItems(w, items) + w.trail, true)
    case Str(text) => Quoted(text)
    case Num(value) => Decimal(value)
  }

  function PrintEntry(w: Layout, e: Entry): string
    decreases e, 0
  {
    w.lead + e.key + w.beforeEq + "=" + w.afterEq + PrintData(w, e.data) + ";"
  }

  function PrintEntries(w: Layout, entries: seq<Entry>): string
    decreases entries, 0
  {
    if entries == [] then [] else PrintEntry(w, entries[0]) + PrintEntries(w, entries[1..])
  }

  function PrintItem(w: Layout, d: Data): string
    decreases d, 2
  {
    w.lead + PrintData(w, d) + ";"
  }

  function PrintItems(w: Layout, items: seq<Data>): string
    decreases items, 0
  {
    if items == [] then [] else PrintItem(w, items[0]) + PrintItems(w, items[1..])
  }

  // ---- Which trees can be written down ----

  // What the parser can make of a key at all: no equals sign and no NUL, and no
  // white space at its start or end.
  predicate KeyPlain(key: string) {
    && '=' !in key && '\0' !in key
    && (key != [] ==> !IsSpace(key[0]) && !IsSpace(key[|key| - 1]))
  }

  // A key may be any of these that does not disturb the scanner of an enclosing
  // entry.
  predicate KeyOk(key: string) {
    KeyPlain(key) && KeyQuiet(key)
  }

  // Strings are non-empty and, quoted, pass the scanner; numbers are longs.
  ghost predicate Writable(d: Data)
    decreases d
  {
    match d
    case Dict(entries) => forall i :: 0 <= i < |entries| ==> KeyOk(entries[i].key) && Writable(entries[i].data)
    case Array(items) => forall i :: 0 <= i < |items| ==> Writable(items[i])
    case Str(text) => text != [] && Inert(Quoted(text), Anywhere)
    case Num(value) => IsLong(value)
  }

  ghost predicate EntriesOk(entries: seq<Entry>) {
    forall i :: 0 <= i < |entries| ==> KeyOk(entries[i].key) && Writable(entries[i].data)
  }

  // The entries of a file or of an outermost dictionary, whose keys the scanner
  // does not come to.
  ghost predicate EntriesPlain(entries: seq<Entry>) {
    forall i :: 0 <= i < |entries| ==> KeyPlain(entries[i].key) && Writable(entries[i].data)
  }

  ghost predicate ItemsOk(items: seq<Data>) {
    forall i :: 0 <= i < |items| ==> Writable(items[i])
  }

  // ---- Printed values are inert ----

  lemma SpaceInert(t: string, d: Depth)
    requires AllSpace(t)
    ensures Inert(t, d)
  {
    PlainInert(t, d);
  }

  lemma InertInside(t: string)
    requires Inert(t, Anywhere)
    ensures Inert(t, Inside) && Inert(t, InDict)
  {
    forall f: nat, q: nat
      ensures KeepsScan(t, f, q)
    {
      assert Within(Anywhere, f, q);
    }
  }

  lemma {:induction false} PrintInert(w: Layout, d: Data)
    requires IsLayout(w) && Writable(d)
    ensures Inert(PrintData(w, d), Anywhere)
    decreases d, 1
  {
    hide Inert;
    match d {
      case Dict(entries) =>
        EntriesInert(w, entries);
        SpaceInert(w.trail, InDict);
        InertAppend(PrintEntries(w, entries), w.trail, InDict);
        BracedInert(PrintEntries(w, entries) + w.trail, false);
      case Array(items) =>
        ItemsInert(w, items);
        SpaceInert(w.trail, Inside);
        InertAppend(PrintItems(w, items), w.trail, Inside);
        BracedInert(PrintItems(w, items) + w.trail, true);
      case Str(text) =>
      case Num(value) =>
        DecimalPlain(value);
        PlainInert(Decimal(value), Anywhere);
    }
  }

  lemma {:induction false} EntriesInert(w: Layout, entries: seq<Entry>)
    requires IsLayout(w) && EntriesOk(entries)
    ensures Inert(PrintEntries(w, entries), InDict)
    decreases entries, 0
  {
    hide Inert, KeyQuiet;
    if entries == [] {
      PlainInert([], InDict);
    } else {
      var e := entries[0];
      PrintInert(w, e.data);
      InertInside(PrintData(w, e.data));
      SpaceInert(w.lead, InDict);
      SpaceInert(w.beforeEq, InDict);
      SpaceInert(w.afterEq, InDict);
      PlainInert("=", InDict);
      TerminatorInertInside();
      KeyInert(e.key);
      InertAppend(w.lead, e.key, InDict);
      InertAppend(w.lead + e.key, w.beforeEq, InDict);
      InertAppend(w.lead + e.key + w.beforeEq, "=", InDict);
      InertAppend(w.lead + e.key + w.beforeEq + "=", w.afterEq, InDict);
      InertAppend(w.lead + e.key + w.beforeEq + "=" + w.afterEq, PrintData(w, e.data), InDict);
      InertAppend(w.lead + e.key + w.beforeEq + "=" + w.afterEq + PrintData(w, e.data), ";", InDict);
      EntriesInert(w, entries[1..]);
      InertAppend(PrintEntry(w, e), PrintEntries(w, entries[1..]), InDict);
    }
  }

  lemma {:induction false} ItemsInert(w: Layout, items: seq<Data>)
    requires IsLayout(w) && ItemsOk(items)
    ensures Inert(PrintItems(w, items), Inside)
    decreases items, 0
  {
    hide Inert;
    if items == [] {
      PlainInert([], Inside);
    } else {
      PrintInert(w, items[0]);
      InertInside(PrintData(w, items[0]));
      SpaceInert(w.lead, Inside);
      TerminatorInertInside();
      InertAppend(w.lead, PrintData(w, items[0]), Inside);
      InertAppend(w.lead + PrintData(w, items[0]), ";", Inside);
      ItemsInert(w, items[1..]);
      InertAppend(w.lead + PrintData(w, items[0]) + ";", PrintItems(w, items[1..]), Inside);
    }
  }
}
