// A configuration file whose last entry has no `;': the scanner is told that the
// file ends one character early, and that character is lost.
module ConfigTail {
  import opened Wrappers
  import opened ConfigScan
  import opened ConfigInert
  import opened ConfigNum
  import opened ConfigParse
  import opened ConfigPrint
  import opened ConfigRoundTrip
  import opened ConfigSafety

  function ButLast(t: string): string {
    if t == [] then [] else t[..|t| - 1]
  }

  // A file as PrintFile writes it, without its last `;'.
  function UnfinishedFile(w: Layout, entries: seq<Entry>): string {
    ButLast(PrintEntries(w, entries)) + w.trail
  }

  // What is read in place of the last value.
  function LastRead(w: Layout, d: Data): Option<Data> {
    GetData(ButLast(PrintData(w, d)))
  }

  // The rest of the file is read as it is, the last value without its last
  // character.
  lemma UnfinishedFileReads(w: Layout, entries: seq<Entry>)
    requires IsLayout(w) && EntriesPlain(entries) && entries != [] && !StartsWithBrace(entries)
    ensures var last := entries[|entries| - 1];
            ParseDict(UnfinishedFile(w, entries)) ==
            match LastRead(w, last.data)
            case None => None
            case Some(d) => Some(Dict(entries[..|entries| - 1] + [Entry(last.key, d)]))
  {
    hide Body, Entries, LastRead, PrintEntries, KeyPlain, UnfinishedFile;
    var t, p := UnfinishedFile(w, entries), PrintEntries(w, entries);
    UnfinishedBody(w, entries);
    var s := LeadSpaces(t);
    LeadIsWithin(t, |p| - 1);
    assert t == ButLast(p) + w.trail by { UnfinishedIs(w, entries); }
    EntriesAfterSpaces(t, |p| - 2);
    UnfinishedEntries(w, entries, w.trail);
  }

  lemma UnfinishedIs(w: Layout, entries: seq<Entry>)
    ensures UnfinishedFile(w, entries) == ButLast(PrintEntries(w, entries)) + w.trail
  {
  }

  // A value, printed and without its last character.
  lemma LastReadIs(w: Layout, d: Data)
    requires IsLayout(w) && Writable(d)
    ensures match d
            case Dict(_) => LastRead(w, d) == None
            case Array(_) => LastRead(w, d) == None
            case Str(text) => LastRead(w, d) != Some(d)
            case Num(n) =>
              LastRead(w, d) == if n >= 0 then Some(Num(n / 10)) else if n > -10 then None else Some(Num(-(-n / 10)))
  {
    hide LastRead, GetData, PrintEntries, PrintItems, Decimal;
    match d {
      case Dict(entries) =>
        EntriesEnd(w, entries);
        BraceMissing(PrintEntries(w, entries), w.trail, false);
        LastReadOf(w, d);
      case Array(items) =>
        ItemsEnd(w, items);
        BraceMissing(PrintItems(w, items), w.trail, true);
        LastReadOf(w, d);
      case Str(text) =>
        ShorterString(ButLast(Quoted(text)));
        LastReadOf(w, d);
      case Num(n) =>
        DigitMissing(n);
        LastReadOf(w, d);
    }
  }

  lemma LastReadOf(w: Layout, d: Data)
    ensures LastRead(w, d) == GetData(ButLast(PrintData(w, d)))
  {
  }

  lemma BraceMissing(p: string, trail: string, square: bool)
    requires EndsEntry(p) && AllSpace(trail)
    ensures GetData(ButLast(Braced(p + trail, square))) == None
  {
    hide LeadSpaces, TrimEnd, Entries, Items, Braced;
    var t := Braced(p + trail, square);
    var v := ButLast(t);
    BracedParts(p, trail, square);
    NoLeadSpaces(v);
    TrimsTo(v, |v|, 1 + |p|);
  }

  lemma DigitMissing(n: int)
    requires IsLong(n)
    ensures GetData(ButLast(Decimal(n))) ==
            if n >= 0 then Some(Num(n / 10)) else if n > -10 then None else Some(Num(-(-n / 10)))
  {
    hide GetData, Dec;
    var m: nat := if n < 0 then -n else n;
    if m < 10 {
      OneDigit(m);
      NoDigits();
      assert ButLast(Decimal(n)) == if n < 0 then "-" else [];
    } else {
      var k := if n < 0 then -(m / 10) else m / 10;
      ShorterBy(m);
      assert ButLast(Decimal(n)) == Decimal(k);
      DataParses(TIGHT, Num(k));
    }
  }

  lemma OneDigit(m: nat)
    requires m < 10
    ensures |Dec(m)| == 1
  {
  }

  lemma ShorterBy(m: nat)
    requires m >= 10
    ensures ButLast(Dec(m)) == Dec(m / 10)
  {
  }

  lemma NoDigits()
    ensures GetData([]) == Some(Num(0)) && GetData("-") == None
  {
  }

  // So a file without its last `;' is read as it was meant only if its last value
  // is zero.
  lemma UnfinishedFileParses(w: Layout, entries: seq<Entry>)
    requires IsLayout(w) && EntriesPlain(entries) && entries != [] && !StartsWithBrace(entries)
    ensures ParseDict(UnfinishedFile(w, entries)) == Some(Dict(entries)) <==>
            entries[|entries| - 1].data == Num(0)
  {
    hide ParseDict, UnfinishedFile, LastRead, KeyPlain, Writable;
    UnfinishedFileReads(w, entries);
    var n := |entries| - 1;
    LastReadIs(w, entries[n].data);
    assert entries == entries[..n] + [entries[n]];
    match LastRead(w, entries[n].data) {
      case None =>
      case Some(d) =>
        assert (entries[..n] + [Entry(entries[n].key, d)])[n].data == d;
    }
  }

  // ---- The body ----

  lemma ValueEnds(w: Layout, d: Data)
    requires Writable(d)
    ensures PrintData(w, d) != [] && !IsSpace(PrintData(w, d)[|PrintData(w, d)| - 1])
  {
    if d.Num? {
      DecimalPlain(d.value);
    }
  }

  lemma {:induction false} EntriesEndInValue(w: Layout, entries: seq<Entry>)
    requires EntriesPlain(entries) && entries != []
    ensures var p := PrintEntries(w, entries);
            |p| > 2 && p[|p| - 1] == ';' && !IsSpace(p[|p| - 2])
  {
    hide PrintData, KeyPlain, Writable;
    FirstEntry(w, entries);
    if |entries| == 1 {
      ValueEnds(w, entries[0].data);
      assert entries[1..] == [];
    } else {
      EntriesEndInValue(w, entries[1..]);
    }
  }

  lemma UnfinishedBody(w: Layout, entries: seq<Entry>)
    requires IsLayout(w) && EntriesPlain(entries) && entries != [] && !StartsWithBrace(entries)
    ensures var p, t := PrintEntries(w, entries), UnfinishedFile(w, entries);
            && LeadSpaces(t) + 2 < |p|
            && Body(t, '{', '}') == Some((LeadSpaces(t), |p| - 2))
  {
    hide PrintEntries, LeadSpaces, TrimEnd, KeyPlain;
    var p, t, whole := PrintEntries(w, entries), UnfinishedFile(w, entries), PrintFile(w, entries);
    FirstCharacter(w, entries);
    EntriesEndInValue(w, entries);
    var s := LeadSpaces(whole);
    assert forall i :: 0 <= i <= s ==> t[i] == whole[i];
    LeadIs(t, s);
    assert forall i :: |p| - 1 <= i < |t| ==> t[i] == w.trail[i - |p| + 1];
    assert t[|p| - 2] == p[|p| - 2];
    TrimsTo(t, |t|, |p| - 1);
  }

  // ---- The entries ----

  // The value of an entry without its `;', up to the character before its last.
  lemma CutEntryUnfinished(w: Layout, e: Entry, tail: string)
    requires IsLayout(w) && KeyPlain(e.key) && Writable(e.data)
    ensures |PrintEntry(w, e)| > 2
    ensures var cut := CutEntry(ButLast(PrintEntry(w, e)) + tail, |PrintEntry(w, e)| - 2);
            cut.Some? && cut.value.key == e.key && cut.value.value == ButLast(PrintData(w, e.data)) && cut.value.e < 0
  {
    hide SpacesWithin, ValueText, PrintData, Writable, IndexOf, KeyBefore, After, KeyPlain, CutEntry;
    var v := PrintData(w, e.data);
    var last := |PrintEntry(w, e)| - 2;
    var x := v + tail;
    var p := if e.key == [] then w.lead + w.beforeEq else w.lead;
    var q := if e.key == [] then [] else e.key + w.beforeEq;
    hide PrintEntry;
    ValueStarts(w, e.data);
    ValueNeutral(w, e.data);
    UnfinishedParts(w, e, tail);
    CutKey(w, e.key, w.afterEq + x, last + 1);
    SpacesSkipped(w.afterEq, x, |w.afterEq| + |v| - 1);
    UnfinishedValue(v, tail);
    CutEntryParts(p, q, w.afterEq, x, e.key, ButLast(v), After(x, |ButLast(v)|), last);
  }

  lemma UnfinishedParts(w: Layout, e: Entry, tail: string)
    requires PrintData(w, e.data) != []
    ensures var p := if e.key == [] then w.lead + w.beforeEq else w.lead;
            var q := if e.key == [] then [] else e.key + w.beforeEq;
            var v := PrintData(w, e.data);
            && ButLast(PrintEntry(w, e)) + tail == p + (q + ("=" + (w.afterEq + (v + tail))))
            && |PrintEntry(w, e)| == |p| + |q| + 1 + |w.afterEq| + |v| + 1
  {
    hide PrintData;
    var v := PrintData(w, e.data);
    WithoutLast(w.lead, e.key, w.beforeEq, w.afterEq, v);
    Grouped(w.lead, e.key, w.beforeEq, w.afterEq, v, tail);
  }

  lemma WithoutLast(lead: string, key: string, before: string, after: string, v: string)
    ensures ButLast(lead + key + before + "=" + after + v + ";") == lead + key + before + "=" + after + v
  {
  }

  lemma Grouped(lead: string, key: string, before: string, after: string, v: string, tail: string)
    ensures var p := if key == [] then lead + before else lead;
            var q := if key == [] then [] else key + before;
            lead + key + before + "=" + after + v + tail == p + (q + ("=" + (after + (v + tail))))
  {
    if key == [] {
      assert lead + key == lead;
    }
  }

  lemma UnfinishedValue(v: string, tail: string)
    requires v != [] && Intact(v, IDLE)
    ensures ValueText(v + tail, |v| - 1) == ButLast(v)
  {
    hide Intact, LineLen;
    var short := ButLast(v);
    assert v == short + [v[|v| - 1]];
    WalkAppend(short, [v[|v| - 1]], IDLE);
    IntactMeans(short, IDLE);
    assert (v + tail)[..|v| - 1] == short;
  }

  lemma OneUnfinished(w: Layout, e: Entry, tail: string)
    requires IsLayout(w) && KeyPlain(e.key) && Writable(e.data)
    ensures |PrintEntry(w, e)| > 2
    ensures Entries(ButLast(PrintEntry(w, e)) + tail, |PrintEntry(w, e)| - 2) ==
            match LastRead(w, e.data)
            case None => None
            case Some(d) => Some([] + [Entry(e.key, d)])
  {
    hide CutEntry, GetData, PrintEntry, PrintData, KeyPlain, Writable;
    CutEntryUnfinished(w, e, tail);
    if GetData(ButLast(PrintData(w, e.data))).Some? {
      var x := Entry(e.key, GetData(ButLast(PrintData(w, e.data))).value);
      PrependLaws([x], [], Some([]));
      assert [] + [x] == [x];
    }
  }

  lemma {:induction false} UnfinishedEntries(w: Layout, entries: seq<Entry>, tail: string)
    requires IsLayout(w) && EntriesPlain(entries) && entries != []
    ensures |PrintEntries(w, entries)| > 2
    ensures var p, last := PrintEntries(w, entries), entries[|entries| - 1];
            Entries(ButLast(p) + tail, |p| - 2) ==
            match LastRead(w, last.data)
            case None => None
            case Some(d) => Some(entries[..|entries| - 1] + [Entry(last.key, d)])
    decreases |entries|
  {
    hide CutEntry, GetData, PrintEntry, PrintData, KeyPlain, Writable, LastRead;
    var e, more := entries[0], PrintEntries(w, entries[1..]);
    FirstEntry(w, entries);
    if |entries| == 1 {
      assert entries[1..] == [];
      assert PrintEntries(w, entries) == PrintEntry(w, e);
      OneUnfinished(w, e, tail);
      assert entries[..0] == [];
    } else {
      UnfinishedEntries(w, entries[1..], tail);
      var rest := ButLast(more) + tail;
      CutEntryPrinted(w, e, rest, |more| - 1);
      assert ButLast(PrintEntries(w, entries)) + tail == PrintEntry(w, e) + rest;
      DataParses(w, e.data);
      var last := entries[|entries| - 1];
      var middle := entries[1..][..|entries| - 2];
      assert entries[..|entries| - 1] == [e] + middle;
      match LastRead(w, last.data) {
        case None =>
        case Some(d) =>
          assert [e] + (middle + [Entry(last.key, d)]) == [e] + middle + [Entry(last.key, d)];
      }
    }
  }
}
