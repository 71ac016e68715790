// Whole configuration files, and exactly which strings a file may hold.
module ConfigSafety {
  import opened Wrappers
  import opened ConfigScan
  import opened ConfigInert
  import opened ConfigNum
  import opened ConfigParse
  import opened ConfigPrint
  import opened ConfigRoundTrip

  // ---- A file is a dictionary without its braces ----

  function PrintFile(w: Layout, entries: seq<Entry>): string {
    PrintEntries(w, entries) + w.trail
  }

  // Entries may be preceded by white space that has already been skipped.
  lemma EntriesAfterSpaces(u: string, e: int)
    requires e < |u| && SpacesWithin(u, e + 1) < e
    ensures Entries(u[SpacesWithin(u, e + 1)..], e - SpacesWithin(u, e + 1)) == Entries(u, e)
  {
    var s := SpacesWithin(u, e + 1);
    CutAfterSpaces(u, e);
    hide CutEntry, SpacesWithin, GetData, Entries;
    EntriesFirst(u, e);
    EntriesFirst(u[s..], e - s);
  }

  lemma CutAfterSpaces(u: string, e: int)
    requires 0 < e < |u| && SpacesWithin(u, e + 1) < e
    ensures CutEntry(u[SpacesWithin(u, e + 1)..], e - SpacesWithin(u, e + 1)) == CutEntry(u, e)
  {
    hide IndexOf, KeyBefore, ValueText, After, SpacesWithin;
    var s := SpacesWithin(u, e + 1);
    SpacesAllTaken(u, e + 1);
    assert u[s..][0..] == u[s..];
  }

  lemma EntriesFirst(u: string, e: int)
    requires 0 < e < |u|
    ensures Entries(u, e) ==
            match CutEntry(u, e)
            case None => None
            case Some(cut) =>
              if GetData(cut.value) == None then None
              else Prepend([Entry(cut.key, GetData(cut.value).value)], Entries(cut.rest, cut.e))
  {
    hide CutEntry, GetData;
  }

  lemma {:induction false} SpacesAllTaken(t: string, n: int)
    ensures SpacesWithin(t[SpacesWithin(t, n)..], n - SpacesWithin(t, n)) == 0
  {
    if t != [] && n > 0 && IsSpace(t[0]) {
      SpacesAllTaken(t[1..], n - 1);
      assert t[1..][SpacesWithin(t[1..], n - 1)..] == t[SpacesWithin(t, n)..];
    }
  }

  lemma {:induction false} LeadIsWithin(t: string, n: nat)
    requires LeadSpaces(t) <= n
    ensures SpacesWithin(t, n) == LeadSpaces(t)
  {
    if t != [] && IsSpace(t[0]) {
      LeadIsWithin(t[1..], n - 1);
    }
  }

  predicate StartsWithBrace(entries: seq<Entry>) {
    entries != [] && entries[0].key != [] && entries[0].key[0] == '{'
  }

  // Parsing a printed file gives back its entries exactly when the first key
  // does not start with a brace: such a file would be taken for a braced one.
  lemma FileParses(w: Layout, entries: seq<Entry>)
    requires IsLayout(w) && EntriesPlain(entries)
    ensures ParseDict(PrintFile(w, entries)) == Some(Dict(entries)) <==> !StartsWithBrace(entries)
  {
    hide Entries, PrintEntries, Body, KeyPlain;
    var p, t := PrintEntries(w, entries), PrintFile(w, entries);
    if entries == [] {
      EmptyFile(w);
    } else {
      FileBody(w, entries);
      if !StartsWithBrace(entries) {
        var s := LeadSpaces(t);
        EntriesParse(w, entries, w.trail);
        LeadIsWithin(t, |p|);
        EntriesAfterSpaces(t, |p| - 1);
      }
    }
  }

  lemma EmptyFile(w: Layout)
    requires IsLayout(w)
    ensures ParseDict(PrintFile(w, [])) == Some(Dict([]))
  {
    var t := PrintFile(w, []);
    assert t == w.trail;
    assert LeadSpaces(t) == |t| && TrimEnd(t, |t|) == 0;
    NoEntries(t[|t|..], -1 - |t|);
  }

  lemma FileBody(w: Layout, entries: seq<Entry>)
    requires IsLayout(w) && EntriesPlain(entries) && entries != []
    ensures var p, t := PrintEntries(w, entries), PrintFile(w, entries);
            && LeadSpaces(t) < |p| - 1
            && Body(t, '{', '}') == if StartsWithBrace(entries) then None else Some((LeadSpaces(t), |p| - 1))
  {
    hide KeyPlain;
    var p, t := PrintEntries(w, entries), PrintFile(w, entries);
    EntriesEnd(w, entries);
    FirstCharacter(w, entries);
    hide PrintEntries;
    TrimFile(p, w.trail);
  }

  lemma TrimFile(p: string, trail: string)
    requires p != [] && !IsSpace(p[|p| - 1]) && AllSpace(trail)
    ensures TrimEnd(p + trail, |p + trail|) == |p|
  {
    var t := p + trail;
    assert forall i :: |p| <= i < |t| ==> t[i] == trail[i - |p|];
    assert t[|p| - 1] == p[|p| - 1];
  }

  lemma NoEntries(u: string, e: int)
    requires e <= 0
    ensures Entries(u, e) == Some([])
  {
  }

  lemma FirstCharacter(w: Layout, entries: seq<Entry>)
    requires IsLayout(w) && EntriesPlain(entries) && entries != []
    ensures var p, t := PrintEntries(w, entries), PrintFile(w, entries);
            && LeadSpaces(t) + 2 < |p|
            && (forall i :: 0 <= i < LeadSpaces(t) ==> IsSpace(t[i])) && !IsSpace(t[LeadSpaces(t)])
            && (t[LeadSpaces(t)] == '{' <==> StartsWithBrace(entries))
  {
    hide PrintData, PrintEntries;
    var e := entries[0];
    var first := PrintEntry(w, e);
    assert PrintEntries(w, entries) == first + PrintEntries(w, entries[1..]) by { FirstEntry(w, entries); }
    var p := w.lead + if e.key == [] then w.beforeEq else [];
    var c := if e.key == [] then '=' else e.key[0];
    var t := PrintFile(w, entries);
    assert |first| > |p| + 2 && t[..|p|] == p && t[|p|] == c && !IsSpace(c) && AllSpace(p) by {
      ValueStarts(w, e.data);
    }
    assert forall i :: 0 <= i < |p| ==> t[i] == p[i];
    LeadIs(t, |p|);
  }

  lemma FirstEntry(w: Layout, entries: seq<Entry>)
    requires entries != []
    ensures PrintEntries(w, entries) == PrintEntry(w, entries[0]) + PrintEntries(w, entries[1..])
  {
  }

  lemma LeadIs(t: string, n: nat)
    requires n < |t| && (forall i :: 0 <= i < n ==> IsSpace(t[i])) && !IsSpace(t[n])
    ensures LeadSpaces(t) == n
  {
  }

  // ---- Strings that cannot be written down ----

  const TIGHT := Layout([], [], [], [])

  // A second item, or an enclosing array or dictionary, is enough to expose
  // such a string.
  function Probe(text: string, n: int): Data {
    if n == 0 then Array([Str(text), Num(0)])
    else if n == 1 then Array([Array([Str(text)])])
    else Dict([Entry([], Dict([Entry([], Str(text))]))])
  }

  // Every string is either safe in whatever configuration it is part of, with
  // whatever white space, or lost in one of three small ones; which of the two
  // can be told from the string: it is safe if it is quotable and not empty.
  lemma StringSafe(text: string)
    ensures text != [] && Quotable(text) <==> Writable(Str(text))
    ensures text != [] && Quotable(text) <==>
            forall n :: 0 <= n <= 2 ==> GetData(PrintData(TIGHT, Probe(text, n))) == Some(Probe(text, n))
  {
    hide Quotable;
    QuotedInert(text);
    if text != [] && Quotable(text) {
      forall n | 0 <= n <= 2
        ensures GetData(PrintData(TIGHT, Probe(text, n))) == Some(Probe(text, n))
      {
        ProbeWritable(text, n);
        DataParses(TIGHT, Probe(text, n));
      }
    } else {
      var n := UnsafeProbe(text);
    }
  }

  // Neither the empty string nor a lone quote is safe, though their braces
  // balance: the one is taken for a string without an end, and the other makes
  // the scanner miss what follows.
  lemma EmptyUnsafe()
    ensures BracesBalanced([]) && !Writable(Str([])) && GetData(PrintData(TIGHT, Str([]))) == None
  {
    EmptyIsNone();
    hide GetData, Quoted;
  }

  lemma QuoteUnsafe()
    ensures BracesBalanced("\"") && !Writable(Str("\""))
    ensures GetData(PrintData(TIGHT, Probe("\"", 0))) == Some(Array([Str("\"")]))
  {
    LoneQuote();
    hide GetData, PrintData, Quotes, Sealed, Balanced, Writable, Probe;
    StringSafe("\"");
    RunsOn("\"");
  }

  lemma LoneQuote()
    ensures BracesBalanced("\"") && Quotes("\"") == 1 && Sealed("\"", QUOTED)
  {
    assert "\""[1..] == [];
  }

  lemma ProbeWritable(text: string, n: int)
    requires Writable(Str(text))
    ensures Writable(Probe(text, n))
  {
    KeyInert([]);
    PlainInert([], InDict);
    var inner := if n == 1 then Array([Str(text)]) else Dict([Entry([], Str(text))]);
    assert Writable(inner);
  }

  lemma UnsafeProbe(text: string) returns (n: int)
    requires text == [] || !Quotable(text)
    ensures 0 <= n <= 2 && GetData(PrintData(TIGHT, Probe(text, n))) != Some(Probe(text, n))
  {
    hide GetData, PrintData, Walk, Intact, Floor, Balanced, Quotes, Sealed;
    IntactInside(text, QUOTED, 0, 0);
    if text == [] {
      n := 0;
      EmptyIsLost();
    } else if !Sealed(text, QUOTED) {
      n := 0;
      CutsInside(text);
    } else if Quotes(text) % 2 == 1 || Floor(text, 0, '{', '}') != 0 || Floor(text, 0, '[', ']') != 0 {
      n := 0;
      RunsOn(text);
    } else if !Balanced(text, 0, 0, '[', ']') {
      n := 1;
      UnbalancedDrifts(text, 0, 0, '[', ']');
      CutsShortArray(text);
    } else {
      n := 2;
      UnbalancedDrifts(text, 0, 0, '{', '}');
      CutsShortDict(text);
    }
  }

  // The first item of the first probe.
  lemma FirstOfProbe(text: string) returns (u: string, e: nat)
    ensures 0 < e < |u| && u[..e] == Quoted(text) + ";0" && !IsSpace(u[0])
    ensures GetData(PrintData(TIGHT, Probe(text, 0))) ==
            match Items(u, e) { case None => None case Some(items) => Some(Array(items)) }
    ensures var n := LineLen(u[..e], IDLE);
            CutItem(u, e).value == u[..n]
  {
    hide GetData, Items, Body, Probe, PrintData, Quoted, CutItem;
    var q := Quoted(text);
    var p := q + ";0;";
    PrintedProbe(text);
    BodyPrinted(p, [], true);
    QuoteFirst(text);
    u, e := p + "]", |q + ";0"|;
    ArrayParse(PrintData(TIGHT, Probe(text, 0)), u, e);
    FirstItem(u, e, LineLen(u[..e], IDLE));
  }

  // A string of no characters is taken for one without an end.
  lemma EmptyIsNone()
    ensures GetData(Quoted([])) == None
  {
    var t := Quoted([]);
    assert t[0] == '"' && |t| == 2;
    assert IndexOf(t, '"') == Some(0);
    assert LastQuote(t, 1, 2) == 1;
  }

  lemma EmptyIsLost()
    ensures GetData(PrintData(TIGHT, Probe([], 0))) == None
  {
    hide GetData, Intact, Walk, CutItem, Quoted, LineLen, PrintData, Probe;
    var u, e := FirstOfProbe([]);
    var q := Quoted([]);
    EmptyPasses();
    LineLenAppend(q, ";0", IDLE);
    StopsAtOnce(";0");
    assert u[..|q|] == u[..e][..|q|] == q;
    EmptyIsNone();
  }

  lemma EmptyPasses()
    ensures Intact(Quoted([]), IDLE) && Walk(Quoted([]), IDLE) == IDLE
  {
    QuotedWalk([], 0, 0);
  }

  lemma StopsAtOnce(t: string)
    requires t != [] && t[0] == ';'
    ensures LineLen(t, IDLE) == 0
  {
  }

  // An exposed terminator ends the string early.
  lemma CutsInside(text: string)
    requires !Sealed(text, QUOTED)
    ensures GetData(PrintData(TIGHT, Probe(text, 0))) != Some(Probe(text, 0))
  {
    hide GetData, Intact, Walk, CutItem, Sealed, PrintData, Floor, Quotes, LineLen;
    var u, e := FirstOfProbe(text);
    var q := Quoted(text);
    IntactInside(text, QUOTED, 0, 0);
    QuotedWalk(text, 0, 0);
    LineLenCut(q, ";0", IDLE);
    var n := LineLen(u[..e], IDLE);
    assert u[..n] == u[..e][..n] == q[..n];
    ShorterString(q[..n]);
    match Items(u, e) {
      case None =>
      case Some(items) =>
        assert GetData(q[..n]).Some? && items[0] == GetData(q[..n]).value != Str(text);
    }
  }

  // What is parsed from a text is shorter than the text by its quotes.
  lemma ShorterString(v: string)
    ensures match GetData(v) { case Some(Str(s)) => |s| + 2 <= |v| case _ => true }
  {
    hide Body, Entries, Items, Strtol;
  }

  // The scanner leaves the string at another depth, or in a quote, and misses
  // its `;'.
  lemma RunsOn(text: string)
    requires text != [] && Sealed(text, QUOTED)
    requires Quotes(text) % 2 == 1 || Floor(text, 0, '{', '}') != 0 || Floor(text, 0, '[', ']') != 0
    ensures GetData(PrintData(TIGHT, Probe(text, 0))) == Some(Array([Str(text)]))
  {
    hide GetData, Floor, Walk, Intact, CutItem, Quotes, Sealed;
    var q := Quoted(text);
    var u, e := FirstOfProbe(text);
    hide PrintData, Probe, Quoted;
    QuotedWalk(text, 0, 0);
    IntactInside(text, QUOTED, 0, 0);
    LineLenAppend(q, ";0", IDLE);
    TwoPlain(Walk(q, IDLE));
    StringParses(text, ";0");
    OneItem(u, e, Str(text));
  }

  lemma QuoteFirst(text: string)
    ensures |Quoted(text)| > 0 && Quoted(text)[0] == '"'
  {
  }

  // The first item takes up the whole body.
  lemma OneItem(u: string, e: nat, d: Data)
    requires 0 < e < |u| && !IsSpace(u[0]) && e == LineLen(u[..e], IDLE)
    requires GetData(u[..e]) == Some(d)
    ensures Items(u, e) == Some([d])
  {
    hide GetData;
    assert u[0..] == u;
    assert CutItem(u, e).value == u[..e] && CutItem(u, e).e < 0;
    NoItems(CutItem(u, e).rest, CutItem(u, e).e);
    assert [d] + [] == [d];
  }

  lemma NoItems(u: string, e: int)
    requires e <= 0
    ensures Items(u, e) == Some([])
  {
  }

  lemma ArrayParse(t: string, u: string, e: int)
    requires t != [] && t[0] == '[' && Body(t, '[', ']') == Some((1, e + 1)) && t[1..] == u
    requires e < |u|
    ensures GetData(t) == match Items(u, e) { case None => None case Some(items) => Some(Array(items)) }
  {
    hide Body, Items;
  }

  lemma TwoPlain(s: Scan)
    requires s != IDLE
    ensures LineLen(";0", s) == 2
  {
    assert ";0"[1..] == "0" && "0"[1..] == [];
  }

  lemma PrintedProbe(text: string)
    ensures PrintData(TIGHT, Probe(text, 0)) == Braced(Quoted(text) + ";0;" + [], true)
  {
    hide Decimal, Quoted;
    var items := [Str(text), Num(0)];
    assert Decimal(0) == "0" by { ZeroPrints(); }
    assert items[1..] == [Num(0)] && [Num(0)][1..] == [];
    assert PrintItem(TIGHT, Str(text)) == Quoted(text) + ";";
    assert PrintItem(TIGHT, Num(0)) == "0;";
    assert PrintItems(TIGHT, []) == [];
    assert PrintItems(TIGHT, [Num(0)]) == "0;" + [] == "0;";
    assert PrintItems(TIGHT, items) == Quoted(text) + ";" + "0;";
    assert Quoted(text) + ";" + "0;" == Quoted(text) + ";0;";
  }

  lemma ZeroPrints()
    ensures Decimal(0) == "0"
  {
  }

  // Inside a brace the string closes it for the scanner, which stops at the
  // `;' after the string and hands on an unfinished value.
  lemma CutsShortArray(text: string)
    requires Quotes(text) % 2 == 0 && Sealed(text, QUOTED)
    requires Floor(text, 0, '{', '}') == 0 && Floor(text, 1, '[', ']') == 0
    ensures GetData(PrintData(TIGHT, Probe(text, 1))) == None
  {
    hide GetData, Floor, Body, ValueText, CutItem, Probe, PrintData, Quoted, Walk, Intact, Quotes, Sealed;
    var q := Quoted(text);
    var inner := "[" + q + ";]";
    var t, p := "[" + (inner + ";") + "]", inner + ";";
    PrintedArrays(text);
    assert p + [] == p;
    BodyPrinted(p, [], true);
    Opened(true);
    Unfinished(text, "[", ";]", 0, 1);
    var u, e := p + "]", |inner|;
    assert u[..e] == inner && u[..|"[" + q|] == "[" + q;
    FirstItem(u, e, |"[" + q|);
    NotClosed(text, "[");
    ArrayParse(t, u, e);
  }

  lemma CutsShortDict(text: string)
    requires Quotes(text) % 2 == 0 && Sealed(text, QUOTED)
    requires Floor(text, 1, '{', '}') == 0 && Floor(text, 0, '[', ']') == 0
    ensures GetData(PrintData(TIGHT, Probe(text, 2))) == None
  {
    hide GetData, Floor, Body, ValueText, CutEntry, SpacesWithin, Probe, PrintData, Quoted, Walk, Intact, Quotes, Sealed;
    var q := Quoted(text);
    var inner := "{=" + q + ";}";
    var t, p := "{" + ("=" + inner + ";") + "}", "=" + inner + ";";
    PrintedDicts(text);
    assert p + [] == p;
    BodyPrinted(p, [], false);
    Opened(false);
    Unfinished(text, "{=", ";}", 1, 0);
    var u, e, x := p + "}", |inner| + 1, inner + ";}";
    Regroup("=", inner);
    Prefix("{=" + q, ";}", ";}");
    FirstUnnamedEntry(x, e - 1, |"{=" + q|);
    NotClosed(text, "{=");
    DictParse(t, u, e);
  }

  lemma Regroup(a: string, b: string)
    ensures a + b + ";" + "}" == a + (b + ";}")
  {
    assert ";}" == ";" + "}";
  }

  lemma Prefix(a: string, b: string, c: string)
    ensures (a + b + c)[..|a + b|] == a + b && (a + b + c)[..|a|] == a
  {
  }

  lemma Opened(square: bool)
    ensures if square then Walk("[", IDLE) == Scan(false, 0, 1) && Intact("[", IDLE)
            else Walk("{=", IDLE) == Scan(false, 1, 0) && Intact("{=", IDLE)
  {
    assert "["[1..] == [] && "{="[1..] == "=" && "="[1..] == [];
  }

  lemma FirstItem(u: string, e: nat, n: nat)
    requires 0 < e < |u| && !IsSpace(u[0]) && n == LineLen(u[..e], IDLE)
    ensures CutItem(u, e).value == u[..n]
  {
    assert u[0..] == u;
  }

  lemma FirstUnnamedEntry(x: string, e: nat, n: nat)
    requires 0 < e < |x| && !IsSpace(x[0]) && n == LineLen(x[..e], IDLE)
    ensures CutEntry("=" + x, e + 1).Some? && CutEntry("=" + x, e + 1).value.value == x[..n]
  {
    var u := "=" + x;
    assert u[0..] == u && u[1..] == x && x[0..] == x;
  }

  lemma DictParse(t: string, u: string, e: int)
    requires t != [] && t[0] == '{' && Body(t, '{', '}') == Some((1, e + 1)) && t[1..] == u
    requires e < |u|
    ensures GetData(t) == match Entries(u, e) { case None => None case Some(entries) => Some(Dict(entries)) }
  {
    hide Body, Entries;
  }

  lemma Unfinished(text: string, head: string, rest: string, f: nat, q: nat)
    requires Quotes(text) % 2 == 0 && Sealed(text, QUOTED)
    requires rest != [] && rest[0] == ';'
    requires Walk(head, IDLE) == Scan(false, f, q) && Intact(head, IDLE)
    requires Floor(text, f, '{', '}') == 0 && Floor(text, q, '[', ']') == 0
    ensures LineLen(head + Quoted(text) + rest, IDLE) == |head + Quoted(text)|
  {
    hide Floor, Quoted, Walk, Intact, Quotes, Sealed;
    QuotedWalk(text, f, q);
    IntactInside(text, QUOTED, f, q);
    WalkAppend(head, Quoted(text), IDLE);
    LineLenAppend(head + Quoted(text), rest, IDLE);
  }

  lemma NotClosed(text: string, head: string)
    requires head == "[" || head == "{="
    ensures GetData(head + Quoted(text)) == None
  {
    var v := head + Quoted(text);
    assert LeadSpaces(v) == 0;
    assert v[|v| - 1] == '"';
    assert TrimEnd(v, |v|) == |v|;
  }

  lemma PrintedArrays(text: string)
    ensures PrintData(TIGHT, Probe(text, 1)) == "[" + ("[" + Quoted(text) + ";]" + ";") + "]"
  {
    hide Quoted;
    var inner := [Str(text)];
    assert inner[1..] == [] && [Array(inner)][1..] == [];
    assert PrintItem(TIGHT, inner[0]) == Quoted(text) + ";";
    assert PrintItems(TIGHT, []) == [];
    assert PrintItems(TIGHT, inner) + [] == Quoted(text) + ";";
    assert PrintData(TIGHT, Array(inner)) == "[" + Quoted(text) + ";]";
    assert PrintItem(TIGHT, Array(inner)) == "[" + Quoted(text) + ";]" + ";";
    assert PrintItems(TIGHT, [Array(inner)]) + [] == "[" + Quoted(text) + ";]" + ";";
  }

  lemma PrintedDicts(text: string)
    ensures PrintData(TIGHT, Probe(text, 2)) == "{" + ("=" + ("{=" + Quoted(text) + ";}") + ";") + "}"
  {
    hide Quoted;
    var e := Entry([], Str(text));
    var outer := Entry([], Dict([e]));
    assert [e][1..] == [] && [outer][1..] == [];
    assert PrintEntry(TIGHT, e) == "=" + Quoted(text) + ";";
    assert PrintEntries(TIGHT, []) == [];
    assert PrintEntries(TIGHT, [e]) + [] == "=" + Quoted(text) + ";";
    assert PrintData(TIGHT, Dict([e])) == "{=" + Quoted(text) + ";}";
    assert PrintEntry(TIGHT, outer) == "=" + ("{=" + Quoted(text) + ";}") + ";";
    assert PrintEntries(TIGHT, [outer]) + [] == "=" + ("{=" + Quoted(text) + ";}") + ";";
  }
}
