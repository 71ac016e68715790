// One configuration file, character by character, and what it is read as.
module ConfigSample {
  import opened Wrappers
  import opened ConfigInert
  import opened ConfigNum
  import opened ConfigScan
  import opened ConfigParse
  import opened ConfigPrint
  import opened ConfigSafety

  const LINES := [
    "\n port = 80;",
    "\n db = {",
    "\n name = \"a;b\";",
    "\n};",
    "\n ids = [",
    "\n 7;",
    "\n -8;",
    "\n];",
    "\n"]

  const FILE := LINES[0] + LINES[1] + LINES[2] + LINES[3] + LINES[4] + LINES[5] + LINES[6] + LINES[7] + LINES[8]

  const LAYOUT := Layout("\n ", " ", " ", "\n")

  const PORT := Entry("port", Num(80))
  const DB := Entry("db", Dict([Entry("name", Str("a;b"))]))
  const IDS := Entry("ids", Array([Num(7), Num(-8)]))

  lemma Numbers()
    ensures Decimal(80) == "80" && Decimal(7) == "7" && Decimal(-8) == "-8"
  {
    assert Dec(8) == "8";
  }

  lemma PortPrinted()
    ensures PrintEntry(LAYOUT, PORT) == LINES[0]
  {
    Numbers();
    hide Decimal;
    assert PrintData(LAYOUT, PORT.data) == "80";
  }

  const NAME := Entry("name", Str("a;b"))

  lemma NamePrinted()
    ensures PrintEntry(LAYOUT, NAME) == LINES[2]
  {
    assert PrintData(LAYOUT, NAME.data) == "\"a;b\"";
  }

  lemma DbPrinted()
    ensures PrintEntry(LAYOUT, DB) == LINES[1] + LINES[2] + LINES[3]
  {
    hide PrintData, PrintEntries, PrintEntry;
    NamePrinted();
    var name := PrintEntry(LAYOUT, NAME);
    OneEntry(LAYOUT, NAME);
    InDict(LAYOUT, [NAME]);
    EntryIs(LAYOUT, DB, "{" + name + "\n" + "}");
    Around("\n db =", " ", "{", name, "\n", "}", ";");
  }

  lemma Around(a: string, b: string, c: string, body: string, d: string, e: string, f: string)
    ensures a + b + (c + body + d + e) + f == (a + b + c) + body + (d + e + f)
  {
  }

  // Braces around the entries, and what goes around a value.
  lemma InDict(w: Layout, entries: seq<Entry>)
    ensures PrintData(w, Dict(entries)) == "{" + PrintEntries(w, entries) + w.trail + "}"
  {
  }

  lemma InArray(w: Layout, items: seq<Data>)
    ensures PrintData(w, Array(items)) == "[" + PrintItems(w, items) + w.trail + "]"
  {
  }

  lemma EntryIs(w: Layout, e: Entry, v: string)
    requires PrintData(w, e.data) == v
    ensures PrintEntry(w, e) == w.lead + e.key + w.beforeEq + "=" + w.afterEq + v + ";"
  {
    hide PrintData;
  }

  lemma OneEntry(w: Layout, e: Entry)
    ensures PrintEntries(w, [e]) == PrintEntry(w, e)
  {
    hide PrintEntry;
    assert [e][1..] == [];
  }

  lemma ItemsPrinted()
    ensures PrintItems(LAYOUT, [Num(7), Num(-8)]) == LINES[5] + LINES[6]
  {
    Numbers();
    hide Decimal;
    var items := [Num(7), Num(-8)];
    assert items[1..] == [Num(-8)] && [Num(-8)][1..] == [];
    assert PrintItem(LAYOUT, Num(7)) == LINES[5];
    assert PrintItem(LAYOUT, Num(-8)) == LINES[6];
    hide PrintItem;
    assert PrintItems(LAYOUT, [Num(-8)]) == LINES[6];
  }

  lemma IdsPrinted()
    ensures PrintEntry(LAYOUT, IDS) == LINES[4] + (LINES[5] + LINES[6]) + LINES[7]
  {
    hide PrintData, PrintItems, PrintEntry;
    ItemsPrinted();
    var items := PrintItems(LAYOUT, [Num(7), Num(-8)]);
    InArray(LAYOUT, [Num(7), Num(-8)]);
    EntryIs(LAYOUT, IDS, "[" + items + "\n" + "]");
    Around("\n ids =", " ", "[", items, "\n", "]", ";");
  }

  lemma FilePrinted()
    ensures PrintFile(LAYOUT, [PORT, DB, IDS]) == FILE
  {
    hide PrintEntry;
    PortPrinted();
    DbPrinted();
    IdsPrinted();
    var es := [PORT, DB, IDS];
    assert es[1..] == [DB, IDS] && [DB, IDS][1..] == [IDS];
    OneEntry(LAYOUT, IDS);
    assert PrintEntries(LAYOUT, es) == PrintEntry(LAYOUT, PORT) + (PrintEntry(LAYOUT, DB) + PrintEntry(LAYOUT, IDS));
    Grouped(LINES[0], LINES[1], LINES[2], LINES[3], LINES[4], LINES[5], LINES[6], LINES[7], LINES[8]);
  }

  lemma Grouped(a: string, b: string, c: string, d: string, e: string, f: string, g: string, h: string, i: string)
    ensures a + (b + c + d + (e + (f + g) + h)) + i == a + b + c + d + e + f + g + h + i
  {
    assert b + c + d + (e + (f + g) + h) == b + c + d + e + f + g + h;
  }

  lemma Readable()
    ensures IsLayout(LAYOUT) && EntriesPlain([PORT, DB, IDS])
  {
    hide KeyPlain, Writable;
    Keys();
    DbWritable();
    NumbersWritable();
  }

  lemma Keys()
    ensures KeyPlain("name") && KeyPlain("port") && KeyPlain("db") && KeyPlain("ids")
  {
  }

  lemma NameWritable()
    ensures KeyOk("name") && Writable(NAME.data)
  {
    hide Inert, Quoted, KeyQuiet, KeyPlain, Quotable;
    Keys();
    QuotedInert("a;b");
    SemicolonInQuotes();
    PlainInert("name", ConfigInert.InDict);
    KeyInert("name");
  }

  lemma DbWritable()
    ensures Writable(DB.data)
  {
    hide KeyOk;
    NameWritable();
    assert DB.data.entries == [NAME];
  }

  lemma NumbersWritable()
    ensures Writable(PORT.data) && Writable(IDS.data)
  {
  }

  lemma SemicolonInQuotes()
    ensures Quotable("a;b")
  {
    var t := "a;b";
    assert t[1..] == ";b" && t[1..][1..] == "b" && t[1..][1..][1..] == "";
    assert t[..1] == "a" && "a"[1..] == "";
    forall i: nat | i < |t|
      ensures !Exposed(t, i, QUOTED)
    {
      assert t[i] == ';' ==> t[..i] == "a";
    }
  }

  lemma FileReads()
    ensures ParseDict(FILE) ==
            Some(Dict([Entry("port", Num(80)),
                       Entry("db", Dict([Entry("name", Str("a;b"))])),
                       Entry("ids", Array([Num(7), Num(-8)]))]))
  {
    hide ParseDict, PrintFile, EntriesPlain;
    FilePrinted();
    Readable();
    FileParses(LAYOUT, [PORT, DB, IDS]);
  }
}
