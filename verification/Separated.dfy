// Lists of texts held in one text with a separator byte between them: CDB
// records, field-name lists, update requests and responses all have this form.
module Separated {
  import opened Bytes

  function Join(items: seq<Text>, sep: Byte): Text {
    if items == [] then []
    else if |items| == 1 then items[0]
    else items[0] + [sep] + Join(items[1..], sep)
  }

  // The length of the leading run without a separator.
  function FieldLen(t: Text, sep: Byte): (n: nat)
    ensures n <= |t| && sep !in t[..n]
    ensures n < |t| ==> t[n] == sep
  {
    if t == [] || t[0] == sep then 0
    else
      var n := 1 + FieldLen(t[1..], sep);
      assert t[..n] == [t[0]] + t[1..][..n - 1];
      n
  }

  function Split(t: Text, sep: Byte): (fields: seq<Text>)
    ensures |fields| > 0
    decreases |t|
  {
    var n := FieldLen(t, sep);
    if n == |t| then [t] else [t[..n]] + Split(t[n + 1..], sep)
  }

  function Count(t: Text, sep: Byte): nat {
    if t == [] then 0 else (if t[0] == sep then 1 else 0) + Count(t[1..], sep)
  }

  ghost predicate SepFree(items: seq<Text>, sep: Byte) {
    forall i :: 0 <= i < |items| ==> sep !in items[i]
  }

  ghost predicate AllNonEmpty(items: seq<Text>) {
    forall i :: 0 <= i < |items| ==> items[i] != []
  }

  // ---- Splitting and joining undo each other ----

  lemma FieldLenIs(t: Text, n: nat, sep: Byte)
    requires n <= |t| && sep !in t[..n] && (n < |t| ==> t[n] == sep)
    ensures FieldLen(t, sep) == n
  {
  }

  lemma {:induction false} JoinSplit(t: Text, sep: Byte)
    ensures Join(Split(t, sep), sep) == t
    ensures SepFree(Split(t, sep), sep)
    decreases |t|
  {
    hide Split, Join, FieldLen;
    SplitCons(t, sep);
    var n := FieldLen(t, sep);
    if n == |t| {
      JoinCons(t, [], sep);
      assert [t] + [] == [t] && t[..n] == t;
    } else {
      var rest := Split(t[n + 1..], sep);
      JoinSplit(t[n + 1..], sep);
      JoinCons(t[..n], rest, sep);
      assert t == t[..n] + [sep] + t[n + 1..];
      FieldsMore(t[..n], rest, sep);
    }
  }

  lemma FieldsMore(first: Text, rest: seq<Text>, sep: Byte)
    requires sep !in first && SepFree(rest, sep)
    ensures SepFree([first] + rest, sep)
  {
  }

  lemma SplitMore(first: Text, rest: Text, sep: Byte)
    requires sep !in first
    ensures Split(first + [sep] + rest, sep) == [first] + Split(rest, sep)
  {
    var t := first + [sep] + rest;
    assert t[..|first|] == first;
    FieldLenIs(t, |first|, sep);
    assert t[|first| + 1..] == rest;
  }

  lemma {:induction false} SplitJoin(items: seq<Text>, sep: Byte)
    requires items != [] && SepFree(items, sep)
    ensures Split(Join(items, sep), sep) == items
  {
    var t := Join(items, sep);
    if |items| == 1 {
      assert items[0][..|items[0]|] == items[0];
      FieldLenIs(items[0], |items[0]|, sep);
    } else {
      var rest := items[1..];
      SplitJoin(rest, sep);
      SplitMore(items[0], Join(rest, sep), sep);
      assert items == [items[0]] + rest;
    }
  }

  lemma {:induction false} CountPrefix(t: Text, n: nat, sep: Byte)
    requires n <= |t| && sep !in t[..n]
    ensures Count(t, sep) == Count(t[n..], sep)
  {
    if n > 0 {
      assert t[..n][0] == t[0];
      assert t[1..][..n - 1] == t[..n][1..];
      CountPrefix(t[1..], n - 1, sep);
      assert t[1..][n - 1..] == t[n..];
    } else {
      assert t[0..] == t;
    }
  }

  lemma {:induction false} SplitCount(t: Text, sep: Byte)
    ensures |Split(t, sep)| == Count(t, sep) + 1
    decreases |t|
  {
    var n := FieldLen(t, sep);
    CountPrefix(t, n, sep);
    if n < |t| {
      SplitCount(t[n + 1..], sep);
      assert t[n..][1..] == t[n + 1..];
    }
  }

  // One step of a scan for the end of the current field.
  lemma ScanStep(t: Text, s: nat, e: nat, sep: Byte)
    requires s <= e <= |t| && sep !in t[s..e]
    requires e == |t| || t[e] == sep
    ensures FieldLen(t[s..], sep) == e - s
    ensures Split(t[s..], sep) ==
            if e == |t| then [t[s..e]] else [t[s..e]] + Split(t[e + 1..], sep)
  {
    assert t[s..][..e - s] == t[s..e];
    FieldLenIs(t[s..], e - s, sep);
    if e < |t| {
      assert t[s..][e - s + 1..] == t[e + 1..];
    } else {
      assert t[s..] == t[s..e];
    }
  }

  // The same for a scan that has some fields already.
  lemma TakeField(done: seq<Text>, t: Text, s: nat, e: nat, sep: Byte)
    requires s <= e <= |t| && sep !in t[s..e]
    requires e == |t| || t[e] == sep
    ensures done + Split(t[s..], sep) ==
            if e == |t| then done + [t[s..e]] else (done + [t[s..e]]) + Split(t[e + 1..], sep)
  {
    hide Split, FieldLen;
    ScanStep(t, s, e, sep);
    if e < |t| {
      assert done + ([t[s..e]] + Split(t[e + 1..], sep)) == (done + [t[s..e]]) + Split(t[e + 1..], sep);
    }
  }

  // ---- Splitting as the server does it for update requests ----

  // A separator ends an item only when the item has at least one byte; the
  // position does not advance past an empty item, which thus swallows its
  // separator.
  function Items(t: Text, sep: Byte): (items: seq<Text>)
    decreases |t|
  {
    if t == [] then []
    else
      var n := 1 + FieldLen(t[1..], sep);
      if n == |t| then [t] else [t[..n]] + Items(t[n + 1..], sep)
  }

  lemma {:induction false} ItemsNonEmpty(t: Text, sep: Byte)
    ensures AllNonEmpty(Items(t, sep))
    decreases |t|
  {
    if t != [] {
      var n := 1 + FieldLen(t[1..], sep);
      if n < |t| {
        ItemsNonEmpty(t[n + 1..], sep);
      }
    }
  }

  lemma EmptyText(sep: Byte)
    ensures Items([], sep) == [] && Split([], sep) == [[]]
  {
  }

  // A text that starts with an ordinary byte is cut at the same place by both.
  lemma SameFirstCut(t: Text, sep: Byte)
    requires t != [] && t[0] != sep
    ensures var n := 1 + FieldLen(t[1..], sep);
            && Split(t, sep) == (if n == |t| then [t] else [t[..n]] + Split(t[n + 1..], sep))
            && Items(t, sep) == if n == |t| then [t] else [t[..n]] + Items(t[n + 1..], sep)
  {
    assert FieldLen(t, sep) == 1 + FieldLen(t[1..], sep);
    hide FieldLen, Items, Split;
    SplitCons(t, sep);
    ItemsCons(t, sep);
    assert t[..|t|] == t;
  }

  // A text that starts with a separator has an empty first field, and its
  // first item is longer than its second field by that separator.
  lemma EmptyFirstField(t: Text, sep: Byte)
    requires t != [] && t[0] == sep
    ensures Split(t, sep)[0] == []
    ensures var n := 1 + FieldLen(t[1..], sep);
            && |Split(t, sep)| == (if n == |t| then 2 else 2 + |Split(t[n + 1..], sep)|)
            && |Items(t, sep)| == if n == |t| then 1 else 1 + |Items(t[n + 1..], sep)|
  {
    hide FieldLen, Items, Split;
    ItemsCons(t, sep);
    EmptyThenRest(t, sep);
    var u := t[1..];
    var m := FieldLen(u, sep);
    SplitCons(u, sep);
    assert m < |u| ==> t[m + 2..] == u[m + 1..];
  }

  lemma EmptyThenRest(t: Text, sep: Byte)
    requires t != [] && t[0] == sep
    ensures Split(t, sep) == [[]] + Split(t[1..], sep)
  {
    hide Split;
    SplitCons(t, sep);
  }

  lemma SplitCons(t: Text, sep: Byte)
    ensures var n := FieldLen(t, sep);
            Split(t, sep) == if n == |t| then [t] else [t[..n]] + Split(t[n + 1..], sep)
  {
    hide FieldLen;
  }

  // There are as many items as fields exactly when no field is empty, and
  // then they are the fields; otherwise there are fewer.
  lemma {:induction false} ItemsVersusFields(t: Text, sep: Byte)
    ensures AllNonEmpty(Split(t, sep)) ==> Items(t, sep) == Split(t, sep)
    ensures !AllNonEmpty(Split(t, sep)) ==> |Items(t, sep)| < |Split(t, sep)|
    decreases |t|
  {
    hide Split, Items, FieldLen;
    if t == [] {
      EmptyText(sep);
      assert Split(t, sep)[0] == [];
    } else {
      var n := 1 + FieldLen(t[1..], sep);
      if n < |t| {
        ItemsVersusFields(t[n + 1..], sep);
      }
      if t[0] == sep {
        EmptyFirstField(t, sep);
      } else {
        SameFirstCut(t, sep);
        if n < |t| {
          AllNonEmptyCons(t[..n], Split(t[n + 1..], sep));
        }
      }
    }
  }

  lemma AllNonEmptyCons(first: Text, rest: seq<Text>)
    requires first != []
    ensures AllNonEmpty([first] + rest) <==> AllNonEmpty(rest)
  {
    var all := [first] + rest;
    assert forall i :: 0 <= i < |rest| ==> all[i + 1] == rest[i];
    assert forall i :: 0 < i < |all| ==> all[i] == rest[i - 1];
  }

  // The server recovers a joined list exactly when no item is empty, and the
  // number of items it sees is then, and only then, the number sent.
  lemma ItemsOfJoined(vals: seq<Text>, sep: Byte)
    requires SepFree(vals, sep)
    ensures Items(Join(vals, sep), sep) == vals <==> AllNonEmpty(vals)
    ensures vals != [] ==> (|Items(Join(vals, sep), sep)| == |vals| <==> AllNonEmpty(vals))
  {
    if vals != [] {
      SplitJoin(vals, sep);
      ItemsVersusFields(Join(vals, sep), sep);
    }
  }

  // The items joined again are the text, but for one trailing separator.
  ghost predicate Rejoins(items: seq<Text>, t: Text, sep: Byte) {
    Join(items, sep) == t || Join(items, sep) + [sep] == t
  }

  // What an update keeps of its value text: everything, except that one
  // trailing separator may be dropped.
  lemma {:induction false} ItemsRejoined(t: Text, sep: Byte)
    ensures Rejoins(Items(t, sep), t, sep)
    decreases |t|
  {
    hide Rejoins, FieldLen, Items;
    ItemsCons(t, sep);
    if t == [] {
      OneRejoins([], sep);
    } else {
      var n := 1 + FieldLen(t[1..], sep);
      if n == |t| {
        assert t[..n] == t;
        OneRejoins(t, sep);
      } else {
        ItemsRejoined(t[n + 1..], sep);
        NoItemsIfEmpty(t[n + 1..], sep);
        RejoinedMore(t[..n], Items(t[n + 1..], sep), t[n + 1..], sep);
        CutAt(t, n);
      }
    }
  }

  lemma NoItemsIfEmpty(t: Text, sep: Byte)
    ensures Items(t, sep) == [] <==> t == []
  {
    ItemsCons(t, sep);
  }

  lemma CutAt(t: Text, n: nat)
    requires n < |t|
    ensures t == t[..n] + [t[n]] + t[n + 1..]
  {
  }

  lemma OneRejoins(t: Text, sep: Byte)
    ensures Rejoins([t], t, sep) && Rejoins([], [], sep)
  {
  }

  lemma RejoinedMore(first: Text, rest: seq<Text>, u: Text, sep: Byte)
    requires Rejoins(rest, u, sep) && (rest == [] <==> u == [])
    ensures Rejoins([first] + rest, first + [sep] + u, sep)
  {
    hide Join;
    JoinCons(first, rest, sep);
    if rest == [] {
      assert first + [sep] + u == first + [sep];
    } else {
      assert first + [sep] + Join(rest, sep) + [sep] == first + [sep] + (Join(rest, sep) + [sep]);
    }
  }

  lemma ItemsCons(t: Text, sep: Byte)
    ensures Items(t, sep) == [] <==> t == []
    ensures t != [] ==>
              var n := 1 + FieldLen(t[1..], sep);
              && (n < |t| ==> t[n] == sep)
              && Items(t, sep) == if n == |t| then [t[..n]] else [t[..n]] + Items(t[n + 1..], sep)
  {
    hide FieldLen, Items;
    ItemsUnfold(t, sep);
    if t != [] {
      var n := 1 + FieldLen(t[1..], sep);
      assert n == |t| ==> t[..n] == t;
      assert n < |t| ==> t[1..][n - 1] == t[n];
    }
  }

  lemma ItemsUnfold(t: Text, sep: Byte)
    ensures Items(t, sep) ==
            if t == [] then []
            else if 1 + FieldLen(t[1..], sep) == |t| then [t]
            else [t[..1 + FieldLen(t[1..], sep)]] + Items(t[1 + FieldLen(t[1..], sep) + 1..], sep)
  {
    hide FieldLen;
  }

  lemma JoinCons(first: Text, rest: seq<Text>, sep: Byte)
    ensures Join([], sep) == []
    ensures Join([first] + rest, sep) == if rest == [] then first else first + [sep] + Join(rest, sep)
  {
    assert ([first] + rest)[1..] == rest;
  }

  // ---- What an update makes of a list with empty values ----

  // How many items the server makes of a joined list.  An empty value, unless it
  // is the only one left, is taken together with the one after it.
  function Groups(vals: seq<Text>): nat {
    if vals == [] then 0
    else if vals[0] != [] then 1 + Groups(vals[1..])
    else if |vals| == 1 then 0
    else 1 + Groups(vals[2..])
  }

  // Whether the separator before a last empty value ends an item, and is lost.
  predicate LosesLast(vals: seq<Text>) {
    |vals| > 1 &&
    var rest := if vals[0] == [] then vals[2..] else vals[1..];
    rest == [[]] || LosesLast(rest)
  }

  // The list without the value that is lost.
  function Survivors(vals: seq<Text>): (r: seq<Text>)
    ensures vals != [] ==> r != []
  {
    if LosesLast(vals) then vals[..|vals| - 1] else vals
  }

  // An item that starts with any byte, up to a separator or the end.
  lemma FirstItem(c: Byte, y: Text, rest: Text, sep: Byte)
    requires sep !in y
    ensures Items([c] + y, sep) == [[c] + y]
    ensures Items([c] + y + [sep] + rest, sep) == [[c] + y] + Items(rest, sep)
  {
    hide Items, FieldLen;
    var t, u := [c] + y, [c] + y + [sep] + rest;
    assert t[1..] == y && y[..|y|] == y;
    FieldLenIs(y, |y|, sep);
    ItemsCons(t, sep);
    assert t[..|t|] == t;
    assert u[1..] == y + [sep] + rest && u[1..][..|y|] == y;
    FieldLenIs(u[1..], |y|, sep);
    ItemsCons(u, sep);
    assert u[..|y| + 1] == t && u[|y| + 2..] == rest;
  }

  // Joining, with the first item made of one value or of an empty one and the
  // value after it.
  lemma JoinHead(vals: seq<Text>, sep: Byte)
    requires vals != [] && (vals[0] == [] ==> |vals| > 1)
    ensures var k := if vals[0] == [] then 2 else 1;
            var first := if k == 1 then vals[0] else [sep] + vals[1];
            Join(vals, sep) == if |vals| == k then first else first + [sep] + Join(vals[k..], sep)
  {
    hide Join;
    assert vals == [vals[0]] + vals[1..];
    if vals[0] == [] {
      assert vals[1..] == [vals[1]] + vals[2..];
      JoinEmptyFirst(vals[1], vals[2..], sep);
    } else {
      JoinCons(vals[0], vals[1..], sep);
    }
  }

  lemma JoinEmptyFirst(y: Text, rest: seq<Text>, sep: Byte)
    ensures Join([[]] + ([y] + rest), sep) ==
            if rest == [] then [sep] + y else [sep] + y + [sep] + Join(rest, sep)
  {
    hide Join;
    JoinCons([], [y] + rest, sep);
    JoinCons(y, rest, sep);
    EmptyBefore(y, rest, Join(rest, sep), sep);
  }

  lemma EmptyBefore(y: Text, rest: seq<Text>, u: Text, sep: Byte)
    ensures [] + [sep] + y == [sep] + y
    ensures [] + [sep] + (y + [sep] + u) == [sep] + y + [sep] + u
    ensures [y] + rest != []
  {
  }

  // One item more in front, on both sides.
  lemma KeptMore(vals: seq<Text>, first: Text, items: seq<Text>, k: nat, sep: Byte)
    requires k == if vals != [] && vals[0] == [] then 2 else 1
    requires k < |vals| && first == if k == 1 then vals[0] else [sep] + vals[1]
    requires items == [] <==> vals[k..] == [[]]
    requires Join(items, sep) == Join(Survivors(vals[k..]), sep)
    ensures Join([first] + items, sep) == Join(Survivors(vals), sep)
  {
    hide Join, LosesLast;
    var rest := vals[k..];
    LosesLastMore(vals, k);
    JoinCons(first, items, sep);
    var kept := Survivors(vals);
    if rest == [[]] {
      assert kept == vals[..k];
      JoinHead(vals[..k], sep);
    } else {
      assert kept[..k] == vals[..k] && kept[k..] == Survivors(rest);
      JoinHead(kept, sep);
    }
  }

  lemma LosesLastMore(vals: seq<Text>, k: nat)
    requires vals != [] && k <= |vals| && k == if vals[0] == [] then 2 else 1
    ensures LosesLast(vals) <==> vals[k..] == [[]] || LosesLast(vals[k..])
    ensures LosesLast(vals[k..]) ==> |vals[k..]| > 1
  {
  }

  lemma JoinedEmpty(vals: seq<Text>, sep: Byte)
    requires vals != []
    ensures Join(vals, sep) == [] <==> vals == [[]]
  {
  }

  lemma JoinOne(item: Text, sep: Byte)
    ensures Join([item], sep) == item
  {
  }

  // For every list of values: the number of items the server makes of it, and
  // what these are when they are joined again.
  lemma {:induction false} ItemsOfAnyList(vals: seq<Text>, sep: Byte)
    requires SepFree(vals, sep)
    ensures |Items(Join(vals, sep), sep)| == Groups(vals)
    ensures Join(Items(Join(vals, sep), sep), sep) == Join(Survivors(vals), sep)
    decreases |vals|
  {
    hide Join, Items;
    EmptyText(sep);
    if vals == [] || vals == [[]] {
      JoinCons([], [], sep);
      JoinOne([], sep);
    } else {
      var k := if vals[0] == [] then 2 else 1;
      var first := if k == 1 then vals[0] else [sep] + vals[1];
      JoinHead(vals, sep);
      var rest := vals[k..];
      ItemsHead(first, if k == 1 then vals[0][1..] else vals[1], Join(rest, sep), sep);
      if rest == [] {
        JoinCons(first, [], sep);
        LosesLastMore(vals, k);
        assert [first] + [] == [first] && Survivors(vals) == vals;
      } else {
        ItemsOfAnyList(rest, sep);
        JoinedEmpty(rest, sep);
        NoItemsIfEmpty(Join(rest, sep), sep);
        KeptMore(vals, first, Items(Join(rest, sep), sep), k, sep);
      }
    }
  }

  lemma ItemsHead(first: Text, y: Text, rest: Text, sep: Byte)
    requires first != [] && first[1..] == y && sep !in y
    ensures Items(first, sep) == [first]
    ensures Items(first + [sep] + rest, sep) == [first] + Items(rest, sep)
  {
    hide Items;
    assert first == [first[0]] + y;
    FirstItem(first[0], y, rest, sep);
  }

  // Without empty values nothing is taken together and nothing is lost.
  lemma {:induction false} NothingLost(vals: seq<Text>)
    requires AllNonEmpty(vals)
    ensures Groups(vals) == |vals| && Survivors(vals) == vals
  {
    if vals != [] {
      NothingLost(vals[1..]);
    }
  }
}
