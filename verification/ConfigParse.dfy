// What the libconfig parser computes, text by text: the recursion of
// getDataFrom: over DictData, ArrayData, StringData and NumData.
module ConfigParse {
  import opened Wrappers
  import opened ConfigScan
  import opened ConfigNum

  datatype Data =
    | Dict(entries: seq<Entry>)
    | Array(items: seq<Data>)
    | Str(text: string)
    | Num(value: int)

  datatype Entry = Entry(key: string, data: Data)

  // Spaces at the start of t, looking at no more than n characters.
  function SpacesWithin(t: string, n: int): (k: nat)
    ensures k <= |t| && (n >= 0 ==> k <= n) && (n <= 0 ==> k == 0)
  {
    if t == [] || n <= 0 || !IsSpace(t[0]) then 0 else 1 + SpacesWithin(t[1..], n - 1)
  }

  // The length of t[..n] without its trailing spaces.
  function TrimEnd(t: string, n: nat): (k: nat)
    requires n <= |t|
    ensures k <= n && (k > 0 ==> !IsSpace(t[k - 1])) && forall i :: k <= i < n ==> IsSpace(t[i])
  {
    if n > 0 && IsSpace(t[n - 1]) then TrimEnd(t, n - 1) else n
  }

  // strchr: the first c, unless the string ends first.
  function IndexOf(t: string, c: char): (r: Option<nat>)
    ensures r.Some? ==> r.value < |t|
  {
    if t == [] || t[0] == '\0' then None
    else if t[0] == c then Some(0)
    else
      match IndexOf(t[1..], c)
      case None => None
      case Some(k) => Some(k + 1)
  }

  // The key before an equals sign at k: trailing spaces go, but never the
  // first character.
  function KeyBefore(t: string, k: nat): string
    requires k < |t|
  {
    if k == 0 then [] else t[..if TrimEnd(t, k) == 0 then 1 else TrimEnd(t, k)]
  }

  // Where the body of a braced or bare text starts, and the index of its last
  // character; None if an opening brace has no partner at the end.
  function Body(t: string, open: char, close: char): (r: Option<(nat, int)>)
    requires open != '\0' && !IsSpace(open)
    ensures r.Some? ==> r.value.0 <= |t| && r.value.1 < |t|
  {
    var offset := LeadSpaces(t);
    var len := TrimEnd(t, |t|) - 1;
    if At(t, offset) != open then Some((offset, len))
    else if t[len] != close then None
    else Some((offset + 1, TrimEnd(t, len) - 1))
  }

  // The text u[n + 1..], or nothing if that is past the end.
  function After(u: string, n: nat): string {
    if n + 1 <= |u| then u[n + 1..] else []
  }

  // The value text at the start of u, when e is the index of the last
  // character of the enclosing body.
  function ValueText(u: string, e: int): (v: string)
    requires e <= |u|
    ensures |v| <= |u| && (e > 0 ==> |v| <= e)
  {
    if e > 0 then u[..LineLen(u[..e], IDLE)] else []
  }

  // One entry taken off the front of a body: its key, the text of its value,
  // the unread text, and the index there of the body's last character.
  datatype Cut = Cut(key: string, value: string, rest: string, e: int)

  // An array item, in u whose last character has index e.
  function CutItem(u: string, e: int): (c: Cut)
    requires 0 < e < |u|
    ensures |c.value| < |u| && |c.rest| < |u| && (c.e <= 0 || c.e < |c.rest|)
  {
    var s := SpacesWithin(u, e + 1);
    var x, e' := u[s..], e - s;
    var v := ValueText(x, e');
    Cut([], v, After(x, |v|), e' - (|v| + 1))
  }

  // A dictionary entry; None if no equals sign follows.
  function CutEntry(u: string, e: int): (r: Option<Cut>)
    requires 0 < e < |u|
    ensures r.Some? ==>
              var c := r.value;
              |c.value| < |u| && |c.rest| < |u| && (c.e <= 0 || c.e < |c.rest|)
  {
    var s := SpacesWithin(u, e + 1);
    var w, e' := u[s..], e - s;
    match IndexOf(w, '=')
    case None => None
    case Some(k) =>
      var a := SpacesWithin(w[k + 1..], e' - (k + 1));
      var x, e'' := w[k + 1 + a..], e' - (k + 1 + a);
      var v := ValueText(x, e'');
      Some(Cut(KeyBefore(w, k), v, After(x, |v|), e'' - (|v| + 1)))
  }

  // The entries of a dictionary in u, whose last character has index e.
  function Entries(u: string, e: int): Option<seq<Entry>>
    requires e <= 0 || e < |u|
    decreases |u|, 1
  {
    if e <= 0 then Some([])
    else
      match CutEntry(u, e)
      case None => None
      case Some(cut) =>
        match GetData(cut.value)
        case None => None
        case Some(d) => Prepend([Entry(cut.key, d)], Entries(cut.rest, cut.e))
  }

  // The items of an array in u, whose last character has index e.
  function Items(u: string, e: int): Option<seq<Data>>
    requires e <= 0 || e < |u|
    decreases |u|, 1
  {
    if e <= 0 then Some([])
    else
      var cut := CutItem(u, e);
      match GetData(cut.value)
      case None => None
      case Some(d) => Prepend([d], Items(cut.rest, cut.e))
  }

  function Prepend<T>(done: seq<T>, rest: Option<seq<T>>): Option<seq<T>> {
    match rest
    case None => None
    case Some(s) => Some(done + s)
  }

  lemma PrependLaws<T>(a: seq<T>, b: seq<T>, r: Option<seq<T>>)
    ensures Prepend([], r) == r
    ensures Prepend(a, Prepend(b, r)) == Prepend(a + b, r)
    ensures Prepend(a, Some([])) == Some(a)
  {
    if r.Some? {
      assert [] + r.value == r.value;
      assert a + (b + r.value) == a + b + r.value;
    }
    assert a + [] == a;
  }

  function ParseDict(t: string): Option<Data>
    decreases |t|, 2
  {
    match Body(t, '{', '}')
    case None => None
    case Some((offset, len)) =>
      match Entries(t[offset..], len - offset)
      case None => None
      case Some(entries) => Some(Dict(entries))
  }

  function ParseArray(t: string): Option<Data>
    decreases |t|, 2
  {
    match Body(t, '[', ']')
    case None => None
    case Some((offset, len)) =>
      match Items(t[offset..], len - offset)
      case None => None
      case Some(items) => Some(Array(items))
  }

  // The last quote of t after position lo, at or before hi; lo if there is none.
  function LastQuote(t: string, lo: nat, hi: nat): (k: nat)
    requires lo <= hi <= |t|
    ensures lo <= k <= hi && (k > lo ==> k < |t| && t[k] == '"')
    ensures forall i :: k < i <= hi && i < |t| ==> t[i] != '"'
  {
    if hi == lo || At(t, hi) == '"' then hi else LastQuote(t, lo, hi - 1)
  }

  function ParseStr(t: string): Option<Data> {
    match IndexOf(t, '"')
    case None => None
    case Some(k) =>
      var end := LastQuote(t, k + 1, |t|);
      if end == k + 1 then None else Some(Str(t[k + 1..end]))
  }

  function ParseNum(t: string): Option<Data> {
    var (n, end) := Strtol(t);
    if At(t, end) != '\0' then None else Some(Num(n))
  }

  function GetData(t: string): Option<Data>
    decreases |t|, 3
  {
    match At(t, 0)
    case '{' => ParseDict(t)
    case '[' => ParseArray(t)
    case '"' => ParseStr(t)
    case _ => ParseNum(t)
  }
}
