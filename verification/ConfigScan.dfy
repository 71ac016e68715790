// The brace-and-quote scanner of libconfig (Parser getLineLenFrom:to:), which
// finds where an entry's value ends.
module ConfigScan {

  // The scanner's variables.  Braces are counted inside quotes too, and a
  // closing brace without an opening one is only warned about.
  datatype Scan = Scan(quote: bool, french: nat, square: nat)

  const IDLE := Scan(false, 0, 0)

  function Step(s: Scan, c: char): Scan {
    match c
    case '{' => s.(french := s.french + 1)
    case '}' => s.(french := if s.french == 0 then 0 else s.french - 1)
    case '[' => s.(square := s.square + 1)
    case ']' => s.(square := if s.square == 0 then 0 else s.square - 1)
    case '"' => s.(quote := !s.quote)
    case _ => s
  }

  function Walk(t: string, s: Scan): Scan {
    if t == [] then s else Walk(t[1..], Step(s, t[0]))
  }

  predicate Stops(s: Scan, c: char) {
    s == IDLE && c == ';'
  }

  function LineLen(t: string, s: Scan): (n: nat)
    ensures n <= |t|
  {
    if t == [] || Stops(s, t[0]) then 0 else 1 + LineLen(t[1..], Step(s, t[0]))
  }

  // The scanner passes over all of t.
  predicate Intact(t: string, s: Scan) {
    t == [] || (!Stops(s, t[0]) && Intact(t[1..], Step(s, t[0])))
  }

  lemma {:induction false} WalkAppend(a: string, b: string, s: Scan)
    ensures Walk(a + b, s) == Walk(b, Walk(a, s))
    ensures Intact(a + b, s) <==> Intact(a, s) && Intact(b, Walk(a, s))
  {
    if a == [] {
      assert a + b == b;
    } else {
      assert (a + b)[1..] == a[1..] + b;
      WalkAppend(a[1..], b, Step(s, a[0]));
    }
  }

  lemma {:induction false} LineLenAppend(a: string, b: string, s: Scan)
    requires Intact(a, s)
    ensures LineLen(a + b, s) == |a| + LineLen(b, Walk(a, s))
  {
    if a == [] {
      assert a + b == b;
    } else {
      assert (a + b)[1..] == a[1..] + b;
      LineLenAppend(a[1..], b, Step(s, a[0]));
    }
  }

  // Position i of t stops the scan: a `;' outside quotes and braces.
  predicate StopsAt(t: string, i: nat, s: Scan) {
    i < |t| && Stops(Walk(t[..i], s), t[i])
  }

  lemma StopsLater(t: string, i: nat, s: Scan)
    requires t != []
    ensures StopsAt(t, 0, s) == Stops(s, t[0])
    ensures StopsAt(t, i + 1, s) == StopsAt(t[1..], i, Step(s, t[0]))
  {
    if i + 1 < |t| {
      assert t[..i + 1][1..] == t[1..][..i];
    }
  }

  // LineLen is the least position that stops the scan, or the whole length.
  lemma {:induction false} LineLenLeast(t: string, s: Scan)
    ensures forall i: nat :: i < LineLen(t, s) ==> !StopsAt(t, i, s)
    ensures LineLen(t, s) < |t| ==> StopsAt(t, LineLen(t, s), s)
  {
    if t != [] {
      StopsLater(t, 0, s);
      if !Stops(s, t[0]) {
        var u, s' := t[1..], Step(s, t[0]);
        LineLenLeast(u, s');
        StopsLater(t, LineLen(u, s'), s);
        forall i: nat | i < LineLen(t, s)
          ensures !StopsAt(t, i, s)
        {
          if i > 0 {
            StopsLater(t, i - 1, s);
          }
        }
      }
    }
  }

  // Intact texts are those with no such position.
  lemma {:induction false} IntactMeans(t: string, s: Scan)
    ensures Intact(t, s) <==> LineLen(t, s) == |t|
  {
    if t != [] && !Stops(s, t[0]) {
      IntactMeans(t[1..], Step(s, t[0]));
    }
  }

  lemma IntactIff(t: string, s: Scan)
    ensures Intact(t, s) <==> forall i: nat :: !StopsAt(t, i, s)
  {
    hide Intact, LineLen, StopsAt;
    IntactMeans(t, s);
    LineLenLeast(t, s);
    assert forall i: nat :: i >= |t| ==> !StopsAt(t, i, s) by { PastTheEnd(t, s); }
  }

  lemma PastTheEnd(t: string, s: Scan)
    ensures forall i: nat :: i >= |t| ==> !StopsAt(t, i, s)
  {
  }

  // What stops the scan early does so whatever follows.
  lemma {:induction false} LineLenCut(a: string, b: string, s: Scan)
    requires !Intact(a, s)
    ensures LineLen(a + b, s) == LineLen(a, s) < |a|
  {
    assert (a + b)[0] == a[0] && (a + b)[1..] == a[1..] + b;
    if !Stops(s, a[0]) {
      LineLenCut(a[1..], b, Step(s, a[0]));
    }
  }

  method GetLineLen(buf: string, start: nat, end: int) returns (len: nat)
    requires start <= |buf| && end <= |buf|
    ensures len == LineLen(Window(buf, start, end), IDLE)
    ensures forall i: nat :: i < len ==> !StopsAt(Window(buf, start, end), i, IDLE)
    ensures len < |Window(buf, start, end)| ==> StopsAt(Window(buf, start, end), len, IDLE)
  {
    hide LineLen, Walk, StopsAt;
    var quote, frenchBraces: nat, squareBraces: nat := false, 0, 0;
    len := 0;
    ghost var t := Window(buf, start, end);
    ghost var s := IDLE;
    assert t[0..] == t;
    while start + len < end
      invariant len <= |t|
      invariant s == Scan(quote, frenchBraces, squareBraces)
      invariant LineLen(t, IDLE) == len + LineLen(t[len..], s)
    {
      LineLenStep(t, len, s);
      if !quote && frenchBraces == 0 && squareBraces == 0 && buf[start + len] == ';' {
        break;
      }
      s := Step(s, buf[start + len]);
      match buf[start + len] {
        case '{' =>
          frenchBraces := frenchBraces + 1;
        case '}' =>
          if frenchBraces != 0 {
            frenchBraces := frenchBraces - 1;
          }
        case '[' =>
          squareBraces := squareBraces + 1;
        case ']' =>
          if squareBraces != 0 {
            squareBraces := squareBraces - 1;
          }
        case '"' =>
          quote := !quote;
        case _ =>
      }
      len := len + 1;
    }
    LineLenStep(t, len, s);
    LineLenLeast(t, IDLE);
  }

  // The text from start up to, but not including, end; empty if end comes first.
  function Window(buf: string, start: nat, end: int): string
    requires start <= |buf| && end <= |buf|
  {
    if start <= end then buf[start..end] else []
  }

  lemma LineLenStep(t: string, i: nat, s: Scan)
    requires i <= |t|
    ensures LineLen(t[i..], s) ==
            if i == |t| || Stops(s, t[i]) then 0 else 1 + LineLen(t[i + 1..], Step(s, t[i]))
  {
    if i < |t| {
      assert t[i..][1..] == t[i + 1..];
    }
  }
}
