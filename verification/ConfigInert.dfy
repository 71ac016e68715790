// Texts that leave the scanner as they found it, wherever they occur.
module ConfigInert {
  import opened ConfigScan

  // Where a text occurs: anywhere, inside some brace, or inside a dictionary's.
  datatype Depth = Anywhere | Inside | InDict

  predicate Within(d: Depth, f: nat, q: nat) {
    match d
    case Anywhere => true
    case Inside => f + q > 0
    case InDict => f > 0
  }

  // From outside quotes, at any such brace depth, t brings the scanner back to
  // where it was and hides no terminator.
  ghost predicate Inert(t: string, d: Depth) {
    forall f: nat, q: nat :: Within(d, f, q) ==> KeepsScan(t, f, q)
  }

  predicate KeepsScan(t: string, f: nat, q: nat) {
    Walk(t, Scan(false, f, q)) == Scan(false, f, q) && Intact(t, Scan(false, f, q))
  }

  lemma InertAppend(a: string, b: string, d: Depth)
    requires Inert(a, d) && Inert(b, d)
    ensures Inert(a + b, d)
  {
    forall f: nat, q: nat | Within(d, f, q)
      ensures KeepsScan(a + b, f, q)
    {
      assert KeepsScan(a, f, q) && KeepsScan(b, f, q);
      WalkAppend(a, b, Scan(false, f, q));
    }
  }

  predicate Special(c: char) {
    c == '{' || c == '}' || c == '[' || c == ']' || c == '"' || c == ';'
  }

  lemma {:induction false} PlainInert(t: string, d: Depth)
    requires forall i :: 0 <= i < |t| ==> !Special(t[i])
    ensures Inert(t, d)
  {
    forall f: nat, q: nat
      ensures KeepsScan(t, f, q)
    {
      PlainKeeps(t, Scan(false, f, q));
    }
  }

  lemma {:induction false} PlainKeeps(t: string, s: Scan)
    requires forall i :: 0 <= i < |t| ==> !Special(t[i])
    ensures Walk(t, s) == s && Intact(t, s)
  {
    if t != [] {
      PlainKeeps(t[1..], s);
    }
  }

  lemma TerminatorInertInside()
    ensures Inert(";", Inside) && Inert(";", InDict)
  {
    forall f: nat, q: nat | f + q > 0
      ensures KeepsScan(";", f, q)
    {
      var s := Scan(false, f, q);
      assert Step(s, ';') == s && ";"[1..] == [];
    }
  }

  // Braces shut in what is inert inside them.
  lemma BracedInert(t: string, square: bool)
    requires Inert(t, if square then Inside else InDict)
    ensures Inert(Braced(t, square), Anywhere)
  {
    var open, close := if square then "[" else "{", if square then "]" else "}";
    forall f: nat, q: nat
      ensures KeepsScan(Braced(t, square), f, q)
    {
      var s := Scan(false, f, q);
      var inner := if square then Scan(false, f, q + 1) else Scan(false, f + 1, q);
      assert KeepsScan(t, inner.french, inner.square);
      assert open[1..] == [] && close[1..] == [];
      assert Walk(open, s) == inner && Intact(open, s);
      assert Walk(close, inner) == s && Intact(close, inner);
      WalkAppend(open + t, close, s);
      WalkAppend(open, t, s);
    }
  }

  function Braced(t: string, square: bool): string {
    if square then "[" + t + "]" else "{" + t + "}"
  }

  function Quoted(t: string): string {
    "\"" + t + "\""
  }

  // ---- Which strings are inert when quoted ----

  // From depth d every closing brace has an opening one before it, and the depth
  // at the end is e.
  predicate Balanced(t: string, d: nat, e: nat, open: char, close: char) {
    if t == [] then d == e
    else if t[0] == open then Balanced(t[1..], d + 1, e, open, close)
    else if t[0] == close then d > 0 && Balanced(t[1..], d - 1, e, open, close)
    else Balanced(t[1..], d, e, open, close)
  }

  predicate BracesBalanced(t: string) {
    Balanced(t, 0, 0, '{', '}') && Balanced(t, 0, 0, '[', ']')
  }

  // The scanner's count of one kind of brace, which stops at zero.
  function Floor(t: string, d: nat, open: char, close: char): nat {
    if t == [] then d
    else if t[0] == open then Floor(t[1..], d + 1, open, close)
    else if t[0] == close then Floor(t[1..], if d == 0 then 0 else d - 1, open, close)
    else Floor(t[1..], d, open, close)
  }

  function Quotes(t: string): nat {
    if t == [] then 0 else (if t[0] == '"' then 1 else 0) + Quotes(t[1..])
  }

  // The scanner's three variables do not depend on each other.
  lemma {:induction false} WalkApart(t: string, s: Scan)
    ensures Walk(t, s) == Scan(s.quote != (Quotes(t) % 2 == 1),
                               Floor(t, s.french, '{', '}'), Floor(t, s.square, '[', ']'))
  {
    if t != [] {
      WalkApart(t[1..], Step(s, t[0]));
    }
  }

  // A `;' of t that the scanner, when it comes to t in state s, sees outside
  // quotes and braces.
  predicate Exposed(t: string, i: nat, s: Scan) {
    && i < |t| && t[i] == ';' && s.quote == (Quotes(t[..i]) % 2 == 1)
    && Floor(t[..i], s.french, '{', '}') == 0 && Floor(t[..i], s.square, '[', ']') == 0
  }

  predicate Sealed(t: string, s: Scan) {
    forall i: nat :: i < |t| ==> !Exposed(t, i, s)
  }

  // The state in which the scanner comes to a string, and to a key.
  const QUOTED := Scan(true, 0, 0)
  const IN_DICT := Scan(false, 1, 0)

  // What a caller can check before quoting a text: its braces balance, its
  // quotes pair up, and no terminator is exposed.
  predicate Quotable(t: string) {
    BracesBalanced(t) && Quotes(t) % 2 == 0 && Sealed(t, QUOTED)
  }

  lemma {:induction false} FloorGrows(t: string, d: nat, e: nat, open: char, close: char)
    requires d <= e
    ensures Floor(t, d, open, close) <= Floor(t, e, open, close)
  {
    if t != [] {
      if t[0] == open {
        FloorGrows(t[1..], d + 1, e + 1, open, close);
      } else if t[0] == close {
        FloorGrows(t[1..], if d == 0 then 0 else d - 1, if e == 0 then 0 else e - 1, open, close);
      } else {
        FloorGrows(t[1..], d, e, open, close);
      }
    }
  }

  // The scanner stops inside a text only where it is exposed, and at the least
  // depth it does stop there.
  lemma StopsInside(t: string, i: nat, s: Scan, f: nat, q: nat)
    requires f >= s.french && q >= s.square
    ensures StopsAt(t, i, Scan(s.quote, f, q)) ==> Exposed(t, i, s)
    ensures Exposed(t, i, s) <==> StopsAt(t, i, s)
  {
    hide Walk, Floor, Quotes;
    if i < |t| {
      WalkApart(t[..i], Scan(s.quote, f, q));
      WalkApart(t[..i], s);
      FloorGrows(t[..i], s.french, f, '{', '}');
      FloorGrows(t[..i], s.square, q, '[', ']');
    }
  }

  lemma IntactInside(t: string, s: Scan, f: nat, q: nat)
    requires f >= s.french && q >= s.square
    ensures Sealed(t, s) ==> Intact(t, Scan(s.quote, f, q))
    ensures Intact(t, s) ==> Sealed(t, s)
  {
    hide Exposed, StopsAt, Intact;
    var deep := Scan(s.quote, f, q);
    IntactIff(t, deep);
    IntactIff(t, s);
    forall i: nat
      ensures StopsAt(t, i, deep) ==> Exposed(t, i, s) && i < |t|
      ensures Exposed(t, i, s) <==> StopsAt(t, i, s)
    {
      StopsInside(t, i, s, f, q);
      ExposedWithin(t, i, s);
    }
  }

  lemma ExposedWithin(t: string, i: nat, s: Scan)
    ensures Exposed(t, i, s) ==> i < |t|
  {
  }

  lemma {:induction false} BalancedReturns(t: string, d: nat, e: nat, extra: nat, open: char, close: char)
    requires open != close && Balanced(t, d, e, open, close)
    ensures Floor(t, d + extra, open, close) == e + extra
  {
    if t != [] {
      var d' := if t[0] == open then d + 1 else if t[0] == close then d - 1 else d;
      BalancedReturns(t[1..], d', e, extra, open, close);
    }
  }

  // An unbalanced text either ends at another depth or merges two depths.
  lemma {:induction false} UnbalancedDrifts(t: string, d: nat, e: nat, open: char, close: char)
    requires open != close && !Balanced(t, d, e, open, close)
    ensures || Floor(t, d, open, close) != e
            || Floor(t, d + 1, open, close) == Floor(t, d, open, close)
  {
    if t != [] {
      if t[0] == open {
        UnbalancedDrifts(t[1..], d + 1, e, open, close);
      } else if t[0] == close {
        if d > 0 {
          UnbalancedDrifts(t[1..], d - 1, e, open, close);
        }
      } else {
        UnbalancedDrifts(t[1..], d, e, open, close);
      }
    }
  }

  // The scanner over a quoted text, from outside quotes.
  lemma QuotedWalk(t: string, f: nat, q: nat)
    ensures Walk(Quoted(t), Scan(false, f, q)) ==
            Scan(Quotes(t) % 2 == 1, Floor(t, f, '{', '}'), Floor(t, q, '[', ']'))
    ensures Intact(Quoted(t), Scan(false, f, q)) <==> Intact(t, Scan(true, f, q))
  {
    hide Walk, Intact, Floor, Quotes;
    var s, inside := Scan(false, f, q), Scan(true, f, q);
    QuoteToggles(s);
    WalkAppend("\"" + t, "\"", s);
    WalkAppend("\"", t, s);
    WalkApart(t, inside);
    QuoteToggles(Walk(t, inside));
  }

  lemma QuoteToggles(s: Scan)
    ensures Walk("\"", s) == s.(quote := !s.quote) && Intact("\"", s)
  {
    assert "\""[1..] == [];
  }

  // Exactly the quotable texts leave the scanner as it was in every context.
  // Within them a `;' that is quoted or in braces never matters, nor does a `='.
  lemma QuotedInert(t: string)
    ensures Inert(Quoted(t), Anywhere) <==> Quotable(t)
  {
    hide Walk, Intact, Sealed, Quotes, Quoted, Floor, Balanced;
    if Quotable(t) {
      forall f: nat, q: nat
        ensures KeepsScan(Quoted(t), f, q)
      {
        BalancedReturns(t, 0, 0, f, '{', '}');
        BalancedReturns(t, 0, 0, q, '[', ']');
        QuotedWalk(t, f, q);
        IntactInside(t, QUOTED, f, q);
      }
    } else if Inert(Quoted(t), Anywhere) {
      assert KeepsScan(Quoted(t), 0, 0) && KeepsScan(Quoted(t), 1, 1);
      QuotedWalk(t, 0, 0);
      QuotedWalk(t, 1, 1);
      IntactInside(t, QUOTED, 0, 0);
      if !Balanced(t, 0, 0, '{', '}') {
        UnbalancedDrifts(t, 0, 0, '{', '}');
      } else {
        UnbalancedDrifts(t, 0, 0, '[', ']');
      }
      assert false;
    }
  }

  // ---- Which keys are inert in a dictionary ----

  // What a caller can check of a key: its braces balance within the dictionary's
  // own pair, its quotes pair up, and no terminator is exposed there.
  predicate KeyQuiet(t: string) {
    && Balanced(t, 1, 1, '{', '}') && Balanced(t, 0, 0, '[', ']')
    && Quotes(t) % 2 == 0 && Sealed(t, IN_DICT)
  }

  lemma KeyInert(t: string)
    ensures Inert(t, InDict) <==> KeyQuiet(t)
  {
    hide Walk, Intact, Sealed, Quotes, Floor, Balanced;
    if KeyQuiet(t) {
      forall f: nat, q: nat | f > 0
        ensures KeepsScan(t, f, q)
      {
        BalancedReturns(t, 1, 1, f - 1, '{', '}');
        BalancedReturns(t, 0, 0, q, '[', ']');
        WalkApart(t, Scan(false, f, q));
        IntactInside(t, IN_DICT, f, q);
      }
    } else if Inert(t, InDict) {
      assert KeepsScan(t, 1, 0) && KeepsScan(t, 2, 1);
      WalkApart(t, Scan(false, 1, 0));
      WalkApart(t, Scan(false, 2, 1));
      IntactInside(t, IN_DICT, 1, 0);
      if !Balanced(t, 1, 1, '{', '}') {
        UnbalancedDrifts(t, 1, 1, '{', '}');
      } else {
        UnbalancedDrifts(t, 0, 0, '[', ']');
      }
      assert false;
    }
  }
}
