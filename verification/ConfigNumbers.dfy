// Which texts are numbers, and which: the digits by their place values, in base
// 16, 8 or 10 as the prefix says.
module ConfigNumbers {
  import opened Wrappers
  import opened ConfigNum
  import opened ConfigParse

  const LOWER := "0123456789abcdef"
  const UPPER := "0123456789ABCDEF"

  // Digits as they are written, in either case.
  predicate Spells(u: string, ds: seq<nat>) {
    |u| == |ds| && forall i :: 0 <= i < |ds| ==> ds[i] < 16 && (u[i] == LOWER[ds[i]] || u[i] == UPPER[ds[i]])
  }

  function Power(b: nat, n: nat): nat {
    if n == 0 then 1 else b * Power(b, n - 1)
  }

  // Each digit times its place.
  function PlaceValue(ds: seq<nat>, b: nat): nat {
    if ds == [] then 0 else ds[0] * Power(b, |ds| - 1) + PlaceValue(ds[1..], b)
  }

  predicate Blank(c: char) {
    c as int == 32 || 9 <= c as int <= 13
  }

  datatype Numeral = Numeral(spaces: string, sign: string, prefix: string, digits: string, ds: seq<nat>, base: nat)

  function Text(n: Numeral): string {
    n.spaces + n.sign + n.prefix + n.digits
  }

  predicate IsNumeral(n: Numeral) {
    && (forall i :: 0 <= i < |n.spaces| ==> Blank(n.spaces[i]))
    && (n.sign == "" || n.sign == "+" || n.sign == "-")
    && Spells(n.digits, n.ds) && (forall i :: 0 <= i < |n.ds| ==> n.ds[i] < n.base)
    && (|| (n.base == 16 && (n.prefix == "0x" || n.prefix == "0X") && n.ds != [])
        || (n.base == 8 && n.prefix == "0")
        || (n.base == 10 && n.prefix == "" && n.ds != [] && n.ds[0] != 0))
  }

  // The value, within the bounds of a long.
  function ValueOf(n: Numeral): int {
    var v: int := PlaceValue(n.ds, n.base);
    var w := if n.sign == "-" then -v else v;
    if w < -9223372036854775808 then -9223372036854775808
    else if w > 9223372036854775807 then 9223372036854775807
    else w
  }

  lemma DigitWritten(d: nat)
    requires d < 16
    ensures DigitVal(LOWER[d]) == d && DigitVal(UPPER[d]) == d
    ensures !IsSpace(LOWER[d]) && !IsSpace(UPPER[d])
  {
  }

  lemma WrittenDigit(c: char)
    requires DigitVal(c) < 16
    ensures c == LOWER[DigitVal(c)] || c == UPPER[DigitVal(c)]
  {
  }

  lemma SpacesAreBlank(c: char)
    ensures IsSpace(c) <==> Blank(c)
  {
  }

  lemma Distribute(acc: nat, b: nat, d: nat, p: nat, rest: nat)
    ensures (acc * b + d) * p + rest == acc * (b * p) + (d * p + rest)
  {
    assert (acc * b + d) * p == acc * b * p + d * p;
    assert acc * b * p == acc * (b * p);
  }

  lemma {:induction false} DigitsSpelt(t: string, i: nat, ds: seq<nat>, base: nat, acc: nat)
    requires i <= |t| && Spells(t[i..], ds) && base <= 36
    requires forall k :: 0 <= k < |ds| ==> ds[k] < base
    ensures Digits(t, i, base, acc) == (acc * Power(base, |ds|) + PlaceValue(ds, base), |t|)
    decreases |ds|
  {
    hide DigitVal;
    if ds != [] {
      var d, rest := ds[0], ds[1..];
      assert t[i..][0] == t[i];
      DigitWritten(d);
      assert DigitVal(t[i]) == d;
      assert t[i + 1..] == t[i..][1..];
      assert forall k :: 0 <= k < |rest| ==> t[i..][1..][k] == t[i..][k + 1] && rest[k] == ds[k + 1];
      DigitsSpelt(t, i + 1, rest, base, acc * base + d);
      Distribute(acc, base, d, Power(base, |rest|), PlaceValue(rest, base));
    }
  }

  lemma RadixOfNumeral(n: Numeral, t: string, j: nat)
    requires IsNumeral(n) && j <= |t| && t[j..] == n.prefix + n.digits
    ensures Radix(t, j) == (n.base, if n.base == 8 then j else j + |n.prefix|)
    ensures j < |t| && (n.base == 8 ==> t[j] == '0')
  {
    hide DigitVal, IsNumeral;
    var u := t[j..];
    NumeralStarts(n);
    PrefixLength(n);
    assert forall k :: 0 <= k < |u| ==> At(t, j + k) == u[k];
  }

  lemma PrefixLength(n: Numeral)
    requires IsNumeral(n)
    ensures n.base == 16 || n.base == 8 || n.base == 10
    ensures |n.prefix| == if n.base == 16 then 2 else if n.base == 8 then 1 else 0
  {
    hide Spells;
  }

  // What follows spaces and sign, read by strtol.
  lemma DigitsOfNumeral(n: Numeral, t: string, j: nat)
    requires IsNumeral(n) && j <= |t| && t[j..] == n.prefix + n.digits
    ensures var start := if n.base == 8 then j else j + |n.prefix|;
            && Radix(t, j) == (n.base, start) && start < |t|
            && Digits(t, start, n.base, 0) == (PlaceValue(n.ds, n.base), |t|)
  {
    hide DigitVal, Spells, Radix, Digits, PlaceValue, IsNumeral;
    RadixOfNumeral(n, t, j);
    NumeralDigits(n);
    TailOf(t, j, n.prefix, n.digits);
    NumeralTail(n, t, j + |n.prefix|);
    if n.base == 8 {
      FirstZero(t, j);
    }
  }

  lemma NumeralTail(n: Numeral, t: string, first: nat)
    requires IsNumeral(n) && first <= |t| && t[first..] == n.digits
    ensures Digits(t, first, n.base, 0) == (PlaceValue(n.ds, n.base), |t|)
    ensures n.base != 8 ==> first < |t|
  {
    hide Spells, Digits, PlaceValue, IsNumeral;
    NumeralDigits(n);
    AllDigits(t, first, n.ds, n.base);
  }

  lemma NumeralDigits(n: Numeral)
    requires IsNumeral(n)
    ensures Spells(n.digits, n.ds) && (forall k :: 0 <= k < |n.ds| ==> n.ds[k] < n.base) && n.base <= 16
    ensures if n.base == 8 then |n.prefix| == 1 else n.digits != []
  {
  }

  lemma AllDigits(t: string, i: nat, ds: seq<nat>, base: nat)
    requires i <= |t| && Spells(t[i..], ds) && base <= 16
    requires forall k :: 0 <= k < |ds| ==> ds[k] < base
    ensures Digits(t, i, base, 0) == (PlaceValue(ds, base), |t|)
  {
    hide Spells, Digits, PlaceValue, Power;
    DigitsSpelt(t, i, ds, base, 0);
  }

  lemma TailOf(t: string, j: nat, a: string, b: string)
    requires j <= |t| && t[j..] == a + b
    ensures j + |a| <= |t| && t[j + |a|..] == b
  {
    assert t[j + |a|..] == t[j..][|a|..];
  }

  // The zero of an octal prefix is a digit itself.
  lemma FirstZero(t: string, j: nat)
    requires j < |t| && t[j] == '0'
    ensures Digits(t, j, 8, 0) == Digits(t, j + 1, 8, 0)
  {
    ZeroWritten('0');
    hide DigitVal;
  }

  // The first characters of the number, after spaces and sign.
  lemma NumeralStarts(n: Numeral)
    requires IsNumeral(n)
    ensures var u := n.prefix + n.digits;
            && u != [] && !IsSpace(u[0]) && u[0] != '+' && u[0] != '-'
            && u[0] != '{' && u[0] != '[' && u[0] != '"'
            && (u[0] == '0' <==> n.base != 10)
            && (n.base == 16 ==> |u| > 2 && (u[1] == 'x' || u[1] == 'X') && DigitVal(u[2]) < 16)
            && (n.base == 8 && |u| > 1 ==> u[1] != 'x' && u[1] != 'X')
  {
    var u := n.prefix + n.digits;
    if n.ds != [] {
      DigitWritten(n.ds[0]);
    }
    if n.base == 16 {
      assert u[2] == n.digits[0];
    } else if n.base == 8 && |u| > 1 {
      assert u[1] == n.digits[0];
    } else if n.base == 10 {
      assert u[0] == n.digits[0];
    }
  }

  // Every numeral is read as its value.
  lemma NumeralReads(n: Numeral)
    requires IsNumeral(n)
    ensures GetData(Text(n)) == Some(Num(ValueOf(n)))
  {
    hide DigitVal, Digits, IsSpace, Spells, LeadSpaces, Radix, PlaceValue, GetData, IsNumeral, SignEnd;
    var t, u := Text(n), n.prefix + n.digits;
    var j := |n.spaces| + |n.sign|;
    NumeralStarts(n);
    assert t == n.spaces + n.sign + u;
    SpacesThenSign(n, t);
    AfterSign(n, t);
    assert t[j..] == u;
    DigitsOfNumeral(n, t, j);
    NotBraced(t);
  }

  lemma AfterSign(n: Numeral, t: string)
    requires IsNumeral(n) && t == n.spaces + n.sign + (n.prefix + n.digits)
    requires var u := n.prefix + n.digits; u != [] && u[0] != '+' && u[0] != '-'
    ensures SignEnd(t, |n.spaces|) == |n.spaces| + |n.sign|
    ensures At(t, |n.spaces|) == '-' <==> n.sign == "-"
  {
    hide Spells;
    var i := |n.spaces|;
    assert t[i] == if n.sign == "" then (n.prefix + n.digits)[0] else n.sign[0];
  }

  lemma NotBraced(t: string)
    requires t != [] && t[0] != '{' && t[0] != '[' && t[0] != '"'
    ensures GetData(t) == ParseNum(t)
  {
  }

  lemma SpacesThenSign(n: Numeral, t: string)
    requires IsNumeral(n) && t == n.spaces + n.sign + (n.prefix + n.digits)
    requires var u := n.prefix + n.digits; u != [] && !IsSpace(u[0])
    ensures LeadSpaces(t) == |n.spaces|
    ensures n.spaces != [] || n.sign != "" ==> t[0] != '{' && t[0] != '[' && t[0] != '"'
  {
    hide Spells;
    forall k | 0 <= k < |n.spaces|
      ensures IsSpace(t[k])
    {
      SpacesAreBlank(n.spaces[k]);
    }
    var s := |n.spaces|;
    assert t[s] == if n.sign == "" then (n.prefix + n.digits)[0] else n.sign[0];
    LeadSpacesIs(t, s);
  }

  lemma {:induction false} LeadSpacesIs(t: string, n: nat)
    requires n < |t| && (forall i :: 0 <= i < n ==> IsSpace(t[i])) && !IsSpace(t[n])
    ensures LeadSpaces(t) == n
  {
    if n > 0 {
      LeadSpacesIs(t[1..], n - 1);
    }
  }

  // And nothing else is a number, but the empty text, which is read as zero.
  lemma OnlyNumerals(t: string) returns (n: Numeral)
    requires '\0' !in t && t != [] && ParseNum(t).Some?
    ensures IsNumeral(n) && Text(n) == t
  {
    hide DigitVal, IsSpace, Radix, SignEnd, ParseNum, LeadSpaces, Spells, IsNumeral, SignOk, PrefixOk, Blank;
    var i := LeadSpaces(t);
    var j := SignEnd(t, i);
    var (base, start) := Radix(t, j);
    SignOf(t, i);
    PrefixOf(t, j);
    ReadToEnd(t);
    var first := if base == 8 then j + 1 else start;
    n := Numeral(t[..i], t[i..j], t[j..first], t[first..], DigitsFrom(t, first), base);
    FourParts(t, i, j, first);
    SpacesBlank(t, i);
    SpellsFrom(t, first, base);
    ASign(n);
    PrefixPart(n, t, j, start);
    AreNumeral(n);
  }

  predicate SignOk(n: Numeral) {
    n.sign == "" || n.sign == "+" || n.sign == "-"
  }

  predicate PrefixOk(n: Numeral) {
    || (n.base == 16 && (n.prefix == "0x" || n.prefix == "0X") && n.ds != [])
    || (n.base == 8 && n.prefix == "0")
    || (n.base == 10 && n.prefix == "" && n.ds != [] && n.ds[0] != 0)
  }

  lemma ASign(n: Numeral)
    ensures SignOk(n) <==> n.sign == "" || n.sign == "+" || n.sign == "-"
  {
  }

  lemma PrefixPart(n: Numeral, t: string, j: nat, start: nat)
    requires j <= start < |t| && n.base == Radix(t, j).0 && start == Radix(t, j).1
    requires var first := if n.base == 8 then j + 1 else start;
             n.prefix == t[j..first] && n.ds == DigitsFrom(t, first)
    ensures PrefixOk(n)
  {
    hide DigitVal, Radix;
    PrefixOf(t, j);
    if n.base == 10 {
      ZeroWritten(t[j]);
    }
  }

  lemma AreNumeral(n: Numeral)
    requires SignOk(n) && PrefixOk(n) && Spells(n.digits, n.ds)
    requires forall i :: 0 <= i < |n.spaces| ==> Blank(n.spaces[i])
    requires forall i :: 0 <= i < |n.ds| ==> n.ds[i] < n.base
    ensures IsNumeral(n)
  {
    hide Spells, Blank;
  }

  // Strtol that uses up a text has found digits, and only digits, to its end.
  lemma ReadToEnd(t: string)
    requires '\0' !in t && t != [] && ParseNum(t).Some?
    ensures var (base, start) := Radix(t, SignEnd(t, LeadSpaces(t)));
            start < |t| && forall k :: start <= k < |t| ==> DigitVal(t[k]) < base
  {
    hide DigitVal, IsSpace, Radix, SignEnd, LeadSpaces, Digits;
    var j := SignEnd(t, LeadSpaces(t));
    SignOf(t, LeadSpaces(t));
    PrefixOf(t, j);
    var (base, start) := Radix(t, j);
    DigitsEnd(t, start, base, 0);
    assert At(t, 0) == t[0] != '\0';
  }

  lemma FourParts(t: string, i: nat, j: nat, k: nat)
    requires i <= j <= k <= |t|
    ensures t[..i] + t[i..j] + t[j..k] + t[k..] == t
  {
  }

  lemma SpacesBlank(t: string, i: nat)
    requires i <= |t| && forall k :: 0 <= k < i ==> IsSpace(t[k])
    ensures forall k :: 0 <= k < i ==> Blank(t[..i][k])
  {
    hide IsSpace, Blank;
    forall k | 0 <= k < i
      ensures Blank(t[..i][k])
    {
      SpacesAreBlank(t[k]);
    }
  }

  function DigitsFrom(t: string, first: nat): (ds: seq<nat>)
    requires first <= |t|
    decreases |t| - first
    ensures |ds| == |t| - first && forall k :: 0 <= k < |ds| ==> ds[k] == DigitVal(t[first + k])
  {
    if first == |t| then [] else [DigitVal(t[first])] + DigitsFrom(t, first + 1)
  }

  lemma SpellsFrom(t: string, first: nat, base: nat)
    requires first <= |t| && base <= 16 && forall k :: first <= k < |t| ==> DigitVal(t[k]) < base
    ensures Spells(t[first..], DigitsFrom(t, first))
    ensures forall k :: 0 <= k < |t| - first ==> DigitsFrom(t, first)[k] < base
  {
    hide DigitVal;
    var u, ds := t[first..], DigitsFrom(t, first);
    forall k | 0 <= k < |ds|
      ensures ds[k] < base && (u[k] == LOWER[ds[k]] || u[k] == UPPER[ds[k]])
    {
      WrittenDigit(t[first + k]);
    }
  }

  // The prefix that a base comes from.
  lemma PrefixOf(t: string, j: nat)
    requires j <= |t|
    ensures var (base, start) := Radix(t, j);
            && (base == 16 || base == 8 || base == 10)
            && (base == 16 ==> start == j + 2 <= |t| && (t[j..start] == "0x" || t[j..start] == "0X"))
            && (base == 8 ==> start == j < |t| && t[j] == '0')
            && (base == 10 ==> start == j && At(t, j) != '0')
  {
    hide DigitVal;
    DigitNul();
  }

  lemma SignOf(t: string, i: nat)
    requires i <= |t|
    ensures SignEnd(t, i) <= |t|
    ensures var s := t[i..SignEnd(t, i)];
            (s == "" || s == "+" || s == "-") && (s == "-" <==> At(t, i) == '-')
  {
  }

  lemma ZeroWritten(c: char)
    ensures DigitVal(c) == 0 <==> c == '0'
  {
  }

  // Digits read to the end of the text.
  lemma {:induction false} DigitsEnd(t: string, i: nat, base: nat, acc: nat)
    requires base <= 36 && i <= |t| + 2
    ensures var end := Digits(t, i, base, acc).1;
            && i <= end && (i <= |t| ==> end <= |t|) && (end > |t| ==> end == i)
            && forall k :: i <= k < end && k < |t| ==> DigitVal(t[k]) < base
    decreases |t| + 2 - i
  {
    hide DigitVal;
    if i < |t| && DigitVal(t[i]) < base {
      DigitsEnd(t, i + 1, base, acc * base + DigitVal(t[i]));
    }
  }

  lemma EmptyIsZero()
    ensures GetData("") == Some(Num(0))
  {
  }

  // A NUL ends the number, whatever is behind it.
  lemma UpToNul(a: string, b: string)
    requires '\0' !in a
    ensures ParseNum(a + ['\0'] + b) == ParseNum(a)
  {
    hide DigitVal, Digits, LeadSpaces;
    var t := a + ['\0'] + b;
    assert forall k :: 0 <= k <= |a| ==> At(t, k) == At(a, k);
    assert forall k :: 0 <= k < |a| ==> At(a, k) != '\0' by { NoNulWithin(a); }
    LeadSpacesUpTo(a, b);
    DigitNul();
    forall i: nat, base: nat | i <= |a| && base <= 36
      ensures Digits(t, i, base, 0) == Digits(a, i, base, 0) && Digits(a, i, base, 0).1 <= |a|
    {
      DigitsUpTo(a, b, i, base, 0);
    }
  }

  lemma NoNulWithin(a: string)
    requires '\0' !in a
    ensures forall k :: 0 <= k < |a| ==> At(a, k) != '\0'
  {
  }

  lemma DigitNul()
    ensures DigitVal('\0') == 36 && !IsSpace('\0')
  {
  }

  lemma {:induction false} LeadSpacesUpTo(a: string, b: string)
    ensures LeadSpaces(a + ['\0'] + b) == LeadSpaces(a)
  {
    var t := a + ['\0'] + b;
    if a != [] {
      LeadSpacesUpTo(a[1..], b);
      assert t[1..] == a[1..] + ['\0'] + b;
    } else {
      assert t[0] == '\0';
    }
  }

  lemma {:induction false} DigitsUpTo(a: string, b: string, i: nat, base: nat, acc: nat)
    requires i <= |a| && base <= 36
    ensures Digits(a + ['\0'] + b, i, base, acc) == Digits(a, i, base, acc) && Digits(a, i, base, acc).1 <= |a|
    decreases |a| - i
  {
    hide DigitVal;
    DigitNul();
    var t := a + ['\0'] + b;
    assert t[i] == if i < |a| then a[i] else '\0';
    if i < |a| && DigitVal(a[i]) < base {
      DigitsUpTo(a, b, i + 1, base, acc * base + DigitVal(a[i]));
    }
  }
}
