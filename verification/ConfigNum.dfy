// Numbers of libconfig (NumData): the C library's strtol with base 0, and the
// decimal text "%ld" prints.  A long has 64 bits.
module ConfigNum {

  const LONG_MIN: int := -0x8000_0000_0000_0000
  const LONG_MAX: int := 0x7fff_ffff_ffff_ffff

  predicate IsLong(n: int) {
    LONG_MIN <= n <= LONG_MAX
  }

  // C strings end in a NUL.
  function At(t: string, i: nat): char {
    if i < |t| then t[i] else '\0'
  }

  // isspace in the C locale.
  predicate IsSpace(c: char) {
    c == ' ' || c == '\t' || c == '\n' || c == '\U{0B}' || c == '\U{0C}' || c == '\r'
  }

  function LeadSpaces(t: string): (n: nat)
    ensures n <= |t| && (forall i :: 0 <= i < n ==> IsSpace(t[i]))
    ensures n < |t| ==> !IsSpace(t[n])
  {
    if t == [] || !IsSpace(t[0]) then 0 else 1 + LeadSpaces(t[1..])
  }

  function DigitVal(c: char): nat {
    if '0' <= c <= '9' then (c as int) - ('0' as int)
    else if 'a' <= c <= 'z' then (c as int) - ('a' as int) + 10
    else if 'A' <= c <= 'Z' then (c as int) - ('A' as int) + 10
    else 36
  }

  // The value and the end of the digits from position i on.
  function Digits(t: string, i: nat, base: nat, acc: nat): (int, nat)
    requires base <= 36
    decreases |t| - i
  {
    if i < |t| && DigitVal(t[i]) < base then Digits(t, i + 1, base, acc * base + DigitVal(t[i]))
    else (acc, i)
  }

  function Clamp(n: int): int {
    if n < LONG_MIN then LONG_MIN else if n > LONG_MAX then LONG_MAX else n
  }

  // Past a sign, if there is one.
  function SignEnd(t: string, i: nat): (j: nat)
    ensures i <= j <= i + 1
  {
    if At(t, i) == '-' || At(t, i) == '+' then i + 1 else i
  }

  // The base that the prefix at j asks for, and where the digits start.
  function Radix(t: string, j: nat): (r: (nat, nat))
    ensures r.0 <= 16 && j <= r.1 <= j + 2
  {
    var hex := At(t, j) == '0' && (At(t, j + 1) == 'x' || At(t, j + 1) == 'X') && DigitVal(At(t, j + 2)) < 16;
    (if hex then 16 else if At(t, j) == '0' then 8 else 10, if hex then j + 2 else j)
  }

  // strtol(t, &end, 0): the value, and the position where conversion stopped.
  function Strtol(t: string): (int, nat) {
    var i := LeadSpaces(t);
    var negative := At(t, i) == '-';
    var (base, start) := Radix(t, SignEnd(t, i));
    var (n, end) := Digits(t, start, base, 0);
    if end == start then (0, 0) else (Clamp(if negative then -n else n), end)
  }

  function Digit(d: nat): (c: char)
    requires d < 10
    ensures DigitVal(c) == d && '0' <= c <= '9'
  {
    ('0' as int + d) as char
  }

  function Dec(n: nat): (t: string)
    ensures |t| > 0 && forall i :: 0 <= i < |t| ==> '0' <= t[i] <= '9'
    ensures n > 0 ==> t[0] != '0'
  {
    if n < 10 then [Digit(n)] else Dec(n / 10) + [Digit(n % 10)]
  }

  // snprintf "%ld".
  function Decimal(n: int): string {
    if n < 0 then "-" + Dec(-n) else Dec(n)
  }

  // The value of a run of decimal digits.
  function Value(t: string, acc: nat): nat
  {
    if t == [] then acc else Value(t[1..], acc * 10 + DigitVal(t[0]))
  }

  lemma {:induction false} ValueSnoc(t: string, c: char, acc: nat)
    ensures Value(t + [c], acc) == Value(t, acc) * 10 + DigitVal(c)
  {
    if t == [] {
      assert [c][1..] == [] && [] + [c] == [c];
    } else {
      assert (t + [c])[1..] == t[1..] + [c];
      ValueSnoc(t[1..], c, acc * 10 + DigitVal(t[0]));
    }
  }

  lemma {:induction false} ValueDec(n: nat)
    ensures Value(Dec(n), 0) == n
  {
    if n < 10 {
      assert Dec(n)[1..] == [];
    } else {
      ValueDec(n / 10);
      ValueSnoc(Dec(n / 10), Digit(n % 10), 0);
    }
  }

  lemma {:induction false} DigitsAll(t: string, i: nat, acc: nat)
    requires i <= |t| && forall k :: i <= k < |t| ==> '0' <= t[k] <= '9'
    ensures Digits(t, i, 10, acc) == (Value(t[i..], acc), |t|)
    decreases |t| - i
  {
    if i < |t| {
      DigitsAll(t, i + 1, acc * 10 + DigitVal(t[i]));
      assert t[i..][1..] == t[i + 1..];
    }
  }

  lemma DecZero()
    ensures Dec(0) == "0"
  {
  }

  // Printing a long and parsing it gives it back, all of the text used.
  lemma DecimalParses(n: int)
    requires IsLong(n)
    ensures Strtol(Decimal(n)) == (n, |Decimal(n)|)
  {
    hide Dec, Digits, LeadSpaces, Value;
    var t := Decimal(n);
    var j := if n < 0 then 1 else 0;
    var m: nat := if n < 0 then -n else n;
    assert t[j..] == Dec(m);
    NoLeadSpaces(t);
    if m == 0 {
      DecZero();
      ZeroDigits();
    } else {
      assert At(t, j) == Dec(m)[0];
      assert forall k :: j <= k < |t| ==> t[k] == Dec(m)[k - j];
      DigitsAll(t, j, 0);
      ValueDec(m);
    }
  }

  lemma NoLeadSpaces(t: string)
    requires t != [] && !IsSpace(t[0])
    ensures LeadSpaces(t) == 0
  {
  }

  lemma ZeroDigits()
    ensures Digits("0", 0, 8, 0) == (0, 1)
  {
  }

  lemma DecimalPlain(n: int)
    ensures |Decimal(n)| > 0
    ensures forall i :: 0 <= i < |Decimal(n)| ==> '0' <= Decimal(n)[i] <= '9' || Decimal(n)[i] == '-'
  {
  }
}
