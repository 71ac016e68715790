// The message digest in numbers: what a padded message is, where the chaining
// variables start, and how the digest is written.
module Md5Pad {
  import opened Bytes
  import opened Md5Spec

  // Bytes weighted by powers of 256, the first one least.
  function Little(s: Text): nat {
    if s == [] then 0 else s[0] as int + 256 * Little(s[1..])
  }

  // RFC 1321, sections 3.1 and 3.2: the message, the byte 128, zeros up to the
  // first length that leaves eight bytes to a multiple of 64, and in these the
  // bit length modulo 2^64.
  predicate IsPadded(m: Text, p: Text) {
    && |p| % 64 == 0 && |m| + 9 <= |p| < |m| + 9 + 64
    && p[..|m|] == m && p[|m|] == 128
    && (forall i :: |m| < i < |p| - 8 ==> p[i] == 0)
    && Little(p[|p| - 8..]) == 8 * |m| % 18446744073709551616
  }

  lemma {:induction false} LittleDetermines(a: Text, b: Text)
    requires |a| == |b| && Little(a) == Little(b)
    ensures a == b
  {
    if a != [] {
      assert a[0] == Little(a) % 256 && b[0] == Little(b) % 256 by { LowDigit(a); LowDigit(b); }
      LittleDetermines(a[1..], b[1..]);
      assert a == [a[0]] + a[1..] && b == [b[0]] + b[1..];
    }
  }

  lemma LowDigit(s: Text)
    requires s != []
    ensures Little(s) % 256 == s[0] && Little(s) / 256 == Little(s[1..])
  {
  }

  lemma LittleWord(w: Word)
    ensures Little(Le32(w)) == w
  {
    var s := Le32(w);
    Le32RoundTrip(w);
    LittleFour(s);
  }

  lemma LittleFour(s: Text)
    requires |s| == 4
    ensures Little(s) == FromLe32(s)
  {
    var b1: int, b2: int, b3: int := s[1], s[2], s[3];
    assert s[1..][1..] == s[2..] && s[2..][1..] == s[3..] && |s[3..][1..]| == 0;
    assert Little(s[3..]) == b3;
    assert Little(s[2..]) == b2 + 256 * b3;
    assert Little(s[1..]) == b1 + 256 * (b2 + 256 * b3);
  }

  lemma {:induction false} LittleAppend(a: Text, b: Text)
    requires |a| == 4
    ensures Little(a + b) == Little(a) + WORD * Little(b)
  {
    var t := a + b;
    assert t[1..][1..] == t[2..] && t[2..][1..] == t[3..] && t[3..][1..] == t[4..] == b;
    assert Little(t[3..]) == a[3] + 256 * Little(b);
    assert Little(t[2..]) == a[2] + 256 * Little(t[3..]);
    assert Little(t[1..]) == a[1] + 256 * Little(t[2..]);
    assert Little(t) == a[0] + 256 * Little(t[1..]);
    LittleFour(a);
  }

  lemma LengthIs(n: nat)
    ensures Little(LengthWords(n)) == 8 * n % 18446744073709551616
  {
    hide Little, Le32;
    var low, high := 8 * n % WORD, 8 * n / WORD % WORD;
    LittleWord(low);
    LittleWord(high);
    LittleAppend(Le32(low), Le32(high));
    SplitMod(8 * n);
  }

  lemma PadIsPadded(m: Text)
    ensures IsPadded(m, Pad(m))
  {
    hide Little, LengthWords;
    var p := Pad(m);
    PadLength(|m|);
    LengthIs(|m|);
    assert p[|p| - 8..] == LengthWords(|m|);
    assert p[..|m|] == m;
    hide PadLen;
  }

  lemma PadLength(n: nat)
    ensures n + 9 <= n + PadLen(n) + 8 < n + 9 + 64 && (n + PadLen(n) + 8) % 64 == 0
  {
  }

  lemma OneMultiple(a: nat, b: nat, low: nat)
    requires a % 64 == 0 && b % 64 == 0 && low <= a < low + 64 && low <= b < low + 64
    ensures a == b
  {
  }

  // That is all there is to padding.
  lemma PaddedIsPad(m: Text, p: Text)
    ensures p == Pad(m) <==> IsPadded(m, p)
  {
    hide Pad, Little;
    PadIsPadded(m);
    if IsPadded(m, p) {
      var q := Pad(m);
      OneMultiple(|p|, |q|, |m| + 9);
      LittleDetermines(p[|p| - 8..], q[|q| - 8..]);
      SameParts(m, p, q);
    }
  }

  lemma SameParts(m: Text, p: Text, q: Text)
    requires |p| == |q| && |m| + 9 <= |p| && p[..|m|] == m == q[..|m|] && p[|m|] == q[|m|]
    requires forall i :: |m| < i < |p| - 8 ==> p[i] == q[i]
    requires p[|p| - 8..] == q[|q| - 8..]
    ensures p == q
  {
    forall i | 0 <= i < |p|
      ensures p[i] == q[i]
    {
      if i < |m| {
        assert p[i] == p[..|m|][i] && q[i] == q[..|m|][i];
      } else if i >= |p| - 8 {
        assert p[i] == p[|p| - 8..][i - (|p| - 8)] && q[i] == q[|q| - 8..][i - (|p| - 8)];
      }
    }
  }

  // Section 3.3, as RFC 1321 lists the words, low-order byte first.
  lemma StartsWith()
    ensures Output(INIT) == [0x01, 0x23, 0x45, 0x67, 0x89, 0xab, 0xcd, 0xef,
                             0xfe, 0xdc, 0xba, 0x98, 0x76, 0x54, 0x32, 0x10]
  {
    hide Le32;
    var a: Text, b: Text := [0x01, 0x23, 0x45, 0x67], [0x89, 0xab, 0xcd, 0xef];
    var c: Text, d: Text := [0xfe, 0xdc, 0xba, 0x98], [0x76, 0x54, 0x32, 0x10];
    FromLe32RoundTrip(a);
    FromLe32RoundTrip(b);
    FromLe32RoundTrip(c);
    FromLe32RoundTrip(d);
  }

  // Section 3.4: block after block.
  lemma FoldIs(f: Transform, st: State, b: Text, rest: Text)
    requires |b| == 64 && |rest| % 64 == 0
    ensures Fold(f, st, []) == st
    ensures Fold(f, st, b + rest) == Fold(f, f(st, b), rest)
  {
    assert (b + rest)[..64] == b && (b + rest)[64..] == rest;
  }

  // Section 3.5: the four words, each with its low-order byte first.
  lemma OutputIs(st: State, s: Text)
    ensures s == Output(st) <==>
            && |s| == 16 && Little(s[0..4]) == st.a && Little(s[4..8]) == st.b
            && Little(s[8..12]) == st.c && Little(s[12..16]) == st.d
  {
    hide Little, Le32;
    var o := Output(st);
    assert o[0..4] == Le32(st.a) && o[4..8] == Le32(st.b) && o[8..12] == Le32(st.c) && o[12..16] == Le32(st.d);
    LittleWord(st.a);
    LittleWord(st.b);
    LittleWord(st.c);
    LittleWord(st.d);
    if && |s| == 16 && Little(s[0..4]) == st.a && Little(s[4..8]) == st.b
       && Little(s[8..12]) == st.c && Little(s[12..16]) == st.d {
      LittleDetermines(s[0..4], o[0..4]);
      LittleDetermines(s[4..8], o[4..8]);
      LittleDetermines(s[8..12], o[8..12]);
      LittleDetermines(s[12..16], o[12..16]);
      assert s == s[0..4] + s[4..8] + s[8..12] + s[12..16];
      assert o == o[0..4] + o[4..8] + o[8..12] + o[12..16];
    }
  }

  // What md5_calc leaves in its output, in these terms: with room for all of it,
  // the digest and then what was there before.
  lemma CalcIs(f: Transform, m: Text, p: Text, dst: Text, outputlen: int, st: State)
    requires IsPadded(m, p) && outputlen >= 16 && |dst| >= 16
    requires st == Fold(f, State(1732584193, 4023233417, 2562383102, 271733878), p)
    ensures |dst| >= Encoded(16, outputlen)
    ensures var o := Overlay(dst, Digest(f, m), outputlen);
            && Little(o[0..4]) == st.a && Little(o[4..8]) == st.b
            && Little(o[8..12]) == st.c && Little(o[12..16]) == st.d && o[16..] == dst[16..]
  {
    hide Little, Output, Fold, Pad;
    PaddedIsPad(m, p);
    var d := Output(st);
    OutputIs(st, d);
    var o := Overlay(dst, d, outputlen);
    assert d[..16] == d && o[..16] == d;
    assert o[0..4] == d[0..4] && o[4..8] == d[4..8] && o[8..12] == d[8..12] && o[12..16] == d[12..16];
  }

  // With less room, whole words; with less than a word's, all sixteen bytes.
  lemma RoomFor()
    ensures Encoded(16, 32) == 16 && Encoded(16, 16) == 16 && Encoded(16, 15) == 12 && Encoded(16, 12) == 12
    ensures Encoded(16, 11) == 8 && Encoded(16, 8) == 8 && Encoded(16, 7) == 4 && Encoded(16, 4) == 4
    ensures Encoded(16, 3) == 16 && Encoded(16, 0) == 16 && Encoded(16, -1) == 16
  {
  }
}
