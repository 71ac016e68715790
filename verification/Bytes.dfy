// Bytes, 32-bit words and the byte orders nastd uses: little-endian words in
// CDB images and MD5 digests, big-endian shorts in the wire protocol.
module Bytes {

  type Byte = x: int | 0 <= x < 0x100

  const WORD: int := 0x1_0000_0000

  type Word = x: int | 0 <= x < 0x1_0000_0000

  type Short = x: int | 0 <= x < 0x1_0000

  type Text = seq<Byte>

  // Byte i of the memory that starts with t: whatever follows t is some `after'.
  function ByteAt(t: Text, after: nat -> Byte, i: nat): Byte {
    if i < |t| then t[i] else after(i)
  }

  // Bytes p to p + n of that memory.
  function BytesAt(t: Text, after: nat -> Byte, p: nat, n: nat): (s: Text)
    ensures |s| == n && forall i :: 0 <= i < n ==> s[i] == ByteAt(t, after, p + i)
    ensures p + n <= |t| ==> s == t[p..p + n]
  {
    if n == 0 then [] else BytesAt(t, after, p, n - 1) + [ByteAt(t, after, p + n - 1)]
  }

  // What a conversion to a signed 32-bit int makes of a length.
  function Int32(n: nat): (r: int)
    ensures -0x8000_0000 <= r < 0x8000_0000 && (r - n) % WORD == 0
  {
    (n + 0x8000_0000) % WORD - 0x8000_0000
  }

  function Le32(w: Word): (s: seq<Byte>)
    ensures |s| == 4
  {
    [w % 0x100, w / 0x100 % 0x100, w / 0x1_0000 % 0x100, w / 0x100_0000]
  }

  function FromLe32(s: seq<Byte>): Word
    requires |s| == 4
  {
    var b0: int, b1: int, b2: int, b3: int := s[0], s[1], s[2], s[3];
    b0 + 0x100 * b1 + 0x1_0000 * b2 + 0x100_0000 * b3
  }

  lemma Le32RoundTrip(w: Word)
    ensures FromLe32(Le32(w)) == w
  {
    var a, b := w / 0x100, w / 0x1_0000;
    assert a / 0x100 == b && b / 0x100 == w / 0x100_0000;
    assert w == 0x100 * a + w % 0x100;
    assert a == 0x100 * b + a % 0x100;
    assert b == 0x100 * (b / 0x100) + b % 0x100;
  }

  lemma FromLe32RoundTrip(s: seq<Byte>)
    requires |s| == 4
    ensures Le32(FromLe32(s)) == s
  {
    var b0, b1, b2, b3 := s[0], s[1], s[2], s[3];
    DigitsOf(b0, b1, b2, b3);
    assert Le32(FromLe32(s)) == [b0, b1, b2, b3];
  }

  lemma DigitsOf(b0: int, b1: int, b2: int, b3: int)
    requires 0 <= b0 < 0x100 && 0 <= b1 < 0x100 && 0 <= b2 < 0x100 && 0 <= b3 < 0x100
    ensures var w := b0 + 0x100 * b1 + 0x1_0000 * b2 + 0x100_0000 * b3;
            && w % 0x100 == b0 && w / 0x100 % 0x100 == b1
            && w / 0x1_0000 % 0x100 == b2 && w / 0x100_0000 == b3
  {
    var w := b0 + 0x100 * b1 + 0x1_0000 * b2 + 0x100_0000 * b3;
    assert w / 0x100 == b1 + 0x100 * b2 + 0x1_0000 * b3;
    assert w / 0x1_0000 == b2 + 0x100 * b3;
    assert w / 0x100_0000 == b3;
  }

  function Be16(n: Short): (s: seq<Byte>)
    ensures |s| == 2
  {
    [n / 0x100, n % 0x100]
  }

  function FromBe16(s: seq<Byte>): Short
    requires |s| == 2
  {
    var hi: int, lo: int := s[0], s[1];
    0x100 * hi + lo
  }

  lemma Be16RoundTrip(n: Short)
    ensures FromBe16(Be16(n)) == n
  {
    assert n == 0x100 * (n / 0x100) + n % 0x100;
  }
}
