// The message digest of RFC 1321, sections 3.1 to 3.5, over an arbitrary block
// transform, and the incremental context of server/md5.c as a value.
module Md5Spec {
  import opened Bytes

  // The chaining variables A, B, C, D.
  datatype State = State(a: Word, b: Word, c: Word, d: Word)

  // MD5Transform: one block folded into the chaining variables.
  type Transform = (State, Text) -> State

  const BLOCK := 64
  const WORD64: int := 0x1_0000_0000_0000_0000

  const INIT := State(0x67452301, 0xefcdab89, 0x98badcfe, 0x10325476)

  function Fold(f: Transform, st: State, m: Text): State
    requires |m| % BLOCK == 0
    decreases |m|
  {
    if m == [] then st else Fold(f, f(st, m[..BLOCK]), m[BLOCK..])
  }

  lemma {:induction false} FoldAppend(f: Transform, st: State, a: Text, b: Text)
    requires |a| % BLOCK == 0 && |b| % BLOCK == 0
    ensures Fold(f, st, a + b) == Fold(f, Fold(f, st, a), b)
    decreases |a|
  {
    if a == [] {
      assert a + b == b;
    } else {
      assert (a + b)[..BLOCK] == a[..BLOCK] && (a + b)[BLOCK..] == a[BLOCK..] + b;
      FoldAppend(f, f(st, a[..BLOCK]), a[BLOCK..], b);
    }
  }

  // ---- RFC 1321 ----

  // Section 3.1: a 1 bit, then 0 bits up to 56 bytes modulo 64; at least one
  // bit and at most 512.
  function PadLen(n: nat): (p: nat)
    ensures 1 <= p <= BLOCK && (n + p) % BLOCK == 56 && (n + p + 8) % BLOCK == 0
  {
    var r := n % BLOCK;
    if r < 56 then 56 - r else 120 - r
  }

  function Padding(p: nat): (s: Text)
    requires 1 <= p <= BLOCK
    ensures |s| == p
  {
    [0x80] + seq(p - 1, _ => 0)
  }

  // Section 3.2: the bit length before padding, as two words, low word first.
  function LengthWords(n: nat): (s: Text)
    ensures |s| == 8
  {
    Le32(8 * n % WORD) + Le32(8 * n / WORD % WORD)
  }

  function Pad(m: Text): (p: Text)
    ensures |p| == |m| + PadLen(|m|) + 8 && |p| % BLOCK == 0
  {
    hide PadLen;
    m + Padding(PadLen(|m|)) + LengthWords(|m|)
  }

  // Section 3.5: A, B, C, D, low-order byte first.
  function Output(st: State): (s: Text)
    ensures |s| == 16
  {
    Le32(st.a) + Le32(st.b) + Le32(st.c) + Le32(st.d)
  }

  function Digest(f: Transform, m: Text): (s: Text)
    ensures |s| == 16
  {
    Output(Fold(f, INIT, Pad(m)))
  }

  // ---- The context as a value ----

  // Chaining variables, the two-word bit counter, and the bytes of the buffer
  // that are waiting for a full block.
  datatype Ctx = Ctx(state: State, count0: Word, count1: Word, live: Text)

  // The context that has taken in exactly the message m.
  function CtxOf(f: Transform, m: Text): Ctx {
    var n := |m| - |m| % BLOCK;
    Ctx(Fold(f, INIT, m[..n]), 8 * |m| % WORD, 8 * |m| / WORD % WORD, m[n..])
  }

  // The counter is 64-bit addition: the two words are the bit count modulo 2^64.
  lemma CounterIsBitCount(f: Transform, m: Text)
    ensures CtxOf(f, m).count1 * WORD + CtxOf(f, m).count0 == 8 * |m| % WORD64
  {
    var n := 8 * |m|;
    SplitMod(n);
  }

  lemma SplitMod(n: nat)
    ensures n / WORD % WORD * WORD + n % WORD == n % WORD64
  {
    var q, r := n / WORD, n % WORD;
    var q2, r2 := q / WORD, q % WORD;
    assert n == q2 * WORD64 + (r2 * WORD + r);
  }

  // Taking in more input.
  function Absorb(f: Transform, c: Ctx, input: Text): Ctx {
    var t := c.live + input;
    var n := |t| - |t| % BLOCK;
    var bits := c.count0 + 8 * |input|;
    Ctx(Fold(f, c.state, t[..n]), bits % WORD, (c.count1 + bits / WORD) % WORD, t[n..])
  }

  lemma AbsorbIsAppend(f: Transform, m: Text, input: Text)
    ensures Absorb(f, CtxOf(f, m), input) == CtxOf(f, m + input)
  {
    AbsorbedText(f, m, input);
    hide Fold, CtxOf;
    CounterAdds(8 * |m|, 8 * |input|);
    CtxCounter(f, m);
    CtxCounter(f, m + input);
    assert |m + input| == |m| + |input|;
  }

  lemma CtxCounter(f: Transform, m: Text)
    ensures CtxOf(f, m).count0 == 8 * |m| % WORD && CtxOf(f, m).count1 == 8 * |m| / WORD % WORD
  {
  }

  lemma AbsorbedText(f: Transform, m: Text, input: Text)
    ensures var d, e := Absorb(f, CtxOf(f, m), input), CtxOf(f, m + input);
            d.state == e.state && d.live == e.live
  {
    hide Fold;
    var n := |m| - |m| % BLOCK;
    var t := m[n..] + input;
    var k := |t| - |t| % BLOCK;
    FloorAdd(|m|, |input|);
    assert (m + input)[..n + k] == m[..n] + t[..k] && (m + input)[n + k..] == t[k..];
    FoldAppend(f, INIT, m[..n], t[..k]);
  }

  lemma FloorAdd(a: nat, b: nat)
    ensures (a + b) - (a + b) % BLOCK == (a - a % BLOCK) + ((a % BLOCK + b) - (a % BLOCK + b) % BLOCK)
  {
  }

  lemma CounterAdds(a: nat, b: nat)
    ensures (a % WORD + b) % WORD == (a + b) % WORD
    ensures (a / WORD % WORD + (a % WORD + b) / WORD) % WORD == (a + b) / WORD % WORD
  {
    var q, r := a / WORD, a % WORD;
    assert a == q * WORD + r;
    AddWords(r + b, q);
    AddWordsMod(q, (r + b) / WORD);
  }

  lemma AddWords(x: nat, q: nat)
    ensures (q * WORD + x) / WORD == q + x / WORD && (q * WORD + x) % WORD == x % WORD
  {
  }

  lemma AddWordsMod(x: nat, y: nat)
    ensures (x % WORD + y) % WORD == (x + y) % WORD
  {
    AddWords(x % WORD + y, x / WORD);
  }

  // The two-word addition of MD5Update: the bit length is shifted out of 32
  // bits, its top three bits are added separately, and the carry is found by
  // comparing the sum with what was added.
  lemma CarryIsAddition(count0: Word, count1: Word, n: Word)
    ensures var shifted := n * 8 % WORD;
            var sum := (count0 + shifted) % WORD;
            var carried := if sum < shifted then (count1 + 1) % WORD else count1;
            && sum == (count0 + 8 * n) % WORD
            && (carried + n / 0x2000_0000) % WORD == (count1 + (count0 + 8 * n) / WORD) % WORD
  {
    var shifted, top := n * 8 % WORD, n / 0x2000_0000;
    assert 8 * n == top * WORD + shifted;
    AddWords(count0 + shifted, top);
    var carry := (count0 + shifted) / WORD;
    assert carry == if (count0 + shifted) % WORD < shifted then 1 else 0;
    AddWordsMod(count1 + carry, top);
  }

  // Where the live bytes end after an update.
  lemma IndexAfter(count0: Word, n: nat)
    ensures (count0 + 8 * n) % WORD / 8 % BLOCK == (count0 / 8 % BLOCK + n) % BLOCK
  {
    var x, k := count0 + 8 * n, (count0 + 8 * n) / WORD;
    assert x % WORD == x - WORD * k;
    assert x / 8 == count0 / 8 + n;
    assert (x - WORD * k) / 8 == x / 8 - 0x2000_0000 * k;
    MultipleGone(x / 8, -0x80_0000 * k);
    MultipleGone(count0 / 8 % BLOCK + n, count0 / 8 / BLOCK);
  }

  lemma MultipleGone(y: int, m: int)
    ensures (y + BLOCK * m) % BLOCK == y % BLOCK
  {
    var q, r := y / BLOCK, y % BLOCK;
    assert y + BLOCK * m == BLOCK * (q + m) + r;
  }

  // ---- Folding block by block ----

  lemma FirstBlock(f: Transform, st: State, t: Text)
    requires |t| >= BLOCK
    ensures Fold(f, st, t[..BLOCK]) == f(st, t[..BLOCK])
  {
    var b := t[..BLOCK];
    assert b[..BLOCK] == b && b[BLOCK..] == [];
  }

  lemma NextBlock(f: Transform, st: State, t: Text, n: nat)
    requires n % BLOCK == 0 && n + BLOCK <= |t|
    ensures Fold(f, st, t[..n + BLOCK]) == f(Fold(f, st, t[..n]), t[n..n + BLOCK])
  {
    assert t[..n + BLOCK] == t[..n] + t[n..n + BLOCK];
    FoldAppend(f, st, t[..n], t[n..n + BLOCK]);
    FirstBlock(f, Fold(f, st, t[..n]), t[n..n + BLOCK]);
    assert t[n..n + BLOCK][..BLOCK] == t[n..n + BLOCK];
  }

  lemma AbsorbCounter(f: Transform, c: Ctx, input: Text)
    ensures var d := Absorb(f, c, input);
            && d.count0 == (c.count0 + 8 * |input|) % WORD
            && d.count1 == (c.count1 + (c.count0 + 8 * |input|) / WORD) % WORD
  {
    hide Fold;
  }

  lemma FoldNothing(f: Transform, st: State)
    ensures Fold(f, st, []) == st
  {
  }

  lemma AbsorbDone(f: Transform, c: Ctx, input: Text, n: nat)
    requires n % BLOCK == 0 && n <= |c.live + input| < n + BLOCK
    ensures var t := c.live + input;
            var d := Absorb(f, c, input);
            d.state == Fold(f, c.state, t[..n]) && d.live == t[n..]
  {
    hide Fold;
    WholeBlocks(|c.live + input|, n);
  }

  lemma WholeBlocks(len: nat, n: nat)
    requires n % BLOCK == 0 && n <= len < n + BLOCK
    ensures len - len % BLOCK == n
  {
  }

  // ---- Any way of cutting a message into updates gives the same context ----

  function AbsorbAll(f: Transform, c: Ctx, chunks: seq<Text>): Ctx
    decreases |chunks|
  {
    if chunks == [] then c else AbsorbAll(f, Absorb(f, c, chunks[0]), chunks[1..])
  }

  function Concat(chunks: seq<Text>): Text {
    if chunks == [] then [] else chunks[0] + Concat(chunks[1..])
  }

  lemma {:induction false} ChunksDoNotMatter(f: Transform, m: Text, chunks: seq<Text>)
    ensures AbsorbAll(f, CtxOf(f, m), chunks) == CtxOf(f, m + Concat(chunks))
    decreases |chunks|
  {
    hide Absorb, CtxOf;
    if chunks == [] {
      assert m + [] == m;
    } else {
      AbsorbIsAppend(f, m, chunks[0]);
      ChunksDoNotMatter(f, m + chunks[0], chunks[1..]);
      assert m + chunks[0] + Concat(chunks[1..]) == m + Concat(chunks);
    }
  }

  // ---- Finishing ----

  // What MD5Final feeds in, given only the context: padding by the counter's
  // byte index, then the counter as it was.
  function Finish(f: Transform, c: Ctx): Ctx {
    var index := c.count0 / 8 % BLOCK;
    var padLen := if index < 56 then 56 - index else 120 - index;
    Absorb(f, Absorb(f, c, Padding(padLen)), Le32(c.count0) + Le32(c.count1))
  }

  // Finishing the context of a message digests the padded message: the padding
  // lands on 56 modulo 64, the length is the one before padding, and nothing
  // is left in the buffer.
  lemma FinishDigests(f: Transform, m: Text)
    ensures Output(Finish(f, CtxOf(f, m)).state) == Digest(f, m)
    ensures Finish(f, CtxOf(f, m)).live == []
  {
    hide Fold, Absorb, Output, Padding, Le32;
    var c := CtxOf(f, m);
    var index := c.count0 / 8 % BLOCK;
    assert index == |m| % BLOCK by { IndexIsLength(|m|); }
    var padded := m + Padding(PadLen(|m|));
    AbsorbIsAppend(f, m, Padding(PadLen(|m|)));
    AbsorbIsAppend(f, padded, LengthWords(|m|));
    assert padded + LengthWords(|m|) == Pad(m);
    WholeMessage(f, Pad(m));
  }

  lemma IndexIsLength(n: nat)
    ensures 8 * n % WORD / 8 % BLOCK == n % BLOCK
  {
    var q, r := n / 0x2000_0000, n % 0x2000_0000;
    assert n == q * 0x2000_0000 + r;
    LowBits(q, r);
    LowIndex(q, r);
  }

  lemma LowBits(q: nat, r: nat)
    requires r < 0x2000_0000
    ensures 8 * (q * 0x2000_0000 + r) % WORD / 8 == r
  {
    assert 8 * (q * 0x2000_0000 + r) == q * WORD + 8 * r;
  }

  lemma LowIndex(q: nat, r: nat)
    ensures (q * 0x2000_0000 + r) % BLOCK == r % BLOCK
  {
    PlusBlocks(q * 0x80_0000, r);
  }

  lemma PlusBlocks(k: nat, r: nat)
    ensures (k * 64 + r) % 64 == r % 64
  {
  }

  lemma WholeMessage(f: Transform, m: Text)
    requires |m| % BLOCK == 0
    ensures CtxOf(f, m).state == Fold(f, INIT, m) && CtxOf(f, m).live == []
  {
    assert m[..|m|] == m;
  }

  // ---- Writing the digest out ----

  function Bytes4(words: seq<Word>): (s: Text)
    ensures |s| == 4 * |words|
  {
    if words == [] then [] else Bytes4(words[..|words| - 1]) + Le32(words[|words| - 1])
  }

  // How many bytes Encode writes: whole words that fit.  The test of the
  // position against outputlen - 4 is unsigned, so a room of less than four
  // bytes is no limit at all.
  function Encoded(len: nat, outputlen: int): nat {
    if 4 <= outputlen < len then outputlen / 4 * 4 else len
  }

  // dst with its first bytes overwritten by what Encode writes of src.
  function Overlay(dst: Text, src: Text, outputlen: int): Text
    requires |dst| >= Encoded(|src|, outputlen)
  {
    var n := Encoded(|src|, outputlen);
    src[..n] + dst[n..]
  }
}
