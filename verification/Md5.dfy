// server/md5.c: the incremental context with its 64-byte buffer and two-word
// bit counter, for an arbitrary MD5Transform.
module Md5 {
  import opened Bytes
  import opened Md5Spec

  // The transform loop tests i + 63 < inputLen in 32-bit arithmetic.  It stops
  // at the last whole block unless that sum wraps, which takes a partly filled
  // buffer and more input than is left of the 32-bit range.
  predicate NoOverrun(index: nat, inputLen: nat) {
    inputLen < WORD && (index == 0 || index + inputLen < WORD)
  }

  // The guard is still true after the last whole block exactly when the
  // condition fails: the loop would then read past the input.
  lemma OverrunExactly(index: nat, inputLen: nat, i: nat)
    requires index < BLOCK && BLOCK - index <= inputLen < WORD
    requires i <= inputLen < i + BLOCK && (i + index) % BLOCK == 0
    ensures (i + 63) % WORD < inputLen <==> !NoOverrun(index, inputLen)
  {
    var k := (i + index) / BLOCK;
    assert i + index == BLOCK * k;
    if index == 0 || index + inputLen < WORD {
      assert i + 63 < WORD;
    } else {
      assert BLOCK * k == WORD;
    }
  }

  // One byte in the buffer and 2^32 - 1 more are enough: all of the input has been
  // transformed, and the guard still holds.
  lemma OverrunHappens()
    ensures var index, inputLen := 1, WORD - 1;
            && (inputLen + index) % BLOCK == 0
            && (inputLen + 63) % WORD < inputLen && !NoOverrun(index, inputLen)
  {
  }

  lemma RestIndex(index: nat, inputLen: nat, i: nat)
    requires i <= inputLen < i + BLOCK && (index + i) % BLOCK == 0
    ensures (index + inputLen) % BLOCK == inputLen - i
  {
  }

  lemma NoWrapBefore(index: nat, inputLen: nat, i: nat)
    requires inputLen < WORD && (i + 63) % WORD >= inputLen && i <= inputLen
    ensures inputLen < i + BLOCK
  {
  }

  // Encode: words out low-order byte first, as many as there is room for.
  method Encode(output: array<Byte>, input: seq<Word>, len: nat, outputlen: int)
    requires len == 4 * |input| && len <= 16 && -WORD / 2 <= outputlen < WORD / 2
    requires output.Length >= Encoded(len, outputlen)
    modifies output
    ensures output[..] == Overlay(old(output[..]), Bytes4(input), outputlen)
  {
    hide Bytes4, Le32;
    var i, j := 0, 0;
    ghost var was := output[..];
    var limit := (outputlen - 4) % WORD;
    while j < len && j <= limit
      invariant j == 4 * i && j <= Encoded(len, outputlen)
      invariant output[..j] == Bytes4(input[..i])
      invariant output[j..] == was[j..]
      decreases len - j
    {
      assert output[j + 4..] == output[j..][4..] && was[j + 4..] == was[j..][4..];
      PutWord(output, j, input[i]);
      BytesNext(input, i);
      i, j := i + 1, j + 4;
    }
    BytesPrefix(input, i);
  }

  method PutWord(output: array<Byte>, j: nat, w: Word)
    requires j + 4 <= output.Length
    modifies output
    ensures output[..j + 4] == old(output[..j]) + Le32(w)
    ensures output[j + 4..] == old(output[j + 4..])
  {
    hide Le32;
    var b0, b1, b2, b3 := WordBytes(w);
    output[j], output[j + 1], output[j + 2], output[j + 3] := b0, b1, b2, b3;
    assert output[..j + 4] == output[..j] + output[j..j + 4];
  }

  method WordBytes(w: Word) returns (b0: Byte, b1: Byte, b2: Byte, b3: Byte)
    ensures [b0, b1, b2, b3] == Le32(w)
  {
    b0 := w % 0x100;
    b1 := w / 0x100 % 0x100;
    b2 := w / 0x1_0000 % 0x100;
    b3 := w / 0x100_0000 % 0x100;
  }

  lemma BytesNext(words: seq<Word>, i: nat)
    requires i < |words|
    ensures Bytes4(words[..i + 1]) == Bytes4(words[..i]) + Le32(words[i])
  {
    assert words[..i + 1][..i] == words[..i];
  }

  lemma {:induction false} BytesPrefix(words: seq<Word>, i: nat)
    requires i <= |words|
    ensures Bytes4(words)[..4 * i] == Bytes4(words[..i])
  {
    if i == |words| {
      assert words[..i] == words;
    } else {
      BytesPrefix(words[..|words| - 1], i);
      assert words[..|words| - 1][..i] == words[..i];
    }
  }

  // Decode: the words that Encode would write as these bytes.
  method Decode(output: array<Word>, input: Text, len: nat)
    requires len % 4 == 0 && len <= |input| && len <= 4 * output.Length
    modifies output
    ensures Bytes4(output[..len / 4]) == input[..len]
    ensures output[len / 4..] == old(output[len / 4..])
  {
    hide Bytes4, Le32, FromLe32;
    var i, j := 0, 0;
    ghost var was := output[..];
    NoWords();
    while j < len
      invariant j == 4 * i && j <= len
      invariant Bytes4(output[..i]) == input[..j]
      invariant output[i..] == was[i..]
    {
      ghost var words := output[..i];
      output[i] := FromLe32(input[j..j + 4]);
      FromLe32RoundTrip(input[j..j + 4]);
      assert output[..i] == words;
      assert output[..i + 1] == words + [output[i]];
      assert output[i + 1..] == was[i..][1..];
      BytesSnoc(words, output[i]);
      assert input[..j + 4] == input[..j] + input[j..j + 4];
      i, j := i + 1, j + 4;
    }
  }

  lemma BytesSnoc(words: seq<Word>, w: Word)
    ensures Bytes4(words + [w]) == Bytes4(words) + Le32(w)
  {
    assert (words + [w])[..|words|] == words;
  }

  lemma NoWords()
    ensures Bytes4([]) == []
  {
  }

  // Different words are written as different bytes, so Decode undoes Encode.
  lemma {:induction false} BytesDetermineWords(a: seq<Word>, b: seq<Word>)
    requires Bytes4(a) == Bytes4(b)
    ensures a == b
  {
    hide Le32;
    assert |Bytes4(a)| == |Bytes4(b)|;
    if a != [] {
      var n := |a| - 1;
      assert Le32(a[n]) == Bytes4(a)[4 * n..] == Bytes4(b)[4 * n..] == Le32(b[n]);
      Le32RoundTrip(a[n]);
      Le32RoundTrip(b[n]);
      assert Bytes4(a[..n]) == Bytes4(a)[..4 * n] == Bytes4(b)[..4 * n] == Bytes4(b[..n]);
      BytesDetermineWords(a[..n], b[..n]);
      assert a == a[..n] + [a[n]] && b == b[..n] + [b[n]];
    }
  }

  class Md5Ctx {
    const transform: Transform
    var state: State
    var count0: Word
    var count1: Word
    var buffer: array<Byte>

    ghost predicate Valid()
      reads this
    {
      buffer.Length == BLOCK
    }

    function Index(): (i: nat)
      reads this
      ensures i < BLOCK
    {
      count0 / 8 % BLOCK
    }

    ghost function Value(): Ctx
      reads this, buffer
      requires Valid()
    {
      Ctx(state, count0, count1, buffer[..Index()])
    }

    constructor (f: Transform)
      ensures Valid() && fresh(buffer) && transform == f
    {
      transform := f;
      state := State(0, 0, 0, 0);
      count0, count1 := 0, 0;
      buffer := new Byte[BLOCK];
    }

    // MD5Init; the buffer is left as it is.
    method Init()
      requires Valid()
      modifies this
      ensures Valid() && buffer == old(buffer) && Value() == CtxOf(transform, [])
    {
      count0, count1 := 0, 0;
      state := INIT;
      assert buffer[..0] == [];
    }

    method Update(input: Text)
      requires Valid() && NoOverrun(Index(), |input|)
      modifies this, buffer
      ensures Valid() && buffer == old(buffer)
      ensures Value() == Absorb(transform, old(Value()), input)
    {
      hide Fold, Absorb;
      ghost var c := Value();
      var index := Index();
      CountBits(|input|);
      AbsorbCounter(transform, c, input);
      assert Index() == (index + |input|) % BLOCK by { IndexAfter(c.count0, |input|); }
      hide Index;
      var i;
      index, i := Consume(c, index, input);
      Memcpy(index, input[i..]);
    }

    // The middle of MD5Update: transforms as many times as possible, and says
    // from where to copy what remains, and to where.
    method Consume(ghost c: Ctx, index: nat, input: Text) returns (index': nat, i: nat)
      requires Valid() && index < BLOCK && NoOverrun(index, |input|)
      requires c.state == state && c.live == buffer[..index]
      modifies this`state, buffer
      ensures state == Absorb(transform, c, input).state
      ensures i <= |input| && index' + |input| - i == (index + |input|) % BLOCK
      ensures buffer[..index'] + input[i..] == Absorb(transform, c, input).live
    {
      hide Fold, Absorb, NoOverrun;
      ghost var t := c.live + input;
      if |input| >= 64 - index {
        i := TransformBlocks(index, input);
        assert input[i..] == t[index + i..];
        AbsorbDone(transform, c, input, index + i);
        RestIndex(index, |input|, i);
        index' := 0;
      } else {
        AbsorbDone(transform, c, input, 0);
        FoldNothing(transform, state);
        assert t[..0] == [];
        index', i := index, 0;
      }
    }

    // The bit counter of MD5Update.
    method CountBits(inputLen: Word)
      modifies this`count0, this`count1
      ensures count0 == (old(count0) + 8 * inputLen) % WORD
      ensures count1 == (old(count1) + (old(count0) + 8 * inputLen) / WORD) % WORD
    {
      CarryIsAddition(count0, count1, inputLen);
      var shifted := inputLen * 8 % WORD;
      count0 := (count0 + shifted) % WORD;
      if count0 < shifted {
        count1 := (count1 + 1) % WORD;
      }
      count1 := (count1 + inputLen / 0x2000_0000) % WORD;
    }

    // The transforms of MD5Update: the buffer filled up, then whole blocks
    // straight from the input.  Returns how much input was used.
    method TransformBlocks(index: nat, input: Text) returns (i: nat)
      requires Valid() && index < BLOCK && |input| >= BLOCK - index && NoOverrun(index, |input|)
      modifies this`state, buffer
      ensures i <= |input| < i + BLOCK && (index + i) % BLOCK == 0
      ensures state == Fold(transform, old(state), (old(buffer[..index]) + input)[..index + i])
    {
      hide Fold;
      ghost var st := state;
      ghost var t := buffer[..index] + input;
      var inputLen := |input|;
      var partLen := 64 - index;
      Memcpy(index, input[..partLen]);
      assert buffer[..] == buffer[..index + partLen] == t[..BLOCK];
      FirstBlock(transform, st, t);
      state := transform(state, buffer[..]);
      i := partLen;
      while (i + 63) % WORD < inputLen
        invariant partLen <= i <= inputLen && (index + i) % BLOCK == 0
        invariant state == Fold(transform, st, t[..index + i])
        decreases inputLen - i
      {
        if i + BLOCK > inputLen {
          OverrunExactly(index, inputLen, i);
        }
        NextBlock(transform, st, t, index + i);
        assert input[i..i + BLOCK] == t[index + i..index + i + BLOCK];
        state := transform(state, input[i..i + BLOCK]);
        i := i + BLOCK;
      }
      NoWrapBefore(index, inputLen, i);
    }

    // memcpy into the buffer.
    method Memcpy(at: nat, bytes: Text)
      requires Valid() && at + |bytes| <= BLOCK
      modifies buffer
      ensures buffer[..at + |bytes|] == old(buffer[..at]) + bytes
    {
      forall j | 0 <= j < |bytes| {
        buffer[at + j] := bytes[j];
      }
    }

    // MD5Final.
    method Final(digest: array<Byte>, digestlen: int)
      requires Valid() && digest != buffer && -WORD / 2 <= digestlen < WORD / 2
      requires digest.Length >= Encoded(16, digestlen)
      modifies this, buffer, digest
      ensures digest[..] == Overlay(old(digest[..]), Output(Finish(transform, old(Value())).state), digestlen)
      ensures Valid() && buffer == old(buffer)
      ensures state == State(0, 0, 0, 0) && count0 == 0 && count1 == 0
      ensures forall j :: 0 <= j < BLOCK ==> buffer[j] == 0
    {
      hide Finish, Output, Overlay, Bytes4, Encoded;
      PadOut();
      WordsOut4(state);
      Encode(digest, [state.a, state.b, state.c, state.d], 16, digestlen);
      Zeroize();
    }

    // The padding, and then the length before it.
    method PadOut()
      requires Valid()
      modifies this, buffer
      ensures Valid() && buffer == old(buffer) && Value() == Finish(transform, old(Value()))
    {
      hide Absorb, Overlay, Bytes4, Padding, Encoded;
      var bits := new Byte[8];
      WordsOut(bits[..], [count0, count1], 8);
      EncodedFits(8, 8);
      Encode(bits, [count0, count1], 8, 8);
      var index := count0 / 8 % 64;
      var padLen := if index < 56 then 56 - index else 120 - index;
      Update(Padding(padLen));
      Update(bits[..]);
    }

    // memset of the whole context.
    method Zeroize()
      requires Valid()
      modifies this, buffer
      ensures Valid() && buffer == old(buffer)
      ensures state == State(0, 0, 0, 0) && count0 == 0 && count1 == 0
      ensures forall j :: 0 <= j < BLOCK ==> buffer[j] == 0
    {
      state := State(0, 0, 0, 0);
      count0, count1 := 0, 0;
      forall j | 0 <= j < BLOCK {
        buffer[j] := 0;
      }
    }
  }

  lemma EncodedFits(len: nat, outputlen: int)
    ensures outputlen >= len ==> Encoded(len, outputlen) == len
  {
  }

  lemma WordsOut(dst: Text, words: seq<Word>, outputlen: int)
    requires |words| == 2 && outputlen == 8 && |dst| == 8
    ensures Encoded(8, 8) == 8 && Overlay(dst, Bytes4(words), outputlen) == Le32(words[0]) + Le32(words[1])
  {
    hide Le32;
    assert words[..1][..0] == [] && words[..1] == [words[0]];
    assert Bytes4(words[..1]) == [] + Le32(words[0]);
  }

  lemma WordsOut4(st: State)
    ensures Bytes4([st.a, st.b, st.c, st.d]) == Output(st)
  {
    hide Le32;
    var words := [st.a, st.b, st.c, st.d];
    assert words[..3] == [st.a, st.b, st.c] && words[..3][..2] == [st.a, st.b] && [st.a, st.b][..1] == [st.a];
    assert [st.a][..0] == [];
    assert Bytes4([st.a]) == [] + Le32(st.a);
    assert Bytes4([st.a, st.b]) == Le32(st.a) + Le32(st.b);
    assert Bytes4([st.a, st.b, st.c]) == Le32(st.a) + Le32(st.b) + Le32(st.c);
  }

  // md5_calc: for every input of up to 2^32 - 1 bytes the output starts with
  // the digest of the input, as far as whole words of it fit, and the rest of
  // the output is unchanged.
  method Md5Calc(f: Transform, output: array<Byte>, input: Text, outputlen: int)
    requires |input| < WORD && -WORD / 2 <= outputlen < WORD / 2
    requires output.Length >= Encoded(16, outputlen)
    modifies output
    ensures output[..] == Overlay(old(output[..]), Digest(f, input), outputlen)
  {
    hide Absorb, CtxOf, Digest, Finish, Overlay, Output;
    var context := new Md5Ctx(f);
    context.Init();
    EmptyIndex(context);
    context.Update(input);
    AbsorbIsAppend(f, [], input);
    assert [] + input == input;
    context.Final(output, outputlen);
    FinishDigests(f, input);
  }

  lemma EmptyIndex(ctx: Md5Ctx)
    requires ctx.Valid() && ctx.Value() == CtxOf(ctx.transform, [])
    ensures ctx.Index() == 0
  {
    CtxCounter(ctx.transform, []);
  }
}
