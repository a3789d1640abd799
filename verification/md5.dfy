/** MD5, a piece of the message at a time.  The compression function is left open. */
module Md5Digest {
  import opened Basics
  import opened Hashing

  const INIT: State := [0x67452301, 0xefcdab89, 0x98badcfe, 0x10325476]

  /** The digest as bytes. */
  function Output(d: State): Bytes
    decreases |d|
  {
    if d == [] then [] else LeBytes(d[0] % WORD, 4) + Output(d[1..])
  }

  /** Four bytes a word, which stand for it with the lowest first. */
  lemma {:induction false} OutputExact(d: State, i: nat)
    requires i < |d|
    ensures |Output(d)| == 4 * |d| && LeValue(Output(d)[4 * i..4 * i + 4]) == d[i] % WORD
    decreases |d|
  {
    hide LeBytes, LeValue;
    var head, rest := LeBytes(d[0] % WORD, 4), Output(d[1..]);
    OutputLength(d[1..]);
    if i == 0 {
      assert Output(d)[..4] == head && Pow256(4) == WORD;
      LeExact(d[0] % WORD, 4);
    } else {
      OutputExact(d[1..], i - 1);
      assert Output(d)[4 * i..4 * i + 4] == rest[4 * (i - 1)..4 * (i - 1) + 4];
    }
  }

  lemma {:induction false} OutputLength(d: State)
    ensures |Output(d)| == 4 * |d|
    decreases |d|
  {
    if d != [] {
      OutputLength(d[1..]);
    }
  }

  /** The last eight bytes of a padded message stand for its length in bits. */
  lemma {:induction false} LengthAtEnd(m: Bytes)
    ensures var p := Padded(m, LeBytes(Bits(m), 8));
            |p| >= 8 && LeValue(p[|p| - 8..]) == 8 * |m| % 0x1_0000_0000_0000_0000
  {
    hide LeBytes, LeValue;
    PaddedExact(m, LeBytes(Bits(m), 8), 0);
    assert Pow256(8) == WORD * WORD;
    LeExact(Bits(m), 8);
  }

  /** The hash of a message padded as in sections 3.1 and 3.2 of RFC 1321. */
  function Md5(f: Compress, m: Bytes): Bytes {
    Output(Fold(f, INIT, Padded(m, LeBytes(Bits(m), 8))))
  }

  /** `PADDING` */
  function Padding(): (r: Bytes)
    ensures |r| == BLOCK
  {
    [0x80] + Zeros(63)
  }

  /** The index after the last whole block of an input that comes when `idx` bytes are waiting. */
  function LastIndex(idx: nat, len: nat): nat
    requires idx < BLOCK && len >= BLOCK - idx
  {
    len - (idx + len) % BLOCK
  }

  /** The test at the head of the block loop, on a 32-bit index. */
  predicate GoesOn(i: nat, len: nat) {
    (i + 63) % WORD < len
  }

  /** The test is right for every index that the loop comes to, and the loop ends, if and only if the last of them is
      not in the last 63 places of a 32-bit number. */
  lemma {:induction false} LoopTest(idx: nat, len: nat)
    requires idx < BLOCK && BLOCK - idx <= len < WORD * WORD
    ensures (forall i: nat | i <= LastIndex(idx, len) && (idx + i) % BLOCK == 0 :: GoesOn(i, len) <==> i + BLOCK <= len)
       <==> LastIndex(idx, len) <= WORD - BLOCK
  {
    var last := LastIndex(idx, len);
    LastIsMultiple(idx, len);
    if last <= WORD - BLOCK {
      forall i: nat | i <= last && (idx + i) % BLOCK == 0
        ensures GoesOn(i, len) <==> i + BLOCK <= len
      {
        assert (i + 63) % WORD == i + 63;
      }
    } else {
      LateIndex(idx, len);
    }
  }

  lemma {:induction false} LastIsMultiple(idx: nat, len: nat)
    requires idx < BLOCK && len >= BLOCK - idx
    ensures (idx + LastIndex(idx, len)) % BLOCK == 0 && LastIndex(idx, len) <= len < LastIndex(idx, len) + BLOCK
  {
    assert idx + LastIndex(idx, len) == idx + len - (idx + len) % BLOCK;
  }

  /** An index that the loop comes to, and where its test is wrong. */
  lemma {:induction false} LateIndex(idx: nat, len: nat)
    requires idx < BLOCK && BLOCK - idx <= len && LastIndex(idx, len) > WORD - BLOCK
    ensures exists i: nat | i <= LastIndex(idx, len) && (idx + i) % BLOCK == 0 ::
            !(GoesOn(i, len) <==> i + BLOCK <= len)
  {
    var i := LastIndex(idx, len);
    LastIsMultiple(idx, len);
    assert i < WORD ==> (i + 63) % WORD == i + 63 - WORD;
    assert GoesOn(i, len) && !(i + BLOCK <= len);
  }

  /** One byte that is waiting and a call with 2^32 - 1 more: the last index is the number of bytes, and the loop goes
      on. */
  lemma {:induction false} LoopOverruns()
    ensures LastIndex(1, WORD - 1) == WORD - 1 && GoesOn(WORD - 1, WORD - 1)
  {
    assert WORD % BLOCK == 0;
  }

  /** `apr_md5_ctx_t`; `msg` is what has been hashed so far. */
  class Md5Context {
    const transform: Compress
    var state: State
    var count0: nat
    var count1: nat
    const buffer: array<byte>
    ghost var msg: Bytes

    ghost predicate Valid()
      reads this, buffer
    {
      && buffer.Length == BLOCK
      && state == Absorbed(transform, INIT, msg)
      && buffer[..|msg| % BLOCK] == Left(msg)
      && Counts(count0, count1, |msg|)
    }

    /** `apr_md5_init` */
    constructor (transform: Compress)
      ensures Valid() && msg == [] && this.transform == transform && fresh(buffer)
    {
      this.transform := transform;
      state := INIT;
      count0, count1 := 0, 0;
      buffer := new byte[BLOCK](_ => 0);
      msg := [];
    }

    /** The counters of `md5_update_buffer` */
    method Count(inputLen: nat)
      requires inputLen < WORD && Counts(count0, count1, |msg|)
      modifies this`count0, this`count1
      ensures Counts(count0, count1, |msg| + inputLen)
    {
      ghost var lo := count0;
      CountsAdd(count0, count1, |msg|, inputLen);
      HighBits(inputLen);
      var bits := 8 * inputLen % WORD;
      count0 := (count0 + bits) % WORD;
      assert count0 < bits <==> count0 < lo;
      if count0 < bits {
        count1 := (count1 + 1) % WORD;
      }
      count1 := (count1 + inputLen / 0x2000_0000) % WORD;
    }

    /** `md5_update_buffer`, without translation */
    method Update(input: Bytes)
      requires Valid()
      requires |input| >= BLOCK - |msg| % BLOCK ==> LastIndex(|msg| % BLOCK, |input|) <= WORD - BLOCK
      modifies this, buffer
      ensures Valid() && msg == old(msg) + input
    {
      hide Absorbed, LastIndex;
      CountIndex(count0, |msg|);
      if |input| >= BLOCK - |msg| % BLOCK {
        LastIsMultiple(|msg| % BLOCK, |input|);
      }
      var idx := count0 / 8 % 64;
      ghost var m := msg;
      Count(|input|);
      hide Counts;
      var partLen := BLOCK - idx;
      var i := 0;
      if |input| >= partLen {
        i := Blocks(input, idx);
        idx := 0;
      } else {
        assert m + input[..0] == m;
      }
      Copy(buffer, idx, input[i..]);
      ghost var rest := input[i..];
      assert (m + input[..i]) + rest == m + input;
      AbsorbFewer(transform, INIT, m + input[..i], rest);
      assert buffer[..idx + |rest|] == Left(m + input[..i]) + rest;
      msg := m + input;
    }

    /** Filling up the buffer, and the blocks after that; the index of what is left. */
    method Blocks(input: Bytes, idx: nat) returns (i: nat)
      requires buffer.Length == BLOCK && state == Absorbed(transform, INIT, msg) && idx == |msg| % BLOCK
               && buffer[..idx] == Left(msg)
      requires BLOCK - idx <= |input| < WORD && LastIndex(idx, |input|) <= WORD - BLOCK
      modifies this`state, buffer
      ensures i <= |input| < i + BLOCK && state == Absorbed(transform, INIT, msg + input[..i])
              && Left(msg + input[..i]) == []
    {
      hide Absorbed, LastIndex, Left, Whole;
      var partLen := BLOCK - idx;
      Copy(buffer, idx, input[..partLen]);
      assert buffer[..] == Left(msg) + input[..partLen];
      AbsorbBlock(transform, INIT, msg, input[..partLen]);
      state := transform(state, buffer[..]);
      i := partLen;
      AtIndex(idx, |input|, i);
      while (i + 63) % WORD < |input|
        invariant partLen <= i <= |input| && (idx + i) % BLOCK == 0
        invariant GoesOn(i, |input|) <==> i + BLOCK <= |input|
        invariant state == Absorbed(transform, INIT, msg + input[..i]) && Left(msg + input[..i]) == []
        decreases |input| - i
      {
        ghost var done, block := msg + input[..i], input[i..i + BLOCK];
        NextBlock(msg, input, i);
        assert Left(done) + block == block;
        AbsorbBlock(transform, INIT, done, block);
        state := transform(state, input[i..i + BLOCK]);
        i := (i + BLOCK) % WORD;
        AtIndex(idx, |input|, i);
      }
    }

    /** `apr_md5_final`: the digest of everything that was hashed. */
    method Final() returns (out: Bytes)
      requires Valid()
      modifies this, buffer
      ensures out == Md5(transform, old(msg))
    {
      hide Absorbed, Output, LastIndex;
      ghost var m, tail := msg, LeBytes(Bits(msg), 8);
      CountsBits(count0, count1, msg);
      CountIndex(count0, |msg|);
      assert Pow256(4) == WORD;
      LeSplit(count1, count0, 4, 4);
      EncodedTwo(count0, count1);
      var bits := Encode([count0, count1]);
      var idx := count0 / 8 % 64;
      var padLen := if idx < 56 then 56 - idx else 120 - idx;
      ghost var padding := Padding()[..padLen];
      SmallLast(idx, padLen);
      Update(Padding()[..padLen]);
      ghost var padded := msg;
      PaddingFits(m, padding, tail);
      SmallLast(|padded| % BLOCK, 8);
      Update(bits);
      assert msg == Padded(m, tail);
      AbsorbedAll(transform, INIT, msg);
      out := Encode(state);
      Clear();
    }

    /** The context is wiped. */
    method Clear()
      requires buffer.Length == BLOCK
      modifies this, buffer
      ensures buffer[..] == Zeros(BLOCK) && state == [0, 0, 0, 0] && count0 == count1 == 0
    {
      Copy(buffer, 0, Zeros(BLOCK));
      state, count0, count1 := [0, 0, 0, 0], 0, 0;
    }
  }

  /** The words that `Decode` reads. */
  function Decoded(s: Bytes): seq<nat>
    decreases |s|
  {
    if |s| < 4 then [] else [Word(s[0], s[1], s[2], s[3])] + Decoded(s[4..])
  }

  function Word(a: byte, b: byte, c: byte, d: byte): nat {
    a + 0x100 * b + 0x1_0000 * c + 0x100_0000 * d
  }

  lemma {:induction false} WordBack(v: nat)
    requires v < WORD
    ensures LeBytes(v, 4) == [v % 256, v / 0x100 % 256, v / 0x1_0000 % 256, v / 0x100_0000 % 256]
    ensures Word(v % 256, v / 0x100 % 256, v / 0x1_0000 % 256, v / 0x100_0000 % 256) == v
  {
    var w := v / 256;
    var x := w / 256;
    var y := x / 256;
    assert LeBytes(y / 256, 0) == [];
    assert LeBytes(y, 1) == [y % 256];
    assert LeBytes(x, 2) == [x % 256, y % 256];
    assert LeBytes(w, 3) == [w % 256, x % 256, y % 256];
    assert w == v / 0x100 && x == v / 0x1_0000 && y == v / 0x100_0000;
  }

  lemma {:induction false} WordDecoded(v: nat, s: Bytes)
    requires v < WORD
    ensures Decoded(LeBytes(v, 4) + s) == [v] + Decoded(s)
  {
    hide LeBytes, Word;
    WordBack(v);
    var t := LeBytes(v, 4) + s;
    assert t[4..] == s;
    assert t[0] == v % 256 && t[1] == v / 0x100 % 256 && t[2] == v / 0x1_0000 % 256 && t[3] == v / 0x100_0000 % 256;
  }

  lemma {:induction false} OutputSteps(words: State)
    ensures Output([]) == [] && Decoded([]) == []
    ensures words != [] ==> Output(words) == LeBytes(words[0] % WORD, 4) + Output(words[1..])
  {
  }

  /** `Decode` undoes `Encode`. */
  lemma {:induction false} DecodeEncode(words: State)
    requires forall w | w in words :: 0 <= w < WORD
    ensures Decoded(Output(words)) == words
    decreases |words|
  {
    hide Decoded, Output, LeBytes;
    OutputSteps(words);
    if words != [] {
      var v, rest := words[0], words[1..];
      assert v in words && forall w | w in rest :: w in words;
      DecodeEncode(rest);
      WordDecoded(v, Output(rest));
      assert v % WORD == v;
    }
  }

  /** `Encode`, of 32-bit words */
  method Encode(input: State) returns (output: Bytes)
    ensures output == Output(input)
  {
    output := [];
    var i := 0;
    assert input[0..] == input;
    while i < |input|
      invariant 0 <= i <= |input| && Output(input) == output + Output(input[i..])
    {
      var k: nat := input[i] % WORD;
      WordBack(k);
      assert input[i..][0] == input[i] && input[i..][1..] == input[i + 1..];
      assert output + (LeBytes(k, 4) + Output(input[i + 1..])) == (output + LeBytes(k, 4)) + Output(input[i + 1..]);
      output := output + [k % 256, k / 0x100 % 256, k / 0x1_0000 % 256, k / 0x100_0000 % 256];
      i := i + 1;
    }
  }

  /** `Decode` */
  method Decode(input: Bytes) returns (output: seq<nat>)
    requires |input| % 4 == 0
    ensures output == Decoded(input)
  {
    hide Decoded, Word;
    output := [];
    var j := 0;
    assert input[0..] == input;
    while j < |input|
      invariant 0 <= j <= |input| && j % 4 == 0 && Decoded(input) == output + Decoded(input[j..])
    {
      var w := Word(input[j], input[j + 1], input[j + 2], input[j + 3]);
      DecodedStep(input, j);
      assert output + ([w] + Decoded(input[j + 4..])) == (output + [w]) + Decoded(input[j + 4..]);
      output := output + [w];
      j := j + 4;
    }
    DecodedStep(input, j);
  }

  lemma {:induction false} DecodedStep(s: Bytes, j: nat)
    requires j <= |s|
    ensures if j + 4 <= |s| then Decoded(s[j..]) == [Word(s[j], s[j + 1], s[j + 2], s[j + 3])] + Decoded(s[j + 4..])
            else Decoded(s[j..]) == []
  {
  }

  lemma {:induction false} EncodedTwo(a: nat, b: nat)
    requires a < WORD && b < WORD
    ensures Output([a, b]) == LeBytes(a, 4) + LeBytes(b, 4)
  {
    hide LeBytes;
    var d: State := [a, b];
    assert d[1..] == [b] && d[1..][1..] == [];
    assert Output(d[1..]) == LeBytes(b, 4);
  }

  lemma {:induction false} AtIndex(idx: nat, len: nat, i: nat)
    requires idx < BLOCK && BLOCK - idx <= len < WORD && LastIndex(idx, len) <= WORD - BLOCK
    requires i <= len && (idx + i) % BLOCK == 0
    ensures GoesOn(i, len) <==> i + BLOCK <= len
    ensures i + BLOCK <= len ==> i + BLOCK < WORD
  {
  }

  lemma {:induction false} SmallLast(idx: nat, len: nat)
    requires idx < BLOCK && len <= 120
    ensures len >= BLOCK - idx ==> LastIndex(idx, len) <= WORD - BLOCK
  {
  }

  lemma {:induction false} PaddingFits(m: Bytes, padding: Bytes, tail: Bytes)
    requires padding == Padding()[..if |m| % BLOCK < 56 then 56 - |m| % BLOCK else 120 - |m| % BLOCK] && |tail| == 8
    ensures (m + padding) + tail == Padded(m, tail) && |Padded(m, tail)| % BLOCK == 0
  {
  }

  lemma {:induction false} NextBlock(m: Bytes, input: Bytes, i: nat)
    requires i + BLOCK <= |input|
    ensures (m + input[..i]) + input[i..i + BLOCK] == m + input[..i + BLOCK]
  {
  }

  /** Any sequence of updates and a final: the hash of the whole message, however it was cut. */
  method HashPieces(transform: Compress, chunks: seq<Bytes>) returns (out: Bytes)
    requires forall c | c in chunks :: |c| <= WORD - BLOCK
    ensures out == Md5(transform, Concat(chunks))
  {
    hide Md5, LastIndex;
    var context := new Md5Context(transform);
    var i := 0;
    while i < |chunks|
      invariant 0 <= i <= |chunks| && context.Valid() && context.msg == Concat(chunks[..i]) && fresh(context)
                && fresh(context.buffer)
      invariant context.transform == transform
    {
      assert chunks[..i + 1][..i] == chunks[..i];
      ghost var idx := |context.msg| % BLOCK;
      if |chunks[i]| >= BLOCK - idx {
        LastIsMultiple(idx, |chunks[i]|);
      }
      context.Update(chunks[i]);
      i := i + 1;
    }
    assert chunks[..|chunks|] == chunks;
    out := context.Final();
  }
}
