/** SHA-1, a piece of the message at a time.  The compression function is left open. */
module Sha1Digest {
  import opened Basics
  import opened Hashing

  /** `sha_transform`, on the state and 16 words */
  type Transform = (State, seq<nat>) -> State

  const INIT: State := [0x67452301, 0xefcdab89, 0x98badcfe, 0x10325476, 0xc3d2e1f0]

  /** The words of a block, the first byte of each being the highest. */
  function BeWords(s: Bytes): seq<nat> {
    seq(|s| / 4, i requires 0 <= i < |s| / 4 => BeValue(s[4 * i..4 * i + 4]))
  }

  /** The words that a little-endian machine finds in memory. */
  function LeWords(s: Bytes): seq<nat> {
    seq(|s| / 4, i requires 0 <= i < |s| / 4 => LeValue(s[4 * i..4 * i + 4]))
  }

  function Rounds(t: Transform): Compress {
    (d: State, block: Bytes) => t(d, BeWords(block))
  }

  /** The digest as bytes. */
  function Output(d: State): Bytes
    decreases |d|
  {
    if d == [] then [] else BeBytes(d[0] % WORD, 4) + Output(d[1..])
  }

  /** Four bytes a word, which stand for it with the highest first. */
  lemma {:induction false} OutputExact(d: State, i: nat)
    requires i < |d|
    ensures |Output(d)| == 4 * |d| && BeValue(Output(d)[4 * i..4 * i + 4]) == d[i] % WORD
    decreases |d|
  {
    hide BeBytes, BeValue;
    var head, rest := BeBytes(d[0] % WORD, 4), Output(d[1..]);
    OutputLength(d[1..]);
    if i == 0 {
      assert Output(d)[..4] == head && Pow256(4) == WORD;
      BeExact(d[0] % WORD, 4);
    } else {
      OutputExact(d[1..], i - 1);
      assert Output(d)[4 * i..4 * i + 4] == rest[4 * (i - 1)..4 * (i - 1) + 4];
    }
  }

  lemma {:induction false} OutputLength(d: State)
    ensures |Output(d)| == 4 * |d|
    decreases |d|
  {
    if d != [] {
      OutputLength(d[1..]);
    }
  }

  /** The last eight bytes of a padded message stand for its length in bits. */
  lemma {:induction false} LengthAtEnd(m: Bytes)
    ensures var p := Padded(m, BeBytes(Bits(m), 8));
            |p| >= 8 && BeValue(p[|p| - 8..]) == 8 * |m| % 0x1_0000_0000_0000_0000
  {
    hide BeBytes, BeValue;
    PaddedExact(m, BeBytes(Bits(m), 8), 0);
    assert Pow256(8) == WORD * WORD;
    BeExact(Bits(m), 8);
  }

  /** The hash of a message padded as in section 5.1.1 of FIPS 180-4. */
  function Sha1(t: Transform, m: Bytes): Bytes {
    Output(Fold(Rounds(t), INIT, Padded(m, BeBytes(Bits(m), 8))))
  }

  lemma {:induction false} FourBytes(a: byte, b: byte, c: byte, d: byte)
    ensures LeValue([d, c, b, a]) == BeValue([a, b, c, d]) == ((a * 256 + b) * 256 + c) * 256 + d
  {
    assert [a][1..] == [] && [a][..0] == [];
    assert LeValue([a]) == a == BeValue([a]);
    assert [b, a][1..] == [a] && [a, b][..1] == [a];
    assert LeValue([b, a]) == b + 256 * a == BeValue([a, b]);
    assert [c, b, a][1..] == [b, a] && [a, b, c][..2] == [a, b];
    assert LeValue([c, b, a]) == c + 256 * (b + 256 * a) == BeValue([a, b, c]);
    assert [d, c, b, a][1..] == [c, b, a] && [a, b, c, d][..3] == [a, b, c];
  }

  lemma {:induction false} BeBack(v: nat)
    requires v < WORD
    ensures BeValue(BeBytes(v, 4)) == v == LeValue(LeBytes(v, 4))
  {
    var w := v / 256;
    var x := w / 256;
    var y := x / 256;
    var a, b, c, d := y, x % 256, w % 256, v % 256;
    assert BeBytes(y / 256, 0) == [] && LeBytes(y / 256, 0) == [];
    assert BeBytes(y, 1) == [a] && LeBytes(y, 1) == [a];
    assert BeBytes(x, 2) == [a, b] && LeBytes(x, 2) == [b, a];
    assert BeBytes(w, 3) == [a, b, c] && LeBytes(w, 3) == [c, b, a];
    assert BeBytes(v, 4) == [a, b, c, d] && LeBytes(v, 4) == [d, c, b, a];
    FourBytes(a, b, c, d);
  }

  /** Each word back to front. */
  ghost predicate Swapped(s: Bytes, t: Bytes) {
    && |s| == |t| && |s| % 4 == 0
    && forall i :: 0 <= i < |s| / 4 ==> SwappedAt(s, t, i)
  }

  predicate SwappedAt(s: Bytes, t: Bytes, i: nat)
    requires |s| == |t| && 4 * i + 4 <= |s|
  {
    t[4 * i] == s[4 * i + 3] && t[4 * i + 1] == s[4 * i + 2] && t[4 * i + 2] == s[4 * i + 1] && t[4 * i + 3] == s[4 * i]
  }

  lemma {:induction false} SwappedWords(s: Bytes, t: Bytes)
    requires Swapped(s, t)
    ensures LeWords(t) == BeWords(s)
  {
    forall i | 0 <= i < |s| / 4
      ensures LeValue(t[4 * i..4 * i + 4]) == BeValue(s[4 * i..4 * i + 4])
    {
      assert SwappedAt(s, t, i);
      var a, b, c, d := s[4 * i], s[4 * i + 1], s[4 * i + 2], s[4 * i + 3];
      assert s[4 * i..4 * i + 4] == [a, b, c, d] && t[4 * i..4 * i + 4] == [d, c, b, a];
      FourBytes(a, b, c, d);
    }
  }

  lemma {:induction false} Inside(s: Bytes, n: nat, tail: Bytes, i: nat, j: nat)
    requires i <= j <= n <= |s|
    ensures (s[..n] + tail)[i..j] == s[i..j]
  {
  }

  /** Setting the last two words of a block whose other words have been swapped. */
  lemma {:induction false} LastWords(s: Bytes, t: Bytes, u: Bytes, hi: nat, lo: nat)
    requires |s| == |t| == |u| == BLOCK && Swapped(s, t) && hi < WORD && lo < WORD
    requires u == t[..56] + LeBytes(hi, 4) + LeBytes(lo, 4)
    ensures LeWords(u) == BeWords(s[..56] + (BeBytes(hi, 4) + BeBytes(lo, 4)))
  {
    var v := s[..56] + (BeBytes(hi, 4) + BeBytes(lo, 4));
    assert u == t[..56] + (LeBytes(hi, 4) + LeBytes(lo, 4));
    forall i | 0 <= i < 16
      ensures LeValue(u[4 * i..4 * i + 4]) == BeValue(v[4 * i..4 * i + 4])
    {
      if i < 14 {
        Inside(s, 56, BeBytes(hi, 4) + BeBytes(lo, 4), 4 * i, 4 * i + 4);
        Inside(t, 56, LeBytes(hi, 4) + LeBytes(lo, 4), 4 * i, 4 * i + 4);
        SwappedWords(s, t);
        assert LeWords(t)[i] == BeWords(s)[i];
      } else if i == 14 {
        assert u[56..60] == LeBytes(hi, 4) && v[56..60] == BeBytes(hi, 4);
        BeBack(hi);
      } else {
        assert u[60..64] == LeBytes(lo, 4) && v[60..64] == BeBytes(lo, 4);
        BeBack(lo);
      }
    }
  }

  /** `maybe_byte_reverse` on a little-endian machine */
  method ByteReverse(data: array<byte>)
    requires data.Length % 4 == 0
    modifies data
    ensures Swapped(old(data[..]), data[..])
  {
    var count := data.Length / 4;
    var i := 0;
    while i < count
      invariant 0 <= i <= count
      invariant forall j :: 0 <= j < i ==> SwappedAt(old(data[..]), data[..], j)
      invariant forall k :: 4 * i <= k < data.Length ==> data[k] == old(data[k])
    {
      ghost var was := data[..];
      var cp := 4 * i;
      var ct := [data[cp], data[cp + 1], data[cp + 2], data[cp + 3]];
      data[cp], data[cp + 1], data[cp + 2], data[cp + 3] := ct[3], ct[2], ct[1], ct[0];
      forall j | 0 <= j <= i
        ensures SwappedAt(old(data[..]), data[..], j)
      {
        if j < i {
          assert SwappedAt(old(data[..]), was, j) && 4 * j + 4 <= cp;
        }
      }
      i := i + 1;
    }
  }

  /** `apr_sha1_ctx_t`; `msg` is what has been hashed so far. */
  class Sha1Context {
    const transform: Transform
    var digest: State
    var countLo: nat
    var countHi: nat
    const data: array<byte>
    var local: nat
    ghost var msg: Bytes

    /** The whole blocks are in the digest, the rest is in the buffer. */
    ghost predicate Buffered()
      reads this, data
    {
      && data.Length == BLOCK
      && digest == Absorbed(Rounds(transform), INIT, msg)
      && local == |msg| % BLOCK && data[..local] == Left(msg)
    }

    ghost predicate Valid()
      reads this, data
    {
      Buffered() && Counts(countLo, countHi, |msg|)
    }

    /** `apr_sha1_init` */
    constructor (transform: Transform)
      ensures Valid() && msg == [] && this.transform == transform && fresh(data)
    {
      this.transform := transform;
      digest := INIT;
      countLo, countHi, local := 0, 0, 0;
      data := new byte[BLOCK](_ => 0);
      msg := [];
    }

    /** `maybe_byte_reverse` and `sha_transform` of a full block */
    method TransformBlock(ghost block: Bytes)
      requires data.Length == BLOCK && data[..] == block
      modifies this`digest, data
      ensures digest == Rounds(transform)(old(digest), block)
    {
      ByteReverse(data);
      SwappedWords(block, data[..]);
      digest := transform(digest, LeWords(data[..]));
    }

    /** The counters of `apr_sha1_update_binary` */
    method Count(count: nat)
      requires count < WORD && Counts(countLo, countHi, |msg|)
      modifies this`countLo, this`countHi
      ensures Counts(countLo, countHi, |msg| + count)
    {
      CountsAdd(countLo, countHi, |msg|, count);
      HighBits(count);
      if (countLo + 8 * count % WORD) % WORD < countLo {
        countHi := (countHi + 1) % WORD;
      }
      countLo := (countLo + 8 * count % WORD) % WORD;
      countHi := (countHi + count / 0x2000_0000) % WORD;
    }

    /** Filling up the buffer, if there is something in it; `full` if that makes a block. */
    method TopUp(buffer: Bytes) returns (rest: Bytes, full: bool)
      requires Buffered() && local > 0
      modifies this`digest, this`local, this`msg, data
      ensures msg + rest == old(msg) + buffer
      ensures if full
              then data.Length == BLOCK && digest == Absorbed(Rounds(transform), INIT, msg) && |msg| % BLOCK == 0
              else rest == [] && Buffered()
    {
      hide Absorbed, Rounds;
      var i := BLOCK - local;
      if i > |buffer| {
        i := |buffer|;
      }
      ghost var head := buffer[..i];
      Copy(data, local, buffer[..i]);
      assert data[..local + i] == Left(msg) + head;
      rest := buffer[i..];
      assert msg + buffer == (msg + head) + rest;
      full := local + i == BLOCK;
      if full {
        AbsorbBlock(Rounds(transform), INIT, msg, head);
        assert data[..] == data[..local + i];
        TransformBlock(Left(msg) + head);
      } else {
        AbsorbFewer(Rounds(transform), INIT, msg, head);
      }
      local := local + i;
      msg := msg + head;
    }

    /** The block loop of `apr_sha1_update_binary`; what is left. */
    method Blocks(input: Bytes) returns (buffer: Bytes)
      requires data.Length == BLOCK && digest == Absorbed(Rounds(transform), INIT, msg) && |msg| % BLOCK == 0
      modifies this`digest, this`msg, data
      ensures digest == Absorbed(Rounds(transform), INIT, msg) && |msg| % BLOCK == 0
      ensures |buffer| < BLOCK && msg + buffer == old(msg) + input
    {
      hide Absorbed, Rounds, Whole;
      buffer := input;
      while |buffer| >= BLOCK
        invariant data.Length == BLOCK && msg + buffer == old(msg) + input
        invariant digest == Absorbed(Rounds(transform), INIT, msg) && |msg| % BLOCK == 0
        decreases |buffer|
      {
        ghost var block := buffer[..BLOCK];
        Copy(data, 0, buffer[..BLOCK]);
        assert Left(msg) + block == block && data[..] == block;
        AbsorbBlock(Rounds(transform), INIT, msg, block);
        TransformBlock(block);
        assert msg + buffer == (msg + block) + buffer[BLOCK..];
        msg := msg + block;
        buffer := buffer[BLOCK..];
      }
    }

    /** `apr_sha1_update_binary` */
    method Update(input: Bytes)
      requires Valid() && |input| < WORD
      modifies this, data
      ensures Valid() && msg == old(msg) + input
    {
      hide Absorbed, Rounds, Counts;
      var buffer := input;
      Count(|input|);
      if local > 0 {
        var full;
        buffer, full := TopUp(buffer);
        if !full {
          return;
        }
      }
      buffer := Blocks(buffer);
      Copy(data, 0, buffer);
      AbsorbFewer(Rounds(transform), INIT, msg, buffer);
      assert data[..|buffer|] == buffer && Left(msg) + buffer == buffer;
      local := |buffer|;
      msg := msg + buffer;
    }

    /** `apr_sha1_final`: the digest of everything that was hashed. */
    method Final() returns (out: Bytes)
      requires Valid()
      modifies this, data
      ensures out == Sha1(transform, old(msg))
    {
      hide Absorbed, Rounds, Output;
      ghost var m, tail := msg, BeBytes(Bits(msg), 8);
      CountsBits(countLo, countHi, msg);
      CountIndex(countLo, |msg|);
      var count := countLo / 8 % 64;
      Copy(data, count, [0x80]);
      count := count + 1;
      ghost var one: Bytes := [0x80];
      assert data[..count] == Left(m) + one;
      if count > BLOCK - 8 {
        Copy(data, count, Zeros(BLOCK - count));
        ghost var z := one + Zeros(BLOCK - count);
        assert data[..] == Left(m) + z;
        AbsorbBlock(Rounds(transform), INIT, m, z);
        TransformBlock(Left(m) + z);
        Copy(data, 0, Zeros(BLOCK - 8));
        assert data[..56] == Left(m + z) + Zeros(56);
        PaddedLate(m, tail, z);
        Finish(m + z, Zeros(56), tail);
      } else {
        Copy(data, count, Zeros(BLOCK - 8 - count));
        ghost var z := one + Zeros(BLOCK - 8 - count);
        assert data[..56] == Left(m) + z;
        PaddedEarly(m, tail, z);
        Finish(m, z, tail);
      }
      out := WriteDigest(digest);
    }

    /** The last block: its last two words are the counters. */
    method Finish(ghost m: Bytes, ghost z: Bytes, ghost tail: Bytes)
      requires data.Length == BLOCK && digest == Absorbed(Rounds(transform), INIT, m) && data[..56] == Left(m) + z
      requires tail == BeBytes(countHi * WORD + countLo, 8) && countHi < WORD && countLo < WORD
      modifies this`digest, data
      ensures digest == Fold(Rounds(transform), INIT, m + (z + tail))
    {
      ghost var block := data[..56] + tail;
      ghost var s := data[..];
      ByteReverse(data);
      ghost var t := data[..];
      Copy(data, 56, LeBytes(countHi, 4));
      Copy(data, 60, LeBytes(countLo, 4));
      assert data[..] == t[..56] + LeBytes(countHi, 4) + LeBytes(countLo, 4);
      LastWords(s, t, data[..], countHi, countLo);
      assert Pow256(4) == WORD;
      BeSplit(countHi, countLo, 4, 4);
      assert s[..56] == Left(m) + z;
      assert block == Left(m) + (z + tail);
      AbsorbBlock(Rounds(transform), INIT, m, z + tail);
      AbsorbedAll(Rounds(transform), INIT, m + (z + tail));
      digest := transform(digest, LeWords(data[..]));
    }

    /** The loop at the end of `apr_sha1_final`, which writes out the digest */
    method WriteDigest(d: State) returns (out: Bytes)
      ensures out == Output(d)
    {
      out := [];
      var i := 0;
      assert d[0..] == d;
      while i < |d|
        invariant 0 <= i <= |d| && Output(d) == out + Output(d[i..])
      {
        assert d[i..][0] == d[i] && d[i..][1..] == d[i + 1..];
        var k: nat := d[i] % WORD;
        FourOut(k);
        assert out + (BeBytes(k, 4) + Output(d[i + 1..])) == (out + BeBytes(k, 4)) + Output(d[i + 1..]);
        out := out + [k / 0x100_0000 % 256, k / 0x1_0000 % 256, k / 0x100 % 256, k % 256];
        i := i + 1;
      }
    }
  }

  lemma {:induction false} FourOut(k: nat)
    requires k < WORD
    ensures BeBytes(k, 4) == [k / 0x100_0000 % 256, k / 0x1_0000 % 256, k / 0x100 % 256, k % 256]
  {
  }

  lemma {:induction false} PaddedEarly(m: Bytes, tail: Bytes, z: Bytes)
    requires |m| % BLOCK < 56 && z == [0x80] + Zeros(55 - |m| % BLOCK)
    ensures Padded(m, tail) == m + (z + tail)
  {
  }

  lemma {:induction false} PaddedLate(m: Bytes, tail: Bytes, z: Bytes)
    requires |m| % BLOCK >= 56 && z == [0x80] + Zeros(63 - |m| % BLOCK)
    ensures Padded(m, tail) == (m + z) + (Zeros(56) + tail)
  {
  }

  /** Any sequence of updates and a final: the hash of the whole message, however it was cut. */
  method HashPieces(transform: Transform, chunks: seq<Bytes>) returns (out: Bytes)
    requires forall c | c in chunks :: |c| < WORD
    ensures out == Sha1(transform, Concat(chunks))
  {
    hide Sha1;
    var context := new Sha1Context(transform);
    var i := 0;
    while i < |chunks|
      invariant 0 <= i <= |chunks| && context.Valid() && context.msg == Concat(chunks[..i]) && fresh(context)
                && fresh(context.data)
      invariant context.transform == transform
    {
      assert chunks[..i + 1][..i] == chunks[..i];
      context.Update(chunks[i]);
      i := i + 1;
    }
    assert chunks[..|chunks|] == chunks;
    out := context.Final();
  }
}
