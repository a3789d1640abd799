/** Hashing a message block by block: what both digests have in common. */
module Hashing {
  import opened Basics

  type State = seq<int>

  /** A compression function: state, block of 64 bytes, new state.  What it computes does not matter here. */
  type Compress = (State, Bytes) -> State

  const BLOCK: nat := 64
  const WORD: nat := 0x1_0000_0000

  function Fold(f: Compress, d: State, s: Bytes): State
    decreases |s|
  {
    if |s| < BLOCK then d else Fold(f, f(d, s[..BLOCK]), s[BLOCK..])
  }

  lemma {:induction false} FoldAppend(f: Compress, d: State, a: Bytes, b: Bytes)
    requires |a| % BLOCK == 0
    ensures Fold(f, d, a + b) == Fold(f, Fold(f, d, a), b)
    decreases |a|
  {
    if a == [] {
      assert a + b == b;
    } else {
      assert (a + b)[..BLOCK] == a[..BLOCK] && (a + b)[BLOCK..] == a[BLOCK..] + b;
      FoldAppend(f, f(d, a[..BLOCK]), a[BLOCK..], b);
    }
  }

  lemma {:induction false} FoldBlock(f: Compress, d: State, a: Bytes, b: Bytes)
    requires |a| % BLOCK == 0 && |b| == BLOCK
    ensures Fold(f, d, a + b) == f(Fold(f, d, a), b)
  {
    FoldAppend(f, d, a, b);
    assert b[..BLOCK] == b && b[BLOCK..] == [];
  }

  /** The whole blocks of a message, and what is left. */
  function Whole(m: Bytes): (w: Bytes)
    ensures |w| % BLOCK == 0
  {
    m[..|m| - |m| % BLOCK]
  }

  function Left(m: Bytes): (l: Bytes)
    ensures |l| == |m| % BLOCK
  {
    m[|m| - |m| % BLOCK..]
  }

  /** Too little for another block. */
  lemma {:induction false} Fewer(m: Bytes, s: Bytes)
    requires |Left(m)| + |s| < BLOCK
    ensures Whole(m + s) == Whole(m) && Left(m + s) == Left(m) + s
  {
  }

  /** Exactly another block. */
  lemma {:induction false} Fills(m: Bytes, s: Bytes)
    requires |Left(m)| + |s| == BLOCK
    ensures Whole(m + s) == Whole(m) + (Left(m) + s) && Left(m + s) == []
  {
  }

  /** The digest of a message so far, as far as it consists of whole blocks. */
  function Absorbed(f: Compress, init: State, m: Bytes): State {
    Fold(f, init, Whole(m))
  }

  lemma {:induction false} AbsorbFewer(f: Compress, init: State, m: Bytes, s: Bytes)
    requires |Left(m)| + |s| < BLOCK
    ensures Absorbed(f, init, m + s) == Absorbed(f, init, m) && Left(m + s) == Left(m) + s
  {
    Fewer(m, s);
  }

  lemma {:induction false} AbsorbBlock(f: Compress, init: State, m: Bytes, s: Bytes)
    requires |Left(m)| + |s| == BLOCK
    ensures Absorbed(f, init, m + s) == f(Absorbed(f, init, m), Left(m) + s) && Left(m + s) == []
  {
    Fills(m, s);
    FoldBlock(f, init, Whole(m), Left(m) + s);
  }

  // ---------- padding ----------

  function Zeros(n: nat): (r: Bytes)
    ensures |r| == n
  {
    seq(n, _ => 0)
  }

  /** How many zeros it takes after the first padding byte to get to 8 bytes before the end of a block. */
  function Gap(n: nat): nat {
    if n % BLOCK < 56 then 55 - n % BLOCK else 119 - n % BLOCK
  }

  /** The gap is the least that will do. */
  lemma {:induction false} GapIsLeast(n: nat, z: nat)
    ensures (n + 1 + Gap(n) + 8) % BLOCK == 0
    ensures (n + 1 + z + 8) % BLOCK == 0 ==> Gap(n) <= z
  {
    var r := n % BLOCK;
    assert n == BLOCK * (n / BLOCK) + r;
    assert n + 1 + Gap(n) + 8 == BLOCK * (n / BLOCK + if r < 56 then 1 else 2);
  }

  /** Message, a one bit, zeros, and the number of bits modulo 2^64, which is what `tail` holds. */
  function Padded(m: Bytes, tail: Bytes): Bytes {
    m + [0x80] + Zeros(Gap(|m|)) + tail
  }

  /** Whole blocks: the message, the bit, zeros up to the tail, the tail; and not a block more than it takes. */
  lemma {:induction false} PaddedExact(m: Bytes, tail: Bytes, k: nat)
    requires |tail| == 8
    ensures var p := Padded(m, tail);
            && |p| % BLOCK == 0 && |m| + 9 <= |p| < |m| + 9 + BLOCK
            && p[..|m|] == m && p[|m|] == 0x80 && p[|p| - 8..] == tail
            && (|m| < k < |p| - 8 ==> p[k] == 0)
  {
    GapIsLeast(|m|, 0);
    var p := Padded(m, tail);
    assert |p| == |m| + 1 + Gap(|m|) + 8;
    assert p == m + ([0x80] + Zeros(Gap(|m|)) + tail);
  }

  function Bits(m: Bytes): nat {
    8 * |m| % (WORD * WORD)
  }

  /** The two 32-bit counters of a digest. */
  predicate Counts(lo: nat, hi: nat, n: nat) {
    lo == 8 * n % WORD && hi == 8 * n / WORD % WORD
  }

  lemma {:induction false} Quotient(x: nat, q: nat, r: nat)
    requires x == q * WORD + r && r < WORD
    ensures x / WORD == q && x % WORD == r
  {
  }

  /** Adding to the low counter with a carry, and the high bits to the high one, counts correctly. */
  lemma {:induction false} CountsAdd(lo: nat, hi: nat, n: nat, c: nat)
    requires Counts(lo, hi, n)
    ensures var sum := (lo + 8 * c % WORD) % WORD;
            Counts(sum, ((if sum < lo then (hi + 1) % WORD else hi) + 8 * c / WORD) % WORD, n + c)
  {
    var q, p, r := 8 * n / WORD, 8 * c / WORD, 8 * c % WORD;
    var carry := if lo + r >= WORD then 1 else 0;
    assert 8 * (n + c) == (q + p + carry) * WORD + (lo + r - carry * WORD);
    Quotient(8 * (n + c), q + p + carry, lo + r - carry * WORD);
    assert lo + r == carry * WORD + (lo + r - carry * WORD);
    Quotient(lo + r, carry, lo + r - carry * WORD);
  }

  /** The bits of a 32-bit count that shifting it left by three loses are its bits from 29 on. */
  lemma {:induction false} HighBits(c: nat)
    requires c < WORD
    ensures 8 * c / WORD == c / 0x2000_0000
  {
  }

  /** The bit count of a message from its counters. */
  lemma {:induction false} CountsBits(lo: nat, hi: nat, m: Bytes)
    requires Counts(lo, hi, |m|)
    ensures hi * WORD + lo == Bits(m)
  {
    var x, q := 8 * |m|, 8 * |m| / WORD;
    assert x == q * WORD + lo;
    assert q == q / WORD * WORD + hi;
    assert x == q / WORD * (WORD * WORD) + (hi * WORD + lo);
  }

  lemma {:induction false} BeSplit(hi: nat, lo: nat, j: nat, k: nat)
    requires lo < Pow256(k)
    ensures BeBytes(hi * Pow256(k) + lo, j + k) == BeBytes(hi, j) + BeBytes(lo, k)
    decreases k
  {
    if k == 0 {
      assert BeBytes(hi, j) + [] == BeBytes(hi, j);
    } else {
      var v := hi * Pow256(k) + lo;
      assert v == 256 * (hi * Pow256(k - 1)) + lo;
      assert v / 256 == hi * Pow256(k - 1) + lo / 256 && v % 256 == lo % 256;
      BeSplit(hi, lo / 256, j, k - 1);
      assert BeBytes(hi, j) + (BeBytes(lo / 256, k - 1) + [lo % 256])
             == (BeBytes(hi, j) + BeBytes(lo / 256, k - 1)) + [lo % 256];
    }
  }

  lemma {:induction false} LeSplit(hi: nat, lo: nat, j: nat, k: nat)
    requires lo < Pow256(k)
    ensures LeBytes(hi * Pow256(k) + lo, k + j) == LeBytes(lo, k) + LeBytes(hi, j)
    decreases k
  {
    if k == 0 {
      assert [] + LeBytes(hi, j) == LeBytes(hi, j);
    } else {
      var v := hi * Pow256(k) + lo;
      assert v == 256 * (hi * Pow256(k - 1)) + lo;
      assert v / 256 == hi * Pow256(k - 1) + lo / 256 && v % 256 == lo % 256;
      LeSplit(hi, lo / 256, j, k - 1);
    }
  }

  /** `memcpy` and `memset` */
  method Copy(data: array<byte>, at: nat, s: Bytes)
    requires at + |s| <= data.Length
    modifies data
    ensures data[..] == old(data[..at]) + s + old(data[at + |s|..])
  {
    forall k | 0 <= k < |s| {
      data[at + k] := s[k];
    }
  }

  /** The buffer's fill can be read off the low counter. */
  lemma {:induction false} CountIndex(lo: nat, n: nat)
    requires lo == 8 * n % WORD
    ensures lo / 8 % 64 == n % BLOCK
  {
  }

  lemma {:induction false} AbsorbedAll(f: Compress, init: State, m: Bytes)
    requires |m| % BLOCK == 0
    ensures Absorbed(f, init, m) == Fold(f, init, m)
  {
    assert Whole(m) == m;
  }

}
