/** What several parts of the model share. */
module Basics {
  type byte = b: int | 0 <= b < 256
  type Bytes = seq<byte>

  datatype Option<T> = None | Some(value: T)

  function Concat(parts: seq<Bytes>): Bytes
    decreases |parts|
  {
    if parts == [] then [] else Concat(parts[..|parts| - 1]) + parts[|parts| - 1]
  }

  // ---------- numbers as bytes ----------

  function Pow256(k: nat): nat {
    if k == 0 then 1 else 256 * Pow256(k - 1)
  }

  /** The number that bytes stand for, the first being the highest. */
  function BeValue(s: Bytes): nat {
    if s == [] then 0 else BeValue(s[..|s| - 1]) * 256 + s[|s| - 1]
  }

  /** The number that bytes stand for, the first being the lowest. */
  function LeValue(s: Bytes): nat {
    if s == [] then 0 else s[0] + 256 * LeValue(s[1..])
  }

  /** A number in `k` bytes, the highest first. */
  function BeBytes(v: nat, k: nat): (r: Bytes)
    ensures |r| == k
  {
    if k == 0 then [] else BeBytes(v / 256, k - 1) + [v % 256]
  }

  /** A number in `k` bytes, the lowest first. */
  function LeBytes(v: nat, k: nat): (r: Bytes)
    ensures |r| == k
  {
    if k == 0 then [] else [v % 256] + LeBytes(v / 256, k - 1)
  }

  /** A number that fits comes back from its bytes. */
  lemma {:induction false} BeExact(v: nat, k: nat)
    requires v < Pow256(k)
    ensures BeValue(BeBytes(v, k)) == v
  {
    if k > 0 {
      var s := BeBytes(v, k);
      assert s[..k - 1] == BeBytes(v / 256, k - 1);
      BeExact(v / 256, k - 1);
    }
  }

  lemma {:induction false} LeExact(v: nat, k: nat)
    requires v < Pow256(k)
    ensures LeValue(LeBytes(v, k)) == v
  {
    if k > 0 {
      assert LeBytes(v, k)[1..] == LeBytes(v / 256, k - 1);
      LeExact(v / 256, k - 1);
    }
  }
}
