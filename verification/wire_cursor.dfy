/** The cursor of `readProlog`, exactly.

    Class descriptors are passed over by adding signed 16-bit lengths to an unsigned 64-bit cursor, so a negative length
    moves it back, perhaps to where it has been before, perhaps to before the buffer.  Positions here are absolute; one
    below zero stands for the unsigned number it wraps around to. */
module WireCursor {
  import opened Basics
  import opened Wire

  const WIDTH: int := 0x1_0000_0000_0000_0000
  const HALF: int := 0x8000_0000_0000_0000

  /** The unsigned view: with a cursor and a size in 63 bits, adding and comparing modulo 2^64 is this test. */
  lemma {:induction false} SignedView(c: int, k: nat, size: nat)
    requires -HALF <= c && c + k < HALF && size < HALF
    ensures (c % WIDTH + k) % WIDTH > size <==> TooFar(c, k, size)
  {
    assert c >= 0 ==> c % WIDTH == c;
    assert c < 0 ==> c % WIDTH == c + WIDTH;
    assert c + k < 0 ==> (c + WIDTH + k) % WIDTH == c + k + WIDTH;
    assert c < 0 <= c + k ==> (c + WIDTH + k) % WIDTH == c + k;
  }

  // ---------- the reader ----------

  /** The bounds check of a reader that is about to copy `k` bytes. */
  predicate TooFar(c: int, k: nat, size: nat) {
    c + k < 0 || c + k > size
  }

  /** The bounds check and the copy */
  function ReadAt(b: Bytes, c: int, k: nat): (r: Parsed<Bytes>)
    requires k > 0
    ensures r.Done? ==> 0 <= c && c + k <= |b| && |r.value| == k
    ensures r.Done? || r == Small || r == Outside
  {
    if TooFar(c, k, |b|) then Small else if c < 0 then Outside else Done(b[c..c + k])
  }

  function ByteAt(b: Bytes, c: int): (r: Parsed<byte>)
    ensures r.Done? ==> 0 <= c < |b| && r.value == b[c]
    ensures r.Done? || r == Small || r == Outside
  {
    var s :- ReadAt(b, c, 1);
    Done(s[0])
  }

  function ShortAt(b: Bytes, c: int): (r: Parsed<int>)
    ensures r.Done? ==> 0 <= c && c + 2 <= |b|
    ensures r.Done? || r == Small || r == Outside
  {
    var s :- ReadAt(b, c, 2);
    Done(Signed(BeValue(s), 2))
  }

  /** One round of the tag loop: on to a place, or off the loop. */
  datatype Hop = On(c: int) | Off(c: int)

  function Round(b: Bytes, c: int): (r: Parsed<Hop>)
    ensures r.Done? ==> 0 <= c < |b|
    ensures r != Endless && r != Backwards
    ensures r.Done? && r.value.Off? ==> 0 < r.value.c <= |b|
  {
    var tag :- ByteAt(b, c);
    if tag == TC_ENDBLOCKDATA then Done(Off(c + 1))
    else if tag == TC_REFERENCE then
      var val :- ReadAt(b, c + 1, 4);
      Done(On(c + 5))
    else if tag == FIELD_OBJECT || tag == TC_STRING then
      var dataLen :- ShortAt(b, c + 1);
      Done(On(c + 3 + dataLen))
    else Invalid
  }

  /** The loop with no more than `more` rounds after the first. */
  function Run(b: Bytes, c: int, more: nat): (r: Parsed<int>)
    ensures r.Done? ==> 0 < r.value <= |b|
    ensures r != Backwards
    decreases more
  {
    var hop :- Round(b, c);
    match hop
    case Off(d) => Done(d)
    case On(d) => if more == 0 then Endless else Run(b, d, more - 1)
  }

  /** The tag loop.  If it has gone on for more rounds than the buffer has bytes, it goes on for ever; see
      `NeverEnds`. */
  function TagLoop(b: Bytes, c: int): (r: Parsed<int>)
    ensures r.Done? ==> 0 < r.value <= |b|
    ensures r != Backwards
  {
    Run(b, c, |b|)
  }

  /** The counted loop */
  function FieldsAt(b: Bytes, c: int, count: int): (r: Parsed<int>)
    ensures r != Endless && r != Backwards
    decreases if count > 0 then count else 0
  {
    if count <= 0 then Done(c)
    else
      var dataLen :- ShortAt(b, c + 1);
      FieldsAt(b, c + 3 + dataLen, count - 1)
  }

  /** The tag loop and the tag after it */
  function EndingAt(b: Bytes, c: int): (r: Parsed<int>)
    ensures r.Done? ==> 0 < r.value <= |b|
    ensures r != Backwards
  {
    var d :- TagLoop(b, c);
    var tag :- ByteAt(b, d);
    if tag == TC_NULL then Done(d + 1) else Invalid
  }

  /** The number of fields, and what follows */
  function MembersAt(b: Bytes, c: int): (r: Parsed<int>)
    ensures r.Done? ==> 0 < r.value <= |b|
    ensures r != Backwards
  {
    var count :- ShortAt(b, c);
    var d :- FieldsAt(b, c + 2, count);
    EndingAt(b, d)
  }

  function ClassDescAt(b: Bytes, c: int): (r: Parsed<int>)
    ensures r.Done? ==> 0 < r.value <= |b|
    ensures r != Backwards
  {
    var dataLen :- ShortAt(b, c);
    MembersAt(b, c + 2 + dataLen + 8 + 1)
  }

  /** `readProlog`: where the cursor is afterwards. */
  function PrologAt(b: Bytes, c: int): (r: Parsed<int>)
    ensures r.Done? ==> 0 < r.value <= |b|
    ensures r != Backwards
  {
    var tag :- ByteAt(b, c);
    if tag == TC_CLASSDESC then ClassDescAt(b, c + 1)
    else if tag == TC_REFERENCE then
      var val :- ReadAt(b, c + 1, 4);
      Done(c + 5)
    else Invalid
  }

  // ---------- when it never ends ----------

  /** Where the tag loop is after `n` rounds, if none of them left it. */
  function Rounds(b: Bytes, c: int, n: nat): Option<int>
    decreases n
  {
    if n == 0 then Some(c)
    else match Round(b, c)
      case Done(On(d)) => Rounds(b, d, n - 1)
      case _ => None
  }

  lemma {:induction false} RunEndless(b: Bytes, c: int, more: nat)
    ensures Run(b, c, more) == Endless <==> Rounds(b, c, more + 1).Some?
    decreases more
  {
    hide Round;
    match Round(b, c)
    case Done(On(d)) =>
      assert Rounds(b, d, 0).Some?;
      if more > 0 {
        RunEndless(b, d, more - 1);
      }
    case _ =>
  }

  lemma {:induction false} RoundsAdd(b: Bytes, c: int, m: nat, n: nat)
    ensures Rounds(b, c, m + n) == if Rounds(b, c, m).Some? then Rounds(b, Rounds(b, c, m).value, n) else None
    decreases m
  {
    hide Round;
    if m > 0 {
      match Round(b, c)
      case Done(On(d)) => RoundsAdd(b, d, m - 1, n);
      case _ =>
    }
  }

  lemma {:induction false} RoundsBefore(b: Bytes, c: int, m: nat, n: nat)
    requires m <= n && Rounds(b, c, n).Some?
    ensures Rounds(b, c, m).Some?
    ensures m < n ==> 0 <= Rounds(b, c, m).value < |b|
  {
    hide Round;
    RoundsAdd(b, c, m, n - m);
  }

  /** A loop that is back where it was goes round for ever. */
  lemma {:induction false} Circles(b: Bytes, c: int, d: nat, n: nat)
    requires d > 0 && Rounds(b, c, d) == Some(c)
    ensures Rounds(b, c, n).Some?
  {
    if n < d {
      RoundsBefore(b, c, n, d);
    } else {
      RoundsAdd(b, c, d, n - d);
      Circles(b, c, d, n - d);
    }
  }

  /** Some place occurs twice. */
  lemma {:induction false} Pigeonhole(p: seq<int>, m: nat) returns (i: nat, j: nat)
    requires |p| > m && forall x | x in p :: 0 <= x < m
    ensures i < j < |p| && p[i] == p[j]
    decreases m
  {
    var last := |p| - 1;
    assert p[last] in p;
    if k: nat :| k < last && p[k] == p[last] {
      return k, last;
    }
    // no other place has the last one's number: give it the number m - 1
    var q := seq(last, k requires 0 <= k < last => if p[k] == m - 1 then p[last] else p[k]);
    forall x | x in q
      ensures 0 <= x < m - 1
    {
      var k :| 0 <= k < last && q[k] == x;
      assert p[k] in p && p[last] in p && p[k] != p[last];
    }
    i, j := Pigeonhole(q, m - 1);
    assert p[i] in p && p[j] in p;
  }

  /** The tag loop never ends if and only if it comes to some place twice, and if and only if it goes on for more rounds
      than the buffer has bytes. */
  lemma {:induction false} NeverEnds(b: Bytes, c: int)
    ensures TagLoop(b, c) == Endless <==> forall n: nat :: Rounds(b, c, n).Some?
    ensures TagLoop(b, c) == Endless
       <==> exists i: nat, j: nat :: i < j && Rounds(b, c, i).Some? && Rounds(b, c, i) == Rounds(b, c, j)
  {
    RunEndless(b, c, |b|);
    if TagLoop(b, c) == Endless {
      var i, j := Repeats(b, c);
      assert i < j && Rounds(b, c, i).Some? && Rounds(b, c, i) == Rounds(b, c, j);
    }
    if i: nat, j: nat :| i < j && Rounds(b, c, i).Some? && Rounds(b, c, i) == Rounds(b, c, j) {
      forall n: nat
        ensures Rounds(b, c, n).Some?
      {
        GoesOn(b, c, i, j, n);
      }
    }
  }

  lemma {:induction false} Repeats(b: Bytes, c: int) returns (i: nat, j: nat)
    requires Rounds(b, c, |b| + 1).Some?
    ensures i < j && Rounds(b, c, i).Some? && Rounds(b, c, i) == Rounds(b, c, j)
  {
    hide Rounds;
    forall n | 0 <= n <= |b|
      ensures Rounds(b, c, n).Some? && 0 <= Rounds(b, c, n).value < |b|
    {
      RoundsBefore(b, c, n, |b| + 1);
    }
    var p := seq(|b| + 1, n requires 0 <= n <= |b| => Rounds(b, c, n).value);
    i, j := Pigeonhole(p, |b|);
    assert p[i] == Rounds(b, c, i).value && p[j] == Rounds(b, c, j).value;
  }

  lemma {:induction false} GoesOn(b: Bytes, c: int, i: nat, j: nat, n: nat)
    requires i < j && Rounds(b, c, i).Some? && Rounds(b, c, i) == Rounds(b, c, j)
    ensures Rounds(b, c, n).Some?
  {
    hide Rounds;
    var d := Rounds(b, c, i).value;
    RoundsAdd(b, c, i, j - i);
    if n <= i {
      RoundsBefore(b, c, n, i);
    } else {
      RoundsAdd(b, c, i, n - i);
      assert Rounds(b, d, j - i) == Some(d);
      Circles(b, d, j - i, n - i);
    }
  }

  // ---------- what a negative length can lead to ----------

  /** The start of an event whose class descriptor is never left: after every round of the tag loop, the cursor is on
      the same tag again. */
  const LOOPING: Bytes :=
    [TC_OBJECT, TC_CLASSDESC, 0, 0, 0, 0, 0, 0, 0, 0, 0, 0, 0, 0, 0, FIELD_OBJECT, 0xFF, 0xFD]

  lemma {:induction false} LoopingRounds(n: nat)
    ensures Rounds(LOOPING, 15, n) == Some(15)
  {
    assert LOOPING[16..18] == [0xFF, 0xFD];
    Short(0xFF, 0xFD);
    assert Round(LOOPING, 15) == Done(On(15));
    hide Round;
    if n > 0 {
      LoopingRounds(n - 1);
    }
  }

  lemma {:induction false} Short(hi: byte, lo: byte)
    ensures Signed(BeValue([hi, lo]), 2) == if hi < 0x80 then hi * 0x100 + lo else hi * 0x100 + lo - 0x1_0000
  {
    var s: Bytes := [hi, lo];
    assert s[..1] == [hi] && s[..1][..0] == [];
    assert BeValue(s[..1]) == hi && BeValue(s) == hi * 0x100 + lo;
    assert Pow256(2) == 0x1_0000;
  }

  /** It may never end, ... */
  lemma {:induction false} LoopingEndless()
    ensures PrologAt(LOOPING, 1) == Endless
  {
    hide TagLoop, Rounds;
    assert LOOPING[2..4] == [0, 0] == LOOPING[13..15];
    Short(0, 0);
    assert ShortAt(LOOPING, 2) == Done(0) == ShortAt(LOOPING, 13);
    forall n: nat
      ensures Rounds(LOOPING, 15, n).Some?
    {
      LoopingRounds(n);
    }
    NeverEnds(LOOPING, 15);
  }

  /** ... or leave the buffer, ... */
  lemma {:induction false} Leaving()
    ensures PrologAt([TC_CLASSDESC, 0xFF, 0xF3], 0) == Outside
  {
    var b: Bytes := [TC_CLASSDESC, 0xFF, 0xF3];
    assert b[1..3] == [0xFF, 0xF3];
    Short(0xFF, 0xF3);
    assert ShortAt(b, 1) == Done(-13);
    assert MembersAt(b, -1) == Outside;
  }

  /** ... or do no harm: here the cursor goes from 3 back to -2 and on to 6, 7 and 9, where the end tag is. */
  lemma {:induction false} BackAndOn()
    ensures PrologAt([TC_CLASSDESC, 0xFF, 0xFB, 0, 0, 0, 0, 0, 0, TC_ENDBLOCKDATA, TC_NULL], 0) == Done(11)
  {
    var b: Bytes := [TC_CLASSDESC, 0xFF, 0xFB, 0, 0, 0, 0, 0, 0, TC_ENDBLOCKDATA, TC_NULL];
    assert b[1..3] == [0xFF, 0xFB] && b[7..9] == [0, 0];
    Short(0xFF, 0xFB);
    Short(0, 0);
    assert ShortAt(b, 1) == Done(-5) && ShortAt(b, 7) == Done(0);
    assert Round(b, 9) == Done(Off(10));
    assert TagLoop(b, 9) == Done(10);
  }
}
