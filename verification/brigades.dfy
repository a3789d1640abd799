/** Brigades: rings of buckets, read as one stretch of bytes. */
module Brigades {
  import opened Basics
  import opened Buckets
  import opened BucketSafety

  /** `APR_BUCKET_BUFF_SIZE` */
  const BUFF_SIZE: nat := 8000

  const LF: byte := 10

  /** What a bucket holds. */
  ghost function Data(w: World, b: BucketId): Bytes {
    if b in w.buckets && Readable(w, b) then Content(w, b) else []
  }

  /** What a list of buckets holds. */
  ghost function Text(w: World, l: seq<BucketId>): Bytes
    decreases |l|
  {
    if l == [] then [] else Data(w, l[0]) + Text(w, l[1..])
  }

  lemma {:induction false} TextAppend(w: World, l: seq<BucketId>, m: seq<BucketId>)
    ensures Text(w, l + m) == Text(w, l) + Text(w, m)
    decreases |l|
  {
    hide Data;
    if l == [] {
      assert l + m == m;
    } else {
      assert (l + m)[1..] == l[1..] + m;
      TextAppend(w, l[1..], m);
    }
  }

  lemma {:induction false} TextOne(w: World, b: BucketId)
    ensures Text(w, [b]) == Data(w, b)
  {
    hide Data;
    assert [b][1..] == [];
  }

  lemma {:induction false} TextSame(w: World, w': World, l: seq<BucketId>)
    requires forall b | b in l :: Data(w', b) == Data(w, b)
    ensures Text(w', l) == Text(w, l)
    decreases |l|
  {
    hide Data;
    if l != [] {
      assert forall b | b in l[1..] :: b in l;
      TextSame(w, w', l[1..]);
    }
  }

  /** The buckets of a brigade are there, and each is in it once. */
  ghost predicate Ring(w: World, l: seq<BucketId>) {
    && (forall b | b in l :: b in w.buckets)
    && (forall i, j :: 0 <= i < j < |l| ==> l[i] != l[j])
  }

  /** Names are given out in order. */
  ghost predicate Below(w: World, next: nat) {
    && (forall a | a in w.mem :: a < next) && (forall k | k in w.blocks :: k < next)
    && (forall b | b in w.buckets :: b < next) && (forall k | k in w.freed :: k < next)
  }

  lemma {:induction false} BelowFresh(w: World, next: nat)
    requires Ok(w) && Below(w, next)
    ensures FreshBlock(w, next) && FreshAddr(w, next) && next !in w.buckets
  {
  }

  /** Bucket `b` is new, and no other has changed. */
  ghost predicate Added(w: World, w': World, b: BucketId) {
    b !in w.buckets && w'.buckets.Keys == w.buckets.Keys + {b} && Kept(w, w', b)
  }

  lemma {:induction false} KeptData(w: World, w': World, e: BucketId, b: BucketId)
    requires Kept(w, w', e) && b in w.buckets && b != e
    ensures Data(w', b) == Data(w, b) && b in w'.buckets && NatureOf(w', b) == NatureOf(w, b)
  {
    assert Same(w, w', b);
  }

  lemma {:induction false} KeptText(w: World, w': World, e: BucketId, l: seq<BucketId>)
    requires Kept(w, w', e) && e !in l && forall b | b in l :: b in w.buckets
    ensures Text(w', l) == Text(w, l)
  {
    hide Data, Kept;
    forall b | b in l
      ensures Data(w', b) == Data(w, b)
    {
      KeptData(w, w', e, b);
    }
    TextSame(w, w', l);
  }

  /** What matters about the type of a bucket: metadata, a stream, or bytes that are there. */
  datatype Nature = Gone | Mark | Flow | Solid

  ghost function NatureOf(w: World, b: BucketId): Nature {
    if b !in w.buckets then Gone
    else if w.buckets[b].kind.Metadata? then Mark
    else if w.buckets[b].kind.Stream? then Flow
    else Solid
  }

  /** The metadata buckets of a list. */
  ghost function Marks(w: World, l: seq<BucketId>): seq<BucketId>
    decreases |l|
  {
    if l == [] then [] else (if NatureOf(w, l[0]) == Mark then [l[0]] else []) + Marks(w, l[1..])
  }

  lemma {:induction false} MarksAppend(w: World, l: seq<BucketId>, m: seq<BucketId>)
    ensures Marks(w, l + m) == Marks(w, l) + Marks(w, m)
    decreases |l|
  {
    hide NatureOf;
    if l == [] {
      assert l + m == m;
    } else {
      assert (l + m)[1..] == l[1..] + m;
      MarksAppend(w, l[1..], m);
    }
  }

  lemma {:induction false} MarksSame(w: World, w': World, l: seq<BucketId>)
    requires forall b | b in l :: NatureOf(w', b) == Mark <==> NatureOf(w, b) == Mark
    ensures Marks(w', l) == Marks(w, l)
    decreases |l|
  {
    hide NatureOf;
    if l != [] {
      assert l[0] in l;
      assert forall b | b in l[1..] :: b in l;
      MarksSame(w, w', l[1..]);
    }
  }

  /** Some bucket of a list is a stream. */
  ghost predicate Streaming(w: World, l: seq<BucketId>) {
    exists b | b in l :: NatureOf(w, b) == Flow
  }

  /** What a list has gained is new, and nothing has gone. */
  ghost predicate Grown(w: World, w': World, l: seq<BucketId>, l': seq<BucketId>) {
    (forall b | b in l' :: b in l || b !in w.buckets) && w.buckets.Keys <= w'.buckets.Keys
  }

  /** Buckets outside a list hold what they held. */
  ghost predicate Spares(w: World, w': World, l: seq<BucketId>) {
    forall b | b in w.buckets && b !in l ::
      b in w'.buckets && Data(w', b) == Data(w, b) && NatureOf(w', b) == NatureOf(w, b)
  }

  /** A new bucket at the end of a brigade. */
  lemma {:induction false} PushKeeps(w: World, w': World, l: seq<BucketId>, b: BucketId)
    requires Added(w, w', b) && Ring(w, l) && NatureOf(w', b) == Solid
    ensures Ring(w', l + [b]) == true && Text(w', l + [b]) == Text(w, l) + Data(w', b) && Spares(w, w', []) == true
    ensures Marks(w', l + [b]) == Marks(w, l)
  {
    hide Data, Kept;
    assert b !in l;
    KeptText(w, w', b, l);
    TextAppend(w', l, [b]);
    KeptMarks(w, w', b, l);
    MarksAppend(w', l, [b]);
    assert Marks(w', [b]) == [];
    forall e | e in w.buckets
      ensures Data(w', e) == Data(w, e) && NatureOf(w', e) == NatureOf(w, e)
    {
      KeptData(w, w', b, e);
    }
  }

  lemma {:induction false} KeptMarks(w: World, w': World, e: BucketId, l: seq<BucketId>)
    requires Kept(w, w', e) && e !in l && forall b | b in l :: b in w.buckets
    ensures Marks(w', l) == Marks(w, l)
  {
    hide Data, Kept, NatureOf;
    forall b | b in l
      ensures NatureOf(w', b) == NatureOf(w, b)
    {
      KeptData(w, w', e, b);
    }
    MarksSame(w, w', l);
  }

  /** The last bucket of a brigade holds more. */
  lemma {:induction false} LastGrows(w: World, w': World, l: seq<BucketId>, s: Bytes)
    requires l != [] && Ring(w, l) && Kept(w, w', l[|l| - 1]) && w'.buckets.Keys == w.buckets.Keys
    requires Data(w', l[|l| - 1]) == Data(w, l[|l| - 1]) + s && NatureOf(w', l[|l| - 1]) == NatureOf(w, l[|l| - 1])
    ensures Ring(w', l) == true && Text(w', l) == Text(w, l) + s && Spares(w, w', [l[|l| - 1]]) == true
    ensures Marks(w', l) == Marks(w, l)
  {
    hide Data, Kept, NatureOf;
    var m := |l| - 1;
    var e := l[m];
    assert l == l[..m] + [e];
    KeptText(w, w', e, l[..m]);
    TextAppend(w, l[..m], [e]);
    TextAppend(w', l[..m], [e]);
    KeptMarks(w, w', e, l[..m]);
    MarksAppend(w, l[..m], [e]);
    MarksAppend(w', l[..m], [e]);
    KeptSpares(w, w', e);
  }

  lemma {:induction false} SparesMore(w: World, w1: World, w2: World, l: seq<BucketId>, m: seq<BucketId>,
          all: seq<BucketId>)
    requires Spares(w, w1, l) && Spares(w1, w2, m)
    requires forall b | b in l :: b in all
    requires forall b | b in m && b in w.buckets :: b in all
    ensures Spares(w, w2, all) == true
  {
    hide Data;
  }

  /** Where a flush function hands things on to, unless it fails. */
  class Sink {
    var out: Bytes
    const refuses: bool

    constructor (refuses: bool)
      ensures out == [] && this.refuses == refuses
    {
      out, this.refuses := [], refuses;
    }
  }

  class Brigade {
    var list: seq<BucketId>

    constructor ()
      ensures list == []
    {
      list := [];
    }
  }

  ghost function Out(s: Sink?): Bytes
    reads s
  {
    if s == null then [] else s.out
  }

  /** `apr_bucket_alloc_t`, and the memory behind it. */
  class Apr {
    var mem: map<Addr, Bytes>
    var blocks: map<BlockId, Block>
    var buckets: map<BucketId, Bucket>
    ghost var freed: seq<BlockId>
    var next: nat

    ghost function W(): World
      reads this
    {
      World(mem, blocks, buckets, freed)
    }

    ghost predicate Valid()
      reads this
    {
      Ok(W()) && Below(W(), next)
    }

    /** `apr_bucket_heap_create`; the bucket covers the first `length` bytes of the block. */
    method HeapCreate(buf: Bytes, length: nat) returns (b: BucketId)
      requires Valid() == true && length <= |buf|
      modifies this
      ensures Valid() == true && Added(old(W()), W(), b) == true && Data(W(), b) == buf[..length]
      ensures Sole(W(), b) && Space(W(), b) == |buf| - length && NatureOf(W(), b) == Solid
    {
      hide Ok, Kept;
      BelowFresh(W(), next);
      b := next;
      HeapCreateKeeps(W(), b, next, next, buf, length);
      mem := mem[next := buf];
      blocks := blocks[next := Block(1, Some(next), |buf|, None)];
      buckets := buckets[b := Bucket(Heap, next, 0, length, [])];
      next := next + 1;
      assert W() == Buckets.HeapCreate(old(W()), b, b, b, buf, length);
    }

    /** `apr_bucket_transient_create` on memory of the caller's */
    method TransientCreate(str: Bytes) returns (b: BucketId)
      requires Valid() == true
      modifies this
      ensures Valid() == true && Added(old(W()), W(), b) == true && Data(W(), b) == str && NatureOf(W(), b) == Solid
    {
      hide Ok, Kept;
      BelowFresh(W(), next);
      b := next;
      BorrowKeeps(W(), b, Transient, next, str);
      mem := mem[next := str];
      buckets := buckets[b := Bucket(Transient, next, 0, |str|, [])];
      next := next + 1;
      assert W() == Borrow(old(W()), b, Transient, b, str);
    }

    /** `apr_bucket_destroy` */
    method Destroy(b: BucketId)
      requires Valid() == true && b in buckets
      modifies this
      ensures Valid() == true && Kept(old(W()), W(), b) == true && buckets.Keys == old(buckets).Keys - {b}
    {
      hide Ok, Kept;
      DestroyKeeps(W(), b);
      ghost var w := W();
      var k := BlockOf(w, b);
      var x := buckets[b];
      buckets := buckets - {b};
      if x.kind == Heap || x.kind == Pool {
        var r := blocks[x.data];
        blocks := blocks[x.data := r.(refcount := r.refcount - 1)];
        if blocks[x.data].refcount == 0 {
          if r.base.Some? {
            mem := mem - {r.base.value};
          }
          blocks := blocks - {x.data};
          freed := freed + [x.data];
        }
      }
      assert W() == Buckets.Destroy(w, b);
    }

    /** `apr_bucket_shared_split`, `apr_bucket_simple_split` */
    method Split(b: BucketId, point: nat) returns (st: Status, c: BucketId)
      requires Valid() == true && b in buckets
      modifies this
      ensures Valid() == true && Kept(old(W()), W(), b) == true
      ensures st == Success
              <==> old(buckets)[b].kind != Metadata && old(buckets)[b].kind != Stream && point <= old(buckets)[b].length
      ensures st == Success ==>
                && c !in old(buckets) && buckets.Keys == old(buckets).Keys + {c} && b in old(buckets)
                && Data(W(), b) + Data(W(), c) == Data(old(W()), b) && |Data(W(), b)| == point
                && NatureOf(W(), b) == NatureOf(W(), c) == NatureOf(old(W()), b) == Solid
      ensures st != Success ==> W() == old(W())
      ensures st == NotImplemented <==> old(buckets)[b].kind == Metadata || old(buckets)[b].kind == Stream
      ensures st != Again && st != Incomplete
    {
      hide Ok, Kept;
      BelowFresh(W(), next);
      c := next;
      SplitKeeps(W(), b, point, c);
      ghost var w := W();
      ghost var k := BlockOf(w, b);
      var x := buckets[b];
      if x.kind == Metadata || x.kind == Stream {
        return NotImplemented, c;
      }
      if point > x.length {
        return Invalid, c;
      }
      buckets := buckets[b := x.(length := point)][c := x.(start := x.start + point, length := x.length - point)];
      if x.kind == Heap || x.kind == Pool {
        blocks := blocks[x.data := blocks[x.data].(refcount := blocks[x.data].refcount + 1)];
      }
      next := next + 1;
      st := Success;
      assert (W(), Success) == Buckets.Split(w, b, point, c);
    }

    /** `memcpy` behind the end of a bucket, and its new length */
    method Append(b: BucketId, s: Bytes)
      requires Valid() == true && Writable(W(), b, |s|)
      modifies this
      ensures Valid() == true && Kept(old(W()), W(), b) == true && buckets.Keys == old(buckets).Keys
      ensures Data(W(), b) == Data(old(W()), b) + s && NatureOf(W(), b) == old(NatureOf(W(), b))
      ensures Sole(W(), b) && Space(W(), b) == old(Space(W(), b)) - |s|
    {
      hide Ok, Kept;
      ExtendKeeps(W(), b, s);
      ghost var w := W();
      var x := buckets[b];
      var a := blocks[x.data].base.value;
      mem := mem[a := Overwrite(mem[a], x.start + x.length, s)];
      buckets := buckets[b := x.(length := x.length + |s|)];
      assert W() == Extend(w, b, s);
    }

    /** `apr_brigade_cleanup` */
    method Cleanup(bb: Brigade)
      requires Valid() == true && Ring(W(), bb.list) == true
      modifies this, bb
      ensures Valid() == true && bb.list == [] && Spares(old(W()), W(), old(bb.list)) == true
    {
      hide Ok, Kept, Data;
      while bb.list != []
        invariant Valid() == true && Ring(W(), bb.list) == true && Spares(old(W()), W(), old(bb.list)) == true
        invariant forall b | b in bb.list :: b in old(bb.list)
        decreases |bb.list|
      {
        ghost var w := W();
        var e := bb.list[0];
        Destroy(e);
        Popped(w, W(), bb.list);
        SparesMore(old(W()), w, W(), old(bb.list), [e], old(bb.list));
        bb.list := bb.list[1..];
      }
    }

    /** A flush function: it hands everything to the sink, or fails and leaves things as they are. */
    method Flush(bb: Brigade, sink: Sink) returns (st: Status)
      requires Valid() == true && Ring(W(), bb.list) == true
      modifies this, bb, sink
      ensures Valid() == true && Ring(W(), bb.list) == true && Spares(old(W()), W(), old(bb.list)) == true
      ensures st == Success <==> !sink.refuses
      ensures sink.out + Text(W(), bb.list) == old(sink.out + Text(W(), bb.list))
      ensures forall b | b in bb.list :: b in old(bb.list)
    {
      hide Ok, Kept, Data;
      if sink.refuses {
        return Again;
      }
      var all := Flattened(bb.list);
      Cleanup(bb);
      sink.out := sink.out + all;
      assert sink.out + [] == sink.out;
      return Success;
    }

    /** The bytes of known-length buckets, one after the other */
    method Flattened(list: seq<BucketId>) returns (all: Bytes)
      requires Valid() == true && Ring(W(), list) == true
      ensures all == Text(W(), list)
    {
      hide Ok, Kept;
      all := [];
      var i := 0;
      assert list[0..] == list;
      while i < |list|
        invariant 0 <= i <= |list|
        invariant Text(W(), list) == all + Text(W(), list[i..])
      {
        var s := Peek(list[i]);
        assert list[i..][0] == list[i] && list[i..][1..] == list[i + 1..];
        assert all + (s + Text(W(), list[i + 1..])) == (all + s) + Text(W(), list[i + 1..]);
        all := all + s;
        i := i + 1;
      }
      assert all + [] == all;
    }

    /** What a bucket holds, wherever it is kept */
    method Peek(b: BucketId) returns (s: Bytes)
      requires Valid() == true && b in buckets
      ensures s == Data(W(), b)
    {
      IsOk(W(), b);
      var x := buckets[b];
      match x.kind {
        case Heap =>
          var k := blocks[x.data];
          var m := mem[k.base.value];
          s := m[x.start..x.start + x.length];
        case Pool =>
          var k := blocks[x.data];
          var m := mem[if k.poolBase.Some? then k.poolBase.value else k.base.value];
          s := m[x.start..x.start + x.length];
        case Transient =>
          var m := mem[x.data];
          s := m[x.start..x.start + x.length];
        case Immortal =>
          var m := mem[x.data];
          s := m[x.start..x.start + x.length];
        case Metadata => s := [];
        case Stream => s := x.pending;
      }
    }

    /** `APR_BRIGADE_INSERT_TAIL` of a new heap bucket with a copy of the bytes */
    method PushHeap(bb: Brigade, buf: Bytes, length: nat) returns (b: BucketId)
      requires Valid() == true && Ring(W(), bb.list) == true && length <= |buf|
      modifies this, bb
      ensures Valid() == true && Ring(W(), bb.list) == true && bb.list == old(bb.list) + [b] && b !in old(buckets)
      ensures Text(W(), bb.list) == old(Text(W(), bb.list)) + buf[..length] && Spares(old(W()), W(), []) == true
      ensures Marks(W(), bb.list) == old(Marks(W(), bb.list))
      ensures old(buckets).Keys <= buckets.Keys
      ensures Sole(W(), b) && Space(W(), b) == |buf| - length
    {
      hide Ok, Kept, Data;
      b := HeapCreate(buf, length);
      PushKeeps(old(W()), W(), bb.list, b);
      bb.list := bb.list + [b];
    }

    method PushTransient(bb: Brigade, str: Bytes)
      requires Valid() == true && Ring(W(), bb.list) == true
      modifies this, bb
      ensures Valid() == true && Ring(W(), bb.list) == true
              && (forall b | b in bb.list :: b in old(bb.list) || b !in old(buckets))
      ensures Text(W(), bb.list) == old(Text(W(), bb.list)) + str && Spares(old(W()), W(), []) == true
      ensures Marks(W(), bb.list) == old(Marks(W(), bb.list))
      ensures old(buckets).Keys <= buckets.Keys
    {
      hide Ok, Kept, Data;
      var b := TransientCreate(str);
      PushKeeps(old(W()), W(), bb.list, b);
      bb.list := bb.list + [b];
    }

    /** Writing behind the end of the last bucket */
    method AppendLast(bb: Brigade, s: Bytes)
      requires Valid() == true && Ring(W(), bb.list) == true && bb.list != []
               && Writable(W(), bb.list[|bb.list| - 1], |s|)
      modifies this
      ensures Valid() == true && Ring(W(), bb.list) == true
      ensures Text(W(), bb.list) == old(Text(W(), bb.list)) + s && Spares(old(W()), W(), bb.list) == true
      ensures Marks(W(), bb.list) == old(Marks(W(), bb.list))
      ensures Sole(W(), bb.list[|bb.list| - 1])
              && Space(W(), bb.list[|bb.list| - 1]) == old(Space(W(), bb.list[|bb.list| - 1])) - |s|
    {
      hide Ok, Kept, Data, Sole, Space;
      var e := bb.list[|bb.list| - 1];
      Append(e, s);
      LastGrows(old(W()), W(), bb.list, s);
    }

    /** How many bytes can be written behind the end of the last bucket; nothing unless it is a heap bucket whose block
        no other bucket shares. */
    method Room(bb: Brigade) returns (some: bool, remaining: nat)
      requires Valid() == true && Ring(W(), bb.list) == true
      ensures some <==> bb.list != [] && Sole(W(), bb.list[|bb.list| - 1])
      ensures some ==> Space(W(), bb.list[|bb.list| - 1]) == remaining
      ensures !some ==> remaining == BUFF_SIZE
    {
      hide Kept, Data;
      some, remaining := false, BUFF_SIZE;
      if bb.list != [] {
        var e := bb.list[|bb.list| - 1];
        IsOk(W(), e);
        var x := buckets[e];
        if x.kind == Heap && blocks[x.data].refcount == 1 {
          some, remaining := true, blocks[x.data].allocLen - (x.length + x.start);
        }
      }
    }

    /** `apr_brigade_write`: the brigade, or the sink and the brigade, hold the bytes behind what they held before, and
        no bucket of another brigade holds anything else than before. */
    method Write(bb: Brigade, flush: Sink?, str: Bytes) returns (st: Status)
      requires Valid() == true && Ring(W(), bb.list) == true
      modifies this, bb, flush
      ensures Valid() == true && Ring(W(), bb.list) == true && Spares(old(W()), W(), old(bb.list)) == true
      ensures Out(flush) + Text(W(), bb.list) == old(Out(flush) + Text(W(), bb.list)) + str
      ensures forall b | b in bb.list :: b in old(bb.list) || b !in old(buckets)
      ensures flush == null || !flush.refuses ==> st == Success
      ensures flush == null ==> Marks(W(), bb.list) == old(Marks(W(), bb.list))
    {
      hide Ok, Kept, Data, Text, Marks, NatureOf, Sole, Space, Ring, Spares;
      var buf, remaining := Room(bb);
      ghost var w := W();
      ghost var text := Text(W(), bb.list);
      assert Out(flush) + (text + str) == (Out(flush) + text) + str;
      if |str| > remaining {
        if flush != null {
          PushTransient(bb, str);
          ghost var w1, l1 := W(), bb.list;
          st := Flush(bb, flush);
          SparesNew(w, w1, W(), old(bb.list), l1);
        } else {
          var _ := PushHeap(bb, str, |str|);
          assert str[..|str|] == str;
          SparesAll(w, W(), old(bb.list));
          st := Success;
        }
        return;
      }
      if !buf {
        var junk := Junk();
        var e := PushHeap(bb, junk, 0);
        assert text + junk[..0] == text;
      }
      ghost var w1, l1 := W(), bb.list;
      AppendLast(bb, str);
      if buf {
        SparesMore(w, w, W(), [], l1, old(bb.list)) by { SparesSelf(w); }
      } else {
        SparesNew(w, w1, W(), old(bb.list), l1);
      }
      return Success;
    }

    /** Buckets of their own for all the pieces of a vector */
    method PushAll(bb: Brigade, vec: seq<Bytes>, transient: bool)
      requires Valid() == true && Ring(W(), bb.list) == true
      modifies this, bb
      ensures Valid() == true && Ring(W(), bb.list) == true && Spares(old(W()), W(), []) == true
      ensures forall b | b in bb.list :: b in old(bb.list) || b !in old(buckets)
      ensures Text(W(), bb.list) == old(Text(W(), bb.list)) + Joined(vec)
      ensures Marks(W(), bb.list) == old(Marks(W(), bb.list))
    {
      hide Ok, Kept, Data, Sole, Space, Ring, Spares;
      SparesSelf(W());
      ghost var text := Text(W(), bb.list);
      assert text + [] == text;
      var i := 0;
      while i < |vec|
        invariant 0 <= i <= |vec|
        invariant Valid() == true && Ring(W(), bb.list) == true && Spares(old(W()), W(), []) == true
        invariant old(buckets).Keys <= buckets.Keys
        invariant forall b | b in bb.list :: b in old(bb.list) || b !in old(buckets)
        invariant Text(W(), bb.list) == text + Joined(vec[..i]) && Marks(W(), bb.list) == old(Marks(W(), bb.list))
      {
        ghost var w := W();
        if transient {
          PushTransient(bb, vec[i]);
        } else {
          var _ := PushHeap(bb, vec[i], |vec[i]|);
          assert vec[i][..|vec[i]|] == vec[i];
        }
        SparesTwice(old(W()), w, W());
        JoinedNext(vec, i);
        assert (text + Joined(vec[..i])) + vec[i] == text + (Joined(vec[..i]) + vec[i]);
        i := i + 1;
      }
      assert vec[..|vec|] == vec;
    }

    /** Copying pieces into the last bucket as long as they fit */
    method AppendWhile(bb: Brigade, vec: seq<Bytes>, start: nat, room: nat) returns (i: nat)
      requires Valid() == true && Ring(W(), bb.list) == true && start <= |vec|
      requires bb.list != [] && Sole(W(), bb.list[|bb.list| - 1]) && Space(W(), bb.list[|bb.list| - 1]) == room
      modifies this
      ensures Valid() == true && Ring(W(), bb.list) == true && Spares(old(W()), W(), bb.list) == true
      ensures start <= i <= |vec| && Text(W(), bb.list) == old(Text(W(), bb.list)) + Joined(vec[start..i])
      ensures i < |vec| ==> |Joined(vec[start..i])| + |vec[i]| > room
      ensures Marks(W(), bb.list) == old(Marks(W(), bb.list))
    {
      hide Ok, Kept, Data, Sole, Space, Ring, Spares;
      ghost var text := Text(W(), bb.list);
      assert text + [] == text && vec[start..start] == [];
      var remaining := room;
      i := start;
      SparesSelf(W());
      SparesAll(W(), W(), bb.list);
      while i < |vec| && |vec[i]| <= remaining
        invariant start <= i <= |vec| && Valid() == true && Ring(W(), bb.list) == true
                  && Spares(old(W()), W(), bb.list) == true
        invariant Sole(W(), bb.list[|bb.list| - 1]) && Space(W(), bb.list[|bb.list| - 1]) == remaining
        invariant remaining == room - |Joined(vec[start..i])|
        invariant Text(W(), bb.list) == text + Joined(vec[start..i]) && Marks(W(), bb.list) == old(Marks(W(), bb.list))
      {
        ghost var w := W();
        AppendLast(bb, vec[i]);
        SparesMore(old(W()), w, W(), bb.list, bb.list, bb.list);
        assert vec[start..i + 1] == vec[start..i] + [vec[i]];
        JoinedPush(vec[start..i], vec[i]);
        assert (text + Joined(vec[start..i])) + vec[i] == text + (Joined(vec[start..i]) + vec[i]);
        remaining := remaining - |vec[i]|;
        i := i + 1;
      }
    }

    /** `apr_brigade_writev`: as for `apr_brigade_write`; a flush function that fails may leave a rest of the vector
        unwritten. */
    method Writev(bb: Brigade, flush: Sink?, vec: seq<Bytes>) returns (st: Status, ghost done: nat)
      requires Valid() == true && Ring(W(), bb.list) == true
      modifies this, bb, flush
      ensures Valid() == true && Ring(W(), bb.list) == true && Spares(old(W()), W(), old(bb.list)) == true
      ensures done <= |vec| && (st == Success ==> done == |vec|) && (flush == null || !flush.refuses ==> st == Success)
      ensures flush == null ==> Marks(W(), bb.list) == old(Marks(W(), bb.list))
      ensures Out(flush) + Text(W(), bb.list) == old(Out(flush) + Text(W(), bb.list)) + Joined(vec[..done])
    {
      hide Ok, Kept, Data, Sole, Space, Ring, Spares, Joined;
      var total := TotalLength(vec);
      ghost var w := W();
      ghost var text := Text(W(), bb.list);
      assert vec[..|vec|] == vec;
      if total > BUFF_SIZE {
        PushAll(bb, vec, flush != null);
        done := |vec|;
        assert Out(flush) + (text + Joined(vec)) == (Out(flush) + text) + Joined(vec);
        ghost var w1, l1 := W(), bb.list;
        if flush != null {
          st := Flush(bb, flush);
          SparesNew(w, w1, W(), old(bb.list), l1);
        } else {
          SparesAll(w, W(), old(bb.list));
          st := Success;
        }
        return;
      }
      var i, finished;
      i, st, finished := FillLast(bb, flush, vec, total);
      done := i;
      if finished || st != Success {
        return;
      }
      ghost var w2, l2, t2 := W(), bb.list, Text(W(), bb.list);
      PushRest(bb, vec, i, total);
      SparesMore(w, w2, W(), old(bb.list), l2, old(bb.list));
      JoinedSplit(vec, i);
      Regroup(Out(flush), t2, old(Out(flush)) + text, Joined(vec[..i]), Joined(vec[i..]));
      return Success, |vec|;
    }

    /** The part of `apr_brigade_writev` that writes into the bucket at the end: `finished` if that takes it all. */
    method FillLast(bb: Brigade, flush: Sink?, vec: seq<Bytes>, total: nat) returns (i: nat, st: Status, finished: bool)
      requires Valid() == true && Ring(W(), bb.list) == true && total == |Joined(vec)|
      modifies this, bb, flush
      ensures Valid() == true && Ring(W(), bb.list) == true && Spares(old(W()), W(), old(bb.list)) == true
      ensures forall b | b in bb.list :: b in old(bb.list)
      ensures i <= |vec| && (finished ==> i == |vec| && st == Success)
      ensures flush == null || !flush.refuses ==> st == Success
      ensures flush == null ==> Marks(W(), bb.list) == old(Marks(W(), bb.list))
      ensures Out(flush) + Text(W(), bb.list) == old(Out(flush) + Text(W(), bb.list)) + Joined(vec[..i])
    {
      hide Ok, Kept, Data, Sole, Space, Ring, Spares, Joined;
      ghost var w, text := W(), Text(W(), bb.list);
      i, st, finished := 0, Success, false;
      var buf, remaining := Room(bb);
      SparesSelf(w);
      SparesAll(w, w, bb.list);
      JoinedNone(vec);
      assert Out(flush) + text + [] == Out(flush) + text;
      if buf {
        i := AppendWhile(bb, vec, 0, remaining);
        assert vec[0..i] == vec[..i];
        assert Out(flush) + (text + Joined(vec[..i])) == (Out(flush) + text) + Joined(vec[..i]);
        if remaining >= total {
          AllFit(vec, i, remaining);
          finished := true;
        } else if flush != null {
          ghost var w1, l1 := W(), bb.list;
          st := Flush(bb, flush);
          SparesMore(w, w1, W(), l1, l1, l1);
        }
      }
    }

    /** A new heap bucket for what is left of the vector */
    method PushRest(bb: Brigade, vec: seq<Bytes>, i: nat, ghost total: nat)
      requires Valid() == true && Ring(W(), bb.list) == true && i <= |vec| && |Joined(vec)| == total <= BUFF_SIZE
      modifies this, bb
      ensures Valid() == true && Ring(W(), bb.list) == true && Spares(old(W()), W(), old(bb.list)) == true
      ensures forall b | b in bb.list :: b in old(bb.list) || b !in old(buckets)
      ensures Text(W(), bb.list) == old(Text(W(), bb.list)) + Joined(vec[i..])
      ensures Marks(W(), bb.list) == old(Marks(W(), bb.list))
    {
      hide Ok, Kept, Data, Sole, Space, Ring, Spares, Joined;
      ghost var w, l := W(), bb.list;
      var junk := Junk();
      var e := PushHeap(bb, junk, 0);
      assert Text(w, l) + junk[..0] == Text(w, l);
      ghost var w1, l1 := W(), bb.list;
      var j := AppendWhile(bb, vec, i, BUFF_SIZE);
      JoinedFits(vec, i, j);
      assert vec[i..|vec|] == vec[i..];
      SparesNew(w, w1, W(), l, l1);
    }

    method TotalLength(vec: seq<Bytes>) returns (total: nat)
      ensures total == |Joined(vec)|
    {
      total := 0;
      var i := 0;
      while i < |vec|
        invariant 0 <= i <= |vec| && total == |Joined(vec[..i])|
      {
        JoinedNext(vec, i);
        total := total + |vec[i]|;
        i := i + 1;
      }
      assert vec[..|vec|] == vec;
    }

    /** `apr_bucket_split` of a bucket in a brigade: the new bucket goes right after it. */
    method SplitIn(bb: Brigade, i: nat, point: nat) returns (st: Status)
      requires Valid() == true && Ring(W(), bb.list) == true && i < |bb.list|
      modifies this, bb
      ensures Valid() == true && Ring(W(), bb.list) == true && Spares(old(W()), W(), [old(bb.list)[i]]) == true
      ensures Text(W(), bb.list) == old(Text(W(), bb.list)) && Marks(W(), bb.list) == old(Marks(W(), bb.list))
      ensures Streaming(W(), bb.list) ==> old(Streaming(W(), bb.list))
      ensures st != Success ==> bb.list == old(bb.list) && W() == old(W())
      ensures st == Success ==> exists c ::
                && c !in old(buckets) && bb.list == old(bb.list)[..i + 1] + [c] + old(bb.list)[i + 1..]
                && Data(W(), old(bb.list)[i]) + Data(W(), c) == old(Data(W(), bb.list[i]))
                   && |Data(W(), old(bb.list)[i])| == point
      ensures st == Success
              <==> old(buckets)[old(bb.list)[i]].kind != Metadata && old(buckets)[old(bb.list)[i]].kind != Stream
                                 && point <= old(buckets)[old(bb.list)[i]].length
      ensures st == NotImplemented
              <==> old(buckets)[old(bb.list)[i]].kind == Metadata || old(buckets)[old(bb.list)[i]].kind == Stream
      ensures st != Again && st != Incomplete && old(buckets).Keys <= buckets.Keys
    {
      hide Ok, Kept, Data, Spares, Marks, Streaming;
      ghost var w, l := W(), bb.list;
      var e := bb.list[i];
      var c;
      st, c := Split(e, point);
      if st == Success {
        bb.list := bb.list[..i + 1] + [c] + bb.list[i + 1..];
        Inserted(w, W(), l, i, c);
      } else {
        SparesSelf(w);
        SparesAll(w, w, [e]);
      }
    }

    /** `apr_bucket_read` of a bucket in a brigade.  A stream delivers some bytes, which turn it into a heap bucket with
        another stream after it, or its end, or nothing for now. */
    method Read(bb: Brigade, i: nat) returns (st: Status, str: Bytes)
      requires Valid() == true && Ring(W(), bb.list) == true && i < |bb.list|
      modifies this, bb
      ensures Valid() == true && Ring(W(), bb.list) == true && Spares(old(W()), W(), [old(bb.list)[i]]) == true
      ensures Text(W(), bb.list) == old(Text(W(), bb.list))
      ensures Marks(W(), bb.list) == old(Marks(W(), bb.list))
      ensures Streaming(W(), bb.list) ==> old(Streaming(W(), bb.list))
      ensures st != Success ==> st == Again && bb.list == old(bb.list) && W() == old(W())
      ensures st == Again ==> old(NatureOf(W(), bb.list[i])) == Flow
      ensures old(NatureOf(W(), bb.list[i])) != Flow ==> bb.list == old(bb.list) && str == old(Data(W(), bb.list[i]))
      ensures i < |bb.list| && bb.list[..i + 1] == old(bb.list)[..i + 1]
      ensures Grown(old(W()), W(), old(bb.list), bb.list) == true
      ensures st == Success ==>
                && bb.list[i] in buckets && buckets[bb.list[i]].kind != Stream && str == Data(W(), bb.list[i])
                   && |str| == buckets[bb.list[i]].length
                && (|str| > 0 ==> buckets[bb.list[i]].kind != Metadata)
                && (old(buckets)[old(bb.list)[i]].kind == Stream ==> |str| <= BUFF_SIZE)
                && Load(W(), bb.list[i + 1..]) < old(Load(W(), bb.list[i..]))
    {
      hide Ok, Kept, Spares, Load, Data, Text, Marks;
      ghost var w, l := W(), bb.list;
      var e := bb.list[i];
      if buckets[e].kind == Stream {
        var empty: bool := *;
        if empty {
          SparesSelf(w);
          SparesAll(w, w, [e]);
          return Again, [];
        }
      }
      if buckets[e].kind == Stream && buckets[e].pending != [] {
        DeliverIn(bb, i);
      } else {
        if buckets[e].kind == Stream {
          EndStream(e);
        } else {
          TouchPool(e);
        }
        InPlace(w, W(), l, i);
        LoadFirst(w, W(), l, i);
      }
      str := Peek(e);
      ReadableLength(W(), e);
      return Success, str;
    }

    /** A stream that delivers something: its place is taken by a heap bucket and another stream. */
    method DeliverIn(bb: Brigade, i: nat)
      requires Valid() == true && Ring(W(), bb.list) == true && i < |bb.list|
      requires buckets[bb.list[i]].kind == Stream && buckets[bb.list[i]].pending != []
      modifies this, bb
      ensures Valid() == true && Ring(W(), bb.list) == true && Spares(old(W()), W(), [old(bb.list)[i]]) == true
      ensures Text(W(), bb.list) == old(Text(W(), bb.list)) && Marks(W(), bb.list) == old(Marks(W(), bb.list))
      ensures i < |bb.list| && bb.list[..i + 1] == old(bb.list)[..i + 1]
              && (forall b | b in bb.list :: b in old(bb.list) || b !in old(buckets))
      ensures old(buckets).Keys <= buckets.Keys && |Data(W(), bb.list[i])| <= BUFF_SIZE
      ensures bb.list[i] in buckets && buckets[bb.list[i]].kind == Heap
              && Load(W(), bb.list[i + 1..]) < old(Load(W(), bb.list[i..]))
    {
      hide Ok, Kept, Spares, Load, Data, Text, Marks, Streaming;
      ghost var w, l := W(), bb.list;
      var c := Deliver(bb.list[i]);
      assert |Data(W(), c)| < |Data(w, l[i])|;
      bb.list := bb.list[..i + 1] + [c] + bb.list[i + 1..];
      Inserted(w, W(), l, i, c);
      assert bb.list[i + 1..] == [c] + l[i + 1..];
      LoadDelivered(w, W(), l, i, c);
    }

    /** A pool bucket whose pool is gone becomes a heap bucket. */
    method TouchPool(b: BucketId)
      requires Valid() == true && b in buckets && buckets[b].kind != Stream
      modifies this
      ensures Valid() == true && Kept(old(W()), W(), b) == true && buckets.Keys == old(buckets).Keys
              && Data(W(), b) == old(Data(W(), b))
      ensures NatureOf(W(), b) == old(NatureOf(W(), b)) != Flow
    {
      hide Ok, Kept;
      ghost var w := W();
      TouchKeeps(w, b);
      IsOk(w, b);
      var x := buckets[b];
      if x.kind == Pool {
        var p := blocks[x.data];
        if p.poolBase.None? {
          buckets := buckets[b := x.(kind := Heap)];
        }
      }
      assert W() == Touch(w, b);
      KeptButSame(w, W(), b);
    }

    /** The end of a stream: an empty constant. */
    method EndStream(b: BucketId)
      requires Valid() == true && b in buckets && buckets[b].kind == Stream && buckets[b].pending == []
      modifies this
      ensures Valid() == true && Kept(old(W()), W(), b) == true && buckets.Keys == old(buckets).Keys
              && Data(W(), b) == old(Data(W(), b))
      ensures buckets[b].kind == Immortal && Data(W(), b) == []
    {
      hide Ok, Kept;
      ghost var w := W();
      BelowFresh(w, next);
      IsOk(w, b);
      BorrowKeeps(w, b, Immortal, next, []);
      mem := mem[next := []];
      buckets := buckets[b := Bucket(Immortal, next, 0, 0, [])];
      next := next + 1;
      assert W() == Borrow(w, b, Immortal, old(next), []);
    }

    /** Some bytes of a stream, and the rest of it in a new bucket */
    method Deliver(b: BucketId) returns (c: BucketId)
      requires Valid() == true && b in buckets && buckets[b].kind == Stream && buckets[b].pending != []
      modifies this
      ensures Valid() == true && Kept(old(W()), W(), b) == true && c !in old(buckets)
              && buckets.Keys == old(buckets).Keys + {c}
      ensures Data(W(), b) + Data(W(), c) == old(Data(W(), b)) && Data(W(), b) != [] && |Data(W(), b)| <= BUFF_SIZE
      ensures buckets[b].kind == Heap && buckets[c].kind == Stream
    {
      hide Ok, Kept, Data;
      ghost var w := W();
      var pending := Pending(b);
      assert 1 <= 1 <= |pending| && 1 <= BUFF_SIZE;
      var n: nat :| 1 <= n <= |pending| && n <= BUFF_SIZE;
      BecomeHeap(b, pending[..n]);
      ghost var w1 := W();
      c := NewStream(pending[n..]);
      KeptThen(w, w1, W(), b, c);
      SameRead(w1, W(), b);
      assert pending[..n] + pending[n..] == pending;
    }

    method Pending(b: BucketId) returns (s: Bytes)
      requires Valid() == true && b in buckets && buckets[b].kind == Stream
      ensures s == buckets[b].pending == Data(W(), b)
    {
      IsOk(W(), b);
      s := buckets[b].pending;
    }

    /** `apr_bucket_heap_make` on the bytes that have been read, in a buffer of the usual size */
    method BecomeHeap(b: BucketId, s: Bytes)
      requires Valid() == true && b in buckets && buckets[b].kind == Stream && |s| <= BUFF_SIZE
      modifies this
      ensures Valid() == true && Kept(old(W()), W(), b) == true && buckets.Keys == old(buckets).Keys
              && Data(W(), b) == s
      ensures buckets[b].kind == Heap
    {
      hide Ok, Kept;
      ghost var w := W();
      var junk := Junk();
      var buf := s + junk[|s|..];
      assert buf[..|s|] == s;
      BelowFresh(w, next);
      HeapCreateKeeps(w, b, next, next, buf, |s|);
      mem := mem[next := buf];
      blocks := blocks[next := Block(1, Some(next), |buf|, None)];
      buckets := buckets[b := Bucket(Heap, next, 0, |s|, [])];
      next := next + 1;
      assert W() == Buckets.HeapCreate(w, b, old(next), old(next), buf, |s|);
    }

    method NewStream(pending: Bytes) returns (c: BucketId)
      requires Valid() == true
      modifies this
      ensures Valid() == true && Added(old(W()), W(), c) == true && Data(W(), c) == pending
      ensures buckets == old(buckets)[c := Bucket(Stream, 0, 0, 0, pending)]
    {
      hide Ok, Kept;
      BelowFresh(W(), next);
      c := next;
      StreamCreateKeeps(W(), c, pending);
      buckets := buckets[c := Bucket(Stream, 0, 0, 0, pending)];
      next := next + 1;
      assert W() == StreamCreate(old(W()), c, pending);
    }

    /** `apr_brigade_flatten`: the first `room` bytes of the brigade, or all of them; the brigade holds what it held. */
    method Flatten(bb: Brigade, room: nat) returns (st: Status, c: Bytes)
      requires Valid() == true && Ring(W(), bb.list) == true
      modifies this, bb
      ensures Valid() == true && Ring(W(), bb.list) == true && Text(W(), bb.list) == old(Text(W(), bb.list))
      ensures Spares(old(W()), W(), old(bb.list)) == true && Marks(W(), bb.list) == old(Marks(W(), bb.list))
      ensures st == Success ==> c == Upto(old(Text(W(), bb.list)), room)
      ensures st == Success || (st == Again && old(Streaming(W(), bb.list)))
    {
      hide Ok, Kept, Spares, Load, Data, Ring, NatureOf, Marks, Streaming;
      ghost var w0, l0, text := W(), bb.list, Text(W(), bb.list);
      SparesSelf(w0);
      SparesAll(w0, w0, l0);
      c := [];
      var i := 0;
      TextSplit(W(), bb.list, 0);
      while i < |bb.list|
        invariant i <= |bb.list| && Valid() == true && Ring(W(), bb.list) == true && Text(W(), bb.list) == text
        invariant c == Text(W(), bb.list[..i]) && |c| <= room && (i > 0 ==> |c| < room)
        invariant Spares(w0, W(), l0) == true && Ours(w0, l0, bb.list) == true
        invariant Marks(W(), bb.list) == Marks(w0, l0) && (Streaming(W(), bb.list) ==> Streaming(w0, l0))
        decreases Load(W(), bb.list[i..])
      {
        ghost var w, l := W(), bb.list;
        StreamAt(w, l, i);
        var str;
        st, str := Read(bb, i);
        SparesMore(w0, w, W(), l0, [l[i]], l0) by { Mine(w0, l0, l, i); }
        if st != Success {
          return;
        }
        OursStill(w0, w, l0, l, bb.list);
        ReadBefore(w, W(), l, bb.list, i);
        TextSplit(W(), bb.list, i);
        var n := if |str| + |c| > room then room - |c| else |str|;
        c := c + str[..n];
        i := i + 1;
        if |c| >= room {
          return Success, c;
        }
      }
      assert bb.list[..i] == bb.list;
      assert text[..|text|] == text;
      return Success, c;
    }

    /** `apr_brigade_partition`: the buckets before `after` hold exactly `point` bytes, if there are as many; the
        brigade holds what it held.  `sizeMax` is `APR_SIZE_MAX`. */
    method Partition(bb: Brigade, point: int, sizeMax: nat) returns (st: Status, after: nat)
      requires Valid() == true && Ring(W(), bb.list) == true && sizeMax >= BUFF_SIZE
      modifies this, bb
      ensures Valid() == true && Ring(W(), bb.list) == true && Text(W(), bb.list) == old(Text(W(), bb.list))
      ensures Spares(old(W()), W(), old(bb.list)) == true && Marks(W(), bb.list) == old(Marks(W(), bb.list))
      ensures after <= |bb.list|
      ensures st == Success ==> point >= 0 && |Text(W(), bb.list[..after])| == point
      ensures st == Success && after > 0 ==> |Text(W(), bb.list[..after - 1])| < point
      ensures st == Incomplete ==> |old(Text(W(), bb.list))| < point && after == |bb.list|
      ensures st == Invalid <==> point < 0
      ensures st != NotImplemented && (st == Again ==> old(Streaming(W(), bb.list)))
      ensures !old(Streaming(W(), bb.list)) && point >= 0 ==> (st == Success <==> |old(Text(W(), bb.list))| >= point)
    {
      hide Ok, Kept, Spares, Load, Data, Text, Ring, NatureOf, Marks, Streaming;
      ghost var w0, l0 := W(), bb.list;
      ghost var text := Text(w0, l0);
      SparesSelf(w0);
      SparesAll(w0, w0, l0);
      after := 0;
      if point < 0 {
        return Invalid, 0;
      }
      TextSplit(w0, l0, 0);
      if point == 0 {
        return Success, 0;
      }
      var point64: nat := point;
      var i := 0;
      while i < |bb.list|
        invariant i <= |bb.list| && Valid() == true && Ring(W(), bb.list) == true && Text(W(), bb.list) == text
        invariant Spares(w0, W(), l0) == true && (forall b | b in bb.list :: b in l0 || b !in w0.buckets)
                  && w0.buckets.Keys <= buckets.Keys
        invariant point64 > 0 && |Text(W(), bb.list[..i])| + point64 == point
        invariant Marks(W(), bb.list) == Marks(w0, l0) && (Streaming(W(), bb.list) ==> Streaming(w0, l0))
        decreases Load(W(), bb.list[i..])
      {
        ghost var w, l := W(), bb.list;
        var more;
        st, more := PartitionStep(bb, i, point64, sizeMax);
        SparesMore(w0, w, W(), l0, [l[i]], l0);
        if st != Success {
          after := i;
          return;
        }
        if !more {
          after := i + 1;
          TextSplit(W(), bb.list, after);
          return;
        }
        point64 := point64 - buckets[bb.list[i]].length;
        i := i + 1;
      }
      assert bb.list[..i] == bb.list;
      return Incomplete, i;
    }

    /** One round of the loop: `more` if the point lies beyond the bucket, which then has a length. */
    method PartitionStep(bb: Brigade, i: nat, point64: nat, sizeMax: nat) returns (st: Status, more: bool)
      requires Valid() == true && Ring(W(), bb.list) == true && i < |bb.list| && point64 > 0 && sizeMax >= BUFF_SIZE
      modifies this, bb
      ensures Valid() == true && Ring(W(), bb.list) == true && Text(W(), bb.list) == old(Text(W(), bb.list))
      ensures Spares(old(W()), W(), [old(bb.list)[i]]) == true
      ensures i < |bb.list| && Grown(old(W()), W(), old(bb.list), bb.list) == true
      ensures Text(W(), bb.list[..i]) == old(Text(W(), bb.list[..i])) && Marks(W(), bb.list) == old(Marks(W(), bb.list))
      ensures Streaming(W(), bb.list) ==> old(Streaming(W(), bb.list))
      ensures st == Success || (st == Again && old(Streaming(W(), bb.list)))
      ensures st == Success && !more ==> |Text(W(), bb.list[..i + 1])| == |old(Text(W(), bb.list[..i]))| + point64
      ensures st == Success && more ==>
                && bb.list[i] in buckets && buckets[bb.list[i]].length < point64
                && |Text(W(), bb.list[..i + 1])| == |old(Text(W(), bb.list[..i]))| + buckets[bb.list[i]].length
                && Load(W(), bb.list[i + 1..]) < old(Load(W(), bb.list[i..]))
    {
      hide Ok, Kept, Spares, Load, Data, Text, Ring, NatureOf, Marks, Streaming;
      ghost var w, l := W(), bb.list;
      more := false;
      var e := bb.list[i];
      StreamAt(w, l, i);
      Unmoved(w, l, i);
      var unknown := buckets[e].kind == Stream;
      if unknown && point64 > sizeMax {
        var str;
        st, str := Read(bb, i);
        if st != Success {
          Unmoved(w, l, i);
          return;
        }
        Moved(w, W(), l, bb.list, i);
      } else if unknown || point64 < buckets[e].length {
        Lengths(w, l, i);
        st := SplitIn(bb, i, point64);
        if st != NotImplemented {
          CutAt(w, W(), l, bb.list, i);
          return;
        }
        Unmoved(w, l, i);
        var str;
        st, str := Read(bb, i);
        if st != Success {
          return;
        }
        Moved(w, W(), l, bb.list, i);
        if point64 < buckets[bb.list[i]].length {
          ghost var w1, l1 := W(), bb.list;
          st := SplitIn(bb, i, point64);
          CutAt(w1, W(), l1, bb.list, i);
          SparesMore(w, w1, W(), [e], [e], [e]);
          return;
        }
      } else {
        Unmoved(w, l, i);
        Lengths(w, l, i);
      }
      more := point64 != buckets[bb.list[i]].length;
      return Success, more;
    }

    /** `apr_brigade_split_line`: content moves from one brigade to the other, in order, and so do metadata buckets.
        On success what has moved ends with its only line feed; or it has none, and nothing is left or `maxbytes`
        bytes have been moved.  With no stream among them, buckets are taken until that is so, and no longer. */
    method SplitLine(bbOut: Brigade, bbIn: Brigade, maxbytes: int) returns (st: Status, ghost taken: nat)
      requires Valid() == true && bbOut != bbIn && Ring(W(), bbOut.list) == true && Ring(W(), bbIn.list) == true
      requires Disjoint(bbOut.list, bbIn.list)
      modifies this, bbOut, bbIn
      ensures Valid() == true && Ring(W(), bbOut.list) == true && Ring(W(), bbIn.list) == true
              && Disjoint(bbOut.list, bbIn.list)
      ensures Text(W(), bbOut.list) + Text(W(), bbIn.list) == old(Text(W(), bbOut.list) + Text(W(), bbIn.list))
      ensures Marks(W(), bbOut.list) + Marks(W(), bbIn.list) == old(Marks(W(), bbOut.list) + Marks(W(), bbIn.list))
      ensures |Text(W(), bbOut.list)| >= |old(Text(W(), bbOut.list))|
      ensures st == Success ==> Line(Text(W(), bbOut.list)[|old(Text(W(), bbOut.list))|..], bbIn.list == [], maxbytes)
      ensures st == Success || (st == Again && old(Streaming(W(), bbIn.list)))
      ensures !old(Streaming(W(), bbIn.list)) ==>
                && Taken(old(W()), old(bbIn.list), maxbytes, taken)
                && Text(W(), bbOut.list)
                   == old(Text(W(), bbOut.list)) + FirstLine(Text(old(W()), Front(old(bbIn.list), taken)))
      ensures Spares(old(W()), W(), old(bbOut.list + bbIn.list)) == true
    {
      hide Ok, Kept, Spares, Load, Data, Text, Ring, NatureOf, Disjoint, Marks, Streaming, Far, Taken, FirstLine;
      ghost var out0 := Text(W(), bbOut.list);
      ghost var w0, a0, b0 := W(), bbOut.list, bbIn.list;
      SparesSelf(w0);
      SparesAll(w0, w0, a0 + b0);
      ghost var moved: Bytes := [];
      taken := 0;
      FarStart(w0, a0, b0, maxbytes);
      var readbytes: int := 0;
      assert out0 + [] == out0;
      while bbIn.list != []
        invariant Valid() == true && Ring(W(), bbOut.list) == true && Ring(W(), bbIn.list) == true
                  && Disjoint(bbOut.list, bbIn.list) == true
        invariant Text(W(), bbOut.list) == out0 + moved && LF !in moved && readbytes == |moved|
        invariant Text(W(), bbOut.list) + Text(W(), bbIn.list) == old(Text(W(), bbOut.list) + Text(W(), bbIn.list))
        invariant Marks(W(), bbOut.list) + Marks(W(), bbIn.list) == old(Marks(W(), bbOut.list) + Marks(W(), bbIn.list))
        invariant Spares(w0, W(), a0 + b0) == true && Ours(w0, a0 + b0, bbOut.list + bbIn.list) == true
        invariant Streaming(W(), bbIn.list) ==> Streaming(w0, b0)
        invariant !Streaming(w0, b0) ==>
                    Far(w0, a0, b0, maxbytes, taken, W(), bbOut.list, bbIn.list) && moved == Text(w0, Front(b0, taken))
        decreases Load(W(), bbIn.list)
      {
        var len, found;
        ghost var part;
        ghost var w, l, m := W(), bbOut.list, bbIn.list;
        StreamAt(w, m, 0);
        st, found, len, part := LineStep(bbOut, bbIn);
        OutOfAll(w0, w, W(), a0 + b0, l, m, bbOut.list + bbIn.list);
        if st != Success {
          return;
        }
        if !Streaming(w0, b0) {
          FarStep(w0, a0, b0, maxbytes, taken, w, l, m, W(), bbOut.list, bbIn.list, moved, part);
          taken := taken + 1;
        }
        assert (out0 + moved) + part == out0 + (moved + part);
        assert (out0 + (moved + part))[|out0|..] == moved + part;
        moved := moved + part;
        if found {
          return;
        }
        readbytes := readbytes + len;
        if readbytes >= maxbytes {
          break;
        }
        if !Streaming(w0, b0) {
          FarOn(w0, a0, b0, maxbytes, taken, W(), bbOut.list, bbIn.list, moved);
        }
      }
      if !Streaming(w0, b0) {
        FarEnd(w0, a0, b0, maxbytes, taken, W(), bbOut.list, bbIn.list, moved);
      }
      return Success, taken;
    }

    /** One bucket of `apr_brigade_split_line` */
    method LineStep(bbOut: Brigade, bbIn: Brigade) returns (st: Status, found: bool, len: nat, ghost part: Bytes)
      requires Valid() == true && bbOut != bbIn && Ring(W(), bbOut.list) == true && Ring(W(), bbIn.list) == true
      requires Disjoint(bbOut.list, bbIn.list) == true && bbIn.list != []
      modifies this, bbOut, bbIn
      ensures Valid() == true && Ring(W(), bbOut.list) == true && Ring(W(), bbIn.list) == true
              && Disjoint(bbOut.list, bbIn.list) == true
      ensures Text(W(), bbOut.list) + Text(W(), bbIn.list) == old(Text(W(), bbOut.list) + Text(W(), bbIn.list))
      ensures Marks(W(), bbOut.list) + Marks(W(), bbIn.list) == old(Marks(W(), bbOut.list) + Marks(W(), bbIn.list))
      ensures Text(W(), bbOut.list) == old(Text(W(), bbOut.list)) + part && len == |part|
      ensures st == Success || (st == Again && part == [] && old(NatureOf(W(), bbIn.list[0])) == Flow)
      ensures st == Success && found ==> len > 0 && part[len - 1] == LF && LF !in part[..len - 1]
      ensures st == Success && !found ==> LF !in part && Load(W(), bbIn.list) < old(Load(W(), bbIn.list))
      ensures Streaming(W(), bbIn.list) ==> old(Streaming(W(), bbIn.list))
      ensures old(NatureOf(W(), bbIn.list[0])) != Flow ==>
                && part == FirstLine(old(Data(W(), bbIn.list[0]))) && (found <==> LF in old(Data(W(), bbIn.list[0])))
                && (!found ==> bbIn.list == old(bbIn.list)[1..])
      ensures Spares(old(W()), W(), old(bbOut.list + [bbIn.list[0]])) == true
      ensures forall b | b in bbOut.list + bbIn.list :: b in old(bbOut.list + bbIn.list) || b !in old(buckets)
      ensures forall b | b in bbOut.list :: b in old(bbOut.list + [bbIn.list[0]]) || b !in old(buckets)
    {
      hide Ok, Kept, Spares, Load, Data, Text, Ring, NatureOf, Disjoint, Marks, Streaming, FirstLine;
      found, len, part := false, 0, [];
      ghost var w, out, in0 := W(), bbOut.list, bbIn.list;
      assert Text(w, out) + [] == Text(w, out);
      var e := bbIn.list[0];
      var str;
      st, str := Read(bbIn, 0);
      Others(w, W(), out, in0, bbIn.list, e);
      SparesSelf(w);
      SparesMore(w, w, W(), [], [e], out + [e]);
      ghost var w1, in1 := W(), bbIn.list;
      if st != Success {
        return;
      }
      var pos := Memchr(str);
      len := if pos < |str| then pos + 1 else |str|;
      part := str[..len];
      FirstLineIs(str, pos);
      if pos < |str| {
        found := true;
        var split := SplitIn(bbIn, 0, len);
        assert split == Success;
        SplitOthers(w1, W(), out, in1, bbIn.list, str, len);
        SparesMore(w, w1, W(), out + [e], [e], out + [e]);
        HeadAndRest(W(), bbIn.list);
        MoveHead(bbOut, bbIn);
        return;
      }
      assert str[..|str|] == str;
      HeadAndRest(w1, in1);
      NatureIs(w1, e);
      if buckets[e].kind == Metadata || |str| > BUFF_SIZE / 4 {
        MoveHead(bbOut, bbIn);
      } else {
        CopyHead(bbOut, bbIn, str);
        SparesMore(w, w1, W(), out + [e], out + [e], out + [e]);
      }
    }

    /** `APR_BUCKET_REMOVE` and `APR_BRIGADE_INSERT_TAIL` of the first bucket */
    method MoveHead(bbOut: Brigade, bbIn: Brigade)
      requires Valid() == true && bbOut != bbIn && Ring(W(), bbOut.list) == true && Ring(W(), bbIn.list) == true
      requires Disjoint(bbOut.list, bbIn.list) == true && bbIn.list != []
      modifies bbOut, bbIn
      ensures Ring(W(), bbOut.list) == true && Ring(W(), bbIn.list) == true && Disjoint(bbOut.list, bbIn.list) == true
      ensures bbIn.list == old(bbIn.list)[1..] && bbOut.list == old(bbOut.list) + [old(bbIn.list)[0]]
      ensures Text(W(), bbOut.list) == old(Text(W(), bbOut.list)) + Data(W(), old(bbIn.list)[0])
      ensures Text(W(), bbOut.list) + Text(W(), bbIn.list) == old(Text(W(), bbOut.list) + Text(W(), bbIn.list))
      ensures Marks(W(), bbOut.list) + Marks(W(), bbIn.list) == old(Marks(W(), bbOut.list) + Marks(W(), bbIn.list))
    {
      hide Ok, Data, NatureOf;
      ghost var w, l, m := W(), bbOut.list, bbIn.list;
      HeadMoved(w, l, m);
      assert (Marks(w, l) + Marks(w, [m[0]])) + Marks(w, m[1..]) == Marks(w, l) + (Marks(w, [m[0]]) + Marks(w, m[1..]));
      var e := bbIn.list[0];
      bbIn.list := bbIn.list[1..];
      bbOut.list := bbOut.list + [e];
      assert (Text(w, l) + Data(w, e)) + Text(w, m[1..]) == Text(w, l) + (Data(w, e) + Text(w, m[1..]));
    }

    /** A small bucket's bytes are written to the end of the other brigade, and the bucket is destroyed. */
    method CopyHead(bbOut: Brigade, bbIn: Brigade, str: Bytes)
      requires Valid() == true && bbOut != bbIn && Ring(W(), bbOut.list) == true && Ring(W(), bbIn.list) == true
      requires Disjoint(bbOut.list, bbIn.list) == true && bbIn.list != [] && str == Data(W(), bbIn.list[0])
      requires NatureOf(W(), bbIn.list[0]) != Mark
      modifies this, bbOut, bbIn
      ensures Valid() == true && Ring(W(), bbOut.list) == true && Ring(W(), bbIn.list) == true
              && Disjoint(bbOut.list, bbIn.list) == true
      ensures Text(W(), bbOut.list) == old(Text(W(), bbOut.list)) + str
      ensures Text(W(), bbOut.list) + Text(W(), bbIn.list) == old(Text(W(), bbOut.list) + Text(W(), bbIn.list))
      ensures Load(W(), bbIn.list) == old(Load(W(), bbIn.list[1..]))
      ensures bbIn.list == old(bbIn.list)[1..]
      ensures forall b | b in bbOut.list :: b in old(bbOut.list) || b !in old(buckets)
      ensures Marks(W(), bbOut.list) == old(Marks(W(), bbOut.list))
              && Marks(W(), bbIn.list) == old(Marks(W(), bbIn.list))
      ensures Streaming(W(), bbIn.list) ==> old(Streaming(W(), bbIn.list[1..]))
      ensures Spares(old(W()), W(), old(bbOut.list + [bbIn.list[0]])) == true
    {
      hide Ok, Kept, Spares, Load, Data, Text, NatureOf, Ring, Disjoint, Marks, Streaming;
      ghost var w, l, m := W(), bbOut.list, bbIn.list;
      var e := bbIn.list[0];
      bbIn.list := bbIn.list[1..];
      HeadMoved(w, l, m);
      if |str| > 0 {
        var _ := Write(bbOut, null, str);
        assert ([] + Text(w, l)) + str == Text(w, l) + str && [] + Text(w, l) == Text(w, l)
               && [] + Text(W(), bbOut.list) == Text(W(), bbOut.list);
      } else {
        SparesSelf(w);
        SparesAll(w, w, l);
        assert Text(w, l) + str == Text(w, l);
      }
      ghost var w1 := W();
      CopyOthers(w, w1, l, m, bbOut.list);
      Destroy(e);
      KeptSpares(w1, W(), e);
      SparesMore(w, w1, W(), l, [e], l + [e]);
      CopyOthers2(w1, W(), bbOut.list, e);
      CopyOthers2(w1, W(), bbIn.list, e);
      assert (Text(w, l) + str) + Text(w, m[1..]) == Text(w, l) + (str + Text(w, m[1..]));
    }

    /** `apr_brigade_split_ex`: what follows `at` moves to the other brigade, whose own buckets are destroyed first. */
    method SplitEx(b: Brigade, at: nat, a: Brigade)
      requires Valid() == true && a != b && Ring(W(), a.list) == true && Ring(W(), b.list) == true
               && Disjoint(a.list, b.list) == true
      requires at <= |b.list|
      modifies this, a, b
      ensures Valid() == true && Ring(W(), a.list) == true && Ring(W(), b.list) == true
              && Disjoint(a.list, b.list) == true
      ensures b.list == old(b.list)[..at] && a.list == old(b.list)[at..]
      ensures Text(W(), b.list) + Text(W(), a.list) == old(Text(W(), b.list))
      ensures Marks(W(), b.list) + Marks(W(), a.list) == old(Marks(W(), b.list))
      ensures Spares(old(W()), W(), old(a.list)) == true
    {
      hide Ok, Kept, Data, NatureOf, Text, Marks, Spares, Ring, Disjoint;
      ghost var w, l, m := W(), a.list, b.list;
      if a.list != [] {
        Cleanup(a);
      } else {
        SparesSelf(w);
        SparesAll(w, w, l);
      }
      Bystander(w, W(), m, l) by { Apart(l, m); }
      CutRing(W(), m, at);
      TextSplit(W(), m, at);
      MarksSplit(W(), m, at);
      a.list := b.list[at..];
      b.list := b.list[..at];
    }

    /** `memchr`, for a line feed; the length if there is none */
    method Memchr(str: Bytes) returns (pos: nat)
      ensures pos <= |str| && LF !in str[..pos] && (pos < |str| ==> str[pos] == LF)
    {
      pos := 0;
      while pos < |str| && str[pos] != LF
        invariant pos <= |str| && LF !in str[..pos]
      {
        assert str[..pos + 1] == str[..pos] + [str[pos]];
        pos := pos + 1;
      }
    }
  }

  lemma {:induction false} Apart(l: seq<BucketId>, m: seq<BucketId>)
    requires Disjoint(l, m)
    ensures forall b | b in m :: b !in l
  {
  }

  /** A brigade cut in two. */
  lemma {:induction false} CutRing(w: World, m: seq<BucketId>, at: nat)
    requires Ring(w, m) && at <= |m|
    ensures Ring(w, m[..at]) == true && Ring(w, m[at..]) == true && Disjoint(m[at..], m[..at]) == true
  {
  }

  lemma {:induction false} MarksSplit(w: World, l: seq<BucketId>, i: nat)
    requires i <= |l|
    ensures Marks(w, l) == Marks(w, l[..i]) + Marks(w, l[i..])
  {
    assert l == l[..i] + l[i..];
    MarksAppend(w, l[..i], l[i..]);
  }

  /** A list that an operation has nothing to do with. */
  lemma {:induction false} Bystander(w: World, w': World, l: seq<BucketId>, es: seq<BucketId>)
    requires Ring(w, l) && Spares(w, w', es) && forall b | b in l :: b !in es
    ensures Ring(w', l) == true && Text(w', l) == Text(w, l) && Load(w', l) == Load(w, l)
    ensures Marks(w', l) == Marks(w, l) && (Streaming(w', l) <==> Streaming(w, l))
  {
    hide Data, NatureOf;
    TextSame(w, w', l);
    MarksSame(w, w', l);
    LoadSpared(w, w', es, l);
  }

  /** Reading the first bucket of one brigade leaves the other as it is. */
  lemma {:induction false} Others(w: World, w': World, out: seq<BucketId>, l: seq<BucketId>, l': seq<BucketId>,
          e: BucketId)
    requires Ring(w, out) && Ring(w, l) && Disjoint(out, l) && l != [] && e == l[0] && Spares(w, w', [e])
    requires forall b | b in l' :: b in l || b !in w.buckets
    ensures Ring(w', out) == true && Text(w', out) == Text(w, out) && Disjoint(out, l') == true
    ensures Marks(w', out) == Marks(w, out)
  {
    hide Data, NatureOf, Spares, Marks, Streaming;
    assert e in l;
    Bystander(w, w', out, [e]);
  }

  lemma {:induction false} SplitOthers(w: World, w': World, out: seq<BucketId>, l: seq<BucketId>, l': seq<BucketId>,
          str: Bytes, n: nat)
    requires Ring(w, out) && Ring(w, l) && Disjoint(out, l) && l != [] && Spares(w, w', [l[0]]) && n <= |str|
    requires exists c ::
               c !in w.buckets && l' == l[..1] + [c] + l[1..] && Data(w', l[0]) + Data(w', c) == str
               && |Data(w', l[0])| == n
    ensures l' != [] && Ring(w', out) == true && Text(w', out) == Text(w, out) && Disjoint(out, l') == true
            && Data(w', l'[0]) == str[..n] && Marks(w', out) == Marks(w, out)
  {
    hide Data, NatureOf, Spares, Marks;
    var c :| c !in w.buckets && l' == l[..1] + [c] + l[1..] && Data(w', l[0]) + Data(w', c) == str
      && |Data(w', l[0])| == n;
    assert str[..n] == Data(w', l[0]);
    Others(w, w', out, l, l', l[0]);
  }

  lemma {:induction false} HeadMoved(w: World, l: seq<BucketId>, m: seq<BucketId>)
    requires Ring(w, l) && Ring(w, m) && Disjoint(l, m) && m != []
    ensures Ring(w, l + [m[0]]) == true && Ring(w, m[1..]) == true && Disjoint(l + [m[0]], m[1..]) == true
    ensures Text(w, l + [m[0]]) == Text(w, l) + Data(w, m[0]) && Text(w, m) == Data(w, m[0]) + Text(w, m[1..])
    ensures Marks(w, l + [m[0]]) == Marks(w, l) + Marks(w, [m[0]]) && Marks(w, m) == Marks(w, [m[0]]) + Marks(w, m[1..])
    ensures NatureOf(w, m[0]) != Mark ==> Marks(w, [m[0]]) == []
  {
    hide Data, NatureOf;
    assert m[0] in m && m[0] !in l;
    forall b | b in l + [m[0]]
      ensures b !in m[1..]
    {
      assert b in l ==> b !in m;
    }
    TextAppend(w, l, [m[0]]);
    MarksAppend(w, l, [m[0]]);
    assert m == [m[0]] + m[1..];
    MarksAppend(w, [m[0]], m[1..]);
  }

  lemma {:induction false} CopyOthers(w: World, w': World, l: seq<BucketId>, m: seq<BucketId>, l': seq<BucketId>)
    requires Ring(w, l) && Ring(w, m) && Disjoint(l, m) && m != [] && Spares(w, w', l)
    requires forall b | b in l' :: b in l || b !in w.buckets
    ensures Ring(w', m[1..]) == true && Text(w', m[1..]) == Text(w, m[1..]) && Load(w', m[1..]) == Load(w, m[1..])
    ensures Disjoint(l', m[1..]) == true && m[0] in w'.buckets && m[0] !in l' && m[0] !in m[1..]
    ensures Marks(w', m[1..]) == Marks(w, m[1..]) && (Streaming(w', m[1..]) <==> Streaming(w, m[1..]))
  {
    hide Data, NatureOf, Marks, Streaming;
    forall b | b in m
      ensures b !in l && b !in l'
    {
    }
    assert m[0] in m;
    Bystander(w, w', m[1..], l);
  }

  lemma {:induction false} KeptSpares(w: World, w': World, e: BucketId)
    requires Kept(w, w', e)
    ensures Spares(w, w', [e]) == true
  {
  }

  lemma {:induction false} CopyOthers2(w: World, w': World, l: seq<BucketId>, e: BucketId)
    requires Ring(w, l) && Spares(w, w', [e]) && e !in l
    ensures Ring(w', l) == true && Text(w', l) == Text(w, l) && Load(w', l) == Load(w, l)
    ensures Marks(w', l) == Marks(w, l) && (Streaming(w', l) <==> Streaming(w, l))
  {
    hide Data, NatureOf, Spares, Marks, Streaming;
    Bystander(w, w', l, [e]);
  }

  lemma {:induction false} StreamAt(w: World, l: seq<BucketId>, i: nat)
    requires i < |l|
    ensures NatureOf(w, l[i]) == Flow ==> Streaming(w, l)
  {
    hide NatureOf;
    assert l[i] in l;
  }

  ghost predicate Disjoint(l: seq<BucketId>, m: seq<BucketId>) {
    forall b | b in l :: b !in m
  }

  /** The first bytes, as far as there is room */
  function Upto(s: Bytes, room: nat): Bytes {
    if room < |s| then s[..room] else s
  }

  /** Of the buckets there were at first, a list has none that was not in the first list. */
  ghost predicate Ours(w0: World, l0: seq<BucketId>, l: seq<BucketId>) {
    forall b | b in l && b in w0.buckets :: b in l0
  }

  lemma {:induction false} Mine(w0: World, l0: seq<BucketId>, l: seq<BucketId>, i: nat)
    requires Ours(w0, l0, l) && i < |l|
    ensures forall b | b in [l[i]] && b in w0.buckets :: b in l0
  {
    assert l[i] in l;
  }

  lemma {:induction false} OursStill(w0: World, w: World, l0: seq<BucketId>, l: seq<BucketId>, l': seq<BucketId>)
    requires Spares(w0, w, l0) && Ours(w0, l0, l) && forall b | b in l' :: b in l || b !in w.buckets
    ensures Ours(w0, l0, l') == true
  {
    hide Data, NatureOf;
  }

  ghost predicate Line(moved: Bytes, empty: bool, maxbytes: int) {
    || (moved != [] && moved[|moved| - 1] == LF && LF !in moved[..|moved| - 1])
    || (LF !in moved && (empty || |moved| >= maxbytes))
  }

  /** Up to and including the first line feed, or everything */
  function FirstLine(s: Bytes): Bytes {
    if s == [] then [] else if s[0] == LF then [LF] else [s[0]] + FirstLine(s[1..])
  }

  lemma {:induction false} FirstLineIs(s: Bytes, pos: nat)
    requires pos <= |s| && LF !in s[..pos] && (pos < |s| ==> s[pos] == LF)
    ensures FirstLine(s) == s[..if pos < |s| then pos + 1 else |s|]
    ensures LF in s <==> pos < |s|
    decreases |s|
  {
    if pos > 0 {
      assert s[..pos][0] == s[0] && s[..pos][1..] == s[1..][..pos - 1];
      FirstLineIs(s[1..], pos - 1);
      assert s == [s[0]] + s[1..];
    } else if pos < |s| {
      assert s[..1] == [LF];
    }
  }

  lemma {:induction false} FirstLineAfter(a: Bytes, b: Bytes)
    requires LF !in a
    ensures FirstLine(a + b) == a + FirstLine(b)
    decreases |a|
  {
    if a == [] {
      assert a + b == b;
    } else {
      assert (a + b)[1..] == a[1..] + b;
      FirstLineAfter(a[1..], b);
    }
  }

  lemma {:induction false} HeadAndRest(w: World, l: seq<BucketId>)
    requires l != []
    ensures Streaming(w, l[1..]) ==> Streaming(w, l)
    ensures [l[0]] + l[1..] == l
  {
    hide NatureOf;
    if Streaming(w, l[1..]) {
      var b :| b in l[1..] && NatureOf(w, b) == Flow;
      assert b in l;
    }
  }

  lemma {:induction false} NatureIs(w: World, b: BucketId)
    ensures b in w.buckets && w.buckets[b].kind != Metadata ==> NatureOf(w, b) != Mark
    ensures b in w.buckets && w.buckets[b].kind != Stream ==> NatureOf(w, b) != Flow
  {
  }

  function Front<T>(l: seq<T>, k: nat): seq<T> {
    if k <= |l| then l[..k] else l
  }

  /** As many buckets as `apr_brigade_split_line` takes: at least one, if there is one; as long as there was no line
      feed and too few bytes; until there is a line feed or there are enough bytes or no more buckets. */
  ghost predicate Taken(w: World, l: seq<BucketId>, maxbytes: int, k: nat) {
    && k <= |l| && (l != [] ==> k > 0) && Short(w, l, maxbytes, k)
    && (k == |l| || LF in Text(w, l[..k]) || |Text(w, l[..k])| >= maxbytes)
  }

  /** Fewer buckets than these were not enough. */
  ghost predicate Short(w: World, l: seq<BucketId>, maxbytes: int, k: nat) {
    forall j :: 0 < j < k && j <= |l| ==> |Text(w, l[..j])| < maxbytes && LF !in Text(w, l[..j])
  }

  /** How far it has come, with no stream in its way: so many buckets have been taken, and the others are as they
      were. */
  ghost predicate Near(w0: World, a0: seq<BucketId>, b0: seq<BucketId>, maxbytes: int, k: nat,
                       w: World, l: seq<BucketId>, m: seq<BucketId>)
  {
    && Ring(w0, b0) && Disjoint(a0, b0) && k <= |b0| && m == b0[k..] && Short(w0, b0, maxbytes, k)
    && Spares(w0, w, a0 + b0[..k]) && Ours(w0, a0 + b0[..k], l)
  }

  /** ... and it has to go on. */
  ghost predicate Far(w0: World, a0: seq<BucketId>, b0: seq<BucketId>, maxbytes: int, k: nat,
                      w: World, l: seq<BucketId>, m: seq<BucketId>)
  {
    Near(w0, a0, b0, maxbytes, k, w, l, m) && Short(w0, b0, maxbytes, k + 1)
  }

  lemma {:induction false} FarStart(w0: World, a0: seq<BucketId>, b0: seq<BucketId>, maxbytes: int)
    requires Ring(w0, b0) && Disjoint(a0, b0)
    ensures Far(w0, a0, b0, maxbytes, 0, w0, a0, b0) == true && Text(w0, Front(b0, 0)) == []
  {
    hide Data, NatureOf;
    assert a0 + b0[..0] == a0;
  }

  /** The next bucket is as it was at first. */
  lemma {:induction false} NextIs(w0: World, a0: seq<BucketId>, b0: seq<BucketId>, k: nat, w: World)
    requires Ring(w0, b0) && Disjoint(a0, b0) && k < |b0| && Spares(w0, w, a0 + b0[..k])
    ensures Data(w, b0[k]) == Data(w0, b0[k]) && b0[k..][0] == b0[k] && b0[k..][1..] == b0[k + 1..]
    ensures Text(w0, Front(b0, k + 1)) == Text(w0, Front(b0, k)) + Data(w0, b0[k])
  {
    hide Data, NatureOf, Text;
    assert b0[k] in b0 && b0[k] !in a0 + b0[..k];
    TextSplit(w0, b0, k);
  }

  lemma {:induction false} FarStep(w0: World, a0: seq<BucketId>, b0: seq<BucketId>, maxbytes: int, k: nat,
          w: World, l: seq<BucketId>, m: seq<BucketId>, w': World, l': seq<BucketId>, m': seq<BucketId>,
          moved: Bytes, part: Bytes)
    requires Far(w0, a0, b0, maxbytes, k, w, l, m) && m != [] && Spares(w, w', l + [m[0]])
    requires forall b | b in l' :: b in l + [m[0]] || b !in w.buckets
    requires moved == Text(w0, Front(b0, k)) && LF !in moved && part == FirstLine(Data(w, m[0]))
    requires LF !in Data(w, m[0]) ==> m' == m[1..]
    ensures k < |b0| && moved + part == FirstLine(Text(w0, Front(b0, k + 1)))
    ensures if LF in Data(w, m[0]) then Taken(w0, b0, maxbytes, k + 1) == true
            else Near(w0, a0, b0, maxbytes, k + 1, w', l', m') == true && moved + part == Text(w0, Front(b0, k + 1))
  {
    hide Data, NatureOf, Spares, Text, Ours, Ring, Disjoint, FirstLine;
    var s := Data(w, m[0]);
    NextIs(w0, a0, b0, k, w);
    FirstLineAfter(moved, s);
    if LF in s {
      assert LF in moved + s;
    } else {
      FirstLineIs(s, |s|);
      assert s[..|s|] == s;
      OneMore(w0, a0, b0, k, w, l, w', l');
    }
  }

  lemma {:induction false} OneMore(w0: World, a0: seq<BucketId>, b0: seq<BucketId>, k: nat, w: World, l: seq<BucketId>,
          w': World, l': seq<BucketId>)
    requires k < |b0| && Spares(w0, w, a0 + b0[..k]) && Ours(w0, a0 + b0[..k], l) && Spares(w, w', l + [b0[k]])
    requires forall b | b in l' :: b in l + [b0[k]] || b !in w.buckets
    ensures Spares(w0, w', a0 + b0[..k + 1]) == true && Ours(w0, a0 + b0[..k + 1], l') == true
  {
    hide Data, NatureOf;
    var all := a0 + b0[..k + 1];
    assert all == (a0 + b0[..k]) + [b0[k]];
    SparesMore(w0, w, w', a0 + b0[..k], l + [b0[k]], all);
  }

  lemma {:induction false} FarOn(w0: World, a0: seq<BucketId>, b0: seq<BucketId>, maxbytes: int, k: nat,
          w: World, l: seq<BucketId>, m: seq<BucketId>, moved: Bytes)
    requires Near(w0, a0, b0, maxbytes, k, w, l, m) && moved == Text(w0, Front(b0, k)) && LF !in moved
    requires |moved| < maxbytes
    ensures Far(w0, a0, b0, maxbytes, k, w, l, m) == true
  {
    hide Data, NatureOf, Spares, Ours, Ring, Disjoint, Text;
  }

  lemma {:induction false} FarEnd(w0: World, a0: seq<BucketId>, b0: seq<BucketId>, maxbytes: int, k: nat,
          w: World, l: seq<BucketId>, m: seq<BucketId>, moved: Bytes)
    requires Far(w0, a0, b0, maxbytes, k, w, l, m) || Near(w0, a0, b0, maxbytes, k, w, l, m)
    requires moved == Text(w0, Front(b0, k)) && LF !in moved && (m == [] || (k > 0 && |moved| >= maxbytes))
    ensures Taken(w0, b0, maxbytes, k) == true && moved == FirstLine(Text(w0, Front(b0, k)))
  {
    hide Data, NatureOf, Spares, Ours, Ring, Disjoint, Text;
    FirstLineIs(moved, |moved|);
    assert moved[..|moved|] == moved;
  }

  /** What is not in the two brigades is spared by a step that touches no more than one bucket of the second. */
  lemma {:induction false} OutOfAll(w0: World, w: World, w': World, all: seq<BucketId>, l: seq<BucketId>,
          m: seq<BucketId>, l': seq<BucketId>)
    requires Spares(w0, w, all) && Ours(w0, all, l + m) && m != [] && Spares(w, w', l + [m[0]])
    requires forall b | b in l' :: b in l + m || b !in w.buckets
    ensures Spares(w0, w', all) == true && Ours(w0, all, l') == true
  {
    hide Data, NatureOf;
    forall b | b in l + [m[0]]
      ensures b in l + m
    {
    }
    SparesMore(w0, w, w', all, l + [m[0]], all);
  }

  lemma {:induction false} Unmoved(w: World, l: seq<BucketId>, i: nat)
    requires Ring(w, l) && i < |l|
    ensures Spares(w, w, [l[i]]) == true && (forall b | b in l :: b in w.buckets)
  {
    hide Data, NatureOf;
  }

  /** A bucket of known length. */
  lemma {:induction false} Lengths(w: World, l: seq<BucketId>, i: nat)
    requires Ok(w) && Ring(w, l) && i < |l|
    ensures l[i] in w.buckets
    ensures w.buckets[l[i]].kind != Stream ==>
              && |Text(w, l[..i + 1])| == |Text(w, l[..i])| + w.buckets[l[i]].length
              && Load(w, l[i + 1..]) < Load(w, l[i..])
    ensures w.buckets[l[i]].kind == Metadata ==> w.buckets[l[i]].length == 0
  {
    hide Ok, Data, NatureOf;
    if w.buckets[l[i]].kind != Stream {
      ReadableLength(w, l[i]);
      TextSplit(w, l, i);
      Unmoved(w, l, i);
      LoadFirst(w, w, l, i);
    }
  }

  lemma {:induction false} Moved(w: World, w': World, l: seq<BucketId>, l': seq<BucketId>, i: nat)
    requires Ok(w') && Ring(w, l) && Ring(w', l') && i < |l| && i < |l'| && l'[..i + 1] == l[..i + 1]
             && Spares(w, w', [l[i]])
    ensures Text(w', l'[..i]) == Text(w, l[..i]) && l'[i] == l[i] && l'[i] in w'.buckets
    ensures w'.buckets[l'[i]].kind != Stream ==> |Text(w', l'[..i + 1])| == |Text(w, l[..i])| + w'.buckets[l'[i]].length
  {
    hide Ok, Data, NatureOf;
    ReadBefore(w, w', l, l', i);
    Lengths(w', l', i);
  }

  /** Where a bucket has been split. */
  lemma {:induction false} CutAt(w: World, w': World, l: seq<BucketId>, l': seq<BucketId>, i: nat)
    requires Ring(w, l) && i < |l| && Spares(w, w', [l[i]])
    requires exists c :: l' == l[..i + 1] + [c] + l[i + 1..]
    ensures i < |l'| && l'[i] == l[i] && Text(w', l'[..i]) == Text(w, l[..i])
            && Text(w', l'[..i + 1]) == Text(w, l[..i]) + Data(w', l[i])
  {
    hide Data, NatureOf;
    var c :| l' == l[..i + 1] + [c] + l[i + 1..];
    assert l'[..i + 1] == l[..i + 1];
    ReadBefore(w, w', l, l', i);
    TextSplit(w', l', i);
  }

  lemma {:induction false} TextSplit(w: World, l: seq<BucketId>, i: nat)
    requires i <= |l|
    ensures Text(w, l) == Text(w, l[..i]) + Text(w, l[i..])
    ensures i < |l| ==> Text(w, l[i..]) == Data(w, l[i]) + Text(w, l[i + 1..])
    ensures i < |l| ==> Text(w, l[..i + 1]) == Text(w, l[..i]) + Data(w, l[i])
  {
    hide Data;
    assert l == l[..i] + l[i..];
    TextAppend(w, l[..i], l[i..]);
    if i < |l| {
      assert l[i..][0] == l[i] && l[i..][1..] == l[i + 1..];
      assert l[..i + 1] == l[..i] + [l[i]];
      TextAppend(w, l[..i], [l[i]]);
    }
  }

  /** What comes before a bucket is the same after it has been read. */
  lemma {:induction false} ReadBefore(w: World, w': World, l: seq<BucketId>, l': seq<BucketId>, i: nat)
    requires Ring(w, l) && i < |l| && i < |l'| && l'[..i + 1] == l[..i + 1] && Spares(w, w', [l[i]])
    ensures Text(w', l'[..i]) == Text(w, l[..i]) && l'[i] == l[i]
  {
    hide Data;
    assert l'[..i] == l'[..i + 1][..i] == l[..i + 1][..i] == l[..i];
    assert l'[i] == l'[..i + 1][i] == l[..i + 1][i] == l[i];
    forall b | b in l[..i]
      ensures Data(w', b) == Data(w, b)
    {
      assert b in l;
    }
    TextSame(w, w', l[..i]);
  }

  lemma {:induction false} SameRead(w: World, w': World, b: BucketId)
    requires Same(w, w', b)
    ensures Data(w', b) == Data(w, b)
  {
  }

  lemma {:induction false} KeptButSame(w: World, w': World, b: BucketId)
    requires forall e | e in w.buckets :: Same(w, w', e) == true
    ensures Kept(w, w', b) == true
  {
    hide Same;
  }

  lemma {:induction false} KeptThen(w: World, w1: World, w2: World, b: BucketId, c: BucketId)
    requires Kept(w, w1, b) && Kept(w1, w2, c) && c !in w.buckets && b in w1.buckets && b != c
    ensures Kept(w, w2, b) == true && Same(w1, w2, b)
  {
  }

  lemma {:induction false} ReadableLength(w: World, b: BucketId)
    requires Ok(w) && b in w.buckets && w.buckets[b].kind != Stream
    ensures |Data(w, b)| == w.buckets[b].length && (w.buckets[b].kind == Metadata ==> w.buckets[b].length == 0)
  {
  }

  /** How much there is to go through: buckets, and bytes that may come to be in buckets of their own. */
  ghost function Load(w: World, l: seq<BucketId>): nat
    decreases |l|
  {
    if l == [] then 0 else Weight(w, l[0]) + Load(w, l[1..])
  }

  ghost function Weight(w: World, b: BucketId): nat {
    if NatureOf(w, b) == Flow then |Data(w, b)| + 2 else 1
  }

  lemma {:induction false} LoadSame(w: World, w': World, l: seq<BucketId>)
    requires forall b | b in l :: Data(w', b) == Data(w, b) && NatureOf(w', b) == NatureOf(w, b)
    ensures Load(w', l) == Load(w, l)
    decreases |l|
  {
    hide Data, NatureOf;
    if l != [] {
      assert l[0] in l;
      assert forall b | b in l[1..] :: b in l;
      LoadSame(w, w', l[1..]);
    }
  }

  lemma {:induction false} LoadSpared(w: World, w': World, e: seq<BucketId>, l: seq<BucketId>)
    requires Spares(w, w', e) && forall b | b in l :: b in w.buckets && b !in e
    ensures Load(w', l) == Load(w, l)
  {
    hide Data, NatureOf;
    LoadSame(w, w', l);
  }

  lemma {:induction false} RingTail(w: World, l: seq<BucketId>, i: nat)
    requires Ring(w, l) && i < |l|
    ensures forall b | b in l[i + 1..] :: b in w.buckets && b !in [l[i]]
    ensures l[i..][0] == l[i] && l[i..][1..] == l[i + 1..]
  {
  }

  lemma {:induction false} LoadFirst(w: World, w': World, l: seq<BucketId>, i: nat)
    requires Ring(w, l) && i < |l| && Spares(w, w', [l[i]])
    ensures Load(w', l[i + 1..]) < Load(w, l[i..])
  {
    hide Data, NatureOf, Spares;
    RingTail(w, l, i);
    LoadSpared(w, w', [l[i]], l[i + 1..]);
  }

  lemma {:induction false} LoadDelivered(w: World, w': World, l: seq<BucketId>, i: nat, c: BucketId)
    requires Ring(w, l) && i < |l| && Spares(w, w', [l[i]])
    requires NatureOf(w, l[i]) == NatureOf(w', c) == Flow && |Data(w', c)| < |Data(w, l[i])|
    ensures Load(w', [c] + l[i + 1..]) < Load(w, l[i..])
  {
    hide Data, NatureOf, Spares;
    RingTail(w, l, i);
    assert ([c] + l[i + 1..])[1..] == l[i + 1..];
    LoadSpared(w, w', [l[i]], l[i + 1..]);
  }

  /** A bucket changes, but holds the same. */
  lemma {:induction false} InPlace(w: World, w': World, l: seq<BucketId>, i: nat)
    requires Ring(w, l) && i < |l| && Kept(w, w', l[i]) && w'.buckets.Keys == w.buckets.Keys
             && Data(w', l[i]) == Data(w, l[i])
    requires NatureOf(w', l[i]) == Mark <==> NatureOf(w, l[i]) == Mark
    ensures Ring(w', l) == true && Text(w', l) == Text(w, l) && Spares(w, w', [l[i]]) == true
    ensures Marks(w', l) == Marks(w, l)
    ensures NatureOf(w', l[i]) != Flow ==> Streaming(w', l) ==> Streaming(w, l)
  {
    hide Data, Kept;
    forall b | b in w.buckets
      ensures Data(w', b) == Data(w, b) && (b != l[i] ==> NatureOf(w', b) == NatureOf(w, b))
    {
      if b != l[i] {
        KeptData(w, w', l[i], b);
      }
    }
    hide NatureOf;
    TextSame(w, w', l);
    MarksSame(w, w', l);
  }

  /** A bucket gives part of what it holds to a new one after it. */
  lemma {:induction false} Inserted(w: World, w': World, l: seq<BucketId>, i: nat, c: BucketId)
    requires Ring(w, l) && i < |l| && Kept(w, w', l[i]) && c !in w.buckets && w'.buckets.Keys == w.buckets.Keys + {c}
    requires Data(w', l[i]) + Data(w', c) == Data(w, l[i])
    requires NatureOf(w, l[i]) != Mark && NatureOf(w', l[i]) == Solid
    requires NatureOf(w', c) == NatureOf(w, l[i]) || NatureOf(w, l[i]) == Flow
    requires NatureOf(w', c) != Mark
    ensures var l' := l[..i + 1] + [c] + l[i + 1..];
            && Ring(w', l') == true && Text(w', l') == Text(w, l) && Spares(w, w', [l[i]]) == true
            && Marks(w', l') == Marks(w, l) && (Streaming(w', l') ==> Streaming(w, l))
  {
    hide Data, Kept, Text, Marks, Streaming, Spares, NatureOf;
    var e, u, v := l[i], l[..i], l[i + 1..];
    assert l == u + [e] + v && l[..i + 1] + [c] + v == u + ([e] + [c]) + v;
    InsertedRing(w, w', l, i, c);
    hide Ring;
    InsertedText(w, w', u, e, c, v);
    KeptSpares(w, w', e);
    InsertedMarks(w, w', u, e, c, v);
  }

  lemma {:induction false} InsertedRing(w: World, w': World, l: seq<BucketId>, i: nat, c: BucketId)
    requires Ring(w, l) && i < |l| && c !in w.buckets && w'.buckets.Keys == w.buckets.Keys + {c}
    ensures Ring(w', l[..i + 1] + [c] + l[i + 1..]) == true
    ensures l[i] !in l[..i] && l[i] !in l[i + 1..] && forall b | b in l[..i] + l[i + 1..] :: b in w.buckets
  {
    assert c !in l;
  }

  lemma {:induction false} InsertedText(w: World, w': World, u: seq<BucketId>, e: BucketId, c: BucketId,
          v: seq<BucketId>)
    requires Kept(w, w', e) && e !in u && e !in v && forall b | b in u + v :: b in w.buckets
    requires Data(w', e) + Data(w', c) == Data(w, e)
    ensures Text(w', u + ([e] + [c]) + v) == Text(w, u + [e] + v)
  {
    hide Data, Kept;
    assert (forall b | b in u :: b in u + v) && forall b | b in v :: b in u + v;
    KeptText(w, w', e, u);
    KeptText(w, w', e, v);
    TextAppend(w, u + [e], v);
    TextAppend(w, u, [e]);
    TextAppend(w', u + ([e] + [c]), v);
    TextAppend(w', u, [e] + [c]);
    TextAppend(w', [e], [c]);
    TextOne(w, e);
    TextOne(w', e);
    TextOne(w', c);
  }

  lemma {:induction false} InsertedMarks(w: World, w': World, u: seq<BucketId>, e: BucketId, c: BucketId,
          v: seq<BucketId>)
    requires Kept(w, w', e) && e !in u && e !in v && forall b | b in u + v :: b in w.buckets
    requires NatureOf(w, e) != Mark && NatureOf(w', e) == Solid && NatureOf(w', c) != Mark
    requires NatureOf(w', c) == NatureOf(w, e) || NatureOf(w, e) == Flow
    ensures Marks(w', u + ([e] + [c]) + v) == Marks(w, u + [e] + v)
    ensures Streaming(w', u + ([e] + [c]) + v) ==> Streaming(w, u + [e] + v)
  {
    hide Data, Kept, NatureOf, Marks, Streaming;
    forall b | b in u + v
      ensures NatureOf(w', b) == NatureOf(w, b)
    {
      KeptData(w, w', e, b);
    }
    InsertedFlow(w, w', u, e, c, v);
    MarksBetween(w, w', u, e, c, v);
  }

  lemma {:induction false} InsertedFlow(w: World, w': World, u: seq<BucketId>, e: BucketId, c: BucketId,
          v: seq<BucketId>)
    requires forall b | b in u + v :: NatureOf(w', b) == NatureOf(w, b)
    requires NatureOf(w', e) != Flow && (NatureOf(w', c) == NatureOf(w, e) || NatureOf(w, e) == Flow)
    ensures Streaming(w', u + ([e] + [c]) + v) ==> Streaming(w, u + [e] + v)
  {
    hide NatureOf;
    if Streaming(w', u + ([e] + [c]) + v) {
      var b :| b in u + ([e] + [c]) + v && NatureOf(w', b) == Flow;
      assert e in u + [e] + v && (b in u || b in v ==> b in u + [e] + v);
      if b in u || b in v {
        assert b in u + v;
      }
    }
  }

  lemma {:induction false} MarksBetween(w: World, w': World, u: seq<BucketId>, e: BucketId, c: BucketId,
          v: seq<BucketId>)
    requires forall b | b in u + v :: NatureOf(w', b) == NatureOf(w, b)
    requires NatureOf(w, e) != Mark && NatureOf(w', e) != Mark && NatureOf(w', c) != Mark
    ensures Marks(w', u + ([e] + [c]) + v) == Marks(w, u + [e] + v)
  {
    hide NatureOf;
    assert (forall b | b in u :: b in u + v) && forall b | b in v :: b in u + v;
    MarksSame(w, w', u);
    MarksSame(w, w', v);
    MarksAppend(w, u + [e], v);
    MarksAppend(w, u, [e]);
    MarksAppend(w', u + ([e] + [c]), v);
    MarksAppend(w', u, [e] + [c]);
    MarksAppend(w', [e], [c]);
    assert Marks(w', [e]) == [] == Marks(w', [c]) && Marks(w, [e]) == [];
  }

  /** The bytes of an I/O vector. */
  function Joined(vec: seq<Bytes>): Bytes
    decreases |vec|
  {
    if vec == [] then [] else vec[0] + Joined(vec[1..])
  }

  lemma {:induction false} JoinedAppend(a: seq<Bytes>, b: seq<Bytes>)
    ensures Joined(a + b) == Joined(a) + Joined(b)
    decreases |a|
  {
    if a == [] {
      assert a + b == b;
    } else {
      assert (a + b)[1..] == a[1..] + b;
      JoinedAppend(a[1..], b);
    }
  }

  lemma {:induction false} JoinedPush(a: seq<Bytes>, s: Bytes)
    ensures Joined(a + [s]) == Joined(a) + s
  {
    JoinedAppend(a, [s]);
    assert [s][1..] == [];
    assert s + [] == s;
  }

  lemma {:induction false} JoinedNext(vec: seq<Bytes>, i: nat)
    requires i < |vec|
    ensures Joined(vec[..i + 1]) == Joined(vec[..i]) + vec[i]
  {
    assert vec[..i + 1] == vec[..i] + [vec[i]];
    JoinedPush(vec[..i], vec[i]);
  }

  lemma {:induction false} JoinedNone(vec: seq<Bytes>)
    ensures Joined(vec[..0]) == []
  {
  }

  lemma {:induction false} JoinedSplit(vec: seq<Bytes>, i: nat)
    requires i <= |vec|
    ensures Joined(vec) == Joined(vec[..i]) + Joined(vec[i..])
  {
    assert vec == vec[..i] + vec[i..];
    JoinedAppend(vec[..i], vec[i..]);
  }

  /** If the whole vector fits, then so does each piece in its turn. */
  lemma {:induction false} AllFit(vec: seq<Bytes>, i: nat, room: nat)
    requires i <= |vec| && |Joined(vec)| <= room && (i < |vec| ==> |Joined(vec[0..i])| + |vec[i]| > room)
    ensures i == |vec|
  {
    if i < |vec| {
      assert vec[0..i] == vec[..i];
      JoinedNext(vec, i);
      JoinedSplit(vec, i + 1);
    }
  }

  lemma {:induction false} JoinedFits(vec: seq<Bytes>, i: nat, j: nat)
    requires i <= j <= |vec| && |Joined(vec)| <= BUFF_SIZE && (j < |vec| ==> |Joined(vec[i..j])| + |vec[j]| > BUFF_SIZE)
    ensures j == |vec|
  {
    JoinedSplit(vec, i);
    var rest := vec[i..];
    assert j < |vec| ==> rest[0..j - i] == vec[i..j] && rest[j - i] == vec[j];
    AllFit(rest, j - i, BUFF_SIZE);
  }

  lemma {:induction false} Regroup(out: Bytes, text: Bytes, before: Bytes, a: Bytes, b: Bytes)
    requires out + text == before + a
    ensures out + (text + b) == before + (a + b)
  {
    assert out + (text + b) == (out + text) + b;
  }

  lemma {:induction false} SparesTwice(w: World, w1: World, w2: World)
    requires Spares(w, w1, []) && Spares(w1, w2, [])
    ensures Spares(w, w2, []) == true
  {
    hide Data;
  }

  lemma {:induction false} SparesSelf(w: World)
    ensures Spares(w, w, []) == true
  {
  }

  lemma {:induction false} SparesAll(w: World, w': World, l: seq<BucketId>)
    requires Spares(w, w', [])
    ensures Spares(w, w', l) == true
  {
  }

  /** First only new buckets, then those of a list of old and new ones. */
  lemma {:induction false} SparesNew(w: World, w1: World, w2: World, l: seq<BucketId>, l1: seq<BucketId>)
    requires Spares(w, w1, []) && Spares(w1, w2, l1) && forall b | b in l1 :: b in l || b !in w.buckets
    ensures Spares(w, w2, l) == true
  {
    hide Data;
  }

  /** A buffer as it comes from the allocator. */
  method Junk() returns (buf: Bytes)
    ensures |buf| == BUFF_SIZE
  {
    assert |seq(BUFF_SIZE, _ => 0 as byte)| == BUFF_SIZE;
    buf :| |buf| == BUFF_SIZE;
  }

  lemma {:induction false} Popped(w: World, w': World, l: seq<BucketId>)
    requires Ring(w, l) && l != [] && Kept(w, w', l[0]) && w'.buckets.Keys == w.buckets.Keys - {l[0]}
    ensures Ring(w', l[1..]) == true && Spares(w, w', [l[0]]) == true && Text(w', l[1..]) == Text(w, l[1..])
  {
    hide Data, Kept;
    KeptText(w, w', l[0], l[1..]);
    forall x | x in w.buckets && x != l[0]
      ensures Data(w', x) == Data(w, x) && NatureOf(w', x) == NatureOf(w, x)
    {
      KeptData(w, w', l[0], x);
    }
  }
}
