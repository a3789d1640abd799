/** What every operation on buckets keeps: reference counts are exact, blocks are freed once, and no operation changes
    what another bucket reads. */
module BucketSafety {
  import opened Basics
  import opened Buckets

  /** No bucket but `e` reads differently. */
  ghost predicate Kept(w: World, w': World, e: BucketId) {
    forall b | b in w.buckets && b != e :: Same(w, w', b)
  }

  /** The parts of `Ok`, for one block. */
  ghost predicate Fine(w: World, k: BlockId)
    requires k in w.blocks
  {
    BlockOk(w, k) && Owns(w, k)
  }

  ghost predicate FreedOnce(w: World) {
    forall k | k in w.freed :: k !in w.blocks && multiset(w.freed)[k] == 1
  }

  lemma {:induction false} Assemble(w: World)
    requires forall k | k in w.blocks :: Fine(w, k) == true
    requires forall b | b in w.buckets :: BucketOk(w, b) == true
    requires FreedOnce(w)
    ensures Ok(w) == true
  {
    hide BlockOk, BucketOk, Owns;
  }

  lemma {:induction false} BlockFine(w: World, k: BlockId)
    requires Ok(w) && k in w.blocks
    ensures Fine(w, k) == true
  {
    hide BlockOk, BucketOk, Owns;
  }

  /** A bucket that nothing has happened to, nor to its buffer. */
  lemma {:induction false} BucketStays(w: World, w': World, b: BucketId)
    requires b in w.buckets && b in w'.buckets && w'.buckets[b] == w.buckets[b] && BucketOk(w, b)
    requires var x := w.buckets[b];
             Shared(x) ==>
               && x.data in w.blocks && x.data in w'.blocks && BlockOk(w, x.data) && BlockOk(w', x.data)
               && w'.blocks[x.data].allocLen == w.blocks[x.data].allocLen
               && (x.kind.Heap? ==> w'.blocks[x.data].poolBase.None?)
               && w'.mem[Source(w'.blocks[x.data])][..w.blocks[x.data].allocLen]
                  == w.mem[Source(w.blocks[x.data])][..w.blocks[x.data].allocLen]
    requires var x := w.buckets[b];
             x.kind.Transient? || x.kind.Immortal? ==>
               x.data in w.mem && x.data in w'.mem && w'.mem[x.data] == w.mem[x.data]
    ensures Same(w, w', b) == true
  {
    var x := w.buckets[b];
    if Shared(x) {
      var n := w.blocks[x.data].allocLen;
      var m, m' := w.mem[Source(w.blocks[x.data])], w'.mem[Source(w'.blocks[x.data])];
      Slice(m, n, x.start, x.start + x.length);
      Slice(m', n, x.start, x.start + x.length);
    }
  }

  lemma {:induction false} Slice(m: Bytes, n: nat, i: nat, j: nat)
    requires i <= j <= n <= |m|
    ensures m[..n][i..j] == m[i..j]
  {
  }

  // ---------- one lemma for all operations ----------

  /** `w'` differs from `w` in the buckets `es`, in block `k`, and in the buffer at `a` only. */
  ghost predicate Only(w: World, w': World, es: set<BucketId>, k: BlockId, a: Addr) {
    && (forall b | b !in es ::
       (b in w.buckets <==> b in w'.buckets) && (b in w.buckets ==> w'.buckets[b] == w.buckets[b]))
    && (forall j | j != k :: (j in w.blocks <==> j in w'.blocks) && (j in w.blocks ==> w'.blocks[j] == w.blocks[j]))
    && (forall x | x in w.mem && x != a :: x in w'.mem && w'.mem[x] == w.mem[x])
  }

  /** The buckets `es` have to do with no block but `k`. */
  ghost predicate About(w: World, es: set<BucketId>, k: BlockId) {
    forall b | b in es && b in w.buckets :: Shared(w.buckets[b]) ==> w.buckets[b].data == k
  }

  /** Nothing but block `k` and the buckets `es` uses the buffer at `a`. */
  ghost predicate Private(w: World, es: set<BucketId>, k: BlockId, a: Addr) {
    && (forall j | j in w.blocks && j != k :: w.blocks[j].base != Some(a) && w.blocks[j].poolBase != Some(a))
    && (forall b | b in w.buckets && b !in es :: Foreign(w.buckets[b], a))
  }

  /** The other buckets of block `k` find the same data there. */
  ghost predicate SameData(w: World, w': World, es: set<BucketId>, k: BlockId) {
    (exists b | b in w.buckets && b !in es :: Shared(w.buckets[b]) && w.buckets[b].data == k) ==>
      && k in w.blocks && k in w'.blocks && BlockOk(w, k) && BlockOk(w', k)
      && w'.blocks[k].allocLen == w.blocks[k].allocLen && (w.blocks[k].poolBase.None? ==> w'.blocks[k].poolBase.None?)
      && w'.mem[Source(w'.blocks[k])][..w.blocks[k].allocLen] == w.mem[Source(w.blocks[k])][..w.blocks[k].allocLen]
  }

  /** What is new does not use the buffer that another block owns. */
  ghost predicate Outside(w: World, w': World, es: set<BucketId>, k: BlockId) {
    forall j | j in w.blocks && j != k && w.blocks[j].base.Some? ::
      && (k in w'.blocks ==> w'.blocks[k].base != w.blocks[j].base && w'.blocks[k].poolBase != w.blocks[j].base)
      && (forall b | b in es && b in w'.buckets :: Foreign(w'.buckets[b], w.blocks[j].base.value))
  }

  lemma {:induction false} PointersStay(w: World, w': World, es: set<BucketId>, k: BlockId, a: Addr, j: BlockId)
    requires Only(w, w', es, k, a) && About(w, es, k) && About(w', es, k) && j != k
    ensures Pointers(w', j) == Pointers(w, j)
  {
  }

  lemma {:induction false} OtherBlock(w: World, w': World, es: set<BucketId>, k: BlockId, a: Addr, j: BlockId)
    requires Only(w, w', es, k, a) && About(w, es, k) && About(w', es, k) && Private(w, es, k, a)
    requires j != k && j in w.blocks && j in w'.blocks && BlockOk(w, j)
    ensures BlockOk(w', j) == true
  {
    hide About;
    PointersStay(w, w', es, k, a, j);
  }

  lemma {:induction false} OtherOwns(w: World, w': World, es: set<BucketId>, k: BlockId, a: Addr, j: BlockId)
    requires Only(w, w', es, k, a) && Outside(w, w', es, k) && j != k && j in w.blocks && j in w'.blocks && Owns(w, j)
    ensures Owns(w', j) == true
  {
  }

  lemma {:induction false} OtherBucket(w: World, w': World, es: set<BucketId>, k: BlockId, a: Addr, b: BucketId)
    requires Ok(w) && Only(w, w', es, k, a) && Private(w, es, k, a) && SameData(w, w', es, k)
    requires b in w.buckets && b !in es
    requires var x := w.buckets[b]; Shared(x) && x.data != k ==> x.data in w'.blocks && BlockOk(w', x.data)
    ensures Same(w, w', b) == true
  {
    hide Owns;
    var x := w.buckets[b];
    assert BucketOk(w, b);
    BucketStays(w, w', b);
  }

  lemma {:induction false} Change(w: World, w': World, es: set<BucketId>, k: BlockId, a: Addr)
    requires Ok(w) == true && Only(w, w', es, k, a) == true && About(w, es, k) == true && About(w', es, k) == true
    requires Private(w, es, k, a) == true && SameData(w, w', es, k) == true && Outside(w, w', es, k) == true
    requires k in w'.blocks ==> Fine(w', k) == true
    requires forall b | b in es && b in w'.buckets :: BucketOk(w', b) == true
    requires FreedOnce(w') == true
    ensures Ok(w') == true
    ensures forall b | b in w.buckets && b !in es :: Same(w, w', b) == true
  {
    hide BlockOk, BucketOk, Owns, About, Private, SameData, Outside, FreedOnce, Same;
    forall j | j in w'.blocks
      ensures Fine(w', j) == true
    {
      if j != k {
        assert j in w.blocks;
        OtherBlock(w, w', es, k, a, j);
        OtherOwns(w, w', es, k, a, j);
      }
    }
    forall b | b in w.buckets && b !in es
      ensures Same(w, w', b) == true
    {
      var x := w.buckets[b];
      if Shared(x) && x.data != k {
        InBlocks(w, b);
        assert x.data in w'.blocks;
        assert Fine(w', x.data);
      }
      OtherBucket(w, w', es, k, a, b);
    }
    forall b | b in w'.buckets
      ensures BucketOk(w', b) == true
    {
      if b !in es {
        assert b in w.buckets;
        SameOk(w, w', b);
      }
    }
    Assemble(w');
  }

  lemma {:induction false} InBlocks(w: World, b: BucketId)
    requires Ok(w) && b in w.buckets && Shared(w.buckets[b])
    ensures w.buckets[b].data in w.blocks && BucketOk(w, b)
  {
  }

  lemma {:induction false} SameOk(w: World, w': World, b: BucketId)
    requires Same(w, w', b)
    ensures b in w'.buckets && BucketOk(w', b) == true
  {
  }

  // ---------- making ----------

  lemma {:induction false} FreshUnused(w: World, a: Addr, es: set<BucketId>, k: BlockId)
    requires Ok(w) && FreshAddr(w, a) && forall b | b in es && b in w.buckets :: !Shared(w.buckets[b])
    ensures Private(w, es, k, a) == true
  {
  }

  /** `apr_bucket_heap_create`, `transient_bucket_setaside`: a new block, its buffer, and one bucket. */
  lemma {:induction false} HeapCreateKeeps(w: World, b: BucketId, k: BlockId, a: Addr, buf: Bytes, length: nat)
    requires Ok(w) == true && FreshBlock(w, k) && FreshAddr(w, a) && length <= |buf|
    requires b in w.buckets ==> !Shared(w.buckets[b])
    ensures var w' := HeapCreate(w, b, k, a, buf, length);
            Ok(w') == true && Kept(w, w', b) == true && BlockOk(w', k) && BucketOk(w', b)
              && Content(w', b) == buf[..length]
  {
    hide Ok;
    var w' := HeapCreate(w, b, k, a, buf, length);
    NewBlock(w, w', b, k);
    FreshUnused(w, a, {b}, k);
    HeapCreateOwns(w, b, k, a, buf, length);
    OnceStill(w, w', k);
    Change(w, w', {b}, k, a);
  }

  lemma {:induction false} NewBlock(w: World, w': World, b: BucketId, k: BlockId)
    requires FreshBlock(w, k) && b in w'.buckets && w'.buckets == w.buckets[b := w'.buckets[b]]
    requires Shared(w'.buckets[b]) && w'.buckets[b].data == k
    ensures Pointers(w', k) == {b}
  {
  }

  lemma {:induction false} HeapCreateOwns(w: World, b: BucketId, k: BlockId, a: Addr, buf: Bytes, length: nat)
    requires Ok(w) && FreshBlock(w, k) && FreshAddr(w, a) && length <= |buf| && Private(w, {b}, k, a)
    ensures Owns(HeapCreate(w, b, k, a, buf, length), k) == true
    ensures Outside(w, HeapCreate(w, b, k, a, buf, length), {b}, k) == true
  {
  }

  /** Nothing has been freed. */
  lemma {:induction false} OnceStill(w: World, w': World, k: BlockId)
    requires Ok(w) && w'.freed == w.freed && w'.blocks.Keys <= w.blocks.Keys + {k} && k !in w.freed
    ensures FreedOnce(w') == true
  {
    hide BlockOk, BucketOk, Owns;
  }

  lemma {:induction false} PoolCreateKeeps(w: World, b: BucketId, k: BlockId, a: Addr, length: nat)
    requires Ok(w) == true && FreshBlock(w, k) && b !in w.buckets && a in w.mem && length <= |w.mem[a]|
    requires forall j | j in w.blocks :: w.blocks[j].base != Some(a)
    ensures var w' := PoolCreate(w, b, k, a, length);
            Ok(w') == true && Kept(w, w', b) == true && BlockOk(w', k) && BucketOk(w', b)
              && Content(w', b) == w.mem[a][..length]
  {
    hide Ok;
    var w' := PoolCreate(w, b, k, a, length);
    NewBlock(w, w', b, k);
    var x := FreshAddress(w);
    FreshUnused(w, x, {b}, k);
    OnceStill(w, w', k);
    Change(w, w', {b}, k, x);
  }

  /** There is always an address that is not in use. */
  lemma {:induction false} FreshAddress(w: World) returns (a: Addr)
    ensures FreshAddr(w, a)
  {
    a := Above(w.mem.Keys);
  }

  lemma {:induction false} Above(s: set<nat>) returns (a: nat)
    ensures forall x | x in s :: x < a
    decreases s
  {
    if s == {} {
      a := 0;
    } else {
      var x :| x in s;
      var m := Above(s - {x});
      a := if m > x then m else x + 1;
      forall y | y in s
        ensures y < a
      {
        assert y != x ==> y in s - {x};
      }
    }
  }

  lemma {:induction false} SimpleCreateKeeps(w: World, b: BucketId, kind: Kind, a: Addr, start: nat, length: nat)
    requires Ok(w) == true && b !in w.buckets && (kind.Transient? || kind.Immortal?)
    requires a in w.mem && start + length <= |w.mem[a]| && forall j | j in w.blocks :: w.blocks[j].base != Some(a)
    ensures var w' := SimpleCreate(w, b, kind, a, start, length);
            Ok(w') == true && Kept(w, w', b) == true && BucketOk(w', b)
              && Content(w', b) == w.mem[a][start..start + length]
  {
    hide Ok;
    var w' := SimpleCreate(w, b, kind, a, start, length);
    var k := FreshName(w);
    var x := FreshAddress(w);
    FreshUnused(w, x, {b}, k);
    OnceStill(w, w', k);
    Change(w, w', {b}, k, x);
  }

  lemma {:induction false} FreshName(w: World) returns (k: BlockId)
    ensures FreshBlock(w, k)
  {
    var used :=
      w.blocks.Keys + (set i | 0 <= i < |w.freed| :: w.freed[i]) + (set b | b in w.buckets :: w.buckets[b].data);
    k := Above(used);
    assert forall j | j in w.freed :: j in used;
    assert forall b | b in w.buckets :: w.buckets[b].data in used;
    assert k !in used;
  }

  // ---------- copying and splitting ----------

  /** The block a bucket is about: its own, or one that does not exist. */
  lemma {:induction false} BlockOf(w: World, b: BucketId) returns (k: BlockId)
    requires Ok(w) == true && b in w.buckets
    ensures if Shared(w.buckets[b]) then k == w.buckets[b].data && k in w.blocks && Fine(w, k) == true
            else FreshBlock(w, k)
    ensures k !in w.freed
  {
    hide BlockOk, BucketOk, Owns;
    if Shared(w.buckets[b]) {
      k := w.buckets[b].data;
      InBlocks(w, b);
      BlockFine(w, k);
    } else {
      k := FreshName(w);
    }
  }

  /** An operation on a bucket and perhaps a new one next to it, with its block counting along. */
  lemma {:induction false} Twin(w: World, w': World, b: BucketId, c: BucketId, x: Bucket, y: Bucket)
    requires Ok(w) == true && b in w.buckets && c !in w.buckets
    requires x.kind == y.kind == w.buckets[b].kind && x.data == y.data == w.buckets[b].data
    requires w' == Counted(w.(buckets := w.buckets[b := x][c := y]), w.buckets[b], 1)
    requires BucketOk(w', b) && BucketOk(w', c)
    ensures Ok(w') == true && forall e | e in w.buckets && e != b :: Same(w, w', e) == true
  {
    hide Ok;
    var k := BlockOf(w, b);
    var a := FreshAddress(w);
    if Shared(w.buckets[b]) {
      TwinBlock(w, w', b, c, k);
    }
    TwinPrivate(w, w', b, c, k, a);
    OnceStill(w, w', k);
    Change(w, w', {b, c}, k, a);
  }

  lemma {:induction false} TwinBlock(w: World, w': World, b: BucketId, c: BucketId, k: BlockId)
    requires Ok(w) == true && b in w.buckets && c !in w.buckets && b in w'.buckets && c in w'.buckets
    requires Shared(w.buckets[b]) && Shared(w'.buckets[b]) && Shared(w'.buckets[c])
    requires k == w.buckets[b].data == w'.buckets[b].data == w'.buckets[c].data && k in w.blocks && Fine(w, k)
    requires w'.buckets == w.buckets[b := w'.buckets[b]][c := w'.buckets[c]]
    requires w'
             == w.(buckets := w'.buckets, blocks := w.blocks[k := w.blocks[k].(refcount := w.blocks[k].refcount + 1)])
    ensures Fine(w', k) == true && SameData(w, w', {b, c}, k) == true
  {
    hide BucketOk;
    assert Pointers(w', k) == Pointers(w, k) + {c};
  }

  lemma {:induction false} TwinPrivate(w: World, w': World, b: BucketId, c: BucketId, k: BlockId, a: Addr)
    requires Ok(w) && b in w.buckets && c !in w.buckets && FreshAddr(w, a) && b in w'.buckets && c in w'.buckets
    requires Shared(w.buckets[b]) ==> k == w.buckets[b].data && k in w.blocks
    requires !Shared(w.buckets[b]) ==> FreshBlock(w, k)
    requires w'.buckets[b].kind == w'.buckets[c].kind == w.buckets[b].kind
             && w'.buckets[b].data == w'.buckets[c].data == w.buckets[b].data
    requires w' == Counted(w.(buckets := w.buckets[b := w'.buckets[b]][c := w'.buckets[c]]), w.buckets[b], 1)
    ensures Private(w, {b, c}, k, a) == true && Outside(w, w', {b, c}, k) == true
    ensures !Shared(w.buckets[b]) ==> SameData(w, w', {b, c}, k) == true
  {
    hide BucketOk;
    forall j | j in w.blocks
      ensures w.blocks[j].base != Some(a) && w.blocks[j].poolBase != Some(a)
    {
      assert BlockOk(w, j);
    }
    forall e | e in w.buckets
      ensures Foreign(w.buckets[e], a)
    {
      ForeignFresh(w, e, a);
    }
    forall j | j in w.blocks && j != k && w.blocks[j].base.Some?
      ensures Foreign(w.buckets[b], w.blocks[j].base.value)
      ensures k in w.blocks ==> w.blocks[k].base != w.blocks[j].base && w.blocks[k].poolBase != w.blocks[j].base
    {
      assert Owns(w, j);
    }
  }

  lemma {:induction false} ForeignFresh(w: World, e: BucketId, a: Addr)
    requires Ok(w) && e in w.buckets && FreshAddr(w, a)
    ensures Foreign(w.buckets[e], a)
  {
  }

  lemma {:induction false} CopyKeeps(w: World, b: BucketId, c: BucketId)
    requires Ok(w) == true && b in w.buckets && c !in w.buckets
    ensures var w' := Copy(w, b, c);
            && Ok(w') == true && (forall e | e in w.buckets :: Same(w, w', e) == true)
            && c in w'.buckets && Readable(w', c) && Readable(w, b) && Content(w', c) == Content(w, b)
  {
    hide Ok;
    var w' := Copy(w, b, c);
    var k := BlockOf(w, b);
    IsOk(w, b);
    assert w'.buckets == w.buckets[b := w.buckets[b]][c := w.buckets[b]];
    Twin(w, w', b, c, w.buckets[b], w.buckets[b]);
    IsOk(w', b);
  }

  ghost predicate Readable(w: World, b: BucketId)
    requires b in w.buckets
  {
    BucketOk(w, b) && (Shared(w.buckets[b]) ==> BlockOk(w, w.buckets[b].data))
  }

  lemma {:induction false} IsOk(w: World, b: BucketId)
    requires Ok(w) && b in w.buckets
    ensures Readable(w, b)
  {
  }

  /** The halves of a bucket that has been split hold what it held. */
  lemma {:induction false} SplitKeeps(w: World, b: BucketId, point: nat, c: BucketId)
    requires Ok(w) == true && b in w.buckets && c !in w.buckets
    ensures var (w', st) := Split(w, b, point, c);
            && Ok(w') == true && Kept(w, w', b) == true && Readable(w, b)
            && (st != Success ==> w' == w)
            && (st == Success ==>
                  && b in w'.buckets && c in w'.buckets && Readable(w', b) && Readable(w', c)
                  && Content(w', b) + Content(w', c) == Content(w, b) && |Content(w', b)| == point)
            && (st == Success
               <==> w.buckets[b].kind != Metadata && w.buckets[b].kind != Stream && point <= w.buckets[b].length)
  {
    hide Ok, Content, Same;
    var (w', st) := Split(w, b, point, c);
    IsOk(w, b);
    if st == Success {
      var x := w.buckets[b];
      Twin(w, w', b, c, x.(length := point), x.(start := x.start + point, length := x.length - point));
      IsOk(w', b);
      IsOk(w', c);
      SplitContent(w, b, point, c);
    } else {
      KeptSelf(w, b);
    }
  }

  lemma {:induction false} SplitContent(w: World, b: BucketId, point: nat, c: BucketId)
    requires b in w.buckets && Readable(w, b) && c !in w.buckets && Split(w, b, point, c).1 == Success
    requires Readable(Split(w, b, point, c).0, b) && Readable(Split(w, b, point, c).0, c)
    ensures var w' := Split(w, b, point, c).0;
            Content(w', b) + Content(w', c) == Content(w, b) && |Content(w', b)| == point
  {
  }

  lemma {:induction false} KeptSelf(w: World, e: BucketId)
    requires Ok(w)
    ensures Kept(w, w, e) == true
  {
    forall b | b in w.buckets && b != e
      ensures Same(w, w, b)
    {
      IsOk(w, b);
    }
  }

  // ---------- destroying ----------

  /** A count of one means that nobody else points at the block. */
  lemma {:induction false} OnlyPointer(w: World, b: BucketId, k: BlockId)
    requires k in w.blocks && BlockOk(w, k) && b in Pointers(w, k)
    ensures w.blocks[k].refcount == 1 <==> Pointers(w, k) == {b}
  {
    if w.blocks[k].refcount == 1 {
      var rest := Pointers(w, k) - {b};
      assert |rest| == 0;
      assert Pointers(w, k) == rest + {b};
    }
  }

  /** Destroying a bucket frees its block if and only if it is the last to point at it; nothing else is touched. */
  lemma {:induction false} DestroyKeeps(w: World, b: BucketId)
    requires Ok(w) == true && b in w.buckets
    ensures var w' := Destroy(w, b);
            && Ok(w') == true && Kept(w, w', b) == true && w'.buckets.Keys == w.buckets.Keys - {b}
            && w'.freed == if Shared(w.buckets[b]) && Pointers(w, w.buckets[b].data) == {b}
               then w.freed + [w.buckets[b].data] else w.freed
  {
    hide Ok;
    var k := BlockOf(w, b);
    if Shared(w.buckets[b]) {
      OnlyPointer(w, b, k);
      if w.blocks[k].refcount == 1 {
        DestroyLast(w, b, k);
      } else {
        DestroyOther(w, b, k);
      }
    } else {
      DestroySimple(w, b, k);
    }
  }

  lemma {:induction false} DestroySimple(w: World, b: BucketId, k: BlockId)
    requires Ok(w) == true && b in w.buckets && !Shared(w.buckets[b]) && FreshBlock(w, k)
    ensures Ok(Destroy(w, b)) == true && Kept(w, Destroy(w, b), b) == true
  {
    hide Ok;
    var a := FreshAddress(w);
    FreshUnused(w, a, {b}, k);
    OnceStill(w, Destroy(w, b), k);
    Change(w, Destroy(w, b), {b}, k, a);
  }

  lemma {:induction false} DestroyOther(w: World, b: BucketId, k: BlockId)
    requires Ok(w) == true && b in w.buckets && Shared(w.buckets[b]) && k == w.buckets[b].data && k in w.blocks
             && Fine(w, k)
    requires w.blocks[k].refcount != 1 && k !in w.freed
    ensures Ok(Destroy(w, b)) == true && Kept(w, Destroy(w, b), b) == true && Destroy(w, b).freed == w.freed
  {
    hide Ok;
    var w' := Destroy(w, b);
    assert w' == Counted(w.(buckets := w.buckets - {b}), w.buckets[b], -1);
    assert Pointers(w', k) == Pointers(w, k) - {b};
    assert b in Pointers(w, k);
    var a := FreshAddress(w);
    GonePrivate(w, w', b, k, a);
    OnceStill(w, w', k);
    Change(w, w', {b}, k, a);
  }

  lemma {:induction false} GonePrivate(w: World, w': World, b: BucketId, k: BlockId, a: Addr)
    requires Ok(w) && k in w.blocks && FreshAddr(w, a) && b !in w'.buckets
    requires k in w'.blocks ==> w'.blocks[k].base == w.blocks[k].base && w'.blocks[k].poolBase == w.blocks[k].poolBase
    ensures Private(w, {b}, k, a) == true && Outside(w, w', {b}, k) == true
  {
    hide BucketOk;
    forall j | j in w.blocks
      ensures w.blocks[j].base != Some(a) && w.blocks[j].poolBase != Some(a)
    {
      assert BlockOk(w, j);
    }
    forall e | e in w.buckets
      ensures Foreign(w.buckets[e], a)
    {
      ForeignFresh(w, e, a);
    }
    forall j | j in w.blocks && j != k && w.blocks[j].base.Some?
      ensures w.blocks[k].base != w.blocks[j].base && w.blocks[k].poolBase != w.blocks[j].base
    {
      assert Owns(w, j);
    }
  }

  lemma {:induction false} DestroyLast(w: World, b: BucketId, k: BlockId)
    requires Ok(w) == true && b in w.buckets && Shared(w.buckets[b]) && k == w.buckets[b].data && k in w.blocks
             && Fine(w, k)
    requires w.blocks[k].refcount == 1 && Pointers(w, k) == {b} && k !in w.freed
    ensures Ok(Destroy(w, b)) == true && Kept(w, Destroy(w, b), b) == true && Destroy(w, b).freed == w.freed + [k]
  {
    hide Ok;
    var w' := Destroy(w, b);
    var fresh_ := FreshAddress(w);
    var a := if w.blocks[k].base.Some? then w.blocks[k].base.value else fresh_;
    LastPrivate(w, w', b, k, a);
    FreedOne(w, w', k);
    forall e | e in w.buckets && e != b && Shared(w.buckets[e])
      ensures w.buckets[e].data != k
    {
      assert e !in Pointers(w, k);
    }
    Change(w, w', {b}, k, a);
  }

  lemma {:induction false} LastPrivate(w: World, w': World, b: BucketId, k: BlockId, a: Addr)
    requires Ok(w) && k in w.blocks && b !in w'.buckets && k !in w'.blocks && Owns(w, k)
    requires if w.blocks[k].base.Some? then a == w.blocks[k].base.value else FreshAddr(w, a)
    ensures Private(w, {b}, k, a) == true && Outside(w, w', {b}, k) == true
  {
  }

  lemma {:induction false} FreedOne(w: World, w': World, k: BlockId)
    requires Ok(w) && w'.freed == w.freed + [k] && w'.blocks.Keys <= w.blocks.Keys - {k} && k !in w.freed
    ensures FreedOnce(w') == true
  {
  }

  // ---------- pools ----------

  /** When a pool goes, its blocks take their data along: every bucket reads the same as before. */
  lemma {:induction false} CleanupKeeps(w: World, k: BlockId, a: Addr)
    requires Ok(w) == true && k in w.blocks && w.blocks[k].poolBase.Some? && FreshAddr(w, a)
    ensures w.blocks[k].poolBase.value in w.mem && w.blocks[k].allocLen <= |w.mem[w.blocks[k].poolBase.value]|
    ensures Ok(Cleanup(w, k, a)) == true && forall b | b in w.buckets :: Same(w, Cleanup(w, k, a), b) == true
  {
    hide Ok;
    BlockFine(w, k);
    var w' := Cleanup(w, k, a);
    assert Pointers(w', k) == Pointers(w, k);
    CleanupPrivate(w, w', k, a);
    FreedStill(w, w');
    Change(w, w', {}, k, a);
  }

  lemma {:induction false} FreedStill(w: World, w': World)
    requires Ok(w) && w'.freed == w.freed && w'.blocks.Keys == w.blocks.Keys
    ensures FreedOnce(w') == true
  {
    hide BlockOk, BucketOk, Owns;
  }

  lemma {:induction false} CleanupPrivate(w: World, w': World, k: BlockId, a: Addr)
    requires Ok(w) && k in w.blocks && k in w'.blocks && FreshAddr(w, a)
    requires w'.buckets == w.buckets && w'.blocks == w.blocks[k := w'.blocks[k]] && w'.blocks[k].base == Some(a)
             && w'.blocks[k].poolBase == None
    ensures Private(w, {}, k, a) == true && Outside(w, w', {}, k) == true && Owns(w', k) == true
  {
    hide BucketOk;
    forall j | j in w.blocks
      ensures w.blocks[j].base != Some(a) && w.blocks[j].poolBase != Some(a)
    {
      assert BlockOk(w, j);
    }
    forall e | e in w.buckets
      ensures Foreign(w.buckets[e], a)
    {
      ForeignFresh(w, e, a);
    }
  }

  /** A buffer that nothing refers to can go. */
  lemma {:induction false} ReleaseKeeps(w: World, a: Addr)
    requires Ok(w) == true && Unused(w, a)
    ensures Ok(Release(w, a)) == true && forall b | b in w.buckets :: Same(w, Release(w, a), b) == true
  {
    hide Ok;
    var k := FreshName(w);
    FreedStill(w, Release(w, a));
    Change(w, Release(w, a), {}, k, a);
  }

  /** Reading a pool bucket may turn it into a heap bucket, which reads the same. */
  lemma {:induction false} TouchKeeps(w: World, b: BucketId)
    requires Ok(w) == true && b in w.buckets
    ensures var w' := Touch(w, b);
            Ok(w') == true && (forall e | e in w.buckets :: Same(w, w', e) == true) && w'.buckets.Keys == w.buckets.Keys
  {
    hide Ok;
    var w' := Touch(w, b);
    IsOk(w, b);
    if w' == w {
      KeptSelf(w, b);
    } else {
      var k := BlockOf(w, b);
      var a := FreshAddress(w);
      assert Pointers(w', k) == Pointers(w, k);
      TouchPrivate(w, w', b, k, a);
      FreedStill(w, w');
      Change(w, w', {b}, k, a);
    }
  }

  lemma {:induction false} TouchPrivate(w: World, w': World, b: BucketId, k: BlockId, a: Addr)
    requires Ok(w) && k in w.blocks && FreshAddr(w, a) && b in w'.buckets && Shared(w'.buckets[b])
             && w'.blocks == w.blocks
    ensures Private(w, {b}, k, a) == true && Outside(w, w', {b}, k) == true
  {
  }

  // ---------- writing in place ----------

  /** A heap bucket whose block no other bucket shares. */
  ghost predicate Sole(w: World, b: BucketId) {
    && b in w.buckets && w.buckets[b].kind.Heap? && w.buckets[b].data in w.blocks
    && w.blocks[w.buckets[b].data].refcount == 1
    && w.buckets[b].start + w.buckets[b].length <= w.blocks[w.buckets[b].data].allocLen
  }

  /** The room behind its end. */
  ghost function Space(w: World, b: BucketId): nat
    requires Sole(w, b)
  {
    w.blocks[w.buckets[b].data].allocLen - (w.buckets[b].start + w.buckets[b].length)
  }

  ghost predicate Writable(w: World, b: BucketId, n: nat) {
    Sole(w, b) && n <= Space(w, b)
  }

  /** Writing there extends the bucket and changes what no other bucket reads. */
  lemma {:induction false} ExtendKeeps(w: World, b: BucketId, s: Bytes)
    requires Ok(w) == true && Writable(w, b, |s|)
    ensures w.blocks[w.buckets[b].data].base.Some? && w.blocks[w.buckets[b].data].base.value in w.mem
    ensures w.blocks[w.buckets[b].data].allocLen <= |w.mem[w.blocks[w.buckets[b].data].base.value]|
    ensures var w' := Extend(w, b, s);
            && Ok(w') == true && Kept(w, w', b) == true && w'.buckets.Keys == w.buckets.Keys
            && Readable(w, b) && Readable(w', b) && Content(w', b) == Content(w, b) + s
  {
    hide Ok;
    IsOk(w, b);
    var k := BlockOf(w, b);
    OnlyPointer(w, b, k);
    var a := w.blocks[k].base.value;
    var w' := Extend(w, b, s);
    assert Pointers(w', k) == Pointers(w, k);
    FreedStill(w, w');
    forall e | e in w.buckets && e != b && Shared(w.buckets[e])
      ensures w.buckets[e].data != k
    {
      assert e !in Pointers(w, k);
    }
    Change(w, w', {b}, k, a);
  }

  // ---------- streams ----------

  /** A stream bucket, whose bytes are still to come. */
  function StreamCreate(w: World, b: BucketId, pending: Bytes): World {
    w.(buckets := w.buckets[b := Bucket(Stream, 0, 0, 0, pending)])
  }

  lemma {:induction false} StreamCreateKeeps(w: World, b: BucketId, pending: Bytes)
    requires Ok(w) == true && b !in w.buckets
    ensures var w' := StreamCreate(w, b, pending);
            Ok(w') == true && Kept(w, w', b) == true && Readable(w', b) && Content(w', b) == pending
  {
    hide Ok;
    var k := FreshName(w);
    var a := FreshAddress(w);
    FreshUnused(w, a, {b}, k);
    OnceStill(w, StreamCreate(w, b, pending), k);
    Change(w, StreamCreate(w, b, pending), {b}, k, a);
  }

  /** A buffer of the caller's, and a bucket on it; or an empty constant in place of a stream that has ended. */
  function Borrow(w: World, b: BucketId, kind: Kind, a: Addr, s: Bytes): World {
    w.(mem := w.mem[a := s], buckets := w.buckets[b := Bucket(kind, a, 0, |s|, [])])
  }

  lemma {:induction false} BorrowKeeps(w: World, b: BucketId, kind: Kind, a: Addr, s: Bytes)
    requires Ok(w) == true && FreshAddr(w, a) && (kind.Transient? || kind.Immortal?)
    requires b in w.buckets ==> !Shared(w.buckets[b])
    ensures var w' := Borrow(w, b, kind, a, s);
            Ok(w') == true && Kept(w, w', b) == true && Readable(w', b) && Content(w', b) == s
  {
    hide Ok;
    var w' := Borrow(w, b, kind, a, s);
    var k := FreshName(w);
    FreshUnused(w, a, {b}, k);
    OnceStill(w, w', k);
    Change(w, w', {b}, k, a);
  }

}
