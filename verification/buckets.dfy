/** Buckets: stretches of memory, some of them in blocks that several buckets share.

    Memory is explicit, so that aliasing is: a buffer has an address, a block refers to a
    buffer, any number of buckets refer to a block, and writing to the buffer changes what all
    of them read. */
module Buckets {
  import opened Basics

  type Addr = nat
  type BlockId = nat
  type BucketId = nat

  /** `Stream` stands for pipes, sockets and files: a bucket of unknown length until it is read. */
  datatype Kind = Heap | Pool | Transient | Immortal | Metadata | Stream

  /** `apr_bucket_heap`, or `apr_bucket_pool` with the heap block inside it.  `poolBase` is where the data is while the
      pool lives, `base` where it is otherwise. */
  datatype Block = Block(refcount: int, base: Option<Addr>, allocLen: nat, poolBase: Option<Addr>)

  /** `data` is a block or a buffer, by kind; `pending` is what a stream has yet to deliver. */
  datatype Bucket = Bucket(kind: Kind, data: nat, start: nat, length: nat, pending: Bytes)

  /** All buffers, blocks and buckets there are, and the blocks that have been freed, in order. */
  datatype World = World(mem: map<Addr, Bytes>, blocks: map<BlockId, Block>, buckets: map<BucketId, Bucket>,
    freed: seq<BlockId>)

  predicate Shared(x: Bucket) {
    x.kind.Heap? || x.kind.Pool?
  }

  /** Where the data of a block is. */
  function Source(k: Block): Addr
    requires k.poolBase.Some? || k.base.Some?
  {
    if k.poolBase.Some? then k.poolBase.value else k.base.value
  }

  // ---------- what holds throughout ----------

  /** The buckets that point at a block. */
  ghost function Pointers(w: World, k: BlockId): set<BucketId> {
    set b | b in w.buckets && Shared(w.buckets[b]) && w.buckets[b].data == k
  }

  ghost predicate BlockOk(w: World, k: BlockId)
    requires k in w.blocks
  {
    var r := w.blocks[k];
    && r.refcount == |Pointers(w, k)| > 0
    && (r.base.Some? <==> r.poolBase.None?)
    && Source(r) in w.mem && r.allocLen <= |w.mem[Source(r)]|
  }

  /** A bucket lies within its buffer; one that passes for a heap bucket does not depend on a pool. */
  ghost predicate BucketOk(w: World, b: BucketId)
    requires b in w.buckets
  {
    var x := w.buckets[b];
    match x.kind
    case Heap => x.data in w.blocks && w.blocks[x.data].poolBase.None?
      && x.start + x.length <= w.blocks[x.data].allocLen
    case Pool => x.data in w.blocks && x.start + x.length <= w.blocks[x.data].allocLen
    case Transient => x.data in w.mem && x.start + x.length <= |w.mem[x.data]|
    case Immortal => x.data in w.mem && x.start + x.length <= |w.mem[x.data]|
    case Metadata => x.length == 0
    case Stream => true
  }

  /** A block that owns its buffer is the only one to use it. */
  ghost predicate Owns(w: World, k: BlockId)
    requires k in w.blocks
  {
    w.blocks[k].base.Some? ==>
      && (forall j | j in w.blocks && j != k :: w.blocks[j].base != w.blocks[k].base)
      && (forall j | j in w.blocks :: w.blocks[j].poolBase != w.blocks[k].base)
      && (forall b | b in w.buckets :: Foreign(w.buckets[b], w.blocks[k].base.value))
  }

  predicate Foreign(x: Bucket, a: Addr) {
    x.kind.Transient? || x.kind.Immortal? ==> x.data != a
  }

  ghost predicate Ok(w: World) {
    && (forall k | k in w.blocks :: BlockOk(w, k))
    && (forall b | b in w.buckets :: BucketOk(w, b))
    && (forall k | k in w.blocks :: Owns(w, k))
    && (forall k | k in w.freed :: k !in w.blocks && multiset(w.freed)[k] == 1)
  }

  /** What a bucket holds. */
  ghost function Content(w: World, b: BucketId): (s: Bytes)
    requires b in w.buckets && BucketOk(w, b)
    requires Shared(w.buckets[b]) ==> BlockOk(w, w.buckets[b].data)
  {
    var x := w.buckets[b];
    match x.kind
    case Heap => w.mem[Source(w.blocks[x.data])][x.start..x.start + x.length]
    case Pool => w.mem[Source(w.blocks[x.data])][x.start..x.start + x.length]
    case Transient => w.mem[x.data][x.start..x.start + x.length]
    case Immortal => w.mem[x.data][x.start..x.start + x.length]
    case Metadata => []
    case Stream => x.pending
  }

  /** The bucket reads the same before and after. */
  ghost predicate Same(w: World, w': World, b: BucketId) {
    && b in w.buckets && b in w'.buckets && BucketOk(w, b) && BucketOk(w', b)
    && (Shared(w.buckets[b]) ==> BlockOk(w, w.buckets[b].data))
    && (Shared(w'.buckets[b]) ==> BlockOk(w', w'.buckets[b].data))
    && Content(w', b) == Content(w, b) && (w'.buckets[b].kind.Stream? <==> w.buckets[b].kind.Stream?)
    && (w'.buckets[b].kind.Metadata? <==> w.buckets[b].kind.Metadata?)
  }

  // ---------- operations ----------

  /** Names that mean nothing yet. */
  ghost predicate FreshBlock(w: World, k: BlockId) {
    k !in w.blocks && k !in w.freed && forall b | b in w.buckets && Shared(w.buckets[b]) :: w.buckets[b].data != k
  }

  ghost predicate FreshAddr(w: World, a: Addr) {
    a !in w.mem
  }

  /** `apr_bucket_heap_create` without a free function: the data is copied.  With one, the block takes over a buffer
      that was just made, which comes to the same. */
  function HeapCreate(w: World, b: BucketId, k: BlockId, a: Addr, buf: Bytes, length: nat): World
    requires length <= |buf|
  {
    w.(mem := w.mem[a := buf], blocks := w.blocks[k := Block(1, Some(a), |buf|, None)],
       buckets := w.buckets[b := Bucket(Heap, k, 0, length, [])])
  }

  /** `apr_bucket_pool_create` */
  function PoolCreate(w: World, b: BucketId, k: BlockId, a: Addr, length: nat): World {
    w.(blocks := w.blocks[k := Block(1, None, length, Some(a))],
       buckets := w.buckets[b := Bucket(Pool, k, 0, length, [])])
  }

  /** `apr_bucket_transient_create`, `apr_bucket_immortal_create` */
  function SimpleCreate(w: World, b: BucketId, kind: Kind, a: Addr, start: nat, length: nat): World {
    w.(buckets := w.buckets[b := Bucket(kind, a, start, length, [])])
  }

  function Counted(w: World, x: Bucket, d: int): World {
    if Shared(x) && x.data in w.blocks then
      w.(blocks := w.blocks[x.data := w.blocks[x.data].(refcount := w.blocks[x.data].refcount + d)])
    else w
  }

  /** `apr_bucket_copy` of a bucket that supports it */
  function Copy(w: World, b: BucketId, c: BucketId): World
    requires b in w.buckets
  {
    Counted(w.(buckets := w.buckets[c := w.buckets[b]]), w.buckets[b], 1)
  }

  datatype Status = Success | Invalid | NotImplemented | Again | Incomplete

  /** `apr_bucket_split`; the new bucket is to go right after the old one. */
  function Split(w: World, b: BucketId, point: nat, c: BucketId): (World, Status)
    requires b in w.buckets
  {
    var x := w.buckets[b];
    if x.kind.Metadata? || x.kind.Stream? then (w, NotImplemented)
    else if point > x.length then (w, Invalid)
    else
      var w1 := w.(buckets :=
        w.buckets[b := x.(length := point)][c := x.(start := x.start + point, length := x.length - point)]);
      (Counted(w1, x, 1), Success)
  }

  /** `apr_bucket_destroy`: the last bucket to go frees the block, and the buffer if the block owns it. */
  function Destroy(w: World, b: BucketId): World
    requires b in w.buckets
  {
    var x := w.buckets[b];
    var w1 := Counted(w.(buckets := w.buckets - {b}), x, -1);
    if Shared(x) && x.data in w1.blocks && w1.blocks[x.data].refcount == 0 then Free(w1, x.data) else w1
  }

  function Free(w: World, k: BlockId): World
    requires k in w.blocks
  {
    w.(mem := if w.blocks[k].base.Some? then w.mem - {w.blocks[k].base.value} else w.mem,
       blocks := w.blocks - {k}, freed := w.freed + [k])
  }

  /** `pool_bucket_cleanup`: the data moves out of the pool. */
  function Cleanup(w: World, k: BlockId, a: Addr): World
    requires k in w.blocks && w.blocks[k].poolBase.Some? && w.blocks[k].poolBase.value in w.mem
    requires w.blocks[k].allocLen <= |w.mem[w.blocks[k].poolBase.value]|
  {
    var r := w.blocks[k];
    w.(mem := w.mem[a := w.mem[r.poolBase.value][..r.allocLen]],
       blocks := w.blocks[k := r.(base := Some(a), poolBase := None)])
  }

  /** The pool's own memory goes once nothing refers to it. */
  function Release(w: World, a: Addr): World {
    w.(mem := w.mem - {a})
  }

  ghost predicate Unused(w: World, a: Addr) {
    && (forall k | k in w.blocks :: w.blocks[k].base != Some(a) && w.blocks[k].poolBase != Some(a))
    && (forall b | b in w.buckets :: Foreign(w.buckets[b], a))
  }

  /** `pool_bucket_read` and the others, as far as they change anything: a pool bucket that finds its pool gone becomes
      a heap bucket. */
  function Touch(w: World, b: BucketId): World
    requires b in w.buckets
  {
    var x := w.buckets[b];
    if x.kind.Pool? && x.data in w.blocks && w.blocks[x.data].poolBase.None?
      then w.(buckets := w.buckets[b := x.(kind := Heap)]) else w
  }

  /** `transient_bucket_setaside` */
  function Setaside(w: World, b: BucketId, k: BlockId, a: Addr): World
    requires b in w.buckets && w.buckets[b].data in w.mem
    requires w.buckets[b].start + w.buckets[b].length <= |w.mem[w.buckets[b].data]|
  {
    var x := w.buckets[b];
    HeapCreate(w, b, k, a, w.mem[x.data][x.start..x.start + x.length], x.length)
  }

  /** Writing behind the end of a heap bucket. */
  function Extend(w: World, b: BucketId, s: Bytes): World
    requires b in w.buckets && w.buckets[b].data in w.blocks && w.blocks[w.buckets[b].data].base.Some?
    requires w.blocks[w.buckets[b].data].base.value in w.mem
    requires w.buckets[b].start + w.buckets[b].length + |s| <= |w.mem[w.blocks[w.buckets[b].data].base.value]|
  {
    var x := w.buckets[b];
    var a := w.blocks[x.data].base.value;
    w.(mem := w.mem[a := Overwrite(w.mem[a], x.start + x.length, s)],
       buckets := w.buckets[b := x.(length := x.length + |s|)])
  }

  /** `memcpy` */
  function Overwrite(m: Bytes, at: nat, s: Bytes): (r: Bytes)
    requires at + |s| <= |m|
    ensures |r| == |m| && r[..at] == m[..at] && r[at..at + |s|] == s
  {
    m[..at] + s + m[at + |s|..]
  }
}
