/** Any sequence of operations on buckets. */
module BucketRuns {
  import opened Basics
  import opened Buckets
  import opened BucketSafety

  datatype Action =
    | MakeHeap(b: BucketId, k: BlockId, a: Addr, buf: Bytes, length: nat)
    | MakePool(b: BucketId, k: BlockId, a: Addr, length: nat)
    | MakeSimple(b: BucketId, kind: Kind, a: Addr, start: nat, length: nat)
    | DoCopy(b: BucketId, c: BucketId)
    | DoSplit(b: BucketId, point: nat, c: BucketId)
    | DoDestroy(b: BucketId)
    | DoCleanup(k: BlockId, a: Addr)
    | DoRelease(a: Addr)
    | DoTouch(b: BucketId)
    | DoSetaside(b: BucketId, k: BlockId, a: Addr)
    | DoExtend(b: BucketId, s: Bytes)

  /** What the operation asks for: names from the allocator are new, and memory that is passed in belongs to no
      block. */
  ghost predicate Enabled(w: World, x: Action) {
    match x
    case MakeHeap(b, k, a, buf, length) => b !in w.buckets && FreshBlock(w, k) && FreshAddr(w, a) && length <= |buf|
    case MakePool(b, k, a, length) =>
      b !in w.buckets && FreshBlock(w, k) && a in w.mem && length <= |w.mem[a]|
      && forall j | j in w.blocks :: w.blocks[j].base != Some(a)
    case MakeSimple(b, kind, a, start, length) =>
      && b !in w.buckets && (kind.Transient? || kind.Immortal?) && a in w.mem && start + length <= |w.mem[a]|
      && forall j | j in w.blocks :: w.blocks[j].base != Some(a)
    case DoCopy(b, c) => b in w.buckets && c !in w.buckets
    case DoSplit(b, _, c) => b in w.buckets && c !in w.buckets
    case DoDestroy(b) => b in w.buckets
    case DoCleanup(k, a) => k in w.blocks && w.blocks[k].poolBase.Some? && FreshAddr(w, a)
    case DoRelease(a) => Unused(w, a)
    case DoTouch(b) => b in w.buckets
    case DoSetaside(b, k, a) => b in w.buckets && w.buckets[b].kind.Transient? && FreshBlock(w, k) && FreshAddr(w, a)
    case DoExtend(b, s) => Writable(w, b, |s|)
  }

  ghost function Step(w: World, x: Action): (w': World)
    requires Ok(w) && Enabled(w, x)
    ensures Ok(w')
  {
    match x
    case MakeHeap(b, k, a, buf, length) => HeapCreateKeeps(w, b, k, a, buf, length); HeapCreate(w, b, k, a, buf, length)
    case MakePool(b, k, a, length) => PoolCreateKeeps(w, b, k, a, length); PoolCreate(w, b, k, a, length)
    case MakeSimple(b, kind, a, start, length) =>
      SimpleCreateKeeps(w, b, kind, a, start, length);
      SimpleCreate(w, b, kind, a, start, length)
    case DoCopy(b, c) => CopyKeeps(w, b, c); Copy(w, b, c)
    case DoSplit(b, point, c) => SplitKeeps(w, b, point, c); Split(w, b, point, c).0
    case DoDestroy(b) => DestroyKeeps(w, b); Destroy(w, b)
    case DoCleanup(k, a) => CleanupKeeps(w, k, a); Cleanup(w, k, a)
    case DoRelease(a) => ReleaseKeeps(w, a); Release(w, a)
    case DoTouch(b) => TouchKeeps(w, b); Touch(w, b)
    case DoSetaside(b, k, a) => SetasideKeeps(w, b, k, a); Setaside(w, b, k, a)
    case DoExtend(b, s) => ExtendKeeps(w, b, s); Extend(w, b, s)
  }

  lemma {:induction false} SetasideKeeps(w: World, b: BucketId, k: BlockId, a: Addr)
    requires Ok(w) == true && b in w.buckets && w.buckets[b].kind.Transient? && FreshBlock(w, k) && FreshAddr(w, a)
    ensures BucketOk(w, b)
    ensures var w' := Setaside(w, b, k, a);
            Ok(w') == true && Kept(w, w', b) == true && Same(w, w', b)
  {
    hide Ok;
    IsOk(w, b);
    var x := w.buckets[b];
    var s := w.mem[x.data][x.start..x.start + x.length];
    HeapCreateKeeps(w, b, k, a, s, x.length);
    assert s[..x.length] == s;
  }

  const Empty: World := World(map[], map[], map[], [])

  /** The buffers the program has, and what it does with buckets; what is not enabled does not happen. */
  ghost function Exec(mem: map<Addr, Bytes>, acts: seq<Action>): (w: World)
    ensures Ok(w)
    decreases |acts|
  {
    if acts == [] then Empty.(mem := mem)
    else
      var w := Exec(mem, acts[..|acts| - 1]);
      var x := acts[|acts| - 1];
      if Enabled(w, x) then Step(w, x) else w
  }

  /** The blocks that have been made. */
  ghost function Made(mem: map<Addr, Bytes>, acts: seq<Action>): set<BlockId>
    decreases |acts|
  {
    if acts == [] then {}
    else
      var w := Exec(mem, acts[..|acts| - 1]);
      var x := acts[|acts| - 1];
      Made(mem, acts[..|acts| - 1]) + if Enabled(w, x) then New(x) else {}
  }

  function New(x: Action): set<BlockId> {
    match x
    case MakeHeap(_, k, _, _, _) => {k}
    case MakePool(_, k, _, _) => {k}
    case DoSetaside(_, k, _) => {k}
    case _ => {}
  }

  /** After any run: the reference count of every block is the number of buckets that point at it; and a block that was
      made is there if some bucket points at it, and has been freed, once, if none does. */
  lemma {:induction false} CountsAreExact(mem: map<Addr, Bytes>, acts: seq<Action>, k: BlockId)
    ensures var w := Exec(mem, acts);
            && (k in w.blocks ==> w.blocks[k].refcount == |Pointers(w, k)|)
            && (k in w.blocks <==> Pointers(w, k) != {})
            && multiset(w.freed)[k] == (if k in Made(mem, acts) && Pointers(w, k) == {} then 1 else 0)
            && (Pointers(w, k) != {} ==> k in Made(mem, acts))
  {
    var w := Exec(mem, acts);
    History(mem, acts);
    if Pointers(w, k) != {} {
      var b :| b in Pointers(w, k);
      InBlocks(w, b);
    } else if k in w.blocks {
      BlockFine(w, k);
    }
  }

  /** Blocks are there, or have been freed. */
  lemma {:induction false} History(mem: map<Addr, Bytes>, acts: seq<Action>)
    ensures forall k :: k in Made(mem, acts) <==> k in Exec(mem, acts).blocks || k in Exec(mem, acts).freed
    decreases |acts|
  {
    hide Ok, Enabled;
    if acts != [] {
      History(mem, acts[..|acts| - 1]);
      var w := Exec(mem, acts[..|acts| - 1]);
      var x := acts[|acts| - 1];
      if Enabled(w, x) {
        StepBlocks(w, x);
      }
    }
  }

  lemma {:induction false} StepBlocks(w: World, x: Action)
    requires Ok(w) && Enabled(w, x)
    ensures var w' := Step(w, x);
            forall k :: k in w'.blocks || k in w'.freed <==> k in w.blocks || k in w.freed || k in New(x)
  {
    hide Ok;
    match x {
      case DoDestroy(b) =>
        var k := BlockOf(w, b);
        DestroyKeeps(w, b);
      case _ =>
    }
  }
}
