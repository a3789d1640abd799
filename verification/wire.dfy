/** The two wire formats for logging events, as grammars over byte sequences.

    A buffer holds a prefix of what a client has sent.  Reading it can succeed, find it too
    small, or find it malformed; what matters is that only "too small" can change when more
    bytes arrive. */
module Wire {
  import opened Basics

  /** `Small` and `Invalid` are the exceptions of that name.  `Backwards` is where the grammar gives up: the signed
      length in a class descriptor is negative, so the reader's cursor moves back.  What the reader does then is
      in the module `WireCursor`; it may also be `Endless`, or read `Outside` its buffer, which C++ gives no
      meaning to. */
  datatype Parsed<T> = Done(value: T) | Small | Invalid | Backwards | Endless | Outside {
    predicate IsFailure() {
      !Done?
    }

    /** The reader does not come back, or C++ does not say what it does. */
    predicate Astray() {
      Endless? || Outside?
    }

    function PropagateFailure<U>(): Parsed<U>
      requires IsFailure()
    {
      match this
      case Small => Small
      case Invalid => Invalid
      case Backwards => Backwards
      case Endless => Endless
      case Outside => Outside
    }

    function Extract(): T
      requires Done?
    {
      value
    }
  }

  /** A value and the number of bytes it took. */
  datatype Got<T> = Got(v: T, n: nat)

  /** What is left from a cursor on, which may be beyond the end. */
  function From(s: Bytes, pos: nat): Bytes {
    if pos <= |s| then s[pos..] else []
  }

  lemma {:induction false} FromFrom(s: Bytes, p: nat, n: nat)
    ensures From(From(s, p), n) == From(s, p + n)
    ensures n <= |From(s, p)| ==> From(s, p)[n..] == From(s, p + n)
  {
  }

  /** A result for a place further on. */
  function Shift<T>(n: nat, r: Parsed<Got<T>>): Parsed<Got<T>> {
    match r
    case Done(x) => Done(Got(x.v, n + x.n))
    case _ => r
  }

  lemma {:induction false} ShiftZero<T>(r: Parsed<Got<T>>)
    ensures Shift(0, r) == r
  {
  }

  // ---------- numbers ----------

  /** A `k`-byte two's complement number. */
  function Signed(v: int, k: nat): int {
    if v < Pow256(k) / 2 then v else v - Pow256(k)
  }

  // ---------- pieces ----------

  const TC_NULL: byte := 0x70
  const TC_REFERENCE: byte := 0x71
  const TC_CLASSDESC: byte := 0x72
  const TC_OBJECT: byte := 0x73
  const TC_STRING: byte := 0x74
  const TC_BLOCKDATA: byte := 0x77
  const TC_ENDBLOCKDATA: byte := 0x78
  const TC_RESET: byte := 0x79
  const FIELD_OBJECT: byte := 0x4C

  function U8(s: Bytes): Parsed<Got<byte>> {
    if |s| < 1 then Small else Done(Got(s[0], 1))
  }

  function Take(s: Bytes, k: nat): (r: Parsed<Got<Bytes>>)
    ensures r.Done? || r == Small
    ensures r.Done? ==> r.value.n == k <= |s|
  {
    if |s| < k then Small else Done(Got(s[..k], k))
  }

  function Unsigned(s: Bytes, k: nat): (r: Parsed<Got<nat>>)
    ensures r.Done? || r == Small
    ensures r.Done? ==> r.value.n == k <= |s|
  {
    var x :- Take(s, k);
    Done(Got(BeValue(x.v), k))
  }

  function Integer(s: Bytes, k: nat): (r: Parsed<Got<int>>)
    ensures r.Done? || r == Small
    ensures r.Done? ==> r.value.n == k <= |s|
  {
    var x :- Unsigned(s, k);
    Done(Got(Signed(x.v, k), k))
  }

  /** Exactly these bytes. */
  function Exactly(s: Bytes, want: Bytes): (r: Parsed<Got<Bytes>>)
    ensures r.Done? ==> r.value.n == |want| <= |s|
    ensures r.Done? || r == Small || r == Invalid
  {
    var x :- Take(s, |want|);
    if x.v == want then Done(x) else Invalid
  }

  /** Bytes after a `k`-byte unsigned length. */
  function Counted(s: Bytes, k: nat): (r: Parsed<Got<Bytes>>)
    ensures r.Done? ==> k <= r.value.n <= |s|
    ensures r.Done? || r == Small
  {
    var x :- Unsigned(s, k);
    var y :- Take(s[x.n..], x.v);
    Done(Got(y.v, x.n + y.n))
  }

  /** A string object: its tag, a 2-byte length, and the bytes. */
  function Text(s: Bytes): (r: Parsed<Got<Bytes>>)
    ensures r.Done? ==> 3 <= r.value.n <= |s|
    ensures r.Done? || r == Small || r == Invalid
  {
    var x :- U8(s);
    if x.v != TC_STRING then Invalid
    else
      var y :- Counted(s[1..], 2);
      Done(Got(y.v, 1 + y.n))
  }

  /** What `std::string` keeps of a C string. */
  function CString(s: Bytes): Bytes {
    if s == [] || s[0] == 0 then [] else [s[0]] + CString(s[1..])
  }

  // ---------- class descriptors ----------

  /** Bytes to be passed over after a signed 2-byte length. */
  function Skipped(s: Bytes): (r: Parsed<Got<()>>)
    ensures r.Done? ==> 2 <= r.value.n <= |s|
    ensures !r.Astray()
  {
    var x :- Integer(s, 2);
    if x.v < 0 then Backwards
    else
      var y :- Take(s[2..], x.v);
      Done(Got((), 2 + y.n))
  }

  /** The counted loop of `readProlog`: whatever the fields' types are. */
  function Fields(s: Bytes, count: int): (r: Parsed<Got<()>>)
    ensures r.Done? ==> r.value.n <= |s|
    ensures !r.Astray()
    decreases if count > 0 then count else 0
  {
    if count <= 0 then Done(Got((), 0))
    else
      var x :- Take(s, 1);
      var y :- Skipped(s[1..]);
      var z :- Fields(s[1 + y.n..], count - 1);
      Done(Got((), 1 + y.n + z.n))
  }

  /** Its tag loop, up to and including the end tag. */
  function Tags(s: Bytes): (r: Parsed<Got<()>>)
    ensures r.Done? ==> r.value.n <= |s|
    ensures !r.Astray()
    decreases |s|
  {
    var x :- U8(s);
    if x.v == TC_ENDBLOCKDATA then Done(Got((), 1))
    else if x.v == TC_REFERENCE then
      var y :- Take(s[1..], 4);
      var z :- Tags(s[5..]);
      Done(Got((), 5 + z.n))
    else if x.v == FIELD_OBJECT || x.v == TC_STRING then
      var y :- Skipped(s[1..]);
      var z :- Tags(s[1 + y.n..]);
      Done(Got((), 1 + y.n + z.n))
    else Invalid
  }

  /** The tags, and no super class. */
  function Ending(s: Bytes): (r: Parsed<Got<()>>)
    ensures r.Done? ==> r.value.n <= |s|
    ensures !r.Astray()
  {
    var tags :- Tags(s);
    var end :- Exactly(s[tags.n..], [TC_NULL]);
    Done(Got((), tags.n + 1))
  }

  /** The number of fields, and everything after it. */
  function Members(s: Bytes): (r: Parsed<Got<()>>)
    ensures r.Done? ==> r.value.n <= |s|
    ensures !r.Astray()
  {
    var count :- Integer(s, 2);
    var fields :- Fields(s[2..], count.v);
    var end :- Ending(s[2 + fields.n..]);
    Done(Got((), 2 + fields.n + end.n))
  }

  /** What follows the tag of a class descriptor: the name, then version identifier and flags, then the members. */
  function ClassDesc(s: Bytes): (r: Parsed<Got<()>>)
    ensures r.Done? ==> r.value.n <= |s|
    ensures !r.Astray()
  {
    var name :- Skipped(s);
    var ids :- Take(s[name.n..], 9);
    var members :- Members(s[name.n + 9..]);
    Done(Got((), name.n + 9 + members.n))
  }

  /** `readProlog` */
  function Prolog(s: Bytes): (r: Parsed<Got<()>>)
    ensures r.Done? ==> 1 <= r.value.n <= |s|
    ensures !r.Astray()
  {
    var x :- U8(s);
    if x.v == TC_CLASSDESC then
      var y :- ClassDesc(s[1..]);
      Done(Got((), 1 + y.n))
    else if x.v == TC_REFERENCE then
      var y :- Take(s[1..], 4);
      Done(Got((), 5))
    else Invalid
  }

  // ---------- location, contexts ----------

  /** `readLocationInfo` */
  function Location(s: Bytes): (r: Parsed<Got<Bytes>>)
    ensures r.Done? ==> 1 <= r.value.n <= |s|
    ensures !r.Astray()
  {
    var x :- U8(s);
    if x.v == TC_NULL then Done(Got([], 1))
    else if x.v == TC_OBJECT then
      var y :- Prolog(s[1..]);
      var z :- Text(s[1 + y.n..]);
      Done(Got(CString(z.v), 1 + y.n + z.n))
    else Invalid
  }

  /** What comes before the entries of a `java.util.Hashtable`. */
  const HASH_DATA: Bytes := [0x3F, 0x40, 0, 0, 0, 0, 0, 5, TC_BLOCKDATA, 8, 0, 0, 0, 7]

  /** A key and a value */
  function Entry(s: Bytes): (r: Parsed<Got<(Bytes, Bytes)>>)
    ensures r.Done? ==> r.value.n <= |s|
    ensures r.Done? || r == Small || r == Invalid
  {
    var key :- Text(s);
    var value :- Text(s[key.n..]);
    Done(Got((key.v, value.v), key.n + value.n))
  }

  /** The loop of `readObject`: a later entry replaces an earlier one. */
  function Entries(s: Bytes, count: int, m: map<Bytes, Bytes>): (r: Parsed<Got<map<Bytes, Bytes>>>)
    ensures r.Done? ==> r.value.n <= |s|
    ensures r.Done? || r == Small || r == Invalid
    decreases if count > 0 then count else 0
  {
    if count <= 0 then Done(Got(m, 0))
    else
      var entry :- Entry(s);
      var rest :- Entries(s[entry.n..], count - 1, m[entry.v.0 := entry.v.1]);
      Done(Got(rest.v, entry.n + rest.n))
  }

  /** The number of entries, the entries, and the end of the block. */
  function Pairs(s: Bytes): (r: Parsed<Got<map<Bytes, Bytes>>>)
    ensures r.Done? ==> r.value.n <= |s|
    ensures r.Done? || r == Small || r == Invalid
  {
    var count :- Integer(s, 4);
    var entries :- Entries(s[4..], count.v, map[]);
    var end :- Exactly(s[4 + entries.n..], [TC_ENDBLOCKDATA]);
    Done(Got(entries.v, 4 + entries.n + 1))
  }

  /** `readObject` without its tag */
  function Hashtable(s: Bytes): (r: Parsed<Got<map<Bytes, Bytes>>>)
    ensures r.Done? ==> r.value.n <= |s|
    ensures !r.Astray()
  {
    var x :- Prolog(s);
    var y :- Exactly(s[x.n..], HASH_DATA);
    var z :- Pairs(s[x.n + y.n..]);
    Done(Got(z.v, x.n + y.n + z.n))
  }

  /** `readMDC` */
  function Mdc(s: Bytes): (r: Parsed<Got<map<Bytes, Bytes>>>)
    ensures r.Done? ==> 1 <= r.value.n <= |s|
    ensures !r.Astray()
  {
    var x :- U8(s);
    if x.v == TC_NULL then Done(Got(map[], 1))
    else if x.v == TC_OBJECT then
      var y :- Hashtable(s[1..]);
      Done(Got(y.v, 1 + y.n))
    else Invalid
  }

  /** `readNDC`; of an unknown tag it takes nothing, and does not complain. */
  function Ndc(s: Bytes): (r: Parsed<Got<Bytes>>)
    ensures r.Done? ==> r.value.n <= |s|
    ensures !r.Astray()
  {
    var x :- U8(s);
    if x.v == TC_NULL then Done(Got([], 1))
    else if x.v == TC_STRING then
      var y :- Counted(s[1..], 2);
      Done(Got(y.v, 1 + y.n))
    else Done(Got([], 0))
  }

  /** The start of an event: an optional reset, and an object. */
  function Opening(s: Bytes): (r: Parsed<Got<()>>)
    ensures r.Done? ==> 1 <= r.value.n <= |s|
    ensures !r.Astray()
  {
    var x :- U8(s);
    if x.v == TC_OBJECT then Done(Got((), 1))
    else if x.v == TC_RESET then
      var y :- Exactly(s[1..], [TC_OBJECT]);
      Done(Got((), 2))
    else Invalid
  }

  // ---------- events ----------

  /** The parts that an event is made of, in either protocol. */
  datatype Field =
    | Opens | Describes | Fixed(want: Bytes) | Number(k: nat)
    | String | Place | Context | Nested
    | LongString | LongCString

  datatype Value = Nothing | Num(i: int) | Str(b: Bytes) | Table(m: map<Bytes, Bytes>)

  function Read(f: Field, s: Bytes): (r: Parsed<Got<Value>>)
    ensures r.Done? ==> r.value.n <= |s|
    ensures !r.Astray()
  {
    match f
    case Opens => var x :- Opening(s); Done(Got(Nothing, x.n))
    case Describes => var x :- Prolog(s); Done(Got(Nothing, x.n))
    case Fixed(want) => var x :- Exactly(s, want); Done(Got(Nothing, x.n))
    case Number(k) => var x :- Integer(s, k); Done(Got(Num(x.v), x.n))
    case String => var x :- Text(s); Done(Got(Str(x.v), x.n))
    case Place => var x :- Location(s); Done(Got(Str(x.v), x.n))
    case Context => var x :- Mdc(s); Done(Got(Table(x.v), x.n))
    case Nested => var x :- Ndc(s); Done(Got(Str(x.v), x.n))
    case LongString => var x :- Counted(s, 4); Done(Got(Str(x.v), x.n))
    case LongCString => var x :- Counted(s, 4); Done(Got(Str(CString(x.v)), x.n))
  }

  function ReadAll(fs: seq<Field>, s: Bytes): (r: Parsed<Got<seq<Value>>>)
    ensures r.Done? ==> r.value.n <= |s| && |r.value.v| == |fs|
    ensures r.Done? && fs != [] && (fs[0].Opens? || fs[0].LongString?) ==> r.value.n > 0
    ensures !r.Astray()
    decreases |fs|
  {
    if fs == [] then Done(Got([], 0))
    else
      var x :- Read(fs[0], s);
      var y :- ReadAll(fs[1..], s[x.n..]);
      Done(Got([x.v] + y.v, x.n + y.n))
  }

  /** `Default::createLoggingEvent` */
  const DEFAULT_FIELDS: seq<Field> :=
    [Opens, Describes, Fixed([0, 0]), Number(8), String, Place, Context, Nested, String, String,
     Fixed([TC_NULL]), Fixed([TC_BLOCKDATA]), Fixed([4]), Number(4), Fixed([TC_NULL]), Fixed([TC_ENDBLOCKDATA])]

  /** `Bytes::createLoggingEvent` */
  const BYTES_FIELDS: seq<Field> :=
    [LongString, Number(4), LongString, Number(8), LongString, LongCString, LongCString, LongCString]

  // ---------- more bytes ----------

  /** A result that more bytes cannot change, unless it is `Small`. */
  predicate Stable<T(==)>(r: Parsed<T>, r': Parsed<T>) {
    r == Small || r' == r
  }

  lemma {:induction false} Drop(s: Bytes, t: Bytes, n: nat)
    requires n <= |s|
    ensures (s + t)[n..] == s[n..] + t
  {
  }

  lemma {:induction false} TakeStable(s: Bytes, t: Bytes, k: nat)
    ensures Stable(U8(s), U8(s + t)) && Stable(Take(s, k), Take(s + t, k))
  {
    assert |s| >= k ==> (s + t)[..k] == s[..k];
  }

  lemma {:induction false} IntegerStable(s: Bytes, t: Bytes, k: nat)
    ensures Stable(Unsigned(s, k), Unsigned(s + t, k)) && Stable(Integer(s, k), Integer(s + t, k))
  {
    TakeStable(s, t, k);
  }

  lemma {:induction false} ExactlyStable(s: Bytes, t: Bytes, want: Bytes)
    ensures Stable(Exactly(s, want), Exactly(s + t, want))
  {
    TakeStable(s, t, |want|);
  }

  lemma {:induction false} CountedStable(s: Bytes, t: Bytes, k: nat)
    ensures Stable(Counted(s, k), Counted(s + t, k))
  {
    IntegerStable(s, t, k);
    var x := Unsigned(s, k);
    if x.Done? {
      Drop(s, t, k);
      TakeStable(s[k..], t, x.value.v);
    }
  }

  lemma {:induction false} TextStable(s: Bytes, t: Bytes)
    ensures Stable(Text(s), Text(s + t))
  {
    if s != [] {
      Drop(s, t, 1);
      CountedStable(s[1..], t, 2);
    }
  }

  /** How many bytes a result took, which for a failure does not matter. */
  function Size<T>(r: Parsed<Got<T>>): nat {
    if r.Done? then r.value.n else 0
  }

  lemma {:induction false} EntryStable(s: Bytes, t: Bytes)
    ensures Stable(Entry(s), Entry(s + t))
  {
    hide Text;
    TextStable(s, t);
    var n := Size(Text(s));
    Drop(s, t, n);
    TextStable(s[n..], t);
  }

  lemma {:induction false} EntriesStable(s: Bytes, t: Bytes, count: int, m: map<Bytes, Bytes>)
    ensures Stable(Entries(s, count, m), Entries(s + t, count, m))
    decreases if count > 0 then count else 0
  {
    hide Entry;
    if count > 0 {
      EntryStable(s, t);
      if Entry(s).Done? {
        var e := Entry(s).value;
        Drop(s, t, e.n);
        EntriesStable(s[e.n..], t, count - 1, m[e.v.0 := e.v.1]);
      }
    }
  }

  lemma {:induction false} PairsStable(s: Bytes, t: Bytes)
    ensures Stable(Pairs(s), Pairs(s + t))
  {
    hide Entries, Exactly, Signed;
    IntegerStable(s, t, 4);
    if |s| >= 4 {
      Drop(s, t, 4);
      var count := Integer(s, 4).value.v;
      EntriesStable(s[4..], t, count, map[]);
      var n := 4 + Size(Entries(s[4..], count, map[]));
      Drop(s, t, n);
      ExactlyStable(s[n..], t, [TC_ENDBLOCKDATA]);
    }
  }

  /** The fields in which there is no class descriptor. */
  predicate Plain(f: Field) {
    !f.Describes? && !f.Place? && !f.Context?
  }

  lemma {:induction false} PlainStable(f: Field, s: Bytes, t: Bytes)
    requires Plain(f)
    ensures Stable(Read(f, s), Read(f, s + t)) && Read(f, s) != Backwards
  {
    hide Exactly, Signed, Text, Counted, CString;
    match f {
      case Opens =>
        if s != [] {
          Drop(s, t, 1);
          ExactlyStable(s[1..], t, [TC_OBJECT]);
        }
      case Fixed(want) => ExactlyStable(s, t, want);
      case Number(k) => IntegerStable(s, t, k);
      case String => TextStable(s, t);
      case Nested =>
        if s != [] {
          Drop(s, t, 1);
          CountedStable(s[1..], t, 2);
        }
      case LongString => CountedStable(s, t, 4);
      case LongCString => CountedStable(s, t, 4);
    }
  }
}
