/** What the Python clients send, and that it comes out again at the other end. */
module WireEncode {
  import opened Basics
  import opened Wire
  import opened WireCursor
  import opened WireExact
  import opened WireStream

  function Ascii(s: string): (r: Bytes)
    ensures |r| == |s|
  {
    seq(|s|, i requires 0 <= i < |s| => (s[i] as int) % 256)
  }

  function PackSigned(v: int, k: nat): (r: Bytes)
    requires v + Pow256(k) >= 0
    ensures |r| == k
  {
    BeBytes(if v < 0 then v + Pow256(k) else v, k)
  }

  // ---------- class descriptors ----------

  /** A tag and some bytes after their length, or a handle for a string that has been written before. */
  datatype Item = Item(tag: byte, b: Bytes) | Handle(h: Bytes)

  function Sized(b: Bytes): (r: Bytes)
    ensures |r| == 2 + |b|
  {
    BeBytes(|b|, 2) + b
  }

  function ItemBytes(i: Item): Bytes {
    match i
    case Item(tag, b) => [tag] + Sized(b)
    case Handle(h) => [TC_REFERENCE] + h
  }

  function Flat(items: seq<Item>): Bytes
    decreases |items|
  {
    if items == [] then [] else ItemBytes(items[0]) + Flat(items[1..])
  }

  /** The name of a class, as a new string or as a handle. */
  datatype TypeName = New(b: Bytes) | Old(h: Bytes)

  function TypeItem(c: TypeName): Item {
    match c
    case New(b) => Item(TC_STRING, b)
    case Old(h) => Handle(h)
  }

  /** A field of a primitive type is one item; one of a class type, two: its name, and the name of the class. */
  datatype ObjectField = ObjectField(name: Bytes, class_: TypeName)

  function ObjectItems(fields: seq<ObjectField>): (items: seq<Item>)
    ensures |items| == 2 * |fields|
    ensures forall k :: 0 <= k < |fields| ==>
              items[2 * k] == Item(FIELD_OBJECT, fields[k].name) && items[2 * k + 1] == TypeItem(fields[k].class_)
    decreases |fields|
  {
    if fields == [] then []
    else
      var rest := ObjectItems(fields[1..]);
      assert forall k :: 1 <= k < |fields| ==> fields[k] == fields[1..][k - 1];
      [Item(FIELD_OBJECT, fields[0].name), TypeItem(fields[0].class_)] + rest
  }

  /** A class descriptor without a super class: name, version identifier and flags, primitive fields, object fields. */
  function Descriptor(name: Bytes, ids: Bytes, prims: seq<Item>, objects: seq<ObjectField>): Bytes {
    [TC_CLASSDESC] + (Sized(name) + (ids + (BeBytes(|prims| + |objects|, 2)
      + (Flat(prims + ObjectItems(objects)) + [TC_ENDBLOCKDATA, TC_NULL]))))
  }

  /** Lengths that a signed 2-byte number can hold. */
  const MAX_SHORT: nat := 32767

  /** ... and those that an unsigned one can. */
  const MAX_STRING: nat := 65535

  /** An item that the counted loop passes over. */
  predicate Passable(i: Item) {
    i.Item? && |i.b| <= MAX_SHORT
  }

  /** An item that the tag loop can take. */
  predicate Tagged(i: Item) {
    if i.Item? then |i.b| <= MAX_SHORT && (i.tag == FIELD_OBJECT || i.tag == TC_STRING) else |i.h| == 4
  }

  predicate Named(c: TypeName) {
    if c.New? then |c.b| <= MAX_SHORT else |c.h| == 4
  }

  lemma {:induction false} SkippedItem(b: Bytes, t: Bytes)
    requires |b| <= MAX_SHORT
    ensures Skipped(Sized(b) + t) == Done(Got((), 2 + |b|))
  {
    var s := Sized(b) + t;
    assert s[..2] == BeBytes(|b|, 2);
    BeExact(|b|, 2);
    assert s[2..] == b + t;
  }

  lemma {:induction false} FieldsItem(i: Item, u: Bytes, k: nat)
    requires Passable(i) && Fields(u, k).Done?
    ensures Fields(ItemBytes(i) + u, k + 1) == Done(Got((), |ItemBytes(i)| + Fields(u, k).value.n))
  {
    hide Skipped, Sized;
    var s := ItemBytes(i) + u;
    assert s[1..] == Sized(i.b) + u;
    SkippedItem(i.b, u);
    assert s[1 + 2 + |i.b|..] == u;
  }

  /** The counted loop passes over as many items as it is told to, whatever their tags. */
  lemma {:induction false} FieldsFlat(items: seq<Item>, k: nat, t: Bytes)
    requires k <= |items| && forall i | i in items[..k] :: Passable(i)
    ensures Fields(Flat(items) + t, k) == Done(Got((), |Flat(items[..k])|))
    decreases k
  {
    hide ItemBytes, Passable;
    if k == 0 {
      assert items[..0] == [];
    } else {
      hide Fields;
      var first, rest := items[0], items[1..];
      assert items[..k][0] == first && first in items[..k] && items[..k][1..] == rest[..k - 1];
      assert Flat(items) + t == ItemBytes(first) + (Flat(rest) + t);
      FieldsFlat(rest, k - 1, t);
      FieldsItem(first, Flat(rest) + t, k - 1);
    }
  }

  lemma {:induction false} TagsEnd(s: Bytes)
    requires s != [] && s[0] == TC_ENDBLOCKDATA
    ensures Tags(s) == Done(Got((), 1))
  {
  }

  lemma {:induction false} TagsStep(s: Bytes, n: nat)
    requires s != [] && (s[0] == FIELD_OBJECT || s[0] == TC_STRING) && Skipped(s[1..]) == Done(Got((), n))
    requires Tags(s[1 + n..]).Done?
    ensures Tags(s) == Done(Got((), 1 + n + Tags(s[1 + n..]).value.n))
  {
    hide Skipped;
  }

  lemma {:induction false} TagsHandle(s: Bytes)
    requires |s| >= 5 && s[0] == TC_REFERENCE && Tags(s[5..]).Done?
    ensures Tags(s) == Done(Got((), 5 + Tags(s[5..]).value.n))
  {
  }

  lemma {:induction false} TagsItem(i: Item, u: Bytes)
    requires Tagged(i) && Tags(u).Done?
    ensures Tags(ItemBytes(i) + u) == Done(Got((), |ItemBytes(i)| + Tags(u).value.n))
  {
    hide Tags;
    var s := ItemBytes(i) + u;
    match i
    case Item(tag, b) => TagsNamed(tag, b, u);
    case Handle(h) =>
      assert s[5..] == u;
      TagsHandle(s);
  }

  lemma {:induction false} TagsNamed(tag: byte, b: Bytes, u: Bytes)
    requires (tag == FIELD_OBJECT || tag == TC_STRING) && |b| <= MAX_SHORT && Tags(u).Done?
    ensures Tags(([tag] + Sized(b)) + u) == Done(Got((), 3 + |b| + Tags(u).value.n))
  {
    hide Skipped, Sized, Tags;
    var s := ([tag] + Sized(b)) + u;
    assert s[1..] == Sized(b) + u;
    SkippedItem(b, u);
    assert s[1 + 2 + |b|..] == u;
    TagsStep(s, 2 + |b|);
  }

  /** The tag loop takes the rest, if only object fields, new strings and handles are left. */
  lemma {:induction false} TagsFlat(items: seq<Item>, t: Bytes)
    requires forall i | i in items :: Tagged(i)
    ensures Tags(Flat(items) + ([TC_ENDBLOCKDATA] + t)) == Done(Got((), |Flat(items)| + 1))
    decreases |items|
  {
    hide ItemBytes, Tags, Tagged;
    var s := Flat(items) + ([TC_ENDBLOCKDATA] + t);
    if items == [] {
      TagsEnd(s);
    } else {
      var u := Flat(items[1..]) + ([TC_ENDBLOCKDATA] + t);
      assert s == ItemBytes(items[0]) + u && items[0] in items;
      TagsFlat(items[1..], t);
      TagsItem(items[0], u);
    }
  }

  lemma {:induction false} FlatSplit(items: seq<Item>, k: nat)
    requires k <= |items|
    ensures Flat(items) == Flat(items[..k]) + Flat(items[k..])
    decreases k
  {
    hide Sized;
    if k == 0 {
      assert items[..0] == [] && items[0..] == items;
    } else {
      FlatSplit(items[1..], k - 1);
      assert items[..k][1..] == items[1..][..k - 1] && items[k..] == items[1..][k - 1..];
    }
  }

  /** A descriptor that the reader can take: it counts fields and takes as many items, so that no handle may be among
      those. */
  predicate Readable(name: Bytes, ids: Bytes, prims: seq<Item>, objects: seq<ObjectField>) {
    && |name| <= MAX_SHORT && |ids| == 9 && |prims| + |objects| <= MAX_SHORT
    && (forall i | i in prims :: Passable(i)) && (forall o | o in objects :: |o.name| <= MAX_SHORT && Named(o.class_))
    && (forall k :: 0 <= k < |objects| && 2 * k + 1 < |objects| ==> objects[k].class_.New?)
  }

  lemma {:induction false} ItemsReadable(name: Bytes, ids: Bytes, prims: seq<Item>, objects: seq<ObjectField>)
    requires Readable(name, ids, prims, objects)
    ensures var items, count := prims + ObjectItems(objects), |prims| + |objects|;
            count <= |items| && (forall i | i in items[..count] :: Passable(i))
            && forall i | i in items[count..] :: Tagged(i)
  {
    hide ObjectItems;
    var items, count := prims + ObjectItems(objects), |prims| + |objects|;
    forall k | |prims| <= k < |items|
      ensures Tagged(items[k]) && (k < count ==> Passable(items[k]))
    {
      var j := (k - |prims|) / 2;
      assert objects[j] in objects;
      assert ObjectItems(objects)[2 * j] == Item(FIELD_OBJECT, objects[j].name);
    }
    forall i | i in items[..count]
      ensures Passable(i)
    {
      var k :| 0 <= k < count && items[k] == i;
      assert k < |prims| ==> prims[k] in prims;
    }
    forall i | i in items[count..]
      ensures Tagged(i)
    {
      var k :| count <= k < |items| && items[k] == i;
    }
  }

  /** `readProlog` takes exactly the descriptor, wherever it stands and whatever follows it. */
  lemma {:induction false} PrologExact(name: Bytes, ids: Bytes, prims: seq<Item>, objects: seq<ObjectField>,
                                       h: Bytes, t: Bytes)
    requires Readable(name, ids, prims, objects)
    ensures var d := Descriptor(name, ids, prims, objects);
            PrologAt(h + (d + t), |h|) == Done(|h| + |d|)
  {
    hide Prolog, PrologAt, Descriptor;
    var d := Descriptor(name, ids, prims, objects);
    DescriptorExact(name, ids, prims, objects, t);
    assert From(h + (d + t), |h|) == d + t;
    PrologAgrees(h + (d + t), |h|);
  }

  /** Of the items that the fields come to, the counted loop takes one per field, and those left are ones that the tag
      loop can take. */
  lemma {:induction false} DescriptorExact(name: Bytes, ids: Bytes, prims: seq<Item>, objects: seq<ObjectField>,
          t: Bytes)
    requires Readable(name, ids, prims, objects)
    ensures Prolog(Descriptor(name, ids, prims, objects) + t) == Done(Got((), |Descriptor(name, ids, prims, objects)|))
  {
    hide ClassDesc, Members, Sized, Flat, ObjectItems;
    var count := |prims| + |objects|;
    var items := prims + ObjectItems(objects);
    ItemsReadable(name, ids, prims, objects);
    var body := BeBytes(count, 2) + (Flat(items) + [TC_ENDBLOCKDATA, TC_NULL]);
    var s := Descriptor(name, ids, prims, objects) + t;
    assert s[1..] == Sized(name) + (ids + (body + t));
    MembersExact(items, count, t);
    ClassDescExact(name, ids, body, t);
  }

  lemma {:induction false} ClassDescExact(name: Bytes, ids: Bytes, body: Bytes, t: Bytes)
    requires |name| <= MAX_SHORT && |ids| == 9 && Members(body + t) == Done(Got((), |body|))
    ensures ClassDesc(Sized(name) + (ids + (body + t))) == Done(Got((), 2 + |name| + 9 + |body|))
  {
    hide Skipped, Members, Sized;
    var s := Sized(name) + (ids + (body + t));
    SkippedItem(name, ids + (body + t));
    assert s[2 + |name|..] == ids + (body + t);
    assert s[2 + |name| + 9..] == body + t;
  }

  lemma {:induction false} MembersExact(items: seq<Item>, count: nat, t: Bytes)
    requires count <= MAX_SHORT && count <= |items|
    requires (forall i | i in items[..count] :: Passable(i)) && forall i | i in items[count..] :: Tagged(i)
    ensures var body := BeBytes(count, 2) + (Flat(items) + [TC_ENDBLOCKDATA, TC_NULL]);
            Members(body + t) == Done(Got((), |body|))
  {
    hide Fields, Flat, Ending, Sized;
    var tail := [TC_ENDBLOCKDATA, TC_NULL] + t;
    var s := (BeBytes(count, 2) + (Flat(items) + [TC_ENDBLOCKDATA, TC_NULL])) + t;
    assert s[..2] == BeBytes(count, 2) && s[2..] == Flat(items) + tail;
    BeExact(count, 2);
    FieldsFlat(items, count, tail);
    FlatSplit(items, count);
    var n := |Flat(items[..count])|;
    assert s[2 + n..] == Flat(items[count..]) + tail;
    EndingExact(items[count..], t);
  }

  lemma {:induction false} EndingExact(items: seq<Item>, t: Bytes)
    requires forall i | i in items :: Tagged(i)
    ensures Ending(Flat(items) + ([TC_ENDBLOCKDATA, TC_NULL] + t)) == Done(Got((), |Flat(items)| + 2))
  {
    hide Tags, Flat, Sized;
    var s := Flat(items) + ([TC_ENDBLOCKDATA, TC_NULL] + t);
    assert [TC_ENDBLOCKDATA, TC_NULL] + t == [TC_ENDBLOCKDATA] + ([TC_NULL] + t);
    TagsFlat(items, [TC_NULL] + t);
    assert s[|Flat(items)| + 1..] == [TC_NULL] + t;
    assert ([TC_NULL] + t)[..1] == [TC_NULL];
  }

  // ---------- makePickle ----------

  /** A `logging.LogRecord`: its strings in UTF-8, and its time of creation in milliseconds and in microseconds. */
  datatype Record = Record(
    name: Bytes, msg: Bytes, threadName: Bytes, funcName: Bytes, pathname: Bytes, lineno: Bytes,
    levelno: int, millis: int, micros: int)

  /** `LOGGING_EVENT` */
  const LOGGING_EVENT: Bytes := Descriptor(
    Ascii("org.apache.log4j.spi.LoggingEvent"),
    [0xF3, 0xF2, 0xB9, 0x23, 0x74, 0x0B, 0xB5, 0x3F, 0x03],
    [Item(0x5A, Ascii("mdcCopyLookupRequired")), Item(0x5A, Ascii("ndcLookupRequired")),
      Item(0x4A, Ascii("timeStamp"))],
    [ObjectField(Ascii("categoryName"), New(Ascii("Ljava/lang/String;"))),
     ObjectField(Ascii("locationInfo"), New(Ascii("Lorg/apache/log4j/spi/LocationInfo;"))),
     ObjectField(Ascii("mdcCopy"), New(Ascii("Ljava/util/Hashtable;"))),
     ObjectField(Ascii("ndc"), New(Ascii("Ljava/lang/String;"))),
     ObjectField(Ascii("renderedMessage"), New(Ascii("Ljava/lang/String;"))),
     ObjectField(Ascii("threadName"), New(Ascii("Ljava/lang/String;"))),
     ObjectField(Ascii("throwableInfo"), New(Ascii("Lorg/apache/log4j/spi/ThrowableInformation;")))])

  /** `LOCATION_INFO` */
  const LOCATION_INFO: Bytes := Descriptor(
    Ascii("org.apache.log4j.spi.LocationInfo"),
    [0xED, 0x99, 0xBB, 0xE1, 0x4A, 0x91, 0xA5, 0x7C, 0x02],
    [],
    [ObjectField(Ascii("fullInfo"), New(Ascii("Ljava/lang/String;")))])

  function FullInfo(r: Record): Bytes {
    r.funcName + Ascii("(") + r.pathname + Ascii(":") + r.lineno + Ascii(")")
  }

  /** The records for which `struct.pack` does not raise an error. */
  predicate DefaultPackable(r: Record) {
    && |r.name| <= MAX_SHORT && |r.msg| <= MAX_SHORT && |r.threadName| <= MAX_SHORT && |FullInfo(r)| <= MAX_SHORT
    && 0 <= r.levelno * 1000 < Pow256(4) && 0 <= r.millis < Pow256(8)
  }

  function StringObject(b: Bytes): Bytes {
    [TC_STRING] + Sized(b)
  }

  function LocationObject(b: Bytes): Bytes {
    [TC_OBJECT] + (LOCATION_INFO + StringObject(b))
  }

  /** `DefaultSocketHandler.makePickle`, piece by piece */
  function DefaultPieces(r: Record): (pieces: seq<Bytes>)
    requires DefaultPackable(r)
    ensures |pieces| == |DEFAULT_FIELDS|
  {
    [[TC_OBJECT], LOGGING_EVENT, [0, 0], BeBytes(r.millis, 8), StringObject(r.name), LocationObject(FullInfo(r)),
     [TC_NULL], [TC_NULL], StringObject(r.msg), StringObject(r.threadName),
     [TC_NULL], [TC_BLOCKDATA], [4], BeBytes(r.levelno * 1000, 4), [TC_NULL], [TC_ENDBLOCKDATA]]
  }

  function DefaultPickle(r: Record): Bytes
    requires DefaultPackable(r)
  {
    Join(DefaultPieces(r))
  }

  /** What may come before an event: a stream of the Java Object Serialization Specification can be reset there. */
  function Reset(reset: bool): Bytes {
    if reset then [TC_RESET] else []
  }

  function Join(pieces: seq<Bytes>): Bytes
    decreases |pieces|
  {
    if pieces == [] then [] else pieces[0] + Join(pieces[1..])
  }

  function Unsigned32(b: Bytes): Bytes {
    BeBytes(|b|, 4) + b
  }

  predicate BytesPackable(r: Record) {
    && |r.name| < Pow256(4) && |r.msg| < Pow256(4) && |r.threadName| < Pow256(4)
    && |r.pathname| < Pow256(4) && |r.funcName| < Pow256(4) && |r.lineno| < Pow256(4)
    && -0x8000_0000 <= r.levelno * 1000 < 0x8000_0000 && 0 <= r.micros < Pow256(8)
  }

  /** `ByteSocketHandler.makePickle`, piece by piece */
  function BytesPieces(r: Record): (pieces: seq<Bytes>)
    requires BytesPackable(r)
    ensures |pieces| == |BYTES_FIELDS|
  {
    [Unsigned32(r.name), PackSigned(r.levelno * 1000, 4), Unsigned32(r.msg), BeBytes(r.micros, 8),
      Unsigned32(r.threadName),
     Unsigned32(r.pathname), Unsigned32(r.funcName), Unsigned32(r.lineno)]
  }

  function BytesPickle(r: Record): Bytes
    requires BytesPackable(r)
  {
    Join(BytesPieces(r))
  }

  // ---------- reading it back ----------

  /** Wherever the piece stands, the field reads it, and nothing more. */
  ghost predicate Reads(f: Field, piece: Bytes, v: Value) {
    forall t: Bytes :: Read(f, piece + t) == Done(Got(v, |piece|))
  }

  lemma {:induction false} ReadsAt(f: Field, piece: Bytes, v: Value, t: Bytes)
    requires Reads(f, piece, v)
    ensures Read(f, piece + t) == Done(Got(v, |piece|))
  {
  }

  lemma {:induction false} ReadAllFirst(fs: seq<Field>, piece: Bytes, v: Value, rest: Bytes)
    requires fs != [] && Read(fs[0], piece + rest) == Done(Got(v, |piece|)) && ReadAll(fs[1..], rest).Done?
    ensures var r := ReadAll(fs[1..], rest).value;
            ReadAll(fs, piece + rest) == Done(Got([v] + r.v, |piece| + r.n))
  {
    hide Read;
    assert (piece + rest)[|piece|..] == rest;
  }

  lemma {:induction false} AllRead(fs: seq<Field>, pieces: seq<Bytes>, vs: seq<Value>, t: Bytes)
    requires |fs| == |pieces| == |vs|
    requires forall i :: 0 <= i < |fs| ==> Reads(fs[i], pieces[i], vs[i])
    ensures ReadAll(fs, Join(pieces) + t) == Done(Got(vs, |Join(pieces)|))
    decreases |fs|
  {
    hide Read, Reads;
    if fs != [] {
      hide ReadAll;
      var rest := Join(pieces[1..]) + t;
      assert Join(pieces) + t == pieces[0] + rest;
      assert forall i :: 0 <= i < |fs[1..]| ==>
          fs[1..][i] == fs[i + 1] && pieces[1..][i] == pieces[i + 1] && vs[1..][i] == vs[i + 1];
      AllRead(fs[1..], pieces[1..], vs[1..], t);
      assert Reads(fs[0], pieces[0], vs[0]);
      ReadsAt(fs[0], pieces[0], vs[0], rest);
      ReadAllFirst(fs, pieces[0], vs[0], rest);
      assert [vs[0]] + vs[1..] == vs;
    }
  }

  lemma {:induction false} ReadsOpens(reset: bool)
    ensures Reads(Opens, Reset(reset) + [TC_OBJECT], Nothing)
  {
    forall t: Bytes
      ensures Read(Opens, (Reset(reset) + [TC_OBJECT]) + t) == Done(Got(Nothing, |Reset(reset) + [TC_OBJECT]|))
    {
      var s := (Reset(reset) + [TC_OBJECT]) + t;
      assert reset ==> s[1..][..1] == [TC_OBJECT];
    }
  }

  lemma {:induction false} ReadsFixed(want: Bytes)
    ensures Reads(Fixed(want), want, Nothing)
  {
  }

  lemma {:induction false} ReadsNumber(v: nat, k: nat)
    requires v < Pow256(k)
    ensures Reads(Number(k), BeBytes(v, k), Num(Signed(v, k)))
  {
    forall t: Bytes
      ensures Read(Number(k), BeBytes(v, k) + t) == Done(Got(Num(Signed(v, k)), k))
    {
      assert (BeBytes(v, k) + t)[..k] == BeBytes(v, k);
      BeExact(v, k);
    }
  }

  lemma {:induction false} CountedExact(b: Bytes, k: nat, t: Bytes)
    requires |b| < Pow256(k)
    ensures Counted(BeBytes(|b|, k) + (b + t), k) == Done(Got(b, k + |b|))
  {
    var s := BeBytes(|b|, k) + (b + t);
    assert s[..k] == BeBytes(|b|, k) && s[k..] == b + t;
    BeExact(|b|, k);
    assert (b + t)[..|b|] == b;
  }

  lemma {:induction false} TextExact(b: Bytes, t: Bytes)
    requires |b| <= MAX_STRING
    ensures Text(StringObject(b) + t) == Done(Got(b, |StringObject(b)|))
  {
    var s := StringObject(b) + t;
    assert s[1..] == BeBytes(|b|, 2) + (b + t);
    assert Pow256(2) == 65536;
    CountedExact(b, 2, t);
  }

  lemma {:induction false} ReadsString(b: Bytes)
    requires |b| <= MAX_STRING
    ensures Reads(String, StringObject(b), Str(b))
  {
    hide Text, StringObject;
    forall t: Bytes
      ensures Read(String, StringObject(b) + t) == Done(Got(Str(b), |StringObject(b)|))
    {
      TextExact(b, t);
    }
  }

  lemma {:induction false} ReadsLong(b: Bytes)
    requires |b| < Pow256(4)
    ensures Reads(LongString, Unsigned32(b), Str(b)) && Reads(LongCString, Unsigned32(b), Str(CString(b)))
  {
    hide CString;
    forall t: Bytes
      ensures Read(LongString, Unsigned32(b) + t) == Done(Got(Str(b), |Unsigned32(b)|))
      ensures Read(LongCString, Unsigned32(b) + t) == Done(Got(Str(CString(b)), |Unsigned32(b)|))
    {
      assert Unsigned32(b) + t == BeBytes(|b|, 4) + (b + t);
      CountedExact(b, 4, t);
    }
  }

  lemma {:induction false} ReadsDescribes()
    ensures Reads(Describes, LOGGING_EVENT, Nothing)
  {
    hide Prolog, Descriptor;
    forall t: Bytes
      ensures Read(Describes, LOGGING_EVENT + t) == Done(Got(Nothing, |LOGGING_EVENT|))
    {
      EventProlog(t);
    }
  }

  lemma {:induction false} EventProlog(t: Bytes)
    ensures Prolog(LOGGING_EVENT + t) == Done(Got((), |LOGGING_EVENT|))
  {
    hide Prolog, Descriptor, Ascii;
    var prims := [Item(0x5A, Ascii("mdcCopyLookupRequired")), Item(0x5A, Ascii("ndcLookupRequired")),
      Item(0x4A, Ascii("timeStamp"))];
    var objects :=
      [ObjectField(Ascii("categoryName"), New(Ascii("Ljava/lang/String;"))),
       ObjectField(Ascii("locationInfo"), New(Ascii("Lorg/apache/log4j/spi/LocationInfo;"))),
       ObjectField(Ascii("mdcCopy"), New(Ascii("Ljava/util/Hashtable;"))),
       ObjectField(Ascii("ndc"), New(Ascii("Ljava/lang/String;"))),
       ObjectField(Ascii("renderedMessage"), New(Ascii("Ljava/lang/String;"))),
       ObjectField(Ascii("threadName"), New(Ascii("Ljava/lang/String;"))),
       ObjectField(Ascii("throwableInfo"), New(Ascii("Lorg/apache/log4j/spi/ThrowableInformation;")))];
    DescriptorExact(Ascii("org.apache.log4j.spi.LoggingEvent"),
      [0xF3, 0xF2, 0xB9, 0x23, 0x74, 0x0B, 0xB5, 0x3F, 0x03], prims, objects, t);
  }

  lemma {:induction false} LocationProlog(t: Bytes)
    ensures Prolog(LOCATION_INFO + t) == Done(Got((), |LOCATION_INFO|))
  {
    hide Prolog, Descriptor, Ascii;
    var objects := [ObjectField(Ascii("fullInfo"), New(Ascii("Ljava/lang/String;")))];
    DescriptorExact(Ascii("org.apache.log4j.spi.LocationInfo"),
      [0xED, 0x99, 0xBB, 0xE1, 0x4A, 0x91, 0xA5, 0x7C, 0x02], [], objects, t);
  }

  /** What Java writes for the same classes: the name of `String` once, and handles for it after that. */
  const STRING_HANDLE: TypeName := Old([0x00, 0x7E, 0x00, 0x01])

  const JAVA_EVENT: Bytes := Descriptor(
    Ascii("org.apache.log4j.spi.LoggingEvent"),
    [0xF3, 0xF2, 0xB9, 0x23, 0x74, 0x0B, 0xB5, 0x3F, 0x03],
    [Item(0x5A, Ascii("mdcCopyLookupRequired")), Item(0x5A, Ascii("ndcLookupRequired")),
     Item(0x4A, Ascii("timeStamp"))],
    [ObjectField(Ascii("categoryName"), New(Ascii("Ljava/lang/String;"))),
     ObjectField(Ascii("locationInfo"), New(Ascii("Lorg/apache/log4j/spi/LocationInfo;"))),
     ObjectField(Ascii("mdcCopy"), New(Ascii("Ljava/util/Hashtable;"))),
     ObjectField(Ascii("ndc"), STRING_HANDLE), ObjectField(Ascii("renderedMessage"), STRING_HANDLE),
     ObjectField(Ascii("threadName"), STRING_HANDLE),
     ObjectField(Ascii("throwableInfo"), New(Ascii("Lorg/apache/log4j/spi/ThrowableInformation;")))])

  const JAVA_PLACE: Bytes := Descriptor(
    Ascii("org.apache.log4j.spi.LocationInfo"),
    [0xED, 0x99, 0xBB, 0xE1, 0x4A, 0x91, 0xA5, 0x7C, 0x02],
    [],
    [ObjectField(Ascii("fullInfo"), STRING_HANDLE)])

  /** Java's descriptors are taken exactly, too: their handles come late enough. */
  lemma {:induction false} JavaExact(t: Bytes)
    ensures Prolog(JAVA_EVENT + t) == Done(Got((), |JAVA_EVENT|))
    ensures Prolog(JAVA_PLACE + t) == Done(Got((), |JAVA_PLACE|))
  {
    hide Prolog, Descriptor, Ascii;
    var prims := [Item(0x5A, Ascii("mdcCopyLookupRequired")), Item(0x5A, Ascii("ndcLookupRequired")),
      Item(0x4A, Ascii("timeStamp"))];
    var objects :=
      [ObjectField(Ascii("categoryName"), New(Ascii("Ljava/lang/String;"))),
       ObjectField(Ascii("locationInfo"), New(Ascii("Lorg/apache/log4j/spi/LocationInfo;"))),
       ObjectField(Ascii("mdcCopy"), New(Ascii("Ljava/util/Hashtable;"))),
       ObjectField(Ascii("ndc"), STRING_HANDLE), ObjectField(Ascii("renderedMessage"), STRING_HANDLE),
       ObjectField(Ascii("threadName"), STRING_HANDLE),
       ObjectField(Ascii("throwableInfo"), New(Ascii("Lorg/apache/log4j/spi/ThrowableInformation;")))];
    DescriptorExact(Ascii("org.apache.log4j.spi.LoggingEvent"),
      [0xF3, 0xF2, 0xB9, 0x23, 0x74, 0x0B, 0xB5, 0x3F, 0x03], prims, objects, t);
    DescriptorExact(Ascii("org.apache.log4j.spi.LocationInfo"),
      [0xED, 0x99, 0xBB, 0xE1, 0x4A, 0x91, 0xA5, 0x7C, 0x02], [],
      [ObjectField(Ascii("fullInfo"), STRING_HANDLE)], t);
  }

  lemma {:induction false} LocationExact(b: Bytes, t: Bytes)
    requires |b| <= MAX_STRING
    ensures Location(LocationObject(b) + t) == Done(Got(CString(b), |LocationObject(b)|))
  {
    hide Prolog, Descriptor, Text, StringObject, CString;
    ghost var info, u := LOCATION_INFO, StringObject(b) + t;
    var s := LocationObject(b) + t;
    assert s[1..] == info + u && s[1 + |info|..] == u;
    LocationProlog(u);
    TextExact(b, t);
  }

  lemma {:induction false} ReadsPlace(b: Bytes)
    requires |b| <= MAX_STRING
    ensures Reads(Place, LocationObject(b), Str(CString(b)))
  {
    hide Location, LocationObject, CString;
    forall t: Bytes
      ensures Read(Place, LocationObject(b) + t) == Done(Got(Str(CString(b)), |LocationObject(b)|))
    {
      LocationExact(b, t);
    }
  }

  lemma {:induction false} ReadsNull()
    ensures Reads(Context, [TC_NULL], Table(map[])) && Reads(Nested, [TC_NULL], Str([]))
  {
  }

  /** What the other end gets to see of a record. */
  function DefaultSeen(r: Record): (vals: seq<Value>)
    requires DefaultPackable(r)
    ensures |vals| == |DEFAULT_FIELDS|
  {
    [Nothing, Nothing, Nothing, Num(Signed(r.millis, 8)), Str(r.name), Str(CString(FullInfo(r))), Table(map[]), Str([]),
     Str(r.msg), Str(r.threadName), Nothing, Nothing, Nothing, Num(Signed(r.levelno * 1000, 4)), Nothing, Nothing]
  }

  function BytesSeen(r: Record): (vals: seq<Value>)
    requires BytesPackable(r)
    ensures |vals| == |BYTES_FIELDS|
  {
    [Str(r.name), Num(r.levelno * 1000), Str(r.msg), Num(Signed(r.micros, 8)), Str(r.threadName),
     Str(CString(r.pathname)), Str(CString(r.funcName)), Str(CString(r.lineno))]
  }

  lemma {:induction false} DefaultReads(r: Record, i: nat)
    requires DefaultPackable(r) && i < |DEFAULT_FIELDS|
    ensures Reads(DEFAULT_FIELDS[i], DefaultPieces(r)[i], DefaultSeen(r)[i])
  {
    hide Reads, CString, FullInfo, StringObject, LocationObject, Descriptor;
    ReadsOpens(false);
    assert Reset(false) + [TC_OBJECT] == [TC_OBJECT];
    ReadsDescribes();
    ReadsFixed([0, 0]);
    ReadsFixed([TC_NULL]);
    ReadsFixed([TC_BLOCKDATA]);
    ReadsFixed([4]);
    ReadsFixed([TC_ENDBLOCKDATA]);
    ReadsNull();
    ReadsNumber(r.millis, 8);
    ReadsNumber(r.levelno * 1000, 4);
    ReadsString(r.name);
    ReadsString(r.msg);
    ReadsString(r.threadName);
    ReadsPlace(FullInfo(r));
  }

  lemma {:induction false} SignedBack(v: int)
    requires -0x8000_0000 <= v < 0x8000_0000
    ensures var u := if v < 0 then v + Pow256(4) else v; 0 <= u < Pow256(4) && Signed(u, 4) == v
  {
  }

  lemma {:induction false} BytesReads(r: Record, i: nat)
    requires BytesPackable(r) && i < |BYTES_FIELDS|
    ensures Reads(BYTES_FIELDS[i], BytesPieces(r)[i], BytesSeen(r)[i])
  {
    hide Reads, CString, Unsigned32, Signed, Pow256;
    SignedBack(r.levelno * 1000);
    ReadsNumber(if r.levelno < 0 then r.levelno * 1000 + Pow256(4) else r.levelno * 1000, 4);
    ReadsNumber(r.micros, 8);
    ReadsLong(r.name);
    ReadsLong(r.msg);
    ReadsLong(r.threadName);
    ReadsLong(r.pathname);
    ReadsLong(r.funcName);
    ReadsLong(r.lineno);
  }

  /** One record makes the round trip, with or without a reset before it and with any bytes following. */
  lemma {:induction false} DefaultRoundTrip(reset: bool, r: Record, t: Bytes)
    requires DefaultPackable(r)
    ensures ParseDefault((Reset(reset) + DefaultPickle(r)) + t)
         == Done(Got(DefaultEvent(DefaultSeen(r)), |Reset(reset)| + |DefaultPickle(r)|))
  {
    hide Reads, Join, ReadAll, AllAt, DefaultEvent, DefaultPieces, DefaultSeen, Reset;
    var pieces := DefaultPieces(r)[0 := Reset(reset) + [TC_OBJECT]];
    forall i | 0 <= i < |DEFAULT_FIELDS|
      ensures Reads(DEFAULT_FIELDS[i], pieces[i], DefaultSeen(r)[i])
    {
      DefaultReads(r, i);
      OpensFirst(r);
      ReadsOpens(reset);
    }
    AllRead(DEFAULT_FIELDS, pieces, DefaultSeen(r), t);
    ResetJoin(r, reset);
    DefaultForward((Reset(reset) + DefaultPickle(r)) + t);
  }

  lemma {:induction false} OpensFirst(r: Record)
    requires DefaultPackable(r)
    ensures DefaultPieces(r)[0] == [TC_OBJECT] && DefaultSeen(r)[0] == Nothing && DEFAULT_FIELDS[0] == Opens
  {
  }

  lemma {:induction false} ResetJoin(r: Record, reset: bool)
    requires DefaultPackable(r)
    ensures Join(DefaultPieces(r)[0 := Reset(reset) + [TC_OBJECT]]) == Reset(reset) + DefaultPickle(r)
  {
    hide DefaultPieces, Reset;
    OpensFirst(r);
    var pieces := DefaultPieces(r);
    assert pieces[0 := Reset(reset) + [TC_OBJECT]][1..] == pieces[1..];
    assert DefaultPickle(r) == [TC_OBJECT] + Join(pieces[1..]);
  }

  lemma {:induction false} BytesRoundTrip(r: Record, t: Bytes)
    requires BytesPackable(r)
    ensures ParseBytes(BytesPickle(r) + t) == Done(Got(BytesEvent(BytesSeen(r)), |BytesPickle(r)|))
  {
    hide Reads, Join, ReadAll, AllAt, BytesEvent, BytesPieces, BytesSeen;
    forall i | 0 <= i < |BYTES_FIELDS|
      ensures Reads(BYTES_FIELDS[i], BytesPieces(r)[i], BytesSeen(r)[i])
    {
      BytesReads(r, i);
    }
    AllRead(BYTES_FIELDS, BytesPieces(r), BytesSeen(r), t);
    BytesForward(BytesPickle(r) + t);
  }

  // ---------- what is lost ----------

  lemma {:induction false} CStringIs(b: Bytes)
    ensures CString(b) == b <==> 0 !in b
  {
    if b != [] {
      CStringIs(b[1..]);
      assert b == [b[0]] + b[1..];
      if b[0] != 0 && CString(b) == b {
        assert CString(b)[1..] == b[1..];
      }
    }
  }

  /** What the sender means by a record. */
  function DefaultMeant(r: Record): Event {
    Event(r.name, r.levelno * 1000, r.msg, r.millis * 1000, r.threadName, [FullInfo(r)])
  }

  function BytesMeant(r: Record): Event {
    Event(r.name, r.levelno * 1000, r.msg, r.micros, r.threadName, [r.pathname, r.funcName, r.lineno])
  }

  lemma {:induction false} MillisBack(millis: int)
    requires 0 <= millis < Pow256(8)
    ensures Wrap64(Signed(millis, 8) * 1000) == millis * 1000 <==> millis * 1000 < Pow256(8) / 2
  {
  }

  /** A record that can be packed arrives as it was meant if and only if its location has no NUL in it, its time in
      microseconds fits 63 bits, and its level fits 31. */
  lemma {:induction false} DefaultFaithful(r: Record)
    requires DefaultPackable(r)
    ensures DefaultEvent(DefaultSeen(r)) == DefaultMeant(r)
       <==> 0 !in FullInfo(r) && r.millis * 1000 < Pow256(8) / 2 && r.levelno * 1000 < Pow256(4) / 2
  {
    hide CString, FullInfo, Wrap64;
    CStringIs(FullInfo(r));
    MillisBack(r.millis);
    assert Pow256(4) == 0x1_0000_0000;
  }

  lemma {:induction false} BytesFaithful(r: Record)
    requires BytesPackable(r)
    ensures BytesEvent(BytesSeen(r)) == BytesMeant(r)
       <==> 0 !in r.pathname && 0 !in r.funcName && 0 !in r.lineno && r.micros < Pow256(8) / 2
  {
    hide CString;
    CStringIs(r.pathname);
    CStringIs(r.funcName);
    CStringIs(r.lineno);
    assert Pow256(8) == 0x1_0000_0000_0000_0000;
  }

  /** A level that is packed as an unsigned number and read back as a negative one. */
  const HIGH_LEVEL: Record := Record([], [], [], [], [], [], 3_000_000, 0, 0)

  lemma {:induction false} HighLevelLost()
    ensures DefaultPackable(HIGH_LEVEL) && DefaultEvent(DefaultSeen(HIGH_LEVEL)) != DefaultMeant(HIGH_LEVEL)
  {
    hide DefaultEvent, DefaultSeen, DefaultMeant;
    assert Pow256(4) == 0x1_0000_0000;
    DefaultFaithful(HIGH_LEVEL);
  }

  /** A path with a NUL in it, of which only the part before that arrives. */
  const CUT_PATH: Record := Record([], [], [], [], Ascii("a") + [0] + Ascii("b"), [], 0, 0, 0)

  lemma {:induction false} PathCut()
    ensures BytesPackable(CUT_PATH) && BytesEvent(BytesSeen(CUT_PATH)) != BytesMeant(CUT_PATH)
  {
    hide BytesEvent, BytesSeen, BytesMeant;
    assert Pow256(4) == 0x1_0000_0000;
    assert CUT_PATH.pathname[1] == 0;
    BytesFaithful(CUT_PATH);
  }

  // ---------- streams of records ----------

  /** A record, and whether a reset comes before it. */
  datatype Sending = Sending(reset: bool, record: Record)

  function DefaultStream(rs: seq<Sending>): Bytes
    requires forall r | r in rs :: DefaultPackable(r.record)
  {
    if rs == [] then [] else (Reset(rs[0].reset) + DefaultPickle(rs[0].record)) + DefaultStream(rs[1..])
  }

  function DefaultEvents(rs: seq<Sending>): seq<Event>
    requires forall r | r in rs :: DefaultPackable(r.record)
  {
    if rs == [] then [] else [DefaultEvent(DefaultSeen(rs[0].record))] + DefaultEvents(rs[1..])
  }

  function BytesStream(rs: seq<Record>): Bytes
    requires forall r | r in rs :: BytesPackable(r)
  {
    if rs == [] then [] else BytesPickle(rs[0]) + BytesStream(rs[1..])
  }

  function BytesEvents(rs: seq<Record>): seq<Event>
    requires forall r | r in rs :: BytesPackable(r)
  {
    if rs == [] then [] else [BytesEvent(BytesSeen(rs[0]))] + BytesEvents(rs[1..])
  }

  lemma {:induction false} DefaultDrains(rs: seq<Sending>)
    requires Restartable(ParseDefault) && forall r | r in rs :: DefaultPackable(r.record)
    ensures Drain(ParseDefault, DefaultStream(rs)) == Drained(DefaultEvents(rs), [], Open)
    decreases |rs|
  {
    hide ParseDefault, DefaultEvent, DefaultSeen, DefaultPickle, DefaultPackable, Restartable, Reset;
    if rs != [] {
      var s, rest := DefaultStream(rs), DefaultStream(rs[1..]);
      var r := rs[0].record;
      DefaultRoundTrip(rs[0].reset, r, rest);
      DefaultPickleSome(r);
      assert s[|Reset(rs[0].reset)| + |DefaultPickle(r)|..] == rest;
      DefaultDrains(rs[1..]);
    }
  }

  lemma {:induction false} DefaultPickleSome(r: Record)
    requires DefaultPackable(r)
    ensures DefaultPickle(r) != []
  {
  }

  lemma {:induction false} BytesDrains(rs: seq<Record>)
    requires Restartable(ParseBytes) && forall r | r in rs :: BytesPackable(r)
    ensures Drain(ParseBytes, BytesStream(rs)) == Drained(BytesEvents(rs), [], Open)
    decreases |rs|
  {
    hide ParseBytes, BytesEvent, BytesSeen, BytesPickle, BytesPackable, Restartable;
    if rs != [] {
      var s, rest := BytesStream(rs), BytesStream(rs[1..]);
      BytesRoundTrip(rs[0], rest);
      BytesPickleSome(rs[0]);
      assert s[|BytesPickle(rs[0])|..] == rest;
      BytesDrains(rs[1..]);
    }
  }

  lemma {:induction false} BytesPickleSome(r: Record)
    requires BytesPackable(r)
    ensures BytesPickle(r) != []
  {
  }

  /** Whatever records are sent after the start flag, with resets before any of them, and however the stream is cut up
      on its way: exactly these events come out, in order, and nothing is left over. */
  lemma {:induction false} DefaultDelivered(rs: seq<Sending>, chunks: seq<Bytes>, msgpack: Parser)
    requires Restartable(msgpack) && (forall r | r in rs :: DefaultPackable(r.record))
    requires chunks != [] && Concat(chunks) == DEFAULT_START + DefaultStream(rs)
    ensures AllRestartable(Loaders(msgpack))
    ensures Calls(Loaders(msgpack), Conn(None, []), chunks) == Called(Conn(Some(Default), []), DefaultEvents(rs), Open)
  {
    hide DefaultStream, DefaultEvents, Restartable, Calls, Concat;
    LoadersRestartable(msgpack);
    DefaultRestartable();
    DefaultDrains(rs);
    var s := Concat(chunks);
    assert [] + s == s && s[..4] == DEFAULT_START && s[4..] == DefaultStream(rs);
    ChunksDoNotMatter(Loaders(msgpack), Conn(None, []), chunks);
  }

  lemma {:induction false} BytesDelivered(rs: seq<Record>, chunks: seq<Bytes>, msgpack: Parser)
    requires Restartable(msgpack) && (forall r | r in rs :: BytesPackable(r))
    requires chunks != [] && Concat(chunks) == BYTES_START + BytesStream(rs)
    ensures AllRestartable(Loaders(msgpack))
    ensures Calls(Loaders(msgpack), Conn(None, []), chunks) == Called(Conn(Some(Binary), []), BytesEvents(rs), Open)
  {
    hide BytesStream, BytesEvents, Restartable, Calls, Concat;
    LoadersRestartable(msgpack);
    BytesRestartable();
    BytesDrains(rs);
    var s := Concat(chunks);
    assert [] + s == s && s[..4] == BYTES_START && s[4..] == BytesStream(rs);
    assert BYTES_START != DEFAULT_START by {
      assert BYTES_START[2] != DEFAULT_START[2];
    }
    ChunksDoNotMatter(Loaders(msgpack), Conn(None, []), chunks);
  }
}
