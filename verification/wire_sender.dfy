/** The appender of log4cxx as a sender of the Default protocol: it leaves out locations and contexts that are not
    there, writes each class descriptor once, and refers to it from then on.  Whatever it writes comes out again at
    the other end; so do the streams of a sender that resets its stream now and then, as Java's does. */
module WireSender {
  import opened Basics
  import opened Wire
  import opened WireCursor
  import opened WireExact
  import opened WireStream
  import opened WireEncode

  type uint32 = v: int | 0 <= v < 0x1_0000_0000
  type int32 = v: int | -0x8000_0000 <= v < 0x8000_0000
  type int64 = v: int | -0x8000_0000_0000_0000 <= v < 0x8000_0000_0000_0000

  // ---------- ObjectOutputStream ----------

  /** The classes whose descriptors are written. */
  datatype ClassName = OfEvent | OfPlace | OfTable

  const HASHTABLE: Bytes := Descriptor(
    Ascii("java.util.Hashtable"),
    [0x13, 0xBB, 0x0F, 0x25, 0x21, 0x4A, 0xE4, 0xB8, 0x03],
    [Item(0x46, Ascii("loadFactor")), Item(0x49, Ascii("threshold"))],
    [])

  function ClassBytes(c: ClassName): Bytes {
    match c
    case OfEvent => LOGGING_EVENT
    case OfPlace => LOCATION_INFO
    case OfTable => HASHTABLE
  }

  /** The next handle, and the handles of the descriptors that have been written. */
  datatype Handles = Handles(next: uint32, classes: map<ClassName, uint32>)

  const FRESH: Handles := Handles(0x7E_0000, map[])

  /** `objectHandle += k` in 32 bits */
  function Advance(h: Handles, k: nat): Handles {
    h.(next := (h.next + k) % 0x1_0000_0000)
  }

  /** A descriptor, or a reference to it. */
  function Class(h: Handles, c: ClassName): Bytes {
    if c in h.classes then [TC_REFERENCE] + BeBytes(h.classes[c], 4) else ClassBytes(c)
  }

  function AfterClass(h: Handles, c: ClassName, increment: nat): Handles {
    if c in h.classes then Advance(h, 1) else Advance(h.(classes := h.classes[c := h.next]), increment + 1)
  }

  function EntryBytes(entries: seq<(Bytes, Bytes)>): Bytes {
    if entries == [] then []
    else (StringObject(entries[0].0) + StringObject(entries[0].1)) + EntryBytes(entries[1..])
  }

  /** The stream's state, and what it has written. */
  class ObjectOutputStream {
    var written: Bytes
    var objectHandle: uint32
    var classDescriptions: map<ClassName, uint32>

    function State(): Handles
      reads this
    {
      Handles(objectHandle, classDescriptions)
    }

    constructor ()
      ensures written == DEFAULT_START && State() == FRESH
    {
      written, objectHandle, classDescriptions := DEFAULT_START, 0x7E_0000, map[];
    }

    method WriteBytes(b: Bytes)
      modifies this
      ensures written == old(written) + b && State() == old(State())
    {
      written := written + b;
    }

    method Count(k: nat)
      modifies this
      ensures written == old(written) && State() == Advance(old(State()), k)
    {
      objectHandle := (objectHandle + k) % 0x1_0000_0000;
    }

    /** `writeInt`: shifts and masks, which on a negative number round down. */
    method WriteInt(v: int32)
      modifies this
      ensures written == old(written) + PackSigned(v, 4) && State() == old(State())
    {
      FourBytes(v);
      WriteBytes([v / 0x100_0000 % 256, v / 0x1_0000 % 256, v / 256 % 256, v % 256]);
    }

    method WriteLong(v: int64)
      modifies this
      ensures written == old(written) + PackSigned(v, 8) && State() == old(State())
    {
      EightBytes(v);
      WriteBytes([v / 0x100_0000_0000_0000 % 256, v / 0x1_0000_0000_0000 % 256, v / 0x100_0000_0000 % 256,
                  v / 0x1_0000_0000 % 256, v / 0x100_0000 % 256, v / 0x1_0000 % 256, v / 256 % 256, v % 256]);
    }

    /** `writeObject` for a string, and `writeUTFString` */
    method WriteString(b: Bytes)
      modifies this
      ensures written == old(written) + StringObject(b) && State() == Advance(old(State()), 1)
    {
      Count(1);
      assert BeBytes(|b|, 2) == [|b| / 256 % 256, |b| % 256];
      WriteBytes([TC_STRING, |b| / 256 % 256, |b| % 256]);
      WriteBytes(b);
    }

    method WriteProlog(c: ClassName, increment: nat)
      modifies this
      ensures written == old(written) + ([TC_OBJECT] + Class(old(State()), c))
      ensures State() == AfterClass(old(State()), c, increment)
    {
      hide ClassBytes, BeBytes;
      if c in classDescriptions {
        WriteBytes([TC_OBJECT, TC_REFERENCE] + BeBytes(classDescriptions[c], 4));
        Count(1);
      } else {
        classDescriptions := classDescriptions[c := objectHandle];
        WriteBytes([TC_OBJECT]);
        WriteBytes(ClassBytes(c));
        Count(increment + 1);
      }
    }

    /** `writeObject` for a mapped diagnostic context, in the order of its keys */
    method WriteTable(entries: seq<(Bytes, Bytes)>)
      requires |entries| < 0x8000_0000
      modifies this
      ensures written == old(written) + TableObject(old(State()), entries)
      ensures State() == Advance(AfterClass(old(State()), OfTable, 1), 2 * |entries|)
    {
      hide StringObject, EntryBytes, Class, AfterClass;
      WriteProlog(OfTable, 1);
      WriteBytes(HASH_DATA);
      WriteInt(|entries|);
      WriteEntries(entries);
      WriteBytes([TC_ENDBLOCKDATA]);
    }

    method WriteEntries(entries: seq<(Bytes, Bytes)>)
      modifies this
      ensures written == old(written) + EntryBytes(entries) && State() == Advance(old(State()), 2 * |entries|)
    {
      hide StringObject, EntryBytes, Advance;
      ghost var w, h := written, State();
      AdvanceZero(h);
      var i := 0;
      EntriesNone(entries);
      while i < |entries|
        invariant 0 <= i <= |entries|
        invariant written == w + EntryBytes(entries[..i]) && State() == Advance(h, 2 * i)
      {
        WriteString(entries[i].0);
        WriteString(entries[i].1);
        AdvanceTwice(Advance(h, 2 * i), 1, 1);
        AdvanceTwice(h, 2 * i, 2);
        EntriesOne(entries, i);
        i := i + 1;
      }
      assert entries[..i] == entries;
    }
  }

  function TableObject(h: Handles, entries: seq<(Bytes, Bytes)>): Bytes {
    [TC_OBJECT]
      + (Class(h, OfTable) + (HASH_DATA + (BeBytes(|entries|, 4) + (EntryBytes(entries) + [TC_ENDBLOCKDATA]))))
  }

  lemma {:induction false} AdvanceZero(h: Handles)
    ensures Advance(h, 0) == h
  {
  }

  lemma {:induction false} AdvanceTwice(h: Handles, j: nat, k: nat)
    ensures Advance(Advance(h, j), k) == Advance(h, j + k)
  {
  }

  lemma {:induction false} EntriesNone(entries: seq<(Bytes, Bytes)>)
    ensures EntryBytes(entries[..0]) == []
  {
  }

  lemma {:induction false} EntriesOne(entries: seq<(Bytes, Bytes)>, i: nat)
    requires i < |entries|
    ensures EntryBytes(entries[..i + 1])
            == EntryBytes(entries[..i]) + (StringObject(entries[i].0) + StringObject(entries[i].1))
  {
    hide StringObject;
    if i == 0 {
      assert entries[..1][1..] == [];
    } else {
      EntriesOne(entries[1..], i - 1);
      assert entries[..i + 1][1..] == entries[1..][..i] && entries[..i][1..] == entries[1..][..i - 1];
    }
  }

  lemma {:induction false} Digit(v: int, k: nat)
    requires k > 0 && v + Pow256(k) >= 0
    ensures v / 256 + Pow256(k - 1) >= 0
    ensures PackSigned(v, k) == PackSigned(v / 256, k - 1) + [v % 256]
  {
    if v < 0 {
      assert (v + Pow256(k)) / 256 == v / 256 + Pow256(k - 1);
    }
  }

  lemma {:induction false} FourBytes(v: int32)
    ensures PackSigned(v, 4) == [v / 0x100_0000 % 256, v / 0x1_0000 % 256, v / 256 % 256, v % 256]
  {
    hide BeBytes;
    assert Pow256(4) == 0x1_0000_0000;
    Digit(v, 4);
    Digit(v / 256, 3);
    Digit(v / 256 / 256, 2);
    Digit(v / 256 / 256 / 256, 1);
    assert v / 256 / 256 == v / 0x1_0000;
    assert v / 256 / 256 / 256 == v / 0x100_0000;
  }

  lemma {:induction false} EightBytes(v: int64)
    ensures PackSigned(v, 8) ==
            [v / 0x100_0000_0000_0000 % 256, v / 0x1_0000_0000_0000 % 256, v / 0x100_0000_0000 % 256,
             v / 0x1_0000_0000 % 256, v / 0x100_0000 % 256, v / 0x1_0000 % 256, v / 256 % 256, v % 256]
  {
    hide BeBytes;
    assert Pow256(8) == 0x1_0000_0000_0000_0000;
    Digit(v, 8);
    Digit(v / 256, 7);
    Digit(v / 256 / 256, 6);
    Digit(v / 256 / 256 / 256, 5);
    assert v / 256 / 256 == v / 0x1_0000 && v / 256 / 256 / 256 == v / 0x100_0000;
    var h: int32 := v / 0x1_0000_0000;
    assert v / 256 / 256 / 256 / 256 == h;
    FourBytes(h);
    assert h / 256 == v / 0x100_0000_0000 && h / 0x1_0000 == v / 0x1_0000_0000_0000;
    assert h / 0x100_0000 == v / 0x100_0000_0000_0000;
  }

  // ---------- LoggingEvent ----------

  /** A logging event: strings in UTF-8, a time in microseconds, a location if there is one, the mapped diagnostic
      context in the order of its keys, and the nested one if there is one. */
  datatype LogEvent = LogEvent(
    logger: Bytes, level: int32, message: Bytes, timeStamp: int64, thread: Bytes,
    place: Option<Bytes>, mdc: seq<(Bytes, Bytes)>, ndc: Option<Bytes>)

  function PlaceBytes(h: Handles, place: Option<Bytes>): Bytes {
    match place
    case None => [TC_NULL]
    case Some(b) => [TC_OBJECT] + (Class(h, OfPlace) + StringObject(b))
  }

  function AfterPlace(h: Handles, place: Option<Bytes>): Handles {
    match place
    case None => h
    case Some(_) => Advance(AfterClass(h, OfPlace, 2), 1)
  }

  function TableBytes(h: Handles, mdc: seq<(Bytes, Bytes)>): Bytes {
    if mdc == [] then [TC_NULL] else TableObject(h, mdc)
  }

  function AfterTable(h: Handles, mdc: seq<(Bytes, Bytes)>): Handles {
    if mdc == [] then h else Advance(AfterClass(h, OfTable, 1), 2 * |mdc|)
  }

  function NestedBytes(ndc: Option<Bytes>): Bytes {
    match ndc
    case None => [TC_NULL]
    case Some(b) => StringObject(b)
  }

  /** Division in C++, which rounds towards zero */
  function Millis(t: int64): int64 {
    var v: int := t;
    if v >= 0 then v / 1000 else -(-v / 1000)
  }

  /** The handles when the location, when the table, and when all has been written. */
  function AtPlace(h: Handles): Handles {
    Advance(AfterClass(h, OfEvent, 8), 1)
  }

  function AtTable(h: Handles, e: LogEvent): Handles {
    AfterPlace(AtPlace(h), e.place)
  }

  function After(h: Handles, e: LogEvent): Handles {
    Advance(AfterTable(AtTable(h, e), e.mdc), if e.ndc.Some? then 3 else 2)
  }

  /** `LoggingEvent::write`, piece by piece */
  function Pieces(h: Handles, e: LogEvent): (pieces: seq<Bytes>)
    ensures |pieces| == |DEFAULT_FIELDS|
  {
    [[TC_OBJECT], Class(h, OfEvent), [0, 0], PackSigned(Millis(e.timeStamp), 8), StringObject(e.logger),
     PlaceBytes(AtPlace(h), e.place), TableBytes(AtTable(h, e), e.mdc), NestedBytes(e.ndc),
     StringObject(e.message), StringObject(e.thread),
     [TC_NULL], [TC_BLOCKDATA], [4], PackSigned(e.level, 4), [TC_NULL], [TC_ENDBLOCKDATA]]
  }

  method WriteEvent(os: ObjectOutputStream, e: LogEvent)
    requires |e.mdc| < 0x8000_0000
    modifies os
    ensures os.written == old(os.written) + Join(Pieces(old(os.State()), e))
    ensures os.State() == After(old(os.State()), e)
  {
    hide Join, Concat, Pieces, Class, AfterClass, StringObject, PlaceBytes, TableBytes, NestedBytes;
    ghost var w, h := os.written, os.State();
    ghost var q := Pieces(h, e);
    JoinConcat(q);
    WriteStart(os, e);
    WritePlace(os, e.place);
    WriteContexts(os, e.mdc, e.ndc);
    Middle(w, h, e);
    WriteRest(os, e, w, h);
    assert q[..16] == q;
  }

  method WriteStart(os: ObjectOutputStream, e: LogEvent)
    modifies os
    ensures os.written == old(os.written) + Concat(Pieces(old(os.State()), e)[..5])
    ensures os.State() == AtPlace(old(os.State()))
  {
    hide Concat, Class, AfterClass, StringObject, PackSigned, PlaceBytes, TableBytes, NestedBytes;
    ghost var w, q := os.written, Pieces(os.State(), e);
    GlueNone(w, q);
    os.WriteProlog(OfEvent, 8);
    Glue(w, q, 0, 2);
    os.WriteBytes([0, 0]);
    Glue(w, q, 2, 1);
    os.WriteLong(Millis(e.timeStamp));
    Glue(w, q, 3, 1);
    os.WriteString(e.logger);
    Glue(w, q, 4, 1);
  }

  lemma {:induction false} Middle(w: Bytes, h: Handles, e: LogEvent)
    ensures var q := Pieces(h, e);
            w + Concat(q[..8]) == w + Concat(q[..5]) + PlaceBytes(AtPlace(h), e.place)
                                  + TableBytes(AtTable(h, e), e.mdc) + NestedBytes(e.ndc)
  {
    hide Concat, Class, AfterClass, StringObject, PackSigned, PlaceBytes, TableBytes, NestedBytes;
    Glue(w, Pieces(h, e), 5, 3);
  }

  method WriteRest(os: ObjectOutputStream, e: LogEvent, ghost w: Bytes, ghost h: Handles)
    requires os.written == w + Concat(Pieces(h, e)[..8])
    modifies os
    ensures os.written == w + Concat(Pieces(h, e)[..16])
    ensures os.State() == Advance(old(os.State()), 2)
  {
    hide Concat, Class, AfterClass, StringObject, PackSigned, PlaceBytes, TableBytes, NestedBytes;
    ghost var q := Pieces(h, e);
    os.WriteString(e.message);
    Glue(w, q, 8, 1);
    os.WriteString(e.thread);
    Glue(w, q, 9, 1);
    os.WriteBytes([TC_NULL, TC_BLOCKDATA, 4]);
    Glue(w, q, 10, 3);
    os.WriteInt(e.level);
    Glue(w, q, 13, 1);
    os.WriteBytes([TC_NULL, TC_ENDBLOCKDATA]);
    Glue(w, q, 14, 2);
  }

  lemma {:induction false} GlueNone(w: Bytes, q: seq<Bytes>)
    ensures w + Concat(q[..0]) == w
  {
  }

  /** The next one, two or three pieces. */
  lemma {:induction false} Glue(w: Bytes, q: seq<Bytes>, k: nat, n: nat)
    requires k + n <= |q| && 1 <= n <= 3
    ensures w + Concat(q[..k + n]) == w + Concat(q[..k]) + (if n == 1 then q[k] else if n == 2 then q[k] + q[k + 1]
                                                           else q[k] + q[k + 1] + q[k + 2])
  {
    GlueOne(q, k);
    if n > 1 {
      GlueOne(q, k + 1);
    }
    if n > 2 {
      GlueOne(q, k + 2);
    }
  }

  lemma {:induction false} GlueOne(q: seq<Bytes>, k: nat)
    requires k < |q|
    ensures Concat(q[..k + 1]) == Concat(q[..k]) + q[k]
  {
    assert q[..k + 1][..k] == q[..k];
  }

  lemma {:induction false} JoinConcat(q: seq<Bytes>)
    ensures Join(q) == Concat(q)
    decreases |q|
  {
    if q != [] {
      JoinConcat(q[1..]);
      Unshift(q);
    }
  }

  lemma {:induction false} Unshift(q: seq<Bytes>)
    requires q != []
    ensures Concat(q) == q[0] + Concat(q[1..])
    decreases |q|
  {
    var m := |q| - 1;
    if m > 0 {
      Unshift(q[..m]);
      assert q[1..][..m - 1] == q[..m][1..];
    }
  }

  /** `LocationInfo::write` */
  method WritePlace(os: ObjectOutputStream, place: Option<Bytes>)
    modifies os
    ensures os.written == old(os.written) + PlaceBytes(old(os.State()), place)
    ensures os.State() == AfterPlace(old(os.State()), place)
  {
    hide StringObject, Class, AfterClass;
    if place.None? {
      os.WriteBytes([TC_NULL]);
    } else {
      os.WriteProlog(OfPlace, 2);
      os.WriteString(place.value);
    }
  }

  method WriteContexts(os: ObjectOutputStream, mdc: seq<(Bytes, Bytes)>, ndc: Option<Bytes>)
    requires |mdc| < 0x8000_0000
    modifies os
    ensures os.written == old(os.written) + TableBytes(old(os.State()), mdc) + NestedBytes(ndc)
    ensures os.State() == Advance(AfterTable(old(os.State()), mdc), if ndc.Some? then 1 else 0)
  {
    hide StringObject, TableObject, AfterClass;
    if mdc == [] {
      os.WriteBytes([TC_NULL]);
    } else {
      os.WriteTable(mdc);
    }
    if ndc.None? {
      os.WriteBytes([TC_NULL]);
    } else {
      os.WriteString(ndc.value);
    }
  }

  // ---------- reading it back ----------

  /** Strings whose length fits the two bytes it is written in. */
  predicate Fits(e: LogEvent) {
    && |e.logger| <= MAX_STRING && |e.message| <= MAX_STRING && |e.thread| <= MAX_STRING
    && (e.place.Some? ==> |e.place.value| <= MAX_STRING) && (e.ndc.Some? ==> |e.ndc.value| <= MAX_STRING)
    && FitsAll(e.mdc)
  }

  predicate FitsAll(entries: seq<(Bytes, Bytes)>) {
    |entries| < 0x8000_0000 && forall x | x in entries :: |x.0| <= MAX_STRING && |x.1| <= MAX_STRING
  }

  /** The context as a map */
  function MapOf(entries: seq<(Bytes, Bytes)>): map<Bytes, Bytes> {
    if entries == [] then map[]
    else MapOf(entries[..|entries| - 1])[entries[|entries| - 1].0 := entries[|entries| - 1].1]
  }

  /** With different keys, these entries, and no more than there are of them */
  lemma {:induction false} MapExact(entries: seq<(Bytes, Bytes)>)
    requires forall i, j :: 0 <= i < j < |entries| ==> entries[i].0 != entries[j].0
    ensures forall i :: 0 <= i < |entries| ==>
              entries[i].0 in MapOf(entries) && MapOf(entries)[entries[i].0] == entries[i].1
    ensures |MapOf(entries)| == |entries|
    decreases |entries|
  {
    if entries != [] {
      var m := |entries| - 1;
      MapExact(entries[..m]);
      assert forall i :: 0 <= i < m ==> entries[..m][i] == entries[i];
      if entries[m].0 in MapOf(entries[..m]) {
        KeyThere(entries[..m], entries[m].0);
      }
    }
  }

  lemma {:induction false} KeyThere(entries: seq<(Bytes, Bytes)>, key: Bytes)
    requires key in MapOf(entries)
    ensures exists i :: 0 <= i < |entries| && entries[i].0 == key
    decreases |entries|
  {
    var m := |entries| - 1;
    if entries[m].0 != key {
      KeyThere(entries[..m], key);
    }
  }

  function OrNone(b: Option<Bytes>): Bytes {
    if b.Some? then b.value else []
  }

  function Seen(e: LogEvent): (vals: seq<Value>)
    ensures |vals| == |DEFAULT_FIELDS|
  {
    [Nothing, Nothing, Nothing, Num(Millis(e.timeStamp)), Str(e.logger), Str(CString(OrNone(e.place))),
     Value.Table(MapOf(e.mdc)), Str(OrNone(e.ndc)),
     Str(e.message), Str(e.thread), Nothing, Nothing, Nothing, Num(e.level), Nothing, Nothing]
  }

  lemma {:induction false} ClassExact(h: Handles, c: ClassName, t: Bytes)
    ensures Prolog(Class(h, c) + t) == Done(Got((), |Class(h, c)|))
  {
    hide Descriptor, ClassDesc, Ascii, BeBytes;
    if c in h.classes {
      assert (Class(h, c) + t)[0] == TC_REFERENCE;
    } else {
      hide Prolog;
      match c
      case OfEvent => EventProlog(t);
      case OfPlace => LocationProlog(t);
      case OfTable => TableProlog(t);
    }
  }

  lemma {:induction false} TableProlog(t: Bytes)
    ensures Prolog(HASHTABLE + t) == Done(Got((), |HASHTABLE|))
  {
    hide Prolog, Descriptor, Ascii;
    DescriptorExact(Ascii("java.util.Hashtable"), [0x13, 0xBB, 0x0F, 0x25, 0x21, 0x4A, 0xE4, 0xB8, 0x03],
      [Item(0x46, Ascii("loadFactor")), Item(0x49, Ascii("threshold"))], [], t);
  }

  lemma {:induction false} ReadsClass(h: Handles)
    ensures Reads(Describes, Class(h, OfEvent), Nothing)
  {
    hide Prolog, Class;
    forall t: Bytes
      ensures Read(Describes, Class(h, OfEvent) + t) == Done(Got(Nothing, |Class(h, OfEvent)|))
    {
      ClassExact(h, OfEvent, t);
    }
  }

  lemma {:induction false} PlaceExact(h: Handles, place: Option<Bytes>, t: Bytes)
    requires place.Some? ==> |place.value| <= MAX_STRING
    ensures Location(PlaceBytes(h, place) + t) == Done(Got(CString(OrNone(place)), |PlaceBytes(h, place)|))
  {
    hide Prolog, Class, Text, StringObject, CString;
    match place
    case None => assert CString([]) == [] by { EmptyCString(); }
    case Some(b) =>
      var s, u := PlaceBytes(h, place) + t, StringObject(b) + t;
      var d := Class(h, OfPlace);
      assert s[1..] == d + u && s[1 + |d|..] == u;
      ClassExact(h, OfPlace, u);
      TextExact(b, t);
  }

  lemma {:induction false} EmptyCString()
    ensures CString([]) == []
  {
  }

  lemma {:induction false} ReadsPlaced(h: Handles, place: Option<Bytes>)
    requires place.Some? ==> |place.value| <= MAX_STRING
    ensures Reads(Place, PlaceBytes(h, place), Str(CString(OrNone(place))))
  {
    hide Location, PlaceBytes, CString, OrNone;
    forall t: Bytes
      ensures Read(Place, PlaceBytes(h, place) + t) == Done(Got(Str(CString(OrNone(place))), |PlaceBytes(h, place)|))
    {
      PlaceExact(h, place, t);
    }
  }

  lemma {:induction false} EntryExact(x: (Bytes, Bytes), t: Bytes)
    requires |x.0| <= MAX_STRING && |x.1| <= MAX_STRING
    ensures Entry((StringObject(x.0) + StringObject(x.1)) + t)
            == Done(Got(x, |StringObject(x.0)| + |StringObject(x.1)|))
  {
    hide Text, StringObject;
    var s := (StringObject(x.0) + StringObject(x.1)) + t;
    assert s == StringObject(x.0) + (StringObject(x.1) + t);
    assert s[|StringObject(x.0)|..] == StringObject(x.1) + t;
    TextExact(x.0, StringObject(x.1) + t);
    TextExact(x.1, t);
  }

  lemma {:induction false} EntryFirst(x: (Bytes, Bytes), u: Bytes, k: nat, m: map<Bytes, Bytes>)
    requires |x.0| <= MAX_STRING && |x.1| <= MAX_STRING && Wire.Entries(u, k, m[x.0 := x.1]).Done?
    ensures var first, r := StringObject(x.0) + StringObject(x.1), Wire.Entries(u, k, m[x.0 := x.1]).value;
            Wire.Entries(first + u, k + 1, m) == Done(Got(r.v, |first| + r.n))
  {
    hide Entry, StringObject;
    var first := StringObject(x.0) + StringObject(x.1);
    EntryExact(x, u);
    assert (first + u)[|first|..] == u;
  }

  lemma {:induction false} MapOne(done: seq<(Bytes, Bytes)>, x: (Bytes, Bytes))
    ensures MapOf(done + [x]) == MapOf(done)[x.0 := x.1]
  {
    assert (done + [x])[..|done|] == done;
  }

  lemma {:induction false} BytesFirst(rest: seq<(Bytes, Bytes)>, t: Bytes)
    requires rest != [] && FitsAll(rest)
    ensures var first := StringObject(rest[0].0) + StringObject(rest[0].1);
            && EntryBytes(rest) + t == first + (EntryBytes(rest[1..]) + t)
            && |EntryBytes(rest)| == |first| + |EntryBytes(rest[1..])|
    ensures FitsAll(rest[1..]) == true && |rest[0].0| <= MAX_STRING && |rest[0].1| <= MAX_STRING
  {
    hide StringObject;
    assert rest[0] in rest && forall y | y in rest[1..] :: y in rest;
  }

  lemma {:induction false} EntriesStep(done: seq<(Bytes, Bytes)>, rest: seq<(Bytes, Bytes)>, t: Bytes,
          m: map<Bytes, Bytes>)
    requires rest != [] && FitsAll(rest) == true
    requires Wire.Entries(EntryBytes(rest[1..]) + t, |rest| - 1, MapOf(done + [rest[0]]))
          == Done(Got(m, |EntryBytes(rest[1..])|))
    ensures Wire.Entries(EntryBytes(rest) + t, |rest|, MapOf(done)) == Done(Got(m, |EntryBytes(rest)|))
  {
    hide Wire.Entries, StringObject, EntryBytes, MapOf, FitsAll;
    BytesFirst(rest, t);
    MapOne(done, rest[0]);
    EntryFirst(rest[0], EntryBytes(rest[1..]) + t, |rest| - 1, MapOf(done));
  }

  /** Entries after those that have been read. */
  lemma {:induction false} EntriesExact(done: seq<(Bytes, Bytes)>, rest: seq<(Bytes, Bytes)>, t: Bytes)
    requires FitsAll(rest) == true
    ensures Wire.Entries(EntryBytes(rest) + t, |rest|, MapOf(done)) == Done(Got(MapOf(done + rest), |EntryBytes(rest)|))
    decreases |rest|
  {
    hide *;
    if rest == [] {
      EntriesEnd(done, t);
    } else {
      BytesFirst(rest, t);
      Shifted(done, rest);
      EntriesExact(done + [rest[0]], rest[1..], t);
      EntriesStep(done, rest, t, MapOf(done + rest));
    }
  }

  lemma {:induction false} EntriesEnd(done: seq<(Bytes, Bytes)>, t: Bytes)
    ensures Wire.Entries(EntryBytes([]) + t, 0, MapOf(done)) == Done(Got(MapOf(done + []), |EntryBytes([])|))
  {
    hide MapOf;
    assert done + [] == done;
  }

  lemma {:induction false} Shifted(done: seq<(Bytes, Bytes)>, rest: seq<(Bytes, Bytes)>)
    requires rest != []
    ensures (done + [rest[0]]) + rest[1..] == done + rest && |rest[1..]| == |rest| - 1
  {
  }

  lemma {:induction false} PairsExact(entries: seq<(Bytes, Bytes)>, t: Bytes)
    requires FitsAll(entries)
    ensures var b := BeBytes(|entries|, 4) + (EntryBytes(entries) + [TC_ENDBLOCKDATA]);
            Pairs(b + t) == Done(Got(MapOf(entries), |b|))
  {
    hide Wire.Entries, EntryBytes, MapOf;
    var b := BeBytes(|entries|, 4) + (EntryBytes(entries) + [TC_ENDBLOCKDATA]);
    var u := EntryBytes(entries) + ([TC_ENDBLOCKDATA] + t);
    var s := b + t;
    assert s[..4] == BeBytes(|entries|, 4) && s[4..] == u;
    BeExact(|entries|, 4);
    assert Pow256(4) == 0x1_0000_0000;
    EntriesExact([], entries, [TC_ENDBLOCKDATA] + t);
    NothingBefore(entries);
    assert s[4 + |EntryBytes(entries)|..][..1] == [TC_ENDBLOCKDATA];
  }

  lemma {:induction false} NothingBefore(entries: seq<(Bytes, Bytes)>)
    ensures [] + entries == entries && MapOf([]) == map[]
  {
  }

  lemma {:induction false} TableExact(h: Handles, mdc: seq<(Bytes, Bytes)>, t: Bytes)
    requires FitsAll(mdc)
    ensures Mdc(TableBytes(h, mdc) + t) == Done(Got(MapOf(mdc), |TableBytes(h, mdc)|))
  {
    hide Hashtable, Class, EntryBytes, BeBytes;
    if mdc != [] {
      hide Mdc;
      var b := BeBytes(|mdc|, 4) + (EntryBytes(mdc) + [TC_ENDBLOCKDATA]);
      var u := Class(h, OfTable) + (HASH_DATA + b);
      assert TableBytes(h, mdc) == [TC_OBJECT] + u;
      PairsExact(mdc, t);
      HashtableExact(h, b, MapOf(mdc), t);
      MdcObject(u, t);
    }
  }

  lemma {:induction false} MdcObject(u: Bytes, t: Bytes)
    requires Hashtable(u + t).Done?
    ensures var r := Hashtable(u + t).value; Mdc(([TC_OBJECT] + u) + t) == Done(Got(r.v, 1 + r.n))
  {
    hide Hashtable;
    assert (([TC_OBJECT] + u) + t)[1..] == u + t;
  }

  lemma {:induction false} HashtableExact(h: Handles, b: Bytes, m: map<Bytes, Bytes>, t: Bytes)
    requires Pairs(b + t) == Done(Got(m, |b|))
    ensures var d := Class(h, OfTable);
            Hashtable((d + (HASH_DATA + b)) + t) == Done(Got(m, |d| + |HASH_DATA| + |b|))
  {
    hide Prolog, Class, Pairs;
    var d, u := Class(h, OfTable), HASH_DATA + (b + t);
    var s := (d + (HASH_DATA + b)) + t;
    assert s == d + u && s[|d|..] == u;
    assert u[..|HASH_DATA|] == HASH_DATA && s[|d| + |HASH_DATA|..] == b + t;
    ClassExact(h, OfTable, u);
  }

  lemma {:induction false} ReadsTable(h: Handles, mdc: seq<(Bytes, Bytes)>)
    requires FitsAll(mdc)
    ensures Reads(Context, TableBytes(h, mdc), Value.Table(MapOf(mdc)))
  {
    hide Mdc, TableBytes, MapOf;
    forall t: Bytes
      ensures Read(Context, TableBytes(h, mdc) + t) == Done(Got(Value.Table(MapOf(mdc)), |TableBytes(h, mdc)|))
    {
      TableExact(h, mdc, t);
    }
  }

  lemma {:induction false} ReadsNested(ndc: Option<Bytes>)
    requires ndc.Some? ==> |ndc.value| <= MAX_STRING
    ensures Reads(Nested, NestedBytes(ndc), Str(OrNone(ndc)))
  {
    forall t: Bytes
      ensures Read(Nested, NestedBytes(ndc) + t) == Done(Got(Str(OrNone(ndc)), |NestedBytes(ndc)|))
    {
      if ndc.Some? {
        NestedExact(ndc.value, t);
      }
    }
  }

  lemma {:induction false} NestedExact(b: Bytes, t: Bytes)
    requires |b| <= MAX_STRING
    ensures Ndc(StringObject(b) + t) == Done(Got(b, |StringObject(b)|))
  {
    hide Counted;
    var s := StringObject(b) + t;
    assert s[1..] == BeBytes(|b|, 2) + (b + t);
    assert Pow256(2) == 65536;
    CountedExact(b, 2, t);
  }

  lemma {:induction false} ReadsPacked(v: int, k: nat)
    requires (k == 4 && -0x8000_0000 <= v < 0x8000_0000)
          || (k == 8 && -0x8000_0000_0000_0000 <= v < 0x8000_0000_0000_0000)
    ensures Reads(Number(k), PackSigned(v, k), Num(v))
  {
    hide Reads, BeBytes;
    assert Pow256(4) == 0x1_0000_0000 && Pow256(8) == 0x1_0000_0000_0000_0000;
    ReadsNumber(if v < 0 then v + Pow256(k) else v, k);
  }

  /** The handles with which an event is written, and its bytes; a reset forgets all that has been written. */
  datatype Sent = Sent(reset: bool, event: LogEvent)

  function Before(h: Handles, x: Sent): Handles {
    if x.reset then FRESH else h
  }

  function SentBytes(h: Handles, x: Sent): Bytes {
    Reset(x.reset) + Join(Pieces(Before(h, x), x.event))
  }

  function SentPieces(h: Handles, x: Sent): (pieces: seq<Bytes>)
    ensures |pieces| == |DEFAULT_FIELDS|
  {
    Pieces(Before(h, x), x.event)[0 := Reset(x.reset) + [TC_OBJECT]]
  }

  lemma {:induction false} SentJoin(h: Handles, x: Sent)
    ensures Join(SentPieces(h, x)) == SentBytes(h, x)
  {
    hide Reset, Class, StringObject, PlaceBytes, TableBytes, NestedBytes, PackSigned, Join;
    var q := Pieces(Before(h, x), x.event);
    assert SentPieces(h, x)[1..] == q[1..];
    JoinFirst(q);
    JoinFirst(SentPieces(h, x));
  }

  lemma {:induction false} JoinFirst(q: seq<Bytes>)
    requires q != []
    ensures Join(q) == q[0] + Join(q[1..])
  {
  }

  lemma {:induction false} PieceReads(h: Handles, x: Sent, i: nat)
    requires Fits(x.event) && i < |DEFAULT_FIELDS|
    ensures Reads(DEFAULT_FIELDS[i], SentPieces(h, x)[i], Seen(x.event)[i])
  {
    hide Reads, CString, Reset, Class, StringObject, PlaceBytes, TableBytes, NestedBytes, PackSigned, MapOf, FitsAll,
      OrNone;
    var h0, e := Before(h, x), x.event;
    ReadsOpens(x.reset);
    ReadsClass(h0);
    ReadsFixed([0, 0]);
    ReadsFixed([TC_NULL]);
    ReadsFixed([TC_BLOCKDATA]);
    ReadsFixed([4]);
    ReadsFixed([TC_ENDBLOCKDATA]);
    ReadsPacked(Millis(e.timeStamp), 8);
    ReadsPacked(e.level, 4);
    ReadsString(e.logger);
    ReadsString(e.message);
    ReadsString(e.thread);
    ReadsPlaced(AtPlace(h0), e.place);
    ReadsTable(AtTable(h0, e), e.mdc);
    ReadsNested(e.ndc);
  }

  /** One event makes the round trip, whichever of its parts are there, whichever descriptors have been written before,
      with or without a reset, and with any bytes following. */
  lemma {:induction false} SenderRoundTrip(h: Handles, x: Sent, t: Bytes)
    requires Fits(x.event)
    ensures AllAt(DEFAULT_FIELDS, SentBytes(h, x) + t, 0) == Done(Got(Seen(x.event), |SentBytes(h, x)|))
    ensures ParseDefault(SentBytes(h, x) + t) == Done(Got(DefaultEvent(Seen(x.event)), |SentBytes(h, x)|))
  {
    hide Reads, Join, ReadAll, AllAt, DefaultEvent, SentPieces, Seen, SentBytes;
    forall i | 0 <= i < |DEFAULT_FIELDS|
      ensures Reads(DEFAULT_FIELDS[i], SentPieces(h, x)[i], Seen(x.event)[i])
    {
      PieceReads(h, x, i);
    }
    AllRead(DEFAULT_FIELDS, SentPieces(h, x), Seen(x.event), t);
    SentJoin(h, x);
    DefaultForward(SentBytes(h, x) + t);
  }

  /** What the sender means by an event. */
  function Meant(e: LogEvent): Event {
    Event(e.logger, e.level, e.message, e.timeStamp, e.thread, [OrNone(e.place)])
  }

  /** An event arrives as it was meant if and only if its location has no NUL in it and its time is a whole number of
      milliseconds. */
  lemma {:induction false} SenderFaithful(e: LogEvent)
    ensures DefaultEvent(Seen(e)) == Meant(e) <==> 0 !in OrNone(e.place) && e.timeStamp % 1000 == 0
  {
    hide CString, OrNone, Wrap64;
    CStringIs(OrNone(e.place));
    MillisWhole(e.timeStamp);
  }

  lemma {:induction false} MillisWhole(t: int64)
    ensures Wrap64(Millis(t) * 1000) == t <==> t % 1000 == 0
  {
    var v := Millis(t) * 1000;
    assert Pow256(8) == 0x1_0000_0000_0000_0000;
    assert -0x8000_0000_0000_0000 <= v < 0x8000_0000_0000_0000;
    assert v >= 0 ==> v % Pow256(8) == v;
    assert v < 0 ==> v % Pow256(8) == v + Pow256(8);
  }

  /** A string that is too long for its two length bytes arrives cut to the residue of its length. */
  lemma {:induction false} LongStringCut(b: Bytes, t: Bytes)
    requires |b| > MAX_STRING
    ensures Text(StringObject(b) + t) == Done(Got(b[..|b| % 65536], 3 + |b| % 65536))
  {
    hide Text, BeBytes;
    var n := |b| % 65536;
    TwoBytes(|b|);
    var u := b[n..] + t;
    assert b == b[..n] + b[n..];
    assert StringObject(b) + t == StringObject(b[..n]) + u;
    TextExact(b[..n], u);
  }

  lemma {:induction false} TwoBytes(v: nat)
    ensures BeBytes(v, 2) == BeBytes(v % 65536, 2)
  {
    var n, q := v % 65536, v / 65536;
    assert v / 256 == 256 * q + n / 256;
    assert BeBytes(v, 2) == BeBytes(v / 256, 1) + [v % 256] && BeBytes(n, 2) == BeBytes(n / 256, 1) + [n % 256];
    assert BeBytes(v / 256, 1) == [v / 256 % 256] && BeBytes(n / 256, 1) == [n / 256 % 256];
  }

  // ---------- streams of events ----------

  function Stream(h: Handles, xs: seq<Sent>): Bytes
    decreases |xs|
  {
    if xs == [] then [] else SentBytes(h, xs[0]) + Stream(After(Before(h, xs[0]), xs[0].event), xs[1..])
  }

  function Events(xs: seq<Sent>): seq<Event> {
    if xs == [] then [] else [DefaultEvent(Seen(xs[0].event))] + Events(xs[1..])
  }

  lemma {:induction false} SenderDrains(h: Handles, xs: seq<Sent>)
    requires Restartable(ParseDefault) && forall x | x in xs :: Fits(x.event)
    ensures Drain(ParseDefault, Stream(h, xs)) == Drained(Events(xs), [], Open)
    decreases |xs|
  {
    hide ParseDefault, DefaultEvent, Seen, SentBytes, Fits, Restartable, AllAt, After, Before;
    if xs != [] {
      var h' := After(Before(h, xs[0]), xs[0].event);
      var s, rest := Stream(h, xs), Stream(h', xs[1..]);
      SenderRoundTrip(h, xs[0], rest);
      SentSome(h, xs[0]);
      assert s[|SentBytes(h, xs[0])|..] == rest;
      SenderDrains(h', xs[1..]);
    }
  }

  lemma {:induction false} SentSome(h: Handles, x: Sent)
    ensures SentBytes(h, x) != []
  {
  }

  /** Whatever events are sent, however the stream is cut up on its way: exactly these come out, in order, and nothing
      is left over. */
  lemma {:induction false} SenderDelivered(xs: seq<Sent>, chunks: seq<Bytes>, msgpack: Parser)
    requires Restartable(msgpack) && (forall x | x in xs :: Fits(x.event))
    requires chunks != [] && Concat(chunks) == DEFAULT_START + Stream(FRESH, xs)
    ensures AllRestartable(Loaders(msgpack))
    ensures Calls(Loaders(msgpack), Conn(None, []), chunks) == Called(Conn(Some(Default), []), Events(xs), Open)
  {
    hide Stream, Events, Restartable, Calls, Concat;
    LoadersRestartable(msgpack);
    DefaultRestartable();
    SenderDrains(FRESH, xs);
    var s := Concat(chunks);
    assert [] + s == s && s[..4] == DEFAULT_START && s[4..] == Stream(FRESH, xs);
    ChunksDoNotMatter(Loaders(msgpack), Conn(None, []), chunks);
  }
}
