/** The readers over a byte buffer, with their cursors and loops.

    They check the buffer's size only where they copy bytes out of it: what they pass over may
    lie beyond its end, and the next read finds out.  Wherever `readProlog` takes part, a reader
    is asked for a result only if it comes to one within its buffer, and results are absolute
    positions. */
module WireBuffer {
  import opened Basics
  import opened Wire
  import opened WireCursor
  import opened WireExact

  // ---------- numbers and strings ----------

  method ReadByte(byteBuf: Bytes, pos: int) returns (r: Parsed<Got<byte>>)
    requires ByteAt(byteBuf, pos) != Outside
    ensures match ByteAt(byteBuf, pos) case Done(x) => r == Done(Got(x, 1)) case _ => r == Small
    ensures pos >= 0 ==> r == U8(From(byteBuf, pos)) && (r.Done? ==> pos < |byteBuf|)
  {
    if TooFar(pos, 1, |byteBuf|) {
      return Small;
    }
    return Done(Got(byteBuf[pos], 1));
  }

  method ReadBytes(byteBuf: Bytes, pos: nat, bytes: nat) returns (r: Parsed<Got<Bytes>>)
    requires bytes > 0
    ensures r == Take(From(byteBuf, pos), bytes)
  {
    if pos + bytes > |byteBuf| {
      return Small;
    }
    assert byteBuf[pos..][..bytes] == byteBuf[pos..pos + bytes];
    return Done(Got(byteBuf[pos..pos + bytes], bytes));
  }

  function Reversed(s: Bytes): (r: Bytes)
    ensures |r| == |s|
  {
    if s == [] then [] else Reversed(s[1..]) + [s[0]]
  }

  /** Reversing the bytes is what turns one order into the other. */
  lemma {:induction false} LeBe(s: Bytes)
    ensures LeValue(Reversed(s)) == BeValue(s)
  {
    if s != [] {
      var m := |s| - 1;
      ReversedEnd(s);
      LeBe(s[..m]);
    }
  }

  lemma {:induction false} ReversedEnd(s: Bytes)
    requires s != []
    ensures Reversed(s) == [s[|s| - 1]] + Reversed(s[..|s| - 1])
  {
    if |s| == 1 {
      assert s[1..] == [] && s[..0] == [];
    } else {
      var m := |s| - 1;
      ReversedEnd(s[1..]);
      assert s[1..][..m - 1] == s[..m][1..];
    }
  }

  /** `readShort`: the two bytes are swapped. */
  method ReadShort(byteBuf: Bytes, pos: int) returns (r: Parsed<Got<int>>)
    requires ShortAt(byteBuf, pos) != Outside
    ensures match ShortAt(byteBuf, pos) case Done(x) => r == Done(Got(x, 2)) case _ => r == Small
    ensures pos >= 0 ==> r == Integer(From(byteBuf, pos), 2)
  {
    if TooFar(pos, 2, |byteBuf|) {
      return Small;
    }
    var bytes := new byte[2][byteBuf[pos], byteBuf[pos + 1]];
    bytes[0], bytes[1] := bytes[1], bytes[0];
    assert byteBuf[pos..][..2] == [byteBuf[pos], byteBuf[pos + 1]] == byteBuf[pos..pos + 2];
    assert bytes[..] == [byteBuf[pos + 1], byteBuf[pos]];
    Two(bytes[1], bytes[0]);
    return Done(Got(Signed(LeValue(bytes[..]), 2), 2));
  }

  lemma {:induction false} Two(a: byte, b: byte)
    ensures LeValue([b, a]) == BeValue([a, b])
  {
    LeBe([a, b]);
    assert [a, b][1..] == [b] && [b][1..] == [];
    assert Reversed([a, b]) == [b, a];
  }

  /** Byte `i` of a number, the lowest first: `(value >> 8 * i) & 0xFF`. */
  function ByteOf(value: nat, i: nat): byte
    decreases i
  {
    if i == 0 then value % 256 else ByteOf(value / 256, i - 1)
  }

  lemma {:induction false} ByteOfLe(s: Bytes, i: nat)
    requires i < |s|
    ensures ByteOf(LeValue(s), i) == s[i]
  {
    assert LeValue(s) == s[0] + 256 * LeValue(s[1..]);
    if i > 0 {
      ByteOfLe(s[1..], i - 1);
    }
  }

  /** `readInt` and `readLong`: the bytes are taken for a number, and written back in the opposite order. */
  method ReadNumber(byteBuf: Bytes, pos: int, size: nat) returns (r: Parsed<Got<nat>>)
    requires (size == 4 || size == 8) && ReadAt(byteBuf, pos, size) != Outside
    ensures if ReadAt(byteBuf, pos, size).Done? then r.Done? else r == Small
    ensures pos >= 0 ==> r == Unsigned(From(byteBuf, pos), size)
  {
    if TooFar(pos, size, |byteBuf|) {
      return Small;
    }
    var raw := byteBuf[pos..pos + size];
    assert byteBuf[pos..][..size] == raw;
    var value := LeValue(raw);
    var bytes := new byte[size](_ => 0);
    var i := size;
    while i > 0
      invariant 0 <= i <= size
      invariant forall k :: i <= k < size ==> bytes[k] == raw[size - 1 - k]
    {
      i := i - 1;
      ByteOfLe(raw, size - 1 - i);
      bytes[i] := ByteOf(value, size - 1 - i);
    }
    ReversedAt(raw, bytes[..]);
    LeBe(raw);
    return Done(Got(LeValue(bytes[..]), size));
  }

  lemma {:induction false} ReversedAt(s: Bytes, r: Bytes)
    requires |r| == |s| && forall k :: 0 <= k < |s| ==> r[k] == s[|s| - 1 - k]
    ensures r == Reversed(s)
  {
    if s != [] {
      ReversedAt(s[1..], r[..|r| - 1]);
      assert r == r[..|r| - 1] + [s[0]];
    }
  }

  method ReadSigned(byteBuf: Bytes, pos: nat, size: nat) returns (r: Parsed<Got<int>>)
    requires size == 4 || size == 8
    ensures r == Integer(From(byteBuf, pos), size)
  {
    var x :- ReadNumber(byteBuf, pos, size);
    return Done(Got(Signed(x.v, size), x.n));
  }

  /** The length and the bytes of `readUTFString` and `readLogString`; the length field takes 2 bytes in one protocol, 4
      in the other. */
  method ReadCounted(byteBuf: Bytes, pos: nat, size: nat) returns (r: Parsed<Got<Bytes>>)
    requires size == 2 || size == 4
    ensures r == Counted(From(byteBuf, pos), size)
  {
    var readPos: nat := 0;
    var dataLen: nat;
    if size == 2 {
      if pos + 2 > |byteBuf| {
        return Small;
      }
      Two(byteBuf[pos], byteBuf[pos + 1]);
      assert byteBuf[pos..][..2] == [byteBuf[pos], byteBuf[pos + 1]];
      dataLen := LeValue([byteBuf[pos + 1], byteBuf[pos]]);
    } else {
      var x :- ReadNumber(byteBuf, pos, 4);
      dataLen := x.v;
    }
    readPos := readPos + size;
    FromFrom(byteBuf, pos, size);
    if pos + readPos + dataLen > |byteBuf| {
      return Small;
    }
    var data := byteBuf[pos + readPos..pos + readPos + dataLen];
    assert From(byteBuf, pos + size)[..dataLen] == data;
    return Done(Got(data, readPos + dataLen));
  }

  /** `readLogString` with its tag */
  method ReadText(byteBuf: Bytes, pos: nat) returns (r: Parsed<Got<Bytes>>)
    ensures r == Text(From(byteBuf, pos))
  {
    var typeClass :- ReadByte(byteBuf, pos);
    if typeClass.v != TC_STRING {
      return Invalid;
    }
    FromFrom(byteBuf, pos, 1);
    var x :- ReadCounted(byteBuf, pos + 1, 2);
    return Done(Got(x.v, 1 + x.n));
  }

  /** The end of `readUTFString`: the bytes, with a 0 at the end, assigned to a `std::string`. */
  method CutAtNul(data: Bytes) returns (value: Bytes)
    ensures value == CString(data)
  {
    var i := 0;
    while i < |data| && data[i] != 0
      invariant 0 <= i <= |data|
      invariant CString(data) == data[..i] + CString(data[i..])
    {
      assert data[i..][1..] == data[i + 1..] && data[..i + 1] == data[..i] + [data[i]];
      i := i + 1;
    }
    return data[..i];
  }

  method ReadExactly(byteBuf: Bytes, pos: nat, want: Bytes) returns (r: Parsed<Got<Bytes>>)
    requires want != []
    ensures r == Exactly(From(byteBuf, pos), want)
  {
    var x :- ReadBytes(byteBuf, pos, |want|);
    if x.v != want {
      return Invalid;
    }
    return Done(x);
  }

  // ---------- readProlog ----------

  /** The counted loop: type code, length and name of each field are passed over. */
  method ReadFields(byteBuf: Bytes, pos: int, fieldLen: int) returns (r: Parsed<int>)
    requires !FieldsAt(byteBuf, pos, fieldLen).Astray()
    ensures r == FieldsAt(byteBuf, pos, fieldLen)
  {
    hide ShortAt;
    var readPos := pos;
    var i := 0;
    while i < fieldLen
      invariant 0 <= i && (i <= fieldLen || i == 0)
      invariant FieldsAt(byteBuf, pos, fieldLen) == FieldsAt(byteBuf, readPos, fieldLen - i)
    {
      readPos := readPos + 1;
      var dataLen :- ReadShort(byteBuf, readPos);
      readPos := readPos + 2;
      readPos := readPos + dataLen.v;
      i := i + 1;
    }
    return Done(readPos);
  }

  /** The tag loop, which ends because it is not one that goes round in circles. */
  method ReadTags(byteBuf: Bytes, pos: int) returns (r: Parsed<int>)
    requires !TagLoop(byteBuf, pos).Astray()
    ensures r == TagLoop(byteBuf, pos)
  {
    hide ByteAt, ShortAt, ReadAt;
    var readPos := pos;
    ghost var more: nat := |byteBuf|;
    while true
      invariant Run(byteBuf, readPos, more) == TagLoop(byteBuf, pos)
      decreases more
    {
      ghost var hop := Round(byteBuf, readPos);
      var typeClass :- ReadByte(byteBuf, readPos);
      readPos := readPos + 1;
      if typeClass.v == TC_ENDBLOCKDATA {
        return Done(readPos);
      } else if typeClass.v == TC_REFERENCE {
        var val :- ReadNumber(byteBuf, readPos, 4);
        readPos := readPos + 4;
      } else if typeClass.v == FIELD_OBJECT || typeClass.v == TC_STRING {
        var dataLen :- ReadShort(byteBuf, readPos);
        readPos := readPos + 2;
        readPos := readPos + dataLen.v;
      } else {
        return Invalid;
      }
      assert hop == Done(On(readPos)) && more > 0;
      more := more - 1;
    }
  }

  /** The tags, and no super class after them */
  method ReadEnding(byteBuf: Bytes, pos: int) returns (r: Parsed<int>)
    requires !EndingAt(byteBuf, pos).Astray()
    ensures r == EndingAt(byteBuf, pos)
  {
    hide TagLoop, ByteAt;
    var readPos :- ReadTags(byteBuf, pos);
    var typeClass :- ReadByte(byteBuf, readPos);
    if typeClass.v != TC_NULL {
      return Invalid;
    }
    return Done(readPos + 1);
  }

  method ReadClassDesc(byteBuf: Bytes, pos: int) returns (r: Parsed<int>)
    requires !ClassDescAt(byteBuf, pos).Astray()
    ensures r == ClassDescAt(byteBuf, pos)
  {
    hide ShortAt, FieldsAt, EndingAt;
    var readPos := pos;
    var dataLen :- ReadShort(byteBuf, readPos);
    readPos := readPos + 2;
    readPos := readPos + dataLen.v;
    readPos := readPos + 8;
    readPos := readPos + 1;
    var fieldLen :- ReadShort(byteBuf, readPos);
    readPos := readPos + 2;
    var fields :- ReadFields(byteBuf, readPos, fieldLen.v);
    readPos := fields;
    r := ReadEnding(byteBuf, readPos);
  }

  /** `readProlog` */
  method ReadProlog(byteBuf: Bytes, pos: int) returns (r: Parsed<int>)
    requires !PrologAt(byteBuf, pos).Astray()
    ensures r == PrologAt(byteBuf, pos)
  {
    hide ByteAt, ReadAt, ClassDescAt;
    var typeClass :- ReadByte(byteBuf, pos);
    if typeClass.v == TC_CLASSDESC {
      r := ReadClassDesc(byteBuf, pos + 1);
    } else if typeClass.v == TC_REFERENCE {
      var val :- ReadNumber(byteBuf, pos + 1, 4);
      return Done(pos + 5);
    } else {
      return Invalid;
    }
  }

  // ---------- the other parts of an event ----------

  /** `readLocationInfo` */
  method ReadLocationInfo(byteBuf: Bytes, pos: nat) returns (r: Parsed<Got<Bytes>>)
    requires !LocationAt(byteBuf, pos).Astray()
    ensures r == LocationAt(byteBuf, pos)
  {
    hide PrologAt, Text, CString;
    var typeClass :- ReadByte(byteBuf, pos);
    if typeClass.v == TC_NULL {
      return Done(Got([], pos + 1));
    } else if typeClass.v == TC_OBJECT {
      var readPos :- ReadProlog(byteBuf, pos + 1);
      var y :- ReadText(byteBuf, readPos);
      var fullInfo := CutAtNul(y.v);
      return Done(Got(fullInfo, readPos + y.n));
    } else {
      return Invalid;
    }
  }

  method ReadEntry(byteBuf: Bytes, pos: nat) returns (r: Parsed<Got<(Bytes, Bytes)>>)
    ensures r == Entry(From(byteBuf, pos))
  {
    hide Text;
    var first :- ReadText(byteBuf, pos);
    FromFrom(byteBuf, pos, first.n);
    var second :- ReadText(byteBuf, pos + first.n);
    return Done(Got((first.v, second.v), first.n + second.n));
  }

  lemma {:induction false} EntriesStep(s: Bytes, count: int, m: map<Bytes, Bytes>, n: nat)
    ensures count <= 0 ==> Shift(n, Entries(s, count, m)) == Done(Got(m, n))
    ensures count > 0 ==>
            match Entry(s)
            case Done(e) => Shift(n, Entries(s, count, m))
                         == Shift(n + e.n, Entries(From(s, e.n), count - 1, m[e.v.0 := e.v.1]))
            case f => Shift(n, Entries(s, count, m)) == f.PropagateFailure()
  {
    hide Entry;
  }

  /** The loop of `readObject` */
  method ReadEntries(byteBuf: Bytes, pos: nat, mapSize: int) returns (r: Parsed<Got<map<Bytes, Bytes>>>)
    ensures r == Entries(From(byteBuf, pos), mapSize, map[])
  {
    hide Entry, From, Entries, Shift;
    var value: map<Bytes, Bytes> := map[];
    var readPos: nat := 0;
    var i: int := 0;
    ghost var all := Entries(From(byteBuf, pos), mapSize, map[]);
    ShiftZero(all);
    while i < mapSize
      invariant 0 <= i && (i <= mapSize || i == 0)
      invariant all == Shift(readPos, Entries(From(byteBuf, pos + readPos), mapSize - i, value))
    {
      EntriesStep(From(byteBuf, pos + readPos), mapSize - i, value, readPos);
      var entry :- ReadEntry(byteBuf, pos + readPos);
      FromFrom(byteBuf, pos + readPos, entry.n);
      value := value[entry.v.0 := entry.v.1];
      readPos := readPos + entry.n;
      i := i + 1;
    }
    EntriesStep(From(byteBuf, pos + readPos), mapSize - i, value, readPos);
    return Done(Got(value, readPos));
  }

  /** The entries of `readObject` and what stands around them */
  method ReadPairs(byteBuf: Bytes, pos: nat) returns (r: Parsed<Got<map<Bytes, Bytes>>>)
    ensures r == Pairs(From(byteBuf, pos))
  {
    hide Entries, Exactly, Integer;
    var readPos: nat := 0;
    var mapSize :- ReadSigned(byteBuf, pos, 4);
    FromFrom(byteBuf, pos, 4);
    readPos := readPos + 4;
    var entries :- ReadEntries(byteBuf, pos + readPos, mapSize.v);
    FromFrom(byteBuf, pos, 4 + entries.n);
    readPos := readPos + entries.n;
    var end :- ReadExactly(byteBuf, pos + readPos, [TC_ENDBLOCKDATA]);
    return Done(Got(entries.v, readPos + 1));
  }

  /** `readObject`, whose tag `readMDC` has read */
  method ReadObject(byteBuf: Bytes, pos: nat) returns (r: Parsed<Got<map<Bytes, Bytes>>>)
    requires !HashtableAt(byteBuf, pos).Astray()
    ensures r == HashtableAt(byteBuf, pos)
  {
    hide PrologAt, Pairs, Exactly;
    var readPos :- ReadProlog(byteBuf, pos);
    var data :- ReadExactly(byteBuf, readPos, HASH_DATA);
    readPos := readPos + data.n;
    var x :- ReadPairs(byteBuf, readPos);
    return Done(Got(x.v, readPos + x.n));
  }

  /** `readMDC` */
  method ReadMDC(byteBuf: Bytes, pos: nat) returns (r: Parsed<Got<map<Bytes, Bytes>>>)
    requires !MdcAt(byteBuf, pos).Astray()
    ensures r == MdcAt(byteBuf, pos)
  {
    hide HashtableAt;
    var typeClass :- ReadByte(byteBuf, pos);
    if typeClass.v == TC_NULL {
      return Done(Got(map[], pos + 1));
    } else if typeClass.v == TC_OBJECT {
      r := ReadObject(byteBuf, pos + 1);
    } else {
      return Invalid;
    }
  }

  /** `readNDC`, which takes no bytes where it does not know the tag */
  method ReadNDC(byteBuf: Bytes, pos: nat) returns (r: Parsed<Got<Bytes>>)
    ensures r == Ndc(From(byteBuf, pos))
  {
    hide Counted;
    var typeClass :- ReadByte(byteBuf, pos);
    if typeClass.v == TC_NULL {
      return Done(Got([], 1));
    } else if typeClass.v == TC_STRING {
      FromFrom(byteBuf, pos, 1);
      var x :- ReadCounted(byteBuf, pos + 1, 2);
      return Done(Got(x.v, 1 + x.n));
    } else {
      return Done(Got([], 0));
    }
  }

  /** The start of `Default::createLoggingEvent` */
  method ReadOpening(byteBuf: Bytes, pos: nat) returns (r: Parsed<Got<()>>)
    ensures r == Opening(From(byteBuf, pos))
  {
    var typeClass :- ReadByte(byteBuf, pos);
    if typeClass.v != TC_RESET && typeClass.v != TC_OBJECT {
      return Invalid;
    }
    var size := 1;
    if typeClass.v == TC_RESET {
      FromFrom(byteBuf, pos, 1);
      var next :- ReadByte(byteBuf, pos + size);
      if next.v != TC_OBJECT {
        return Invalid;
      }
      size := size + 1;
    }
    return Done(Got((), size));
  }
}
