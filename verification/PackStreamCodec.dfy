/** The in-place encoder and the looping decoder, tied to `Encode` and `Decode`. */
module PackStreamCodec {
  import opened Bytes
  import opened PackStream

  /** A growing byte buffer; every encoder appends to it. */
  class BytesMut {
    var bytes: seq<byte>

    constructor ()
      ensures bytes == []
    {
      bytes := [];
    }

    method Put(s: seq<byte>)
      modifies this
      ensures bytes == old(bytes) + s
    {
      bytes := bytes + s;
    }

    /** A marker byte, then its operand. */
    method PutMarked(marker: byte, operand: seq<byte>)
      modifies this
      ensures bytes == old(bytes) + ([marker] + operand)
    {
      Put([marker]);
      Put(operand);
    }

    method Clear()
      modifies this
      ensures bytes == []
    {
      bytes := [];
    }
  }

  method EncodeIntInto(buf: BytesMut, value: i64)
    modifies buf
    ensures buf.bytes == old(buf.bytes) + EncodeInt(value)
  {
    if -16 <= value <= 127 {
      buf.Put([value % 256]);
    } else if -0x80 <= value < 0x80 {
      buf.PutMarked(0xC8, BigEndian(1, value));
    } else if -0x8000 <= value < 0x8000 {
      buf.PutMarked(0xC9, BigEndian(2, value));
    } else if -0x8000_0000 <= value < 0x8000_0000 {
      buf.PutMarked(0xCA, BigEndian(4, value));
    } else {
      buf.PutMarked(0xCB, BigEndian(8, value));
    }
  }

  method EncodeTinyLengthInto(buf: BytesMut, tiny: byte, marker: byte, n: nat)
    requires tiny <= 0xA0 && marker <= 0xD8
    modifies buf
    ensures buf.bytes == old(buf.bytes) + EncodeTinyLength(tiny, marker, n)
  {
    if n <= 15 {
      buf.Put([tiny + n]);
    } else if n <= 255 {
      buf.PutMarked(marker, BigEndian(1, n));
    } else if n <= 65535 {
      buf.PutMarked(marker + 1, BigEndian(2, n));
    } else {
      buf.PutMarked(marker + 2, BigEndian(4, n));
    }
  }

  method EncodeStringInto(buf: BytesMut, text: Utf8)
    modifies buf
    ensures buf.bytes == old(buf.bytes) + EncodeString(text)
  {
    EncodeTinyLengthInto(buf, 0x80, 0xD0, |text|);
    buf.Put(text);
  }

  method EncodeBytesInto(buf: BytesMut, data: seq<byte>)
    modifies buf
    ensures buf.bytes == old(buf.bytes) + Encode(PackStream.Bytes(data))
  {
    if |data| <= 255 {
      buf.PutMarked(0xCC, BigEndian(1, |data|));
    } else if |data| <= 65535 {
      buf.PutMarked(0xCD, BigEndian(2, |data|));
    } else {
      buf.PutMarked(0xCE, BigEndian(4, |data|));
    }
    buf.Put(data);
  }

  method EncodeStructHeaderInto(buf: BytesMut, n: nat, signature: byte)
    modifies buf
    ensures buf.bytes == old(buf.bytes) + EncodeStructHeader(n, signature)
  {
    if n <= 15 {
      buf.Put([0xB0 + n]);
    } else if n <= 255 {
      buf.PutMarked(0xDC, BigEndian(1, n));
    } else {
      buf.PutMarked(0xDD, BigEndian(2, n));
    }
    buf.Put([signature]);
  }

  method EncodeDateTimeInto(buf: BytesMut, seconds: i64, nanoseconds: i64, offsetSeconds: i64)
    modifies buf
    ensures buf.bytes == old(buf.bytes) + Encode(DateTime(seconds, nanoseconds, offsetSeconds))
  {
    hide EncodeInt, EncodeStructHeader;
    EncodeStructHeaderInto(buf, 3, DATETIME);
    EncodeIntInto(buf, seconds);
    EncodeIntInto(buf, nanoseconds);
    EncodeIntInto(buf, offsetSeconds);
  }

  method EncodeLocalDateTimeInto(buf: BytesMut, seconds: i64, nanoseconds: i64)
    modifies buf
    ensures buf.bytes == old(buf.bytes) + Encode(LocalDateTime(seconds, nanoseconds))
  {
    hide EncodeInt, EncodeStructHeader;
    EncodeStructHeaderInto(buf, 2, LOCAL_DATETIME);
    EncodeIntInto(buf, seconds);
    EncodeIntInto(buf, nanoseconds);
  }

  method EncodeValueInto(buf: BytesMut, value: Value)
    modifies buf
    ensures buf.bytes == old(buf.bytes) + Encode(value)
    decreases value, 1
  {
    hide EncodeInt, EncodeTinyLength, EncodeLength, EncodeStructHeader, EncodeString, EncodeAll, EncodeEntries;
    match value
    case Null => buf.Put([0xC0]);
    case Bool(b) => buf.Put([if b then 0xC3 else 0xC2]);
    case Integer(i) => EncodeIntInto(buf, i);
    case Float(bits) =>
      buf.PutMarked(0xC1, BigEndian(8, bits));
    case Bytes(data) => EncodeBytesInto(buf, data);
    case String(text) => EncodeStringInto(buf, text);
    case List(items) =>
      EncodeTinyLengthInto(buf, 0x90, 0xD4, |items|);
      EncodeItemsInto(buf, items);
    case Map(entries) =>
      EncodeTinyLengthInto(buf, 0xA0, 0xD8, |entries|);
      EncodeEntriesInto(buf, entries);
    case DateTime(s, n, o) => EncodeDateTimeInto(buf, s, n, o);
    case LocalDateTime(s, n) => EncodeLocalDateTimeInto(buf, s, n);
    case Struct(signature, fields) =>
      EncodeStructHeaderInto(buf, |fields|, signature);
      EncodeItemsInto(buf, fields);
  }

  method EncodeItemsInto(buf: BytesMut, items: seq<Value>)
    modifies buf
    ensures buf.bytes == old(buf.bytes) + EncodeAll(items)
    decreases items, 0
  {
    hide Encode;
    for i := 0 to |items|
      invariant old(buf.bytes) + EncodeAll(items) == buf.bytes + EncodeAll(items[i..])
    {
      EncodeValueInto(buf, items[i]);
      assert items[i..][1..] == items[i + 1..];
    }
  }

  method EncodeEntriesInto(buf: BytesMut, entries: seq<Entry>)
    modifies buf
    ensures buf.bytes == old(buf.bytes) + EncodeEntries(entries)
    decreases entries, 0
  {
    hide Encode, EncodeString;
    for i := 0 to |entries|
      invariant old(buf.bytes) + EncodeEntries(entries) == buf.bytes + EncodeEntries(entries[i..])
    {
      EncodeStringInto(buf, entries[i].key);
      EncodeValueInto(buf, entries[i].value);
      assert entries[i..][1..] == entries[i + 1..];
    }
  }

  // ---------- Decoding ----------

  method DecodeValue(data: seq<byte>) returns (o: Outcome<Value>)
    ensures o == Decode(data)
    decreases |data|, 1
  {
    hide ReadHead, DecodeAll, DecodeEntries;
    var h := ReadHead(data);
    if h.Failed? {
      return Failed(h.error);
    }
    var k := h.consumed;
    match h.value
    case NullHead => return Done(Null, k);
    case BoolHead(b) => return Done(Bool(b), k);
    case IntHead(i) => return Done(Integer(i), k);
    case FloatHead(bits) => return Done(Float(bits), k);
    case BytesHead(n) =>
      if |data| < k + n {
        return Failed(Truncated);
      }
      return Done(PackStream.Bytes(data[k..k + n]), k + n);
    case StringHead(n) =>
      if |data| < k + n {
        return Failed(Truncated);
      }
      if !ValidUtf8(data[k..k + n]) {
        return Failed(InvalidUtf8);
      }
      return Done(String(data[k..k + n]), k + n);
    case ListHead(n) => o := DecodeListBody(data, k, n);
    case MapHead(n) => o := DecodeMapBody(data, k, n);
    case StructHead(n, signature) => o := DecodeStructBody(data, k, n, signature);
  }

  /** What is left to read when `items` have been read and `pos` reached. */
  ghost function ItemsFrom(data: seq<byte>, pos: nat, left: nat, items: seq<Value>, offset: nat): Outcome<seq<Value>>
    requires offset <= pos <= |data|
  {
    match DecodeAll(data[pos..], left)
    case Failed(e) => Failed(e)
    case Done(vs, c) => Done(items + vs, pos - offset + c)
  }

  method DecodeItems(data: seq<byte>, offset: nat, count: nat) returns (o: Outcome<seq<Value>>)
    requires 1 <= offset <= |data|
    ensures o == DecodeAll(data[offset..], count)
    decreases |data|, 0, 0
  {
    hide Decode;
    var items: seq<Value> := [];
    var pos := offset;
    assert forall vs: seq<Value> :: [] + vs == vs;
    for i := 0 to count
      invariant offset <= pos <= |data|
      invariant DecodeAll(data[offset..], count) == ItemsFrom(data, pos, count - i, items, offset)
    {
      var item := DecodeValue(data[pos..]);
      if item.Failed? {
        return Failed(item.error);
      }
      ghost var before := items;
      items := items + [item.value];
      assert data[pos..][item.consumed..] == data[pos + item.consumed..];
      assert forall vs: seq<Value> :: before + ([item.value] + vs) == items + vs;
      pos := pos + item.consumed;
    }
    assert items + [] == items;
    return Done(items, pos - offset);
  }

  method DecodeListBody(data: seq<byte>, offset: nat, count: nat) returns (o: Outcome<Value>)
    requires 1 <= offset <= |data|
    ensures o == match DecodeAll(data[offset..], count) {
      case Failed(e) => Failed(e) case Done(vs, c) => Done(List(vs), offset + c) }
    decreases |data|, 0, 1
  {
    hide DecodeAll;
    var items := DecodeItems(data, offset, count);
    if items.Failed? {
      return Failed(items.error);
    }
    return Done(List(items.value), offset + items.consumed);
  }

  method DecodeStructBody(data: seq<byte>, offset: nat, count: nat, signature: byte) returns (o: Outcome<Value>)
    requires 1 <= offset <= |data|
    ensures o == match DecodeAll(data[offset..], count) {
      case Failed(e) => Failed(e) case Done(vs, c) => Done(Temporal(signature, vs), offset + c) }
    decreases |data|, 0, 1
  {
    hide DecodeAll;
    var fields := DecodeItems(data, offset, count);
    if fields.Failed? {
      return Failed(fields.error);
    }
    return Done(Temporal(signature, fields.value), offset + fields.consumed);
  }

  ghost function EntriesFrom(data: seq<byte>, pos: nat, left: nat, entries: seq<Entry>, offset: nat): Outcome<seq<Entry>>
    requires offset <= pos <= |data|
  {
    match DecodeEntries(data[pos..], left)
    case Failed(e) => Failed(e)
    case Done(es, c) => Done(entries + es, pos - offset + c)
  }

  method DecodeMapBody(data: seq<byte>, offset: nat, count: nat) returns (o: Outcome<Value>)
    requires 1 <= offset <= |data|
    ensures o == match DecodeEntries(data[offset..], count) {
      case Failed(e) => Failed(e) case Done(es, c) => Done(Map(es), offset + c) }
    decreases |data|, 0, 1
  {
    hide Decode;
    var entries: seq<Entry> := [];
    var pos := offset;
    assert forall es: seq<Entry> :: [] + es == es;
    for i := 0 to count
      invariant offset <= pos <= |data|
      invariant DecodeEntries(data[offset..], count) == EntriesFrom(data, pos, count - i, entries, offset)
    {
      var key := DecodeValue(data[pos..]);
      if key.Failed? {
        return Failed(key.error);
      }
      if !key.value.String? {
        return Failed(MapKeyNotString);
      }
      assert data[pos..][key.consumed..] == data[pos + key.consumed..];
      var val := DecodeValue(data[pos + key.consumed..]);
      if val.Failed? {
        return Failed(val.error);
      }
      ghost var before := entries;
      var entry := Entry(key.value.text, val.value);
      entries := entries + [entry];
      assert data[pos..][key.consumed + val.consumed..] == data[pos + key.consumed + val.consumed..];
      assert forall es: seq<Entry> :: before + ([entry] + es) == entries + es;
      pos := pos + key.consumed + val.consumed;
    }
    assert entries + [] == entries;
    return Done(Map(entries), pos);
  }
}
