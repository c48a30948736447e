/** The encoders of JSON values and records, which append to one buffer. */
module JsonCodec {
  import opened Bytes
  import opened Json
  import opened PackStream
  import opened PackStreamCodec
  import opened PackStreamProofs

  const RECORD_SIGNATURE: byte := 0x71

  method EncodeJsonValueInto(buf: BytesMut, value: Json, t: Texts)
    modifies buf
    ensures buf.bytes == old(buf.bytes) + EncodeJson(value, t)
    decreases value, 1
  {
    hide EncodeInt, EncodeTinyLength, EncodeLength, EncodeStructHeader, EncodeString, EncodeAll, EncodeEntries, PackAll, PackMembers;
    match value
    case JNull => buf.Put([0xC0]);
    case JBool(b) => buf.Put([if b then 0xC3 else 0xC2]);
    case JInt(i) => EncodeIntInto(buf, i);
    case JBig(n) => buf.PutMarked(0xC1, BigEndian(8, t.round(n)));
    case JFloat(bits) => buf.PutMarked(0xC1, BigEndian(8, bits));
    case JString(text) =>
      var at := t.parseDateTime(text);
      if at.Some? {
        EncodeDateTimeInto(buf, at.value.0, at.value.1, at.value.2);
      } else {
        EncodeStringInto(buf, text);
      }
    case JArray(items) =>
      EncodeTinyLengthInto(buf, 0x90, 0xD4, |items|);
      EncodeItemsInto(buf, items, t);
    case JObject(members) =>
      EncodeTinyLengthInto(buf, 0xA0, 0xD8, |members|);
      EncodeMembersInto(buf, members, t);
  }

  method EncodeItemsInto(buf: BytesMut, items: seq<Json>, t: Texts)
    modifies buf
    ensures buf.bytes == old(buf.bytes) + EncodeAll(PackAll(items, t))
    decreases items, 0
  {
    hide Encode, ToPack;
    for i := 0 to |items|
      invariant buf.bytes + EncodeAll(PackAll(items[i..], t)) == old(buf.bytes) + EncodeAll(PackAll(items, t))
    {
      assert items[i..][0] == items[i] && items[i..][1..] == items[i + 1..];
      EncodeJsonValueInto(buf, items[i], t);
      NextItem(items[i..], t);
    }
    assert items[|items|..] == [];
  }

  lemma NextItem(items: seq<Json>, t: Texts)
    requires items != []
    ensures EncodeAll(PackAll(items, t)) == EncodeJson(items[0], t) + EncodeAll(PackAll(items[1..], t))
  {
    hide Encode, ToPack;
    assert PackAll(items, t)[1..] == PackAll(items[1..], t);
  }

  method EncodeMembersInto(buf: BytesMut, members: seq<Member>, t: Texts)
    modifies buf
    ensures buf.bytes == old(buf.bytes) + EncodeEntries(PackMembers(members, t))
    decreases members, 0
  {
    hide Encode, ToPack, EncodeString;
    for i := 0 to |members|
      invariant buf.bytes + EncodeEntries(PackMembers(members[i..], t)) == old(buf.bytes) + EncodeEntries(PackMembers(members, t))
    {
      assert members[i..][0] == members[i] && members[i..][1..] == members[i + 1..];
      EncodeStringInto(buf, members[i].key);
      EncodeJsonValueInto(buf, members[i].value, t);
      NextMember(members[i..], t);
    }
    assert members[|members|..] == [];
  }

  lemma NextMember(ms: seq<Member>, t: Texts)
    requires ms != []
    ensures EncodeEntries(PackMembers(ms, t))
         == EncodeString(ms[0].key) + EncodeJson(ms[0].value, t) + EncodeEntries(PackMembers(ms[1..], t))
  {
    hide Encode, ToPack, EncodeString;
    assert PackMembers(ms, t)[1..] == PackMembers(ms[1..], t);
  }

  // ---------- Records ----------

  /** A record is a struct with one list of fields. */
  function RecordValue(data: seq<Json>, t: Texts): Value {
    Struct(RECORD_SIGNATURE, [List(PackAll(data, t))])
  }

  method EncodeRecord(data: seq<Json>, t: Texts) returns (bytes: seq<byte>)
    ensures bytes == Encode(RecordValue(data, t))
  {
    hide PackAll, EncodeStructHeader, EncodeTinyLength;
    var buf := new BytesMut();
    EncodeStructHeaderInto(buf, 1, RECORD_SIGNATURE);
    EncodeTinyLengthInto(buf, 0x90, 0xD4, |data|);
    EncodeItemsInto(buf, data, t);
    RecordBytes(data, t);
    return buf.bytes;
  }

  lemma RecordBytes(data: seq<Json>, t: Texts)
    ensures Encode(RecordValue(data, t))
         == EncodeStructHeader(1, RECORD_SIGNATURE) + EncodeTinyLength(0x90, 0xD4, |data|) + EncodeAll(PackAll(data, t))
  {
    hide PackAll, EncodeStructHeader, EncodeTinyLength;
    var list := List(PackAll(data, t));
    assert [list][1..] == [];
    assert EncodeAll([list]) == Encode(list);
  }

  /** The fields of a row by column; a column the row does not have is null. */
  function Lookup(columns: seq<string>, row: map<string, Json>): (r: seq<Json>)
    ensures |r| == |columns|
    ensures forall i | 0 <= i < |columns| :: r[i] == if columns[i] in row then row[columns[i]] else JNull
  {
    seq(|columns|, i requires 0 <= i < |columns| => if columns[i] in row then row[columns[i]] else JNull)
  }

  /** Whatever the buffer held, it now holds exactly the record of the row's fields. */
  method EncodeRecordMapInto(buf: BytesMut, columns: seq<string>, row: map<string, Json>, t: Texts)
    modifies buf
    ensures buf.bytes == Encode(RecordValue(Lookup(columns, row), t))
  {
    hide EncodeJson, Encode, EncodeAll, PackAll, EncodeStructHeader, EncodeTinyLength, RecordValue;
    ghost var data := Lookup(columns, row);
    buf.Clear();
    EncodeStructHeaderInto(buf, 1, RECORD_SIGNATURE);
    EncodeTinyLengthInto(buf, 0x90, 0xD4, |columns|);
    ghost var start := EncodeStructHeader(1, RECORD_SIGNATURE) + EncodeTinyLength(0x90, 0xD4, |data|);
    assert buf.bytes == start;
    for i := 0 to |columns|
      invariant buf.bytes + EncodeAll(PackAll(data[i..], t)) == start + EncodeAll(PackAll(data, t))
    {
      NextItem(data[i..], t);
      assert data[i..][0] == data[i] && data[i..][1..] == data[i + 1..];
      if columns[i] in row {
        EncodeJsonValueInto(buf, row[columns[i]], t);
      } else {
        buf.Put([0xC0]);
        NullBytes(t);
      }
    }
    assert data[|columns|..] == [];
    NoItems(t);
    RecordBytes(data, t);
  }

  lemma NoItems(t: Texts)
    ensures EncodeAll(PackAll([], t)) == []
  {
  }

  lemma NullBytes(t: Texts)
    ensures EncodeJson(JNull, t) == [0xC0]
  {
  }

  /** One buffer serves all rows, and each comes out as if it were encoded alone. */
  method EncodeRecordMaps(columns: seq<string>, rows: seq<map<string, Json>>, t: Texts) returns (records: seq<seq<byte>>)
    ensures |records| == |rows|
    ensures forall i | 0 <= i < |rows| :: records[i] == Encode(RecordValue(Lookup(columns, rows[i]), t))
  {
    hide Encode, RecordValue;
    var buf := new BytesMut();
    records := [];
    for i := 0 to |rows|
      invariant |records| == i && forall k | 0 <= k < i :: records[k] == Encode(RecordValue(Lookup(columns, rows[k]), t))
    {
      EncodeRecordMapInto(buf, columns, rows[i], t);
      records := records + [buf.bytes];
    }
  }

  /** A client that decodes a record gets its fields back, each exactly if it is stable. */
  lemma RecordOverTheWire(data: seq<Json>, t: Texts, rest: seq<byte>)
    requires DistinctKeys(JArray(data)) && LengthsFit(JArray(data))
    ensures Decode(Encode(RecordValue(data, t)) + rest) == Done(RecordValue(data, t), |Encode(RecordValue(data, t))|)
    ensures ToJson(RecordValue(data, t).fields[0], t) == JArray(data) <==> Stable(JArray(data), t)
  {
    hide ToJson, Decode, Encode, Stable, DistinctKeys, LengthsFit, Fits, TemporalFree;
    PackFits(JArray(data), t);
    BackIfStable(JArray(data), t);
    RecordFits(data, t);
    ExactRoundTrip(RecordValue(data, t), rest);
  }

  lemma RecordFits(data: seq<Json>, t: Texts)
    requires Fits(ToPack(JArray(data), t)) && TemporalFree(ToPack(JArray(data), t))
    ensures Fits(RecordValue(data, t)) && TemporalFree(RecordValue(data, t))
  {
    hide PackAll, AllFit, AllTemporalFree;
    var fields := [List(PackAll(data, t))];
    assert AllFit(fields) && AllTemporalFree(fields) by { OneFits(fields); }
  }

  lemma OneFits(fields: seq<Value>)
    requires |fields| == 1 && Fits(fields[0]) && TemporalFree(fields[0])
    ensures AllFit(fields) && AllTemporalFree(fields)
  {
    assert fields[1..] == [];
  }
}
