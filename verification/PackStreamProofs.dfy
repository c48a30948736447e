/** Round trips, self-delimitation and minimality of the PackStream coding. */
module PackStreamProofs {
  import opened Bytes
  import opened PackStream

  /** Sizes that the length fields can carry: 32 bits, and 16 bits for the fields of a struct. */
  predicate Fits(v: Value)
    decreases v
  {
    match v
    case Bytes(data) => |data| < 0x1_0000_0000
    case String(text) => |text| < 0x1_0000_0000
    case List(items) => |items| < 0x1_0000_0000 && AllFit(items)
    case Map(entries) => |entries| < 0x1_0000_0000 && EntriesFit(entries)
    case Struct(_, fields) => |fields| < 0x1_0000 && AllFit(fields)
    case _ => true
  }

  predicate AllFit(vs: seq<Value>)
    decreases vs
  {
    vs == [] || (Fits(vs[0]) && AllFit(vs[1..]))
  }

  predicate EntriesFit(es: seq<Entry>)
    decreases es
  {
    es == [] || (|es[0].key| < 0x1_0000_0000 && Fits(es[0].value) && EntriesFit(es[1..]))
  }

  /** The value a receiver gets: structs that spell a date-time are rewritten, innermost first. */
  function Norm(v: Value): Value
    decreases v
  {
    match v
    case List(items) => List(NormAll(items))
    case Map(entries) => Map(NormEntries(entries))
    case Struct(signature, fields) => Temporal(signature, NormAll(fields))
    case _ => v
  }

  function NormAll(vs: seq<Value>): (r: seq<Value>)
    ensures |r| == |vs|
    decreases vs
  {
    if vs == [] then [] else [Norm(vs[0])] + NormAll(vs[1..])
  }

  function NormEntries(es: seq<Entry>): (r: seq<Entry>)
    ensures |r| == |es|
    decreases es
  {
    if es == [] then [] else [Entry(es[0].key, Norm(es[0].value))] + NormEntries(es[1..])
  }

  // ---------- Headers ----------

  /** `ReadHead` looks at no byte beyond those it consumes. */
  lemma HeadIsLocal(d: seq<byte>, e: seq<byte>)
    requires ReadHead(d).Done? && ReadHead(d).consumed <= |e|
    requires d[..ReadHead(d).consumed] == e[..ReadHead(d).consumed]
    ensures ReadHead(e) == ReadHead(d)
  {
    var k := ReadHead(d).consumed;
    assert forall i | 0 <= i < k :: d[i] == d[..k][i] == e[..k][i] == e[i];
    assert d[0] == e[0];
    assert d[1..k] == d[..k][1..] == e[..k][1..] == e[1..k];
  }

  lemma IntHeadInverse(i: i64, rest: seq<byte>)
    ensures ReadHead(EncodeInt(i) + rest) == Done(IntHead(i), |EncodeInt(i)|)
  {
    PowersOf256();
    var d := EncodeInt(i) + rest;
    if !(-16 <= i <= 127) {
      var w := |EncodeInt(i)| - 1;
      BigEndianSignedInverse(w, i);
      assert d[1..1 + w] == BigEndian(w, i);
    }
  }

  lemma StructHeadInverse(n: nat, signature: byte, rest: seq<byte>)
    requires n < 0x1_0000
    ensures ReadHead(EncodeStructHeader(n, signature) + rest)
         == Done(StructHead(n, signature), |EncodeStructHeader(n, signature)|)
  {
    var d := EncodeStructHeader(n, signature) + rest;
    if n > 15 {
      var w := if n <= 0xFF then 1 else 2;
      StructOperandInverse(n, w, d[0], signature, rest);
      assert d == [d[0]] + BigEndian(w, n) + [signature] + rest;
    }
  }

  lemma StructOperandInverse(n: nat, w: nat, marker: byte, signature: byte, rest: seq<byte>)
    requires (w == 1 && n < 0x100) || (w == 2 && n < 0x1_0000)
    ensures SizedStruct([marker] + BigEndian(w, n) + [signature] + rest, w) == Done(StructHead(n, signature), w + 2)
  {
    PowersOf256();
    BigEndianInverse(w, n);
    var d := [marker] + BigEndian(w, n) + [signature] + rest;
    assert d[1..2 + w] == BigEndian(w, n) + [signature];
    assert d[1..2 + w][..w] == BigEndian(w, n);
  }

  /** The length behind `EncodeLength` is read back by the operand reader of the chosen width. */
  lemma LengthInverse(marker: byte, n: nat, rest: seq<byte>)
    requires marker <= 0xD8 && n < 0x1_0000_0000
    ensures var e := EncodeLength(marker, n);
      Operand(e + rest, |e| - 1) == Done(e[1..], |e|) && FromBigEndian(e[1..]) == n
  {
    PowersOf256();
    var e := EncodeLength(marker, n);
    BigEndianInverse(|e| - 1, n);
    assert e[1..] == BigEndian(|e| - 1, n);
    assert (e + rest)[1..|e|] == e[1..];
  }

  lemma StringHeadInverse(n: nat, rest: seq<byte>)
    requires n < 0x1_0000_0000
    ensures var e := EncodeTinyLength(0x80, 0xD0, n); ReadHead(e + rest) == Done(StringHead(n), |e|)
  {
    LengthInverse(0xD0, n, rest);
  }

  lemma ListHeadInverse(n: nat, rest: seq<byte>)
    requires n < 0x1_0000_0000
    ensures var e := EncodeTinyLength(0x90, 0xD4, n); ReadHead(e + rest) == Done(ListHead(n), |e|)
  {
    LengthInverse(0xD4, n, rest);
  }

  lemma MapHeadInverse(n: nat, rest: seq<byte>)
    requires n < 0x1_0000_0000
    ensures var e := EncodeTinyLength(0xA0, 0xD8, n); ReadHead(e + rest) == Done(MapHead(n), |e|)
  {
    LengthInverse(0xD8, n, rest);
  }

  lemma BytesHeadInverse(n: nat, rest: seq<byte>)
    requires n < 0x1_0000_0000
    ensures var e := EncodeLength(0xCC, n); ReadHead(e + rest) == Done(BytesHead(n), |e|)
  {
    LengthInverse(0xCC, n, rest);
  }

  lemma BoolHeadInverse(b: bool, rest: seq<byte>)
    ensures ReadHead([if b then 0xC3 else 0xC2] + rest) == Done(BoolHead(b), 1)
  {
  }

  lemma NullHeadInverse(rest: seq<byte>)
    ensures ReadHead([0xC0] + rest) == Done(NullHead, 1)
  {
  }

  lemma FloatHeadInverse(bits: u64, rest: seq<byte>)
    ensures ReadHead([0xC1] + BigEndian(8, bits) + rest) == Done(FloatHead(bits), 9)
  {
    PowersOf256();
    BigEndianInverse(8, bits);
    assert ([0xC1] + BigEndian(8, bits) + rest)[1..9] == BigEndian(8, bits);
  }

  // ---------- Round trip ----------

  lemma StringRoundTrip(text: Utf8, rest: seq<byte>)
    requires |text| < 0x1_0000_0000
    ensures Decode(EncodeString(text) + rest) == Done(String(text), |EncodeString(text)|)
  {
    hide ReadHead, EncodeTinyLength;
    var h := EncodeTinyLength(0x80, 0xD0, |text|);
    StringHeadInverse(|text|, text + rest);
    var d := EncodeString(text) + rest;
    assert d == h + (text + rest);
    assert d[|h|..|h| + |text|] == text;
  }

  lemma IntRoundTrip(i: i64, rest: seq<byte>)
    ensures Decode(EncodeInt(i) + rest) == Done(Integer(i), |EncodeInt(i)|)
  {
    IntHeadInverse(i, rest);
  }

  /** Reading `n` values off the front peels one encoding at a time. */
  lemma DecodeAllStep(first: seq<byte>, more: seq<byte>, v: Value, n: nat)
    requires Decode(first + more) == Done(v, |first|)
    ensures DecodeAll(first + more, n + 1) ==
      match DecodeAll(more, n) { case Failed(e) => Failed(e) case Done(vs, c) => Done([v] + vs, |first| + c) }
  {
    hide ReadHead;
    assert (first + more)[|first|..] == more;
  }

  lemma DecodeEntriesStep(first: seq<byte>, second: seq<byte>, more: seq<byte>, key: Utf8, v: Value, n: nat)
    requires Decode(first + (second + more)) == Done(String(key), |first|)
    requires Decode(second + more) == Done(v, |second|)
    ensures DecodeEntries(first + (second + more), n + 1) ==
      match DecodeEntries(more, n) {
        case Failed(e) => Failed(e)
        case Done(es, c) => Done([Entry(key, v)] + es, |first| + |second| + c)
      }
  {
    hide Decode;
    assert (first + (second + more))[|first|..] == second + more;
    assert (first + (second + more))[|first| + |second|..] == more;
  }

  /** A header followed by its body, for the three kinds of container. */
  lemma StructBody(n: nat, signature: byte, body: seq<byte>, rest: seq<byte>, vs: seq<Value>)
    requires n < 0x1_0000
    requires DecodeAll(body + rest, n) == Done(vs, |body|)
    ensures var e := EncodeStructHeader(n, signature) + body;
      Decode(e + rest) == Done(Temporal(signature, vs), |e|)
  {
    hide ReadHead, Temporal, DecodeAll, EncodeStructHeader;
    var h := EncodeStructHeader(n, signature);
    StructHeadInverse(n, signature, body + rest);
    assert h + body + rest == h + (body + rest);
    assert (h + body + rest)[|h|..] == body + rest;
  }

  lemma TemporalRoundTrip(signature: byte, ints: seq<i64>, rest: seq<byte>)
    requires |ints| < 0x1_0000
    ensures var e := EncodeStructHeader(|ints|, signature) + EncodeInts(ints);
      Decode(e + rest) == Done(Temporal(signature, Integers(ints)), |e|)
  {
    hide ReadHead, EncodeInt, EncodeStructHeader, Decode, Temporal;
    IntSequence(ints, rest);
    StructBody(|ints|, signature, EncodeInts(ints), rest, Integers(ints));
  }

  lemma DateTimeRoundTrip(s: i64, n: i64, o: i64, rest: seq<byte>)
    ensures var v := DateTime(s, n, o); Decode(Encode(v) + rest) == Done(v, |Encode(v)|)
  {
    hide ReadHead, EncodeInt, EncodeStructHeader, Decode;
    TemporalRoundTrip(DATETIME, [s, n, o], rest);
    assert [s, n, o][1..] == [n, o] && [n, o][1..] == [o] && [o][1..] == [];
    assert EncodeInts([n, o]) == EncodeInt(n) + (EncodeInt(o) + EncodeInts([]));
    assert Integers([n, o]) == [Integer(n)] + ([Integer(o)] + Integers([]));
    assert EncodeInts([s, n, o]) == EncodeInt(s) + (EncodeInt(n) + (EncodeInt(o) + EncodeInts([])));
    assert Encode(DateTime(s, n, o)) == EncodeStructHeader(3, DATETIME) + EncodeInts([s, n, o]);
    assert Integers([s, n, o]) == [Integer(s)] + ([Integer(n)] + ([Integer(o)] + Integers([])));
  }

  lemma LocalDateTimeRoundTrip(s: i64, n: i64, rest: seq<byte>)
    ensures var v := LocalDateTime(s, n); Decode(Encode(v) + rest) == Done(v, |Encode(v)|)
  {
    hide ReadHead, EncodeInt, EncodeStructHeader, Decode;
    TemporalRoundTrip(LOCAL_DATETIME, [s, n], rest);
    assert [s, n][1..] == [n] && [n][1..] == [];
    assert EncodeInts([s, n]) == EncodeInt(s) + (EncodeInt(n) + EncodeInts([]));
    assert Encode(LocalDateTime(s, n)) == EncodeStructHeader(2, LOCAL_DATETIME) + EncodeInts([s, n]);
    assert Integers([s, n]) == [Integer(s)] + ([Integer(n)] + Integers([]));
  }

  lemma BytesRoundTrip(data: seq<byte>, rest: seq<byte>)
    requires |data| < 0x1_0000_0000
    ensures var v := PackStream.Bytes(data); Decode(Encode(v) + rest) == Done(v, |Encode(v)|)
  {
    hide ReadHead, EncodeLength;
    var h := EncodeLength(0xCC, |data|);
    BytesHeadInverse(|data|, data + rest);
    assert h + data + rest == h + (data + rest);
    assert (h + data + rest)[|h|..|h| + |data|] == data;
  }

  lemma ListBody(n: nat, body: seq<byte>, rest: seq<byte>, vs: seq<Value>)
    requires n < 0x1_0000_0000
    requires DecodeAll(body + rest, n) == Done(vs, |body|)
    ensures var e := EncodeTinyLength(0x90, 0xD4, n) + body; Decode(e + rest) == Done(List(vs), |e|)
  {
    hide ReadHead, EncodeTinyLength, DecodeAll;
    var h := EncodeTinyLength(0x90, 0xD4, n);
    ListHeadInverse(n, body + rest);
    assert h + body + rest == h + (body + rest);
    assert (h + body + rest)[|h|..] == body + rest;
  }

  lemma MapBody(n: nat, body: seq<byte>, rest: seq<byte>, es: seq<Entry>)
    requires n < 0x1_0000_0000
    requires DecodeEntries(body + rest, n) == Done(es, |body|)
    ensures var e := EncodeTinyLength(0xA0, 0xD8, n) + body; Decode(e + rest) == Done(Map(es), |e|)
  {
    hide ReadHead, EncodeTinyLength, DecodeEntries;
    var h := EncodeTinyLength(0xA0, 0xD8, n);
    MapHeadInverse(n, body + rest);
    assert h + body + rest == h + (body + rest);
    assert (h + body + rest)[|h|..] == body + rest;
  }

  lemma {:induction false} RoundTrip(v: Value, rest: seq<byte>)
    requires Fits(v)
    ensures Decode(Encode(v) + rest) == Done(Norm(v), |Encode(v)|)
    decreases v
  {
    hide ReadHead, EncodeInt, EncodeTinyLength, EncodeLength, EncodeStructHeader, Temporal, DecodeAll, DecodeEntries;
    match v
    case Null => NullHeadInverse(rest);
    case Bool(b) => BoolHeadInverse(b, rest);
    case Integer(i) => IntRoundTrip(i, rest);
    case Float(bits) => FloatHeadInverse(bits, rest);
    case Bytes(data) => BytesRoundTrip(data, rest);
    case String(text) => StringRoundTrip(text, rest);
    case List(items) =>
      RoundTripAll(items, rest);
      ListBody(|items|, EncodeAll(items), rest, NormAll(items));
    case Map(entries) =>
      RoundTripEntries(entries, rest);
      MapBody(|entries|, EncodeEntries(entries), rest, NormEntries(entries));
    case DateTime(s, n, o) => DateTimeRoundTrip(s, n, o, rest);
    case LocalDateTime(s, n) => LocalDateTimeRoundTrip(s, n, rest);
    case Struct(signature, fields) =>
      RoundTripAll(fields, rest);
      StructBody(|fields|, signature, EncodeAll(fields), rest, NormAll(fields));
  }

  function Integers(ints: seq<i64>): (vs: seq<Value>)
    ensures |vs| == |ints|
  {
    if ints == [] then [] else [Integer(ints[0])] + Integers(ints[1..])
  }

  function EncodeInts(ints: seq<i64>): seq<byte> {
    if ints == [] then [] else EncodeInt(ints[0]) + EncodeInts(ints[1..])
  }

  lemma {:induction false} IntSequence(ints: seq<i64>, rest: seq<byte>)
    ensures DecodeAll(EncodeInts(ints) + rest, |ints|)
         == Done(Integers(ints), |EncodeInts(ints)|)
  {
    hide ReadHead, EncodeInt;
    if ints != [] {
      var more := EncodeInts(ints[1..]) + rest;
      IntSequence(ints[1..], rest);
      IntRoundTrip(ints[0], more);
      DecodeAllStep(EncodeInt(ints[0]), more, Integer(ints[0]), |ints| - 1);
      assert EncodeInts(ints) + rest == EncodeInt(ints[0]) + more;
    }
  }

  lemma {:induction false} RoundTripAll(vs: seq<Value>, rest: seq<byte>)
    requires AllFit(vs)
    ensures DecodeAll(EncodeAll(vs) + rest, |vs|) == Done(NormAll(vs), |EncodeAll(vs)|)
    decreases vs
  {
    hide ReadHead, Decode, Encode;
    if vs != [] {
      var more := EncodeAll(vs[1..]) + rest;
      RoundTrip(vs[0], more);
      RoundTripAll(vs[1..], rest);
      DecodeAllStep(Encode(vs[0]), more, Norm(vs[0]), |vs| - 1);
      assert EncodeAll(vs) + rest == Encode(vs[0]) + more;
    }
  }

  lemma {:induction false} RoundTripEntries(es: seq<Entry>, rest: seq<byte>)
    requires EntriesFit(es)
    ensures DecodeEntries(EncodeEntries(es) + rest, |es|) == Done(NormEntries(es), |EncodeEntries(es)|)
    decreases es
  {
    hide ReadHead, Decode, Encode, EncodeString;
    if es != [] {
      var tail := EncodeEntries(es[1..]);
      var key, val := EncodeString(es[0].key), Encode(es[0].value);
      assert EncodeEntries(es) + rest == key + (val + (tail + rest)) by {
        assert EncodeEntries(es) == key + val + tail;
      }
      StringRoundTrip(es[0].key, val + (tail + rest));
      RoundTrip(es[0].value, tail + rest);
      RoundTripEntries(es[1..], rest);
      DecodeEntriesStep(key, val, tail + rest, es[0].key, Norm(es[0].value), |es| - 1);
    }
  }

  // ---------- Arbitrary bytes ----------

  /** A decoded value depends on no byte beyond those it consumed. */
  lemma {:induction false} DecodeIsLocal(d: seq<byte>, e: seq<byte>)
    requires Decode(d).Done? && Decode(d).consumed <= |e|
    requires d[..Decode(d).consumed] == e[..Decode(d).consumed]
    ensures Decode(e) == Decode(d)
    decreases |d|, 0, 0
  {
    hide ReadHead, ValidUtf8, DecodeAll, DecodeEntries, Temporal;
    var c := Decode(d).consumed;
    var Done(head, k) := ReadHead(d);
    TailsAgree(d, e, k, c);
    HeadIsLocal(d, e);
    match head
    case BytesHead(n) => assert d[k..k + n] == d[k..][..c - k] && e[k..k + n] == e[k..][..c - k];
    case StringHead(n) => assert d[k..k + n] == d[k..][..c - k] && e[k..k + n] == e[k..][..c - k];
    case ListHead(n) => DecodeAllIsLocal(d[k..], n, e[k..]);
    case MapHead(n) => DecodeEntriesIsLocal(d[k..], n, e[k..]);
    case StructHead(n, _) => DecodeAllIsLocal(d[k..], n, e[k..]);
    case _ =>
  }

  lemma TailsAgree(d: seq<byte>, e: seq<byte>, k: nat, c: nat)
    requires k <= c <= |d| && c <= |e| && d[..c] == e[..c]
    ensures d[k..][..c - k] == e[k..][..c - k]
    ensures d[..k] == e[..k]
  {
    assert d[k..][..c - k] == d[..c][k..] == e[..c][k..] == e[k..][..c - k];
    assert d[..k] == d[..c][..k] == e[..c][..k] == e[..k];
  }

  lemma {:induction false} DecodeAllIsLocal(d: seq<byte>, n: nat, e: seq<byte>)
    requires DecodeAll(d, n).Done? && DecodeAll(d, n).consumed <= |e|
    requires d[..DecodeAll(d, n).consumed] == e[..DecodeAll(d, n).consumed]
    ensures DecodeAll(e, n) == DecodeAll(d, n)
    decreases |d|, 1, n
  {
    hide ReadHead, Decode;
    if n > 0 {
      var total, c := DecodeAll(d, n).consumed, Decode(d).consumed;
      TailsAgree(d, e, c, total);
      DecodeIsLocal(d, e);
      DecodeAllIsLocal(d[c..], n - 1, e[c..]);
    }
  }

  lemma {:induction false} DecodeEntriesIsLocal(d: seq<byte>, n: nat, e: seq<byte>)
    requires DecodeEntries(d, n).Done? && DecodeEntries(d, n).consumed <= |e|
    requires d[..DecodeEntries(d, n).consumed] == e[..DecodeEntries(d, n).consumed]
    ensures DecodeEntries(e, n) == DecodeEntries(d, n)
    decreases |d|, 1, n
  {
    hide ReadHead, Decode;
    if n > 0 {
      var total, c := DecodeEntries(d, n).consumed, Decode(d).consumed;
      var c' := Decode(d[c..]).consumed;
      TailsAgree(d, e, c, total);
      ValueIsLocal(d, e, c, total);
      ValueIsLocal(d[c..], e[c..], c', total - c);
      TailsAgree(d, e, c + c', total);
      DecodeEntriesIsLocal(d[c + c'..], n - 1, e[c + c'..]);
    }
  }

  lemma ValueIsLocal(d: seq<byte>, e: seq<byte>, c: nat, total: nat)
    requires Decode(d).Done? && Decode(d).consumed == c <= total <= |d| && total <= |e|
    requires d[..total] == e[..total]
    ensures Decode(e) == Decode(d)
    decreases |d|, 0, 1
  {
    hide Decode;
    TailsAgree(d, e, c, total);
    DecodeIsLocal(d, e);
  }

  /** Every strict prefix of a complete encoding is refused. */
  lemma StrictPrefixFails(d: seq<byte>, k: nat)
    requires Decode(d).Done? && k < Decode(d).consumed
    ensures Decode(d[..k]).Failed?
  {
    hide ReadHead, Decode;
    if Decode(d[..k]).Done? {
      var c := Decode(d[..k]).consumed;
      assert d[..k][..c] == d[..c];
      DecodeIsLocal(d[..k], d);
      assert false;
    }
  }

  // ---------- The normal form ----------

  /** No struct inside the value spells a date-time. */
  predicate TemporalFree(v: Value)
    decreases v
  {
    match v
    case List(items) => AllTemporalFree(items)
    case Map(entries) => EntriesTemporalFree(entries)
    case Struct(signature, fields) => AllTemporalFree(fields) && Temporal(signature, fields).Struct?
    case _ => true
  }

  predicate AllTemporalFree(vs: seq<Value>)
    decreases vs
  {
    vs == [] || (TemporalFree(vs[0]) && AllTemporalFree(vs[1..]))
  }

  predicate EntriesTemporalFree(es: seq<Entry>)
    decreases es
  {
    es == [] || (TemporalFree(es[0].value) && EntriesTemporalFree(es[1..]))
  }

  /** Normalisation neither makes nor removes an integer among the fields of a struct. */
  lemma {:induction false} IntegersStay(vs: seq<Value>, i: nat)
    requires i < |vs|
    ensures NormAll(vs)[i] == Norm(vs[i])
    ensures NormAll(vs)[i].Integer? <==> vs[i].Integer?
  {
    if i > 0 {
      IntegersStay(vs[1..], i - 1);
    }
  }

  lemma TemporalShape(signature: byte, fields: seq<Value>)
    ensures Temporal(signature, NormAll(fields)).Struct? <==> Temporal(signature, fields).Struct?
  {
    forall i | 0 <= i < |fields| && i < 3
      ensures NormAll(fields)[i].Integer? <==> fields[i].Integer?
    {
      IntegersStay(fields, i);
    }
  }

  lemma {:induction false} NormFixpoint(v: Value)
    ensures Norm(v) == v <==> TemporalFree(v)
    decreases v
  {
    match v
    case List(items) => NormAllFixpoint(items);
    case Map(entries) => NormEntriesFixpoint(entries);
    case Struct(signature, fields) =>
      NormAllFixpoint(fields);
      TemporalShape(signature, fields);
    case _ =>
  }

  lemma {:induction false} NormAllFixpoint(vs: seq<Value>)
    ensures NormAll(vs) == vs <==> AllTemporalFree(vs)
    decreases vs
  {
    if vs != [] {
      NormFixpoint(vs[0]);
      NormAllFixpoint(vs[1..]);
      assert NormAll(vs)[0] == Norm(vs[0]) && NormAll(vs)[1..] == NormAll(vs[1..]);
      assert vs == [vs[0]] + vs[1..];
    }
  }

  lemma {:induction false} NormEntriesFixpoint(es: seq<Entry>)
    ensures NormEntries(es) == es <==> EntriesTemporalFree(es)
    decreases es
  {
    if es != [] {
      NormFixpoint(es[0].value);
      NormEntriesFixpoint(es[1..]);
      assert NormEntries(es)[0] == Entry(es[0].key, Norm(es[0].value));
      assert NormEntries(es)[1..] == NormEntries(es[1..]);
      assert es == [es[0]] + es[1..];
    }
  }

  lemma {:induction false} NormIsNormal(v: Value)
    ensures TemporalFree(Norm(v))
    decreases v
  {
    match v
    case List(items) => NormAllIsNormal(items);
    case Map(entries) => NormEntriesIsNormal(entries);
    case Struct(_, fields) => NormAllIsNormal(fields);
    case _ =>
  }

  lemma {:induction false} NormAllIsNormal(vs: seq<Value>)
    ensures AllTemporalFree(NormAll(vs))
    decreases vs
  {
    if vs != [] {
      NormIsNormal(vs[0]);
      NormAllIsNormal(vs[1..]);
      assert NormAll(vs)[1..] == NormAll(vs[1..]);
    }
  }

  lemma {:induction false} NormEntriesIsNormal(es: seq<Entry>)
    ensures EntriesTemporalFree(NormEntries(es))
    decreases es
  {
    if es != [] {
      NormIsNormal(es[0].value);
      NormEntriesIsNormal(es[1..]);
      assert NormEntries(es)[1..] == NormEntries(es[1..]);
    }
  }

  /** Among values the length fields can carry, exactly those without a date-time struct come back as sent. */
  lemma ExactRoundTrip(v: Value, rest: seq<byte>)
    requires Fits(v)
    ensures Decode(Encode(v) + rest) == Done(v, |Encode(v)|) <==> TemporalFree(v)
    ensures Norm(Norm(v)) == Norm(v)
  {
    RoundTrip(v, rest);
    NormFixpoint(v);
    NormIsNormal(v);
    NormFixpoint(Norm(v));
  }

  // ---------- Minimality ----------

  /** No announced length is written shorter than `Encode` writes it. */
  lemma HeadIsMinimal(d: seq<byte>)
    requires ReadHead(d).Done?
    ensures var Done(head, k) := ReadHead(d);
      match head
      case NullHead => true
      case BoolHead(_) => true
      case FloatHead(_) => k == 9
      case IntHead(i) => |EncodeInt(i)| <= k
      case BytesHead(n) => n < 0x1_0000_0000 && |EncodeLength(0xCC, n)| <= k
      case StringHead(n) => n < 0x1_0000_0000 && |EncodeTinyLength(0x80, 0xD0, n)| <= k
      case ListHead(n) => n < 0x1_0000_0000 && |EncodeTinyLength(0x90, 0xD4, n)| <= k
      case MapHead(n) => n < 0x1_0000_0000 && |EncodeTinyLength(0xA0, 0xD8, n)| <= k
      case StructHead(n, signature) => n < 0x1_0000 && |EncodeStructHeader(n, signature)| <= k
  {
    PowersOf256();
  }

  /** Whatever bytes a value was decoded from, it is in normal form, it fits the length fields,
      and `Encode` spells it in no more bytes. */
  lemma {:induction false} EncodeIsMinimal(d: seq<byte>)
    requires Decode(d).Done?
    ensures var Done(v, c) := Decode(d); Fits(v) && TemporalFree(v) && |Encode(v)| <= c
    decreases |d|, 0, 0
  {
    hide ReadHead, EncodeInt, EncodeTinyLength, EncodeLength, EncodeStructHeader, DecodeAll, DecodeEntries, Temporal;
    HeadIsMinimal(d);
    var Done(head, k) := ReadHead(d);
    match head
    case ListHead(n) => EncodeAllIsMinimal(d[k..], n);
    case MapHead(n) => EncodeEntriesIsMinimal(d[k..], n);
    case StructHead(n, signature) =>
      EncodeAllIsMinimal(d[k..], n);
      TemporalIsMinimal(signature, DecodeAll(d[k..], n).value);
    case _ =>
  }

  lemma TemporalIsMinimal(signature: byte, fields: seq<Value>)
    requires |fields| < 0x1_0000 && AllFit(fields) && AllTemporalFree(fields)
    ensures var v := Temporal(signature, fields);
      Fits(v) && TemporalFree(v) && |Encode(v)| <= |EncodeStructHeader(|fields|, signature)| + |EncodeAll(fields)|
  {
    hide EncodeInt;
    var v := Temporal(signature, fields);
    if !v.Struct? {
      assert |EncodeAll(fields)| >= |Encode(fields[0])| + |EncodeAll(fields[1..])|;
      assert |EncodeAll(fields[1..])| >= |Encode(fields[1])| + |EncodeAll(fields[1..][1..])|;
      if v.DateTime? {
        assert |EncodeAll(fields[1..][1..])| >= |Encode(fields[2])|;
      }
    }
  }

  lemma {:induction false} EncodeAllIsMinimal(d: seq<byte>, n: nat)
    requires DecodeAll(d, n).Done?
    ensures var Done(vs, c) := DecodeAll(d, n); AllFit(vs) && AllTemporalFree(vs) && |EncodeAll(vs)| <= c
    decreases |d|, 1, n
  {
    hide Decode, Encode, Fits, TemporalFree;
    if n > 0 {
      var c := Decode(d).consumed;
      EncodeIsMinimal(d);
      EncodeAllIsMinimal(d[c..], n - 1);
      assert DecodeAll(d, n).value[1..] == DecodeAll(d[c..], n - 1).value;
    }
  }

  lemma {:induction false} EncodeEntriesIsMinimal(d: seq<byte>, n: nat)
    requires DecodeEntries(d, n).Done?
    ensures var Done(es, c) := DecodeEntries(d, n); EntriesFit(es) && EntriesTemporalFree(es) && |EncodeEntries(es)| <= c
    decreases |d|, 1, n
  {
    hide Decode, EncodeString;
    if n > 0 {
      var c := Decode(d).consumed;
      var c' := Decode(d[c..]).consumed;
      EncodeIsMinimal(d);
      EncodeIsMinimal(d[c..]);
      EncodeEntriesIsMinimal(d[c + c'..], n - 1);
      assert DecodeEntries(d, n).value[1..] == DecodeEntries(d[c + c'..], n - 1).value;
    }
  }

  /** Re-encoding what was decoded is never longer than the bytes consumed, and decodes to the same value. */
  lemma Reencode(d: seq<byte>, rest: seq<byte>)
    requires Decode(d).Done?
    ensures var Done(v, c) := Decode(d);
      |Encode(v)| <= c && Decode(Encode(v) + rest) == Done(v, |Encode(v)|)
  {
    hide Decode, Encode;
    EncodeIsMinimal(d);
    ExactRoundTrip(Decode(d).value, rest);
  }
}
