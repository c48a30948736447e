/** JSON values over the wire: what `EncodeJson` writes, read back as JSON; and the record encoders. */
module Json {
  import opened Bytes
  import opened PackStream
  import opened PackStreamProofs
  import opened Wrappers

  datatype Member = Member(key: Utf8, value: Json)

  datatype Json =
    | JNull
    | JBool(b: bool)
    | JInt(i: i64)
    | JBig(n: BigNumber)
    | JFloat(bits: FiniteBits)
    | JString(text: Utf8)
    | JArray(items: seq<Json>)
    | JObject(members: seq<Member>)

  type Instant = (i64, i64, i64)

  /** Reading and writing RFC 3339 date-times, and rounding to doubles. */
  datatype Texts = Texts(
    parseDateTime: Utf8 -> Option<Instant>,
    formatDateTime: Instant -> Option<Utf8>,
    round: BigNumber -> FiniteBits)

  // ---------- To the wire ----------

  function ToPack(j: Json, t: Texts): Value
    decreases j
  {
    match j
    case JNull => Null
    case JBool(b) => Bool(b)
    case JInt(i) => Integer(i)
    case JBig(n) => Float(t.round(n))
    case JFloat(bits) => Float(bits)
    case JString(text) =>
      (match t.parseDateTime(text)
       case None => String(text)
       case Some((s, n, o)) => DateTime(s, n, o))
    case JArray(items) => List(PackAll(items, t))
    case JObject(members) => Map(PackMembers(members, t))
  }

  function PackAll(items: seq<Json>, t: Texts): (r: seq<Value>)
    ensures |r| == |items|
    decreases items
  {
    if items == [] then [] else [ToPack(items[0], t)] + PackAll(items[1..], t)
  }

  function PackMembers(ms: seq<Member>, t: Texts): (r: seq<Entry>)
    ensures |r| == |ms|
    decreases ms
  {
    if ms == [] then [] else [Entry(ms[0].key, ToPack(ms[0].value, t))] + PackMembers(ms[1..], t)
  }

  function EncodeJson(j: Json, t: Texts): seq<byte> {
    Encode(ToPack(j, t))
  }

  // ---------- From the wire ----------

  /** An object holds a key once: a later value takes the place of an earlier one. */
  function Put(ms: seq<Member>, key: Utf8, value: Json): seq<Member> {
    if ms == [] then [Member(key, value)]
    else if ms[0].key == key then [Member(key, value)] + ms[1..]
    else [ms[0]] + Put(ms[1..], key, value)
  }

  function DateTimeJson(at: Instant, t: Texts): Json {
    match t.formatDateTime(at) case None => JNull case Some(text) => JString(text)
  }

  function ToJson(v: Value, t: Texts): Json
    decreases v
  {
    match v
    case Null => JNull
    case Bool(b) => JBool(b)
    case Integer(i) => JInt(i)
    case Float(bits) => if Finite(bits) then JFloat(bits) else JNull
    case Bytes(data) => JArray(seq(|data|, i requires 0 <= i < |data| => JInt(data[i])))
    case String(text) => JString(text)
    case List(items) => JArray(JsonAll(items, t))
    case Map(entries) => JObject(JsonMembers(entries, [], t))
    case DateTime(s, n, o) => DateTimeJson((s, n, o), t)
    case LocalDateTime(s, n) => DateTimeJson((s, n, 0), t)
    case Struct(_, fields) => JArray(JsonAll(fields, t))
  }

  function JsonAll(vs: seq<Value>, t: Texts): (r: seq<Json>)
    ensures |r| == |vs|
    decreases vs
  {
    if vs == [] then [] else [ToJson(vs[0], t)] + JsonAll(vs[1..], t)
  }

  function JsonMembers(es: seq<Entry>, before: seq<Member>, t: Texts): seq<Member>
    decreases es
  {
    if es == [] then before else JsonMembers(es[1..], Put(before, es[0].key, ToJson(es[0].value, t)), t)
  }

  // ---------- What comes back ----------

  /** Objects hold every key once, here and below. */
  predicate DistinctKeys(j: Json)
    decreases j
  {
    match j
    case JArray(items) => forall i | 0 <= i < |items| :: DistinctKeys(items[i])
    case JObject(members) =>
      && (forall i, k | 0 <= i < k < |members| :: members[i].key != members[k].key)
      && forall i | 0 <= i < |members| :: DistinctKeys(members[i].value)
    case _ => true
  }

  /** Lengths below 2^32, here and below. */
  predicate LengthsFit(j: Json)
    decreases j
  {
    match j
    case JString(text) => |text| < 0x1_0000_0000
    case JArray(items) => |items| < 0x1_0000_0000 && forall i | 0 <= i < |items| :: LengthsFit(items[i])
    case JObject(members) =>
      |members| < 0x1_0000_0000
      && forall i | 0 <= i < |members| :: |members[i].key| < 0x1_0000_0000 && LengthsFit(members[i].value)
    case _ => true
  }

  /** No number over the signed range, and every date-time in the form it would be written in. */
  predicate Stable(j: Json, t: Texts)
    decreases j
  {
    match j
    case JBig(_) => false
    case JString(text) => var at := t.parseDateTime(text); at.Some? ==> t.formatDateTime(at.value) == Some(text)
    case JArray(items) => forall i | 0 <= i < |items| :: Stable(items[i], t)
    case JObject(members) => forall i | 0 <= i < |members| :: Stable(members[i].value, t)
    case _ => true
  }

  lemma {:induction false} PackedAt(items: seq<Json>, t: Texts, i: nat)
    requires i < |items|
    ensures PackAll(items, t)[i] == ToPack(items[i], t)
    decreases |items|
  {
    hide ToPack;
    if i > 0 {
      PackedAt(items[1..], t, i - 1);
    }
  }

  lemma {:induction false} PackedMemberAt(ms: seq<Member>, t: Texts, i: nat)
    requires i < |ms|
    ensures PackMembers(ms, t)[i] == Entry(ms[i].key, ToPack(ms[i].value, t))
    decreases |ms|
  {
    hide ToPack;
    if i > 0 {
      PackedMemberAt(ms[1..], t, i - 1);
    }
  }

  lemma {:induction false} JsonAt(vs: seq<Value>, t: Texts, i: nat)
    requires i < |vs|
    ensures JsonAll(vs, t)[i] == ToJson(vs[i], t)
    decreases |vs|
  {
    hide ToJson;
    if i > 0 {
      JsonAt(vs[1..], t, i - 1);
    }
  }

  lemma {:induction false} PutNew(ms: seq<Member>, key: Utf8, value: Json)
    requires forall i | 0 <= i < |ms| :: ms[i].key != key
    ensures Put(ms, key, value) == ms + [Member(key, value)]
    decreases |ms|
  {
    if ms != [] {
      PutNew(ms[1..], key, value);
    }
  }

  predicate DistinctEntries(es: seq<Entry>, before: seq<Member>) {
    && (forall i, k | 0 <= i < k < |es| :: es[i].key != es[k].key)
    && (forall i, k | 0 <= i < |es| && 0 <= k < |before| :: es[i].key != before[k].key)
  }

  /** Entries with distinct keys become members one by one. */
  lemma {:induction false} MembersOfEntries(es: seq<Entry>, before: seq<Member>, t: Texts)
    requires DistinctEntries(es, before)
    ensures var r := JsonMembers(es, before, t);
      && |r| == |before| + |es| && r[..|before|] == before
      && forall i | 0 <= i < |es| :: r[|before| + i] == Member(es[i].key, ToJson(es[i].value, t))
    decreases |es|
  {
    hide ToJson;
    if es != [] {
      var first := Member(es[0].key, ToJson(es[0].value, t));
      PutNew(before, es[0].key, first.value);
      var more := before + [first];
      MembersOfEntries(es[1..], more, t);
      var r := JsonMembers(es, before, t);
      assert r == JsonMembers(es[1..], more, t);
      assert r[..|more|] == more;
      assert r[..|before|] == r[..|more|][..|before|] == before;
      assert r[|before|] == r[..|more|][|before|] == first;
      forall i | 0 <= i < |es| ensures r[|before| + i] == Member(es[i].key, ToJson(es[i].value, t)) {
        if i > 0 {
          assert r[|more| + (i - 1)] == Member(es[1..][i - 1].key, ToJson(es[1..][i - 1].value, t));
        }
      }
    }
  }

  /** A tree comes back from its wire form exactly if it is stable. */
  lemma {:induction false} BackIfStable(j: Json, t: Texts)
    requires DistinctKeys(j)
    ensures ToJson(ToPack(j, t), t) == j <==> Stable(j, t)
    decreases j
  {
    hide Put, DistinctEntries, PackAll, PackMembers, JsonAll, JsonMembers;
    match j
    case JArray(items) => ArrayBackIfStable(items, t);
    case JObject(members) => ObjectBackIfStable(members, t);
    case _ =>
  }

  lemma {:induction false} ArrayBackIfStable(items: seq<Json>, t: Texts)
    requires forall i | 0 <= i < |items| :: DistinctKeys(items[i])
    ensures JsonAll(PackAll(items, t), t) == items <==> forall i | 0 <= i < |items| :: Stable(items[i], t)
    decreases items
  {
    hide ToJson, ToPack, JsonAll, PackAll, Stable, DistinctKeys;
    forall i | 0 <= i < |items|
      ensures JsonAll(PackAll(items, t), t)[i] == items[i] <==> Stable(items[i], t)
    {
      BackIfStable(items[i], t);
      PackedAt(items, t, i);
      JsonAt(PackAll(items, t), t, i);
    }
  }

  lemma {:induction false} ObjectBackIfStable(members: seq<Member>, t: Texts)
    requires forall i, k | 0 <= i < k < |members| :: members[i].key != members[k].key
    requires forall i | 0 <= i < |members| :: DistinctKeys(members[i].value)
    ensures JsonMembers(PackMembers(members, t), [], t) == members <==> forall i | 0 <= i < |members| :: Stable(members[i].value, t)
    decreases members
  {
    hide ToJson, ToPack, JsonMembers, PackMembers, Stable, DistinctKeys;
    var es := PackMembers(members, t);
    forall i | 0 <= i < |members|
      ensures es[i].key == members[i].key && (ToJson(es[i].value, t) == members[i].value <==> Stable(members[i].value, t))
    {
      BackIfStable(members[i].value, t);
      PackedMemberAt(members, t, i);
    }
    MembersOfEntries(es, [], t);
  }

  // ---------- Sizes ----------

  lemma {:induction false} PackFits(j: Json, t: Texts)
    requires LengthsFit(j)
    ensures Fits(ToPack(j, t)) && TemporalFree(ToPack(j, t))
    decreases j
  {
    match j
    case JArray(items) => PackAllFits(items, t);
    case JObject(members) => PackMembersFit(members, t);
    case _ =>
  }

  lemma {:induction false} PackAllFits(items: seq<Json>, t: Texts)
    requires forall i | 0 <= i < |items| :: LengthsFit(items[i])
    ensures AllFit(PackAll(items, t)) && AllTemporalFree(PackAll(items, t))
    decreases items
  {
    hide ToPack, LengthsFit, Fits, TemporalFree;
    if items != [] {
      PackFits(items[0], t);
      PackAllFits(items[1..], t);
    }
  }

  lemma {:induction false} PackMembersFit(ms: seq<Member>, t: Texts)
    requires forall i | 0 <= i < |ms| :: |ms[i].key| < 0x1_0000_0000 && LengthsFit(ms[i].value)
    ensures EntriesFit(PackMembers(ms, t)) && EntriesTemporalFree(PackMembers(ms, t))
    decreases ms
  {
    hide ToPack, LengthsFit, Fits, TemporalFree;
    if ms != [] {
      PackFits(ms[0].value, t);
      PackMembersFit(ms[1..], t);
    }
  }

  /** Over the wire and back: a JSON tree is the same tree exactly if it is stable. */
  lemma JsonOverTheWire(j: Json, t: Texts, rest: seq<byte>)
    requires DistinctKeys(j) && LengthsFit(j)
    ensures Decode(EncodeJson(j, t) + rest) == Done(ToPack(j, t), |EncodeJson(j, t)|)
    ensures ToJson(Decode(EncodeJson(j, t) + rest).value, t) == j <==> Stable(j, t)
  {
    hide ToPack, ToJson, Decode, Encode, Fits, TemporalFree, Stable, DistinctKeys, LengthsFit;
    PackFits(j, t);
    ExactRoundTrip(ToPack(j, t), rest);
    BackIfStable(j, t);
  }
}
