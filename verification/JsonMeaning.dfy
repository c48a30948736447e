/** Which values on the wire stand for which JSON, in both directions, and the bytes of a record. */
module JsonMeaning {
  import opened Bytes
  import opened Json
  import opened JsonCodec
  import opened PackStream
  import opened PackStreamFormat
  import opened PackStreamProofs
  import opened Wrappers

  // ---------- To the wire ----------

  /** The value that is sent for a JSON tree: a date-time for a text that spells one, a double for a number over the
      signed range. */
  ghost predicate Carries(v: Value, j: Json, t: Texts)
    decreases j
  {
    match j
    case JNull => v.Null?
    case JBool(b) => v.Bool? && v.b == b
    case JInt(i) => v.Integer? && v.i == i
    case JBig(n) => v.Float? && v.bits == t.round(n)
    case JFloat(bits) => v.Float? && v.bits == bits
    case JString(text) =>
      if t.parseDateTime(text) == None then v.String? && v.text == text
      else v.DateTime? && t.parseDateTime(text) == Some((v.seconds, v.nanoseconds, v.offsetSeconds))
    case JArray(items) =>
      v.List? && |v.items| == |items| && forall i | 0 <= i < |items| :: Carries(v.items[i], items[i], t)
    case JObject(members) =>
      && v.Map? && |v.entries| == |members|
      && forall i | 0 <= i < |members| ::
           v.entries[i].key == members[i].key && Carries(v.entries[i].value, members[i].value, t)
  }

  lemma {:induction false} CarriesIs(v: Value, j: Json, t: Texts)
    ensures ToPack(j, t) == v <==> Carries(v, j, t)
    decreases j
  {
    match j
    case JArray(items) =>
      hide ToPack, Carries;
      if v.List? && |v.items| == |items| {
        forall i | 0 <= i < |items| ensures PackAll(items, t)[i] == v.items[i] <==> Carries(v.items[i], items[i], t) {
          CarriesIs(v.items[i], items[i], t);
          PackedAt(items, t, i);
        }
      }
      ArrayCarries(v, items, t);
    case JObject(members) =>
      hide ToPack, Carries;
      if v.Map? && |v.entries| == |members| {
        forall i | 0 <= i < |members|
          ensures PackMembers(members, t)[i] == v.entries[i]
             <==> v.entries[i].key == members[i].key && Carries(v.entries[i].value, members[i].value, t)
        {
          CarriesIs(v.entries[i].value, members[i].value, t);
          PackedMemberAt(members, t, i);
        }
      }
      ObjectCarries(v, members, t);
    case _ =>
  }

  lemma ArrayCarries(v: Value, items: seq<Json>, t: Texts)
    ensures ToPack(JArray(items), t) == List(PackAll(items, t))
    ensures Carries(v, JArray(items), t)
       <==> v.List? && |v.items| == |items| && forall i | 0 <= i < |items| :: Carries(v.items[i], items[i], t)
  {
  }

  lemma ObjectCarries(v: Value, members: seq<Member>, t: Texts)
    ensures ToPack(JObject(members), t) == Map(PackMembers(members, t))
    ensures Carries(v, JObject(members), t) <==>
      && v.Map? && |v.entries| == |members|
      && forall i | 0 <= i < |members| ::
           v.entries[i].key == members[i].key && Carries(v.entries[i].value, members[i].value, t)
  {
  }

  /** The bytes written for a JSON tree stand for the one value that carries it. */
  lemma JsonOnTheWire(j: Json, t: Texts, v: Value, rest: seq<byte>)
    requires LengthsFit(j)
    ensures Carries(v, j, t) <==> Begins(EncodeJson(j, t) + rest, v, |EncodeJson(j, t)|)
  {
    hide ToPack, Carries, Begins, Encode, Decode, Fits, TemporalFree, LengthsFit;
    CarriesIs(v, j, t);
    PackFits(j, t);
    ExactRoundTrip(ToPack(j, t), rest);
    DecodesIffBegins(EncodeJson(j, t) + rest, v, |EncodeJson(j, t)|);
  }

  /** The bytes written for a record stand for a struct with signature 0x71 and one list of the row's fields. */
  lemma RecordOnTheWire(data: seq<Json>, t: Texts, v: Value, rest: seq<byte>)
    requires LengthsFit(JArray(data))
    ensures v.Struct? && v.signature == 0x71 && |v.fields| == 1 && Carries(v.fields[0], JArray(data), t)
       <==> Begins(Encode(RecordValue(data, t)) + rest, v, |Encode(RecordValue(data, t))|)
  {
    hide ToPack, Carries, Begins, Encode, Decode, Fits, TemporalFree, LengthsFit;
    PackFits(JArray(data), t);
    RecordFits(data, t);
    ExactRoundTrip(RecordValue(data, t), rest);
    DecodesIffBegins(Encode(RecordValue(data, t)) + rest, v, |Encode(RecordValue(data, t))|);
    ArrayCarries(List(PackAll(data, t)), data, t);
    if v.Struct? && |v.fields| == 1 {
      assert v.fields == [v.fields[0]];
      CarriesIs(v.fields[0], JArray(data), t);
    }
  }

  // ---------- From the wire ----------

  /** A text for an instant that can be written, and nothing for any other. */
  predicate Writes(j: Json, at: Instant, t: Texts) {
    match t.formatDateTime(at)
    case None => j.JNull?
    case Some(text) => j.JString? && j.text == text
  }

  /** The entry at `i` is the last one with its key. */
  predicate Last(es: seq<Entry>, i: nat) {
    i < |es| && forall k | i < k < |es| :: es[k].key != es[i].key
  }

  predicate HasEntry(es: seq<Entry>, key: Utf8) {
    exists i :: 0 <= i < |es| && es[i].key == key
  }

  predicate HasMember(ms: seq<Member>, key: Utf8) {
    exists i :: 0 <= i < |ms| && ms[i].key == key
  }

  /** The keys of the entries, each once. */
  predicate SameKeys(ms: seq<Member>, es: seq<Entry>) {
    && (forall i, k | 0 <= i < k < |ms| :: ms[i].key != ms[k].key)
    && (forall k | 0 <= k < |ms| :: HasEntry(es, ms[k].key))
    && (forall i | 0 <= i < |es| :: HasMember(ms, es[i].key))
  }

  /** The JSON that is made of a value: of equal keys the last one counts, and bytes and structs are lists. */
  ghost predicate Understood(v: Value, j: Json, t: Texts)
    decreases v
  {
    match v
    case Null => j.JNull?
    case Bool(b) => j.JBool? && j.b == b
    case Integer(i) => j.JInt? && j.i == i
    case Float(bits) => if Finite(bits) then j.JFloat? && j.bits == bits else j.JNull?
    case Bytes(data) => j.JArray? && |j.items| == |data| && forall i | 0 <= i < |data| :: j.items[i] == JInt(data[i])
    case String(text) => j.JString? && j.text == text
    case List(items) => j.JArray? && |j.items| == |items| && forall i | 0 <= i < |items| :: Understood(items[i], j.items[i], t)
    case Map(es) =>
      && j.JObject? && SameKeys(j.members, es)
      && forall i, k | 0 <= i < |es| && 0 <= k < |j.members| && es[i].key == j.members[k].key && Last(es, i) ::
           Understood(es[i].value, j.members[k].value, t)
    case DateTime(s, n, o) => Writes(j, (s, n, o), t)
    case LocalDateTime(s, n) => Writes(j, (s, n, 0), t)
    case Struct(_, fields) =>
      j.JArray? && |j.items| == |fields| && forall i | 0 <= i < |fields| :: Understood(fields[i], j.items[i], t)
  }

  /** Under each key the value of the last entry that has it. */
  predicate LastWins(ms: seq<Member>, es: seq<Entry>, t: Texts) {
    && SameKeys(ms, es)
    && forall i, k | 0 <= i < |es| && 0 <= k < |ms| && es[i].key == ms[k].key && Last(es, i) ::
         ms[k].value == ToJson(es[i].value, t)
  }

  lemma {:induction false} PutReplaces(ms: seq<Member>, key: Utf8, value: Json, i: nat)
    requires i < |ms| && ms[i].key == key && forall k | 0 <= k < i :: ms[k].key != key
    ensures Put(ms, key, value) == ms[i := Member(key, value)]
    decreases |ms|
  {
    if i > 0 {
      PutReplaces(ms[1..], key, value, i - 1);
    }
  }

  lemma PutIs(ms: seq<Member>, key: Utf8, value: Json)
    requires forall i, k | 0 <= i < k < |ms| :: ms[i].key != ms[k].key
    ensures var r := Put(ms, key, value);
      && (forall i, k | 0 <= i < k < |r| :: r[i].key != r[k].key)
      && (exists k :: 0 <= k < |r| && r[k] == Member(key, value))
      && (forall k | 0 <= k < |ms| :: k < |r| && r[k].key == ms[k].key && (ms[k].key != key ==> r[k] == ms[k]))
      && (forall k | |ms| <= k < |r| :: r[k].key == key)
  {
    hide Put;
    if i :| 0 <= i < |ms| && ms[i].key == key {
      PutReplaces(ms, key, value, i);
      assert Put(ms, key, value)[i] == Member(key, value);
    } else {
      PutNew(ms, key, value);
      assert Put(ms, key, value)[|ms|] == Member(key, value);
    }
  }

  lemma LastGrows(es: seq<Entry>, e: Entry, i: nat)
    requires i <= |es|
    ensures Last(es + [e], i) <==> i == |es| || (Last(es, i) && es[i].key != e.key)
  {
    var more := es + [e];
    if i < |es| {
      assert more[|es|] == e && more[i] == es[i];
      if Last(more, i) {
        forall k | i < k < |es| ensures es[k].key != es[i].key {
          assert more[k] == es[k];
        }
      }
    }
  }

  lemma OneMoreKey(ms: seq<Member>, es: seq<Entry>, e: Entry, value: Json)
    requires SameKeys(ms, es)
    ensures SameKeys(Put(ms, e.key, value), es + [e])
  {
    hide Put, HasEntry, HasMember;
    var r, more := Put(ms, e.key, value), es + [e];
    PutIs(ms, e.key, value);
    EntryGrows(es, e);
    forall k | 0 <= k < |r| ensures HasEntry(more, r[k].key) {
    }
    forall i | 0 <= i < |more| ensures HasMember(r, more[i].key) {
      if i < |es| {
        assert HasMember(ms, es[i].key);
        MemberKept(ms, r, es[i].key);
      } else {
        HasPut(r, e.key, value);
      }
    }
  }

  lemma EntryGrows(es: seq<Entry>, e: Entry)
    ensures HasEntry(es + [e], e.key)
    ensures forall key :: HasEntry(es, key) ==> HasEntry(es + [e], key)
  {
    var more := es + [e];
    assert more[|es|] == e && forall i | 0 <= i < |es| :: more[i] == es[i];
  }

  lemma MemberKept(ms: seq<Member>, r: seq<Member>, key: Utf8)
    requires HasMember(ms, key) && forall k | 0 <= k < |ms| :: k < |r| && r[k].key == ms[k].key
    ensures HasMember(r, key)
  {
  }

  lemma HasPut(r: seq<Member>, key: Utf8, value: Json)
    requires exists k :: 0 <= k < |r| && r[k] == Member(key, value)
    ensures HasMember(r, key)
  {
  }

  lemma OneMoreEntry(ms: seq<Member>, es: seq<Entry>, e: Entry, t: Texts)
    requires LastWins(ms, es, t)
    ensures LastWins(Put(ms, e.key, ToJson(e.value, t)), es + [e], t)
  {
    hide ToJson, Put, Last, HasEntry, HasMember;
    var value, more := ToJson(e.value, t), es + [e];
    var r := Put(ms, e.key, value);
    PutIs(ms, e.key, value);
    OneMoreKey(ms, es, e, value);
    var m :| 0 <= m < |r| && r[m] == Member(e.key, value);
    forall i, k | 0 <= i < |more| && 0 <= k < |r| && more[i].key == r[k].key && Last(more, i)
      ensures r[k].value == ToJson(more[i].value, t)
    {
      LastGrows(es, e, i);
      if i == |es| {
        assert k == m;
      } else {
        assert r[k].key != e.key;
      }
    }
  }

  lemma {:induction false} MembersWin(es: seq<Entry>, ms: seq<Member>, before: seq<Entry>, t: Texts)
    requires LastWins(ms, before, t)
    ensures LastWins(JsonMembers(es, ms, t), before + es, t)
    decreases |es|
  {
    hide ToJson, Put, LastWins;
    if es == [] {
      assert before + es == before;
    } else {
      OneMoreEntry(ms, before, es[0], t);
      MembersWin(es[1..], Put(ms, es[0].key, ToJson(es[0].value, t)), before + [es[0]], t);
      assert before + [es[0]] + es[1..] == before + es;
    }
  }

  lemma NoneWins(t: Texts)
    ensures LastWins([], [], t)
  {
  }

  /** What a value is converted to is the JSON that it stands for. */
  lemma {:induction false} ToJsonIs(v: Value, t: Texts)
    ensures Understood(v, ToJson(v, t), t)
    decreases v
  {
    match v
    case List(items) => AllUnderstood(items, t);
    case Struct(_, fields) => AllUnderstood(fields, t);
    case Map(es) =>
      NoneWins(t);
      MembersWin(es, [], [], t);
      assert [] + es == es;
      forall i | 0 <= i < |es| ensures Understood(es[i].value, ToJson(es[i].value, t), t) {
        ToJsonIs(es[i].value, t);
      }
      MapUnderstood(es, t);
    case _ =>
  }

  lemma {:induction false} AllUnderstood(vs: seq<Value>, t: Texts)
    ensures forall i | 0 <= i < |vs| :: Understood(vs[i], JsonAll(vs, t)[i], t)
    decreases vs
  {
    hide Understood, ToJson;
    forall i | 0 <= i < |vs| ensures Understood(vs[i], JsonAll(vs, t)[i], t) {
      ToJsonIs(vs[i], t);
      JsonAt(vs, t, i);
    }
  }

  lemma MapUnderstood(es: seq<Entry>, t: Texts)
    requires LastWins(JsonMembers(es, [], t), es, t)
    requires forall i | 0 <= i < |es| :: Understood(es[i].value, ToJson(es[i].value, t), t)
    ensures Understood(Map(es), ToJson(Map(es), t), t)
  {
    hide JsonMembers, SameKeys, Last;
    var ms := JsonMembers(es, [], t);
    assert ToJson(Map(es), t) == JObject(ms);
    hide ToJson;
    forall i, k | 0 <= i < |es| && 0 <= k < |ms| && es[i].key == ms[k].key && Last(es, i)
      ensures Understood(es[i].value, ms[k].value, t)
    {
      assert Understood(es[i].value, ToJson(es[i].value, t), t);
    }
  }
}
