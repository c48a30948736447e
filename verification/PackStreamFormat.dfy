/**
 The PackStream format by its bytes: which bytes stand for which value. `Decode` reads a value exactly from the
 bytes that stand for it, and `Encode` writes the shortest of them.
 */
module PackStreamFormat {
  import opened Bytes
  import opened PackStream
  import opened PackStreamProofs

  // ---------- Numbers in bytes, most significant first ----------

  function Two(d: seq<byte>, i: nat): nat
    requires i + 2 <= |d|
  {
    0x100 * (d[i] as int) + d[i + 1]
  }

  function Four(d: seq<byte>, i: nat): nat
    requires i + 4 <= |d|
  {
    0x1_0000 * Two(d, i) + Two(d, i + 2)
  }

  function Eight(d: seq<byte>, i: nat): nat
    requires i + 8 <= |d|
  {
    0x1_0000_0000 * Four(d, i) + Four(d, i + 4)
  }

  /** Two's complement: the upper half of the range stands for the negative numbers. */
  predicate Signed(u: nat, range: nat, i: int) {
    i == if 2 * u < range then u else u - range
  }

  /** The first `n` bytes are the integer `i`, in one of the five forms. */
  predicate IntegerForm(d: seq<byte>, i: int, n: nat) {
    || (n == 1 <= |d| && d[0] <= 0x7F && i == d[0])
    || (n == 1 <= |d| && d[0] >= 0xF0 && i + 0x100 == d[0])
    || (n == 2 <= |d| && d[0] == 0xC8 && Signed(d[1], 0x100, i))
    || (n == 3 <= |d| && d[0] == 0xC9 && Signed(Two(d, 1), 0x1_0000, i))
    || (n == 5 <= |d| && d[0] == 0xCA && Signed(Four(d, 1), 0x1_0000_0000, i))
    || (n == 9 <= |d| && d[0] == 0xCB && Signed(Eight(d, 1), 0x1_0000_0000_0000_0000, i))
  }

  /** The first `k` bytes are a marker of three and the length `n`. */
  predicate LongSize(d: seq<byte>, marker: int, n: nat, k: nat): (r: bool)
    ensures r ==> 1 <= k <= |d|
  {
    || (k == 2 <= |d| && d[0] == marker && n == d[1])
    || (k == 3 <= |d| && d[0] == marker + 1 && n == Two(d, 1))
    || (k == 5 <= |d| && d[0] == marker + 2 && n == Four(d, 1))
  }

  /** A length under 16 may be part of the marker. */
  predicate Size(d: seq<byte>, tiny: int, marker: int, n: nat, k: nat): (r: bool)
    ensures r ==> 1 <= k <= |d|
  {
    (k == 1 <= |d| && n <= 15 && d[0] == tiny + n) || LongSize(d, marker, n, k)
  }

  predicate StructSize(d: seq<byte>, n: nat, signature: byte, k: nat): (r: bool)
    ensures r ==> 1 <= k <= |d|
  {
    || (k == 2 <= |d| && n <= 15 && d[0] == 0xB0 + n && d[1] == signature)
    || (k == 3 <= |d| && d[0] == 0xDC && d[1] == n && d[2] == signature)
    || (k == 4 <= |d| && d[0] == 0xDD && Two(d, 1) == n && d[3] == signature)
  }

  // ---------- Date-times ----------

  /** A struct with signature 0x49 or 0x46 whose first three fields are integers is a date-time. */
  predicate SpellsDateTime(signature: byte, fields: seq<Value>) {
    (signature == 0x49 || signature == 0x46)
    && |fields| >= 3 && fields[0].Integer? && fields[1].Integer? && fields[2].Integer?
  }

  /** One with signature 0x64 whose first two fields are integers is a local date-time. */
  predicate SpellsLocalDateTime(signature: byte, fields: seq<Value>) {
    signature == 0x64 && |fields| >= 2 && fields[0].Integer? && fields[1].Integer?
  }

  predicate Means(signature: byte, fields: seq<Value>, v: Value) {
    if SpellsDateTime(signature, fields) then v == DateTime(fields[0].i, fields[1].i, fields[2].i)
    else if SpellsLocalDateTime(signature, fields) then v == LocalDateTime(fields[0].i, fields[1].i)
    else v == Struct(signature, fields)
  }

  lemma MeansIsTemporal(signature: byte, fields: seq<Value>, v: Value)
    ensures Means(signature, fields, v) <==> v == Temporal(signature, fields)
  {
  }

  // ---------- Values ----------

  predicate Within(d: seq<byte>, k: nat) { k <= |d| }

  /** `d` begins with `n` bytes that stand for `v`. */
  ghost predicate Begins(d: seq<byte>, v: Value, n: nat)
    decreases |d|, 0
  {
    match v
    case Null => n == 1 <= |d| && d[0] == 0xC0
    case Bool(b) => n == 1 <= |d| && d[0] == if b then 0xC3 else 0xC2
    case Integer(i) => IntegerForm(d, i, n)
    case Float(bits) => n == 9 <= |d| && d[0] == 0xC1 && bits == Eight(d, 1)
    case Bytes(data) => exists k: nat :: LongSize(d, 0xCC, |data|, k) && n == k + |data| <= |d| && d[k..n] == data
    case String(text) => exists k: nat :: Size(d, 0x80, 0xD0, |text|, k) && n == k + |text| <= |d| && d[k..n] == text
    case List(items) =>
      exists k: nat :: Size(d, 0x90, 0xD4, |items|, k) && k <= n && BeginsAll(d[k..], items, n - k)
    case Map(entries) =>
      exists k: nat :: Size(d, 0xA0, 0xD8, |entries|, k) && k <= n && BeginsEntries(d[k..], entries, n - k)
    case _ =>
      exists signature, fields, k: nat ::
        Means(signature, fields, v) && StructSize(d, |fields|, signature, k) && k <= n && BeginsAll(d[k..], fields, n - k)
  }

  ghost predicate BeginsAll(d: seq<byte>, vs: seq<Value>, n: nat)
    decreases |d|, 1, |vs|
  {
    if vs == [] then n == 0
    else exists k: nat :: Within(d, k) && 0 < k <= n && Begins(d, vs[0], k) && BeginsAll(d[k..], vs[1..], n - k)
  }

  /** A string as key, then the value, then the other entries. */
  ghost predicate BeginsEntries(d: seq<byte>, es: seq<Entry>, n: nat)
    decreases |d|, 2, |es|
  {
    if es == [] then n == 0
    else exists k: nat :: Within(d, k) && 0 < k <= n && Begins(d, String(es[0].key), k) && BehindKey(d[k..], es, n - k)
  }

  ghost predicate BehindKey(d: seq<byte>, es: seq<Entry>, n: nat)
    requires es != []
    decreases |d|, 1, |es|
  {
    exists k: nat :: Within(d, k) && 0 < k <= n && Begins(d, es[0].value, k) && BeginsEntries(d[k..], es[1..], n - k)
  }

  // ---------- Heads ----------

  lemma OneMore(s: seq<byte>, j: nat)
    requires j < |s|
    ensures FromBigEndian(s[..j + 1]) == 256 * FromBigEndian(s[..j]) + s[j]
  {
    assert s[..j + 1][..j] == s[..j];
  }

  /** Big-endian numbers of one, two, four and eight bytes. */
  lemma Numbers(s: seq<byte>)
    ensures |s| >= 1 ==> FromBigEndian(s[..1]) == s[0]
    ensures |s| >= 2 ==> FromBigEndian(s[..2]) == Two(s, 0)
    ensures |s| >= 4 ==> FromBigEndian(s[..4]) == Four(s, 0)
    ensures |s| >= 8 ==> FromBigEndian(s[..8]) == Eight(s, 0)
  {
    hide FromBigEndian;
    if |s| >= 1 {
      NoBytes(s[..0]);
      OneMore(s, 0);
    }
    if |s| >= 2 {
      OneMore(s, 1);
    }
    if |s| >= 4 {
      OneMore(s, 2);
      OneMore(s, 3);
    }
    if |s| >= 8 {
      OneMore(s, 4);
      OneMore(s, 5);
      OneMore(s, 6);
      OneMore(s, 7);
    }
  }

  lemma NoBytes(s: seq<byte>)
    requires s == []
    ensures FromBigEndian(s) == 0
  {
  }

  /** The operand behind the marker, as a number. */
  lemma OperandNumbers(d: seq<byte>)
    ensures |d| >= 2 ==> FromBigEndian(d[1..2]) == d[1]
    ensures |d| >= 3 ==> FromBigEndian(d[1..3]) == Two(d, 1)
    ensures |d| >= 5 ==> FromBigEndian(d[1..5]) == Four(d, 1)
    ensures |d| >= 9 ==> FromBigEndian(d[1..9]) == Eight(d, 1)
  {
    hide FromBigEndian;
    if |d| >= 2 {
      Numbers(d[1..]);
      assert d[1..][..1] == d[1..2];
    }
    if |d| >= 3 {
      assert d[1..][..2] == d[1..3];
    }
    if |d| >= 5 {
      assert d[1..][..4] == d[1..5];
    }
    if |d| >= 9 {
      assert d[1..][..8] == d[1..9];
    }
  }

  lemma SignedOperands(d: seq<byte>, i: int)
    ensures |d| >= 2 ==> (FromBigEndianSigned(d[1..2]) == i <==> Signed(d[1], 0x100, i))
    ensures |d| >= 3 ==> (FromBigEndianSigned(d[1..3]) == i <==> Signed(Two(d, 1), 0x1_0000, i))
    ensures |d| >= 5 ==> (FromBigEndianSigned(d[1..5]) == i <==> Signed(Four(d, 1), 0x1_0000_0000, i))
    ensures |d| >= 9 ==> (FromBigEndianSigned(d[1..9]) == i <==> Signed(Eight(d, 1), 0x1_0000_0000_0000_0000, i))
  {
    hide FromBigEndian, Pow256, Two, Four, Eight;
    OperandNumbers(d);
    PowersOf256();
  }

  lemma IntegerHead(d: seq<byte>, i: i64, n: nat)
    ensures ReadHead(d) == Done(IntHead(i), n) <==> IntegerForm(d, i, n)
  {
    hide FromBigEndian, FromBigEndianSigned, Pow256, Two, Four, Eight;
    SignedOperands(d, i);
    PowersOf256();
  }

  lemma FloatHeadIs(d: seq<byte>, bits: u64, n: nat)
    ensures ReadHead(d) == Done(FloatHead(bits), n) <==> n == 9 <= |d| && d[0] == 0xC1 && bits == Eight(d, 1)
  {
    hide FromBigEndian, FromBigEndianSigned, Pow256, Two, Four, Eight;
    OperandNumbers(d);
    PowersOf256();
  }

  lemma LongHeads(d: seq<byte>, m: nat, k: nat)
    ensures ReadHead(d) == Done(BytesHead(m), k) <==> LongSize(d, 0xCC, m, k)
    ensures ReadHead(d) == Done(StringHead(m), k) <==> Size(d, 0x80, 0xD0, m, k)
    ensures ReadHead(d) == Done(ListHead(m), k) <==> Size(d, 0x90, 0xD4, m, k)
    ensures ReadHead(d) == Done(MapHead(m), k) <==> Size(d, 0xA0, 0xD8, m, k)
  {
    hide FromBigEndian, FromBigEndianSigned, Pow256, Two, Four;
    OperandNumbers(d);
    PowersOf256();
  }

  lemma StructHeadIs(d: seq<byte>, m: nat, signature: byte, k: nat)
    ensures ReadHead(d) == Done(StructHead(m, signature), k) <==> StructSize(d, m, signature, k)
  {
    hide FromBigEndian, FromBigEndianSigned, Pow256, Two;
    OperandNumbers(d);
    PowersOf256();
    if |d| >= 3 {
      assert d[1..3][..1] == d[1..2];
    }
    if |d| >= 4 {
      assert d[1..4][..2] == d[1..3];
    }
  }

  lemma ConstantHeads(d: seq<byte>, n: nat)
    ensures ReadHead(d) == Done(NullHead, n) <==> n == 1 <= |d| && d[0] == 0xC0
    ensures ReadHead(d) == Done(BoolHead(true), n) <==> n == 1 <= |d| && d[0] == 0xC3
    ensures ReadHead(d) == Done(BoolHead(false), n) <==> n == 1 <= |d| && d[0] == 0xC2
  {
    hide FromBigEndian, FromBigEndianSigned, Pow256;
    PowersOf256();
  }

  // ---------- Decoding reads the format ----------

  /** A value is decoded from every text that stands for it. */
  lemma {:induction false} FormDecodes(d: seq<byte>, v: Value, n: nat)
    requires Begins(d, v, n)
    ensures Decode(d) == Done(v, n)
    decreases |d|, 1
  {
    hide ReadHead, Temporal, Means, Size, LongSize, StructSize, IntegerForm, Two, Four, Eight, DecodeAll, DecodeEntries;
    match v
    case Null => ConstantHeads(d, n);
    case Bool(b) => ConstantHeads(d, n);
    case Integer(i) => IntegerHead(d, i, n);
    case Float(bits) => FloatHeadIs(d, bits, n);
    case Bytes(_) => TextFormDecodes(d, v, n);
    case String(_) => TextFormDecodes(d, v, n);
    case List(_) => ListFormDecodes(d, v, n);
    case Map(_) => MapFormDecodes(d, v, n);
    case _ => StructFormDecodes(d, v, n);
  }

  lemma {:induction false} TextFormDecodes(d: seq<byte>, v: Value, n: nat)
    requires (v.Bytes? || v.String?) && Begins(d, v, n)
    ensures Decode(d) == Done(v, n)
  {
    hide ReadHead, Size, LongSize, DecodeAll, DecodeEntries;
    match v
    case Bytes(data) =>
      var k: nat :| LongSize(d, 0xCC, |data|, k) && n == k + |data| <= |d| && d[k..n] == data;
      LongHeads(d, |data|, k);
    case String(text) =>
      var k: nat :| Size(d, 0x80, 0xD0, |text|, k) && n == k + |text| <= |d| && d[k..n] == text;
      LongHeads(d, |text|, k);
  }

  lemma {:induction false} ListFormDecodes(d: seq<byte>, v: Value, n: nat)
    requires v.List? && Begins(d, v, n)
    ensures Decode(d) == Done(v, n)
    decreases |d|, 0
  {
    hide ReadHead, Size, DecodeAll, DecodeEntries;
    var k: nat :| Size(d, 0x90, 0xD4, |v.items|, k) && k <= n && BeginsAll(d[k..], v.items, n - k);
    LongHeads(d, |v.items|, k);
    FormsDecode(d[k..], v.items, n - k);
  }

  lemma {:induction false} MapFormDecodes(d: seq<byte>, v: Value, n: nat)
    requires v.Map? && Begins(d, v, n)
    ensures Decode(d) == Done(v, n)
    decreases |d|, 0
  {
    hide ReadHead, Size, DecodeAll, DecodeEntries;
    var k: nat :| Size(d, 0xA0, 0xD8, |v.entries|, k) && k <= n && BeginsEntries(d[k..], v.entries, n - k);
    LongHeads(d, |v.entries|, k);
    EntryFormsDecode(d[k..], v.entries, n - k);
  }

  lemma {:induction false} StructFormDecodes(d: seq<byte>, v: Value, n: nat)
    requires (v.DateTime? || v.LocalDateTime? || v.Struct?) && Begins(d, v, n)
    ensures Decode(d) == Done(v, n)
    decreases |d|, 0
  {
    hide ReadHead, Temporal, Means, StructSize, DecodeAll;
    var signature, fields, k: nat :|
      Means(signature, fields, v) && StructSize(d, |fields|, signature, k) && k <= n && BeginsAll(d[k..], fields, n - k);
    StructHeadIs(d, |fields|, signature, k);
    MeansIsTemporal(signature, fields, v);
    FormsDecode(d[k..], fields, n - k);
  }

  lemma {:induction false} FormsDecode(d: seq<byte>, vs: seq<Value>, n: nat)
    requires BeginsAll(d, vs, n)
    ensures DecodeAll(d, |vs|) == Done(vs, n)
    decreases |d|, 2, |vs|
  {
    hide Decode, Begins;
    if vs != [] {
      var k: nat :| Within(d, k) && 0 < k <= n && Begins(d, vs[0], k) && BeginsAll(d[k..], vs[1..], n - k);
      FormDecodes(d, vs[0], k);
      FormsDecode(d[k..], vs[1..], n - k);
      assert vs == [vs[0]] + vs[1..];
    }
  }

  lemma NoEntries(d: seq<byte>)
    ensures DecodeEntries(d, 0) == Done([], 0)
  {
  }

  lemma EntriesFollow(d: seq<byte>, key: Utf8, j: nat, v: Value, k: nat, es: seq<Entry>, c: nat)
    requires Decode(d) == Done(String(key), j) && Decode(d[j..]) == Done(v, k)
    requires DecodeEntries(d[j + k..], |es|) == Done(es, c)
    ensures DecodeEntries(d, |es| + 1) == Done([Entry(key, v)] + es, j + k + c)
  {
    hide Decode, DecodeEntries;
    var first, second, more := d[..j], d[j..][..k], d[j + k..];
    assert second + more == d[j..];
    assert first + (second + more) == d;
    DecodeEntriesStep(first, second, more, key, v, |es|);
  }

  lemma {:induction false} EntryFormsDecode(d: seq<byte>, es: seq<Entry>, n: nat)
    requires BeginsEntries(d, es, n)
    ensures DecodeEntries(d, |es|) == Done(es, n)
    decreases |d|, 2, |es|
  {
    hide Decode, Begins, BehindKey, DecodeEntries;
    if es == [] {
      NoEntries(d);
    } else {
      var j: nat :| Within(d, j) && 0 < j <= n && Begins(d, String(es[0].key), j) && BehindKey(d[j..], es, n - j);
      FormDecodes(d, String(es[0].key), j);
      var k := ValueFormDecodes(d[j..], es, n - j);
      assert d[j..][k..] == d[j + k..];
      assert es == [Entry(es[0].key, es[0].value)] + es[1..];
      EntriesFollow(d, es[0].key, j, es[0].value, k, es[1..], n - j - k);
    }
  }

  lemma {:induction false} ValueFormDecodes(d: seq<byte>, es: seq<Entry>, n: nat) returns (k: nat)
    requires es != [] && BehindKey(d, es, n)
    ensures 0 < k <= n && k <= |d| && Decode(d) == Done(es[0].value, k)
    ensures DecodeEntries(d[k..], |es| - 1) == Done(es[1..], n - k)
    decreases |d|, 2, 0
  {
    hide Decode, Begins, DecodeEntries, BeginsEntries;
    k :| Within(d, k) && 0 < k <= n && Begins(d, es[0].value, k) && BeginsEntries(d[k..], es[1..], n - k);
    FormDecodes(d, es[0].value, k);
    EntryFormsDecode(d[k..], es[1..], n - k);
  }

  /** The bytes that a value was decoded from stand for it. */
  lemma {:induction false} DecodedIsForm(d: seq<byte>)
    requires Decode(d).Done?
    ensures Begins(d, Decode(d).value, Decode(d).consumed)
    decreases |d|, 0
  {
    hide ReadHead, Temporal, Means, Size, LongSize, StructSize, IntegerForm, Two, Four, Eight, DecodeAll, DecodeEntries, BeginsAll,
      BeginsEntries;
    var Done(head, k) := ReadHead(d);
    match head
    case NullHead => ConstantHeads(d, k);
    case BoolHead(b) => ConstantHeads(d, k);
    case IntHead(i) => IntegerHead(d, i, k);
    case FloatHead(bits) => FloatHeadIs(d, bits, k);
    case BytesHead(m) => LongHeads(d, m, k);
    case StringHead(m) => LongHeads(d, m, k);
    case ListHead(m) =>
      LongHeads(d, m, k);
      DecodedAreForms(d[k..], m);
    case MapHead(m) =>
      LongHeads(d, m, k);
      DecodedAreEntries(d[k..], m);
    case StructHead(m, signature) =>
      StructHeadIs(d, m, signature, k);
      DecodedAreForms(d[k..], m);
      MeansIsTemporal(signature, DecodeAll(d[k..], m).value, Decode(d).value);
      TemporalIsStruct(signature, DecodeAll(d[k..], m).value);
  }

  lemma TemporalIsStruct(signature: byte, fields: seq<Value>)
    ensures var v := Temporal(signature, fields); v.DateTime? || v.LocalDateTime? || v.Struct?
  {
  }

  lemma {:induction false} DecodedAreForms(d: seq<byte>, m: nat)
    requires DecodeAll(d, m).Done?
    ensures BeginsAll(d, DecodeAll(d, m).value, DecodeAll(d, m).consumed)
    decreases |d|, 2, m
  {
    hide Decode, Begins;
    if m > 0 {
      DecodedIsForm(d);
      var c := Decode(d).consumed;
      DecodedAreForms(d[c..], m - 1);
      assert Within(d, c);
      assert DecodeAll(d, m).value[1..] == DecodeAll(d[c..], m - 1).value;
    }
  }

  /** The first entry of decoded ones, and the others. */
  lemma EntriesOpen(d: seq<byte>, m: nat)
    requires m > 0 && DecodeEntries(d, m).Done?
    ensures Decode(d).Done? && Decode(d).value.String? && Decode(d).consumed > 0
    ensures var j, es := Decode(d).consumed, DecodeEntries(d, m).value;
      && es != [] && es[0].key == Decode(d).value.text && Decode(d[j..]).Done? && es[0].value == Decode(d[j..]).value
      && var k := Decode(d[j..]).consumed;
         var rest := DecodeEntries(d[j + k..], m - 1);
         rest.Done? && es[1..] == rest.value && DecodeEntries(d, m).consumed == j + k + rest.consumed
  {
    hide Decode;
  }

  lemma {:induction false} DecodedAreEntries(d: seq<byte>, m: nat)
    requires DecodeEntries(d, m).Done?
    ensures BeginsEntries(d, DecodeEntries(d, m).value, DecodeEntries(d, m).consumed)
    decreases |d|, 2, m
  {
    hide Decode, Begins, BehindKey, DecodeEntries;
    if m == 0 {
      NoEntries(d);
    } else {
      EntriesOpen(d, m);
      DecodedIsForm(d);
      var j := Decode(d).consumed;
      assert d[j..][Decode(d[j..]).consumed..] == d[j + Decode(d[j..]).consumed..];
      DecodedIsBehindKey(d[j..], DecodeEntries(d, m).value, m - 1);
      assert Within(d, j);
    }
  }

  lemma {:induction false} DecodedIsBehindKey(d: seq<byte>, es: seq<Entry>, m: nat)
    requires Decode(d).Done? && es != [] && es[0].value == Decode(d).value
    requires DecodeEntries(d[Decode(d).consumed..], m).Done?
    requires es[1..] == DecodeEntries(d[Decode(d).consumed..], m).value
    ensures BehindKey(d, es, Decode(d).consumed + DecodeEntries(d[Decode(d).consumed..], m).consumed)
    decreases |d|, 2, 0
  {
    hide Decode, Begins, DecodeEntries, BeginsEntries;
    var k := Decode(d).consumed;
    DecodedIsForm(d);
    DecodedAreEntries(d[k..], m);
    assert Within(d, k);
  }

  /** Decoding answers with a value and a number of bytes if and only if so many bytes in front stand for the value. */
  lemma DecodesIffBegins(d: seq<byte>, v: Value, n: nat)
    ensures Decode(d) == Done(v, n) <==> Begins(d, v, n)
  {
    hide Decode, Begins;
    if Begins(d, v, n) {
      FormDecodes(d, v, n);
    }
    if Decode(d).Done? {
      DecodedIsForm(d);
    }
  }

  /** What `Encode` writes stands for the value, and nothing shorter does; date-times are written as 0x49 and 0x64. */
  lemma EncodeIsShortestForm(v: Value, rest: seq<byte>)
    requires Fits(v) && TemporalFree(v)
    ensures Begins(Encode(v) + rest, v, |Encode(v)|)
    ensures forall d: seq<byte>, n: nat | Begins(d, v, n) :: |Encode(v)| <= n
    ensures v.DateTime? ==> Encode(v)[..2] == [0xB3, 0x49]
    ensures v.LocalDateTime? ==> Encode(v)[..2] == [0xB2, 0x64]
  {
    hide Decode, Begins;
    ExactRoundTrip(v, rest);
    DecodesIffBegins(Encode(v) + rest, v, |Encode(v)|);
    forall d: seq<byte>, n: nat | Begins(d, v, n) ensures |Encode(v)| <= n {
      FormDecodes(d, v, n);
      EncodeIsMinimal(d);
    }
  }
}
