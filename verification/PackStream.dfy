/**
 PackStream version 1 as the Bolt server writes and reads it: `Encode` and `Decode` say what
 the bytes mean, and the methods of module PackStreamCodec compute them the way the server does.
 */
module PackStream {
  import opened Bytes

  const DATETIME: byte := 0x49
  const DATETIME_LEGACY: byte := 0x46
  const LOCAL_DATETIME: byte := 0x64

  // ---------- UTF-8 (Unicode Standard, table 3-7) ----------

  predicate Continuation(b: byte) { 0x80 <= b < 0xC0 }

  /** Length of the well-formed UTF-8 sequence that starts `s`, or 0. */
  function Utf8Step(s: seq<byte>): (n: nat)
    ensures n <= |s|
  {
    if |s| >= 1 && s[0] < 0x80 then 1
    else if |s| >= 2 && 0xC2 <= s[0] < 0xE0 && Continuation(s[1]) then 2
    else if |s| >= 3 && 0xE0 <= s[0] < 0xF0 && Continuation(s[1]) && Continuation(s[2])
            && (s[0] == 0xE0 ==> s[1] >= 0xA0) && (s[0] == 0xED ==> s[1] < 0xA0) then 3
    else if |s| >= 4 && 0xF0 <= s[0] < 0xF5 && Continuation(s[1]) && Continuation(s[2])
            && Continuation(s[3]) && (s[0] == 0xF0 ==> s[1] >= 0x90)
            && (s[0] == 0xF4 ==> s[1] < 0x90) then 4
    else 0
  }

  predicate ValidUtf8(s: seq<byte>) {
    s == [] || (Utf8Step(s) > 0 && ValidUtf8(s[Utf8Step(s)..]))
  }

  type Utf8 = s: seq<byte> | ValidUtf8(s) witness []

  // ---------- Values ----------

  datatype Entry = Entry(key: Utf8, value: Value)

  /** A float is kept as its 64 bits, a string as its UTF-8 bytes. */
  datatype Value =
    | Null
    | Bool(b: bool)
    | Integer(i: i64)
    | Float(bits: u64)
    | Bytes(data: seq<byte>)
    | String(text: Utf8)
    | List(items: seq<Value>)
    | Map(entries: seq<Entry>)
    | DateTime(seconds: i64, nanoseconds: i64, offsetSeconds: i64)
    | LocalDateTime(seconds: i64, nanoseconds: i64)
    | Struct(signature: byte, fields: seq<Value>)

  datatype DecodeError = UnexpectedEnd | Truncated | InvalidUtf8 | MapKeyNotString | ReservedMarker(marker: byte)

  datatype Outcome<+T> = Done(value: T, consumed: nat) | Failed(error: DecodeError)

  // ---------- Encoding ----------

  function EncodeInt(i: i64): (s: seq<byte>)
    ensures 1 <= |s| <= 9
  {
    if -16 <= i <= 127 then [i % 256]
    else if -0x80 <= i < 0x80 then [0xC8] + BigEndian(1, i)
    else if -0x8000 <= i < 0x8000 then [0xC9] + BigEndian(2, i)
    else if -0x8000_0000 <= i < 0x8000_0000 then [0xCA] + BigEndian(4, i)
    else [0xCB] + BigEndian(8, i)
  }

  /** A length behind one of the three marker bytes `marker`, `marker + 1`, `marker + 2`;
      a length over 32 bits is cut to its low 32 bits. */
  function EncodeLength(marker: byte, n: nat): (s: seq<byte>)
    requires marker <= 0xD8
    ensures 2 <= |s| <= 5
  {
    if n <= 0xFF then [marker] + BigEndian(1, n)
    else if n <= 0xFFFF then [marker + 1] + BigEndian(2, n)
    else [marker + 2] + BigEndian(4, n)
  }

  function EncodeTinyLength(tiny: byte, marker: byte, n: nat): (s: seq<byte>)
    requires tiny <= 0xA0 && marker <= 0xD8
    ensures 1 <= |s| <= 5
  {
    if n <= 15 then [tiny + n] else EncodeLength(marker, n)
  }

  function EncodeString(text: Utf8): seq<byte> {
    EncodeTinyLength(0x80, 0xD0, |text|) + text
  }

  /** A struct with more than 65535 fields has its count cut to the low 16 bits. */
  function EncodeStructHeader(n: nat, signature: byte): (s: seq<byte>)
    ensures 2 <= |s| <= 4
  {
    (if n <= 15 then [0xB0 + n]
     else if n <= 0xFF then [0xDC] + BigEndian(1, n)
     else [0xDD] + BigEndian(2, n)) + [signature]
  }

  function Encode(v: Value): (s: seq<byte>)
    ensures |s| >= 1
    decreases v
  {
    match v
    case Null => [0xC0]
    case Bool(b) => [if b then 0xC3 else 0xC2]
    case Integer(i) => EncodeInt(i)
    case Float(bits) => [0xC1] + BigEndian(8, bits)
    case Bytes(data) => EncodeLength(0xCC, |data|) + data
    case String(text) => EncodeString(text)
    case List(items) => EncodeTinyLength(0x90, 0xD4, |items|) + EncodeAll(items)
    case Map(entries) => EncodeTinyLength(0xA0, 0xD8, |entries|) + EncodeEntries(entries)
    case DateTime(s, n, o) => EncodeStructHeader(3, DATETIME) + EncodeInt(s) + EncodeInt(n) + EncodeInt(o)
    case LocalDateTime(s, n) => EncodeStructHeader(2, LOCAL_DATETIME) + EncodeInt(s) + EncodeInt(n)
    case Struct(signature, fields) => EncodeStructHeader(|fields|, signature) + EncodeAll(fields)
  }

  function EncodeAll(vs: seq<Value>): seq<byte>
    decreases vs
  {
    if vs == [] then [] else Encode(vs[0]) + EncodeAll(vs[1..])
  }

  function EncodeEntries(es: seq<Entry>): seq<byte>
    decreases es
  {
    if es == [] then [] else EncodeString(es[0].key) + Encode(es[0].value) + EncodeEntries(es[1..])
  }

  // ---------- Decoding ----------

  /** What a marker byte and the length bytes behind it announce. */
  datatype Head =
    | NullHead
    | BoolHead(b: bool)
    | IntHead(i: i64)
    | FloatHead(bits: u64)
    | BytesHead(n: nat)
    | StringHead(n: nat)
    | ListHead(n: nat)
    | MapHead(n: nat)
    | StructHead(n: nat, signature: byte)

  /** The `w` bytes behind the marker. */
  function Operand(d: seq<byte>, w: nat): (o: Outcome<seq<byte>>)
    ensures o.Done? ==> o.consumed == 1 + w <= |d| && |o.value| == w
  {
    if |d| < 1 + w then Failed(Truncated) else Done(d[1..1 + w], 1 + w)
  }

  function SizedInt(d: seq<byte>, w: nat): (o: Outcome<Head>)
    requires w in {1, 2, 4, 8}
    ensures o.Done? ==> 1 <= o.consumed <= |d|
  {
    PowersOf256();
    match Operand(d, w)
    case Failed(e) => Failed(e)
    case Done(s, k) => Done(IntHead(FromBigEndianSigned(s)), k)
  }

  function Sized(d: seq<byte>, w: nat, head: nat -> Head): (o: Outcome<Head>)
    ensures o.Done? ==> 1 <= o.consumed <= |d|
  {
    match Operand(d, w)
    case Failed(e) => Failed(e)
    case Done(s, k) => Done(head(FromBigEndian(s)), k)
  }

  function SizedStruct(d: seq<byte>, w: nat): (o: Outcome<Head>)
    ensures o.Done? ==> 1 <= o.consumed <= |d|
  {
    match Operand(d, w + 1)
    case Failed(e) => Failed(e)
    case Done(s, k) => Done(StructHead(FromBigEndian(s[..w]), s[w]), k)
  }

  function ReadHead(d: seq<byte>): (o: Outcome<Head>)
    ensures o.Done? ==> 1 <= o.consumed <= |d|
  {
    if d == [] then Failed(UnexpectedEnd) else
    var m := d[0];
    if m < 0x80 then Done(IntHead(m), 1)
    else if m < 0x90 then Done(StringHead(m - 0x80), 1)
    else if m < 0xA0 then Done(ListHead(m - 0x90), 1)
    else if m < 0xB0 then Done(MapHead(m - 0xA0), 1)
    else if m < 0xC0 then
      if |d| < 2 then Failed(Truncated) else Done(StructHead(m - 0xB0, d[1]), 2)
    else if m >= 0xF0 then Done(IntHead(m as int - 256), 1)
    else if m == 0xC0 then Done(NullHead, 1)
    else if m == 0xC1 then
      PowersOf256();
      (match Operand(d, 8)
       case Failed(e) => Failed(e)
       case Done(s, k) => Done(FloatHead(FromBigEndian(s)), k))
    else if m == 0xC2 then Done(BoolHead(false), 1)
    else if m == 0xC3 then Done(BoolHead(true), 1)
    else if m == 0xC8 then SizedInt(d, 1)
    else if m == 0xC9 then SizedInt(d, 2)
    else if m == 0xCA then SizedInt(d, 4)
    else if m == 0xCB then SizedInt(d, 8)
    else if m == 0xCC then Sized(d, 1, (n: nat) => BytesHead(n))
    else if m == 0xCD then Sized(d, 2, (n: nat) => BytesHead(n))
    else if m == 0xCE then Sized(d, 4, (n: nat) => BytesHead(n))
    else if m == 0xD0 then Sized(d, 1, (n: nat) => StringHead(n))
    else if m == 0xD1 then Sized(d, 2, (n: nat) => StringHead(n))
    else if m == 0xD2 then Sized(d, 4, (n: nat) => StringHead(n))
    else if m == 0xD4 then Sized(d, 1, (n: nat) => ListHead(n))
    else if m == 0xD5 then Sized(d, 2, (n: nat) => ListHead(n))
    else if m == 0xD6 then Sized(d, 4, (n: nat) => ListHead(n))
    else if m == 0xD8 then Sized(d, 1, (n: nat) => MapHead(n))
    else if m == 0xD9 then Sized(d, 2, (n: nat) => MapHead(n))
    else if m == 0xDA then Sized(d, 4, (n: nat) => MapHead(n))
    else if m == 0xDC then SizedStruct(d, 1)
    else if m == 0xDD then SizedStruct(d, 2)
    else Failed(ReservedMarker(m))
  }

  /** The date-time that a decoded struct stands for, if it is one; extra fields are dropped. */
  function Temporal(signature: byte, fields: seq<Value>): (v: Value)
    ensures v.Struct? ==> v == Struct(signature, fields)
  {
    if (signature == DATETIME || signature == DATETIME_LEGACY) && |fields| >= 3
       && fields[0].Integer? && fields[1].Integer? && fields[2].Integer? then
      DateTime(fields[0].i, fields[1].i, fields[2].i)
    else if signature == LOCAL_DATETIME && |fields| >= 2 && fields[0].Integer? && fields[1].Integer? then
      LocalDateTime(fields[0].i, fields[1].i)
    else
      Struct(signature, fields)
  }

  function Decode(d: seq<byte>): (o: Outcome<Value>)
    ensures o.Done? ==> 1 <= o.consumed <= |d|
    decreases |d|, 0, 0
  {
    match ReadHead(d)
    case Failed(e) => Failed(e)
    case Done(head, k) =>
      match head
      case NullHead => Done(Null, k)
      case BoolHead(b) => Done(Bool(b), k)
      case IntHead(i) => Done(Integer(i), k)
      case FloatHead(bits) => Done(Float(bits), k)
      case BytesHead(n) =>
        if |d| < k + n then Failed(Truncated) else Done(Bytes(d[k..k + n]), k + n)
      case StringHead(n) =>
        if |d| < k + n then Failed(Truncated)
        else if !ValidUtf8(d[k..k + n]) then Failed(InvalidUtf8)
        else Done(String(d[k..k + n]), k + n)
      case ListHead(n) =>
        (match DecodeAll(d[k..], n)
         case Failed(e) => Failed(e)
         case Done(vs, c) => Done(List(vs), k + c))
      case MapHead(n) =>
        (match DecodeEntries(d[k..], n)
         case Failed(e) => Failed(e)
         case Done(es, c) => Done(Map(es), k + c))
      case StructHead(n, signature) =>
        (match DecodeAll(d[k..], n)
         case Failed(e) => Failed(e)
         case Done(vs, c) => Done(Temporal(signature, vs), k + c))
  }

  function DecodeAll(d: seq<byte>, n: nat): (o: Outcome<seq<Value>>)
    ensures o.Done? ==> o.consumed <= |d| && |o.value| == n
    decreases |d|, 1, n
  {
    if n == 0 then Done([], 0) else
    match Decode(d)
    case Failed(e) => Failed(e)
    case Done(v, c) =>
      match DecodeAll(d[c..], n - 1)
      case Failed(e) => Failed(e)
      case Done(vs, c') => Done([v] + vs, c + c')
  }

  function DecodeEntries(d: seq<byte>, n: nat): (o: Outcome<seq<Entry>>)
    ensures o.Done? ==> o.consumed <= |d| && |o.value| == n
    decreases |d|, 1, n
  {
    if n == 0 then Done([], 0) else
    match Decode(d)
    case Failed(e) => Failed(e)
    case Done(key, c) =>
      if !key.String? then Failed(MapKeyNotString) else
      match Decode(d[c..])
      case Failed(e) => Failed(e)
      case Done(v, c') =>
        match DecodeEntries(d[c + c'..], n - 1)
        case Failed(e) => Failed(e)
        case Done(es, c'') => Done([Entry(key.text, v)] + es, c + c' + c'')
  }
}
