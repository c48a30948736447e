/** Cells of exported CSV files: which values survive being written and read back. */
module CsvCells {
  import opened Bytes
  import opened CsvCodec
  import opened Text
  import opened Wrappers

  // ---------- Values ----------

  datatype PropertyValue =
    | Null
    | Bool(b: bool)
    | Long(i: i64)
    | Big(n: BigNumber)
    | Double(bits: FiniteBits)
    | Str(text: string)
    | Arr(items: seq<PropertyValue>)
    | Obj

  /** What a cell is read as; a float may be infinite or not a number. */
  datatype Value = VNull | VBool(b: bool) | VInteger(i: i64) | VFloat(bits: u64) | VString(text: string) | VList(items: seq<Value>)

  function PropertyOf(v: Value): PropertyValue {
    match v
    case VNull => Null
    case VBool(b) => Bool(b)
    case VInteger(i) => Long(i)
    case VFloat(bits) => if Finite(bits) then Double(bits) else Null
    case VString(text) => Str(text)
    case VList(items) => Arr(seq(|items|, i requires 0 <= i < |items| => PropertyOf(items[i])))
  }

  /** How finite doubles are written as text and read from it. */
  datatype FloatCodec = FloatCodec(write: FiniteBits -> string, read: string -> Option<u64>)

  ghost predicate Lossless(floats: FloatCodec) {
    forall b: FiniteBits :: floats.read(floats.write(b)) == Some(b)
  }

  datatype CellOptions = CellOptions(arrayDelimiter: char, vectorDelimiter: char, emptyStringsAsNull: bool)

  // ---------- Export ----------

  datatype ExportError = UnsupportedExportValue(valueType: string) | IncompatibleExportValues

  function ScalarTypeOf(v: PropertyValue): Result<ScalarType, ExportError> {
    match v
    case Str(_) => Ok(StringType)
    case Bool(_) => Ok(BooleanType)
    case Long(_) => Ok(LongType)
    case Big(_) => Ok(DoubleType)
    case Double(_) => Ok(DoubleType)
    case Null => Err(UnsupportedExportValue("null"))
    case Arr(_) => Err(UnsupportedExportValue("nested array"))
    case Obj => Err(UnsupportedExportValue("object"))
  }

  /** The type that all of the items share; the first mismatch is an error. */
  function CommonType(items: seq<PropertyValue>): Result<ScalarType, ExportError>
    requires items != []
  {
    if |items| == 1 then ScalarTypeOf(items[0])
    else
      var n := |items| - 1;
      match CommonType(items[..n])
      case Err(e) => Err(e)
      case Ok(t) =>
        match ScalarTypeOf(items[n])
        case Err(e) => Err(e)
        case Ok(u) => if u == t then Ok(t) else Err(IncompatibleExportValues)
  }

  function ExportValueShape(v: PropertyValue): Result<Shape, ExportError> {
    match v
    case Arr(items) =>
      if items == [] then Err(UnsupportedExportValue("empty array"))
      else
        (match CommonType(items)
         case Err(e) => Err(e)
         case Ok(DoubleType) => Ok(Vector(|items|))
         case Ok(t) => Ok(Array(t)))
    case _ =>
      match ScalarTypeOf(v)
      case Err(e) => Err(e)
      case Ok(t) => Ok(Scalar(t))
  }

  function FormatScalar(v: PropertyValue, floats: FloatCodec): Result<string, ExportError> {
    match v
    case Str(text) => Ok(text)
    case Bool(b) => Ok(if b then "true" else "false")
    case Long(i) => Ok(IntText(i))
    case Big(n) => Ok(Decimal(n))
    case Double(bits) => Ok(floats.write(bits))
    case _ => Err(IncompatibleExportValues)
  }

  function FormatAll(items: seq<PropertyValue>, floats: FloatCodec): Result<seq<string>, ExportError> {
    if items == [] then Ok([])
    else
      var n := |items| - 1;
      match FormatAll(items[..n], floats)
      case Err(e) => Err(e)
      case Ok(texts) =>
        match FormatScalar(items[n], floats)
        case Err(e) => Err(e)
        case Ok(text) => Ok(texts + [text])
  }

  function FormatCell(v: Option<PropertyValue>, shape: Shape, options: CellOptions, floats: FloatCodec): Result<string, ExportError> {
    if v == None then Ok("")
    else if v.value == Null then Err(UnsupportedExportValue("null"))
    else
      match shape
      case Scalar(_) => FormatScalar(v.value, floats)
      case Array(_) => FormatItems(v.value, options.arrayDelimiter, floats)
      case Vector(_) => FormatItems(v.value, options.vectorDelimiter, floats)
  }

  function FormatItems(v: PropertyValue, delimiter: char, floats: FloatCodec): Result<string, ExportError> {
    if !v.Arr? then Err(IncompatibleExportValues)
    else
      match FormatAll(v.items, floats)
      case Err(e) => Err(e)
      case Ok(texts) => Ok(Join(texts, delimiter))
  }

  // ---------- Import ----------

  datatype CellError = NotAProperty | UnsupportedType(valueType: string) | InvalidValue(valueType: string, raw: string)

  function ParseBool(raw: string): Option<bool> {
    if Trim(raw) == "true" then Some(true) else if Trim(raw) == "false" then Some(false) else None
  }

  /** The names of temporal and spatial types stand for text. */
  predicate TextType(t: string) {
    t in ["", "string", "char", "point", "date", "localtime", "time", "localdatetime", "datetime", "duration"]
  }

  predicate IntegerType(t: string) {
    t in ["byte", "short", "int", "long"]
  }

  predicate FloatType(t: string) {
    t in ["float", "double"]
  }

  function ParseScalar(raw: string, valueType: string, floats: FloatCodec): Result<Value, CellError> {
    var t := Lower(valueType);
    if TextType(t) then Ok(VString(raw))
    else if IntegerType(t) then
      var n := ParseInt(raw, -0x8000_0000_0000_0000, 0x7FFF_FFFF_FFFF_FFFF);
      if n.Some? && -0x8000_0000_0000_0000 <= n.value <= 0x7FFF_FFFF_FFFF_FFFF then Ok(VInteger(n.value))
      else Err(InvalidValue(valueType, raw))
    else if FloatType(t) then
      match floats.read(raw)
      case None => Err(InvalidValue(valueType, raw))
      case Some(bits) => Ok(VFloat(bits))
    else if t == "boolean" then
      match ParseBool(raw)
      case None => Err(InvalidValue(valueType, raw))
      case Some(b) => Ok(VBool(b))
    else Err(UnsupportedType(t))
  }

  function ParseAll(parts: seq<string>, valueType: string, floats: FloatCodec): Result<seq<Value>, CellError> {
    if parts == [] then Ok([])
    else
      var n := |parts| - 1;
      match ParseAll(parts[..n], valueType, floats)
      case Err(e) => Err(e)
      case Ok(values) =>
        match ParseScalar(parts[n], valueType, floats)
        case Err(e) => Err(e)
        case Ok(v) => Ok(values + [v])
  }

  function ParseCell(raw: string, column: Column, options: CellOptions, floats: FloatCodec): Result<Value, CellError> {
    if column.kind != Property && column.kind != NamedEmbedding then Err(NotAProperty)
    else if raw == "" && options.emptyStringsAsNull then Ok(VNull)
    else
      var t, n := column.valueType, |column.valueType|;
      if n >= 2 && t[n - 2..] == "[]" then
        match ParseAll(Split(raw, options.arrayDelimiter), t[..n - 2], floats)
        case Err(e) => Err(e)
        case Ok(values) => Ok(VList(values))
      else if t == "vector" then
        // Every part is a float; "double" names the same parser.
        match ParseAll(Split(raw, options.vectorDelimiter), "double", floats)
        case Err(e) => Err(if e.InvalidValue? then InvalidValue("vector", e.raw) else e)
        case Ok(values) =>
          if column.vectorDimensions.Some? && |values| != column.vectorDimensions.value then Err(InvalidValue("vector", raw))
          else Ok(VList(values))
      else ParseScalar(raw, t, floats)
  }

  // ---------- Cells read back ----------

  function Delimiter(shape: Shape, options: CellOptions): char {
    if shape.Vector? then options.vectorDelimiter else options.arrayDelimiter
  }

  /** Nothing in the value is lost in its text: no number over the signed range, no delimiter inside an
      item, and no empty cell where those are read as null. */
  predicate Survives(v: PropertyValue, shape: Shape, options: CellOptions, floats: FloatCodec) {
    && (if v.Arr? then forall i | 0 <= i < |v.items| :: Clean(v.items[i], Delimiter(shape, options), floats) else !v.Big?)
    && !(options.emptyStringsAsNull && FormatCell(Some(v), shape, options, floats) == Ok(""))
  }

  predicate Clean(item: PropertyValue, delimiter: char, floats: FloatCodec) {
    !item.Big? && (FormatScalar(item, floats).Ok? ==> delimiter !in FormatScalar(item, floats).value)
  }

  lemma TypeLower(t: ScalarType)
    ensures Lower(TypeName(t)) == TypeName(t)
  {
    hide Inert, TypeName;
    TypeNamesAreInert(t);
    LowerKeeps(TypeName(t));
  }

  lemma BooleansTrimmed()
    ensures Trim("true") == "true" && Trim("false") == "false"
  {
    TrimKeeps("true");
    TrimKeeps("false");
  }

  /** What the four exported types are read as. */
  function ParseAs(raw: string, t: ScalarType, floats: FloatCodec): Result<Value, CellError> {
    match t
    case StringType => Ok(VString(raw))
    case LongType =>
      var n := ParseInt(raw, -0x8000_0000_0000_0000, 0x7FFF_FFFF_FFFF_FFFF);
      if n.Some? && -0x8000_0000_0000_0000 <= n.value <= 0x7FFF_FFFF_FFFF_FFFF then Ok(VInteger(n.value))
      else Err(InvalidValue("long", raw))
    case DoubleType =>
      if floats.read(raw).Some? then Ok(VFloat(floats.read(raw).value)) else Err(InvalidValue("double", raw))
    case BooleanType =>
      if ParseBool(raw).Some? then Ok(VBool(ParseBool(raw).value)) else Err(InvalidValue("boolean", raw))
  }

  lemma ExportedTypesParse(raw: string, t: ScalarType, floats: FloatCodec)
    ensures ParseScalar(raw, TypeName(t), floats) == ParseAs(raw, t, floats)
  {
    hide Lower, ParseBool, ParseInt;
    TypeLower(t);
  }

  /** A scalar comes back from its text exactly if it is not a number over the signed range. */
  lemma ScalarBack(v: PropertyValue, t: ScalarType, floats: FloatCodec)
    requires Lossless(floats) && ScalarTypeOf(v) == Ok(t)
    ensures FormatScalar(v, floats).Ok?
    ensures var r := ParseScalar(FormatScalar(v, floats).value, TypeName(t), floats);
      (r.Ok? && PropertyOf(r.value) == v) <==> !v.Big?
  {
    hide Trim, Decimal, ParseScalar, ParseInt, IntText, TypeName;
    ExportedTypesParse(FormatScalar(v, floats).value, t, floats);
    match v
    case Bool(_) => BooleansTrimmed();
    case Long(i) => ParseIntText(i, -0x8000_0000_0000_0000, 0x7FFF_FFFF_FFFF_FFFF);
    case Double(bits) => assert floats.read(floats.write(bits)) == Some(bits);
    case _ =>
  }

  lemma {:induction false} ItemsShareType(items: seq<PropertyValue>, t: ScalarType, i: nat)
    requires items != [] && CommonType(items) == Ok(t) && i < |items|
    ensures ScalarTypeOf(items[i]) == Ok(t)
    decreases |items|
  {
    var n := |items| - 1;
    if i < n {
      ItemsShareType(items[..n], t, i);
    } else if n > 0 {
      assert CommonType(items[..n]).Ok?;
    }
  }

  lemma {:induction false} FormattedItems(items: seq<PropertyValue>, floats: FloatCodec)
    requires forall i | 0 <= i < |items| :: FormatScalar(items[i], floats).Ok?
    ensures var r := FormatAll(items, floats);
      r.Ok? && |r.value| == |items| && forall i | 0 <= i < |items| :: r.value[i] == FormatScalar(items[i], floats).value
    decreases |items|
  {
    hide FormatScalar;
    if items != [] {
      FormattedItems(items[..|items| - 1], floats);
    }
  }

  lemma {:induction false} ParsedItems(parts: seq<string>, valueType: string, floats: FloatCodec)
    ensures var r := ParseAll(parts, valueType, floats);
      && (r.Ok? <==> forall i | 0 <= i < |parts| :: ParseScalar(parts[i], valueType, floats).Ok?)
      && (r.Ok? ==> |r.value| == |parts| && forall i | 0 <= i < |parts| :: r.value[i] == ParseScalar(parts[i], valueType, floats).value)
    decreases |parts|
  {
    hide ParseScalar;
    if parts != [] {
      var n := |parts| - 1;
      ParsedItems(parts[..n], valueType, floats);
      assert forall i | 0 <= i < n :: parts[..n][i] == parts[i];
    }
  }

  /** The items of a list come back exactly if each comes back and none holds the delimiter. */
  lemma ListBack(items: seq<PropertyValue>, t: ScalarType, delimiter: char, floats: FloatCodec)
    requires Lossless(floats) && items != [] && CommonType(items) == Ok(t)
    ensures FormatAll(items, floats).Ok?
    ensures var r := ParseAll(Split(Join(FormatAll(items, floats).value, delimiter), delimiter), TypeName(t), floats);
      (r.Ok? && PropertyOf(VList(r.value)) == Arr(items)) <==> forall i | 0 <= i < |items| :: Clean(items[i], delimiter, floats)
  {
    hide Lossless, ParseScalar, FormatScalar, Split, Join, ScalarTypeOf, CommonType, FormatAll, ParseAll, TypeName;
    forall i | 0 <= i < |items|
      ensures ScalarTypeOf(items[i]) == Ok(t) && FormatScalar(items[i], floats).Ok?
    {
      ItemsShareType(items, t, i);
      ScalarBack(items[i], t, floats);
    }
    FormattedItems(items, floats);
    var texts := FormatAll(items, floats).value;
    var parts := Split(Join(texts, delimiter), delimiter);
    ParsedItems(parts, TypeName(t), floats);
    if forall p | p in texts :: delimiter !in p {
      SplitOfJoin(texts, delimiter);
      ListItemsBack(items, t, floats);
    } else {
      SplitLength(Join(texts, delimiter), delimiter);
      MoreParts(texts, delimiter);
      assert |parts| != |items|;
      var p :| p in texts && delimiter in p;
      var i :| 0 <= i < |texts| && texts[i] == p;
      assert !Clean(items[i], delimiter, floats);
    }
  }

  lemma ListItemsBack(items: seq<PropertyValue>, t: ScalarType, floats: FloatCodec)
    requires Lossless(floats) && forall i | 0 <= i < |items| :: ScalarTypeOf(items[i]) == Ok(t)
    requires FormatAll(items, floats).Ok? && |FormatAll(items, floats).value| == |items|
    requires forall i | 0 <= i < |items| :: FormatScalar(items[i], floats) == Ok(FormatAll(items, floats).value[i])
    ensures var r := ParseAll(FormatAll(items, floats).value, TypeName(t), floats);
      (r.Ok? && PropertyOf(VList(r.value)) == Arr(items)) <==> forall i | 0 <= i < |items| :: !items[i].Big?
  {
    hide Lossless, ParseScalar, FormatScalar, ScalarTypeOf, FormatAll, ParseAll, TypeName;
    var texts := FormatAll(items, floats).value;
    ParsedItems(texts, TypeName(t), floats);
    var r := ParseAll(texts, TypeName(t), floats);
    forall i | 0 <= i < |items|
      ensures var x := ParseScalar(texts[i], TypeName(t), floats); (x.Ok? && PropertyOf(x.value) == items[i]) <==> !items[i].Big?
    {
      ScalarBack(items[i], t, floats);
    }
    if r.Ok? {
      assert PropertyOf(VList(r.value)).items == seq(|items|, i requires 0 <= i < |items| => PropertyOf(r.value[i]));
      if PropertyOf(VList(r.value)) == Arr(items) {
        forall i | 0 <= i < |items| ensures !items[i].Big? {
          assert PropertyOf(VList(r.value)).items[i] == PropertyOf(r.value[i]);
        }
      }
    }
  }

  lemma ColumnType(name: string, shape: Shape)
    ensures var t, n := Expected(PropertyColumn(name, shape)).valueType, |Expected(PropertyColumn(name, shape)).valueType|;
      n >= 2 && (t[n - 2..] == "[]" <==> shape.Array?) && (shape.Array? ==> t[..n - 2] == TypeName(shape.t))
      && (t == "vector" <==> shape.Vector?)
  {
    match shape
    case Scalar(t) =>
    case Array(t) =>
      assert (TypeName(t) + "[]")[|TypeName(t)|..] == "[]" && (TypeName(t) + "[]")[..|TypeName(t)|] == TypeName(t);
      assert (TypeName(t) + "[]")[|TypeName(t)|] == '[';
    case Vector(_) => assert "vector"[4..] == "or";
  }

  /** Writing a property's value and reading it under its own column gives the value back exactly if it survives. */
  lemma CellRoundTrip(name: string, v: PropertyValue, options: CellOptions, floats: FloatCodec)
    requires Lossless(floats) && ExportValueShape(v).Ok?
    ensures var shape := ExportValueShape(v).value; FormatCell(Some(v), shape, options, floats).Ok?
    ensures var shape := ExportValueShape(v).value;
      var r := ParseCell(FormatCell(Some(v), shape, options, floats).value, Expected(PropertyColumn(name, shape)), options, floats);
      (r.Ok? && PropertyOf(r.value) == v) <==> Survives(v, shape, options, floats)
  {
    hide Lossless, ParseScalar, FormatScalar, Split, Join, CommonType, FormatAll, ParseAll, TypeName, Clean, Header,
      DimensionsOption;
    var shape := ExportValueShape(v).value;
    ColumnType(name, shape);
    if v.Arr? {
      var t :| CommonType(v.items) == Ok(t);
      ListBack(v.items, t, Delimiter(shape, options), floats);
      ListLength(v.items, t, Delimiter(shape, options), floats);
      DoubleName();
    } else {
      ScalarBack(v, shape.t, floats);
    }
  }

  lemma DoubleName()
    ensures TypeName(DoubleType) == "double"
  {
  }

  /** A list that comes back has its length. */
  lemma ListLength(items: seq<PropertyValue>, t: ScalarType, delimiter: char, floats: FloatCodec)
    requires FormatAll(items, floats).Ok?
    ensures var r := ParseAll(Split(Join(FormatAll(items, floats).value, delimiter), delimiter), TypeName(t), floats);
      r.Ok? && PropertyOf(VList(r.value)) == Arr(items) ==> |r.value| == |items|
  {
  }
}
