/** Column headers and cells of exported CSV files, and how an import reads them back. */
module CsvCodec {
  import opened Text
  import opened Wrappers

  // ---------- Columns ----------

  datatype ScalarType = StringType | BooleanType | LongType | DoubleType

  function TypeName(t: ScalarType): string {
    match t
    case StringType => "string"
    case BooleanType => "boolean"
    case LongType => "long"
    case DoubleType => "double"
  }

  datatype Shape = Scalar(t: ScalarType) | Array(t: ScalarType) | Vector(dimensions: nat)

  datatype ExportColumn = PropertyColumn(name: string, shape: Shape) | EmbeddingColumn(name: string, dimensions: nat)

  function Header(c: ExportColumn): string {
    match c
    case EmbeddingColumn(name, dimensions) => ":EMBEDDING(" + name + ")" + DimensionsText(dimensions)
    case PropertyColumn(name, Scalar(t)) => name + ":" + TypeName(t)
    case PropertyColumn(name, Array(t)) => name + ":" + TypeName(t) + "[]"
    case PropertyColumn(name, Vector(dimensions)) => name + ":vector" + DimensionsText(dimensions)
  }

  function DimensionsText(dimensions: nat): string {
    "{dimensions:" + Decimal(dimensions) + "}"
  }

  datatype ColumnKind = Property | Id | Label | Ignore | StartId | EndId | Type | NamedEmbedding

  datatype Column = Column(
    name: string,
    kind: ColumnKind,
    valueType: string,
    idSpace: Option<string>,
    vectorDimensions: Option<nat>,
    options: map<string, string>)

  datatype HeaderError =
    | UnterminatedOptions
    | UnexpectedSuffixAfterOptions
    | InvalidOption(entry: string)
    | UnterminatedArgument
    | UnexpectedSuffixAfterArgument
    | EmptyToken
    | UnsupportedToken(field: string)
    | InvalidDimensions(field: string)

  datatype Token = Token(keyword: string, argument: Option<string>, options: map<string, string>)

  /** The entries `key:value` between the braces; empty ones are passed over. */
  function ParseOptions(entries: seq<string>): Result<map<string, string>, HeaderError> {
    if entries == [] then Ok(map[])
    else
      var n := |entries| - 1;
      match ParseOptions(entries[..n])
      case Err(e) => Err(e)
      case Ok(options) =>
        if entries[n] == "" then Ok(options)
        else
          match Find(entries[n], ':')
          case None => Err(InvalidOption(entries[n]))
          case Some(i) => Ok(options[Lower(Trim(entries[n][..i])) := Trim(entries[n][i + 1..])])
  }

  function ParseBase(base: string, options: map<string, string>): Result<Token, HeaderError> {
    match Find(base, '(')
    case None => if base == "" then Err(EmptyToken) else Ok(Token(base, None, options))
    case Some(open) =>
      match RFind(base, ')')
      case None => Err(UnterminatedArgument)
      case Some(close) =>
        if close != |base| - 1 then Err(UnexpectedSuffixAfterArgument)
        else if open == 0 then Err(EmptyToken)
        else Ok(Token(base[..open], Some(base[open + 1..close]), options))
  }

  function ParseHeaderToken(token: string): Result<Token, HeaderError> {
    match Find(token, '{')
    case None => ParseBase(token, map[])
    case Some(open) =>
      match RFind(token, '}')
      case None => Err(UnterminatedOptions)
      case Some(close) =>
        if close != |token| - 1 then Err(UnexpectedSuffixAfterOptions)
        else
          match ParseOptions(Split(token[open + 1..close], ','))
          case Err(e) => Err(e)
          case Ok(options) => ParseBase(token[..open], options)
  }

  /** What a column token after a leading colon means in a node or relationship file. */
  function ReservedKind(keyword: string, forNodes: bool): Option<ColumnKind> {
    if keyword == "ID" then Some(Id)
    else if keyword == "LABEL" && forNodes then Some(Label)
    else if keyword == "IGNORE" then Some(Ignore)
    else if keyword == "START_ID" && !forNodes then Some(StartId)
    else if keyword == "END_ID" && !forNodes then Some(EndId)
    else if keyword == "TYPE" && !forNodes then Some(Type)
    else if keyword == "EMBEDDING" || keyword == "NAMED_EMBEDDING" then Some(NamedEmbedding)
    else None
  }

  const MAX_USIZE: int := 0xFFFF_FFFF_FFFF_FFFF

  function ParseColumn(field: string, forNodes: bool): Result<Column, HeaderError> {
    if field == "" then Ok(Column("", Ignore, "", None, None, map[]))
    else
      var colon := Find(field, ':');
      match ParseHeaderToken(if colon.Some? then field[colon.value + 1..] else "string")
      case Err(e) => Err(e)
      case Ok(token) => ColumnFrom(field, if colon.Some? then field[..colon.value] else field, token, forNodes)
  }

  function ColumnFrom(field: string, name: string, token: Token, forNodes: bool): Result<Column, HeaderError>
    requires field != ""
  {
    var keyword := Upper(token.keyword);
    var kind := if field[0] == ':' then ReservedKind(keyword, forNodes)
                else if keyword == "ID" then Some(Id) else Some(Property);
    if kind == None then Err(UnsupportedToken(field))
    else
      var valueType := if field[0] == ':' then (if kind.value == NamedEmbedding then "vector" else "")
                       else if keyword == "ID" then "" else Lower(token.keyword);
      var dimensions := if "dimensions" in token.options then ParseNat(token.options["dimensions"], MAX_USIZE) else None;
      if "dimensions" in token.options && dimensions == None then Err(InvalidDimensions(field))
      else
        Ok(Column(if kind.value == NamedEmbedding then (if token.argument.Some? then token.argument.value else "default") else name,
                  kind.value, valueType, token.argument, dimensions, token.options))
  }

  // ---------- Headers read back ----------

  function DimensionsOption(dimensions: nat): map<string, string> {
    map["dimensions" := Decimal(dimensions)]
  }

  /** The column that an exported one is to be read as. */
  function Expected(c: ExportColumn): Column {
    match c
    case EmbeddingColumn(name, d) => Column(name, NamedEmbedding, "vector", Some(name), Some(d), DimensionsOption(d))
    case PropertyColumn(name, Scalar(t)) => Column(name, Property, TypeName(t), None, None, map[])
    case PropertyColumn(name, Array(t)) => Column(name, Property, TypeName(t) + "[]", None, None, map[])
    case PropertyColumn(name, Vector(d)) => Column(name, Property, "vector", None, Some(d), DimensionsOption(d))
  }

  /** The property has a name without a colon, or the embedding a name without an opening brace. */
  predicate Nameable(c: ExportColumn) {
    match c
    case PropertyColumn(name, _) => name != "" && ':' !in name
    case EmbeddingColumn(name, _) => '{' !in name
  }

  predicate DimensionsFit(c: ExportColumn) {
    match c
    case PropertyColumn(_, Vector(d)) => d <= MAX_USIZE
    case EmbeddingColumn(_, d) => d <= MAX_USIZE
    case _ => true
  }

  /** The part of a property's header behind the colon. */
  function TypeToken(shape: Shape): string {
    match shape
    case Scalar(t) => TypeName(t)
    case Array(t) => TypeName(t) + "[]"
    case Vector(d) => "vector" + DimensionsText(d)
  }

  predicate Inert(c: char) {
    c !in ",:{}()" && !IsWhite(c) && !('A' <= c <= 'Z')
  }

  lemma DecimalIsInert(n: nat)
    ensures forall c | c in Decimal(n) :: Inert(c)
  {
    forall c | c in Decimal(n) ensures Inert(c) {
      assert IsDigit(c);
    }
  }

  lemma TypeNamesAreInert(t: ScalarType)
    ensures (forall c | c in TypeName(t) :: Inert(c)) && forall c | c in TypeName(t) + "[]" :: Inert(c)
    ensures |TypeName(t)| >= 4
  {
  }

  lemma LowerKeeps(s: string)
    requires forall c | c in s :: Inert(c)
    ensures Lower(s) == s
  {
    forall i | 0 <= i < |s| ensures Lower(s)[i] == s[i] {
      assert Inert(s[i]);
    }
  }

  lemma DimensionsParsed(d: nat)
    ensures ParseOptions(Split("dimensions:" + Decimal(d), ',')) == Ok(DimensionsOption(d))
  {
    hide Decimal, Trim, Lower;
    DecimalIsInert(d);
    var s := "dimensions:" + Decimal(d);
    assert "dimensions:" == "dimensions" + [':'];
    assert s == "dimensions" + [':'] + Decimal(d);
    OneEntry("dimensions", Decimal(d));
    TrimKeeps(Decimal(d));
    DimensionsKey();
  }

  lemma DimensionsKey()
    ensures Lower(Trim("dimensions")) == "dimensions" && ',' !in "dimensions" && ':' !in "dimensions"
  {
    TrimKeeps("dimensions");
    LowerKeeps("dimensions");
  }

  lemma OneEntry(key: string, value: string)
    requires ',' !in key && ':' !in key && ',' !in value
    ensures ParseOptions(Split(key + [':'] + value, ',')) == Ok(map[Lower(Trim(key)) := Trim(value)])
  {
    hide Trim, Lower;
    var s := key + [':'] + value;
    assert Split(s, ',') == [s];
    FindHere(key, ':', value);
    assert s[..|key|] == key && s[|key| + 1..] == value;
    var entries: seq<string> := [s];
    assert entries[..0] == [];
  }

  lemma BracedToken(base: string, d: nat)
    requires '{' !in base
    ensures ParseHeaderToken(base + DimensionsText(d)) == ParseBase(base, DimensionsOption(d))
  {
    DecimalIsInert(d);
    var inner := "dimensions:" + Decimal(d);
    var token := base + DimensionsText(d);
    assert "{dimensions:" == ['{'] + "dimensions:";
    assert token == base + ['{'] + (inner + "}");
    FindHere(base, '{', inner + "}");
    assert token == (base + ['{'] + inner) + ['}'];
    RFindLast(base + ['{'] + inner, '}');
    assert token[|base| + 1..|token| - 1] == inner;
    assert token[..|base|] == base;
    DimensionsParsed(d);
  }

  lemma PlainToken(token: string)
    requires token != "" && forall c | c in token :: Inert(c)
    ensures ParseHeaderToken(token) == Ok(Token(token, None, map[]))
    ensures '{' !in token && '(' !in token
  {
  }

  /** What the type part of a property's header is read as. */
  function ShapeToken(shape: Shape): Token {
    match shape
    case Scalar(t) => Token(TypeName(t), None, map[])
    case Array(t) => Token(TypeName(t) + "[]", None, map[])
    case Vector(d) => Token("vector", None, DimensionsOption(d))
  }

  lemma TypeTokenParsed(shape: Shape)
    ensures ParseHeaderToken(TypeToken(shape)) == Ok(ShapeToken(shape))
  {
    hide ParseHeaderToken, DimensionsText, DimensionsOption, Inert, TypeName;
    match shape
    case Scalar(t) =>
      TypeNamesAreInert(t);
      PlainToken(TypeName(t));
    case Array(t) =>
      TypeNamesAreInert(t);
      PlainToken(TypeName(t) + "[]");
    case Vector(d) =>
      VectorIsInert();
      PlainToken("vector");
      BracedToken("vector", d);
      PlainBase("vector", DimensionsOption(d));
  }

  lemma VectorIsInert()
    ensures forall c | c in "vector" :: Inert(c)
  {
  }

  lemma PlainBase(base: string, options: map<string, string>)
    requires base != "" && '(' !in base
    ensures ParseBase(base, options) == Ok(Token(base, None, options))
  {
  }

  lemma PropertyHeader(name: string, shape: Shape, forNodes: bool)
    requires name != "" && ':' !in name && DimensionsFit(PropertyColumn(name, shape))
    ensures ParseColumn(Header(PropertyColumn(name, shape)), forNodes) == Ok(Expected(PropertyColumn(name, shape)))
  {
    hide ParseHeaderToken, DimensionsText, TypeName, Inert, ReservedKind;
    var c, token := PropertyColumn(name, shape), TypeToken(shape);
    var field := Header(c);
    assert field == name + [':'] + token;
    FindHere(name, ':', token);
    assert field[..|name|] == name && field[|name| + 1..] == token && field[0] == name[0] != ':';
    TypeTokenParsed(shape);
    ShapeKeyword(shape);
    if shape.Vector? {
      DimensionsBack(shape.dimensions);
    }
  }

  lemma ShapeKeyword(shape: Shape)
    ensures Lower(ShapeToken(shape).keyword) == ShapeToken(shape).keyword && Upper(ShapeToken(shape).keyword) != "ID"
  {
    hide Inert, TypeName;
    match shape
    case Scalar(t) =>
      TypeNamesAreInert(t);
      LowerKeeps(TypeName(t));
    case Array(t) =>
      TypeNamesAreInert(t);
      LowerKeeps(TypeName(t) + "[]");
    case Vector(_) =>
      VectorIsInert();
      LowerKeeps("vector");
  }

  lemma DimensionsBack(d: nat)
    requires d <= MAX_USIZE
    ensures "dimensions" in DimensionsOption(d)
    ensures ParseNat(DimensionsOption(d)["dimensions"], MAX_USIZE) == Some(d)
  {
    ParseNatDecimal(d, MAX_USIZE);
  }

  function EmbeddingToken(name: string, d: nat): string {
    "EMBEDDING(" + name + ")" + DimensionsText(d)
  }

  lemma EmbeddingField(name: string, d: nat)
    ensures var field := Header(EmbeddingColumn(name, d));
      && field == [':'] + EmbeddingToken(name, d) && Find(field, ':') == Some(0)
      && field[..0] == "" && field[1..] == EmbeddingToken(name, d)
  {
    hide DimensionsText;
    assert ":EMBEDDING(" == [':'] + "EMBEDDING(";
    var field := Header(EmbeddingColumn(name, d));
    assert field == [':'] + EmbeddingToken(name, d);
    assert field[0] == ':';
  }

  lemma EmbeddingTokenParsed(name: string, d: nat)
    requires '{' !in name
    ensures ParseHeaderToken(EmbeddingToken(name, d)) == Ok(Token("EMBEDDING", Some(name), DimensionsOption(d)))
  {
    hide ParseHeaderToken, ParseBase, DimensionsText, DimensionsOption;
    var base := "EMBEDDING(" + name + ")";
    assert '{' !in base;
    BracedToken(base, d);
    EmbeddingBase(name, DimensionsOption(d));
  }

  lemma EmbeddingHeader(name: string, d: nat, forNodes: bool)
    requires '{' !in name && d <= MAX_USIZE
    ensures ParseColumn(Header(EmbeddingColumn(name, d)), forNodes) == Ok(Expected(EmbeddingColumn(name, d)))
  {
    hide Header, Find, EmbeddingToken, ParseHeaderToken, DimensionsOption, ParseNat, Upper, Lower;
    EmbeddingField(name, d);
    EmbeddingTokenParsed(name, d);
    DimensionsBack(d);
    EmbeddingKeyword();
  }

  lemma EmbeddingKeyword()
    ensures Upper("EMBEDDING") == "EMBEDDING"
  {
  }

  lemma EmbeddingBase(name: string, options: map<string, string>)
    ensures ParseBase("EMBEDDING(" + name + ")", options) == Ok(Token("EMBEDDING", Some(name), options))
  {
    var base := "EMBEDDING(" + name + ")";
    assert "EMBEDDING(" == "EMBEDDING" + ['('];
    assert base == "EMBEDDING" + ['('] + (name + ")");
    FindHere("EMBEDDING", '(', name + ")");
    RFindLast("EMBEDDING(" + name, ')');
    assert base == ("EMBEDDING(" + name) + [')'];
    assert base[10..|base| - 1] == name && base[..9] == "EMBEDDING";
  }

  /** Reading an exported header gives the column back exactly when its name allows it. */
  lemma HeaderRoundTrip(c: ExportColumn, forNodes: bool)
    requires DimensionsFit(c)
    ensures ParseColumn(Header(c), forNodes) == Ok(Expected(c)) <==> Nameable(c)
  {
    hide ParseColumn, Header, Expected;
    match c
    case PropertyColumn(name, shape) =>
      if Nameable(c) {
        PropertyHeader(name, shape, forNodes);
      } else {
        PropertyNameLost(c, forNodes);
      }
    case EmbeddingColumn(name, d) =>
      if Nameable(c) {
        EmbeddingHeader(name, d, forNodes);
      } else {
        EmbeddingNameLost(c, forNodes);
      }
  }

  lemma ColumnName(field: string, name: string, token: Token, forNodes: bool)
    requires field != ""
    ensures var r := ColumnFrom(field, name, token, forNodes);
      r.Ok? && r.value.kind == Property ==> field[0] != ':' && r.value.name == name
  {
    hide ParseNat, Upper, Lower;
  }

  /** A colon ends the name, so a name with a colon is cut, and an empty one makes a reserved column. */
  lemma PropertyNameLost(c: ExportColumn, forNodes: bool)
    requires c.PropertyColumn? && !Nameable(c)
    ensures ParseColumn(Header(c), forNodes) != Ok(Expected(c))
  {
    hide ParseHeaderToken, DimensionsText, TypeName, ColumnFrom, DimensionsOption;
    var field, token := Header(c), TypeToken(c.shape);
    assert field == c.name + [':'] + token;
    var colon := Find(field, ':');
    var parsed := ParseHeaderToken(field[colon.value + 1..]);
    if parsed.Ok? {
      ColumnName(field, field[..colon.value], parsed.value, forNodes);
    }
    if c.name == "" {
      assert field[0] == ':';
    } else {
      var j :| 0 <= j < |c.name| && c.name[j] == ':';
      assert field[j] == ':' && forall k | j < k <= |field| :: field[..k][j] == ':';
      assert |field[..colon.value]| <= j < |c.name|;
    }
  }

  /** What is read as the name ends before the first opening brace. */
  lemma EmbeddingNameLost(c: ExportColumn, forNodes: bool)
    requires c.EmbeddingColumn? && !Nameable(c)
    ensures ParseColumn(Header(c), forNodes) != Ok(Expected(c))
  {
    hide Header, Find, DimensionsText, ParseHeaderToken, ParseNat, Upper, Lower, Decimal;
    var token := EmbeddingToken(c.name, c.dimensions);
    EmbeddingField(c.name, c.dimensions);
    ArgumentHasNoBrace(token);
  }

  lemma ArgumentHasNoBrace(token: string)
    ensures var r := ParseHeaderToken(token); r.Ok? && r.value.argument.Some? ==> '{' !in r.value.argument.value
  {
    hide ParseOptions;
    var open := Find(token, '{');
    var base := if open.Some? then token[..open.value] else token;
    assert '{' !in base;
    assert forall i, j | 0 <= i <= j <= |base| :: forall k | 0 <= k < j - i :: base[i..j][k] == base[i + k];
  }
}
