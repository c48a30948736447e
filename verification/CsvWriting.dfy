/** What an export writes into its CSV files, by the characters. */
module CsvWriting {
  import opened Bytes
  import opened CsvCells
  import opened CsvCodec
  import opened Numerals
  import opened Text
  import opened Wrappers

  // ---------- Headers ----------

  predicate Named(t: ScalarType, name: string) {
    match t
    case StringType => name == "string"
    case BooleanType => name == "boolean"
    case LongType => name == "long"
    case DoubleType => name == "double"
  }

  /** The header of an exported column. */
  ghost predicate Announces(header: string, c: ExportColumn) {
    match c
    case PropertyColumn(name, Scalar(t)) => exists word :: Named(t, word) && header == name + ":" + word
    case PropertyColumn(name, Array(t)) => exists word :: Named(t, word) && header == name + ":" + word + "[]"
    case PropertyColumn(name, Vector(d)) => exists word :: Numeral(word, d) && header == name + ":vector{dimensions:" + word + "}"
    case EmbeddingColumn(name, d) =>
      exists word :: Numeral(word, d) && header == ":EMBEDDING(" + name + "){dimensions:" + word + "}"
  }

  lemma NamedIs(t: ScalarType, name: string)
    ensures Named(t, name) <==> name == TypeName(t)
  {
  }

  lemma HeaderAnnounces(c: ExportColumn, header: string)
    ensures Header(c) == header <==> Announces(header, c)
  {
    hide Named, Numeral, Decimal, TypeName;
    forall t: ScalarType, word ensures Named(t, word) <==> word == TypeName(t) {
      NamedIs(t, word);
    }
    forall d: nat, word ensures Numeral(word, d) <==> word == Decimal(d) {
      NumeralIs(word, d);
    }
    match c
    case PropertyColumn(_, Scalar(t)) => assert Named(t, TypeName(t));
    case PropertyColumn(_, Array(t)) => assert Named(t, TypeName(t));
    case PropertyColumn(name, Vector(d)) =>
      assert Numeral(Decimal(d), d);
      assert name + ":vector{dimensions:" + Decimal(d) + "}" == name + ":vector" + ("{dimensions:" + Decimal(d) + "}") by {
        assert ":vector{dimensions:" == ":vector" + "{dimensions:";
      }
    case EmbeddingColumn(name, d) =>
      assert Numeral(Decimal(d), d);
      assert ":EMBEDDING(" + name + "){dimensions:" + Decimal(d) + "}"
          == ":EMBEDDING(" + name + ")" + ("{dimensions:" + Decimal(d) + "}") by {
        assert "){dimensions:" == ")" + "{dimensions:";
      }
  }

  // ---------- Shapes ----------

  predicate HasType(v: PropertyValue, t: ScalarType) {
    match v
    case Str(_) => t == StringType
    case Bool(_) => t == BooleanType
    case Long(_) => t == LongType
    case Big(_) => t == DoubleType
    case Double(_) => t == DoubleType
    case _ => false
  }

  /** Lists hold items of one type, and those of doubles are vectors. */
  ghost predicate HasShape(v: PropertyValue, shape: Shape) {
    match shape
    case Scalar(t) => HasType(v, t)
    case Array(t) => t != DoubleType && v.Arr? && v.items != [] && forall i | 0 <= i < |v.items| :: HasType(v.items[i], t)
    case Vector(n) => v.Arr? && n == |v.items| > 0 && forall i | 0 <= i < |v.items| :: HasType(v.items[i], DoubleType)
  }

  lemma TypeIs(v: PropertyValue, t: ScalarType)
    ensures ScalarTypeOf(v) == Ok(t) <==> HasType(v, t)
  {
  }

  lemma {:induction false} CommonTypeIs(items: seq<PropertyValue>, t: ScalarType)
    requires items != []
    ensures CommonType(items) == Ok(t) <==> forall i | 0 <= i < |items| :: HasType(items[i], t)
    decreases |items|
  {
    hide HasType, ScalarTypeOf;
    var n := |items| - 1;
    TypeIs(items[n], t);
    if n > 0 {
      CommonTypeIs(items[..n], t);
      assert forall i | 0 <= i < n :: items[..n][i] == items[i];
    }
  }

  lemma ShapeIs(v: PropertyValue, shape: Shape)
    ensures ExportValueShape(v) == Ok(shape) <==> HasShape(v, shape)
  {
    hide HasType, CommonType, ScalarTypeOf;
    match v
    case Arr(items) =>
      if items != [] {
        CommonTypeIs(items, StringType);
        CommonTypeIs(items, BooleanType);
        CommonTypeIs(items, LongType);
        CommonTypeIs(items, DoubleType);
      }
      ListHasNoType(items);
    case _ =>
      forall t ensures ScalarTypeOf(v) == Ok(t) <==> HasType(v, t) {
        TypeIs(v, t);
      }
  }

  lemma ListHasNoType(items: seq<PropertyValue>)
    ensures forall t :: !HasType(Arr(items), t)
  {
  }

  // ---------- Cells ----------

  ghost predicate Reads(v: PropertyValue, text: string, floats: FloatCodec) {
    match v
    case Str(s) => text == s
    case Bool(b) => text == if b then "true" else "false"
    case Long(i) => if i < 0 then |text| > 1 && text[0] == '-' && Numeral(text[1..], -(i as int)) else Numeral(text, i)
    case Big(n) => Numeral(text, n)
    case Double(bits) => text == floats.write(bits)
    case _ => false
  }

  /** The texts with the delimiter between them. */
  predicate Joined(parts: seq<string>, c: char, text: string)
    decreases |parts|
  {
    if parts == [] then text == ""
    else if |parts| == 1 then text == parts[0]
    else |text| > |parts[0]| && text[..|parts[0]|] == parts[0] && text[|parts[0]|] == c
         && Joined(parts[1..], c, text[|parts[0]| + 1..])
  }

  ghost predicate AllRead(items: seq<PropertyValue>, texts: seq<string>, floats: FloatCodec) {
    |texts| == |items| && forall i | 0 <= i < |items| :: Reads(items[i], texts[i], floats)
  }

  /** A value that a record does not have is an empty cell. */
  ghost predicate Shows(v: Option<PropertyValue>, shape: Shape, options: CellOptions, floats: FloatCodec, text: string) {
    if v == None then text == ""
    else if shape.Scalar? then Reads(v.value, text, floats)
    else
      && v.value.Arr?
      && exists texts :: AllRead(v.value.items, texts, floats)
                         && Joined(texts, if shape.Vector? then options.vectorDelimiter else options.arrayDelimiter, text)
  }

  lemma ScalarReads(v: PropertyValue, text: string, floats: FloatCodec)
    ensures FormatScalar(v, floats) == Ok(text) <==> Reads(v, text, floats)
  {
    hide Numeral, Decimal;
    match v
    case Long(i) =>
      if i < 0 {
        if |text| > 1 {
          NumeralIs(text[1..], -(i as int));
          assert text == [text[0]] + text[1..];
        }
      } else {
        NumeralIs(text, i);
      }
    case Big(n) => NumeralIs(text, n);
    case _ =>
  }

  lemma {:induction false} JoinedIs(parts: seq<string>, c: char, text: string)
    ensures Join(parts, c) == text <==> Joined(parts, c, text)
    decreases |parts|
  {
    if |parts| > 1 {
      var n := |parts[0]|;
      var rest := Join(parts[1..], c);
      var s := parts[0] + [c] + rest;
      assert s[..n] == parts[0] && s[n] == c && s[n + 1..] == rest;
      if |text| > n {
        JoinedIs(parts[1..], c, text[n + 1..]);
        assert text == text[..n] + [text[n]] + text[n + 1..];
      }
    }
  }

  lemma {:induction false} AllReads(items: seq<PropertyValue>, texts: seq<string>, floats: FloatCodec)
    ensures FormatAll(items, floats) == Ok(texts) <==> AllRead(items, texts, floats)
    decreases |items|
  {
    hide FormatScalar, Reads;
    if items != [] && texts != [] {
      var n, m := |items| - 1, |texts| - 1;
      AllReads(items[..n], texts[..m], floats);
      ScalarReads(items[n], texts[m], floats);
      assert texts == texts[..m] + [texts[m]];
    }
  }

  /** An export writes into a cell exactly what shows the value. */
  lemma CellShows(v: Option<PropertyValue>, shape: Shape, options: CellOptions, floats: FloatCodec, text: string)
    ensures FormatCell(v, shape, options, floats) == Ok(text) <==> Shows(v, shape, options, floats, text)
  {
    hide FormatAll, AllRead, Join, Joined, FormatScalar, Reads;
    if v.Some? {
      NullReadsAsNothing(text, floats);
      ScalarReads(v.value, text, floats);
      if v.value.Arr? {
        var items := v.value.items;
        forall texts ensures FormatAll(items, floats) == Ok(texts) <==> AllRead(items, texts, floats) {
          AllReads(items, texts, floats);
        }
        if FormatAll(items, floats).Ok? {
          var texts := FormatAll(items, floats).value;
          assert AllRead(items, texts, floats);
          JoinedIs(texts, options.vectorDelimiter, text);
          JoinedIs(texts, options.arrayDelimiter, text);
        }
      }
    }
  }

  lemma NullReadsAsNothing(text: string, floats: FloatCodec)
    ensures !Reads(Null, text, floats)
  {
  }
}
