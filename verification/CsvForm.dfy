/** What column headers and cells of imported CSV files say, by their characters. */
module CsvForm {
  import opened Bytes
  import opened CsvCells
  import opened CsvCodec
  import opened Numerals
  import opened Text
  import opened Wrappers

  // ---------- Words ----------

  predicate SameLetter(a: char, b: char) {
    || a == b
    || ('a' <= a <= 'z' && b == a - 'a' + 'A')
    || ('a' <= b <= 'z' && a == b - 'a' + 'A')
  }

  /** Equal up to the case of letters. */
  predicate SameWord(s: string, t: string) {
    |s| == |t| && forall i | 0 <= i < |s| :: SameLetter(s[i], t[i])
  }

  /** `t` is `s` with its letters in lower case. */
  predicate InLowerCase(s: string, t: string) {
    SameWord(s, t) && forall i | 0 <= i < |t| :: !('A' <= t[i] <= 'Z')
  }

  predicate Blank(c: char) {
    c == ' ' || c == '\t' || c == '\n' || c == '\r'
  }

  /** `t` is `s` without the blanks around it. */
  ghost predicate Stripped(s: string, t: string) {
    && (t != "" ==> !Blank(t[0]) && !Blank(t[|t| - 1]))
    && exists front, back :: s == front + t + back && AllBlank(front) && AllBlank(back)
  }

  predicate AllBlank(s: string) {
    forall i | 0 <= i < |s| :: Blank(s[i])
  }

  lemma UpperIs(s: string, t: string)
    requires forall i | 0 <= i < |t| :: !('a' <= t[i] <= 'z')
    ensures Upper(s) == t <==> SameWord(s, t)
  {
    if SameWord(s, t) {
      forall i | 0 <= i < |s| ensures Upper(s)[i] == t[i] {
        assert SameLetter(s[i], t[i]);
      }
    }
  }

  lemma LowerIs(s: string, t: string)
    ensures Lower(s) == t <==> InLowerCase(s, t)
  {
    if InLowerCase(s, t) {
      forall i | 0 <= i < |s| ensures Lower(s)[i] == t[i] {
        assert SameLetter(s[i], t[i]);
      }
    }
  }

  lemma BlankIs(c: char)
    ensures Blank(c) <==> IsWhite(c)
  {
  }

  lemma {:induction false} TrimStrips(s: string)
    ensures Stripped(s, Trim(s))
    decreases |s|
  {
    hide Blank, IsWhite, Stripped;
    if s == "" {
      StripNone(s);
    } else {
      BlankIs(s[0]);
      BlankIs(s[|s| - 1]);
      if IsWhite(s[0]) {
        TrimStrips(s[1..]);
        assert s[1..] == s[1..|s|];
        StripMore(s, 1, |s|, Trim(s));
      } else if IsWhite(s[|s| - 1]) {
        TrimStrips(s[..|s| - 1]);
        assert s[..|s| - 1] == s[0..|s| - 1];
        StripMore(s, 0, |s| - 1, Trim(s));
      } else {
        StripNone(s);
      }
    }
  }

  lemma StripNone(s: string)
    requires s != "" ==> !Blank(s[0]) && !Blank(s[|s| - 1])
    ensures Stripped(s, s)
  {
    assert s == "" + s + "" && AllBlank("");
  }

  lemma StripMore(s: string, i: nat, j: nat, t: string)
    requires i <= j <= |s| && Stripped(s[i..j], t) && AllBlank(s[..i]) && AllBlank(s[j..])
    ensures Stripped(s, t)
  {
    hide Blank, AllBlank;
    var front, back :| s[i..j] == front + t + back && AllBlank(front) && AllBlank(back);
    BlanksAppend(s[..i], front);
    BlanksAppend(back, s[j..]);
    Around(s[..i], front, t, back, s[j..]);
    assert s == s[..i] + s[i..j] + s[j..];
  }

  lemma BlanksAppend(a: string, b: string)
    requires AllBlank(a) && AllBlank(b)
    ensures AllBlank(a + b)
  {
  }

  lemma Around(a: string, b: string, t: string, c: string, d: string)
    ensures a + (b + t + c) + d == (a + b) + t + (c + d)
  {
  }

  lemma {:induction false} StrippedIsTrim(s: string, t: string, front: string, back: string)
    requires s == front + t + back && AllBlank(front) && AllBlank(back)
    requires t != "" ==> !Blank(t[0]) && !Blank(t[|t| - 1])
    ensures Trim(s) == t
    decreases |s|
  {
    hide Blank, IsWhite;
    if s != "" {
      BlankIs(s[0]);
      BlankIs(s[|s| - 1]);
      if front != "" {
        assert s[1..] == front[1..] + t + back;
        StrippedIsTrim(s[1..], t, front[1..], back);
      } else if back != "" && t != "" {
        assert s[..|s| - 1] == front + t + back[..|back| - 1];
        StrippedIsTrim(s[..|s| - 1], t, front, back[..|back| - 1]);
      } else if back != "" {
        assert s[1..] == front + t + back[1..];
        StrippedIsTrim(s[1..], t, front, back[1..]);
      } else {
        assert s == t;
      }
    }
  }

  lemma TrimIs(s: string, t: string)
    ensures Trim(s) == t <==> Stripped(s, t)
  {
    hide Trim, Blank;
    TrimStrips(s);
    if Stripped(s, t) {
      var front, back :| s == front + t + back && AllBlank(front) && AllBlank(back);
      StrippedIsTrim(s, t, front, back);
    }
  }

  // ---------- Cutting ----------

  /** `s` is `before`, then the first `c` in it, then `after`. */
  predicate FirstCut(s: string, c: char, before: string, after: string) {
    s == before + [c] + after && c !in before
  }

  lemma FindIs(s: string, c: char, before: string, after: string)
    ensures FirstCut(s, c, before, after)
       <==> Find(s, c).Some? && before == s[..Find(s, c).value] && after == s[Find(s, c).value + 1..]
  {
    hide Find;
    if FirstCut(s, c, before, after) {
      FindHere(before, c, after);
    }
  }

  /** The parts are what stands between the delimiters. */
  ghost predicate Parts(s: string, c: char, parts: seq<string>)
    decreases |parts|
  {
    if |parts| <= 1 then parts == [s] && c !in s
    else exists rest :: FirstCut(s, c, parts[0], rest) && Parts(rest, c, parts[1..])
  }

  lemma {:induction false} SplitIs(s: string, c: char, parts: seq<string>)
    ensures Split(s, c) == parts <==> Parts(s, c, parts)
    decreases |s|
  {
    hide Find;
    var found := Find(s, c);
    if found == None {
      forall before, after ensures !FirstCut(s, c, before, after) {
        FindIs(s, c, before, after);
      }
    } else {
      var i := found.value;
      var rest := s[i + 1..];
      forall before, after ensures FirstCut(s, c, before, after) <==> before == s[..i] && after == rest {
        FindIs(s, c, before, after);
      }
      if parts != [] {
        SplitIs(rest, c, parts[1..]);
        assert parts == [parts[0]] + parts[1..];
      }
      assert Split(s, c) == [s[..i]] + Split(rest, c);
      assert Split(s, c)[1..] == Split(rest, c);
    }
  }

  // ---------- Headers ----------

  /** Between the braces stand `key:value` pairs with commas between them; of equal keys the last one counts. */
  ghost predicate Options(entries: seq<string>, options: map<string, string>)
    decreases |entries|
  {
    if entries == [] then options == map[]
    else
      var last, before := entries[|entries| - 1], entries[..|entries| - 1];
      if last == "" then Options(before, options)
      else exists earlier, rawKey, rawValue, trimmed, key, value ::
             && FirstCut(last, ':', rawKey, rawValue) && Stripped(rawKey, trimmed) && InLowerCase(trimmed, key)
             && Stripped(rawValue, value) && Options(before, earlier) && options == earlier[key := value]
  }

  /** A keyword, perhaps with an argument in parentheses. */
  predicate Base(base: string, keyword: string, argument: Option<string>) {
    && keyword != "" && '(' !in keyword
    && base == match argument case None => keyword case Some(a) => keyword + "(" + a + ")"
  }

  predicate Braced(token: string, base: string, inner: string) {
    token == base + "{" + inner + "}" && '{' !in base
  }

  /** The part behind the colon: the keyword with its argument, and perhaps options in braces. */
  ghost predicate TokenIs(token: string, keyword: string, argument: Option<string>, options: map<string, string>) {
    || (Base(token, keyword, argument) && '{' !in token && options == map[])
    || (exists base, inner, entries ::
          && Braced(token, base, inner) && Base(base, keyword, argument)
          && Parts(inner, ',', entries) && Options(entries, options))
  }

  /** What a keyword behind a leading colon makes of its column. */
  predicate Reserved(keyword: string, forNodes: bool, kind: ColumnKind) {
    || (SameWord(keyword, "ID") && kind == Id)
    || (SameWord(keyword, "IGNORE") && kind == Ignore)
    || (SameWord(keyword, "LABEL") && forNodes && kind == Label)
    || (SameWord(keyword, "START_ID") && !forNodes && kind == StartId)
    || (SameWord(keyword, "END_ID") && !forNodes && kind == EndId)
    || (SameWord(keyword, "TYPE") && !forNodes && kind == Type)
    || (SameWord(keyword, "EMBEDDING") && kind == NamedEmbedding)
    || (SameWord(keyword, "NAMED_EMBEDDING") && kind == NamedEmbedding)
  }

  /** The dimensions are a number below 2^64, where they are given. */
  ghost predicate Dimensions(options: map<string, string>, dimensions: Option<nat>) {
    if "dimensions" !in options then dimensions == None
    else dimensions.Some? && dimensions.value < 0x1_0000_0000_0000_0000
         && var s := options["dimensions"];
            (s != "" && Means(s, dimensions.value)) || (|s| > 1 && s[0] == '+' && Means(s[1..], dimensions.value))
  }

  /** What name and keyword make of a column: a leading colon leaves no name, and reserves the keyword. */
  ghost predicate Made(name: string, keyword: string, forNodes: bool, c: Column) {
    if name == "" then
      && Reserved(keyword, forNodes, c.kind)
      && c.valueType == (if c.kind == NamedEmbedding then "vector" else "")
      && c.name == (if c.kind != NamedEmbedding then "" else if c.idSpace.Some? then c.idSpace.value else "default")
    else
      && c.name == name
      && if SameWord(keyword, "ID") then c.kind == Id && c.valueType == ""
         else c.kind == Property && InLowerCase(keyword, c.valueType)
  }

  /** A header is a name, a colon and a token; without a colon the token is `string`. */
  predicate Halves(field: string, name: string, token: string) {
    FirstCut(field, ':', name, token) || (':' !in field && name == field && token == "string")
  }

  /** The column that a header describes. */
  ghost predicate Describes(field: string, forNodes: bool, c: Column) {
    if field == "" then c == Column("", Ignore, "", None, None, map[])
    else
      exists name, token, keyword ::
        && Halves(field, name, token) && TokenIs(token, keyword, c.idSpace, c.options)
        && Dimensions(c.options, c.vectorDimensions) && Made(name, keyword, forNodes, c)
  }

  lemma ReservedIs(keyword: string, forNodes: bool, kind: ColumnKind)
    ensures ReservedKind(Upper(keyword), forNodes) == Some(kind) <==> Reserved(keyword, forNodes, kind)
  {
    hide SameWord, Upper;
    UpperIs(keyword, "ID");
    UpperIs(keyword, "IGNORE");
    UpperIs(keyword, "LABEL");
    UpperIs(keyword, "START_ID");
    UpperIs(keyword, "END_ID");
    UpperIs(keyword, "TYPE");
    UpperIs(keyword, "EMBEDDING");
    UpperIs(keyword, "NAMED_EMBEDDING");
  }

  lemma BaseIs(base: string, options: map<string, string>, keyword: string, argument: Option<string>)
    ensures ParseBase(base, options) == Ok(Token(keyword, argument, options)) <==> Base(base, keyword, argument)
  {
    hide Find, RFind;
    var open, close := Find(base, '('), RFind(base, ')');
    if argument.Some? && Base(base, keyword, argument) {
      assert base == keyword + ['('] + (argument.value + ")");
      FindHere(keyword, '(', argument.value + ")");
      assert base == (keyword + "(" + argument.value) + [')'];
      RFindLast(keyword + "(" + argument.value, ')');
      assert base[|keyword| + 1..|base| - 1] == argument.value && base[..|keyword|] == keyword;
    }
    if open.Some? && close == Some(|base| - 1) {
      var a := base[open.value + 1..|base| - 1];
      assert base == base[..open.value] + "(" + a + ")";
    }
  }

  lemma {:induction false} OptionsIs(entries: seq<string>, options: map<string, string>)
    ensures ParseOptions(entries) == Ok(options) <==> Options(entries, options)
    decreases |entries|
  {
    hide Trim, Lower, Stripped, InLowerCase, Find;
    if entries != [] {
      var last, before := entries[|entries| - 1], entries[..|entries| - 1];
      if last == "" {
        OptionsIs(before, options);
      } else {
        forall rawKey, rawValue
          ensures FirstCut(last, ':', rawKey, rawValue) <==>
            Find(last, ':').Some? && rawKey == last[..Find(last, ':').value] && rawValue == last[Find(last, ':').value + 1..]
        {
          FindIs(last, ':', rawKey, rawValue);
        }
        if Find(last, ':').Some? {
          var rawKey, rawValue := last[..Find(last, ':').value], last[Find(last, ':').value + 1..];
          var trimmed, value := Trim(rawKey), Trim(rawValue);
          forall t ensures Stripped(rawKey, t) <==> t == trimmed { TrimIs(rawKey, t); }
          forall t ensures Stripped(rawValue, t) <==> t == value { TrimIs(rawValue, t); }
          forall t ensures InLowerCase(trimmed, t) <==> t == Lower(trimmed) { LowerIs(trimmed, t); }
          forall earlier ensures ParseOptions(before) == Ok(earlier) <==> Options(before, earlier) {
            OptionsIs(before, earlier);
          }
          if ParseOptions(entries) == Ok(options) {
            assert FirstCut(last, ':', rawKey, rawValue) && Stripped(rawKey, trimmed) && InLowerCase(trimmed, Lower(trimmed))
                   && Stripped(rawValue, value) && Options(before, ParseOptions(before).value);
          }
        }
      }
    }
  }

  lemma BracedIs(token: string, base: string, inner: string)
    ensures Braced(token, base, inner) <==>
      var open := Find(token, '{');
      && open.Some? && RFind(token, '}') == Some(|token| - 1)
      && base == token[..open.value] && inner == token[open.value + 1..|token| - 1]
  {
    hide Find, RFind;
    var open := Find(token, '{');
    if Braced(token, base, inner) {
      BracesAt(token, base, inner);
    } else if open.Some? && RFind(token, '}') == Some(|token| - 1) {
      BracesAround(token, open.value);
    }
  }

  lemma BracesAround(token: string, open: nat)
    requires open < |token| && token[open] == '{' && token[|token| - 1] == '}'
    ensures open < |token| - 1 && token == token[..open] + "{" + token[open + 1..|token| - 1] + "}"
  {
  }

  lemma TokenParsed(token: string, keyword: string, argument: Option<string>, options: map<string, string>)
    ensures ParseHeaderToken(token) == Ok(Token(keyword, argument, options)) <==> TokenIs(token, keyword, argument, options)
  {
    hide Base, ParseBase, Find, RFind, Split, Parts, Options, ParseOptions, Braced;
    forall base, inner
      ensures Braced(token, base, inner) <==>
        var open := Find(token, '{');
        && open.Some? && RFind(token, '}') == Some(|token| - 1)
        && base == token[..open.value] && inner == token[open.value + 1..|token| - 1]
    {
      BracedIs(token, base, inner);
    }
    BaseIs(token, map[], keyword, argument);
    BaseOptions(token, map[]);
    var open := Find(token, '{');
    if open.Some? && RFind(token, '}') == Some(|token| - 1) {
      var base, inner := token[..open.value], token[open.value + 1..|token| - 1];
      forall entries ensures Parts(inner, ',', entries) <==> entries == Split(inner, ',') {
        SplitIs(inner, ',', entries);
      }
      var entries := Split(inner, ',');
      assert Parts(inner, ',', entries) && Braced(token, base, inner);
      OptionsIs(entries, options);
      BaseIs(base, options, keyword, argument);
      if ParseOptions(entries).Ok? {
        BaseOptions(base, ParseOptions(entries).value);
      }
    }
  }

  lemma BracesAt(token: string, base: string, inner: string)
    requires token == base + "{" + inner + "}" && '{' !in base
    ensures Find(token, '{') == Some(|base|) && RFind(token, '}') == Some(|token| - 1)
    ensures token[..|base|] == base && token[|base| + 1..|token| - 1] == inner
  {
    hide Find, RFind;
    assert token == base + ['{'] + (inner + "}");
    FindHere(base, '{', inner + "}");
    assert token == (base + "{" + inner) + ['}'];
    RFindLast(base + "{" + inner, '}');
  }

  lemma BaseOptions(base: string, options: map<string, string>)
    ensures ParseBase(base, options).Ok? ==> ParseBase(base, options).value.options == options
  {
  }

  lemma DimensionsIs(options: map<string, string>, dimensions: Option<nat>)
    ensures Dimensions(options, dimensions) <==>
      if "dimensions" !in options then dimensions == None
      else dimensions.Some? && ParseNat(options["dimensions"], MAX_USIZE) == dimensions
  {
    hide Means, ParseNat;
    if "dimensions" in options && dimensions.Some? {
      ParseNatIs(options["dimensions"], MAX_USIZE, dimensions.value);
    }
  }

  /** Which halves a header is cut into. */
  lemma HalvesAre(field: string, name: string, token: string)
    requires field != ""
    ensures var colon := Find(field, ':');
      Halves(field, name, token) <==>
        && name == (if colon.Some? then field[..colon.value] else field)
        && token == (if colon.Some? then field[colon.value + 1..] else "string")
  {
    hide Find;
    FindIs(field, ':', name, token);
  }

  lemma ColumnIsMade(field: string, name: string, token: Token, forNodes: bool, c: Column)
    requires field != "" && (name == "" <==> field[0] == ':')
    ensures ColumnFrom(field, name, token, forNodes) == Ok(c) <==>
      && c.idSpace == token.argument && c.options == token.options
      && Dimensions(token.options, c.vectorDimensions) && Made(name, token.keyword, forNodes, c)
  {
    hide Dimensions, ParseNat, Reserved, ReservedKind, Upper, Lower, SameWord, InLowerCase;
    DimensionsIs(token.options, c.vectorDimensions);
    ReservedIs(token.keyword, forNodes, c.kind);
    UpperIs(token.keyword, "ID");
    LowerIs(token.keyword, c.valueType);
  }

  lemma ColumnToken(field: string, name: string, token: Token, forNodes: bool)
    requires field != ""
    ensures var r := ColumnFrom(field, name, token, forNodes);
      r.Ok? ==> r.value.idSpace == token.argument && r.value.options == token.options
  {
    hide ParseNat, ReservedKind, Upper, Lower;
  }

  /** Reading a header gives exactly the column it describes. */
  lemma ColumnIsDescribed(field: string, forNodes: bool, c: Column)
    ensures ParseColumn(field, forNodes) == Ok(c) <==> Describes(field, forNodes, c)
  {
    hide Find, ParseHeaderToken, TokenIs, Dimensions, Halves, Made, ColumnFrom;
    if field != "" {
      var colon := Find(field, ':');
      var name := if colon.Some? then field[..colon.value] else field;
      var token := if colon.Some? then field[colon.value + 1..] else "string";
      var parsed := ParseHeaderToken(token);
      forall n, t ensures Halves(field, n, t) <==> n == name && t == token {
        HalvesAre(field, n, t);
      }
      forall keyword ensures TokenIs(token, keyword, c.idSpace, c.options) <==> parsed == Ok(Token(keyword, c.idSpace, c.options)) {
        TokenParsed(token, keyword, c.idSpace, c.options);
      }
      if parsed.Ok? {
        ColumnToken(field, name, parsed.value, forNodes);
        ColumnIsMade(field, name, parsed.value, forNodes, c);
      }
    }
  }

  // ---------- Cells ----------

  ghost predicate AnyOf(word: string, words: seq<string>) {
    exists i :: 0 <= i < |words| && SameWord(word, words[i])
  }

  /** The names of temporal and spatial types stand for text. */
  ghost predicate TextName(t: string) {
    AnyOf(t, ["", "string", "char", "point", "date", "localtime", "time", "localdatetime", "datetime", "duration"])
  }

  ghost predicate IntegerName(t: string) {
    AnyOf(t, ["byte", "short", "int", "long"])
  }

  ghost predicate FloatName(t: string) {
    AnyOf(t, ["float", "double"])
  }

  /** What a text is under a scalar type. */
  ghost predicate ScalarIs(raw: string, valueType: string, v: Value, floats: FloatCodec) {
    match v
    case VString(text) => TextName(valueType) && text == raw
    case VInteger(i) => IntegerName(valueType) && Signed(raw, i)
    case VFloat(bits) => FloatName(valueType) && floats.read(raw) == Some(bits)
    case VBool(b) => SameWord(valueType, "boolean") && Stripped(raw, if b then "true" else "false")
    case _ => false
  }

  ghost predicate ListOf(parts: seq<string>, valueType: string, v: Value, floats: FloatCodec) {
    v.VList? && |v.items| == |parts| && forall i | 0 <= i < |parts| :: ScalarIs(parts[i], valueType, v.items[i], floats)
  }

  ghost predicate FloatsOf(parts: seq<string>, v: Value, floats: FloatCodec) {
    v.VList? && |v.items| == |parts|
    && forall i | 0 <= i < |parts| :: v.items[i].VFloat? && floats.read(parts[i]) == Some(v.items[i].bits)
  }

  /** The value of a cell in its column. */
  ghost predicate CellIs(raw: string, column: Column, options: CellOptions, v: Value, floats: FloatCodec) {
    && (column.kind == Property || column.kind == NamedEmbedding)
    && var t, n := column.valueType, |column.valueType|;
       if raw == "" && options.emptyStringsAsNull then v == VNull
       else if n >= 2 && t[n - 2] == '[' && t[n - 1] == ']' then
         exists parts :: Parts(raw, options.arrayDelimiter, parts) && ListOf(parts, t[..n - 2], v, floats)
       else if t == "vector" then
         exists parts :: Parts(raw, options.vectorDelimiter, parts) && FloatsOf(parts, v, floats)
                         && (column.vectorDimensions.Some? ==> |parts| == column.vectorDimensions.value)
       else ScalarIs(raw, t, v, floats)
  }

  predicate NoCapitals(t: string) {
    forall i | 0 <= i < |t| :: !('A' <= t[i] <= 'Z')
  }

  lemma LowerNames(s: string, words: seq<string>)
    requires forall w | w in words :: NoCapitals(w)
    ensures AnyOf(s, words) <==> Lower(s) in words
  {
    hide Lower, SameWord;
    forall w | w in words ensures SameWord(s, w) <==> Lower(s) == w {
      LowerIs(s, w);
    }
  }

  lemma BoolIs(raw: string, b: bool)
    ensures ParseBool(raw) == Some(b) <==> Stripped(raw, if b then "true" else "false")
  {
    hide Trim, Stripped;
    TrimIs(raw, "true");
    TrimIs(raw, "false");
  }

  lemma TypeNames(t: string)
    ensures TextName(t) <==> TextType(Lower(t))
    ensures IntegerName(t) <==> IntegerType(Lower(t))
    ensures FloatName(t) <==> FloatType(Lower(t))
    ensures SameWord(t, "boolean") <==> Lower(t) == "boolean"
  {
    hide Lower, AnyOf, SameWord;
    LowerNames(t, ["", "string", "char", "point", "date", "localtime", "time", "localdatetime", "datetime", "duration"]);
    LowerNames(t, ["byte", "short", "int", "long"]);
    LowerNames(t, ["float", "double"]);
    LowerIs(t, "boolean");
  }

  /** A name stands for one kind of type. */
  lemma OneKind(t: string)
    ensures TextType(t) ==> !IntegerType(t) && !FloatType(t) && t != "boolean"
    ensures IntegerType(t) ==> !FloatType(t) && t != "boolean"
    ensures !FloatType("boolean")
  {
  }

  lemma ScalarParsed(raw: string, valueType: string, v: Value, floats: FloatCodec)
    ensures ParseScalar(raw, valueType, floats) == Ok(v) <==> ScalarIs(raw, valueType, v, floats)
  {
    hide Lower, TextName, IntegerName, FloatName, TextType, IntegerType, FloatType, SameWord, ParseBool, ParseInt, Signed, Stripped;
    TypeNames(valueType);
    OneKind(Lower(valueType));
    if v.VInteger? {
      ParseIntIs(raw, -0x8000_0000_0000_0000, 0x7FFF_FFFF_FFFF_FFFF, v.i);
    } else if v.VBool? {
      BoolIs(raw, v.b);
    }
  }

  lemma AllParsed(parts: seq<string>, valueType: string, v: Value, floats: FloatCodec)
    ensures v.VList? && ParseAll(parts, valueType, floats) == Ok(v.items) <==> ListOf(parts, valueType, v, floats)
  {
    hide ParseAll, ParseScalar, ScalarIs;
    ParsedItems(parts, valueType, floats);
    if v.VList? && |v.items| == |parts| {
      forall i | 0 <= i < |parts|
        ensures ParseScalar(parts[i], valueType, floats) == Ok(v.items[i]) <==> ScalarIs(parts[i], valueType, v.items[i], floats)
      {
        ScalarParsed(parts[i], valueType, v.items[i], floats);
      }
      var r := ParseAll(parts, valueType, floats);
      if ListOf(parts, valueType, v, floats) {
        assert forall i | 0 <= i < |parts| :: ParseScalar(parts[i], valueType, floats) == Ok(v.items[i]);
        assert r.value == v.items;
      }
    }
  }

  lemma DoublesParsed(parts: seq<string>, v: Value, floats: FloatCodec)
    ensures v.VList? && ParseAll(parts, "double", floats) == Ok(v.items) <==> FloatsOf(parts, v, floats)
  {
    hide ParseAll, ParseScalar;
    ParsedItems(parts, "double", floats);
    DoubleName();
    forall i | 0 <= i < |parts| ensures ParseScalar(parts[i], "double", floats) == ParseAs(parts[i], DoubleType, floats) {
      ExportedTypesParse(parts[i], DoubleType, floats);
    }
    if FloatsOf(parts, v, floats) {
      assert forall i | 0 <= i < |parts| :: ParseScalar(parts[i], "double", floats) == Ok(v.items[i]);
      assert ParseAll(parts, "double", floats).value == v.items;
    }
  }

  lemma EndsInBrackets(t: string)
    ensures |t| >= 2 ==> (t[|t| - 2..] == "[]" <==> t[|t| - 2] == '[' && t[|t| - 1] == ']')
  {
  }

  /** Reading a cell gives exactly the value it is. */
  lemma CellIsRead(raw: string, column: Column, options: CellOptions, v: Value, floats: FloatCodec)
    ensures ParseCell(raw, column, options, floats) == Ok(v) <==> CellIs(raw, column, options, v, floats)
  {
    hide ParseScalar, ScalarIs, Split, Parts, ParseAll, ListOf, FloatsOf;
    var t, n := column.valueType, |column.valueType|;
    forall parts ensures Parts(raw, options.arrayDelimiter, parts) <==> parts == Split(raw, options.arrayDelimiter) {
      SplitIs(raw, options.arrayDelimiter, parts);
    }
    forall parts ensures Parts(raw, options.vectorDelimiter, parts) <==> parts == Split(raw, options.vectorDelimiter) {
      SplitIs(raw, options.vectorDelimiter, parts);
    }
    EndsInBrackets(t);
    assert Parts(raw, options.arrayDelimiter, Split(raw, options.arrayDelimiter));
    assert Parts(raw, options.vectorDelimiter, Split(raw, options.vectorDelimiter));
    if n >= 2 {
      AllParsed(Split(raw, options.arrayDelimiter), t[..n - 2], v, floats);
    }
    DoublesParsed(Split(raw, options.vectorDelimiter), v, floats);
    DoublesLength(Split(raw, options.vectorDelimiter), floats);
    ScalarParsed(raw, t, v, floats);
  }

  lemma DoublesLength(parts: seq<string>, floats: FloatCodec)
    ensures ParseAll(parts, "double", floats).Ok? ==> |ParseAll(parts, "double", floats).value| == |parts|
  {
    hide ParseAll, ParseScalar;
    ParsedItems(parts, "double", floats);
  }
}
