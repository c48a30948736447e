/** The parser returns an expression if and only if the tokens derive it. */
module CypherDerivation {
  import opened CypherGrammar
  import opened CypherParser
  import opened CypherTokens
  import opened Text
  import opened Wrappers

  // ---------- Words and signs ----------

  lemma ReadsIsUpper(t: string, word: string)
    requires Upper(word) == word
    ensures Reads(t, word) <==> Upper(t) == word
  {
    if Upper(t) == word {
      assert forall i | 0 <= i < |t| :: word[i] == UpperChar(t[i]);
    }
    if Reads(t, word) {
      assert forall i | 0 <= i < |t| :: UpperChar(word[i]) == word[i];
    }
  }

  lemma ReadsIsKind(t: string, k: Kind)
    requires Spelled(k)
    ensures Reads(t, Spell(k)) <==> KindOf(t) == k
  {
    hide KindOf, Spell, Reads;
    SpellingShape(k);
    assert Upper(Spell(k)) == Spell(k);
    ReadsIsUpper(t, Spell(k));
    KindIsSpelling(t, k);
  }

  lemma LogicWords(t: string)
    ensures Reads(t, "OR") <==> KindOf(t) == OR
    ensures Reads(t, "AND") <==> KindOf(t) == AND
    ensures Reads(t, "XOR") <==> KindOf(t) == XOR
    ensures Reads(t, "NOT") <==> KindOf(t) == NOT
  {
    hide KindOf, Reads;
    ReadsIsKind(t, OR);
    ReadsIsKind(t, AND);
    ReadsIsKind(t, XOR);
    ReadsIsKind(t, NOT);
  }

  lemma ArithmeticSigns(t: string)
    ensures Reads(t, "+") <==> KindOf(t) == Plus
    ensures Reads(t, "-") <==> KindOf(t) == Minus
    ensures Reads(t, "*") <==> KindOf(t) == Star
    ensures Reads(t, "/") <==> KindOf(t) == Slash
    ensures Reads(t, "%") <==> KindOf(t) == Percent
  {
    hide KindOf, Reads;
    ReadsIsKind(t, Plus);
    ReadsIsKind(t, Minus);
    ReadsIsKind(t, Star);
    ReadsIsKind(t, Slash);
    ReadsIsKind(t, Percent);
  }

  lemma OperatorIsOpAt(level: nat, t: string, op: BinaryOp)
    requires LoopLevel(level)
    ensures Operator(level, t, op) <==> OpAt(level, KindOf(t)) == Some(op)
  {
    hide KindOf, Reads;
    LogicWords(t);
    ArithmeticSigns(t);
  }

  lemma ShortComparisons(t: string)
    ensures Reads(t, "=") <==> KindOf(t) == Eq
    ensures Reads(t, "<") <==> KindOf(t) == Lt
    ensures Reads(t, ">") <==> KindOf(t) == Gt
  {
    hide KindOf, Reads;
    ReadsIsKind(t, Eq);
    ReadsIsKind(t, Lt);
    ReadsIsKind(t, Gt);
  }

  lemma LongComparisons(t: string)
    ensures Reads(t, "<=") <==> KindOf(t) == Le
    ensures Reads(t, ">=") <==> KindOf(t) == Ge
    ensures Reads(t, "<>") <==> KindOf(t) == Ne
  {
    hide KindOf, Reads;
    ReadsIsKind(t, Le);
    ReadsIsKind(t, Ge);
    ReadsIsKind(t, Ne);
  }

  lemma OtherComparisons(t: string)
    ensures Reads(t, "!=") <==> KindOf(t) == BangEq
    ensures Reads(t, "=~") <==> KindOf(t) == Matches
  {
    hide KindOf, Reads;
    ReadsIsKind(t, BangEq);
    ReadsIsKind(t, Matches);
  }

  lemma ComparisonWords(t: string)
    ensures Reads(t, "IS") <==> KindOf(t) == IS
    ensures Reads(t, "IN") <==> KindOf(t) == IN
    ensures Reads(t, "NULL") <==> KindOf(t) == NULL
    ensures Reads(t, "CONTAINS") <==> KindOf(t) == CONTAINS
    ensures Reads(t, "STARTS") <==> KindOf(t) == STARTS
    ensures Reads(t, "ENDS") <==> KindOf(t) == ENDS
    ensures Reads(t, "WITH") <==> KindOf(t) == WITH
    ensures Reads(t, "BETWEEN") <==> KindOf(t) == BETWEEN
  {
    hide KindOf, Reads;
    ReadsIsKind(t, IS);
    ReadsIsKind(t, IN);
    ReadsIsKind(t, NULL);
    ReadsIsKind(t, CONTAINS);
    ReadsIsKind(t, STARTS);
    ReadsIsKind(t, ENDS);
    ReadsIsKind(t, WITH);
    ReadsIsKind(t, BETWEEN);
  }

  lemma Brackets(t: string)
    ensures Reads(t, "(") <==> KindOf(t) == LParen
    ensures Reads(t, ")") <==> KindOf(t) == RParen
    ensures Reads(t, "[") <==> KindOf(t) == LBracket
    ensures Reads(t, "{") <==> KindOf(t) == LBrace
    ensures Reads(t, ".") <==> KindOf(t) == Dot
  {
    hide KindOf, Reads;
    ReadsIsKind(t, LParen);
    ReadsIsKind(t, RParen);
    ReadsIsKind(t, LBracket);
    ReadsIsKind(t, LBrace);
    ReadsIsKind(t, Dot);
  }

  lemma AtomWords(t: string)
    ensures Reads(t, "CASE") <==> KindOf(t) == CASE
    ensures Reads(t, "TRUE") <==> KindOf(t) == TRUE
    ensures Reads(t, "FALSE") <==> KindOf(t) == FALSE
    ensures Reads(t, "NULL") <==> KindOf(t) == NULL
  {
    hide KindOf, Reads;
    ReadsIsKind(t, CASE);
    ReadsIsKind(t, TRUE);
    ReadsIsKind(t, FALSE);
    ReadsIsKind(t, NULL);
  }

  /** The kinds that start an operand of their own, and the plain names. */
  lemma FirstCharacters(t: string)
    ensures KindOf(t) == Quoted <==> t != "" && (t[0] == '\'' || t[0] == '"')
    ensures KindOf(t) == Param <==> t != "" && t[0] == '$'
    ensures KindOf(t) == Number <==> t != "" && '0' <= t[0] <= '9'
  {
    if t != "" {
      OpenKinds(Upper(t));
    }
  }

  lemma OpenKinds(u: string)
    ensures KeywordKind(u) !in {Quoted, Param, Number}
  {
  }

  lemma NamesIsUnquote(t: string, name: string)
    ensures Names(t, name) <==> Unquote(t) == name
  {
    if Backticked(t) {
      var inside := t[1..|t| - 1];
      assert t == "`" + inside + "`";
      assert ("`" + name + "`")[1..|name| + 1] == name;
    }
  }

  lemma WordIs(ts: seq<string>, k: Kind)
    requires Spelled(k)
    ensures Word(ts, Spell(k)) <==> Is(ts, k)
  {
    hide KindOf, Reads, Spell;
    if ts != [] {
      ReadsIsKind(ts[0], k);
    }
  }

  // ---------- Floats ----------

  lemma {:induction false} DigitsRun(t: string, i: nat, j: nat)
    requires i <= j <= |t| && AllDigits(t[i..j]) && (j < |t| ==> !IsDigit(t[j]))
    ensures DigitsEnd(t, i) == j
    decreases j - i
  {
    if i < j {
      assert t[i] == t[i..j][0];
      assert t[i + 1..j] == t[i..j][1..];
      DigitsRun(t, i + 1, j);
    }
  }

  lemma {:induction false} RunOfDigits(t: string, i: nat)
    requires i <= |t|
    ensures var j := DigitsEnd(t, i); AllDigits(t[i..j]) && (j < |t| ==> !IsDigit(t[j]))
    decreases |t| - i
  {
    if i < |t| && IsDigit(t[i]) {
      RunOfDigits(t, i + 1);
      var j := DigitsEnd(t, i);
      assert t[i..j] == [t[i]] + t[i + 1..j];
    }
  }

  lemma ExponentIs(t: string, i: nat)
    requires i <= |t|
    ensures ExponentFrom(t, i) <==> Exponent(t[i..])
  {
    hide DigitsEnd, IsDigit;
    if i < |t| {
      var s := t[i..];
      var j := if i + 1 < |t| && (t[i + 1] == '+' || t[i + 1] == '-') then i + 2 else i + 1;
      var digits := if |s| >= 2 && (s[1] == '+' || s[1] == '-') then s[2..] else s[1..];
      assert t[j..|t|] == digits;
      RunOfDigits(t, j);
      if AllDigits(digits) {
        DigitsRun(t, j, |t|);
      }
    }
  }

  lemma ExponentStart(s: string)
    requires Exponent(s) && s != ""
    ensures !IsDigit(s[0]) && s[0] != '.'
  {
  }

  lemma F64TextIsFloat(t: string)
    requires IsF64Text(t)
    ensures FloatText(t)
  {
    hide DigitsEnd, IsDigit, ExponentFrom, Exponent;
    RunOfDigits(t, 0);
    var i := DigitsEnd(t, 0);
    var j := if i < |t| && t[i] == '.' then DigitsEnd(t, i + 1) else i;
    if i < |t| && t[i] == '.' {
      RunOfDigits(t, i + 1);
      assert t[i..j][1..] == t[i + 1..j];
    }
    ExponentIs(t, j);
    assert t[..i] == t[0..i];
    assert t == t[..i] + (t[i..j] + t[j..]);
    assert FloatParts(t, t[..i], t[i..j], t[j..]);
  }

  lemma FloatIsF64Text(t: string, whole: string, point: string, exponent: string)
    requires FloatParts(t, whole, point, exponent)
    ensures IsF64Text(t)
  {
    hide DigitsEnd, ExponentFrom, Exponent;
    var i, j := |whole|, |whole| + |point|;
    if exponent != "" {
      ExponentStart(exponent);
      assert t[j] == exponent[0];
    }
    assert t[0..i] == whole && t[j..] == exponent && t[i..j] == point;
    if point != "" {
      assert t[i] == '.' && t[i + 1..j] == point[1..];
      DigitsRun(t, i + 1, j);
    }
    DigitsRun(t, 0, i);
    ExponentIs(t, j);
  }

  lemma FloatAgrees(t: string)
    ensures IsF64Text(t) <==> FloatText(t)
  {
    hide IsF64Text, FloatParts;
    if IsF64Text(t) {
      F64TextIsFloat(t);
    }
    if FloatText(t) {
      var whole, point, exponent :| FloatParts(t, whole, point, exponent);
      FloatIsF64Text(t, whole, point, exponent);
    }
  }

  // ---------- Atoms without operands ----------

  lemma NumberAgrees(ts: seq<string>, e: Expr, rest: seq<string>)
    requires Is(ts, Number)
    ensures ParseNumber(ts) == Got(e, rest) <==> NumberText(ts, e, rest)
  {
    hide KindOf, Reads, IsF64Text, FloatText, DecimalValue, Decimal;
    FirstCharacters(ts[0]);
    FloatAgrees(ts[0]);
    if AllDigits(ts[0]) && |ts| >= 3 {
      FloatAgrees(Decimal(DecimalValue(ts[0])) + "." + ts[2]);
    }
    WordIs(ts[1..], Dot);
  }

  lemma QuotedAgrees(ts: seq<string>, e: Expr, rest: seq<string>)
    requires Is(ts, Quoted)
    ensures ParseQuoted(ts) == Got(e, rest) <==> QuotedText(ts, e, rest)
  {
    hide KindOf;
    FirstCharacters(ts[0]);
    var raw := ts[0];
    if |raw| >= 2 {
      assert raw == [raw[0]] + raw[1..|raw| - 1] + [raw[|raw| - 1]];
    }
    if QuotedText(ts, e, rest) {
      var open: char, text: string, close: char :| (open == '\'' || open == '"') && raw == [open] + text + [close]
                                                    && e == Lit(Str(text));
      assert raw[1..|raw| - 1] == text;
    }
  }

  lemma ParameterAgrees(ts: seq<string>, e: Expr, rest: seq<string>)
    requires Is(ts, Param)
    ensures |ts[0]| >= 1 && (ParseParameter(ts) == Got(e, rest) <==> ParameterText(ts, e, rest))
  {
    hide KindOf, Reads, Names, Unquote;
    FirstCharacters(ts[0]);
    WordIs(ts[1..], Dot);
    var name := ts[0][1..];
    assert ts[0] == "$" + name;
    forall p | ts[0] == "$" + p ensures p == name {
      assert ("$" + p)[1..] == p;
    }
    if |ts| >= 3 {
      NamesIsUnquote(ts[2], Unquote(ts[2]));
      forall key | Names(ts[2], key) ensures key == Unquote(ts[2]) {
        NamesIsUnquote(ts[2], key);
      }
    }
  }

  lemma ConstantAgrees(ts: seq<string>, e: Expr, rest: seq<string>)
    requires Is(ts, TRUE) || Is(ts, FALSE) || Is(ts, NULL)
    ensures ParseAtom(ts) == Got(e, rest) <==> ConstantText(ts, e, rest)
  {
    hide KindOf, Reads;
    AtomWords(ts[0]);
  }

  // ---------- Names ----------

  lemma JoinStep(full: string, name: string, names: seq<string>)
    ensures Join([full] + ([name] + names), '.') == Join([full + "." + name] + names, '.')
  {
    var parts, merged := [full] + ([name] + names), [full + "." + name] + names;
    assert parts[1..] == [name] + names && merged[1..] == names && parts[1..][1..] == names;
    if names == [] {
      assert Join(parts[1..], '.') == name;
    } else {
      assert Join(parts, '.') == full + "." + (name + "." + Join(names, '.'));
    }
  }

  /** The names that follow, and what they make of the text in front of them. */
  ghost predicate Follow(full: string, ts: seq<string>, names: seq<string>, n: nat, full': string, rest: seq<string>) {
    n <= |ts| && DottedNames(ts[..n], names) && rest == ts[n..] && !Word(rest, ".") && full' == Join([full] + names, '.')
  }

  lemma {:induction false} DottedFollow(full: string, ts: seq<string>) returns (names: seq<string>, n: nat)
    requires Dotted(full, ts).Some?
    ensures Follow(full, ts, names, n, Dotted(full, ts).value.0, Dotted(full, ts).value.1)
    ensures names == [] <==> !Is(ts, Dot)
    decreases |ts|
  {
    hide KindOf, Reads, Names, Unquote;
    WordIs(ts, Dot);
    if !Is(ts, Dot) {
      names, n := [], 0;
      assert [full] + names == [full];
    } else {
      NamesIsUnquote(ts[1], Unquote(ts[1]));
      var more, m := DottedFollow(full + "." + Unquote(ts[1]), ts[2..]);
      names, n := [Unquote(ts[1])] + more, m + 2;
      assert ts[..n][2..] == ts[2..][..m];
      assert names[1..] == more;
      JoinStep(full, Unquote(ts[1]), more);
    }
  }

  lemma {:induction false} FollowDotted(full: string, ts: seq<string>, names: seq<string>, n: nat, full': string, rest: seq<string>)
    requires Follow(full, ts, names, n, full', rest)
    ensures Dotted(full, ts) == Some((full', rest))
    ensures names == [] <==> !Is(ts, Dot)
    decreases |ts|
  {
    hide KindOf, Reads, Names, Unquote;
    WordIs(ts, Dot);
    if names == [] {
      assert ts[..n] == [] && rest == ts;
      assert [full] + names == [full];
    } else {
      assert ts[..n][0] == ts[0] && ts[..n][1] == ts[1];
      assert Word(ts, ".");
      NamesIsUnquote(ts[1], names[0]);
      assert ts[..n][2..] == ts[2..][..n - 2];
      assert names == [names[0]] + names[1..];
      JoinStep(full, names[0], names[1..]);
      FollowDotted(full + "." + names[0], ts[2..], names[1..], n - 2, full', rest);
    }
  }

  lemma NoDotBehind(full: string, i: nat)
    requires i < |full| && '.' !in full[i + 1..]
    ensures forall k | i < k < |full| :: full[k] != '.'
  {
    forall k | i < k < |full| ensures full[k] != '.' {
      assert full[k] == full[i + 1..][k - i - 1];
    }
  }

  lemma LastDotIsSplit(full: string)
    requires LastDot(full) < |full|
    ensures SplitsAtLastDot(full, full[..LastDot(full)], full[LastDot(full) + 1..])
  {
    hide LastDot, SplitsAtLastDot;
    CutAtDot(full, LastDot(full));
  }

  lemma CutAtDot(full: string, i: nat)
    requires i < |full| && full[i] == '.' && '.' !in full[i + 1..]
    ensures SplitsAtLastDot(full, full[..i], full[i + 1..])
  {
    var dot := [full[i]];
    assert dot == ".";
    assert full == full[..i] + dot + full[i + 1..];
  }

  lemma SplitIsLastDot(full: string, front: string, last: string)
    requires SplitsAtLastDot(full, front, last)
    ensures LastDot(full) == |front| && front == full[..|front|] && last == full[|front| + 1..]
  {
    hide LastDot;
    assert full[|front|] == '.' && full[|front| + 1..] == last && full[..|front|] == front;
    NoDotBehind(full, |front|);
    var i := LastDot(full);
    if i < |full| {
      NoDotBehind(full, i);
    }
  }

  lemma JoinHasDot(first: string, names: seq<string>)
    requires names != []
    ensures '.' in Join([first] + names, '.')
  {
    var parts := [first] + names;
    assert parts[0] + ['.'] + Join(parts[1..], '.') == Join(parts, '.');
    assert Join(parts, '.')[|first|] == '.';
  }

  lemma PlainNameIsKind(t: string)
    ensures PlainName(t) <==> KindOf(t) !in {CASE, Minus, Quoted, Param, LParen, LBracket, LBrace, TRUE, FALSE, NULL, Number}
  {
    hide KindOf, Reads;
    FirstCharacters(t);
    Brackets(t);
    AtomWords(t);
    ArithmeticSigns(t);
  }

  lemma NameParses(ts: seq<string>, e: Expr, rest: seq<string>)
    requires NameText(ts, e, rest)
    ensures ts != [] && ParseName(ts) == Got(e, rest)
  {
    hide KindOf, Reads, PlainName, Dotted, LastDot, SplitsAtLastDot;
    var n: nat, names: seq<string> :| NameOf(ts, n, names, e, rest);
    var full := Join([ts[0]] + names, '.');
    assert ts[1..][..n - 1] == ts[1..n];
    FollowDotted(ts[0], ts[1..], names, n - 1, full, rest);
    WordIs(rest, LParen);
    WordIs(ts[1..], LParen);
    if names != [] {
      SplitIsLastDot(full, e.variable, e.property);
    }
  }

  lemma ParsedIsName(ts: seq<string>)
    requires ts != [] && PlainName(ts[0]) && ParseName(ts).Got?
    ensures NameText(ts, ParseName(ts).e, ParseName(ts).rest)
  {
    hide KindOf, Reads, PlainName, LastDot, SplitsAtLastDot, Dotted;
    WordIs(ts[1..], Dot);
    WordIs(ts[1..], LParen);
    if Is(ts[1..], Dot) {
      var names, m := DottedFollow(ts[0], ts[1..]);
      var full, rest := Dotted(ts[0], ts[1..]).value.0, Dotted(ts[0], ts[1..]).value.1;
      WordIs(rest, LParen);
      JoinHasDot(ts[0], names);
      LastDotIsSplit(full);
      assert ts[1..][..m] == ts[1..m + 1];
      assert NameOf(ts, m + 1, names, ParseName(ts).e, rest);
    } else {
      assert ts[1..1] == [];
      assert NameOf(ts, 1, [], Variable(ts[0]), ts[1..]);
    }
  }

  lemma NameAgrees(ts: seq<string>, e: Expr, rest: seq<string>)
    requires ts != [] && PlainName(ts[0])
    ensures ParseName(ts) == Got(e, rest) <==> NameText(ts, e, rest)
  {
    hide ParseName, NameText, PlainName;
    if NameText(ts, e, rest) {
      NameParses(ts, e, rest);
    }
    if ParseName(ts).Got? {
      ParsedIsName(ts);
    }
  }

  // ---------- Pattern predicates ----------

  lemma PatternSigns(t: string)
    ensures Reads(t, "]") <==> KindOf(t) == RBracket
    ensures Reads(t, ">") <==> KindOf(t) == Gt
    ensures Reads(t, ":") <==> KindOf(t) == Colon
    ensures Reads(t, "-") <==> KindOf(t) == Minus
  {
    hide KindOf, Reads;
    ReadsIsKind(t, RBracket);
    ReadsIsKind(t, Gt);
    ReadsIsKind(t, Colon);
    ReadsIsKind(t, Minus);
  }

  /** All signs of a pattern, wherever they stand. */
  lemma SignsOf(ts: seq<string>)
    ensures forall i | 0 <= i < |ts| ::
      && (Reads(ts[i], "(") <==> KindOf(ts[i]) == LParen) && (Reads(ts[i], ")") <==> KindOf(ts[i]) == RParen)
      && (Reads(ts[i], "[") <==> KindOf(ts[i]) == LBracket) && (Reads(ts[i], "]") <==> KindOf(ts[i]) == RBracket)
      && (Reads(ts[i], "-") <==> KindOf(ts[i]) == Minus) && (Reads(ts[i], ">") <==> KindOf(ts[i]) == Gt)
      && (Reads(ts[i], ":") <==> KindOf(ts[i]) == Colon)
  {
    hide KindOf, Reads;
    forall i | 0 <= i < |ts|
      ensures (Reads(ts[i], "(") <==> KindOf(ts[i]) == LParen) && (Reads(ts[i], ")") <==> KindOf(ts[i]) == RParen)
      ensures (Reads(ts[i], "[") <==> KindOf(ts[i]) == LBracket) && (Reads(ts[i], "]") <==> KindOf(ts[i]) == RBracket)
      ensures (Reads(ts[i], "-") <==> KindOf(ts[i]) == Minus) && (Reads(ts[i], ">") <==> KindOf(ts[i]) == Gt)
      ensures (Reads(ts[i], ":") <==> KindOf(ts[i]) == Colon)
    {
      Brackets(ts[i]);
      PatternSigns(ts[i]);
    }
  }

  lemma SkipLabelIsUnlabelled(ts: seq<string>)
    ensures SkipLabel(ts) == if LabelIsCut(ts) then None else Some(Unlabelled(ts))
  {
    hide KindOf, Reads;
    SignsOf(ts);
  }

  lemma TryTargetAgrees(source: string, relType: string, ts: seq<string>, start: seq<string>, target: string, rest: seq<string>)
    requires |ts| < |start|
    ensures TryTarget(source, relType, ts, start) == Attempt(Some(PatternExists(source, relType, target)), rest)
       <==> Target(ts, target, rest)
    ensures TryTarget(source, relType, ts, start) == Attempt(None, []) <==> CutTarget(ts)
    ensures var a := TryTarget(source, relType, ts, start).pattern;
      a.Some? ==> a.value.PatternExists? && a.value.source == source && a.value.relType == relType
  {
    hide KindOf, Reads, Unquote, Names, SkipLabel, Unlabelled;
    SignsOf(ts);
    if ts != [] {
      NamesIsUnquote(ts[0], target);
      SkipLabelIsUnlabelled(ts[1..]);
      SignsOf(Unlabelled(ts[1..]));
      if Word(ts, ")") {
        SkipLabelIsUnlabelled(ts);
        NoLabelHere(ts);
      } else if LabelIsCut(ts[1..]) {
        CutLabelIsNoNode(ts[1..]);
      }
    }
  }

  lemma NoLabelHere(ts: seq<string>)
    requires Word(ts, ")")
    ensures !LabelIsCut(ts) && Unlabelled(ts) == ts
  {
    hide Reads, KindOf;
    SignsOf(ts);
  }

  lemma TryArrowSteps(source: string, relType: string, ts: seq<string>, start: seq<string>) returns (end: seq<string>)
    requires |ts| < |start|
    ensures |end| < |start|
    ensures if Arrow(ts, end) then TryArrow(source, relType, ts, start) == TryTarget(source, relType, end, start)
            else TryArrow(source, relType, ts, start) == Attempt(None, start)
    ensures forall t | Arrow(ts, t) :: t == end
  {
    hide KindOf, Reads, TryTarget;
    SignsOf(ts);
    var t := if Is(ts, Gt) then ts[1..] else ts;
    end := if Is(t, LParen) then t[1..] else [];
  }

  lemma TryRelationshipSteps(source: string, ts: seq<string>, start: seq<string>)
    returns (relType: string, tail: seq<string>)
    requires |ts| < |start|
    ensures |tail| < |start|
    ensures if Link(ts, relType, tail) then TryRelationship(source, ts, start) == TryArrow(source, relType, tail, start)
            else TryRelationship(source, ts, start) == Attempt(None, if ts == [] || LabelIsCut(ts) then [] else start)
    ensures Link(ts, relType, tail) ==> ts != [] && !LabelIsCut(ts)
    ensures forall r, t | Link(ts, r, t) :: r == relType && t == tail
  {
    hide KindOf, Reads, Unquote, Names, TryArrow;
    SignsOf(ts);
    var t := if Is(ts, Colon) then ts[1..] else ts;
    relType, tail := "", [];
    if t != [] {
      forall name ensures Names(t[0], name) <==> Unquote(t[0]) == name {
        NamesIsUnquote(t[0], name);
      }
      if Is(t[1..], RBracket) && Is(t[2..], Minus) {
        relType, tail := Unquote(t[0]), t[3..];
      }
    }
  }

  lemma EdgeOpens(t: seq<string>)
    ensures Word(t, ")") && Words(t[1..], "-", "[") <==> Is(t, RParen) && Is(t[1..], Minus) && Is(t[2..], LBracket)
    ensures Word(t, "(") <==> Is(t, LParen)
  {
    hide KindOf, Reads, Word, Is;
    WordIs(t, LParen);
    WordIs(t, RParen);
    if Is(t, RParen) {
      NotEmpty(t, RParen);
      WordIs(t[1..], Minus);
      if Is(t[1..], Minus) {
        NotEmpty(t[1..], Minus);
        WordIs(t[2..], LBracket);
      }
    }
  }

  lemma NotEmpty(ts: seq<string>, k: Kind)
    requires Is(ts, k)
    ensures ts != []
  {
  }

  lemma TryPatternSteps(ts: seq<string>) returns (source: string, tail: seq<string>)
    ensures ts != [] ==> |tail| < |ts|
    ensures if Node(ts, source, tail) then ts != [] && TryPattern(ts) == TryRelationship(source, tail, ts)
            else TryPattern(ts) == Attempt(None, if Word(ts, "(") && (|ts| == 1 || LabelIsCut(ts[2..])) then [] else ts)
    ensures Node(ts, source, tail) ==> Word(ts, "(") && |ts| > 1 && !LabelIsCut(ts[2..])
    ensures forall s, t | Node(ts, s, t) :: s == source && t == tail
  {
    hide KindOf, Reads, Unquote, Names, TryRelationship, SkipLabel, Unlabelled, Word, Words, LabelIsCut;
    EdgeOpens(ts);
    source, tail := "", [];
    if |ts| >= 2 {
      forall name ensures Names(ts[1], name) <==> Unquote(ts[1]) == name {
        NamesIsUnquote(ts[1], name);
      }
      SkipLabelIsUnlabelled(ts[2..]);
      if LabelIsCut(ts[2..]) {
        CutLabelIsNoNode(ts[2..]);
      }
      var t := Unlabelled(ts[2..]);
      EdgeOpens(t);
      if Is(t, RParen) && Is(t[1..], Minus) && Is(t[2..], LBracket) {
        source, tail := Unquote(ts[1]), t[3..];
        UnlabelledIsTail(ts[2..]);
      }
    }
  }

  lemma UnlabelledIsTail(ts: seq<string>)
    ensures |Unlabelled(ts)| <= |ts|
  {
    hide Reads;
  }

  lemma CutLabelIsNoNode(ts: seq<string>)
    requires LabelIsCut(ts)
    ensures !Word(Unlabelled(ts), ")")
  {
    hide Reads, KindOf;
    SignsOf(ts);
  }

  /** The attempt behind the first node. */
  lemma TryLinkAgrees(source: string, ts: seq<string>, start: seq<string>, relType: string, target: string, rest: seq<string>)
    requires |ts| < |start|
    ensures TryRelationship(source, ts, start) == Attempt(Some(PatternExists(source, relType, target)), rest)
       <==> exists arrow, end :: Link(ts, relType, arrow) && Arrow(arrow, end) && Target(end, target, rest)
    ensures TryRelationship(source, ts, start) == Attempt(None, []) <==> CutLink(ts)
    ensures var a := TryRelationship(source, ts, start).pattern; a.Some? ==> a.value.PatternExists? && a.value.source == source
  {
    hide KindOf, Reads, Unquote, Link, Arrow, Target, TryRelationship, TryArrow, TryTarget, CutTarget, LabelIsCut;
    var r, arrow := TryRelationshipSteps(source, ts, start);
    var end := TryArrowSteps(source, r, arrow, start);
    TryTargetAgrees(source, r, end, start, target, rest);
  }

  lemma TryPatternAgrees(ts: seq<string>, e: Expr, rest: seq<string>)
    ensures TryPattern(ts) == Attempt(Some(e), rest) <==> PatternText(ts, e, rest)
    ensures ts != [] && TryPattern(ts) == Attempt(None, []) <==> CutPattern(ts)
  {
    hide KindOf, Reads, Unquote, Node, Link, Arrow, Target, TryPattern, TryRelationship, CutLink, LabelIsCut;
    var source, link := TryPatternSteps(ts);
    if ts != [] {
      TryLinkAgrees(source, link, ts, if e.PatternExists? then e.relType else "", if e.PatternExists? then e.target else "", rest);
    }
  }

  // ---------- Expressions ----------

  lemma AtomKinds(ts: seq<string>, e: Expr, rest: seq<string>)
    requires ts != []
    ensures QuotedText(ts, e, rest) ==> Is(ts, Quoted)
    ensures ParameterText(ts, e, rest) ==> Is(ts, Param)
    ensures ConstantText(ts, e, rest) ==> Is(ts, TRUE) || Is(ts, FALSE) || Is(ts, NULL)
    ensures NumberText(ts, e, rest) ==> Is(ts, Number)
    ensures NameText(ts, e, rest) ==> PlainName(ts[0])
  {
    hide KindOf, Reads, PlainName, DottedNames;
    FirstCharacters(ts[0]);
    AtomWords(ts[0]);
  }

  /** The atoms that hold no expression. */
  ghost predicate Leaf(ts: seq<string>, e: Expr, rest: seq<string>) {
    QuotedText(ts, e, rest) || ParameterText(ts, e, rest) || ConstantText(ts, e, rest) || NumberText(ts, e, rest)
    || NameText(ts, e, rest)
  }

  lemma NamedLeafAgrees(ts: seq<string>, e: Expr, rest: seq<string>)
    requires ts != [] && PlainName(ts[0])
    ensures ParseAtom(ts) == Got(e, rest) <==> Leaf(ts, e, rest)
  {
    hide KindOf, Reads, QuotedText, ParameterText, ConstantText, NumberText, NameText, PlainName, ParseName;
    AtomKinds(ts, e, rest);
    PlainNameIsKind(ts[0]);
    NameAgrees(ts, e, rest);
  }

  /** Which function reads an atom that holds no expression. */
  lemma AtomDispatch(ts: seq<string>)
    requires ts != []
    ensures Is(ts, Quoted) ==> ParseAtom(ts) == ParseQuoted(ts)
    ensures Is(ts, Param) ==> |ts[0]| >= 1 && ParseAtom(ts) == ParseParameter(ts)
    ensures Is(ts, Number) ==> ParseAtom(ts) == ParseNumber(ts)
    ensures KindOf(ts[0]) in {CASE, LBracket, LBrace} ==> ParseAtom(ts).Bad?
  {
    hide ParseQuoted, ParseParameter, ParseNumber, ParseLevel, ParseName, KindOf;
    FirstCharacters(ts[0]);
  }

  lemma LeafAgrees(ts: seq<string>, e: Expr, rest: seq<string>)
    requires ts != [] && !Is(ts, Minus) && !Is(ts, LParen)
    ensures ParseAtom(ts) == Got(e, rest) <==> Leaf(ts, e, rest)
  {
    hide KindOf, Reads, QuotedText, ParameterText, ConstantText, NumberText, NameText, PlainName,
      ParseName, ParseNumber, ParseParameter, ParseQuoted, ParseAtom;
    AtomKinds(ts, e, rest);
    AtomDispatch(ts);
    PlainNameIsKind(ts[0]);
    if PlainName(ts[0]) {
      NamedLeafAgrees(ts, e, rest);
    } else if Is(ts, Quoted) {
      QuotedAgrees(ts, e, rest);
    } else if Is(ts, Param) {
      ParameterAgrees(ts, e, rest);
    } else if Is(ts, Number) {
      NumberAgrees(ts, e, rest);
    } else if Is(ts, TRUE) || Is(ts, FALSE) || Is(ts, NULL) {
      ConstantAgrees(ts, e, rest);
    }
  }

  lemma NoLeaf(ts: seq<string>, e: Expr, rest: seq<string>)
    requires Is(ts, Minus) || Is(ts, LParen)
    ensures !Leaf(ts, e, rest)
  {
    hide KindOf, Reads, QuotedText, ParameterText, ConstantText, NumberText, NameText, PlainName;
    AtomKinds(ts, e, rest);
    PlainNameIsKind(ts[0]);
  }

  lemma {:induction false} LevelAgrees(level: nat, ts: seq<string>, e: Expr, rest: seq<string>)
    requires level <= 7
    ensures ParseLevel(level, ts) == Got(e, rest) <==> Derives(level, ts, e, rest)
    decreases |ts|, 1, 15 - 2 * level
  {
    hide KindOf, Reads, Chain, Compared, Atom;
    if level == 3 {
      NotAgrees(ts, e, rest);
    } else if level == 4 {
      ComparisonAgrees(ts, e, rest);
    } else if level == 7 {
      PrimaryAgrees(ts, e, rest);
    } else {
      LoopLevelAgrees(level, ts, e, rest);
    }
  }

  lemma DerivesLoop(level: nat, ts: seq<string>, e: Expr, rest: seq<string>)
    requires LoopLevel(level)
    ensures Derives(level, ts, e, rest) <==>
      exists left, mid :: Takes(ts, left, mid) && Derives(level + 1, ts, left, mid) && Chain(level, left, mid, e, rest)
  {
    hide Chain, Reads;
  }

  lemma {:induction false} LoopLevelAgrees(level: nat, ts: seq<string>, e: Expr, rest: seq<string>)
    requires LoopLevel(level)
    ensures ParseLevel(level, ts) == Got(e, rest) <==> Derives(level, ts, e, rest)
    decreases |ts|, 1, 14 - 2 * level
  {
    hide KindOf, Reads, Derives, Chain, Loop, ParseLevel;
    LoopStarts(level, ts);
    DerivesLoop(level, ts, e, rest);
    var r := ParseLevel(level + 1, ts);
    if r.Got? {
      LevelAgrees(level + 1, ts, r.e, r.rest);
      ChainAgrees(level, r.e, r.rest, e, rest);
      assert Takes(ts, r.e, r.rest);
    }
    forall left, mid | Takes(ts, left, mid) && Derives(level + 1, ts, left, mid) ensures r == Got(left, mid) {
      LevelAgrees(level + 1, ts, left, mid);
    }
  }

  lemma ChainForms(level: nat, left: Expr, ts: seq<string>, e: Expr, rest: seq<string>)
    requires LoopLevel(level) && ts != []
    ensures var op := OpAt(level, KindOf(ts[0]));
      Chain(level, left, ts, e, rest) <==>
        if op.Some? then Turn(level, op.value, left, ts[1..], e, rest)
        else e == left && rest == ts && !(level == 6 && Is(ts, LBracket))
  {
    hide KindOf, Reads, Turn, Operator, OpAt;
    WordIs(ts, LBracket);
    forall op ensures Operator(level, ts[0], op) <==> OpAt(level, KindOf(ts[0])) == Some(op) {
      OperatorIsOpAt(level, ts[0], op);
    }
  }

  lemma NothingChains(level: nat, left: Expr, e: Expr, rest: seq<string>)
    requires LoopLevel(level)
    ensures Chain(level, left, [], e, rest) <==> e == left && rest == []
  {
  }

  lemma {:induction false} ChainAgrees(level: nat, left: Expr, ts: seq<string>, e: Expr, rest: seq<string>)
    requires LoopLevel(level)
    ensures Loop(level, left, ts) == Got(e, rest) <==> Chain(level, left, ts, e, rest)
    decreases |ts|, 0, 1
  {
    hide KindOf, Reads, Derives, Chain, Turn, Loop, ParseLevel, OpAt;
    if ts == [] {
      NothingChains(level, left, e, rest);
      LoopTurns(level, left, ts);
    } else {
      ChainForms(level, left, ts, e, rest);
      if level == MULTIPLICATION_LEVEL && Is(ts, LBracket) {
        LoopAtBracket(left, ts);
        NoOperatorAtBracket(level, KindOf(ts[0]));
      } else {
        LoopTurns(level, left, ts);
        var op := OpAt(level, KindOf(ts[0]));
        if op.Some? {
          TurnAgrees(level, op.value, left, ts[1..], e, rest);
        }
      }
    }
  }

  lemma NoOperatorAtBracket(level: nat, k: Kind)
    requires k == LBracket
    ensures OpAt(level, k) == None
  {
  }

  lemma TurnParts(level: nat, op: BinaryOp, left: Expr, ts: seq<string>, e: Expr, rest: seq<string>)
    returns (right: Expr, mid: seq<string>)
    requires LoopLevel(level) && Turn(level, op, left, ts, e, rest)
    ensures |mid| < |ts| && Derives(level + 1, ts, right, mid) && Chain(level, Binary(op, left, right), mid, e, rest)
  {
    hide Derives, Chain, Reads;
    right, mid :| Takes(ts, right, mid) && Derives(level + 1, ts, right, mid) && Chain(level, Binary(op, left, right), mid, e, rest);
  }

  lemma TurnFrom(level: nat, op: BinaryOp, left: Expr, ts: seq<string>, e: Expr, rest: seq<string>, right: Expr, mid: seq<string>)
    requires LoopLevel(level) && |mid| < |ts| && Derives(level + 1, ts, right, mid)
    requires Chain(level, Binary(op, left, right), mid, e, rest)
    ensures Turn(level, op, left, ts, e, rest)
  {
    hide Derives, Chain, Reads;
    assert Takes(ts, right, mid);
  }

  lemma {:induction false} TurnParses(level: nat, op: BinaryOp, left: Expr, ts: seq<string>, e: Expr, rest: seq<string>)
    requires LoopLevel(level) && Turn(level, op, left, ts, e, rest)
    ensures var r := ParseLevel(level + 1, ts); r.Got? && Loop(level, Binary(op, left, r.e), r.rest) == Got(e, rest)
    decreases |ts|, 2, 0
  {
    hide KindOf, Reads, Derives, Chain, Loop, ParseLevel, Turn;
    var right, mid := TurnParts(level, op, left, ts, e, rest);
    LevelAgrees(level + 1, ts, right, mid);
    ChainAgrees(level, Binary(op, left, right), mid, e, rest);
  }

  lemma {:induction false} ParsedIsTurn(level: nat, op: BinaryOp, left: Expr, ts: seq<string>, e: Expr, rest: seq<string>)
    requires LoopLevel(level) && ParseLevel(level + 1, ts).Got?
    requires var r := ParseLevel(level + 1, ts); Loop(level, Binary(op, left, r.e), r.rest) == Got(e, rest)
    ensures Turn(level, op, left, ts, e, rest)
    decreases |ts|, 2, 0
  {
    hide KindOf, Reads, Derives, Chain, Loop, ParseLevel, Turn;
    var r := ParseLevel(level + 1, ts);
    LevelAgrees(level + 1, ts, r.e, r.rest);
    ChainAgrees(level, Binary(op, left, r.e), r.rest, e, rest);
    TurnFrom(level, op, left, ts, e, rest, r.e, r.rest);
  }

  /** A right operand and what follows it. */
  lemma {:induction false} TurnAgrees(level: nat, op: BinaryOp, left: Expr, ts: seq<string>, e: Expr, rest: seq<string>)
    requires LoopLevel(level)
    ensures var r := ParseLevel(level + 1, ts);
      (r.Got? && Loop(level, Binary(op, left, r.e), r.rest) == Got(e, rest)) <==> Turn(level, op, left, ts, e, rest)
    decreases |ts|, 2, 1
  {
    hide KindOf, Reads, Derives, Chain, Loop, ParseLevel, Turn;
    var r := ParseLevel(level + 1, ts);
    if Turn(level, op, left, ts, e, rest) {
      TurnParses(level, op, left, ts, e, rest);
    } else if r.Got? && Loop(level, Binary(op, left, r.e), r.rest) == Got(e, rest) {
      ParsedIsTurn(level, op, left, ts, e, rest);
    }
  }

  lemma {:induction false} NotAgrees(ts: seq<string>, e: Expr, rest: seq<string>)
    ensures ParseLevel(3, ts) == Got(e, rest) <==> Derives(3, ts, e, rest)
    decreases |ts|, 1, 8
  {
    hide KindOf, Reads, Derives, ParseLevel;
    NotStarts(ts);
    WordIs(ts, NOT);
    DerivesNot(ts, e, rest);
    if Is(ts, NOT) {
      NotStarts(ts[1..]);
      if e.Not? {
        NotAgrees(ts[1..], e.operand, rest);
      }
    } else {
      LevelAgrees(4, ts, e, rest);
    }
  }

  lemma NotStarts(ts: seq<string>)
    ensures ParseLevel(3, ts) == ParseNot(ts)
  {
    hide KindOf, ParseNot;
  }

  lemma DerivesNot(ts: seq<string>, e: Expr, rest: seq<string>)
    ensures Derives(3, ts, e, rest) <==>
      if Word(ts, "NOT") then e.Not? && Derives(3, ts[1..], e.operand, rest) else Derives(4, ts, e, rest)
  {
    hide Reads;
  }

  lemma {:induction false} ComparisonAgrees(ts: seq<string>, e: Expr, rest: seq<string>)
    ensures ParseLevel(4, ts) == Got(e, rest) <==> Derives(4, ts, e, rest)
    decreases |ts|, 1, 6
  {
    hide KindOf, Reads, Derives, Compared, CompareTail, ParseLevel;
    ComparisonStarts(ts);
    DerivesComparison(ts, e, rest);
    var r := ParseLevel(5, ts);
    if r.Got? {
      LevelAgrees(5, ts, r.e, r.rest);
      ComparedAgrees(r.e, r.rest, e, rest);
      assert Takes(ts, r.e, r.rest);
    }
    forall left, mid | Takes(ts, left, mid) && Derives(5, ts, left, mid) ensures r == Got(left, mid) {
      LevelAgrees(5, ts, left, mid);
    }
  }

  lemma ComparisonStarts(ts: seq<string>)
    ensures var r := ParseLevel(5, ts); ParseLevel(4, ts) == if r.Bad? then r else Tail(r.e, r.rest)
  {
    hide KindOf, CompareTail;
  }

  lemma DerivesComparison(ts: seq<string>, e: Expr, rest: seq<string>)
    ensures Derives(4, ts, e, rest) <==>
      exists left, mid :: Takes(ts, left, mid) && Derives(5, ts, left, mid) && Compared(left, mid, e, rest)
  {
    hide Compared, Reads;
  }

  /** What `parse_comparison` does behind its left side. */
  function Tail(left: Expr, ts: seq<string>): Parsed {
    if ts == [] then Got(left, ts) else CompareTail(left, ts)
  }

  lemma ComparatorsAre(ts: seq<string>, n: nat, op: CompareOp)
    requires ts != []
    ensures var k := KindOf(ts[0]);
      Comparator(ts, n, op) <==>
        || (n == 1 && (CompareOpOf(k) == Some(op) || (k == CONTAINS && op == Contains)))
        || (n == 2 && Is(ts[1..], WITH) && ((k == STARTS && op == StartsWith) || (k == ENDS && op == EndsWith)))
  {
    hide KindOf, Reads;
    ShortComparisons(ts[0]);
    LongComparisons(ts[0]);
    OtherComparisons(ts[0]);
    ComparisonWords(ts[0]);
    WordIs(ts[1..], WITH);
  }

  lemma ContinuesIs(ts: seq<string>)
    requires ts != []
    ensures var k := KindOf(ts[0]);
      ContinuesComparison(ts) <==> CompareOpOf(k).Some? || k in {IS, IN, NOT, CONTAINS, STARTS, ENDS, BETWEEN}
  {
    hide KindOf, Reads;
    ShortComparisons(ts[0]);
    LongComparisons(ts[0]);
    OtherComparisons(ts[0]);
    ComparisonWords(ts[0]);
    LogicWords(ts[0]);
  }

  lemma {:induction false} OperandAgrees(ts: seq<string>, right: Expr, rest: seq<string>)
    ensures ParseLevel(7, ts) == Got(right, rest) <==> Derives(7, ts, right, rest)
    decreases |ts|, 1, 2
  {
    LevelAgrees(7, ts, right, rest);
  }

  lemma {:induction false} CompareWithAgrees(op: CompareOp, left: Expr, ts: seq<string>, e: Expr, rest: seq<string>)
    ensures CompareWith(op, left, ts) == Got(e, rest) <==>
      e.Comparison? && e == Comparison(op, left, e.right) && Derives(7, ts, e.right, rest)
    decreases |ts|, 2, 0
  {
    hide KindOf, Reads, Derives, ParseLevel;
    if e.Comparison? {
      OperandAgrees(ts, e.right, rest);
    }
  }

  lemma {:induction false} MemberAgrees(left: Expr, ts: seq<string>, negated: bool, e: Expr, rest: seq<string>)
    ensures MemberOf(left, ts, negated) == Got(e, rest) <==>
      e.InList? && e == InList(left, e.right, negated) && Derives(7, ts, e.right, rest)
    decreases |ts|, 2, 0
  {
    hide KindOf, Reads, Derives, ParseLevel;
    if e.InList? {
      OperandAgrees(ts, e.right, rest);
    }
  }

  lemma {:induction false} BoundsAgree(x: Expr, ts: seq<string>, e: Expr, rest: seq<string>)
    ensures BoundsOf(x, ts) == Got(e, rest) <==> Bounded(x, ts, e, rest)
    decreases |ts|, 2, 0
  {
    hide KindOf, Reads, Derives, ParseLevel;
    if e.Between? {
      var lower := ParseLevel(5, ts);
      if lower.Got? {
        LevelAgrees(5, ts, e.lower, lower.rest);
        assert Takes(ts, e.lower, lower.rest);
        WordIs(lower.rest, AND);
        if Is(lower.rest, AND) {
          LevelAgrees(5, lower.rest[1..], e.upper, rest);
        }
      }
      forall mid | Takes(ts, e.lower, mid) && Derives(5, ts, e.lower, mid) ensures lower == Got(e.lower, mid) {
        LevelAgrees(5, ts, e.lower, mid);
      }
    }
  }

  /** The comparison that the first words announce. */
  function Announced(ts: seq<string>): Option<(nat, CompareOp)>
    requires ts != []
  {
    var k := KindOf(ts[0]);
    if CompareOpOf(k).Some? then Some((1, CompareOpOf(k).value))
    else if k == CONTAINS then Some((1, Contains))
    else if k == STARTS && Is(ts[1..], WITH) then Some((2, StartsWith))
    else if k == ENDS && Is(ts[1..], WITH) then Some((2, EndsWith))
    else None
  }

  lemma AnnouncedIsComparator(ts: seq<string>)
    requires ts != []
    ensures forall n: nat, op :: Comparator(ts, n, op) <==> Announced(ts) == Some((n, op))
  {
    hide KindOf, Reads, Comparator;
    forall n: nat, op ensures Comparator(ts, n, op) <==> Announced(ts) == Some((n, op)) {
      ComparatorsAre(ts, n, op);
    }
    WordsAreNoSigns();
  }

  lemma WordsAreNoSigns()
    ensures forall k | k in {IS, IN, NOT, CONTAINS, STARTS, ENDS, BETWEEN} :: CompareOpOf(k) == None
  {
  }

  lemma {:induction false} ComparatorAgrees(left: Expr, ts: seq<string>, e: Expr, rest: seq<string>)
    requires ts != []
    ensures var a := Announced(ts);
      (a.Some? && CompareWith(a.value.1, left, ts[a.value.0..]) == Got(e, rest))
      <==> ComparedBy(left, ts, e, rest)
    decreases |ts|, 0, 0
  {
    hide KindOf, Reads, Derives, Comparator, CompareWith;
    AnnouncedIsComparator(ts);
    var a := Announced(ts);
    if a.Some? {
      var (n, op) := a.value;
      CompareWithAgrees(op, left, ts[n..], e, rest);
      assert Comparator(ts, n, op);
    }
  }

  lemma NullTestForms(left: Expr, ts: seq<string>, e: Expr, rest: seq<string>)
    requires ts != []
    ensures NullTest(left, ts, e, rest) <==>
      || (Is(ts, IS) && Is(ts[1..], NULL) && e == IsNull(left) && rest == ts[2..])
      || (Is(ts, IS) && Is(ts[1..], NOT) && Is(ts[2..], NULL) && e == IsNotNull(left) && rest == ts[3..])
  {
    hide KindOf, Reads, Word;
    WordIs(ts, IS);
    WordIs(ts[1..], NULL);
    WordIs(ts[1..], NOT);
    if |ts| >= 2 {
      WordIs(ts[2..], NULL);
    }
  }

  lemma MemberForms(left: Expr, ts: seq<string>, e: Expr, rest: seq<string>)
    requires ts != []
    ensures Member(left, ts, e, rest) <==>
      e.InList? &&
      (|| (Is(ts, IN) && e == InList(left, e.right, false) && Derives(7, ts[1..], e.right, rest))
       || (Is(ts, NOT) && Is(ts[1..], IN) && e == InList(left, e.right, true) && Derives(7, ts[2..], e.right, rest)))
  {
    hide KindOf, Reads, Word, Derives;
    WordIs(ts, IN);
    WordIs(ts, NOT);
    WordIs(ts[1..], IN);
  }

  /** The forms that are no comparison by an operator. */
  ghost predicate OtherForm(left: Expr, ts: seq<string>, e: Expr, rest: seq<string>)
    requires ts != []
  {
    || (!ContinuesComparison(ts) && e == left && rest == ts)
    || NullTest(left, ts, e, rest) || Member(left, ts, e, rest) || (Is(ts, BETWEEN) && Bounded(left, ts[1..], e, rest))
  }

  lemma ComparedForms(left: Expr, ts: seq<string>, e: Expr, rest: seq<string>)
    requires ts != []
    ensures Compared(left, ts, e, rest) <==> OtherForm(left, ts, e, rest) || ComparedBy(left, ts, e, rest)
  {
    hide KindOf, Reads, Derives, ContinuesComparison, NullTest, Member, ComparedBy, Bounded, Word;
    WordIs(ts, BETWEEN);
  }

  /** `CompareTail` by the same two groups of forms. */
  lemma TailForms(left: Expr, ts: seq<string>)
    requires ts != []
    ensures var k, a := KindOf(ts[0]), Announced(ts);
      CompareTail(left, ts) ==
        if a.Some? then CompareWith(a.value.1, left, ts[a.value.0..])
        else if k == IS && Is(ts[1..], NOT) then if Is(ts[2..], NULL) then Got(IsNotNull(left), ts[3..]) else Bad(Expected(NULL))
        else if k == IS then if Is(ts[1..], NULL) then Got(IsNull(left), ts[2..]) else Bad(Expected(NULL))
        else if k == IN then MemberOf(left, ts[1..], false)
        else if k == NOT then if Is(ts[1..], IN) then MemberOf(left, ts[2..], true) else Bad(Expected(IN))
        else if k == STARTS || k == ENDS then Bad(Expected(WITH))
        else if k == BETWEEN then BoundsOf(left, ts[1..])
        else Got(left, ts)
  {
    hide KindOf, CompareWith, MemberOf, BoundsOf, CompareOpOf;
    WordsAreNoSigns();
  }

  lemma {:induction false} ComparedAgrees(left: Expr, ts: seq<string>, e: Expr, rest: seq<string>)
    ensures Tail(left, ts) == Got(e, rest) <==> Compared(left, ts, e, rest)
    decreases |ts|, 0, 1
  {
    hide KindOf, Reads, Derives, CompareOpOf, MemberOf, CompareWith, BoundsOf, CompareTail, ContinuesComparison, ComparedBy,
      Bounded, Compared;
    if ts == [] {
      NothingCompared(left, e, rest);
    } else {
      ComparedForms(left, ts, e, rest);
      ComparatorAgrees(left, ts, e, rest);
      TailForms(left, ts);
      if Announced(ts).Some? {
        AnnouncedIsNoOther(left, ts, e, rest);
      } else {
        OtherAgrees(left, ts, e, rest);
      }
    }
  }

  lemma AnnouncedIsNoOther(left: Expr, ts: seq<string>, e: Expr, rest: seq<string>)
    requires ts != [] && Announced(ts).Some?
    ensures !OtherForm(left, ts, e, rest)
  {
    hide KindOf, Reads, Derives, CompareOpOf, ContinuesComparison, Bounded, NullTest, Member;
    ContinuesIs(ts);
    WordsAreNoSigns();
    NullTestForms(left, ts, e, rest);
    MemberForms(left, ts, e, rest);
  }

  lemma {:induction false} OtherAgrees(left: Expr, ts: seq<string>, e: Expr, rest: seq<string>)
    requires ts != [] && Announced(ts) == None
    ensures CompareTail(left, ts) == Got(e, rest) <==> OtherForm(left, ts, e, rest)
    decreases |ts|, 0, 0
  {
    hide KindOf, Reads, Derives, CompareOpOf, MemberOf, CompareWith, BoundsOf, CompareTail, ContinuesComparison, Bounded,
      NullTest, Member;
    var k := KindOf(ts[0]);
    ContinuesIs(ts);
    TailForms(left, ts);
    NullTestForms(left, ts, e, rest);
    MemberForms(left, ts, e, rest);
    if k == IN {
      MemberAgrees(left, ts[1..], false, e, rest);
    } else if k == NOT && Is(ts[1..], IN) {
      MemberAgrees(left, ts[2..], true, e, rest);
    } else if k == BETWEEN {
      BoundsAgree(left, ts[1..], e, rest);
    }
  }

  lemma NothingCompared(left: Expr, e: Expr, rest: seq<string>)
    ensures Compared(left, [], e, rest) <==> e == left && rest == []
  {
    hide Derives, Bounded, Reads, KindOf, Comparator;
  }

  lemma {:induction false} PrimaryAgrees(ts: seq<string>, e: Expr, rest: seq<string>)
    ensures ParseLevel(7, ts) == Got(e, rest) <==> Derives(7, ts, e, rest)
    decreases |ts|, 1, 0
  {
    hide KindOf, Reads, Atom, ParseAtom, TryPattern, PatternText, CutPattern;
    var a := TryPattern(ts);
    if a.pattern.Some? {
      TryPatternAgrees(ts, a.pattern.value, a.rest);
    }
    forall e', rest' ensures a == Attempt(Some(e'), rest') <==> PatternText(ts, e', rest') {
      TryPatternAgrees(ts, e', rest');
    }
    TryPatternAgrees(ts, e, rest);
    AtomAgrees(ts, e, rest);
    NothingIsNoAtom(ts, e, rest);
  }

  lemma NothingIsNoAtom(ts: seq<string>, e: Expr, rest: seq<string>)
    ensures ParseAtom([]).Bad?
    ensures !Is(ts, LParen) ==> TryPattern(ts) == Attempt(None, ts)
  {
    hide KindOf;
  }

  lemma AtomForms(ts: seq<string>, e: Expr, rest: seq<string>)
    requires ts != []
    ensures Atom(ts, e, rest) <==>
      if Is(ts, Minus) then e.Binary? && e == Binary(Subtract, Lit(Integer(0)), e.right) && Derives(7, ts[1..], e.right, rest)
      else if Is(ts, LParen) then Parenthesised(ts[1..], e, rest)
      else Leaf(ts, e, rest)
  {
    hide KindOf, Reads, Derives, Parenthesised, QuotedText, ParameterText, ConstantText, NumberText, NameText;
    WordIs(ts, Minus);
    WordIs(ts, LParen);
    if Is(ts, Minus) || Is(ts, LParen) {
      NoLeaf(ts, e, rest);
    }
  }

  lemma NothingIsAtom(e: Expr, rest: seq<string>)
    ensures !Atom([], e, rest) && ParseAtom([]).Bad?
  {
  }

  lemma {:induction false} AtomAgrees(ts: seq<string>, e: Expr, rest: seq<string>)
    ensures ParseAtom(ts) == Got(e, rest) <==> Atom(ts, e, rest)
    decreases |ts|, 0, 2
  {
    hide KindOf, Reads, Derives, Atom, ParseAtom, Leaf;
    if ts == [] {
      NothingIsAtom(e, rest);
    } else {
      AtomForms(ts, e, rest);
      if Is(ts, Minus) {
        MinusAgrees(ts, e, rest);
      } else if Is(ts, LParen) {
        ParenthesesAgree(ts, e, rest);
      } else {
        LeafAgrees(ts, e, rest);
      }
    }
  }

  lemma {:induction false} MinusAgrees(ts: seq<string>, e: Expr, rest: seq<string>)
    requires Is(ts, Minus)
    ensures ParseAtom(ts) == Got(e, rest) <==>
      e.Binary? && e == Binary(Subtract, Lit(Integer(0)), e.right) && Derives(7, ts[1..], e.right, rest)
    decreases |ts|, 0, 1
  {
    hide KindOf, Reads, Derives, ParseLevel;
    if e.Binary? {
      LevelAgrees(7, ts[1..], e.right, rest);
    }
  }

  lemma {:induction false} ParenthesesAgree(ts: seq<string>, e: Expr, rest: seq<string>)
    requires Is(ts, LParen)
    ensures ParseAtom(ts) == Got(e, rest) <==> Parenthesised(ts[1..], e, rest)
    decreases |ts|, 0, 1
  {
    hide KindOf, Reads, Derives, ParseLevel;
    var r := ParseLevel(0, ts[1..]);
    if r.Got? {
      LevelAgrees(0, ts[1..], e, r.rest);
      WordIs(r.rest, RParen);
      assert Takes(ts[1..], e, r.rest);
    }
    forall mid | Takes(ts[1..], e, mid) && Derives(0, ts[1..], e, mid) ensures r == Got(e, mid) {
      LevelAgrees(0, ts[1..], e, mid);
    }
  }

  /** The parser returns an expression, leaving some tokens, if and only if the tokens derive it and leave those. */
  lemma ParsesIffDerives(ts: seq<string>, e: Expr, rest: seq<string>)
    ensures ParseExpression(ts) == Got(e, rest) <==> Derives(0, ts, e, rest)
  {
    LevelAgrees(0, ts, e, rest);
  }

  /** Otherwise nothing is derived; and nothing is derived in two ways. */
  lemma FailsIffNothingDerives(ts: seq<string>)
    ensures ParseExpression(ts).Bad? <==> forall e, rest :: !Derives(0, ts, e, rest)
    ensures forall e, rest, e', rest' | Derives(0, ts, e, rest) && Derives(0, ts, e', rest') :: e == e' && rest == rest'
  {
    hide ParseExpression, Derives;
    forall e, rest ensures ParseExpression(ts) == Got(e, rest) <==> Derives(0, ts, e, rest) {
      ParsesIffDerives(ts, e, rest);
    }
    var r := ParseExpression(ts);
    if r.Got? {
      assert Derives(0, ts, r.e, r.rest);
    }
  }
}
