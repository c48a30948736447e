/** Parsing what was printed gives the expression back, and nothing else can be printed. */
module CypherRoundTrip {
  import opened Wrappers
  import opened CypherTokens
  import opened Text
  import opened CypherParser
  import opened CypherPrinter

  // ---------- What may follow a printed expression ----------

  /** The tightest level at which a token continues an expression, or -1. */
  function ContinuesAt(k: Kind): int {
    match k
    case Dot => 7 case LParen => 7
    case LBracket => 6 case Star => 6 case Slash => 6 case Percent => 6
    case Plus => 5 case Minus => 5
    case IS => 4 case IN => 4 case NOT => 4 case CONTAINS => 4 case STARTS => 4 case ENDS => 4 case BETWEEN => 4
    case Eq => 4 case Lt => 4 case Gt => 4 case Le => 4 case Ge => 4 case Ne => 4 case Matches => 4 case BangEq => 4
    case XOR => 2 case AND => 1 case OR => 0
    case _ => -1
  }

  /** The token behind does not continue an expression of this level. */
  predicate Follow(level: nat, rest: seq<string>) {
    rest == [] || ContinuesAt(KindOf(rest[0])) < level
  }

  lemma {:induction false} LoopStops(level: nat, e: Expr, rest: seq<string>)
    requires LoopLevel(level) && Follow(level, rest)
    ensures Loop(level, e, rest) == Got(e, rest)
  {
    hide KindOf;
  }

  lemma {:induction false} TailStops(e: Expr, rest: seq<string>)
    requires rest != [] && Follow(4, rest)
    ensures CompareTail(e, rest) == Got(e, rest)
  {
    hide KindOf;
  }

  // ---------- Bracket tokens occur in pattern predicates only ----------

  /** Every `[` stands four tokens behind the `(` that opens a pattern predicate. */
  predicate Brackets(ts: seq<string>) {
    forall i | 0 <= i < |ts| && KindOf(ts[i]) == LBracket :: i >= 4 && KindOf(ts[i - 4]) == LParen
  }

  lemma {:induction false} BracketsConcat(a: seq<string>, b: seq<string>)
    requires Brackets(a) && Brackets(b)
    ensures Brackets(a + b)
  {
    hide KindOf;
  }

  lemma {:induction false} BracketFree(ts: seq<string>)
    requires forall i | 0 <= i < |ts| :: KindOf(ts[i]) != LBracket
    ensures Brackets(ts)
  {
  }

  /** Printed operands around an infix that holds no bracket. */
  lemma {:induction false} Sandwich(a: seq<string>, infix: seq<string>, b: seq<string>)
    requires Brackets(a) && Brackets(b) && forall i | 0 <= i < |infix| :: KindOf(infix[i]) != LBracket
    ensures Brackets(a + infix + b)
  {
    hide Brackets;
    BracketFree(infix);
    BracketsConcat(a, infix);
    BracketsConcat(a + infix, b);
  }

  lemma {:induction false} SandwichEnd(a: seq<string>, suffix: seq<string>)
    requires Brackets(a) && forall i | 0 <= i < |suffix| :: KindOf(suffix[i]) != LBracket
    ensures Brackets(a + suffix)
  {
    hide Brackets;
    BracketFree(suffix);
    BracketsConcat(a, suffix);
  }

  lemma {:induction false} InfixFree(op: CompareOp)
    ensures |CompareTokens(op)| >= 1
    ensures forall i | 0 <= i < |CompareTokens(op)| :: KindOf(CompareTokens(op)[i]) != LBracket
  {
    hide KindOf, Spell;
    match op
    case Equal => SpellingHasKind(Eq);
    case Less => SpellingHasKind(Lt);
    case Greater => SpellingHasKind(Gt);
    case AtMost => SpellingHasKind(Le);
    case AtLeast => SpellingHasKind(Ge);
    case Unequal => SpellingHasKind(Ne);
    case Regex => SpellingHasKind(Matches);
    case Contains => SpellingHasKind(CONTAINS);
    case StartsWith => SpellingHasKind(STARTS); SpellingHasKind(WITH);
    case EndsWith => SpellingHasKind(ENDS); SpellingHasKind(WITH);
  }

  lemma {:induction false} BodyBrackets(e: Expr, guarded: bool)
    requires CanonicalBody(e, guarded)
    ensures Brackets(Body(e)) && |Body(e)| >= 1 && (Level(e) < 7 ==> |Body(e)| >= 2)
    decreases e, 0
  {
    hide KindOf, Spell, AtomTokens, Brackets, Print, Canonical, CompareTokens;
    match e
    case Binary(op, left, right) =>
      SpellingHasKind(OpKind(op));
      PrintBrackets(left, OpLevel(op), guarded);
      PrintBrackets(right, OpLevel(op) + 1, OpLevel(op) <= 2);
      Sandwich(Print(left, OpLevel(op)), [Spell(OpKind(op))], Print(right, OpLevel(op) + 1));
    case Not(x) =>
      SpellingHasKind(NOT);
      PrintBrackets(x, 3, true);
      BracketFree([Spell(NOT)]);
      BracketsConcat([Spell(NOT)], Print(x, 3));
    case IsNull(x) =>
      PrintBrackets(x, 5, guarded);
      NullTestBrackets(Print(x, 5));
    case IsNotNull(x) =>
      PrintBrackets(x, 5, guarded);
      NullTestBrackets(Print(x, 5));
    case Comparison(op, left, right) =>
      PrintBrackets(left, 5, guarded);
      PrintBrackets(right, 7, false);
      InfixFree(op);
      Sandwich(Print(left, 5), CompareTokens(op), Print(right, 7));
    case InList(left, right, negated) =>
      PrintBrackets(left, 5, guarded);
      PrintBrackets(right, 7, false);
      MembershipBrackets(Print(left, 5), negated, Print(right, 7));
    case Between(x, lower, upper) =>
      PrintBrackets(x, 5, guarded);
      PrintBrackets(lower, 5, false);
      PrintBrackets(upper, 5, false);
      BetweenBrackets(Print(x, 5), Print(lower, 5), Print(upper, 5));
    case _ => AtomBrackets(e, guarded);
  }

  lemma {:induction false} NullTestBrackets(a: seq<string>)
    requires Brackets(a)
    ensures Brackets(a + [Spell(IS), Spell(NULL)]) && Brackets(a + [Spell(IS), Spell(NOT), Spell(NULL)])
  {
    hide KindOf, Spell, Brackets;
    SpellingHasKind(IS);
    SpellingHasKind(NOT);
    SpellingHasKind(NULL);
    SandwichEnd(a, [Spell(IS), Spell(NULL)]);
    SandwichEnd(a, [Spell(IS), Spell(NOT), Spell(NULL)]);
  }

  lemma {:induction false} MembershipBrackets(a: seq<string>, negated: bool, b: seq<string>)
    requires Brackets(a) && Brackets(b)
    ensures Brackets(a + (if negated then [Spell(NOT), Spell(IN)] else [Spell(IN)]) + b)
  {
    hide KindOf, Spell, Brackets;
    SpellingHasKind(NOT);
    SpellingHasKind(IN);
    Sandwich(a, if negated then [Spell(NOT), Spell(IN)] else [Spell(IN)], b);
  }

  lemma {:induction false} BetweenBrackets(a: seq<string>, b: seq<string>, c: seq<string>)
    requires Brackets(a) && Brackets(b) && Brackets(c)
    ensures Brackets(a + [Spell(BETWEEN)] + b + [Spell(AND)] + c)
  {
    hide KindOf, Spell, Brackets;
    SpellingHasKind(BETWEEN);
    SpellingHasKind(AND);
    Sandwich(a, [Spell(BETWEEN)], b);
    Sandwich(a + [Spell(BETWEEN)] + b, [Spell(AND)], c);
  }

  lemma {:induction false} AtomBrackets(e: Expr, guarded: bool)
    requires Level(e) == 7 && CanonicalBody(e, guarded)
    ensures Brackets(AtomTokens(e)) && |AtomTokens(e)| >= 1
  {
    hide KindOf, Spell, Brackets, IdentToken;
    SpellingHasKind(Dot);
    AtomKinds(e, guarded);
    match e
    case PatternExists(source, relType, target) => PatternBrackets(source, relType, target);
    case Lit(_) => LiteralBrackets(e, guarded);
    case Property(_, property) => IdentTokenReadsBack(property); BracketFree(AtomTokens(e));
    case ParameterProperty(_, key) => IdentTokenReadsBack(key); BracketFree(AtomTokens(e));
    case _ => BracketFree(AtomTokens(e));
  }

  lemma {:induction false} LiteralBrackets(e: Expr, guarded: bool)
    requires e.Lit? && CanonicalBody(e, guarded)
    ensures Brackets(AtomTokens(e)) && |AtomTokens(e)| >= 1
  {
    hide KindOf, Spell, Brackets, IsF64Text;
    SpellingHasKind(Dot);
    SpellingHasKind(NULL);
    SpellingHasKind(TRUE);
    SpellingHasKind(FALSE);
    AtomKinds(e, guarded);
    BracketFree(AtomTokens(e));
  }

  lemma {:induction false} PatternBrackets(source: string, relType: string, target: string)
    ensures Brackets(AtomTokens(PatternExists(source, relType, target)))
  {
    hide KindOf, Spell, IdentToken;
    SpellingHasKind(LParen);
    SpellingHasKind(RParen);
    SpellingHasKind(Minus);
    SpellingHasKind(LBracket);
    SpellingHasKind(Colon);
    SpellingHasKind(RBracket);
    SpellingHasKind(Gt);
    IdentTokenReadsBack(source);
    IdentTokenReadsBack(relType);
    IdentTokenReadsBack(target);
    var head := [Spell(LParen), IdentToken(source), Spell(RParen), Spell(Minus), Spell(LBracket)];
    assert Brackets(head);
    hide Brackets;
    SandwichEnd(head, EdgeTokens(relType, target));
  }

  /** Kind of the first token of an atom, and of the fraction of a float. */
  lemma {:induction false} AtomKinds(e: Expr, guarded: bool)
    requires Level(e) == 7 && CanonicalBody(e, guarded)
    ensures match e
      case Lit(Integer(i)) => KindOf(AtomTokens(e)[0]) == Number
      case Lit(Decimals(_, fraction)) => KindOf(AtomTokens(e)[0]) == Number && KindOf(fraction) in {Number, Name}
      case Lit(Str(_)) => KindOf(AtomTokens(e)[0]) == Quoted
      case Parameter(_) => KindOf(AtomTokens(e)[0]) == Param
      case ParameterProperty(_, _) => KindOf(AtomTokens(e)[0]) == Param
      case _ => true
  {
    hide KeywordKind, IsF64Text;
    match e
    case Lit(Integer(i)) => DecimalIsNumber(i);
    case Lit(Decimals(whole, fraction)) =>
      DecimalIsNumber(whole);
      FractionKind(whole, fraction);
    case _ =>
  }

  lemma {:induction false} DigitsEndSkips(t: string, i: nat, j: nat)
    requires i <= j <= |t| && forall k | i <= k < j :: IsDigit(t[k])
    ensures DigitsEnd(t, i) == DigitsEnd(t, j)
    decreases j - i
  {
    if i < j {
      DigitsEndSkips(t, i + 1, j);
    }
  }

  /** What may stand behind the point of a float is no operator and no bracket. */
  lemma {:induction false} FractionKind(whole: nat, fraction: string)
    requires IsF64Text(Decimal(whole) + "." + fraction)
    ensures KindOf(fraction) in {Number, Name}
  {
    var n := |Decimal(whole)|;
    var text := Decimal(whole) + "." + fraction;
    DigitsEndSkips(text, 0, n);
    assert text[n] == '.' && DigitsEnd(text, n) == n;
    if fraction != "" && !IsDigit(fraction[0]) {
      assert text[n + 1] == fraction[0];
      assert DigitsEnd(text, n + 1) == n + 1;
      assert fraction[0] == 'e' || fraction[0] == 'E';
      ExponentIsName(fraction);
    }
  }

  lemma {:induction false} ExponentIsName(t: string)
    requires |t| >= 2 && (t[0] == 'e' || t[0] == 'E')
    requires t[1] == '+' || t[1] == '-' || IsDigit(t[1])
    ensures KindOf(t) == Name
  {
    assert Upper(t)[0] == 'E' && Upper(t)[1] == UpperChar(t[1]) == t[1];
    if |t| == 4 {
      assert Upper(t) != "ENDS";
    }
  }

  lemma {:induction false} PrintBrackets(e: Expr, level: nat, guarded: bool)
    requires Canonical(e, level, guarded)
    ensures Brackets(Print(e, level)) && |Print(e, level)| >= 1
    decreases e, 1
  {
    hide KindOf, Spell, Brackets, Body, CanonicalBody;
    SpellingHasKind(LParen);
    SpellingHasKind(RParen);
    BodyBrackets(e, guarded || Level(e) < level);
    if Level(e) < level {
      BracketFree([Spell(LParen)]);
      BracketsConcat([Spell(LParen)], Body(e));
      SandwichEnd([Spell(LParen)] + Body(e), [Spell(RParen)]);
    }
  }

  /** A parenthesised operator expression is never taken for a pattern predicate. */
  lemma {:induction false} NoPattern(ts: seq<string>)
    requires |ts| >= 4 && Is(ts, LParen) && Brackets(ts[1..])
    ensures TryPattern(ts) == Attempt(None, ts)
  {
    hide KindOf;
    match SkipLabel(ts[2..])
    case None =>
    case Some(t) => assert t == ts[|ts| - |t|..];
  }

  // ---------- Atoms ----------

  lemma {:induction false} PatternExact(source: string, relType: string, target: string, rest: seq<string>)
    ensures var e := PatternExists(source, relType, target);
      ParsePrimary(AtomTokens(e) + rest) == Got(e, rest)
  {
    hide KindOf, Spell, IdentToken, Unquote, ParseAtom, TryPattern;
    SpellingHasKind(LParen);
    TryPatternExact(source, relType, target, rest);
  }

  lemma {:induction false} TryPatternOpens(open: string, ident: string, t: seq<string>)
    requires KindOf(open) == LParen
    requires |t| >= 3 && KindOf(t[0]) == RParen && KindOf(t[1]) == Minus && KindOf(t[2]) == LBracket
    ensures var ts := [open, ident] + t;
      TryPattern(ts) == TryRelationship(Unquote(ident), t[3..], ts)
  {
    hide KindOf, Unquote, TryRelationship;
    assert ([open, ident] + t)[2..] == t && t[1..][0] == t[1] && t[2..][0] == t[2];
  }

  lemma {:induction false} TryPatternExact(source: string, relType: string, target: string, rest: seq<string>)
    ensures var e := PatternExists(source, relType, target);
      TryPattern(AtomTokens(e) + rest) == Attempt(Some(e), rest)
  {
    hide KindOf, Spell, IdentToken, Unquote, TryPattern, TryRelationship, EdgeTokens;
    SpellingHasKind(LParen);
    SpellingHasKind(RParen);
    SpellingHasKind(Minus);
    SpellingHasKind(LBracket);
    IdentTokenReadsBack(source);
    var ts := AtomTokens(PatternExists(source, relType, target)) + rest;
    var edge := EdgeTokens(relType, target) + rest;
    var t := [Spell(RParen), Spell(Minus), Spell(LBracket)] + edge;
    assert t[3..] == edge;
    assert ts == [Spell(LParen), IdentToken(source)] + t;
    TryPatternOpens(Spell(LParen), IdentToken(source), t);
    EdgeExact(source, relType, target, rest, ts);
  }

  lemma {:induction false} TargetExact(source: string, relType: string, target: string, rest: seq<string>, start: seq<string>)
    requires |start| > |[IdentToken(target), Spell(RParen)] + rest|
    ensures TryTarget(source, relType, [IdentToken(target), Spell(RParen)] + rest, start)
         == Attempt(Some(PatternExists(source, relType, target)), rest)
  {
    hide KindOf, Spell, IdentToken, Unquote;
    SpellingHasKind(RParen);
    IdentTokenReadsBack(target);
    var node := [IdentToken(target), Spell(RParen)] + rest;
    assert node[1..] == [Spell(RParen)] + rest && node[1..][1..] == rest;
  }

  lemma {:induction false} ArrowExact(source: string, relType: string, target: string, rest: seq<string>, start: seq<string>)
    requires |start| > |rest| + 4
    ensures TryArrow(source, relType, [Spell(Gt), Spell(LParen), IdentToken(target), Spell(RParen)] + rest, start)
         == Attempt(Some(PatternExists(source, relType, target)), rest)
  {
    hide KindOf, Spell, IdentToken, Unquote, TryTarget;
    SpellingHasKind(Gt);
    SpellingHasKind(LParen);
    TargetExact(source, relType, target, rest, start);
    var ts := [Spell(Gt), Spell(LParen), IdentToken(target), Spell(RParen)] + rest;
    assert ts[1..][1..] == [IdentToken(target), Spell(RParen)] + rest;
  }

  lemma {:induction false} EdgeExact(source: string, relType: string, target: string, rest: seq<string>, start: seq<string>)
    requires |start| > |EdgeTokens(relType, target) + rest|
    ensures var ts := EdgeTokens(relType, target) + rest;
      TryRelationship(source, ts, start) == Attempt(Some(PatternExists(source, relType, target)), rest)
  {
    hide KindOf, Spell, IdentToken, Unquote, TryArrow;
    SpellingHasKind(Minus);
    SpellingHasKind(RBracket);
    SpellingHasKind(Colon);
    IdentTokenReadsBack(relType);
    ArrowExact(source, relType, target, rest, start);
    var t := (EdgeTokens(relType, target) + rest)[1..];
    assert t[1..][0] == Spell(RBracket) && t[2..][0] == Spell(Minus);
    assert t[3..] == [Spell(Gt), Spell(LParen), IdentToken(target), Spell(RParen)] + rest;
  }

  lemma {:induction false} LastDotIs(a: string, b: string)
    requires '.' !in b
    ensures LastDot(a + "." + b) == |a|
  {
    var text := a + "." + b;
    assert text[|a|] == '.';
  }

  lemma {:induction false} DottedOnce(name: string, dot: string, ident: string, rest: seq<string>)
    requires KindOf(dot) == Dot && Follow(7, rest)
    ensures var full := name + "." + Unquote(ident);
      Dotted(name, [dot, ident] + rest) == Some((full, rest))
  {
    hide KindOf, Unquote;
    assert ([dot, ident] + rest)[2..] == rest;
    assert Dotted(name + "." + Unquote(ident), rest) == Some((name + "." + Unquote(ident), rest));
  }

  lemma {:induction false} PropertyExact(variable: string, property: string, rest: seq<string>)
    requires '.' !in property && Follow(7, rest)
    ensures ParseName([variable, Spell(Dot), IdentToken(property)] + rest) == Got(Property(variable, property), rest)
  {
    hide KindOf, Spell, IdentToken, Unquote, Dotted;
    SpellingHasKind(Dot);
    IdentTokenReadsBack(property);
    LastDotIs(variable, property);
    DottedOnce(variable, Spell(Dot), IdentToken(property), rest);
    var ts := [variable, Spell(Dot), IdentToken(property)] + rest;
    var full := variable + "." + property;
    assert ts[1..] == [Spell(Dot), IdentToken(property)] + rest;
    assert full[..|variable|] == variable && full[|variable| + 1..] == property;
  }

  lemma {:induction false} NameExact(name: string, rest: seq<string>)
    requires Follow(7, rest)
    ensures ParseName([name] + rest) == Got(Variable(name), rest)
  {
    hide KindOf;
    assert ([name] + rest)[1..] == rest;
  }

  lemma {:induction false} FloatExact(whole: nat, fraction: string, rest: seq<string>)
    requires whole <= I64_MAX && IsF64Text(Decimal(whole) + "." + fraction) && Follow(7, rest)
    ensures ParseNumber([Decimal(whole), Spell(Dot), fraction] + rest) == Got(Lit(Decimals(whole, fraction)), rest)
  {
    hide KindOf, Spell, IsF64Text, Decimal, ParseI64;
    SpellingHasKind(Dot);
    DecimalIsNumber(whole);
    var ts := [Decimal(whole), Spell(Dot), fraction] + rest;
    assert ts[1..][0] == Spell(Dot) && ts[2] == fraction && ts[3..] == rest;
  }

  lemma {:induction false} IntegerExact(i: nat, rest: seq<string>)
    requires i <= I64_MAX && Follow(7, rest)
    ensures ParseNumber([Decimal(i)] + rest) == Got(Lit(Integer(i)), rest)
  {
    hide KindOf, IsF64Text, Decimal, ParseI64;
    DecimalIsNumber(i);
    assert ([Decimal(i)] + rest)[1..] == rest;
  }

  lemma {:induction false} WordExact(e: Expr, rest: seq<string>)
    requires e.Lit? && (e.literal.Bool? || e.literal.NullLiteral?)
    ensures ParseAtom(AtomTokens(e) + rest) == Got(e, rest) && KindOf(AtomTokens(e)[0]) != LParen
  {
    hide KindOf, Spell;
    SpellingHasKind(TRUE);
    SpellingHasKind(FALSE);
    SpellingHasKind(NULL);
    assert (AtomTokens(e) + rest)[1..] == rest;
  }

  lemma {:induction false} StringExact(e: Expr, rest: seq<string>)
    requires e.Lit? && e.literal.Str? && CanonicalLiteral(e.literal)
    ensures ParseAtom(AtomTokens(e) + rest) == Got(e, rest)
  {
    hide KindOf, Spell, ParseName, ParseNumber, IsF64Text, Decimal;
    AtomKinds(e, true);
    var ts := AtomTokens(e) + rest;
    assert ts[0][1..|ts[0]| - 1] == e.literal.text && ts[1..] == rest;
  }

  lemma {:induction false} NumberExact(e: Expr, rest: seq<string>)
    requires e.Lit? && CanonicalLiteral(e.literal) && Follow(7, rest)
    requires e.literal.Integer? || e.literal.Decimals? || e.literal.Numeral?
    ensures ParseNumber(AtomTokens(e) + rest) == Got(e, rest) && KindOf(AtomTokens(e)[0]) == Number
  {
    hide KindOf, Spell, IsF64Text, Decimal, ParseI64;
    AtomKinds(e, true);
    match e.literal
    case Integer(i) => hide ParseNumber; IntegerExact(i, rest);
    case Decimals(whole, fraction) => hide ParseNumber; FloatExact(whole, fraction, rest);
    case Numeral(_) =>
      assert (AtomTokens(e) + rest)[1..] == rest;
  }

  lemma {:induction false} LiteralExact(e: Expr, rest: seq<string>)
    requires e.Lit? && CanonicalLiteral(e.literal) && Follow(7, rest)
    ensures ParseAtom(AtomTokens(e) + rest) == Got(e, rest)
    ensures KindOf(AtomTokens(e)[0]) != LParen
  {
    hide KindOf, Spell, IsF64Text, Decimal, ParseI64, ParseNumber, ParseName, ParseQuoted, ParseParameter, CanonicalLiteral;
    if e.literal.Str? {
      AtomKinds(e, true);
      StringExact(e, rest);
    } else if e.literal.Bool? || e.literal.NullLiteral? {
      WordExact(e, rest);
    } else {
      NumberExact(e, rest);
    }
  }

  lemma {:induction false} ParameterExact(e: Expr, rest: seq<string>)
    requires (e.Parameter? || e.ParameterProperty?) && Follow(7, rest)
    ensures ParseAtom(AtomTokens(e) + rest) == Got(e, rest)
    ensures KindOf(AtomTokens(e)[0]) != LParen
  {
    hide KindOf, Spell, IdentToken, Unquote;
    AtomKinds(e, true);
    SpellingHasKind(Dot);
    var ts := AtomTokens(e) + rest;
    if e.Parameter? {
      assert ts[1..] == rest;
    } else {
      IdentTokenReadsBack(e.key);
      assert ts[1..][0] == Spell(Dot) && ts[3..] == rest;
    }
  }

  lemma {:induction false} AtomExact(e: Expr, rest: seq<string>)
    requires Level(e) == 7 && CanonicalBody(e, false) && Follow(7, rest)
    ensures ParsePrimary(AtomTokens(e) + rest) == Got(e, rest)
  {
    hide KindOf, Spell, IdentToken, ParseName, CanonicalLiteral;
    match e
    case PatternExists(source, relType, target) => PatternExact(source, relType, target, rest);
    case Lit(_) => LiteralExact(e, rest);
    case Variable(name) => NameExact(name, rest);
    case Property(variable, property) => PropertyExact(variable, property, rest);
    case _ => ParameterExact(e, rest);
  }
}
