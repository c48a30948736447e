/** The two directions: parsing inverts printing, and the parser produces printable expressions only. */
module CypherPrintParse {
  import opened Wrappers
  import opened CypherTokens
  import opened Text
  import opened CypherParser
  import opened CypherPrinter
  import opened CypherRoundTrip

  /** An operand reached through `parse_not` does not start with NOT unless it is a negation. */
  lemma {:induction false} FirstToken(e: Expr, level: nat)
    requires Canonical(e, level, true) && (Level(e) >= 4 || Level(e) < level)
    ensures Print(e, level) != [] && KindOf(Print(e, level)[0]) != NOT
    decreases e
  {
    hide KindOf, Spell, Brackets, AtomTokens, CompareTokens;
    PrintBrackets(e, level, true);
    if Level(e) < level {
      SpellingHasKind(LParen);
    } else {
      match e
      case Binary(op, left, _) => FirstToken(left, OpLevel(op));
      case IsNull(x) => FirstToken(x, 5);
      case IsNotNull(x) => FirstToken(x, 5);
      case Comparison(_, left, _) => FirstToken(left, 5);
      case InList(left, _, _) => FirstToken(left, 5);
      case Between(x, _, _) => FirstToken(x, 5);
      case _ => FirstAtomToken(e);
    }
  }

  lemma {:induction false} FirstAtomToken(e: Expr)
    requires Level(e) == 7 && CanonicalBody(e, true)
    ensures AtomTokens(e) != [] && KindOf(AtomTokens(e)[0]) != NOT
  {
    hide KindOf, Spell, IdentToken;
    AtomKinds(e, true);
    SpellingHasKind(LParen);
    SpellingHasKind(NULL);
    SpellingHasKind(TRUE);
    SpellingHasKind(FALSE);
  }

  /** Calls still to come before `e`, expected at `level`, is read by the rule of its own operator. */
  function Rank(e: Expr, level: nat): nat
    requires level <= 7
  {
    if Level(e) < level then 20 - level else Level(e) - level
  }

  lemma {:induction false} GuardWeakens(e: Expr, level: nat)
    requires Canonical(e, level, true)
    ensures Canonical(e, level, false)
  {
    hide KindOf, NameToken, CanonicalLiteral;
    BodyGuardWeakens(e);
  }

  lemma {:induction false} BodyGuardWeakens(e: Expr)
    requires CanonicalBody(e, true)
    ensures CanonicalBody(e, false)
    decreases e
  {
    hide KindOf, CanonicalLiteral;
    match e
    case Binary(op, left, _) => if Level(left) >= OpLevel(op) { BodyGuardWeakens(left); }
    case IsNull(x) => if Level(x) >= 5 { BodyGuardWeakens(x); }
    case IsNotNull(x) => if Level(x) >= 5 { BodyGuardWeakens(x); }
    case Comparison(_, left, _) => if Level(left) >= 5 { BodyGuardWeakens(left); }
    case InList(left, _, _) => if Level(left) >= 5 { BodyGuardWeakens(left); }
    case Between(x, _, _) => if Level(x) >= 5 { BodyGuardWeakens(x); }
    case _ =>
  }

  predicate Guarded(level: nat) { level <= 4 }

  /** Where the level of an expression is not the expected one, expecting the next one is the same. */
  lemma {:induction false} NextLevel(e: Expr, level: nat)
    requires level < 7 && Level(e) != level && Canonical(e, level, Guarded(level))
    ensures Canonical(e, level + 1, Guarded(level + 1)) && Print(e, level + 1) == Print(e, level)
  {
    hide CanonicalBody, Body;
    if level == 4 {
      GuardWeakens(e, 4);
    }
  }

  /** Parsing what was printed for a level gives the expression and the tokens behind it. */
  lemma {:induction false} Exact(e: Expr, level: nat, rest: seq<string>)
    requires level <= 7 && Canonical(e, level, Guarded(level))
    requires Follow(level, rest) && Brackets(rest)
    ensures ParseLevel(level, Print(e, level) + rest) == Got(e, rest)
    decreases e, Rank(e, level), 4
  {
    hide KindOf, Spell, Brackets, CanonicalBody, Body, ParseNot, ParseComparison, ParsePrimary, Loop;
    if level == PRIMARY_LEVEL {
      ExactPrimary(e, rest);
    } else if level == COMPARISON_LEVEL {
      ExactComparison(e, rest);
    } else if level == NOT_LEVEL {
      ExactNot(e, rest);
    } else {
      Spine(e, level, rest);
      LoopStops(level, e, rest);
    }
  }

  /** At a level that associates to the left, the printed operands are taken up one by one. */
  lemma {:induction false} Spine(e: Expr, level: nat, rest: seq<string>)
    requires LoopLevel(level) && Canonical(e, level, Guarded(level))
    requires Follow(level + 1, rest) && Brackets(rest)
    ensures ParseLevel(level, Print(e, level) + rest) == Loop(level, e, rest)
    decreases e, Rank(e, level), 2
  {
    hide KindOf, Spell, Brackets, Loop, Canonical, CanonicalBody, Print, Body;
    if Level(e) == level {
      SpineStep(e, rest);
    } else {
      NextLevel(e, level);
      Exact(e, level + 1, rest);
    }
  }

  lemma {:induction false} OwnLevel(e: Expr, guarded: bool)
    ensures Canonical(e, Level(e), guarded) <==> CanonicalBody(e, guarded)
    ensures Print(e, Level(e)) == Body(e)
  {
    hide CanonicalBody, Body;
  }

  lemma {:induction false} BinaryParts(e: Expr, guarded: bool)
    requires e.Binary? && CanonicalBody(e, guarded)
    ensures var level := OpLevel(e.op);
      && Body(e) == Print(e.left, level) + [Spell(OpKind(e.op))] + Print(e.right, level + 1)
      && Canonical(e.left, level, guarded) && Canonical(e.right, level + 1, level <= 2)
  {
    hide Canonical, Print, Spell;
  }

  lemma {:induction false} SpineStep(e: Expr, rest: seq<string>)
    requires e.Binary? && Canonical(e, OpLevel(e.op), Guarded(OpLevel(e.op)))
    requires Follow(OpLevel(e.op) + 1, rest) && Brackets(rest)
    ensures var level := OpLevel(e.op);
      ParseLevel(level, Print(e, level) + rest) == Loop(level, e, rest)
    decreases e, 0, 1
  {
    hide KindOf, Spell, Brackets, Loop, ParseLevel, Print, Canonical, CanonicalBody, Body, ContinuesAt;
    var level := OpLevel(e.op);
    var op := Spell(OpKind(e.op));
    var right := Print(e.right, level + 1);
    var more := [op] + (right + rest);
    OwnLevel(e, Guarded(level));
    BinaryParts(e, Guarded(level));
    OperatorFollows(e.op, e.right, rest);
    assert Print(e, level) + rest == Print(e.left, level) + more;
    Spine(e.left, level, more);
    Exact(e.right, level + 1, rest);
    assert more[1..] == right + rest;
    SpellingHasKind(OpKind(e.op));
    LoopTakes(level, e.left, more, e.op, e.right, rest);
  }

  lemma {:induction false} OperatorFollows(op: BinaryOp, right: Expr, rest: seq<string>)
    requires Canonical(right, OpLevel(op) + 1, Guarded(OpLevel(op) + 1)) && Brackets(rest)
    ensures var more := [Spell(OpKind(op))] + (Print(right, OpLevel(op) + 1) + rest);
      Follow(OpLevel(op) + 1, more) && Brackets(more)
  {
    hide KindOf, Spell, Brackets, Print, Canonical;
    var level := OpLevel(op);
    SpellingHasKind(OpKind(op));
    PrintBrackets(right, level + 1, Guarded(level + 1));
    BracketFree([Spell(OpKind(op))]);
    BracketsConcat(Print(right, level + 1), rest);
    BracketsConcat([Spell(OpKind(op))], Print(right, level + 1) + rest);
  }

  lemma {:induction false} LoopTakes(level: nat, left: Expr, ts: seq<string>, op: BinaryOp, right: Expr, rest: seq<string>)
    requires LoopLevel(level) && ts != [] && KindOf(ts[0]) == OpKind(op) && OpLevel(op) == level
    requires ParseLevel(level + 1, ts[1..]) == Got(right, rest)
    ensures Loop(level, left, ts) == Loop(level, Binary(op, left, right), rest)
  {
    hide KindOf, ParseLevel;
  }

  lemma {:induction false} ExactNot(e: Expr, rest: seq<string>)
    requires Canonical(e, 3, true) && Follow(3, rest) && Brackets(rest)
    ensures ParseNot(Print(e, 3) + rest) == Got(e, rest)
    decreases e, Rank(e, 3), 2
  {
    hide KindOf, Spell, Brackets, ParseLevel;
    if e.Not? {
      SpellingHasKind(NOT);
      ExactNot(e.operand, rest);
      assert Print(e, 3) + rest == [Spell(NOT)] + (Print(e.operand, 3) + rest);
    } else {
      FirstToken(e, 3);
      NextLevel(e, 3);
      Exact(e, 4, rest);
    }
  }

  lemma {:induction false} ExactPrimary(e: Expr, rest: seq<string>)
    requires Canonical(e, 7, false) && Follow(7, rest) && Brackets(rest)
    ensures ParsePrimary(Print(e, 7) + rest) == Got(e, rest)
    decreases e, Rank(e, 7), 2
  {
    hide KindOf, Spell, Brackets, ParsePrimary, ParseLevel, CanonicalBody, Follow;
    if Level(e) == 7 {
      AtomExact(e, rest);
    } else {
      var tail := [Spell(RParen)] + rest;
      ParenthesesClose(e, rest);
      Exact(e, 0, tail);
      assert Print(e, 7) + rest == [Spell(LParen)] + (Body(e) + tail);
      SpellingHasKind(LParen);
      SpellingHasKind(RParen);
      Parenthesised(Spell(LParen), Body(e) + tail, e, Spell(RParen), rest);
    }
  }

  lemma {:induction false} ParenthesesClose(e: Expr, rest: seq<string>)
    requires Level(e) < 7 && CanonicalBody(e, true) && Brackets(rest)
    ensures var tail := [Spell(RParen)] + rest;
      Follow(0, tail) && Brackets(tail) && Brackets(Body(e) + tail) && |Body(e) + tail| >= 3
  {
    hide KindOf, Spell, Brackets, CanonicalBody, Body;
    SpellingHasKind(RParen);
    CloseFollows(Spell(RParen));
    BodyBrackets(e, true);
    BracketFree([Spell(RParen)]);
    BracketsConcat([Spell(RParen)], rest);
    BracketsConcat(Body(e), [Spell(RParen)] + rest);
  }

  lemma {:induction false} CloseFollows(close: string)
    requires KindOf(close) == RParen
    ensures ContinuesAt(KindOf(close)) == -1
  {
    hide KindOf;
  }

  lemma {:induction false} Parenthesised(open: string, ts: seq<string>, e: Expr, close: string, rest: seq<string>)
    requires KindOf(open) == LParen && KindOf(close) == RParen
    requires |ts| >= 3 && Brackets(ts) && ParseLevel(0, ts) == Got(e, [close] + rest)
    ensures ParsePrimary([open] + ts) == Got(e, rest)
  {
    hide KindOf, Brackets, ParseLevel, TryPattern;
    assert ([open] + ts)[1..] == ts;
    NoPattern([open] + ts);
    assert ([close] + rest)[1..] == rest;
  }

  lemma {:induction false} ExactComparison(e: Expr, rest: seq<string>)
    requires Canonical(e, 4, true) && Follow(4, rest) && Brackets(rest)
    ensures ParseComparison(Print(e, 4) + rest) == Got(e, rest)
    decreases e, Rank(e, 4), 3
  {
    hide KindOf, Spell, Brackets, ParseLevel, CompareTail, CanonicalBody, Body;
    if Level(e) != 4 {
      NextLevel(e, 4);
      Exact(e, 5, rest);
      if rest != [] {
        TailStops(e, rest);
      }
    } else {
      ExactTail(e, rest);
    }
  }

  /** The left side of a comparison and the tokens behind it. */
  function CompareLeft(e: Expr): Expr
    requires Level(e) == 4
  {
    match e
    case IsNull(x) => x
    case IsNotNull(x) => x
    case Comparison(_, left, _) => left
    case InList(left, _, _) => left
    case Between(x, _, _) => x
  }

  function CompareRest(e: Expr): seq<string>
    requires Level(e) == 4
  {
    match e
    case IsNull(_) => [Spell(IS), Spell(NULL)]
    case IsNotNull(_) => [Spell(IS), Spell(NOT), Spell(NULL)]
    case Comparison(op, _, right) => CompareTokens(op) + Print(right, 7)
    case InList(_, right, negated) => (if negated then [Spell(NOT), Spell(IN)] else [Spell(IN)]) + Print(right, 7)
    case Between(_, lower, upper) => [Spell(BETWEEN)] + Print(lower, 5) + [Spell(AND)] + Print(upper, 5)
  }

  lemma {:induction false} ExactTail(e: Expr, rest: seq<string>)
    requires Level(e) == 4 && Canonical(e, 4, true) && Follow(4, rest) && Brackets(rest)
    ensures ParseComparison(Print(e, 4) + rest) == Got(e, rest)
    decreases e, 0, 2
  {
    hide ContinuesAt, KindOf, Spell, Brackets, ParseLevel, CompareTail, CompareRest, Print, Follow, CanonicalBody;
    var left, tail := CompareLeft(e), CompareRest(e) + rest;
    PrintSplits(e, rest);
    LeftIsCanonical(e);
    TailFollows(e, rest);
    Exact(left, 5, tail);
    ExactCompareTail(e, rest);
  }

  lemma {:induction false} LeftIsCanonical(e: Expr)
    requires Level(e) == 4 && Canonical(e, 4, true)
    ensures Canonical(CompareLeft(e), 5, true) && Canonical(CompareLeft(e), 5, false)
  {
    hide KindOf, NameToken, CanonicalLiteral;
    GuardWeakens(CompareLeft(e), 5);
  }

  lemma {:induction false} PrintSplits(e: Expr, rest: seq<string>)
    requires Level(e) == 4
    ensures Print(e, 4) + rest == Print(CompareLeft(e), 5) + (CompareRest(e) + rest)
  {
    hide KindOf, Spell, Print, CompareTokens;
    OwnLevel(e, false);
    assert Body(e) == Print(CompareLeft(e), 5) + CompareRest(e);
  }

  /** The infix tokens of a comparison, if it has a single right side. */
  function Infix(e: Expr): seq<string>
    requires e.Comparison? || e.InList?
  {
    match e
    case Comparison(op, _, _) => CompareTokens(op)
    case InList(_, _, negated) => if negated then [Spell(NOT), Spell(IN)] else [Spell(IN)]
  }

  lemma {:induction false} InfixEnds(e: Expr)
    requires e.Comparison? || e.InList?
    ensures Infix(e) != [] && EndsOperand(KindOf(Infix(e)[0]))
    ensures forall i | 0 <= i < |Infix(e)| :: KindOf(Infix(e)[i]) != LBracket
  {
    hide KindOf, Spell, CompareTokens;
    match e
    case Comparison(op, _, _) => InfixKinds(op);
    case InList(_, _, _) =>
      SpellingHasKind(NOT);
      SpellingHasKind(IN);
  }

  /** What stands behind the left side ends it, and holds no bracket of its own. */
  lemma {:induction false} TailFollows(e: Expr, rest: seq<string>)
    requires Level(e) == 4 && Canonical(e, 4, true) && Brackets(rest)
    ensures var tail := CompareRest(e) + rest; tail != [] && Follow(5, tail) && Brackets(tail)
  {
    hide KindOf, Spell, Brackets, Print, ContinuesAt, CompareTokens, EndsOperand, Follow;
    if e.IsNull? || e.IsNotNull? {
      NullTestEnds(e);
      TokensFollow(CompareRest(e), rest);
    } else if e.Between? {
      BetweenFollows(e, rest);
    } else {
      InfixEnds(e);
      OperandFollows(Infix(e), e.right, 7, rest);
      assert CompareRest(e) == Infix(e) + Print(e.right, 7);
    }
  }

  lemma {:induction false} NullTestEnds(e: Expr)
    requires e.IsNull? || e.IsNotNull?
    ensures CompareRest(e) != [] && EndsOperand(KindOf(CompareRest(e)[0]))
    ensures forall i | 0 <= i < |CompareRest(e)| :: KindOf(CompareRest(e)[i]) != LBracket
  {
    hide KindOf, Spell;
    SpellingHasKind(IS);
    SpellingHasKind(NOT);
    SpellingHasKind(NULL);
  }

  lemma {:induction false} BetweenFollows(e: Expr, rest: seq<string>)
    requires e.Between? && Canonical(e, 4, true) && Brackets(rest)
    ensures var tail := CompareRest(e) + rest; tail != [] && Follow(5, tail) && Brackets(tail)
  {
    hide KindOf, Spell, Brackets, Print, ContinuesAt, Follow;
    SpellingHasKind(BETWEEN);
    SpellingHasKind(AND);
    var more := [Spell(AND)] + Print(e.upper, 5) + rest;
    OperandFollows([Spell(AND)], e.upper, 5, rest);
    OperandFollows([Spell(BETWEEN)], e.lower, 5, more);
    assert CompareRest(e) + rest == [Spell(BETWEEN)] + Print(e.lower, 5) + more;
  }

  /** Kinds that end an operand of a comparison. */
  predicate EndsOperand(k: Kind) {
    k in {IS, NOT, IN, BETWEEN, AND, CONTAINS, STARTS, ENDS} || CompareOpOf(k).Some?
  }

  lemma {:induction false} TokensFollow(tokens: seq<string>, rest: seq<string>)
    requires tokens != [] && EndsOperand(KindOf(tokens[0])) && Brackets(rest)
    requires forall i | 0 <= i < |tokens| :: KindOf(tokens[i]) != LBracket
    ensures var tail := tokens + rest; tail != [] && Follow(5, tail) && Brackets(tail)
  {
    hide KindOf, Brackets;
    BracketFree(tokens);
    BracketsConcat(tokens, rest);
  }

  lemma {:induction false} InfixKinds(op: CompareOp)
    ensures CompareTokens(op) != [] && EndsOperand(KindOf(CompareTokens(op)[0]))
    ensures forall i | 0 <= i < |CompareTokens(op)| :: KindOf(CompareTokens(op)[i]) != LBracket
  {
    hide KindOf, Spell;
    InfixSpellings(op);
    InfixFree(op);
    assert CompareTokens(op) != [] by {
      assert op.Equal? || !op.Equal?;
    }
  }

  lemma {:induction false} OperandFollows(infix: seq<string>, right: Expr, level: nat, rest: seq<string>)
    requires infix != [] && EndsOperand(KindOf(infix[0]))
    requires forall i | 0 <= i < |infix| :: KindOf(infix[i]) != LBracket
    requires Canonical(right, level, false) && Brackets(rest)
    ensures var tail := infix + Print(right, level) + rest; tail != [] && Follow(5, tail) && Brackets(tail)
  {
    hide KindOf, Brackets, Print, Canonical, ContinuesAt, EndsOperand;
    PrintBrackets(right, level, false);
    BracketsConcat(Print(right, level), rest);
    TokensFollow(infix, Print(right, level) + rest);
    assert infix + Print(right, level) + rest == infix + (Print(right, level) + rest);
  }

  lemma {:induction false} ExactCompareTail(e: Expr, rest: seq<string>)
    requires Level(e) == 4 && Canonical(e, 4, true) && Follow(4, rest) && Brackets(rest)
    ensures CompareRest(e) + rest != []
    ensures CompareTail(CompareLeft(e), CompareRest(e) + rest) == Got(e, rest)
    decreases e, 0, 1
  {
    hide KindOf, Spell, Brackets, ParseLevel, CompareTokens, Print, CompareTail, ContinuesAt, Follow;
    UpperFollows(rest);
    match e
    case IsNull(_) => NullTestTakes(e, rest);
    case IsNotNull(_) => NullTestTakes(e, rest);
    case Comparison(op, left, right) =>
      Exact(right, 7, rest);
      CompareTakes(op, left, right, Print(right, 7) + rest, rest);
      assert CompareRest(e) + rest == CompareTokens(op) + (Print(right, 7) + rest);
    case InList(left, right, negated) =>
      Exact(right, 7, rest);
      InListTakes(e, Print(right, 7) + rest, rest);
      assert CompareRest(e) + rest == Infix(e) + (Print(right, 7) + rest);
    case Between(_, _, _) => ExactBetween(e, rest);
  }

  lemma {:induction false} ExactBetween(e: Expr, rest: seq<string>)
    requires e.Between? && Canonical(e, 4, true) && Follow(4, rest) && Brackets(rest)
    ensures CompareTail(e.operand, CompareRest(e) + rest) == Got(e, rest)
    decreases e, 0, 0
  {
    hide KindOf, Spell, Brackets, ParseLevel, Print, CompareTail, ContinuesAt, Follow;
    UpperFollows(rest);
    SpellingHasKind(BETWEEN);
    SpellingHasKind(AND);
    var more := [Spell(AND)] + (Print(e.upper, 5) + rest);
    AndFollows(e.upper, rest);
    Exact(e.lower, 5, more);
    Exact(e.upper, 5, rest);
    assert more[1..] == Print(e.upper, 5) + rest;
    assert CompareRest(e) + rest == [Spell(BETWEEN)] + (Print(e.lower, 5) + more);
    BetweenTakes(e.operand, e.lower, e.upper, Spell(BETWEEN), Print(e.lower, 5) + more, more, rest);
  }

  lemma {:induction false} AndFollows(upper: Expr, rest: seq<string>)
    requires Canonical(upper, 5, false) && Brackets(rest)
    ensures var more := [Spell(AND)] + (Print(upper, 5) + rest); Follow(5, more) && Brackets(more)
  {
    hide KindOf, Spell, Brackets, Print, Canonical, Follow;
    SpellingHasKind(AND);
    OperandFollows([Spell(AND)], upper, 5, rest);
    assert [Spell(AND)] + (Print(upper, 5) + rest) == [Spell(AND)] + Print(upper, 5) + rest;
  }

  lemma {:induction false} NullTestTakes(e: Expr, rest: seq<string>)
    requires e.IsNull? || e.IsNotNull?
    ensures CompareRest(e) + rest != []
    ensures CompareTail(e.operand, CompareRest(e) + rest) == Got(e, rest)
  {
    hide KindOf, Spell, ParseLevel;
    SpellingHasKind(IS);
    SpellingHasKind(NOT);
    SpellingHasKind(NULL);
    var ts := CompareRest(e) + rest;
    if e.IsNull? {
      assert ts[1..][0] == Spell(NULL) && ts[2..] == rest;
    } else {
      assert ts[1..][0] == Spell(NOT) && ts[2..][0] == Spell(NULL) && ts[3..] == rest;
    }
  }

  lemma {:induction false} InListTakes(e: Expr, operand: seq<string>, rest: seq<string>)
    requires e.InList? && ParseLevel(PRIMARY_LEVEL, operand) == Got(e.right, rest)
    ensures Infix(e) + operand != []
    ensures CompareTail(e.left, Infix(e) + operand) == Got(e, rest)
  {
    hide KindOf, Spell, ParseLevel;
    SpellingHasKind(NOT);
    SpellingHasKind(IN);
    var ts := Infix(e) + operand;
    if e.negated {
      assert ts[1..][0] == Spell(IN) && ts[2..] == operand;
    } else {
      assert ts[1..] == operand;
    }
  }

  lemma {:induction false} UpperFollows(rest: seq<string>)
    requires Follow(4, rest)
    ensures Follow(5, rest) && Follow(7, rest)
  {
    hide KindOf, ContinuesAt;
  }

  lemma {:induction false} BetweenTakes(x: Expr, lower: Expr, upper: Expr, keyword: string, ts: seq<string>, more: seq<string>, rest: seq<string>)
    requires KindOf(keyword) == BETWEEN && ParseLevel(ADDITION_LEVEL, ts) == Got(lower, more)
    requires Is(more, AND) && ParseLevel(ADDITION_LEVEL, more[1..]) == Got(upper, rest)
    ensures CompareTail(x, [keyword] + ts) == Got(Between(x, lower, upper), rest)
  {
    hide KindOf, ParseLevel;
    assert ([keyword] + ts)[1..] == ts;
  }

  lemma {:induction false} CompareTakes(op: CompareOp, left: Expr, right: Expr, operand: seq<string>, rest: seq<string>)
    requires ParseLevel(PRIMARY_LEVEL, operand) == Got(right, rest)
    ensures CompareTokens(op) + operand != []
    ensures CompareTail(left, CompareTokens(op) + operand) == Got(Comparison(op, left, right), rest)
  {
    hide KindOf, Spell, ParseLevel;
    var ts := CompareTokens(op) + operand;
    InfixSpellings(op);
    if op.StartsWith? || op.EndsWith? {
      assert ts[1..][0] == Spell(WITH) && ts[2..] == operand;
    } else {
      assert ts[1..] == operand;
    }
  }

  lemma {:induction false} InfixSpellings(op: CompareOp)
    ensures var ts := CompareTokens(op); match op
      case Contains => KindOf(ts[0]) == CONTAINS
      case StartsWith => KindOf(ts[0]) == STARTS && KindOf(ts[1]) == WITH
      case EndsWith => KindOf(ts[0]) == ENDS && KindOf(ts[1]) == WITH
      case _ => CompareOpOf(KindOf(ts[0])) == Some(op)
  {
    hide KindOf, Spell;
    match op
    case Equal => SpellingHasKind(Eq);
    case Less => SpellingHasKind(Lt);
    case Greater => SpellingHasKind(Gt);
    case AtMost => SpellingHasKind(Le);
    case AtLeast => SpellingHasKind(Ge);
    case Unequal => SpellingHasKind(Ne);
    case Regex => SpellingHasKind(Matches);
    case Contains => SpellingHasKind(CONTAINS);
    case StartsWith => SpellingHasKind(STARTS); SpellingHasKind(WITH);
    case EndsWith => SpellingHasKind(ENDS); SpellingHasKind(WITH);
  }

  /** The parser inverts the printer and takes every token. */
  lemma {:induction false} ParsePrint(e: Expr)
    requires Printable(e)
    ensures ParseExpression(Print(e, OR_LEVEL)) == Got(e, [])
  {
    hide ParseLevel, Print, Canonical;
    Exact(e, 0, []);
    assert Print(e, 0) + [] == Print(e, 0);
  }

  // ---------- The parser produces nothing else ----------

  /** Whatever the parser returns at a level can stand at that level; it is guarded unless the
      tokens start with NOT below the level of negation. */
  lemma {:induction false} ParsedIsCanonical(level: nat, ts: seq<string>)
    requires level <= 7 && ParseLevel(level, ts).Got?
    ensures Canonical(ParseLevel(level, ts).e, level, level <= 3 || !Is(ts, NOT))
    decreases |ts|, 1, 15 - 2 * level
  {
    hide KindOf, Canonical, ParseNot, ParseComparison, ParsePrimary, Loop;
    if level == NOT_LEVEL {
      NotIsCanonical(ts);
    } else if level == COMPARISON_LEVEL {
      ComparisonIsCanonical(ts);
    } else if level == PRIMARY_LEVEL {
      PrimaryIsCanonical(ts);
    } else {
      var first := ParseLevel(level + 1, ts);
      ParsedIsCanonical(level + 1, ts);
      LowerLevel(first.e, level + 1, level, level + 1 <= 3 || !Is(ts, NOT));
      LoopIsCanonical(level, first.e, first.rest, level <= 3 || !Is(ts, NOT));
    }
  }

  /** What can stand at a level can stand at every looser one. */
  lemma {:induction false} LowerLevel(e: Expr, level: nat, lower: nat, guarded: bool)
    requires lower <= level && Canonical(e, level, guarded)
    ensures Canonical(e, lower, guarded)
  {
    hide CanonicalBody;
    if Level(e) < level && !(Level(e) < lower) && !guarded {
      BodyGuardWeakens(e);
    }
  }

  lemma {:induction false} LoopIsCanonical(level: nat, left: Expr, ts: seq<string>, guarded: bool)
    requires LoopLevel(level) && Canonical(left, level, guarded) && Loop(level, left, ts).Got?
    requires level <= 2 ==> guarded
    ensures Canonical(Loop(level, left, ts).e, level, guarded)
    decreases |ts|, 0, 0
  {
    hide KindOf, ParseLevel, NameToken, CanonicalLiteral;
    if ts != [] && OpAt(level, KindOf(ts[0])).Some? {
      var op := OpAt(level, KindOf(ts[0])).value;
      var right := ParseLevel(level + 1, ts[1..]);
      OperatorLevel(level, KindOf(ts[0]));
      ParsedIsCanonical(level + 1, ts[1..]);
      RightOperand(right.e, level + 1, ts[1..]);
      LoopIsCanonical(level, Binary(op, left, right.e), right.rest, guarded);
    }
  }

  lemma {:induction false} OperatorLevel(level: nat, k: Kind)
    requires OpAt(level, k).Some?
    ensures OpLevel(OpAt(level, k).value) == level
  {
  }

  /** A right operand is guarded exactly where `parse_not` reads it. */
  lemma {:induction false} RightOperand(e: Expr, level: nat, ts: seq<string>)
    requires Canonical(e, level, level <= 3 || !Is(ts, NOT))
    ensures Canonical(e, level, level <= 3)
  {
    hide KindOf, CanonicalBody;
    if level > 3 && Canonical(e, level, true) {
      GuardWeakens(e, level);
    }
  }

  lemma {:induction false} NotIsCanonical(ts: seq<string>)
    requires ParseNot(ts).Got?
    ensures Canonical(ParseNot(ts).e, 3, true)
    decreases |ts|, 1, 8
  {
    hide KindOf, ParseLevel;
    if Is(ts, NOT) {
      NotIsCanonical(ts[1..]);
    } else {
      ParsedIsCanonical(COMPARISON_LEVEL, ts);
      LowerLevel(ParseNot(ts).e, 4, 3, true);
    }
  }

  lemma {:induction false} ComparisonIsCanonical(ts: seq<string>)
    requires ParseComparison(ts).Got?
    ensures Canonical(ParseComparison(ts).e, 4, !Is(ts, NOT))
    decreases |ts|, 1, 6
  {
    hide KindOf, ParseLevel, CompareTail, Canonical;
    var left := ParseLevel(ADDITION_LEVEL, ts);
    ParsedIsCanonical(ADDITION_LEVEL, ts);
    if left.rest == [] {
      LowerLevel(left.e, 5, 4, !Is(ts, NOT));
    } else {
      TailIsCanonical(left.e, left.rest, !Is(ts, NOT));
    }
  }

  lemma {:induction false} OperandIsCanonical(level: nat, ts: seq<string>)
    requires level in {5, 7} && ParseLevel(level, ts).Got?
    ensures Canonical(ParseLevel(level, ts).e, level, false)
    decreases |ts|, 2, 0
  {
    hide KindOf, ParseLevel, Canonical;
    ParsedIsCanonical(level, ts);
    RightOperand(ParseLevel(level, ts).e, level, ts);
  }

  lemma {:induction false} TailIsCanonical(left: Expr, ts: seq<string>, guarded: bool)
    requires ts != [] && CompareTail(left, ts).Got? && Canonical(left, 5, guarded)
    ensures Canonical(CompareTail(left, ts).e, 4, guarded)
    decreases |ts|, 0, 1
  {
    hide KindOf, ParseLevel, Canonical, CanonicalBody;
    var k := KindOf(ts[0]);
    if CompareOpOf(k).Some? || k in {CONTAINS, IN, STARTS, ENDS, NOT} {
      RightSideIsCanonical(left, ts, guarded);
    } else if k == BETWEEN {
      BoundsAreCanonical(left, ts, guarded);
    } else if k == IS {
      CompareIsCanonical(CompareTail(left, ts).e, guarded);
    } else {
      LowerLevel(left, 5, 4, guarded);
    }
  }

  lemma {:induction false} RightSideIsCanonical(left: Expr, ts: seq<string>, guarded: bool)
    requires ts != [] && CompareTail(left, ts).Got? && Canonical(left, 5, guarded)
    requires CompareOpOf(KindOf(ts[0])).Some? || KindOf(ts[0]) in {CONTAINS, IN, STARTS, ENDS, NOT}
    ensures Canonical(CompareTail(left, ts).e, 4, guarded)
    decreases |ts|, 0, 0
  {
    hide KindOf, ParseLevel, Canonical, CanonicalBody;
    var i := if KindOf(ts[0]) in {STARTS, ENDS, NOT} then 2 else 1;
    var e := CompareTail(left, ts).e;
    assert i <= |ts| && ParseLevel(7, ts[i..]).Got?;
    assert (e.Comparison? || e.InList?) && CompareLeft(e) == left && e.right == ParseLevel(7, ts[i..]).e;
    hide CompareTail;
    OperandIsCanonical(7, ts[i..]);
    CompareIsCanonical(e, guarded);
  }

  lemma {:induction false} BoundsAreCanonical(left: Expr, ts: seq<string>, guarded: bool)
    requires ts != [] && CompareTail(left, ts).Got? && Canonical(left, 5, guarded) && KindOf(ts[0]) == BETWEEN
    ensures Canonical(CompareTail(left, ts).e, 4, guarded)
    decreases |ts|, 0, 0
  {
    hide KindOf, ParseLevel, Canonical, CanonicalBody;
    OperandIsCanonical(5, ts[1..]);
    OperandIsCanonical(5, ParseLevel(ADDITION_LEVEL, ts[1..]).rest[1..]);
    CompareIsCanonical(CompareTail(left, ts).e, guarded);
  }

  /** A comparison of operands that can stand on its sides can stand at its own level. */
  lemma {:induction false} CompareIsCanonical(e: Expr, guarded: bool)
    requires Level(e) == 4 && Canonical(CompareLeft(e), 5, guarded)
    requires e.Comparison? || e.InList? ==> Canonical(e.right, 7, false)
    requires e.Between? ==> Canonical(e.lower, 5, false) && Canonical(e.upper, 5, false)
    ensures Canonical(e, 4, guarded)
  {
    hide Canonical;
    assert CanonicalBody(e, guarded);
    OwnLevel(e, guarded);
  }

  lemma {:induction false} PrimaryIsCanonical(ts: seq<string>)
    requires ParsePrimary(ts).Got?
    ensures Canonical(ParsePrimary(ts).e, 7, !Is(ts, NOT))
    decreases |ts|, 0, 3
  {
    hide KindOf, ParseAtom, TryPattern;
    if Is(ts, LParen) {
      var a := TryPattern(ts);
      if a.pattern.Some? {
        assert CanonicalBody(a.pattern.value, true) && CanonicalBody(a.pattern.value, false);
      } else {
        AtomIsCanonical(a.rest);
      }
    } else {
      AtomIsCanonical(ts);
    }
  }

  lemma {:induction false} AtomIsCanonical(ts: seq<string>)
    requires ParseAtom(ts).Got?
    ensures Canonical(ParseAtom(ts).e, 7, !Is(ts, NOT))
    decreases |ts|, 0, 2
  {
    hide KindOf, ParseLevel, ParseName, ParseNumber, IsF64Text;
    var k := KindOf(ts[0]);
    if k == Minus {
      OperandIsCanonical(7, ts[1..]);
      NegationIsCanonical(ParseLevel(PRIMARY_LEVEL, ts[1..]).e, !Is(ts, NOT));
    } else if k == LParen {
      ParsedIsCanonical(OR_LEVEL, ts[1..]);
      ParenthesesGuard(ParseLevel(OR_LEVEL, ts[1..]).e, !Is(ts, NOT));
    } else if k == Number {
      NumberIsCanonical(ts);
    } else if NameKind(k) {
      NameIsCanonical(ts);
    }
  }

  lemma {:induction false} NegationIsCanonical(inner: Expr, guarded: bool)
    requires Canonical(inner, 7, false)
    ensures Canonical(Binary(Subtract, Lit(Integer(0)), inner), 7, guarded)
  {
    hide KindOf, NameToken;
    LowerLevel(inner, 7, 6, false);
    var zero := Lit(Integer(0));
    assert Canonical(zero, 5, true);
    hide Canonical;
    assert CanonicalBody(Binary(Subtract, zero, inner), true);
    OperatorAnywhere(Binary(Subtract, zero, inner), guarded);
  }

  /** An operator expression in parentheses is guarded whatever stands outside. */
  lemma {:induction false} OperatorAnywhere(e: Expr, guarded: bool)
    requires Level(e) < 7 && CanonicalBody(e, true)
    ensures Canonical(e, 7, guarded)
  {
    hide CanonicalBody;
  }

  lemma {:induction false} ParenthesesGuard(e: Expr, guarded: bool)
    requires Canonical(e, 0, true)
    ensures Canonical(e, 7, guarded)
  {
    hide CanonicalBody;
    BodyGuardWeakens(e);
  }

  lemma {:induction false} NumberIsCanonical(ts: seq<string>)
    requires ts != [] && KindOf(ts[0]) == Number && ParseNumber(ts).Got?
    ensures ParseNumber(ts).e.Lit? && CanonicalLiteral(ParseNumber(ts).e.literal)
  {
    hide KindOf, IsF64Text;
  }

  /** Joining a name and what stands behind its dots makes a name. */
  lemma {:induction false} NameIsCanonical(ts: seq<string>)
    requires ts != [] && NameKind(KindOf(ts[0])) && ParseName(ts).Got?
    ensures Canonical(ParseName(ts).e, 7, KindOf(ts[0]) != NOT)
  {
    hide KindOf;
    if Is(ts[1..], Dot) {
      var full := Dotted(ts[0], ts[1..]).value.0;
      DottedExtends(ts[0], ts[1..]);
      var dot := LastDot(full);
      LastDotBehind(full, |ts[0]|);
      assert full[..dot][..|ts[0]|] == ts[0];
      DottedName(ts[0], full[..dot]);
    }
  }

  lemma {:induction false} DottedExtends(name: string, ts: seq<string>)
    requires Dotted(name, ts).Some?
    ensures var full := Dotted(name, ts).value.0; |full| >= |name| && full[..|name|] == name
    ensures Is(ts, Dot) ==> |Dotted(name, ts).value.0| > |name| && Dotted(name, ts).value.0[|name|] == '.'
    decreases |ts|
  {
    hide KindOf, Unquote;
    if Is(ts, Dot) {
      var longer := name + "." + Unquote(ts[1]);
      DottedExtends(longer, ts[2..]);
      var full := Dotted(name, ts).value.0;
      assert full[..|name|] == full[..|longer|][..|name|] == name;
      assert full[|name|] == full[..|longer|][|name|] == '.';
    }
  }

  lemma {:induction false} LastDotBehind(text: string, i: nat)
    requires i < |text| && text[i] == '.'
    ensures i <= LastDot(text) < |text| && '.' !in text[LastDot(text) + 1..]
  {
    assert '.' in text;
  }

  lemma {:induction false} DottedName(name: string, longer: string)
    requires NameKind(KindOf(name)) && |longer| >= |name| && longer[..|name|] == name
    requires |longer| > |name| ==> longer[|name|] == '.'
    ensures NameKind(KindOf(longer)) && (KindOf(longer) == NOT ==> KindOf(name) == NOT)
  {
    hide KeywordKind;
    if |longer| > |name| {
      assert Upper(longer)[|name|] == '.';
      DotIsNoKeyword(Upper(longer), |name|);
      assert name != "" ==> longer[0] == name[0];
    } else {
      assert longer == name;
    }
  }

  lemma {:induction false} DotIsNoKeyword(u: string, i: nat)
    requires i < |u| && u[i] == '.'
    ensures KeywordKind(u) in {Dot, Name}
  {
    hide KeywordKind;
    if KeywordKind(u) != Name {
      KeywordKindIsSpelled(u);
    }
  }

  /** The parser's results on whole expressions are exactly the printable expressions. */
  lemma {:induction false} ParserImage(e: Expr)
    ensures Printable(e) <==> exists ts, rest :: ParseExpression(ts) == Got(e, rest)
  {
    hide ParseLevel, Canonical, Print;
    if Printable(e) {
      ParsePrint(e);
    }
    forall ts, rest | ParseExpression(ts) == Got(e, rest)
      ensures Printable(e)
    {
      ParsedIsCanonical(OR_LEVEL, ts);
    }
  }

  /** Printing what was parsed and parsing it again changes nothing. */
  lemma {:induction false} ParsePrintParse(ts: seq<string>)
    requires ParseExpression(ts).Got?
    ensures ParseExpression(Print(ParseExpression(ts).e, OR_LEVEL)) == Got(ParseExpression(ts).e, [])
  {
    hide ParseLevel, Canonical, Print;
    ParsedIsCanonical(OR_LEVEL, ts);
    ParsePrint(ParseExpression(ts).e);
  }
}
