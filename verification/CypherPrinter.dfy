/** A printer that parenthesises only where a level asks for it, and the expressions it can print. */
module CypherPrinter {
  import opened Wrappers
  import opened CypherTokens
  import opened Text
  import opened CypherParser

  function OpLevel(op: BinaryOp): (level: nat)
    ensures LoopLevel(level)
  {
    match op
    case Or => 0 case And => 1 case Xor => 2
    case Add => 5 case Subtract => 5
    case Multiply => 6 case Divide => 6 case Modulo => 6
  }

  function OpKind(op: BinaryOp): (k: Kind)
    ensures Spelled(k) && OpAt(OpLevel(op), k) == Some(op)
  {
    match op
    case Or => OR case And => AND case Xor => XOR
    case Add => Plus case Subtract => Minus
    case Multiply => Star case Divide => Slash case Modulo => Percent
  }

  function CompareTokens(op: CompareOp): seq<string> {
    match op
    case Equal => [Spell(Eq)] case Less => [Spell(Lt)] case Greater => [Spell(Gt)]
    case AtMost => [Spell(Le)] case AtLeast => [Spell(Ge)] case Unequal => [Spell(Ne)]
    case Regex => [Spell(Matches)] case Contains => [Spell(CONTAINS)]
    case StartsWith => [Spell(STARTS), Spell(WITH)]
    case EndsWith => [Spell(ENDS), Spell(WITH)]
  }

  /** The level of the outermost operator. */
  function Level(e: Expr): (level: nat)
    ensures level <= 7
  {
    match e
    case Binary(op, _, _) => OpLevel(op)
    case Not(_) => NOT_LEVEL
    case IsNull(_) => COMPARISON_LEVEL
    case IsNotNull(_) => COMPARISON_LEVEL
    case Comparison(_, _, _) => COMPARISON_LEVEL
    case InList(_, _, _) => COMPARISON_LEVEL
    case Between(_, _, _) => COMPARISON_LEVEL
    case _ => PRIMARY_LEVEL
  }

  function AtomTokens(e: Expr): seq<string>
    requires Level(e) == PRIMARY_LEVEL
  {
    match e
    case Lit(literal) =>
      (match literal
       case NullLiteral => [Spell(NULL)]
       case Bool(b) => [Spell(if b then TRUE else FALSE)]
       case Integer(i) => [if i < 0 then "-" else Decimal(i)]
       case Decimals(whole, fraction) => [if whole < 0 then "-" else Decimal(whole), Spell(Dot), fraction]
       case Numeral(digits) => [digits]
       case Str(text) => ["'" + text + "'"])
    case Variable(name) => [name]
    case Property(variable, property) => [variable, Spell(Dot), IdentToken(property)]
    case Parameter(parameter) => ["$" + parameter]
    case ParameterProperty(holder, key) => ["$" + holder, Spell(Dot), IdentToken(key)]
    case PatternExists(source, relType, target) =>
      [Spell(LParen), IdentToken(source), Spell(RParen), Spell(Minus), Spell(LBracket)] + EdgeTokens(relType, target)
  }

  function EdgeTokens(relType: string, target: string): seq<string> {
    [Spell(Colon), IdentToken(relType), Spell(RBracket), Spell(Minus), Spell(Gt), Spell(LParen),
     IdentToken(target), Spell(RParen)]
  }

  /** Tokens of `e` without parentheses of its own. */
  function Body(e: Expr): seq<string>
    decreases e, 0
  {
    match e
    case Binary(op, left, right) => Print(left, OpLevel(op)) + [Spell(OpKind(op))] + Print(right, OpLevel(op) + 1)
    case Not(x) => [Spell(NOT)] + Print(x, 3)
    case IsNull(x) => Print(x, 5) + [Spell(IS), Spell(NULL)]
    case IsNotNull(x) => Print(x, 5) + [Spell(IS), Spell(NOT), Spell(NULL)]
    case Comparison(op, left, right) => Print(left, 5) + CompareTokens(op) + Print(right, 7)
    case InList(left, right, negated) =>
      Print(left, 5) + (if negated then [Spell(NOT), Spell(IN)] else [Spell(IN)]) + Print(right, 7)
    case Between(x, lower, upper) =>
      Print(x, 5) + [Spell(BETWEEN)] + Print(lower, 5) + [Spell(AND)] + Print(upper, 5)
    case _ => AtomTokens(e)
  }

  /** Tokens of `e` where the grammar expects an expression of this level. */
  function Print(e: Expr, level: nat): seq<string>
    decreases e, 1
  {
    if Level(e) >= level then Body(e) else [Spell(LParen)] + Body(e) + [Spell(RParen)]
  }

  // ---------- Printable expressions ----------

  /** Kinds that the parser reads as a bare name where it expects an operand. */
  predicate NameKind(k: Kind) {
    k !in {CASE, Minus, Quoted, Param, LParen, LBracket, LBrace, TRUE, FALSE, NULL, Number}
  }

  /** `guarded` says that the operand is reached through `parse_not`, where NOT is no name. */
  predicate NameToken(t: string, guarded: bool) {
    NameKind(KindOf(t)) && (guarded ==> KindOf(t) != NOT)
  }

  predicate CanonicalLiteral(literal: Literal) {
    match literal
    case Integer(i) => 0 <= i <= I64_MAX
    case Decimals(whole, fraction) => 0 <= whole <= I64_MAX && IsF64Text(Decimal(whole) + "." + fraction)
    case Numeral(digits) => KindOf(digits) == Number && ParseI64(digits).None? && IsF64Text(digits)
    case _ => true
  }

  /** `Canonical(e, level, guarded)`: `e` can stand where this level is expected; an expression in
      parentheses of its own is always guarded. */
  predicate Canonical(e: Expr, level: nat, guarded: bool)
    decreases e, 1
  {
    CanonicalBody(e, guarded || Level(e) < level)
  }

  predicate CanonicalBody(e: Expr, guarded: bool)
    decreases e, 0
  {
    match e
    case Lit(literal) => CanonicalLiteral(literal)
    case Variable(name) => NameToken(name, guarded)
    case Property(variable, property) => NameToken(variable, guarded) && '.' !in property
    case Parameter(_) => true
    case ParameterProperty(_, _) => true
    case PatternExists(_, _, _) => true
    case Binary(op, left, right) =>
      Canonical(left, OpLevel(op), guarded) && Canonical(right, OpLevel(op) + 1, OpLevel(op) <= 2)
    case Not(x) => Canonical(x, 3, true)
    case IsNull(x) => Canonical(x, 5, guarded)
    case IsNotNull(x) => Canonical(x, 5, guarded)
    case Comparison(_, left, right) => Canonical(left, 5, guarded) && Canonical(right, 7, false)
    case InList(left, right, _) => Canonical(left, 5, guarded) && Canonical(right, 7, false)
    case Between(x, lower, upper) =>
      Canonical(x, 5, guarded) && Canonical(lower, 5, false) && Canonical(upper, 5, false)
  }

  /** What the printer can print and the parser can produce for a whole expression. */
  predicate Printable(e: Expr) {
    Canonical(e, OR_LEVEL, true)
  }
}
