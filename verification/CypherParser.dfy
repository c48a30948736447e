/**
 The operator fragment of the Cypher expression parser, as functions from the remaining tokens
 to an expression and the tokens left. Module CypherParseContext has the cursor and its methods.
 */
module CypherParser {
  import opened Wrappers
  import opened CypherTokens
  import opened Text

  datatype Literal =
    | NullLiteral
    | Bool(b: bool)
    | Integer(i: int)
    | Decimals(whole: int, fraction: string)  // the float written `whole . fraction`
    | Numeral(digits: string)                 // a float written as one token
    | Str(text: string)

  datatype BinaryOp = Or | And | Xor | Add | Subtract | Multiply | Divide | Modulo

  datatype CompareOp = Equal | Less | Greater | AtMost | AtLeast | Unequal | Regex | Contains | StartsWith | EndsWith

  datatype Expr =
    | Lit(literal: Literal)
    | Variable(name: string)
    | Property(variable: string, property: string)
    | Parameter(parameter: string)
    | ParameterProperty(holder: string, key: string)
    | PatternExists(source: string, relType: string, target: string)
    | Binary(op: BinaryOp, left: Expr, right: Expr)
    | Not(operand: Expr)
    | IsNull(operand: Expr)
    | IsNotNull(operand: Expr)
    | Comparison(compare: CompareOp, left: Expr, right: Expr)
    | InList(left: Expr, right: Expr, negated: bool)
    | Between(operand: Expr, lower: Expr, upper: Expr)

  /** `OutsideFragment` stands for the forms this model leaves out: brackets, lists, maps, CASE, calls. */
  datatype CypherError =
    | Expected(kind: Kind)
    | ExpectedIdentifier
    | ExpectedFraction
    | UnexpectedEnd
    | UnterminatedString
    | InvalidFloat
    | InvalidNumber
    | OutsideFragment

  datatype Parsed = Got(e: Expr, rest: seq<string>) | Bad(error: CypherError)

  predicate Is(ts: seq<string>, k: Kind) { ts != [] && KindOf(ts[0]) == k }

  // ---------- Levels, loosest first ----------

  const OR_LEVEL := 0
  const AND_LEVEL := 1
  const XOR_LEVEL := 2
  const NOT_LEVEL := 3
  const COMPARISON_LEVEL := 4
  const ADDITION_LEVEL := 5
  const MULTIPLICATION_LEVEL := 6
  const PRIMARY_LEVEL := 7

  predicate LoopLevel(level: nat) { level in {0, 1, 2, 5, 6} }

  /** The operator a token is at a level whose operators associate to the left. */
  function OpAt(level: nat, k: Kind): Option<BinaryOp> {
    match (level, k)
    case (0, OR) => Some(Or)
    case (1, AND) => Some(And)
    case (2, XOR) => Some(Xor)
    case (5, Plus) => Some(Add)
    case (5, Minus) => Some(Subtract)
    case (6, Star) => Some(Multiply)
    case (6, Slash) => Some(Divide)
    case (6, Percent) => Some(Modulo)
    case _ => None
  }

  function CompareOpOf(k: Kind): Option<CompareOp> {
    match k
    case Eq => Some(Equal) case Lt => Some(Less) case Gt => Some(Greater)
    case Le => Some(AtMost) case Ge => Some(AtLeast)
    case Ne => Some(Unequal) case BangEq => Some(Unequal) case Matches => Some(Regex)
    case _ => None
  }

  // ---------- Pattern predicates ----------

  /** An optional label behind a node variable: `Some` of the tokens behind it, or `None` at the end of input. */
  function SkipLabel(ts: seq<string>): (r: Option<seq<string>>)
    ensures r.Some? ==> |r.value| <= |ts|
  {
    if Is(ts, Colon) then (if |ts| < 2 then None else Some(ts[2..])) else Some(ts)
  }

  datatype Attempt = Attempt(pattern: Option<Expr>, rest: seq<string>)

  /** Try `(a)-[:R]->(b)`. A mismatch gives the tokens back untouched; running out of tokens where an
      identifier is due leaves the cursor at the end of input. */
  function TryPattern(ts: seq<string>): (a: Attempt)
    ensures a.pattern.Some? ==> |a.rest| < |ts| && a.pattern.value.PatternExists?
    ensures a.pattern.None? ==> a.rest == ts || a.rest == []
  {
    hide KindOf;
    if !Is(ts, LParen) then Attempt(None, ts)
    else if |ts| < 2 then Attempt(None, [])
    else
      match SkipLabel(ts[2..])
      case None => Attempt(None, [])
      case Some(t) =>
        if Is(t, RParen) && Is(t[1..], Minus) && Is(t[2..], LBracket)
        then TryRelationship(Unquote(ts[1]), t[3..], ts)
        else Attempt(None, ts)
  }

  /** `:R]->` and the node behind it; `start` is where the attempt began. */
  function TryRelationship(source: string, ts: seq<string>, start: seq<string>): (a: Attempt)
    requires |ts| < |start|
    ensures a.pattern.Some? ==> |a.rest| < |start| && a.pattern.value.PatternExists?
    ensures a.pattern.None? ==> a.rest == start || a.rest == []
  {
    hide KindOf;
    var t := if Is(ts, Colon) then ts[1..] else ts;
    if t == [] then Attempt(None, [])
    else if Is(t[1..], RBracket) && Is(t[2..], Minus) then TryArrow(source, Unquote(t[0]), t[3..], start)
    else Attempt(None, start)
  }

  function TryArrow(source: string, relType: string, ts: seq<string>, start: seq<string>): (a: Attempt)
    requires |ts| < |start|
    ensures a.pattern.Some? ==> |a.rest| < |start| && a.pattern.value.PatternExists?
    ensures a.pattern.None? ==> a.rest == start || a.rest == []
  {
    hide KindOf;
    var t := if Is(ts, Gt) then ts[1..] else ts;
    if Is(t, LParen) then TryTarget(source, relType, t[1..], start) else Attempt(None, start)
  }

  function TryTarget(source: string, relType: string, ts: seq<string>, start: seq<string>): (a: Attempt)
    requires |ts| < |start|
    ensures a.pattern.Some? ==> |a.rest| < |start| && a.pattern.value.PatternExists?
    ensures a.pattern.None? ==> a.rest == start || a.rest == []
  {
    hide KindOf;
    if ts == [] then Attempt(None, [])
    else
      var unnamed := Is(ts, RParen);
      match SkipLabel(if unnamed then ts else ts[1..])
      case None => Attempt(None, [])
      case Some(t) =>
        if Is(t, RParen)
        then Attempt(Some(PatternExists(source, relType, if unnamed then "" else Unquote(ts[0]))), t[1..])
        else Attempt(None, start)
  }

  // ---------- Atoms ----------

  /** `.name.name…` behind a name, joined to it by dots. */
  function Dotted(full: string, ts: seq<string>): (r: Option<(string, seq<string>)>)
    ensures r.Some? ==> |r.value.1| <= |ts|
    decreases |ts|
  {
    if !Is(ts, Dot) then Some((full, ts))
    else if |ts| < 2 then None
    else Dotted(full + "." + Unquote(ts[1]), ts[2..])
  }

  /** Position of the last dot, or the length of the text. */
  function LastDot(text: string): (i: nat)
    ensures i <= |text|
    ensures i < |text| ==> text[i] == '.' && '.' !in text[i + 1..]
    ensures i == |text| ==> '.' !in text
  {
    if text == "" then 0
    else if text[|text| - 1] == '.' then |text| - 1
    else
      var i := LastDot(text[..|text| - 1]);
      if i < |text| - 1 then
        assert text[i + 1..] == text[..|text| - 1][i + 1..] + [text[|text| - 1]];
        i
      else
        assert text == text[..|text| - 1] + [text[|text| - 1]];
        |text|
  }

  function ParseName(ts: seq<string>): (r: Parsed)
    requires ts != []
    ensures r.Got? ==> |r.rest| < |ts|
  {
    if Is(ts[1..], Dot) then
      match Dotted(ts[0], ts[1..])
      case None => Bad(ExpectedIdentifier)
      case Some((full, rest)) =>
        if Is(rest, LParen) then Bad(OutsideFragment) else
        var dot := LastDot(full);
        if dot < |full| then Got(Property(full[..dot], full[dot + 1..]), rest) else Got(Variable(full), rest)
    else if Is(ts[1..], LParen) then Bad(OutsideFragment)
    else Got(Variable(ts[0]), ts[1..])
  }

  function ParseNumber(ts: seq<string>): (r: Parsed)
    requires ts != []
    ensures r.Got? ==> |r.rest| < |ts|
  {
    match ParseI64(ts[0])
    case Some(i) =>
      if Is(ts[1..], Dot) then
        if |ts| < 3 then Bad(ExpectedFraction)
        else if i < 0 || !IsF64Text(Decimal(i) + "." + ts[2]) then Bad(InvalidFloat)
        else Got(Lit(Decimals(i, ts[2])), ts[3..])
      else Got(Lit(Integer(i)), ts[1..])
    case None => if IsF64Text(ts[0]) then Got(Lit(Numeral(ts[0])), ts[1..]) else Bad(InvalidNumber)
  }

  function ParseParameter(ts: seq<string>): (r: Parsed)
    requires ts != [] && |ts[0]| >= 1
    ensures r.Got? ==> |r.rest| < |ts|
  {
    var name := ts[0][1..];
    if Is(ts[1..], Dot) then
      if |ts| < 3 then Bad(ExpectedIdentifier) else Got(ParameterProperty(name, Unquote(ts[2])), ts[3..])
    else Got(Parameter(name), ts[1..])
  }

  function ParseQuoted(ts: seq<string>): (r: Parsed)
    requires ts != []
    ensures r.Got? ==> |r.rest| < |ts|
  {
    var raw := ts[0];
    if |raw| < 2 then Bad(UnterminatedString) else Got(Lit(Str(raw[1..|raw| - 1])), ts[1..])
  }

  // ---------- Expressions ----------

  /** `parse_or` … `parse_primary`, one level each. */
  function ParseLevel(level: nat, ts: seq<string>): (r: Parsed)
    requires level <= 7
    ensures r.Got? ==> |r.rest| < |ts|
    decreases |ts|, 1, 15 - 2 * level
  {
    if level == NOT_LEVEL then ParseNot(ts)
    else if level == COMPARISON_LEVEL then ParseComparison(ts)
    else if level == PRIMARY_LEVEL then ParsePrimary(ts)
    else
      match ParseLevel(level + 1, ts)
      case Bad(e) => Bad(e)
      case Got(left, rest) => Loop(level, left, rest)
  }

  /** Operators and right operands of one level, as long as they come. */
  function Loop(level: nat, left: Expr, ts: seq<string>): (r: Parsed)
    requires LoopLevel(level)
    ensures r.Got? ==> |r.rest| <= |ts|
    decreases |ts|, 0, 0
  {
    if level == MULTIPLICATION_LEVEL && Is(ts, LBracket) then Bad(OutsideFragment)
    else if ts == [] || OpAt(level, KindOf(ts[0])).None? then Got(left, ts)
    else
      match ParseLevel(level + 1, ts[1..])
      case Bad(e) => Bad(e)
      case Got(right, rest) => Loop(level, Binary(OpAt(level, KindOf(ts[0])).value, left, right), rest)
  }

  function ParseNot(ts: seq<string>): (r: Parsed)
    ensures r.Got? ==> |r.rest| < |ts|
    decreases |ts|, 1, 8
  {
    if Is(ts, NOT) then
      match ParseNot(ts[1..])
      case Bad(e) => Bad(e)
      case Got(e, rest) => Got(Not(e), rest)
    else ParseLevel(COMPARISON_LEVEL, ts)
  }

  function ParseComparison(ts: seq<string>): (r: Parsed)
    ensures r.Got? ==> |r.rest| < |ts|
    decreases |ts|, 1, 6
  {
    match ParseLevel(ADDITION_LEVEL, ts)
    case Bad(e) => Bad(e)
    case Got(left, rest) => if rest == [] then Got(left, rest) else CompareTail(left, rest)
  }

  /** What follows the left side of a comparison: at most one operator, its right side a primary. */
  function CompareTail(left: Expr, ts: seq<string>): (r: Parsed)
    requires ts != []
    ensures r.Got? ==> |r.rest| <= |ts|
    decreases |ts|, 0, 1
  {
    var k := KindOf(ts[0]);
    if CompareOpOf(k).Some? then CompareWith(CompareOpOf(k).value, left, ts[1..]) else
    match k
    case IS =>
      if Is(ts[1..], NOT) then
        if Is(ts[2..], NULL) then Got(IsNotNull(left), ts[3..]) else Bad(Expected(NULL))
      else
        if Is(ts[1..], NULL) then Got(IsNull(left), ts[2..]) else Bad(Expected(NULL))
    case IN => MemberOf(left, ts[1..], false)
    case NOT => if Is(ts[1..], IN) then MemberOf(left, ts[2..], true) else Bad(Expected(IN))
    case CONTAINS => CompareWith(Contains, left, ts[1..])
    case STARTS => if Is(ts[1..], WITH) then CompareWith(StartsWith, left, ts[2..]) else Bad(Expected(WITH))
    case ENDS => if Is(ts[1..], WITH) then CompareWith(EndsWith, left, ts[2..]) else Bad(Expected(WITH))
    case BETWEEN => BoundsOf(left, ts[1..])
    case _ => Got(left, ts)
  }

  function MemberOf(left: Expr, ts: seq<string>, negated: bool): (r: Parsed)
    ensures r.Got? ==> |r.rest| <= |ts|
    decreases |ts|, 2, 0
  {
    match ParseLevel(PRIMARY_LEVEL, ts)
    case Bad(e) => Bad(e)
    case Got(right, rest) => Got(InList(left, right, negated), rest)
  }

  /** The AND between the bounds is no operator. */
  function BoundsOf(x: Expr, ts: seq<string>): (r: Parsed)
    ensures r.Got? ==> |r.rest| <= |ts|
    decreases |ts|, 2, 0
  {
    var lower := ParseLevel(ADDITION_LEVEL, ts);
    if lower.Bad? then lower
    else if !Is(lower.rest, AND) then Bad(Expected(AND))
    else
      var upper := ParseLevel(ADDITION_LEVEL, lower.rest[1..]);
      if upper.Bad? then upper else Got(Between(x, lower.e, upper.e), upper.rest)
  }

  function CompareWith(op: CompareOp, left: Expr, ts: seq<string>): (r: Parsed)
    ensures r.Got? ==> |r.rest| <= |ts|
    decreases |ts|, 2, 0
  {
    match ParseLevel(PRIMARY_LEVEL, ts)
    case Bad(e) => Bad(e)
    case Got(right, rest) => Got(Comparison(op, left, right), rest)
  }

  function ParsePrimary(ts: seq<string>): (r: Parsed)
    ensures r.Got? ==> |r.rest| < |ts|
    decreases |ts|, 0, 3
  {
    if Is(ts, LParen) then
      var a := TryPattern(ts);
      if a.pattern.Some? then Got(a.pattern.value, a.rest) else ParseAtom(a.rest)
    else ParseAtom(ts)
  }

  function ParseAtom(ts: seq<string>): (r: Parsed)
    ensures r.Got? ==> |r.rest| < |ts|
    decreases |ts|, 0, 2
  {
    if ts == [] then Bad(UnexpectedEnd) else
    match KindOf(ts[0])
    case CASE => Bad(OutsideFragment)
    case Minus =>
      (match ParseLevel(PRIMARY_LEVEL, ts[1..])
       case Bad(e) => Bad(e)
       case Got(inner, rest) => Got(Binary(Subtract, Lit(Integer(0)), inner), rest))
    case Quoted => ParseQuoted(ts)
    case Param => ParseParameter(ts)
    case LParen =>
      (match ParseLevel(OR_LEVEL, ts[1..])
       case Bad(e) => Bad(e)
       case Got(e, rest) => if Is(rest, RParen) then Got(e, rest[1..]) else Bad(Expected(RParen)))
    case LBracket => Bad(OutsideFragment)
    case LBrace => Bad(OutsideFragment)
    case TRUE => Got(Lit(Bool(true)), ts[1..])
    case FALSE => Got(Lit(Bool(false)), ts[1..])
    case NULL => Got(Lit(NullLiteral), ts[1..])
    case Number => ParseNumber(ts)
    case _ => ParseName(ts)
  }

  function ParseExpression(ts: seq<string>): Parsed {
    ParseLevel(OR_LEVEL, ts)
  }

  // ---------- One turn of a level's loop ----------

  lemma LoopStarts(level: nat, ts: seq<string>)
    requires LoopLevel(level)
    ensures var r := ParseLevel(level + 1, ts); ParseLevel(level, ts) == if r.Bad? then r else Loop(level, r.e, r.rest)
  {
    hide KindOf, Loop;
  }

  lemma LoopAtBracket(left: Expr, ts: seq<string>)
    requires Is(ts, LBracket)
    ensures Loop(MULTIPLICATION_LEVEL, left, ts) == Bad(OutsideFragment)
  {
    hide KindOf, ParseLevel;
  }

  lemma LoopTurns(level: nat, left: Expr, ts: seq<string>)
    requires LoopLevel(level) && (level == MULTIPLICATION_LEVEL ==> !Is(ts, LBracket))
    ensures ts == [] || OpAt(level, KindOf(ts[0])).None? ==> Loop(level, left, ts) == Got(left, ts)
    ensures ts != [] && OpAt(level, KindOf(ts[0])).Some? ==>
              var r, op := ParseLevel(level + 1, ts[1..]), OpAt(level, KindOf(ts[0])).value;
              Loop(level, left, ts) == if r.Bad? then r else Loop(level, Binary(op, left, r.e), r.rest)
  {
    hide KindOf, ParseLevel;
  }
}
