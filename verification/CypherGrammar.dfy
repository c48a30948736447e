/**
 The grammar of the operator fragment: which expression a text of tokens derives, and which tokens it leaves.
 Every word and sign is spelled out here. Module CypherDerivation proves that the parser decides this relation.
 */
module CypherGrammar {
  import opened CypherParser
  import opened CypherTokens
  import opened Text
  import opened Wrappers

  /** The token is the word or sign, letters in any case. */
  predicate Reads(t: string, word: string) {
    |t| == |word| && forall i | 0 <= i < |t| :: t[i] == word[i] || ('a' <= t[i] <= 'z' && t[i] as int - 32 == word[i] as int)
  }

  predicate Word(ts: seq<string>, word: string) {
    ts != [] && Reads(ts[0], word)
  }

  predicate Words(ts: seq<string>, first: string, second: string) {
    Word(ts, first) && Word(ts[1..], second)
  }

  /** The token names `name`, which may stand in backticks. */
  ghost predicate Names(t: string, name: string) {
    if exists inside :: t == "`" + inside + "`" then t == "`" + name + "`" else t == name
  }

  // ---------- Signs ----------

  /** The left-associative operators, by level. */
  predicate Operator(level: nat, t: string, op: BinaryOp) {
    || (level == 0 && Reads(t, "OR") && op == Or)
    || (level == 1 && Reads(t, "AND") && op == And)
    || (level == 2 && Reads(t, "XOR") && op == Xor)
    || (level == 5 && Reads(t, "+") && op == Add)
    || (level == 5 && Reads(t, "-") && op == Subtract)
    || (level == 6 && Reads(t, "*") && op == Multiply)
    || (level == 6 && Reads(t, "/") && op == Divide)
    || (level == 6 && Reads(t, "%") && op == Modulo)
  }

  /** The operator that the first `n` tokens spell. */
  predicate Comparator(ts: seq<string>, n: nat, op: CompareOp) {
    || (n == 1 && ts != [] &&
          (|| (Reads(ts[0], "=") && op == Equal)
           || (Reads(ts[0], "<") && op == Less)
           || (Reads(ts[0], ">") && op == Greater)
           || (Reads(ts[0], "<=") && op == AtMost)
           || (Reads(ts[0], ">=") && op == AtLeast)
           || (Reads(ts[0], "<>") && op == Unequal)
           || (Reads(ts[0], "!=") && op == Unequal)
           || (Reads(ts[0], "=~") && op == Regex)
           || (Reads(ts[0], "CONTAINS") && op == Contains)))
    || (n == 2 && Words(ts, "STARTS", "WITH") && op == StartsWith)
    || (n == 2 && Words(ts, "ENDS", "WITH") && op == EndsWith)
  }

  /** Something that can only continue a comparison. */
  predicate ContinuesComparison(ts: seq<string>) {
    ts != []
    && (|| Word(ts, "=") || Word(ts, "<") || Word(ts, ">") || Word(ts, "<=") || Word(ts, ">=") || Word(ts, "<>")
        || Word(ts, "!=") || Word(ts, "=~")
        || Word(ts, "IS") || Word(ts, "IN") || Word(ts, "NOT") || Word(ts, "CONTAINS") || Word(ts, "STARTS")
        || Word(ts, "ENDS") || Word(ts, "BETWEEN"))
  }

  // ---------- Pattern predicates ----------

  /** `ts` behind the label, if it begins with one. */
  function Unlabelled(ts: seq<string>): seq<string> {
    if Word(ts, ":") && |ts| >= 2 then ts[2..] else ts
  }

  /** A node with an optional label, up to the opening bracket of the relationship. */
  ghost predicate Node(ts: seq<string>, source: string, tail: seq<string>) {
    && Word(ts, "(") && |ts| >= 2 && Names(ts[1], source)
    && var t := Unlabelled(ts[2..]); Word(t, ")") && Words(t[1..], "-", "[") && tail == t[3..]
  }

  /** The type of the relationship, with or without a colon. */
  ghost predicate Link(ts: seq<string>, relType: string, tail: seq<string>) {
    var t := if Word(ts, ":") then ts[1..] else ts;
    t != [] && Names(t[0], relType) && Words(t[1..], "]", "-") && tail == t[3..]
  }

  predicate Arrow(ts: seq<string>, tail: seq<string>) {
    if Word(ts, ">") then Word(ts[1..], "(") && tail == ts[2..] else Word(ts, "(") && tail == ts[1..]
  }

  /** The other node, which may be empty, or named with an optional label. */
  ghost predicate Target(ts: seq<string>, target: string, rest: seq<string>) {
    if Word(ts, ")") then target == "" && rest == ts[1..]
    else ts != [] && Names(ts[0], target) && var t := Unlabelled(ts[1..]); Word(t, ")") && rest == t[1..]
  }

  /** `(a:A)-[:R]->(b:B)`; the labels, the colon in the brackets, the arrow head and `b` may be missing. */
  ghost predicate PatternText(ts: seq<string>, e: Expr, rest: seq<string>) {
    e.PatternExists? && exists link, arrow, end ::
      Node(ts, e.source, link) && Link(link, e.relType, arrow) && Arrow(arrow, end) && Target(end, e.target, rest)
  }

  /** The tokens end where a label is due. */
  predicate LabelIsCut(ts: seq<string>) {
    |ts| == 1 && Word(ts, ":")
  }

  /** The text ends where the name or the label of the other node is due. */
  predicate CutTarget(ts: seq<string>) {
    ts == [] || (!Word(ts, ")") && LabelIsCut(ts[1..]))
  }

  /** The text ends where the type or something behind it is due. */
  ghost predicate CutLink(ts: seq<string>) {
    ts == [] || LabelIsCut(ts) || exists relType, arrow, end :: Link(ts, relType, arrow) && Arrow(arrow, end) && CutTarget(end)
  }

  /** The text ends inside a pattern, where a name is due. */
  ghost predicate CutPattern(ts: seq<string>) {
    Word(ts, "(")
    && (|ts| == 1 || LabelIsCut(ts[2..]) || exists source, link :: Node(ts, source, link) && CutLink(link))
  }

  ghost predicate StartsWithPattern(ts: seq<string>) {
    exists e, rest :: PatternText(ts, e, rest)
  }

  // ---------- Atoms without operands ----------

  /** A token that starts like no string, parameter or number, and is no word or sign that starts another form. */
  predicate PlainName(t: string) {
    (t != "" ==> t[0] != '\'' && t[0] != '"' && t[0] != '$' && !('0' <= t[0] <= '9'))
    && !Reads(t, "-") && !Reads(t, "(") && !Reads(t, "[") && !Reads(t, "{")
    && !Reads(t, "CASE") && !Reads(t, "TRUE") && !Reads(t, "FALSE") && !Reads(t, "NULL")
  }

  /** `.a.b.c` names `names`, in order. */
  ghost predicate DottedNames(ts: seq<string>, names: seq<string>)
    decreases |names|
  {
    if names == [] then ts == []
    else |ts| >= 2 && Word(ts, ".") && Names(ts[1], names[0]) && DottedNames(ts[2..], names[1..])
  }

  /** The part of a text behind its last dot, and the part in front of it. */
  predicate SplitsAtLastDot(full: string, front: string, last: string) {
    full == front + "." + last && '.' !in last
  }

  /** The first `n` tokens are a name with further names behind dots. */
  ghost predicate NameOf(ts: seq<string>, n: nat, names: seq<string>, e: Expr, rest: seq<string>) {
    && 1 <= n <= |ts| && PlainName(ts[0]) && DottedNames(ts[1..n], names) && rest == ts[n..]
    && !Word(rest, ".") && !Word(rest, "(")
    && if names == [] then e == Variable(ts[0])
       else e.Property? && SplitsAtLastDot(Join([ts[0]] + names, '.'), e.variable, e.property)
  }

  ghost predicate NameText(ts: seq<string>, e: Expr, rest: seq<string>) {
    exists n: nat, names: seq<string> :: NameOf(ts, n, names, e, rest)
  }

  predicate Point(s: string) {
    s == "" || (s[0] == '.' && AllDigits(s[1..]))
  }

  predicate Exponent(s: string) {
    s == ""
    || ((s[0] == 'e' || s[0] == 'E')
        && var digits := if |s| >= 2 && (s[1] == '+' || s[1] == '-') then s[2..] else s[1..];
           digits != "" && AllDigits(digits))
  }

  predicate FloatParts(t: string, whole: string, point: string, exponent: string) {
    t == whole + (point + exponent) && whole != "" && AllDigits(whole) && Point(point) && Exponent(exponent)
  }

  /** A number without a sign, as Rust reads one: digits, an optional point with optional digits, an optional exponent. */
  ghost predicate FloatText(t: string) {
    exists whole, point, exponent :: FloatParts(t, whole, point, exponent)
  }

  ghost predicate NumberText(ts: seq<string>, e: Expr, rest: seq<string>) {
    ts != [] && ts[0] != "" && '0' <= ts[0][0] <= '9'
    && if AllDigits(ts[0]) && DecimalValue(ts[0]) < 0x8000_0000_0000_0000 then
         if Word(ts[1..], ".") then
           && |ts| >= 3 && FloatText(Decimal(DecimalValue(ts[0])) + "." + ts[2])
           && e == Lit(Decimals(DecimalValue(ts[0]), ts[2])) && rest == ts[3..]
         else e == Lit(Integer(DecimalValue(ts[0]))) && rest == ts[1..]
       else FloatText(ts[0]) && e == Lit(Numeral(ts[0])) && rest == ts[1..]
  }

  /** The closing quote is not looked at. */
  ghost predicate QuotedText(ts: seq<string>, e: Expr, rest: seq<string>) {
    ts != [] && rest == ts[1..]
    && exists open: char, text: string, close: char ::
         (open == '\'' || open == '"') && ts[0] == [open] + text + [close] && e == Lit(Str(text))
  }

  ghost predicate ParameterText(ts: seq<string>, e: Expr, rest: seq<string>) {
    ts != [] && exists p: string ::
      ts[0] == "$" + p
      && if Word(ts[1..], ".") then
           |ts| >= 3 && rest == ts[3..] && exists key :: Names(ts[2], key) && e == ParameterProperty(p, key)
         else rest == ts[1..] && e == Parameter(p)
  }

  ghost predicate ConstantText(ts: seq<string>, e: Expr, rest: seq<string>) {
    ts != [] && rest == ts[1..]
    && (|| (Reads(ts[0], "TRUE") && e == Lit(Bool(true)))
        || (Reads(ts[0], "FALSE") && e == Lit(Bool(false)))
        || (Reads(ts[0], "NULL") && e == Lit(NullLiteral)))
  }

  // ---------- Expressions ----------

  /** An operand that takes at least one of the tokens, and those behind it. */
  predicate Takes(ts: seq<string>, operand: Expr, mid: seq<string>) {
    |mid| < |ts|
  }

  /** `ts` begins with a text of `e` at the level, and `rest` is what follows it. */
  ghost predicate Derives(level: nat, ts: seq<string>, e: Expr, rest: seq<string>)
    requires level <= 7
    decreases |ts|, 1, 15 - 2 * level
  {
    if level == 3 then
      if Word(ts, "NOT") then e.Not? && Derives(3, ts[1..], e.operand, rest) else Derives(4, ts, e, rest)
    else if level == 4 then
      exists left, mid :: Takes(ts, left, mid) && Derives(5, ts, left, mid) && Compared(left, mid, e, rest)
    else if level == 7 then
      PatternText(ts, e, rest) || (!StartsWithPattern(ts) && !CutPattern(ts) && Atom(ts, e, rest))
    else
      exists left, mid :: Takes(ts, left, mid) && Derives(level + 1, ts, left, mid) && Chain(level, left, mid, e, rest)
  }

  /** Operators of one level and their right operands, as many as there are. */
  ghost predicate Chain(level: nat, left: Expr, ts: seq<string>, e: Expr, rest: seq<string>)
    requires level in {0, 1, 2, 5, 6}
    decreases |ts|, 0, 1
  {
    || (e == left && rest == ts && !GoesOn(level, ts))
    || (ts != [] && exists op :: Operator(level, ts[0], op) && Turn(level, op, left, ts[1..], e, rest))
  }

  /** Something that goes on at this level; bracket access is outside the fragment. */
  ghost predicate GoesOn(level: nat, ts: seq<string>) {
    ts != [] && ((exists op :: Operator(level, ts[0], op)) || (level == 6 && Word(ts, "[")))
  }

  /** A right operand, and what follows. */
  ghost predicate Turn(level: nat, op: BinaryOp, left: Expr, ts: seq<string>, e: Expr, rest: seq<string>)
    requires level in {0, 1, 2, 5, 6}
    decreases |ts|, 2, 0
  {
    exists right, mid ::
      Takes(ts, right, mid) && Derives(level + 1, ts, right, mid) && Chain(level, Binary(op, left, right), mid, e, rest)
  }

  predicate NullTest(left: Expr, ts: seq<string>, e: Expr, rest: seq<string>) {
    || (Words(ts, "IS", "NULL") && e == IsNull(left) && rest == ts[2..])
    || (Words(ts, "IS", "NOT") && Word(ts[2..], "NULL") && e == IsNotNull(left) && rest == ts[3..])
  }

  /** At most one comparison. */
  ghost predicate Compared(left: Expr, ts: seq<string>, e: Expr, rest: seq<string>)
    decreases |ts|, 0, 1, 1
  {
    || (!ContinuesComparison(ts) && e == left && rest == ts)
    || NullTest(left, ts, e, rest)
    || Member(left, ts, e, rest)
    || ComparedBy(left, ts, e, rest)
    || (Word(ts, "BETWEEN") && Bounded(left, ts[1..], e, rest))
  }

  ghost predicate Member(left: Expr, ts: seq<string>, e: Expr, rest: seq<string>)
    decreases |ts|, 0, 1, 0
  {
    e.InList?
    && (|| (Word(ts, "IN") && e == InList(left, e.right, false) && Derives(7, ts[1..], e.right, rest))
        || (Words(ts, "NOT", "IN") && e == InList(left, e.right, true) && Derives(7, ts[2..], e.right, rest)))
  }

  ghost predicate ComparedBy(left: Expr, ts: seq<string>, e: Expr, rest: seq<string>)
    decreases |ts|, 0, 1, 0
  {
    exists n, op :: 1 <= n <= |ts| && Comparator(ts, n, op)
      && e.Comparison? && e == Comparison(op, left, e.right) && Derives(7, ts[n..], e.right, rest)
  }

  /** The AND between the bounds is no operator. */
  ghost predicate Bounded(left: Expr, ts: seq<string>, e: Expr, rest: seq<string>)
    decreases |ts|, 2, 0
  {
    e.Between? && e.operand == left && exists mid ::
      && Takes(ts, e.lower, mid) && Derives(5, ts, e.lower, mid) && Word(mid, "AND") && Derives(5, mid[1..], e.upper, rest)
  }

  ghost predicate Atom(ts: seq<string>, e: Expr, rest: seq<string>)
    decreases |ts|, 0, 2
  {
    || (Word(ts, "-") && e.Binary? && e == Binary(Subtract, Lit(Integer(0)), e.right) && Derives(7, ts[1..], e.right, rest))
    || (Word(ts, "(") && Parenthesised(ts[1..], e, rest))
    || QuotedText(ts, e, rest) || ParameterText(ts, e, rest) || ConstantText(ts, e, rest)
    || NumberText(ts, e, rest) || NameText(ts, e, rest)
  }

  ghost predicate Parenthesised(ts: seq<string>, e: Expr, rest: seq<string>)
    decreases |ts|, 2, 0
  {
    exists mid :: Takes(ts, e, mid) && Derives(0, ts, e, mid) && Word(mid, ")") && rest == mid[1..]
  }
}
