/** Cypher tokens and the ways the expression parser looks at one. */
module CypherTokens {
  import opened Text
  import opened Wrappers

  /** The parser compares a token, ignoring ASCII case, with fixed spellings, and otherwise
      looks at its first character only. `KindOf` collects all those tests. */
  datatype Kind =
    | OR | AND | XOR | NOT | IS | NULL | IN | CONTAINS | STARTS | ENDS | WITH | BETWEEN
    | CASE | TRUE | FALSE
    | LParen | RParen | LBracket | RBracket | LBrace | Dot | Colon
    | Plus | Minus | Star | Slash | Percent
    | Eq | Lt | Gt | Le | Ge | Ne | Matches | BangEq
    | Quoted | Param | Number
    | Name

  predicate Spelled(k: Kind) { !(k.Quoted? || k.Param? || k.Number? || k.Name?) }

  function Spell(k: Kind): (s: string)
    requires Spelled(k)
    ensures |s| >= 1
  {
    match k
    case OR => "OR" case AND => "AND" case XOR => "XOR" case NOT => "NOT" case IS => "IS"
    case NULL => "NULL" case IN => "IN" case CONTAINS => "CONTAINS" case STARTS => "STARTS"
    case ENDS => "ENDS" case WITH => "WITH" case BETWEEN => "BETWEEN" case CASE => "CASE"
    case TRUE => "TRUE" case FALSE => "FALSE"
    case LParen => "(" case RParen => ")" case LBracket => "[" case RBracket => "]"
    case LBrace => "{" case Dot => "." case Colon => ":"
    case Plus => "+" case Minus => "-" case Star => "*" case Slash => "/" case Percent => "%"
    case Eq => "=" case Lt => "<" case Gt => ">" case Le => "<=" case Ge => ">=" case Ne => "<>"
    case Matches => "=~" case BangEq => "!="
  }

  function SymbolKind(c: char): Kind {
    match c
    case '(' => LParen case ')' => RParen case '[' => LBracket case ']' => RBracket case '{' => LBrace
    case '.' => Dot case ':' => Colon case '+' => Plus case '-' => Minus case '*' => Star
    case '/' => Slash case '%' => Percent case '=' => Eq case '<' => Lt case '>' => Gt
    case _ => Name
  }

  function PairKind(a: char, b: char): Kind {
    match (a, b)
    case ('O', 'R') => OR case ('I', 'S') => IS case ('I', 'N') => IN
    case ('<', '=') => Le case ('>', '=') => Ge case ('<', '>') => Ne
    case ('=', '~') => Matches case ('!', '=') => BangEq
    case _ => Name
  }

  /** The kind spelled by an upper-case token. */
  function KeywordKind(u: string): Kind {
    match |u|
    case 1 => SymbolKind(u[0])
    case 2 => PairKind(u[0], u[1])
    case 3 => if u == "AND" then AND else if u == "XOR" then XOR else if u == "NOT" then NOT else Name
    case 4 =>
      if u == "NULL" then NULL else if u == "ENDS" then ENDS else if u == "WITH" then WITH
      else if u == "CASE" then CASE else if u == "TRUE" then TRUE else Name
    case 5 => if u == "FALSE" then FALSE else Name
    case 6 => if u == "STARTS" then STARTS else Name
    case 7 => if u == "BETWEEN" then BETWEEN else Name
    case 8 => if u == "CONTAINS" then CONTAINS else Name
    case _ => Name
  }

  function KindOf(t: string): Kind {
    if t == "" then Name
    else if t[0] == '\'' || t[0] == '"' then Quoted
    else if t[0] == '$' then Param
    else if IsDigit(t[0]) then Number
    else KeywordKind(Upper(t))
  }

  lemma KeywordKindReadsSpelling(k: Kind)
    requires Spelled(k)
    ensures KeywordKind(Spell(k)) == k
  {
  }

  lemma KeywordKindIsSpelled(u: string)
    requires KeywordKind(u) != Name
    ensures Spelled(KeywordKind(u)) && Spell(KeywordKind(u)) == u
  {
  }

  /** A spelling holds no lower-case letter and starts like none of the open classes. */
  lemma SpellingShape(k: Kind)
    requires Spelled(k)
    ensures var c := Spell(k)[0]; c != '\'' && c != '"' && c != '$' && !IsDigit(c)
    ensures forall i | 0 <= i < |Spell(k)| :: UpperChar(Spell(k)[i]) == Spell(k)[i]
  {
  }

  /** `peek_is`: comparing with a spelling ignoring case is asking for the kind. */
  lemma KindIsSpelling(t: string, k: Kind)
    requires Spelled(k)
    ensures KindOf(t) == k <==> Upper(t) == Spell(k)
  {
    hide KeywordKind, Spell;
    KeywordKindReadsSpelling(k);
    SpellingShape(k);
    if KeywordKind(Upper(t)) != Name {
      KeywordKindIsSpelled(Upper(t));
    }
    if Upper(t) == Spell(k) {
      assert UpperChar(t[0]) == Upper(t)[0] == Spell(k)[0];
    }
  }

  lemma SpellingHasKind(k: Kind)
    requires Spelled(k)
    ensures KindOf(Spell(k)) == k
  {
    hide KindOf, Spell;
    SpellingShape(k);
    assert Upper(Spell(k)) == Spell(k);
    KindIsSpelling(Spell(k), k);
  }

  // ---------- Identifiers ----------

  predicate Backticked(t: string) { |t| >= 2 && t[0] == '`' && t[|t| - 1] == '`' }

  function Unquote(t: string): string {
    if Backticked(t) then t[1..|t| - 1] else t
  }

  /** A token that `advance_identifier` reads as `p` and no other test of the parser mistakes. */
  function IdentToken(p: string): string {
    if KindOf(p) == Name && !Backticked(p) then p else "`" + p + "`"
  }

  lemma BacktickIsName(t: string)
    requires |t| >= 1 && t[0] == '`'
    ensures KindOf(t) == Name
  {
    assert Upper(t)[0] == '`';
  }

  lemma IdentTokenReadsBack(p: string)
    ensures Unquote(IdentToken(p)) == p && KindOf(IdentToken(p)) == Name
  {
    hide KindOf;
    if !(KindOf(p) == Name && !Backticked(p)) {
      var t := "`" + p + "`";
      BacktickIsName(t);
      assert t[1..|t| - 1] == p;
    }
  }

  // ---------- Numbers ----------

  const I64_MAX: int := 0x7FFF_FFFF_FFFF_FFFF

  /** An `i64` parse of a token that starts with a digit. */
  function ParseI64(t: string): Option<int> {
    if t != "" && AllDigits(t) && DecimalValue(t) <= I64_MAX then Some(DecimalValue(t)) else None
  }

  /** End of the run of digits that starts at `i`. */
  function DigitsEnd(t: string, i: nat): (j: nat)
    requires i <= |t|
    ensures i <= j <= |t|
    decreases |t| - i
  {
    if i < |t| && IsDigit(t[i]) then DigitsEnd(t, i + 1) else i
  }

  predicate ExponentFrom(t: string, i: nat)
    requires i <= |t|
  {
    i == |t| ||
    ((t[i] == 'e' || t[i] == 'E') &&
     var j := if i + 1 < |t| && (t[i + 1] == '+' || t[i + 1] == '-') then i + 2 else i + 1;
     j < DigitsEnd(t, j) == |t|)
  }

  /** Texts that begin with a digit and parse as an `f64`: digits, then an optional point with
      optional digits, then an optional exponent. */
  predicate IsF64Text(t: string) {
    var i := DigitsEnd(t, 0);
    0 < i &&
    (if i < |t| && t[i] == '.' then ExponentFrom(t, DigitsEnd(t, i + 1)) else ExponentFrom(t, i))
  }

  lemma DecimalIsNumber(n: nat)
    requires n <= I64_MAX
    ensures KindOf(Decimal(n)) == Number && ParseI64(Decimal(n)) == Some(n)
  {
    DecimalInverse(n);
  }
}
