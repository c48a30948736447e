/** The token cursor and the descent methods that move it, tied to the functions of CypherParser. */
module CypherParseContext {
  import opened Wrappers
  import opened CypherTokens
  import opened Text
  import opened CypherParser

  class ParseContext {
    const tokens: seq<string>
    var pos: nat

    constructor (tokens: seq<string>)
      ensures this.tokens == tokens && pos == 0
    {
      this.tokens := tokens;
      pos := 0;
    }

    ghost predicate Valid()
      reads this
    {
      pos <= |tokens|
    }

    ghost function Rest(): seq<string>
      requires Valid()
      reads this
    {
      tokens[pos..]
    }

    /** A method's result and cursor are what the function of the same rule says. */
    ghost predicate Yields(r: Result<Expr, CypherError>, spec: Parsed)
      reads this
    {
      Valid() &&
      match spec
      case Got(e, rest) => r == Ok(e) && Rest() == rest
      case Bad(error) => r == Err(error)
    }

    // ---------- Cursor ----------

    method PeekIs(k: Kind) returns (b: bool)
      requires Valid() && Spelled(k)
      ensures b <==> Is(Rest(), k)
    {
      hide KindOf, Spell;
      if pos < |tokens| {
        KindIsSpelling(tokens[pos], k);
        b := Upper(tokens[pos]) == Spell(k);
      } else {
        b := false;
      }
    }

    method Advance() returns (t: Option<string>)
      requires Valid()
      modifies this
      ensures Valid()
      ensures old(Rest()) == [] ==> t.None? && Rest() == []
      ensures old(Rest()) != [] ==> t == Some(old(Rest())[0]) && Rest() == old(Rest())[1..] && pos == old(pos) + 1
    {
      if pos < |tokens| {
        t := Some(tokens[pos]);
        pos := pos + 1;
      } else {
        t := None;
      }
    }

    method Expect(k: Kind) returns (r: Result<(), CypherError>)
      requires Valid() && Spelled(k)
      modifies this
      ensures Valid()
      ensures r == if Is(old(Rest()), k) then Ok(()) else Err(Expected(k))
      ensures Rest() == if old(Rest()) == [] then [] else old(Rest())[1..]
    {
      hide KindOf, Spell;
      var t := Advance();
      if t.Some? {
        KindIsSpelling(t.value, k);
        if Upper(t.value) == Spell(k) {
          return Ok(());
        }
      }
      return Err(Expected(k));
    }

    /** Take the token if it is of the kind. */
    method Accept(k: Kind) returns (b: bool)
      requires Valid() && Spelled(k)
      modifies this
      ensures Valid() && b == Is(old(Rest()), k)
      ensures Rest() == if b then old(Rest())[1..] else old(Rest())
      ensures pos == if b then old(pos) + 1 else old(pos)
    {
      hide KindOf;
      b := PeekIs(k);
      if b {
        var _ := Advance();
      }
    }

    method AdvanceIdentifier() returns (r: Result<string, CypherError>)
      requires Valid()
      modifies this
      ensures Valid()
      ensures old(Rest()) == [] ==> r == Err(ExpectedIdentifier) && Rest() == []
      ensures old(Rest()) != [] ==> r == Ok(Unquote(old(Rest())[0])) && Rest() == old(Rest())[1..]
    {
      hide Unquote;
      var t := Advance();
      match t
      case None => return Err(ExpectedIdentifier);
      case Some(token) => return Ok(Unquote(token));
    }

    // ---------- Levels ----------

    method ParseExpression() returns (r: Result<Expr, CypherError>)
      requires Valid()
      modifies this
      ensures Yields(r, CypherParser.ParseExpression(old(Rest())))
      decreases |tokens| - pos, 10
    {
      r := ParseOr();
    }

    method ParseOr() returns (r: Result<Expr, CypherError>)
      requires Valid()
      modifies this
      ensures Yields(r, ParseLevel(OR_LEVEL, old(Rest())))
      decreases |tokens| - pos, 9
    {
      hide KindOf, ParseLevel, Loop;
      LoopStarts(OR_LEVEL, Rest());
      r := ParseAnd();
      if r.Err? {
        return;
      }
      var left := r.value;
      var more := PeekIs(OR);
      while more
        invariant Valid() && pos > old(pos) && more == Is(Rest(), OR)
        invariant Loop(OR_LEVEL, left, Rest()) == ParseLevel(OR_LEVEL, old(Rest()))
        decreases |tokens| - pos
      {
        LoopTurns(OR_LEVEL, left, Rest());
        var _ := Advance();
        r := ParseAnd();
        if r.Err? {
          return;
        }
        left := Binary(Or, left, r.value);
        more := PeekIs(OR);
      }
      LoopTurns(OR_LEVEL, left, Rest());
      return Ok(left);
    }

    method ParseAnd() returns (r: Result<Expr, CypherError>)
      requires Valid()
      modifies this
      ensures Yields(r, ParseLevel(AND_LEVEL, old(Rest())))
      decreases |tokens| - pos, 8
    {
      hide KindOf, ParseLevel, Loop;
      LoopStarts(AND_LEVEL, Rest());
      r := ParseXor();
      if r.Err? {
        return;
      }
      var left := r.value;
      var more := PeekIs(AND);
      while more
        invariant Valid() && pos > old(pos) && more == Is(Rest(), AND)
        invariant Loop(AND_LEVEL, left, Rest()) == ParseLevel(AND_LEVEL, old(Rest()))
        decreases |tokens| - pos
      {
        LoopTurns(AND_LEVEL, left, Rest());
        var _ := Advance();
        r := ParseXor();
        if r.Err? {
          return;
        }
        left := Binary(And, left, r.value);
        more := PeekIs(AND);
      }
      LoopTurns(AND_LEVEL, left, Rest());
      return Ok(left);
    }

    method ParseXor() returns (r: Result<Expr, CypherError>)
      requires Valid()
      modifies this
      ensures Yields(r, ParseLevel(XOR_LEVEL, old(Rest())))
      decreases |tokens| - pos, 7
    {
      hide KindOf, ParseLevel, Loop;
      LoopStarts(XOR_LEVEL, Rest());
      r := ParseNot();
      if r.Err? {
        return;
      }
      var left := r.value;
      var more := PeekIs(XOR);
      while more
        invariant Valid() && pos > old(pos) && more == Is(Rest(), XOR)
        invariant Loop(XOR_LEVEL, left, Rest()) == ParseLevel(XOR_LEVEL, old(Rest()))
        decreases |tokens| - pos
      {
        LoopTurns(XOR_LEVEL, left, Rest());
        var _ := Advance();
        r := ParseNot();
        if r.Err? {
          return;
        }
        left := Binary(Xor, left, r.value);
        more := PeekIs(XOR);
      }
      LoopTurns(XOR_LEVEL, left, Rest());
      return Ok(left);
    }

    method ParseNot() returns (r: Result<Expr, CypherError>)
      requires Valid()
      modifies this
      ensures Yields(r, ParseLevel(NOT_LEVEL, old(Rest())))
      decreases |tokens| - pos, 6
    {
      hide KindOf;
      var not := PeekIs(NOT);
      if not {
        var _ := Advance();
        r := ParseNot();
        if r.Ok? {
          r := Ok(Not(r.value));
        }
      } else {
        r := ParseComparison();
      }
    }

    method ParseComparison() returns (r: Result<Expr, CypherError>)
      requires Valid()
      modifies this
      ensures Yields(r, ParseLevel(COMPARISON_LEVEL, old(Rest())))
      decreases |tokens| - pos, 5
    {
      hide KindOf, CompareTail;
      r := ParseAddition();
      if r.Err? {
        return;
      }
      if pos < |tokens| {
        r := ParseCompareTail(r.value);
      }
    }

    /** The operator behind the left side, if there is one, and its right side. */
    method ParseCompareTail(left: Expr) returns (r: Result<Expr, CypherError>)
      requires Valid() && Rest() != []
      modifies this
      ensures Yields(r, CompareTail(left, old(Rest())))
      decreases |tokens| - pos, 4
    {
      hide KindOf, ParseLevel;
      var k := KindOf(tokens[pos]);
      if k == IS {
        r := ParseNullTest(left);
      } else if k == BETWEEN {
        r := ParseBounds(left);
      } else if k == IN || k == NOT {
        r := ParseMembership(left);
      } else if k == CONTAINS {
        var _ := Advance();
        r := ParseRight(Contains, left);
      } else if k == STARTS || k == ENDS {
        var _ := Advance();
        var e := Expect(WITH);
        if e.Err? {
          return Err(e.error);
        }
        r := ParseRight(if k == STARTS then StartsWith else EndsWith, left);
      } else if CompareOpOf(k).Some? {
        var _ := Advance();
        r := ParseRight(CompareOpOf(k).value, left);
      } else {
        return Ok(left);
      }
    }

    method ParseNullTest(left: Expr) returns (r: Result<Expr, CypherError>)
      requires Valid() && Is(Rest(), IS)
      modifies this
      ensures Yields(r, CompareTail(left, old(Rest())))
    {
      hide KindOf, ParseLevel;
      var _ := Advance();
      var not := Accept(NOT);
      var end := Expect(NULL);
      if end.Err? {
        return Err(end.error);
      }
      return Ok(if not then IsNotNull(left) else IsNull(left));
    }

    method ParseMembership(left: Expr) returns (r: Result<Expr, CypherError>)
      requires Valid() && (Is(Rest(), IN) || Is(Rest(), NOT))
      modifies this
      ensures Yields(r, CompareTail(left, old(Rest())))
      decreases |tokens| - pos, 3
    {
      hide KindOf, ParseLevel;
      var negated := Accept(NOT);
      var keyword := Expect(IN);
      if keyword.Err? {
        return Err(keyword.error);
      }
      r := ParsePrimary();
      if r.Ok? {
        r := Ok(InList(left, r.value, negated));
      }
    }

    method ParseRight(op: CompareOp, left: Expr) returns (r: Result<Expr, CypherError>)
      requires Valid()
      modifies this
      ensures Yields(r, CompareWith(op, left, old(Rest())))
      decreases |tokens| - pos, 4
    {
      hide KindOf, ParseLevel;
      r := ParsePrimary();
      if r.Ok? {
        r := Ok(Comparison(op, left, r.value));
      }
    }

    method ParseBounds(left: Expr) returns (r: Result<Expr, CypherError>)
      requires Valid() && Is(Rest(), BETWEEN)
      modifies this
      ensures Yields(r, CompareTail(left, old(Rest())))
      decreases |tokens| - pos, 3
    {
      hide KindOf, ParseLevel;
      var _ := Advance();
      var lower := ParseAddition();
      if lower.Err? {
        return lower;
      }
      var and := Expect(AND);
      if and.Err? {
        return Err(and.error);
      }
      var upper := ParseAddition();
      if upper.Err? {
        return upper;
      }
      return Ok(Between(left, lower.value, upper.value));
    }

    /** Take `+` or `-`. */
    method AcceptTermOp() returns (op: Option<BinaryOp>)
      requires Valid()
      modifies this
      ensures Valid()
      ensures op == if old(Rest()) == [] then None else OpAt(ADDITION_LEVEL, KindOf(old(Rest())[0]))
      ensures Rest() == if op.Some? then old(Rest())[1..] else old(Rest())
      ensures pos == if op.Some? then old(pos) + 1 else old(pos)
    {
      hide KindOf;
      var plus := Accept(Plus);
      if plus {
        return Some(Add);
      }
      var minus := Accept(Minus);
      return if minus then Some(Subtract) else None;
    }

    method ParseAddition() returns (r: Result<Expr, CypherError>)
      requires Valid()
      modifies this
      ensures Yields(r, ParseLevel(ADDITION_LEVEL, old(Rest())))
      decreases |tokens| - pos, 3
    {
      hide KindOf, OpAt, ParseLevel, Loop;
      LoopStarts(ADDITION_LEVEL, Rest());
      r := ParseMultiplication();
      if r.Err? {
        return;
      }
      var left := r.value;
      while true
        invariant Valid() && pos > old(pos)
        invariant Loop(ADDITION_LEVEL, left, Rest()) == ParseLevel(ADDITION_LEVEL, old(Rest()))
        decreases |tokens| - pos
      {
        LoopTurns(ADDITION_LEVEL, left, Rest());
        var op := AcceptTermOp();
        if op.None? {
          break;
        }
        r := ParseMultiplication();
        if r.Err? {
          return;
        }
        left := Binary(op.value, left, r.value);
      }
      return Ok(left);
    }

    /** Take `*`, `/` or `%`. */
    method AcceptFactorOp() returns (op: Option<BinaryOp>)
      requires Valid()
      modifies this
      ensures Valid()
      ensures op == if old(Rest()) == [] then None else OpAt(MULTIPLICATION_LEVEL, KindOf(old(Rest())[0]))
      ensures Rest() == if op.Some? then old(Rest())[1..] else old(Rest())
      ensures pos == if op.Some? then old(pos) + 1 else old(pos)
    {
      hide KindOf;
      var star := Accept(Star);
      if star {
        return Some(Multiply);
      }
      var slash := Accept(Slash);
      if slash {
        return Some(Divide);
      }
      var percent := Accept(Percent);
      return if percent then Some(Modulo) else None;
    }

    method ParseMultiplication() returns (r: Result<Expr, CypherError>)
      requires Valid()
      modifies this
      ensures Yields(r, ParseLevel(MULTIPLICATION_LEVEL, old(Rest())))
      decreases |tokens| - pos, 2
    {
      hide KindOf, OpAt, ParseLevel, Loop;
      LoopStarts(MULTIPLICATION_LEVEL, Rest());
      r := ParsePrimary();
      if r.Err? {
        return;
      }
      var left := r.value;
      while true
        invariant Valid() && pos > old(pos)
        invariant Loop(MULTIPLICATION_LEVEL, left, Rest()) == ParseLevel(MULTIPLICATION_LEVEL, old(Rest()))
        decreases |tokens| - pos
      {
        var bracket := PeekIs(LBracket);
        if bracket {
          LoopAtBracket(left, Rest());
          return Err(OutsideFragment);
        }
        LoopTurns(MULTIPLICATION_LEVEL, left, Rest());
        var op := AcceptFactorOp();
        if op.None? {
          break;
        }
        r := ParsePrimary();
        if r.Err? {
          return;
        }
        left := Binary(op.value, left, r.value);
      }
      return Ok(left);
    }

    method ParsePrimary() returns (r: Result<Expr, CypherError>)
      requires Valid()
      modifies this
      ensures Yields(r, ParseLevel(PRIMARY_LEVEL, old(Rest())))
      decreases |tokens| - pos, 1
    {
      hide KindOf, TryPattern, CypherParser.ParseAtom;
      var paren := PeekIs(LParen);
      if paren {
        var pattern := TryParsePatternPredicate();
        if pattern.Some? {
          return Ok(pattern.value);
        }
      }
      r := ParseAtom();
    }

    /** The atoms behind a failed pattern attempt. */
    method ParseAtom() returns (r: Result<Expr, CypherError>)
      requires Valid()
      modifies this
      ensures Yields(r, CypherParser.ParseAtom(old(Rest())))
      decreases |tokens| - pos, 0
    {
      hide KindOf, ParseLevel, CypherParser.ParseName, CypherParser.ParseNumber, ParseParameter, ParseQuoted;
      if pos == |tokens| {
        return Err(UnexpectedEnd);
      }
      var k := KindOf(tokens[pos]);
      match k
      case CASE => return Err(OutsideFragment);
      case Minus =>
        var _ := Advance();
        r := ParsePrimary();
        if r.Ok? {
          r := Ok(Binary(Subtract, Lit(Integer(0)), r.value));
        }
      case Quoted => r := ParseQuotedString();
      case Param => r := ParseParameterAccess();
      case LParen =>
        var _ := Advance();
        r := ParseExpression();
        if r.Ok? {
          var close := Expect(RParen);
          if close.Err? {
            return Err(close.error);
          }
        }
      case LBracket => return Err(OutsideFragment);
      case LBrace => return Err(OutsideFragment);
      case TRUE =>
        var _ := Advance();
        return Ok(Lit(Bool(true)));
      case FALSE =>
        var _ := Advance();
        return Ok(Lit(Bool(false)));
      case NULL =>
        var _ := Advance();
        return Ok(Lit(NullLiteral));
      case Number => r := ParseNumber();
      case _ => r := ParseName();
    }

    method ParseQuotedString() returns (r: Result<Expr, CypherError>)
      requires Valid() && Is(Rest(), Quoted)
      modifies this
      ensures Yields(r, ParseQuoted(old(Rest())))
    {
      hide KindOf;
      var raw := Advance();
      if |raw.value| < 2 {
        return Err(UnterminatedString);
      }
      return Ok(Lit(Str(raw.value[1..|raw.value| - 1])));
    }

    method ParseParameterAccess() returns (r: Result<Expr, CypherError>)
      requires Valid() && Is(Rest(), Param)
      modifies this
      ensures Yields(r, ParseParameter(old(Rest())))
    {
      ParamIsLong(tokens[pos]);
      hide KindOf;
      var raw := Advance();
      var name := raw.value[1..];
      var dot := PeekIs(Dot);
      if dot {
        var _ := Advance();
        var property := AdvanceIdentifier();
        match property
        case Err(e) => return Err(e);
        case Ok(key) => return Ok(ParameterProperty(name, key));
      }
      return Ok(Parameter(name));
    }

    method ParseNumber() returns (r: Result<Expr, CypherError>)
      requires Valid() && Rest() != []
      modifies this
      ensures Yields(r, CypherParser.ParseNumber(old(Rest())))
    {
      hide KindOf, IsF64Text;
      var t := Advance();
      var i := ParseI64(t.value);
      if i.Some? {
        var dot := PeekIs(Dot);
        if !dot {
          return Ok(Lit(Integer(i.value)));
        }
        var _ := Advance();
        var fraction := Advance();
        if fraction.None? {
          return Err(ExpectedFraction);
        }
        if !IsF64Text(Decimal(i.value) + "." + fraction.value) {
          return Err(InvalidFloat);
        }
        return Ok(Lit(Decimals(i.value, fraction.value)));
      }
      return if IsF64Text(t.value) then Ok(Lit(Numeral(t.value))) else Err(InvalidNumber);
    }

    method ParseName() returns (r: Result<Expr, CypherError>)
      requires Valid() && Rest() != []
      modifies this
      ensures Yields(r, CypherParser.ParseName(old(Rest())))
    {
      hide KindOf, Unquote;
      var name := Advance();
      var dot := PeekIs(Dot);
      if dot {
        var full := name.value;
        while dot
          invariant Valid() && dot == Is(Rest(), Dot)
          invariant Dotted(full, Rest()) == Dotted(name.value, old(Rest())[1..])
          decreases |tokens| - pos
        {
          var _ := Advance();
          var part := AdvanceIdentifier();
          if part.Err? {
            return Err(part.error);
          }
          full := full + "." + part.value;
          dot := PeekIs(Dot);
        }
        var call := PeekIs(LParen);
        if call {
          return Err(OutsideFragment);
        }
        var i := LastDot(full);
        return Ok(if i < |full| then Property(full[..i], full[i + 1..]) else Variable(full));
      }
      var call := PeekIs(LParen);
      return if call then Err(OutsideFragment) else Ok(Variable(name.value));
    }

    // ---------- Backtracking ----------

    /** Take an optional label; false at the end of input. */
    method AcceptLabel() returns (b: bool)
      requires Valid()
      modifies this
      ensures Valid() && pos >= old(pos)
      ensures SkipLabel(old(Rest())) == if b then Some(Rest()) else None
      ensures !b ==> Rest() == []
    {
      hide KindOf, Unquote;
      b := true;
      var colon := Accept(Colon);
      if colon {
        var name := AdvanceIdentifier();
        b := name.Ok?;
      }
    }

    /** Take three tokens if they are of the kinds; a mismatch may leave the cursor between them. */
    method AcceptThree(a: Kind, b: Kind, c: Kind) returns (r: bool)
      requires Valid() && Spelled(a) && Spelled(b) && Spelled(c)
      modifies this
      ensures Valid() && pos >= old(pos)
      ensures r <==> Is(old(Rest()), a) && Is(old(Rest())[1..], b) && Is(old(Rest())[2..], c)
      ensures r ==> Rest() == old(Rest())[3..] && pos == old(pos) + 3
    {
      hide KindOf;
      r := Accept(a);
      if r {
        r := Accept(b);
        if r {
          r := Accept(c);
        }
      }
    }

    /** On a mismatch the cursor goes back to where it was; where an identifier is due and the tokens
        have run out it stays at the end. */
    method TryParsePatternPredicate() returns (r: Option<Expr>)
      requires Valid()
      modifies this
      ensures Valid()
      ensures Attempt(r, Rest()) == TryPattern(old(Rest()))
    {
      hide KindOf, Unquote, TryRelationship, SkipLabel;
      var start := pos;
      var open := Accept(LParen);
      if !open {
        return None;
      }
      var variable := AdvanceIdentifier();
      if variable.Err? {
        return None;
      }
      assert Rest() == old(Rest())[2..];
      var labelled := AcceptLabel();
      if !labelled {
        return None;
      }
      var edge := AcceptThree(RParen, Minus, LBracket);
      if edge {
        r := TryRelationshipFrom(variable.value, start);
      } else {
        pos := start;
        r := None;
      }
    }

    method TryRelationshipFrom(variable: string, start: nat) returns (r: Option<Expr>)
      requires Valid() && start < pos
      modifies this
      ensures Valid()
      ensures Attempt(r, Rest()) == TryRelationship(variable, old(Rest()), tokens[start..])
    {
      hide KindOf, Unquote, TryArrow;
      var _ := Accept(Colon);
      var relType := AdvanceIdentifier();
      if relType.Err? {
        return None;
      }
      var found := Accept(RBracket);
      if found {
        found := Accept(Minus);
      }
      if found {
        r := TryArrowFrom(variable, relType.value, start);
      } else {
        pos := start;
        r := None;
      }
    }

    method TryArrowFrom(variable: string, relType: string, start: nat) returns (r: Option<Expr>)
      requires Valid() && start < pos
      modifies this
      ensures Valid()
      ensures Attempt(r, Rest()) == TryArrow(variable, relType, old(Rest()), tokens[start..])
    {
      hide KindOf, Unquote, TryTarget;
      var _ := Accept(Gt);
      var open := Accept(LParen);
      if open {
        r := TryTargetFrom(variable, relType, start);
      } else {
        pos := start;
        r := None;
      }
    }

    method TryTargetFrom(variable: string, relType: string, start: nat) returns (r: Option<Expr>)
      requires Valid() && start < pos
      modifies this
      ensures Valid()
      ensures Attempt(r, Rest()) == TryTarget(variable, relType, old(Rest()), tokens[start..])
    {
      hide KindOf, Unquote, SkipLabel;
      var target := "";
      var unnamed := PeekIs(RParen);
      if !unnamed {
        var name := AdvanceIdentifier();
        if name.Err? {
          return None;
        }
        target := name.value;
      }
      var labelled := AcceptLabel();
      if !labelled {
        return None;
      }
      var close := Accept(RParen);
      if close {
        return Some(PatternExists(variable, relType, target));
      }
      pos := start;
      return None;
    }
  }

  lemma ParamIsLong(t: string)
    requires KindOf(t) == Param
    ensures |t| >= 1
  {
  }
}
