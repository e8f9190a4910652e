/** The parser object of pysql/parser.py for expressions: it moves a cursor, and does what Parse says. */
module ExprParsers {
  import opened Common
  import opened ExprGrammar

  /** The rest of a chain whose operator has just been read. */
  function AfterOperator(ts: seq<Token>, p: nat, lv: Level, op: BinaryOpType, left: Expr): Result<Expr>
    requires Lexed(ts) && p <= |ts| && IsChain(lv)
  {
    match Parse(ts, p, lv + 1)
    case Err(at) => Err(at)
    case Ok(right, q) => ParseChain(ts, q, lv, BinaryOp(op, left, right))
  }

  lemma ChainBegins(ts: seq<Token>, p: nat, lv: Level)
    requires Lexed(ts) && p <= |ts| && IsChain(lv)
    ensures Parse(ts, p, lv)
         == match Parse(ts, p, lv + 1) { case Err(at) => Err(at) case Ok(e, q) => ParseChain(ts, q, lv, e) }
  {
  }

  lemma ComparisonBegins(ts: seq<Token>, p: nat)
    requires Lexed(ts) && p <= |ts|
    ensures Parse(ts, p, COMPARISON_LEVEL)
         == match Parse(ts, p, ADDITION_LEVEL) { case Err(at) => Err(at) case Ok(e, q) => ParseSuffix(ts, q, e) }
  {
  }

  lemma PrimaryIs(ts: seq<Token>, p: nat)
    requires Lexed(ts) && p <= |ts|
    ensures Parse(ts, p, PRIMARY_LEVEL) == ParsePrimary(ts, p)
  {
  }

  lemma ChainMoves(ts: seq<Token>, p: nat, lv: Level, left: Expr)
    requires Lexed(ts) && p <= |ts| && IsChain(lv)
    ensures var op := ChainOp(lv, Kind(ts, p));
      ParseChain(ts, p, lv, left) == if op.None? then Ok(left, p) else AfterOperator(ts, p + 1, lv, op.value, left)
  {
  }

  class Parser {
    const tokens: seq<Token>
    var pos: nat

    ghost predicate Valid()
      reads this
    {
      Lexed(tokens) && pos <= |tokens|
    }

    constructor (tokens: seq<Token>)
      requires Lexed(tokens)
      ensures Valid() && this.tokens == tokens && pos == 0
    {
      this.tokens := tokens;
      pos := 0;
    }

    /** The method's result is what the function says, and the cursor stands where it says. */
    ghost predicate Did<T>(r: Result<T>, expected: Result<T>)
      reads this
    {
      Valid() && r == expected && (r.Ok? ==> pos == r.next)
    }

    function Current(): (k: TokenType)
      requires Lexed(tokens)
      reads this
      ensures k == Kind(tokens, pos)
    {
      if pos >= |tokens| then tokens[|tokens| - 1].kind else tokens[pos].kind
    }

    /** Consumes the current token if it has the given type. */
    method Match(k: TokenType) returns (matched: bool)
      requires Valid() && k != EOF
      modifies this`pos
      ensures Valid() && matched == (Kind(tokens, old(pos)) == k) && pos == old(pos) + (if matched then 1 else 0)
    {
      matched := Current() == k;
      if matched { pos := pos + 1; }
    }

    method ParseExpression() returns (r: Result<Expr>)
      requires Valid()
      modifies this`pos
      ensures Did(r, Parse(tokens, old(pos), OR_LEVEL))
      decreases |tokens| - pos, 8, 2
    {
      r := ParseOrExpr();
    }

    /** The values so far are kept in `exprs`; an error ends the loop. */
    method ParseExpressionList() returns (r: Result<seq<Expr>>)
      requires Valid()
      modifies this`pos
      ensures Did(r, ParseList(tokens, old(pos), []))
      decreases |tokens| - pos, 8, 3
    {
      var exprs := [];
      while true
        invariant Valid() && old(pos) <= pos && ParseList(tokens, pos, exprs) == ParseList(tokens, old(pos), [])
        decreases |tokens| - pos
      {
        var e := ParseExpression();
        if e.Err? { return Err(e.at); }
        exprs := exprs + [e.value];
        var comma := Match(COMMA);
        if !comma { return Ok(exprs, pos); }
      }
    }

    method ParseOrExpr() returns (r: Result<Expr>)
      requires Valid()
      modifies this`pos
      ensures Did(r, Parse(tokens, old(pos), OR_LEVEL))
      decreases |tokens| - pos, 8, 1
    {
      hide Parse, ParseChain;
      ChainBegins(tokens, pos, OR_LEVEL);
      r := ParseAndExpr();
      if r.Err? { return; }
      var left := r.value;
      ChainMoves(tokens, pos, OR_LEVEL, left);
      var more := Match(T_OR);
      while more
        invariant Valid() && old(pos) < pos
        invariant if more then Parse(tokens, old(pos), OR_LEVEL) == AfterOperator(tokens, pos, OR_LEVEL, OR, left)
                  else Parse(tokens, old(pos), OR_LEVEL) == Ok(left, pos)
        decreases |tokens| - pos, more
      {
        var right := ParseAndExpr();
        if right.Err? { return right; }
        left := BinaryOp(OR, left, right.value);
        ChainMoves(tokens, pos, OR_LEVEL, left);
        more := Match(T_OR);
      }
      r := Ok(left, pos);
    }

    method ParseAndExpr() returns (r: Result<Expr>)
      requires Valid()
      modifies this`pos
      ensures Did(r, Parse(tokens, old(pos), AND_LEVEL))
      decreases |tokens| - pos, 7, 1
    {
      hide Parse, ParseChain;
      ChainBegins(tokens, pos, AND_LEVEL);
      r := ParseNotExpr();
      if r.Err? { return; }
      var left := r.value;
      ChainMoves(tokens, pos, AND_LEVEL, left);
      var more := Match(T_AND);
      while more
        invariant Valid() && old(pos) < pos
        invariant if more then Parse(tokens, old(pos), AND_LEVEL) == AfterOperator(tokens, pos, AND_LEVEL, AND, left)
                  else Parse(tokens, old(pos), AND_LEVEL) == Ok(left, pos)
        decreases |tokens| - pos, more
      {
        var right := ParseNotExpr();
        if right.Err? { return right; }
        left := BinaryOp(AND, left, right.value);
        ChainMoves(tokens, pos, AND_LEVEL, left);
        more := Match(T_AND);
      }
      r := Ok(left, pos);
    }

    method ParseNotExpr() returns (r: Result<Expr>)
      requires Valid()
      modifies this`pos
      ensures Did(r, Parse(tokens, old(pos), NOT_LEVEL))
      decreases |tokens| - pos, 6, 1
    {
      var negated := Match(T_NOT);
      if negated {
        var operand := ParseNotExpr();
        if operand.Err? { return operand; }
        return Ok(Not(operand.value), pos);
      }
      r := ParseComparison();
    }

    method ParseComparison() returns (r: Result<Expr>)
      requires Valid()
      modifies this`pos
      ensures Did(r, Parse(tokens, old(pos), COMPARISON_LEVEL))
      decreases |tokens| - pos, 5, 1
    {
      hide Parse, ParseRelation;
      ComparisonBegins(tokens, pos);
      r := ParseAddition();
      if r.Err? { return; }
      var left := r.value;
      ghost var start := pos;
      assert Parse(tokens, old(pos), COMPARISON_LEVEL) == ParseSuffix(tokens, start, left);
      if Current() == IS {
        pos := pos + 1;
        var negated := Match(T_NOT);
        if Current() != NULL_LITERAL { return Err(pos); }
        pos := pos + 1;
        return Ok(IsNullExpr(left, negated), pos);
      }
      var negated := false;
      if Current() == T_NOT && Negatable(Kind(tokens, pos + 1)) {
        pos := pos + 1;
        negated := true;
      }
      r := ParseRelated(left, negated);
    }

    /** After the left side and any NOT. */
    method ParseRelated(left: Expr, negated: bool) returns (r: Result<Expr>)
      requires Valid()
      modifies this`pos
      ensures Did(r, ParseRelation(tokens, old(pos), left, negated))
      decreases |tokens| - pos, 5, 0
    {
      hide Parse, ParseList;
      var found := Match(BETWEEN);
      if found {
        r := ParseBetween(left, negated);
        return;
      }
      found := Match(IN);
      if found {
        r := ParseIn(left, negated);
        return;
      }
      found := Match(LIKE);
      if found {
        var pattern := ParseAddition();
        if pattern.Err? { return pattern; }
        return Ok(LikeExpr(left, pattern.value, negated), pos);
      }
      var op := ComparisonOp(Current());
      if op.Some? {
        pos := pos + 1;
        var right := ParseAddition();
        if right.Err? { return right; }
        return Ok(BinaryOp(op.value, left, right.value), pos);
      }
      return Ok(left, pos);
    }

    /** After BETWEEN. */
    method ParseBetween(left: Expr, negated: bool) returns (r: Result<Expr>)
      requires Valid() && pos > 0 && Kind(tokens, pos - 1) == BETWEEN
      modifies this`pos
      ensures Did(r, ParseRelation(tokens, old(pos) - 1, left, negated))
      decreases |tokens| - pos, 5, 0
    {
      var low := ParseAddition();
      if low.Err? { return low; }
      var and := Match(T_AND);
      if !and { return Err(pos); }
      var high := ParseAddition();
      if high.Err? { return high; }
      return Ok(BetweenExpr(left, low.value, high.value, negated), pos);
    }

    /** After IN. */
    method ParseIn(left: Expr, negated: bool) returns (r: Result<Expr>)
      requires Valid() && pos > 0 && Kind(tokens, pos - 1) == IN
      modifies this`pos
      ensures Did(r, ParseRelation(tokens, old(pos) - 1, left, negated))
      decreases |tokens| - pos, 5, 0
    {
      var open := Match(LPAREN);
      if !open { return Err(pos); }
      if Current() == SELECT { return Err(pos); }
      var values := ParseExpressionList();
      if values.Err? { return Err(values.at); }
      var close := Match(RPAREN);
      if !close { return Err(pos); }
      return Ok(InExpr(left, values.value, negated), pos);
    }

    method ParseAddition() returns (r: Result<Expr>)
      requires Valid()
      modifies this`pos
      ensures Did(r, Parse(tokens, old(pos), ADDITION_LEVEL))
      decreases |tokens| - pos, 4, 1
    {
      r := ParseMultiplication();
      if r.Err? { return; }
      var left := r.value;
      while true
        invariant Valid() && old(pos) < pos
        invariant Parse(tokens, old(pos), ADDITION_LEVEL) == ParseChain(tokens, pos, ADDITION_LEVEL, left)
        decreases |tokens| - pos
      {
        var op := ChainOp(ADDITION_LEVEL, Current());
        if op.None? { return Ok(left, pos); }
        pos := pos + 1;
        var right := ParseMultiplication();
        if right.Err? { return right; }
        left := BinaryOp(op.value, left, right.value);
      }
    }

    method ParseMultiplication() returns (r: Result<Expr>)
      requires Valid()
      modifies this`pos
      ensures Did(r, Parse(tokens, old(pos), MULTIPLICATION_LEVEL))
      decreases |tokens| - pos, 3, 1
    {
      r := ParseUnary();
      if r.Err? { return; }
      var left := r.value;
      while true
        invariant Valid() && old(pos) < pos
        invariant Parse(tokens, old(pos), MULTIPLICATION_LEVEL) == ParseChain(tokens, pos, MULTIPLICATION_LEVEL, left)
        decreases |tokens| - pos
      {
        var op := ChainOp(MULTIPLICATION_LEVEL, Current());
        if op.None? { return Ok(left, pos); }
        pos := pos + 1;
        var right := ParseUnary();
        if right.Err? { return right; }
        left := BinaryOp(op.value, left, right.value);
      }
    }

    method ParseUnary() returns (r: Result<Expr>)
      requires Valid()
      modifies this`pos
      ensures Did(r, Parse(tokens, old(pos), UNARY_LEVEL))
      decreases |tokens| - pos, 2, 1
    {
      var negative := Match(MINUS);
      if negative {
        var operand := ParseUnary();
        if operand.Err? { return operand; }
        return Ok(Negate(operand.value), pos);
      }
      r := ParsePrimaryExpr();
    }

    method ParsePrimaryExpr() returns (r: Result<Expr>)
      requires Valid()
      modifies this`pos
      ensures Did(r, Parse(tokens, old(pos), PRIMARY_LEVEL))
      decreases |tokens| - pos, 1, 1
    {
      hide Parse, ParseName, ParseList;
      var kind, text, start := Current(), Text(tokens, pos), pos;
      PrimaryIs(tokens, pos);
      if kind == IDENTIFIER || kind == QUOTED_IDENTIFIER {
        r := ParseNamed();
        return;
      }
      if || kind == NULL_LITERAL || kind == BOOLEAN_LITERAL || kind == INTEGER_LITERAL
         || kind == FLOAT_LITERAL || kind == STRING_LITERAL {
        pos := pos + 1;
        return Ok(match kind
                  case NULL_LITERAL => NullLiteral
                  case BOOLEAN_LITERAL => BooleanLiteral(text == "TRUE")
                  case INTEGER_LITERAL => IntegerLiteral(text)
                  case FLOAT_LITERAL => FloatLiteral(text)
                  case _ => StringLiteral(text), pos);
      }
      var open := Match(LPAREN);
      if open {
        if Current() == SELECT { return Err(pos); }
        var e := ParseExpression();
        if e.Err? { return e; }
        var close := Match(RPAREN);
        if !close { return Err(pos); }
        return Ok(e.value, pos);
      }
      var star := Match(STAR);
      if star { return Ok(StarExpr, pos); }
      return Err(start);
    }

    /** A function call, a qualified column or a column. */
    method ParseNamed() returns (r: Result<Expr>)
      requires Valid() && pos < |tokens| && (Kind(tokens, pos) == IDENTIFIER || Kind(tokens, pos) == QUOTED_IDENTIFIER)
      modifies this`pos
      ensures Did(r, ParseName(tokens, old(pos)))
      decreases |tokens| - pos, 1, 0
    {
      hide Parse, ParseList;
      var name := Text(tokens, pos);
      pos := pos + 1;
      var open := Match(LPAREN);
      if open {
        r := ParseArguments(name);
        return;
      }
      var dot := Match(DOT);
      if dot {
        var column := Text(tokens, pos);
        pos := pos + 1;
        return Ok(ColumnRef(column, Some(name)), pos);
      }
      return Ok(ColumnRef(name, None), pos);
    }

    /** The arguments of a call, the name and the bracket having been read. */
    method ParseArguments(name: string) returns (r: Result<Expr>)
      requires Valid() && 2 <= pos && Kind(tokens, pos - 2) != EOF && Kind(tokens, pos - 1) == LPAREN
      requires Text(tokens, pos - 2) == name
      modifies this`pos
      ensures Did(r, ParseName(tokens, old(pos) - 2))
      decreases |tokens| - pos, 9, 0
    {
      hide Parse, ParseList;
      var args, distinct := [], false;
      if Current() != RPAREN {
        distinct := Match(DISTINCT);
        var list := ParseExpressionList();
        if list.Err? { return Err(list.at); }
        args := list.value;
      }
      var close := Match(RPAREN);
      if !close { return Err(pos); }
      return Ok(FunctionCall(name, args, distinct), pos);
    }
  }
}
