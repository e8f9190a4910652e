/**
  The grammar of expressions as a relation between trees and stretches of tokens, and the parser held to it: what it
  accepts is derived by the grammar, and what the grammar derives, however bracketed and quoted, it accepts.
*/
module ExprDerivations {
  import opened Common
  import opened ExprGrammar

  predicate IsName(k: TokenType) {
    k == IDENTIFIER || k == QUOTED_IDENTIFIER
  }

  // ----- The grammar -----

  function LeftOf(e: Expr): (l: Expr)
    requires LevelOf(e) == COMPARISON_LEVEL
    ensures l < e && (Buildable(e) ==> Buildable(l))
  {
    if e.BinaryOp? then e.left else e.expr
  }

  function Length(p: nat, q: nat): nat {
    if p <= q then q - p else 0
  }

  /** The tokens from p up to q are an expression e of level lv. */
  ghost predicate Derives(ts: seq<Token>, p: nat, q: nat, lv: Level, e: Expr)
    requires Lexed(ts)
    decreases Length(p, q), 9 - lv, 2
  {
    && p < q <= |ts|
    && (|| (lv < PRIMARY_LEVEL && Derives(ts, p, q, lv + 1, e))
        || (lv == PRIMARY_LEVEL && (DerivesPrimary(ts, p, q, e) || DerivesBrackets(ts, p, q, e)))
        || (lv == UNARY_LEVEL && e.Negate? && Kind(ts, p) == MINUS && Derives(ts, p + 1, q, lv, e.operand))
        || (lv == NOT_LEVEL && e.Not? && Kind(ts, p) == T_NOT && Derives(ts, p + 1, q, lv, e.operand))
        || (lv == COMPARISON_LEVEL && DerivesComparison(ts, p, q, e))
        || (IsChain(lv) && DerivesChain(ts, p, q, lv, e)))
  }

  /** An operator with a chain of its level to the left and an operand of the next level to the right. */
  ghost predicate DerivesChain(ts: seq<Token>, p: nat, q: nat, lv: Level, e: Expr)
    requires Lexed(ts) && p < q <= |ts| && IsChain(lv)
    decreases q - p, 9 - lv, 1
  {
    && e.BinaryOp?
    && exists m ::
         p < m < q && IsOperator(ts, m, lv, e.op)
         && Derives(ts, p, m, lv, e.left) && Derives(ts, m + 1, q, lv + 1, e.right)
  }

  predicate IsOperator(ts: seq<Token>, m: nat, lv: Level, op: BinaryOpType)
    requires Lexed(ts)
  {
    ChainOp(lv, Kind(ts, m)) == Some(op)
  }

  /** Something added, and what is said of it. */
  ghost predicate DerivesComparison(ts: seq<Token>, p: nat, q: nat, e: Expr)
    requires Lexed(ts) && p < q <= |ts|
    decreases q - p, 6, 1
  {
    LevelOf(e) == COMPARISON_LEVEL
    && exists m :: p < m < q && Derives(ts, p, m, ADDITION_LEVEL, LeftOf(e)) && DerivesSuffix(ts, m, q, e)
  }

  ghost predicate DerivesSuffix(ts: seq<Token>, m: nat, q: nat, e: Expr)
    requires Lexed(ts) && m < q <= |ts| && LevelOf(e) == COMPARISON_LEVEL
    decreases q - m, 10, 1
  {
    if e.IsNullExpr? then
      && Kind(ts, m) == IS && (e.negated ==> Kind(ts, m + 1) == T_NOT)
      && q == (if e.negated then m + 3 else m + 2) && Kind(ts, q - 1) == NULL_LITERAL
    else if e.BinaryOp? then
      ComparisonOp(Kind(ts, m)) == Some(e.op) && Derives(ts, m + 1, q, ADDITION_LEVEL, e.right)
    else if e.negated then Kind(ts, m) == T_NOT && m + 1 < q && DerivesRelation(ts, m + 1, q, e)
    else DerivesRelation(ts, m, q, e)
  }

  /** The forms that may be negated, from their key word on. */
  ghost predicate DerivesRelation(ts: seq<Token>, m: nat, q: nat, e: Expr)
    requires Lexed(ts) && m < q <= |ts| && (e.BetweenExpr? || e.InExpr? || e.LikeExpr?)
    decreases q - m, 10, 0
  {
    match e
    case BetweenExpr(_, low, high, _) =>
      && Kind(ts, m) == BETWEEN
      && exists k ::
           m < k < q && Kind(ts, k) == T_AND
           && Derives(ts, m + 1, k, ADDITION_LEVEL, low) && Derives(ts, k + 1, q, ADDITION_LEVEL, high)
    case InExpr(_, values, _) =>
      && Kind(ts, m) == IN && Kind(ts, m + 1) == LPAREN && Kind(ts, q - 1) == RPAREN
      && DerivesList(ts, m + 2, q - 1, values)
    case LikeExpr(_, pattern, _) => Kind(ts, m) == LIKE && Derives(ts, m + 1, q, ADDITION_LEVEL, pattern)
  }

  /** Expressions with commas between them. */
  ghost predicate DerivesList(ts: seq<Token>, p: nat, q: nat, es: seq<Expr>)
    requires Lexed(ts)
    decreases Length(p, q), 10, 0
  {
    && p < q <= |ts| && es != []
    && if |es| == 1 then Derives(ts, p, q, OR_LEVEL, es[0])
       else
         exists m ::
           p < m < q && Kind(ts, m) == COMMA
           && Derives(ts, p, m, OR_LEVEL, es[0]) && DerivesList(ts, m + 1, q, es[1..])
  }

  ghost predicate DerivesBrackets(ts: seq<Token>, p: nat, q: nat, e: Expr)
    requires Lexed(ts) && p < q <= |ts|
    decreases q - p, 1, 0
  {
    p + 1 < q && Kind(ts, p) == LPAREN && Kind(ts, q - 1) == RPAREN && Derives(ts, p + 1, q - 1, OR_LEVEL, e)
  }

  /** Literals, names quoted or not, calls and the star; after a dot anything is a column. */
  ghost predicate DerivesPrimary(ts: seq<Token>, p: nat, q: nat, e: Expr)
    requires Lexed(ts) && p < q <= |ts|
    decreases q - p, 1, 0
  {
    match e
    case NullLiteral => q == p + 1 && Kind(ts, p) == NULL_LITERAL
    case BooleanLiteral(value) => q == p + 1 && Kind(ts, p) == BOOLEAN_LITERAL && (value <==> Text(ts, p) == "TRUE")
    case IntegerLiteral(text) => q == p + 1 && Kind(ts, p) == INTEGER_LITERAL && text == Text(ts, p)
    case FloatLiteral(text) => q == p + 1 && Kind(ts, p) == FLOAT_LITERAL && text == Text(ts, p)
    case StringLiteral(text) => q == p + 1 && Kind(ts, p) == STRING_LITERAL && text == Text(ts, p)
    case StarExpr => q == p + 1 && Kind(ts, p) == STAR
    case ColumnRef(column, None) => q == p + 1 && IsName(Kind(ts, p)) && column == Text(ts, p)
    case ColumnRef(column, Some(table)) =>
      q == p + 3 && IsName(Kind(ts, p)) && Kind(ts, p + 1) == DOT && table == Text(ts, p) && column == Text(ts, p + 2)
    case FunctionCall(name, args, distinct) =>
      && p + 2 < q && IsName(Kind(ts, p)) && name == Text(ts, p)
      && Kind(ts, p + 1) == LPAREN && Kind(ts, q - 1) == RPAREN
      && if args == [] then !distinct && q == p + 3
         else if distinct then Kind(ts, p + 2) == DISTINCT && DerivesList(ts, p + 3, q - 1, args)
         else DerivesList(ts, p + 2, q - 1, args)
    case _ => false
  }

  // ----- What may come first, and what must not follow -----

  /** Tokens that no expression begins with. */
  predicate NeverFirst(k: TokenType) {
    k == SELECT || k == RPAREN || k == DISTINCT || k == EOF
  }

  lemma {:induction false} FirstDerived(ts: seq<Token>, p: nat, q: nat, lv: Level, e: Expr)
    requires Lexed(ts) && Derives(ts, p, q, lv, e)
    ensures !NeverFirst(Kind(ts, p)) && (lv >= COMPARISON_LEVEL ==> Kind(ts, p) != T_NOT)
    ensures lv >= PRIMARY_LEVEL ==> Kind(ts, p) != MINUS
    decreases Length(p, q), 9 - lv
  {
    if lv < PRIMARY_LEVEL && Derives(ts, p, q, lv + 1, e) {
      FirstDerived(ts, p, q, lv + 1, e);
    } else if lv == COMPARISON_LEVEL {
      assert DerivesComparison(ts, p, q, e);
      var m :| p < m < q && Derives(ts, p, m, ADDITION_LEVEL, LeftOf(e)) && DerivesSuffix(ts, m, q, e);
      FirstDerived(ts, p, m, ADDITION_LEVEL, LeftOf(e));
    } else if IsChain(lv) {
      assert DerivesChain(ts, p, q, lv, e);
      var m :| p < m < q && IsOperator(ts, m, lv, e.op) && Derives(ts, p, m, lv, e.left);
      FirstDerived(ts, p, m, lv, e.left);
    } else if lv == PRIMARY_LEVEL && !DerivesBrackets(ts, p, q, e) {
      assert DerivesPrimary(ts, p, q, e);
    }
  }

  lemma FirstListed(ts: seq<Token>, p: nat, q: nat, es: seq<Expr>)
    requires Lexed(ts) && DerivesList(ts, p, q, es)
    ensures !NeverFirst(Kind(ts, p))
  {
    if |es| == 1 {
      FirstDerived(ts, p, q, OR_LEVEL, es[0]);
    } else {
      var m :| p < m < q && Derives(ts, p, m, OR_LEVEL, es[0]);
      FirstDerived(ts, p, m, OR_LEVEL, es[0]);
    }
  }

  /** The token at q takes no expression of level lv any further. */
  predicate Stops(ts: seq<Token>, q: nat, lv: Level)
    requires Lexed(ts)
  {
    var k := Kind(ts, q);
    && k != LPAREN && k != DOT
    && (forall n: Level :: lv <= n ==> ChainOp(n, k).None?)
    && (lv <= COMPARISON_LEVEL ==>
          k != IS && !Negatable(k) && ComparisonOp(k).None? && !(k == T_NOT && Negatable(Kind(ts, q + 1))))
  }

  /** Tokens that end every operand of an addition or a comparison. */
  predicate EndsOperand(k: TokenType) {
    k == IS || k == T_NOT || Negatable(k) || k == T_AND || ComparisonOp(k).Some?
  }

  lemma OperandStops(ts: seq<Token>, q: nat)
    requires Lexed(ts) && EndsOperand(Kind(ts, q))
    ensures Stops(ts, q, ADDITION_LEVEL)
  {
  }

  lemma OpStops(ts: seq<Token>, q: nat, op: BinaryOpType)
    requires Lexed(ts) && IsChain(OpLevel(op)) && Kind(ts, q) == OpToken(op).kind
    ensures Stops(ts, q, OpLevel(op) + 1) && ChainOp(OpLevel(op), Kind(ts, q)) == Some(op)
  {
  }

  lemma StopsHigher(ts: seq<Token>, q: nat, lv: Level, higher: Level)
    requires Lexed(ts) && Stops(ts, q, lv) && lv <= higher
    ensures Stops(ts, q, higher)
  {
  }

  lemma CloserStops(ts: seq<Token>, q: nat, lv: Level)
    requires Lexed(ts) && (Kind(ts, q) == RPAREN || Kind(ts, q) == COMMA || Kind(ts, q) == EOF)
    ensures Stops(ts, q, lv)
  {
  }

  // ----- The rules of the grammar, one at a time -----

  /** An operand of the next level, where nothing follows that this level could use. */
  lemma Descends(ts: seq<Token>, p: nat, lv: Level, e: Expr, q: nat)
    requires Lexed(ts) && p <= |ts| && lv < PRIMARY_LEVEL && Parse(ts, p, lv + 1) == Ok(e, q) && Stops(ts, q, lv)
    requires (lv == NOT_LEVEL ==> Kind(ts, p) != T_NOT) && (lv == UNARY_LEVEL ==> Kind(ts, p) != MINUS)
    ensures Parse(ts, p, lv) == Ok(e, q)
  {
    if IsChain(lv) { ChainStarts(ts, p, lv, e, q); ChainEnds(ts, q, lv, e); }
    if lv == COMPARISON_LEVEL { assert ParseSuffix(ts, q, e) == ParseRelation(ts, q, e, false); }
  }

  lemma ChainStarts(ts: seq<Token>, p: nat, lv: Level, e: Expr, q: nat)
    requires Lexed(ts) && p <= |ts| && IsChain(lv) && Parse(ts, p, lv + 1) == Ok(e, q)
    ensures Parse(ts, p, lv) == ParseChain(ts, q, lv, e)
  {
  }

  lemma ChainGoesOn(ts: seq<Token>, p: nat, lv: Level, left: Expr, op: BinaryOpType, right: Expr, q: nat)
    requires Lexed(ts) && p < |ts| && IsChain(lv) && ChainOp(lv, Kind(ts, p)) == Some(op)
    requires Parse(ts, p + 1, lv + 1) == Ok(right, q)
    ensures ParseChain(ts, p, lv, left) == ParseChain(ts, q, lv, BinaryOp(op, left, right))
  {
  }

  lemma ChainEnds(ts: seq<Token>, p: nat, lv: Level, left: Expr)
    requires Lexed(ts) && p <= |ts| && IsChain(lv) && Stops(ts, p, lv)
    ensures ParseChain(ts, p, lv, left) == Ok(left, p)
  {
  }

  lemma Prefixed(ts: seq<Token>, p: nat, lv: Level, e: Expr, q: nat)
    requires Lexed(ts) && p < |ts| && Parse(ts, p + 1, lv) == Ok(e, q)
    ensures lv == NOT_LEVEL && Kind(ts, p) == T_NOT ==> Parse(ts, p, lv) == Ok(Not(e), q)
    ensures lv == UNARY_LEVEL && Kind(ts, p) == MINUS ==> Parse(ts, p, lv) == Ok(Negate(e), q)
  {
  }

  lemma Bracketed(ts: seq<Token>, p: nat, e: Expr, q: nat)
    requires Lexed(ts) && p < |ts| && Kind(ts, p) == LPAREN && Kind(ts, p + 1) != SELECT
    requires Parse(ts, p + 1, OR_LEVEL) == Ok(e, q) && Kind(ts, q) == RPAREN
    ensures Parse(ts, p, PRIMARY_LEVEL) == Ok(e, q + 1)
  {
    assert Parse(ts, p, PRIMARY_LEVEL) == ParsePrimary(ts, p);
  }

  lemma ListGoesOn(ts: seq<Token>, p: nat, before: seq<Expr>, e: Expr, q: nat)
    requires Lexed(ts) && p <= |ts| && Parse(ts, p, OR_LEVEL) == Ok(e, q)
    ensures Kind(ts, q) == COMMA ==> ParseList(ts, p, before) == ParseList(ts, q + 1, before + [e])
    ensures Kind(ts, q) != COMMA ==> ParseList(ts, p, before) == Ok(before + [e], q)
  {
  }

  lemma Compared(ts: seq<Token>, p: nat, left: Expr, q: nat)
    requires Lexed(ts) && p <= |ts| && Parse(ts, p, ADDITION_LEVEL) == Ok(left, q)
    ensures Parse(ts, p, COMPARISON_LEVEL) == ParseSuffix(ts, q, left)
  {
  }

  lemma SuffixIs(ts: seq<Token>, p: nat, left: Expr, negated: bool)
    requires Lexed(ts) && p < |ts| && Kind(ts, p) != IS
    requires if negated then Kind(ts, p) == T_NOT && Negatable(Kind(ts, p + 1)) else Kind(ts, p) != T_NOT
    ensures ParseSuffix(ts, p, left) == ParseRelation(ts, if negated then p + 1 else p, left, negated)
  {
  }

  lemma RelationIs(ts: seq<Token>, p: nat, left: Expr, negated: bool, right: Expr, q: nat)
    requires Lexed(ts) && p < |ts| && Parse(ts, p + 1, ADDITION_LEVEL) == Ok(right, q)
    ensures Kind(ts, p) == LIKE ==> ParseRelation(ts, p, left, negated) == Ok(LikeExpr(left, right, negated), q)
    ensures ComparisonOp(Kind(ts, p)).Some? ==>
      ParseRelation(ts, p, left, negated) == Ok(BinaryOp(ComparisonOp(Kind(ts, p)).value, left, right), q)
  {
  }

  lemma BetweenIs(ts: seq<Token>, p: nat, left: Expr, negated: bool, low: Expr, q: nat, high: Expr, q': nat)
    requires Lexed(ts) && p < |ts| && Kind(ts, p) == BETWEEN && Parse(ts, p + 1, ADDITION_LEVEL) == Ok(low, q)
    requires q < |ts| && Kind(ts, q) == T_AND && Parse(ts, q + 1, ADDITION_LEVEL) == Ok(high, q')
    ensures ParseRelation(ts, p, left, negated) == Ok(BetweenExpr(left, low, high, negated), q')
  {
  }

  lemma InIs(ts: seq<Token>, p: nat, left: Expr, negated: bool, values: seq<Expr>, q: nat)
    requires Lexed(ts) && p + 1 < |ts| && Kind(ts, p) == IN && Kind(ts, p + 1) == LPAREN && Kind(ts, p + 2) != SELECT
    requires ParseList(ts, p + 2, []) == Ok(values, q) && Kind(ts, q) == RPAREN
    ensures ParseRelation(ts, p, left, negated) == Ok(InExpr(left, values, negated), q + 1)
  {
  }

  lemma CallIs(ts: seq<Token>, p: nat, args: seq<Expr>, distinct: bool, q: nat)
    requires Lexed(ts) && p + 2 < |ts| && IsName(Kind(ts, p)) && Kind(ts, p + 1) == LPAREN
    requires Kind(ts, p + 2) != RPAREN
    requires distinct <==> Kind(ts, p + 2) == DISTINCT
    requires p + 3 <= |ts| && ParseList(ts, if distinct then p + 3 else p + 2, []) == Ok(args, q)
    requires Kind(ts, q) == RPAREN
    ensures Parse(ts, p, PRIMARY_LEVEL) == Ok(FunctionCall(Text(ts, p), args, distinct), q + 1)
  {
    assert Parse(ts, p, PRIMARY_LEVEL) == ParsePrimary(ts, p) == ParseName(ts, p);
  }

  lemma NoArguments(ts: seq<Token>, p: nat)
    requires Lexed(ts) && p + 2 < |ts| && IsName(Kind(ts, p)) && Kind(ts, p + 1) == LPAREN
    requires Kind(ts, p + 2) == RPAREN
    ensures Parse(ts, p, PRIMARY_LEVEL) == Ok(FunctionCall(Text(ts, p), [], false), p + 3)
  {
    assert Parse(ts, p, PRIMARY_LEVEL) == ParsePrimary(ts, p) == ParseName(ts, p);
  }

  // ----- What the grammar derives the parser accepts -----

  lemma {:induction false} DerivedParses(ts: seq<Token>, p: nat, q: nat, lv: Level, e: Expr)
    requires Lexed(ts) && Derives(ts, p, q, lv, e) && Stops(ts, q, lv)
    ensures Parse(ts, p, lv) == Ok(e, q)
    decreases q - p, 9 - lv, 2
  {
    hide Parse, ParseChain, ParseSuffix, ParseRelation, ParseList, ParsePrimary, ParseName, Stops, DerivesPrimary,
      DerivesBrackets, DerivesComparison, DerivesChain;
    if lv < PRIMARY_LEVEL { StopsHigher(ts, q, lv, lv + 1); }
    if lv < PRIMARY_LEVEL && Derives(ts, p, q, lv + 1, e) {
      DerivedParses(ts, p, q, lv + 1, e);
      FirstDerived(ts, p, q, lv + 1, e);
      Descends(ts, p, lv, e, q);
    } else if IsChain(lv) {
      DerivedChain(ts, p, q, lv, e);
      ChainEnds(ts, q, lv, e);
    } else if lv == COMPARISON_LEVEL {
      DerivedComparison(ts, p, q, e);
    } else if lv == PRIMARY_LEVEL {
      if DerivesBrackets(ts, p, q, e) { DerivedBrackets(ts, p, q, e); } else { DerivedPrimary(ts, p, q, e); }
    } else {
      DerivedParses(ts, p + 1, q, lv, e.operand);
      Prefixed(ts, p, lv, e.operand, q);
    }
  }

  /** A chain is parsed up to its last operand at least, whatever follows. */
  lemma {:induction false} DerivedChain(ts: seq<Token>, p: nat, q: nat, lv: Level, e: Expr)
    requires Lexed(ts) && IsChain(lv) && Derives(ts, p, q, lv, e) && Stops(ts, q, lv + 1)
    ensures Parse(ts, p, lv) == ParseChain(ts, q, lv, e)
    decreases q - p, 9 - lv, 1
  {
    hide Parse, ParseChain, ParseSuffix, ParseRelation, ParseList, ParsePrimary, ParseName, Stops, Kind, ChainOp;
    if Derives(ts, p, q, lv + 1, e) {
      DerivedParses(ts, p, q, lv + 1, e);
      ChainStarts(ts, p, lv, e, q);
    } else {
      var m :| p < m < q && IsOperator(ts, m, lv, e.op)
        && Derives(ts, p, m, lv, e.left) && Derives(ts, m + 1, q, lv + 1, e.right);
      OperatorStops(ts, m, lv, e.op);
      DerivedChain(ts, p, m, lv, e.left);
      DerivedParses(ts, m + 1, q, lv + 1, e.right);
      ChainGoesOn(ts, m, lv, e.left, e.op, e.right, q);
    }
  }

  lemma OperatorStops(ts: seq<Token>, m: nat, lv: Level, op: BinaryOpType)
    requires Lexed(ts) && IsChain(lv) && IsOperator(ts, m, lv, op)
    ensures Stops(ts, m, lv + 1)
  {
  }

  lemma {:induction false} DerivedBrackets(ts: seq<Token>, p: nat, q: nat, e: Expr)
    requires Lexed(ts) && p < q <= |ts| && DerivesBrackets(ts, p, q, e)
    ensures Parse(ts, p, PRIMARY_LEVEL) == Ok(e, q)
    decreases q - p, 1, 0
  {
    hide Parse, ParseChain, ParseSuffix, ParseRelation, ParseList, ParsePrimary, ParseName, Stops, Derives;
    FirstDerived(ts, p + 1, q - 1, OR_LEVEL, e);
    CloserStops(ts, q - 1, OR_LEVEL);
    DerivedParses(ts, p + 1, q - 1, OR_LEVEL, e);
    Bracketed(ts, p, e, q - 1);
  }

  lemma {:induction false} DerivedList(ts: seq<Token>, p: nat, q: nat, es: seq<Expr>, before: seq<Expr>)
    requires Lexed(ts) && DerivesList(ts, p, q, es) && Kind(ts, q) == RPAREN
    ensures ParseList(ts, p, before) == Ok(before + es, q)
    decreases q - p, 10, 0
  {
    hide Parse, ParseChain, ParseSuffix, ParseRelation, ParseList, ParsePrimary, ParseName, Stops, Derives, Kind;
    if |es| == 1 {
      CloserStops(ts, q, OR_LEVEL);
      DerivedParses(ts, p, q, OR_LEVEL, es[0]);
      ListGoesOn(ts, p, before, es[0], q);
      assert es == [es[0]];
    } else {
      var m :| p < m < q && Kind(ts, m) == COMMA
        && Derives(ts, p, m, OR_LEVEL, es[0]) && DerivesList(ts, m + 1, q, es[1..]);
      CloserStops(ts, m, OR_LEVEL);
      DerivedParses(ts, p, m, OR_LEVEL, es[0]);
      ListGoesOn(ts, p, before, es[0], m);
      DerivedList(ts, m + 1, q, es[1..], before + [es[0]]);
      assert before + [es[0]] + es[1..] == before + es;
    }
  }

  lemma {:induction false} DerivedComparison(ts: seq<Token>, p: nat, q: nat, e: Expr)
    requires Lexed(ts) && p < q <= |ts| && DerivesComparison(ts, p, q, e) && Stops(ts, q, COMPARISON_LEVEL)
    ensures Parse(ts, p, COMPARISON_LEVEL) == Ok(e, q)
    decreases q - p, 6, 1
  {
    hide Parse, ParseChain, ParseSuffix, ParseRelation, ParseList, ParsePrimary, ParseName, Stops, Derives,
      DerivesSuffix;
    var m :| p < m < q && Derives(ts, p, m, ADDITION_LEVEL, LeftOf(e)) && DerivesSuffix(ts, m, q, e);
    SuffixEnds(ts, m, q, e);
    OperandStops(ts, m);
    DerivedParses(ts, p, m, ADDITION_LEVEL, LeftOf(e));
    Compared(ts, p, LeftOf(e), m);
    DerivedSuffix(ts, m, q, e);
  }

  lemma SuffixEnds(ts: seq<Token>, m: nat, q: nat, e: Expr)
    requires Lexed(ts) && m < q <= |ts| && LevelOf(e) == COMPARISON_LEVEL && DerivesSuffix(ts, m, q, e)
    ensures EndsOperand(Kind(ts, m))
  {
  }

  lemma {:induction false} DerivedSuffix(ts: seq<Token>, m: nat, q: nat, e: Expr)
    requires Lexed(ts) && m < q <= |ts| && LevelOf(e) == COMPARISON_LEVEL
    requires DerivesSuffix(ts, m, q, e) && Stops(ts, q, COMPARISON_LEVEL)
    ensures ParseSuffix(ts, m, LeftOf(e)) == Ok(e, q)
    decreases q - m, 10, 2
  {
    hide Parse, ParseChain, ParseRelation, ParseList, ParsePrimary, ParseName, Stops, Derives;
    if e.BinaryOp? {
      StopsHigher(ts, q, COMPARISON_LEVEL, ADDITION_LEVEL);
      DerivedParses(ts, m + 1, q, ADDITION_LEVEL, e.right);
      SuffixIs(ts, m, e.left, false);
      RelationIs(ts, m, e.left, false, e.right, q);
    } else if !e.IsNullExpr? {
      var k := if e.negated then m + 1 else m;
      DerivedRelation(ts, k, q, e);
      SuffixIs(ts, m, e.expr, e.negated);
    }
  }

  lemma {:induction false} DerivedRelation(ts: seq<Token>, m: nat, q: nat, e: Expr)
    requires Lexed(ts) && m < q <= |ts| && (e.BetweenExpr? || e.InExpr? || e.LikeExpr?)
    requires DerivesRelation(ts, m, q, e) && Stops(ts, q, COMPARISON_LEVEL)
    ensures Negatable(Kind(ts, m)) && ParseRelation(ts, m, e.expr, e.negated) == Ok(e, q)
    decreases q - m, 10, 1
  {
    hide Parse, ParseChain, ParseSuffix, ParseRelation, ParseList, ParsePrimary, ParseName, Stops, Derives, DerivesList;
    StopsHigher(ts, q, COMPARISON_LEVEL, ADDITION_LEVEL);
    match e
    case BetweenExpr(x, low, high, negated) =>
      var k :| m < k < q && Kind(ts, k) == T_AND
        && Derives(ts, m + 1, k, ADDITION_LEVEL, low) && Derives(ts, k + 1, q, ADDITION_LEVEL, high);
      OperandStops(ts, k);
      DerivedParses(ts, m + 1, k, ADDITION_LEVEL, low);
      DerivedParses(ts, k + 1, q, ADDITION_LEVEL, high);
      BetweenIs(ts, m, x, negated, low, k, high, q);
    case InExpr(x, values, negated) =>
      ListInside(ts, m + 2, q - 1, values);
      DerivedList(ts, m + 2, q - 1, values, []);
      assert [] + values == values;
      InIs(ts, m, x, negated, values, q - 1);
    case LikeExpr(x, pattern, negated) =>
      DerivedParses(ts, m + 1, q, ADDITION_LEVEL, pattern);
      RelationIs(ts, m, x, negated, pattern, q);
  }

  lemma ListInside(ts: seq<Token>, p: nat, q: nat, es: seq<Expr>)
    requires Lexed(ts) && DerivesList(ts, p, q, es)
    ensures p < q <= |ts| && es != [] && !NeverFirst(Kind(ts, p))
  {
    FirstListed(ts, p, q, es);
  }

  lemma {:induction false} DerivedPrimary(ts: seq<Token>, p: nat, q: nat, e: Expr)
    requires Lexed(ts) && p < q <= |ts| && DerivesPrimary(ts, p, q, e) && Stops(ts, q, PRIMARY_LEVEL)
    ensures Parse(ts, p, PRIMARY_LEVEL) == Ok(e, q)
    decreases q - p, 1, 0
  {
    hide ParseChain, ParseSuffix, ParseRelation, ParseList, DerivesList;
    if e.FunctionCall? {
      DerivedCall(ts, p, q, e);
    } else {
      assert Parse(ts, p, PRIMARY_LEVEL) == ParsePrimary(ts, p);
      if e.ColumnRef? { assert ParsePrimary(ts, p) == ParseName(ts, p); }
    }
  }

  lemma {:induction false} DerivedCall(ts: seq<Token>, p: nat, q: nat, e: Expr)
    requires Lexed(ts) && p < q <= |ts| && e.FunctionCall? && DerivesPrimary(ts, p, q, e)
    ensures Parse(ts, p, PRIMARY_LEVEL) == Ok(e, q)
    decreases q - p, 0, 0
  {
    hide Parse, ParseChain, ParseSuffix, ParseRelation, ParseList, ParsePrimary, ParseName, DerivesList;
    if e.args == [] {
      NoArguments(ts, p);
    } else {
      var from := if e.distinct then p + 3 else p + 2;
      ListInside(ts, from, q - 1, e.args);
      DerivedList(ts, from, q - 1, e.args, []);
      assert [] + e.args == e.args;
      CallIs(ts, p, e.args, e.distinct, q - 1);
    }
  }

  // ----- What the parser accepts the grammar derives -----

  lemma {:induction false} ParsedDerives(ts: seq<Token>, p: nat, lv: Level)
    requires Lexed(ts) && p <= |ts|
    ensures var r := Parse(ts, p, lv); r.Ok? ==> Derives(ts, p, r.next, lv, r.value)
    decreases |ts| - p, 8 - lv, 1
  {
    hide ParseChain, ParseSuffix, ParseRelation, ParseList, ParsePrimary, ParseName, DerivesPrimary, DerivesBrackets,
      DerivesComparison, DerivesChain;
    if lv == PRIMARY_LEVEL {
      PrimaryDerives(ts, p);
    } else if lv == UNARY_LEVEL || lv == NOT_LEVEL {
      if Kind(ts, p) == (if lv == UNARY_LEVEL then MINUS else T_NOT) {
        ParsedDerives(ts, p + 1, lv);
      } else {
        ParsedDerives(ts, p, lv + 1);
      }
    } else {
      ParsedDerives(ts, p, lv + 1);
      var r := Parse(ts, p, lv + 1);
      if r.Ok? {
        if lv == COMPARISON_LEVEL {
          SuffixDerives(ts, p, r.next, r.value);
        } else {
          ChainDerives(ts, p, r.next, lv, r.value);
        }
      }
    }
  }

  /** The chain read so far, and what is read after it. */
  lemma {:induction false} ChainDerives(ts: seq<Token>, p: nat, m: nat, lv: Level, left: Expr)
    requires Lexed(ts) && p < m && IsChain(lv) && Derives(ts, p, m, lv, left)
    ensures var r := ParseChain(ts, m, lv, left); r.Ok? ==> Derives(ts, p, r.next, lv, r.value)
    decreases |ts| - m, 0, 0
  {
    hide Parse, ParseSuffix, ParseRelation, ParseList, ParsePrimary, ParseName;
    var op := ChainOp(lv, Kind(ts, m));
    if op.Some? {
      ParsedDerives(ts, m + 1, lv + 1);
      var r := Parse(ts, m + 1, lv + 1);
      if r.Ok? {
        ChainGrows(ts, p, m, r.next, lv, op.value, left, r.value);
        ChainDerives(ts, p, r.next, lv, BinaryOp(op.value, left, r.value));
      }
    }
  }

  lemma ChainGrows(ts: seq<Token>, p: nat, m: nat, q: nat, lv: Level, op: BinaryOpType, left: Expr, right: Expr)
    requires Lexed(ts) && p < m < q <= |ts| && IsChain(lv) && ChainOp(lv, Kind(ts, m)) == Some(op)
    requires Derives(ts, p, m, lv, left) && Derives(ts, m + 1, q, lv + 1, right)
    ensures Derives(ts, p, q, lv, BinaryOp(op, left, right))
  {
    assert IsOperator(ts, m, lv, op);
    assert DerivesChain(ts, p, q, lv, BinaryOp(op, left, right));
  }

  lemma {:induction false} SuffixDerives(ts: seq<Token>, p: nat, m: nat, left: Expr)
    requires Lexed(ts) && p < m <= |ts| && Derives(ts, p, m, ADDITION_LEVEL, left)
    ensures var r := ParseSuffix(ts, m, left); r.Ok? ==> Derives(ts, p, r.next, COMPARISON_LEVEL, r.value)
    decreases |ts| - m, 0, 2
  {
    hide Parse, ParseChain, ParseRelation, ParseList, ParsePrimary, ParseName, Derives, DerivesRelation;
    var r := ParseSuffix(ts, m, left);
    if r.Ok? {
      if Kind(ts, m) == IS {
        assert DerivesSuffix(ts, m, r.next, r.value);
        ComparisonDerives(ts, p, m, r.next, r.value);
      } else {
        var negated := Kind(ts, m) == T_NOT && Negatable(Kind(ts, m + 1));
        var k := if negated then m + 1 else m;
        RelationDerives(ts, k, left, negated);
        if r.value == left && r.next == k {
          OperandIs(ts, p, m, left);
        } else {
          assert DerivesSuffix(ts, m, r.next, r.value);
          ComparisonDerives(ts, p, m, r.next, r.value);
        }
      }
    }
  }

  lemma ComparisonDerives(ts: seq<Token>, p: nat, m: nat, q: nat, e: Expr)
    requires Lexed(ts) && p < m < q <= |ts| && LevelOf(e) == COMPARISON_LEVEL
    requires Derives(ts, p, m, ADDITION_LEVEL, LeftOf(e)) && DerivesSuffix(ts, m, q, e)
    ensures Derives(ts, p, q, COMPARISON_LEVEL, e)
  {
    assert DerivesComparison(ts, p, q, e);
  }

  lemma OperandIs(ts: seq<Token>, p: nat, q: nat, e: Expr)
    requires Lexed(ts) && Derives(ts, p, q, ADDITION_LEVEL, e)
    ensures Derives(ts, p, q, COMPARISON_LEVEL, e)
  {
  }

  /** Either nothing more was read, or a comparison of `left` from position m on. */
  lemma {:induction false} RelationDerives(ts: seq<Token>, m: nat, left: Expr, negated: bool)
    requires Lexed(ts) && m <= |ts| && (negated ==> Negatable(Kind(ts, m)))
    ensures var r := ParseRelation(ts, m, left, negated);
      r.Ok? ==>
        || (r == Ok(left, m) && !negated)
        || (&& m < r.next && LevelOf(r.value) == COMPARISON_LEVEL && !r.value.IsNullExpr? && LeftOf(r.value) == left
            && if r.value.BinaryOp? then !negated && DerivesSuffix(ts, m, r.next, r.value)
               else r.value.negated == negated && DerivesRelation(ts, m, r.next, r.value))
    decreases |ts| - m, 0, 1
  {
    hide ParseRelation, DerivesRelation, DerivesSuffix;
    if Kind(ts, m) == IN {
      InDerives(ts, m, left, negated);
    } else if Kind(ts, m) == BETWEEN {
      BetweenDerives(ts, m, left, negated);
    } else if Kind(ts, m) == LIKE || ComparisonOp(Kind(ts, m)).Some? {
      OperandDerives(ts, m, left, negated);
    } else {
      NoRelation(ts, m, left, negated);
    }
  }

  lemma NoRelation(ts: seq<Token>, m: nat, left: Expr, negated: bool)
    requires Lexed(ts) && m <= |ts| && !Negatable(Kind(ts, m)) && ComparisonOp(Kind(ts, m)).None?
    ensures ParseRelation(ts, m, left, negated) == Ok(left, m)
  {
  }

  lemma {:induction false} OperandDerives(ts: seq<Token>, m: nat, left: Expr, negated: bool)
    requires Lexed(ts) && m <= |ts| && (Kind(ts, m) == LIKE || (ComparisonOp(Kind(ts, m)).Some? && !negated))
    ensures var r := ParseRelation(ts, m, left, negated);
      r.Ok? ==>
        && m < r.next && LevelOf(r.value) == COMPARISON_LEVEL && LeftOf(r.value) == left
        && if Kind(ts, m) != LIKE then r.value.BinaryOp? && DerivesSuffix(ts, m, r.next, r.value)
           else r.value.LikeExpr? && r.value.negated == negated && DerivesRelation(ts, m, r.next, r.value)
    decreases |ts| - m, 0, 0
  {
    hide Parse, ParseChain, ParseSuffix, ParseList, ParsePrimary, ParseName, Derives, DerivesList;
    ParsedDerives(ts, m + 1, ADDITION_LEVEL);
  }

  lemma {:induction false} InDerives(ts: seq<Token>, m: nat, left: Expr, negated: bool)
    requires Lexed(ts) && m <= |ts| && Kind(ts, m) == IN
    ensures var r := ParseRelation(ts, m, left, negated);
      r.Ok? ==>
        && m < r.next && r.value.InExpr? && r.value.expr == left && r.value.negated == negated
        && DerivesRelation(ts, m, r.next, r.value)
    decreases |ts| - m, 0, 0
  {
    hide Parse, ParseChain, ParseSuffix, ParseList, ParsePrimary, ParseName, Derives, DerivesList;
    if Kind(ts, m + 1) == LPAREN {
      ListDerives(ts, m + 2, []);
      var r := ParseList(ts, m + 2, []);
      if r.Ok? { assert r.value[0..] == r.value; }
    }
  }

  lemma {:induction false} BetweenDerives(ts: seq<Token>, m: nat, left: Expr, negated: bool)
    requires Lexed(ts) && m <= |ts| && Kind(ts, m) == BETWEEN
    ensures var r := ParseRelation(ts, m, left, negated);
      r.Ok? ==>
        && m < r.next && r.value.BetweenExpr? && r.value.expr == left && r.value.negated == negated
        && DerivesRelation(ts, m, r.next, r.value)
    decreases |ts| - m, 0, 0
  {
    hide Parse, ParseChain, ParseSuffix, ParseList, ParsePrimary, ParseName, Derives, DerivesList;
    ParsedDerives(ts, m + 1, ADDITION_LEVEL);
    var r := Parse(ts, m + 1, ADDITION_LEVEL);
    if r.Ok? && Kind(ts, r.next) == T_AND { ParsedDerives(ts, r.next + 1, ADDITION_LEVEL); }
  }

  lemma {:induction false} ListDerives(ts: seq<Token>, p: nat, before: seq<Expr>)
    requires Lexed(ts) && p <= |ts|
    ensures var r := ParseList(ts, p, before);
      r.Ok? ==> before <= r.value && DerivesList(ts, p, r.next, r.value[|before|..])
    decreases |ts| - p, 8, 2
  {
    hide Parse, ParseChain, ParseSuffix, ParseRelation, ParsePrimary, ParseName, Derives;
    ParsedDerives(ts, p, OR_LEVEL);
    var r := Parse(ts, p, OR_LEVEL);
    if r.Ok? {
      var e, m := r.value, r.next;
      if Kind(ts, m) == COMMA {
        ListDerives(ts, m + 1, before + [e]);
        var all := ParseList(ts, m + 1, before + [e]);
        if all.Ok? {
          var es := all.value[|before|..];
          assert es[0] == e && es[1..] == all.value[|before| + 1..];
          assert DerivesList(ts, p, all.next, es);
        }
      } else {
        assert (before + [e])[|before|..] == [e];
      }
    }
  }

  lemma {:induction false} PrimaryDerives(ts: seq<Token>, p: nat)
    requires Lexed(ts) && p <= |ts|
    ensures var r := Parse(ts, p, PRIMARY_LEVEL); r.Ok? ==> Derives(ts, p, r.next, PRIMARY_LEVEL, r.value)
    decreases |ts| - p, 0, 0
  {
    hide ParseChain, ParseSuffix, ParseRelation, ParseList, ParseName, DerivesList;
    var r := Parse(ts, p, PRIMARY_LEVEL);
    assert r == ParsePrimary(ts, p);
    if r.Ok? {
      if Kind(ts, p) == LPAREN {
        ParsedDerives(ts, p + 1, OR_LEVEL);
        assert DerivesBrackets(ts, p, r.next, r.value);
      } else if IsName(Kind(ts, p)) {
        NameDerives(ts, p);
        assert DerivesPrimary(ts, p, r.next, r.value);
      } else {
        assert DerivesPrimary(ts, p, r.next, r.value);
      }
    }
  }

  lemma {:induction false} NameDerives(ts: seq<Token>, p: nat)
    requires Lexed(ts) && p < |ts| && IsName(Kind(ts, p))
    ensures var r := ParseName(ts, p); r.Ok? ==> DerivesPrimary(ts, p, r.next, r.value)
    decreases |ts| - p - 1, 9, 0
  {
    hide Parse, ParseList, DerivesList;
    if Kind(ts, p + 1) == LPAREN && Kind(ts, p + 2) != RPAREN {
      var from := if Kind(ts, p + 2) == DISTINCT then p + 3 else p + 2;
      ListDerives(ts, from, []);
      var r := ParseList(ts, from, []);
      if r.Ok? {
        assert r.value[0..] == r.value;
        ListInside(ts, from, r.next, r.value);
      }
    }
  }

  // ----- Main results -----

  /**
    Up to a token that cannot go on with an expression the parser reads exactly what the grammar derives, with the
    tree that it derives.
  */
  lemma ParsesExactly(ts: seq<Token>, p: nat, q: nat, lv: Level, e: Expr)
    requires Lexed(ts) && p <= |ts| && Kind(ts, q) in {RPAREN, COMMA, EOF}
    ensures Parse(ts, p, lv) == Ok(e, q) <==> Derives(ts, p, q, lv, e)
  {
    hide Parse, Derives;
    ParsedDerives(ts, p, lv);
    CloserStops(ts, q, lv);
    if Derives(ts, p, q, lv, e) { DerivedParses(ts, p, q, lv, e); }
  }

  /** The grammar gives such a stretch of tokens one tree. */
  lemma DerivesOneTree(ts: seq<Token>, p: nat, q: nat, lv: Level, a: Expr, b: Expr)
    requires Lexed(ts) && Kind(ts, q) in {RPAREN, COMMA, EOF}
    requires Derives(ts, p, q, lv, a) && Derives(ts, p, q, lv, b)
    ensures a == b
  {
    hide Parse;
    ParsesExactly(ts, p, q, lv, a);
    ParsesExactly(ts, p, q, lv, b);
  }
}
