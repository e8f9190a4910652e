/** Printing: the minimally bracketed tokens of an expression are derived from it, so that parsing undoes printing. */
module ExprRoundTrip {
  import opened Common
  import opened ExprGrammar
  import opened ExprDerivations

  /** The tokens xs stand at position p, before the end mark. */
  predicate At(ts: seq<Token>, p: nat, xs: seq<Token>) {
    p + |xs| < |ts| && ts[p..p + |xs|] == xs
  }

  lemma AtSplit(ts: seq<Token>, p: nat, a: seq<Token>, b: seq<Token>)
    requires At(ts, p, a + b)
    ensures At(ts, p, a) && At(ts, p + |a|, b) && p + |a| + |b| < |ts|
  {
    assert ts[p..p + |a|] == (a + b)[..|a|] == a;
    assert ts[p + |a|..p + |a| + |b|] == (a + b)[|a|..] == b;
  }

  lemma AtToken(ts: seq<Token>, p: nat, t: Token, b: seq<Token>)
    requires Lexed(ts) && At(ts, p, [t] + b)
    ensures Kind(ts, p) == t.kind && Text(ts, p) == t.text && At(ts, p + 1, b) && p + 1 + |b| < |ts|
  {
    AtSplit(ts, p, [t], b);
    assert ts[p..p + 1][0] == ts[p];
  }

  lemma AtOne(ts: seq<Token>, p: nat, t: Token)
    requires Lexed(ts) && At(ts, p, [t])
    ensures Kind(ts, p) == t.kind && Text(ts, p) == t.text
  {
    assert [t] + [] == [t];
    AtToken(ts, p, t, []);
  }

  lemma AtBound(ts: seq<Token>, p: nat, xs: seq<Token>)
    requires At(ts, p, xs)
    ensures p + |xs| < |ts|
  {
  }

  // ----- What is printed is derived -----

  lemma {:induction false} PrintDerives(ts: seq<Token>, p: nat, e: Expr, lv: Level)
    requires Lexed(ts) && Buildable(e) && At(ts, p, Print(e, lv))
    ensures Derives(ts, p, p + |Print(e, lv)|, lv, e)
    decreases |Print(e, lv)|, 8 - lv, 1
  {
    hide Print, Bare, PrintList, At, Kind, Text, DerivesPrimary, DerivesBrackets, DerivesComparison, DerivesChain;
    AtBound(ts, p, Print(e, lv));
    if LevelOf(e) != lv && lv < PRIMARY_LEVEL {
      SamePrint(e, lv);
      PrintDerives(ts, p, e, lv + 1);
    } else if LevelOf(e) < lv {
      PrintedBrackets(ts, p, e);
    } else if IsChain(lv) {
      PrintedChain(ts, p, e, lv);
    } else if lv == COMPARISON_LEVEL {
      PrintedComparison(ts, p, e);
    } else if lv == PRIMARY_LEVEL {
      PrintedPrimary(ts, p, e);
    } else {
      var t, x := if e.Not? then Token(T_NOT, "NOT") else Token(MINUS, "-"), Print(e.operand, lv);
      PrintPrefixed(e);
      AtToken(ts, p, t, x);
      PrintDerives(ts, p + 1, e.operand, lv);
    }
  }

  /** Nothing but an expression of level lv itself is printed differently at lv and at the next level. */
  lemma SamePrint(e: Expr, lv: Level)
    requires LevelOf(e) != lv && lv < PRIMARY_LEVEL
    ensures Print(e, lv) == Print(e, lv + 1)
  {
  }

  lemma PrintPrefixed(e: Expr)
    requires e.Not? || e.Negate?
    ensures Print(e, LevelOf(e))
      == [if e.Not? then Token(T_NOT, "NOT") else Token(MINUS, "-")] + Print(e.operand, LevelOf(e))
  {
  }

  lemma Assoc(a: seq<Token>, b: seq<Token>, c: seq<Token>)
    ensures a + b + c == a + (b + c)
  {
  }

  lemma PrintChain(e: Expr)
    requires IsChain(LevelOf(e))
    ensures e.BinaryOp? && OpLevel(e.op) == LevelOf(e) && (Buildable(e) ==> Buildable(e.left) && Buildable(e.right))
    ensures Print(e, LevelOf(e)) == Print(e.left, LevelOf(e)) + ([OpToken(e.op)] + Print(e.right, LevelOf(e) + 1))
  {
    var l, r := Print(e.left, LevelOf(e)), Print(e.right, LevelOf(e) + 1);
    assert Print(e, LevelOf(e)) == Bare(e) == l + [OpToken(e.op)] + r;
    Assoc(l, [OpToken(e.op)], r);
  }

  lemma PrintBracketed(e: Expr)
    requires LevelOf(e) < PRIMARY_LEVEL
    ensures Print(e, PRIMARY_LEVEL) == [Token(LPAREN, "(")] + (Print(e, OR_LEVEL) + [Token(RPAREN, ")")])
  {
    assert Print(e, OR_LEVEL) == Bare(e);
    Assoc([Token(LPAREN, "(")], Bare(e), [Token(RPAREN, ")")]);
  }

  lemma BracketTokens(ts: seq<Token>, p: nat, xs: seq<Token>)
    requires Lexed(ts) && At(ts, p, [Token(LPAREN, "(")] + (xs + [Token(RPAREN, ")")]))
    ensures p + 2 + |xs| < |ts| && Kind(ts, p) == LPAREN && At(ts, p + 1, xs) && Kind(ts, p + 1 + |xs|) == RPAREN
  {
    hide At, Kind, Text, Lexed;
    var close := Token(RPAREN, ")");
    AtToken(ts, p, Token(LPAREN, "("), xs + [close]);
    AtSplit(ts, p + 1, xs, [close]);
    AtOne(ts, p + 1 + |xs|, close);
  }

  /** In brackets. */
  lemma {:induction false} PrintedBrackets(ts: seq<Token>, p: nat, e: Expr)
    requires Lexed(ts) && Buildable(e) && At(ts, p, Print(e, PRIMARY_LEVEL)) && LevelOf(e) < PRIMARY_LEVEL
    ensures Derives(ts, p, p + |Print(e, PRIMARY_LEVEL)|, PRIMARY_LEVEL, e)
    decreases |Print(e, PRIMARY_LEVEL)|, 0, 0
  {
    hide Print, Bare, PrintList, At, Kind, Text, DerivesPrimary;
    var bare := Print(e, OR_LEVEL);
    PrintBracketed(e);
    BracketTokens(ts, p, bare);
    PrintDerives(ts, p + 1, e, OR_LEVEL);
    assert DerivesBrackets(ts, p, p + 2 + |bare|, e);
  }

  lemma {:induction false} PrintedChain(ts: seq<Token>, p: nat, e: Expr, lv: Level)
    requires Lexed(ts) && Buildable(e) && IsChain(lv) && LevelOf(e) == lv && At(ts, p, Print(e, lv))
    ensures Derives(ts, p, p + |Print(e, lv)|, lv, e)
    decreases |Print(e, lv)|, 8 - lv, 0
  {
    hide Print, Bare, PrintList, At, Kind, Text, Derives, Buildable;
    PrintChain(e);
    var l, r, t := Print(e.left, lv), Print(e.right, lv + 1), OpToken(e.op);
    AtSplit(ts, p, l, [t] + r);
    var q := p + |l|;
    AtToken(ts, q, t, r);
    AtBound(ts, p, Print(e, lv));
    PrintNotEmpty(e.left, lv);
    PrintDerives(ts, p, e.left, lv);
    PrintNotEmpty(e.right, lv + 1);
    PrintDerives(ts, q + 1, e.right, lv + 1);
    ChainGrows(ts, p, q, q + 1 + |r|, lv, e.op, e.left, e.right);
  }

  lemma {:induction false} PrintNotEmpty(e: Expr, lv: Level)
    ensures Print(e, lv) != []
    decreases e
  {
    match e
    case BinaryOp(op, l, r) =>
    case _ =>
  }

  lemma PrintListed(es: seq<Expr>)
    requires es != []
    ensures PrintList(es)
      == Print(es[0], OR_LEVEL) + (if |es| == 1 then [] else [Token(COMMA, ",")] + PrintList(es[1..]))
  {
  }

  lemma {:induction false} PrintedList(ts: seq<Token>, p: nat, es: seq<Expr>)
    requires Lexed(ts) && es != [] && (forall i :: 0 <= i < |es| ==> Buildable(es[i]))
    requires At(ts, p, PrintList(es)) && Kind(ts, p + |PrintList(es)|) == RPAREN
    ensures DerivesList(ts, p, p + |PrintList(es)|, es)
    decreases |PrintList(es)|, 9, 0
  {
    hide Print, Bare, PrintList, At, Kind, Text, Derives;
    var x := Print(es[0], OR_LEVEL);
    ListTokens(ts, p, es);
    AtBound(ts, p, PrintList(es));
    PrintNotEmpty(es[0], OR_LEVEL);
    PrintDerives(ts, p, es[0], OR_LEVEL);
    if |es| > 1 { PrintedList(ts, p + |x| + 1, es[1..]); }
  }

  /** Where the first of a list and the rest of it stand. */
  lemma ListTokens(ts: seq<Token>, p: nat, es: seq<Expr>)
    requires Lexed(ts) && es != [] && At(ts, p, PrintList(es)) && Kind(ts, p + |PrintList(es)|) == RPAREN
    ensures var x, rest := Print(es[0], OR_LEVEL), PrintList(es[1..]);
      && At(ts, p, x) && p + |x| < |ts| && |x| <= |PrintList(es)|
      && (if |es| == 1 then PrintList(es) == x && Kind(ts, p + |x|) == RPAREN
          else
            Kind(ts, p + |x|) == COMMA && At(ts, p + |x| + 1, rest)
            && |PrintList(es)| == |x| + 1 + |rest| && p + |x| + 1 <= |ts|)
  {
    hide At, Kind, Text, Lexed, Print, PrintList;
    var x, comma := Print(es[0], OR_LEVEL), Token(COMMA, ",");
    AtBound(ts, p, PrintList(es));
    PrintListed(es);
    if |es| == 1 {
      assert x + [] == x;
    } else {
      AtSplit(ts, p, x, [comma] + PrintList(es[1..]));
      AtToken(ts, p + |x|, comma, PrintList(es[1..]));
    }
  }

  // ----- Comparisons and the forms that begin like one -----

  /** What is printed of a comparison after its left side and any NOT. */
  function Relation(e: Expr): seq<Token>
    requires LevelOf(e) == COMPARISON_LEVEL && !e.IsNullExpr?
  {
    match e
    case BinaryOp(op, l, r) => [OpToken(op)] + Print(r, ADDITION_LEVEL)
    case BetweenExpr(x, low, high, _) =>
      [Token(BETWEEN, "BETWEEN")] + (Print(low, ADDITION_LEVEL) + ([Token(T_AND, "AND")] + Print(high, ADDITION_LEVEL)))
    case InExpr(x, values, _) => [Token(IN, "IN")] + ([Token(LPAREN, "(")] + (PrintList(values) + [Token(RPAREN, ")")]))
    case LikeExpr(x, pattern, _) => [Token(LIKE, "LIKE")] + Print(pattern, ADDITION_LEVEL)
  }

  function IsNegated(e: Expr): bool
    requires LevelOf(e) == COMPARISON_LEVEL
  {
    if e.BinaryOp? then false else e.negated
  }

  function Suffix(e: Expr): seq<Token>
    requires LevelOf(e) == COMPARISON_LEVEL
  {
    if e.IsNullExpr? then [Token(IS, "IS")] + (NotIf(e.negated) + [Token(NULL_LITERAL, "NULL")])
    else NotIf(IsNegated(e)) + Relation(e)
  }

  lemma PrintSuffix(e: Expr)
    requires LevelOf(e) == COMPARISON_LEVEL
    ensures Print(e, COMPARISON_LEVEL) == Print(LeftOf(e), ADDITION_LEVEL) + Suffix(e)
  {
    var l := Print(LeftOf(e), ADDITION_LEVEL);
    assert Print(e, COMPARISON_LEVEL) == Bare(e);
    match e
    case BinaryOp(op, _, r) => Joined(l, [], [OpToken(op)], Print(r, ADDITION_LEVEL), [], []);
    case BetweenExpr(_, low, high, negated) =>
      Joined(l, NotIf(negated), [Token(BETWEEN, "BETWEEN")], Print(low, ADDITION_LEVEL), [Token(T_AND, "AND")],
        Print(high, ADDITION_LEVEL));
    case InExpr(_, values, negated) =>
      Joined(l, NotIf(negated), [Token(IN, "IN")], [Token(LPAREN, "(")], PrintList(values), [Token(RPAREN, ")")]);
      assert [Token(IN, "IN")] + [Token(LPAREN, "(")] == [Token(IN, "IN"), Token(LPAREN, "(")];
      assert l + NotIf(negated) + ([Token(IN, "IN")] + [Token(LPAREN, "(")])
        == l + NotIf(negated) + [Token(IN, "IN")] + [Token(LPAREN, "(")];
    case LikeExpr(_, pattern, negated) =>
      Joined(l, NotIf(negated), [Token(LIKE, "LIKE")], Print(pattern, ADDITION_LEVEL), [], []);
    case IsNullExpr(_, negated) => Joined(l, [Token(IS, "IS")], NotIf(negated), [Token(NULL_LITERAL, "NULL")], [], []);
  }

  lemma Joined(a: seq<Token>, b: seq<Token>, c: seq<Token>, d: seq<Token>, e: seq<Token>, f: seq<Token>)
    ensures a + b + c + d + e + f == a + (b + (c + (d + (e + f))))
    ensures a + b + c + d == a + (b + (c + d)) && a + [] + c + d == a + c + d && [] + (c + d) == c + d
  {
  }

  lemma {:induction false} PrintedComparison(ts: seq<Token>, p: nat, e: Expr)
    requires Lexed(ts) && Buildable(e) && LevelOf(e) == COMPARISON_LEVEL && At(ts, p, Print(e, COMPARISON_LEVEL))
    ensures Derives(ts, p, p + |Print(e, COMPARISON_LEVEL)|, COMPARISON_LEVEL, e)
    decreases |Print(e, COMPARISON_LEVEL)|, 5, 0
  {
    hide Print, Bare, PrintList, At, Kind, Text, Derives, DerivesSuffix, Suffix;
    var left := LeftOf(e);
    var l := Print(left, ADDITION_LEVEL);
    PrintSuffix(e);
    PrintNotEmpty(left, ADDITION_LEVEL);
    AtSplit(ts, p, l, Suffix(e));
    PrintDerives(ts, p, left, ADDITION_LEVEL);
    if e.IsNullExpr? { PrintedIsNull(ts, p + |l|, e); } else { PrintedSuffix(ts, p + |l|, e); }
    ComparisonDerives(ts, p, p + |l|, p + |l| + |Suffix(e)|, e);
  }

  lemma PrintedIsNull(ts: seq<Token>, q: nat, e: Expr)
    requires Lexed(ts) && e.IsNullExpr? && At(ts, q, Suffix(e))
    ensures Suffix(e) != [] && q + |Suffix(e)| <= |ts| && DerivesSuffix(ts, q, q + |Suffix(e)|, e)
  {
    IsNullTokens(ts, q, e.negated);
    AtBound(ts, q, Suffix(e));
    hide At;
  }

  lemma IsNullTokens(ts: seq<Token>, q: nat, negated: bool)
    requires Lexed(ts) && At(ts, q, [Token(IS, "IS")] + (NotIf(negated) + [Token(NULL_LITERAL, "NULL")]))
    ensures Kind(ts, q) == IS && q + 2 + |NotIf(negated)| < |ts| && Kind(ts, q + 1 + |NotIf(negated)|) == NULL_LITERAL
    ensures negated ==> Kind(ts, q + 1) == T_NOT
  {
    hide At, Kind, Text, Lexed;
    var end := Token(NULL_LITERAL, "NULL");
    AtToken(ts, q, Token(IS, "IS"), NotIf(negated) + [end]);
    AtSplit(ts, q + 1, NotIf(negated), [end]);
    AtOne(ts, q + 1 + |NotIf(negated)|, end);
    if negated { AtToken(ts, q + 1, Token(T_NOT, "NOT"), [end]); }
  }

  /** Where the parts of a suffix stand. */
  lemma SuffixTokens(ts: seq<Token>, q: nat, e: Expr)
    requires Lexed(ts) && LevelOf(e) == COMPARISON_LEVEL && !e.IsNullExpr? && At(ts, q, Suffix(e))
    ensures var p := q + |NotIf(IsNegated(e))|;
      && p + |Relation(e)| == q + |Suffix(e)| < |ts| && At(ts, p, Relation(e))
      && Relation(e) != [] && Kind(ts, p) == Relation(e)[0].kind && At(ts, p + 1, Relation(e)[1..])
      && (IsNegated(e) ==> Kind(ts, q) == T_NOT)
  {
    hide At, Kind, Text, Lexed, Relation;
    RelationFirst(e);
    AtSplit(ts, q, NotIf(IsNegated(e)), Relation(e));
    var p := q + |NotIf(IsNegated(e))|;
    assert Relation(e) == [Relation(e)[0]] + Relation(e)[1..];
    AtToken(ts, p, Relation(e)[0], Relation(e)[1..]);
    if IsNegated(e) { AtToken(ts, q, Token(T_NOT, "NOT"), Relation(e)); }
  }

  lemma RelationFirst(e: Expr)
    requires LevelOf(e) == COMPARISON_LEVEL && !e.IsNullExpr?
    ensures Relation(e) != [] && var k := Relation(e)[0].kind;
      && k != IS && k != T_NOT && (e.BinaryOp? <==> !Negatable(k)) && (e.BinaryOp? ==> ComparisonOp(k) == Some(e.op))
      && (e.LikeExpr? <==> k == LIKE) && (e.BinaryOp? ==> Relation(e)[1..] == Print(e.right, ADDITION_LEVEL))
      && (e.LikeExpr? ==> Relation(e)[1..] == Print(e.pattern, ADDITION_LEVEL))
  {
  }

  lemma {:induction false} PrintedSuffix(ts: seq<Token>, q: nat, e: Expr)
    requires Lexed(ts) && Buildable(e) && LevelOf(e) == COMPARISON_LEVEL && !e.IsNullExpr? && At(ts, q, Suffix(e))
    ensures Suffix(e) != [] && q + |Suffix(e)| <= |ts| && DerivesSuffix(ts, q, q + |Suffix(e)|, e)
    decreases |Suffix(e)|, 10, 1
  {
    hide Print, Relation, Suffix, Bare, PrintList, At, Kind, Text, Derives, DerivesRelation;
    var negated := IsNegated(e);
    var p := q + |NotIf(negated)|;
    SuffixTokens(ts, q, e);
    RelationFirst(e);
    if e.BinaryOp? {
      PrintDerives(ts, p + 1, e.right, ADDITION_LEVEL);
    } else {
      PrintedRelation(ts, p, e);
    }
  }

  lemma {:induction false} PrintedRelation(ts: seq<Token>, p: nat, e: Expr)
    requires Lexed(ts) && Buildable(e) && (e.BetweenExpr? || e.InExpr? || e.LikeExpr?) && At(ts, p, Relation(e))
    ensures Relation(e) != [] && p + |Relation(e)| < |ts| && DerivesRelation(ts, p, p + |Relation(e)|, e)
    decreases |Relation(e)|, 10, 0
  {
    hide Print, PrintList, Relation, At, Kind, Text, Derives, DerivesList, DerivesRelation;
    var q := p + |Relation(e)|;
    AtBound(ts, p, Relation(e));
    match e
    case BetweenExpr(_, lower, upper, _) =>
      var m := p + 1 + |Print(lower, ADDITION_LEVEL)|;
      BetweenTokens(ts, p, e);
      PrintDerives(ts, p + 1, lower, ADDITION_LEVEL);
      PrintDerives(ts, m + 1, upper, ADDITION_LEVEL);
      BetweenDerived(ts, p, m, q, e);
    case InExpr(_, values, _) =>
      InTokens(ts, p, e);
      PrintedList(ts, p + 2, values);
      InDerived(ts, p, q, e);
    case LikeExpr(_, pattern, _) =>
      LikeTokens(ts, p, e);
      PrintDerives(ts, p + 1, pattern, ADDITION_LEVEL);
      LikeDerived(ts, p, q, e);
  }

  lemma BetweenDerived(ts: seq<Token>, p: nat, m: nat, q: nat, e: Expr)
    requires Lexed(ts) && p + 1 < m < q - 1 && q <= |ts| && e.BetweenExpr? && Kind(ts, p) == BETWEEN
    requires Kind(ts, m) == T_AND
    requires Derives(ts, p + 1, m, ADDITION_LEVEL, e.low) && Derives(ts, m + 1, q, ADDITION_LEVEL, e.high)
    ensures DerivesRelation(ts, p, q, e)
  {
    hide Derives, Kind, Lexed;
  }

  lemma InDerived(ts: seq<Token>, p: nat, q: nat, e: Expr)
    requires Lexed(ts) && p + 2 < q <= |ts| && e.InExpr? && Kind(ts, p) == IN && Kind(ts, p + 1) == LPAREN
    requires Kind(ts, q - 1) == RPAREN && DerivesList(ts, p + 2, q - 1, e.values)
    ensures DerivesRelation(ts, p, q, e)
  {
    hide DerivesList, Kind, Lexed;
  }

  lemma LikeDerived(ts: seq<Token>, p: nat, q: nat, e: Expr)
    requires Lexed(ts) && p + 1 < q <= |ts| && e.LikeExpr? && Kind(ts, p) == LIKE
    requires Derives(ts, p + 1, q, ADDITION_LEVEL, e.pattern)
    ensures DerivesRelation(ts, p, q, e)
  {
    hide Derives, Kind, Lexed;
  }

  lemma LikeTokens(ts: seq<Token>, p: nat, e: Expr)
    requires Lexed(ts) && e.LikeExpr? && At(ts, p, Relation(e))
    ensures var pattern := Print(e.pattern, ADDITION_LEVEL);
      && p + |Relation(e)| == p + 1 + |pattern| && pattern != [] && Kind(ts, p) == LIKE && At(ts, p + 1, pattern)
  {
    hide Print, At, Kind, Text, Lexed;
    AtToken(ts, p, Token(LIKE, "LIKE"), Print(e.pattern, ADDITION_LEVEL));
    PrintNotEmpty(e.pattern, ADDITION_LEVEL);
  }

  lemma BetweenTokens(ts: seq<Token>, p: nat, e: Expr)
    requires Lexed(ts) && e.BetweenExpr? && At(ts, p, Relation(e))
    ensures var low, high := Print(e.low, ADDITION_LEVEL), Print(e.high, ADDITION_LEVEL);
      var m := p + 1 + |low|;
      && low != [] && high != [] && p + |Relation(e)| == m + 1 + |high|
      && Kind(ts, p) == BETWEEN && At(ts, p + 1, low) && Kind(ts, m) == T_AND && At(ts, m + 1, high)
  {
    hide Print, At, Kind, Text, Lexed;
    var low, high, and := Print(e.low, ADDITION_LEVEL), Print(e.high, ADDITION_LEVEL), Token(T_AND, "AND");
    AtToken(ts, p, Token(BETWEEN, "BETWEEN"), low + ([and] + high));
    AtSplit(ts, p + 1, low, [and] + high);
    AtToken(ts, p + 1 + |low|, and, high);
    PrintNotEmpty(e.low, ADDITION_LEVEL);
    PrintNotEmpty(e.high, ADDITION_LEVEL);
  }

  lemma InTokens(ts: seq<Token>, p: nat, e: Expr)
    requires Lexed(ts) && e.InExpr? && At(ts, p, Relation(e))
    ensures var list := PrintList(e.values);
      && p + |Relation(e)| == p + 3 + |list| && Kind(ts, p) == IN && Kind(ts, p + 1) == LPAREN
      && At(ts, p + 2, list) && Kind(ts, p + 2 + |list|) == RPAREN
  {
    hide Print, PrintList, At, Kind, Text, Lexed;
    var list, close := PrintList(e.values), Token(RPAREN, ")");
    AtToken(ts, p, Token(IN, "IN"), [Token(LPAREN, "(")] + (list + [close]));
    AtToken(ts, p + 1, Token(LPAREN, "("), list + [close]);
    AtSplit(ts, p + 2, list, [close]);
    AtOne(ts, p + 2 + |list|, close);
  }

  // ----- Primaries -----

  lemma {:induction false} PrintedPrimary(ts: seq<Token>, p: nat, e: Expr)
    requires Lexed(ts) && Buildable(e) && LevelOf(e) == PRIMARY_LEVEL && At(ts, p, Print(e, PRIMARY_LEVEL))
    ensures Derives(ts, p, p + |Print(e, PRIMARY_LEVEL)|, PRIMARY_LEVEL, e)
    decreases |Print(e, PRIMARY_LEVEL)|, 1, 0
  {
    AtBound(ts, p, Print(e, PRIMARY_LEVEL));
    PrintNotEmpty(e, PRIMARY_LEVEL);
    hide At, PrintList, Kind, Text, DerivesPrimary;
    if e.FunctionCall? {
      PrintedCall(ts, p, e);
    } else if e.ColumnRef? {
      PrintedColumn(ts, p, e);
    } else {
      PrintedLiteral(ts, p, e);
    }
    assert DerivesPrimary(ts, p, p + |Print(e, PRIMARY_LEVEL)|, e);
  }

  lemma PrintedLiteral(ts: seq<Token>, p: nat, e: Expr)
    requires Lexed(ts) && LevelOf(e) == PRIMARY_LEVEL && !e.FunctionCall? && !e.ColumnRef? && At(ts, p, Bare(e))
    ensures p + |Bare(e)| <= |ts| && |Bare(e)| == 1 && DerivesPrimary(ts, p, p + |Bare(e)|, e)
  {
    AtOne(ts, p, Bare(e)[0]);
    AtBound(ts, p, Bare(e));
  }

  lemma PrintedColumn(ts: seq<Token>, p: nat, e: Expr)
    requires Lexed(ts) && e.ColumnRef? && At(ts, p, Bare(e))
    ensures p + |Bare(e)| <= |ts| && |Bare(e)| > 0 && DerivesPrimary(ts, p, p + |Bare(e)|, e)
  {
    var column := Token(IDENTIFIER, e.column);
    AtBound(ts, p, Bare(e));
    if e.table.Some? {
      var table, dot := Token(IDENTIFIER, e.table.value), Token(DOT, ".");
      assert Bare(e) == [table] + ([dot] + [column]);
      AtToken(ts, p, table, [dot] + [column]);
      AtToken(ts, p + 1, dot, [column]);
      AtOne(ts, p + 2, column);
    } else {
      assert Bare(e) == [column];
      AtOne(ts, p, column);
    }
  }

  lemma PrintCall(e: Expr)
    requires e.FunctionCall?
    ensures var mark := if e.distinct then [Token(DISTINCT, "DISTINCT")] else [];
      Print(e, PRIMARY_LEVEL) == Bare(e)
      == [Token(IDENTIFIER, e.name)] + ([Token(LPAREN, "(")] + (mark + (PrintList(e.args) + [Token(RPAREN, ")")])))
  {
  }

  lemma NoTokens()
    ensures PrintList([]) == []
  {
  }

  lemma {:induction false} PrintedCall(ts: seq<Token>, p: nat, e: Expr)
    requires Lexed(ts) && Buildable(e) && e.FunctionCall? && At(ts, p, Print(e, PRIMARY_LEVEL))
    ensures var q := p + |Print(e, PRIMARY_LEVEL)|; p < q <= |ts| && DerivesPrimary(ts, p, q, e)
    decreases |Print(e, PRIMARY_LEVEL)|, 0, 0
  {
    hide Print, Bare, PrintList, At, Kind, Text, DerivesList;
    var list := PrintList(e.args);
    var mark := if e.distinct then [Token(DISTINCT, "DISTINCT")] else [];
    PrintCall(e);
    CallTokens(ts, p, e.name, mark, list);
    if e.args == [] { NoTokens(); } else { PrintedList(ts, p + 2 + |mark|, e.args); }
  }

  lemma CallTokens(ts: seq<Token>, p: nat, name: string, mark: seq<Token>, list: seq<Token>)
    requires Lexed(ts)
    requires At(ts, p, [Token(IDENTIFIER, name)] + ([Token(LPAREN, "(")] + (mark + (list + [Token(RPAREN, ")")]))))
    ensures var q := p + 2 + |mark|;
      && q + |list| + 1 < |ts| && Kind(ts, p) == IDENTIFIER && Text(ts, p) == name && Kind(ts, p + 1) == LPAREN
      && At(ts, q, list) && Kind(ts, q + |list|) == RPAREN && (mark != [] ==> Kind(ts, p + 2) == mark[0].kind)
  {
    hide At, Kind, Text, Lexed;
    var close := Token(RPAREN, ")");
    AtToken(ts, p, Token(IDENTIFIER, name), [Token(LPAREN, "(")] + (mark + (list + [close])));
    AtToken(ts, p + 1, Token(LPAREN, "("), mark + (list + [close]));
    AtSplit(ts, p + 2, mark, list + [close]);
    AtSplit(ts, p + 2 + |mark|, list, [close]);
    AtOne(ts, p + 2 + |mark| + |list|, close);
    if mark != [] {
      assert mark == [mark[0]] + mark[1..];
      AtToken(ts, p + 2, mark[0], mark[1..]);
    }
  }

  // ----- Main results -----

  /** A printed expression is read back, before any token that takes it no further. */
  lemma ParsePrinted(ts: seq<Token>, p: nat, e: Expr, lv: Level)
    requires Lexed(ts) && Buildable(e) && At(ts, p, Print(e, lv)) && Stops(ts, p + |Print(e, lv)|, lv)
    ensures Parse(ts, p, lv) == Ok(e, p + |Print(e, lv)|)
  {
    hide Parse, Print, Derives, Stops, At, Buildable;
    PrintDerives(ts, p, e, lv);
    DerivedParses(ts, p, p + |Print(e, lv)|, lv, e);
  }

  const END := Token(EOF, "")

  /** The printed tokens of any expression the parser can build parse back to it, and all of them are consumed. */
  lemma ParseUndoesPrint(e: Expr)
    requires Buildable(e)
    ensures Parse(Print(e, OR_LEVEL) + [END], 0, OR_LEVEL) == Ok(e, |Print(e, OR_LEVEL)|)
  {
    var xs := Print(e, OR_LEVEL);
    var ts := xs + [END];
    assert At(ts, 0, xs) by { assert ts[0..|xs|] == xs; }
    hide Parse, Print, At;
    CloserStops(ts, |xs|, OR_LEVEL);
    ParsePrinted(ts, 0, e, OR_LEVEL);
  }

  /** Different expressions are printed differently: no brackets too few. */
  lemma PrintTellsApart(a: Expr, b: Expr)
    requires Buildable(a) && Buildable(b) && Print(a, OR_LEVEL) == Print(b, OR_LEVEL)
    ensures a == b
  {
    ParseUndoesPrint(a);
    ParseUndoesPrint(b);
  }

  // ----- What the parser builds -----

  /** What is derived has no empty IN list and no empty list after DISTINCT. */
  lemma {:induction false} DerivedBuildable(ts: seq<Token>, p: nat, q: nat, lv: Level, e: Expr)
    requires Lexed(ts) && Derives(ts, p, q, lv, e)
    ensures Buildable(e)
    decreases q - p, 9 - lv, 2
  {
    hide DerivesPrimary, DerivesBrackets, DerivesComparison, DerivesChain;
    if lv < PRIMARY_LEVEL && Derives(ts, p, q, lv + 1, e) {
      DerivedBuildable(ts, p, q, lv + 1, e);
    } else if IsChain(lv) {
      ChainBuildable(ts, p, q, lv, e);
    } else if lv == COMPARISON_LEVEL {
      ComparisonBuildable(ts, p, q, e);
    } else if lv == PRIMARY_LEVEL {
      PrimaryBuildable(ts, p, q, e);
    } else {
      DerivedBuildable(ts, p + 1, q, lv, e.operand);
    }
  }

  lemma {:induction false} ChainBuildable(ts: seq<Token>, p: nat, q: nat, lv: Level, e: Expr)
    requires Lexed(ts) && p < q <= |ts| && IsChain(lv) && DerivesChain(ts, p, q, lv, e)
    ensures Buildable(e)
    decreases q - p, 9 - lv, 1
  {
    hide Derives;
    var m :| p < m < q && Derives(ts, p, m, lv, e.left) && Derives(ts, m + 1, q, lv + 1, e.right);
    DerivedBuildable(ts, p, m, lv, e.left);
    DerivedBuildable(ts, m + 1, q, lv + 1, e.right);
  }

  lemma {:induction false} ComparisonBuildable(ts: seq<Token>, p: nat, q: nat, e: Expr)
    requires Lexed(ts) && p < q <= |ts| && DerivesComparison(ts, p, q, e)
    ensures Buildable(e)
    decreases q - p, 6, 1
  {
    hide Derives, DerivesRelation;
    var m :| p < m < q && Derives(ts, p, m, ADDITION_LEVEL, LeftOf(e)) && DerivesSuffix(ts, m, q, e);
    DerivedBuildable(ts, p, m, ADDITION_LEVEL, LeftOf(e));
    if e.BinaryOp? {
      DerivedBuildable(ts, m + 1, q, ADDITION_LEVEL, e.right);
    } else if !e.IsNullExpr? {
      RelationBuildable(ts, if e.negated then m + 1 else m, q, e);
    }
  }

  lemma {:induction false} RelationBuildable(ts: seq<Token>, m: nat, q: nat, e: Expr)
    requires Lexed(ts) && m < q <= |ts| && (e.BetweenExpr? || e.InExpr? || e.LikeExpr?)
    requires DerivesRelation(ts, m, q, e) && Buildable(e.expr)
    ensures Buildable(e)
    decreases q - m, 10, 0
  {
    hide Derives, DerivesList;
    match e
    case BetweenExpr(_, low, high, _) =>
      var k :| m < k < q && Derives(ts, m + 1, k, ADDITION_LEVEL, low) && Derives(ts, k + 1, q, ADDITION_LEVEL, high);
      DerivedBuildable(ts, m + 1, k, ADDITION_LEVEL, low);
      DerivedBuildable(ts, k + 1, q, ADDITION_LEVEL, high);
    case InExpr(_, values, _) => ListBuildable(ts, m + 2, q - 1, values);
    case LikeExpr(_, pattern, _) => DerivedBuildable(ts, m + 1, q, ADDITION_LEVEL, pattern);
  }

  lemma {:induction false} ListBuildable(ts: seq<Token>, p: nat, q: nat, es: seq<Expr>)
    requires Lexed(ts) && DerivesList(ts, p, q, es)
    ensures p < q && es != [] && forall i :: 0 <= i < |es| ==> Buildable(es[i])
    decreases Length(p, q), 10, 0
  {
    hide Derives, Buildable;
    if |es| == 1 {
      DerivedBuildable(ts, p, q, OR_LEVEL, es[0]);
    } else {
      var m :| p < m < q && Derives(ts, p, m, OR_LEVEL, es[0]) && DerivesList(ts, m + 1, q, es[1..]);
      DerivedBuildable(ts, p, m, OR_LEVEL, es[0]);
      ListBuildable(ts, m + 1, q, es[1..]);
      forall i | 0 <= i < |es| ensures Buildable(es[i]) { assert i > 0 ==> es[i] == es[1..][i - 1]; }
    }
  }

  lemma {:induction false} PrimaryBuildable(ts: seq<Token>, p: nat, q: nat, e: Expr)
    requires Lexed(ts) && p < q <= |ts| && (DerivesPrimary(ts, p, q, e) || DerivesBrackets(ts, p, q, e))
    ensures Buildable(e)
    decreases q - p, 1, 0
  {
    hide Derives, DerivesList;
    if DerivesBrackets(ts, p, q, e) {
      DerivedBuildable(ts, p + 1, q - 1, OR_LEVEL, e);
    } else if e.FunctionCall? && e.args != [] {
      ListBuildable(ts, if e.distinct then p + 3 else p + 2, q - 1, e.args);
    }
  }

  lemma Built(ts: seq<Token>, p: nat, lv: Level)
    requires Lexed(ts) && p <= |ts|
    ensures Parse(ts, p, lv).Ok? ==> Buildable(Parse(ts, p, lv).value)
  {
    hide Parse, Derives;
    ParsedDerives(ts, p, lv);
    var r := Parse(ts, p, lv);
    if r.Ok? { DerivedBuildable(ts, p, r.next, lv, r.value); }
  }

  /** Printing what was parsed, with only the brackets it needs, and parsing again gives the same tree. */
  lemma PrintKeepsMeaning(ts: seq<Token>)
    requires Lexed(ts) && Parse(ts, 0, OR_LEVEL).Ok?
    ensures var e := Parse(ts, 0, OR_LEVEL).value;
      Parse(Print(e, OR_LEVEL) + [END], 0, OR_LEVEL) == Ok(e, |Print(e, OR_LEVEL)|)
  {
    Built(ts, 0, OR_LEVEL);
    ParseUndoesPrint(Parse(ts, 0, OR_LEVEL).value);
  }
}
