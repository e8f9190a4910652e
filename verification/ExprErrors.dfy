/**
  Where parsing fails: at the first token that cannot follow what was read before it.  The tokens before it can be
  completed to an expression; with it, whatever comes next, there is none.
*/
module ExprErrors {
  import opened Common
  import opened ExprGrammar
  import opened ExprDerivations
  import opened ExprRoundTrip

  // ----- What the grammar derives from some tokens it derives from the same tokens elsewhere -----

  predicate Same(a: seq<Token>, b: seq<Token>, p: nat, q: nat)
    requires Lexed(a) && Lexed(b)
  {
    forall i :: p <= i < q ==> Kind(a, i) == Kind(b, i) && Text(a, i) == Text(b, i)
  }

  lemma {:induction false} DerivesLocal(a: seq<Token>, b: seq<Token>, p: nat, q: nat, lv: Level, e: Expr)
    requires Lexed(a) && Lexed(b) && q <= |b| && Same(a, b, p, q) && Derives(a, p, q, lv, e)
    ensures Derives(b, p, q, lv, e)
    decreases Length(p, q), 9 - lv, 3
  {
    hide Kind, Text, DerivesPrimary, DerivesBrackets, DerivesComparison, DerivesChain, Lexed;
    if lv < PRIMARY_LEVEL && Derives(a, p, q, lv + 1, e) {
      DerivesLocal(a, b, p, q, lv + 1, e);
    } else if lv == PRIMARY_LEVEL {
      if DerivesPrimary(a, p, q, e) { PrimaryLocal(a, b, p, q, e); } else { BracketsLocal(a, b, p, q, e); }
    } else if lv == COMPARISON_LEVEL {
      ComparisonLocal(a, b, p, q, e);
    } else if IsChain(lv) {
      ChainLocal(a, b, p, q, lv, e);
    } else {
      DerivesLocal(a, b, p + 1, q, lv, e.operand);
    }
  }

  lemma {:induction false} BracketsLocal(a: seq<Token>, b: seq<Token>, p: nat, q: nat, e: Expr)
    requires Lexed(a) && Lexed(b) && p < q <= |a| && q <= |b| && Same(a, b, p, q) && DerivesBrackets(a, p, q, e)
    ensures DerivesBrackets(b, p, q, e)
    decreases q - p, 0, 0
  {
    hide Kind, Text, Derives, Lexed;
    DerivesLocal(a, b, p + 1, q - 1, OR_LEVEL, e);
  }

  lemma {:induction false} ChainLocal(a: seq<Token>, b: seq<Token>, p: nat, q: nat, lv: Level, e: Expr)
    requires Lexed(a) && Lexed(b) && p < q <= |a| && q <= |b| && Same(a, b, p, q) && IsChain(lv)
    requires DerivesChain(a, p, q, lv, e)
    ensures DerivesChain(b, p, q, lv, e)
    decreases q - p, 9 - lv, 1
  {
    hide Kind, Text, Derives, Lexed;
    var m :| p < m < q && IsOperator(a, m, lv, e.op)
      && Derives(a, p, m, lv, e.left) && Derives(a, m + 1, q, lv + 1, e.right);
    DerivesLocal(a, b, p, m, lv, e.left);
    DerivesLocal(a, b, m + 1, q, lv + 1, e.right);
    assert IsOperator(b, m, lv, e.op);
  }

  lemma {:induction false} ComparisonLocal(a: seq<Token>, b: seq<Token>, p: nat, q: nat, e: Expr)
    requires Lexed(a) && Lexed(b) && p < q <= |a| && q <= |b| && Same(a, b, p, q) && DerivesComparison(a, p, q, e)
    ensures DerivesComparison(b, p, q, e)
    decreases q - p, 6, 1
  {
    hide Kind, Text, Derives, Lexed, DerivesSuffix;
    var m :| p < m < q && Derives(a, p, m, ADDITION_LEVEL, LeftOf(e)) && DerivesSuffix(a, m, q, e);
    DerivesLocal(a, b, p, m, ADDITION_LEVEL, LeftOf(e));
    SuffixLocal(a, b, m, q, e);
  }

  lemma {:induction false} SuffixLocal(a: seq<Token>, b: seq<Token>, m: nat, q: nat, e: Expr)
    requires Lexed(a) && Lexed(b) && m < q <= |a| && q <= |b| && Same(a, b, m, q)
    requires LevelOf(e) == COMPARISON_LEVEL && DerivesSuffix(a, m, q, e)
    ensures DerivesSuffix(b, m, q, e)
    decreases q - m, 10, 1
  {
    hide Kind, Text, Derives, Lexed, DerivesRelation;
    if e.BinaryOp? {
      Spans(a, m + 1, q, ADDITION_LEVEL, e.right);
      DerivesLocal(a, b, m + 1, q, ADDITION_LEVEL, e.right);
    } else if !e.IsNullExpr? {
      RelationLocal(a, b, if e.negated then m + 1 else m, q, e);
    }
  }

  lemma Spans(ts: seq<Token>, p: nat, q: nat, lv: Level, e: Expr)
    requires Lexed(ts) && Derives(ts, p, q, lv, e)
    ensures p < q <= |ts|
  {
  }

  lemma {:induction false} RelationLocal(a: seq<Token>, b: seq<Token>, m: nat, q: nat, e: Expr)
    requires Lexed(a) && Lexed(b) && m < q <= |a| && q <= |b| && Same(a, b, m, q)
    requires (e.BetweenExpr? || e.InExpr? || e.LikeExpr?) && DerivesRelation(a, m, q, e)
    ensures DerivesRelation(b, m, q, e)
    decreases q - m, 10, 0
  {
    hide Kind, Text, Derives, Lexed, DerivesList;
    match e
    case BetweenExpr(_, low, high, _) =>
      var k :| m < k < q && Kind(a, k) == T_AND
        && Derives(a, m + 1, k, ADDITION_LEVEL, low) && Derives(a, k + 1, q, ADDITION_LEVEL, high);
      DerivesLocal(a, b, m + 1, k, ADDITION_LEVEL, low);
      DerivesLocal(a, b, k + 1, q, ADDITION_LEVEL, high);
      assert Kind(b, k) == T_AND;
    case InExpr(_, values, _) =>
      ListInside(a, m + 2, q - 1, values);
      ListLocal(a, b, m + 2, q - 1, values);
    case LikeExpr(_, pattern, _) =>
      DerivesLocal(a, b, m + 1, q, ADDITION_LEVEL, pattern);
  }

  lemma {:induction false} ListLocal(a: seq<Token>, b: seq<Token>, p: nat, q: nat, es: seq<Expr>)
    requires Lexed(a) && Lexed(b) && q <= |b| && Same(a, b, p, q) && DerivesList(a, p, q, es)
    ensures DerivesList(b, p, q, es)
    decreases Length(p, q), 10, 0
  {
    hide Kind, Text, Derives, Lexed;
    if |es| == 1 {
      DerivesLocal(a, b, p, q, OR_LEVEL, es[0]);
    } else {
      var m :| p < m < q && Kind(a, m) == COMMA
        && Derives(a, p, m, OR_LEVEL, es[0]) && DerivesList(a, m + 1, q, es[1..]);
      DerivesLocal(a, b, p, m, OR_LEVEL, es[0]);
      ListLocal(a, b, m + 1, q, es[1..]);
      assert Kind(b, m) == COMMA;
    }
  }

  lemma {:induction false} PrimaryLocal(a: seq<Token>, b: seq<Token>, p: nat, q: nat, e: Expr)
    requires Lexed(a) && Lexed(b) && p < q <= |a| && q <= |b| && Same(a, b, p, q) && DerivesPrimary(a, p, q, e)
    ensures DerivesPrimary(b, p, q, e)
    decreases q - p, 1, 0
  {
    hide Kind, Text, DerivesList, Lexed;
    if e.FunctionCall? && e.args != [] {
      var from := if e.distinct then p + 3 else p + 2;
      ListInside(a, from, q - 1, e.args);
      ListLocal(a, b, from, q - 1, e.args);
    }
  }

  // ----- Completing what was read before an error -----

  /** The tokens before position k, then others, then the end. */
  function Completed(ts: seq<Token>, k: nat, w: seq<Token>): (r: seq<Token>)
    requires k <= |ts|
    ensures Lexed(r) && |r| == k + |w| + 1 && Kind(r, k + |w|) == EOF
  {
    ts[..k] + w + [END]
  }

  lemma KeptBefore(ts: seq<Token>, k: nat, w: seq<Token>)
    requires Lexed(ts) && k <= |ts|
    ensures Same(ts, Completed(ts, k, w), 0, k)
    ensures forall v :: Same(Completed(ts, k, w), Completed(ts, k, w + v), 0, k + |w|)
    ensures forall i :: 0 <= i < |w| ==> Kind(Completed(ts, k, w), k + i) == w[i].kind
  {
  }

  lemma At(ts: seq<Token>, k: nat, w: seq<Token>, i: nat)
    requires Lexed(ts) && k <= |ts| && i < k + |w|
    ensures var r := Completed(ts, k, w);
      if i < k then Kind(r, i) == Kind(ts, i) && Text(r, i) == Text(ts, i) else Kind(r, i) == w[i - k].kind
  {
  }

  const NULL_TOKEN := Token(NULL_LITERAL, "NULL")

  /** NULL stands for an expression of any level. */
  lemma {:induction false} NullDerives(ts: seq<Token>, p: nat, lv: Level)
    requires Lexed(ts) && p < |ts| && Kind(ts, p) == NULL_LITERAL
    ensures Derives(ts, p, p + 1, lv, NullLiteral)
    decreases 7 - lv
  {
    if lv < PRIMARY_LEVEL { NullDerives(ts, p, lv + 1); } else { assert DerivesPrimary(ts, p, p + 1, NullLiteral); }
  }

  /** What was derived before the error stays derived. */
  lemma Kept(ts: seq<Token>, k: nat, w: seq<Token>, p: nat, q: nat, lv: Level, e: Expr)
    requires Lexed(ts) && q <= k <= |ts| && Derives(ts, p, q, lv, e)
    ensures Derives(Completed(ts, k, w), p, q, lv, e)
  {
    hide Derives, Kind, Text;
    KeptBefore(ts, k, w);
    DerivesLocal(ts, Completed(ts, k, w), p, q, lv, e);
  }

  /** More tokens after an expression that completes the tokens. */
  lemma Extended(ts: seq<Token>, k: nat, w: seq<Token>, v: seq<Token>, p: nat, lv: Level, e: Expr)
    requires Lexed(ts) && k <= |ts| && Derives(Completed(ts, k, w), p, k + |w|, lv, e)
    ensures Derives(Completed(ts, k, w + v), p, k + |w|, lv, e)
  {
    hide Derives, Kind, Text;
    KeptBefore(ts, k, w);
    DerivesLocal(Completed(ts, k, w), Completed(ts, k, w + v), p, k + |w|, lv, e);
  }

  lemma ListExtended(ts: seq<Token>, k: nat, w: seq<Token>, v: seq<Token>, p: nat, es: seq<Expr>)
    requires Lexed(ts) && k <= |ts| && DerivesList(Completed(ts, k, w), p, k + |w|, es)
    ensures DerivesList(Completed(ts, k, w + v), p, k + |w|, es)
  {
    hide DerivesList, Kind, Text;
    KeptBefore(ts, k, w);
    ListLocal(Completed(ts, k, w), Completed(ts, k, w + v), p, k + |w|, es);
  }

  /** With w after the tokens before position k there is an expression from p to the end. */
  ghost predicate Completes(ts: seq<Token>, p: nat, k: nat, lv: Level, w: seq<Token>, e: Expr)
    requires Lexed(ts)
  {
    k <= |ts| && Derives(Completed(ts, k, w), p, k + |w|, lv, e)
  }

  lemma {:induction false} ErrorCompletes(ts: seq<Token>, p: nat, lv: Level) returns (w: seq<Token>, e: Expr)
    requires Lexed(ts) && p <= |ts| && Parse(ts, p, lv).Err?
    ensures p <= Parse(ts, p, lv).at && Completes(ts, p, Parse(ts, p, lv).at, lv, w, e)
    decreases |ts| - p, 8 - lv, 1
  {
    hide ParseChain, ParseSuffix, ParsePrimary, Derives, Completed, Kind, Lexed;
    var k := Parse(ts, p, lv).at;
    if lv == PRIMARY_LEVEL {
      w, e := PrimaryCompletes(ts, p);
    } else if lv == UNARY_LEVEL || lv == NOT_LEVEL {
      w, e := PrefixCompletes(ts, p, lv);
    } else {
      var r := Parse(ts, p, lv + 1);
      if r.Err? {
        w, e := ErrorCompletes(ts, p, lv + 1);
        Lifts(Completed(ts, k, w), p, k + |w|, lv, e);
      } else {
        ParsedDerives(ts, p, lv + 1);
        if lv == COMPARISON_LEVEL {
          w, e := SuffixCompletes(ts, p, r.next, r.value);
        } else {
          Lifts(ts, p, r.next, lv, r.value);
          w, e := ChainCompletes(ts, p, r.next, lv, r.value);
        }
      }
    }
  }

  lemma {:induction false} PrefixCompletes(ts: seq<Token>, p: nat, lv: Level) returns (w: seq<Token>, e: Expr)
    requires Lexed(ts) && p <= |ts| && Parse(ts, p, lv).Err? && (lv == UNARY_LEVEL || lv == NOT_LEVEL)
    ensures p <= Parse(ts, p, lv).at && Completes(ts, p, Parse(ts, p, lv).at, lv, w, e)
    decreases |ts| - p, 8 - lv, 0
  {
    hide Derives, Completed;
    var k := Parse(ts, p, lv).at;
    if Kind(ts, p) == (if lv == UNARY_LEVEL then MINUS else T_NOT) {
      var x;
      w, x := ErrorCompletes(ts, p + 1, lv);
      e := if lv == UNARY_LEVEL then Negate(x) else Not(x);
      At(ts, k, w, p);
      PrefixDerives(Completed(ts, k, w), p, k + |w|, lv, e);
    } else {
      w, e := ErrorCompletes(ts, p, lv + 1);
      Lifts(Completed(ts, k, w), p, k + |w|, lv, e);
    }
  }

  lemma Lifts(ts: seq<Token>, p: nat, q: nat, lv: Level, e: Expr)
    requires Lexed(ts) && lv < PRIMARY_LEVEL && Derives(ts, p, q, lv + 1, e)
    ensures Derives(ts, p, q, lv, e)
  {
  }

  lemma PrefixDerives(ts: seq<Token>, p: nat, q: nat, lv: Level, e: Expr)
    requires Lexed(ts)
    requires (lv == UNARY_LEVEL && e.Negate? && Kind(ts, p) == MINUS) || (lv == NOT_LEVEL && e.Not?
      && Kind(ts, p) == T_NOT)
    requires Derives(ts, p + 1, q, lv, e.operand)
    ensures Derives(ts, p, q, lv, e)
  {
  }

  lemma {:induction false} ChainCompletes(ts: seq<Token>, p: nat, m: nat, lv: Level, left: Expr)
    returns (w: seq<Token>, e: Expr)
    requires Lexed(ts) && p < m <= |ts| && IsChain(lv) && Derives(ts, p, m, lv, left)
    requires ParseChain(ts, m, lv, left).Err?
    ensures m < ParseChain(ts, m, lv, left).at && Completes(ts, p, ParseChain(ts, m, lv, left).at, lv, w, e)
    decreases |ts| - m, 0, 0
  {
    hide Parse, ParseSuffix, ParseRelation, ParseList, ParsePrimary, ParseName, Derives, Completed;
    var k, op := ParseChain(ts, m, lv, left).at, ChainOp(lv, Kind(ts, m)).value;
    var r := Parse(ts, m + 1, lv + 1);
    if r.Err? {
      var x;
      w, x := ErrorCompletes(ts, m + 1, lv + 1);
      e := BinaryOp(op, left, x);
      Kept(ts, k, w, p, m, lv, left);
      KeptBefore(ts, k, w);
      Spans(Completed(ts, k, w), m + 1, k + |w|, lv + 1, x);
      ChainGrows(Completed(ts, k, w), p, m, k + |w|, lv, op, left, x);
    } else {
      ParsedDerives(ts, m + 1, lv + 1);
      ChainGrows(ts, p, m, r.next, lv, op, left, r.value);
      w, e := ChainCompletes(ts, p, r.next, lv, BinaryOp(op, left, r.value));
    }
  }

  lemma {:induction false} SuffixCompletes(ts: seq<Token>, p: nat, m: nat, left: Expr)
    returns (w: seq<Token>, e: Expr)
    requires Lexed(ts) && p < m <= |ts| && Derives(ts, p, m, ADDITION_LEVEL, left) && ParseSuffix(ts, m, left).Err?
    ensures m < ParseSuffix(ts, m, left).at
    ensures Completes(ts, p, ParseSuffix(ts, m, left).at, COMPARISON_LEVEL, w, e)
    decreases |ts| - m, 0, 2
  {
    hide Parse, ParseChain, ParseRelation, ParseList, ParsePrimary, ParseName, Derives, Completed, DerivesRelation,
      Kind, Text, Lexed, DerivesSuffix;
    var k := ParseSuffix(ts, m, left).at;
    if Kind(ts, m) == IS {
      w, e := IsNullCompletes(ts, m, left);
    } else {
      var negated := Kind(ts, m) == T_NOT && Negatable(Kind(ts, m + 1));
      w, e := RelationCompletes(ts, if negated then m + 1 else m, left, negated);
      if negated { At(ts, k, w, m); }
      NotDerived(Completed(ts, k, w), m, k + |w|, e, negated);
    }
    Kept(ts, k, w, p, m, ADDITION_LEVEL, left);
    ComparisonDerives(Completed(ts, k, w), p, m, k + |w|, e);
  }

  lemma IsNullCompletes(ts: seq<Token>, m: nat, left: Expr) returns (w: seq<Token>, e: Expr)
    requires Lexed(ts) && m <= |ts| && Kind(ts, m) == IS && ParseSuffix(ts, m, left).Err?
    ensures var k := ParseSuffix(ts, m, left).at;
      && m < k <= |ts| && e.IsNullExpr? && e.expr == left && w != []
      && DerivesSuffix(Completed(ts, k, w), m, k + |w|, e)
  {
    var k, negated := ParseSuffix(ts, m, left).at, Kind(ts, m + 1) == T_NOT;
    w, e := [NULL_TOKEN], IsNullExpr(left, negated);
    At(ts, k, w, m);
    if negated { At(ts, k, w, m + 1); }
    At(ts, k, w, k);
    hide Completed, Kind;
  }

  lemma NotDerived(ts: seq<Token>, m: nat, q: nat, e: Expr, negated: bool)
    requires Lexed(ts) && m < q <= |ts| && LevelOf(e) == COMPARISON_LEVEL && !e.IsNullExpr?
    requires negated ==> Kind(ts, m) == T_NOT && m + 1 < q
    requires if e.BinaryOp? then !negated && DerivesSuffix(ts, m, q, e)
      else e.negated == negated && DerivesRelation(ts, if negated then m + 1 else m, q, e)
    ensures DerivesSuffix(ts, m, q, e)
  {
    hide DerivesRelation, Derives, Kind;
  }

  ghost predicate CompletesRelation(ts: seq<Token>, m: nat, k: nat, left: Expr, negated: bool, w: seq<Token>, e: Expr)
    requires Lexed(ts)
  {
    && m < k <= |ts| && LevelOf(e) == COMPARISON_LEVEL && !e.IsNullExpr? && LeftOf(e) == left
    && if e.BinaryOp? then !negated && DerivesSuffix(Completed(ts, k, w), m, k + |w|, e)
       else e.negated == negated && DerivesRelation(Completed(ts, k, w), m, k + |w|, e)
  }

  lemma {:induction false} RelationCompletes(ts: seq<Token>, m: nat, left: Expr, negated: bool)
    returns (w: seq<Token>, e: Expr)
    requires Lexed(ts) && m <= |ts| && (negated ==> Negatable(Kind(ts, m))) && ParseRelation(ts, m, left, negated).Err?
    ensures CompletesRelation(ts, m, ParseRelation(ts, m, left, negated).at, left, negated, w, e)
    decreases |ts| - m, 0, 1
  {
    hide ParseRelation, Derives, Completed, DerivesRelation, DerivesSuffix, Kind, Lexed, CompletesRelation;
    if Kind(ts, m) == BETWEEN {
      w, e := BetweenCompletes(ts, m, left, negated);
    } else if Kind(ts, m) == IN {
      w, e := InCompletes(ts, m, left, negated);
    } else {
      w, e := OperandCompletes(ts, m, left, negated);
    }
  }

  lemma {:induction false} OperandCompletes(ts: seq<Token>, m: nat, left: Expr, negated: bool)
    returns (w: seq<Token>, e: Expr)
    requires Lexed(ts) && m <= |ts| && Kind(ts, m) != BETWEEN && Kind(ts, m) != IN
    requires ParseRelation(ts, m, left, negated).Err?
    requires negated ==> Kind(ts, m) == LIKE
    ensures CompletesRelation(ts, m, ParseRelation(ts, m, left, negated).at, left, negated, w, e)
    decreases |ts| - m, 0, 0
  {
    hide Parse, ParseRelation, Derives, Completed, DerivesRelation, DerivesSuffix, Kind, Lexed;
    var k := ParseRelation(ts, m, left, negated).at;
    OperandFails(ts, m, left, negated);
    var x;
    w, x := ErrorCompletes(ts, m + 1, ADDITION_LEVEL);
    var op := ComparisonOp(Kind(ts, m));
    e := if Kind(ts, m) == LIKE then LikeExpr(left, x, negated) else BinaryOp(op.value, left, x);
    At(ts, k, w, m);
    if op.Some? { OpsApart(Kind(ts, m), op.value); }
    RightDerives(Completed(ts, k, w), m, k + |w|, e);
  }

  lemma OpsApart(k: TokenType, op: BinaryOpType)
    requires ComparisonOp(k) == Some(op)
    ensures k != LIKE && OpLevel(op) == COMPARISON_LEVEL
  {
  }

  lemma OperandFails(ts: seq<Token>, m: nat, left: Expr, negated: bool)
    requires Lexed(ts) && m <= |ts| && Kind(ts, m) != BETWEEN && Kind(ts, m) != IN
    requires ParseRelation(ts, m, left, negated).Err?
    ensures m + 1 <= |ts| && (Kind(ts, m) == LIKE || ComparisonOp(Kind(ts, m)).Some?)
    ensures Parse(ts, m + 1, ADDITION_LEVEL) == Err(ParseRelation(ts, m, left, negated).at)
  {
    hide Parse;
  }

  lemma RightDerives(ts: seq<Token>, m: nat, q: nat, e: Expr)
    requires Lexed(ts) && m < q <= |ts| && (e.BinaryOp? || e.LikeExpr?) && LevelOf(e) == COMPARISON_LEVEL
    requires if e.LikeExpr? then Kind(ts, m) == LIKE else ComparisonOp(Kind(ts, m)) == Some(e.op)
    requires Derives(ts, m + 1, q, ADDITION_LEVEL, if e.LikeExpr? then e.pattern else e.right)
    ensures if e.LikeExpr? then DerivesRelation(ts, m, q, e) else DerivesSuffix(ts, m, q, e)
  {
    hide Derives, Kind;
  }

  lemma {:induction false} BetweenCompletes(ts: seq<Token>, m: nat, left: Expr, negated: bool)
    returns (w: seq<Token>, e: Expr)
    requires Lexed(ts) && m <= |ts| && Kind(ts, m) == BETWEEN && ParseRelation(ts, m, left, negated).Err?
    ensures CompletesRelation(ts, m, ParseRelation(ts, m, left, negated).at, left, negated, w, e)
    decreases |ts| - m, 0, 0
  {
    hide Parse, ParseRelation, Derives, Completed, DerivesRelation, Lexed, Kind;
    var k := ParseRelation(ts, m, left, negated).at;
    BetweenFails(ts, m, left, negated);
    var r := Parse(ts, m + 1, ADDITION_LEVEL);
    if r.Ok? && Kind(ts, r.next) == T_AND {
      ParsedDerives(ts, m + 1, ADDITION_LEVEL);
      var high;
      w, high := ErrorCompletes(ts, r.next + 1, ADDITION_LEVEL);
      e := BetweenExpr(left, r.value, high, negated);
      Kept(ts, k, w, m + 1, r.next, ADDITION_LEVEL, r.value);
      At(ts, k, w, m);
      At(ts, k, w, r.next);
      Between(Completed(ts, k, w), m, r.next, k + |w|, e);
    } else {
      var v, low := LowCompletes(ts, m + 1);
      w, e := v + [Token(T_AND, "AND"), NULL_TOKEN], BetweenExpr(left, low, NullLiteral, negated);
      AndNull(ts, k, v, m, e);
    }
  }

  lemma BetweenFails(ts: seq<Token>, m: nat, left: Expr, negated: bool)
    requires Lexed(ts) && m <= |ts| && Kind(ts, m) == BETWEEN && ParseRelation(ts, m, left, negated).Err?
    ensures m + 1 <= |ts|
    ensures var k, r := ParseRelation(ts, m, left, negated).at, Parse(ts, m + 1, ADDITION_LEVEL);
      if r.Err? then k == r.at
      else if Kind(ts, r.next) != T_AND then k == r.next
      else r.next + 1 <= |ts| && Parse(ts, r.next + 1, ADDITION_LEVEL) == Err(k)
  {
    hide Parse;
  }

  /** The lower bound alone, whether it can be read or not. */
  lemma {:induction false} LowCompletes(ts: seq<Token>, p: nat) returns (w: seq<Token>, e: Expr)
    requires Lexed(ts) && p <= |ts|
    ensures var r := Parse(ts, p, ADDITION_LEVEL); var k := if r.Err? then r.at else r.next;
      Completes(ts, p, k, ADDITION_LEVEL, w, e)
    decreases |ts| - p, 5, 0
  {
    hide Parse, Derives, Completed;
    var r := Parse(ts, p, ADDITION_LEVEL);
    if r.Err? {
      w, e := ErrorCompletes(ts, p, ADDITION_LEVEL);
    } else {
      ParsedDerives(ts, p, ADDITION_LEVEL);
      w, e := [], r.value;
      Kept(ts, r.next, w, p, r.next, ADDITION_LEVEL, e);
    }
  }

  lemma AndNull(ts: seq<Token>, k: nat, v: seq<Token>, m: nat, e: Expr)
    requires Lexed(ts) && m < k <= |ts| && e.BetweenExpr? && Kind(ts, m) == BETWEEN && e.high == NullLiteral
    requires Completes(ts, m + 1, k, ADDITION_LEVEL, v, e.low)
    ensures var w := v + [Token(T_AND, "AND"), NULL_TOKEN]; DerivesRelation(Completed(ts, k, w), m, k + |w|, e)
  {
    hide Derives, Completed, DerivesRelation, Kind, Lexed;
    var both := [Token(T_AND, "AND"), NULL_TOKEN];
    var w := v + both;
    Extended(ts, k, v, both, m + 1, ADDITION_LEVEL, e.low);
    At(ts, k, w, m);
    At(ts, k, w, k + |v|);
    At(ts, k, w, k + |v| + 1);
    NullDerives(Completed(ts, k, w), k + |v| + 1, ADDITION_LEVEL);
    Between(Completed(ts, k, w), m, k + |v|, k + |w|, e);
  }

  lemma Between(ts: seq<Token>, m: nat, k: nat, q: nat, e: Expr)
    requires Lexed(ts) && m < k && e.BetweenExpr? && Kind(ts, m) == BETWEEN && Kind(ts, k) == T_AND
    requires Derives(ts, m + 1, k, ADDITION_LEVEL, e.low) && Derives(ts, k + 1, q, ADDITION_LEVEL, e.high)
    ensures k < q <= |ts| && DerivesRelation(ts, m, q, e)
  {
    Spans(ts, k + 1, q, ADDITION_LEVEL, e.high);
    hide Derives, Kind;
  }

  lemma {:induction false} InCompletes(ts: seq<Token>, m: nat, left: Expr, negated: bool)
    returns (w: seq<Token>, e: Expr)
    requires Lexed(ts) && m <= |ts| && Kind(ts, m) == IN && ParseRelation(ts, m, left, negated).Err?
    ensures CompletesRelation(ts, m, ParseRelation(ts, m, left, negated).at, left, negated, w, e)
    decreases |ts| - m, 0, 0
  {
    hide ParseRelation, Derives, Completed, DerivesRelation, Lexed, Kind, DerivesList;
    var k := ParseRelation(ts, m, left, negated).at;
    var es;
    w, es := ListInCompletes(ts, m, left, negated);
    e := InExpr(left, es, negated);
    At(ts, k, w, m);
    InDerived(Completed(ts, k, w), m, k + |w|, e);
  }

  lemma {:induction false} ListInCompletes(ts: seq<Token>, m: nat, left: Expr, negated: bool)
    returns (w: seq<Token>, es: seq<Expr>)
    requires Lexed(ts) && m <= |ts| && Kind(ts, m) == IN && ParseRelation(ts, m, left, negated).Err?
    ensures var k := ParseRelation(ts, m, left, negated).at; var r, q := Completed(ts, k, w), k + |w|;
      && m < k && m + 2 < q && Kind(r, m + 1) == LPAREN && Kind(r, q - 1) == RPAREN && DerivesList(r, m + 2, q - 1, es)
    decreases |ts| - m - 1, 10, 0
  {
    hide ParseRelation, ParseList, Completed, Lexed, Kind, DerivesList;
    var k := ParseRelation(ts, m, left, negated).at;
    InFails(ts, m, left, negated);
    if Kind(ts, m + 1) != LPAREN || Kind(ts, m + 2) == SELECT {
      w := InNull(ts, m, k);
      es := [NullLiteral];
    } else {
      w, es := ListCloses(ts, m + 2);
      At(ts, k, w, m + 1);
      At(ts, k, w, k + |w| - 1);
    }
  }

  lemma InFails(ts: seq<Token>, m: nat, left: Expr, negated: bool)
    requires Lexed(ts) && m <= |ts| && Kind(ts, m) == IN && ParseRelation(ts, m, left, negated).Err?
    ensures m + 1 <= |ts|
    ensures var k := ParseRelation(ts, m, left, negated).at;
      if Kind(ts, m + 1) != LPAREN then k == m + 1
      else
        && m + 2 <= |ts|
        && if Kind(ts, m + 2) == SELECT then k == m + 2
           else
             var r := ParseList(ts, m + 2, []);
             (r.Ok? ==> Kind(ts, r.next) != RPAREN) && k == if r.Err? then r.at else r.next
  {
    hide Parse, ParseList;
  }

  lemma InNull(ts: seq<Token>, m: nat, k: nat) returns (w: seq<Token>)
    requires Lexed(ts) && m < k <= |ts| && (k == m + 1 || (k == m + 2 && Kind(ts, m + 1) == LPAREN))
    ensures var r := Completed(ts, k, w); var q := k + |w|;
      && w != [] && m + 2 < q && Kind(r, m + 1) == LPAREN && Kind(r, q - 1) == RPAREN
      && DerivesList(r, m + 2, q - 1, [NullLiteral])
  {
    hide Completed, Kind, DerivesList, Lexed;
    var rest := [NULL_TOKEN, Token(RPAREN, ")")];
    w := if k == m + 1 then [Token(LPAREN, "(")] + rest else rest;
    At(ts, k, w, m + 1);
    At(ts, k, w, m + 2);
    At(ts, k, w, m + 3);
    NullListDerives(Completed(ts, k, w), m + 2);
  }

  lemma NullListDerives(ts: seq<Token>, p: nat)
    requires Lexed(ts) && p < |ts| && Kind(ts, p) == NULL_LITERAL
    ensures DerivesList(ts, p, p + 1, [NullLiteral])
  {
    hide Derives, Kind;
    NullDerives(ts, p, OR_LEVEL);
  }

  lemma {:induction false} ListCompletes(ts: seq<Token>, p: nat, before: seq<Expr>)
    returns (w: seq<Token>, es: seq<Expr>)
    requires Lexed(ts) && p <= |ts| && ParseList(ts, p, before).Err?
    ensures var k := ParseList(ts, p, before).at;
      p <= k <= |ts| && DerivesList(Completed(ts, k, w), p, k + |w|, es)
    decreases |ts| - p, 8, 2
  {
    hide Parse, ParseChain, ParseSuffix, ParseRelation, ParsePrimary, ParseName, Derives, Completed;
    var k, r := ParseList(ts, p, before).at, Parse(ts, p, OR_LEVEL);
    if r.Err? {
      var e;
      w, e := ErrorCompletes(ts, p, OR_LEVEL);
      es := [e];
      Spans(Completed(ts, k, w), p, k + |w|, OR_LEVEL, e);
    } else {
      ParsedDerives(ts, p, OR_LEVEL);
      var rest;
      w, rest := ListCompletes(ts, r.next + 1, before + [r.value]);
      es := [r.value] + rest;
      KeptBefore(ts, k, w);
      Kept(ts, k, w, p, r.next, OR_LEVEL, r.value);
      assert es[1..] == rest;
    }
  }

  /** Where a list and the bracket after it cannot be read, the tokens can be completed to both. */
  lemma {:induction false} ListCloses(ts: seq<Token>, p: nat) returns (w: seq<Token>, es: seq<Expr>)
    requires Lexed(ts) && p <= |ts|
    requires var r := ParseList(ts, p, []); r.Ok? ==> Kind(ts, r.next) != RPAREN
    ensures var r := ParseList(ts, p, []); var k := if r.Err? then r.at else r.next;
      && p <= k <= |ts| && w != [] && w[|w| - 1].kind == RPAREN
      && DerivesList(Completed(ts, k, w), p, k + |w| - 1, es)
    decreases |ts| - p, 9, 0
  {
    hide Parse, ParseList, Kind, DerivesList, Completed;
    var r, close := ParseList(ts, p, []), Token(RPAREN, ")");
    if r.Err? {
      var v;
      v, es := ListCompletes(ts, p, []);
      w := v + [close];
      ListExtended(ts, r.at, v, [close], p, es);
    } else {
      ListDerives(ts, p, []);
      w, es := [close], r.value;
      assert es[0..] == es;
      ListKept(ts, r.next, w, p, es);
    }
  }

  lemma ListKept(ts: seq<Token>, k: nat, w: seq<Token>, p: nat, es: seq<Expr>)
    requires Lexed(ts) && k <= |ts| && DerivesList(ts, p, k, es)
    ensures DerivesList(Completed(ts, k, w), p, k, es)
  {
    hide DerivesList, Kind, Text;
    KeptBefore(ts, k, w);
    ListLocal(ts, Completed(ts, k, w), p, k, es);
  }

  lemma {:induction false} PrimaryCompletes(ts: seq<Token>, p: nat) returns (w: seq<Token>, e: Expr)
    requires Lexed(ts) && p <= |ts| && Parse(ts, p, PRIMARY_LEVEL).Err?
    ensures p <= Parse(ts, p, PRIMARY_LEVEL).at
    ensures Completes(ts, p, Parse(ts, p, PRIMARY_LEVEL).at, PRIMARY_LEVEL, w, e)
    decreases |ts| - p, 0, 0
  {
    hide ParseChain, ParseSuffix, ParseRelation, ParseList, ParseName, DerivesList, Derives, Completed;
    var k := Parse(ts, p, PRIMARY_LEVEL).at;
    assert Parse(ts, p, PRIMARY_LEVEL) == ParsePrimary(ts, p);
    if Kind(ts, p) == LPAREN {
      w, e := BracketsComplete(ts, p);
    } else if IsName(Kind(ts, p)) {
      w, e := CallCompletes(ts, p);
    } else {
      w, e := [NULL_TOKEN], NullLiteral;
      At(ts, k, w, p);
      NullDerives(Completed(ts, k, w), p, PRIMARY_LEVEL);
    }
  }

  lemma {:induction false} BracketsComplete(ts: seq<Token>, p: nat) returns (w: seq<Token>, e: Expr)
    requires Lexed(ts) && p <= |ts| && Kind(ts, p) == LPAREN && ParsePrimary(ts, p).Err?
    ensures p <= ParsePrimary(ts, p).at && Completes(ts, p, ParsePrimary(ts, p).at, PRIMARY_LEVEL, w, e)
    decreases |ts| - p - 1, 9, 0
  {
    hide Parse, ParseChain, ParseSuffix, ParseRelation, ParseList, ParseName, Derives, Completed, Lexed;
    var k := ParsePrimary(ts, p).at;
    var r := Parse(ts, p + 1, OR_LEVEL);
    hide Kind;
    var v := [];
    if Kind(ts, p + 1) == SELECT {
      v, e := [NULL_TOKEN], NullLiteral;
      At(ts, k, v, k);
      NullDerives(Completed(ts, k, v), k, OR_LEVEL);
    } else if r.Err? {
      v, e := ErrorCompletes(ts, p + 1, OR_LEVEL);
    } else {
      e := r.value;
      ParsedDerives(ts, p + 1, OR_LEVEL);
      Kept(ts, k, v, p + 1, k, OR_LEVEL, e);
    }
    w := v + [Token(RPAREN, ")")];
    Extended(ts, k, v, [Token(RPAREN, ")")], p + 1, OR_LEVEL, e);
    At(ts, k, w, p);
    At(ts, k, w, k + |v|);
    InBrackets(Completed(ts, k, w), p, k + |w|, e);
  }

  lemma InBrackets(ts: seq<Token>, p: nat, q: nat, e: Expr)
    requires Lexed(ts) && p + 1 < q <= |ts| && Kind(ts, p) == LPAREN && Kind(ts, q - 1) == RPAREN
    requires Derives(ts, p + 1, q - 1, OR_LEVEL, e)
    ensures Derives(ts, p, q, PRIMARY_LEVEL, e)
  {
    assert DerivesBrackets(ts, p, q, e);
  }

  lemma {:induction false} CallCompletes(ts: seq<Token>, p: nat) returns (w: seq<Token>, e: Expr)
    requires Lexed(ts) && p < |ts| && IsName(Kind(ts, p)) && ParseName(ts, p).Err?
    ensures p <= ParseName(ts, p).at && Completes(ts, p, ParseName(ts, p).at, PRIMARY_LEVEL, w, e)
    decreases |ts| - p - 1, 9, 9
  {
    hide ParseList, ParseName, Derives, Completed, Lexed, Kind, Text, DerivesList;
    var k, distinct := ParseName(ts, p).at, Kind(ts, p + 2) == DISTINCT;
    CallFails(ts, p);
    var es;
    w, es := ListCloses(ts, if distinct then p + 3 else p + 2);
    e := FunctionCall(Text(ts, p), es, distinct);
    At(ts, k, w, p);
    At(ts, k, w, p + 1);
    if distinct { At(ts, k, w, p + 2); }
    At(ts, k, w, k + |w| - 1);
    CallDerives(Completed(ts, k, w), p, k + |w|, e);
  }

  lemma CallFails(ts: seq<Token>, p: nat)
    requires Lexed(ts) && p < |ts| && IsName(Kind(ts, p)) && ParseName(ts, p).Err?
    ensures var from := if Kind(ts, p + 2) == DISTINCT then p + 3 else p + 2;
      && from <= |ts| && Kind(ts, p + 1) == LPAREN
      && var r := ParseList(ts, from, []);
         (r.Ok? ==> Kind(ts, r.next) != RPAREN) && ParseName(ts, p).at == if r.Err? then r.at else r.next
  {
    hide Parse, ParseList;
  }

  lemma CallDerives(ts: seq<Token>, p: nat, q: nat, e: Expr)
    requires Lexed(ts) && p + 2 < q <= |ts| && e.FunctionCall? && IsName(Kind(ts, p)) && e.name == Text(ts, p)
    requires Kind(ts, p + 1) == LPAREN && Kind(ts, q - 1) == RPAREN && (e.distinct ==> Kind(ts, p + 2) == DISTINCT)
    requires DerivesList(ts, if e.distinct then p + 3 else p + 2, q - 1, e.args)
    ensures Derives(ts, p, q, PRIMARY_LEVEL, e)
  {
    assert DerivesPrimary(ts, p, q, e);
  }

  // ----- What decides how parsing ends -----

  /** The tokens are the same up to the n-th, the end mark going on for ever. */
  predicate Agree(a: seq<Token>, b: seq<Token>, n: nat)
    requires Lexed(a) && Lexed(b)
  {
    forall i :: 0 <= i <= n ==> Kind(a, i) == Kind(b, i) && Text(a, i) == Text(b, i)
  }

  /** How far the parser has looked: NOT is read together with the token after it. */
  function Seen<T>(r: Result<T>): nat {
    if r.Ok? then r.next + 1 else r.at + 1
  }

  lemma {:induction false} ParseLocal(a: seq<Token>, b: seq<Token>, p: nat, lv: Level)
    requires Lexed(a) && Lexed(b) && p <= |a| && p <= |b| && Agree(a, b, Seen(Parse(a, p, lv)))
    ensures Parse(b, p, lv) == Parse(a, p, lv)
    decreases |a| - p, 8 - lv, 1
  {
    hide ParseChain, ParseSuffix, ParsePrimary, Text;
    if lv == PRIMARY_LEVEL {
      ParsePrimaryLocal(a, b, p);
    } else if lv == UNARY_LEVEL || lv == NOT_LEVEL {
      if Kind(a, p) == (if lv == UNARY_LEVEL then MINUS else T_NOT) {
        ParseLocal(a, b, p + 1, lv);
      } else {
        ParseLocal(a, b, p, lv + 1);
      }
    } else {
      ParseLocal(a, b, p, lv + 1);
      var r := Parse(a, p, lv + 1);
      if r.Ok? {
        if lv == COMPARISON_LEVEL {
          ParseSuffixLocal(a, b, r.next, r.value);
        } else {
          ParseChainLocal(a, b, r.next, lv, r.value);
        }
      }
    }
  }

  lemma {:induction false} ParseChainLocal(a: seq<Token>, b: seq<Token>, p: nat, lv: Level, left: Expr)
    requires Lexed(a) && Lexed(b) && p <= |a| && p <= |b| && IsChain(lv)
    requires Agree(a, b, Seen(ParseChain(a, p, lv, left)))
    ensures ParseChain(b, p, lv, left) == ParseChain(a, p, lv, left)
    decreases |a| - p, 0, 0
  {
    hide Parse, Text;
    var op := ChainOp(lv, Kind(a, p));
    if op.Some? {
      ParseLocal(a, b, p + 1, lv + 1);
      var r := Parse(a, p + 1, lv + 1);
      if r.Ok? { ParseChainLocal(a, b, r.next, lv, BinaryOp(op.value, left, r.value)); }
    }
  }

  lemma {:induction false} ParseSuffixLocal(a: seq<Token>, b: seq<Token>, p: nat, left: Expr)
    requires Lexed(a) && Lexed(b) && p <= |a| && p <= |b| && Agree(a, b, Seen(ParseSuffix(a, p, left)))
    ensures ParseSuffix(b, p, left) == ParseSuffix(a, p, left)
    decreases |a| - p, 0, 2
  {
    hide ParseRelation, Text, Lexed;
    if Kind(a, p) == IS {
      IsNullLocal(a, b, p, left);
    } else {
      hide Kind;
      var negated := Kind(a, p) == T_NOT && Negatable(Kind(a, p + 1));
      if negated {
        KnownToken(a, p);
        KnownToken(b, p);
      }
      ParseRelationLocal(a, b, if negated then p + 1 else p, left, negated);
    }
  }

  lemma KnownToken(ts: seq<Token>, p: nat)
    requires Lexed(ts) && Kind(ts, p) != EOF
    ensures p < |ts|
  {
  }

  lemma IsNullLocal(a: seq<Token>, b: seq<Token>, p: nat, left: Expr)
    requires Lexed(a) && Lexed(b) && p <= |a| && p <= |b| && Kind(a, p) == IS
    requires Agree(a, b, Seen(ParseSuffix(a, p, left)))
    ensures ParseSuffix(b, p, left) == ParseSuffix(a, p, left)
  {
    hide Text;
  }

  lemma {:induction false} ParseRelationLocal(a: seq<Token>, b: seq<Token>, p: nat, left: Expr, negated: bool)
    requires Lexed(a) && Lexed(b) && p <= |a| && p <= |b| && Agree(a, b, Seen(ParseRelation(a, p, left, negated)))
    ensures ParseRelation(b, p, left, negated) == ParseRelation(a, p, left, negated)
    decreases |a| - p, 0, 1
  {
    hide Parse, ParseList, Text, Lexed;
    var k := Kind(a, p);
    if k == IN {
      ParseInLocal(a, b, p, left, negated);
    } else if k == BETWEEN {
      ParseBetweenLocal(a, b, p, left, negated);
    } else if k == LIKE || ComparisonOp(k).Some? {
      ParseLocal(a, b, p + 1, ADDITION_LEVEL);
    }
  }

  lemma {:induction false} ParseInLocal(a: seq<Token>, b: seq<Token>, p: nat, left: Expr, negated: bool)
    requires Lexed(a) && Lexed(b) && p <= |a| && p <= |b| && Kind(a, p) == IN
    requires Agree(a, b, Seen(ParseRelation(a, p, left, negated)))
    ensures ParseRelation(b, p, left, negated) == ParseRelation(a, p, left, negated)
    decreases |a| - p, 0, 0
  {
    InIsRead(a, p, left, negated);
    InIsRead(b, p, left, negated);
    hide ParseRelation, ParseList, Kind, Text, Lexed, Agree;
    var n := Seen(ParseRelation(a, p, left, negated));
    AgreesTo(a, b, n, p + 1);
    if Kind(a, p + 1) == LPAREN {
      AgreesTo(a, b, n, p + 2);
      if Kind(a, p + 2) != SELECT { ParseInListLocal(a, b, p + 2, n); }
    }
  }

  lemma {:induction false} ParseInListLocal(a: seq<Token>, b: seq<Token>, p: nat, n: nat)
    requires Lexed(a) && Lexed(b) && p <= |a| && p <= |b|
    requires var r := ParseList(a, p, []); n >= Seen(r)
    requires Agree(a, b, n)
    ensures var r := ParseList(a, p, []); ParseList(b, p, []) == r && (r.Ok? ==> Kind(a, r.next) == Kind(b, r.next))
    decreases |a| - p, 9, 0
  {
    hide ParseList, Kind, Text, Lexed, Agree;
    var r := ParseList(a, p, []);
    AgreesTo(a, b, n, Seen(r));
    ParseListLocal(a, b, p, []);
    if r.Ok? { AgreesTo(a, b, n, r.next); }
  }

  lemma AgreesTo(a: seq<Token>, b: seq<Token>, n: nat, m: nat)
    requires Lexed(a) && Lexed(b) && Agree(a, b, n) && m <= n
    ensures Agree(a, b, m) && Kind(a, m) == Kind(b, m)
  {
  }

  lemma InIsRead(ts: seq<Token>, p: nat, left: Expr, negated: bool)
    requires Lexed(ts) && p <= |ts| && Kind(ts, p) == IN
    ensures Kind(ts, p + 1) == LPAREN ==> p + 2 <= |ts|
    ensures ParseRelation(ts, p, left, negated) ==
      if Kind(ts, p + 1) != LPAREN then Err(p + 1)
      else if Kind(ts, p + 2) == SELECT then Err(p + 2)
      else
        match ParseList(ts, p + 2, [])
        case Err(at) => Err(at)
        case Ok(es, q) => if Kind(ts, q) == RPAREN then Ok(InExpr(left, es, negated), q + 1) else Err(q)
  {
    hide Parse, ParseList;
  }

  lemma {:induction false} ParseBetweenLocal(a: seq<Token>, b: seq<Token>, p: nat, left: Expr, negated: bool)
    requires Lexed(a) && Lexed(b) && p <= |a| && p <= |b| && Kind(a, p) == BETWEEN
    requires Agree(a, b, Seen(ParseRelation(a, p, left, negated)))
    ensures ParseRelation(b, p, left, negated) == ParseRelation(a, p, left, negated)
    decreases |a| - p, 0, 0
  {
    hide Parse, ParseList, Text;
    ParseLocal(a, b, p + 1, ADDITION_LEVEL);
    var r := Parse(a, p + 1, ADDITION_LEVEL);
    if r.Ok? && Kind(a, r.next) == T_AND { ParseLocal(a, b, r.next + 1, ADDITION_LEVEL); }
  }

  lemma {:induction false} ParseListLocal(a: seq<Token>, b: seq<Token>, p: nat, before: seq<Expr>)
    requires Lexed(a) && Lexed(b) && p <= |a| && p <= |b| && Agree(a, b, Seen(ParseList(a, p, before)))
    ensures ParseList(b, p, before) == ParseList(a, p, before)
    decreases |a| - p, 8, 2
  {
    hide Parse, Text;
    ParseLocal(a, b, p, OR_LEVEL);
    var r := Parse(a, p, OR_LEVEL);
    if r.Ok? && Kind(a, r.next) == COMMA { ParseListLocal(a, b, r.next + 1, before + [r.value]); }
  }

  lemma {:induction false} ParsePrimaryLocal(a: seq<Token>, b: seq<Token>, p: nat)
    requires Lexed(a) && Lexed(b) && p <= |a| && p <= |b| && Agree(a, b, Seen(Parse(a, p, PRIMARY_LEVEL)))
    ensures Parse(b, p, PRIMARY_LEVEL) == Parse(a, p, PRIMARY_LEVEL)
    decreases |a| - p, 0, 0
  {
    hide ParseList, ParseName, ParseChain, ParseSuffix;
    assert Parse(a, p, PRIMARY_LEVEL) == ParsePrimary(a, p) && Parse(b, p, PRIMARY_LEVEL) == ParsePrimary(b, p);
    if Kind(a, p) == LPAREN && Kind(a, p + 1) != SELECT {
      ParseLocal(a, b, p + 1, OR_LEVEL);
    } else if IsName(Kind(a, p)) {
      ParseNameLocal(a, b, p);
    }
  }

  lemma {:induction false} ParseNameLocal(a: seq<Token>, b: seq<Token>, p: nat)
    requires Lexed(a) && Lexed(b) && p < |a| && p < |b| && IsName(Kind(a, p)) && IsName(Kind(b, p))
    requires Agree(a, b, Seen(ParseName(a, p)))
    ensures ParseName(b, p) == ParseName(a, p)
    decreases |a| - p - 1, 9, 0
  {
    hide Parse, ParseList;
    if Kind(a, p + 1) == LPAREN && Kind(a, p + 2) != RPAREN {
      ParseListLocal(a, b, if Kind(a, p + 2) == DISTINCT then p + 3 else p + 2, []);
    }
  }

  // ----- Main results -----

  /** What was read before an error can be completed to an expression. */
  lemma ErrorIsLate(ts: seq<Token>, p: nat, lv: Level) returns (w: seq<Token>, e: Expr)
    requires Lexed(ts) && p <= |ts| && Parse(ts, p, lv).Err?
    ensures var k := Parse(ts, p, lv).at;
      p <= k <= |ts| && Parse(Completed(ts, k, w), p, lv) == Ok(e, k + |w|)
  {
    hide Parse, Derives, Completed;
    var k := Parse(ts, p, lv).at;
    w, e := ErrorCompletes(ts, p, lv);
    ParsesExactly(Completed(ts, k, w), p, k + |w|, lv, e);
  }

  /** Whatever is put after the token at which it was found, and the next one, the error stays. */
  lemma ErrorIsEarly(ts: seq<Token>, p: nat, lv: Level, other: seq<Token>)
    requires Lexed(ts) && Lexed(other) && p <= |ts| && p <= |other| && Parse(ts, p, lv).Err?
    requires forall i :: 0 <= i <= Parse(ts, p, lv).at + 1 ==>
      Kind(ts, i) == Kind(other, i) && Text(ts, i) == Text(other, i)
    ensures Parse(other, p, lv) == Parse(ts, p, lv)
  {
    ParseLocal(ts, other, p, lv);
  }
}
