/** How far the parser's cursor can go: where it passes the end mark, and what a qualified column is taken from. */
module ExprEnds {
  import opened Common
  import opened ExprGrammar
  import opened ExprDerivations
  import opened ExprRoundTrip

  /** After a name and a dot any token at all is taken for the column, whatever its type. */
  lemma QualifiedTakesAny(ts: seq<Token>, p: nat)
    requires Lexed(ts) && p <= |ts| && IsName(Kind(ts, p)) && Kind(ts, p + 1) == DOT
    ensures Parse(ts, p, PRIMARY_LEVEL) == Ok(ColumnRef(Text(ts, p + 2), Some(Text(ts, p))), p + 3)
  {
    assert Parse(ts, p, PRIMARY_LEVEL) == ParsePrimary(ts, p) == ParseName(ts, p);
  }

  /**
    Where the cursor may stand after an expression.  Past the end only after a name, a dot and the end mark; after a
    dot only if that dot was itself taken for a column.
  */
  predicate EndsWell(ts: seq<Token>, q: nat) {
    && 1 <= q <= |ts|
    && (q == |ts| ==> q >= 3 && ts[q - 2].kind == DOT && IsName(ts[q - 3].kind))
    && (q < |ts| && ts[q - 1].kind == DOT ==> q >= 2 && ts[q - 2].kind == DOT)
  }

  lemma {:induction false} Ends(ts: seq<Token>, p: nat, lv: Level)
    requires Lexed(ts) && p <= |ts|
    ensures Parse(ts, p, lv).Ok? ==> EndsWell(ts, Parse(ts, p, lv).next)
    decreases |ts| - p, 8 - lv, 1
  {
    hide ParseChain, ParseSuffix, ParseRelation, ParseList, ParsePrimary, ParseName, EndsWell;
    if lv == PRIMARY_LEVEL {
      EndsPrimary(ts, p);
    } else if lv == UNARY_LEVEL || lv == NOT_LEVEL {
      if Kind(ts, p) == (if lv == UNARY_LEVEL then MINUS else T_NOT) {
        Ends(ts, p + 1, lv);
      } else {
        Ends(ts, p, lv + 1);
      }
    } else {
      Ends(ts, p, lv + 1);
      var r := Parse(ts, p, lv + 1);
      if r.Ok? {
        if lv == COMPARISON_LEVEL { EndsSuffix(ts, r.next, r.value); } else { EndsChain(ts, r.next, lv, r.value); }
      }
    }
  }

  lemma {:induction false} EndsChain(ts: seq<Token>, p: nat, lv: Level, left: Expr)
    requires Lexed(ts) && p <= |ts| && IsChain(lv) && EndsWell(ts, p)
    ensures ParseChain(ts, p, lv, left).Ok? ==> EndsWell(ts, ParseChain(ts, p, lv, left).next)
    decreases |ts| - p, 0, 0
  {
    hide Parse, ParseSuffix, ParseRelation, ParseList, ParsePrimary, ParseName, EndsWell;
    var op := ChainOp(lv, Kind(ts, p));
    if op.Some? {
      Ends(ts, p + 1, lv + 1);
      var r := Parse(ts, p + 1, lv + 1);
      if r.Ok? { EndsChain(ts, r.next, lv, BinaryOp(op.value, left, r.value)); }
    }
  }

  lemma {:induction false} EndsSuffix(ts: seq<Token>, p: nat, left: Expr)
    requires Lexed(ts) && p <= |ts| && EndsWell(ts, p)
    ensures ParseSuffix(ts, p, left).Ok? ==> EndsWell(ts, ParseSuffix(ts, p, left).next)
    decreases |ts| - p, 0, 2
  {
    hide Parse, ParseChain, ParseRelation, ParseList, ParsePrimary, ParseName;
    var negated := Kind(ts, p) == T_NOT && Negatable(Kind(ts, p + 1));
    EndsRelation(ts, if negated then p + 1 else p, left, negated);
  }

  lemma {:induction false} EndsRelation(ts: seq<Token>, p: nat, left: Expr, negated: bool)
    requires Lexed(ts) && p <= |ts| && EndsWell(ts, p)
    ensures ParseRelation(ts, p, left, negated).Ok? ==> EndsWell(ts, ParseRelation(ts, p, left, negated).next)
    decreases |ts| - p, 0, 1
  {
    hide Parse, ParseChain, ParseSuffix, ParseList, ParsePrimary, ParseName;
    if Kind(ts, p) == IN {
    } else if Kind(ts, p) == BETWEEN {
      EndsBetween(ts, p, left, negated);
    } else if Kind(ts, p) == LIKE || ComparisonOp(Kind(ts, p)).Some? {
      Ends(ts, p + 1, ADDITION_LEVEL);
    }
  }

  lemma {:induction false} EndsBetween(ts: seq<Token>, p: nat, left: Expr, negated: bool)
    requires Lexed(ts) && p <= |ts| && Kind(ts, p) == BETWEEN
    ensures ParseRelation(ts, p, left, negated).Ok? ==> EndsWell(ts, ParseRelation(ts, p, left, negated).next)
    decreases |ts| - p, 0, 0
  {
    hide Parse, ParseChain, ParseSuffix, ParseList, ParsePrimary, ParseName, EndsWell;
    var r := Parse(ts, p + 1, ADDITION_LEVEL);
    if r.Ok? && Kind(ts, r.next) == T_AND { Ends(ts, r.next + 1, ADDITION_LEVEL); }
  }

  lemma EndsPrimary(ts: seq<Token>, p: nat)
    requires Lexed(ts) && p <= |ts|
    ensures Parse(ts, p, PRIMARY_LEVEL).Ok? ==> EndsWell(ts, Parse(ts, p, PRIMARY_LEVEL).next)
  {
    hide ParseChain, ParseSuffix, ParseRelation, ParseList, ParseName;
    assert Parse(ts, p, PRIMARY_LEVEL) == ParsePrimary(ts, p);
    if IsName(Kind(ts, p)) { EndsName(ts, p); }
  }

  lemma EndsName(ts: seq<Token>, p: nat)
    requires Lexed(ts) && p <= |ts| && IsName(Kind(ts, p))
    ensures ParseName(ts, p).Ok? ==> EndsWell(ts, ParseName(ts, p).next)
  {
    hide Parse, ParseList;
  }

  /**
    A parse that succeeds leaves the cursor past the end exactly when it used up all tokens and the last of them
    before the end mark are a name and a dot.
  */
  lemma PassesEndMark(ts: seq<Token>, p: nat, lv: Level)
    requires Lexed(ts) && p <= |ts| && Parse(ts, p, lv).Ok?
    ensures Parse(ts, p, lv).next == |ts| <==>
      Parse(ts, p, lv).next + 1 >= |ts| >= 3 && ts[|ts| - 2].kind == DOT && IsName(ts[|ts| - 3].kind)
  {
    Ends(ts, p, lv);
    hide Parse;
  }

  // ----- Nothing that could be taken is left -----

  /** The token is no operator of this level, or of a higher one that is on the same side of the comparisons. */
  predicate IsNoOperator(k: TokenType, lv: Level) {
    forall n: Level :: lv <= n && (n < COMPARISON_LEVEL || lv > COMPARISON_LEVEL) ==> ChainOp(n, k).None?
  }

  /** A parse that succeeds has not stopped before an operator: an operator without an operand is an error. */
  lemma {:induction false} LeavesNoOperator(ts: seq<Token>, p: nat, lv: Level)
    requires Lexed(ts) && p <= |ts|
    ensures Parse(ts, p, lv).Ok? ==> IsNoOperator(Kind(ts, Parse(ts, p, lv).next), lv)
    decreases |ts| - p, 8 - lv, 1
  {
    hide ParseChain, ParseSuffix, ParsePrimary, Kind, Lexed;
    if IsChain(lv) && Parse(ts, p, lv + 1).Ok? {
      LeavesNoOperator(ts, p, lv + 1);
      ChainLeavesNone(ts, Parse(ts, p, lv + 1).next, lv, Parse(ts, p, lv + 1).value);
    }
  }

  lemma {:induction false} ChainLeavesNone(ts: seq<Token>, p: nat, lv: Level, left: Expr)
    requires Lexed(ts) && p <= |ts| && IsChain(lv) && IsNoOperator(Kind(ts, p), lv + 1)
    ensures ParseChain(ts, p, lv, left).Ok? ==> IsNoOperator(Kind(ts, ParseChain(ts, p, lv, left).next), lv)
    decreases |ts| - p, 0, 0
  {
    hide Parse;
    var op := ChainOp(lv, Kind(ts, p));
    if op.Some? {
      LeavesNoOperator(ts, p + 1, lv + 1);
      var r := Parse(ts, p + 1, lv + 1);
      if r.Ok? { ChainLeavesNone(ts, r.next, lv, BinaryOp(op.value, left, r.value)); }
    }
  }

  /** Nor before what makes a comparison of what stands on its left. */
  lemma TakesSuffix(ts: seq<Token>, p: nat)
    requires Lexed(ts) && p <= |ts| && Parse(ts, p, ADDITION_LEVEL).Ok?
    ensures var q := Parse(ts, p, ADDITION_LEVEL).next; var k, r := Kind(ts, q), Parse(ts, p, COMPARISON_LEVEL);
      if k in {IS, BETWEEN, IN, LIKE, EQUALS, NOT_EQUALS, LESS, GREATER, LESS_EQUALS, GREATER_EQUALS}
        || (k == T_NOT && Kind(ts, q + 1) in {BETWEEN, IN, LIKE})
      then
        r.Ok? ==>
          && r.next > q + 1 && LevelOf(r.value) == COMPARISON_LEVEL
          && LeftOf(r.value) == Parse(ts, p, ADDITION_LEVEL).value
      else r == Parse(ts, p, ADDITION_LEVEL)
  {
    hide ParseChain, ParsePrimary, ParseList;
    var left, q := Parse(ts, p, ADDITION_LEVEL).value, Parse(ts, p, ADDITION_LEVEL).next;
    Compared(ts, p, left, q);
    hide Parse;
  }

  /** So it does, for one, on a name and a dot with nothing after them. */
  lemma DotTakesEndMark(table: string)
    ensures Parse([Token(IDENTIFIER, table), Token(DOT, "."), END], 0, OR_LEVEL) == Ok(ColumnRef("", Some(table)), 3)
  {
    var ts := [Token(IDENTIFIER, table), Token(DOT, "."), END];
    QualifiedTakesAny(ts, 0);
    ClimbDown(ts, 0, ColumnRef("", Some(table)), 3, UNARY_LEVEL);
  }

  /** A primary, where nothing that could follow it does, is an expression of every level. */
  lemma {:induction false} ClimbDown(ts: seq<Token>, p: nat, e: Expr, q: nat, lv: Level)
    requires Lexed(ts) && p <= |ts| && lv < PRIMARY_LEVEL && Parse(ts, p, lv + 1) == Ok(e, q)
    requires Kind(ts, q) == EOF && Kind(ts, p) != T_NOT && Kind(ts, p) != MINUS
    ensures Parse(ts, p, OR_LEVEL) == Ok(e, q)
    decreases lv
  {
    hide Parse;
    CloserStops(ts, q, lv);
    Descends(ts, p, lv, e, q);
    if lv > 0 { ClimbDown(ts, p, e, q, lv - 1); }
  }
}
