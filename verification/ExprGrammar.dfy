/**
  Expressions of the SQL parser (pysql/parser.py, pysql/ast_nodes.py): trees, tokens, parsing and printing as
  functions.
*/
module ExprGrammar {
  import opened Common

  datatype BinaryOpType = ADD | SUB | MUL | DIV | MOD | EQ | NEQ | LT | GT | LTE | GTE | AND | OR | CONCAT

  datatype Expr =
    | NullLiteral
    | BooleanLiteral(value: bool)
    | IntegerLiteral(text: string)
    | FloatLiteral(text: string)
    | StringLiteral(text: string)
    | ColumnRef(column: string, table: Option<string>)
    | FunctionCall(name: string, args: seq<Expr>, distinct: bool)
    | StarExpr
    | Negate(operand: Expr)
    | Not(operand: Expr)
    | BinaryOp(op: BinaryOpType, left: Expr, right: Expr)
    | BetweenExpr(expr: Expr, low: Expr, high: Expr, negated: bool)
    | InExpr(expr: Expr, values: seq<Expr>, negated: bool)
    | LikeExpr(expr: Expr, pattern: Expr, negated: bool)
    | IsNullExpr(expr: Expr, negated: bool)

  /** OTHER stands for every token type that no expression of this fragment contains. */
  datatype TokenType =
    | INTEGER_LITERAL | FLOAT_LITERAL | STRING_LITERAL | BOOLEAN_LITERAL | NULL_LITERAL | IDENTIFIER | QUOTED_IDENTIFIER
    | T_NOT | T_AND | T_OR | IN | BETWEEN | LIKE | IS | DISTINCT | SELECT
    | PLUS | MINUS | STAR | SLASH | PERCENT | T_CONCAT
    | EQUALS | NOT_EQUALS | LESS | GREATER | LESS_EQUALS | GREATER_EQUALS
    | LPAREN | RPAREN | COMMA | DOT | EOF | OTHER

  datatype Token = Token(kind: TokenType, text: string)

  /** What was parsed and where the cursor stands after it; or where an error was raised. */
  datatype Result<T> = Ok(value: T, next: nat) | Err(at: nat)

  // ----- Levels of precedence -----

  const OR_LEVEL := 0
  const AND_LEVEL := 1
  const NOT_LEVEL := 2
  const COMPARISON_LEVEL := 3
  const ADDITION_LEVEL := 4
  const MULTIPLICATION_LEVEL := 5
  const UNARY_LEVEL := 6
  const PRIMARY_LEVEL := 7

  type Level = n: nat | n <= 7

  /** The levels that are loops over operands of the next level. */
  predicate IsChain(lv: Level) {
    lv == OR_LEVEL || lv == AND_LEVEL || lv == ADDITION_LEVEL || lv == MULTIPLICATION_LEVEL
  }

  /** The operator that a token stands for at a chain level. */
  function ChainOp(lv: Level, k: TokenType): Option<BinaryOpType> {
    match k
    case T_OR => if lv == OR_LEVEL then Some(OR) else None
    case T_AND => if lv == AND_LEVEL then Some(AND) else None
    case PLUS => if lv == ADDITION_LEVEL then Some(ADD) else None
    case MINUS => if lv == ADDITION_LEVEL then Some(SUB) else None
    case T_CONCAT => if lv == ADDITION_LEVEL then Some(CONCAT) else None
    case STAR => if lv == MULTIPLICATION_LEVEL then Some(MUL) else None
    case SLASH => if lv == MULTIPLICATION_LEVEL then Some(DIV) else None
    case PERCENT => if lv == MULTIPLICATION_LEVEL then Some(MOD) else None
    case _ => None
  }

  function ComparisonOp(k: TokenType): Option<BinaryOpType> {
    match k
    case EQUALS => Some(EQ)
    case NOT_EQUALS => Some(NEQ)
    case LESS => Some(LT)
    case GREATER => Some(GT)
    case LESS_EQUALS => Some(LTE)
    case GREATER_EQUALS => Some(GTE)
    case _ => None
  }

  function OpLevel(op: BinaryOpType): Level {
    match op
    case OR => OR_LEVEL
    case AND => AND_LEVEL
    case EQ | NEQ | LT | GT | LTE | GTE => COMPARISON_LEVEL
    case ADD | SUB | CONCAT => ADDITION_LEVEL
    case MUL | DIV | MOD => MULTIPLICATION_LEVEL
  }

  /** The level of the rule that produces an expression. */
  function LevelOf(e: Expr): Level {
    match e
    case BinaryOp(op, _, _) => OpLevel(op)
    case Not(_) => NOT_LEVEL
    case BetweenExpr(_, _, _, _) => COMPARISON_LEVEL
    case InExpr(_, _, _) => COMPARISON_LEVEL
    case LikeExpr(_, _, _) => COMPARISON_LEVEL
    case IsNullExpr(_, _) => COMPARISON_LEVEL
    case Negate(_) => UNARY_LEVEL
    case _ => PRIMARY_LEVEL
  }

  // ----- Parsing -----

  /** What the lexer produces: the last token marks the end. */
  predicate Lexed(ts: seq<Token>) {
    ts != [] && ts[|ts| - 1].kind == EOF
  }

  /** The type of the token under the cursor; past the end it is that of the last token. */
  function Kind(ts: seq<Token>, p: nat): TokenType
    requires Lexed(ts)
  {
    if p < |ts| then ts[p].kind else EOF
  }

  function Text(ts: seq<Token>, p: nat): string
    requires Lexed(ts)
  {
    if p < |ts| then ts[p].text else ts[|ts| - 1].text
  }

  predicate Good<T>(ts: seq<Token>, p: nat, r: Result<T>) {
    if r.Ok? then p < r.next <= |ts| else p <= r.at <= |ts|
  }

  /** Parses an expression of the given level at position p. */
  function Parse(ts: seq<Token>, p: nat, lv: Level): (r: Result<Expr>)
    requires Lexed(ts) && p <= |ts|
    ensures Good(ts, p, r)
    decreases |ts| - p, 8 - lv, 1
  {
    if lv == PRIMARY_LEVEL then ParsePrimary(ts, p)
    else if lv == UNARY_LEVEL then
      if Kind(ts, p) == MINUS then
        match Parse(ts, p + 1, UNARY_LEVEL)
        case Err(at) => Err(at)
        case Ok(e, q) => Ok(Negate(e), q)
      else Parse(ts, p, PRIMARY_LEVEL)
    else if lv == NOT_LEVEL then
      if Kind(ts, p) == T_NOT then
        match Parse(ts, p + 1, NOT_LEVEL)
        case Err(at) => Err(at)
        case Ok(e, q) => Ok(Not(e), q)
      else Parse(ts, p, COMPARISON_LEVEL)
    else
      match Parse(ts, p, lv + 1)
      case Err(at) => Err(at)
      case Ok(e, q) => if lv == COMPARISON_LEVEL then ParseSuffix(ts, q, e) else ParseChain(ts, q, lv, e)
  }

  /** The rest of a chain of left-associative operators, `left` having been parsed. */
  function ParseChain(ts: seq<Token>, p: nat, lv: Level, left: Expr): (r: Result<Expr>)
    requires Lexed(ts) && p <= |ts| && IsChain(lv)
    ensures if r.Ok? then p <= r.next <= |ts| else p <= r.at <= |ts|
    decreases |ts| - p, 0, 0
  {
    var op := ChainOp(lv, Kind(ts, p));
    if op.None? then Ok(left, p)
    else
      match Parse(ts, p + 1, lv + 1)
      case Err(at) => Err(at)
      case Ok(right, q) => ParseChain(ts, q, lv, BinaryOp(op.value, left, right))
  }

  predicate Negatable(k: TokenType) {
    k == BETWEEN || k == IN || k == LIKE
  }

  /** What may follow the left side of a comparison. */
  function ParseSuffix(ts: seq<Token>, p: nat, left: Expr): (r: Result<Expr>)
    requires Lexed(ts) && p <= |ts|
    ensures if r.Ok? then p <= r.next <= |ts| else p <= r.at <= |ts|
    decreases |ts| - p, 0, 1
  {
    if Kind(ts, p) == IS then
      var negated := Kind(ts, p + 1) == T_NOT;
      var q := if negated then p + 2 else p + 1;
      if Kind(ts, q) == NULL_LITERAL then Ok(IsNullExpr(left, negated), q + 1) else Err(q)
    else
      var negated := Kind(ts, p) == T_NOT && Negatable(Kind(ts, p + 1));
      ParseRelation(ts, if negated then p + 1 else p, left, negated)
  }

  function ParseRelation(ts: seq<Token>, p: nat, left: Expr, negated: bool): (r: Result<Expr>)
    requires Lexed(ts) && p <= |ts|
    ensures if r.Ok? then p <= r.next <= |ts| else p <= r.at <= |ts|
    decreases |ts| - p, 0, 0
  {
    if Kind(ts, p) == BETWEEN then
      match Parse(ts, p + 1, ADDITION_LEVEL)
      case Err(at) => Err(at)
      case Ok(low, q) =>
        if Kind(ts, q) != T_AND then Err(q)
        else
          match Parse(ts, q + 1, ADDITION_LEVEL)
          case Err(at) => Err(at)
          case Ok(high, q) => Ok(BetweenExpr(left, low, high, negated), q)
    else if Kind(ts, p) == IN then
      if Kind(ts, p + 1) != LPAREN then Err(p + 1)
      else if Kind(ts, p + 2) == SELECT then Err(p + 2)
      else
        match ParseList(ts, p + 2, [])
        case Err(at) => Err(at)
        case Ok(values, q) => if Kind(ts, q) == RPAREN then Ok(InExpr(left, values, negated), q + 1) else Err(q)
    else if Kind(ts, p) == LIKE then
      match Parse(ts, p + 1, ADDITION_LEVEL)
      case Err(at) => Err(at)
      case Ok(pattern, q) => Ok(LikeExpr(left, pattern, negated), q)
    else
      var op := ComparisonOp(Kind(ts, p));
      if op.None? then Ok(left, p)
      else
        match Parse(ts, p + 1, ADDITION_LEVEL)
        case Err(at) => Err(at)
        case Ok(right, q) => Ok(BinaryOp(op.value, left, right), q)
  }

  /** A comma-separated list, `before` having been parsed. */
  function ParseList(ts: seq<Token>, p: nat, before: seq<Expr>): (r: Result<seq<Expr>>)
    requires Lexed(ts) && p <= |ts|
    ensures Good(ts, p, r)
    decreases |ts| - p, 8, 2
  {
    match Parse(ts, p, OR_LEVEL)
    case Err(at) => Err(at)
    case Ok(e, q) => if Kind(ts, q) == COMMA then ParseList(ts, q + 1, before + [e]) else Ok(before + [e], q)
  }

  function ParsePrimary(ts: seq<Token>, p: nat): (r: Result<Expr>)
    requires Lexed(ts) && p <= |ts|
    ensures Good(ts, p, r)
    decreases |ts| - p, 0, 0
  {
    match Kind(ts, p)
    case NULL_LITERAL => Ok(NullLiteral, p + 1)
    case BOOLEAN_LITERAL => Ok(BooleanLiteral(Text(ts, p) == "TRUE"), p + 1)
    case INTEGER_LITERAL => Ok(IntegerLiteral(Text(ts, p)), p + 1)
    case FLOAT_LITERAL => Ok(FloatLiteral(Text(ts, p)), p + 1)
    case STRING_LITERAL => Ok(StringLiteral(Text(ts, p)), p + 1)
    case LPAREN =>
      if Kind(ts, p + 1) == SELECT then Err(p + 1)
      else (
        match Parse(ts, p + 1, OR_LEVEL)
        case Err(at) => Err(at)
        case Ok(e, q) => if Kind(ts, q) == RPAREN then Ok(e, q + 1) else Err(q)
      )
    case IDENTIFIER => ParseName(ts, p)
    case QUOTED_IDENTIFIER => ParseName(ts, p)
    case STAR => Ok(StarExpr, p + 1)
    case _ => Err(p)
  }

  /** A function call, a qualified column or a column, by what follows the name at p. */
  function ParseName(ts: seq<Token>, p: nat): (r: Result<Expr>)
    requires Lexed(ts) && p < |ts| && Kind(ts, p) != EOF
    ensures Good(ts, p, r)
    decreases |ts| - p - 1, 9, 0
  {
    var name := Text(ts, p);
    if Kind(ts, p + 1) == LPAREN then
      if Kind(ts, p + 2) == RPAREN then Ok(FunctionCall(name, [], false), p + 3)
      else
        var distinct := Kind(ts, p + 2) == DISTINCT;
        match ParseList(ts, if distinct then p + 3 else p + 2, [])
        case Err(at) => Err(at)
        case Ok(args, q) => if Kind(ts, q) == RPAREN then Ok(FunctionCall(name, args, distinct), q + 1) else Err(q)
    else if Kind(ts, p + 1) == DOT then Ok(ColumnRef(Text(ts, p + 2), Some(name)), p + 3)
    else Ok(ColumnRef(name, None), p + 1)
  }

  // ----- Printing -----

  function OpToken(op: BinaryOpType): Token {
    match op
    case ADD => Token(PLUS, "+")
    case SUB => Token(MINUS, "-")
    case MUL => Token(STAR, "*")
    case DIV => Token(SLASH, "/")
    case MOD => Token(PERCENT, "%")
    case EQ => Token(EQUALS, "=")
    case NEQ => Token(NOT_EQUALS, "<>")
    case LT => Token(LESS, "<")
    case GT => Token(GREATER, ">")
    case LTE => Token(LESS_EQUALS, "<=")
    case GTE => Token(GREATER_EQUALS, ">=")
    case AND => Token(T_AND, "AND")
    case OR => Token(T_OR, "OR")
    case CONCAT => Token(T_CONCAT, "||")
  }

  /** Each operator is written with one token, and binds at its own level only. */
  lemma OnlyItsToken(lv: Level, k: TokenType, op: BinaryOpType)
    ensures ChainOp(lv, k) == Some(op) <==> OpLevel(op) == lv != COMPARISON_LEVEL && OpToken(op).kind == k
    ensures ComparisonOp(k) == Some(op) <==> OpLevel(op) == COMPARISON_LEVEL && OpToken(op).kind == k
  {
  }

  function NotIf(negated: bool): seq<Token> {
    if negated then [Token(T_NOT, "NOT")] else []
  }

  /** The tokens of an expression where one of at least the given level is wanted: bracketed only if of a lower one. */
  function Print(e: Expr, lv: Level): seq<Token>
    decreases e, 1
  {
    if LevelOf(e) < lv then [Token(LPAREN, "(")] + Bare(e) + [Token(RPAREN, ")")] else Bare(e)
  }

  function Bare(e: Expr): seq<Token>
    decreases e, 0
  {
    match e
    case NullLiteral => [Token(NULL_LITERAL, "NULL")]
    case BooleanLiteral(b) => [Token(BOOLEAN_LITERAL, if b then "TRUE" else "FALSE")]
    case IntegerLiteral(text) => [Token(INTEGER_LITERAL, text)]
    case FloatLiteral(text) => [Token(FLOAT_LITERAL, text)]
    case StringLiteral(text) => [Token(STRING_LITERAL, text)]
    case ColumnRef(column, None) => [Token(IDENTIFIER, column)]
    case ColumnRef(column, Some(table)) => [Token(IDENTIFIER, table), Token(DOT, "."), Token(IDENTIFIER, column)]
    case FunctionCall(name, args, distinct) =>
      [Token(IDENTIFIER, name), Token(LPAREN, "(")] + (if distinct then [Token(DISTINCT, "DISTINCT")] else [])
      + PrintList(args) + [Token(RPAREN, ")")]
    case StarExpr => [Token(STAR, "*")]
    case Negate(x) => [Token(MINUS, "-")] + Print(x, UNARY_LEVEL)
    case Not(x) => [Token(T_NOT, "NOT")] + Print(x, NOT_LEVEL)
    case BinaryOp(op, l, r) =>
      var lv := OpLevel(op);
      Print(l, if lv == COMPARISON_LEVEL then ADDITION_LEVEL else lv) + [OpToken(op)] + Print(r, lv + 1)
    case BetweenExpr(x, low, high, negated) =>
      Print(x, ADDITION_LEVEL) + NotIf(negated) + [Token(BETWEEN, "BETWEEN")] + Print(low, ADDITION_LEVEL)
      + [Token(T_AND, "AND")] + Print(high, ADDITION_LEVEL)
    case InExpr(x, values, negated) =>
      Print(x, ADDITION_LEVEL) + NotIf(negated) + [Token(IN, "IN"), Token(LPAREN, "(")]
      + PrintList(values) + [Token(RPAREN, ")")]
    case LikeExpr(x, pattern, negated) =>
      Print(x, ADDITION_LEVEL) + NotIf(negated) + [Token(LIKE, "LIKE")] + Print(pattern, ADDITION_LEVEL)
    case IsNullExpr(x, negated) =>
      Print(x, ADDITION_LEVEL) + [Token(IS, "IS")] + NotIf(negated) + [Token(NULL_LITERAL, "NULL")]
  }

  function PrintList(es: seq<Expr>): seq<Token>
    decreases es
  {
    if es == [] then []
    else if |es| == 1 then Print(es[0], OR_LEVEL)
    else Print(es[0], OR_LEVEL) + [Token(COMMA, ",")] + PrintList(es[1..])
  }

  /** Trees the parser builds: an IN list is not empty, nor is the list after DISTINCT. */
  predicate Buildable(e: Expr) {
    match e
    case FunctionCall(_, args, distinct) =>
      (distinct ==> args != []) && forall i :: 0 <= i < |args| ==> Buildable(args[i])
    case InExpr(x, values, _) => Buildable(x) && values != [] && forall i :: 0 <= i < |values| ==> Buildable(values[i])
    case Negate(x) => Buildable(x)
    case Not(x) => Buildable(x)
    case BinaryOp(_, l, r) => Buildable(l) && Buildable(r)
    case BetweenExpr(x, low, high, _) => Buildable(x) && Buildable(low) && Buildable(high)
    case LikeExpr(x, pattern, _) => Buildable(x) && Buildable(pattern)
    case IsNullExpr(x, _) => Buildable(x)
    case _ => true
  }
}
