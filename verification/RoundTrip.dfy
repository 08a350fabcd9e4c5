/** The parser against the token sequence of a tree: canonical trees parse back, and parsing only makes canonical trees. */
module RoundTrip {
  import opened Prelude
  import opened Ast
  import opened Lexer
  import opened Parser

  // ----- the tokens of a tree -----

  function Spelling(op: BinOp): string {
    match op
    case Plus => "+"
    case Minus => "-"
    case Star => "*"
    case Slash => "/"
    case Percent => "%"
    case Assign => "="
    case EqEq => "=="
    case NotEq => "!="
    case Lt => "<"
    case Gt => ">"
    case Le => "<="
    case Ge => ">="
    case AndAnd => "&&"
    case OrOr => "||"
  }

  function Digit(n: nat): (c: char)
    requires n < 10
    ensures IsDigit(c) && DigitValue(c) == n
  {
    '0' + n as char
  }

  /** Decimal notation. */
  function Digits(n: nat): string {
    if n < 10 then [Digit(n)] else Digits(n / 10) + [Digit(n % 10)]
  }

  lemma {:induction false} DigitsReadBack(n: nat)
    ensures AllDigits(Digits(n)) && Decimal(Digits(n)) == n
  {
    if n >= 10 {
      DigitsReadBack(n / 10);
      var s := Digits(n / 10);
      assert (s + [Digit(n % 10)])[..|s|] == s;
    } else {
      assert [Digit(n)][..0] == [];
    }
  }

  /** Trees of non-negative integers, booleans, strings, names, calls, operators and conditionals. */
  predicate Written(e: Expr)
    decreases e, 1
  {
    match e
    case IntLiteral(n) => n >= 0
    case StringLiteral(_) => true
    case BoolLiteral(_) => true
    case Ident(name) => name !in OPTION_WORDS
    case BinaryOp(l, _, r) => Written(l) && Written(r)
    case UnaryOp(_, operand) => Written(operand)
    case Call(func, args) => (func.Ident? || func.Call?) && Written(func) && WrittenAll(args)
    case IfExpr(c, t, f) => Written(c) && Written(t) && Written(f)
    case _ => false
  }

  predicate WrittenAll(es: seq<Expr>)
    decreases es, 0
  {
    es == [] || (Written(es[0]) && WrittenAll(es[1..]))
  }

  const OPEN := Lexeme(LParen, "(")
  const CLOSE := Lexeme(RParen, ")")
  const COMMA := Lexeme(Comma, ",")
  const IF := Lexeme(Keyword, "if")
  const ELSE := Lexeme(Keyword, "else")
  const OPENBLOCK := Lexeme(LBrace, "{")
  const CLOSEBLOCK := Lexeme(RBrace, "}")

  function OpLexeme(op: BinOp): Lexeme {
    Lexeme(Operator(op), Spelling(op))
  }

  function UnLexeme(op: UnOp): Lexeme {
    if op == Not then Lexeme(Bang, "!") else OpLexeme(Minus)
  }

  /** The tokens of a tree in order, without any grouping parentheses. */
  function TokensOf(e: Expr): seq<Lexeme>
    requires Written(e)
    decreases e, 1
  {
    match e
    case IntLiteral(n) => [Lexeme(IntLit, Digits(n))]
    case StringLiteral(s) => [Lexeme(StrLit, s)]
    case BoolLiteral(b) => [Lexeme(BoolLit, if b then "true" else "false")]
    case Ident(name) => [Lexeme(Identifier, name)]
    case BinaryOp(l, op, r) => TokensOf(l) + [OpLexeme(op)] + TokensOf(r)
    case UnaryOp(op, operand) => [UnLexeme(op)] + TokensOf(operand)
    case Call(func, args) => TokensOf(func) + ([OPEN] + ArgTokens(args) + [CLOSE])
    case IfExpr(c, t, f) => Conditional(TokensOf(c), TokensOf(t), TokensOf(f))
  }

  function Conditional(c: seq<Lexeme>, t: seq<Lexeme>, f: seq<Lexeme>): seq<Lexeme> {
    [IF] + (c + (Braced(t) + ([ELSE] + Braced(f))))
  }

  function Braced(ls: seq<Lexeme>): seq<Lexeme> {
    [OPENBLOCK] + (ls + [CLOSEBLOCK])
  }

  function ArgTokens(es: seq<Expr>): seq<Lexeme>
    requires WrittenAll(es)
    decreases es, 0
  {
    if es == [] then []
    else if |es| == 1 then TokensOf(es[0])
    else TokensOf(es[0]) + ([COMMA] + ArgTokens(es[1..]))
  }

  /** The precedence of the operator at the root; everything else binds tighter than any operator. */
  function Top(e: Expr): nat {
    if e.BinaryOp? then Prec(e.op) else 7
  }

  /** The first token of the tree is an `if`. */
  predicate StartsIf(e: Expr) {
    match e
    case IfExpr(_, _, _) => true
    case BinaryOp(l, _, _) => StartsIf(l)
    case Call(func, _) => StartsIf(func)
    case Pipe(input, _) => StartsIf(input)
    case _ => false
  }

  /** No operand needs parentheses: left sides bind at least as tightly as their operator, right sides more tightly. And no
      branch begins with an `if`, which would be taken for a statement. */
  predicate Canonical(e: Expr)
    decreases e, 1
  {
    match e
    case BinaryOp(l, op, r) => Canonical(l) && Canonical(r) && Top(l) >= Prec(op) && Top(r) > Prec(op)
    case UnaryOp(_, operand) => Canonical(operand) && !operand.BinaryOp?
    case Call(func, args) => Canonical(func) && CanonicalAll(args)
    case IfExpr(c, t, f) => Canonical(c) && Canonical(t) && Canonical(f) && !StartsIf(t) && !StartsIf(f)
    case _ => true
  }

  predicate CanonicalAll(es: seq<Expr>)
    decreases es, 0
  {
    es == [] || (Canonical(es[0]) && CanonicalAll(es[1..]))
  }

  // ----- the tokens of a canonical tree parse back to it -----

  /** A token that cannot continue a primary expression. */
  predicate Quiet(l: Lexeme) {
    l.kind != LParen && l.kind != Dot && l.kind != LBracket && l.kind != DoubleDot
  }

  predicate Spelled(ts: seq<Lexeme>, p: nat, e: Expr) {
    Written(e) && Canonical(e) && At(ts, p, TokensOf(e))
  }

  function EndOf(p: nat, e: Expr): nat
    requires Written(e)
  {
    p + |TokensOf(e)|
  }

  lemma {:induction false} NotEmpty(e: Expr)
    requires Written(e)
    ensures TokensOf(e) != []
    decreases e
  {
    match e {
      case UnaryOp(_, _) =>
      case Call(func, _) => NotEmpty(func);
      case _ =>
    }
  }

  lemma {:induction false} UnaryBack(ts: seq<Lexeme>, p: nat, e: Expr)
    requires Spelled(ts, p, e) && !e.BinaryOp? && Quiet(Cur(ts, EndOf(p, e)))
    ensures ParseUnary(ts, p) == Parsed(e, EndOf(p, e))
    decreases e, 2
  {
    hide ParsePrimary, Spelled, At, TokensOf, Written, Canonical;
    if e.UnaryOp? {
      UnaryParts(ts, p, e);
      UnaryBack(ts, p + 1, e.operand);
    } else if e.Ident? || e.Call? {
      PostfixBack(ts, p, e);
      NameStarts(ts, p, e);
    } else if e.IfExpr? {
      IfBack(ts, p, e);
    } else {
      SpelledMeansWritten(ts, p, e);
      LiteralBack(ts, p, e);
    }
  }

  lemma SpelledMeansWritten(ts: seq<Lexeme>, p: nat, e: Expr)
    requires Spelled(ts, p, e)
    ensures Written(e)
    ensures e.IntLiteral? || e.StringLiteral? || e.BoolLiteral? || e.Ident? || e.BinaryOp? || e.UnaryOp? || e.Call? || e.IfExpr?
  {
  }

  lemma UnaryParts(ts: seq<Lexeme>, p: nat, e: Expr)
    requires Spelled(ts, p, e) && e.UnaryOp?
    ensures Spelled(ts, p + 1, e.operand) && !e.operand.BinaryOp? && EndOf(p + 1, e.operand) == EndOf(p, e)
    ensures p < |ts| && ts[p] == UnLexeme(e.uop)
  {
    AtSplit(ts, p, [UnLexeme(e.uop)], TokensOf(e.operand));
    AtIndex(ts, p, [UnLexeme(e.uop)], 0);
  }

  /** A conditional: its parts, and where they stand; `q` is the brace behind the condition, `r` the one behind the branch. */
  lemma IfPlaces(ts: seq<Lexeme>, p: nat, e: Expr) returns (q: nat, r: nat)
    requires Written(e) && e.IfExpr? && At(ts, p, TokensOf(e))
    ensures Written(e.cond) && Written(e.thn) && Written(e.els)
    ensures q == EndOf(p + 1, e.cond) && r == EndOf(q + 1, e.thn) && EndOf(p, e) == EndOf(r + 3, e.els) + 1
    ensures p < q < r && r + 3 < EndOf(p, e) <= |ts|
    ensures ts[p] == IF && ts[q] == OPENBLOCK && ts[r] == CLOSEBLOCK && ts[r + 1] == ELSE && ts[r + 2] == OPENBLOCK
    ensures ts[EndOf(p, e) - 1] == CLOSEBLOCK
    ensures At(ts, p + 1, TokensOf(e.cond)) && At(ts, q + 1, TokensOf(e.thn)) && At(ts, r + 3, TokensOf(e.els))
  {
    hide TokensOf, Written, Conditional, At;
    IfTokens(e);
    q, r := p + 1 + |TokensOf(e.cond)|, p + 2 + |TokensOf(e.cond)| + |TokensOf(e.thn)|;
    NotEmpty(e.els);
    ConditionalAt(ts, p, TokensOf(e.cond), TokensOf(e.thn), TokensOf(e.els));
  }

  lemma ConditionalAt(ts: seq<Lexeme>, p: nat, c: seq<Lexeme>, t: seq<Lexeme>, f: seq<Lexeme>)
    requires At(ts, p, Conditional(c, t, f))
    ensures var q := p + 1 + |c|;
            var r := q + 1 + |t|;
            && r + 3 + |f| < |ts| && ts[p] == IF && ts[q] == OPENBLOCK && ts[r] == CLOSEBLOCK && ts[r + 1] == ELSE
            && ts[r + 2] == OPENBLOCK && ts[r + 3 + |f|] == CLOSEBLOCK
            && At(ts, p + 1, c) && At(ts, q, Braced(t)) && At(ts, q + 1, t) && At(ts, r + 3, f)
    ensures |Conditional(c, t, f)| == |c| + |t| + |f| + 6
  {
    hide Braced, At;
    BracedLength(t);
    BracedLength(f);
    FirstHalf(ts, p, c, t, [ELSE] + Braced(f));
    SecondHalf(ts, p + 3 + |c| + |t|, f);
  }

  lemma FirstHalf(ts: seq<Lexeme>, p: nat, c: seq<Lexeme>, t: seq<Lexeme>, rest: seq<Lexeme>)
    requires At(ts, p, [IF] + (c + (Braced(t) + rest)))
    ensures var q := p + 1 + |c|;
            var r := q + 1 + |t|;
            && r < |ts| && ts[p] == IF && ts[q] == OPENBLOCK && ts[r] == CLOSEBLOCK
            && At(ts, p + 1, c) && At(ts, q, Braced(t)) && At(ts, q + 1, t) && At(ts, r + 1, rest)
  {
    hide Braced, At;
    AtSplit(ts, p, [IF], c + (Braced(t) + rest));
    AtIndex(ts, p, [IF], 0);
    AtSplit(ts, p + 1, c, Braced(t) + rest);
    AtSplit(ts, p + 1 + |c|, Braced(t), rest);
    BracedParts(ts, p + 1 + |c|, t);
  }

  lemma SecondHalf(ts: seq<Lexeme>, p: nat, f: seq<Lexeme>)
    requires At(ts, p, [ELSE] + Braced(f))
    ensures p + 2 + |f| < |ts| && ts[p] == ELSE && ts[p + 1] == OPENBLOCK && At(ts, p + 2, f) && ts[p + 2 + |f|] == CLOSEBLOCK
  {
    hide Braced, At;
    AtSplit(ts, p, [ELSE], Braced(f));
    AtIndex(ts, p, [ELSE], 0);
    BracedParts(ts, p + 1, f);
  }

  lemma IfTokens(e: Expr)
    requires Written(e) && e.IfExpr?
    ensures Written(e.cond) && Written(e.thn) && Written(e.els)
    ensures TokensOf(e) == Conditional(TokensOf(e.cond), TokensOf(e.thn), TokensOf(e.els))
  {
  }

  lemma BracedParts(ts: seq<Lexeme>, p: nat, ls: seq<Lexeme>)
    requires At(ts, p, Braced(ls))
    ensures p + 1 + |ls| < |ts| && ts[p] == OPENBLOCK && At(ts, p + 1, ls) && ts[p + 1 + |ls|] == CLOSEBLOCK
    ensures |Braced(ls)| == |ls| + 2
  {
    AtSplit(ts, p, [OPENBLOCK], ls + [CLOSEBLOCK]);
    AtIndex(ts, p, [OPENBLOCK], 0);
    AtSplit(ts, p + 1, ls, [CLOSEBLOCK]);
    AtIndex(ts, p + 1 + |ls|, [CLOSEBLOCK], 0);
  }

  lemma IfSpelled(ts: seq<Lexeme>, p: nat, e: Expr) returns (q: nat, r: nat)
    requires Spelled(ts, p, e) && e.IfExpr?
    ensures Written(e) && Written(e.cond) && Written(e.thn) && Written(e.els) && !StartsIf(e.thn) && !StartsIf(e.els)
    ensures q == EndOf(p + 1, e.cond) && r == EndOf(q + 1, e.thn) && EndOf(p, e) == EndOf(r + 3, e.els) + 1
    ensures p < q < r && r + 3 < EndOf(p, e) <= |ts|
    ensures ts[p] == IF && ts[q] == OPENBLOCK && ts[r] == CLOSEBLOCK && ts[r + 1] == ELSE && ts[r + 2] == OPENBLOCK
    ensures ts[EndOf(p, e) - 1] == CLOSEBLOCK
    ensures Spelled(ts, p + 1, e.cond) && Spelled(ts, q + 1, e.thn) && Spelled(ts, r + 3, e.els)
  {
    hide At, TokensOf, StartsIf;
    q, r := IfPlaces(ts, p, e);
  }

  /** The statement a conditional is read as. */
  function AsStatement(e: Expr): Stmt
    requires e.IfExpr?
  {
    If(e.cond, [ExprStmt(e.thn)], [ExprStmt(e.els)])
  }

  lemma {:induction false} IfBack(ts: seq<Lexeme>, p: nat, e: Expr)
    requires Spelled(ts, p, e) && e.IfExpr?
    ensures p < |ts| && ts[p] == IF && ParsePrimary(ts, p) == Parsed(e, EndOf(p, e))
    ensures ParseIf(ts, p + 1) == ParsedStmt(AsStatement(e), EndOf(p, e))
    decreases e, 1
  {
    hide Spelled, At, TokensOf, Written, Canonical, ParseExpr, ParseBlock, ParseIf, ParsePrimary, StartsIf;
    SpelledMeansWritten(ts, p, e);
    var q, r := IfSpelled(ts, p, e);
    ExprBack(ts, p + 1, e.cond);
    BranchBack(ts, q, e.thn);
    BranchBack(ts, r + 2, e.els);
    IfUnfolds(ts, p, e.cond, q, [ExprStmt(e.thn)], r, [ExprStmt(e.els)], EndOf(p, e));
  }

  lemma BranchValue(e: Expr)
    ensures StmtsToExpr([ExprStmt(e)]) == e
  {
  }

  lemma IfUnfolds(ts: seq<Lexeme>, p: nat, c: Expr, q: nat, t: seq<Stmt>, r: nat, f: seq<Stmt>, end: nat)
    requires p < q < r && r + 2 < |ts| && ts[p] == IF && ts[r + 1] == ELSE && ts[r + 2] == OPENBLOCK
    requires ParseExpr(ts, p + 1) == Parsed(c, q) && ParseBlock(ts, q) == ParsedBody(t, r + 1)
    requires ParseBlock(ts, r + 2) == ParsedBody(f, end)
    ensures ParseIf(ts, p + 1) == ParsedStmt(If(c, t, f), end)
    ensures ParsePrimary(ts, p) == Parsed(IfExpr(c, StmtsToExpr(t), StmtsToExpr(f)), end)
  {
    hide ParseExpr, ParseBlock, ParsePostfix, ParseItems, ParseClosed, ParseOptionWord, StmtsToExpr;
    assert ParseElse(ts, r + 1, c, t) == ParsedStmt(If(c, t, f), end);
    assert ParseIf(ts, p + 1) == ParsedStmt(If(c, t, f), end);
    hide ParseIf;
  }

  /** A branch in braces that does not begin with an `if` is one expression statement. */
  lemma {:induction false} BranchBack(ts: seq<Lexeme>, p: nat, e: Expr)
    requires p < |ts| && ts[p] == OPENBLOCK && Spelled(ts, p + 1, e) && !StartsIf(e)
    requires EndOf(p + 1, e) < |ts| && ts[EndOf(p + 1, e)] == CLOSEBLOCK
    ensures ParseBlock(ts, p) == ParsedBody([ExprStmt(e)], EndOf(p + 1, e) + 1)
    decreases e, 5
  {
    hide Spelled, At, TokensOf, Written, Canonical, ParseExpr, ParseIf, ParseBlock, StartsIf;
    SpelledMeansWritten(ts, p + 1, e);
    OperandStartsAt(ts, p + 1, e);
    ExprBack(ts, p + 1, e);
    ExpressionIsStatement(ts, p + 1, e, EndOf(p + 1, e));
    BlockUnfolds(ts, p, ExprStmt(e), EndOf(p + 1, e));
  }

  lemma ExpressionIsStatement(ts: seq<Lexeme>, p: nat, e: Expr, q: nat)
    requires p < q < |ts| && ts[q] == CLOSEBLOCK && ParseExpr(ts, p) == Parsed(e, q) && ts[p].kind != Keyword
    ensures ParseStatement(ts, p) == ParsedStmt(ExprStmt(e), q)
  {
    hide ParseExpr, ParseIf;
  }

  /** A block of one statement. */
  lemma BlockUnfolds(ts: seq<Lexeme>, p: nat, s: Stmt, q: nat)
    requires p + 1 < q < |ts| && ts[p] == OPENBLOCK && ts[q] == CLOSEBLOCK && ts[p + 1].kind != RBrace
    requires ParseStatement(ts, p + 1) == ParsedStmt(s, q)
    ensures ParseBlock(ts, p) == ParsedBody([s], q + 1)
  {
    hide ParseStatement;
    var none: seq<Stmt> := [];
    assert ParseStmts(ts, q) == ParsedBody(none, q + 1) && [s] + none == [s];
    assert ParseStmts(ts, p + 1) == ParsedBody([s], q + 1);
  }

  lemma OperandStartsAt(ts: seq<Lexeme>, p: nat, e: Expr)
    requires Spelled(ts, p, e)
    ensures p < |ts| && (ts[p].kind == Keyword <==> StartsIf(e)) && ts[p].kind != RBrace
  {
    OperandStarts(e);
    AtIndex(ts, p, TokensOf(e), 0);
  }

  lemma LiteralBack(ts: seq<Lexeme>, p: nat, e: Expr)
    requires Spelled(ts, p, e) && (e.IntLiteral? || e.StringLiteral? || e.BoolLiteral?)
    requires Quiet(Cur(ts, EndOf(p, e)))
    ensures ParsePrimary(ts, p) == Parsed(e, EndOf(p, e)) == ParseUnary(ts, p)
  {
    hide ParsePostfix, ParseItems, ParseClosed, ParseOptionWord, Digits, Decimal;
    AtIndex(ts, p, TokensOf(e), 0);
    if e.IntLiteral? {
      DigitsReadBack(e.n);
    }
  }

  /** A name or a call starts with an identifier token, which is not a unary operator. */
  lemma {:induction false} NameStarts(ts: seq<Lexeme>, p: nat, e: Expr)
    requires Spelled(ts, p, e) && (e.Ident? || e.Call?)
    ensures p < |ts| && ts[p].kind == Identifier && ts[p].value !in OPTION_WORDS
    decreases e
  {
    if e.Ident? {
      AtIndex(ts, p, TokensOf(e), 0);
    } else {
      AtSplit(ts, p, TokensOf(e.func), [OPEN] + ArgTokens(e.args) + [CLOSE]);
      NameStarts(ts, p, e.func);
    }
  }

  lemma PostfixBack(ts: seq<Lexeme>, p: nat, e: Expr)
    requires Spelled(ts, p, e) && (e.Ident? || e.Call?) && Quiet(Cur(ts, EndOf(p, e)))
    ensures ParsePrimary(ts, p) == Parsed(e, EndOf(p, e))
    decreases e, 1
  {
    hide ParsePrimary, Spelled;
    PostfixSpine(ts, p, e);
  }

  /** Parsing a name with calls behind it arrives at the postfix loop with all of it, whatever follows. */
  lemma {:induction false} PostfixSpine(ts: seq<Lexeme>, p: nat, e: Expr)
    requires Spelled(ts, p, e) && (e.Ident? || e.Call?)
    ensures ParsePrimary(ts, p) == ParsePostfix(ts, e, EndOf(p, e))
    decreases e, 0
  {
    hide ParsePrimary, ParsePostfix, ParseItems;
    if e.Ident? {
      NameStarts(ts, p, e);
      AtIndex(ts, p, TokensOf(e), 0);
      NameParses(ts, p);
    } else {
      hide Spelled, At, TokensOf, ArgTokens, Written, Canonical;
      CallParts(ts, p, e);
      var q := EndOf(p, e.func);
      PostfixSpine(ts, p, e.func);
      ItemsBack(ts, q + 1, e.args);
      CallUnfolds(ts, e.func, q, e.args, EndOf(p, e));
    }
  }

  lemma CallUnfolds(ts: seq<Lexeme>, func: Expr, q: nat, args: seq<Expr>, end: nat)
    requires q < |ts| && ts[q] == OPEN && ParseItems(ts, q + 1, RParen) == ParsedList(args, end)
    ensures ParsePostfix(ts, func, q) == ParsePostfix(ts, Call(func, args), end)
  {
    hide ParseItems;
  }

  lemma CallParts(ts: seq<Lexeme>, p: nat, e: Expr)
    requires Spelled(ts, p, e) && e.Call?
    ensures Written(e.func) && Spelled(ts, p, e.func) && (e.func.Ident? || e.func.Call?)
    ensures WrittenAll(e.args) && CanonicalAll(e.args)
    ensures var q := EndOf(p, e.func);
            && q < |ts| && ts[q] == OPEN && At(ts, q + 1, ArgTokens(e.args) + [CLOSE])
            && EndOf(p, e) == q + 1 + |ArgTokens(e.args)| + 1
  {
    var f, a := TokensOf(e.func), ArgTokens(e.args);
    AtSplit(ts, p, f, [OPEN] + a + [CLOSE]);
    Assoc([OPEN], a, [CLOSE]);
    AtSplit(ts, p + |f|, [OPEN], a + [CLOSE]);
    AtIndex(ts, p + |f|, [OPEN], 0);
  }

  lemma NameParses(ts: seq<Lexeme>, p: nat)
    requires p < |ts| && ts[p].kind == Identifier && ts[p].value !in OPTION_WORDS
    ensures ParsePrimary(ts, p) == ParsePostfix(ts, Ident(ts[p].value), p + 1)
  {
    hide ParsePostfix, ParseIf, ParseBlock, ParseItems, ParseClosed, ParseOptionWord;
  }

  lemma {:induction false} ItemsBack(ts: seq<Lexeme>, p: nat, es: seq<Expr>)
    requires WrittenAll(es) && CanonicalAll(es) && At(ts, p, ArgTokens(es) + [CLOSE])
    ensures ParseItems(ts, p, RParen) == ParsedList(es, p + |ArgTokens(es)| + 1)
    decreases es, 5
  {
    hide ParseMore;
    if es == [] {
      AtIndex(ts, p, ArgTokens(es) + [CLOSE], 0);
    } else {
      MoreBack(ts, p, es);
      NotEmpty(es[0]);
      OperandStarts(es[0]);
      AtIndex(ts, p, ArgTokens(es) + [CLOSE], 0);
    }
  }

  lemma {:induction false} OperandStarts(e: Expr)
    requires Written(e)
    ensures TokensOf(e) != [] && TokensOf(e)[0].kind != RParen && TokensOf(e)[0].kind != LParen && TokensOf(e)[0].kind != RBrace
    ensures TokensOf(e)[0].kind == Keyword <==> StartsIf(e)
    decreases e
  {
    match e {
      case BinaryOp(l, _, _) => OperandStarts(l);
      case UnaryOp(_, _) =>
      case Call(func, _) => OperandStarts(func);
      case _ =>
    }
  }

  lemma {:induction false} MoreBack(ts: seq<Lexeme>, p: nat, es: seq<Expr>)
    requires es != [] && WrittenAll(es) && CanonicalAll(es) && At(ts, p, ArgTokens(es) + [CLOSE])
    ensures ParseMore(ts, p, RParen) == ParsedList(es, p + |ArgTokens(es)| + 1)
    decreases es, 4
  {
    hide ParseExpr, ParseMore, Spelled, At, TokensOf, ArgTokens, Written, Canonical, WrittenAll, CanonicalAll;
    FirstWritten(es);
    var q := EndOf(p, es[0]);
    if |es| == 1 {
      LastItemParts(ts, p, es);
      ItemBack(ts, p, es[0]);
      assert es == [es[0]];
      MoreEnds(ts, p, es[0], q);
    } else {
      ItemParts(ts, p, es);
      ItemBack(ts, p, es[0]);
      MoreBack(ts, q + 1, es[1..]);
      assert es == [es[0]] + es[1..];
      MoreUnfolds(ts, p, es[0], q);
    }
  }

  lemma {:induction false} ItemBack(ts: seq<Lexeme>, p: nat, e: Expr)
    requires Spelled(ts, p, e)
    requires var q := EndOf(p, e); q < |ts| && (ts[q] == COMMA || ts[q] == CLOSE)
    ensures ParseExpr(ts, p) == Parsed(e, EndOf(p, e))
    decreases e, 5
  {
    hide ParseExpr, Spelled, TokensOf;
    ExprBack(ts, p, e);
  }

  lemma MoreUnfolds(ts: seq<Lexeme>, p: nat, e: Expr, q: nat)
    requires p <= q < |ts| && ts[q] == COMMA && ParseExpr(ts, p) == Parsed(e, q)
    ensures ParseMore(ts, p, RParen)
         == match ParseMore(ts, q + 1, RParen)
            case ListFailure => ListFailure
            case ParsedList(es, r) => ParsedList([e] + es, r)
  {
  }

  lemma MoreEnds(ts: seq<Lexeme>, p: nat, e: Expr, q: nat)
    requires p <= q < |ts| && ts[q] == CLOSE && ParseExpr(ts, p) == Parsed(e, q)
    ensures ParseMore(ts, p, RParen) == ParsedList([e], q + 1)
  {
  }

  lemma FirstWritten(es: seq<Expr>)
    requires es != [] && WrittenAll(es)
    ensures Written(es[0])
  {
  }

  lemma LastItemParts(ts: seq<Lexeme>, p: nat, es: seq<Expr>)
    requires |es| == 1 && WrittenAll(es) && CanonicalAll(es) && At(ts, p, ArgTokens(es) + [CLOSE])
    ensures Written(es[0]) && Spelled(ts, p, es[0])
    ensures var q := EndOf(p, es[0]); q < |ts| && ts[q] == CLOSE && q == p + |ArgTokens(es)|
  {
    AtSplit(ts, p, TokensOf(es[0]), [CLOSE]);
    AtIndex(ts, EndOf(p, es[0]), [CLOSE], 0);
  }

  lemma MoreArgTokens(es: seq<Expr>)
    requires |es| > 1 && WrittenAll(es)
    ensures Written(es[0]) && WrittenAll(es[1..])
    ensures ArgTokens(es) + [CLOSE] == TokensOf(es[0]) + ([COMMA] + (ArgTokens(es[1..]) + [CLOSE]))
    ensures |ArgTokens(es)| == |TokensOf(es[0])| + 1 + |ArgTokens(es[1..])|
  {
  }

  lemma ItemParts(ts: seq<Lexeme>, p: nat, es: seq<Expr>)
    requires |es| > 1 && WrittenAll(es) && CanonicalAll(es) && At(ts, p, ArgTokens(es) + [CLOSE])
    ensures Written(es[0]) && Spelled(ts, p, es[0]) && WrittenAll(es[1..]) && CanonicalAll(es[1..])
    ensures var q := EndOf(p, es[0]);
            && q < |ts| && ts[q] == COMMA && At(ts, q + 1, ArgTokens(es[1..]) + [CLOSE])
            && p + |ArgTokens(es)| == q + 1 + |ArgTokens(es[1..])|
  {
    hide At, TokensOf, ArgTokens, Written, Canonical, WrittenAll, CanonicalAll;
    MoreArgTokens(es);
    MoreCanonical(es);
    CommaPlaces(ts, p, TokensOf(es[0]), ArgTokens(es[1..]) + [CLOSE]);
    SpelledAt(ts, p, es[0]);
  }

  lemma MoreCanonical(es: seq<Expr>)
    requires es != [] && CanonicalAll(es)
    ensures Canonical(es[0]) && CanonicalAll(es[1..])
  {
  }

  lemma CommaPlaces(ts: seq<Lexeme>, p: nat, a: seq<Lexeme>, rest: seq<Lexeme>)
    requires At(ts, p, a + ([COMMA] + rest))
    ensures At(ts, p, a) && p + |a| < |ts| && ts[p + |a|] == COMMA && At(ts, p + |a| + 1, rest)
  {
    AtSplit(ts, p, a, [COMMA] + rest);
    AtSplit(ts, p + |a|, [COMMA], rest);
    AtIndex(ts, p + |a|, [COMMA], 0);
  }

  /** A canonical tree followed by something that ends expressions parses back to itself. */
  lemma {:induction false} ExprBack(ts: seq<Lexeme>, p: nat, e: Expr)
    requires Spelled(ts, p, e)
    requires var next := Cur(ts, EndOf(p, e)); Quiet(next) && PrecOf(next) == 0 && next.kind != PipeTok
    ensures ParseExpr(ts, p) == Parsed(e, EndOf(p, e))
    decreases e, 4
  {
    hide ParseBinary, Spelled;
    BinaryBack(ts, p, e, 0);
  }

  /** Climbing reaches the loop with the whole tree on its left side. */
  lemma {:induction false} BinaryBack(ts: seq<Lexeme>, p: nat, e: Expr, min: nat)
    requires Spelled(ts, p, e) && Top(e) >= min
    requires var next := Cur(ts, EndOf(p, e)); Quiet(next) && PrecOf(next) <= Top(e)
    ensures ParseBinary(ts, p, min) == ClimbFrom(ts, e, EndOf(p, e), min)
    decreases e, 3
  {
    hide ParseUnary, Spelled, At, TokensOf, Written, Canonical;
    if e.BinaryOp? {
      hide ParseBinary;
      BinaryParts(ts, p, e);
      var q := EndOf(p, e.left);
      BinaryBack(ts, p, e.left, min);
      BinaryBack(ts, q + 1, e.right, Prec(e.op) + 1);
    } else {
      UnaryBack(ts, p, e);
    }
  }

  lemma BinaryParts(ts: seq<Lexeme>, p: nat, e: Expr)
    requires Spelled(ts, p, e) && e.BinaryOp?
    ensures Spelled(ts, p, e.left) && Top(e.left) >= Prec(e.op)
    ensures var q := EndOf(p, e.left);
            && q < |ts| && ts[q] == OpLexeme(e.op)
            && Spelled(ts, q + 1, e.right) && Top(e.right) > Prec(e.op) && EndOf(q + 1, e.right) == EndOf(p, e)
  {
    var l, r, op := TokensOf(e.left), TokensOf(e.right), OpLexeme(e.op);
    AtSplit(ts, p, l + [op], r);
    AtSplit(ts, p, l, [op]);
    AtIndex(ts, p + |l|, [op], 0);
  }

  // ----- a conditional in a branch -----

  /** A branch that is itself a conditional is read as a statement, and its value is lost: it comes back as 0. */
  lemma {:induction false} NestedConditionalIsLost(c: Expr, t: Expr, f: Expr)
    requires Written(c) && Canonical(c) && t.IfExpr? && Written(t) && Canonical(t) && Written(f) && Canonical(f) && !StartsIf(f)
    ensures var ts := TokensOf(IfExpr(c, t, f));
            ParseExpr(ts + [END], 0) == Parsed(IfExpr(c, IntLiteral(0), f), |ts|)
  {
    var e := IfExpr(c, t, f);
    var ts := TokensOf(e) + [END];
    assert Written(e) && At(ts, 0, TokensOf(e));
    hide At, TokensOf, Written, Canonical, ParseExpr, StartsIf, ParsePrimary;
    NestedLostAt(ts, 0, e);
    OperandParses(ts, 0, IfExpr(c, IntLiteral(0), f), EndOf(0, e));
  }

  lemma {:induction false} NestedLostAt(ts: seq<Lexeme>, p: nat, e: Expr)
    requires e.IfExpr? && Written(e) && At(ts, p, TokensOf(e))
    requires e.thn.IfExpr? && Canonical(e.cond) && Canonical(e.thn) && Canonical(e.els) && !StartsIf(e.els)
    ensures p < |ts| && ts[p] == IF
    ensures ParsePrimary(ts, p) == Parsed(IfExpr(e.cond, IntLiteral(0), e.els), EndOf(p, e))
  {
    hide Spelled, At, TokensOf, Written, Canonical, ParseExpr, ParseBlock, ParseIf, ParsePrimary, StartsIf, StmtsToExpr,
      StmtToExpr, AsStatement;
    var q, r := LostPlaces(ts, p, e);
    StatementLost(ts, q, e.thn);
    IfReads(ts, p, e.cond, [AsStatement(e.thn)], r, e.els);
  }

  /** A conditional whose condition and else-branch are canonical, whatever its then-block holds. */
  lemma {:induction false} IfReads(ts: seq<Lexeme>, p: nat, c: Expr, t: seq<Stmt>, r: nat, f: Expr)
    requires Written(c) && Written(f) && Spelled(ts, p + 1, c) && Spelled(ts, r + 3, f) && !StartsIf(f)
    requires var q := EndOf(p + 1, c);
             && p < q < r && EndOf(r + 3, f) < |ts| && ts[p] == IF && ts[q] == OPENBLOCK && ParseBlock(ts, q) == ParsedBody(t, r + 1)
             && ts[r + 1] == ELSE && ts[r + 2] == OPENBLOCK && ts[EndOf(r + 3, f)] == CLOSEBLOCK
    ensures ParsePrimary(ts, p) == Parsed(IfExpr(c, StmtsToExpr(t), f), EndOf(r + 3, f) + 1)
  {
    hide Spelled, At, TokensOf, Written, Canonical, ParseExpr, ParseBlock, ParseIf, ParsePrimary, StartsIf, StmtsToExpr;
    ExprBack(ts, p + 1, c);
    BranchBack(ts, r + 2, f);
    BranchValue(f);
    IfUnfolds(ts, p, c, EndOf(p + 1, c), t, r, [ExprStmt(f)], EndOf(r + 3, f) + 1);
  }

  lemma {:induction false} LostPlaces(ts: seq<Lexeme>, p: nat, e: Expr) returns (q: nat, r: nat)
    requires e.IfExpr? && Written(e) && At(ts, p, TokensOf(e)) && Canonical(e.cond) && Canonical(e.thn) && Canonical(e.els)
    ensures Written(e.cond) && Written(e.thn) && Written(e.els)
    ensures q == EndOf(p + 1, e.cond) && r == EndOf(q + 1, e.thn) && EndOf(p, e) == EndOf(r + 3, e.els) + 1
    ensures p < q < r && r + 3 < EndOf(p, e) <= |ts|
    ensures ts[p] == IF && ts[q] == OPENBLOCK && ts[r] == CLOSEBLOCK && ts[r + 1] == ELSE && ts[r + 2] == OPENBLOCK
    ensures ts[EndOf(p, e) - 1] == CLOSEBLOCK
    ensures Spelled(ts, p + 1, e.cond) && Spelled(ts, q + 1, e.thn) && Spelled(ts, r + 3, e.els)
  {
    hide At, TokensOf, Written, Canonical;
    q, r := IfPlaces(ts, p, e);
  }

  /** A conditional in braces is one statement, whose value depends on what the block is for. */
  lemma {:induction false} StatementLost(ts: seq<Lexeme>, p: nat, e: Expr)
    requires p < |ts| && ts[p] == OPENBLOCK && Spelled(ts, p + 1, e) && e.IfExpr?
    requires EndOf(p + 1, e) < |ts| && ts[EndOf(p + 1, e)] == CLOSEBLOCK
    ensures ParseBlock(ts, p) == ParsedBody([AsStatement(e)], EndOf(p + 1, e) + 1)
    ensures StmtsToExpr([AsStatement(e)]) == IntLiteral(0) && StmtToExpr(AsStatement(e)) == e
  {
    hide Spelled, At, TokensOf, Written, Canonical, ParseExpr, ParseBlock, ParseIf, ParsePrimary, StartsIf;
    SpelledMeansWritten(ts, p + 1, e);
    IfBack(ts, p + 1, e);
    var q := EndOf(p + 1, e);
    assert ParseStatement(ts, p + 1) == ParsedStmt(AsStatement(e), q);
    BlockUnfolds(ts, p, AsStatement(e), q);
  }

  // ----- braces group -----

  /** A canonical tree in braces is an operand, as if they were parentheses: a conditional keeps its tree here. */
  lemma {:induction false} BracedOperand(ts: seq<Lexeme>, p: nat, e: Expr)
    requires Written(e) && Canonical(e) && At(ts, p, Braced(TokensOf(e))) && (StartsIf(e) ==> e.IfExpr?)
    ensures ParsePrimary(ts, p) == ParseUnary(ts, p) == Parsed(e, p + |TokensOf(e)| + 2)
  {
    BracedParts(ts, p, TokensOf(e));
    assert Spelled(ts, p + 1, e);
    var q := EndOf(p + 1, e);
    hide Spelled, At, TokensOf, Written, Canonical, ParseExpr, ParseBlock, ParseIf, StartsIf, ParsePrimary;
    if e.IfExpr? {
      StatementLost(ts, p, e);
      OperandUnfolds(ts, p, AsStatement(e), q + 1);
    } else {
      BranchBack(ts, p, e);
      OperandUnfolds(ts, p, ExprStmt(e), q + 1);
    }
  }

  lemma {:induction false} OperandUnfolds(ts: seq<Lexeme>, p: nat, s: Stmt, q: nat)
    requires p < |ts| && ts[p] == OPENBLOCK && ParseBlock(ts, p) == ParsedBody([s], q)
    ensures ParsePrimary(ts, p) == ParseUnary(ts, p) == Parsed(StmtToExpr(s), q)
  {
    hide ParseBlock, ParseIf, ParsePostfix, ParseItems, ParseClosed, ParseOptionWord, StmtToExpr;
  }

  function BracedSides(l: Expr, op: BinOp, r: Expr): seq<Lexeme>
    requires Written(l) && Written(r)
  {
    Braced(TokensOf(l)) + ([OpLexeme(op)] + Braced(TokensOf(r)))
  }

  /** With braces around its sides every operation can be written, canonical or not; no parenthesis is needed. */
  lemma {:induction false} BracesGroup(l: Expr, op: BinOp, r: Expr)
    requires Written(l) && Canonical(l) && (StartsIf(l) ==> l.IfExpr?)
    requires Written(r) && Canonical(r) && (StartsIf(r) ==> r.IfExpr?)
    ensures var ts := BracedSides(l, op, r);
            ParseExpr(ts + [END], 0) == Parsed(BinaryOp(l, op, r), |ts|)
  {
    hide At, Braced, TokensOf, Written, Canonical, ParseUnary, ParsePrimary, ParseExpr, StartsIf;
    var a, b := Braced(TokensOf(l)), Braced(TokensOf(r));
    var ts := a + ([OpLexeme(op)] + b) + [END];
    SidesPlaces(ts, a, OpLexeme(op), b);
    BracedLength(TokensOf(l));
    BracedLength(TokensOf(r));
    BracedOperand(ts, 0, l);
    BracedOperand(ts, |a| + 1, r);
    TwoOperands(ts, l, |a|, op, r, |a| + 1 + |b|);
  }

  lemma SidesPlaces(ts: seq<Lexeme>, a: seq<Lexeme>, op: Lexeme, b: seq<Lexeme>)
    requires ts == a + ([op] + b) + [END]
    ensures |ts| == |a| + |b| + 2 && ts[|a|] == op && ts[|a| + 1 + |b|] == END
    ensures At(ts, 0, a) && At(ts, |a| + 1, b)
  {
  }

  lemma BracedLength(ls: seq<Lexeme>)
    ensures |Braced(ls)| == |ls| + 2
  {
  }

  lemma TwoOperands(ts: seq<Lexeme>, l: Expr, q: nat, op: BinOp, r: Expr, end: nat)
    requires q + 1 < end < |ts| && ts[q] == OpLexeme(op) && ts[end] == END
    requires ParseUnary(ts, 0) == Parsed(l, q) && ParseUnary(ts, q + 1) == Parsed(r, end)
    ensures ParseExpr(ts, 0) == Parsed(BinaryOp(l, op, r), end)
  {
    hide ParseUnary;
    assert ClimbFrom(ts, r, end, Prec(op) + 1) == Parsed(r, end);
    assert ParseBinary(ts, q + 1, Prec(op) + 1) == Parsed(r, end);
    assert ClimbFrom(ts, BinaryOp(l, op, r), end, 0) == Parsed(BinaryOp(l, op, r), end);
    assert ClimbFrom(ts, l, q, 0) == Parsed(BinaryOp(l, op, r), end);
    assert ParseBinary(ts, 0, 0) == Parsed(BinaryOp(l, op, r), end);
    assert ParsePipes(ts, end) == ParsedStages([], end);
  }

  lemma {:induction false} DoublyBraced(ts: seq<Lexeme>, p: nat, e: Expr)
    requires e.IfExpr? && Written(e) && Canonical(e) && At(ts, p, Braced(Braced(TokensOf(e))))
    ensures ParseBlock(ts, p) == ParsedBody([ExprStmt(e)], p + |TokensOf(e)| + 4)
  {
    hide At, Braced, TokensOf, Written, Canonical, ParseUnary, ParsePrimary, ParseExpr, ParseBlock, ParseStatement, StartsIf;
    var inner := Braced(TokensOf(e));
    BracedParts(ts, p, inner);
    BracedOperand(ts, p + 1, e);
    BracedLength(TokensOf(e));
    var q := p + 1 + |inner|;
    BracedParts(ts, p + 1, TokensOf(e));
    OperandIsExpression(ts, p + 1, e, q);
    ExpressionIsStatement(ts, p + 1, e, q);
    BlockUnfolds(ts, p, ExprStmt(e), q);
  }

  /** So a branch in two pairs of braces keeps a conditional that one pair loses. */
  lemma {:induction false} DoubleBracesKeep(c: Expr, t: Expr, f: Expr)
    requires Written(c) && Canonical(c) && t.IfExpr? && Written(t) && Canonical(t) && Written(f) && Canonical(f) && !StartsIf(f)
    ensures var ts := Conditional(TokensOf(c), Braced(TokensOf(t)), TokensOf(f));
            ParseExpr(ts + [END], 0) == Parsed(IfExpr(c, t, f), |ts|) && !Canonical(IfExpr(c, t, f))
  {
    NestedIsNotCanonical(c, t, f);
    hide At, Braced, TokensOf, Written, Canonical, ParseExpr, ParsePrimary, StartsIf, Conditional;
    var ls := Conditional(TokensOf(c), Braced(TokensOf(t)), TokensOf(f));
    ConditionalPlaces(ls + [END], TokensOf(c), Braced(TokensOf(t)), TokensOf(f));
    DoubleBracesRead(ls + [END], c, t, 2 + |TokensOf(c)| + |Braced(TokensOf(t))|, f);
    OperandParses(ls + [END], 0, IfExpr(c, t, f), |ls|);
  }

  lemma NestedIsNotCanonical(c: Expr, t: Expr, f: Expr)
    requires t.IfExpr?
    ensures !Canonical(IfExpr(c, t, f))
  {
  }

  lemma {:induction false} DoubleBracesRead(ts: seq<Lexeme>, c: Expr, t: Expr, r: nat, f: Expr)
    requires Written(c) && Canonical(c) && t.IfExpr? && Written(t) && Canonical(t) && Written(f) && Canonical(f) && !StartsIf(f)
    requires At(ts, 1, TokensOf(c)) && At(ts, r + 3, TokensOf(f))
    requires var q := EndOf(1, c);
             && r == q + 1 + |Braced(TokensOf(t))| && EndOf(r + 3, f) < |ts| && ts[0] == IF && At(ts, q, Braced(Braced(TokensOf(t))))
             && ts[r + 1] == ELSE && ts[r + 2] == OPENBLOCK && ts[EndOf(r + 3, f)] == CLOSEBLOCK
    ensures ParsePrimary(ts, 0) == Parsed(IfExpr(c, t, f), EndOf(r + 3, f) + 1)
  {
    hide At, Braced, Spelled, TokensOf, Written, Canonical, ParseExpr, ParseBlock, ParsePrimary, StartsIf, StmtsToExpr;
    var q := EndOf(1, c);
    SpelledAt(ts, 1, c);
    SpelledAt(ts, r + 3, f);
    BracedParts(ts, q, Braced(TokensOf(t)));
    BracedLength(TokensOf(t));
    DoublyBraced(ts, q, t);
    BranchValue(t);
    IfReads(ts, 0, c, [ExprStmt(t)], r, f);
  }

  lemma AtStart<T>(a: seq<T>, b: seq<T>)
    ensures At(a + b, 0, a)
  {
  }

  lemma SpelledAt(ts: seq<Lexeme>, p: nat, e: Expr)
    requires Written(e) && Canonical(e) && At(ts, p, TokensOf(e))
    ensures Spelled(ts, p, e)
  {
  }

  lemma ConditionalPlaces(ts: seq<Lexeme>, c: seq<Lexeme>, t: seq<Lexeme>, f: seq<Lexeme>)
    requires ts == Conditional(c, t, f) + [END]
    ensures var q := 1 + |c|;
            var r := q + 1 + |t|;
            && |ts| == r + 5 + |f| && ts[0] == IF && ts[q] == OPENBLOCK && ts[r] == CLOSEBLOCK && ts[r + 1] == ELSE
            && ts[r + 2] == OPENBLOCK && ts[r + 3 + |f|] == CLOSEBLOCK && ts[r + 4 + |f|] == END
            && At(ts, 1, c) && At(ts, q, Braced(t)) && At(ts, r + 3, f)
  {
    hide Braced, At, Conditional;
    AtStart(Conditional(c, t, f), [END]);
    ConditionalAt(ts, 0, c, t, f);
  }

  lemma OperandIsExpression(ts: seq<Lexeme>, p: nat, e: Expr, q: nat)
    requires p < q < |ts| && ts[q] == CLOSEBLOCK && ParseUnary(ts, p) == Parsed(e, q)
    ensures ParseExpr(ts, p) == Parsed(e, q)
  {
    hide ParseUnary;
    assert ClimbFrom(ts, e, q, 0) == Parsed(e, q) && ParseBinary(ts, p, 0) == Parsed(e, q) && ParsePipes(ts, q) == ParsedStages([], q);
  }

  /** A primary at the end of the input is the whole expression. */
  lemma OperandParses(ts: seq<Lexeme>, p: nat, e: Expr, q: nat)
    requires p < q < |ts| && ts[p] == IF && ParsePrimary(ts, p) == Parsed(e, q) && ts[q] == END
    ensures ParseExpr(ts, p) == Parsed(e, q)
  {
    hide ParsePrimary;
    assert ParseUnary(ts, p) == Parsed(e, q);
    assert ClimbFrom(ts, e, q, 0) == Parsed(e, q) && ParsePipes(ts, q) == ParsedStages([], q);
    hide ParseUnary, ClimbFrom, ParsePipes;
  }
}
