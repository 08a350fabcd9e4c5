/** Plain tokens whose braces all open branches: the parser only makes canonical trees of them, conditionals included. */
module TidyTokens {
  import opened Prelude
  import opened Ast
  import opened Lexer
  import opened Parser
  import opened RoundTrip
  import opened PlainTokens

  // ----- braces and the conditionals they belong to -----

  predicate EndsOperand(l: Lexeme) {
    EndsName(l) || l.kind == IntLit || l.kind == StrLit || l.kind == BoolLit || l.kind == RBrace
  }

  /** For every block still open before token `i`, the innermost first, how many `if` in it wait for their branch. */
  function Open(ts: seq<Lexeme>, i: nat): (r: seq<nat>)
    requires i <= |ts|
    ensures r != []
  {
    if i == 0 then [0] else Step(Open(ts, i - 1), ts[i - 1], i >= 2 && IsWordElse(ts[i - 2]))
  }

  function Step(open: seq<nat>, l: Lexeme, afterElse: bool): (r: seq<nat>)
    requires open != []
    ensures r != []
  {
    if IsWordIf(l) then [open[0] + 1] + open[1..]
    else if l.kind == LBrace then [0] + (if afterElse || open[0] == 0 then open else [open[0] - 1] + open[1..])
    else if l.kind == RBrace && |open| > 1 then open[1..]
    else open
  }

  /** A brace here opens a branch: it stands behind an `else`, or behind an operand while an `if` waits for its branch. */
  predicate BranchAt(ts: seq<Lexeme>, i: nat)
    requires i < |ts|
  {
    i > 0 && (IsWordElse(ts[i - 1]) || (EndsOperand(ts[i - 1]) && Open(ts, i)[0] > 0))
  }

  predicate BranchesIn(ts: seq<Lexeme>, p: nat, q: nat) {
    forall i: nat :: p <= i < q && i < |ts| && ts[i].kind == LBrace ==> BranchAt(ts, i)
  }

  /** Plain tokens whose braces all open branches. */
  predicate Tidy(ts: seq<Lexeme>) {
    Plain(ts) && BranchesIn(ts, 0, |ts|)
  }

  /** A canonical tree that begins with an `if` only if the tokens do. */
  predicate Shaped(ts: seq<Lexeme>, p: nat, e: Expr) {
    Written(e) && Canonical(e) && (StartsIf(e) ==> IsWordIf(Cur(ts, p)))
  }

  /** From `p` to `q` every block and every `if` is closed, and an operand ends. */
  predicate Settled(ts: seq<Lexeme>, p: nat, q: nat) {
    p < q <= |ts| && Open(ts, q) == Open(ts, p) && EndsOperand(ts[q - 1]) && Cur(ts, q).kind != LParen
  }

  /** Neither a parenthesis nor a block stands here. */
  predicate StartAt(ts: seq<Lexeme>, p: nat) {
    p <= |ts| && Cur(ts, p).kind != LParen && Cur(ts, p).kind != LBrace
  }

  lemma NoGroup(ts: seq<Lexeme>, p: nat)
    requires Tidy(ts) && 0 < p <= |ts| && !EndsOperand(ts[p - 1]) && !IsWordElse(ts[p - 1])
    ensures StartAt(ts, p)
  {
    hide Open;
    assert p < |ts| ==> PlainAt(ts, p);
  }

  lemma NoCall(ts: seq<Lexeme>, p: nat)
    requires Tidy(ts) && 0 < p <= |ts| && !EndsName(ts[p - 1])
    ensures Cur(ts, p).kind != LParen
  {
    assert p < |ts| ==> PlainAt(ts, p);
  }

  lemma PlainHere(ts: seq<Lexeme>, p: nat)
    requires Tidy(ts)
    ensures p < |ts| ==> PlainAt(ts, p)
  {
  }

  /** Most tokens open and close nothing. */
  lemma OpenStays(ts: seq<Lexeme>, i: nat)
    requires i < |ts| && !IsWordIf(ts[i]) && ts[i].kind != LBrace && ts[i].kind != RBrace
    ensures Open(ts, i + 1) == Open(ts, i)
  {
    hide Open;
    OpenNext(ts, i);
  }

  lemma {:induction false} BinaryShape(ts: seq<Lexeme>, p: nat, min: nat)
    requires Tidy(ts) && StartAt(ts, p) && min <= 7 && ParseBinary(ts, p, min).Parsed?
    ensures var r := ParseBinary(ts, p, min);
            && Shaped(ts, p, r.e) && Settled(ts, p, r.pos) && Top(r.e) >= min
            && (PrecOf(Cur(ts, r.pos)) < min || PrecOf(Cur(ts, r.pos)) == 0)
    decreases |ts| - p, 3
  {
    hide Tidy, Shaped, Settled, ParseUnary, ClimbFrom;
    UnaryShape(ts, p);
    var r := ParseUnary(ts, p);
    ClimbShape(ts, p, r.e, r.pos, min);
  }

  lemma {:induction false} ClimbShape(ts: seq<Lexeme>, start: nat, left: Expr, p: nat, min: nat)
    requires Tidy(ts) && start < p <= |ts| && Shaped(ts, start, left) && Settled(ts, start, p) && min <= 7
    requires Top(left) >= min && PrecOf(Cur(ts, p)) <= Top(left)
    requires ClimbFrom(ts, left, p, min).Parsed?
    ensures var r := ClimbFrom(ts, left, p, min);
            && Shaped(ts, start, r.e) && Settled(ts, start, r.pos) && Top(r.e) >= min
            && (PrecOf(Cur(ts, r.pos)) < min || PrecOf(Cur(ts, r.pos)) == 0)
    decreases |ts| - p, 4
  {
    hide ParseBinary, Tidy, Shaped, Settled, Written, Canonical;
    var l := Cur(ts, p);
    if PrecOf(l) >= min && PrecOf(l) != 0 {
      NoGroup(ts, p + 1);
      BinaryShape(ts, p + 1, PrecOf(l) + 1);
      var r := ParseBinary(ts, p + 1, PrecOf(l) + 1);
      BinaryShaped(ts, start, left, p, l.kind.op, r.e);
      SettledBehind(ts, start, p, r.pos);
      ClimbShape(ts, start, BinaryOp(left, l.kind.op, r.e), r.pos, min);
    }
  }

  lemma BinaryShaped(ts: seq<Lexeme>, start: nat, left: Expr, p: nat, op: BinOp, right: Expr)
    requires Shaped(ts, start, left) && Shaped(ts, p + 1, right) && Top(left) >= Prec(op) && Top(right) > Prec(op)
    ensures Shaped(ts, start, BinaryOp(left, op, right))
  {
  }

  lemma SettledBehind(ts: seq<Lexeme>, start: nat, p: nat, q: nat)
    requires Settled(ts, start, p) && p < |ts| && ts[p].kind.Operator? && Settled(ts, p + 1, q)
    ensures Settled(ts, start, q)
  {
    hide Step, Open;
    OpenStays(ts, p);
  }

  lemma {:induction false} UnaryShape(ts: seq<Lexeme>, p: nat)
    requires Tidy(ts) && StartAt(ts, p) && ParseUnary(ts, p).Parsed?
    ensures var r := ParseUnary(ts, p);
            Shaped(ts, p, r.e) && Settled(ts, p, r.pos) && !r.e.BinaryOp?
    decreases |ts| - p, 2
  {
    hide ParsePrimary, Tidy, Open, Shaped, Settled;
    var l := Cur(ts, p);
    if l.kind == Operator(Minus) || l.kind == Bang {
      NoGroup(ts, p + 1);
      UnaryShape(ts, p + 1);
      var r := ParseUnary(ts, p + 1);
      SignShaped(ts, p, if l.kind == Bang then Not else Negate, r.e, r.pos);
    } else {
      PrimaryShape(ts, p);
    }
  }

  lemma SignShaped(ts: seq<Lexeme>, p: nat, op: UnOp, e: Expr, q: nat)
    requires p < |ts| && (ts[p].kind == Operator(Minus) || ts[p].kind == Bang)
    requires Shaped(ts, p + 1, e) && !e.BinaryOp? && Settled(ts, p + 1, q)
    ensures Shaped(ts, p, UnaryOp(op, e)) && Settled(ts, p, q)
  {
    hide Open;
    OpenStays(ts, p);
  }

  lemma {:induction false} PrimaryShape(ts: seq<Lexeme>, p: nat)
    requires Tidy(ts) && StartAt(ts, p) && ParsePrimary(ts, p).Parsed?
    ensures var r := ParsePrimary(ts, p);
            Shaped(ts, p, r.e) && Settled(ts, p, r.pos) && !r.e.BinaryOp?
    decreases |ts| - p, 1
  {
    hide Tidy, Open, ParsePostfix, ParseClosed, ParseItems, ParseOptionWord, ParseIf, ParseBlock, ParsePrimary;
    PlainHere(ts, p);
    var l := Cur(ts, p);
    if l.kind == Identifier {
      NameParses(ts, p);
      OpenStays(ts, p);
      PostfixShape(ts, p, Ident(l.value), p + 1);
    } else if l.kind == Keyword {
      IfParses(ts, p);
      IfShape(ts, p + 1);
    } else {
      LiteralShape(ts, p);
    }
  }

  lemma IfParses(ts: seq<Lexeme>, p: nat)
    requires p < |ts| && ts[p].kind == Keyword && ParsePrimary(ts, p).Parsed?
    ensures IsWordIf(ts[p]) && ParsePrimary(ts, p) == AsOperand(ParseIf(ts, p + 1))
  {
    hide ParseIf, ParsePostfix, ParseClosed, ParseItems, ParseOptionWord, ParseBlock, AsOperand;
  }

  lemma LiteralShape(ts: seq<Lexeme>, p: nat)
    requires Tidy(ts) && StartAt(ts, p) && ParsePrimary(ts, p).Parsed?
    requires Cur(ts, p).kind != Identifier && Cur(ts, p).kind != Keyword
    ensures var r := ParsePrimary(ts, p);
            Shaped(ts, p, r.e) && Settled(ts, p, r.pos) && !r.e.BinaryOp?
  {
    hide Tidy, Open, ParsePostfix, ParseClosed, ParseItems, ParseOptionWord, ParseIf, ParseBlock, AsOperand, BlockOperand,
      Digits, AllDigits, Decimal;
    PlainHere(ts, p);
    PlainHere(ts, p + 1);
    OpenStays(ts, p);
    NoCall(ts, p + 1);
  }

  lemma {:induction false} PostfixShape(ts: seq<Lexeme>, start: nat, e: Expr, p: nat)
    requires Tidy(ts) && start < p <= |ts| && Shaped(ts, start, e) && (e.Ident? || e.Call?) && EndsOperand(ts[p - 1])
    requires Open(ts, p) == Open(ts, start) && ParsePostfix(ts, e, p).Parsed?
    ensures var r := ParsePostfix(ts, e, p);
            Shaped(ts, start, r.e) && Settled(ts, start, r.pos) && !r.e.BinaryOp?
    decreases |ts| - p, 0
  {
    hide ParseItems, ParseClosed, Tidy, Open, Shaped, WrittenAll, CanonicalAll;
    PlainHere(ts, p);
    if Cur(ts, p).kind == LParen {
      NoGroup(ts, p + 1);
      ItemsShape(ts, p + 1);
      OpenStays(ts, p);
      var items := ParseItems(ts, p + 1, RParen);
      CallShaped(ts, start, e, items.es);
      PostfixShape(ts, start, Call(e, items.es), items.pos);
    }
  }

  lemma CallShaped(ts: seq<Lexeme>, start: nat, func: Expr, args: seq<Expr>)
    requires Shaped(ts, start, func) && (func.Ident? || func.Call?) && WrittenAll(args) && CanonicalAll(args)
    ensures Shaped(ts, start, Call(func, args))
  {
  }

  lemma {:induction false} ItemsShape(ts: seq<Lexeme>, p: nat)
    requires Tidy(ts) && StartAt(ts, p) && ParseItems(ts, p, RParen).ParsedList?
    ensures var r := ParseItems(ts, p, RParen);
            && WrittenAll(r.es) && CanonicalAll(r.es)
            && Open(ts, r.pos) == Open(ts, p) && ts[r.pos - 1].kind == RParen
    decreases |ts| - p, 6
  {
    hide ParseMore, Tidy, Open;
    if Cur(ts, p).kind != RParen {
      MoreShape(ts, p);
    } else {
      OpenStays(ts, p);
    }
  }

  lemma {:induction false} MoreShape(ts: seq<Lexeme>, p: nat)
    requires Tidy(ts) && StartAt(ts, p) && ParseMore(ts, p, RParen).ParsedList?
    ensures var r := ParseMore(ts, p, RParen);
            && WrittenAll(r.es) && CanonicalAll(r.es)
            && Open(ts, r.pos) == Open(ts, p) && ts[r.pos - 1].kind == RParen
    decreases |ts| - p, 5
  {
    hide ParseExpr, Written, Canonical, Tidy, Open;
    ExprShape(ts, p);
    var r := ParseExpr(ts, p);
    OpenStays(ts, r.pos);
    if Cur(ts, r.pos).kind == Comma {
      NoGroup(ts, r.pos + 1);
      MoreShape(ts, r.pos + 1);
      var more := ParseMore(ts, r.pos + 1, RParen);
      assert ([r.e] + more.es)[1..] == more.es;
    } else {
      assert [r.e][1..] == [];
    }
  }

  /** The parser on tidy tokens makes a canonical tree, conditionals included. */
  lemma {:induction false} ExprShape(ts: seq<Lexeme>, p: nat)
    requires Tidy(ts) && StartAt(ts, p) && ParseExpr(ts, p).Parsed?
    ensures var r := ParseExpr(ts, p);
            Shaped(ts, p, r.e) && Settled(ts, p, r.pos)
    decreases |ts| - p, 4
  {
    hide Shaped, Settled, ParseBinary, Tidy;
    BinaryShape(ts, p, 0);
    PlainHere(ts, ParseBinary(ts, p, 0).pos);
  }

  /** The value of a statement at the end of a branch. */
  predicate BranchFits(e: Expr) {
    Written(e) && Canonical(e) && !StartsIf(e)
  }

  lemma {:induction false} IfShape(ts: seq<Lexeme>, p: nat)
    requires Tidy(ts) && 0 < p <= |ts| && IsWordIf(ts[p - 1]) && ParseIf(ts, p).ParsedStmt?
    ensures var r := ParseIf(ts, p);
            r.s.If? && Written(StmtToExpr(r.s)) && Canonical(StmtToExpr(r.s)) && Settled(ts, p - 1, r.pos)
    decreases |ts| - p, 7
  {
    hide ParseExpr, ParseBlock, ParseElse, Tidy, Open, Written, Canonical, StartsIf, StmtToExpr;
    NoGroup(ts, p);
    ExprShape(ts, p);
    var c := ParseExpr(ts, p);
    BlockHere(ts, c.pos);
    BranchOpens(ts, p, c.pos);
    BlockShape(ts, c.pos);
    var t := ParseBlock(ts, c.pos);
    ElseShape(ts, t.pos, c.e, t.ss);
    assert ParseIf(ts, p) == ParseElse(ts, t.pos, c.e, t.ss);
  }

  lemma OpenNext(ts: seq<Lexeme>, i: nat)
    requires i < |ts|
    ensures Open(ts, i + 1) == Step(Open(ts, i), ts[i], i >= 1 && IsWordElse(ts[i - 1]))
  {
  }

  lemma BlockHere(ts: seq<Lexeme>, p: nat)
    requires p <= |ts| && ParseBlock(ts, p).ParsedBody?
    ensures p < |ts| && ts[p].kind == LBrace
  {
  }

  lemma BranchOpens(ts: seq<Lexeme>, p: nat, q: nat)
    requires 0 < p <= |ts| && IsWordIf(ts[p - 1]) && Settled(ts, p, q) && Cur(ts, q).kind == LBrace
    ensures Open(ts, q + 1) == [0] + Open(ts, p - 1)
  {
    hide Open;
    OpenNext(ts, p - 1);
    OpenNext(ts, q);
    var open := Open(ts, p - 1);
    assert [open[0]] + open[1..] == open;
  }

  lemma {:induction false} ElseShape(ts: seq<Lexeme>, p: nat, c: Expr, t: seq<Stmt>)
    requires Tidy(ts) && 0 < p <= |ts| && ts[p - 1].kind == RBrace && ParseElse(ts, p, c, t).ParsedStmt?
    requires Written(c) && Canonical(c) && BranchFits(StmtsToExpr(t))
    ensures var r := ParseElse(ts, p, c, t);
            && r.s.If? && Written(StmtToExpr(r.s)) && Canonical(StmtToExpr(r.s))
            && Open(ts, r.pos) == Open(ts, p) && EndsOperand(ts[r.pos - 1]) && Cur(ts, r.pos).kind != LParen
    decreases |ts| - p, 7
  {
    hide ParseBlock, ParseIf, Tidy, Open, Step, BranchFits, StmtsToExpr, StmtToExpr, Written, Canonical;
    NoCall(ts, p);
    ZeroFits();
    if !IsWordElse(Cur(ts, p)) {
      IfFits(c, t, []);
    } else if IsWordIf(Cur(ts, p + 1)) {
      OpenStays(ts, p);
      IfShape(ts, p + 2);
      IfFits(c, t, [ParseIf(ts, p + 2).s]);
    } else {
      ElseBlockShape(ts, p);
      IfFits(c, t, ParseBlock(ts, p + 1).ss);
    }
  }

  lemma {:induction false} ElseBlockShape(ts: seq<Lexeme>, p: nat)
    requires Tidy(ts) && p < |ts| && IsWordElse(ts[p]) && ParseBlock(ts, p + 1).ParsedBody?
    ensures var r := ParseBlock(ts, p + 1);
            && BranchFits(StmtsToExpr(r.ss))
            && Open(ts, r.pos) == Open(ts, p) && ts[r.pos - 1].kind == RBrace && Cur(ts, r.pos).kind != LParen
    decreases |ts| - p, 0
  {
    hide ParseBlock, Tidy, Open, StmtsToExpr, BranchFits;
    BlockHere(ts, p + 1);
    OpenStays(ts, p);
    ElseOpens(ts, p);
    BlockShape(ts, p + 1);
    NoCall(ts, ParseBlock(ts, p + 1).pos);
  }

  lemma ElseOpens(ts: seq<Lexeme>, p: nat)
    requires p + 1 < |ts| && IsWordElse(ts[p]) && ts[p + 1].kind == LBrace
    ensures Open(ts, p + 2) == [0] + Open(ts, p + 1)
  {
    hide Open;
    OpenNext(ts, p + 1);
  }

  lemma ZeroFits()
    ensures BranchFits(StmtsToExpr([])) && forall s: Stmt :: s.If? ==> BranchFits(StmtsToExpr([s]))
  {
  }

  lemma IfFits(c: Expr, t: seq<Stmt>, f: seq<Stmt>)
    requires Written(c) && Canonical(c) && BranchFits(StmtsToExpr(t)) && BranchFits(StmtsToExpr(f))
    ensures var e := StmtToExpr(If(c, t, f)); Written(e) && Canonical(e)
  {
    hide StmtsToExpr, StartsIf;
  }

  lemma {:induction false} BlockShape(ts: seq<Lexeme>, p: nat)
    requires Tidy(ts) && p < |ts| && ParseBlock(ts, p).ParsedBody?
    ensures var r := ParseBlock(ts, p);
            && BranchFits(StmtsToExpr(r.ss))
            && Open(ts, r.pos) == Open(ts, p + 1)[1..] && ts[r.pos - 1].kind == RBrace
    decreases |ts| - p, 0
  {
    hide ParseStmts, Tidy, Open, StmtsToExpr, BranchFits;
    BlockStarts(ts, p);
    NoCall(ts, p + 1);
    StmtsShape(ts, p + 1);
  }

  lemma BlockStarts(ts: seq<Lexeme>, p: nat)
    requires p < |ts| && ts[p].kind == LBrace
    ensures Open(ts, p + 1)[0] == 0 && |Open(ts, p + 1)| >= 2
  {
    hide Open;
    OpenNext(ts, p);
  }

  /** A statement of a branch may start here: no `if` waits, and no block can be opened. */
  predicate StatementAt(ts: seq<Lexeme>, p: nat) {
    && 0 < p <= |ts| && !IsWordElse(ts[p - 1]) && Cur(ts, p).kind != LParen
    && Open(ts, p)[0] == 0 && |Open(ts, p)| >= 2
  }

  lemma NoBlock(ts: seq<Lexeme>, p: nat)
    requires Tidy(ts) && StatementAt(ts, p)
    ensures StartAt(ts, p)
  {
  }

  lemma {:induction false} StmtsShape(ts: seq<Lexeme>, p: nat)
    requires Tidy(ts) && StatementAt(ts, p) && ParseStmts(ts, p).ParsedBody?
    ensures var r := ParseStmts(ts, p);
            && BranchFits(StmtsToExpr(r.ss))
            && Open(ts, r.pos) == Open(ts, p)[1..] && ts[r.pos - 1].kind == RBrace
    decreases |ts| - p, 8
  {
    hide ParseStatement, Tidy, StmtsToExpr, BranchFits, Settled;
    if Cur(ts, p).kind == RBrace {
      ZeroFits();
      BlockCloses(ts, p);
    } else {
      hide Open;
      StatementShape(ts, p);
      var s := ParseStatement(ts, p);
      NextStatement(ts, p, s.pos);
      StmtsShape(ts, s.pos);
      LastFits(s.s, ParseStmts(ts, s.pos).ss);
    }
  }

  lemma BlockCloses(ts: seq<Lexeme>, p: nat)
    requires p < |ts| && ts[p].kind == RBrace && |Open(ts, p)| >= 2
    ensures Open(ts, p + 1) == Open(ts, p)[1..]
  {
    hide Open;
    OpenNext(ts, p);
  }

  lemma NextStatement(ts: seq<Lexeme>, p: nat, q: nat)
    requires StatementAt(ts, p) && Settled(ts, p, q)
    ensures StatementAt(ts, q) && Open(ts, q) == Open(ts, p)
  {
    hide Open;
  }

  lemma LastFits(s: Stmt, ss: seq<Stmt>)
    requires BranchFits(StmtsToExpr([s])) && BranchFits(StmtsToExpr(ss))
    ensures BranchFits(StmtsToExpr([s] + ss))
  {
    hide SingleToExpr, BranchFits;
    assert ss == [] ==> [s] + ss == [s];
  }

  lemma {:induction false} StatementShape(ts: seq<Lexeme>, p: nat)
    requires Tidy(ts) && StatementAt(ts, p) && ParseStatement(ts, p).ParsedStmt?
    ensures var r := ParseStatement(ts, p);
            BranchFits(StmtsToExpr([r.s])) && Settled(ts, p, r.pos)
    decreases |ts| - p, 5
  {
    hide ParseExpr, ParseIf, Tidy, Open, Settled, StatementAt, Written, Canonical;
    if IsWordIf(Cur(ts, p)) {
      hide StmtsToExpr, BranchFits;
      IfShape(ts, p + 1);
      ZeroFits();
    } else {
      NoBlock(ts, p);
      ExprShape(ts, p);
      PlainHere(ts, ParseExpr(ts, p).pos);
    }
  }

  // ----- the two directions together -----

  lemma PlainJoin(a: seq<Lexeme>, b: seq<Lexeme>)
    requires Plain(a) && Plain(b)
    ensures Plain(a + b)
  {
    var ts := a + b;
    forall i: nat | i < |ts|
      ensures PlainAt(ts, i)
    {
      if i < |a| {
        assert PlainAt(a, i);
      } else {
        assert PlainAt(b, i - |a|);
      }
    }
  }

  lemma {:induction false} TokensArePlain(e: Expr)
    requires Written(e)
    ensures Plain(TokensOf(e))
    decreases e, 1
  {
    match e {
      case BinaryOp(l, op, r) =>
        TokensArePlain(l);
        TokensArePlain(r);
        OnePlain(OpLexeme(op));
        PlainJoin(TokensOf(l), [OpLexeme(op)]);
        PlainJoin(TokensOf(l) + [OpLexeme(op)], TokensOf(r));
      case UnaryOp(op, operand) =>
        TokensArePlain(operand);
        OnePlain(UnLexeme(op));
        PlainJoin([UnLexeme(op)], TokensOf(operand));
      case Call(func, args) =>
        TokensArePlain(func);
        ArgumentsArePlain(args);
        NameEnds(func);
        CallIsPlain(TokensOf(func), ArgTokens(args));
      case IfExpr(c, t, f) =>
        TokensArePlain(c);
        TokensArePlain(t);
        TokensArePlain(f);
        IfIsPlain(TokensOf(c), TokensOf(t), TokensOf(f));
      case IntLiteral(n) =>
        DigitsReadBack(n);
        OnePlain(TokensOf(e)[0]);
      case StringLiteral(s) => OnePlain(Lexeme(StrLit, s));
      case BoolLiteral(b) => OnePlain(Lexeme(BoolLit, if b then "true" else "false"));
      case Ident(name) => OnePlain(Lexeme(Identifier, name));
    }
  }

  lemma BracedIsPlain(ls: seq<Lexeme>)
    requires Plain(ls)
    ensures Plain(Braced(ls))
  {
    hide Plain;
    OnePlain(OPENBLOCK);
    OnePlain(CLOSEBLOCK);
    PlainJoin(ls, [CLOSEBLOCK]);
    PlainJoin([OPENBLOCK], ls + [CLOSEBLOCK]);
  }

  lemma IfIsPlain(c: seq<Lexeme>, t: seq<Lexeme>, f: seq<Lexeme>)
    requires Plain(c) && Plain(t) && Plain(f)
    ensures Plain(Conditional(c, t, f))
  {
    hide Plain, Braced;
    BracedIsPlain(t);
    BracedIsPlain(f);
    OnePlain(IF);
    OnePlain(ELSE);
    PlainJoin([ELSE], Braced(f));
    PlainJoin(Braced(t), [ELSE] + Braced(f));
    PlainJoin(c, Braced(t) + ([ELSE] + Braced(f)));
    PlainJoin([IF], c + (Braced(t) + ([ELSE] + Braced(f))));
  }

  lemma OnePlain(l: Lexeme)
    requires PlainLexeme(l) && l.kind != LParen
    ensures Plain([l])
  {
  }

  /** A call's opening parenthesis stands behind a name or another call. */
  lemma {:induction false} NameEnds(e: Expr)
    requires Written(e) && (e.Ident? || e.Call?)
    ensures TokensOf(e) != [] && EndsName(TokensOf(e)[|TokensOf(e)| - 1])
  {
  }

  lemma OpenIsPlain(f: seq<Lexeme>)
    requires Plain(f) && f != [] && EndsName(f[|f| - 1])
    ensures Plain(f + [OPEN])
  {
    forall i: nat | i < |f| + 1
      ensures PlainAt(f + [OPEN], i)
    {
      assert i < |f| ==> PlainAt(f, i);
    }
  }

  lemma CallIsPlain(f: seq<Lexeme>, a: seq<Lexeme>)
    requires Plain(f) && Plain(a) && f != [] && EndsName(f[|f| - 1])
    ensures Plain(f + ([OPEN] + a + [CLOSE]))
  {
    hide Plain;
    OpenIsPlain(f);
    PlainJoin(f + [OPEN], a);
    OnePlain(CLOSE);
    PlainJoin(f + [OPEN] + a, [CLOSE]);
    assert f + ([OPEN] + a + [CLOSE]) == f + [OPEN] + a + [CLOSE];
  }

  lemma {:induction false} ArgumentsArePlain(es: seq<Expr>)
    requires WrittenAll(es)
    ensures Plain(ArgTokens(es))
    decreases es, 0
  {
    if es != [] {
      TokensArePlain(es[0]);
      if |es| > 1 {
        ArgumentsArePlain(es[1..]);
        OnePlain(COMMA);
        PlainJoin([COMMA], ArgTokens(es[1..]));
        PlainJoin(TokensOf(es[0]), [COMMA] + ArgTokens(es[1..]));
      }
    }
  }

  /** From `p` to `q` all braces open branches, and what is opened is closed. */
  predicate Fits(ts: seq<Lexeme>, p: nat, q: nat) {
    p <= q <= |ts| && BranchesIn(ts, p, q) && Open(ts, q) == Open(ts, p)
  }

  lemma FitsJoin(ts: seq<Lexeme>, p: nat, m: nat, q: nat)
    requires Fits(ts, p, m) && Fits(ts, m, q)
    ensures Fits(ts, p, q)
  {
    hide Open, BranchAt;
  }

  lemma FitsToken(ts: seq<Lexeme>, p: nat)
    requires p < |ts| && !IsWordIf(ts[p]) && ts[p].kind != LBrace && ts[p].kind != RBrace
    ensures Fits(ts, p, p + 1)
  {
    OpenStays(ts, p);
  }

  lemma FitsAround(ts: seq<Lexeme>, p: nat, q: nat, end: nat)
    requires Fits(ts, p, q) && q < |ts|
    requires (ts[q].kind.Operator? || ts[q].kind == LParen || ts[q].kind == Comma) && Fits(ts, q + 1, end)
    ensures Fits(ts, p, end)
  {
    hide Fits;
    FitsToken(ts, q);
    FitsJoin(ts, p, q, q + 1);
    FitsJoin(ts, p, q + 1, end);
  }

  /** The tokens of a tree, wherever they stand, have braces around branches only. */
  lemma {:induction false} TreeFits(ts: seq<Lexeme>, p: nat, e: Expr)
    requires Written(e) && At(ts, p, TokensOf(e))
    ensures p < EndOf(p, e) && Fits(ts, p, EndOf(p, e)) && EndsOperand(ts[EndOf(p, e) - 1])
    decreases e, 1
  {
    hide At, TokensOf, ArgTokens, Fits, Open, EndsOperand;
    match e {
      case BinaryOp(l, op, r) =>
        var q := BinaryPlaces(ts, p, e);
        TreeFits(ts, p, l);
        TreeFits(ts, q + 1, r);
        FitsAround(ts, p, q, EndOf(p, e));
      case UnaryOp(op, operand) =>
        UnaryPlaces(ts, p, e);
        TreeFits(ts, p + 1, operand);
        FitsToken(ts, p);
        FitsJoin(ts, p, p + 1, EndOf(p, e));
      case Call(func, args) => CallFits(ts, p, e);
      case IfExpr(c, t, f) =>
        var q, r := IfPlaces(ts, p, e);
        TreeFits(ts, p + 1, c);
        TreeFits(ts, q + 1, t);
        TreeFits(ts, r + 3, f);
        ConditionalFits(ts, p, q, r, EndOf(p, e) - 1);
      case _ =>
        OnePlace(ts, p, e);
        FitsToken(ts, p);
    }
  }

  lemma {:induction false} CallFits(ts: seq<Lexeme>, p: nat, e: Expr)
    requires Written(e) && e.Call? && At(ts, p, TokensOf(e))
    ensures p < EndOf(p, e) && Fits(ts, p, EndOf(p, e)) && EndsOperand(ts[EndOf(p, e) - 1])
    decreases e, 0
  {
    hide At, TokensOf, ArgTokens, Fits, Open, EndsOperand, Written;
    var q, end := CallPlaces(ts, p, e);
    TreeFits(ts, p, e.func);
    ItemsFit(ts, q + 1, e.args);
    FitsAround(ts, p, q, end);
    FitsToken(ts, end);
    FitsJoin(ts, p, end, end + 1);
    RightEnds(ts, end);
  }

  lemma RightEnds(ts: seq<Lexeme>, p: nat)
    requires p < |ts| && ts[p] == CLOSE
    ensures EndsOperand(ts[p])
  {
  }

  lemma ConditionalFits(ts: seq<Lexeme>, p: nat, q: nat, r: nat, end: nat)
    requires p + 1 < q < r && r + 3 <= end < |ts| && Fits(ts, p + 1, q) && EndsOperand(ts[q - 1])
    requires Fits(ts, q + 1, r) && Fits(ts, r + 3, end)
    requires ts[p] == IF && ts[q] == OPENBLOCK && ts[r] == CLOSEBLOCK && ts[r + 1] == ELSE
    requires ts[r + 2] == OPENBLOCK && ts[end] == CLOSEBLOCK
    ensures Fits(ts, p, end + 1) && EndsOperand(ts[end])
  {
    ThenFits(ts, p, q, r);
    ElseFits(ts, r, end);
    FitsJoin(ts, p, r + 1, end + 1);
  }

  lemma ThenFits(ts: seq<Lexeme>, p: nat, q: nat, r: nat)
    requires p + 1 < q < r < |ts| && Fits(ts, p + 1, q) && EndsOperand(ts[q - 1]) && Fits(ts, q + 1, r)
    requires ts[p] == IF && ts[q] == OPENBLOCK && ts[r] == CLOSEBLOCK
    ensures Fits(ts, p, r + 1)
  {
    hide Open, Step, EndsOperand;
    IfWaits(ts, p);
    BranchOpens(ts, p + 1, q);
    BracesFit(ts, q, r, Open(ts, p));
    hide BranchAt;
  }

  lemma IfWaits(ts: seq<Lexeme>, p: nat)
    requires p < |ts| && IsWordIf(ts[p])
    ensures Open(ts, p + 1)[0] > 0
  {
    hide Open;
    OpenNext(ts, p);
  }

  lemma BracesFit(ts: seq<Lexeme>, q: nat, r: nat, open: seq<nat>)
    requires q < r < |ts| && ts[q] == OPENBLOCK && ts[r] == CLOSEBLOCK && Fits(ts, q + 1, r)
    requires BranchAt(ts, q) && Open(ts, q + 1) == [0] + open && open != []
    ensures BranchesIn(ts, q, r + 1) && Open(ts, r + 1) == open
  {
    hide Open, BranchAt;
    BlockCloses(ts, r);
  }

  lemma ElseFits(ts: seq<Lexeme>, r: nat, end: nat)
    requires r + 3 <= end < |ts| && Fits(ts, r + 3, end)
    requires ts[r] == CLOSEBLOCK && ts[r + 1] == ELSE && ts[r + 2] == OPENBLOCK && ts[end] == CLOSEBLOCK
    ensures Fits(ts, r + 1, end + 1)
  {
    hide Open;
    OpenStays(ts, r + 1);
    ElseOpens(ts, r + 1);
    BracesFit(ts, r + 2, end, Open(ts, r + 2));
    hide BranchAt;
  }

  lemma BinaryPlaces(ts: seq<Lexeme>, p: nat, e: Expr) returns (q: nat)
    requires Written(e) && e.BinaryOp? && At(ts, p, TokensOf(e))
    ensures q == EndOf(p, e.left) < |ts| && ts[q] == OpLexeme(e.op) && EndOf(q + 1, e.right) == EndOf(p, e)
    ensures At(ts, p, TokensOf(e.left)) && At(ts, q + 1, TokensOf(e.right))
  {
    var l, r, op := TokensOf(e.left), TokensOf(e.right), OpLexeme(e.op);
    q := p + |l|;
    AtSplit(ts, p, l + [op], r);
    AtSplit(ts, p, l, [op]);
    AtIndex(ts, q, [op], 0);
  }

  lemma UnaryPlaces(ts: seq<Lexeme>, p: nat, e: Expr)
    requires Written(e) && e.UnaryOp? && At(ts, p, TokensOf(e))
    ensures p < |ts| && ts[p] == UnLexeme(e.uop) && At(ts, p + 1, TokensOf(e.operand)) && EndOf(p + 1, e.operand) == EndOf(p, e)
  {
    AtSplit(ts, p, [UnLexeme(e.uop)], TokensOf(e.operand));
    AtIndex(ts, p, [UnLexeme(e.uop)], 0);
  }

  lemma CallPlaces(ts: seq<Lexeme>, p: nat, e: Expr) returns (q: nat, end: nat)
    requires Written(e) && e.Call? && At(ts, p, TokensOf(e))
    ensures Written(e.func) && WrittenAll(e.args)
    ensures q == EndOf(p, e.func) < |ts| && ts[q] == OPEN && end == q + 1 + |ArgTokens(e.args)| < |ts| && ts[end] == CLOSE
    ensures At(ts, p, TokensOf(e.func)) && At(ts, q + 1, ArgTokens(e.args)) && EndOf(p, e) == end + 1
  {
    var f, a := TokensOf(e.func), ArgTokens(e.args);
    assert TokensOf(e) == f + ([OPEN] + a + [CLOSE]);
    q, end := p + |f|, p + |f| + 1 + |a|;
    hide TokensOf, ArgTokens, At;
    AtSplit(ts, p, f, [OPEN] + a + [CLOSE]);
    AtSplit(ts, q, [OPEN] + a, [CLOSE]);
    AtSplit(ts, q, [OPEN], a);
    AtIndex(ts, q, [OPEN], 0);
    AtIndex(ts, end, [CLOSE], 0);
  }

  lemma OnePlace(ts: seq<Lexeme>, p: nat, e: Expr)
    requires Written(e) && (e.IntLiteral? || e.StringLiteral? || e.BoolLiteral? || e.Ident?) && At(ts, p, TokensOf(e))
    ensures p < |ts| && EndOf(p, e) == p + 1 && EndsOperand(ts[p])
    ensures ts[p].kind != RBrace && ts[p].kind != LBrace && ts[p].kind != Keyword
  {
    AtIndex(ts, p, TokensOf(e), 0);
  }

  lemma {:induction false} ItemsFit(ts: seq<Lexeme>, p: nat, es: seq<Expr>)
    requires WrittenAll(es) && At(ts, p, ArgTokens(es))
    ensures Fits(ts, p, p + |ArgTokens(es)|)
    decreases es, 0
  {
    hide Open, BranchAt, EndsOperand, TokensOf, Written, WrittenAll;
    if es != [] {
      hide At, Fits, ArgTokens;
      var q := MorePlaces(ts, p, es);
      TreeFits(ts, p, es[0]);
      if |es| > 1 {
        ItemsFit(ts, q + 1, es[1..]);
        FitsAround(ts, p, q, p + |ArgTokens(es)|);
      }
    }
  }

  lemma MorePlaces(ts: seq<Lexeme>, p: nat, es: seq<Expr>) returns (q: nat)
    requires es != [] && WrittenAll(es) && At(ts, p, ArgTokens(es))
    ensures Written(es[0]) && At(ts, p, TokensOf(es[0])) && q == EndOf(p, es[0])
    ensures if |es| == 1 then q == p + |ArgTokens(es)|
            else && q < |ts| && ts[q] == COMMA && WrittenAll(es[1..]) && At(ts, q + 1, ArgTokens(es[1..]))
                 && p + |ArgTokens(es)| == q + 1 + |ArgTokens(es[1..])|
  {
    var a := TokensOf(es[0]);
    q := p + |a|;
    if |es| > 1 {
      var rest := ArgTokens(es[1..]);
      assert ArgTokens(es) == a + ([COMMA] + rest);
      hide At, TokensOf, ArgTokens;
      AtSplit(ts, p, a, [COMMA] + rest);
      AtSplit(ts, q, [COMMA], rest);
      AtIndex(ts, q, [COMMA], 0);
    }
  }

  lemma TreeIsTidy(e: Expr)
    requires Written(e)
    ensures var ts := TokensOf(e) + [END]; Tidy(ts) && StartAt(ts, 0)
  {
    var ts := TokensOf(e) + [END];
    TokensArePlain(e);
    OnePlain(END);
    PlainJoin(TokensOf(e), [END]);
    OperandStarts(e);
    assert At(ts, 0, TokensOf(e));
    TreeFits(ts, 0, e);
  }

  lemma ShapeOfTree(e: Expr)
    requires Written(e)
    ensures var r := ParseExpr(TokensOf(e) + [END], 0); r.Parsed? ==> Canonical(r.e)
  {
    hide ParseExpr, Tidy;
    TreeIsTidy(e);
    if ParseExpr(TokensOf(e) + [END], 0).Parsed? {
      ExprShape(TokensOf(e) + [END], 0);
    }
  }

  /** A tree survives being written without parentheses and parsed exactly if it is canonical. */
  lemma ParsesBackIffCanonical(e: Expr)
    requires Written(e)
    ensures ParseExpr(TokensOf(e) + [END], 0) == Parsed(e, |TokensOf(e)|) <==> Canonical(e)
  {
    var ts := TokensOf(e) + [END];
    hide ParseExpr;
    if Canonical(e) {
      assert At(ts, 0, TokensOf(e));
      ExprBack(ts, 0, e);
    }
    if ParseExpr(ts, 0) == Parsed(e, |TokensOf(e)|) {
      ShapeOfTree(e);
    }
  }

  /** No two canonical trees have the same tokens. */
  lemma CanonicalIsUnique(a: Expr, b: Expr)
    requires Written(a) && Written(b) && Canonical(a) && Canonical(b) && TokensOf(a) == TokensOf(b)
    ensures a == b
  {
    ParsesBackIffCanonical(a);
    ParsesBackIffCanonical(b);
  }

  /** `{1 + 2} * {3}` is plain and without keywords, and is read as a tree that needs parentheses. */
  lemma BracesRegroup()
    ensures var sum := BinaryOp(IntLiteral(1), Plus, IntLiteral(2));
            var ts := BracedSides(sum, Star, IntLiteral(3)) + [END];
            var e := BinaryOp(sum, Star, IntLiteral(3));
            && Plain(ts) && OperandAt(ts, 0) && NoKeywords(ts, 0, |ts|) && !NoBraces(ts, 0, |ts|)
            && ParseExpr(ts, 0) == Parsed(e, |ts| - 1) && !Canonical(e)
  {
    var sum := BinaryOp(IntLiteral(1), Plus, IntLiteral(2));
    assert Canonical(sum) && !Canonical(BinaryOp(sum, Star, IntLiteral(3)));
    hide ParseExpr, Plain, NoBraces, NoKeywords, TokensOf, BracedSides, Canonical;
    BracesGroup(sum, Star, IntLiteral(3));
    SidesArePlain(sum, Star, IntLiteral(3));
    SidesOfNumbers(1, 2, 3);
  }

  lemma SidesArePlain(l: Expr, op: BinOp, r: Expr)
    requires Written(l) && Written(r)
    ensures Plain(BracedSides(l, op, r) + [END])
  {
    hide Plain, Braced, TokensOf, Written;
    TokensArePlain(l);
    TokensArePlain(r);
    BracedIsPlain(TokensOf(l));
    BracedIsPlain(TokensOf(r));
    OnePlain(OpLexeme(op));
    OnePlain(END);
    PlainJoin([OpLexeme(op)], Braced(TokensOf(r)));
    PlainJoin(Braced(TokensOf(l)), [OpLexeme(op)] + Braced(TokensOf(r)));
    PlainJoin(BracedSides(l, op, r), [END]);
  }

  lemma SidesOfNumbers(a: i64, b: i64, c: i64)
    requires a >= 0 && b >= 0 && c >= 0
    ensures var ts := BracedSides(BinaryOp(IntLiteral(a), Plus, IntLiteral(b)), Star, IntLiteral(c)) + [END];
            NoKeywords(ts, 0, |ts|) && !NoBraces(ts, 0, |ts|)
  {
    hide Digits, Spelling;
    var ts := BracedSides(BinaryOp(IntLiteral(a), Plus, IntLiteral(b)), Star, IntLiteral(c)) + [END];
    assert TokensOf(IntLiteral(a)) == [Lexeme(IntLit, Digits(a))] && TokensOf(IntLiteral(b)) == [Lexeme(IntLit, Digits(b))];
    assert TokensOf(IntLiteral(c)) == [Lexeme(IntLit, Digits(c))];
    assert ts == [OPENBLOCK, Lexeme(IntLit, Digits(a)), OpLexeme(Plus), Lexeme(IntLit, Digits(b)), CLOSEBLOCK,
                  OpLexeme(Star), OPENBLOCK, Lexeme(IntLit, Digits(c)), CLOSEBLOCK, END];
    assert ts[0] == OPENBLOCK;
  }
}
