/** Parsing plain tokens: what the parser makes of tokens whose parentheses all open argument lists. */
module PlainTokens {
  import opened Prelude
  import opened Ast
  import opened Lexer
  import opened Parser
  import opened RoundTrip

  // ----- parsing plain tokens only makes canonical trees, and consumes exactly their tokens -----

  /** The tokens trees are written with, integers in plain decimal notation. */
  predicate PlainLexeme(l: Lexeme) {
    match l.kind
    case IntLit => AllDigits(l.value) && Decimal(l.value) < TWO_63 && l.value == Digits(Decimal(l.value))
    case StrLit => true
    case BoolLit => l.value == "true" || l.value == "false"
    case Identifier => l.value !in OPTION_WORDS
    case Operator(op) => l.value == Spelling(op)
    case Bang => l.value == "!"
    case LParen => l.value == "("
    case RParen => l.value == ")"
    case Comma => l.value == ","
    case LBrace => l.value == "{"
    case RBrace => l.value == "}"
    case Keyword => l.value == "if" || l.value == "else"
    case Eof => true
    case _ => false
  }

  predicate EndsName(l: Lexeme) {
    l.kind == Identifier || l.kind == RParen
  }

  /** A plain token, which can be an opening parenthesis only behind a name or a call. */
  predicate PlainAt(ts: seq<Lexeme>, i: nat)
    requires i < |ts|
  {
    PlainLexeme(ts[i]) && (ts[i].kind == LParen ==> i > 0 && EndsName(ts[i - 1]))
  }

  /** Plain tokens whose opening parentheses all open an argument list. */
  predicate Plain(ts: seq<Lexeme>) {
    forall i: nat :: i < |ts| ==> PlainAt(ts, i)
  }

  predicate NoKeywords(ts: seq<Lexeme>, p: nat, end: nat) {
    forall i: nat :: p <= i < end && i < |ts| ==> ts[i].kind != Keyword
  }

  predicate NoBraces(ts: seq<Lexeme>, p: nat, end: nat) {
    forall i: nat :: p <= i < end && i < |ts| ==> ts[i].kind != LBrace
  }

  /** Neither keywords nor braces. */
  predicate Flat(ts: seq<Lexeme>, p: nat, end: nat) {
    NoKeywords(ts, p, end) && NoBraces(ts, p, end)
  }

  /** An operand may start here: what comes before cannot be called. */
  predicate OperandAt(ts: seq<Lexeme>, p: nat) {
    p <= |ts| && (p > 0 ==> !EndsName(ts[p - 1]))
  }

  /** The tokens from `p` to `q` are those of the canonical tree `e`. */
  predicate Reads(ts: seq<Lexeme>, p: nat, e: Expr, q: nat) {
    Spelled(ts, p, e) && q == EndOf(p, e)
  }

  lemma AtJoin<T>(s: seq<T>, i: nat, a: seq<T>, b: seq<T>)
    requires At(s, i, a) && At(s, i + |a|, b)
    ensures At(s, i, a + b)
  {
    assert s[i..i + |a + b|] == s[i..i + |a|] + s[i + |a|..i + |a| + |b|];
  }

  lemma {:induction false} BinaryFlat(ts: seq<Lexeme>, p: nat, min: nat, end: nat)
    requires Plain(ts) && Flat(ts, p, end) && OperandAt(ts, p) && min <= 7
    requires ParseBinary(ts, p, min).Parsed? && ParseBinary(ts, p, min).pos <= end
    ensures var r := ParseBinary(ts, p, min);
            && Reads(ts, p, r.e, r.pos) && Top(r.e) >= min
            && (PrecOf(Cur(ts, r.pos)) < min || PrecOf(Cur(ts, r.pos)) == 0)
    decreases |ts| - p, 3
  {
    hide Reads, ParseUnary, ClimbFrom;
    UnaryFlat(ts, p, end);
    var r := ParseUnary(ts, p);
    ClimbFlat(ts, p, r.e, r.pos, min, end);
  }

  lemma {:induction false} ClimbFlat(ts: seq<Lexeme>, start: nat, left: Expr, p: nat, min: nat, end: nat)
    requires Plain(ts) && Flat(ts, p, end) && start < p && Reads(ts, start, left, p) && p <= |ts| && min <= 7
    requires Top(left) >= min && PrecOf(Cur(ts, p)) <= Top(left)
    requires ClimbFrom(ts, left, p, min).Parsed? && ClimbFrom(ts, left, p, min).pos <= end
    ensures var r := ClimbFrom(ts, left, p, min);
            && Reads(ts, start, r.e, r.pos) && Top(r.e) >= min
            && (PrecOf(Cur(ts, r.pos)) < min || PrecOf(Cur(ts, r.pos)) == 0)
    decreases |ts| - p, 4
  {
    hide Reads, ParseBinary, Plain, PlainLexeme;
    var l := Cur(ts, p);
    if PrecOf(l) >= min && PrecOf(l) != 0 {
      var op := l.kind.op;
      assert OperandAt(ts, p + 1);
      BinaryFlat(ts, p + 1, Prec(op) + 1, end);
      var r := ParseBinary(ts, p + 1, Prec(op) + 1);
      JoinBinary(ts, start, left, p, op, r.e, r.pos);
      ClimbFlat(ts, start, BinaryOp(left, op, r.e), r.pos, min, end);
    }
  }

  lemma JoinBinary(ts: seq<Lexeme>, start: nat, left: Expr, p: nat, op: BinOp, right: Expr, q: nat)
    requires Plain(ts) && p < |ts| && ts[p].kind == Operator(op)
    requires Reads(ts, start, left, p) && Reads(ts, p + 1, right, q)
    requires Top(left) >= Prec(op) && Top(right) > Prec(op)
    ensures Reads(ts, start, BinaryOp(left, op, right), q)
  {
    hide Plain, At;
    OperatorHere(ts, p, op);
    AtJoin(ts, start, TokensOf(left), [OpLexeme(op)]);
    AtJoin(ts, start, TokensOf(left) + [OpLexeme(op)], TokensOf(right));
  }

  lemma OperatorHere(ts: seq<Lexeme>, p: nat, op: BinOp)
    requires Plain(ts) && p < |ts| && ts[p].kind == Operator(op)
    ensures At(ts, p, [OpLexeme(op)])
  {
    assert PlainAt(ts, p);
  }

  lemma {:induction false} UnaryFlat(ts: seq<Lexeme>, p: nat, end: nat)
    requires Plain(ts) && Flat(ts, p, end) && OperandAt(ts, p) && ParseUnary(ts, p).Parsed? && ParseUnary(ts, p).pos <= end
    ensures var r := ParseUnary(ts, p);
            Reads(ts, p, r.e, r.pos) && !r.e.BinaryOp?
    decreases |ts| - p, 2
  {
    hide Reads, ParsePrimary, Plain;
    var l := Cur(ts, p);
    if l.kind == Operator(Minus) || l.kind == Bang {
      assert OperandAt(ts, p + 1);
      UnaryFlat(ts, p + 1, end);
      var r := ParseUnary(ts, p + 1);
      JoinUnary(ts, p, if l.kind == Bang then Not else Negate, r.e, r.pos);
    } else {
      PrimaryFlat(ts, p, end);
    }
  }

  lemma JoinUnary(ts: seq<Lexeme>, p: nat, op: UnOp, e: Expr, q: nat)
    requires Plain(ts) && p < |ts| && ts[p].kind == UnLexeme(op).kind
    requires Reads(ts, p + 1, e, q) && !e.BinaryOp?
    ensures Reads(ts, p, UnaryOp(op, e), q)
  {
    assert PlainAt(ts, p);
    assert At(ts, p, [UnLexeme(op)]);
    AtJoin(ts, p, [UnLexeme(op)], TokensOf(e));
  }

  lemma {:induction false} PrimaryFlat(ts: seq<Lexeme>, p: nat, end: nat)
    requires Plain(ts) && Flat(ts, p, end) && OperandAt(ts, p) && ParsePrimary(ts, p).Parsed? && ParsePrimary(ts, p).pos <= end
    ensures var r := ParsePrimary(ts, p);
            Reads(ts, p, r.e, r.pos) && !r.e.BinaryOp?
    decreases |ts| - p, 1
  {
    hide ParsePostfix, ParseClosed, ParseItems, ParseOptionWord, ParseIf, ParseBlock, AsOperand, BlockOperand;
    assert PlainAt(ts, p) && ts[p].kind != Keyword && ts[p].kind != LBrace;
    assert p + 1 < |ts| ==> PlainAt(ts, p + 1);
    var l := Cur(ts, p);
    if l.kind == Identifier {
      hide ParsePrimary;
      SingleToken(ts, p, Ident(l.value));
      PostfixFlat(ts, p, Ident(l.value), p + 1, end);
      assert ParsePrimary(ts, p) == ParsePostfix(ts, Ident(l.value), p + 1) by {
        NameParses(ts, p);
      }
    } else {
      SingleToken(ts, p, ParsePrimary(ts, p).e);
    }
  }

  lemma SingleToken(ts: seq<Lexeme>, p: nat, e: Expr)
    requires p < |ts| && Written(e) && TokensOf(e) == [ts[p]] && Canonical(e)
    ensures Reads(ts, p, e, p + 1)
  {
  }

  lemma {:induction false} PostfixFlat(ts: seq<Lexeme>, start: nat, e: Expr, p: nat, end: nat)
    requires Plain(ts) && Flat(ts, p, end) && start < p <= |ts| && Reads(ts, start, e, p) && (e.Ident? || e.Call?)
    requires ParsePostfix(ts, e, p).Parsed? && ParsePostfix(ts, e, p).pos <= end
    ensures var r := ParsePostfix(ts, e, p);
            Reads(ts, start, r.e, r.pos) && !r.e.BinaryOp?
    decreases |ts| - p, 0
  {
    hide Plain, Reads, ReadsItems, ParseItems, ParseClosed;
    NoPostfixToken(ts, p);
    if Cur(ts, p).kind == LParen {
      assert OperandAt(ts, p + 1);
      ItemsFlat(ts, p + 1, end);
      var items := ParseItems(ts, p + 1, RParen);
      JoinCall(ts, start, e, p, items.es, items.pos);
      PostfixFlat(ts, start, Call(e, items.es), items.pos, end);
    }
  }

  lemma NoPostfixToken(ts: seq<Lexeme>, p: nat)
    requires Plain(ts)
    ensures Cur(ts, p).kind != Dot && Cur(ts, p).kind != LBracket
  {
    assert p < |ts| ==> PlainAt(ts, p);
  }

  lemma JoinCall(ts: seq<Lexeme>, start: nat, func: Expr, p: nat, args: seq<Expr>, q: nat)
    requires Plain(ts) && p < |ts| && ts[p].kind == LParen && (func.Ident? || func.Call?)
    requires Reads(ts, start, func, p) && ReadsItems(ts, p + 1, args, q)
    ensures Reads(ts, start, Call(func, args), q)
  {
    assert PlainAt(ts, p);
    assert At(ts, p, [OPEN]);
    AtJoin(ts, p, [OPEN], ArgTokens(args) + [CLOSE]);
    assert [OPEN] + (ArgTokens(args) + [CLOSE]) == [OPEN] + ArgTokens(args) + [CLOSE];
    AtJoin(ts, start, TokensOf(func), [OPEN] + ArgTokens(args) + [CLOSE]);
  }

  predicate ReadsItems(ts: seq<Lexeme>, p: nat, es: seq<Expr>, q: nat) {
    WrittenAll(es) && CanonicalAll(es) && At(ts, p, ArgTokens(es) + [CLOSE]) && q == p + |ArgTokens(es)| + 1
  }

  lemma {:induction false} ItemsFlat(ts: seq<Lexeme>, p: nat, end: nat)
    requires Plain(ts) && Flat(ts, p, end) && OperandAt(ts, p)
    requires ParseItems(ts, p, RParen).ParsedList? && ParseItems(ts, p, RParen).pos <= end
    ensures var r := ParseItems(ts, p, RParen); ReadsItems(ts, p, r.es, r.pos)
    decreases |ts| - p, 6
  {
    hide ParseMore;
    if Cur(ts, p).kind == RParen {
      assert PlainAt(ts, p);
      assert ArgTokens([]) + [CLOSE] == [ts[p]];
    } else {
      MoreFlat(ts, p, end);
    }
  }

  lemma {:induction false} MoreFlat(ts: seq<Lexeme>, p: nat, end: nat)
    requires Plain(ts) && Flat(ts, p, end) && OperandAt(ts, p)
    requires ParseMore(ts, p, RParen).ParsedList? && ParseMore(ts, p, RParen).pos <= end
    ensures var r := ParseMore(ts, p, RParen); ReadsItems(ts, p, r.es, r.pos)
    decreases |ts| - p, 5
  {
    hide ParseExpr, Reads, ReadsItems;
    ExprFlat(ts, p, end);
    var r := ParseExpr(ts, p);
    var q := r.pos;
    if Cur(ts, q).kind == Comma {
      assert OperandAt(ts, q + 1);
      MoreFlat(ts, q + 1, end);
      var more := ParseMore(ts, q + 1, RParen);
      JoinItems(ts, p, r.e, q, more.es, more.pos);
    } else {
      LastItem(ts, p, r.e, q);
    }
  }

  lemma JoinItems(ts: seq<Lexeme>, p: nat, e: Expr, q: nat, es: seq<Expr>, end: nat)
    requires Plain(ts) && q < |ts| && ts[q].kind == Comma && es != []
    requires Reads(ts, p, e, q) && ReadsItems(ts, q + 1, es, end)
    ensures ReadsItems(ts, p, [e] + es, end)
  {
    assert PlainAt(ts, q);
    assert At(ts, q, [COMMA]);
    assert ([e] + es)[1..] == es;
    hide At, Plain, PlainLexeme, TokensOf, ArgTokens, Written, Canonical;
    var rest := ArgTokens(es) + [CLOSE];
    AtJoin(ts, q, [COMMA], rest);
    AtJoin(ts, p, TokensOf(e), [COMMA] + rest);
    MoreArgTokens([e] + es);
  }

  lemma LastItem(ts: seq<Lexeme>, p: nat, e: Expr, q: nat)
    requires Plain(ts) && q < |ts| && ts[q].kind == RParen && Reads(ts, p, e, q)
    ensures ReadsItems(ts, p, [e], q + 1)
  {
    assert PlainAt(ts, q);
    assert At(ts, q, [CLOSE]);
    AtJoin(ts, p, TokensOf(e), [CLOSE]);
    assert [e][1..] == [];
  }

  lemma {:induction false} ExprFlat(ts: seq<Lexeme>, p: nat, end: nat)
    requires Plain(ts) && Flat(ts, p, end) && OperandAt(ts, p) && ParseExpr(ts, p).Parsed? && ParseExpr(ts, p).pos <= end
    ensures var r := ParseExpr(ts, p);
            Reads(ts, p, r.e, r.pos)
    decreases |ts| - p, 4
  {
    hide Reads, ParseBinary;
    BinaryFlat(ts, p, 0, end);
    var r := ParseBinary(ts, p, 0);
    assert r.pos < |ts| ==> PlainAt(ts, r.pos);
  }

  /** The parser on plain tokens without keywords reads a canonical tree, whose tokens are exactly the ones consumed, if
      and only if it consumes no brace: braces group like parentheses. */
  lemma {:induction false} ExprSound(ts: seq<Lexeme>, p: nat)
    requires Plain(ts) && OperandAt(ts, p) && ParseExpr(ts, p).Parsed? && NoKeywords(ts, p, ParseExpr(ts, p).pos)
    ensures var r := ParseExpr(ts, p);
            Reads(ts, p, r.e, r.pos) <==> NoBraces(ts, p, r.pos)
  {
    hide ParseExpr, Spelled;
    var r := ParseExpr(ts, p);
    if NoBraces(ts, p, r.pos) {
      ExprFlat(ts, p, r.pos);
    }
    if Reads(ts, p, r.e, r.pos) {
      ReadWithoutBraces(ts, p, r.e, r.pos);
    }
  }

  predicate Lacks(ls: seq<Lexeme>, k: Kind) {
    forall l :: l in ls ==> l.kind != k
  }

  lemma LacksJoin(a: seq<Lexeme>, b: seq<Lexeme>, k: Kind)
    ensures Lacks(a + b, k) <==> Lacks(a, k) && Lacks(b, k)
  {
    assert forall l :: l in a + b <==> l in a || l in b;
  }

  lemma {:induction false} ReadWithoutBraces(ts: seq<Lexeme>, p: nat, e: Expr, q: nat)
    requires Reads(ts, p, e, q) && NoKeywords(ts, p, q)
    ensures NoBraces(ts, p, q)
  {
    hide TokensOf, Canonical, Written, Lacks;
    LacksIn(ts, p, q, TokensOf(e));
    WordlessIsBraceless(e);
  }

  lemma LacksIn(ts: seq<Lexeme>, p: nat, q: nat, ls: seq<Lexeme>)
    requires At(ts, p, ls) && q == p + |ls|
    ensures NoKeywords(ts, p, q) ==> Lacks(ls, Keyword)
    ensures Lacks(ls, LBrace) ==> NoBraces(ts, p, q)
  {
    assert forall i: nat :: p <= i < q ==> ts[i] == ls[i - p];
    assert forall i: nat :: i < |ls| ==> ls[i] == ts[p + i];
  }

  /** Only a conditional has braces, and it has keywords too. */
  lemma {:induction false} WordlessIsBraceless(e: Expr)
    requires Written(e) && Lacks(TokensOf(e), Keyword)
    ensures Lacks(TokensOf(e), LBrace)
    decreases e, 1
  {
    match e {
      case BinaryOp(l, op, r) =>
        LacksSides(e, Keyword);
        LacksSides(e, LBrace);
        WordlessIsBraceless(l);
        WordlessIsBraceless(r);
      case UnaryOp(op, operand) =>
        LacksJoin([UnLexeme(op)], TokensOf(operand), Keyword);
        LacksJoin([UnLexeme(op)], TokensOf(operand), LBrace);
        WordlessIsBraceless(operand);
      case Call(func, args) =>
        LacksCall(e, Keyword);
        LacksCall(e, LBrace);
        WordlessIsBraceless(func);
        WordlessArguments(args);
      case IfExpr(_, _, _) => IfHasWord(e);
      case _ =>
    }
  }

  lemma IfHasWord(e: Expr)
    requires Written(e) && e.IfExpr?
    ensures !Lacks(TokensOf(e), Keyword)
  {
    assert TokensOf(e)[0] == IF;
  }

  lemma LacksSides(e: Expr, k: Kind)
    requires Written(e) && e.BinaryOp?
    ensures Lacks(TokensOf(e), k) <==> Lacks(TokensOf(e.left), k) && k != Operator(e.op) && Lacks(TokensOf(e.right), k)
  {
    var l, op, r := TokensOf(e.left), [OpLexeme(e.op)], TokensOf(e.right);
    assert op[0] in op;
    LacksJoin(l + op, r, k);
    LacksJoin(l, op, k);
  }

  lemma LacksCall(e: Expr, k: Kind)
    requires Written(e) && e.Call? && k != LParen && k != RParen
    ensures Lacks(TokensOf(e), k) <==> Lacks(TokensOf(e.func), k) && Lacks(ArgTokens(e.args), k)
  {
    var f, a := TokensOf(e.func), ArgTokens(e.args);
    LacksJoin(f, [OPEN] + a + [CLOSE], k);
    LacksJoin([OPEN] + a, [CLOSE], k);
    LacksJoin([OPEN], a, k);
  }

  lemma LacksMore(es: seq<Expr>, k: Kind)
    requires WrittenAll(es) && |es| > 1 && k != Kind.Comma
    ensures Lacks(ArgTokens(es), k) <==> Lacks(TokensOf(es[0]), k) && Lacks(ArgTokens(es[1..]), k)
  {
    LacksJoin(TokensOf(es[0]), [COMMA] + ArgTokens(es[1..]), k);
    LacksJoin([COMMA], ArgTokens(es[1..]), k);
  }

  lemma {:induction false} WordlessArguments(es: seq<Expr>)
    requires WrittenAll(es) && Lacks(ArgTokens(es), Keyword)
    ensures Lacks(ArgTokens(es), LBrace)
    decreases es, 0
  {
    if |es| > 1 {
      LacksMore(es, Keyword);
      LacksMore(es, LBrace);
      WordlessArguments(es[1..]);
    }
    if es != [] {
      WordlessIsBraceless(es[0]);
    }
  }
}
