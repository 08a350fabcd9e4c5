/** What a tree that needs parentheses becomes when it is printed without them and read back. */
module Reassociation {
  import opened Prelude
  import opened Ast
  import opened Parser
  import opened RoundTrip
  import opened TidyTokens
  import opened Formatter

  // ----- the canonical tree with the same tokens -----

  /** `l op r` regrouped: both sides are canonical already. */
  function Attach(l: Expr, op: BinOp, r: Expr): Expr
    decreases r, l
  {
    if r.BinaryOp? && Prec(r.op) <= Prec(op) then Attach(Attach(l, op, r.left), r.op, r.right)
    else if l.BinaryOp? && Prec(l.op) < Prec(op) then BinaryOp(l.left, l.op, Attach(l.right, op, r))
    else BinaryOp(l, op, r)
  }

  /** A unary operator in front of an operator chain belongs to the first operand. */
  function Push(op: UnOp, e: Expr): Expr {
    if e.BinaryOp? then BinaryOp(Push(op, e.left), e.op, e.right) else UnaryOp(op, e)
  }

  function Canon(e: Expr): Expr
    decreases e, 1
  {
    match e
    case BinaryOp(l, op, r) => Attach(Canon(l), op, Canon(r))
    case UnaryOp(op, operand) => Push(op, Canon(operand))
    case Call(func, args) => Call(Canon(func), CanonAll(args))
    case IfExpr(c, t, f) => IfExpr(Canon(c), Canon(t), Canon(f))
    case _ => e
  }

  function CanonAll(es: seq<Expr>): (r: seq<Expr>)
    ensures |r| == |es|
    decreases es, 0
  {
    if es == [] then [] else [Canon(es[0])] + CanonAll(es[1..])
  }

  /** No branch of a conditional begins with an `if`. */
  predicate Clear(e: Expr)
    decreases e, 1
  {
    match e
    case BinaryOp(l, _, r) => Clear(l) && Clear(r)
    case UnaryOp(_, operand) => Clear(operand)
    case Call(func, args) => Clear(func) && ClearAll(args)
    case IfExpr(c, t, f) => Clear(c) && Clear(t) && Clear(f) && !StartsIf(t) && !StartsIf(f)
    case _ => true
  }

  predicate ClearAll(es: seq<Expr>)
    decreases es, 0
  {
    es == [] || (Clear(es[0]) && ClearAll(es[1..]))
  }

  // ----- it is canonical -----

  lemma {:induction false} AttachStarts(l: Expr, op: BinOp, r: Expr)
    ensures StartsIf(Attach(l, op, r)) <==> StartsIf(l)
    decreases r, l
  {
    hide Prec;
    AttachCases(l, op, r);
    hide Attach;
    if r.BinaryOp? && Prec(r.op) <= Prec(op) {
      AttachStarts(l, op, r.left);
      AttachStarts(Attach(l, op, r.left), r.op, r.right);
    } else if l.BinaryOp? && Prec(l.op) < Prec(op) {
      AttachStarts(l.right, op, r);
    }
  }

  lemma {:induction false} CanonStarts(e: Expr)
    ensures StartsIf(Canon(e)) <==> StartsIf(e)
    decreases e
  {
    match e {
      case BinaryOp(l, op, r) =>
        CanonStarts(l);
        AttachStarts(Canon(l), op, Canon(r));
      case UnaryOp(op, operand) => PushStarts(op, Canon(operand));
      case Call(func, _) => CanonStarts(func);
      case _ =>
    }
  }

  lemma {:induction false} PushStarts(op: UnOp, e: Expr)
    ensures !StartsIf(Push(op, e))
  {
    if e.BinaryOp? {
      PushStarts(op, e.left);
    }
  }

  lemma PrecRange(op: BinOp)
    ensures 1 <= Prec(op) <= 6
  {
  }

  lemma BinaryCanonical(e: Expr)
    requires e.BinaryOp?
    ensures Canonical(e) <==>
      Canonical(e.left) && Canonical(e.right) && Top(e.left) >= Prec(e.op) && Top(e.right) > Prec(e.op)
  {
  }

  lemma AttachCases(l: Expr, op: BinOp, r: Expr)
    ensures Attach(l, op, r)
         == if r.BinaryOp? && Prec(r.op) <= Prec(op) then Attach(Attach(l, op, r.left), r.op, r.right)
            else if l.BinaryOp? && Prec(l.op) < Prec(op) then BinaryOp(l.left, l.op, Attach(l.right, op, r))
            else BinaryOp(l, op, r)
  {
  }

  lemma {:induction false} AttachIsCanonical(l: Expr, op: BinOp, r: Expr)
    requires Canonical(l) && Canonical(r)
    ensures var t := Attach(l, op, r);
            && Canonical(t) && t.BinaryOp?
            && (Top(r) > Prec(op) ==> Top(t) == if Top(l) < Prec(op) then Top(l) else Prec(op))
    decreases r, l
  {
    PrecRange(op);
    hide Prec, Canonical, Attach;
    AttachCases(l, op, r);
    if r.BinaryOp? && Prec(r.op) <= Prec(op) {
      BinaryCanonical(r);
      AttachIsCanonical(l, op, r.left);
      AttachIsCanonical(Attach(l, op, r.left), r.op, r.right);
    } else if l.BinaryOp? && Prec(l.op) < Prec(op) {
      BinaryCanonical(l);
      AttachIsCanonical(l.right, op, r);
      BinaryCanonical(BinaryOp(l.left, l.op, Attach(l.right, op, r)));
    } else {
      BinaryCanonical(BinaryOp(l, op, r));
    }
  }

  lemma {:induction false} PushIsCanonical(op: UnOp, e: Expr)
    requires Canonical(e)
    ensures Canonical(Push(op, e)) && Top(Push(op, e)) == Top(e)
  {
    if e.BinaryOp? {
      PushIsCanonical(op, e.left);
    }
  }

  lemma {:induction false} CanonIsCanonical(e: Expr)
    requires Clear(e)
    ensures Canonical(Canon(e))
    decreases e, 1
  {
    match e {
      case BinaryOp(l, op, r) =>
        CanonIsCanonical(l);
        CanonIsCanonical(r);
        AttachIsCanonical(Canon(l), op, Canon(r));
      case UnaryOp(op, operand) =>
        CanonIsCanonical(operand);
        PushIsCanonical(op, Canon(operand));
      case Call(func, args) =>
        CanonIsCanonical(func);
        CanonAllAreCanonical(args);
      case IfExpr(c, t, f) =>
        CanonIsCanonical(c);
        CanonIsCanonical(t);
        CanonIsCanonical(f);
        CanonStarts(t);
        CanonStarts(f);
      case _ =>
    }
  }

  lemma {:induction false} CanonAllAreCanonical(es: seq<Expr>)
    requires ClearAll(es)
    ensures CanonicalAll(CanonAll(es))
    decreases es, 0
  {
    if es != [] {
      CanonIsCanonical(es[0]);
      CanonAllAreCanonical(es[1..]);
      assert CanonAll(es)[1..] == CanonAll(es[1..]);
    }
  }

  // ----- it has the same tokens -----

  lemma {:induction false} AttachTokens(l: Expr, op: BinOp, r: Expr)
    requires Written(l) && Written(r)
    ensures Written(Attach(l, op, r)) && TokensOf(Attach(l, op, r)) == TokensOf(l) + [OpLexeme(op)] + TokensOf(r)
    decreases r, l
  {
    if r.BinaryOp? && Prec(r.op) <= Prec(op) {
      AttachTokens(l, op, r.left);
      AttachTokens(Attach(l, op, r.left), r.op, r.right);
      Regroup(TokensOf(l), [OpLexeme(op)], TokensOf(r.left), [OpLexeme(r.op)], TokensOf(r.right));
    } else if l.BinaryOp? && Prec(l.op) < Prec(op) {
      AttachTokens(l.right, op, r);
      Regroup(TokensOf(l.left), [OpLexeme(l.op)], TokensOf(l.right), [OpLexeme(op)], TokensOf(r));
    }
  }

  lemma Regroup<T>(a: seq<T>, o: seq<T>, b: seq<T>, p: seq<T>, c: seq<T>)
    ensures (a + o + b) + p + c == a + o + (b + p + c)
  {
  }

  lemma {:induction false} PushTokens(op: UnOp, e: Expr)
    requires Written(e)
    ensures Written(Push(op, e)) && TokensOf(Push(op, e)) == [UnLexeme(op)] + TokensOf(e)
  {
    if e.BinaryOp? {
      PushTokens(op, e.left);
      Assoc3([UnLexeme(op)], TokensOf(e.left), [OpLexeme(e.op)], TokensOf(e.right));
    }
  }

  lemma {:induction false} CanonTokens(e: Expr)
    requires Written(e)
    ensures Written(Canon(e)) && TokensOf(Canon(e)) == TokensOf(e)
    decreases e, 1
  {
    match e {
      case BinaryOp(l, op, r) =>
        CanonTokens(l);
        CanonTokens(r);
        AttachTokens(Canon(l), op, Canon(r));
      case UnaryOp(op, operand) =>
        CanonTokens(operand);
        PushTokens(op, Canon(operand));
      case Call(func, args) =>
        CanonTokens(func);
        CanonAllTokens(args);
      case IfExpr(c, t, f) =>
        CanonTokens(c);
        CanonTokens(t);
        CanonTokens(f);
      case _ =>
    }
  }

  lemma {:induction false} CanonAllTokens(es: seq<Expr>)
    requires WrittenAll(es)
    ensures WrittenAll(CanonAll(es)) && ArgTokens(CanonAll(es)) == ArgTokens(es)
    decreases es, 0
  {
    if es != [] {
      CanonTokens(es[0]);
      CanonAllTokens(es[1..]);
      assert CanonAll(es)[1..] == CanonAll(es[1..]);
    }
  }

  /** Parsing the tokens of any tree gives its canonical regrouping, which is the tree itself only if that is canonical. */
  lemma ParsesToCanon(e: Expr)
    requires Written(e) && Clear(e)
    ensures ParseExpr(TokensOf(e) + [END], 0) == Parsed(Canon(e), |TokensOf(e)|)
    ensures Canon(e) == e <==> Canonical(e)
  {
    hide ParseExpr, Canon, TokensOf;
    CanonTokens(e);
    CanonIsCanonical(e);
    ParsesBackIffCanonical(Canon(e));
    ParsesBackIffCanonical(e);
  }

  // ----- it has the same text -----

  lemma BinaryFormat(l: Expr, op: BinOp, r: Expr)
    ensures Format(BinaryOp(l, op, r)) == Format(l) + (" " + Spelling(op) + " ") + Format(r)
    ensures Printable(BinaryOp(l, op, r)) <==> Printable(l) && Printable(r)
  {
  }

  lemma {:induction false} AttachText(l: Expr, op: BinOp, r: Expr)
    requires Printable(l) && Printable(r)
    ensures Printable(Attach(l, op, r))
    ensures Format(Attach(l, op, r)) == Format(l) + (" " + Spelling(op) + " ") + Format(r)
    decreases r, l
  {
    hide Spelling, Format, Printable;
    var o := " " + Spelling(op) + " ";
    if r.BinaryOp? && Prec(r.op) <= Prec(op) {
      BinaryFormat(r.left, r.op, r.right);
      AttachText(l, op, r.left);
      AttachText(Attach(l, op, r.left), r.op, r.right);
      Regroup(Format(l), o, Format(r.left), " " + Spelling(r.op) + " ", Format(r.right));
    } else if l.BinaryOp? && Prec(l.op) < Prec(op) {
      BinaryFormat(l.left, l.op, l.right);
      AttachText(l.right, op, r);
      BinaryFormat(l.left, l.op, Attach(l.right, op, r));
      Regroup(Format(l.left), " " + Spelling(l.op) + " ", Format(l.right), o, Format(r));
    } else {
      BinaryFormat(l, op, r);
    }
  }

  lemma {:induction false} CanonText(e: Expr)
    requires Printable(e)
    ensures Printable(Canon(e)) && Format(Canon(e)) == Format(e)
    decreases e, 1
  {
    match e {
      case BinaryOp(l, op, r) =>
        CanonText(l);
        CanonText(r);
        AttachText(Canon(l), op, Canon(r));
      case Call(func, args) =>
        CanonText(func);
        CanonAllText(args);
      case IfExpr(c, t, f) =>
        CanonText(c);
        CanonText(t);
        CanonText(f);
      case _ =>
    }
  }

  lemma {:induction false} CanonAllText(es: seq<Expr>)
    requires PrintableAll(es)
    ensures PrintableAll(CanonAll(es)) && FormatAll(CanonAll(es)) == FormatAll(es)
    decreases es, 0
  {
    if es != [] {
      CanonText(es[0]);
      CanonAllText(es[1..]);
      assert CanonAll(es)[1..] == CanonAll(es[1..]);
    }
  }

  /** Every printed tree can be read back, as its canonical regrouping; printing that gives the same text again. */
  lemma FormattingIsStable(e: Expr)
    requires Printable(e) && Clear(e)
    ensures ReadBack(Format(e)) == Some(Canon(e)) && Format(Canon(e)) == Format(e)
  {
    hide Canon, Format, ReadBack;
    CanonText(e);
    CanonIsCanonical(e);
    ComesBackIffCanonical(Canon(e));
  }

  // ----- the precedence levels, from loosest to tightest -----

  const LEVELS: seq<set<BinOp>> :=
    [{OrOr}, {AndAnd}, {Assign, EqEq, NotEq}, {Lt, Gt, Le, Ge}, {Plus, Minus}, {Star, Slash, Percent}]

  lemma LevelOf(op: BinOp, i: nat)
    requires i < |LEVELS| && op in LEVELS[i]
    ensures Prec(op) == i + 1
  {
  }

  /** `a o b p c` is read with the tighter operator's operands together, from the left at equal levels. */
  lemma GroupsByLevel(a: string, o: BinOp, b: string, p: BinOp, c: string, i: nat, j: nat)
    requires Printable(Ident(a)) && Printable(Ident(b)) && Printable(Ident(c))
    requires i < |LEVELS| && o in LEVELS[i] && j < |LEVELS| && p in LEVELS[j]
    ensures ReadBack(a + (" " + Spelling(o) + " ") + b + (" " + Spelling(p) + " ") + c)
         == Some(if i >= j then BinaryOp(BinaryOp(Ident(a), o, Ident(b)), p, Ident(c))
                 else BinaryOp(Ident(a), o, BinaryOp(Ident(b), p, Ident(c))))
  {
    hide ReadBack, Spelling, Prec, Printable, Format;
    var left := BinaryOp(Ident(a), o, Ident(b));
    var e := BinaryOp(left, p, Ident(c));
    LevelOf(o, i);
    LevelOf(p, j);
    BinaryFormat(Ident(a), o, Ident(b));
    BinaryFormat(left, p, Ident(c));
    NameFormat(a);
    NameFormat(b);
    NameFormat(c);
    assert Clear(Ident(a)) && Clear(Ident(b)) && Clear(Ident(c));
    assert Clear(left);
    FormattingIsStable(e);
    AttachCases(Ident(a), o, Ident(b));
    AttachCases(left, p, Ident(c));
    AttachCases(Ident(b), p, Ident(c));
    assert Canon(left) == left && Canon(e) == Attach(left, p, Ident(c));
  }

  lemma NameFormat(name: string)
    ensures Format(Ident(name)) == name
  {
  }
}
