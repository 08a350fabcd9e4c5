/** The expression parser (compiler/src/parser.rs): precedence climbing over lexemes. */
module Parser {
  import opened Prelude
  import opened Ast
  import opened Lexer

  /** An expression and the position behind it, or a parse error. */
  datatype Parse = Parsed(e: Expr, pos: nat) | Failure

  datatype ParseList = ParsedList(es: seq<Expr>, pos: nat) | ListFailure

  datatype ParseStmt = ParsedStmt(s: Stmt, pos: nat) | StmtFailure

  datatype ParseBody = ParsedBody(ss: seq<Stmt>, pos: nat) | BodyFailure

  datatype ParseStages = ParsedStages(stages: seq<Stage>, pos: nat) | StagesFailure

  const END := Lexeme(Eof, "")

  function Cur(ts: seq<Lexeme>, p: nat): Lexeme {
    if p < |ts| then ts[p] else END
  }

  /** `op_precedence`, on the operator of a token; every other token has none. */
  function Prec(op: BinOp): nat {
    match op
    case OrOr => 1
    case AndAnd => 2
    case Assign => 3
    case EqEq => 3
    case NotEq => 3
    case Lt => 4
    case Gt => 4
    case Le => 4
    case Ge => 4
    case Plus => 5
    case Minus => 5
    case Star => 6
    case Slash => 6
    case Percent => 6
  }

  function PrecOf(l: Lexeme): nat {
    if l.kind.Operator? then Prec(l.kind.op) else 0
  }

  predicate AllDigits(s: string) {
    s != "" && forall c :: c in s ==> IsDigit(c)
  }

  /** `parse::<i64>().unwrap_or(0)` on the text of an integer token. */
  function IntValue(s: string): i64 {
    if AllDigits(s) && Decimal(s) < TWO_63 then Decimal(s) else 0
  }

  const OPTION_WORDS := {"Some", "None", "Ok", "Err"}

  // ----- the grammar -----

  /** `parse_expression`: a binary expression and its pipe stages. */
  function ParseExpr(ts: seq<Lexeme>, p: nat): (r: Parse)
    requires p <= |ts|
    ensures r.Parsed? ==> p < r.pos <= |ts|
    decreases |ts| - p, 4
  {
    match ParseBinary(ts, p, 0)
    case Failure => Failure
    case Parsed(e, q) =>
      match ParsePipes(ts, q)
      case StagesFailure => Failure
      case ParsedStages(stages, q') => Parsed(if stages == [] then e else Pipe(e, stages), q')
  }

  function ParsePipes(ts: seq<Lexeme>, p: nat): (r: ParseStages)
    requires p <= |ts|
    ensures r.ParsedStages? ==> p <= r.pos <= |ts|
    decreases |ts| - p, 0
  {
    if Cur(ts, p).kind != PipeTok then ParsedStages([], p)
    else if Cur(ts, p + 1).kind != Identifier then StagesFailure
    else
      var name := Cur(ts, p + 1).value;
      match ParsePipes(ts, p + 2)
      case StagesFailure => StagesFailure
      case ParsedStages(rest, q) => ParsedStages([Stage(name, Ident(name))] + rest, q)
  }

  function ParseBinary(ts: seq<Lexeme>, p: nat, min: nat): (r: Parse)
    requires p <= |ts|
    ensures r.Parsed? ==> p < r.pos <= |ts|
    decreases |ts| - p, 3
  {
    match ParseUnary(ts, p)
    case Failure => Failure
    case Parsed(e, q) => ClimbFrom(ts, e, q, min)
  }

  /** The loop of `parse_binary`: take operators of at least `min`, each with a right side of strictly higher ones. */
  function ClimbFrom(ts: seq<Lexeme>, left: Expr, p: nat, min: nat): (r: Parse)
    requires p <= |ts|
    ensures r.Parsed? ==> p <= r.pos <= |ts|
    decreases |ts| - p, 3
  {
    var l := Cur(ts, p);
    if PrecOf(l) < min || PrecOf(l) == 0 then Parsed(left, p)
    else
      match ParseBinary(ts, p + 1, PrecOf(l) + 1)
      case Failure => Failure
      case Parsed(right, q) => ClimbFrom(ts, BinaryOp(left, l.kind.op, right), q, min)
  }

  function ParseUnary(ts: seq<Lexeme>, p: nat): (r: Parse)
    requires p <= |ts|
    ensures r.Parsed? ==> p < r.pos <= |ts|
    decreases |ts| - p, 2
  {
    var l := Cur(ts, p);
    if l.kind == Operator(Minus) || l.kind == Bang then
      match ParseUnary(ts, p + 1)
      case Failure => Failure
      case Parsed(e, q) => Parsed(UnaryOp(if l.kind == Bang then Not else Negate, e), q)
    else ParsePrimary(ts, p)
  }

  /** `match` and floats are outside this model and count as errors. */
  function ParsePrimary(ts: seq<Lexeme>, p: nat): (r: Parse)
    requires p <= |ts|
    ensures r.Parsed? ==> p < r.pos <= |ts|
    decreases |ts| - p, 1
  {
    var l := Cur(ts, p);
    match l.kind
    case IntLit =>
      if Cur(ts, p + 1).kind == DoubleDot then
        (if Cur(ts, p + 2).kind == IntLit
         then Parsed(Range(IntLiteral(IntValue(l.value)), IntLiteral(IntValue(Cur(ts, p + 2).value)), false), p + 3)
         else Failure)
      else Parsed(IntLiteral(IntValue(l.value)), p + 1)
    case StrLit => Parsed(StringLiteral(l.value), p + 1)
    case BoolLit => Parsed(BoolLiteral(l.value == "true"), p + 1)
    case CharLit => Parsed(CharLiteral(if l.value == "" then '\0' else l.value[0]), p + 1)
    case Identifier =>
      if l.value in OPTION_WORDS then ParseOptionWord(ts, p) else ParsePostfix(ts, Ident(l.value), p + 1)
    case Keyword => if l.value == "if" then AsOperand(ParseIf(ts, p + 1)) else Failure
    case LBrace => BlockOperand(ParseBlock(ts, p))
    case LParen => ParseClosed(ts, p + 1, RParen)
    case LBracket =>
      (match ParseItems(ts, p + 1, RBracket)
       case ListFailure => Failure
       case ParsedList(es, q) => Parsed(Array(es), q))
    case _ => Failure
  }

  // ----- conditionals and blocks as operands -----

  predicate IsWordIf(l: Lexeme) {
    l.kind == Keyword && l.value == "if"
  }

  predicate IsWordElse(l: Lexeme) {
    l.kind == Keyword && l.value == "else"
  }

  /** `stmt_to_expr_single`: a statement that has no value counts as 0, and so does an `if`. */
  function SingleToExpr(s: Stmt): Expr {
    match s
    case ExprStmt(e) => e
    case Return(value) => if value.Some? then value.value else IntLiteral(0)
    case Let(_, value) => if value.Some? then value.value else IntLiteral(0)
    case _ => IntLiteral(0)
  }

  /** `stmts_to_expr`: the value of a branch is that of its last statement. */
  function StmtsToExpr(ss: seq<Stmt>): Expr {
    SingleToExpr(LastOf(ss))
  }

  function LastOf(ss: seq<Stmt>): Stmt {
    if ss == [] then ExprStmt(IntLiteral(0)) else ss[|ss| - 1]
  }

  /** `stmt_to_expr`: unlike in a branch, an `if` keeps its tree here. */
  function StmtToExpr(s: Stmt): Expr {
    match s
    case If(c, t, f) => IfExpr(c, StmtsToExpr(t), StmtsToExpr(f))
    case Match(target, arms) => MatchExpr(target, arms)
    case _ => SingleToExpr(s)
  }

  function AsOperand(r: ParseStmt): (o: Parse)
    ensures o.Parsed? == r.ParsedStmt? && (o.Parsed? ==> o.pos == r.pos)
  {
    if r.StmtFailure? then Failure else Parsed(StmtToExpr(r.s), r.pos)
  }

  /** A block as an operand: its last statement. */
  function BlockOperand(r: ParseBody): (o: Parse)
    ensures o.Parsed? == r.ParsedBody? && (o.Parsed? ==> o.pos == r.pos)
  {
    if r.BodyFailure? then Failure else Parsed(StmtToExpr(LastOf(r.ss)), r.pos)
  }

  /** `parse_if` behind its `if`: condition, block and, if there is one, else-branch. */
  function ParseIf(ts: seq<Lexeme>, p: nat): (r: ParseStmt)
    requires p <= |ts|
    ensures r.ParsedStmt? ==> p < r.pos <= |ts|
    decreases |ts| - p, 7
  {
    match ParseExpr(ts, p)
    case Failure => StmtFailure
    case Parsed(c, q) =>
      match ParseBlock(ts, q)
      case BodyFailure => StmtFailure
      case ParsedBody(t, q') => ParseElse(ts, q', c, t)
  }

  function ParseElse(ts: seq<Lexeme>, p: nat, c: Expr, t: seq<Stmt>): (r: ParseStmt)
    requires p <= |ts|
    ensures r.ParsedStmt? ==> p <= r.pos <= |ts|
    decreases |ts| - p, 7
  {
    if !IsWordElse(Cur(ts, p)) then ParsedStmt(If(c, t, []), p)
    else if IsWordIf(Cur(ts, p + 1)) then
      match ParseIf(ts, p + 2)
      case StmtFailure => StmtFailure
      case ParsedStmt(chained, q) => ParsedStmt(If(c, t, [chained]), q)
    else
      match ParseBlock(ts, p + 1)
      case BodyFailure => StmtFailure
      case ParsedBody(f, q) => ParsedStmt(If(c, t, f), q)
  }

  function ParseBlock(ts: seq<Lexeme>, p: nat): (r: ParseBody)
    requires p <= |ts|
    ensures r.ParsedBody? ==> p < r.pos <= |ts|
    decreases |ts| - p, 0
  {
    if Cur(ts, p).kind == LBrace then ParseStmts(ts, p + 1) else BodyFailure
  }

  /** The statements up to the closing brace: conditionals and expressions, each with an optional semicolon. The other
      statement keywords are outside this model and count as errors. */
  function ParseStmts(ts: seq<Lexeme>, p: nat): (r: ParseBody)
    requires p <= |ts|
    ensures r.ParsedBody? ==> p < r.pos <= |ts|
    decreases |ts| - p, 8
  {
    if Cur(ts, p).kind == RBrace then ParsedBody([], p + 1)
    else
      match ParseStatement(ts, p)
      case StmtFailure => BodyFailure
      case ParsedStmt(s, q) =>
        match ParseStmts(ts, q)
        case BodyFailure => BodyFailure
        case ParsedBody(ss, q') => ParsedBody([s] + ss, q')
  }

  function ParseStatement(ts: seq<Lexeme>, p: nat): (r: ParseStmt)
    requires p <= |ts|
    ensures r.ParsedStmt? ==> p < r.pos <= |ts|
    decreases |ts| - p, 5
  {
    var l := Cur(ts, p);
    if IsWordIf(l) then ParseIf(ts, p + 1)
    else if l.kind == Keyword then StmtFailure
    else
      match ParseExpr(ts, p)
      case Failure => StmtFailure
      case Parsed(e, q) => ParsedStmt(ExprStmt(e), if Cur(ts, q).kind == Semicolon then q + 1 else q)
  }

  function ParseOptionWord(ts: seq<Lexeme>, p: nat): (r: Parse)
    requires p < |ts|
    ensures r.Parsed? ==> p < r.pos <= |ts|
    decreases |ts| - p, 0
  {
    var word := ts[p].value;
    if word == "None" then Parsed(OptionValue(false, None), p + 1)
    else if Cur(ts, p + 1).kind != LParen then Failure
    else
      match ParseClosed(ts, p + 2, RParen)
      case Failure => Failure
      case Parsed(e, q) =>
        Parsed(if word == "Some" then OptionValue(true, Some(e))
               else if word == "Ok" then ResultValue(true, Some(e), None)
               else ResultValue(false, None, Some(e)), q)
  }

  /** An expression and the token that closes it. */
  function ParseClosed(ts: seq<Lexeme>, p: nat, close: Kind): (r: Parse)
    requires p <= |ts| && close != Eof
    ensures r.Parsed? ==> p < r.pos <= |ts|
    decreases |ts| - p, 5
  {
    match ParseExpr(ts, p)
    case Failure => Failure
    case Parsed(e, q) => if Cur(ts, q).kind == close then Parsed(e, q + 1) else Failure
  }

  /** A possibly empty comma-separated list and the token that closes it. */
  function ParseItems(ts: seq<Lexeme>, p: nat, close: Kind): (r: ParseList)
    requires p <= |ts| && close != Eof
    ensures r.ParsedList? ==> p < r.pos <= |ts|
    decreases |ts| - p, 6
  {
    if Cur(ts, p).kind == close then ParsedList([], p + 1) else ParseMore(ts, p, close)
  }

  function ParseMore(ts: seq<Lexeme>, p: nat, close: Kind): (r: ParseList)
    requires p <= |ts| && close != Eof
    ensures r.ParsedList? ==> p < r.pos <= |ts|
    decreases |ts| - p, 5
  {
    match ParseExpr(ts, p)
    case Failure => ListFailure
    case Parsed(e, q) =>
      if Cur(ts, q).kind == Comma then
        match ParseMore(ts, q + 1, close)
        case ListFailure => ListFailure
        case ParsedList(es, q') => ParsedList([e] + es, q')
      else if Cur(ts, q).kind == close then ParsedList([e], q + 1)
      else ListFailure
  }

  /** Member accesses, calls and indexes behind an identifier. */
  function ParsePostfix(ts: seq<Lexeme>, e: Expr, p: nat): (r: Parse)
    requires p <= |ts|
    ensures r.Parsed? ==> p <= r.pos <= |ts|
    decreases |ts| - p, 0
  {
    var k := Cur(ts, p).kind;
    if k == Dot then
      (if Cur(ts, p + 1).kind == Identifier then ParsePostfix(ts, MemberAccess(e, Cur(ts, p + 1).value), p + 2) else Failure)
    else if k == LParen then
      match ParseItems(ts, p + 1, RParen)
      case ListFailure => Failure
      case ParsedList(args, q) => ParsePostfix(ts, Call(e, args), q)
    else if k == LBracket then
      match ParseClosed(ts, p + 1, RBracket)
      case Failure => Failure
      case Parsed(i, q) => ParsePostfix(ts, Index(e, i), q)
    else Parsed(e, p)
  }

  // ----- the parser object -----

  class ExprParser {
    const tokens: seq<Lexeme>
    var pos: nat

    constructor (tokens: seq<Lexeme>)
      ensures this.tokens == tokens && pos == 0
    {
      this.tokens, pos := tokens, 0;
    }

    /** The object's result and position are those of `r`; on an error the position does not matter. */
    ghost predicate Follows(r: Parse, e: Option<Expr>)
      reads this
    {
      match r
      case Failure => e == None
      case Parsed(x, q) => e == Some(x) && pos == q
    }

    method ParseExpression() returns (e: Option<Expr>)
      requires pos <= |tokens|
      modifies this`pos
      ensures Follows(ParseExpr(tokens, old(pos)), e)
      decreases |tokens| - pos, 5
    {
      e := Binary(0);
      if e.None? {
        return;
      }
      ghost var first := pos;
      var stages: seq<Stage> := [];
      NoStages(ParsePipes(tokens, first));
      while Cur(tokens, pos).kind == PipeTok
        invariant first <= pos <= |tokens|
        invariant ParsePipes(tokens, first) == After(stages, ParsePipes(tokens, pos))
        decreases |tokens| - pos
      {
        if Cur(tokens, pos + 1).kind != Identifier {
          return None;
        }
        var name := Cur(tokens, pos + 1).value;
        MoreStages(stages, Stage(name, Ident(name)), ParsePipes(tokens, pos + 2));
        stages := stages + [Stage(name, Ident(name))];
        pos := pos + 2;
      }
      assert stages + [] == stages;
      if stages != [] {
        e := Some(Pipe(e.value, stages));
      }
    }

    static function After(stages: seq<Stage>, r: ParseStages): ParseStages {
      if r.ParsedStages? then ParsedStages(stages + r.stages, r.pos) else r
    }

    static lemma NoStages(r: ParseStages)
      ensures After([], r) == r
    {
      if r.ParsedStages? {
        assert [] + r.stages == r.stages;
      }
    }

    static lemma MoreStages(stages: seq<Stage>, s: Stage, r: ParseStages)
      ensures After(stages + [s], r) == After(stages, if r.ParsedStages? then ParsedStages([s] + r.stages, r.pos) else r)
    {
      if r.ParsedStages? {
        assert (stages + [s]) + r.stages == stages + ([s] + r.stages);
      }
    }

    method Binary(min: nat) returns (e: Option<Expr>)
      requires pos <= |tokens|
      modifies this`pos
      ensures Follows(ParseBinary(tokens, old(pos), min), e)
      decreases |tokens| - pos, 4
    {
      hide ParseUnary;
      e := Unary();
      if e.None? {
        return;
      }
      ghost var first, left0 := pos, e.value;
      while true
        invariant e.Some? && first <= pos <= |tokens|
        invariant ClimbFrom(tokens, left0, first, min) == ClimbFrom(tokens, e.value, pos, min)
        decreases |tokens| - pos
      {
        var l := Cur(tokens, pos);
        if PrecOf(l) < min || PrecOf(l) == 0 {
          return;
        }
        pos := pos + 1;
        var right := Binary(PrecOf(l) + 1);
        if right.None? {
          return None;
        }
        e := Some(BinaryOp(e.value, l.kind.op, right.value));
      }
    }

    method Unary() returns (e: Option<Expr>)
      requires pos <= |tokens|
      modifies this`pos
      ensures Follows(ParseUnary(tokens, old(pos)), e)
      decreases |tokens| - pos, 3
    {
      hide ParsePrimary;
      var l := Cur(tokens, pos);
      if l.kind == Operator(Minus) || l.kind == Bang {
        pos := pos + 1;
        e := Unary();
        if e.Some? {
          e := Some(UnaryOp(if l.kind == Bang then Not else Negate, e.value));
        }
      } else {
        e := Primary();
      }
    }

    method Primary() returns (e: Option<Expr>)
      requires pos <= |tokens|
      modifies this`pos
      ensures Follows(ParsePrimary(tokens, old(pos)), e)
      decreases |tokens| - pos, 2
    {
      hide ParseOptionWord, ParsePostfix, ParseClosed, ParseItems, ParseIf, ParseBlock, AsOperand, BlockOperand, IntValue,
        ParseExpr, ParseMore, ParseStmts;
      var l := Cur(tokens, pos);
      if l.kind == IntLit || l.kind == StrLit || l.kind == BoolLit || l.kind == CharLit {
        e := Literal();
      } else if l.kind == Identifier && l.value in OPTION_WORDS {
        e := OptionWord();
      } else if IsWordIf(l) {
        pos := pos + 1;
        e := IfOperand();
      } else if l.kind == LBrace {
        e := BracedOperand();
      } else if l.kind == LParen {
        pos := pos + 1;
        e := Closed(RParen);
      } else if l.kind == LBracket {
        pos := pos + 1;
        var es := Items(RBracket);
        e := if es.Some? then Some(Array(es.value)) else None;
      } else if l.kind == Identifier {
        pos := pos + 1;
        e := Postfix(Ident(l.value));
      } else {
        e := None;
      }
    }

    method Literal() returns (e: Option<Expr>)
      requires pos < |tokens|
      requires var k := tokens[pos].kind; k == IntLit || k == StrLit || k == BoolLit || k == CharLit
      modifies this`pos
      ensures Follows(ParsePrimary(tokens, old(pos)), e)
    {
      hide ParseOptionWord, ParsePostfix, ParseClosed, ParseItems, ParseIf, ParseBlock, AsOperand, BlockOperand, IntValue;
      var l := tokens[pos];
      if l.kind == IntLit && Cur(tokens, pos + 1).kind == DoubleDot {
        if Cur(tokens, pos + 2).kind != IntLit {
          return None;
        }
        e := Some(Range(IntLiteral(IntValue(l.value)), IntLiteral(IntValue(Cur(tokens, pos + 2).value)), false));
        pos := pos + 3;
      } else if l.kind == IntLit {
        pos := pos + 1;
        e := Some(IntLiteral(IntValue(l.value)));
      } else if l.kind == StrLit {
        pos := pos + 1;
        e := Some(StringLiteral(l.value));
      } else if l.kind == BoolLit {
        pos := pos + 1;
        e := Some(BoolLiteral(l.value == "true"));
      } else {
        pos := pos + 1;
        e := Some(CharLiteral(if l.value == "" then '\0' else l.value[0]));
      }
    }

    method IfOperand() returns (e: Option<Expr>)
      requires pos <= |tokens|
      modifies this`pos
      ensures Follows(AsOperand(ParseIf(tokens, old(pos))), e)
      decreases |tokens| - pos, 8
    {
      hide ParseIf, StmtToExpr;
      var s := IfStatement();
      e := if s.Some? then Some(StmtToExpr(s.value)) else None;
    }

    method BracedOperand() returns (e: Option<Expr>)
      requires pos <= |tokens|
      modifies this`pos
      ensures Follows(BlockOperand(ParseBlock(tokens, old(pos))), e)
      decreases |tokens| - pos, 1
    {
      hide ParseBlock, StmtToExpr;
      var ss := Block();
      e := if ss.Some? then Some(StmtToExpr(LastOf(ss.value))) else None;
    }

    ghost predicate FollowsStmt(r: ParseStmt, s: Option<Stmt>)
      reads this
    {
      match r
      case StmtFailure => s == None
      case ParsedStmt(x, q) => s == Some(x) && pos == q
    }

    ghost predicate FollowsBody(r: ParseBody, ss: Option<seq<Stmt>>)
      reads this
    {
      match r
      case BodyFailure => ss == None
      case ParsedBody(xs, q) => ss == Some(xs) && pos == q
    }

    method IfStatement() returns (s: Option<Stmt>)
      requires pos <= |tokens|
      modifies this`pos
      ensures FollowsStmt(ParseIf(tokens, old(pos)), s)
      decreases |tokens| - pos, 7
    {
      hide ParseExpr, ParseBlock;
      var c := ParseExpression();
      if c.None? {
        return None;
      }
      var t := Block();
      if t.None? {
        return None;
      }
      if !IsWordElse(Cur(tokens, pos)) {
        return Some(If(c.value, t.value, []));
      }
      pos := pos + 1;
      if IsWordIf(Cur(tokens, pos)) {
        pos := pos + 1;
        var chained := IfStatement();
        s := if chained.Some? then Some(If(c.value, t.value, [chained.value])) else None;
      } else {
        var f := Block();
        s := if f.Some? then Some(If(c.value, t.value, f.value)) else None;
      }
    }

    method Block() returns (ss: Option<seq<Stmt>>)
      requires pos <= |tokens|
      modifies this`pos
      ensures FollowsBody(ParseBlock(tokens, old(pos)), ss)
      decreases |tokens| - pos, 0
    {
      hide ParseStatement;
      if Cur(tokens, pos).kind != LBrace {
        return None;
      }
      pos := pos + 1;
      ghost var first := pos;
      var stmts: seq<Stmt> := [];
      NoStmts(ParseStmts(tokens, first));
      while Cur(tokens, pos).kind != RBrace
        invariant first <= pos <= |tokens|
        invariant ParseStmts(tokens, first) == Behind(stmts, ParseStmts(tokens, pos))
        decreases |tokens| - pos
      {
        var s := Statement();
        if s.None? {
          return None;
        }
        MoreStmts(stmts, s.value, ParseStmts(tokens, pos));
        stmts := stmts + [s.value];
      }
      assert stmts + [] == stmts;
      pos := pos + 1;
      ss := Some(stmts);
    }

    static function Behind(stmts: seq<Stmt>, r: ParseBody): ParseBody {
      if r.ParsedBody? then ParsedBody(stmts + r.ss, r.pos) else r
    }

    static lemma NoStmts(r: ParseBody)
      ensures Behind([], r) == r
    {
      if r.ParsedBody? {
        assert [] + r.ss == r.ss;
      }
    }

    static lemma MoreStmts(stmts: seq<Stmt>, s: Stmt, r: ParseBody)
      ensures Behind(stmts + [s], r) == Behind(stmts, if r.ParsedBody? then ParsedBody([s] + r.ss, r.pos) else r)
    {
      if r.ParsedBody? {
        assert (stmts + [s]) + r.ss == stmts + ([s] + r.ss);
      }
    }

    method Statement() returns (s: Option<Stmt>)
      requires pos <= |tokens|
      modifies this`pos
      ensures FollowsStmt(ParseStatement(tokens, old(pos)), s)
      decreases |tokens| - pos, 6
    {
      hide ParseExpr, ParseIf;
      var l := Cur(tokens, pos);
      if IsWordIf(l) {
        pos := pos + 1;
        s := IfStatement();
      } else if l.kind == Keyword {
        s := None;
      } else {
        var x := ParseExpression();
        if x.None? {
          return None;
        }
        if Cur(tokens, pos).kind == Semicolon {
          pos := pos + 1;
        }
        s := Some(ExprStmt(x.value));
      }
    }

    method OptionWord() returns (e: Option<Expr>)
      requires pos < |tokens|
      modifies this`pos
      ensures Follows(ParseOptionWord(tokens, old(pos)), e)
      decreases |tokens| - pos, 0
    {
      var word := tokens[pos].value;
      pos := pos + 1;
      if word == "None" {
        return Some(OptionValue(false, None));
      }
      if Cur(tokens, pos).kind != LParen {
        return None;
      }
      pos := pos + 1;
      e := Closed(RParen);
      if e.Some? {
        e := Some(if word == "Some" then OptionValue(true, e)
                  else if word == "Ok" then ResultValue(true, e, None) else ResultValue(false, None, e));
      }
    }

    method Closed(close: Kind) returns (e: Option<Expr>)
      requires pos <= |tokens| && close != Eof
      modifies this`pos
      ensures Follows(ParseClosed(tokens, old(pos), close), e)
      decreases |tokens| - pos, 6
    {
      hide ParseExpr;
      e := ParseExpression();
      if e.Some? {
        if Cur(tokens, pos).kind != close {
          return None;
        }
        pos := pos + 1;
      }
    }

    method Items(close: Kind) returns (es: Option<seq<Expr>>)
      requires pos <= |tokens| && close != Eof
      modifies this`pos
      ensures match ParseItems(tokens, old(pos), close)
              case ListFailure => es == None
              case ParsedList(xs, q) => es == Some(xs) && pos == q
      decreases |tokens| - pos, 7
    {
      hide ParseMore;
      es := Some([]);
      if Cur(tokens, pos).kind != close {
        es := CommaSeparated(close);
      } else {
        pos := pos + 1;
      }
    }

    method CommaSeparated(close: Kind) returns (es: Option<seq<Expr>>)
      requires pos <= |tokens| && close != Eof
      modifies this`pos
      ensures match ParseMore(tokens, old(pos), close)
              case ListFailure => es == None
              case ParsedList(xs, q) => es == Some(xs) && pos == q
      decreases |tokens| - pos, 6
    {
      hide ParseExpr, ParsePostfix, ParseClosed;
      ghost var first := pos;
      var items: seq<Expr> := [];
      NoItems(ParseMore(tokens, first, close));
      while true
        invariant first <= pos <= |tokens|
        invariant ParseMore(tokens, first, close) == Joined(items, ParseMore(tokens, pos, close))
        decreases |tokens| - pos
      {
        var e := ParseExpression();
        if e.None? {
          return None;
        }
        if Cur(tokens, pos).kind != Comma {
          items := items + [e.value];
          break;
        }
        MoreItems(items, e.value, ParseMore(tokens, pos + 1, close));
        items := items + [e.value];
        pos := pos + 1;
      }
      if Cur(tokens, pos).kind != close {
        return None;
      }
      pos := pos + 1;
      es := Some(items);
    }

    static function Joined(items: seq<Expr>, r: ParseList): ParseList {
      if r.ParsedList? then ParsedList(items + r.es, r.pos) else r
    }

    static lemma NoItems(r: ParseList)
      ensures Joined([], r) == r
    {
      if r.ParsedList? {
        assert [] + r.es == r.es;
      }
    }

    static lemma MoreItems(items: seq<Expr>, e: Expr, r: ParseList)
      ensures Joined(items + [e], r) == Joined(items, if r.ParsedList? then ParsedList([e] + r.es, r.pos) else r)
    {
      if r.ParsedList? {
        assert (items + [e]) + r.es == items + ([e] + r.es);
      }
    }

    method Postfix(start: Expr) returns (e: Option<Expr>)
      requires pos <= |tokens|
      modifies this`pos
      ensures Follows(ParsePostfix(tokens, start, old(pos)), e)
      decreases |tokens| - pos, 0
    {
      hide ParseItems, ParseClosed;
      ghost var first := pos;
      var obj := start;
      while true
        invariant first <= pos <= |tokens|
        invariant ParsePostfix(tokens, start, first) == ParsePostfix(tokens, obj, pos)
        decreases |tokens| - pos
      {
        var k := Cur(tokens, pos).kind;
        if k == Dot {
          if Cur(tokens, pos + 1).kind != Identifier {
            return None;
          }
          obj := MemberAccess(obj, Cur(tokens, pos + 1).value);
          pos := pos + 2;
        } else if k == LParen {
          pos := pos + 1;
          var args := Items(RParen);
          if args.None? {
            return None;
          }
          obj := Call(obj, args.value);
        } else if k == LBracket {
          pos := pos + 1;
          var index := Closed(RBracket);
          if index.None? {
            return None;
          }
          obj := Index(obj, index.value);
        } else {
          return Some(obj);
        }
      }
    }
  }
}
