/** The abstract syntax of Dalin L (compiler/src/ast.rs), without floating point and type annotations. */
module Ast {
  import opened Prelude

  /** The operator strings the parser can put into a `BinaryOp`, as an enumeration. */
  datatype BinOp =
    | Plus | Minus | Star | Slash | Percent
    | Assign | EqEq | NotEq
    | Lt | Gt | Le | Ge
    | AndAnd | OrOr

  datatype UnOp = Negate | Not

  datatype Expr =
    | IntLiteral(n: i64)
    | StringLiteral(s: string)
    | BoolLiteral(b: bool)
    | CharLiteral(c: char)
    | Ident(name: string)
    | BinaryOp(left: Expr, op: BinOp, right: Expr)
    | UnaryOp(uop: UnOp, operand: Expr)
    | Call(func: Expr, args: seq<Expr>)
    | MemberAccess(obj: Expr, member: string)
    | Index(arr: Expr, index: Expr)
    | Pipe(input: Expr, stages: seq<Stage>)
    | Range(start: Expr, end: Expr, inclusive: bool)
    | Array(items: seq<Expr>)
    | OptionValue(isSome: bool, payload: Option<Expr>)
    | ResultValue(isOk: bool, okValue: Option<Expr>, errValue: Option<Expr>)
    | IfExpr(cond: Expr, thn: Expr, els: Expr)
    | MatchExpr(target: Expr, arms: seq<MatchArm>)

  /** One `|> fn` of a pipe, with the argument expression the parser attaches to it. */
  datatype Stage = Stage(fn: string, arg: Expr)

  /** Patterns are opaque here: whether one matches a value is a parameter of the interpreter. */
  datatype Pattern = Pattern(text: string)

  datatype MatchArm = MatchArm(pattern: Pattern, guard: Option<Expr>, body: seq<Stmt>)

  /** A function declaration. `latencyMs` is the parsed number of `@latency(..ms)`; the cognitive-loop phase counts
      perceive, reason, decide, act, loop from 0, the governance level prepare, suggest, approve, execute. */
  datatype FnDecl = FnDecl(name: string, params: seq<string>, body: seq<Stmt>, latencyMs: Option<u64>,
                           effectful: bool, cognitiveLoop: Option<nat>, governance: Option<nat>)

  datatype Stmt =
    | Let(name: string, value: Option<Expr>)
    | Const(name: string, value: Option<Expr>)
    | Fn(decl: FnDecl)
    | Return(result: Option<Expr>)
    | If(condition: Expr, thenBody: seq<Stmt>, elseBody: seq<Stmt>)
    | While(condition: Expr, body: seq<Stmt>)
    | For(name: string, iterable: Expr, body: seq<Stmt>)
    | Match(target: Expr, arms: seq<MatchArm>)
    | Spawn(decl: FnDecl)
    | TryCatch(tryBody: seq<Stmt>, catchParam: Option<string>, catchBody: seq<Stmt>)
    | Assert(condition: Expr, message: Option<Expr>)
    | ExprStmt(expr: Expr)
    | Declaration(name: string)
}
