/** Values of the tree-walking interpreter and its pure helpers (compiler/src/runtime.rs). */
module RuntimeValues {
  import opened Prelude
  import opened Ast

  datatype RuntimeValue =
    | RInt(n: i64)
    | RString(s: string)
    | RBool(b: bool)
    | RChar(c: char)
    | RNone
    | RArray(items: seq<RuntimeValue>)
    | RStruct(name: string, fields: seq<Field>)
    | RResult(isOk: bool, okValue: Option<RuntimeValue>, errValue: Option<RuntimeValue>)
    | ROption(isSome: bool, payload: Option<RuntimeValue>)
    | RFunc(name: string)

  datatype Field = Field(key: string, value: RuntimeValue)

  datatype RuntimeError =
    | UndefinedVariable(name: string) | UndefinedFunction(name: string) | MissingField(member: string)
    | TypeMismatch | DivisionByZero | AssertionFailed
    | CallDepthExceeded | Refused | IndexOutOfBounds
    | Panic            // a Rust panic: the call does not return
    | OutOfFuel        // a loop was cut off by the step budget of the model

  /** `eval_binary_op`: operands of one type, or a type error. */
  function EvalBinaryOp(a: RuntimeValue, op: BinOp, b: RuntimeValue, p: Profile): Result<RuntimeValue, RuntimeError> {
    match (a, b)
    case (RInt(x), RInt(y)) =>
      (match op
       case Plus => Int(Fit(x + y, p))
       case Minus => Int(Fit(x - y, p))
       case Star => Int(Fit(x * y, p))
       case Slash => if y == 0 then Err(DivisionByZero) else Int(Fit(Quot(x, y), Debug))
       case Percent =>
         if y == 0 then Err(DivisionByZero)
         else if Quot(x, y) == TWO_63 then Err(Panic) // i64::MIN % -1
         else Int(Fit(x - y * Quot(x, y), p))
       case EqEq => Ok(RBool(x == y))
       case NotEq => Ok(RBool(x != y))
       case Lt => Ok(RBool(x < y))
       case Gt => Ok(RBool(x > y))
       case Le => Ok(RBool(x <= y))
       case Ge => Ok(RBool(x >= y))
       case _ => Err(TypeMismatch))
    case (RString(x), RString(y)) =>
      if op == EqEq then Ok(RBool(x == y))
      else if op == NotEq then Ok(RBool(x != y))
      else if op == Plus then Ok(RString(x + y))
      else Err(TypeMismatch)
    case (RBool(x), RBool(y)) =>
      if op == EqEq then Ok(RBool(x == y))
      else if op == NotEq then Ok(RBool(x != y))
      else if op == AndAnd then Ok(RBool(x && y))
      else if op == OrOr then Ok(RBool(x || y))
      else Err(TypeMismatch)
    case _ => Err(TypeMismatch)
  }

  function Int(n: Option<i64>): Result<RuntimeValue, RuntimeError> {
    if n.Some? then Ok(RInt(n.value)) else Err(Panic)
  }

  function EvalUnaryOp(op: UnOp, v: RuntimeValue, p: Profile): Result<RuntimeValue, RuntimeError> {
    match (op, v)
    case (Negate, RInt(n)) => Int(Fit(0 - n, p))
    case (Not, RBool(b)) => Ok(RBool(!b))
    case _ => Err(TypeMismatch)
  }

  /** `as_bool` */
  function AsBool(v: RuntimeValue): Result<bool, RuntimeError> {
    match v
    case RBool(b) => Ok(b)
    case RInt(n) => Ok(n != 0)
    case RNone => Ok(false)
    case RString(s) => Ok(s != "")
    case _ => Err(TypeMismatch)
  }

  // ----- closed expressions -----

  /** The expressions the bytecode compiler and the interpreter both give a full meaning to. */
  predicate Closed(e: Expr)
    decreases e, 1
  {
    match e
    case IntLiteral(_) => true
    case StringLiteral(_) => true
    case BoolLiteral(_) => true
    case BinaryOp(l, op, r) => op !in {Percent, Assign, AndAnd, OrOr} && Closed(l) && Closed(r)
    case UnaryOp(op, operand) => op == Negate && Closed(operand)
    case IfExpr(c, t, f) => Closed(c) && Closed(t) && Closed(f)
    case Array(items) => ClosedAll(items)
    case _ => false
  }

  predicate ClosedAll(es: seq<Expr>)
    decreases es, 0
  {
    es == [] || (Closed(es[0]) && ClosedAll(es[1..]))
  }

  /** `eval_expr` on a closed expression: no frame, no function and no flag is consulted. */
  function Eval(e: Expr, p: Profile): Result<RuntimeValue, RuntimeError>
    requires Closed(e)
    decreases e, 1
  {
    match e
    case IntLiteral(n) => Ok(RInt(n))
    case StringLiteral(s) => Ok(RString(s))
    case BoolLiteral(b) => Ok(RBool(b))
    case BinaryOp(l, op, r) =>
      var a := Eval(l, p);
      if a.Err? then a else
      var b := Eval(r, p);
      if b.Err? then b else EvalBinaryOp(a.value, op, b.value, p)
    case UnaryOp(op, operand) =>
      var v := Eval(operand, p);
      if v.Err? then v else EvalUnaryOp(op, v.value, p)
    case IfExpr(c, t, f) =>
      var v := Eval(c, p);
      if v.Err? then v else
      var b := AsBool(v.value);
      if b.Err? then Err(b.error) else if b.value then Eval(t, p) else Eval(f, p)
    case Array(items) =>
      var vs := EvalAll(items, p);
      if vs.Err? then Err(vs.error) else Ok(RArray(vs.value))
  }

  function EvalAll(es: seq<Expr>, p: Profile): Result<seq<RuntimeValue>, RuntimeError>
    requires ClosedAll(es)
    decreases es, 0
  {
    if es == [] then Ok([]) else
    var v := Eval(es[0], p);
    if v.Err? then Err(v.error) else
    var vs := EvalAll(es[1..], p);
    if vs.Err? then vs else Ok([v.value] + vs.value)
  }
}
