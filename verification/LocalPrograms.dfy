/** What programs mean whose calls are whole operands of statements: early returns, scopes and call depth as structure,
    with no flag, no frame stack and no counter to restore. */
module LocalPrograms {
  import opened Prelude
  import opened Ast
  import opened RuntimeValues

  type Frame = map<string, RuntimeValue>

  /** What a run reads besides the frames. `calls` says whether statements may call functions. */
  datatype Env = Env(functions: map<string, FnDecl>, profile: Profile, matches: (Pattern, RuntimeValue) -> bool, loopFuel: nat,
                     sessionLevel: nat, calls: bool)

  /** A statement ends normally or returns, with a value and the innermost frame it leaves; or it fails. */
  datatype Flow = Next(v: RuntimeValue, top: Frame) | Returns(v: RuntimeValue, top: Frame) | Fails(err: RuntimeError)

  // ----- the programs -----

  predicate Local(e: Expr)
    decreases e, 1
  {
    match e
    case BinaryOp(l, _, r) => Local(l) && Local(r)
    case UnaryOp(_, operand) => Local(operand)
    case MemberAccess(obj, _) => Local(obj)
    case Index(arr, index) => Local(arr) && Local(index)
    case Range(start, end, _) => Local(start) && Local(end)
    case Array(items) => LocalAll(items)
    case OptionValue(_, payload) => payload.Some? ==> Local(payload.value)
    case ResultValue(_, ok, err) => (ok.Some? ==> Local(ok.value)) && (err.Some? ==> Local(err.value))
    case IfExpr(c, t, f) => Local(c) && Local(t) && Local(f)
    case Call(_, _) => false
    case Pipe(_, _) => false
    case MatchExpr(_, _) => false
    case _ => true
  }

  predicate LocalAll(es: seq<Expr>)
    decreases es, 0
  {
    es == [] || (Local(es[0]) && LocalAll(es[1..]))
  }

  predicate LocalOptional(value: Option<Expr>) {
    value.Some? ==> Local(value.value)
  }

  /** A call by a name or a value, of arguments without calls. */
  predicate LocalCall(e: Expr) {
    e.Call? && Local(e.func) && LocalAll(e.args)
  }

  /** An operand can be a call, if calls are allowed. */
  predicate Operand(e: Expr, calls: bool) {
    Local(e) || (calls && LocalCall(e))
  }

  predicate Valued(value: Option<Expr>, calls: bool) {
    value.Some? ==> Operand(value.value, calls)
  }

  predicate LocalStmt(s: Stmt, calls: bool)
    decreases s, 1
  {
    match s
    case Let(_, value) => Valued(value, calls)
    case Const(_, value) => Valued(value, calls)
    case Return(value) => Valued(value, calls)
    case ExprStmt(e) => Operand(e, calls)
    case If(c, t, e) => Local(c) && LocalBlock(t, calls) && LocalBlock(e, calls)
    case While(c, body) => Local(c) && LocalBlock(body, calls)
    case For(_, iterable, body) => Local(iterable) && LocalBlock(body, calls)
    case Match(target, arms) => Local(target) && LocalArms(arms, calls)
    case Assert(c, message) => Local(c) && LocalOptional(message)
    case Fn(_) => true
    case Declaration(_) => true
    case Spawn(_) => false
    case TryCatch(_, _, _) => false
  }

  predicate LocalBlock(ss: seq<Stmt>, calls: bool)
    decreases ss, 0
  {
    ss == [] || (LocalStmt(ss[0], calls) && LocalBlock(ss[1..], calls))
  }

  predicate LocalArms(arms: seq<MatchArm>, calls: bool)
    decreases arms, 0
  {
    arms == [] || (LocalOptional(arms[0].guard) && LocalBlock(arms[0].body, calls) && LocalArms(arms[1..], calls))
  }

  /** Functions that calls are followed into: bodies of this kind, and no cognitive phase to wait for. */
  predicate PlainFunctions(functions: map<string, FnDecl>) {
    forall f :: f in functions ==> functions[f].cognitiveLoop.None? && LocalBlock(functions[f].body, true)
  }

  predicate Sound(env: Env) {
    env.calls ==> PlainFunctions(env.functions)
  }

  // ----- expressions -----

  /** The innermost binding of a name. */
  function Find(frames: seq<Frame>, name: string): Option<RuntimeValue> {
    if frames == [] then None
    else if name in frames[|frames| - 1] then Some(frames[|frames| - 1][name])
    else Find(frames[..|frames| - 1], name)
  }

  function EvalIn(env: Env, frames: seq<Frame>, e: Expr): Result<RuntimeValue, RuntimeError>
    requires Local(e)
    decreases e, 1
  {
    match e
    case IntLiteral(n) => Ok(RInt(n))
    case StringLiteral(s) => Ok(RString(s))
    case BoolLiteral(b) => Ok(RBool(b))
    case CharLiteral(c) => Ok(RChar(c))
    case Ident(name) => NameValue(env, frames, name)
    case BinaryOp(l, op, r) =>
      var a := EvalIn(env, frames, l);
      if a.Err? then a else
      var b := EvalIn(env, frames, r);
      if b.Err? then b else EvalBinaryOp(a.value, op, b.value, env.profile)
    case UnaryOp(op, operand) =>
      var v := EvalIn(env, frames, operand);
      if v.Err? then v else EvalUnaryOp(op, v.value, env.profile)
    case MemberAccess(obj, member) =>
      var v := EvalIn(env, frames, obj);
      if v.Err? then v else MemberOf(v.value, member)
    case Index(arr, index) =>
      var a := EvalIn(env, frames, arr);
      if a.Err? then a else
      var i := EvalIn(env, frames, index);
      if i.Err? then i else ElementAt(a.value, i.value)
    case Range(start, end, inclusive) =>
      var a := EvalIn(env, frames, start);
      if a.Err? then a else
      var b := EvalIn(env, frames, end);
      if b.Err? then b else Between(a.value, b.value, inclusive)
    case Array(items) =>
      var vs := EvalAllIn(env, frames, items);
      if vs.Err? then Err(vs.error) else Ok(RArray(vs.value))
    case OptionValue(isSome, payload) =>
      if !isSome || payload.None? then Ok(ROption(isSome, None)) else
      var v := EvalIn(env, frames, payload.value);
      if v.Err? then v else Ok(ROption(true, Some(v.value)))
    case ResultValue(isOk, ok, err) =>
      var inner := if isOk then ok else err;
      if inner.None? then Ok(RResult(isOk, None, None)) else
      var v := EvalIn(env, frames, inner.value);
      if v.Err? then v else Ok(if isOk then RResult(true, Some(v.value), None) else RResult(false, None, Some(v.value)))
    case IfExpr(c, t, f) =>
      var b := TruthIn(EvalIn(env, frames, c));
      if b.Err? then Err(b.error) else if b.value then EvalIn(env, frames, t) else EvalIn(env, frames, f)
  }

  function EvalAllIn(env: Env, frames: seq<Frame>, es: seq<Expr>): Result<seq<RuntimeValue>, RuntimeError>
    requires LocalAll(es)
    decreases es, 0
  {
    if es == [] then Ok([]) else
    var v := EvalIn(env, frames, es[0]);
    if v.Err? then Err(v.error) else
    var vs := EvalAllIn(env, frames, es[1..]);
    if vs.Err? then vs else Ok([v.value] + vs.value)
  }

  function NameValue(env: Env, frames: seq<Frame>, name: string): Result<RuntimeValue, RuntimeError> {
    var v := Find(frames, name);
    if v.Some? then Ok(v.value)
    else if name in env.functions then Ok(RFunc(name))
    else Err(UndefinedVariable(name))
  }

  function TruthIn(v: Result<RuntimeValue, RuntimeError>): Result<bool, RuntimeError> {
    if v.Err? then Err(v.error) else AsBool(v.value)
  }

  function MemberOf(v: RuntimeValue, member: string): Result<RuntimeValue, RuntimeError> {
    if v.RStruct? then FieldIn(v.fields, member) else Err(TypeMismatch)
  }

  function FieldIn(fields: seq<Field>, member: string): Result<RuntimeValue, RuntimeError> {
    if fields == [] then Err(MissingField(member))
    else if fields[0].key == member then Ok(fields[0].value)
    else FieldIn(fields[1..], member)
  }

  /** A negative index becomes a huge `usize`, so it is out of bounds too. */
  function ElementAt(a: RuntimeValue, i: RuntimeValue): Result<RuntimeValue, RuntimeError> {
    if !a.RArray? || !i.RInt? then Err(TypeMismatch)
    else if 0 <= i.n < |a.items| then Ok(a.items[i.n])
    else Err(IndexOutOfBounds)
  }

  function Between(a: RuntimeValue, b: RuntimeValue, inclusive: bool): Result<RuntimeValue, RuntimeError> {
    if !a.RInt? || !b.RInt? then Err(TypeMismatch)
    else Ok(RArray(RangeValues(a.n, if inclusive then b.n + 1 else b.n)))
  }

  function RangeValues(lo: int, hi: int): seq<RuntimeValue>
    requires -TWO_63 <= lo && hi <= TWO_63
    decreases hi - lo
  {
    if lo >= hi then [] else [RInt(lo)] + RangeValues(lo + 1, hi)
  }

  function OptionalIn(env: Env, frames: seq<Frame>, value: Option<Expr>): Result<RuntimeValue, RuntimeError>
    requires LocalOptional(value)
  {
    if value.Some? then EvalIn(env, frames, value.value) else Ok(RNone)
  }

  // ----- statements -----

  /** `top` is the innermost frame, `below` the others: no statement of this kind can change those. `level` is the number
      of calls that may still be nested. */
  function RunStmt(env: Env, level: nat, below: seq<Frame>, top: Frame, s: Stmt): Flow
    requires Sound(env) && LocalStmt(s, env.calls)
    decreases level, 1, s, 2, 0
  {
    var frames := below + [top];
    match s
    case Let(name, value) => Defined(RunValue(env, level, frames, value), top, name)
    case Const(name, value) => Defined(RunValue(env, level, frames, value), top, name)
    case Return(value) => Returned(RunValue(env, level, frames, value), top)
    case ExprStmt(e) => Inner(RunOperand(env, level, frames, e), top)
    case If(c, t, e) =>
      var b := TruthIn(EvalIn(env, frames, c));
      if b.Err? then Fails(b.error) else Inner(RunBlock(env, level, frames, map[], if b.value then t else e, RNone), top)
    case While(c, body) => RunWhile(env, level, below, top, c, body, env.loopFuel)
    case For(name, iterable, body) =>
      var items := ItemsOf(EvalIn(env, frames, iterable));
      if items.Err? then Fails(items.error) else RunFor(env, level, below, top, name, items.value, body)
    case Match(target, arms) =>
      var v := EvalIn(env, frames, target);
      if v.Err? then Fails(v.error) else RunArms(env, level, below, top, v.value, arms)
    case Assert(c, message) => Asserted(TruthIn(EvalIn(env, frames, c)), OptionalIn(env, frames, message), top)
    case Fn(_) => Next(RNone, top)
    case Declaration(_) => Next(RNone, top)
  }

  /** The value of an operand; of a call it is told whether the callee returned, and that decides more than it should:
      `Returns` here ends the block the call stands in. */
  function RunValue(env: Env, level: nat, frames: seq<Frame>, value: Option<Expr>): Flow
    requires Sound(env) && Valued(value, env.calls)
    decreases level, 1, value, 1, 0
  {
    if value.None? then Next(RNone, map[]) else RunOperand(env, level, frames, value.value)
  }

  function RunOperand(env: Env, level: nat, frames: seq<Frame>, e: Expr): Flow
    requires Sound(env) && Operand(e, env.calls)
    decreases level, 1, e, 1, 0
  {
    if Local(e) then
      var v := EvalIn(env, frames, e);
      if v.Err? then Fails(v.error) else Next(v.value, map[])
    else CallFlow(env, level, frames, e)
  }

  function CallFlow(env: Env, level: nat, frames: seq<Frame>, e: Expr): Flow
    requires Sound(env) && env.calls && LocalCall(e)
    decreases level, 1, e, 0, 0
  {
    var f := EvalIn(env, frames, e.func);
    if f.Err? then Fails(f.error)
    else if !f.value.RFunc? && !f.value.RString? then Fails(TypeMismatch)
    else
      var args := EvalAllIn(env, frames, e.args);
      var name := if f.value.RFunc? then f.value.name else f.value.s;
      if args.Err? then Fails(args.error)
      else if name !in env.functions then Fails(UndefinedFunction(name))
      else RunCall(env, level, frames, env.functions[name], args.value)
  }

  /** A call: the body runs above the frames of its caller, so scoping is dynamic. */
  function RunCall(env: Env, level: nat, frames: seq<Frame>, fn: FnDecl, args: seq<RuntimeValue>): Flow
    requires Sound(env) && LocalBlock(fn.body, env.calls)
    decreases level, 0, 0, 0, 0
  {
    if level == 0 then Fails(CallDepthExceeded)
    else if fn.governance.Some? && fn.governance.value > env.sessionLevel then Fails(Refused)
    else RunBlock(env, level - 1, frames, ArgumentFrame(fn.params, args), fn.body, RNone)
  }

  /** The frame of a call: parameters and arguments in pairs, left over ones of either kind ignored. */
  function ArgumentFrame(params: seq<string>, args: seq<RuntimeValue>): Frame {
    Bindings(params, args, if |params| <= |args| then |params| else |args|)
  }

  function Bindings(params: seq<string>, args: seq<RuntimeValue>, n: nat): Frame
    requires n <= |params| && n <= |args|
  {
    if n == 0 then map[] else Bindings(params, args, n - 1)[params[n - 1] := args[n - 1]]
  }

  /** The message of a failed assertion is evaluated first. */
  function Asserted(b: Result<bool, RuntimeError>, message: Result<RuntimeValue, RuntimeError>, top: Frame): Flow {
    if b.Err? then Fails(b.error)
    else if b.value then Next(RNone, top)
    else Fails(if message.Err? then message.error else AssertionFailed)
  }

  /** The name is defined in any case; a callee that returned ends the block behind it. */
  function Defined(f: Flow, top: Frame, name: string): Flow {
    match f
    case Next(v, _) => Next(RNone, top[name := v])
    case Returns(v, _) => Returns(v, top[name := v])
    case Fails(e) => Fails(e)
  }

  function Returned(f: Flow, top: Frame): Flow {
    if f.Fails? then f else Returns(f.v, top)
  }

  /** A block in a scope of its own leaves the frame around it as it was. */
  function Inner(f: Flow, top: Frame): Flow {
    match f
    case Next(v, _) => Next(v, top)
    case Returns(v, _) => Returns(v, top)
    case Fails(e) => Fails(e)
  }

  /** The value of a block is that of the last statement, `last` if there is none. */
  function RunBlock(env: Env, level: nat, below: seq<Frame>, top: Frame, ss: seq<Stmt>, last: RuntimeValue): Flow
    requires Sound(env) && LocalBlock(ss, env.calls)
    decreases level, 1, ss, 0, 0
  {
    if ss == [] then Next(last, top)
    else
      match RunStmt(env, level, below, top, ss[0])
      case Next(v, t) => RunBlock(env, level, below, t, ss[1..], v)
      case Returns(v, t) => Returns(v, t)
      case Fails(e) => Fails(e)
  }

  function RunWhile(env: Env, level: nat, below: seq<Frame>, top: Frame, c: Expr, body: seq<Stmt>, fuel: nat): Flow
    requires Sound(env) && Local(c) && LocalBlock(body, env.calls)
    decreases level, 1, body, 2, fuel
  {
    if fuel == 0 then Fails(OutOfFuel)
    else
      var (again, f) := Turn(env, level, below, top, c, body);
      if again then RunWhile(env, level, below, top, c, body, fuel - 1) else f
  }

  /** One turn of a `while`: whether another one follows, and how this one ended. */
  function Turn(env: Env, level: nat, below: seq<Frame>, top: Frame, c: Expr, body: seq<Stmt>): (r: (bool, Flow))
    requires Sound(env) && Local(c) && LocalBlock(body, env.calls)
    ensures r.0 ==> r.1.Next? && r.1.top == top
    decreases level, 1, body, 1, 0
  {
    var b := TruthIn(EvalIn(env, below + [top], c));
    if b.Err? then (false, Fails(b.error))
    else if !b.value then (false, Next(RNone, top))
    else
      var f := Inner(RunBlock(env, level, below + [top], map[], body, RNone), top);
      (f.Next?, f)
  }

  function ItemsOf(v: Result<RuntimeValue, RuntimeError>): Result<seq<RuntimeValue>, RuntimeError> {
    if v.Err? then Err(v.error)
    else
      match v.value
      case RArray(items) => Ok(items)
      case RString(text) => Ok(seq(|text|, i requires 0 <= i < |text| => RString([text[i]])))
      case _ => Err(TypeMismatch)
  }

  function RunFor(env: Env, level: nat, below: seq<Frame>, top: Frame, name: string, items: seq<RuntimeValue>, body: seq<Stmt>): Flow
    requires Sound(env) && LocalBlock(body, env.calls)
    decreases level, 1, body, 1, |items|
  {
    if items == [] then Next(RNone, top)
    else
      var f := RunBlock(env, level, below + [top], map[name := items[0]], body, RNone);
      if f.Next? then RunFor(env, level, below, top, name, items[1..], body) else Inner(f, top)
  }

  /** The first arm whose pattern matches and whose guard, if any, holds. */
  function RunArms(env: Env, level: nat, below: seq<Frame>, top: Frame, v: RuntimeValue, arms: seq<MatchArm>): Flow
    requires Sound(env) && LocalArms(arms, env.calls)
    decreases level, 1, arms, 1, 0
  {
    if arms == [] then Next(RNone, top)
    else if !env.matches(arms[0].pattern, v) then RunArms(env, level, below, top, v, arms[1..])
    else
      var b := GuardIn(env, below + [top], arms[0].guard);
      if b.Err? then Fails(b.error)
      else if b.value then Inner(RunBlock(env, level, below + [top], map[], arms[0].body, RNone), top)
      else RunArms(env, level, below, top, v, arms[1..])
  }

  function GuardIn(env: Env, frames: seq<Frame>, guard: Option<Expr>): Result<bool, RuntimeError>
    requires LocalOptional(guard)
  {
    if guard.None? then Ok(true) else TruthIn(EvalIn(env, frames, guard.value))
  }

  // ----- facts -----

  /** No frame and no function is consulted for a closed expression. */
  lemma {:induction false} ClosedMeansTheSame(env: Env, frames: seq<Frame>, e: Expr)
    requires Closed(e)
    ensures Local(e) && EvalIn(env, frames, e) == Eval(e, env.profile)
    decreases e, 1
  {
    match e {
      case BinaryOp(l, _, r) =>
        ClosedMeansTheSame(env, frames, l);
        ClosedMeansTheSame(env, frames, r);
      case UnaryOp(_, operand) => ClosedMeansTheSame(env, frames, operand);
      case IfExpr(c, t, f) =>
        ClosedMeansTheSame(env, frames, c);
        ClosedMeansTheSame(env, frames, t);
        ClosedMeansTheSame(env, frames, f);
      case Array(items) => ClosedAllMeanTheSame(env, frames, items);
      case _ =>
    }
  }

  lemma {:induction false} ClosedAllMeanTheSame(env: Env, frames: seq<Frame>, es: seq<Expr>)
    requires ClosedAll(es)
    ensures LocalAll(es) && EvalAllIn(env, frames, es) == EvalAll(es, env.profile)
    decreases es, 0
  {
    if es != [] {
      ClosedMeansTheSame(env, frames, es[0]);
      ClosedAllMeanTheSame(env, frames, es[1..]);
    }
  }

  /** An operand without a call runs as it evaluates. */
  lemma OperandIsValue(env: Env, level: nat, frames: seq<Frame>, e: Expr)
    requires Sound(env) && Local(e)
    ensures RunOperand(env, level, frames, e) == RunValue(env, level, frames, Some(e))
    ensures RunValue(env, level, frames, Some(e)) ==
            var v := EvalIn(env, frames, e); if v.Err? then Fails(v.error) else Next(v.value, map[])
  {
    hide EvalIn, Local;
  }

  lemma {:induction false} LocalAppend(a: seq<Stmt>, b: seq<Stmt>, calls: bool)
    ensures LocalBlock(a + b, calls) <==> LocalBlock(a, calls) && LocalBlock(b, calls)
  {
    if a == [] {
      assert [] + b == b;
    } else {
      assert (a + b)[1..] == a[1..] + b;
      LocalAppend(a[1..], b, calls);
    }
  }

  /** A block runs its parts in order, and whatever stands behind a part that returns or fails has no effect. */
  lemma {:induction false} RunsInOrder(env: Env, level: nat, below: seq<Frame>, top: Frame, a: seq<Stmt>, b: seq<Stmt>,
                                       last: RuntimeValue)
    requires Sound(env) && LocalBlock(a, env.calls) && LocalBlock(b, env.calls)
    ensures LocalBlock(a + b, env.calls)
    ensures var f := RunBlock(env, level, below, top, a, last);
            RunBlock(env, level, below, top, a + b, last) == if f.Next? then RunBlock(env, level, below, f.top, b, f.v) else f
    decreases a
  {
    hide LocalStmt, RunStmt;
    LocalAppend(a, b, env.calls);
    if a == [] {
      assert [] + b == b;
    } else {
      assert (a + b)[1..] == a[1..] + b;
      var f := RunStmt(env, level, below, top, a[0]);
      if f.Next? {
        RunsInOrder(env, level, below, f.top, a[1..], b, f.v);
      }
    }
  }
}
