/** What a call can see of its caller, and what a callee's return does to its caller: both follow from how the
    interpreter keeps its scopes and its return flag (compiler/src/runtime.rs). */
module CallBehaviour {
  import opened Prelude
  import opened Ast
  import opened RuntimeValues
  import opened LocalPrograms
  import I = Interpreter

  // ----- a callee that returns ends its caller's block -----

  /** The call decides: only if its body ends without a Return do the statements behind it run. */
  lemma CallDecides(env: Env, level: nat, below: seq<Frame>, top: Frame, before: seq<Stmt>, e: Expr, after: seq<Stmt>,
                    last: RuntimeValue)
    requires Sound(env) && env.calls && LocalCall(e) && LocalBlock(before, true) && LocalBlock(after, true)
    requires RunBlock(env, level, below, top, before, last).Next?
    ensures LocalBlock(before + [ExprStmt(e)] + after, true)
    ensures var t := RunBlock(env, level, below, top, before, last).top;
            var f := CallFlow(env, level, below + [t], e);
            RunBlock(env, level, below, top, before + [ExprStmt(e)] + after, last) ==
            if f.Next? then RunBlock(env, level, below, t, after, f.v) else Inner(f, t)
  {
    var t := RunBlock(env, level, below, top, before, last).top;
    var value := RunBlock(env, level, below, top, before, last).v;
    hide RunBlock, CallFlow, LocalBlock;
    OneCall(env, level, below, t, e, value);
    RunsInOrder(env, level, below, top, before, [ExprStmt(e)], last);
    RunsInOrder(env, level, below, top, before + [ExprStmt(e)], after, last);
  }

  lemma OneCall(env: Env, level: nat, below: seq<Frame>, top: Frame, e: Expr, last: RuntimeValue)
    requires Sound(env) && env.calls && LocalCall(e)
    ensures LocalBlock([ExprStmt(e)], true)
    ensures RunBlock(env, level, below, top, [ExprStmt(e)], last) == Inner(CallFlow(env, level, below + [top], e), top)
  {
    hide CallFlow;
    assert !Local(e) && [ExprStmt(e)][1..] == [];
    assert RunOperand(env, level, below + [top], e) == CallFlow(env, level, below + [top], e);
    assert RunStmt(env, level, below, top, ExprStmt(e)) == Inner(CallFlow(env, level, below + [top], e), top);
    hide RunOperand, RunStmt, Local;
    assert forall t, v :: RunBlock(env, level, below, t, [], v) == Next(v, t);
  }

  /** Nothing behind the call matters exactly if the call does not end normally. */
  lemma SkippedIff(env: Env, level: nat, below: seq<Frame>, top: Frame, before: seq<Stmt>, e: Expr, last: RuntimeValue)
    requires Sound(env) && env.calls && LocalCall(e) && LocalBlock(before, true)
    requires RunBlock(env, level, below, top, before, last).Next?
    ensures var t := RunBlock(env, level, below, top, before, last).top;
            (forall after :: LocalBlock(after, true) ==>
               && LocalBlock(before + [ExprStmt(e)] + after, true)
               && RunBlock(env, level, below, top, before + [ExprStmt(e)] + after, last)
                  == Inner(CallFlow(env, level, below + [t], e), t))
            <==> !CallFlow(env, level, below + [t], e).Next?
  {
    var t := RunBlock(env, level, below, top, before, last).top;
    var f := CallFlow(env, level, below + [t], e);
    hide CallFlow, RunBlock, LocalBlock;
    if !f.Next? {
      forall after | LocalBlock(after, true)
        ensures LocalBlock(before + [ExprStmt(e)] + after, true)
        ensures RunBlock(env, level, below, top, before + [ExprStmt(e)] + after, last) == Inner(f, t)
      {
        CallDecides(env, level, below, top, before, e, after, last);
      }
    } else {
      var after := [Return(None)];
      OneReturn(env, level, below, t, f.v);
      CallDecides(env, level, below, top, before, e, after, last);
      assert RunBlock(env, level, below, top, before + [ExprStmt(e)] + after, last) != Inner(f, t);
    }
  }

  lemma OneReturn(env: Env, level: nat, below: seq<Frame>, top: Frame, last: RuntimeValue)
    requires Sound(env)
    ensures LocalBlock([Return(None)], env.calls) && LocalBlock([Return(None)], true)
    ensures RunBlock(env, level, below, top, [Return(None)], last) == Returns(RNone, top)
  {
    assert [Return(None)][1..] == [];
    assert RunStmt(env, level, below, top, Return(None)) == Returns(RNone, top);
  }

  /** A call by the name of a function no variable hides is a run of that function's body. */
  lemma NamedCall(env: Env, level: nat, frames: seq<Frame>, f: string, args: seq<Expr>)
    requires Sound(env) && env.calls && LocalAll(args) && f in env.functions && Find(frames, f) == None
    requires EvalAllIn(env, frames, args).Ok?
    ensures CallFlow(env, level, frames, Call(Ident(f), args))
         == RunCall(env, level, frames, env.functions[f], EvalAllIn(env, frames, args).value)
  {
    hide RunCall, EvalAllIn;
    var e := Call(Ident(f), args);
    assert LocalCall(e) && EvalIn(env, frames, e.func) == Ok(RFunc(f));
    hide EvalIn;
    assert EvalAllIn(env, frames, e.args) == EvalAllIn(env, frames, args);
    assert CallFlow(env, level, frames, e) == RunCall(env, level, frames, env.functions[f], EvalAllIn(env, frames, args).value);
  }

  // ----- a body without a return lets its caller go on -----

  predicate StmtQuiet(s: Stmt)
    decreases s, 1
  {
    match s
    case Return(_) => false
    case If(_, t, e) => Quiet(t) && Quiet(e)
    case While(_, body) => Quiet(body)
    case For(_, _, body) => Quiet(body)
    case Match(_, arms) => ArmsQuiet(arms)
    case _ => true
  }

  /** No Return anywhere in it. */
  predicate Quiet(ss: seq<Stmt>)
    decreases ss, 0
  {
    ss == [] || (StmtQuiet(ss[0]) && Quiet(ss[1..]))
  }

  predicate ArmsQuiet(arms: seq<MatchArm>)
    decreases arms, 0
  {
    arms == [] || (Quiet(arms[0].body) && ArmsQuiet(arms[1..]))
  }

  lemma {:induction false} QuietStmtNeverReturns(env: Env, level: nat, below: seq<Frame>, top: Frame, s: Stmt)
    requires Sound(env) && LocalStmt(s, false) && LocalStmt(s, env.calls) && StmtQuiet(s)
    ensures !RunStmt(env, level, below, top, s).Returns?
    decreases s, 2, 0
  {
    var frames := below + [top];
    hide EvalIn, Local, LocalBlock, LocalArms, Quiet, ArmsQuiet, RunBlock, RunWhile, RunFor, RunArms;
    match s {
      case Let(_, value) => ValueEvaluates(env, level, frames, value);
      case Const(_, value) => ValueEvaluates(env, level, frames, value);
      case ExprStmt(e) => ValueEvaluates(env, level, frames, Some(e));
      case If(_, t, e) =>
        QuietNeverReturns(env, level, frames, map[], t, RNone);
        QuietNeverReturns(env, level, frames, map[], e, RNone);
      case While(c, body) => QuietWhile(env, level, below, top, c, body, env.loopFuel);
      case For(name, iterable, body) =>
        var items := ItemsOf(EvalIn(env, frames, iterable));
        if items.Ok? {
          QuietFor(env, level, below, top, name, items.value, body);
        }
      case Match(target, arms) =>
        var v := EvalIn(env, frames, target);
        if v.Ok? {
          QuietArms(env, level, below, top, v.value, arms);
        }
      case _ =>
    }
  }

  lemma {:induction false} QuietNeverReturns(env: Env, level: nat, below: seq<Frame>, top: Frame, ss: seq<Stmt>, last: RuntimeValue)
    requires Sound(env) && LocalBlock(ss, false) && LocalBlock(ss, env.calls) && Quiet(ss)
    ensures !RunBlock(env, level, below, top, ss, last).Returns?
    decreases ss, 0, 0
  {
    hide RunStmt, LocalStmt, StmtQuiet;
    if ss != [] {
      QuietStmtNeverReturns(env, level, below, top, ss[0]);
      var f := RunStmt(env, level, below, top, ss[0]);
      if f.Next? {
        QuietNeverReturns(env, level, below, f.top, ss[1..], f.v);
      }
    }
  }

  lemma {:induction false} QuietWhile(env: Env, level: nat, below: seq<Frame>, top: Frame, c: Expr, body: seq<Stmt>, fuel: nat)
    requires Sound(env) && Local(c) && LocalBlock(body, false) && LocalBlock(body, env.calls) && Quiet(body)
    ensures !RunWhile(env, level, below, top, c, body, fuel).Returns?
    decreases body, 2, fuel
  {
    hide RunBlock, EvalIn, Local, LocalBlock, Quiet;
    if fuel > 0 {
      QuietNeverReturns(env, level, below + [top], map[], body, RNone);
      QuietWhile(env, level, below, top, c, body, fuel - 1);
    }
  }

  lemma {:induction false} QuietFor(env: Env, level: nat, below: seq<Frame>, top: Frame, name: string, items: seq<RuntimeValue>,
                                    body: seq<Stmt>)
    requires Sound(env) && LocalBlock(body, false) && LocalBlock(body, env.calls) && Quiet(body)
    ensures !RunFor(env, level, below, top, name, items, body).Returns?
    decreases body, 2, |items|
  {
    hide RunBlock, LocalBlock, Quiet;
    if items != [] {
      QuietNeverReturns(env, level, below + [top], map[name := items[0]], body, RNone);
      QuietFor(env, level, below, top, name, items[1..], body);
    }
  }

  lemma {:induction false} QuietArms(env: Env, level: nat, below: seq<Frame>, top: Frame, v: RuntimeValue, arms: seq<MatchArm>)
    requires Sound(env) && LocalArms(arms, false) && LocalArms(arms, env.calls) && ArmsQuiet(arms)
    ensures !RunArms(env, level, below, top, v, arms).Returns?
    decreases arms, 2, 0
  {
    hide RunBlock, LocalBlock, Quiet, GuardIn, LocalOptional;
    if arms != [] {
      QuietNeverReturns(env, level, below + [top], map[], arms[0].body, RNone);
      QuietArms(env, level, below, top, v, arms[1..]);
    }
  }

  /** The statements behind a call of a function with no return and no call in it run, unless the call fails. */
  lemma {:induction false} QuietCalleeGoesOn(env: Env, level: nat, below: seq<Frame>, top: Frame, before: seq<Stmt>, f: string,
                                             args: seq<Expr>, after: seq<Stmt>, last: RuntimeValue)
    requires Sound(env) && env.calls && LocalAll(args) && LocalBlock(before, true) && LocalBlock(after, true)
    requires RunBlock(env, level, below, top, before, last).Next?
    requires f in env.functions && LocalBlock(env.functions[f].body, false) && Quiet(env.functions[f].body)
    requires var t := RunBlock(env, level, below, top, before, last).top;
             Find(below + [t], f) == None && EvalAllIn(env, below + [t], args).Ok?
    ensures var e, t := Call(Ident(f), args), RunBlock(env, level, below, top, before, last).top;
            && LocalCall(e) && LocalBlock(before + [ExprStmt(e)] + after, true)
            && var r := CallFlow(env, level, below + [t], e);
               RunBlock(env, level, below, top, before + [ExprStmt(e)] + after, last) ==
               if r.Fails? then r else RunBlock(env, level, below, t, after, r.v)
  {
    var e, t := Call(Ident(f), args), RunBlock(env, level, below, top, before, last).top;
    assert LocalCall(e);
    var fn := env.functions[f];
    hide RunBlock, CallFlow, LocalBlock, EvalAllIn, Find, ArgumentFrame, LocalCall, LocalAll, Quiet;
    NamedCall(env, level, below + [t], f, args);
    if level > 0 {
      QuietNeverReturns(env, level - 1, below + [t], ArgumentFrame(fn.params, EvalAllIn(env, below + [t], args).value), fn.body, RNone);
    }
    CallDecides(env, level, below, top, before, e, after, last);
  }

  const ONE := FnDecl("one", [], [Return(Some(IntLiteral(1)))], None, false, None, None)

  /** `one(); return 2` answers 1, where `one` is a function that returns 1. */
  method CalleeEndsBlock(rt: I.Runtime) returns (r: Result<RuntimeValue, RuntimeError>)
    requires rt.Valid() && rt.currentDepth == 0 && rt.functions == map["one" := ONE] && rt.frames == [map[]]
    modifies rt
    ensures r == Ok(RInt(1))
  {
    var block := [ExprStmt(Call(Ident("one"), []))] + [Return(Some(IntLiteral(2)))];
    assert rt.Below() == [] && rt.Innermost() == map[];
    PlainOne(rt.World());
    OneEnds(rt.World(), rt.Level(), rt.Below());
    hide RunBlock, LocalBlock, PlainFunctions;
    r := rt.ExecBlock(block);
  }

  lemma PlainOne(env: Env)
    requires env.functions == map["one" := ONE] && env.calls == PlainFunctions(env.functions)
    ensures env.calls
  {
    OneIsLocal();
    hide LocalBlock;
  }

  lemma OneEnds(env: Env, level: nat, below: seq<Frame>)
    requires env.functions == map["one" := ONE] && Sound(env) && env.calls && level > 0 && below == []
    ensures var block := [ExprStmt(Call(Ident("one"), []))] + [Return(Some(IntLiteral(2)))];
            LocalBlock(block, true) && RunBlock(env, level, below, map[], block, RNone) == Returns(RInt(1), map[])
  {
    var one := IntLiteral(1);
    assert Local(one) && EvalIn(env, [map[]] + [map[]], one) == Ok(RInt(1));
    assert Find([map[]], "one") == None;
    assert below + [map[]] == [map[]];
    hide RunBlock, CallFlow, LocalBlock, EvalIn, Local, Find, PlainFunctions, LocalCall;
    ReturningCallee(env, level, below + [map[]], "one", one);
    LiteralIsLocal(2);
    ReturnRuns(env, level, below, map[], IntLiteral(2));
    CallFirst(env, level, below, map[], Call(Ident("one"), []), [Return(Some(IntLiteral(2)))]);
  }

  lemma LiteralIsLocal(n: i64)
    ensures Local(IntLiteral(n))
  {
  }

  lemma OneIsLocal()
    ensures LocalBlock(ONE.body, true)
  {
    assert ONE.body[1..] == [];
  }

  lemma CallFirst(env: Env, level: nat, below: seq<Frame>, top: Frame, e: Expr, after: seq<Stmt>)
    requires Sound(env) && env.calls && LocalCall(e) && LocalBlock(after, true)
    ensures LocalBlock([ExprStmt(e)] + after, true)
    ensures var f := CallFlow(env, level, below + [top], e);
            RunBlock(env, level, below, top, [ExprStmt(e)] + after, RNone) ==
            if f.Next? then RunBlock(env, level, below, top, after, f.v) else Inner(f, top)
  {
    hide RunBlock, CallFlow, LocalBlock;
    OneCall(env, level, below, top, e, RNone);
    RunsInOrder(env, level, below, top, [ExprStmt(e)], after, RNone);
  }

  lemma ReturnRuns(env: Env, level: nat, below: seq<Frame>, top: Frame, e: Expr)
    requires Sound(env) && Local(e)
    ensures LocalBlock([Return(Some(e))], env.calls)
    ensures var v := EvalIn(env, below + [top], e);
            RunBlock(env, level, below, top, [Return(Some(e))], RNone) ==
            if v.Err? then Fails(v.error) else Returns(v.value, top)
  {
    hide EvalIn, Local;
    var ss := [Return(Some(e))];
    assert ss[1..] == [];
    ValueEvaluates(env, level, below + [top], Some(e));
    assert LocalStmt(ss[0], env.calls);
    hide RunValue;
    assert RunStmt(env, level, below, top, ss[0]) == Returned(RunValue(env, level, below + [top], Some(e)), top);
    hide RunStmt;
  }

  /** A function whose body is one return of `e`, called by its name. */
  lemma ReturningCallee(env: Env, level: nat, frames: seq<Frame>, f: string, e: Expr)
    requires Sound(env) && env.calls && level > 0 && Local(e)
    requires f in env.functions && env.functions[f].params == [] && env.functions[f].body == [Return(Some(e))]
    requires env.functions[f].governance.None? && Find(frames, f) == None
    ensures LocalCall(Call(Ident(f), []))
    ensures var v := EvalIn(env, frames + [map[]], e);
            CallFlow(env, level, frames, Call(Ident(f), [])) == if v.Err? then Fails(v.error) else Returns(v.value, map[])
  {
    assert LocalCall(Call(Ident(f), []));
    assert EvalAllIn(env, frames, []) == Ok([]) && ArgumentFrame([], []) == map[];
    hide RunBlock, CallFlow, LocalBlock, EvalIn, Local, EvalAllIn, ArgumentFrame, Find, PlainFunctions, LocalCall;
    NamedCall(env, level, frames, f, []);
    ReturnRuns(env, level - 1, frames, map[], e);
  }

  // ----- what a body reads -----

  function Names(e: Expr): set<string>
    decreases e, 1
  {
    match e
    case Ident(name) => {name}
    case BinaryOp(l, _, r) => Names(l) + Names(r)
    case UnaryOp(_, operand) => Names(operand)
    case MemberAccess(obj, _) => Names(obj)
    case Index(arr, index) => Names(arr) + Names(index)
    case Range(start, end, _) => Names(start) + Names(end)
    case Array(items) => NamesOfAll(items)
    case OptionValue(_, payload) => if payload.Some? then Names(payload.value) else {}
    case ResultValue(_, ok, err) =>
      (if ok.Some? then Names(ok.value) else {}) + (if err.Some? then Names(err.value) else {})
    case IfExpr(c, t, f) => Names(c) + Names(t) + Names(f)
    case _ => {}
  }

  function NamesOfAll(es: seq<Expr>): set<string>
    decreases es, 0
  {
    if es == [] then {} else Names(es[0]) + NamesOfAll(es[1..])
  }

  function NamesOfOptional(value: Option<Expr>): set<string> {
    if value.Some? then Names(value.value) else {}
  }

  /** Every name a statement reads is one of `bound` or defined before it is read. */
  predicate StmtReads(bound: set<string>, s: Stmt)
    decreases s, 1
  {
    match s
    case Let(_, value) => NamesOfOptional(value) <= bound
    case Const(_, value) => NamesOfOptional(value) <= bound
    case Return(value) => NamesOfOptional(value) <= bound
    case ExprStmt(e) => Names(e) <= bound
    case If(c, t, e) => Names(c) <= bound && Reads(bound, t) && Reads(bound, e)
    case While(c, body) => Names(c) <= bound && Reads(bound, body)
    case For(name, iterable, body) => Names(iterable) <= bound && Reads(bound + {name}, body)
    case Match(target, arms) => Names(target) <= bound && ArmsRead(bound, arms)
    case Assert(c, message) => Names(c) <= bound && NamesOfOptional(message) <= bound
    case _ => true
  }

  /** What stands behind a Return is not read. */
  predicate Reads(bound: set<string>, ss: seq<Stmt>)
    decreases ss, 0
  {
    ss == [] || (StmtReads(bound, ss[0]) && (ss[0].Return? || Reads(bound + DefinedBy(ss[0]), ss[1..])))
  }

  predicate ArmsRead(bound: set<string>, arms: seq<MatchArm>)
    decreases arms, 0
  {
    arms == [] || (NamesOfOptional(arms[0].guard) <= bound && Reads(bound, arms[0].body) && ArmsRead(bound, arms[1..]))
  }

  function DefinedBy(s: Stmt): set<string> {
    match s
    case Let(name, _) => {name}
    case Const(name, _) => {name}
    case _ => {}
  }

  // ----- a body that reads only its own names means the same under every caller -----

  /** Both stacks of frames define the names of `bound`, and equally. */
  predicate Agree(bound: set<string>, f1: seq<Frame>, f2: seq<Frame>) {
    forall n :: n in bound ==> Find(f1, n).Some? && Find(f1, n) == Find(f2, n)
  }

  lemma FindPushed(frames: seq<Frame>, top: Frame, n: string)
    ensures Find(frames + [top], n) == if n in top then Some(top[n]) else Find(frames, n)
  {
    assert (frames + [top])[..|frames|] == frames;
  }

  lemma PushedAgree(bound: set<string>, f1: seq<Frame>, f2: seq<Frame>, top: Frame)
    requires Agree(bound, f1, f2)
    ensures Agree(bound + top.Keys, f1 + [top], f2 + [top])
  {
    forall n | n in bound + top.Keys
      ensures Find(f1 + [top], n).Some? && Find(f1 + [top], n) == Find(f2 + [top], n)
    {
      FindPushed(f1, top, n);
      FindPushed(f2, top, n);
    }
  }

  lemma DefinedAgree(bound: set<string>, b1: seq<Frame>, b2: seq<Frame>, top: Frame, name: string, v: RuntimeValue)
    requires Agree(bound, b1 + [top], b2 + [top])
    ensures Agree(bound + {name}, b1 + [top[name := v]], b2 + [top[name := v]])
  {
    var t := top[name := v];
    forall n | n in bound + {name}
      ensures Find(b1 + [t], n).Some? && Find(b1 + [t], n) == Find(b2 + [t], n)
    {
      FindPushed(b1, top, n);
      FindPushed(b2, top, n);
      FindPushed(b1, t, n);
      FindPushed(b2, t, n);
    }
  }

  lemma {:induction false} EvalAgrees(env: Env, f1: seq<Frame>, f2: seq<Frame>, e: Expr)
    requires Local(e) && Agree(Names(e), f1, f2)
    ensures EvalIn(env, f1, e) == EvalIn(env, f2, e)
    decreases e, 1
  {
    hide Find;
    match e {
      case BinaryOp(l, _, r) => EvalAgrees(env, f1, f2, l); EvalAgrees(env, f1, f2, r);
      case UnaryOp(_, operand) => EvalAgrees(env, f1, f2, operand);
      case MemberAccess(obj, _) => EvalAgrees(env, f1, f2, obj);
      case Index(arr, index) => EvalAgrees(env, f1, f2, arr); EvalAgrees(env, f1, f2, index);
      case Range(start, end, _) => EvalAgrees(env, f1, f2, start); EvalAgrees(env, f1, f2, end);
      case Array(items) => EvalAllAgree(env, f1, f2, items);
      case OptionValue(_, payload) => if payload.Some? { EvalAgrees(env, f1, f2, payload.value); }
      case ResultValue(_, ok, err) =>
        if ok.Some? { EvalAgrees(env, f1, f2, ok.value); }
        if err.Some? { EvalAgrees(env, f1, f2, err.value); }
      case IfExpr(c, t, f) =>
        EvalAgrees(env, f1, f2, c);
        EvalAgrees(env, f1, f2, t);
        EvalAgrees(env, f1, f2, f);
      case _ =>
    }
  }

  lemma {:induction false} EvalAllAgree(env: Env, f1: seq<Frame>, f2: seq<Frame>, es: seq<Expr>)
    requires LocalAll(es) && Agree(NamesOfAll(es), f1, f2)
    ensures EvalAllIn(env, f1, es) == EvalAllIn(env, f2, es)
    decreases es, 0
  {
    hide EvalIn, Local, Names;
    if es != [] {
      EvalAgrees(env, f1, f2, es[0]);
      EvalAllAgree(env, f1, f2, es[1..]);
    }
  }

  lemma OptionalAgrees(env: Env, f1: seq<Frame>, f2: seq<Frame>, value: Option<Expr>, bound: set<string>)
    requires LocalOptional(value) && NamesOfOptional(value) <= bound && Agree(bound, f1, f2)
    ensures OptionalIn(env, f1, value) == OptionalIn(env, f2, value)
  {
    hide EvalIn, Local, Names;
    if value.Some? {
      EvalAgrees(env, f1, f2, value.value);
    }
  }

  /** A value or definition without a call runs as it evaluates. */
  lemma ValueEvaluates(env: Env, level: nat, frames: seq<Frame>, value: Option<Expr>)
    requires Sound(env) && LocalOptional(value)
    ensures var v := OptionalIn(env, frames, value);
            RunValue(env, level, frames, value) == if v.Err? then Fails(v.error) else Next(v.value, map[])
  {
    hide EvalIn, Local;
  }

  lemma {:induction false} StmtAgrees(env: Env, level: nat, b1: seq<Frame>, b2: seq<Frame>, top: Frame, s: Stmt, bound: set<string>)
    requires Sound(env) && LocalStmt(s, false) && LocalStmt(s, env.calls)
    requires StmtReads(bound, s) && Agree(bound, b1 + [top], b2 + [top])
    ensures var f := RunStmt(env, level, b1, top, s);
            && f == RunStmt(env, level, b2, top, s)
            && (s.Return? ==> !f.Next?)
            && (f.Next? ==> Agree(bound + DefinedBy(s), b1 + [f.top], b2 + [f.top]))
    decreases s, 2, 0
  {
    var f1, f2 := b1 + [top], b2 + [top];
    hide EvalIn, Local, Names, Agree, RunBlock, RunWhile, RunFor, RunArms, LocalBlock, LocalArms, Reads, ArmsRead;
    match s {
      case Let(name, value) => DefineAgrees(env, level, b1, b2, top, name, value, bound);
      case Const(name, value) => DefineAgrees(env, level, b1, b2, top, name, value, bound);
      case Return(value) => SimpleAgrees(env, level, f1, f2, value, bound);
      case ExprStmt(e) =>
        SimpleAgrees(env, level, f1, f2, Some(e), bound);
        assert bound + {} == bound;
      case If(c, t, e) =>
        OptionalAgrees(env, f1, f2, Some(c), bound);
        ScopeAgrees(env, level, f1, f2, map[], t, bound);
        ScopeAgrees(env, level, f1, f2, map[], e, bound);
        assert bound + {} == bound;
      case While(c, body) =>
        WhileAgrees(env, level, b1, b2, top, c, body, env.loopFuel, bound);
        assert bound + {} == bound;
      case For(name, iterable, body) =>
        OptionalAgrees(env, f1, f2, Some(iterable), bound);
        var items := ItemsOf(EvalIn(env, f1, iterable));
        if items.Ok? {
          ForAgrees(env, level, b1, b2, top, name, items.value, body, bound);
        }
        assert bound + {} == bound;
      case Match(target, arms) =>
        OptionalAgrees(env, f1, f2, Some(target), bound);
        var v := EvalIn(env, f1, target);
        if v.Ok? {
          ArmsAgree(env, level, b1, b2, top, v.value, arms, bound);
        }
        assert bound + {} == bound;
      case Assert(c, message) =>
        OptionalAgrees(env, f1, f2, Some(c), bound);
        OptionalAgrees(env, f1, f2, message, bound);
        assert bound + {} == bound;
      case Fn(_) => assert bound + {} == bound;
      case Declaration(_) => assert bound + {} == bound;
    }
  }

  lemma SimpleAgrees(env: Env, level: nat, f1: seq<Frame>, f2: seq<Frame>, value: Option<Expr>, bound: set<string>)
    requires Sound(env) && LocalOptional(value) && NamesOfOptional(value) <= bound && Agree(bound, f1, f2)
    ensures RunValue(env, level, f1, value) == RunValue(env, level, f2, value) && !RunValue(env, level, f1, value).Returns?
    ensures value.Some? ==> RunOperand(env, level, f1, value.value) == RunOperand(env, level, f2, value.value)
                            && !RunOperand(env, level, f1, value.value).Returns?
  {
    hide EvalIn, Local, Names, Agree;
    OptionalAgrees(env, f1, f2, value, bound);
  }

  lemma DefineAgrees(env: Env, level: nat, b1: seq<Frame>, b2: seq<Frame>, top: Frame, name: string, value: Option<Expr>,
                     bound: set<string>)
    requires Sound(env) && LocalOptional(value) && NamesOfOptional(value) <= bound && Agree(bound, b1 + [top], b2 + [top])
    ensures var f := Defined(RunValue(env, level, b1 + [top], value), top, name);
            && f == Defined(RunValue(env, level, b2 + [top], value), top, name)
            && (f.Next? ==> Agree(bound + {name}, b1 + [f.top], b2 + [f.top]))
  {
    hide Agree, RunValue;
    SimpleAgrees(env, level, b1 + [top], b2 + [top], value, bound);
    var f := RunValue(env, level, b1 + [top], value);
    if f.Next? {
      DefinedAgree(bound, b1, b2, top, name, f.v);
    }
  }

  lemma {:induction false} BlockAgrees(env: Env, level: nat, b1: seq<Frame>, b2: seq<Frame>, top: Frame, ss: seq<Stmt>,
                                       last: RuntimeValue, bound: set<string>)
    requires Sound(env) && LocalBlock(ss, false) && LocalBlock(ss, env.calls)
    requires Reads(bound, ss) && Agree(bound, b1 + [top], b2 + [top])
    ensures RunBlock(env, level, b1, top, ss, last) == RunBlock(env, level, b2, top, ss, last)
    decreases ss, 0, 0
  {
    hide RunStmt, LocalStmt, StmtReads, Agree, DefinedBy;
    if ss != [] {
      StmtAgrees(env, level, b1, b2, top, ss[0], bound);
      var f := RunStmt(env, level, b1, top, ss[0]);
      if f.Next? {
        BlockAgrees(env, level, b1, b2, f.top, ss[1..], f.v, bound + DefinedBy(ss[0]));
      }
    }
  }

  /** A block in a scope of its own. */
  lemma {:induction false} ScopeAgrees(env: Env, level: nat, f1: seq<Frame>, f2: seq<Frame>, scope: Frame, ss: seq<Stmt>,
                                       bound: set<string>)
    requires Sound(env) && LocalBlock(ss, false) && LocalBlock(ss, env.calls)
    requires Reads(bound + scope.Keys, ss) || (scope == map[] && Reads(bound, ss))
    requires Agree(bound, f1, f2)
    ensures RunBlock(env, level, f1, scope, ss, RNone) == RunBlock(env, level, f2, scope, ss, RNone)
    decreases ss, 1, 0
  {
    hide RunBlock, LocalBlock, Reads, Agree;
    PushedAgree(bound, f1, f2, scope);
    assert scope == map[] ==> bound + scope.Keys == bound;
    BlockAgrees(env, level, f1, f2, scope, ss, RNone, bound + scope.Keys);
  }

  lemma {:induction false} WhileAgrees(env: Env, level: nat, b1: seq<Frame>, b2: seq<Frame>, top: Frame, c: Expr, body: seq<Stmt>,
                                       fuel: nat, bound: set<string>)
    requires Sound(env) && Local(c) && LocalBlock(body, false) && LocalBlock(body, env.calls)
    requires Names(c) <= bound && Reads(bound, body) && Agree(bound, b1 + [top], b2 + [top])
    ensures var f := RunWhile(env, level, b1, top, c, body, fuel);
            f == RunWhile(env, level, b2, top, c, body, fuel) && (f.Next? ==> f.top == top)
    decreases body, 2, fuel
  {
    hide RunBlock, EvalIn, Local, LocalBlock, Reads, Agree, Names;
    if fuel > 0 {
      OptionalAgrees(env, b1 + [top], b2 + [top], Some(c), bound);
      ScopeAgrees(env, level, b1 + [top], b2 + [top], map[], body, bound);
      WhileAgrees(env, level, b1, b2, top, c, body, fuel - 1, bound);
    }
  }

  lemma {:induction false} ForAgrees(env: Env, level: nat, b1: seq<Frame>, b2: seq<Frame>, top: Frame, name: string,
                                     items: seq<RuntimeValue>, body: seq<Stmt>, bound: set<string>)
    requires Sound(env) && LocalBlock(body, false) && LocalBlock(body, env.calls)
    requires Reads(bound + {name}, body) && Agree(bound, b1 + [top], b2 + [top])
    ensures var f := RunFor(env, level, b1, top, name, items, body);
            f == RunFor(env, level, b2, top, name, items, body) && (f.Next? ==> f.top == top)
    decreases body, 2, |items|
  {
    hide RunBlock, LocalBlock, Reads, Agree;
    if items != [] {
      var scope := map[name := items[0]];
      assert scope.Keys == {name};
      ScopeAgrees(env, level, b1 + [top], b2 + [top], scope, body, bound);
      ForAgrees(env, level, b1, b2, top, name, items[1..], body, bound);
    }
  }

  lemma {:induction false} ArmsAgree(env: Env, level: nat, b1: seq<Frame>, b2: seq<Frame>, top: Frame, v: RuntimeValue,
                                     arms: seq<MatchArm>, bound: set<string>)
    requires Sound(env) && LocalArms(arms, false) && LocalArms(arms, env.calls)
    requires ArmsRead(bound, arms) && Agree(bound, b1 + [top], b2 + [top])
    ensures var f := RunArms(env, level, b1, top, v, arms);
            f == RunArms(env, level, b2, top, v, arms) && (f.Next? ==> f.top == top)
    decreases arms, 2, 0
  {
    hide RunBlock, LocalBlock, Reads, Agree, LocalOptional, NamesOfOptional, EvalIn;
    if arms != [] {
      OptionalAgrees(env, b1 + [top], b2 + [top], arms[0].guard, bound);
      ScopeAgrees(env, level, b1 + [top], b2 + [top], map[], arms[0].body, bound);
      ArmsAgree(env, level, b1, b2, top, v, arms[1..], bound);
    }
  }

  /** The names a call supplies. */
  function Supplied(fn: FnDecl, args: seq<RuntimeValue>): set<string> {
    ArgumentFrame(fn.params, args).Keys
  }

  /** A body without calls that reads only supplied parameters and its own definitions means the same for every caller. */
  lemma CallerDoesNotMatter(env: Env, level: nat, fn: FnDecl, args: seq<RuntimeValue>, f1: seq<Frame>, f2: seq<Frame>)
    requires Sound(env) && LocalBlock(fn.body, false) && LocalBlock(fn.body, env.calls)
    requires Reads(Supplied(fn, args), fn.body)
    ensures RunCall(env, level, f1, fn, args) == RunCall(env, level, f2, fn, args)
  {
    hide RunBlock, LocalBlock, Reads, ArgumentFrame;
    if level > 0 {
      assert {} + Supplied(fn, args) == Supplied(fn, args);
      ScopeAgrees(env, level - 1, f1, f2, ArgumentFrame(fn.params, args), fn.body, {});
    }
  }

  const READS_X := FnDecl("readsX", [], [Return(Some(Ident("x")))], None, false, None, None)

  /** The body `return x` answers 1 to a caller that has set `x` to 1, and fails for one that has not. */
  lemma CallerMatters(env: Env, level: nat)
    requires Sound(env) && env.functions == map[] && level > 0
    ensures LocalBlock(READS_X.body, env.calls)
    ensures RunCall(env, level, [map["x" := RInt(1)]], READS_X, []) == Returns(RInt(1), map[])
    ensures RunCall(env, level, [map[]], READS_X, []) == Fails(UndefinedVariable("x"))
  {
    var unset: seq<Frame>, given: seq<Frame> := [map[]], [map["x" := RInt(1)]];
    var x := Ident("x");
    assert ArgumentFrame([], []) == map[] && Local(x);
    FindPushed(given, map[], "x");
    FindPushed(unset, map[], "x");
    assert Find(given, "x") == Some(RInt(1)) && Find(unset, "x") == None;
    assert EvalIn(env, given + [map[]], x) == Ok(RInt(1)) && EvalIn(env, unset + [map[]], x) == Err(UndefinedVariable("x"));
    hide RunBlock, EvalIn, Local, LocalBlock, Find, ArgumentFrame;
    ReturnRuns(env, level - 1, given, map[], x);
    ReturnRuns(env, level - 1, unset, map[], x);
  }
}
