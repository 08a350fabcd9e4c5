/** When a body without calls means the same for every caller: exactly if its run with no frames below misses no name. */
module CallerFrames {
  import opened Prelude
  import opened Ast
  import opened RuntimeValues
  import opened LocalPrograms
  import opened CallBehaviour

  // ----- the bodies: no name of a function is read -----

  predicate StmtAvoids(fs: set<string>, s: Stmt)
    decreases s, 1
  {
    match s
    case Let(_, value) => NamesOfOptional(value) !! fs
    case Const(_, value) => NamesOfOptional(value) !! fs
    case Return(value) => NamesOfOptional(value) !! fs
    case ExprStmt(e) => Names(e) !! fs
    case If(c, t, e) => Names(c) !! fs && Avoids(fs, t) && Avoids(fs, e)
    case While(c, body) => Names(c) !! fs && Avoids(fs, body)
    case For(_, iterable, body) => Names(iterable) !! fs && Avoids(fs, body)
    case Match(target, arms) => Names(target) !! fs && ArmsAvoid(fs, arms)
    case Assert(c, message) => Names(c) !! fs && NamesOfOptional(message) !! fs
    case _ => true
  }

  predicate Avoids(fs: set<string>, ss: seq<Stmt>)
    decreases ss, 0
  {
    ss == [] || (StmtAvoids(fs, ss[0]) && Avoids(fs, ss[1..]))
  }

  predicate ArmsAvoid(fs: set<string>, arms: seq<MatchArm>)
    decreases arms, 0
  {
    arms == [] || (NamesOfOptional(arms[0].guard) !! fs && Avoids(fs, arms[0].body) && ArmsAvoid(fs, arms[1..]))
  }

  predicate Misses(f: Flow) {
    f.Fails? && f.err.UndefinedVariable?
  }

  predicate Unknown<T>(r: Result<T, RuntimeError>) {
    r.Err? && r.error.UndefinedVariable?
  }

  // ----- more frames below change nothing for a run that misses no name -----

  /** The second stack of frames defines what the first one does, and equally. */
  ghost predicate Extends(f1: seq<Frame>, f2: seq<Frame>) {
    forall n :: Find(f1, n).Some? ==> Find(f2, n) == Find(f1, n)
  }

  lemma PushedExtends(f1: seq<Frame>, f2: seq<Frame>, top: Frame)
    requires Extends(f1, f2)
    ensures Extends(f1 + [top], f2 + [top])
  {
    forall n | Find(f1 + [top], n).Some?
      ensures Find(f2 + [top], n) == Find(f1 + [top], n)
    {
      FindPushed(f1, top, n);
      FindPushed(f2, top, n);
    }
  }

  lemma {:induction false} EvalExtends(env: Env, f1: seq<Frame>, f2: seq<Frame>, e: Expr)
    requires Local(e) && Extends(f1, f2) && Names(e) !! env.functions.Keys
    ensures Unknown(EvalIn(env, f1, e)) || EvalIn(env, f2, e) == EvalIn(env, f1, e)
    decreases e, 1
  {
    hide Find;
    match e {
      case BinaryOp(l, _, r) => EvalExtends(env, f1, f2, l); EvalExtends(env, f1, f2, r);
      case UnaryOp(_, operand) => EvalExtends(env, f1, f2, operand);
      case MemberAccess(obj, _) => EvalExtends(env, f1, f2, obj);
      case Index(arr, index) => EvalExtends(env, f1, f2, arr); EvalExtends(env, f1, f2, index);
      case Range(start, end, _) => EvalExtends(env, f1, f2, start); EvalExtends(env, f1, f2, end);
      case Array(items) => EvalAllExtend(env, f1, f2, items);
      case OptionValue(_, payload) => if payload.Some? { EvalExtends(env, f1, f2, payload.value); }
      case ResultValue(_, ok, err) =>
        if ok.Some? { EvalExtends(env, f1, f2, ok.value); }
        if err.Some? { EvalExtends(env, f1, f2, err.value); }
      case IfExpr(c, t, f) =>
        EvalExtends(env, f1, f2, c);
        EvalExtends(env, f1, f2, t);
        EvalExtends(env, f1, f2, f);
      case _ =>
    }
  }

  lemma {:induction false} EvalAllExtend(env: Env, f1: seq<Frame>, f2: seq<Frame>, es: seq<Expr>)
    requires LocalAll(es) && Extends(f1, f2) && NamesOfAll(es) !! env.functions.Keys
    ensures Unknown(EvalAllIn(env, f1, es)) || EvalAllIn(env, f2, es) == EvalAllIn(env, f1, es)
    decreases es, 0
  {
    hide EvalIn, Local, Names, Extends;
    if es != [] {
      EvalExtends(env, f1, f2, es[0]);
      EvalAllExtend(env, f1, f2, es[1..]);
    }
  }

  lemma OptionalExtends(env: Env, f1: seq<Frame>, f2: seq<Frame>, value: Option<Expr>)
    requires LocalOptional(value) && Extends(f1, f2) && NamesOfOptional(value) !! env.functions.Keys
    ensures Unknown(OptionalIn(env, f1, value)) || OptionalIn(env, f2, value) == OptionalIn(env, f1, value)
  {
    hide EvalIn, Local, Names, Extends;
    if value.Some? {
      EvalExtends(env, f1, f2, value.value);
    }
  }

  lemma ValueExtends(env: Env, level: nat, f1: seq<Frame>, f2: seq<Frame>, value: Option<Expr>)
    requires Sound(env) && LocalOptional(value) && Extends(f1, f2) && NamesOfOptional(value) !! env.functions.Keys
    ensures Misses(RunValue(env, level, f1, value)) || RunValue(env, level, f2, value) == RunValue(env, level, f1, value)
  {
    hide OptionalIn, LocalOptional, Extends, RunValue, NamesOfOptional;
    OptionalExtends(env, f1, f2, value);
    ValueEvaluates(env, level, f1, value);
    ValueEvaluates(env, level, f2, value);
  }

  lemma OperandExtends(env: Env, level: nat, f1: seq<Frame>, f2: seq<Frame>, e: Expr)
    requires Sound(env) && Local(e) && Extends(f1, f2) && Names(e) !! env.functions.Keys
    ensures Misses(RunOperand(env, level, f1, e)) || RunOperand(env, level, f2, e) == RunOperand(env, level, f1, e)
  {
    hide EvalIn, Local, Extends, Names;
    EvalExtends(env, f1, f2, e);
  }

  lemma {:induction false} StmtExtends(env: Env, level: nat, b1: seq<Frame>, b2: seq<Frame>, top: Frame, s: Stmt)
    requires Sound(env) && LocalStmt(s, false) && LocalStmt(s, env.calls)
    requires StmtAvoids(env.functions.Keys, s) && Extends(b1, b2)
    ensures var f := RunStmt(env, level, b1, top, s);
            Misses(f) || RunStmt(env, level, b2, top, s) == f
    decreases s, 2, 0
  {
    var f1, f2 := b1 + [top], b2 + [top];
    hide EvalIn, Local, Names, Extends, RunValue, RunOperand, RunBlock, RunWhile, RunFor, RunArms, LocalBlock, LocalArms,
      Avoids, ArmsAvoid;
    PushedExtends(b1, b2, top);
    match s {
      case Let(_, value) => ValueExtends(env, level, f1, f2, value);
      case Const(_, value) => ValueExtends(env, level, f1, f2, value);
      case Return(value) => ValueExtends(env, level, f1, f2, value);
      case ExprStmt(e) => OperandExtends(env, level, f1, f2, e);
      case If(c, t, e) =>
        EvalExtends(env, f1, f2, c);
        BlockExtends(env, level, f1, f2, map[], t, RNone);
        BlockExtends(env, level, f1, f2, map[], e, RNone);
      case While(c, body) => WhileExtends(env, level, b1, b2, top, c, body, env.loopFuel);
      case For(name, iterable, body) =>
        EvalExtends(env, f1, f2, iterable);
        var items := ItemsOf(EvalIn(env, f1, iterable));
        if items.Ok? {
          ForExtends(env, level, b1, b2, top, name, items.value, body);
        }
      case Match(target, arms) =>
        EvalExtends(env, f1, f2, target);
        var v := EvalIn(env, f1, target);
        if v.Ok? {
          ArmsExtend(env, level, b1, b2, top, v.value, arms);
        }
      case Assert(c, message) =>
        EvalExtends(env, f1, f2, c);
        OptionalExtends(env, f1, f2, message);
      case Fn(_) =>
      case Declaration(_) =>
    }
  }

  lemma {:induction false} BlockExtends(env: Env, level: nat, b1: seq<Frame>, b2: seq<Frame>, top: Frame, ss: seq<Stmt>,
                                        last: RuntimeValue)
    requires Sound(env) && LocalBlock(ss, false) && LocalBlock(ss, env.calls)
    requires Avoids(env.functions.Keys, ss) && Extends(b1, b2)
    ensures var f := RunBlock(env, level, b1, top, ss, last);
            Misses(f) || RunBlock(env, level, b2, top, ss, last) == f
    decreases ss, 0, 0
  {
    hide RunStmt, LocalStmt, StmtAvoids, Extends;
    if ss != [] {
      StmtExtends(env, level, b1, b2, top, ss[0]);
      var f := RunStmt(env, level, b1, top, ss[0]);
      if f.Next? {
        BlockExtends(env, level, b1, b2, f.top, ss[1..], f.v);
      }
    }
  }

  lemma {:induction false} WhileExtends(env: Env, level: nat, b1: seq<Frame>, b2: seq<Frame>, top: Frame, c: Expr,
                                        body: seq<Stmt>, fuel: nat)
    requires Sound(env) && Local(c) && LocalBlock(body, false) && LocalBlock(body, env.calls)
    requires Names(c) !! env.functions.Keys && Avoids(env.functions.Keys, body) && Extends(b1, b2)
    ensures var f := RunWhile(env, level, b1, top, c, body, fuel);
            Misses(f) || RunWhile(env, level, b2, top, c, body, fuel) == f
    decreases body, 2, fuel
  {
    hide RunBlock, EvalIn, Local, LocalBlock, Avoids, Extends, Names;
    if fuel > 0 {
      PushedExtends(b1, b2, top);
      EvalExtends(env, b1 + [top], b2 + [top], c);
      BlockExtends(env, level, b1 + [top], b2 + [top], map[], body, RNone);
      WhileExtends(env, level, b1, b2, top, c, body, fuel - 1);
    }
  }

  lemma {:induction false} ForExtends(env: Env, level: nat, b1: seq<Frame>, b2: seq<Frame>, top: Frame, name: string,
                                      items: seq<RuntimeValue>, body: seq<Stmt>)
    requires Sound(env) && LocalBlock(body, false) && LocalBlock(body, env.calls)
    requires Avoids(env.functions.Keys, body) && Extends(b1, b2)
    ensures var f := RunFor(env, level, b1, top, name, items, body);
            Misses(f) || RunFor(env, level, b2, top, name, items, body) == f
    decreases body, 2, |items|
  {
    hide RunBlock, LocalBlock, Avoids, Extends;
    if items != [] {
      PushedExtends(b1, b2, top);
      BlockExtends(env, level, b1 + [top], b2 + [top], map[name := items[0]], body, RNone);
      ForExtends(env, level, b1, b2, top, name, items[1..], body);
    }
  }

  lemma {:induction false} ArmsExtend(env: Env, level: nat, b1: seq<Frame>, b2: seq<Frame>, top: Frame, v: RuntimeValue,
                                      arms: seq<MatchArm>)
    requires Sound(env) && LocalArms(arms, false) && LocalArms(arms, env.calls)
    requires ArmsAvoid(env.functions.Keys, arms) && Extends(b1, b2)
    ensures var f := RunArms(env, level, b1, top, v, arms);
            Misses(f) || RunArms(env, level, b2, top, v, arms) == f
    decreases arms, 2, 0
  {
    hide RunBlock, LocalBlock, Avoids, Extends, LocalOptional, NamesOfOptional, EvalIn;
    if arms != [] {
      PushedExtends(b1, b2, top);
      GuardExtends(env, b1 + [top], b2 + [top], arms[0].guard);
      BlockExtends(env, level, b1 + [top], b2 + [top], map[], arms[0].body, RNone);
      ArmsExtend(env, level, b1, b2, top, v, arms[1..]);
    }
  }

  lemma GuardExtends(env: Env, f1: seq<Frame>, f2: seq<Frame>, guard: Option<Expr>)
    requires LocalOptional(guard) && Extends(f1, f2) && NamesOfOptional(guard) !! env.functions.Keys
    ensures Unknown(GuardIn(env, f1, guard)) || GuardIn(env, f2, guard) == GuardIn(env, f1, guard)
  {
    hide EvalIn, Local, Names, Extends;
    if guard.Some? {
      EvalExtends(env, f1, f2, guard.value);
    }
  }

  // ----- no run misses a name that a frame below defines -----

  lemma {:induction false} EvalFinds(env: Env, frames: seq<Frame>, e: Expr, x: string)
    requires Local(e) && Find(frames, x).Some?
    ensures EvalIn(env, frames, e) != Err(UndefinedVariable(x))
    decreases e, 1
  {
    hide Find;
    match e {
      case BinaryOp(l, _, r) => EvalFinds(env, frames, l, x); EvalFinds(env, frames, r, x);
      case UnaryOp(_, operand) => EvalFinds(env, frames, operand, x);
      case MemberAccess(obj, member) =>
        EvalFinds(env, frames, obj, x);
        var v := EvalIn(env, frames, obj);
        if v.Ok? && v.value.RStruct? { FieldsAreNoVariables(v.value.fields, member, x); }
      case Index(arr, index) => EvalFinds(env, frames, arr, x); EvalFinds(env, frames, index, x);
      case Range(start, end, _) => EvalFinds(env, frames, start, x); EvalFinds(env, frames, end, x);
      case Array(items) => EvalAllFind(env, frames, items, x);
      case OptionValue(_, payload) => if payload.Some? { EvalFinds(env, frames, payload.value, x); }
      case ResultValue(_, ok, err) =>
        if ok.Some? { EvalFinds(env, frames, ok.value, x); }
        if err.Some? { EvalFinds(env, frames, err.value, x); }
      case IfExpr(c, t, f) =>
        EvalFinds(env, frames, c, x);
        EvalFinds(env, frames, t, x);
        EvalFinds(env, frames, f, x);
      case _ =>
    }
  }

  lemma {:induction false} FieldsAreNoVariables(fields: seq<Field>, member: string, x: string)
    ensures FieldIn(fields, member) != Err(UndefinedVariable(x))
  {
    if fields != [] {
      FieldsAreNoVariables(fields[1..], member, x);
    }
  }

  lemma {:induction false} EvalAllFind(env: Env, frames: seq<Frame>, es: seq<Expr>, x: string)
    requires LocalAll(es) && Find(frames, x).Some?
    ensures EvalAllIn(env, frames, es) != Err(UndefinedVariable(x))
    decreases es, 0
  {
    hide EvalIn, Local, Find;
    if es != [] {
      EvalFinds(env, frames, es[0], x);
      EvalAllFind(env, frames, es[1..], x);
    }
  }

  lemma ValueFinds(env: Env, level: nat, frames: seq<Frame>, value: Option<Expr>, x: string)
    requires Sound(env) && LocalOptional(value) && Find(frames, x).Some?
    ensures RunValue(env, level, frames, value) != Fails(UndefinedVariable(x))
    ensures OptionalIn(env, frames, value) != Err(UndefinedVariable(x)) && GuardIn(env, frames, value) != Err(UndefinedVariable(x))
    ensures value.Some? ==> RunOperand(env, level, frames, value.value) != Fails(UndefinedVariable(x))
  {
    hide EvalIn, Local, Find;
    if value.Some? {
      EvalFinds(env, frames, value.value, x);
    }
  }

  lemma {:induction false} StmtFinds(env: Env, level: nat, below: seq<Frame>, top: Frame, s: Stmt, x: string)
    requires Sound(env) && LocalStmt(s, false) && LocalStmt(s, env.calls) && Find(below, x).Some?
    ensures RunStmt(env, level, below, top, s) != Fails(UndefinedVariable(x))
    decreases s, 2, 0
  {
    var frames := below + [top];
    hide EvalIn, Local, Find, RunValue, RunOperand, RunBlock, RunWhile, RunFor, RunArms, LocalBlock, LocalArms, OptionalIn, GuardIn;
    FindPushed(below, top, x);
    match s {
      case Let(_, value) => ValueFinds(env, level, frames, value, x);
      case Const(_, value) => ValueFinds(env, level, frames, value, x);
      case Return(value) => ValueFinds(env, level, frames, value, x);
      case ExprStmt(e) => ValueFinds(env, level, frames, Some(e), x);
      case If(c, t, e) =>
        EvalFinds(env, frames, c, x);
        BlockFinds(env, level, frames, map[], t, RNone, x);
        BlockFinds(env, level, frames, map[], e, RNone, x);
      case While(c, body) => WhileFinds(env, level, below, top, c, body, env.loopFuel, x);
      case For(name, iterable, body) =>
        EvalFinds(env, frames, iterable, x);
        var items := ItemsOf(EvalIn(env, frames, iterable));
        if items.Ok? {
          ForFinds(env, level, below, top, name, items.value, body, x);
        }
      case Match(target, arms) =>
        EvalFinds(env, frames, target, x);
        var v := EvalIn(env, frames, target);
        if v.Ok? {
          ArmsFind(env, level, below, top, v.value, arms, x);
        }
      case Assert(c, message) =>
        EvalFinds(env, frames, c, x);
        ValueFinds(env, level, frames, message, x);
      case Fn(_) =>
      case Declaration(_) =>
    }
  }

  lemma {:induction false} BlockFinds(env: Env, level: nat, below: seq<Frame>, top: Frame, ss: seq<Stmt>, last: RuntimeValue,
                                      x: string)
    requires Sound(env) && LocalBlock(ss, false) && LocalBlock(ss, env.calls) && Find(below, x).Some?
    ensures RunBlock(env, level, below, top, ss, last) != Fails(UndefinedVariable(x))
    decreases ss, 0, 0
  {
    hide RunStmt, LocalStmt, Find;
    if ss != [] {
      StmtFinds(env, level, below, top, ss[0], x);
      var f := RunStmt(env, level, below, top, ss[0]);
      if f.Next? {
        BlockFinds(env, level, below, f.top, ss[1..], f.v, x);
      }
    }
  }

  lemma {:induction false} WhileFinds(env: Env, level: nat, below: seq<Frame>, top: Frame, c: Expr, body: seq<Stmt>, fuel: nat,
                                      x: string)
    requires Sound(env) && Local(c) && LocalBlock(body, false) && LocalBlock(body, env.calls) && Find(below, x).Some?
    ensures RunWhile(env, level, below, top, c, body, fuel) != Fails(UndefinedVariable(x))
    decreases body, 2, fuel
  {
    hide RunBlock, EvalIn, Local, LocalBlock, Find;
    if fuel > 0 {
      FindPushed(below, top, x);
      EvalFinds(env, below + [top], c, x);
      BlockFinds(env, level, below + [top], map[], body, RNone, x);
      WhileFinds(env, level, below, top, c, body, fuel - 1, x);
    }
  }

  lemma {:induction false} ForFinds(env: Env, level: nat, below: seq<Frame>, top: Frame, name: string, items: seq<RuntimeValue>,
                                    body: seq<Stmt>, x: string)
    requires Sound(env) && LocalBlock(body, false) && LocalBlock(body, env.calls) && Find(below, x).Some?
    ensures RunFor(env, level, below, top, name, items, body) != Fails(UndefinedVariable(x))
    decreases body, 2, |items|
  {
    hide RunBlock, LocalBlock, Find;
    if items != [] {
      FindPushed(below, top, x);
      BlockFinds(env, level, below + [top], map[name := items[0]], body, RNone, x);
      ForFinds(env, level, below, top, name, items[1..], body, x);
    }
  }

  lemma {:induction false} ArmsFind(env: Env, level: nat, below: seq<Frame>, top: Frame, v: RuntimeValue, arms: seq<MatchArm>,
                                    x: string)
    requires Sound(env) && LocalArms(arms, false) && LocalArms(arms, env.calls) && Find(below, x).Some?
    ensures RunArms(env, level, below, top, v, arms) != Fails(UndefinedVariable(x))
    decreases arms, 2, 0
  {
    hide RunBlock, LocalBlock, Find, LocalOptional, GuardIn;
    if arms != [] {
      FindPushed(below, top, x);
      ValueFinds(env, level, below + [top], arms[0].guard, x);
      BlockFinds(env, level, below + [top], map[], arms[0].body, RNone, x);
      ArmsFind(env, level, below, top, v, arms[1..], x);
    }
  }

  // ----- the two together -----

  ghost predicate SameForAll(env: Env, level: nat, fn: FnDecl, args: seq<RuntimeValue>)
    requires Sound(env) && LocalBlock(fn.body, env.calls)
  {
    forall f1, f2 :: RunCall(env, level, f1, fn, args) == RunCall(env, level, f2, fn, args)
  }

  lemma TwoCallers(env: Env, level: nat, fn: FnDecl, args: seq<RuntimeValue>, f1: seq<Frame>, f2: seq<Frame>)
    requires Sound(env) && LocalBlock(fn.body, env.calls) && SameForAll(env, level, fn, args)
    ensures RunCall(env, level, f1, fn, args) == RunCall(env, level, f2, fn, args)
  {
    hide RunCall, LocalBlock;
  }

  /** A body without calls that reads no function's name, and is allowed to run, means the same for every caller exactly
      if its run with no frames below does not end with a missing name. */
  lemma {:induction false} SameForAllIff(env: Env, level: nat, fn: FnDecl, args: seq<RuntimeValue>)
    requires Sound(env) && LocalBlock(fn.body, false) && LocalBlock(fn.body, env.calls) && Avoids(env.functions.Keys, fn.body)
    requires level > 0 && (fn.governance.Some? ==> fn.governance.value <= env.sessionLevel)
    ensures SameForAll(env, level, fn, args)
       <==> !Misses(RunBlock(env, level - 1, [], ArgumentFrame(fn.params, args), fn.body, RNone))
  {
    hide RunBlock, LocalBlock, ArgumentFrame, Avoids, Extends;
    var scope, none: seq<Frame> := ArgumentFrame(fn.params, args), [];
    var alone := RunBlock(env, level - 1, none, scope, fn.body, RNone);
    assert RunCall(env, level, none, fn, args) == alone;
    if Misses(alone) {
      var x := alone.err.name;
      var other: seq<Frame> := [map[x := RNone]];
      BlockFinds(env, level - 1, other, scope, fn.body, RNone, x);
      assert RunCall(env, level, other, fn, args) != RunCall(env, level, none, fn, args);
      if SameForAll(env, level, fn, args) {
        TwoCallers(env, level, fn, args, other, none);
      }
    } else {
      forall f1, f2 ensures RunCall(env, level, f1, fn, args) == RunCall(env, level, f2, fn, args) {
        NothingExtends(f1);
        NothingExtends(f2);
        BlockExtends(env, level - 1, none, f1, scope, fn.body, RNone);
        BlockExtends(env, level - 1, none, f2, scope, fn.body, RNone);
      }
    }
  }

  lemma NothingExtends(frames: seq<Frame>)
    ensures Extends([], frames)
  {
  }

  // ----- for straight-line bodies the text decides -----

  /** Expressions that can only fail for a name. */
  predicate Steady(e: Expr)
    decreases e, 1
  {
    match e
    case IntLiteral(_) => true
    case StringLiteral(_) => true
    case BoolLiteral(_) => true
    case CharLiteral(_) => true
    case Ident(_) => true
    case Array(items) => SteadyAll(items)
    case OptionValue(isSome, payload) => payload.Some? ==> isSome && Steady(payload.value)
    case ResultValue(isOk, ok, err) =>
      if isOk then err.None? && (ok.Some? ==> Steady(ok.value)) else ok.None? && (err.Some? ==> Steady(err.value))
    case _ => false
  }

  predicate SteadyAll(es: seq<Expr>)
    decreases es, 0
  {
    es == [] || (Steady(es[0]) && SteadyAll(es[1..]))
  }

  predicate StraightStmt(s: Stmt) {
    match s
    case Let(_, value) => value.Some? ==> Steady(value.value)
    case Const(_, value) => value.Some? ==> Steady(value.value)
    case Return(value) => value.Some? ==> Steady(value.value)
    case ExprStmt(e) => Steady(e)
    case _ => false
  }

  predicate Straight(ss: seq<Stmt>) {
    ss == [] || (StraightStmt(ss[0]) && Straight(ss[1..]))
  }

  predicate Missing(env: Env, frames: seq<Frame>, r: Result<RuntimeValue, RuntimeError>) {
    r.Err? && r.error.UndefinedVariable? && Find(frames, r.error.name).None? && r.error.name !in env.functions
  }

  /** Evaluating a steady expression fails exactly for a name of it that nothing defines. */
  lemma {:induction false} SteadyEvaluates(env: Env, frames: seq<Frame>, e: Expr)
    requires Steady(e)
    ensures Local(e)
    ensures var r := EvalIn(env, frames, e);
            && (r.Ok? <==> forall n :: n in Names(e) ==> Find(frames, n).Some? || n in env.functions)
            && (r.Err? ==> Missing(env, frames, r))
    decreases e, 1
  {
    hide Find;
    match e {
      case Array(items) => AllSteadyEvaluate(env, frames, items);
      case OptionValue(_, payload) =>
        if payload.Some? {
          SteadyEvaluates(env, frames, payload.value);
        }
      case ResultValue(_, ok, err) =>
        if ok.Some? {
          SteadyEvaluates(env, frames, ok.value);
        }
        if err.Some? {
          SteadyEvaluates(env, frames, err.value);
        }
      case _ =>
    }
  }

  lemma {:induction false} AllSteadyEvaluate(env: Env, frames: seq<Frame>, es: seq<Expr>)
    requires SteadyAll(es)
    ensures LocalAll(es)
    ensures var r := EvalAllIn(env, frames, es);
            && (r.Ok? <==> forall n :: n in NamesOfAll(es) ==> Find(frames, n).Some? || n in env.functions)
            && (r.Err? ==> Missing(env, frames, Err(r.error)))
    decreases es, 0
  {
    hide Find, EvalIn, Steady, Local, Names;
    if es != [] {
      SteadyEvaluates(env, frames, es[0]);
      AllSteadyEvaluate(env, frames, es[1..]);
    }
  }

  lemma {:induction false} StraightIsLocal(ss: seq<Stmt>, calls: bool)
    requires Straight(ss)
    ensures LocalBlock(ss, calls)
  {
    if ss != [] {
      StraightIsLocal(ss[1..], calls);
      var e := OperandOf(ss[0]);
      if e.Some? {
        SteadyEvaluates(Env(map[], Debug, (p, v) => false, 0, 0, false), [], e.value);
      }
    }
  }

  /** A straight-line statement fails exactly if it reads a name nothing defines; otherwise it adds what it defines. */
  lemma StraightStep(env: Env, level: nat, below: seq<Frame>, top: Frame, s: Stmt)
    requires Sound(env) && StraightStmt(s) && LocalStmt(s, env.calls)
    ensures var f := RunStmt(env, level, below, top, s);
            && (f.Fails? ==> Missing(env, below + [top], Err(f.err)))
            && (f.Returns? ==> s.Return?)
            && (f.Next? ==> !s.Return? && f.top.Keys == top.Keys + DefinedBy(s))
    ensures RunStmt(env, level, below, top, s).Fails? <==>
              exists n :: n in ReadBy(s) && Find(below + [top], n).None? && n !in env.functions
  {
    hide EvalIn, Steady, Local, Find, Names;
    var e := OperandOf(s);
    if e.Some? {
      SteadyEvaluates(env, below + [top], e.value);
    }
    ValueEvaluates(env, level, below + [top], e);
    assert top.Keys + {} == top.Keys;
  }

  function OperandOf(s: Stmt): Option<Expr> {
    match s
    case Let(_, value) => value
    case Const(_, value) => value
    case Return(value) => value
    case ExprStmt(e) => Some(e)
    case _ => None
  }

  function ReadBy(s: Stmt): set<string> {
    NamesOfOptional(OperandOf(s))
  }

  /** Alone, a straight-line body that reads a name it does not define fails for such a name. */
  lemma {:induction false} AloneItFails(env: Env, level: nat, top: Frame, ss: seq<Stmt>, last: RuntimeValue)
    requires Sound(env) && Straight(ss) && LocalBlock(ss, env.calls) && Avoids(env.functions.Keys, ss)
    requires !Reads(top.Keys, ss)
    ensures var f := RunBlock(env, level, [], top, ss, last);
            f.Fails? && f.err.UndefinedVariable?
    decreases ss
  {
    hide Find, Names, Steady, Local;
    StraightStep(env, level, [], top, ss[0]);
    forall n ensures Find([] + [top], n).Some? <==> n in top {
      FindPushed([], top, n);
      FindNowhere(n);
    }
    var f := RunStmt(env, level, [], top, ss[0]);
    assert StmtReads(top.Keys, ss[0]) <==> ReadBy(ss[0]) <= top.Keys;
    hide RunStmt, StmtReads, StraightStmt, LocalStmt;
    if f.Next? {
      AloneItFails(env, level, f.top, ss[1..], f.v);
    }
  }

  lemma FindNowhere(n: string)
    ensures Find([], n) == None
  {
  }

  /** A straight-line body that is allowed to run means the same for every caller exactly if it reads only supplied
      parameters and its own definitions. */
  lemma {:induction false} CallerMattersIff(env: Env, level: nat, fn: FnDecl, args: seq<RuntimeValue>)
    requires Sound(env) && Straight(fn.body) && Avoids(env.functions.Keys, fn.body)
    requires level > 0 && (fn.governance.Some? ==> fn.governance.value <= env.sessionLevel)
    ensures LocalBlock(fn.body, env.calls)
    ensures SameForAll(env, level, fn, args) <==> Reads(Supplied(fn, args), fn.body)
  {
    StraightIsLocal(fn.body, env.calls);
    StraightIsLocal(fn.body, false);
    hide Straight, RunBlock, RunCall, Reads, ArgumentFrame, Avoids, LocalBlock;
    if Reads(Supplied(fn, args), fn.body) {
      forall f1, f2 ensures RunCall(env, level, f1, fn, args) == RunCall(env, level, f2, fn, args) {
        CallerDoesNotMatter(env, level, fn, args, f1, f2);
      }
    } else {
      AloneItFails(env, level - 1, ArgumentFrame(fn.params, args), fn.body, RNone);
      SameForAllIff(env, level, fn, args);
    }
  }
}
