/** The tree-walking interpreter (compiler/src/runtime.rs): scopes, call depth and results. */
module Interpreter {
  import opened Prelude
  import opened Ast
  import opened RuntimeValues
  import opened LocalPrograms

  const MAX_DEPTH := 64

  // ----- programs without try/catch -----

  predicate TryFreeExpr(e: Expr)
    decreases e, 1
  {
    match e
    case BinaryOp(l, _, r) => TryFreeExpr(l) && TryFreeExpr(r)
    case UnaryOp(_, operand) => TryFreeExpr(operand)
    case Call(func, args) => TryFreeExpr(func) && TryFreeExprs(args)
    case MemberAccess(obj, _) => TryFreeExpr(obj)
    case Index(arr, index) => TryFreeExpr(arr) && TryFreeExpr(index)
    case Pipe(input, _) => TryFreeExpr(input)
    case Range(start, end, _) => TryFreeExpr(start) && TryFreeExpr(end)
    case Array(items) => TryFreeExprs(items)
    case OptionValue(_, payload) => payload.Some? ==> TryFreeExpr(payload.value)
    case ResultValue(_, ok, err) => (ok.Some? ==> TryFreeExpr(ok.value)) && (err.Some? ==> TryFreeExpr(err.value))
    case IfExpr(c, t, f) => TryFreeExpr(c) && TryFreeExpr(t) && TryFreeExpr(f)
    case MatchExpr(target, arms) => TryFreeExpr(target) && TryFreeArms(arms)
    case _ => true
  }

  predicate TryFreeExprs(es: seq<Expr>)
    decreases es, 0
  {
    forall i :: 0 <= i < |es| ==> TryFreeExpr(es[i])
  }

  predicate TryFreeArms(arms: seq<MatchArm>)
    decreases arms, 0
  {
    forall i :: 0 <= i < |arms| ==>
      (arms[i].guard.Some? ==> TryFreeExpr(arms[i].guard.value)) && TryFree(arms[i].body)
  }

  predicate TryFreeStmt(s: Stmt)
    decreases s, 1
  {
    match s
    case Let(_, value) => value.Some? ==> TryFreeExpr(value.value)
    case Const(_, value) => value.Some? ==> TryFreeExpr(value.value)
    case Return(value) => value.Some? ==> TryFreeExpr(value.value)
    case If(c, t, e) => TryFreeExpr(c) && TryFree(t) && TryFree(e)
    case While(c, body) => TryFreeExpr(c) && TryFree(body)
    case For(_, iterable, body) => TryFreeExpr(iterable) && TryFree(body)
    case Match(target, arms) => TryFreeExpr(target) && TryFreeArms(arms)
    case Spawn(decl) => TryFree(decl.body)
    case TryCatch(_, _, _) => false
    case Assert(c, message) => TryFreeExpr(c) && (message.Some? ==> TryFreeExpr(message.value))
    case ExprStmt(e) => TryFreeExpr(e)
    case _ => true
  }

  predicate TryFree(ss: seq<Stmt>)
    decreases ss, 0
  {
    forall i :: 0 <= i < |ss| ==> TryFreeStmt(ss[i])
  }

  class Runtime {
    var frames: seq<map<string, RuntimeValue>>
    var functions: map<string, FnDecl>
    var currentDepth: nat
    var returned: bool
    var returnValue: RuntimeValue
    /** The cognitive phase, `None` for Idle. */
    var phase: Option<nat>
    const sessionLevel: nat
    const profile: Profile
    /** `match_pattern`, the text of an error, and how many turns of a `while` the model follows. */
    const matches: (Pattern, RuntimeValue) -> bool
    const errorText: RuntimeError -> string
    const loopFuel: nat

    constructor (sessionLevel: nat, profile: Profile, matches: (Pattern, RuntimeValue) -> bool,
                 errorText: RuntimeError -> string, loopFuel: nat)
      ensures Valid() && |frames| == 1 && currentDepth == 0 && functions == map[]
    {
      this.sessionLevel, this.profile, this.matches := sessionLevel, profile, matches;
      this.errorText, this.loopFuel := errorText, loopFuel;
      frames, functions, currentDepth := [map[]], map[], 0;
      returned, returnValue, phase := false, RNone, None;
    }

    /** There is a scope to define in, and the depth limit holds. */
    ghost predicate Valid()
      reads this
    {
      frames != [] && currentDepth <= MAX_DEPTH
    }

    /** No registered function contains a try/catch. */
    ghost predicate Clean()
      reads this
    {
      forall f :: f in functions ==> TryFree(functions[f].body)
    }

    /** Whatever happened, errors included: the scopes below the current one are as they were, and depth never drops. */
    twostate predicate Intact()
      reads this
    {
      && Valid() && |frames| >= old(|frames|) && currentDepth >= old(currentDepth)
      && forall i :: 0 <= i < old(|frames|) - 1 ==> frames[i] == old(frames[i])
    }

    /** A run that came back cleanly: scope height and depth are restored. */
    twostate predicate Balanced()
      reads this
    {
      |frames| == old(|frames|) && currentDepth == old(currentDepth) && Clean()
    }

    function World(): Env
      reads this
    {
      Env(functions, profile, matches, loopFuel, sessionLevel, Calls())
    }

    /** Whether calls can be followed: all functions are plain. */
    predicate Calls()
      reads this
    {
      PlainFunctions(functions)
    }

    /** How many calls may still be nested. */
    function Level(): nat
      requires currentDepth <= MAX_DEPTH
      reads this
    {
      MAX_DEPTH - currentDepth
    }

    /** Nothing a program can see has changed. */
    twostate predicate Still()
      reads this
    {
      && frames == old(frames) && functions == old(functions) && currentDepth == old(currentDepth)
      && returned == old(returned) && returnValue == old(returnValue)
    }

    /** The fields show how a statement ended: a return is told by the flag. */
    ghost predicate Shows(f: Flow, below: seq<Frame>, r: Result<RuntimeValue, RuntimeError>)
      reads this
    {
      match f
      case Next(v, top) => r == Ok(v) && frames == below + [top] && !returned
      case Returns(v, top) => r.Ok? && frames == below + [top] && returned && returnValue == v
      case Fails(e) => r == Err(e)
    }

    /** The result of a call or an operand; whether a callee returned stays visible in the flag. */
    ghost predicate Answers(f: Flow, r: Result<RuntimeValue, RuntimeError>)
      reads this
    {
      match f
      case Next(v, _) => r == Ok(v) && !returned
      case Returns(v, _) => r == Ok(v) && returned && returnValue == v
      case Fails(e) => r == Err(e)
    }

    /** Only frames and the return flag have changed; a refused call leaves the depth it had counted. */
    twostate predicate KeepsWorld(ok: bool)
      reads this
    {
      functions == old(functions) && (ok ==> currentDepth == old(currentDepth))
    }

    function Below(): seq<Frame>
      requires frames != []
      reads this
    {
      frames[..|frames| - 1]
    }

    function Innermost(): Frame
      requires frames != []
      reads this
    {
      frames[|frames| - 1]
    }

    // ----- environment -----

    method PushScope()
      requires Valid()
      modifies this`frames
      ensures frames == old(frames) + [map[]]
    {
      frames := frames + [map[]];
    }

    method PopScope()
      modifies this`frames
      ensures frames == if old(frames) == [] then [] else old(frames[..|frames| - 1])
    {
      if frames != [] {
        frames := frames[..|frames| - 1];
      }
    }

    method Define(name: string, value: RuntimeValue)
      requires Valid()
      modifies this`frames
      ensures |frames| == old(|frames|)
      ensures forall i :: 0 <= i < |frames| - 1 ==> frames[i] == old(frames[i])
      ensures frames[|frames| - 1] == old(frames[|frames| - 1])[name := value]
    {
      var top := |frames| - 1;
      frames := frames[top := frames[top][name := value]];
    }

    /** The innermost binding of a name. */
    method Lookup(name: string) returns (v: Option<RuntimeValue>)
      ensures v.None? ==> forall i :: 0 <= i < |frames| ==> name !in frames[i]
      ensures v.Some? ==> exists i :: 0 <= i < |frames| && name in frames[i] && frames[i][name] == v.value
                                      && forall j :: i < j < |frames| ==> name !in frames[j]
      ensures v == Find(frames, name)
    {
      var i := |frames|;
      assert frames[..i] == frames;
      while i > 0
        invariant 0 <= i <= |frames|
        invariant forall j :: i <= j < |frames| ==> name !in frames[j]
        invariant Find(frames[..i], name) == Find(frames, name)
      {
        assert frames[..i][..i - 1] == frames[..i - 1];
        i := i - 1;
        if name in frames[i] {
          return Some(frames[i][name]);
        }
      }
      v := None;
    }

    // ----- calls -----

    method CallByName(name: string, args: seq<RuntimeValue>) returns (r: Result<RuntimeValue, RuntimeError>)
      requires Valid()
      modifies this
      ensures Intact() && |frames| >= old(|frames|) && frames[..old(|frames|)] == old(frames)
      ensures r.Ok? && old(Clean()) ==> Balanced() && frames == old(frames)
      ensures name !in old(functions) ==> r == Err(UndefinedFunction(name)) && Still()
      ensures name in old(functions) && old(Calls()) ==>
                Answers(RunCall(old(World()), old(Level()), old(frames), old(functions)[name], args), r)
      decreases MAX_DEPTH - currentDepth, 2
    {
      if name !in functions {
        return Err(UndefinedFunction(name));
      }
      r := CallFn(functions[name], args);
    }

    static lemma PlainAt(fs: map<string, FnDecl>, f: string)
      requires PlainFunctions(fs) && f in fs
      ensures fs[f].cognitiveLoop.None? && LocalBlock(fs[f].body, true)
    {
    }

    predicate PhaseReached(fn: FnDecl)
      reads this
    {
      fn.cognitiveLoop.Some? && phase.Some? ==> fn.cognitiveLoop.value <= phase.value
    }

    /** Every scope that existed before a call is unchanged after it; a clean return restores height and depth. */
    method CallFn(fn: FnDecl, args: seq<RuntimeValue>) returns (r: Result<RuntimeValue, RuntimeError>)
      requires Valid()
      modifies this
      ensures Intact() && |frames| >= old(|frames|) && frames[..old(|frames|)] == old(frames)
      ensures old(Clean()) && TryFree(fn.body) ==> Clean()
      ensures r.Ok? && old(Clean()) && TryFree(fn.body) ==> Balanced() && frames == old(frames)
      ensures old(currentDepth) == MAX_DEPTH ==> r == Err(CallDepthExceeded) && Still()
      ensures old(currentDepth) < MAX_DEPTH && !old(PhaseReached(fn)) ==> r == Err(Refused)
      ensures old(PhaseReached(fn)) && LocalBlock(fn.body, old(Calls())) ==>
                && KeepsWorld(r.Ok?) && (r.Ok? ==> frames == old(frames))
                && Answers(RunCall(old(World()), old(Level()), old(frames), fn, args), r)
      decreases MAX_DEPTH - currentDepth, 0
    {
      if currentDepth >= MAX_DEPTH {
        return Err(CallDepthExceeded);
      }
      hide TryFree, LocalBlock, RunBlock, PlainFunctions, ArgumentFrame;
      currentDepth := currentDepth + 1;
      assert Valid();
      if fn.cognitiveLoop.Some? && phase.Some? && fn.cognitiveLoop.value > phase.value {
        return Err(Refused);
      }
      if fn.governance.Some? && fn.governance.value > sessionLevel {
        return Err(Refused);
      }
      phase := if fn.cognitiveLoop.Some? then fn.cognitiveLoop else if fn.effectful then Some(3) else Some(1);
      r := CallBody(fn, args);
      currentDepth := currentDepth - 1;
    }

    method CallBody(fn: FnDecl, args: seq<RuntimeValue>) returns (r: Result<RuntimeValue, RuntimeError>)
      requires Valid()
      modifies this
      ensures Intact() && |frames| >= old(|frames|) && frames[..old(|frames|)] == old(frames)
      ensures old(Clean()) && TryFree(fn.body) ==> Clean()
      ensures r.Ok? && old(Clean()) && TryFree(fn.body) ==> Balanced() && frames == old(frames)
      ensures LocalBlock(fn.body, old(Calls())) ==>
                && KeepsWorld(r.Ok?) && (r.Ok? ==> frames == old(frames))
                && Answers(RunBlock(old(World()), old(Level()), old(frames), ArgumentFrame(fn.params, args), fn.body, RNone), r)
      decreases MAX_DEPTH - currentDepth, 1, fn.body, 1
    {
      hide PlainFunctions, TryFree, LocalBlock, RunBlock;
      PushScope();
      var i := 0;
      while i < |fn.params| && i < |args|
        invariant 0 <= i <= |fn.params| && i <= |args|
        invariant frames == old(frames) + [Bindings(fn.params, args, i)]
        invariant currentDepth == old(currentDepth) && functions == old(functions)
      {
        Define(fn.params[i], args[i]);
        i := i + 1;
      }
      label before:
      assert Below() == old(frames) && Innermost() == Bindings(fn.params, args, i);
      r := ExecBlock(fn.body);
      assert forall j :: 0 <= j < old(|frames|) ==> frames[j] == old@before(frames[j]);
      PopScope();
    }

    // ----- statements -----

    method ExecBlock(ss: seq<Stmt>) returns (r: Result<RuntimeValue, RuntimeError>)
      requires Valid()
      modifies this
      ensures Intact() && (old(Clean()) && TryFree(ss) ==> Clean())
      ensures r.Ok? && old(Clean()) && TryFree(ss) ==> Balanced()
      ensures LocalBlock(ss, old(Calls())) ==>
                KeepsWorld(r.Ok?) && Shows(RunBlock(old(World()), old(Level()), old(Below()), old(Innermost()), ss, RNone), old(Below()), r)
      ensures r.Ok? && returned ==> r.value == returnValue
      decreases MAX_DEPTH - currentDepth, 1, ss, 0
    {
      hide PlainFunctions, RunStmt, LocalStmt, TryFreeStmt;
      assert frames == Below() + [Innermost()];
      var last := RNone;
      returned := false;
      returnValue := RNone;
      var i := 0;
      assert ss[0..] == ss;
      while i < |ss|
        invariant 0 <= i <= |ss| && !returned
        invariant Intact() && (old(Clean()) && TryFree(ss) ==> Balanced())
        invariant LocalBlock(ss, old(Calls())) ==>
                    && KeepsWorld(true) && frames == old(Below()) + [Innermost()] && LocalBlock(ss[i..], old(Calls()))
                    && RunBlock(old(World()), old(Level()), old(Below()), old(Innermost()), ss, RNone)
                       == RunBlock(old(World()), old(Level()), old(Below()), Innermost(), ss[i..], last)
      {
        assert ss[i..][0] == ss[i] && ss[i..][1..] == ss[i + 1..];
        r := ExecStmt(ss[i]);
        if r.Err? {
          return;
        }
        last := r.value;
        if returned {
          return Ok(returnValue);
        }
        i := i + 1;
      }
      r := Ok(last);
    }

    /** A block in a scope of its own, which is popped whether or not the block failed. */
    method ExecScoped(ss: seq<Stmt>) returns (r: Result<RuntimeValue, RuntimeError>)
      requires Valid()
      modifies this
      ensures Intact() && (old(Clean()) && TryFree(ss) ==> Clean())
      ensures r.Ok? && old(Clean()) && TryFree(ss) ==> Balanced()
      ensures LocalBlock(ss, old(Calls())) ==>
                && KeepsWorld(r.Ok?)
                && Shows(Inner(RunBlock(old(World()), old(Level()), old(frames), map[], ss, RNone), old(Innermost())), old(Below()), r)
      decreases MAX_DEPTH - currentDepth, 1, ss, 1
    {
      hide PlainFunctions, TryFree, LocalBlock, RunBlock;
      assert frames == Below() + [Innermost()];
      PushScope();
      r := ExecBlock(ss);
      PopScope();
    }

    method ExecStmt(s: Stmt) returns (r: Result<RuntimeValue, RuntimeError>)
      requires Valid()
      modifies this
      ensures Intact() && (old(Clean()) && TryFreeStmt(s) ==> Clean())
      ensures r.Ok? && old(Clean()) && TryFreeStmt(s) ==> Balanced()
      ensures LocalStmt(s, old(Calls())) && !old(returned) ==>
                KeepsWorld(r.Ok?) && Shows(RunStmt(old(World()), old(Level()), old(Below()), old(Innermost()), s), old(Below()), r)
      decreases MAX_DEPTH - currentDepth, 1, s, 2
    {
      assert frames == Below() + [Innermost()];
      hide PlainFunctions, TryFreeExpr, TryFree, Local, LocalBlock, LocalArms, LocalOptional, Valued, Operand, EvalIn,
        TruthIn, ItemsOf, OptionalIn,
        RunValue, RunOperand, RunBlock, RunWhile, RunFor, RunArms, Asserted, Defined, Returned, Inner, Shows;
      match s {
        case Let(name, value) => r := ExecDefine(name, value);
        case Const(name, value) => r := ExecDefine(name, value);
        case Return(value) => r := ExecReturn(value);
        case If(condition, thenBody, elseBody) => r := ExecIf(condition, thenBody, elseBody);
        case While(condition, body) => r := ExecWhile(condition, body);
        case For(name, iterable, body) => r := ExecFor(name, iterable, body);
        case Match(target, arms) => r := ExecMatch(target, arms);
        case Spawn(decl) =>
          functions := functions[decl.name := decl.(cognitiveLoop := None, governance := None)];
          r := Ok(RNone);
        case TryCatch(tryBody, catchParam, catchBody) => r := ExecTry(tryBody, catchParam, catchBody);
        case Assert(condition, message) => r := ExecAssert(condition, message);
        case ExprStmt(e) => r := ExecExpr(e);
        case Fn(_) => r := Skip();
        case Declaration(_) => r := Skip();
      }
    }

    method Skip() returns (r: Result<RuntimeValue, RuntimeError>)
      requires Valid()
      ensures r == Ok(RNone) && (!returned ==> Shows(Next(RNone, Innermost()), Below(), r))
    {
      assert frames == Below() + [Innermost()];
      r := Ok(RNone);
    }

    method ExecReturn(value: Option<Expr>) returns (r: Result<RuntimeValue, RuntimeError>)
      requires Valid()
      modifies this
      ensures Intact() && (old(Clean()) && (value.Some? ==> TryFreeExpr(value.value)) ==> Clean())
      ensures r.Ok? && old(Clean()) && (value.Some? ==> TryFreeExpr(value.value)) ==> Balanced()
      ensures Valued(value, old(Calls())) && !old(returned) ==>
                && KeepsWorld(r.Ok?)
                && Shows(Returned(RunValue(old(World()), old(Level()), old(frames), value), old(Innermost())), old(Below()), r)
      decreases MAX_DEPTH - currentDepth, 1, value, 1
    {
      hide PlainFunctions, TryFreeExpr, Valued, RunValue;
      assert frames == Below() + [Innermost()];
      r := EvalOptional(value);
      if r.Ok? {
        returned, returnValue := true, r.value;
      }
    }

    method ExecExpr(e: Expr) returns (r: Result<RuntimeValue, RuntimeError>)
      requires Valid()
      modifies this
      ensures Intact() && (old(Clean()) && TryFreeExpr(e) ==> Clean())
      ensures r.Ok? && old(Clean()) && TryFreeExpr(e) ==> Balanced()
      ensures Operand(e, old(Calls())) && !old(returned) ==>
                && KeepsWorld(r.Ok?)
                && Shows(Inner(RunOperand(old(World()), old(Level()), old(frames), e), old(Innermost())), old(Below()), r)
      decreases MAX_DEPTH - currentDepth, 1, e, 3
    {
      hide PlainFunctions, TryFreeExpr, Local, LocalCall, EvalIn, CallFlow;
      assert frames == Below() + [Innermost()];
      r := EvalExpr(e);
    }

    method ExecIf(condition: Expr, thenBody: seq<Stmt>, elseBody: seq<Stmt>) returns (r: Result<RuntimeValue, RuntimeError>)
      requires Valid()
      modifies this
      ensures Intact()
      ensures old(Clean()) && TryFreeExpr(condition) && TryFree(thenBody) && TryFree(elseBody) ==> Clean() && (r.Ok? ==> Balanced())
      ensures Local(condition) && LocalBlock(thenBody, old(Calls())) && LocalBlock(elseBody, old(Calls())) && !old(returned) ==>
                var b := TruthIn(EvalIn(old(World()), old(frames), condition));
                && KeepsWorld(r.Ok?)
                && if b.Err? then r == Err(b.error)
                   else Shows(Inner(RunBlock(old(World()), old(Level()), old(frames), map[],
                                             if b.value then thenBody else elseBody, RNone), old(Innermost())),
                              old(Below()), r)
      decreases MAX_DEPTH - currentDepth, 1, If(condition, thenBody, elseBody), 0
    {
      hide PlainFunctions, TryFreeExpr, TryFree, Local, LocalBlock, EvalIn, RunBlock, TruthIn;
      var c := EvalCondition(condition);
      if c.Err? {
        return Err(c.error);
      }
      if c.value {
        r := ExecScoped(thenBody);
      } else {
        r := ExecScoped(elseBody);
      }
    }

    method ExecDefine(name: string, value: Option<Expr>) returns (r: Result<RuntimeValue, RuntimeError>)
      requires Valid()
      modifies this
      ensures Intact() && (old(Clean()) && (value.Some? ==> TryFreeExpr(value.value)) ==> Clean())
      ensures r.Ok? && old(Clean()) && (value.Some? ==> TryFreeExpr(value.value)) ==> Balanced()
      ensures Valued(value, old(Calls())) && !old(returned) ==>
                && KeepsWorld(r.Ok?)
                && Shows(Defined(RunValue(old(World()), old(Level()), old(frames), value), old(Innermost()), name), old(Below()), r)
      decreases MAX_DEPTH - currentDepth, 1, value, 1
    {
      hide PlainFunctions;
      assert frames == Below() + [Innermost()];
      r := EvalOptional(value);
      if r.Ok? {
        Define(name, r.value);
        r := Ok(RNone);
      }
    }

    method EvalOptional(value: Option<Expr>) returns (r: Result<RuntimeValue, RuntimeError>)
      requires Valid()
      modifies this
      ensures Intact() && (old(Clean()) && (value.Some? ==> TryFreeExpr(value.value)) ==> Clean())
      ensures r.Ok? && old(Clean()) && (value.Some? ==> TryFreeExpr(value.value)) ==> Balanced()
      ensures LocalOptional(value) ==> Still() && r == OptionalIn(World(), frames, value)
      ensures Valued(value, old(Calls())) && !old(returned) ==>
                && KeepsWorld(r.Ok?) && (r.Ok? ==> frames == old(frames))
                && Answers(RunValue(old(World()), old(Level()), old(frames), value), r)
      decreases MAX_DEPTH - currentDepth, 1, value, 0
    {
      hide PlainFunctions;
      if value.Some? {
        r := EvalExpr(value.value);
      } else {
        r := Ok(RNone);
      }
    }

    method EvalCondition(e: Expr) returns (r: Result<bool, RuntimeError>)
      requires Valid()
      modifies this
      ensures Intact() && (old(Clean()) && TryFreeExpr(e) ==> Clean())
      ensures r.Ok? && old(Clean()) && TryFreeExpr(e) ==> Balanced()
      ensures Local(e) ==> Still() && r == TruthIn(EvalIn(World(), frames, e))
      decreases MAX_DEPTH - currentDepth, 1, e, 3
    {
      hide PlainFunctions;
      var v := EvalExpr(e);
      if v.Err? {
        return Err(v.error);
      }
      r := AsBool(v.value);
    }

    method ExecWhile(condition: Expr, body: seq<Stmt>) returns (r: Result<RuntimeValue, RuntimeError>)
      requires Valid()
      modifies this
      ensures Intact()
      ensures old(Clean()) && TryFreeExpr(condition) && TryFree(body) ==> Clean() && (r.Ok? ==> Balanced())
      ensures Local(condition) && LocalBlock(body, old(Calls())) && !old(returned) ==>
                && KeepsWorld(r.Ok?)
                && Shows(RunWhile(old(World()), old(Level()), old(Below()), old(Innermost()), condition, body, loopFuel), old(Below()), r)
      decreases MAX_DEPTH - currentDepth, 1, While(condition, body), 1
    {
      hide PlainFunctions, TryFreeExpr, TryFree, Local, LocalBlock, Turn, Clean, Shows, World, Below, Innermost;
      ghost var env, level, below, top := World(), Level(), Below(), Innermost();
      WorldIsSound();
      ghost var clean := Clean() && TryFreeExpr(condition) && TryFree(body);
      ghost var local := Local(condition) && LocalBlock(body, old(Calls())) && !returned;
      ghost var whole := if local then RunWhile(env, level, below, top, condition, body, loopFuel) else Fails(OutOfFuel);
      var fuel: nat, again := loopFuel, true;
      r := Ok(RNone);
      while again
        invariant Intact()
        invariant clean ==> Clean() && (r.Ok? ==> Balanced())
        invariant again ==> r.Ok?
        invariant local ==> KeepsWorld(r.Ok?)
        invariant local && again ==> frames == old(frames) && !returned
        invariant local && again ==> whole == RunWhile(env, level, below, top, condition, body, fuel)
        invariant local && !again ==> Shows(whole, below, r)
        decreases again, fuel
      {
        if local {
          SameWorld();
        }
        if fuel == 0 {
          again, r := false, Err(OutOfFuel);
          FailureShows(OutOfFuel, below);
        } else {
          fuel := fuel - 1;
          again, r := ExecTurn(condition, body);
        }
      }
    }

    lemma WorldIsSound()
      ensures Sound(World()) && World().calls == Calls()
    {
    }

    twostate lemma SameWorld()
      requires frames != [] && functions == old(functions) && frames == old(frames)
      ensures World() == old(World()) && Below() == old(Below()) && Innermost() == old(Innermost())
    {
    }

    lemma FailureShows(e: RuntimeError, below: seq<Frame>)
      ensures Shows(Fails(e), below, Err(e))
    {
    }

    /** One turn of the loop, the condition included. */
    method ExecTurn(condition: Expr, body: seq<Stmt>) returns (again: bool, r: Result<RuntimeValue, RuntimeError>)
      requires Valid()
      modifies this
      ensures Intact() && (again ==> r.Ok?)
      ensures old(Clean()) && TryFreeExpr(condition) && TryFree(body) ==> Clean() && (r.Ok? ==> Balanced())
      ensures Local(condition) && LocalBlock(body, old(Calls())) && !old(returned) ==>
                var (more, f) := Turn(old(World()), old(Level()), old(Below()), old(Innermost()), condition, body);
                && KeepsWorld(r.Ok?) && again == more
                && Shows(f, old(Below()), r)
                && (again ==> frames == old(frames) && !returned)
      decreases MAX_DEPTH - currentDepth, 1, While(condition, body), 0
    {
      hide PlainFunctions, TryFreeExpr, TryFree, Local, LocalBlock, EvalIn, TruthIn, RunBlock, AsBool;
      assert frames == Below() + [Innermost()];
      var c := EvalCondition(condition);
      if c.Err? {
        return false, Err(c.error);
      }
      if !c.value {
        return false, Ok(RNone);
      }
      r := ExecBody(map[], body);
      again := r.Ok? && !returned;
      if r.Ok? && returned {
        r := Ok(returnValue);
      }
    }

    /** A loop body in a scope of its own; if it fails its scope stays behind: the error is passed on before the pop. */
    method ExecBody(scope: Frame, body: seq<Stmt>) returns (r: Result<RuntimeValue, RuntimeError>)
      requires Valid()
      modifies this
      ensures Intact()
      ensures old(Clean()) && TryFree(body) ==> Clean() && (r.Ok? ==> Balanced())
      ensures LocalBlock(body, old(Calls())) ==>
                && KeepsWorld(r.Ok?)
                && Shows(Inner(RunBlock(old(World()), old(Level()), old(frames), scope, body, RNone), old(Innermost())), old(Below()), r)
      decreases MAX_DEPTH - currentDepth, 1, body, 1
    {
      hide PlainFunctions, TryFree, LocalBlock, RunBlock;
      assert frames == Below() + [Innermost()];
      frames := frames + [scope];
      assert Below() == old(frames) && Innermost() == scope;
      r := ExecBlock(body);
      if r.Ok? {
        PopScope();
      }
    }

    method ExecFor(name: string, iterable: Expr, body: seq<Stmt>) returns (r: Result<RuntimeValue, RuntimeError>)
      requires Valid()
      modifies this
      ensures Intact()
      ensures old(Clean()) && TryFreeExpr(iterable) && TryFree(body) ==> Clean() && (r.Ok? ==> Balanced())
      ensures Local(iterable) && LocalBlock(body, old(Calls())) && !old(returned) ==>
                var items := ItemsOf(EvalIn(old(World()), old(frames), iterable));
                && KeepsWorld(r.Ok?)
                && if items.Err? then r == Err(items.error)
                   else Shows(RunFor(old(World()), old(Level()), old(Below()), old(Innermost()), name, items.value, body), old(Below()), r)
      decreases MAX_DEPTH - currentDepth, 1, For(name, iterable, body), 0
    {
      hide PlainFunctions, TryFreeExpr, TryFree, Local, LocalBlock, EvalIn, RunFor;
      r := EvalExpr(iterable);
      if r.Err? {
        return;
      }
      var items := ItemsOf(r);
      if items.Err? {
        return Err(items.error);
      }
      r := ExecEach(name, items.value, body);
    }

    method ExecEach(name: string, items: seq<RuntimeValue>, body: seq<Stmt>) returns (r: Result<RuntimeValue, RuntimeError>)
      requires Valid()
      modifies this
      ensures Intact()
      ensures old(Clean()) && TryFree(body) ==> Clean() && (r.Ok? ==> Balanced())
      ensures LocalBlock(body, old(Calls())) && !old(returned) ==>
                && KeepsWorld(r.Ok?)
                && Shows(RunFor(old(World()), old(Level()), old(Below()), old(Innermost()), name, items, body), old(Below()), r)
      decreases MAX_DEPTH - currentDepth, 1, body, 2
    {
      hide PlainFunctions, TryFree, LocalBlock, RunBlock;
      assert frames == Below() + [Innermost()];
      var i := 0;
      assert items[0..] == items;
      while i < |items|
        invariant 0 <= i <= |items|
        invariant Intact()
        invariant old(Clean()) && TryFree(body) ==> Balanced()
        invariant LocalBlock(body, old(Calls())) && !old(returned) ==>
                    && KeepsWorld(true) && frames == old(frames) && !returned
                    && RunFor(old(World()), old(Level()), old(Below()), old(Innermost()), name, items, body)
                       == RunFor(old(World()), old(Level()), old(Below()), old(Innermost()), name, items[i..], body)
      {
        assert items[i..][0] == items[i] && items[i..][1..] == items[i + 1..];
        r := ExecBody(map[name := items[i]], body);
        if r.Err? {
          return;
        }
        if returned {
          return Ok(returnValue);
        }
        i := i + 1;
      }
      r := Ok(RNone);
    }

    /** How a match goes on once an arm, if any, is selected. */
    static function Chosen(env: Env, level: nat, frames: seq<Frame>, arms: seq<MatchArm>, r: Result<Option<nat>, RuntimeError>): Flow
      requires Sound(env) && frames != [] && LocalArms(arms, env.calls) && (r.Ok? && r.value.Some? ==> r.value.value < |arms|)
    {
      var top := frames[|frames| - 1];
      if r.Err? then Fails(r.error)
      else if r.value.None? then Next(RNone, top)
      else
        LocalArmAt(arms, r.value.value, env.calls);
        Inner(RunBlock(env, level, frames, map[], arms[r.value.value].body, RNone), top)
    }

    static lemma {:induction false} LocalArmAt(arms: seq<MatchArm>, k: nat, calls: bool)
      requires LocalArms(arms, calls) && k < |arms|
      ensures LocalBlock(arms[k].body, calls) && LocalOptional(arms[k].guard)
    {
      if k > 0 {
        LocalArmAt(arms[1..], k - 1, calls);
      }
    }

    /** The first arm whose pattern matches and whose guard, if any, holds. */
    method GuardHolds(guard: Option<Expr>) returns (r: Result<bool, RuntimeError>)
      requires Valid()
      modifies this
      ensures Intact() && (old(Clean()) && (guard.Some? ==> TryFreeExpr(guard.value)) ==> Clean())
      ensures r.Ok? && old(Clean()) && (guard.Some? ==> TryFreeExpr(guard.value)) ==> Balanced()
      ensures LocalOptional(guard) ==> Still() && r == GuardIn(World(), frames, guard)
      decreases MAX_DEPTH - currentDepth, 1, guard, 0
    {
      hide PlainFunctions, TryFreeExpr, Local, EvalIn, AsBool;
      r := Ok(true);
      if guard.Some? {
        r := EvalCondition(guard.value);
      }
    }

    method SelectArm(value: RuntimeValue, arms: seq<MatchArm>) returns (r: Result<Option<nat>, RuntimeError>)
      requires Valid()
      modifies this
      ensures Intact() && (old(Clean()) && TryFreeArms(arms) ==> Clean())
      ensures r.Ok? && old(Clean()) && TryFreeArms(arms) ==> Balanced()
      ensures r.Ok? && r.value.Some? ==> r.value.value < |arms| && matches(arms[r.value.value].pattern, value)
      ensures LocalArms(arms, old(Calls())) ==>
                && Still()
                && RunArms(World(), Level(), Below(), Innermost(), value, arms) == Chosen(World(), Level(), frames, arms, r)
      decreases MAX_DEPTH - currentDepth, 1, arms, 0
    {
      hide PlainFunctions, Local, LocalBlock, EvalIn, RunBlock, TryFree, TryFreeExpr, AsBool, RunStmt, RunOperand, CallFlow, GuardIn, TruthIn;
      assert frames == Below() + [Innermost()];
      var i := 0;
      assert arms[0..] == arms;
      while i < |arms|
        invariant 0 <= i <= |arms|
        invariant Intact() && (old(Clean()) && TryFreeArms(arms) ==> Balanced())
        invariant LocalArms(arms, old(Calls())) ==>
                    && Still() && LocalArms(arms[i..], old(Calls()))
                    && RunArms(World(), Level(), Below(), Innermost(), value, arms)
                       == RunArms(World(), Level(), Below(), Innermost(), value, arms[i..])
      {
        assert arms[i..][0] == arms[i] && arms[i..][1..] == arms[i + 1..];
        if matches(arms[i].pattern, value) {
          var c := GuardHolds(arms[i].guard);
          if c.Err? {
            return Err(c.error);
          }
          if c.value {
            return Ok(Some(i));
          }
        }
        i := i + 1;
      }
      r := Ok(None);
    }

    method ExecMatch(target: Expr, arms: seq<MatchArm>) returns (r: Result<RuntimeValue, RuntimeError>)
      requires Valid()
      modifies this
      ensures Intact()
      ensures old(Clean()) && TryFreeExpr(target) && TryFreeArms(arms) ==> Clean() && (r.Ok? ==> Balanced())
      ensures Local(target) && LocalArms(arms, old(Calls())) && !old(returned) ==>
                var v := EvalIn(old(World()), old(frames), target);
                && KeepsWorld(r.Ok?)
                && if v.Err? then r == v
                   else Shows(RunArms(old(World()), old(Level()), old(Below()), old(Innermost()), v.value, arms), old(Below()), r)
      decreases MAX_DEPTH - currentDepth, 1, Match(target, arms), 0
    {
      hide PlainFunctions, TryFreeExpr, TryFree, Local, LocalBlock, LocalArms, LocalOptional, EvalIn, RunBlock, RunArms;
      r := EvalExpr(target);
      if r.Err? {
        return;
      }
      r := ExecArms(r.value, arms);
    }

    method ExecArms(value: RuntimeValue, arms: seq<MatchArm>) returns (r: Result<RuntimeValue, RuntimeError>)
      requires Valid()
      modifies this
      ensures Intact()
      ensures old(Clean()) && TryFreeArms(arms) ==> Clean() && (r.Ok? ==> Balanced())
      ensures LocalArms(arms, old(Calls())) && !old(returned) ==>
                && KeepsWorld(r.Ok?)
                && Shows(RunArms(old(World()), old(Level()), old(Below()), old(Innermost()), value, arms), old(Below()), r)
      decreases MAX_DEPTH - currentDepth, 1, arms, 1
    {
      hide PlainFunctions, TryFree, TryFreeExpr, LocalBlock, LocalArms, LocalOptional, RunBlock, RunArms, EvalIn, TruthIn;
      assert frames == Below() + [Innermost()];
      var arm := SelectArm(value, arms);
      if arm.Err? {
        return Err(arm.error);
      }
      if arm.value.None? {
        return Ok(RNone);
      }
      if LocalArms(arms, old(Calls())) {
        LocalArmAt(arms, arm.value.value, old(Calls()));
      }
      r := ExecScoped(arms[arm.value.value].body);
    }

    /** A caught error keeps the scopes and the depth it leaked. */
    method ExecTry(tryBody: seq<Stmt>, catchParam: Option<string>, catchBody: seq<Stmt>)
      returns (r: Result<RuntimeValue, RuntimeError>)
      requires Valid()
      modifies this
      ensures Intact()
      decreases MAX_DEPTH - currentDepth, 1, TryCatch(tryBody, catchParam, catchBody), 0
    {
      r := ExecScoped(tryBody);
      if r.Ok? {
        return;
      }
      PushScope();
      if catchParam.Some? {
        Define(catchParam.value, RString(errorText(r.error)));
      }
      r := ExecBlock(catchBody);
      PopScope();
    }

    method ExecAssert(condition: Expr, message: Option<Expr>) returns (r: Result<RuntimeValue, RuntimeError>)
      requires Valid()
      modifies this
      ensures Intact()
      ensures old(Clean()) && TryFreeExpr(condition) && (message.Some? ==> TryFreeExpr(message.value)) ==>
                Clean() && (r.Ok? ==> Balanced())
      ensures Local(condition) && LocalOptional(message) && !old(returned) ==>
                && KeepsWorld(r.Ok?)
                && Shows(Asserted(TruthIn(EvalIn(old(World()), old(frames), condition)), OptionalIn(old(World()), old(frames), message),
                                  old(Innermost())),
                         old(Below()), r)
      decreases MAX_DEPTH - currentDepth, 1, Assert(condition, message), 0
    {
      hide PlainFunctions, TryFreeExpr, Local, EvalIn;
      assert frames == Below() + [Innermost()];
      var c := EvalCondition(condition);
      if c.Err? {
        return Err(c.error);
      }
      if c.value {
        return Ok(RNone);
      }
      if message.Some? {
        r := EvalExpr(message.value);
        if r.Err? {
          return;
        }
      }
      r := Err(AssertionFailed);
    }

    // ----- expressions -----

    /** An expression without calls evaluates to what it means, and nothing else changes. */
    method EvalExpr(e: Expr) returns (r: Result<RuntimeValue, RuntimeError>)
      requires Valid()
      modifies this
      ensures Intact() && (old(Clean()) && TryFreeExpr(e) ==> Clean())
      ensures r.Ok? && old(Clean()) && TryFreeExpr(e) ==> Balanced()
      ensures Local(e) ==> Still() && r == EvalIn(World(), frames, e)
      ensures old(Calls()) && LocalCall(e) ==>
                && KeepsWorld(r.Ok?) && (r.Ok? ==> frames == old(frames))
                && Answers(CallFlow(old(World()), old(Level()), old(frames), e), r)
      decreases MAX_DEPTH - currentDepth, 1, e, 2
    {
      hide PlainFunctions;
      match e {
        case IntLiteral(n) => r := Ok(RInt(n));
        case StringLiteral(s) => r := Ok(RString(s));
        case BoolLiteral(b) => r := Ok(RBool(b));
        case CharLiteral(c) => r := Ok(RChar(c));
        case Ident(name) =>
          var v := Lookup(name);
          if v.Some? {
            r := Ok(v.value);
          } else if name in functions {
            r := Ok(RFunc(name));
          } else {
            r := Err(UndefinedVariable(name));
          }
        case BinaryOp(l, op, r2) => r := EvalBinary(e);
        case UnaryOp(op, operand) =>
          r := EvalExpr(operand);
          if r.Ok? {
            r := EvalUnaryOp(op, r.value, profile);
          }
        case Call(_, _) => r := EvalCall(e);
        case MemberAccess(_, _) => r := EvalMember(e);
        case Index(_, _) => r := EvalIndex(e);
        case Pipe(_, _) => r := EvalPipe(e);
        case Range(_, _, _) => r := EvalRange(e);
        case Array(items) =>
          var vs := EvalArgs(items);
          r := if vs.Ok? then Ok(RArray(vs.value)) else Err(vs.error);
        case OptionValue(_, _) => r := EvalWrapped(e);
        case ResultValue(_, _, _) => r := EvalWrapped(e);
        case IfExpr(_, _, _) => r := EvalIf(e);
        case MatchExpr(_, _) => r := EvalMatch(e);
      }
    }

    method EvalIf(e: Expr) returns (r: Result<RuntimeValue, RuntimeError>)
      requires e.IfExpr? && Valid()
      modifies this
      ensures Intact() && (old(Clean()) && TryFreeExpr(e) ==> Clean())
      ensures r.Ok? && old(Clean()) && TryFreeExpr(e) ==> Balanced()
      ensures Local(e) ==> Still() && r == EvalIn(World(), frames, e)
      decreases MAX_DEPTH - currentDepth, 1, e, 1
    {
      hide PlainFunctions;
      var v := EvalExpr(e.cond);
      if v.Err? {
        return v;
      }
      var b := AsBool(v.value);
      if b.Err? {
        return Err(b.error);
      }
      if b.value {
        r := EvalExpr(e.thn);
      } else {
        r := EvalExpr(e.els);
      }
    }

    method EvalBinary(e: Expr) returns (r: Result<RuntimeValue, RuntimeError>)
      requires e.BinaryOp? && Valid()
      modifies this
      ensures Intact() && (old(Clean()) && TryFreeExpr(e) ==> Clean())
      ensures r.Ok? && old(Clean()) && TryFreeExpr(e) ==> Balanced()
      ensures Local(e) ==> Still() && r == EvalIn(World(), frames, e)
      decreases MAX_DEPTH - currentDepth, 1, e, 1
    {
      hide PlainFunctions;
      var a := EvalExpr(e.left);
      if a.Err? {
        return a;
      }
      var b := EvalExpr(e.right);
      if b.Err? {
        return b;
      }
      r := EvalBinaryOp(a.value, e.op, b.value, profile);
    }

    method EvalArgs(es: seq<Expr>) returns (r: Result<seq<RuntimeValue>, RuntimeError>)
      requires Valid()
      modifies this
      ensures Intact() && (old(Clean()) && TryFreeExprs(es) ==> Clean())
      ensures r.Ok? && old(Clean()) && TryFreeExprs(es) ==> Balanced()
      ensures LocalAll(es) ==> Still() && r == EvalAllIn(World(), frames, es)
      decreases MAX_DEPTH - currentDepth, 1, es, 0
    {
      hide PlainFunctions, TryFreeExpr, Local, EvalIn;
      var vs: seq<RuntimeValue> := [];
      assert es[0..] == es;
      if LocalAll(es) {
        PrependNothing(EvalAllIn(World(), frames, es));
      }
      var i := 0;
      while i < |es|
        invariant 0 <= i <= |es|
        invariant Intact() && (old(Clean()) && TryFreeExprs(es) ==> Balanced())
        invariant LocalAll(es) ==>
                    && LocalAll(es[i..]) && Still()
                    && EvalAllIn(World(), frames, es) == Prepend(vs, EvalAllIn(World(), frames, es[i..]))
      {
        assert es[i..][0] == es[i] && es[i..][1..] == es[i + 1..];
        var v := EvalExpr(es[i]);
        if v.Err? {
          return Err(v.error);
        }
        ghost var rest := if LocalAll(es) then EvalAllIn(World(), frames, es[i + 1..]) else Ok([]);
        assert LocalAll(es) && rest.Ok? ==> (vs + [v.value]) + rest.value == vs + ([v.value] + rest.value);
        vs := vs + [v.value];
        i := i + 1;
      }
      assert vs + [] == vs;
      r := Ok(vs);
    }

    static function Prepend(vs: seq<RuntimeValue>, r: Result<seq<RuntimeValue>, RuntimeError>): Result<seq<RuntimeValue>, RuntimeError> {
      if r.Ok? then Ok(vs + r.value) else r
    }

    static lemma PrependNothing(r: Result<seq<RuntimeValue>, RuntimeError>)
      ensures Prepend([], r) == r
    {
      if r.Ok? {
        assert [] + r.value == r.value;
      }
    }

    method EvalCall(e: Expr) returns (r: Result<RuntimeValue, RuntimeError>)
      requires e.Call? && Valid()
      modifies this
      ensures Intact() && (old(Clean()) && TryFreeExpr(e) ==> Clean())
      ensures r.Ok? && old(Clean()) && TryFreeExpr(e) ==> Balanced()
      ensures old(Calls()) && LocalCall(e) ==>
                && KeepsWorld(r.Ok?) && (r.Ok? ==> frames == old(frames))
                && Answers(CallFlow(old(World()), old(Level()), old(frames), e), r)
      decreases MAX_DEPTH - currentDepth, 1, e, 1
    {
      hide PlainFunctions;
      var f := EvalExpr(e.func);
      if f.Err? {
        return f;
      }
      var name;
      match f.value {
        case RFunc(n) => name := n;
        case RString(n) => name := n;
        case _ => return Err(TypeMismatch);
      }
      var args := EvalArgs(e.args);
      if args.Err? {
        return Err(args.error);
      }
      if name !in functions {
        return Err(UndefinedFunction(name));
      }
      if Calls() {
        PlainAt(functions, name);
      }
      r := CallFn(functions[name], args.value);
    }

    method EvalMember(e: Expr) returns (r: Result<RuntimeValue, RuntimeError>)
      requires e.MemberAccess? && Valid()
      modifies this
      ensures Intact() && (old(Clean()) && TryFreeExpr(e) ==> Clean())
      ensures r.Ok? && old(Clean()) && TryFreeExpr(e) ==> Balanced()
      ensures Local(e) ==> Still() && r == EvalIn(World(), frames, e)
      decreases MAX_DEPTH - currentDepth, 1, e, 1
    {
      hide PlainFunctions;
      r := EvalExpr(e.obj);
      if r.Err? {
        return;
      }
      if !r.value.RStruct? {
        return Err(TypeMismatch);
      }
      var fields := r.value.fields;
      assert fields[0..] == fields;
      for i := 0 to |fields|
        invariant FieldIn(fields[i..], e.member) == FieldIn(fields, e.member)
      {
        assert fields[i..][0] == fields[i] && fields[i..][1..] == fields[i + 1..];
        if fields[i].key == e.member {
          return Ok(fields[i].value);
        }
      }
      r := Err(MissingField(e.member));
    }

    /** A negative index becomes a huge `usize`, so it is out of bounds too. */
    method EvalIndex(e: Expr) returns (r: Result<RuntimeValue, RuntimeError>)
      requires e.Index? && Valid()
      modifies this
      ensures Intact() && (old(Clean()) && TryFreeExpr(e) ==> Clean())
      ensures r.Ok? && old(Clean()) && TryFreeExpr(e) ==> Balanced()
      ensures Local(e) ==> Still() && r == EvalIn(World(), frames, e)
      decreases MAX_DEPTH - currentDepth, 1, e, 1
    {
      hide PlainFunctions;
      var a := EvalExpr(e.arr);
      if a.Err? {
        return a;
      }
      var i := EvalExpr(e.index);
      if i.Err? {
        return i;
      }
      if !a.value.RArray? || !i.value.RInt? {
        return Err(TypeMismatch);
      }
      if 0 <= i.value.n < |a.value.items| {
        r := Ok(a.value.items[i.value.n]);
      } else {
        r := Err(IndexOutOfBounds);
      }
    }

    /** `map`, `filter` and `fold` call the function their argument names, every other stage its own name. */
    method EvalPipe(e: Expr) returns (r: Result<RuntimeValue, RuntimeError>)
      requires e.Pipe? && Valid()
      modifies this
      ensures Intact() && (old(Clean()) && TryFreeExpr(e) ==> Clean())
      ensures r.Ok? && old(Clean()) && TryFreeExpr(e) ==> Balanced()
      decreases MAX_DEPTH - currentDepth, 1, e, 1
    {
      hide PlainFunctions;
      r := EvalExpr(e.input);
      if r.Err? {
        return;
      }
      var i := 0;
      while i < |e.stages|
        invariant 0 <= i <= |e.stages| && r.Ok?
        invariant Intact() && (old(Clean()) && TryFreeExpr(e) ==> Balanced())
      {
        var name := StageTarget(e.stages[i]);
        if name.None? || name.value !in functions {
          return Err(UndefinedFunction(e.stages[i].fn));
        }
        r := CallFn(functions[name.value], [r.value]);
        if r.Err? {
          return;
        }
        i := i + 1;
      }
    }

    /** The debug text of any other argument names no function. */
    static function StageTarget(s: Stage): Option<string> {
      if s.fn in {"map", "filter", "fold"} then
        match s.arg
        case Ident(name) => Some(name)
        case StringLiteral(name) => Some(name)
        case _ => None
      else Some(s.fn)
    }

    method EvalRange(e: Expr) returns (r: Result<RuntimeValue, RuntimeError>)
      requires e.Range? && Valid()
      modifies this
      ensures Intact() && (old(Clean()) && TryFreeExpr(e) ==> Clean())
      ensures r.Ok? && old(Clean()) && TryFreeExpr(e) ==> Balanced()
      ensures Local(e) ==> Still() && r == EvalIn(World(), frames, e)
      decreases MAX_DEPTH - currentDepth, 1, e, 1
    {
      hide PlainFunctions;
      var a := EvalExpr(e.start);
      if a.Err? {
        return a;
      }
      var b := EvalExpr(e.end);
      if b.Err? {
        return b;
      }
      if !a.value.RInt? || !b.value.RInt? {
        return Err(TypeMismatch);
      }
      r := Ok(RArray(RangeValues(a.value.n, if e.inclusive then b.value.n + 1 else b.value.n)));
    }

    method EvalWrapped(e: Expr) returns (r: Result<RuntimeValue, RuntimeError>)
      requires (e.OptionValue? || e.ResultValue?) && Valid()
      modifies this
      ensures Intact() && (old(Clean()) && TryFreeExpr(e) ==> Clean())
      ensures r.Ok? && old(Clean()) && TryFreeExpr(e) ==> Balanced()
      ensures Local(e) ==> Still() && r == EvalIn(World(), frames, e)
      decreases MAX_DEPTH - currentDepth, 1, e, 1
    {
      hide PlainFunctions;
      var inner := if e.OptionValue? then (if e.isSome then e.payload else None)
                   else if e.isOk then e.okValue else e.errValue;
      var v: Option<RuntimeValue> := None;
      if inner.Some? {
        r := EvalExpr(inner.value);
        if r.Err? {
          return;
        }
        v := Some(r.value);
      }
      r := Ok(if e.OptionValue? then ROption(e.isSome, v)
              else if e.isOk then RResult(true, v, None) else RResult(false, None, v));
    }

    /** The arm's statements run without a scope of their own. */
    method EvalMatch(e: Expr) returns (r: Result<RuntimeValue, RuntimeError>)
      requires e.MatchExpr? && Valid()
      modifies this
      ensures Intact() && (old(Clean()) && TryFreeExpr(e) ==> Clean())
      ensures r.Ok? && old(Clean()) && TryFreeExpr(e) ==> Balanced()
      decreases MAX_DEPTH - currentDepth, 1, e, 1
    {
      hide PlainFunctions;
      r := EvalExpr(e.target);
      if r.Err? {
        return;
      }
      var arm := SelectArm(r.value, e.arms);
      if arm.Err? {
        return Err(arm.error);
      }
      r := Ok(RNone);
      if arm.value.None? {
        return;
      }
      var body := e.arms[arm.value.value].body;
      assert TryFreeArms(e.arms) ==> TryFree(body);
      var i := 0;
      while i < |body|
        invariant 0 <= i <= |body| && r.Ok?
        invariant Intact() && (old(Clean()) && TryFreeExpr(e) ==> Balanced())
      {
        r := ExecStmt(body[i]);
        if r.Err? {
          return;
        }
        i := i + 1;
      }
    }
  }
}
