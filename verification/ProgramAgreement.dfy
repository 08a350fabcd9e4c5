/** Whole programs on the machine against the same programs in the interpreter. */
module ProgramAgreement {
  import opened Prelude
  import opened Ast
  import opened Bytecode
  import opened VirtualMachine
  import opened CompilerCorrectness
  import opened ProgramCorrectness
  import RV = RuntimeValues
  import BC = BytecodeCompiler
  import LP = LocalPrograms

  /** An operand both sides give a value to. */
  predicate Evaluates(value: Option<Expr>, p: Profile) {
    value.Some? ==> RV.Closed(value.value) && Simple(value.value) && NoEmptyCondition(value.value, p) && RV.Eval(value.value, p).Ok?
  }

  function OperandOf(s: Stmt): Option<Expr> {
    match s
    case Let(_, value) => value
    case Const(_, value) => value
    case Return(value) => value
    case ExprStmt(e) => Some(e)
    case _ => None
  }

  /** Definitions, expressions, returns and declarations whose operands have values, as far as the program runs. */
  predicate Runs(ss: seq<Stmt>, p: Profile) {
    ss == [] ||
    (&& (ss[0].Let? || ss[0].Const? || ss[0].Return? || ss[0].ExprStmt? || ss[0].Fn? || ss[0].Declaration?)
     && Evaluates(OperandOf(ss[0]), p)
     && (ss[0].Return? || Runs(ss[1..], p)))
  }

  /** The statements up to the first Return, it included. */
  function Reached(ss: seq<Stmt>): seq<Stmt> {
    if ss == [] then [] else if ss[0].Return? then [ss[0]] else [ss[0]] + Reached(ss[1..])
  }

  /** Whether the machine ends with a value on its stack other than None, if it had one or not before. */
  predicate Holds(ss: seq<Stmt>, before: bool) {
    if ss == [] then before
    else
      Holds(ss[1..], match ss[0] case ExprStmt(_) => true case Let(_, value) => value.Some? case _ => before)
  }

  predicate EndsInReturn(ss: seq<Stmt>) {
    ss != [] && ss[|ss| - 1].Return?
  }

  predicate EndsInExpression(ss: seq<Stmt>) {
    ss != [] && ss[|ss| - 1].ExprStmt?
  }

  /** The code that runs ends in a return or an expression, or leaves no value behind. */
  predicate SameEnd(ss: seq<Stmt>) {
    var run := Reached(ss);
    EndsInReturn(run) || EndsInExpression(run) || !Holds(run, false)
  }

  lemma {:induction false} ClosedIsNotNone(e: Expr, p: Profile)
    requires RV.Closed(e) && RV.Eval(e, p).Ok?
    ensures ToVm(RV.Eval(e, p).value) != VNone
    decreases e
  {
    match e {
      case IfExpr(c, t, f) =>
        if RV.AsBool(RV.Eval(c, p).value).value {
          ClosedIsNotNone(t, p);
        } else {
          ClosedIsNotNone(f, p);
        }
      case _ =>
    }
  }

  /** What both sides make of an operand. */
  lemma OperandAgrees(env: LP.Env, level: nat, frames: seq<LP.Frame>, value: Option<Expr>, p: Profile, out: seq<Output>)
    requires LP.Sound(env) && env.profile == p && Evaluates(value, p)
    ensures LP.LocalOptional(value) && (value.Some? ==> Simple(value.value))
    ensures LP.OptionalIn(env, frames, value).Ok?
    ensures var v := LP.OptionalIn(env, frames, value).value;
            && LP.RunValue(env, level, frames, value) == LP.Next(v, map[])
            && EvalOptional(value, p, out) == Done(ToVm(v), out)
            && (value.Some? <==> ToVm(v) != VNone)
  {
    hide LP.EvalIn, LP.Local, Eval, Simple, NoEmptyCondition;
    if value.Some? {
      LP.ClosedMeansTheSame(env, frames, value.value);
      MeaningAgrees(value.value, p, out);
      ClosedIsNotNone(value.value, p);
      assert LP.Local(value.value);
    }
  }

  /** One statement on both sides: the interpreter shows the value of an expression only, the machine holds every value. */
  lemma StmtAgrees(env: LP.Env, level: nat, below: seq<LP.Frame>, top: LP.Frame, ss: seq<Stmt>, p: Profile, held: Value)
    returns (v: RV.RuntimeValue)
    requires LP.Sound(env) && env.profile == p && ss != [] && Runs(ss, p) && SimpleStmts(ss) && LP.LocalStmt(ss[0], env.calls)
    ensures OperandOf(ss[0]).Some? <==> ToVm(v) != VNone
    ensures var f := LP.RunStmt(env, level, below, top, ss[0]);
            && (ss[0].Return? ==> f == LP.Returns(v, top))
            && (!ss[0].Return? ==> f.Next? && f.v == if ss[0].ExprStmt? then v else RV.RNone)
    ensures ProgramResult(ss, held, p, []) ==
            if ss[0].Return? then Finished(ToVm(v), [])
            else if Emits(ss[0]) then ProgramResult(ss[1..], ToVm(v), p, [])
            else ProgramResult(ss[1..], held, p, [])
  {
    hide LP.Local, LP.EvalIn, LP.RunValue, LP.OptionalIn, LP.LocalCall, EvalOptional, Evaluates, Simple, LP.RunBlock, LP.RunWhile;
    OperandAgrees(env, level, below + [top], OperandOf(ss[0]), p, []);
    v := LP.OptionalIn(env, below + [top], OperandOf(ss[0])).value;
    if ss[0].ExprStmt? {
      LP.OperandIsValue(env, level, below + [top], ss[0].expr);
    }
    assert Emits(ss[0]) ==> Operand(ss[0]) == OperandOf(ss[0]);
  }

  /** The two runs side by side: `shown` is the interpreter's last value, `held` the machine's. */
  lemma {:induction false} SideBySide(env: LP.Env, level: nat, below: seq<LP.Frame>, top: LP.Frame, ss: seq<Stmt>, p: Profile,
                                      shown: RV.RuntimeValue, held: Value, isExpression: bool)
    requires LP.Sound(env) && env.profile == p && Runs(ss, p) && LP.LocalBlock(ss, env.calls) && SimpleStmts(ss)
    requires if isExpression then held == ToVm(shown) && held != VNone else shown == RV.RNone
    ensures var f, m, run := LP.RunBlock(env, level, below, top, ss, shown), ProgramResult(ss, held, p, []), Reached(ss);
            && !f.Fails? && m.Finished? && m.out == []
            && (m.value == ToVm(f.v) <==>
                  EndsInReturn(run) || EndsInExpression(run) || (run == [] && isExpression) || !Holds(run, held != VNone))
    decreases ss
  {
    hide LP.RunStmt, LP.LocalStmt, EvalOptional, Evaluates, Simple, SimpleStmt;
    if ss != [] {
      var s := ss[0];
      var v := StmtAgrees(env, level, below, top, ss, p, held);
      hide ProgramResult;
      var f := LP.RunStmt(env, level, below, top, s);
      if !s.Return? {
        var rest := Reached(ss[1..]);
        assert Reached(ss) == [s] + rest && Reached(ss)[1..] == rest;
        var next := if Emits(s) then ToVm(v) else held;
        SideBySide(env, level, below, f.top, ss[1..], p, f.v, next, s.ExprStmt?);
      }
    }
  }

  /** Compile then run answers what the interpreter answers, for a program that runs through, exactly if what runs of it
      ends in a return or an expression or leaves no value behind: a final `let` keeps its value on the machine only. */
  lemma ProgramsAgreeIff(env: LP.Env, level: nat, ss: seq<Stmt>, p: Profile, fuel: nat)
    requires LP.Sound(env) && env.profile == p && Runs(ss, p) && LP.LocalBlock(ss, env.calls) && SimpleStmts(ss)
    requires |BC.EntryOf(ss).code| < TWO_15 && |BC.ConstantsOfStmts(ss)| <= TWO_16 && fuel >= |BC.EntryOf(ss).code|
    ensures var f := LP.RunBlock(env, level, [], map[], ss, RV.RNone);
            !f.Fails? && (RunOf([BC.EntryOf(ss)], p, fuel) == Finished(ToVm(f.v), []) <==> SameEnd(ss))
  {
    hide LP.RunBlock, ProgramResult, LP.LocalBlock, SimpleStmts, Runs;
    ProgramRuns(ss, p, fuel);
    SideBySide(env, level, [], map[], ss, p, RV.RNone, VNone, false);
  }

  /** `let x = e` is None in the interpreter, and the value of `e` on the machine. */
  lemma FinalLetDiffers(env: LP.Env, level: nat, x: string, e: Expr, p: Profile)
    requires LP.Sound(env) && env.profile == p && Evaluates(Some(e), p)
    ensures var ss := [Let(x, Some(e))];
            && !SameEnd(ss) && LP.LocalBlock(ss, env.calls) && SimpleStmts(ss)
            && (var f := LP.RunBlock(env, level, [], map[], ss, RV.RNone); f.Next? && f.v == RV.RNone)
            && ProgramResult(ss, VNone, p, []) == Finished(ToVm(RV.Eval(e, p).value), [])
  {
    hide LP.EvalIn, LP.Local, Simple, NoEmptyCondition, Eval, RV.Eval, RV.Closed;
    var ss := [Let(x, Some(e))];
    assert ss[1..] == [] && Reached([]) == [] && Reached(ss) == ss && Holds([], true);
    LP.ClosedMeansTheSame(env, [] + [map[]], e);
    OperandAgrees(env, level, [] + [map[]], Some(e), p, []);
    assert SimpleStmt(ss[0]);
    var v := StmtAgrees(env, level, [], map[], ss, p, VNone);
  }

  /** The compiler emits nothing for an `if` statement: `if c { return a } return b` answers `a` in the interpreter when `c`
      holds, and `b` on the machine. */
  lemma IfStatementIsDropped(env: LP.Env, level: nat, c: Expr, a: Expr, b: Expr, p: Profile)
    requires LP.Sound(env) && env.profile == p && Evaluates(Some(a), p) && Evaluates(Some(b), p)
    requires RV.Closed(c) && RV.Eval(c, p).Ok? && RV.AsBool(RV.Eval(c, p).value) == Ok(true)
    ensures var ss := [If(c, [Return(Some(a))], []), Return(Some(b))];
            && LP.LocalBlock(ss, env.calls) && SimpleStmts(ss)
            && LP.RunBlock(env, level, [], map[], ss, RV.RNone) == LP.Returns(RV.Eval(a, p).value, map[])
            && ProgramResult(ss, VNone, p, []) == Finished(ToVm(RV.Eval(b, p).value), [])
  {
    hide Evaluates, RV.Eval, RV.Closed, RV.AsBool;
    var ss := [If(c, [Return(Some(a))], []), Return(Some(b))];
    assert ss[1..] == [Return(Some(b))];
    ReturnOnMachine(b, p);
    ReturnInterpreted(env, level, [map[]], a, p);
    ReturnInterpreted(env, level, [], b, p);
    BranchTaken(env, level, c, a, p);
    hide LP.RunStmt, EvalOptional, Simple, LP.Local;
  }

  lemma ReturnOnMachine(e: Expr, p: Profile)
    requires Evaluates(Some(e), p)
    ensures SimpleStmts([Return(Some(e))])
    ensures ProgramResult([Return(Some(e))], VNone, p, []) == Finished(ToVm(RV.Eval(e, p).value), [])
  {
    hide RV.Closed, RV.Eval, Simple, NoEmptyCondition, Eval;
    MeaningAgrees(e, p, []);
  }

  lemma ReturnInterpreted(env: LP.Env, level: nat, below: seq<LP.Frame>, e: Expr, p: Profile)
    requires LP.Sound(env) && env.profile == p && Evaluates(Some(e), p)
    ensures LP.LocalBlock([Return(Some(e))], env.calls)
    ensures LP.RunBlock(env, level, below, map[], [Return(Some(e))], RV.RNone) == LP.Returns(RV.Eval(e, p).value, map[])
  {
    hide RV.Closed, RV.Eval, Simple, NoEmptyCondition, LP.EvalIn, LP.Local;
    LP.ClosedMeansTheSame(env, below + [map[]], e);
    assert [Return(Some(e))][1..] == [];
    LP.OperandIsValue(env, level, below + [map[]], e);
    hide LP.RunOperand;
    assert LP.RunStmt(env, level, below, map[], Return(Some(e))) == LP.Returns(RV.Eval(e, p).value, map[]);
  }

  lemma BranchTaken(env: LP.Env, level: nat, c: Expr, a: Expr, p: Profile)
    requires LP.Sound(env) && env.profile == p && Evaluates(Some(a), p)
    requires RV.Closed(c) && RV.Eval(c, p).Ok? && RV.AsBool(RV.Eval(c, p).value) == Ok(true)
    ensures LP.LocalStmt(If(c, [Return(Some(a))], []), env.calls)
    ensures LP.RunStmt(env, level, [], map[], If(c, [Return(Some(a))], [])) == LP.Returns(RV.Eval(a, p).value, map[])
  {
    hide Evaluates, RV.Closed, RV.Eval, RV.AsBool, LP.EvalIn, LP.Local;
    var none: seq<LP.Frame> := [];
    assert none + [map[]] == [map[]];
    LP.ClosedMeansTheSame(env, none + [map[]], c);
    ReturnInterpreted(env, level, [map[]], a, p);
    hide LP.RunBlock;
  }

  /** `if true { return 1 } return 2` answers 1 in the interpreter and 2 on the machine. */
  lemma IfTrueDiffers(env: LP.Env, level: nat, p: Profile)
    requires LP.Sound(env) && env.profile == p
    ensures var ss := [If(BoolLiteral(true), [Return(Some(IntLiteral(1)))], []), Return(Some(IntLiteral(2)))];
            && LP.LocalBlock(ss, env.calls) && SimpleStmts(ss)
            && LP.RunBlock(env, level, [], map[], ss, RV.RNone) == LP.Returns(RV.RInt(1), map[])
            && ProgramResult(ss, VNone, p, []) == Finished(VInt(2), [])
  {
    hide LP.RunBlock, LP.LocalBlock, ProgramResult, SimpleStmts;
    IfStatementIsDropped(env, level, BoolLiteral(true), IntLiteral(1), IntLiteral(2), p);
  }
}
