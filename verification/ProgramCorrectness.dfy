/** Whole programs on the machine, and compiled expressions against the interpreter. */
module ProgramCorrectness {
  import opened Prelude
  import opened Ast
  import opened Bytecode
  import opened BytecodeCompiler
  import opened VirtualMachine
  import opened CompilerCorrectness
  import RV = RuntimeValues

  // ----- the shape of compiled code -----

  /** Every jump goes forward and lands inside the code or just behind it; nothing calls, returns or halts. */
  predicate SelfContained(code: seq<Opcode>) {
    forall i :: 0 <= i < |code| ==> Contained(code[i], |code| - i - 1)
  }

  predicate Contained(op: Opcode, room: int) {
    match op
    case Jmp(o) => 0 <= o <= room
    case JmpIf(o) => 0 <= o <= room
    case JmpIfNot(o) => 0 <= o <= room
    case CallFn(_) => false
    case OpReturn => false
    case Halt => false
    case _ => true
  }

  lemma {:induction false} CodeIsSelfContained(e: Expr, k: nat)
    requires Simple(e) && |CodeOf(e, k)| < TWO_15
    ensures CodeOf(e, k) != [] && SelfContained(CodeOf(e, k))
    decreases e, 1
  {
    hide SelfContained, Simple, CodeOf, ConstantsOf, Eval, Branches;
    if e.BinaryOp? {
      BinaryParts(e, k, Debug, []);
      var a, b := CodeOf(e.left, k), CodeOf(e.right, k + |ConstantsOf(e.left)|);
      CodeIsSelfContained(e.left, k);
      CodeIsSelfContained(e.right, k + |ConstantsOf(e.left)|);
      Joined(a, b);
      Single(OpcodeOf(e.op));
      Joined(a + b, [OpcodeOf(e.op)]);
    } else if e.UnaryOp? {
      UnaryParts(e, k, Debug, []);
      CodeIsSelfContained(e.operand, k);
      Single(OpNeg);
      Joined(CodeOf(e.operand, k), [OpNeg]);
      assert CodeOf(e.operand, k) + [] == CodeOf(e.operand, k);
    } else if e.Call? {
      CallParts(e, k, Debug, []);
      CodeIsSelfContained(e.args[0], k);
      var b := Builtin(CallBuiltin(e.func.name).value);
      Single(b);
      Joined(CodeOf(e.args[0], k), [b]);
    } else if e.IfExpr? {
      IfParts(e, k, Debug, []);
      var kt := k + |ConstantsOf(e.cond)|;
      var kf := kt + |ConstantsOf(e.thn)|;
      assert |Branches(CodeOf(e.thn, kt), CodeOf(e.els, kf))| == |CodeOf(e.thn, kt)| + |CodeOf(e.els, kf)| + 2 by {
        BranchesLength(CodeOf(e.thn, kt), CodeOf(e.els, kf));
      }
      CodeIsSelfContained(e.cond, k);
      CodeIsSelfContained(e.thn, kt);
      CodeIsSelfContained(e.els, kf);
      BranchesContained(CodeOf(e.thn, kt), CodeOf(e.els, kf));
      Joined(CodeOf(e.cond, k), Branches(CodeOf(e.thn, kt), CodeOf(e.els, kf)));
    } else if e.Array? {
      ArrayContained(e, k);
    } else {
      LeafContained(e, k);
    }
  }

  lemma LeafContained(e: Expr, k: nat)
    requires Simple(e) && !e.BinaryOp? && !e.UnaryOp? && !e.Call? && !e.IfExpr? && !e.Array?
    ensures CodeOf(e, k) != [] && SelfContained(CodeOf(e, k))
  {
  }

  lemma Single(op: Opcode)
    requires Contained(op, 0)
    ensures SelfContained([op])
  {
  }

  lemma Joined(a: seq<Opcode>, b: seq<Opcode>)
    requires SelfContained(a) && SelfContained(b)
    ensures SelfContained(a + b)
  {
    forall i | 0 <= i < |a + b| ensures Contained((a + b)[i], |a + b| - i - 1) {
      if i < |a| {
        assert Contained(a[i], |a| - i - 1);
      } else {
        assert Contained(b[i - |a|], |b| - (i - |a|) - 1);
      }
    }
  }

  lemma BranchesLength(thn: seq<Opcode>, els: seq<Opcode>)
    ensures |Branches(thn, els)| == |thn| + |els| + 2
  {
  }

  lemma BranchesContained(thn: seq<Opcode>, els: seq<Opcode>)
    requires SelfContained(thn) && SelfContained(els) && |Branches(thn, els)| < TWO_15
    ensures SelfContained(Branches(thn, els))
  {
    var code := Branches(thn, els);
    forall i | 0 <= i < |code| ensures Contained(code[i], |code| - i - 1) {
      if 1 <= i <= |thn| {
        assert code[i] == thn[i - 1] && Contained(thn[i - 1], |thn| - i);
      } else if i > |thn| + 1 {
        var j := i - |thn| - 2;
        assert code[i] == els[j] && Contained(els[j], |els| - j - 1);
      }
    }
  }

  lemma {:induction false} ArrayContained(e: Expr, k: nat)
    requires e.Array? && Simple(e) && |CodeOf(e, k)| < TWO_15
    ensures CodeOf(e, k) != [] && SelfContained(CodeOf(e, k))
    decreases e, 0
  {
    hide SelfContained;
    var op := MakeArray(|e.items|);
    assert CodeOf(e, k) == CodeOfAll(e.items, k) + [op];
    AllContained(e.items, k);
    Single(op);
    Joined(CodeOfAll(e.items, k), [op]);
  }

  lemma {:induction false} AllContained(es: seq<Expr>, k: nat)
    requires SimpleAll(es) && |CodeOfAll(es, k)| < TWO_15
    ensures SelfContained(CodeOfAll(es, k))
    decreases es, 0
  {
    hide CodeOf, Simple;
    if es != [] {
      var kr := k + |ConstantsOf(es[0])|;
      CodeIsSelfContained(es[0], k);
      AllContained(es[1..], kr);
      Joined(CodeOf(es[0], k), CodeOfAll(es[1..], kr));
    }
  }

  /** Compiled expressions never run out of operands and never reach an unknown builtin. */
  lemma {:induction false} NeverUnderflows(e: Expr, p: Profile, out: seq<Output>)
    requires Simple(e)
    ensures Eval(e, p, out).Fails? ==> Eval(e, p, out).err in {TypeError, DivisionByZero, Panic}
    decreases e, 1
  {
    match e {
      case BinaryOp(l, _, r) =>
        BinaryParts(e, 0, p, out);
        hide Eval;
        NeverUnderflows(l, p, out);
        if Eval(l, p, out).Done? {
          NeverUnderflows(r, p, Eval(l, p, out).out);
        }
      case UnaryOp(_, operand) =>
        UnaryParts(e, 0, p, out);
        hide Eval;
        NeverUnderflows(operand, p, out);
      case Call(_, args) =>
        CallParts(e, 0, p, out);
        hide Eval;
        NeverUnderflows(args[0], p, out);
      case IfExpr(c, t, f) =>
        IfParts(e, 0, p, out);
        hide Eval;
        NeverUnderflows(c, p, out);
        if Eval(c, p, out).Done? {
          NeverUnderflows(t, p, Eval(c, p, out).out);
          NeverUnderflows(f, p, Eval(c, p, out).out);
        }
      case Array(items) => AllNeverUnderflow(items, p, out);
      case _ =>
    }
  }

  lemma {:induction false} AllNeverUnderflow(es: seq<Expr>, p: Profile, out: seq<Output>)
    requires SimpleAll(es)
    ensures EvalAll(es, p, out).FailsAll? ==> EvalAll(es, p, out).err in {TypeError, DivisionByZero, Panic}
    decreases es, 0
  {
    hide Eval, Simple;
    if es != [] {
      NeverUnderflows(es[0], p, out);
      if Eval(es[0], p, out).Done? {
        AllNeverUnderflow(es[1..], p, Eval(es[0], p, out).out);
      }
    }
  }

  /** So the machine, running compiled code from any stack, never stops for a missing operand or an unknown builtin. */
  lemma MachineNeverUnderflows(e: Expr, k: nat, fs: seq<BytecodeFunction>, p: Profile, m: Machine) returns (n: nat)
    requires Simple(e) && Ready(fs, m)
    requires Loaded(fs[m.fn], m.ip, CodeOf(e, k), k, ConstantsOf(e)) && |CodeOf(e, k)| < TWO_15
    ensures n <= |CodeOf(e, k)|
    ensures Steps(fs, p, n, Go(m)) == After(m, |CodeOf(e, k)|, Eval(e, p, m.out))
    ensures forall i :: 0 <= i <= n && Steps(fs, p, i, Go(m)).Fail? ==>
              Steps(fs, p, i, Go(m)).err in {TypeError, DivisionByZero, Panic}
  {
    hide Loaded, CodeOf, ConstantsOf, Eval, Simple, Steps;
    n := ExprRuns(e, k, fs, p, m);
    NeverUnderflows(e, p, m.out);
    forall i | 0 <= i <= n && Steps(fs, p, i, Go(m)).Fail?
      ensures Steps(fs, p, i, Go(m)).err in {TypeError, DivisionByZero, Panic}
    {
      StepsAdd(fs, p, i, n - i, Go(m));
      StoppedSteps(fs, p, n - i, Steps(fs, p, i, Go(m)));
    }
  }

  // ----- programs -----

  predicate SimpleStmts(ss: seq<Stmt>) {
    forall i :: 0 <= i < |ss| ==> SimpleStmt(ss[i])
  }

  predicate SimpleStmt(s: Stmt) {
    match s
    case ExprStmt(e) => Simple(e)
    case Let(_, value) => value.Some? ==> Simple(value.value)
    case Return(value) => value.Some? ==> Simple(value.value)
    case _ => true
  }

  function EvalOptional(value: Option<Expr>, p: Profile, out: seq<Output>): Meaning
    requires value.Some? ==> Simple(value.value)
  {
    if value.Some? then Eval(value.value, p, out) else Done(VNone, out)
  }

  /** The first Return decides, else the last value; declarations and the statements the compiler skips count for nothing. */
  function ProgramResult(ss: seq<Stmt>, last: Value, p: Profile, out: seq<Output>): RunResult
    requires SimpleStmts(ss)
  {
    if ss == [] then Finished(last, out)
    else if !Emits(ss[0]) then ProgramResult(ss[1..], last, p, out)
    else
      match EvalOptional(Operand(ss[0]), p, out)
      case Fails(e, o) => Failed(e, o)
      case Done(v, o) => if ss[0].Return? then Finished(v, o) else ProgramResult(ss[1..], v, p, o)
  }

  predicate Emits(s: Stmt) {
    s.ExprStmt? || s.Let? || s.Return?
  }

  function Operand(s: Stmt): Option<Expr>
    requires Emits(s)
  {
    match s
    case ExprStmt(e) => Some(e)
    case Let(_, value) => value
    case Return(value) => value
  }

  function TopOrNone(stack: seq<Value>): Value {
    if stack == [] then VNone else stack[|stack| - 1]
  }

  lemma OptionalRuns(value: Option<Expr>, k: nat, fs: seq<BytecodeFunction>, p: Profile, m: Machine, pool: seq<string>)
    returns (n: nat)
    requires (value.Some? ==> Simple(value.value)) && Ready(fs, m)
    requires pool == if value.Some? then ConstantsOf(value.value) else []
    requires Loaded(fs[m.fn], m.ip, CodeOfOptional(value, k), k, pool) && |CodeOfOptional(value, k)| < TWO_15
    ensures n <= |CodeOfOptional(value, k)|
    ensures Steps(fs, p, n, Go(m)) == After(m, |CodeOfOptional(value, k)|, EvalOptional(value, p, m.out))
  {
    if value.Some? {
      n := ExprRuns(value.value, k, fs, p, m);
    } else {
      n := LeafRuns(Ident(""), k, fs, p, m);
    }
  }

  predicate AtEnd(fs: seq<BytecodeFunction>, m: Machine, ss: seq<Stmt>, k: nat, tail: seq<Opcode>) {
    && Ready(fs, m) && m.calls == []
    && Loaded(fs[m.fn], m.ip, CodeOfStmts(ss, k) + tail, k, ConstantsOfStmts(ss))
    && m.ip + |CodeOfStmts(ss, k) + tail| == |fs[m.fn].code| < TWO_15
  }

  /** From the start of any suffix of the program's code, with the values of the earlier statements below. */
  lemma {:induction false} StmtsRun(ss: seq<Stmt>, k: nat, fs: seq<BytecodeFunction>, p: Profile, m: Machine, tail: seq<Opcode>)
    returns (n: nat)
    requires SimpleStmts(ss) && AtEnd(fs, m, ss, k, tail)
    requires tail == [] || (tail == [OpReturn] && (m.stack != [] || CodeOfStmts(ss, k) != []))
    ensures n <= |CodeOfStmts(ss, k) + tail|
    ensures Final(fs, Steps(fs, p, n, Go(m))) == ProgramResult(ss, TopOrNone(m.stack), p, m.out)
    decreases ss, 1
  {
    hide CodeOfStmt, ConstantsOfStmt, Exec;
    n := 0;
    if ss == [] {
      if tail == [OpReturn] {
        n := ReturnRuns(fs, p, m);
      }
    } else if !Emits(ss[0]) {
      SkippedStmt(ss, k);
      n := StmtsRun(ss[1..], k, fs, p, m, tail);
    } else {
      n := EmittingRuns(ss, k, fs, p, m, tail);
    }
  }

  lemma SkippedStmt(ss: seq<Stmt>, k: nat)
    requires ss != [] && !Emits(ss[0])
    ensures CodeOfStmts(ss, k) == CodeOfStmts(ss[1..], k) && ConstantsOfStmts(ss) == ConstantsOfStmts(ss[1..])
  {
    hide CodeOf, ConstantsOf;
  }

  lemma ReturnRuns(fs: seq<BytecodeFunction>, p: Profile, m: Machine) returns (n: nat)
    requires Ready(fs, m) && m.calls == [] && m.stack != [] && At(fs[m.fn].code, m.ip, [OpReturn])
    ensures n == 1
    ensures Final(fs, Steps(fs, p, 1, Go(m))) == Finished(Top(m, 0), m.out)
  {
    n := 1;
    AtIndex(fs[m.fn].code, m.ip, [OpReturn], 0);
    assert Steps(fs, p, 1, Go(m)) == Step(fs, p, Go(m));
  }

  /** How the code and the constants of a statement list divide after its first, emitting statement. */
  lemma EmittingParts(fs: seq<BytecodeFunction>, m: Machine, ss: seq<Stmt>, k: nat, tail: seq<Opcode>)
    requires ss != [] && Emits(ss[0]) && SimpleStmts(ss) && AtEnd(fs, m, ss, k, tail)
    ensures SimpleStmts(ss[1..]) && (Operand(ss[0]).Some? ==> Simple(Operand(ss[0]).value))
    ensures ConstantsOfStmt(ss[0]) == if Operand(ss[0]).Some? then ConstantsOf(Operand(ss[0]).value) else []
    ensures var a := CodeOfOptional(Operand(ss[0]), k);
            && Loaded(fs[m.fn], m.ip, a, k, ConstantsOfStmt(ss[0]))
            && (ss[0].Return? ==> At(fs[m.fn].code, m.ip + |a|, [OpReturn]) && |a| + 1 <= |CodeOfStmts(ss, k) + tail|)
            && |a| < TWO_15 && |a| <= |CodeOfStmts(ss, k) + tail|
            && (!ss[0].Return? ==>
                  var kr := k + |ConstantsOfStmt(ss[0])|;
                  && Loaded(fs[m.fn], m.ip + |a|, CodeOfStmts(ss[1..], kr) + tail, kr, ConstantsOfStmts(ss[1..]))
                  && |CodeOfStmts(ss, k) + tail| == |a| + |CodeOfStmts(ss[1..], kr) + tail|)
  {
    hide CodeOf, ConstantsOf, Simple, CodeOfStmts, ConstantsOfStmts, ConstantsOfStmt, CodeOfStmt, SimpleStmts, CodeOfOptional;
    var pool := ConstantsOfStmt(ss[0]);
    var a := CodeOfOptional(Operand(ss[0]), k);
    var back := if ss[0].Return? then [OpReturn] else [];
    var rest := CodeOfStmts(ss[1..], k + |pool|) + tail;
    EmittedCode(ss, k);
    Assoc(a + back, CodeOfStmts(ss[1..], k + |pool|), tail);
    LoadedSplit(fs[m.fn], m.ip, a + back, rest, k, pool, ConstantsOfStmts(ss[1..]));
    AtSplit(fs[m.fn].code, m.ip, a, back);
  }

  lemma EmittedCode(ss: seq<Stmt>, k: nat)
    requires ss != [] && Emits(ss[0]) && SimpleStmts(ss)
    ensures SimpleStmts(ss[1..]) && (Operand(ss[0]).Some? ==> Simple(Operand(ss[0]).value))
    ensures ConstantsOfStmt(ss[0]) == if Operand(ss[0]).Some? then ConstantsOf(Operand(ss[0]).value) else []
    ensures ConstantsOfStmts(ss) == ConstantsOfStmt(ss[0]) + ConstantsOfStmts(ss[1..])
    ensures CodeOfStmts(ss, k)
         == CodeOfOptional(Operand(ss[0]), k) + (if ss[0].Return? then [OpReturn] else [])
          + CodeOfStmts(ss[1..], k + |ConstantsOfStmt(ss[0])|)
  {
    hide CodeOf, ConstantsOf, Simple;
    assert SimpleStmt(ss[0]);
  }

  lemma {:induction false} EmittingRuns(ss: seq<Stmt>, k: nat, fs: seq<BytecodeFunction>, p: Profile, m: Machine, tail: seq<Opcode>)
    returns (n: nat)
    requires ss != [] && Emits(ss[0]) && SimpleStmts(ss) && AtEnd(fs, m, ss, k, tail)
    requires tail == [] || tail == [OpReturn]
    ensures n <= |CodeOfStmts(ss, k) + tail|
    ensures Final(fs, Steps(fs, p, n, Go(m))) == ProgramResult(ss, TopOrNone(m.stack), p, m.out)
    decreases ss, 0
  {
    hide CodeOfStmts, ConstantsOfStmts, CodeOfStmt, ConstantsOfStmt, CodeOfOptional, EvalOptional, Simple, Exec, Loaded, At, SimpleStmts;
    EmittingParts(fs, m, ss, k, tail);
    var value, pool := Operand(ss[0]), ConstantsOfStmt(ss[0]);
    var a := CodeOfOptional(value, k);
    n := OptionalRuns(value, k, fs, p, m, pool);
    var r := EvalOptional(value, p, m.out);
    if r.Done? {
      var mv := After(m, |a|, r).m;
      if ss[0].Return? {
        var one := ReturnRuns(fs, p, mv);
        StepsAdd(fs, p, n, 1, Go(m));
        n := n + 1;
      } else {
        var nr := StmtsRun(ss[1..], k + |pool|, fs, p, mv, tail);
        StepsAdd(fs, p, n, nr, Go(m));
        n := n + nr;
      }
    }
  }

  lemma EntryStarts(program: seq<Stmt>, m: Machine, tail: seq<Opcode>)
    requires |EntryOf(program).code| < TWO_15 && |ConstantsOfStmts(program)| <= TWO_16
    requires m == Started(Machine(0, 0, [], [], false, []))
    requires var code := CodeOfStmts(program, 0); tail == if Closed(code) == code then [] else [OpReturn]
    ensures AtEnd([EntryOf(program)], m, program, 0, tail)
    ensures EntryOf(program).code == CodeOfStmts(program, 0) + tail
    ensures tail == [] || CodeOfStmts(program, 0) != []
  {
    hide CodeOfStmts, ConstantsOfStmts;
    var code := CodeOfStmts(program, 0);
    assert Closed(code) == code + tail;
  }

  /** Compile then run: the value of the first Return, else of the last statement, else None for empty code. */
  lemma ProgramRuns(program: seq<Stmt>, p: Profile, fuel: nat)
    requires SimpleStmts(program)
    requires |EntryOf(program).code| < TWO_15 && |ConstantsOfStmts(program)| <= TWO_16
    requires fuel >= |EntryOf(program).code|
    ensures RunOf([EntryOf(program)], p, fuel) == ProgramResult(program, VNone, p, [])
  {
    hide SimpleStmts, CodeOfStmts, ConstantsOfStmts, Loaded, At, Exec, Steps, ProgramResult;
    var fs := [EntryOf(program)];
    var code := CodeOfStmts(program, 0);
    var tail := if Closed(code) == code then [] else [OpReturn];
    var m := Started(Machine(0, 0, [], [], false, []));
    EntryStarts(program, m, tail);
    var n := StmtsRun(program, 0, fs, p, m, tail);
    var o := Steps(fs, p, n, Go(m));
    StepsAdd(fs, p, n, fuel - n, Go(m));
    ResultIsFinal(program, VNone, p, []);
    StoppedSteps(fs, p, fuel - n, o);
  }

  lemma {:induction false} ResultIsFinal(ss: seq<Stmt>, last: Value, p: Profile, out: seq<Output>)
    requires SimpleStmts(ss)
    ensures ProgramResult(ss, last, p, out) != OutOfFuel
  {
    if ss != [] {
      if !Emits(ss[0]) {
        ResultIsFinal(ss[1..], last, p, out);
      } else {
        var r := EvalOptional(Operand(ss[0]), p, out);
        if r.Done? {
          ResultIsFinal(ss[1..], r.v, p, r.out);
        }
      }
    }
  }

  /** Nothing behind a top-level Return has any effect. */
  lemma {:induction false} ReturnEnds(before: seq<Stmt>, value: Option<Expr>, after: seq<Stmt>, other: seq<Stmt>,
                                      last: Value, p: Profile, out: seq<Output>)
    requires SimpleStmts(before + [Return(value)] + after) && SimpleStmts(before + [Return(value)] + other)
    ensures ProgramResult(before + [Return(value)] + after, last, p, out)
         == ProgramResult(before + [Return(value)] + other, last, p, out)
  {
    var x, y := before + [Return(value)] + after, before + [Return(value)] + other;
    if before != [] {
      assert x[1..] == before[1..] + [Return(value)] + after && y[1..] == before[1..] + [Return(value)] + other;
      if !Emits(x[0]) {
        ReturnEnds(before[1..], value, after, other, last, p, out);
      } else {
        var r := EvalOptional(Operand(x[0]), p, out);
        if r.Done? {
          ReturnEnds(before[1..], value, after, other, r.v, p, r.out);
        }
      }
    }
  }

  // ----- against the interpreter -----

  /** The machine value of an interpreter value; closed expressions only make integers, strings, booleans and arrays. */
  function ToVm(v: RV.RuntimeValue): Value
    decreases v, 1
  {
    match v
    case RInt(n) => VInt(n)
    case RString(s) => VStr(s)
    case RBool(b) => VBool(b)
    case RArray(items) => VArray(ToVmAll(items))
    case _ => VNone
  }

  function ToVmAll(vs: seq<RV.RuntimeValue>): seq<Value>
    decreases vs, 0
  {
    if vs == [] then [] else [ToVm(vs[0])] + ToVmAll(vs[1..])
  }

  /** No condition that is evaluated comes out as the empty string. */
  predicate NoEmptyCondition(e: Expr, p: Profile)
    requires RV.Closed(e)
    decreases e, 1
  {
    match e
    case BinaryOp(l, _, r) => NoEmptyCondition(l, p) && NoEmptyCondition(r, p)
    case UnaryOp(_, operand) => NoEmptyCondition(operand, p)
    case IfExpr(c, t, f) =>
      && NoEmptyCondition(c, p)
      && (RV.Eval(c, p).Ok? ==>
            && RV.Eval(c, p).value != RV.RString("")
            && (RV.AsBool(RV.Eval(c, p).value) == Ok(true) ==> NoEmptyCondition(t, p))
            && (RV.AsBool(RV.Eval(c, p).value) == Ok(false) ==> NoEmptyCondition(f, p)))
    case Array(items) => NoEmptyConditionAll(items, p)
    case _ => true
  }

  predicate NoEmptyConditionAll(es: seq<Expr>, p: Profile)
    requires RV.ClosedAll(es)
    decreases es, 0
  {
    es == [] || (NoEmptyCondition(es[0], p) && NoEmptyConditionAll(es[1..], p))
  }

  /** The two truth tests agree on a value the interpreter accepts exactly when it is not the empty string. */
  lemma TruthAgreesIff(v: RV.RuntimeValue)
    requires RV.AsBool(v).Ok?
    ensures (RV.AsBool(v).value == Truthy(ToVm(v))) <==> v != RV.RString("")
  {
  }

  /** The machine's meaning of an expression is the interpreter's value, whenever the interpreter has one. */
  lemma {:induction false} MeaningAgrees(e: Expr, p: Profile, out: seq<Output>)
    requires RV.Closed(e) && Simple(e) && NoEmptyCondition(e, p) && RV.Eval(e, p).Ok?
    ensures Eval(e, p, out) == Done(ToVm(RV.Eval(e, p).value), out)
    decreases e, 1
  {
    match e {
      case BinaryOp(l, op, r) =>
        MeaningAgrees(l, p, out);
        MeaningAgrees(r, p, out);
        BinaryAgrees(RV.Eval(l, p).value, op, RV.Eval(r, p).value, p);
      case UnaryOp(_, operand) => MeaningAgrees(operand, p, out);
      case IfExpr(c, t, f) =>
        MeaningAgrees(c, p, out);
        TruthAgreesIff(RV.Eval(c, p).value);
        if RV.AsBool(RV.Eval(c, p).value).value {
          MeaningAgrees(t, p, out);
        } else {
          MeaningAgrees(f, p, out);
        }
      case Array(items) => MeaningsAgree(items, p, out);
      case _ =>
    }
  }

  lemma {:induction false} MeaningsAgree(es: seq<Expr>, p: Profile, out: seq<Output>)
    requires RV.ClosedAll(es) && SimpleAll(es) && NoEmptyConditionAll(es, p) && RV.EvalAll(es, p).Ok?
    ensures EvalAll(es, p, out) == DoneAll(ToVmAll(RV.EvalAll(es, p).value), out)
    decreases es, 0
  {
    hide Eval, Simple, NoEmptyCondition, RV.Closed;
    if es != [] {
      MeaningAgrees(es[0], p, out);
      MeaningsAgree(es[1..], p, out);
      var v, vs := RV.Eval(es[0], p).value, RV.EvalAll(es[1..], p).value;
      assert RV.EvalAll(es, p).value == [v] + vs && ([v] + vs)[1..] == vs;
    }
  }

  lemma BinaryAgrees(a: RV.RuntimeValue, op: BinOp, b: RV.RuntimeValue, p: Profile)
    requires op !in {Percent, Assign, AndAnd, OrOr}
    requires RV.EvalBinaryOp(a, op, b, p).Ok?
    ensures BinaryResult(OpcodeOf(op), ToVm(a), ToVm(b), p) == Ok(ToVm(RV.EvalBinaryOp(a, op, b, p).value))
  {
  }

  /** What the interpreter evaluates to `v`, compiled code leaves on the stack as `v`. */
  lemma CompiledCodeMatchesInterpreter(e: Expr, k: nat, fs: seq<BytecodeFunction>, p: Profile, m: Machine) returns (n: nat)
    requires RV.Closed(e) && Simple(e) && NoEmptyCondition(e, p) && RV.Eval(e, p).Ok?
    requires Ready(fs, m)
    requires Loaded(fs[m.fn], m.ip, CodeOf(e, k), k, ConstantsOf(e)) && |CodeOf(e, k)| < TWO_15
    ensures n <= |CodeOf(e, k)|
    ensures Steps(fs, p, n, Go(m)) ==
            Go(m.(ip := m.ip + |CodeOf(e, k)|, stack := m.stack + [ToVm(RV.Eval(e, p).value)]))
  {
    MeaningAgrees(e, p, m.out);
    n := ExprRuns(e, k, fs, p, m);
  }

  /** When the branches differ, a conditional compiles correctly exactly if its condition is not the empty string. */
  lemma ConditionalAgreesIff(c: Expr, t: Expr, f: Expr, p: Profile, out: seq<Output>)
    requires RV.Closed(IfExpr(c, t, f)) && Simple(IfExpr(c, t, f))
    requires NoEmptyCondition(c, p) && NoEmptyCondition(t, p) && NoEmptyCondition(f, p)
    requires RV.Eval(c, p).Ok? && RV.AsBool(RV.Eval(c, p).value).Ok? && RV.Eval(t, p).Ok? && RV.Eval(f, p).Ok?
    requires ToVm(RV.Eval(t, p).value) != ToVm(RV.Eval(f, p).value)
    ensures Eval(IfExpr(c, t, f), p, out) == Done(ToVm(RV.Eval(IfExpr(c, t, f), p).value), out)
            <==> RV.Eval(c, p).value != RV.RString("")
  {
    MeaningAgrees(c, p, out);
    MeaningAgrees(t, p, out);
    MeaningAgrees(f, p, out);
    TruthAgreesIff(RV.Eval(c, p).value);
  }

  /** The condition is needed: `if "" { 1 } else { 2 }` is 2 to the interpreter and 1 to the machine. */
  lemma EmptyStringConditionDiffers(p: Profile)
    ensures var e := IfExpr(StringLiteral(""), IntLiteral(1), IntLiteral(2));
            RV.Eval(e, p) == Ok(RV.RInt(2)) && Eval(e, p, []) == Done(VInt(1), [])
  {
  }
}
