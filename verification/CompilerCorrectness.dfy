/** Compiled code computes what the expression means: first as the machine defines it, then as the interpreter does. */
module CompilerCorrectness {
  import opened Prelude
  import opened Ast
  import opened Bytecode
  import opened BytecodeCompiler
  import opened VirtualMachine

  // ----- the expressions that net one push -----

  /** No pipe, no call but a builtin with one argument, and array lengths that fit their u16 operand. */
  predicate Simple(e: Expr)
    decreases e, 1
  {
    match e
    case BinaryOp(l, _, r) => Simple(l) && Simple(r)
    case UnaryOp(_, operand) => Simple(operand)
    case Call(func, args) => func.Ident? && CallBuiltin(func.name).Some? && |args| == 1 && Simple(args[0])
    case IfExpr(c, t, f) => Simple(c) && Simple(t) && Simple(f)
    case Array(items) => |items| < TWO_16 && SimpleAll(items)
    case Pipe(_, _) => false
    case _ => true
  }

  predicate SimpleAll(es: seq<Expr>)
    decreases es, 0
  {
    es == [] || (Simple(es[0]) && SimpleAll(es[1..]))
  }

  // ----- their meaning on the machine -----

  datatype Meaning = Done(v: Value, out: seq<Output>) | Fails(err: VmError, out: seq<Output>)

  datatype Meanings = DoneAll(vs: seq<Value>, out: seq<Output>) | FailsAll(err: VmError, out: seq<Output>)

  function Settle(r: Result<Value, VmError>, out: seq<Output>): Meaning {
    match r
    case Ok(v) => Done(v, out)
    case Err(e) => Fails(e, out)
  }

  /** The value of an expression, or its error, and what has been printed by then. */
  function Eval(e: Expr, p: Profile, out: seq<Output>): Meaning
    requires Simple(e)
    decreases e, 1
  {
    match e
    case IntLiteral(n) => Done(VInt(n), out)
    case StringLiteral(s) => Done(VStr(s), out)
    case CharLiteral(c) => Done(VStr([c]), out)
    case BoolLiteral(b) => Done(VBool(b), out)
    case BinaryOp(l, op, r) =>
      var a := Eval(l, p, out);
      if a.Fails? then a else
      var b := Eval(r, p, a.out);
      if b.Fails? then b else Settle(BinaryResult(OpcodeOf(op), a.v, b.v, p), b.out)
    case UnaryOp(op, operand) =>
      var v := Eval(operand, p, out);
      if v.Fails? || op != Negate then v else Settle(Negated(v.v, p), v.out)
    case Call(func, args) =>
      var v := Eval(args[0], p, out);
      if v.Fails? then v else
      var (r, printed) := BuiltinResult(CallBuiltin(func.name).value, v.v);
      Settle(r, v.out + printed)
    case IfExpr(c, t, f) =>
      var v := Eval(c, p, out);
      if v.Fails? then v else if Truthy(v.v) then Eval(t, p, v.out) else Eval(f, p, v.out)
    case Array(items) =>
      var vs := EvalAll(items, p, out);
      if vs.FailsAll? then Fails(vs.err, vs.out) else Done(VArray(vs.vs), vs.out)
    case _ => Done(VNone, out)
  }

  function EvalAll(es: seq<Expr>, p: Profile, out: seq<Output>): (r: Meanings)
    requires SimpleAll(es)
    ensures r.DoneAll? ==> |r.vs| == |es|
    decreases es, 0
  {
    if es == [] then DoneAll([], out) else
    var v := Eval(es[0], p, out);
    if v.Fails? then FailsAll(v.err, v.out) else
    var vs := EvalAll(es[1..], p, v.out);
    if vs.FailsAll? then vs else DoneAll([v.v] + vs.vs, vs.out)
  }

  // ----- the machine runs compiled code to that meaning -----

  /** The code of a function holds `part` at `ip`, and its pool holds `pool` at `k`. */
  predicate Loaded(f: BytecodeFunction, ip: nat, part: seq<Opcode>, k: nat, pool: seq<string>) {
    At(f.code, ip, part) && At(f.constants, k, pool) && k + |pool| <= TWO_16
  }

  lemma LoadedSplit(f: BytecodeFunction, ip: nat, a: seq<Opcode>, b: seq<Opcode>, k: nat, pa: seq<string>, pb: seq<string>)
    requires Loaded(f, ip, a + b, k, pa + pb)
    ensures Loaded(f, ip, a, k, pa) && Loaded(f, ip + |a|, b, k + |pa|, pb)
  {
    AtSplit(f.code, ip, a, b);
    AtSplit(f.constants, k, pa, pb);
  }

  /** The machine after the code at `ip..` of length `len` has run to meaning `r`. */
  function After(m: Machine, len: nat, r: Meaning): Outcome {
    match r
    case Done(v, out) => Go(m.(ip := m.ip + len, stack := m.stack + [v], out := out))
    case Fails(e, out) => Fail(e, out)
  }

  function AfterAll(m: Machine, len: nat, r: Meanings): Outcome {
    match r
    case DoneAll(vs, out) => Go(m.(ip := m.ip + len, stack := m.stack + vs, out := out))
    case FailsAll(e, out) => Fail(e, out)
  }

  predicate Ready(fs: seq<BytecodeFunction>, m: Machine) {
    m.running && m.fn < |fs|
  }

  /** From any stack, inside any surrounding code, within as many steps as there are instructions. */
  lemma {:induction false} ExprRuns(e: Expr, k: nat, fs: seq<BytecodeFunction>, p: Profile, m: Machine)
    returns (n: nat)
    requires Simple(e) && Ready(fs, m)
    requires Loaded(fs[m.fn], m.ip, CodeOf(e, k), k, ConstantsOf(e)) && |CodeOf(e, k)| < TWO_15
    ensures n <= |CodeOf(e, k)|
    ensures Steps(fs, p, n, Go(m)) == After(m, |CodeOf(e, k)|, Eval(e, p, m.out))
    decreases e, 1
  {
    if e.BinaryOp? {
      n := BinaryRuns(e, k, fs, p, m);
    } else if e.UnaryOp? {
      n := UnaryRuns(e, k, fs, p, m);
    } else if e.Call? {
      n := CallRuns(e, k, fs, p, m);
    } else if e.IfExpr? {
      n := IfRuns(e, k, fs, p, m);
    } else if e.Array? {
      n := ArrayRuns(e, k, fs, p, m);
    } else {
      n := LeafRuns(e, k, fs, p, m);
    }
  }

  lemma LeafRuns(e: Expr, k: nat, fs: seq<BytecodeFunction>, p: Profile, m: Machine) returns (n: nat)
    requires Simple(e) && Ready(fs, m)
    requires !e.BinaryOp? && !e.UnaryOp? && !e.Call? && !e.IfExpr? && !e.Array?
    requires Loaded(fs[m.fn], m.ip, CodeOf(e, k), k, ConstantsOf(e))
    ensures n == |CodeOf(e, k)| == 1
    ensures Steps(fs, p, n, Go(m)) == After(m, 1, Eval(e, p, m.out))
  {
    n := 1;
    AtIndex(fs[m.fn].code, m.ip, CodeOf(e, k), 0);
    if e.StringLiteral? || e.CharLiteral? {
      AtIndex(fs[m.fn].constants, k, ConstantsOf(e), 0);
    }
    assert Steps(fs, p, 1, Go(m)) == Step(fs, p, Go(m));
  }

  /** Runs the instruction at the end of a part that has reached it. */
  lemma ThenStep(fs: seq<BytecodeFunction>, p: Profile, n: nat, o: Outcome, m: Machine, op: Opcode)
    requires Ready(fs, m) && At(fs[m.fn].code, m.ip, [op])
    requires Steps(fs, p, n, o) == Go(m)
    ensures Steps(fs, p, n + 1, o) == Exec(op, fs, p, m.(ip := m.ip + 1))
  {
    hide Exec;
    AtIndex(fs[m.fn].code, m.ip, [op], 0);
    StepsAdd(fs, p, n, 1, o);
    assert Steps(fs, p, 1, Go(m)) == Step(fs, p, Go(m));
  }

  lemma BinaryParts(e: Expr, k: nat, p: Profile, out: seq<Output>)
    requires e.BinaryOp? && Simple(e)
    ensures Simple(e.left) && Simple(e.right) && IsBinary(OpcodeOf(e.op))
    ensures CodeOf(e, k) == CodeOf(e.left, k) + CodeOf(e.right, k + |ConstantsOf(e.left)|) + [OpcodeOf(e.op)]
    ensures ConstantsOf(e) == ConstantsOf(e.left) + ConstantsOf(e.right)
    ensures Eval(e, p, out) ==
            var x := Eval(e.left, p, out);
            if x.Fails? then x else
            var y := Eval(e.right, p, x.out);
            if y.Fails? then y else Settle(BinaryResult(OpcodeOf(e.op), x.v, y.v, p), y.out)
  {
    hide BinaryResult;
  }

  lemma {:induction false} BinaryRuns(e: Expr, k: nat, fs: seq<BytecodeFunction>, p: Profile, m: Machine)
    returns (n: nat)
    requires e.BinaryOp? && Simple(e) && Ready(fs, m)
    requires Loaded(fs[m.fn], m.ip, CodeOf(e, k), k, ConstantsOf(e)) && |CodeOf(e, k)| < TWO_15
    ensures n <= |CodeOf(e, k)|
    ensures Steps(fs, p, n, Go(m)) == After(m, |CodeOf(e, k)|, Eval(e, p, m.out))
    decreases e, 0
  {
    hide CodeOf, ConstantsOf, Eval, Simple, Exec, IsBinary, BinaryResult, OpcodeOf;
    BinaryParts(e, k, p, m.out);
    var l, r, op := e.left, e.right, OpcodeOf(e.op);
    var kr := k + |ConstantsOf(l)|;
    var a, b := CodeOf(l, k), CodeOf(r, kr);
    var x := Eval(l, p, m.out);
    AtSplit(fs[m.fn].code, m.ip, a + b, [op]);
    LoadedSplit(fs[m.fn], m.ip, a, b, k, ConstantsOf(l), ConstantsOf(r));
    n := ExprRuns(l, k, fs, p, m);
    if x.Done? {
      var mx := After(m, |a|, x).m;
      var nr := ExprRuns(r, kr, fs, p, mx);
      StepsAdd(fs, p, n, nr, Go(m));
      n := n + nr;
      var y := Eval(r, p, x.out);
      if y.Done? {
        var my := After(mx, |b|, y).m;
        ThenStep(fs, p, n, Go(m), my, op);
        n := n + 1;
        BinaryStep(op, fs, p, my.(ip := my.ip + 1), m.stack, x.v, y.v);
      }
    }
  }

  lemma BinaryStep(op: Opcode, fs: seq<BytecodeFunction>, p: Profile, m: Machine, below: seq<Value>, a: Value, b: Value)
    requires IsBinary(op) && m.fn < |fs| && m.stack == below + [a] + [b]
    ensures Exec(op, fs, p, m) == match BinaryResult(op, a, b, p)
                                  case Ok(v) => Go(m.(stack := below + [v]))
                                  case Err(err) => Fail(err, m.out)
  {
    hide BinaryResult;
    assert m.stack[..|m.stack| - 2] == below;
  }

  lemma UnaryParts(e: Expr, k: nat, p: Profile, out: seq<Output>)
    requires e.UnaryOp? && Simple(e)
    ensures Simple(e.operand) && ConstantsOf(e) == ConstantsOf(e.operand)
    ensures CodeOf(e, k) == CodeOf(e.operand, k) + (if e.uop == Negate then [OpNeg] else [])
    ensures Eval(e, p, out) ==
            var x := Eval(e.operand, p, out);
            if x.Fails? || e.uop != Negate then x else Settle(Negated(x.v, p), x.out)
  {
    hide Negated;
  }

  lemma {:induction false} UnaryRuns(e: Expr, k: nat, fs: seq<BytecodeFunction>, p: Profile, m: Machine)
    returns (n: nat)
    requires e.UnaryOp? && Simple(e) && Ready(fs, m)
    requires Loaded(fs[m.fn], m.ip, CodeOf(e, k), k, ConstantsOf(e)) && |CodeOf(e, k)| < TWO_15
    ensures n <= |CodeOf(e, k)|
    ensures Steps(fs, p, n, Go(m)) == After(m, |CodeOf(e, k)|, Eval(e, p, m.out))
    decreases e, 0
  {
    hide CodeOf, ConstantsOf, Eval, Simple, Exec, Negated;
    UnaryParts(e, k, p, m.out);
    var a := CodeOf(e.operand, k);
    var tail := if e.uop == Negate then [OpNeg] else [];
    var x := Eval(e.operand, p, m.out);
    AtSplit(fs[m.fn].code, m.ip, a, tail);
    n := ExprRuns(e.operand, k, fs, p, m);
    if x.Done? && e.uop == Negate {
      var mx := After(m, |a|, x).m;
      ThenStep(fs, p, n, Go(m), mx, OpNeg);
      n := n + 1;
      OneOperand(mx.(ip := mx.ip + 1), m.stack, x.v);
      NegStep(fs, p, mx.(ip := mx.ip + 1));
    }
  }

  lemma OneOperand(m: Machine, below: seq<Value>, v: Value)
    requires m.stack == below + [v]
    ensures Top(m, 0) == v && Drop(m, 1) == m.(stack := below)
  {
    assert m.stack[..|m.stack| - 1] == below;
  }

  lemma NegStep(fs: seq<BytecodeFunction>, p: Profile, m: Machine)
    requires m.fn < |fs| && m.stack != []
    ensures Exec(OpNeg, fs, p, m) == Replace(m, 1, Negated(Top(m, 0), p))
  {
  }

  lemma CallParts(e: Expr, k: nat, p: Profile, out: seq<Output>)
    requires e.Call? && Simple(e)
    ensures e.func.Ident? && |e.args| == 1 && Simple(e.args[0])
    ensures CallBuiltin(e.func.name).Some? && CallBuiltin(e.func.name).value <= 3
    ensures CodeOf(e, k) == CodeOf(e.args[0], k) + [Builtin(CallBuiltin(e.func.name).value)]
    ensures ConstantsOf(e) == ConstantsOf(e.args[0])
    ensures Eval(e, p, out) ==
            var x := Eval(e.args[0], p, out);
            if x.Fails? then x else
            var (r, printed) := BuiltinResult(CallBuiltin(e.func.name).value, x.v);
            Settle(r, x.out + printed)
  {
    hide BuiltinResult;
    var rest := e.args[1..];
    assert CodeOfAll(rest, k + |ConstantsOf(e.args[0])|) == [] && ConstantsOfAll(rest) == [];
  }

  lemma {:induction false} CallRuns(e: Expr, k: nat, fs: seq<BytecodeFunction>, p: Profile, m: Machine)
    returns (n: nat)
    requires e.Call? && Simple(e) && Ready(fs, m)
    requires Loaded(fs[m.fn], m.ip, CodeOf(e, k), k, ConstantsOf(e)) && |CodeOf(e, k)| < TWO_15
    ensures n <= |CodeOf(e, k)|
    ensures Steps(fs, p, n, Go(m)) == After(m, |CodeOf(e, k)|, Eval(e, p, m.out))
    decreases e, 0
  {
    hide CodeOf, ConstantsOf, Eval, Simple, Exec, BuiltinResult, CallBuiltin;
    CallParts(e, k, p, m.out);
    var arg := e.args[0];
    var which := CallBuiltin(e.func.name).value;
    var a := CodeOf(arg, k);
    var x := Eval(arg, p, m.out);
    AtSplit(fs[m.fn].code, m.ip, a, [Builtin(which)]);
    n := ExprRuns(arg, k, fs, p, m);
    if x.Done? {
      var mx := After(m, |a|, x).m;
      ThenStep(fs, p, n, Go(m), mx, Builtin(which));
      n := n + 1;
      OneOperand(mx.(ip := mx.ip + 1), m.stack, x.v);
      BuiltinStep(fs, p, mx.(ip := mx.ip + 1), which);
    }
  }

  lemma BuiltinStep(fs: seq<BytecodeFunction>, p: Profile, m: Machine, which: u16)
    requires m.fn < |fs| && m.stack != [] && which <= 3
    ensures Exec(Builtin(which), fs, p, m) ==
            var (r, printed) := BuiltinResult(which, Top(m, 0));
            Replace(m.(out := m.out + printed), 1, r)
  {
    hide BuiltinResult;
  }

  lemma IfParts(e: Expr, k: nat, p: Profile, out: seq<Output>)
    requires e.IfExpr? && Simple(e)
    ensures Simple(e.cond) && Simple(e.thn) && Simple(e.els)
    ensures var kt := k + |ConstantsOf(e.cond)|;
            CodeOf(e, k) == CodeOf(e.cond, k) + Branches(CodeOf(e.thn, kt), CodeOf(e.els, kt + |ConstantsOf(e.thn)|))
    ensures ConstantsOf(e) == ConstantsOf(e.cond) + ConstantsOf(e.thn) + ConstantsOf(e.els)
    ensures Eval(e, p, out) ==
            var x := Eval(e.cond, p, out);
            if x.Fails? then x else if Truthy(x.v) then Eval(e.thn, p, x.out) else Eval(e.els, p, x.out)
  {
    hide Truthy, Branches;
  }

  lemma {:induction false} IfRuns(e: Expr, k: nat, fs: seq<BytecodeFunction>, p: Profile, m: Machine)
    returns (n: nat)
    requires e.IfExpr? && Simple(e) && Ready(fs, m)
    requires Loaded(fs[m.fn], m.ip, CodeOf(e, k), k, ConstantsOf(e)) && |CodeOf(e, k)| < TWO_15
    ensures n <= |CodeOf(e, k)|
    ensures Steps(fs, p, n, Go(m)) == After(m, |CodeOf(e, k)|, Eval(e, p, m.out))
    decreases e, 0
  {
    hide CodeOf, ConstantsOf, Eval, Simple, Exec, Truthy, Branches, Loaded, At;
    IfParts(e, k, p, m.out);
    var kt := k + |ConstantsOf(e.cond)|;
    var kf := kt + |ConstantsOf(e.thn)|;
    var c, thn, els := CodeOf(e.cond, k), CodeOf(e.thn, kt), CodeOf(e.els, kf);
    var x := Eval(e.cond, p, m.out);
    IfLoaded(fs[m.fn], m.ip, c, thn, els, k, ConstantsOf(e.cond), ConstantsOf(e.thn), ConstantsOf(e.els));
    n := ExprRuns(e.cond, k, fs, p, m);
    if x.Done? {
      var mx := After(m, |c|, x).m;
      ThenStep(fs, p, n, Go(m), mx, JmpIfNot(|thn| + 1));
      n := n + 1;
      BranchStep(fs, p, mx.(ip := mx.ip + 1), m.stack, x.v, |thn| + 1);
      if Truthy(x.v) {
        var mt := mx.(ip := mx.ip + 1, stack := m.stack);
        var nt := ThenRuns(e.thn, kt, fs, p, mt, |els|);
        StepsAdd(fs, p, n, nt, Go(m));
        n := n + nt;
      } else {
        var mf := mx.(ip := mx.ip + 1 + |thn| + 1, stack := m.stack);
        var nf := ExprRuns(e.els, kf, fs, p, mf);
        StepsAdd(fs, p, n, nf, Go(m));
        n := n + nf;
      }
    }
  }

  /** The then-branch and the jump over the else-branch. */
  lemma {:induction false} ThenRuns(thn: Expr, k: nat, fs: seq<BytecodeFunction>, p: Profile, m: Machine, skip: i16)
    returns (n: nat)
    requires Simple(thn) && Ready(fs, m) && skip >= 0
    requires Loaded(fs[m.fn], m.ip, CodeOf(thn, k), k, ConstantsOf(thn)) && |CodeOf(thn, k)| < TWO_15
    requires At(fs[m.fn].code, m.ip + |CodeOf(thn, k)|, [Jmp(skip)])
    ensures n <= |CodeOf(thn, k)| + 1
    ensures Steps(fs, p, n, Go(m)) == After(m, |CodeOf(thn, k)| + 1 + skip, Eval(thn, p, m.out))
    decreases thn, 2
  {
    hide CodeOf, ConstantsOf, Eval, Simple, Exec;
    n := ExprRuns(thn, k, fs, p, m);
    var y := Eval(thn, p, m.out);
    if y.Done? {
      var my := After(m, |CodeOf(thn, k)|, y).m;
      ThenStep(fs, p, n, Go(m), my, Jmp(skip));
      JumpStep(fs, p, my.(ip := my.ip + 1), skip);
      n := n + 1;
    }
  }

  lemma BranchStep(fs: seq<BytecodeFunction>, p: Profile, m: Machine, below: seq<Value>, v: Value, offset: i16)
    requires m.fn < |fs| && offset >= 0 && m.stack == below + [v]
    ensures Exec(JmpIfNot(offset), fs, p, m) ==
            Go(m.(stack := below, ip := if Truthy(v) then m.ip else m.ip + offset))
  {
    OneOperand(m, below, v);
  }

  lemma JumpStep(fs: seq<BytecodeFunction>, p: Profile, m: Machine, offset: i16)
    requires m.fn < |fs| && offset >= 0
    ensures Exec(Jmp(offset), fs, p, m) == Go(m.(ip := m.ip + offset))
  {
  }

  /** Where the parts of a conditional lie; with code this short the patched distances are exact. */
  lemma IfLoaded(f: BytecodeFunction, ip: nat, c: seq<Opcode>, thn: seq<Opcode>, els: seq<Opcode>,
                 k: nat, pc: seq<string>, pt: seq<string>, pf: seq<string>)
    requires Loaded(f, ip, c + Branches(thn, els), k, pc + pt + pf) && |c + Branches(thn, els)| < TWO_15
    ensures |c + Branches(thn, els)| == |c| + |thn| + |els| + 2
    ensures Loaded(f, ip, c, k, pc)
    ensures At(f.code, ip + |c|, [JmpIfNot(|thn| + 1)])
    ensures Loaded(f, ip + |c| + 1, thn, k + |pc|, pt)
    ensures At(f.code, ip + |c| + 1 + |thn|, [Jmp(|els|)])
    ensures Loaded(f, ip + |c| + 1 + |thn| + 1, els, k + |pc| + |pt|, pf)
  {
    hide Branches;
    BranchesAt(f.code, ip, c, thn, els);
    AtSplit(f.constants, k, pc + pt, pf);
    AtSplit(f.constants, k, pc, pt);
  }

  lemma BranchesAt(code: seq<Opcode>, ip: nat, c: seq<Opcode>, thn: seq<Opcode>, els: seq<Opcode>)
    requires At(code, ip, c + Branches(thn, els)) && |c + Branches(thn, els)| < TWO_15
    ensures |c + Branches(thn, els)| == |c| + |thn| + |els| + 2
    ensures At(code, ip, c) && At(code, ip + |c|, [JmpIfNot(|thn| + 1)]) && At(code, ip + |c| + 1, thn)
    ensures At(code, ip + |c| + 1 + |thn|, [Jmp(|els|)]) && At(code, ip + |c| + 1 + |thn| + 1, els)
  {
    var j, t := [JmpIfNot(|thn| + 1)], [Jmp(|els|)];
    assert Branches(thn, els) == j + thn + t + els;
    hide Branches, At;
    AtSplit(code, ip, c, Branches(thn, els));
    AtSplit(code, ip + |c|, j + thn + t, els);
    AtSplit(code, ip + |c|, j + thn, t);
    AtSplit(code, ip + |c|, j, thn);
  }

  lemma {:induction false} ArrayRuns(e: Expr, k: nat, fs: seq<BytecodeFunction>, p: Profile, m: Machine)
    returns (n: nat)
    requires e.Array? && Simple(e) && Ready(fs, m)
    requires Loaded(fs[m.fn], m.ip, CodeOf(e, k), k, ConstantsOf(e)) && |CodeOf(e, k)| < TWO_15
    ensures n <= |CodeOf(e, k)|
    ensures Steps(fs, p, n, Go(m)) == After(m, |CodeOf(e, k)|, Eval(e, p, m.out))
    decreases e, 0
  {
    hide CodeOf, CodeOfAll, ConstantsOf, ConstantsOfAll, Eval, EvalAll, Simple, SimpleAll, Exec, Step, Steps;
    ArrayIsSimple(e);
    var a := CodeOfAll(e.items, k);
    var xs := EvalAll(e.items, p, m.out);
    ArrayParts(e, k, p, m.out);
    AtSplit(fs[m.fn].code, m.ip, a, [MakeArray(|e.items|)]);
    n := AllRun(e.items, k, fs, p, m);
    if xs.DoneAll? {
      var mx := AfterAll(m, |a|, xs).m;
      ThenStep(fs, p, n, Go(m), mx, MakeArray(|e.items|));
      n := n + 1;
      ArrayStep(fs, p, mx.(ip := mx.ip + 1), m.stack, xs.vs);
    }
  }

  lemma ArrayIsSimple(e: Expr)
    requires e.Array? && Simple(e)
    ensures SimpleAll(e.items) && |e.items| < TWO_16
  {
  }

  lemma ArrayParts(e: Expr, k: nat, p: Profile, out: seq<Output>)
    requires e.Array? && Simple(e)
    ensures SimpleAll(e.items) && ConstantsOf(e) == ConstantsOfAll(e.items)
    ensures CodeOf(e, k) == CodeOfAll(e.items, k) + [MakeArray(|e.items|)]
    ensures var xs := EvalAll(e.items, p, out);
            Eval(e, p, out) == if xs.FailsAll? then Fails(xs.err, xs.out) else Done(VArray(xs.vs), xs.out)
  {
  }

  lemma ArrayStep(fs: seq<BytecodeFunction>, p: Profile, m: Machine, below: seq<Value>, vs: seq<Value>)
    requires m.fn < |fs| && |vs| < TWO_16 && m.stack == below + vs
    ensures Exec(MakeArray(|vs|), fs, p, m) == Go(m.(stack := below + [VArray(vs)]))
  {
    assert m.stack[|m.stack| - |vs|..] == vs && m.stack[..|m.stack| - |vs|] == below;
  }

  lemma {:induction false} AllRun(es: seq<Expr>, k: nat, fs: seq<BytecodeFunction>, p: Profile, m: Machine)
    returns (n: nat)
    requires SimpleAll(es) && Ready(fs, m)
    requires Loaded(fs[m.fn], m.ip, CodeOfAll(es, k), k, ConstantsOfAll(es)) && |CodeOfAll(es, k)| < TWO_15
    ensures n <= |CodeOfAll(es, k)|
    ensures Steps(fs, p, n, Go(m)) == AfterAll(m, |CodeOfAll(es, k)|, EvalAll(es, p, m.out))
    decreases es, 0
  {
    hide CodeOf, ConstantsOf, Eval, Simple;
    n := 0;
    if es == [] {
      assert m.stack + [] == m.stack;
    } else {
      var kr := k + |ConstantsOf(es[0])|;
      var a, b := CodeOf(es[0], k), CodeOfAll(es[1..], kr);
      LoadedSplit(fs[m.fn], m.ip, a, b, k, ConstantsOf(es[0]), ConstantsOfAll(es[1..]));
      hide Loaded, CodeOfAll, ConstantsOfAll;
      n := ExprRuns(es[0], k, fs, p, m);
      var x := Eval(es[0], p, m.out);
      if x.Done? {
        var mx := After(m, |a|, x).m;
        var nr := AllRun(es[1..], kr, fs, p, mx);
        StepsAdd(fs, p, n, nr, Go(m));
        n := n + nr;
        var xs := EvalAll(es[1..], p, mx.out);
        if xs.DoneAll? {
          Assoc(m.stack, [x.v], xs.vs);
        }
      }
    }
  }
}
