/** The bytecode compiler (dlvm/src/compiler.rs): what it emits, as functions, and the object that emits it. */
module BytecodeCompiler {
  import opened Prelude
  import opened Ast
  import opened Bytecode

  function OpcodeOf(op: BinOp): Opcode {
    match op
    case Plus => OpAdd
    case Minus => OpSub
    case Star => OpMul
    case Slash => OpDiv
    case EqEq => OpEq
    case NotEq => OpNe
    case Lt => OpLt
    case Gt => OpGt
    case Le => OpLe
    case Ge => OpGe
    case _ => OpAdd // `%`, `&&`, `||` and `=` fall back to Add
  }

  function CallBuiltin(name: string): Option<u16> {
    if name == "print" then Some(0)
    else if name == "println" then Some(1)
    else if name == "len" then Some(2)
    else if name == "assert" then Some(3)
    else None
  }

  function PipeBuiltin(name: string): Option<u16> {
    if name == "print" then Some(0)
    else if name == "println" then Some(1)
    else None
  }

  function CallOpcode(func: Expr, argc: nat): Opcode {
    if func.Ident? && CallBuiltin(func.name).Some? then Builtin(CallBuiltin(func.name).value)
    else CallFn(argc % TWO_16)
  }

  function PipeOpcode(name: string): Opcode {
    if PipeBuiltin(name).Some? then Builtin(PipeBuiltin(name).value) else CallFn(2)
  }

  // ----- the code of an expression, compiled when `k` constants are already in the pool -----

  function CodeOf(e: Expr, k: nat): seq<Opcode>
    decreases e, 1
  {
    match e
    case IntLiteral(n) => [LoadInt(n)]
    case StringLiteral(_) => [LoadStr(k % TWO_16)]
    case CharLiteral(_) => [LoadStr(k % TWO_16)]
    case BoolLiteral(b) => [LoadBool(b)]
    case BinaryOp(l, op, r) => CodeOf(l, k) + CodeOf(r, k + |ConstantsOf(l)|) + [OpcodeOf(op)]
    case UnaryOp(op, operand) => CodeOf(operand, k) + (if op == Negate then [OpNeg] else [])
    case Call(func, args) => CodeOfAll(args, k) + [CallOpcode(func, |args|)]
    case IfExpr(c, t, f) =>
      var thn := CodeOf(t, k + |ConstantsOf(c)|);
      var els := CodeOf(f, k + |ConstantsOf(c)| + |ConstantsOf(t)|);
      CodeOf(c, k) + Branches(thn, els)
    case Array(items) => CodeOfAll(items, k) + [MakeArray(|items| % TWO_16)]
    case Pipe(input, ops) => CodeOf(input, k) + CodeOfStages(ops, k + |ConstantsOf(input)|)
    case _ => [LoadNone]
  }

  /** A conditional after its condition: two patched jumps around the two branches. */
  function Branches(thn: seq<Opcode>, els: seq<Opcode>): seq<Opcode> {
    [JmpIfNot(WrapI16(|thn| + 1))] + thn + [Jmp(WrapI16(|els|))] + els
  }

  function CodeOfAll(es: seq<Expr>, k: nat): seq<Opcode>
    decreases es, 0
  {
    if es == [] then [] else CodeOf(es[0], k) + CodeOfAll(es[1..], k + |ConstantsOf(es[0])|)
  }

  function CodeOfStages(ops: seq<Stage>, k: nat): seq<Opcode>
    decreases ops, 0
  {
    if ops == [] then []
    else CodeOf(ops[0].arg, k) + [PipeOpcode(ops[0].fn)] + CodeOfStages(ops[1..], k + |ConstantsOf(ops[0].arg)|)
  }

  /** The constants an expression adds to the pool, in order. */
  function ConstantsOf(e: Expr): seq<string>
    decreases e, 1
  {
    match e
    case StringLiteral(s) => [s]
    case CharLiteral(c) => [[c]]
    case BinaryOp(l, _, r) => ConstantsOf(l) + ConstantsOf(r)
    case UnaryOp(_, operand) => ConstantsOf(operand)
    case Call(_, args) => ConstantsOfAll(args)
    case IfExpr(c, t, f) => ConstantsOf(c) + ConstantsOf(t) + ConstantsOf(f)
    case Array(items) => ConstantsOfAll(items)
    case Pipe(input, ops) => ConstantsOf(input) + ConstantsOfStages(ops)
    case _ => []
  }

  function ConstantsOfAll(es: seq<Expr>): seq<string>
    decreases es, 0
  {
    if es == [] then [] else ConstantsOf(es[0]) + ConstantsOfAll(es[1..])
  }

  function ConstantsOfStages(ops: seq<Stage>): seq<string>
    decreases ops, 0
  {
    if ops == [] then [] else ConstantsOf(ops[0].arg) + ConstantsOfStages(ops[1..])
  }

  // ----- statements and programs -----

  function CodeOfStmt(s: Stmt, k: nat): seq<Opcode> {
    match s
    case ExprStmt(e) => CodeOf(e, k)
    case Let(_, value) => CodeOfOptional(value, k)
    case Return(value) => CodeOfOptional(value, k) + [OpReturn]
    case _ => []
  }

  function CodeOfOptional(value: Option<Expr>, k: nat): seq<Opcode> {
    if value.Some? then CodeOf(value.value, k) else [LoadNone]
  }

  function ConstantsOfStmt(s: Stmt): seq<string> {
    match s
    case ExprStmt(e) => ConstantsOf(e)
    case Let(_, Some(e)) => ConstantsOf(e)
    case Return(Some(e)) => ConstantsOf(e)
    case _ => []
  }

  function CodeOfStmts(ss: seq<Stmt>, k: nat): seq<Opcode> {
    if ss == [] then [] else CodeOfStmt(ss[0], k) + CodeOfStmts(ss[1..], k + |ConstantsOfStmt(ss[0])|)
  }

  function ConstantsOfStmts(ss: seq<Stmt>): seq<string> {
    if ss == [] then [] else ConstantsOfStmt(ss[0]) + ConstantsOfStmts(ss[1..])
  }

  /** A final Return is added to non-empty code that does not end in one. */
  function Closed(code: seq<Opcode>): seq<Opcode> {
    if code == [] || code[|code| - 1] == OpReturn then code else code + [OpReturn]
  }

  function EntryOf(program: seq<Stmt>): BytecodeFunction {
    BytecodeFunction("__entry__", Closed(CodeOfStmts(program, 0)), ConstantsOfStmts(program))
  }

  /** The i16 arithmetic of the patching code measures a distance, wherever in the code it is taken. */
  lemma WrappedDistance(len: nat, idx: nat)
    ensures WrapI16(WrapI16(WrapI16(len) - WrapI16(idx)) - 1) == WrapI16(len - idx - 1)
  {
    var a, b := (len + TWO_15) / TWO_16, (idx + TWO_15) / TWO_16;
    assert WrapI16(len) - WrapI16(idx) == len - idx + (b - a) * TWO_16;
    WrapPeriod(len - idx, b - a);
    var c := (len - idx + TWO_15) / TWO_16;
    assert WrapI16(len - idx) - 1 == len - idx - 1 + (-c) * TWO_16;
    WrapPeriod(len - idx - 1, -c);
  }

  lemma WrapPeriod(n: int, k: int)
    ensures WrapI16(n + k * TWO_16) == WrapI16(n)
  {
    var q := (n + TWO_15) / TWO_16;
    assert n + k * TWO_16 + TWO_15 == (q + k) * TWO_16 + (n + TWO_15) % TWO_16;
  }

  /** With at most 32767 instructions none of these subtractions overflows, so a debug build does not panic. */
  lemma NoPatchOverflow(len: nat, idx: nat)
    requires idx < len < TWO_15
    ensures WrapI16(len) == len && WrapI16(idx) == idx && WrapI16(len - idx - 1) == len - idx - 1
  {
  }

  class Compiler {
    var functions: seq<BytecodeFunction>
    var constants: seq<string>
    var code: seq<Opcode>
    var fnName: string

    constructor ()
      ensures functions == [] && constants == [] && code == [] && fnName == "main"
    {
      functions, constants, code, fnName := [], [], [], "main";
    }

    method Compile(program: seq<Stmt>) returns (fs: seq<BytecodeFunction>)
      modifies this
      ensures fs == [EntryOf(program)]
      ensures functions == []
    {
      functions := [];
      StartFunction("__entry__");
      CompileStmts(program);
      assert code == CodeOfStmts(program, 0) && constants == ConstantsOfStmts(program);
      hide CodeOfStmts, ConstantsOfStmts;
      if code != [] {
        if code[|code| - 1] != OpReturn {
          Emit(OpReturn);
        }
      }
      FinishFunction();
      fs := functions;
      functions := [];
    }

    method CompileStmts(ss: seq<Stmt>)
      modifies this`code, this`constants
      ensures code == old(code) + CodeOfStmts(ss, |old(constants)|)
      ensures constants == old(constants) + ConstantsOfStmts(ss)
    {
      hide CodeOfStmt, ConstantsOfStmt;
      var i := 0;
      while i < |ss|
        invariant 0 <= i <= |ss|
        invariant code + CodeOfStmts(ss[i..], |constants|) == old(code) + CodeOfStmts(ss, |old(constants)|)
        invariant constants + ConstantsOfStmts(ss[i..]) == old(constants) + ConstantsOfStmts(ss)
      {
        assert ss[i..][1..] == ss[i + 1..];
        Assoc(code, CodeOfStmt(ss[i], |constants|), CodeOfStmts(ss[i + 1..], |constants| + |ConstantsOfStmt(ss[i])|));
        Assoc(constants, ConstantsOfStmt(ss[i]), ConstantsOfStmts(ss[i + 1..]));
        CompileStmt(ss[i]);
        i := i + 1;
      }
    }

    method StartFunction(name: string)
      modifies this
      ensures fnName == name && code == [] && constants == [] && functions == old(functions)
    {
      fnName, code, constants := name, [], [];
    }

    method FinishFunction()
      modifies this
      ensures functions == old(functions) + [BytecodeFunction(old(fnName), old(code), old(constants))]
      ensures fnName == "" && code == [] && constants == []
    {
      functions := functions + [BytecodeFunction(fnName, code, constants)];
      fnName, code, constants := "", [], [];
    }

    method Emit(op: Opcode)
      modifies this`code
      ensures code == old(code) + [op]
    {
      code := code + [op];
    }

    method AddConstant(s: string) returns (idx: u16)
      modifies this`constants
      ensures constants == old(constants) + [s]
      ensures idx == |old(constants)| % TWO_16
    {
      idx := |constants| % TWO_16;
      constants := constants + [s];
    }

    method CompileStmt(s: Stmt)
      modifies this`code, this`constants
      ensures code == old(code) + CodeOfStmt(s, |old(constants)|)
      ensures constants == old(constants) + ConstantsOfStmt(s)
    {
      match s {
        case ExprStmt(e) => CompileExpr(e);
        case Let(_, Some(e)) => CompileExpr(e);
        case Let(_, None) => Emit(LoadNone);
        case Return(value) =>
          if value.Some? {
            CompileExpr(value.value);
          } else {
            Emit(LoadNone);
          }
          Emit(OpReturn);
        case _ =>
      }
    }

    /** The code grows by the code of the expression; patching leaves everything before it alone. */
    method CompileExpr(e: Expr)
      modifies this`code, this`constants
      ensures code == old(code) + CodeOf(e, |old(constants)|)
      ensures constants == old(constants) + ConstantsOf(e)
      decreases e, 2
    {
      match e {
        case IntLiteral(n) => Emit(LoadInt(n));
        case StringLiteral(s) =>
          var idx := AddConstant(s);
          Emit(LoadStr(idx));
        case BoolLiteral(b) => Emit(LoadBool(b));
        case CharLiteral(c) =>
          var idx := AddConstant([c]);
          Emit(LoadStr(idx));
        case BinaryOp(_, _, _) => CompileBinary(e);
        case UnaryOp(_, _) => CompileUnary(e);
        case Call(_, _) => CompileCall(e);
        case IfExpr(_, _, _) => CompileIf(e);
        case Array(_) => CompileArray(e);
        case Pipe(_, _) => CompilePipe(e);
        case _ => Emit(LoadNone);
      }
    }

    method CompileBinary(e: Expr)
      requires e.BinaryOp?
      modifies this`code, this`constants
      ensures code == old(code) + CodeOf(e, |old(constants)|)
      ensures constants == old(constants) + ConstantsOf(e)
      decreases e, 1
    {
      ghost var k := |constants|;
      Assoc3(code, CodeOf(e.left, k), CodeOf(e.right, k + |ConstantsOf(e.left)|), [OpcodeOf(e.op)]);
      Assoc(constants, ConstantsOf(e.left), ConstantsOf(e.right));
      CompileExpr(e.left);
      CompileExpr(e.right);
      Emit(OpcodeOf(e.op));
    }

    method CompileUnary(e: Expr)
      requires e.UnaryOp?
      modifies this`code, this`constants
      ensures code == old(code) + CodeOf(e, |old(constants)|)
      ensures constants == old(constants) + ConstantsOf(e)
      decreases e, 1
    {
      CompileExpr(e.operand);
      if e.uop == Negate {
        Emit(OpNeg);
      }
    }

    method CompileArray(e: Expr)
      requires e.Array?
      modifies this`code, this`constants
      ensures code == old(code) + CodeOf(e, |old(constants)|)
      ensures constants == old(constants) + ConstantsOf(e)
      decreases e, 1
    {
      CompileAll(e.items);
      Emit(MakeArray(|e.items| % TWO_16));
    }

    method CompilePipe(e: Expr)
      requires e.Pipe?
      modifies this`code, this`constants
      ensures code == old(code) + CodeOf(e, |old(constants)|)
      ensures constants == old(constants) + ConstantsOf(e)
      decreases e, 1
    {
      hide CodeOf, CodeOfStages, ConstantsOf, ConstantsOfStages;
      ghost var k := |constants|;
      PipeParts(e, k);
      Assoc(code, CodeOf(e.input, k), CodeOfStages(e.stages, k + |ConstantsOf(e.input)|));
      Assoc(constants, ConstantsOf(e.input), ConstantsOfStages(e.stages));
      CompileExpr(e.input);
      CompileStages(e.stages);
    }

    static lemma PipeParts(e: Expr, k: nat)
      requires e.Pipe?
      ensures CodeOf(e, k) == CodeOf(e.input, k) + CodeOfStages(e.stages, k + |ConstantsOf(e.input)|)
      ensures ConstantsOf(e) == ConstantsOf(e.input) + ConstantsOfStages(e.stages)
    {
    }

    /** A call to a known builtin first emits the call and then replaces it. */
    method CompileCall(e: Expr)
      requires e.Call?
      modifies this`code, this`constants
      ensures code == old(code) + CodeOf(e, |old(constants)|)
      ensures constants == old(constants) + ConstantsOf(e)
      decreases e, 1
    {
      CompileAll(e.args);
      Emit(CallFn(|e.args| % TWO_16));
      if e.func.Ident? {
        var builtin := CallBuiltin(e.func.name);
        if builtin.Some? {
          code := code[..|code| - 1];
          Emit(Builtin(builtin.value));
        }
      }
    }

    /** Two placeholder jumps are emitted on the way and patched in place at the end. */
    method CompileIf(e: Expr)
      requires e.IfExpr?
      modifies this`code, this`constants
      ensures code == old(code) + CodeOf(e, |old(constants)|)
      ensures constants == old(constants) + ConstantsOf(e)
      decreases e, 1
    {
      hide CodeOf, ConstantsOf, Branches;
      ghost var k := |constants|;
      ghost var kc := k + |ConstantsOf(e.cond)|;
      ghost var branches := Branches(CodeOf(e.thn, kc), CodeOf(e.els, kc + |ConstantsOf(e.thn)|));
      IfParts(e, k);
      Assoc(code, CodeOf(e.cond, k), branches);
      Assoc3(constants, ConstantsOf(e.cond), ConstantsOf(e.thn), ConstantsOf(e.els));
      CompileExpr(e.cond);
      CompileBranches(e);
    }

    /** Both branches behind placeholder jumps, which are patched once the distances are known. */
    method CompileBranches(e: Expr)
      requires e.IfExpr?
      modifies this`code, this`constants
      ensures var k := |old(constants)|;
              code == old(code) + Branches(CodeOf(e.thn, k), CodeOf(e.els, k + |ConstantsOf(e.thn)|))
      ensures constants == old(constants) + ConstantsOf(e.thn) + ConstantsOf(e.els)
      decreases e, 0
    {
      hide CodeOf, ConstantsOf, Branches, WrapI16;
      ghost var k, prefix := |constants|, code;
      ghost var thn, els := CodeOf(e.thn, k), CodeOf(e.els, k + |ConstantsOf(e.thn)|);
      var jmpFalseIdx := |code|;
      Emit(JmpIfNot(0));
      CompileExpr(e.thn);
      var jmpEndIdx := |code|;
      Emit(Jmp(0));
      var falseOffset := WrapI16(WrapI16(WrapI16(|code|) - WrapI16(jmpFalseIdx)) - 1);
      WrappedDistance(|code|, jmpFalseIdx);
      CompileExpr(e.els);
      var endOffset := WrapI16(WrapI16(WrapI16(|code|) - WrapI16(jmpEndIdx)) - 1);
      WrappedDistance(|code|, jmpEndIdx);
      Patch(jmpFalseIdx, jmpEndIdx, falseOffset, endOffset, prefix, thn, els);
    }

    static lemma IfParts(e: Expr, k: nat)
      requires e.IfExpr?
      ensures var kc := k + |ConstantsOf(e.cond)|;
              CodeOf(e, k) == CodeOf(e.cond, k) + Branches(CodeOf(e.thn, kc), CodeOf(e.els, kc + |ConstantsOf(e.thn)|))
      ensures ConstantsOf(e) == ConstantsOf(e.cond) + ConstantsOf(e.thn) + ConstantsOf(e.els)
    {
      hide Branches;
    }

    method Patch(jmpFalseIdx: nat, jmpEndIdx: nat, falseOffset: i16, endOffset: i16,
                 ghost prefix: seq<Opcode>, ghost thn: seq<Opcode>, ghost els: seq<Opcode>)
      requires code == prefix + [JmpIfNot(0)] + thn + [Jmp(0)] + els
      requires jmpFalseIdx == |prefix| && jmpEndIdx == |prefix| + 1 + |thn|
      requires falseOffset == WrapI16(|thn| + 1) && endOffset == WrapI16(|els|)
      modifies this`code
      ensures code == prefix + Branches(thn, els)
    {
      hide WrapI16;
      if jmpFalseIdx < |code| && code[jmpFalseIdx].JmpIfNot? {
        code := code[jmpFalseIdx := JmpIfNot(falseOffset)];
      }
      if jmpEndIdx < |code| && code[jmpEndIdx].Jmp? {
        code := code[jmpEndIdx := Jmp(endOffset)];
      }
    }

    method CompileAll(es: seq<Expr>)
      modifies this`code, this`constants
      ensures code == old(code) + CodeOfAll(es, |old(constants)|)
      ensures constants == old(constants) + ConstantsOfAll(es)
      decreases es, 0
    {
      hide CodeOf, ConstantsOf;
      var i := 0;
      while i < |es|
        invariant 0 <= i <= |es|
        invariant code + CodeOfAll(es[i..], |constants|) == old(code) + CodeOfAll(es, |old(constants)|)
        invariant constants + ConstantsOfAll(es[i..]) == old(constants) + ConstantsOfAll(es)
      {
        assert es[i..][1..] == es[i + 1..];
        CompileExpr(es[i]);
        i := i + 1;
      }
    }

    method CompileStages(ops: seq<Stage>)
      modifies this`code, this`constants
      ensures code == old(code) + CodeOfStages(ops, |old(constants)|)
      ensures constants == old(constants) + ConstantsOfStages(ops)
      decreases ops, 0
    {
      hide CodeOf, ConstantsOf;
      var i := 0;
      while i < |ops|
        invariant 0 <= i <= |ops|
        invariant code + CodeOfStages(ops[i..], |constants|) == old(code) + CodeOfStages(ops, |old(constants)|)
        invariant constants + ConstantsOfStages(ops[i..]) == old(constants) + ConstantsOfStages(ops)
      {
        assert ops[i..][1..] == ops[i + 1..];
        var builtin := PipeBuiltin(ops[i].fn);
        CompileExpr(ops[i].arg);
        if builtin.Some? {
          Emit(Builtin(builtin.value));
        } else {
          Emit(CallFn(2));
        }
        i := i + 1;
      }
    }
  }
}
