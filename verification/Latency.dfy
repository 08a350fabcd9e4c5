/** The latency verifier (compiler/src/latency.rs): a static cost analysis over declared `@latency` limits. */
module Latency {
  import opened Prelude
  import opened Ast

  const BASE := 5      // a function's own overhead
  const UNKNOWN := 10  // a call whose callee has no declared latency

  type Declared = map<string, u64>

  function Max(a: nat, b: nat): nat {
    if a < b then b else a
  }

  // ----- the costs the analyser means, as unbounded numbers -----

  function ExprCost(e: Expr, d: Declared): nat
    decreases e, 1
  {
    match e
    case BinaryOp(l, _, r) => ExprCost(l, d) + 1 + ExprCost(r, d)
    case UnaryOp(_, operand) => 1 + ExprCost(operand, d)
    case IfExpr(c, t, f) => ExprCost(c, d) + Max(ExprCost(t, d), ExprCost(f, d))
    case Call(func, args) => ExprsCost(args, d) + CallCost(func, d)
    case MemberAccess(_, _) => 1
    case Index(_, _) => 1
    case Pipe(_, _) => 1
    case MatchExpr(_, _) => 1
    case _ => 0
  }

  function CallCost(func: Expr, d: Declared): nat {
    if func.Ident? && func.name in d then d[func.name] else UNKNOWN
  }

  function ExprsCost(es: seq<Expr>, d: Declared): nat
    decreases es, 0
  {
    if es == [] then 0 else ExprCost(es[0], d) + ExprsCost(es[1..], d)
  }

  function StmtCost(s: Stmt, d: Declared): nat
    decreases s, 1
  {
    match s
    case ExprStmt(e) => ExprCost(e, d)
    case Return(Some(e)) => ExprCost(e, d)
    case If(c, t, f) => ExprCost(c, d) + Max(BlockCost(t, d), BlockCost(f, d))
    case While(c, body) => ExprCost(c, d) + BlockCost(body, d)
    case For(_, iterable, body) => ExprCost(iterable, d) + BlockCost(body, d)
    case Let(_, Some(e)) => ExprCost(e, d)
    case Const(_, Some(e)) => ExprCost(e, d)
    case _ => 1
  }

  function BlockCost(ss: seq<Stmt>, d: Declared): nat
    decreases ss, 0
  {
    if ss == [] then 0 else StmtCost(ss[0], d) + BlockCost(ss[1..], d)
  }

  function ChainCost(body: seq<Stmt>, d: Declared): nat {
    BASE + BlockCost(body, d)
  }

  // ----- the analyser itself: u64 sums, which panic on overflow in a debug build and wrap in a release build -----

  function Bounded(n: nat, p: Profile): Option<u64> {
    if n < TWO_64 then Some(n) else if p.Release? then Some(n % TWO_64) else None
  }

  function Add(a: Option<u64>, b: Option<u64>, p: Profile): Option<u64> {
    if a.Some? && b.Some? then Bounded(a.value + b.value, p) else None
  }

  function Larger(a: Option<u64>, b: Option<u64>): Option<u64> {
    if a.Some? && b.Some? then Some(Max(a.value, b.value)) else None
  }

  function ExprLatency(e: Expr, d: Declared, p: Profile): Option<u64>
    decreases e, 1
  {
    match e
    case BinaryOp(l, _, r) => Add(Add(ExprLatency(l, d, p), Some(1), p), ExprLatency(r, d, p), p)
    case UnaryOp(_, operand) => Add(Some(1), ExprLatency(operand, d, p), p)
    case IfExpr(c, t, f) => Add(ExprLatency(c, d, p), Larger(ExprLatency(t, d, p), ExprLatency(f, d, p)), p)
    case Call(func, args) => Add(ExprsLatency(args, d, p), Some(CallCost(func, d)), p)
    case MemberAccess(_, _) => Some(1)
    case Index(_, _) => Some(1)
    case Pipe(_, _) => Some(1)
    case MatchExpr(_, _) => Some(1)
    case _ => Some(0)
  }

  function ExprsLatency(es: seq<Expr>, d: Declared, p: Profile): Option<u64>
    decreases es, 0
  {
    if es == [] then Some(0) else Add(ExprLatency(es[0], d, p), ExprsLatency(es[1..], d, p), p)
  }

  function StmtLatency(s: Stmt, d: Declared, p: Profile): Option<u64>
    decreases s, 1
  {
    match s
    case ExprStmt(e) => ExprLatency(e, d, p)
    case Return(Some(e)) => ExprLatency(e, d, p)
    case If(c, t, f) => Add(ExprLatency(c, d, p), Larger(BlockLatency(t, d, p), BlockLatency(f, d, p)), p)
    case While(c, body) => Add(ExprLatency(c, d, p), BlockLatency(body, d, p), p)
    case For(_, iterable, body) => Add(ExprLatency(iterable, d, p), BlockLatency(body, d, p), p)
    case Let(_, Some(e)) => ExprLatency(e, d, p)
    case Const(_, Some(e)) => ExprLatency(e, d, p)
    case _ => Some(1)
  }

  function BlockLatency(ss: seq<Stmt>, d: Declared, p: Profile): Option<u64>
    decreases ss, 0
  {
    if ss == [] then Some(0) else Add(StmtLatency(ss[0], d, p), BlockLatency(ss[1..], d, p), p)
  }

  /** The sum the analyser gets for a cost: exact if it fits, else a panic in a debug build and some number in a release build. */
  predicate Faithful(r: Option<u64>, cost: nat, p: Profile) {
    if cost < TWO_64 then r == Some(cost) else if p.Debug? then r == None else r.Some?
  }

  lemma AddFaithful(a: Option<u64>, x: nat, b: Option<u64>, y: nat, p: Profile)
    requires Faithful(a, x, p) && Faithful(b, y, p)
    ensures Faithful(Add(a, b, p), x + y, p) && Faithful(Larger(a, b), Max(x, y), p)
  {
  }

  lemma OneFaithful(p: Profile)
    ensures Faithful(Some(1), 1, p) && Faithful(Some(0), 0, p)
  {
  }

  lemma {:induction false} ExprLatencyFaithful(e: Expr, d: Declared, p: Profile)
    ensures Faithful(ExprLatency(e, d, p), ExprCost(e, d), p)
    decreases e, 1
  {
    OneFaithful(p);
    hide Faithful, Add, Larger, Max, CallCost;
    match e {
      case BinaryOp(l, _, r) => OperatorFaithful(e, d, p);
      case UnaryOp(_, operand) =>
        ExprLatencyFaithful(operand, d, p);
        AddFaithful(Some(1), 1, ExprLatency(operand, d, p), ExprCost(operand, d), p);
      case IfExpr(c, t, f) =>
        ExprLatencyFaithful(c, d, p);
        ExprLatencyFaithful(t, d, p);
        ExprLatencyFaithful(f, d, p);
        BranchesFaithful(ExprLatency(c, d, p), ExprCost(c, d), ExprLatency(t, d, p), ExprCost(t, d),
                         ExprLatency(f, d, p), ExprCost(f, d), p);
      case Call(func, args) =>
        ExprsLatencyFaithful(args, d, p);
        CallCostFits(func, d, p);
        AddFaithful(ExprsLatency(args, d, p), ExprsCost(args, d), Some(CallCost(func, d)), CallCost(func, d), p);
      case _ =>
    }
  }

  lemma CallCostFits(func: Expr, d: Declared, p: Profile)
    ensures CallCost(func, d) < TWO_64 && Faithful(Some(CallCost(func, d)), CallCost(func, d), p)
  {
  }

  lemma {:induction false} OperatorFaithful(e: Expr, d: Declared, p: Profile)
    requires e.BinaryOp?
    ensures Faithful(ExprLatency(e, d, p), ExprCost(e, d), p)
    decreases e, 0
  {
    OneFaithful(p);
    hide Faithful, Add, Larger, Max;
    var l, r := ExprLatency(e.left, d, p), ExprLatency(e.right, d, p);
    ExprLatencyFaithful(e.left, d, p);
    ExprLatencyFaithful(e.right, d, p);
    AddFaithful(l, ExprCost(e.left, d), Some(1), 1, p);
    AddFaithful(Add(l, Some(1), p), ExprCost(e.left, d) + 1, r, ExprCost(e.right, d), p);
  }

  lemma BranchesFaithful(c: Option<u64>, x: nat, t: Option<u64>, y: nat, f: Option<u64>, z: nat, p: Profile)
    requires Faithful(c, x, p) && Faithful(t, y, p) && Faithful(f, z, p)
    ensures Faithful(Add(c, Larger(t, f), p), x + Max(y, z), p)
  {
    hide Faithful, Add, Larger, Max;
    AddFaithful(t, y, f, z, p);
    AddFaithful(c, x, Larger(t, f), Max(y, z), p);
  }

  lemma {:induction false} ExprsLatencyFaithful(es: seq<Expr>, d: Declared, p: Profile)
    ensures Faithful(ExprsLatency(es, d, p), ExprsCost(es, d), p)
    decreases es, 0
  {
    OneFaithful(p);
    hide Faithful, Add, ExprLatency, ExprCost;
    if es != [] {
      ExprLatencyFaithful(es[0], d, p);
      ExprsLatencyFaithful(es[1..], d, p);
      AddFaithful(ExprLatency(es[0], d, p), ExprCost(es[0], d), ExprsLatency(es[1..], d, p), ExprsCost(es[1..], d), p);
    }
  }

  /** In both builds the sums of a statement are faithful to its cost. */
  lemma {:induction false} StmtLatencyFaithful(s: Stmt, d: Declared, p: Profile)
    ensures Faithful(StmtLatency(s, d, p), StmtCost(s, d), p)
    decreases s, 1
  {
    OneFaithful(p);
    hide Faithful, Add, Larger, Max, ExprLatency, ExprCost;
    match s {
      case ExprStmt(e) => ExprLatencyFaithful(e, d, p);
      case Return(Some(e)) => ExprLatencyFaithful(e, d, p);
      case If(c, t, f) =>
        ExprLatencyFaithful(c, d, p);
        BlockLatencyFaithful(t, d, p);
        BlockLatencyFaithful(f, d, p);
        BranchesFaithful(ExprLatency(c, d, p), ExprCost(c, d), BlockLatency(t, d, p), BlockCost(t, d),
                         BlockLatency(f, d, p), BlockCost(f, d), p);
      case While(c, body) => LoopFaithful(c, body, d, p);
      case For(_, iterable, body) => LoopFaithful(iterable, body, d, p);
      case Let(_, Some(e)) => ExprLatencyFaithful(e, d, p);
      case Const(_, Some(e)) => ExprLatencyFaithful(e, d, p);
      case _ =>
    }
  }

  lemma {:induction false} LoopFaithful(head: Expr, body: seq<Stmt>, d: Declared, p: Profile)
    ensures Faithful(Add(ExprLatency(head, d, p), BlockLatency(body, d, p), p), ExprCost(head, d) + BlockCost(body, d), p)
    decreases body, 1
  {
    hide Faithful, Add, ExprLatency, ExprCost, BlockLatency, BlockCost;
    ExprLatencyFaithful(head, d, p);
    BlockLatencyFaithful(body, d, p);
    AddFaithful(ExprLatency(head, d, p), ExprCost(head, d), BlockLatency(body, d, p), BlockCost(body, d), p);
  }

  lemma {:induction false} BlockLatencyFaithful(ss: seq<Stmt>, d: Declared, p: Profile)
    ensures Faithful(BlockLatency(ss, d, p), BlockCost(ss, d), p)
    decreases ss, 0
  {
    OneFaithful(p);
    hide Faithful, Add, StmtLatency, StmtCost;
    if ss != [] {
      StmtLatencyFaithful(ss[0], d, p);
      BlockLatencyFaithful(ss[1..], d, p);
      AddFaithful(StmtLatency(ss[0], d, p), StmtCost(ss[0], d), BlockLatency(ss[1..], d, p), BlockCost(ss[1..], d), p);
    }
  }

  /** The running total of `analyze_call_chain` over the statements still to come. */
  function ChainFrom(total: Option<u64>, ss: seq<Stmt>, d: Declared, p: Profile): Option<u64>
    decreases ss
  {
    if total.None? || ss == [] then total else ChainFrom(Add(total, StmtLatency(ss[0], d, p), p), ss[1..], d, p)
  }

  function ChainLatency(body: seq<Stmt>, d: Declared, p: Profile): Option<u64> {
    ChainFrom(Some(BASE), body, d, p)
  }

  lemma {:induction false} ChainFromFaithful(total: Option<u64>, cost: nat, ss: seq<Stmt>, d: Declared, p: Profile)
    requires Faithful(total, cost, p)
    ensures Faithful(ChainFrom(total, ss, d, p), cost + BlockCost(ss, d), p)
    decreases ss
  {
    hide Add, StmtLatency, StmtCost;
    if total.Some? && ss != [] {
      StmtLatencyFaithful(ss[0], d, p);
      AddFaithful(total, cost, StmtLatency(ss[0], d, p), StmtCost(ss[0], d), p);
      ChainFromFaithful(Add(total, StmtLatency(ss[0], d, p), p), cost + StmtCost(ss[0], d), ss[1..], d, p);
    }
  }

  /** A function's charge is its true chain cost if that fits u64; if not, a debug build panics and a release build gets
      some number or other. */
  lemma ChainLatencyFaithful(body: seq<Stmt>, d: Declared, p: Profile)
    ensures Faithful(ChainLatency(body, d, p), ChainCost(body, d), p)
  {
    ChainFromFaithful(Some(BASE), BASE, body, d, p);
  }

  // ----- verification of a program -----

  datatype Violation = Violation(name: string, limit: u64, chain: u64)

  datatype LatencyResult = LatencyResult(errors: seq<Violation>, fnLatencies: Declared)

  predicate Annotated(s: Stmt) {
    s.Fn? && s.decl.latencyMs.Some?
  }

  /** The declared latencies; of two functions with one name the later counts. */
  function DeclaredIn(program: seq<Stmt>): Declared {
    if program == [] then map[]
    else
      var last := program[|program| - 1];
      var before := DeclaredIn(program[..|program| - 1]);
      if Annotated(last) then before[last.decl.name := last.decl.latencyMs.value] else before
  }

  /** The violations found, or None for a panic. */
  function ViolationsIn(program: seq<Stmt>, d: Declared, p: Profile): Option<seq<Violation>> {
    if program == [] then Some([])
    else
      var before := ViolationsIn(program[..|program| - 1], d, p);
      if before.None? then None else
      var last := program[|program| - 1];
      if !Annotated(last) then before
      else
        var chain := ChainLatency(last.decl.body, d, p);
        if chain.None? then None else Some(before.value + Exceeded(last.decl, chain.value))
  }

  function Exceeded(f: FnDecl, chain: u64): seq<Violation>
    requires f.latencyMs.Some?
  {
    if chain > f.latencyMs.value then [Violation(f.name, f.latencyMs.value, chain)] else []
  }

  /** Every annotated function's true chain cost fits u64. */
  predicate SumsFit(program: seq<Stmt>, d: Declared) {
    forall i :: 0 <= i < |program| && Annotated(program[i]) ==> ChainCost(program[i].decl.body, d) < TWO_64
  }

  /** A debug build gets through exactly if all true costs fit, and then a release build finds the same. */
  lemma {:induction false} BuildsAgree(program: seq<Stmt>, d: Declared)
    ensures ViolationsIn(program, d, Debug).Some? <==> SumsFit(program, d)
    ensures SumsFit(program, d) ==> ViolationsIn(program, d, Release) == ViolationsIn(program, d, Debug)
    ensures ViolationsIn(program, d, Release).Some?
  {
    hide ChainCost, ChainLatency;
    if program != [] {
      var n := |program| - 1;
      var before, last := program[..n], program[n];
      assert forall i :: 0 <= i < n ==> before[i] == program[i];
      BuildsAgree(before, d);
      if Annotated(last) {
        ChainLatencyFaithful(last.decl.body, d, Debug);
        ChainLatencyFaithful(last.decl.body, d, Release);
      }
      assert SumsFit(program, d) <==> SumsFit(before, d) && (Annotated(last) ==> ChainCost(last.decl.body, d) < TWO_64);
    }
  }

  class LatencyVerifier {
    /** `None` stands for the overflow panic of a debug build. */
    static method Verify(program: seq<Stmt>, p: Profile) returns (r: Option<LatencyResult>)
      ensures r == match ViolationsIn(program, DeclaredIn(program), p)
                   case None => None
                   case Some(errors) => Some(LatencyResult(errors, DeclaredIn(program)))
    {
      var declared: Declared := map[];
      var i := 0;
      while i < |program|
        invariant 0 <= i <= |program|
        invariant declared == DeclaredIn(program[..i])
      {
        assert program[..i + 1][..i] == program[..i];
        if program[i].Fn? && program[i].decl.latencyMs.Some? {
          declared := declared[program[i].decl.name := program[i].decl.latencyMs.value];
        }
        i := i + 1;
      }
      assert program[..|program|] == program;
      var errors: seq<Violation> := [];
      i := 0;
      while i < |program|
        invariant 0 <= i <= |program|
        invariant ViolationsIn(program[..i], declared, p) == Some(errors)
      {
        assert program[..i + 1][..i] == program[..i];
        if program[i].Fn? && program[i].decl.latencyMs.Some? {
          var limit := program[i].decl.latencyMs.value;
          var chain := AnalyzeCallChain(program[i].decl.body, declared, p);
          if chain.None? {
            PanicStays(program, declared, p, i + 1);
            return None;
          }
          assert errors + [] == errors;
          if chain.value > limit {
            errors := errors + [Violation(program[i].decl.name, limit, chain.value)];
          }
        }
        i := i + 1;
      }
      r := Some(LatencyResult(errors, declared));
    }

    static lemma {:induction false} PanicStays(program: seq<Stmt>, d: Declared, p: Profile, i: nat)
      requires i <= |program| && ViolationsIn(program[..i], d, p).None?
      ensures ViolationsIn(program, d, p).None?
      decreases |program|
    {
      if i < |program| {
        var shorter := program[..|program| - 1];
        assert shorter[..i] == program[..i];
        PanicStays(shorter, d, p, i);
      } else {
        assert program[..i] == program;
      }
    }

    static method AnalyzeCallChain(body: seq<Stmt>, d: Declared, p: Profile) returns (r: Option<u64>)
      ensures r == ChainLatency(body, d, p)
      ensures Faithful(r, ChainCost(body, d), p)
    {
      ChainLatencyFaithful(body, d, p);
      var total: u64 := BASE;
      var i := 0;
      assert body[0..] == body;
      while i < |body|
        invariant 0 <= i <= |body|
        invariant ChainFrom(Some(total), body[i..], d, p) == ChainLatency(body, d, p)
      {
        assert body[i..][0] == body[i] && body[i..][1..] == body[i + 1..];
        var sum := Add(Some(total), StmtLatency(body[i], d, p), p);
        if sum.None? {
          return None;
        }
        total := sum.value;
        i := i + 1;
      }
      r := Some(total);
    }
  }
}
