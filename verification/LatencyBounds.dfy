/** What a clean latency verification guarantees: an acyclic call graph and bounded executions. */
module LatencyBounds {
  import opened Prelude
  import opened Ast
  import opened Chains
  import opened Latency

  type Functions = map<string, FnDecl>

  /** Every function has a declared latency and no two share a name. */
  predicate WellAnnotated(program: seq<Stmt>) {
    && (forall i :: 0 <= i < |program| && program[i].Fn? ==> program[i].decl.latencyMs.Some?)
    && (forall i, j :: 0 <= i < j < |program| && program[i].Fn? && program[j].Fn? ==>
          program[i].decl.name != program[j].decl.name)
  }

  function FunctionsIn(program: seq<Stmt>): Functions {
    if program == [] then map[]
    else
      var last := program[|program| - 1];
      var before := FunctionsIn(program[..|program| - 1]);
      if last.Fn? then before[last.decl.name := last.decl] else before
  }

  /** The analyser finished and reported nothing. */
  predicate CleanResult(program: seq<Stmt>, p: Profile) {
    ViolationsIn(program, DeclaredIn(program), p) == Some([])
  }

  /** A clean result of a release build means something only if no true cost leaves u64. */
  predicate NothingWraps(program: seq<Stmt>, p: Profile) {
    p.Release? ==> SumsFit(program, DeclaredIn(program))
  }

  function Limit(fs: Functions, f: string): nat
    requires f in fs && fs[f].latencyMs.Some?
  {
    fs[f].latencyMs.value
  }

  /** The limits the analyser used are the functions' own, and every body stays within its function's limit. */
  ghost predicate WithinLimits(fs: Functions, d: Declared) {
    && (forall f :: f in fs ==> fs[f].latencyMs.Some?)
    && d.Keys == fs.Keys
    && (forall f :: f in fs ==> d[f] == Limit(fs, f) && ChainCost(fs[f].body, d) <= Limit(fs, f))
  }

  lemma CleanMeansWithin(program: seq<Stmt>, p: Profile)
    requires WellAnnotated(program) && CleanResult(program, p) && NothingWraps(program, p)
    ensures WithinLimits(FunctionsIn(program), DeclaredIn(program))
  {
    var d, fs := DeclaredIn(program), FunctionsIn(program);
    BuildsAgree(program, d);
    Collected(program, d);
    forall f | f in fs ensures ChainCost(fs[f].body, d) <= Limit(fs, f) {
      var i :| 0 <= i < |program| && program[i] == Fn(fs[f]);
      NoViolationAt(program, d, i);
    }
  }

  /** A clean result of a release build means that every function keeps its limit exactly if no true cost leaves u64. */
  lemma CleanMeansWithinIff(program: seq<Stmt>)
    requires WellAnnotated(program) && CleanResult(program, Release)
    ensures WithinLimits(FunctionsIn(program), DeclaredIn(program)) <==> SumsFit(program, DeclaredIn(program))
  {
    var fs, d := FunctionsIn(program), DeclaredIn(program);
    if SumsFit(program, d) {
      CleanMeansWithin(program, Release);
    }
    if WithinLimits(fs, d) {
      forall i | 0 <= i < |program| && Annotated(program[i])
        ensures ChainCost(program[i].decl.body, d) < TWO_64
      {
        FoundByName(program, i);
      }
    }
  }

  lemma {:induction false} FoundByName(program: seq<Stmt>, i: nat)
    requires WellAnnotated(program) && i < |program| && program[i].Fn?
    ensures program[i].decl.name in FunctionsIn(program) && FunctionsIn(program)[program[i].decl.name] == program[i].decl
  {
    var n := |program| - 1;
    if i < n {
      assert program[..n][i] == program[i];
      FoundByName(program[..n], i);
    }
  }

  lemma {:induction false} Collected(program: seq<Stmt>, d: Declared)
    requires forall i :: 0 <= i < |program| && program[i].Fn? ==> program[i].decl.latencyMs.Some?
    ensures DeclaredIn(program).Keys == FunctionsIn(program).Keys
    ensures forall f :: f in FunctionsIn(program) ==>
              && (exists i :: 0 <= i < |program| && program[i] == Fn(FunctionsIn(program)[f]))
              && FunctionsIn(program)[f].latencyMs == Some(DeclaredIn(program)[f])
  {
    if program != [] {
      var n := |program| - 1;
      var before := program[..n];
      Collected(before, d);
      forall f | f in FunctionsIn(program)
        ensures exists i :: 0 <= i < |program| && program[i] == Fn(FunctionsIn(program)[f])
      {
        if program[n].Fn? && f == program[n].decl.name {
          assert program[n] == Fn(FunctionsIn(program)[f]);
        } else {
          var i :| 0 <= i < n && before[i] == Fn(FunctionsIn(before)[f]);
          assert program[i] == before[i];
        }
      }
    }
  }

  lemma {:induction false} NoViolationAt(program: seq<Stmt>, d: Declared, i: nat)
    requires i < |program| && Annotated(program[i]) && ViolationsIn(program, d, Debug) == Some([])
    ensures ChainCost(program[i].decl.body, d) <= program[i].decl.latencyMs.value
  {
    hide ChainCost, ChainLatency;
    ChainLatencyFaithful(program[i].decl.body, d, Debug);
    var n := |program| - 1;
    var before := program[..n];
    assert ViolationsIn(before, d, Debug).Some?;
    assert ViolationsIn(before, d, Debug).value == [];
    if i < n {
      assert before[i] == program[i];
      NoViolationAt(before, d, i);
    }
  }

  // ----- calls the analyser counts -----

  function CallsOf(e: Expr): set<string>
    decreases e, 1
  {
    match e
    case BinaryOp(l, _, r) => CallsOf(l) + CallsOf(r)
    case UnaryOp(_, operand) => CallsOf(operand)
    case IfExpr(c, t, f) => CallsOf(c) + CallsOf(t) + CallsOf(f)
    case Call(func, args) => CallsOfAll(args) + (if func.Ident? then {func.name} else {})
    case _ => {}
  }

  function CallsOfAll(es: seq<Expr>): set<string>
    decreases es, 0
  {
    if es == [] then {} else CallsOf(es[0]) + CallsOfAll(es[1..])
  }

  function CallsOfStmt(s: Stmt): set<string>
    decreases s, 1
  {
    match s
    case ExprStmt(e) => CallsOf(e)
    case Return(Some(e)) => CallsOf(e)
    case If(c, t, f) => CallsOf(c) + CallsOfBlock(t) + CallsOfBlock(f)
    case While(c, body) => CallsOf(c) + CallsOfBlock(body)
    case For(_, iterable, body) => CallsOf(iterable) + CallsOfBlock(body)
    case Let(_, Some(e)) => CallsOf(e)
    case Const(_, Some(e)) => CallsOf(e)
    case _ => {}
  }

  function CallsOfBlock(ss: seq<Stmt>): set<string>
    decreases ss, 0
  {
    if ss == [] then {} else CallsOfStmt(ss[0]) + CallsOfBlock(ss[1..])
  }

  /** A counted call costs at least what its callee declares. */
  lemma {:induction false} CallsAreCharged(e: Expr, d: Declared, f: string)
    requires f in CallsOf(e) && f in d
    ensures ExprCost(e, d) >= d[f]
    decreases e, 1
  {
    match e {
      case BinaryOp(l, _, r) => if f in CallsOf(l) { CallsAreCharged(l, d, f); } else { CallsAreCharged(r, d, f); }
      case UnaryOp(_, operand) => CallsAreCharged(operand, d, f);
      case IfExpr(c, t, g) =>
        if f in CallsOf(c) {
          CallsAreCharged(c, d, f);
        } else if f in CallsOf(t) {
          CallsAreCharged(t, d, f);
        } else {
          CallsAreCharged(g, d, f);
        }
      case Call(_, args) => if f in CallsOfAll(args) { ArgumentsAreCharged(args, d, f); }
    }
  }

  lemma {:induction false} ArgumentsAreCharged(es: seq<Expr>, d: Declared, f: string)
    requires f in CallsOfAll(es) && f in d
    ensures ExprsCost(es, d) >= d[f]
    decreases es, 0
  {
    if f in CallsOf(es[0]) {
      CallsAreCharged(es[0], d, f);
    } else {
      ArgumentsAreCharged(es[1..], d, f);
    }
  }

  lemma {:induction false} StmtCallsAreCharged(s: Stmt, d: Declared, f: string)
    requires f in CallsOfStmt(s) && f in d
    ensures StmtCost(s, d) >= d[f]
    decreases s, 1
  {
    match s {
      case ExprStmt(e) => CallsAreCharged(e, d, f);
      case Return(Some(e)) => CallsAreCharged(e, d, f);
      case If(c, t, g) =>
        if f in CallsOf(c) {
          CallsAreCharged(c, d, f);
        } else if f in CallsOfBlock(t) {
          BlockCallsAreCharged(t, d, f);
        } else {
          BlockCallsAreCharged(g, d, f);
        }
      case While(c, body) => if f in CallsOf(c) { CallsAreCharged(c, d, f); } else { BlockCallsAreCharged(body, d, f); }
      case For(_, c, body) => if f in CallsOf(c) { CallsAreCharged(c, d, f); } else { BlockCallsAreCharged(body, d, f); }
      case Let(_, Some(e)) => CallsAreCharged(e, d, f);
      case Const(_, Some(e)) => CallsAreCharged(e, d, f);
    }
  }

  lemma {:induction false} BlockCallsAreCharged(ss: seq<Stmt>, d: Declared, f: string)
    requires f in CallsOfBlock(ss) && f in d
    ensures BlockCost(ss, d) >= d[f]
    decreases ss, 0
  {
    if f in CallsOfStmt(ss[0]) {
      StmtCallsAreCharged(ss[0], d, f);
    } else {
      BlockCallsAreCharged(ss[1..], d, f);
    }
  }

  function CallGraph(fs: Functions): (es: set<(string, string)>)
    ensures forall f, g :: (f, g) in es <==> f in fs && g in CallsOfBlock(fs[f].body) && g in fs
  {
    set f, g | f in fs && g in CallsOfBlock(fs[f].body) && g in fs :: (f, g)
  }

  /** Along a chain of counted calls the limit drops by at least five with each call. */
  lemma {:induction false} ChainLimit(fs: Functions, d: Declared, p: seq<string>)
    requires WithinLimits(fs, d) && Chain(CallGraph(fs), p) && p[0] in fs
    ensures p[|p| - 1] in fs && Limit(fs, p[|p| - 1]) + BASE * (|p| - 1) <= Limit(fs, p[0])
    decreases |p|
  {
    if |p| > 1 {
      assert (p[0], p[1]) in CallGraph(fs);
      BlockCallsAreCharged(fs[p[0]].body, d, p[1]);
      ChainLimit(fs, d, p[1..]);
    }
  }

  /** A clean program of annotated functions has no counted recursion, and no call chain longer than limit / 5. */
  lemma CleanCallGraph(program: seq<Stmt>, p: Profile)
    requires WellAnnotated(program) && CleanResult(program, p) && NothingWraps(program, p)
    ensures var fs := FunctionsIn(program);
            && !Cyclic(CallGraph(fs))
            && (forall f :: f in fs ==> fs[f].latencyMs.Some?)
            && (forall f, g :: (f, g) in CallGraph(fs) ==> Limit(fs, g) + BASE <= Limit(fs, f))
            && (forall q :: Chain(CallGraph(fs), q) && q[0] in fs ==> |q| <= Limit(fs, q[0]) / BASE)
  {
    var fs, d := FunctionsIn(program), DeclaredIn(program);
    CleanMeansWithin(program, p);
    forall f, g | (f, g) in CallGraph(fs) ensures Limit(fs, g) + BASE <= Limit(fs, f) {
      BlockCallsAreCharged(fs[f].body, d, g);
    }
    forall q | Chain(CallGraph(fs), q) && q[0] in fs ensures |q| <= Limit(fs, q[0]) / BASE {
      ChainLimit(fs, d, q);
    }
    if Cyclic(CallGraph(fs)) {
      var q :| Chain(CallGraph(fs), q) && |q| >= 2 && q[0] == q[|q| - 1];
      assert (q[0], q[1]) in CallGraph(fs);
      ChainLimit(fs, d, q);
    }
  }

  // ----- executions under the analyser's unit costs -----

  /** The forms whose cost the analyser really adds up: no loop, match, try, assert, array or member. */
  predicate Counted(e: Expr)
    decreases e, 1
  {
    match e
    case IntLiteral(_) => true
    case StringLiteral(_) => true
    case BoolLiteral(_) => true
    case CharLiteral(_) => true
    case Ident(_) => true
    case BinaryOp(l, _, r) => Counted(l) && Counted(r)
    case UnaryOp(_, operand) => Counted(operand)
    case IfExpr(c, t, f) => Counted(c) && Counted(t) && Counted(f)
    case Call(func, args) => func.Ident? && CountedAll(args)
    case _ => false
  }

  predicate CountedAll(es: seq<Expr>)
    decreases es, 0
  {
    es == [] || (Counted(es[0]) && CountedAll(es[1..]))
  }

  predicate CountedStmt(s: Stmt)
    decreases s, 1
  {
    match s
    case ExprStmt(e) => Counted(e)
    case Return(value) => value.Some? ==> Counted(value.value)
    case Let(_, value) => value.Some? ==> Counted(value.value)
    case Const(_, value) => value.Some? ==> Counted(value.value)
    case If(c, t, f) => Counted(c) && CountedBlock(t) && CountedBlock(f)
    case _ => false
  }

  predicate CountedBlock(ss: seq<Stmt>)
    decreases ss, 0
  {
    ss == [] || (CountedStmt(ss[0]) && CountedBlock(ss[1..]))
  }

  /** Some execution of `e`, calls nested at most `depth` deep, costs `c`. Uncounted forms may cost anything. */
  ghost predicate ExprRun(fs: Functions, e: Expr, c: nat, depth: nat)
    decreases depth, 1, e, 1
  {
    match e
    case IntLiteral(_) => c == 0
    case StringLiteral(_) => c == 0
    case BoolLiteral(_) => c == 0
    case CharLiteral(_) => c == 0
    case Ident(_) => c == 0
    case BinaryOp(l, _, r) => exists a: nat, b: nat :: ExprRun(fs, l, a, depth) && ExprRun(fs, r, b, depth) && c == a + 1 + b
    case UnaryOp(_, operand) => exists a: nat :: ExprRun(fs, operand, a, depth) && c == 1 + a
    case IfExpr(cond, t, f) =>
      exists a: nat, b: nat :: ExprRun(fs, cond, a, depth) && (ExprRun(fs, t, b, depth) || ExprRun(fs, f, b, depth)) && c == a + b
    case Call(func, args) =>
      exists a: nat, b: nat :: ExprsRun(fs, args, a, depth) && CalleeRun(fs, func, b, depth) && c == a + b
    case _ => true
  }

  ghost predicate ExprsRun(fs: Functions, es: seq<Expr>, c: nat, depth: nat)
    decreases depth, 1, es, 0
  {
    if es == [] then c == 0
    else exists a: nat, b: nat :: ExprRun(fs, es[0], a, depth) && ExprsRun(fs, es[1..], b, depth) && c == a + b
  }

  /** A call runs the callee's body; a function the program does not define costs the default. */
  ghost predicate CalleeRun(fs: Functions, func: Expr, c: nat, depth: nat)
    decreases depth, 0
  {
    if func.Ident? && func.name in fs then depth > 0 && BodyRun(fs, fs[func.name].body, c, depth - 1)
    else c == UNKNOWN
  }

  ghost predicate BodyRun(fs: Functions, body: seq<Stmt>, c: nat, depth: nat)
    decreases depth, 2
  {
    exists b: nat, returned: bool :: BlockRun(fs, body, b, returned, depth) && c == BASE + b
  }

  ghost predicate StmtRun(fs: Functions, s: Stmt, c: nat, returned: bool, depth: nat)
    decreases depth, 1, s, 1
  {
    match s
    case ExprStmt(e) => !returned && ExprRun(fs, e, c, depth)
    case Return(value) => returned && if value.Some? then ExprRun(fs, value.value, c, depth) else c == 1
    case Let(_, value) => !returned && if value.Some? then ExprRun(fs, value.value, c, depth) else c == 1
    case Const(_, value) => !returned && if value.Some? then ExprRun(fs, value.value, c, depth) else c == 1
    case If(cond, t, f) =>
      exists a: nat, b: nat ::
        && ExprRun(fs, cond, a, depth) && c == a + b
        && (BlockRun(fs, t, b, returned, depth) || BlockRun(fs, f, b, returned, depth))
    case _ => true
  }

  /** A block runs to its end or to the statement that returns. */
  ghost predicate BlockRun(fs: Functions, ss: seq<Stmt>, c: nat, returned: bool, depth: nat)
    decreases depth, 1, ss, 0
  {
    if ss == [] then !returned && c == 0
    else
      || (returned && StmtRun(fs, ss[0], c, true, depth))
      || exists a: nat, b: nat :: StmtRun(fs, ss[0], a, false, depth) && BlockRun(fs, ss[1..], b, returned, depth) && c == a + b
  }

  ghost predicate AllCounted(fs: Functions) {
    forall f :: f in fs ==> CountedBlock(fs[f].body)
  }

  /** No execution of a counted expression costs more than the analyser charges for it. */
  lemma {:induction false} ExprBounded(fs: Functions, d: Declared, e: Expr, c: nat, depth: nat)
    requires WithinLimits(fs, d) && AllCounted(fs) && Counted(e) && ExprRun(fs, e, c, depth)
    ensures c <= ExprCost(e, d)
    decreases depth, 1, e, 1
  {
    match e {
      case BinaryOp(l, _, r) =>
        var a: nat, b: nat :| ExprRun(fs, l, a, depth) && ExprRun(fs, r, b, depth) && c == a + 1 + b;
        ExprBounded(fs, d, l, a, depth);
        ExprBounded(fs, d, r, b, depth);
      case UnaryOp(_, operand) =>
        var a: nat :| ExprRun(fs, operand, a, depth) && c == 1 + a;
        ExprBounded(fs, d, operand, a, depth);
      case IfExpr(cond, t, f) =>
        var a: nat, b: nat :| ExprRun(fs, cond, a, depth) && (ExprRun(fs, t, b, depth) || ExprRun(fs, f, b, depth)) && c == a + b;
        ExprBounded(fs, d, cond, a, depth);
        if ExprRun(fs, t, b, depth) {
          ExprBounded(fs, d, t, b, depth);
        } else {
          ExprBounded(fs, d, f, b, depth);
        }
      case Call(func, args) =>
        var a: nat, b: nat :| ExprsRun(fs, args, a, depth) && CalleeRun(fs, func, b, depth) && c == a + b;
        ExprsBounded(fs, d, args, a, depth);
        if func.name in fs {
          BodyBounded(fs, d, func.name, b, depth - 1);
        }
      case _ =>
    }
  }

  lemma {:induction false} ExprsBounded(fs: Functions, d: Declared, es: seq<Expr>, c: nat, depth: nat)
    requires WithinLimits(fs, d) && AllCounted(fs) && CountedAll(es) && ExprsRun(fs, es, c, depth)
    ensures c <= ExprsCost(es, d)
    decreases depth, 1, es, 0
  {
    if es != [] {
      var a: nat, b: nat :| ExprRun(fs, es[0], a, depth) && ExprsRun(fs, es[1..], b, depth) && c == a + b;
      ExprBounded(fs, d, es[0], a, depth);
      ExprsBounded(fs, d, es[1..], b, depth);
    }
  }

  /** No execution of a function costs more than it declares. */
  lemma {:induction false} BodyBounded(fs: Functions, d: Declared, f: string, c: nat, depth: nat)
    requires WithinLimits(fs, d) && AllCounted(fs) && f in fs && BodyRun(fs, fs[f].body, c, depth)
    ensures c <= Limit(fs, f)
    decreases depth, 2
  {
    var b: nat, returned: bool :| BlockRun(fs, fs[f].body, b, returned, depth) && c == BASE + b;
    BlockBounded(fs, d, fs[f].body, b, returned, depth);
  }

  lemma {:induction false} StmtBounded(fs: Functions, d: Declared, s: Stmt, c: nat, returned: bool, depth: nat)
    requires WithinLimits(fs, d) && AllCounted(fs) && CountedStmt(s) && StmtRun(fs, s, c, returned, depth)
    ensures c <= StmtCost(s, d)
    decreases depth, 1, s, 1
  {
    match s {
      case ExprStmt(e) => ExprBounded(fs, d, e, c, depth);
      case Return(value) => if value.Some? { ExprBounded(fs, d, value.value, c, depth); }
      case Let(_, value) => if value.Some? { ExprBounded(fs, d, value.value, c, depth); }
      case Const(_, value) => if value.Some? { ExprBounded(fs, d, value.value, c, depth); }
      case If(cond, t, f) =>
        var a: nat, b: nat :|
          && ExprRun(fs, cond, a, depth) && c == a + b
          && (BlockRun(fs, t, b, returned, depth) || BlockRun(fs, f, b, returned, depth));
        ExprBounded(fs, d, cond, a, depth);
        if BlockRun(fs, t, b, returned, depth) {
          BlockBounded(fs, d, t, b, returned, depth);
        } else {
          BlockBounded(fs, d, f, b, returned, depth);
        }
    }
  }

  lemma {:induction false} BlockBounded(fs: Functions, d: Declared, ss: seq<Stmt>, c: nat, returned: bool, depth: nat)
    requires WithinLimits(fs, d) && AllCounted(fs) && CountedBlock(ss) && BlockRun(fs, ss, c, returned, depth)
    ensures c <= BlockCost(ss, d)
    decreases depth, 1, ss, 0
  {
    if ss != [] {
      if returned && StmtRun(fs, ss[0], c, true, depth) {
        StmtBounded(fs, d, ss[0], c, true, depth);
      } else {
        var a: nat, b: nat :| StmtRun(fs, ss[0], a, false, depth) && BlockRun(fs, ss[1..], b, returned, depth) && c == a + b;
        StmtBounded(fs, d, ss[0], a, false, depth);
        BlockBounded(fs, d, ss[1..], b, returned, depth);
      }
    }
  }

  // ----- the bound is not vacuous: limit / 5 levels of calls always suffice -----

  ghost predicate DeepEnough(fs: Functions, calls: set<string>, depth: nat) {
    forall g :: g in calls && g in fs && fs[g].latencyMs.Some? ==> Limit(fs, g) <= BASE * depth
  }

  lemma {:induction false} ExprRuns(fs: Functions, d: Declared, e: Expr, depth: nat) returns (c: nat)
    requires WithinLimits(fs, d) && AllCounted(fs) && Counted(e) && DeepEnough(fs, CallsOf(e), depth)
    ensures ExprRun(fs, e, c, depth)
    decreases depth, 1, e, 1
  {
    c := 0;
    match e {
      case BinaryOp(l, _, r) =>
        var a := ExprRuns(fs, d, l, depth);
        var b := ExprRuns(fs, d, r, depth);
        c := a + 1 + b;
      case UnaryOp(_, operand) =>
        var a := ExprRuns(fs, d, operand, depth);
        c := 1 + a;
      case IfExpr(cond, t, _) =>
        var a := ExprRuns(fs, d, cond, depth);
        var b := ExprRuns(fs, d, t, depth);
        c := a + b;
      case Call(func, args) =>
        var a := ArgumentsRun(fs, d, args, depth);
        var b := UNKNOWN;
        if func.name in fs {
          b := BodyRuns(fs, d, func.name, depth - 1);
        }
        assert CalleeRun(fs, func, b, depth);
        c := a + b;
      case _ =>
    }
  }

  lemma {:induction false} ArgumentsRun(fs: Functions, d: Declared, es: seq<Expr>, depth: nat) returns (c: nat)
    requires WithinLimits(fs, d) && AllCounted(fs) && CountedAll(es) && DeepEnough(fs, CallsOfAll(es), depth)
    ensures ExprsRun(fs, es, c, depth)
    decreases depth, 1, es, 0
  {
    c := 0;
    if es != [] {
      var a := ExprRuns(fs, d, es[0], depth);
      var b := ArgumentsRun(fs, d, es[1..], depth);
      c := a + b;
    }
  }

  /** A function whose limit allows one more level than `depth` runs within `depth` levels of calls. */
  lemma {:induction false} BodyRuns(fs: Functions, d: Declared, f: string, depth: nat) returns (c: nat)
    requires WithinLimits(fs, d) && AllCounted(fs) && f in fs && Limit(fs, f) <= BASE * (depth + 1)
    ensures BodyRun(fs, fs[f].body, c, depth)
    decreases depth, 2
  {
    forall g | g in CallsOfBlock(fs[f].body) && g in fs ensures Limit(fs, g) <= BASE * depth {
      BlockCallsAreCharged(fs[f].body, d, g);
    }
    var b, returned := BlockRuns(fs, d, fs[f].body, depth);
    c := BASE + b;
  }

  lemma {:induction false} StmtRuns(fs: Functions, d: Declared, s: Stmt, depth: nat) returns (c: nat, returned: bool)
    requires WithinLimits(fs, d) && AllCounted(fs) && CountedStmt(s) && DeepEnough(fs, CallsOfStmt(s), depth)
    ensures StmtRun(fs, s, c, returned, depth)
    decreases depth, 1, s, 1
  {
    c, returned := 1, s.Return?;
    match s {
      case ExprStmt(e) => c := ExprRuns(fs, d, e, depth);
      case Return(value) => if value.Some? { c := ExprRuns(fs, d, value.value, depth); }
      case Let(_, value) => if value.Some? { c := ExprRuns(fs, d, value.value, depth); }
      case Const(_, value) => if value.Some? { c := ExprRuns(fs, d, value.value, depth); }
      case If(cond, t, _) =>
        var a := ExprRuns(fs, d, cond, depth);
        var b, early := BlockRuns(fs, d, t, depth);
        c, returned := a + b, early;
    }
  }

  lemma {:induction false} BlockRuns(fs: Functions, d: Declared, ss: seq<Stmt>, depth: nat) returns (c: nat, returned: bool)
    requires WithinLimits(fs, d) && AllCounted(fs) && CountedBlock(ss) && DeepEnough(fs, CallsOfBlock(ss), depth)
    ensures BlockRun(fs, ss, c, returned, depth)
    decreases depth, 1, ss, 0
  {
    c, returned := 0, false;
    if ss != [] {
      c, returned := StmtRuns(fs, d, ss[0], depth);
      if !returned {
        var b, early := BlockRuns(fs, d, ss[1..], depth);
        c, returned := c + b, early;
      }
    }
  }

  /** In a clean program every function has an execution with at most limit / 5 levels of calls. */
  lemma CleanFunctionsRun(program: seq<Stmt>, p: Profile, f: string) returns (c: nat)
    requires WellAnnotated(program) && CleanResult(program, p) && NothingWraps(program, p)
    requires AllCounted(FunctionsIn(program)) && f in FunctionsIn(program)
    ensures FunctionsIn(program)[f].latencyMs.Some?
    ensures BodyRun(FunctionsIn(program), FunctionsIn(program)[f].body, c, Limit(FunctionsIn(program), f) / BASE)
  {
    CleanMeansWithin(program, p);
    c := BodyRuns(FunctionsIn(program), DeclaredIn(program), f, Limit(FunctionsIn(program), f) / BASE);
  }

  /** A clean verification bounds every execution of every function, however deep its calls go. */
  lemma CleanExecutions(program: seq<Stmt>, p: Profile, f: string, c: nat, depth: nat)
    requires WellAnnotated(program) && CleanResult(program, p) && NothingWraps(program, p) && AllCounted(FunctionsIn(program))
    requires f in FunctionsIn(program) && BodyRun(FunctionsIn(program), FunctionsIn(program)[f].body, c, depth)
    ensures FunctionsIn(program)[f].latencyMs.Some? && c <= Limit(FunctionsIn(program), f)
  {
    CleanMeansWithin(program, p);
    BodyBounded(FunctionsIn(program), DeclaredIn(program), f, c, depth);
  }

  // ----- a release build whose sums wrap -----

  const HALF: u64 := 0x8000_0000_0000_0000

  function Limited(name: string, limit: u64, body: seq<Stmt>): Stmt {
    Fn(FnDecl(name, [], body, Some(limit), false, None, None))
  }

  const F := Limited("f", BASE, [ExprStmt(Call(Ident("g"), []))] + [ExprStmt(Call(Ident("h"), []))])
  const G := Limited("g", HALF, [])
  const H := Limited("h", HALF, [])
  const WRAPPING := [] + [F] + [G] + [H]

  lemma Snoc(before: seq<Stmt>, s: Stmt, d: Declared, p: Profile)
    requires Annotated(s)
    ensures DeclaredIn(before + [s]) == DeclaredIn(before)[s.decl.name := s.decl.latencyMs.value]
    ensures FunctionsIn(before + [s]) == FunctionsIn(before)[s.decl.name := s.decl]
    ensures ViolationsIn(before, d, p) == Some([]) && ChainLatency(s.decl.body, d, p).Some?
            && ChainLatency(s.decl.body, d, p).value <= s.decl.latencyMs.value
            ==> ViolationsIn(before + [s], d, p) == Some([])
  {
    hide ChainLatency;
    assert (before + [s])[..|before|] == before;
    var none: seq<Violation> := [];
    assert none + none == none;
  }

  lemma CallLatency(name: string, d: Declared, p: Profile)
    requires name in d
    ensures StmtLatency(ExprStmt(Call(Ident(name), [])), d, p) == Some(d[name])
    ensures StmtCost(ExprStmt(Call(Ident(name), [])), d) == d[name]
  {
    var e := Call(Ident(name), []);
    assert ExprsLatency([], d, p) == Some(0) && ExprsCost([], d) == 0;
    assert CallCost(e.func, d) == d[name] && ExprLatency(e, d, p) == Some(d[name]) && ExprCost(e, d) == d[name];
  }

  lemma TwoCallsWrap(d: Declared)
    requires d.Keys == {"f", "g", "h"} && d["f"] == BASE && d["g"] == d["h"] == HALF
    ensures ChainLatency(F.decl.body, d, Release) == Some(BASE)
    ensures ChainCost(F.decl.body, d) == TWO_64 + BASE
  {
    var g, h := ExprStmt(Call(Ident("g"), [])), ExprStmt(Call(Ident("h"), []));
    CallLatency("g", d, Release);
    CallLatency("h", d, Release);
    hide StmtLatency, StmtCost;
    var body := F.decl.body;
    assert body == [g, h] && body[1..] == [h] && [h][1..] == [];
    assert Add(Some(BASE), Some(HALF), Release) == Some(BASE + HALF);
    assert Add(Some(BASE + HALF), Some(HALF), Release) == Some(BASE);
    assert ChainFrom(Some(BASE + HALF), [h], d, Release) == Some(BASE);
    assert BlockCost([h], d) == HALF;
  }

  /** `f` may take 5 and calls two functions that may take 2^63 each: the true cost is 2^64 + 5, the release sum is 5, and
      nothing is reported. A debug build panics. */
  lemma WrappedSumIsClean()
    ensures WellAnnotated(WRAPPING)
    ensures ViolationsIn(WRAPPING, DeclaredIn(WRAPPING), Release) == Some([])
    ensures ViolationsIn(WRAPPING, DeclaredIn(WRAPPING), Debug) == None
    ensures var fs := FunctionsIn(WRAPPING);
            && "f" in fs && "g" in fs && ("f", "g") in CallGraph(fs)
            && fs["f"].latencyMs == Some(BASE) && fs["g"].latencyMs == Some(HALF)
  {
    hide ChainLatency, ChainCost, DeclaredIn, FunctionsIn, ViolationsIn;
    var none: seq<Stmt> := [];
    var d := WrappingDeclares();
    TwoCallsWrap(d);
    ChainLatencyFaithful([], d, Release);
    assert ChainCost([], d) == BASE by { EmptyCost(d); }
    NoStatements(d);
    Snoc(none, F, d, Release);
    Snoc(none + [F], G, d, Release);
    Snoc(none + [F] + [G], H, d, Release);
    BuildsAgree(WRAPPING, d);
    assert WRAPPING[0] == F;
    FCallsG();
  }

  lemma EmptyCost(d: Declared)
    ensures ChainCost([], d) == BASE
  {
  }

  lemma NoStatements(d: Declared)
    ensures ViolationsIn([], d, Release) == Some([]) && DeclaredIn([]) == map[] && FunctionsIn([]) == map[]
  {
  }

  lemma WrappingDeclares() returns (d: Declared)
    ensures d == DeclaredIn(WRAPPING)
    ensures d.Keys == {"f", "g", "h"} && d["f"] == BASE && d["g"] == d["h"] == HALF
  {
    d := DeclaredIn(WRAPPING);
    var none: seq<Stmt> := [];
    NoStatements(d);
    hide ChainLatency, DeclaredIn, FunctionsIn, ViolationsIn;
    Snoc(none, F, d, Release);
    Snoc(none + [F], G, d, Release);
    Snoc(none + [F] + [G], H, d, Release);
  }

  lemma FCallsG()
    ensures "g" in CallsOfBlock(F.decl.body)
  {
    var g := ExprStmt(Call(Ident("g"), []));
    assert F.decl.body[0] == g && "g" in CallsOfStmt(g);
  }
}
