/** Unification of type variables and ground types (compiler/src/ty.rs). */
module Unification {
  import opened Prelude

  datatype BaseType = IntT | FloatT | StringT | BoolT | CharT | NoneT | ArrayT | OptionT | ResultT | FuncT | UnknownT

  /** A concrete type: a base with at most a generic and an error parameter, and no variables inside. */
  datatype TypeRef = TypeRef(base: BaseType, genericArg: Option<TypeRef>, resultErr: Option<TypeRef>)

  datatype TypeOrVar = Concrete(t: TypeRef) | Variable(id: string)

  type Subst = map<string, TypeOrVar>

  // ----- acyclic substitutions -----

  /** `rank` drops along every binding of a variable to a bound variable. */
  ghost predicate Ranked(subst: Subst, rank: map<string, nat>) {
    && rank.Keys == subst.Keys
    && forall x :: x in subst && subst[x].Variable? && subst[x].id in subst ==> rank[subst[x].id] < rank[x]
  }

  ghost predicate Acyclic(subst: Subst) {
    exists rank :: Ranked(subst, rank)
  }

  /** `occurs_check`: inside a concrete type there is nothing for a variable to occur in. */
  predicate OccursCheck(x: string, t: TypeOrVar)
    decreases t
  {
    match t
    case Variable(y) => x == y
    case Concrete(c) => OccursIn(x, c)
  }

  predicate OccursIn(x: string, c: TypeRef) {
    (c.genericArg.Some? && OccursIn(x, c.genericArg.value)) || (c.resultErr.Some? && OccursIn(x, c.resultErr.value))
  }

  lemma {:induction false} NeverOccursInside(x: string, c: TypeRef)
    ensures !OccursIn(x, c)
  {
    if c.genericArg.Some? {
      NeverOccursInside(x, c.genericArg.value);
    }
    if c.resultErr.Some? {
      NeverOccursInside(x, c.resultErr.value);
    }
  }

  /** `apply_subst_local`; the ghost ranking is what makes it terminate. */
  function ApplySubst(subst: Subst, t: TypeOrVar, ghost rank: map<string, nat>): TypeOrVar
    requires Ranked(subst, rank)
    decreases if t.Variable? && t.id in subst then rank[t.id] + 1 else 0, t
  {
    match t
    case Variable(x) => if x in subst then ApplySubst(subst, subst[x], rank) else t
    case Concrete(c) => Concrete(ApplyInside(subst, c))
  }

  /** On a concrete type: rebuilt along its parameters, except that a lone error parameter is kept as it is. */
  function ApplyInside(subst: Subst, c: TypeRef): TypeRef {
    var g := if c.genericArg.Some? then Some(ApplyInside(subst, c.genericArg.value)) else None;
    var e := if c.resultErr.Some? then Some(ApplyInside(subst, c.resultErr.value)) else None;
    if g.Some? then TypeRef(c.base, g, e) else c
  }

  lemma {:induction false} ApplyInsideIsIdentity(subst: Subst, c: TypeRef)
    ensures ApplyInside(subst, c) == c
  {
    if c.genericArg.Some? {
      ApplyInsideIsIdentity(subst, c.genericArg.value);
    }
    if c.resultErr.Some? {
      ApplyInsideIsIdentity(subst, c.resultErr.value);
    }
  }

  /** The result is a concrete type or an unbound variable, whatever the ranking. */
  lemma {:induction false} ApplyResolves(subst: Subst, t: TypeOrVar, rank: map<string, nat>, other: map<string, nat>)
    requires Ranked(subst, rank) && Ranked(subst, other)
    ensures var r := ApplySubst(subst, t, rank);
            && (r.Variable? ==> r.id !in subst)
            && r == ApplySubst(subst, t, other)
            && (t.Concrete? ==> r == t)
    decreases if t.Variable? && t.id in subst then rank[t.id] + 1 else 0
  {
    if t.Concrete? {
      ApplyInsideIsIdentity(subst, t.t);
    } else if t.id in subst {
      ApplyResolves(subst, subst[t.id], rank, other);
    }
  }

  lemma ApplyIsIdempotent(subst: Subst, t: TypeOrVar, rank: map<string, nat>)
    requires Ranked(subst, rank)
    ensures ApplySubst(subst, ApplySubst(subst, t, rank), rank) == ApplySubst(subst, t, rank)
  {
    ApplyResolves(subst, t, rank, rank);
    ApplyResolves(subst, ApplySubst(subst, t, rank), rank, rank);
  }

  // ----- agreement -----

  /** What unifying two concrete types checks: an error parameter only counts when both sides have one. */
  predicate Agree(a: TypeRef, b: TypeRef) {
    && a.base == b.base
    && a.genericArg.Some? == b.genericArg.Some?
    && (a.genericArg.Some? ==> Agree(a.genericArg.value, b.genericArg.value))
    && (a.resultErr.Some? && b.resultErr.Some? ==> Agree(a.resultErr.value, b.resultErr.value))
  }

  predicate AgreeTypes(a: TypeOrVar, b: TypeOrVar) {
    match (a, b)
    case (Concrete(x), Concrete(y)) => Agree(x, y)
    case _ => a == b
  }

  lemma {:induction false} AgreeReflexive(a: TypeRef)
    ensures Agree(a, a)
  {
    if a.genericArg.Some? {
      AgreeReflexive(a.genericArg.value);
    }
    if a.resultErr.Some? {
      AgreeReflexive(a.resultErr.value);
    }
  }

  // ----- unifiers -----

  /** A ground assignment that makes both sides of every binding equal. */
  type Assignment = string -> TypeRef

  function Value(theta: Assignment, t: TypeOrVar): TypeRef {
    match t
    case Variable(x) => theta(x)
    case Concrete(c) => c
  }

  ghost predicate Satisfies(theta: Assignment, subst: Subst) {
    forall x :: x in subst ==> theta(x) == Value(theta, subst[x])
  }

  lemma {:induction false} ApplyKeepsValue(theta: Assignment, subst: Subst, t: TypeOrVar, rank: map<string, nat>)
    requires Ranked(subst, rank) && Satisfies(theta, subst)
    ensures Value(theta, ApplySubst(subst, t, rank)) == Value(theta, t)
    decreases if t.Variable? && t.id in subst then rank[t.id] + 1 else 0
  {
    if t.Concrete? {
      ApplyInsideIsIdentity(subst, t.t);
    } else if t.id in subst {
      ApplyKeepsValue(theta, subst, subst[t.id], rank);
    }
  }

  // ----- binding -----

  /** Binding an unbound variable to something resolved and different keeps the substitution acyclic. */
  function Bound(rank: map<string, nat>, x: string): map<string, nat> {
    (map y | y in rank :: rank[y] + 1)[x := 0]
  }

  lemma BindingStaysRanked(subst: Subst, rank: map<string, nat>, x: string, t: TypeOrVar)
    requires Ranked(subst, rank) && x !in subst
    requires t.Variable? ==> t.id !in subst && t.id != x
    ensures Ranked(subst[x := t], Bound(rank, x))
  {
  }

  /** Resolving under the extended substitution: the new binding is looked up where the old resolution stopped. */
  lemma {:induction false} ApplyAfterBinding(subst: Subst, rank: map<string, nat>, x: string, u: TypeOrVar, t: TypeOrVar)
    requires Ranked(subst, rank) && x !in subst
    requires u.Variable? ==> u.id !in subst && u.id != x
    ensures Ranked(subst[x := u], Bound(rank, x))
    ensures var r := ApplySubst(subst, t, rank);
            ApplySubst(subst[x := u], t, Bound(rank, x)) == if r == Variable(x) then u else r
    decreases if t.Variable? && t.id in subst then rank[t.id] + 1 else 0
  {
    BindingStaysRanked(subst, rank, x, u);
    if t.Concrete? {
      ApplyInsideIsIdentity(subst, t.t);
      ApplyInsideIsIdentity(subst[x := u], t.t);
    } else if t.id in subst {
      ApplyAfterBinding(subst, rank, x, u, subst[t.id]);
    } else if t.id == x {
      ApplyResolves(subst[x := u], u, Bound(rank, x), Bound(rank, x));
    }
  }

  /** `bind` */
  method Bind(x: string, t: TypeOrVar, subst: Subst) returns (ok: bool, subst': Subst)
    ensures ok <==> t != Variable(x)
    ensures subst' == if ok then subst[x := t] else subst
  {
    if t.Concrete? {
      NeverOccursInside(x, t.t);
    }
    if OccursCheck(x, t) {
      return false, subst;
    }
    ok, subst' := true, subst[x := t];
  }

  /** The meaning of `unify`: whether it succeeds, and the substitution afterwards. */
  function Unified(t1: TypeOrVar, t2: TypeOrVar, subst: Subst, ghost rank: map<string, nat>): (bool, Subst)
    requires Ranked(subst, rank)
  {
    var a, b := ApplySubst(subst, t1, rank), ApplySubst(subst, t2, rank);
    if a.Variable? then (a != b, if a != b then subst[a.id := b] else subst)
    else if b.Variable? then (true, subst[b.id := a])
    else (Agree(a.t, b.t), subst)
  }

  /** The source's recursion: both sides are resolved, then compared parameter by parameter. */
  method Unify(t1: TypeOrVar, t2: TypeOrVar, subst: Subst, ghost rank: map<string, nat>) returns (ok: bool, subst': Subst)
    requires Ranked(subst, rank)
    ensures (ok, subst') == Unified(t1, t2, subst, rank)
    decreases if t1.Concrete? && t2.Concrete? then 0 else 1, t1
  {
    ApplyResolves(subst, t1, rank, rank);
    ApplyResolves(subst, t2, rank, rank);
    var a, b := Resolve(t1, subst, rank), Resolve(t2, subst, rank);
    if a.Variable? {
      ok, subst' := Bind(a.id, b, subst);
    } else if b.Variable? {
      ok, subst' := Bind(b.id, a, subst);
    } else {
      ok, subst' := UnifyConcrete(a.t, b.t, subst, rank);
    }
  }

  function Resolve(t: TypeOrVar, subst: Subst, ghost rank: map<string, nat>): TypeOrVar
    requires Ranked(subst, rank)
  {
    ApplySubst(subst, t, rank)
  }

  /** The last arm of `unify`, whose recursive calls are on concrete types again. */
  method UnifyConcrete(a: TypeRef, b: TypeRef, subst: Subst, ghost rank: map<string, nat>) returns (ok: bool, subst': Subst)
    requires Ranked(subst, rank)
    ensures ok == Agree(a, b) && subst' == subst
    decreases a
  {
    subst' := subst;
    if a.base != b.base {
      return false, subst;
    }
    if a.genericArg.Some? && b.genericArg.Some? {
      ApplyInsideIsIdentity(subst, a.genericArg.value);
      ApplyInsideIsIdentity(subst, b.genericArg.value);
      ok, subst' := UnifyConcrete(ApplyInside(subst, a.genericArg.value), ApplyInside(subst, b.genericArg.value), subst', rank);
      if !ok {
        return;
      }
    } else if a.genericArg.Some? || b.genericArg.Some? {
      return false, subst;
    }
    if a.resultErr.Some? && b.resultErr.Some? {
      ApplyInsideIsIdentity(subst, a.resultErr.value);
      ApplyInsideIsIdentity(subst, b.resultErr.value);
      ok, subst' := UnifyConcrete(ApplyInside(subst, a.resultErr.value), ApplyInside(subst, b.resultErr.value), subst', rank);
      return;
    }
    ok := true;
  }

  // ----- what unification promises -----

  /** The substitution stays acyclic, and a failure leaves it alone. */
  lemma UnifyStaysAcyclic(t1: TypeOrVar, t2: TypeOrVar, subst: Subst, rank: map<string, nat>)
    requires Ranked(subst, rank)
    ensures Acyclic(Unified(t1, t2, subst, rank).1)
    ensures !Unified(t1, t2, subst, rank).0 ==> Unified(t1, t2, subst, rank).1 == subst
  {
    ApplyResolves(subst, t1, rank, rank);
    ApplyResolves(subst, t2, rank, rank);
    var a, b := ApplySubst(subst, t1, rank), ApplySubst(subst, t2, rank);
    if a.Variable? && a != b {
      BindingStaysRanked(subst, rank, a.id, b);
    } else if !a.Variable? && b.Variable? {
      BindingStaysRanked(subst, rank, b.id, a);
    } else {
      assert Ranked(Unified(t1, t2, subst, rank).1, rank);
    }
  }

  /** After success both sides resolve to types that agree. */
  lemma UnifyMakesAgree(t1: TypeOrVar, t2: TypeOrVar, subst: Subst, rank: map<string, nat>) returns (rank': map<string, nat>)
    requires Ranked(subst, rank) && Unified(t1, t2, subst, rank).0
    ensures var s := Unified(t1, t2, subst, rank).1;
            Ranked(s, rank') && AgreeTypes(ApplySubst(s, t1, rank'), ApplySubst(s, t2, rank'))
  {
    ApplyResolves(subst, t1, rank, rank);
    ApplyResolves(subst, t2, rank, rank);
    var a, b := ApplySubst(subst, t1, rank), ApplySubst(subst, t2, rank);
    rank' := rank;
    if a.Variable? {
      rank' := Bound(rank, a.id);
      ApplyAfterBinding(subst, rank, a.id, b, t1);
      ApplyAfterBinding(subst, rank, a.id, b, t2);
      if b.Concrete? {
        AgreeReflexive(b.t);
      }
    } else if b.Variable? {
      rank' := Bound(rank, b.id);
      ApplyAfterBinding(subst, rank, b.id, a, t1);
      ApplyAfterBinding(subst, rank, b.id, a, t2);
      AgreeReflexive(a.t);
    }
  }

  /** Every assignment that satisfies the old bindings and equates the two sides satisfies the new bindings too. */
  lemma UnifyIsMostGeneral(t1: TypeOrVar, t2: TypeOrVar, subst: Subst, rank: map<string, nat>, theta: Assignment)
    requires Ranked(subst, rank) && Satisfies(theta, subst) && Value(theta, t1) == Value(theta, t2)
    ensures Satisfies(theta, Unified(t1, t2, subst, rank).1)
  {
    ApplyKeepsValue(theta, subst, t1, rank);
    ApplyKeepsValue(theta, subst, t2, rank);
  }

  /** And an assignment that satisfies the new bindings satisfied the old ones: nothing is forgotten. */
  lemma UnifyKeepsBindings(t1: TypeOrVar, t2: TypeOrVar, subst: Subst, rank: map<string, nat>, theta: Assignment)
    requires Ranked(subst, rank) && Satisfies(theta, Unified(t1, t2, subst, rank).1)
    ensures Satisfies(theta, subst)
  {
    ApplyResolves(subst, t1, rank, rank);
    ApplyResolves(subst, t2, rank, rank);
    var s := Unified(t1, t2, subst, rank).1;
    forall x | x in subst ensures theta(x) == Value(theta, subst[x]) {
      assert x in s && s[x] == subst[x];
    }
  }

  /** A unifiable pair fails exactly when both sides resolve to one and the same unbound variable. */
  lemma UnifiableFailsIff(t1: TypeOrVar, t2: TypeOrVar, subst: Subst, rank: map<string, nat>, theta: Assignment)
    requires Ranked(subst, rank) && Satisfies(theta, subst) && Value(theta, t1) == Value(theta, t2)
    ensures !Unified(t1, t2, subst, rank).0 <==>
              ApplySubst(subst, t1, rank).Variable? && ApplySubst(subst, t1, rank) == ApplySubst(subst, t2, rank)
  {
    ApplyKeepsValue(theta, subst, t1, rank);
    ApplyKeepsValue(theta, subst, t2, rank);
    var a, b := ApplySubst(subst, t1, rank), ApplySubst(subst, t2, rank);
    if a.Concrete? && b.Concrete? {
      AgreeReflexive(a.t);
    }
  }

  /** Unifying a variable with itself is reported as an infinite type. */
  lemma SelfUnificationFails(x: string)
    ensures Ranked(map[], map[]) && Unified(Variable(x), Variable(x), map[], map[]) == (false, map[])
  {
  }
}
