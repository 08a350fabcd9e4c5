/** Whole runs of the scheduler: what each node's state says about the history that led to it. */
module SchedulerRuns {
  import opened Prelude
  import opened Scheduler

  /** The state after a run. */
  function After(init: seq<NodeRuntime>, h: seq<Event>): seq<NodeRuntime> {
    if h == [] then init else Apply(After(init, h[..|h| - 1]), h[|h| - 1])
  }

  predicate Monotone(h: seq<Event>) {
    forall i, j :: 0 <= i < j < |h| ==> h[i].now <= h[j].now
  }

  predicate UniqueIds(nodes: seq<NodeRuntime>) {
    forall i, j :: 0 <= i < j < |nodes| ==> nodes[i].id != nodes[j].id
  }

  /** A scheduler just built from nodes of different names, or empty. */
  predicate Started(nodes: seq<NodeRuntime>) {
    UniqueIds(nodes) && forall n :: n in nodes ==> n.breaker == Breaker(0, Closed, None)
  }

  /** The node an operation places a task on. */
  function Picked(nodes: seq<NodeRuntime>, e: Event): Option<string> {
    if e.op.Place? && Choice(nodes, e.op.required, e.now).Some?
    then Some(nodes[Choice(nodes, e.op.required, e.now).value].id) else None
  }

  /** The books on one name, from the history alone: kept since the node was last added. */
  datatype Account = Account(seed: nat, placed: nat, released: nat, failures: nat, lastFailure: nat)

  function Opened(seed: nat): Account {
    Account(seed, 0, 0, 0, 0)
  }

  function AccountOf(init: seq<NodeRuntime>, h: seq<Event>, id: string): Account {
    if h == [] then Opened(if IndexOf(init, id) < |init| then init[IndexOf(init, id)].load else 0)
    else
      var e := h[|h| - 1];
      var before := h[..|h| - 1];
      Booked(AccountOf(init, before, id), Picked(After(init, before), e), e, id)
  }

  function Booked(a: Account, picked: Option<string>, e: Event, id: string): Account {
    match e.op
    case Place(_) => if picked == Some(id) then a.(placed := a.placed + 1) else a
    case Free(r) => if r == id then a.(released := a.released + 1) else a
    case MarkFailure(f) => if f == id then a.(failures := a.failures + 1, lastFailure := e.now) else a
    case MarkSuccess(s) => if s == id then a.(failures := 0) else a
    case AddNode(n) => if n.id == id then Opened(n.load) else a
  }

  /** Every release of a name frees a slot placed earlier on the node of that name. */
  predicate Matched(init: seq<NodeRuntime>, h: seq<Event>) {
    forall i :: 0 <= i < |h| && h[i].op.Free? ==>
      AccountOf(init, h[..i], h[i].op.id).released < AccountOf(init, h[..i], h[i].op.id).placed
  }

  /** Every configured load leaves `room` below the counter's range. */
  predicate SmallSeeds(init: seq<NodeRuntime>, h: seq<Event>, room: nat) {
    && (forall n :: n in init ==> n.load + room < TWO_64)
    && (forall i :: 0 <= i < |h| && h[i].op.AddNode? ==> h[i].op.node.load + room < TWO_64)
  }

  function Clock(h: seq<Event>): nat {
    if h == [] then 0 else h[|h| - 1].now
  }

  // ----- the breaker follows the failures since the last success -----

  predicate BreakerMatches(b: Breaker, a: Account, clock: nat) {
    && b.failures == a.failures
    && (b.state == Closed <==> a.failures < THRESHOLD)
    && (a.failures >= THRESHOLD ==> b.openedAt == Some(a.lastFailure) && a.lastFailure <= clock)
    && (b.state == HalfOpen ==> clock >= a.lastFailure + COOLDOWN)
  }

  /** What an operation makes of a node it keeps, names being unique. */
  function NodeStep(n: NodeRuntime, e: Event, picked: Option<string>): NodeRuntime {
    match e.op
    case Place(required) =>
      var s := Scanned(n, required, e.now);
      if picked == Some(n.id) then s.(load := (n.load + 1) % TWO_64) else s
    case Free(id) => if n.id == id then n.(load := (n.load - 1) % TWO_64) else n
    case MarkFailure(id) => if n.id == id then n.(breaker := Failed(n.breaker, e.now)) else n
    case MarkSuccess(id) => if n.id == id then n.(breaker := Succeeded(n.breaker)) else n
    case AddNode(_) => n
  }

  lemma FoundAt(nodes: seq<NodeRuntime>, i: nat)
    requires UniqueIds(nodes) && i < |nodes|
    ensures IndexOf(nodes, nodes[i].id) == i
  {
  }

  /** An operation other than adding changes nodes in place, each by `NodeStep`. */
  lemma AppliedAt(nodes: seq<NodeRuntime>, e: Event, i: nat)
    requires UniqueIds(nodes) && !e.op.AddNode? && i < |nodes|
    ensures |Apply(nodes, e)| == |nodes| && Apply(nodes, e)[i] == NodeStep(nodes[i], e, Picked(nodes, e))
  {
    hide Scanned, Failed, Succeeded, Eligible, Choice, Placed;
    FoundAt(nodes, i);
    if e.op.Place? {
      PlacedAt(nodes, e.op.required, e.now, i);
    }
  }

  lemma PlacedAt(nodes: seq<NodeRuntime>, required: Capability, now: nat, i: nat)
    requires UniqueIds(nodes) && i < |nodes|
    ensures |Placed(nodes, required, now)| == |nodes|
    ensures var e := Event(Place(required), now);
            Placed(nodes, required, now)[i] == NodeStep(nodes[i], e, Picked(nodes, e))
  {
    hide Scanned, Choice;
    var k := Choice(nodes, required, now);
    if k.Some? && k.value != i {
      assert nodes[k.value].id != nodes[i].id;
    }
  }

  lemma {:induction false} WithoutUnique(nodes: seq<NodeRuntime>, id: string)
    requires UniqueIds(nodes)
    ensures UniqueIds(Without(nodes, id))
  {
    if nodes != [] {
      WithoutUnique(nodes[1..], id);
      var rest := Without(nodes[1..], id);
      assert forall i :: 0 <= i < |rest| ==> rest[i] in rest && rest[i] in nodes[1..];
    }
  }

  /** Every node after an operation is the node just added, or an earlier one moved by `NodeStep`. */
  lemma Survivor(nodes: seq<NodeRuntime>, e: Event, n: NodeRuntime) returns (was: NodeRuntime)
    requires UniqueIds(nodes) && n in Apply(nodes, e)
    ensures if e.op.AddNode? && n.id == e.op.node.id then n == Fresh(e.op.node)
            else was in nodes && was.id == n.id && n == NodeStep(was, e, Picked(nodes, e))
  {
    var next := Apply(nodes, e);
    was := n;
    if e.op.AddNode? {
      assert forall m :: m in Without(nodes, e.op.node.id) ==> m in nodes && m.id != e.op.node.id;
    } else {
      var i :| 0 <= i < |next| && next[i] == n;
      SameLength(nodes, e);
      AppliedAt(nodes, e, i);
      hide Apply;
      was := nodes[i];
    }
  }

  lemma SameLength(nodes: seq<NodeRuntime>, e: Event)
    requires !e.op.AddNode?
    ensures |Apply(nodes, e)| == |nodes|
  {
  }

  lemma IdsStayUnique(nodes: seq<NodeRuntime>, e: Event)
    requires UniqueIds(nodes)
    ensures UniqueIds(Apply(nodes, e))
  {
    var next := Apply(nodes, e);
    if e.op.AddNode? {
      var kept := Without(nodes, e.op.node.id);
      WithoutUnique(nodes, e.op.node.id);
      assert forall i :: 0 <= i < |kept| ==> kept[i] in kept;
    } else {
      SameLength(nodes, e);
      forall i | 0 <= i < |nodes| ensures next[i].id == nodes[i].id {
        AppliedAt(nodes, e, i);
      }
    }
  }

  lemma {:induction false} BreakersFollowHistory(init: seq<NodeRuntime>, h: seq<Event>)
    requires Started(init) && Monotone(h) && |h| < TWO_64
    ensures UniqueIds(After(init, h))
    ensures forall n :: n in After(init, h) ==>
              var a := AccountOf(init, h, n.id);
              BreakerMatches(n.breaker, a, Clock(h)) && a.failures <= |h|
  {
    hide Apply, BreakerMatches, NodeStep;
    if h == [] {
      forall n | n in init ensures BreakerMatches(n.breaker, AccountOf(init, [], n.id), 0) {
        FreshMatches(AccountOf(init, [], n.id), 0);
      }
    } else {
      var before, e := h[..|h| - 1], h[|h| - 1];
      BreakersFollowHistory(init, before);
      var nodes := After(init, before);
      IdsStayUnique(nodes, e);
      forall n | n in After(init, h)
        ensures var a := AccountOf(init, h, n.id);
                BreakerMatches(n.breaker, a, e.now) && a.failures <= |h|
      {
        var was := Survivor(nodes, e, n);
        if e.op.AddNode? && n.id == e.op.node.id {
          FreshMatches(AccountOf(init, h, n.id), e.now);
        } else {
          BreakerStep(was, e, Picked(nodes, e), AccountOf(init, before, n.id), Clock(before));
        }
      }
    }
  }

  lemma FreshMatches(a: Account, clock: nat)
    requires a.failures == 0 && a.lastFailure == 0
    ensures BreakerMatches(Breaker(0, Closed, None), a, clock)
  {
  }

  lemma BreakerStep(was: NodeRuntime, e: Event, picked: Option<string>, a: Account, clock: nat)
    requires BreakerMatches(was.breaker, a, clock) && clock <= e.now && a.failures + 1 < TWO_64
    requires !(e.op.AddNode? && e.op.node.id == was.id)
    ensures BreakerMatches(NodeStep(was, e, picked).breaker, Booked(a, picked, e, was.id), e.now)
  {
    hide Covers;
  }

  /** Whether the scheduler lets a node through is decided by the history: too many failures, too recently. */
  lemma AllowedIff(init: seq<NodeRuntime>, h: seq<Event>, n: NodeRuntime, now: nat)
    requires Started(init) && Monotone(h) && |h| < TWO_64
    requires n in After(init, h) && now >= Clock(h)
    ensures var a := AccountOf(init, h, n.id);
            && (n.breaker.state == Closed <==> a.failures < THRESHOLD)
            && (Allows(n.breaker, now) <==> a.failures < THRESHOLD || now >= a.lastFailure + COOLDOWN)
  {
    BreakersFollowHistory(init, h);
  }

  /** While the breaker is open and warm, no placement picks the node. */
  lemma NeverPickedWhileOpen(init: seq<NodeRuntime>, h: seq<Event>, required: Capability, now: nat, id: string)
    requires Started(init) && Monotone(h) && |h| < TWO_64 && now >= Clock(h)
    requires AccountOf(init, h, id).failures >= THRESHOLD && now < AccountOf(init, h, id).lastFailure + COOLDOWN
    ensures Picked(After(init, h), Event(Place(required), now)) != Some(id)
  {
    var nodes := After(init, h);
    var k := Choice(nodes, required, now);
    if k.Some? && nodes[k.value].id == id {
      ChoiceCorrect(nodes, required, now);
      AllowedIff(init, h, nodes[k.value], now);
    }
  }

  /** One more failure at or past the threshold, half-open included, opens the breaker with a fresh timer. */
  lemma FailureReopens(init: seq<NodeRuntime>, h: seq<Event>, now: nat, n: NodeRuntime)
    requires Started(init) && Monotone(h) && |h| + 1 < TWO_64 && now >= Clock(h)
    requires n in Apply(After(init, h), Event(MarkFailure(n.id), now))
    requires AccountOf(init, h, n.id).failures + 1 >= THRESHOLD
    ensures n.breaker.state == Open && n.breaker.openedAt == Some(now)
  {
    hide Apply;
    BreakersFollowHistory(init, h);
    var was := Survivor(After(init, h), Event(MarkFailure(n.id), now), n);
  }

  // ----- loads -----

  predicate LoadMatches(load: nat, a: Account) {
    a.released <= a.placed && load == a.seed + a.placed - a.released
  }

  /** Over every run whose releases match placements, each load is its seed plus placements minus releases. */
  lemma {:induction false} LoadsFollowHistory(init: seq<NodeRuntime>, h: seq<Event>, room: nat)
    requires UniqueIds(init) && Matched(init, h) && SmallSeeds(init, h, room) && |h| <= room
    ensures UniqueIds(After(init, h))
    ensures forall n :: n in After(init, h) ==>
              var a := AccountOf(init, h, n.id);
              LoadMatches(n.load, a) && a.placed <= |h| && a.seed + room < TWO_64
  {
    hide Apply, NodeStep;
    if h == [] {
      forall n | n in init ensures AccountOf(init, [], n.id) == Opened(n.load) {
        var i :| 0 <= i < |init| && init[i] == n;
        FoundAt(init, i);
      }
    } else {
      var before, e := h[..|h| - 1], h[|h| - 1];
      assert forall i :: 0 <= i < |before| ==> h[..i] == before[..i];
      LoadsFollowHistory(init, before, room);
      var nodes := After(init, before);
      IdsStayUnique(nodes, e);
      forall n | n in After(init, h)
        ensures var a := AccountOf(init, h, n.id);
                LoadMatches(n.load, a) && a.placed <= |h| && a.seed + room < TWO_64
      {
        var was := Survivor(nodes, e, n);
        if !(e.op.AddNode? && n.id == e.op.node.id) {
          LoadStep(was, e, Picked(nodes, e), AccountOf(init, before, n.id));
        }
      }
    }
  }

  lemma LoadStep(was: NodeRuntime, e: Event, picked: Option<string>, a: Account)
    requires LoadMatches(was.load, a) && a.seed + a.placed + 1 < TWO_64
    requires e.op == Free(was.id) ==> a.released < a.placed
    requires !(e.op.AddNode? && e.op.node.id == was.id)
    ensures LoadMatches(NodeStep(was, e, picked).load, Booked(a, picked, e, was.id))
  {
  }

  // ----- quota -----

  predicate WithinQuota(n: NodeRuntime) {
    n.quota.Some? ==> n.load <= n.quota.value
  }

  /** Seeds within quota keep every load within quota. */
  lemma {:induction false} QuotaHolds(init: seq<NodeRuntime>, h: seq<Event>, room: nat)
    requires UniqueIds(init) && Matched(init, h) && SmallSeeds(init, h, room) && |h| <= room
    requires forall n :: n in init ==> WithinQuota(n)
    requires forall i :: 0 <= i < |h| && h[i].op.AddNode? ==> WithinQuota(Fresh(h[i].op.node))
    ensures forall n :: n in After(init, h) ==> WithinQuota(n)
  {
    hide Apply, NodeStep, WithinQuota;
    if h != [] {
      var before, e := h[..|h| - 1], h[|h| - 1];
      assert forall i :: 0 <= i < |before| ==> h[..i] == before[..i];
      QuotaHolds(init, before, room);
      LoadsFollowHistory(init, before, room);
      var nodes := After(init, before);
      forall n | n in After(init, h) ensures WithinQuota(n) {
        var was := Survivor(nodes, e, n);
        if !(e.op.AddNode? && n.id == e.op.node.id) {
          PickedHasRoom(nodes, e, was);
          QuotaStep(was, e, Picked(nodes, e), AccountOf(init, before, n.id));
        }
      }
    }
  }

  lemma PickedHasRoom(nodes: seq<NodeRuntime>, e: Event, was: NodeRuntime)
    requires UniqueIds(nodes) && was in nodes
    ensures Picked(nodes, e) == Some(was.id) ==> HasRoom(was)
  {
    if Picked(nodes, e) == Some(was.id) {
      var i :| 0 <= i < |nodes| && nodes[i] == was;
      FoundAt(nodes, i);
      ChoiceCorrect(nodes, e.op.required, e.now);
      FoundAt(nodes, Choice(nodes, e.op.required, e.now).value);
    }
  }

  lemma QuotaStep(was: NodeRuntime, e: Event, picked: Option<string>, a: Account)
    requires WithinQuota(was) && LoadMatches(was.load, a) && a.seed + a.placed + 1 < TWO_64
    requires e.op == Free(was.id) ==> a.released < a.placed
    requires picked == Some(was.id) ==> HasRoom(was)
    ensures WithinQuota(NodeStep(was, e, picked))
  {
  }

  // ----- conservation -----

  function Total(nodes: seq<NodeRuntime>): nat {
    if nodes == [] then 0 else nodes[0].load + Total(nodes[1..])
  }

  function Placements(init: seq<NodeRuntime>, h: seq<Event>): nat {
    if h == [] then 0
    else
      var before, e := h[..|h| - 1], h[|h| - 1];
      Placements(init, before) + if Picked(After(init, before), e).Some? then 1 else 0
  }

  /** Releases that name a node there is. */
  function Releases(init: seq<NodeRuntime>, h: seq<Event>): nat {
    if h == [] then 0
    else
      var before, e := h[..|h| - 1], h[|h| - 1];
      Releases(init, before) +
      if e.op.Free? && IndexOf(After(init, before), e.op.id) < |After(init, before)| then 1 else 0
  }

  lemma {:induction false} TotalPointwise(a: seq<NodeRuntime>, b: seq<NodeRuntime>)
    requires |a| == |b| && forall i :: 0 <= i < |a| ==> a[i].load == b[i].load
    ensures Total(a) == Total(b)
  {
    if a != [] {
      TotalPointwise(a[1..], b[1..]);
    }
  }

  lemma {:induction false} TotalUpdate(a: seq<NodeRuntime>, b: seq<NodeRuntime>, k: nat)
    requires |a| == |b| && k < |a| && forall i :: 0 <= i < |a| && i != k ==> a[i].load == b[i].load
    ensures Total(b) == Total(a) - a[k].load + b[k].load
  {
    if k == 0 {
      TotalPointwise(a[1..], b[1..]);
    } else {
      TotalUpdate(a[1..], b[1..], k - 1);
    }
  }

  /** What an operation adds to the total load. */
  function Delta(nodes: seq<NodeRuntime>, e: Event): int {
    (if Picked(nodes, e).Some? then 1 else 0) - (if e.op.Free? && IndexOf(nodes, e.op.id) < |nodes| then 1 else 0)
  }

  /** One operation moves the total by exactly what it placed or released. */
  lemma TotalStep(nodes: seq<NodeRuntime>, e: Event)
    requires UniqueIds(nodes) && !e.op.AddNode?
    requires forall n :: n in nodes ==> n.load + 1 < TWO_64 && (e.op == Free(n.id) ==> n.load > 0)
    ensures Total(Apply(nodes, e)) == Total(nodes) + Delta(nodes, e)
  {
    hide Apply, NodeStep, Target, Delta, Picked, UniqueIds;
    var next := Apply(nodes, e);
    SameLength(nodes, e);
    var k := Target(nodes, e);
    forall i | 0 <= i < |nodes| && i != k ensures next[i].load == nodes[i].load {
      AppliedAt(nodes, e, i);
      Elsewhere(nodes, e, i);
    }
    if k < |nodes| {
      AppliedAt(nodes, e, k);
      AtTarget(nodes, e);
      TotalUpdate(nodes, next, k);
    } else {
      NoTarget(nodes, e);
      TotalPointwise(nodes, next);
    }
  }

  /** The index whose load an operation changes, or the length. */
  function Target(nodes: seq<NodeRuntime>, e: Event): nat {
    if e.op.Place? then
      (if Choice(nodes, e.op.required, e.now).Some? then Choice(nodes, e.op.required, e.now).value else |nodes|)
    else if e.op.Free? then IndexOf(nodes, e.op.id)
    else |nodes|
  }

  lemma Elsewhere(nodes: seq<NodeRuntime>, e: Event, i: nat)
    requires UniqueIds(nodes) && !e.op.AddNode? && i < |nodes| && i != Target(nodes, e)
    ensures NodeStep(nodes[i], e, Picked(nodes, e)).load == nodes[i].load
  {
    FoundAt(nodes, i);
    if e.op.Place? && Target(nodes, e) < |nodes| {
      FoundAt(nodes, Target(nodes, e));
    }
  }

  lemma AtTarget(nodes: seq<NodeRuntime>, e: Event)
    requires UniqueIds(nodes) && !e.op.AddNode? && Target(nodes, e) < |nodes|
    requires forall n :: n in nodes ==> n.load + 1 < TWO_64 && (e.op == Free(n.id) ==> n.load > 0)
    ensures var n := nodes[Target(nodes, e)];
            NodeStep(n, e, Picked(nodes, e)).load == n.load + Delta(nodes, e)
  {
    assert nodes[Target(nodes, e)] in nodes;
  }

  lemma NoTarget(nodes: seq<NodeRuntime>, e: Event)
    requires !e.op.AddNode? && Target(nodes, e) >= |nodes|
    ensures Delta(nodes, e) == 0
  {
  }

  /** What the nodes added on the way bring along, less what the nodes they replace were carrying. */
  function Joined(init: seq<NodeRuntime>, h: seq<Event>): int {
    if h == [] then 0
    else
      var before, e := h[..|h| - 1], h[|h| - 1];
      Joined(init, before) + if e.op.AddNode? then e.op.node.load - LoadOf(After(init, before), e.op.node.id) else 0
  }

  function LoadOf(nodes: seq<NodeRuntime>, id: string): nat {
    var i := IndexOf(nodes, id);
    if i < |nodes| then nodes[i].load else 0
  }

  lemma {:induction false} TotalWithout(nodes: seq<NodeRuntime>, id: string)
    requires UniqueIds(nodes)
    ensures Total(Without(nodes, id)) == Total(nodes) - LoadOf(nodes, id)
  {
    if nodes != [] {
      TotalWithout(nodes[1..], id);
      if nodes[0].id == id {
        assert forall n :: n in nodes[1..] ==> n.id != id;
        WithoutAbsent(nodes[1..], id);
        assert Without(nodes, id) == nodes[1..];
      } else {
        assert Without(nodes, id) == [nodes[0]] + Without(nodes[1..], id);
        assert IndexOf(nodes, id) == 1 + IndexOf(nodes[1..], id);
      }
    }
  }

  lemma {:induction false} TotalSnoc(nodes: seq<NodeRuntime>, n: NodeRuntime)
    ensures Total(nodes + [n]) == Total(nodes) + n.load
  {
    if nodes == [] {
      assert [] + [n] == [n];
    } else {
      assert (nodes + [n])[1..] == nodes[1..] + [n];
      TotalSnoc(nodes[1..], n);
    }
  }

  /** Total load is the seeds, those of added nodes included, plus placements minus releases, less the load that nodes
      replaced by an addition were carrying. */
  lemma {:induction false} LoadIsConserved(init: seq<NodeRuntime>, h: seq<Event>, room: nat)
    requires UniqueIds(init) && Matched(init, h) && SmallSeeds(init, h, room) && |h| <= room
    ensures Total(After(init, h)) == Total(init) + Joined(init, h) + Placements(init, h) - Releases(init, h)
  {
    if h != [] {
      var before, e := h[..|h| - 1], h[|h| - 1];
      assert forall i :: 0 <= i < |before| ==> h[..i] == before[..i];
      LoadIsConserved(init, before, room);
      LoadsFollowHistory(init, before, room);
      var nodes := After(init, before);
      forall n | n in nodes ensures n.load + 1 < TWO_64 && (e.op == Free(n.id) ==> n.load > 0) {
        assert LoadMatches(n.load, AccountOf(init, before, n.id));
      }
      if e.op.AddNode? {
        TotalWithout(nodes, e.op.node.id);
        TotalSnoc(Without(nodes, e.op.node.id), Fresh(e.op.node));
      } else {
        hide Apply;
        TotalStep(nodes, e);
      }
    }
  }
}
