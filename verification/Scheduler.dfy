/** The capability scheduler (control-plane/src/scheduler.rs): placement, quota and circuit breaker. */
module Scheduler {
  import opened Prelude

  datatype Capability = Cpu | Gpu | Sfa | Net

  function Rank(c: Capability): nat {
    match c
    case Cpu => 0
    case Gpu => 1
    case Sfa => 2
    case Net => 3
  }

  const THRESHOLD := 3
  const COOLDOWN := 30_000 // thirty seconds, in milliseconds of the abstract clock

  datatype BreakerState = Closed | Open | HalfOpen

  datatype Breaker = Breaker(failures: u64, state: BreakerState, openedAt: Option<nat>)

  /** A node's configuration: what `new` and `add_node` are given. */
  datatype Node = Node(id: string, capabilities: set<Capability>, load: u64, quota: Option<u64>)

  datatype NodeRuntime = NodeRuntime(id: string, capabilities: set<Capability>, load: u64, quota: Option<u64>, breaker: Breaker)

  function Fresh(n: Node): NodeRuntime {
    NodeRuntime(n.id, n.capabilities, n.load, n.quota, Breaker(0, Closed, None))
  }

  // ----- one breaker -----

  /** `allow`: its answer, and the breaker afterwards. */
  predicate Allows(b: Breaker, now: nat) {
    b.state != Open || (b.openedAt.Some? && now >= b.openedAt.value + COOLDOWN)
  }

  function Probed(b: Breaker, now: nat): Breaker {
    if b.state == Open && Allows(b, now) then b.(state := HalfOpen) else b
  }

  function Failed(b: Breaker, now: nat): Breaker {
    var f := (b.failures + 1) % TWO_64;
    if f >= THRESHOLD then Breaker(f, Open, Some(now)) else b.(failures := f)
  }

  function Succeeded(b: Breaker): Breaker {
    b.(failures := 0, state := Closed)
  }

  // ----- placement -----

  predicate Covers(n: NodeRuntime, required: Capability) {
    exists c :: c in n.capabilities && Rank(required) <= Rank(c)
  }

  predicate HasRoom(n: NodeRuntime) {
    n.quota.Some? ==> n.load < n.quota.value
  }

  predicate Eligible(n: NodeRuntime, required: Capability, now: nat) {
    Covers(n, required) && Allows(n.breaker, now) && HasRoom(n)
  }

  /** The scan asks the breaker of every capable node, and an open one that has cooled down goes half-open. */
  function Scanned(n: NodeRuntime, required: Capability, now: nat): NodeRuntime {
    if Covers(n, required) then n.(breaker := Probed(n.breaker, now)) else n
  }

  function ScanAll(nodes: seq<NodeRuntime>, required: Capability, now: nat): (r: seq<NodeRuntime>)
    ensures |r| == |nodes| && forall i :: 0 <= i < |nodes| ==> r[i] == Scanned(nodes[i], required, now)
  {
    if nodes == [] then [] else [Scanned(nodes[0], required, now)] + ScanAll(nodes[1..], required, now)
  }

  /** Node `k` is the first of the least loaded eligible ones. */
  predicate IsBest(nodes: seq<NodeRuntime>, required: Capability, now: nat, k: nat) {
    && k < |nodes| && Eligible(nodes[k], required, now)
    && forall j :: 0 <= j < |nodes| && Eligible(nodes[j], required, now) ==>
         nodes[k].load <= nodes[j].load && (j < k ==> nodes[k].load < nodes[j].load)
  }

  /** The choice of `place`, if there is one. */
  function Choice(nodes: seq<NodeRuntime>, required: Capability, now: nat): (r: Option<nat>)
    ensures r.Some? ==> r.value < |nodes|
  {
    if nodes == [] then None
    else
      var n := |nodes| - 1;
      var best := Choice(nodes[..n], required, now);
      if !Eligible(nodes[n], required, now) then best
      else if best.None? || nodes[n].load < nodes[best.value].load then Some(n)
      else best
  }

  /** It is the first least-loaded eligible node, and there is none only when no node is eligible. */
  lemma {:induction false} ChoiceCorrect(nodes: seq<NodeRuntime>, required: Capability, now: nat)
    ensures Choice(nodes, required, now).None? <==> forall j :: 0 <= j < |nodes| ==> !Eligible(nodes[j], required, now)
    ensures Choice(nodes, required, now).Some? ==> IsBest(nodes, required, now, Choice(nodes, required, now).value)
  {
    hide Eligible;
    if nodes != [] {
      var n := |nodes| - 1;
      ChoiceCorrect(nodes[..n], required, now);
      assert forall j :: 0 <= j < n ==> nodes[..n][j] == nodes[j];
    }
  }

  lemma ChoiceIsBest(nodes: seq<NodeRuntime>, required: Capability, now: nat, k: nat)
    requires IsBest(nodes, required, now, k)
    ensures Choice(nodes, required, now) == Some(k)
  {
    hide Eligible;
    ChoiceCorrect(nodes, required, now);
  }

  lemma NoChoice(required: Capability, now: nat)
    ensures Choice([], required, now) == None
  {
  }

  /** The choice among one node more. */
  lemma ChoiceSnoc(nodes: seq<NodeRuntime>, required: Capability, now: nat, n: nat)
    requires n < |nodes|
    ensures var best := Choice(nodes[..n], required, now);
            Choice(nodes[..n + 1], required, now) ==
            if Eligible(nodes[n], required, now) && (best.None? || nodes[n].load < nodes[best.value].load) then Some(n)
            else best
  {
    hide Eligible;
    assert nodes[..n + 1][..n] == nodes[..n];
  }

  // ----- one operation -----

  datatype Op = Place(required: Capability) | Free(id: string) | MarkFailure(id: string) | MarkSuccess(id: string) | AddNode(node: Node)

  datatype Event = Event(op: Op, now: nat)

  /** `iter().find(id)`: the first node of that name, or the length. */
  function IndexOf(nodes: seq<NodeRuntime>, id: string): (i: nat)
    ensures i <= |nodes| && (i < |nodes| ==> nodes[i].id == id)
    ensures forall j :: 0 <= j < i ==> nodes[j].id != id
  {
    if nodes == [] || nodes[0].id == id then 0 else 1 + IndexOf(nodes[1..], id)
  }

  /** `retain(|n| n.id != id)` */
  function Without(nodes: seq<NodeRuntime>, id: string): (r: seq<NodeRuntime>)
    ensures forall n :: n in r <==> n in nodes && n.id != id
  {
    if nodes == [] then [] else (if nodes[0].id != id then [nodes[0]] else []) + Without(nodes[1..], id)
  }

  lemma {:induction false} WithoutAbsent(nodes: seq<NodeRuntime>, id: string)
    requires forall n :: n in nodes ==> n.id != id
    ensures Without(nodes, id) == nodes
  {
    if nodes != [] {
      WithoutAbsent(nodes[1..], id);
    }
  }

  lemma {:induction false} WithoutAppended(a: seq<NodeRuntime>, n: NodeRuntime)
    ensures Without(a + [n], n.id) == Without(a, n.id)
  {
    if a != [] {
      assert (a + [n])[1..] == a[1..] + [n];
      WithoutAppended(a[1..], n);
    }
  }

  /** Of the node that was added there is exactly one afterwards, last, with its seed as load and a closed breaker; the
      nodes of other names keep their state and their order. */
  lemma AddReplaces(nodes: seq<NodeRuntime>, node: Node, now: nat)
    ensures Replaces(nodes, Apply(nodes, Event(AddNode(node), now)), node)
  {
    var kept := Without(nodes, node.id);
    assert forall i :: 0 <= i < |kept| ==> kept[i] in kept;
    WithoutAbsent(kept, node.id);
    WithoutAppended(kept, Fresh(node));
  }

  ghost predicate Replaces(before: seq<NodeRuntime>, after: seq<NodeRuntime>, node: Node) {
    && after != []
    && (forall i :: 0 <= i < |after| ==> (after[i].id == node.id <==> i == |after| - 1))
    && after[|after| - 1].load == node.load
    && after[|after| - 1].capabilities == node.capabilities && after[|after| - 1].quota == node.quota
    && after[|after| - 1].breaker.state == Closed && after[|after| - 1].breaker.failures == 0
    && Without(after, node.id) == Without(before, node.id)
  }

  function Placed(nodes: seq<NodeRuntime>, required: Capability, now: nat): seq<NodeRuntime> {
    var scanned := ScanAll(nodes, required, now);
    var k := Choice(nodes, required, now);
    if k.None? then scanned
    else scanned[k.value := scanned[k.value].(load := (nodes[k.value].load + 1) % TWO_64)]
  }

  function Apply(nodes: seq<NodeRuntime>, e: Event): seq<NodeRuntime> {
    match e.op
    case Place(required) => Placed(nodes, required, e.now)
    case Free(id) =>
      var i := IndexOf(nodes, id);
      if i == |nodes| then nodes else nodes[i := nodes[i].(load := (nodes[i].load - 1) % TWO_64)]
    case MarkFailure(id) =>
      var i := IndexOf(nodes, id);
      if i == |nodes| then nodes else nodes[i := nodes[i].(breaker := Failed(nodes[i].breaker, e.now))]
    case MarkSuccess(id) =>
      var i := IndexOf(nodes, id);
      if i == |nodes| then nodes else nodes[i := nodes[i].(breaker := Succeeded(nodes[i].breaker))]
    case AddNode(node) => Without(nodes, node.id) + [Fresh(node)]
  }

  lemma {:induction false} PlacedIs(nodes: seq<NodeRuntime>, required: Capability, now: nat)
    ensures var scanned, k := ScanAll(nodes, required, now), Choice(nodes, required, now);
            Apply(nodes, Event(Place(required), now)) ==
            if k.None? then scanned
            else scanned[k.value := scanned[k.value].(load := (nodes[k.value].load + 1) % TWO_64)]
  {
    hide Choice, ScanAll;
  }

  class CapabilityScheduler {
    var nodes: seq<NodeRuntime>

    constructor (configured: seq<Node>)
      ensures |nodes| == |configured| && forall i :: 0 <= i < |nodes| ==> nodes[i] == Fresh(configured[i])
    {
      nodes := seq(|configured|, i requires 0 <= i < |configured| => Fresh(configured[i]));
    }

    /** Scans once, remembering the best node so far, then takes a slot on it. */
    method PlaceTask(required: Capability, now: nat) returns (picked: Option<string>)
      modifies this
      ensures nodes == Apply(old(nodes), Event(Place(required), now))
      ensures match Choice(old(nodes), required, now)
              case None => picked == None
              case Some(k) => picked == Some(old(nodes)[k].id)
    {
      hide Choice, Probed, Allows, ScanAll, Covers, HasRoom, Apply, Placed;
      PlacedIs(nodes, required, now);
      ghost var before := nodes;
      NoChoice(required, now);
      var best: Option<nat> := None;
      var i := 0;
      while i < |nodes|
        invariant 0 <= i <= |nodes| == |before|
        invariant forall j :: 0 <= j < |nodes| ==> nodes[j] == if j < i then Scanned(before[j], required, now) else before[j]
        invariant best == Choice(before[..i], required, now) && (best.Some? ==> best.value < i)
        decreases |nodes| - i
      {
        ChoiceSnoc(before, required, now, i);
        var n := nodes[i];
        if Covers(n, required) {
          var allowed := Allows(n.breaker, now);
          nodes := nodes[i := n.(breaker := Probed(n.breaker, now))];
          if allowed && HasRoom(n) {
            if best.None? || n.load < nodes[best.value].load {
              best := Some(i);
            }
          }
        }
        i := i + 1;
      }
      assert before[..|before|] == before;
      assert nodes == ScanAll(before, required, now);
      if best.None? {
        return None;
      }
      picked := Some(nodes[best.value].id);
      nodes := nodes[best.value := nodes[best.value].(load := (nodes[best.value].load + 1) % TWO_64)];
    }

    method ReleaseSlot(id: string, now: nat)
      modifies this
      ensures nodes == Apply(old(nodes), Event(Free(id), now))
    {
      var i := Find(id);
      if i < |nodes| {
        nodes := nodes[i := nodes[i].(load := (nodes[i].load - 1) % TWO_64)];
      }
    }

    method RecordFailure(id: string, now: nat)
      modifies this
      ensures nodes == Apply(old(nodes), Event(MarkFailure(id), now))
    {
      var i := Find(id);
      if i < |nodes| {
        var b := nodes[i].breaker;
        var f := (b.failures + 1) % TWO_64;
        b := b.(failures := f);
        if f >= THRESHOLD {
          b := b.(state := Open, openedAt := Some(now));
        }
        nodes := nodes[i := nodes[i].(breaker := b)];
      }
    }

    method RecordSuccess(id: string, now: nat)
      modifies this
      ensures nodes == Apply(old(nodes), Event(MarkSuccess(id), now))
    {
      var i := Find(id);
      if i < |nodes| {
        nodes := nodes[i := nodes[i].(breaker := nodes[i].breaker.(failures := 0, state := Closed))];
      }
    }

    /** An earlier node of the same name is dropped with its load and its breaker. */
    method Add(node: Node, now: nat)
      modifies this
      ensures Replaces(old(nodes), nodes, node)
      ensures nodes == Apply(old(nodes), Event(AddNode(node), now))
    {
      AddReplaces(nodes, node, now);
      nodes := Without(nodes, node.id) + [Fresh(node)];
    }

    method Find(id: string) returns (i: nat)
      ensures i == IndexOf(nodes, id)
    {
      i := 0;
      while i < |nodes| && nodes[i].id != id
        invariant 0 <= i <= |nodes|
        invariant IndexOf(nodes, id) == i + IndexOf(nodes[i..], id)
      {
        assert nodes[i..][1..] == nodes[i + 1..];
        i := i + 1;
      }
    }
  }
}
