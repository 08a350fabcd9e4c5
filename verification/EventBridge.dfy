/** Cross-node event delivery of the Redis store: publish, local broadcast and the origin-filtering subscriber. */
module EventBridge {
  import opened Prelude
  import opened Chains

  /** A wire event; `event` stands for its payload. */
  datatype Wire = Wire(origin: string, event: nat)

  /** The channel's history, what each node's subscriber has not read yet, the published events a node still has to
      broadcast locally, and what each node's local subscribers have been sent. */
  datatype System = System(channel: seq<Wire>, inbox: map<string, seq<Wire>>, pending: map<string, seq<Wire>>,
                           local: map<string, seq<Wire>>)

  datatype Step =
    | Publish(node: string, event: nat)     // the PUBLISH half of `publish_event`
    | SendLocal(node: string, which: nat)   // its local broadcast; several calls may be in flight
    | Deliver(node: string)                 // one turn of the subscriber's loop

  function Start(nodes: set<string>): System {
    System([], map n | n in nodes :: [], map n | n in nodes :: [], map n | n in nodes :: [])
  }

  /** One step; a step that is not possible changes nothing. */
  function Apply(s: System, step: Step): System {
    match step
    case Publish(n, e) =>
      if n !in s.inbox || n !in s.pending then s
      else
        var w := Wire(n, e);
        s.(channel := s.channel + [w],
           inbox := map m | m in s.inbox :: s.inbox[m] + [w],
           pending := s.pending[n := s.pending[n] + [w]])
    case SendLocal(n, i) =>
      if n !in s.pending || n !in s.local || i >= |s.pending[n]| then s
      else
        s.(pending := s.pending[n := s.pending[n][..i] + s.pending[n][i + 1..]],
           local := s.local[n := s.local[n] + [s.pending[n][i]]])
    case Deliver(n) =>
      if n !in s.inbox || n !in s.local || s.inbox[n] == [] then s
      else
        var w := s.inbox[n][0];
        s.(inbox := s.inbox[n := s.inbox[n][1..]],
           local := if w.origin != n then s.local[n := s.local[n] + [w]] else s.local)
  }

  function After(nodes: set<string>, steps: seq<Step>): System {
    if steps == [] then Start(nodes) else Apply(After(nodes, steps[..|steps| - 1]), steps[|steps| - 1])
  }

  /** The events of one origin, in order. */
  function From(q: seq<Wire>, origin: string): seq<Wire> {
    if q == [] then [] else From(q[..|q| - 1], origin) + if q[|q| - 1].origin == origin then [q[|q| - 1]] else []
  }

  /** The events of every origin but one, in order. */
  function Foreign(q: seq<Wire>, home: string): seq<Wire> {
    if q == [] then [] else Foreign(q[..|q| - 1], home) + if q[|q| - 1].origin != home then [q[|q| - 1]] else []
  }

  lemma ForeignSnoc(q: seq<Wire>, w: Wire, home: string)
    ensures Foreign(q + [w], home) == Foreign(q, home) + if w.origin != home then [w] else []
  {
    assert (q + [w])[..|q|] == q;
  }

  lemma {:induction false} ForeignConcat(a: seq<Wire>, b: seq<Wire>, home: string)
    ensures Foreign(a + b, home) == Foreign(a, home) + Foreign(b, home)
  {
    if b == [] {
      assert a + b == a;
    } else {
      var c := b[..|b| - 1];
      assert (a + b)[..|a + b| - 1] == a + c;
      ForeignConcat(a, c, home);
    }
  }

  lemma FromSnoc(q: seq<Wire>, w: Wire, origin: string)
    ensures From(q + [w], origin) == From(q, origin) + if w.origin == origin then [w] else []
  {
    assert (q + [w])[..|q|] == q;
  }

  lemma {:induction false} ForeignKeepsOrigin(q: seq<Wire>, home: string, origin: string)
    requires origin != home
    ensures From(Foreign(q, home), origin) == From(q, origin)
  {
    if q != [] {
      var c, w := q[..|q| - 1], q[|q| - 1];
      ForeignKeepsOrigin(c, home, origin);
      FromSnoc(Foreign(c, home), w, origin);
      assert Foreign(c, home) + [] == Foreign(c, home);
    }
  }

  lemma {:induction false} FromConcat(a: seq<Wire>, b: seq<Wire>, origin: string)
    ensures From(a + b, origin) == From(a, origin) + From(b, origin)
  {
    if b == [] {
      assert a + b == a;
    } else {
      var c := b[..|b| - 1];
      assert (a + b)[..|a + b| - 1] == a + c;
      FromConcat(a, c, origin);
    }
  }

  // ----- the invariant of every interleaving -----

  /** What one node sees of the system. */
  datatype View = View(channel: seq<Wire>, inbox: seq<Wire>, pending: seq<Wire>, local: seq<Wire>)

  predicate Present(s: System, n: string) {
    n in s.inbox && n in s.pending && n in s.local
  }

  function ViewOf(s: System, n: string): View
    requires Present(s, n)
  {
    View(s.channel, s.inbox[n], s.pending[n], s.local[n])
  }

  /** Node `n`: foreign events arrive in channel order, own events are sent locally or still pending, nothing is lost. */
  ghost predicate Delivered(v: View, n: string) {
    && Foreign(v.local, n) + Foreign(v.inbox, n) == Foreign(v.channel, n)
    && multiset(v.local) + multiset(v.pending) + multiset(Foreign(v.inbox, n)) == multiset(v.channel)
    && (forall w :: w in v.pending ==> w.origin == n)
  }

  lemma {:induction false} EveryRunDelivers(nodes: set<string>, steps: seq<Step>, n: string)
    requires n in nodes
    ensures Present(After(nodes, steps), n) && Delivered(ViewOf(After(nodes, steps), n), n)
  {
    hide Apply, Delivered;
    if steps == [] {
      NothingPublished(n);
    } else {
      var before := steps[..|steps| - 1];
      EveryRunDelivers(nodes, before, n);
      StepDelivers(After(nodes, before), steps[|steps| - 1], n);
    }
  }

  lemma NothingPublished(n: string)
    ensures Delivered(View([], [], [], []), n)
  {
  }

  lemma StepDelivers(s: System, step: Step, n: string)
    requires Present(s, n) && Delivered(ViewOf(s, n), n)
    ensures Present(Apply(s, step), n) && Delivered(ViewOf(Apply(s, step), n), n)
  {
    hide Delivered, Foreign;
    var v := ViewOf(s, n);
    match step {
      case Publish(m, e) =>
        if m in s.inbox && m in s.pending {
          PublishDelivers(v, Wire(m, e), n);
        }
      case SendLocal(m, i) =>
        if m == n && i < |s.pending[n]| {
          SendLocalDelivers(v, i, n);
        }
      case Deliver(m) =>
        if m == n && s.inbox[n] != [] {
          DeliverDelivers(v, n);
        }
    }
  }

  lemma PublishDelivers(v: View, w: Wire, n: string)
    requires Delivered(v, n)
    ensures Delivered(View(v.channel + [w], v.inbox + [w], if w.origin == n then v.pending + [w] else v.pending, v.local), n)
  {
    ForeignSnoc(v.inbox, w, n);
    ForeignSnoc(v.channel, w, n);
    hide Foreign;
    if w.origin != n {
      Assoc(Foreign(v.local, n), Foreign(v.inbox, n), [w]);
    } else {
      assert Foreign(v.inbox, n) + [] == Foreign(v.inbox, n) && Foreign(v.channel, n) + [] == Foreign(v.channel, n);
    }
  }

  lemma SendLocalDelivers(v: View, i: nat, n: string)
    requires Delivered(v, n) && i < |v.pending|
    ensures Delivered(View(v.channel, v.inbox, v.pending[..i] + v.pending[i + 1..], v.local + [v.pending[i]]), n)
  {
    hide Foreign;
    var w := v.pending[i];
    assert w in v.pending;
    ForeignSnoc(v.local, w, n);
    assert Foreign(v.local, n) + [] == Foreign(v.local, n);
    TakenOut(v.pending, i);
    Passed(multiset(v.local), multiset{w}, multiset(v.pending[..i] + v.pending[i + 1..]), multiset(Foreign(v.inbox, n)));
    assert multiset(v.local + [w]) == multiset(v.local) + multiset{w};
  }

  lemma TakenOut(q: seq<Wire>, i: nat)
    requires i < |q|
    ensures multiset(q) == multiset(q[..i] + q[i + 1..]) + multiset{q[i]}
    ensures forall w :: w in q[..i] + q[i + 1..] ==> w in q
  {
    assert q == q[..i] + [q[i]] + q[i + 1..];
  }

  /** One event moves from one of three places to another. */
  lemma Passed(a: multiset<Wire>, w: multiset<Wire>, b: multiset<Wire>, c: multiset<Wire>)
    ensures (a + w) + b + c == a + (b + w) + c == a + b + (w + c)
  {
  }

  lemma DeliverDelivers(v: View, n: string)
    requires Delivered(v, n) && v.inbox != []
    ensures var w := v.inbox[0];
            Delivered(View(v.channel, v.inbox[1..], v.pending, if w.origin != n then v.local + [w] else v.local), n)
  {
    hide Foreign;
    var w, rest := v.inbox[0], Foreign(v.inbox[1..], n);
    FrontForeign(v.inbox, n);
    if w.origin != n {
      ForeignSnoc(v.local, w, n);
      Assoc(Foreign(v.local, n), [w], rest);
      FrontBag(w, rest);
      Passed(multiset(v.local), multiset{w}, multiset(v.pending), multiset(rest));
      assert multiset(v.local + [w]) == multiset(v.local) + multiset{w};
    }
  }

  lemma FrontBag(w: Wire, q: seq<Wire>)
    ensures multiset([w] + q) == multiset{w} + multiset(q)
  {
  }

  lemma FrontForeign(q: seq<Wire>, n: string)
    requires q != []
    ensures Foreign(q, n) == if q[0].origin != n then [q[0]] + Foreign(q[1..], n) else Foreign(q[1..], n)
  {
    assert q == [q[0]] + q[1..];
    ForeignConcat([q[0]], q[1..], n);
    assert Foreign([q[0]], n) == if q[0].origin != n then [q[0]] else [];
    assert [] + Foreign(q[1..], n) == Foreign(q[1..], n);
  }

  // ----- what subscribers see -----

  /** The wire events of the publish steps: the channel holds these and nothing else, so nothing is published twice. */
  function Published(nodes: set<string>, steps: seq<Step>): seq<Wire> {
    if steps == [] then []
    else
      var last := steps[|steps| - 1];
      Published(nodes, steps[..|steps| - 1])
      + if last.Publish? && last.node in nodes then [Wire(last.node, last.event)] else []
  }

  lemma {:induction false} NeverRepublished(nodes: set<string>, steps: seq<Step>)
    ensures After(nodes, steps).channel == Published(nodes, steps)
    ensures After(nodes, steps).inbox.Keys == After(nodes, steps).pending.Keys == After(nodes, steps).local.Keys == nodes
  {
    if steps != [] {
      NeverRepublished(nodes, steps[..|steps| - 1]);
      StepPublishes(After(nodes, steps[..|steps| - 1]), steps[|steps| - 1], nodes);
    }
  }

  lemma StepPublishes(s: System, step: Step, nodes: set<string>)
    requires s.inbox.Keys == s.pending.Keys == s.local.Keys == nodes
    ensures var t := Apply(s, step);
            && t.inbox.Keys == t.pending.Keys == t.local.Keys == nodes
            && t.channel == s.channel + if step.Publish? && step.node in nodes then [Wire(step.node, step.event)] else []
  {
  }

  lemma {:induction false} DistinctOnce(q: seq<Wire>, w: Wire)
    requires Distinct(q)
    ensures multiset(q)[w] == if w in q then 1 else 0
  {
    if q != [] {
      var n := |q| - 1;
      assert q == q[..n] + [q[n]];
      DistinctOnce(q[..n], w);
    }
  }

  /** With distinct events: at most once on every node, and exactly once when its queues are drained. */
  lemma AtMostOnce(nodes: set<string>, steps: seq<Step>, n: string, w: Wire)
    requires n in nodes && Distinct(Published(nodes, steps))
    ensures var s := After(nodes, steps);
            && n in s.local && n in s.inbox && n in s.pending
            && multiset(s.local[n])[w] <= 1
            && (w in s.local[n] ==> w in Published(nodes, steps))
            && (s.inbox[n] == [] && s.pending[n] == [] ==>
                  multiset(s.local[n])[w] == if w in Published(nodes, steps) then 1 else 0)
  {
    var s := After(nodes, steps);
    EveryRunDelivers(nodes, steps, n);
    NeverRepublished(nodes, steps);
    hide After, Published, Foreign;
    DistinctOnce(s.channel, w);
    assert multiset(s.local[n])[w] <= multiset(s.channel)[w];
    assert w in multiset(s.local[n]) ==> w in multiset(s.channel);
  }

  /** Events of one remote origin reach a node in the order they were published, with no gap. */
  lemma RemoteInOrder(nodes: set<string>, steps: seq<Step>, n: string, origin: string)
    requires n in nodes && origin != n
    ensures var s := After(nodes, steps);
            && n in s.local && n in s.inbox
            && From(s.local[n], origin) + From(s.inbox[n], origin) == From(Published(nodes, steps), origin)
  {
    var s := After(nodes, steps);
    EveryRunDelivers(nodes, steps, n);
    NeverRepublished(nodes, steps);
    ForeignKeepsOrigin(s.local[n], n, origin);
    ForeignKeepsOrigin(s.inbox[n], n, origin);
    ForeignKeepsOrigin(s.channel, n, origin);
    FromConcat(Foreign(s.local[n], n), Foreign(s.inbox[n], n), origin);
  }
}
