/** The task store (control-plane/src/registry.rs, store.rs): one meaning, and the in-memory store that has it. */
module TaskStore {
  import opened Prelude
  import opened Chains

  datatype TaskStatus = Queued | Scheduled | Running | Succeeded | Failed | Canceled

  datatype TaskRecord = TaskRecord(id: string, name: string, parent: Option<string>, effect: string, capability: string,
                                   idempotencyKey: string, status: TaskStatus, node: Option<string>, submittedAt: int)

  datatype TaskEvent = EvSubmitted(rec: TaskRecord) | EvStatusChanged(rec: TaskRecord) | EvCanceled(id: string)

  /** All tasks by id, the idempotency index, and every event sent so far. */
  datatype Store = Store(tasks: map<string, TaskRecord>, idem: map<string, string>, events: seq<TaskEvent>)

  const EMPTY := Store(map[], map[], [])

  function IdemKey(parent: Option<string>, key: string): string {
    (if parent.Some? then parent.value else "") + "/" + key
  }

  /** What a caller asks for; `id` is the fresh uuid and `now` the clock the store will use. */
  datatype Submission = Submission(name: string, parent: Option<string>, effect: string, capability: string, key: string,
                                   id: string, now: int)

  function NewRecord(q: Submission): TaskRecord {
    TaskRecord(q.id, q.name, q.parent, q.effect, q.capability, q.key, Queued, None, q.now)
  }

  datatype Command = Register(q: Submission) | SetStatus(id: string, status: TaskStatus) | AssignNode(id: string, node: string)
                   | Cancel(id: string) | Get(id: string) | ListTasks(parent: Option<string>) | ListChildren(of: string)

  /** A listing answers with the records it holds, in no particular order. */
  datatype Reply = Found(rec: TaskRecord) | Missing | Done | Listed(records: multiset<TaskRecord>)

  predicate Known(s: Store, parent: Option<string>, key: string) {
    var k := IdemKey(parent, key);
    k in s.idem && s.idem[k] in s.tasks
  }

  function Apply(s: Store, c: Command): Store {
    match c
    case Register(q) =>
      if Known(s, q.parent, q.key) then s
      else Store(s.tasks[q.id := NewRecord(q)], s.idem[IdemKey(q.parent, q.key) := q.id], s.events + [EvSubmitted(NewRecord(q))])
    case SetStatus(id, status) =>
      if id !in s.tasks then s
      else
        var rec := s.tasks[id].(status := status);
        s.(tasks := s.tasks[id := rec], events := s.events + [EvStatusChanged(rec)])
    case AssignNode(id, node) =>
      if id !in s.tasks then s else s.(tasks := s.tasks[id := s.tasks[id].(node := Some(node))])
    case Cancel(id) =>
      if id !in s.tasks then s
      else s.(tasks := s.tasks[id := s.tasks[id].(status := Canceled)], events := s.events + [EvCanceled(id)])
    case Get(_) => s
    case ListTasks(_) => s
    case ListChildren(_) => s
  }

  function Answer(s: Store, c: Command): Reply {
    match c
    case Register(q) => Found(if Known(s, q.parent, q.key) then s.tasks[s.idem[IdemKey(q.parent, q.key)]] else NewRecord(q))
    case SetStatus(id, status) => if id in s.tasks then Found(s.tasks[id].(status := status)) else Missing
    case AssignNode(_, _) => Done
    case Cancel(id) => if id in s.tasks then Done else Missing
    case Get(id) => if id in s.tasks then Found(s.tasks[id]) else Missing
    case ListTasks(parent) => Listed(RecordsOf(s, parent))
    case ListChildren(parent) => Listed(RecordsOf(s, Some(parent)))
  }

  /** The ids a listing covers: the children of a parent, or everything. */
  function Selected(s: Store, parent: Option<string>): set<string> {
    set id | id in s.tasks && (parent.None? || s.tasks[id].parent == parent)
  }

  /** The selected records, each once. */
  function RecordsOf(s: Store, parent: Option<string>): multiset<TaskRecord> {
    multiset(set id | id in Selected(s, parent) :: s.tasks[id])
  }

  /** A listing in whatever order the backend iterates. */
  ghost predicate Lists(out: seq<TaskRecord>, s: Store, parent: Option<string>) {
    && Distinct(out)
    && forall r :: r in out <==> r.id in Selected(s, parent) && s.tasks[r.id] == r
  }

  lemma {:induction false} DistinctRecords(out: seq<TaskRecord>)
    requires Distinct(out)
    ensures multiset(out) == multiset(Elems(out))
  {
    if out != [] {
      DistinctRecords(out[1..]);
      assert out == [out[0]] + out[1..];
      assert Elems(out) == {out[0]} + Elems(out[1..]);
    }
  }

  /** So all listings of one selection hold the same records. */
  lemma ListsRecords(out: seq<TaskRecord>, s: Store, parent: Option<string>)
    requires Consistent(s) && Lists(out, s, parent)
    ensures multiset(out) == RecordsOf(s, parent)
  {
    DistinctRecords(out);
    assert Elems(out) == set id | id in Selected(s, parent) :: s.tasks[id];
  }

  /** Records are filed under their own id, and the two indexes agree. */
  ghost predicate Consistent(s: Store) {
    && (forall id :: id in s.tasks ==> s.tasks[id].id == id)
    && (forall id :: id in s.tasks ==>
          var k := IdemKey(s.tasks[id].parent, s.tasks[id].idempotencyKey);
          k in s.idem && s.idem[k] == id)
    && (forall k :: k in s.idem ==> s.idem[k] in s.tasks)
  }

  /** The uuid of a submission has not been used. */
  predicate FreshId(s: Store, c: Command) {
    c.Register? ==> c.q.id !in s.tasks
  }

  lemma ApplyKeepsConsistent(s: Store, c: Command)
    requires Consistent(s) && FreshId(s, c)
    ensures Consistent(Apply(s, c))
  {
  }

  class InMemoryTaskStore {
    var tasks: map<string, TaskRecord>
    var idem: map<string, string>
    var events: seq<TaskEvent>

    constructor ()
      ensures Contents() == EMPTY
    {
      tasks, idem, events := map[], map[], [];
    }

    function Contents(): Store
      reads this
    {
      Store(tasks, idem, events)
    }

    method RegisterTask(q: Submission) returns (rec: TaskRecord)
      modifies this
      ensures Contents() == Apply(old(Contents()), Register(q)) && Found(rec) == Answer(old(Contents()), Register(q))
    {
      var k := IdemKey(q.parent, q.key);
      if k in idem && idem[k] in tasks {
        return tasks[idem[k]];
      }
      rec := NewRecord(q);
      idem := idem[k := q.id];
      tasks := tasks[q.id := rec];
      events := events + [EvSubmitted(rec)];
    }

    method SetTaskStatus(id: string, status: TaskStatus) returns (rec: Option<TaskRecord>)
      modifies this
      ensures Contents() == Apply(old(Contents()), SetStatus(id, status))
      ensures Answer(old(Contents()), SetStatus(id, status)) == if rec.Some? then Found(rec.value) else Missing
    {
      if id !in tasks {
        return None;
      }
      tasks := tasks[id := tasks[id].(status := status)];
      events := events + [EvStatusChanged(tasks[id])];
      rec := Some(tasks[id]);
    }

    method Assign(id: string, node: string)
      modifies this
      ensures Contents() == Apply(old(Contents()), AssignNode(id, node))
    {
      if id in tasks {
        tasks := tasks[id := tasks[id].(node := Some(node))];
      }
    }

    method CancelTask(id: string) returns (ok: bool)
      modifies this
      ensures Contents() == Apply(old(Contents()), Cancel(id))
      ensures Answer(old(Contents()), Cancel(id)) == if ok then Done else Missing
    {
      if id !in tasks {
        return false;
      }
      tasks := tasks[id := tasks[id].(status := Canceled)];
      events := events + [EvCanceled(id)];
      ok := true;
    }

    method Lookup(id: string) returns (rec: Option<TaskRecord>)
      ensures Answer(Contents(), Get(id)) == if rec.Some? then Found(rec.value) else Missing
    {
      rec := if id in tasks then Some(tasks[id]) else None;
    }

    /** Scans all tasks; `parent` given is `children_of` as well as a filtered `list`. */
    method List(parent: Option<string>) returns (out: seq<TaskRecord>)
      requires Consistent(Contents())
      ensures Lists(out, Contents(), parent)
    {
      out := [];
      var todo := tasks.Keys;
      while todo != {}
        invariant todo <= tasks.Keys && Distinct(out)
        invariant forall r :: r in out <==> r.id in Selected(Contents(), parent) && r.id !in todo && tasks[r.id] == r
      {
        var id :| id in todo;
        todo := todo - {id};
        if parent.None? || tasks[id].parent == parent {
          out := out + [tasks[id]];
        }
      }
    }
  }

  // ----- runs -----

  function Run(s: Store, cs: seq<Command>): Store {
    if cs == [] then s else Apply(Run(s, cs[..|cs| - 1]), cs[|cs| - 1])
  }

  /** Every submission of a run brings a uuid never used before. */
  predicate FreshIds(cs: seq<Command>) {
    forall i :: 0 <= i < |cs| ==> FreshId(Run(EMPTY, cs[..i]), cs[i])
  }

  lemma {:induction false} RunIsConsistent(cs: seq<Command>)
    requires FreshIds(cs)
    ensures Consistent(Run(EMPTY, cs))
  {
    if cs != [] {
      var before := cs[..|cs| - 1];
      assert forall i :: 0 <= i < |before| ==> cs[..i] == before[..i];
      RunIsConsistent(before);
      ApplyKeepsConsistent(Run(EMPTY, before), cs[|cs| - 1]);
    }
  }

  /** The status of every task, read off the event log alone. */
  function Replayed(events: seq<TaskEvent>): map<string, TaskStatus> {
    if events == [] then map[]
    else
      var before := Replayed(events[..|events| - 1]);
      match events[|events| - 1]
      case EvSubmitted(rec) => before[rec.id := rec.status]
      case EvStatusChanged(rec) => before[rec.id := rec.status]
      case EvCanceled(id) => before[id := Canceled]
  }

  function Statuses(s: Store): map<string, TaskStatus> {
    map id | id in s.tasks :: s.tasks[id].status
  }

  /** Replaying the log reproduces every status. */
  lemma {:induction false} LogReproducesStatuses(cs: seq<Command>)
    requires FreshIds(cs)
    ensures Replayed(Run(EMPTY, cs).events) == Statuses(Run(EMPTY, cs))
  {
    if cs != [] {
      var before, c := cs[..|cs| - 1], cs[|cs| - 1];
      assert forall i :: 0 <= i < |before| ==> cs[..i] == before[..i];
      LogReproducesStatuses(before);
      RunIsConsistent(before);
      ReplayStep(Run(EMPTY, before), c);
    }
  }

  lemma ReplayedSnoc(events: seq<TaskEvent>, e: TaskEvent)
    ensures Replayed(events + [e]) ==
            match e
            case EvSubmitted(rec) => Replayed(events)[rec.id := rec.status]
            case EvStatusChanged(rec) => Replayed(events)[rec.id := rec.status]
            case EvCanceled(id) => Replayed(events)[id := Canceled]
  {
    assert (events + [e])[..|events|] == events;
  }

  lemma ReplayStep(s: Store, c: Command)
    requires Consistent(s) && FreshId(s, c) && Replayed(s.events) == Statuses(s)
    ensures Replayed(Apply(s, c).events) == Statuses(Apply(s, c))
  {
    hide Replayed, IdemKey;
    var t := Apply(s, c);
    if |t.events| > |s.events| {
      ReplayedSnoc(s.events, t.events[|s.events|]);
    }
  }

  // ----- idempotency -----

  /** Submissions in the log for a parent and key. */
  function Submissions(events: seq<TaskEvent>, parent: Option<string>, key: string): nat {
    if events == [] then 0
    else
      var e := events[|events| - 1];
      Submissions(events[..|events| - 1], parent, key)
      + if e.EvSubmitted? && IsFor(e.rec, parent, key) then 1 else 0
  }

  predicate IsFor(rec: TaskRecord, parent: Option<string>, key: string) {
    rec.parent == parent && rec.idempotencyKey == key
  }

  ghost predicate Holds(s: Store, parent: Option<string>, key: string) {
    exists id :: id in s.tasks && IsFor(s.tasks[id], parent, key)
  }

  /** On every run there is at most one task for a parent and key, and as many Submitted events as tasks. */
  lemma {:induction false} OneTaskPerKey(cs: seq<Command>, parent: Option<string>, key: string)
    requires FreshIds(cs)
    ensures var s := Run(EMPTY, cs);
            && Submissions(s.events, parent, key) == (if Holds(s, parent, key) then 1 else 0)
            && (forall a, b :: a in s.tasks && IsFor(s.tasks[a], parent, key) && b in s.tasks && IsFor(s.tasks[b], parent, key)
                  ==> a == b)
  {
    RunIsConsistent(cs);
    if cs != [] {
      var before, c := cs[..|cs| - 1], cs[|cs| - 1];
      assert forall i :: 0 <= i < |before| ==> cs[..i] == before[..i];
      OneTaskPerKey(before, parent, key);
      RunIsConsistent(before);
      SubmissionStep(Run(EMPTY, before), c, parent, key);
    }
  }

  lemma SubmissionsSnoc(events: seq<TaskEvent>, e: TaskEvent, parent: Option<string>, key: string)
    ensures Submissions(events + [e], parent, key) ==
            Submissions(events, parent, key) + if e.EvSubmitted? && IsFor(e.rec, parent, key) then 1 else 0
  {
    assert (events + [e])[..|events|] == events;
  }

  lemma SubmissionStep(s: Store, c: Command, parent: Option<string>, key: string)
    requires Consistent(s) && FreshId(s, c)
    requires Submissions(s.events, parent, key) == if Holds(s, parent, key) then 1 else 0
    ensures var t := Apply(s, c);
            Submissions(t.events, parent, key) == if Holds(t, parent, key) then 1 else 0
  {
    if c.Register? && !Known(s, c.q.parent, c.q.key) {
      NewSubmission(s, c.q, parent, key);
    } else {
      OldSubmissions(s, c, parent, key);
    }
  }

  lemma NewSubmission(s: Store, q: Submission, parent: Option<string>, key: string)
    requires Consistent(s) && q.id !in s.tasks && !Known(s, q.parent, q.key)
    ensures var t := Apply(s, Register(q));
            && Submissions(t.events, parent, key) == Submissions(s.events, parent, key) + (if IsFor(NewRecord(q), parent, key) then 1 else 0)
            && (Holds(t, parent, key) <==> Holds(s, parent, key) || IsFor(NewRecord(q), parent, key))
            && (IsFor(NewRecord(q), parent, key) ==> !Holds(s, parent, key))
  {
    hide IdemKey, Submissions;
    var t := Apply(s, Register(q));
    SubmissionsSnoc(s.events, EvSubmitted(NewRecord(q)), parent, key);
    assert forall id :: id in s.tasks ==> id in t.tasks && t.tasks[id] == s.tasks[id];
    assert q.id in t.tasks && t.tasks[q.id] == NewRecord(q);
  }

  lemma OldSubmissions(s: Store, c: Command, parent: Option<string>, key: string)
    requires c.Register? ==> Known(s, c.q.parent, c.q.key)
    ensures var t := Apply(s, c);
            Submissions(t.events, parent, key) == Submissions(s.events, parent, key)
            && (Holds(t, parent, key) <==> Holds(s, parent, key))
  {
    hide IdemKey, Submissions;
    var t := Apply(s, c);
    if |t.events| > |s.events| {
      SubmissionsSnoc(s.events, t.events[|s.events|], parent, key);
    }
    assert t.tasks.Keys == s.tasks.Keys;
    forall id | id in s.tasks ensures IsFor(t.tasks[id], parent, key) == IsFor(s.tasks[id], parent, key) {
    }
  }

  predicate SlashFree(p: Option<string>) {
    p.Some? ==> p.value != "" && '/' !in p.value
  }

  lemma {:induction false} SplitsOnce(a: string, b: string, x: string, y: string)
    requires '/' !in a && '/' !in b && a + "/" + x == b + "/" + y
    ensures a == b && x == y
  {
    var l, r := a + "/" + x, b + "/" + y;
    assert l[|a|] == '/' && r[|b|] == '/';
    assert forall i :: 0 <= i < |a| ==> l[i] == a[i];
    assert forall i :: 0 <= i < |b| ==> r[i] == b[i];
    assert |a| == |b|;
    assert a == l[..|a|] && b == r[..|b|] && x == l[|a| + 1..] && y == r[|b| + 1..];
  }

  /** Parents without a slash never share an index key with a different parent or key. */
  lemma IdemKeyInjective(p: Option<string>, x: string, q: Option<string>, y: string)
    requires SlashFree(p) && SlashFree(q) && IdemKey(p, x) == IdemKey(q, y)
    ensures p == q && x == y
  {
    SplitsOnce(if p.Some? then p.value else "", if q.Some? then q.value else "", x, y);
  }

  /** The first registration of a run with a given index key, or the length. */
  function FirstWith(cs: seq<Command>, k: string): (f: nat)
    ensures f <= |cs| && (f < |cs| ==> cs[f].Register? && IdemKey(cs[f].q.parent, cs[f].q.key) == k)
  {
    if cs == [] then 0
    else
      var before, c := cs[..|cs| - 1], cs[|cs| - 1];
      var f := FirstWith(before, k);
      if f < |before| then f
      else if c.Register? && IdemKey(c.q.parent, c.q.key) == k then |before|
      else |cs|
  }

  /** Whatever happened since, an index key leads to the record of its first registration. */
  lemma {:induction false} FirstRegistrationStays(cs: seq<Command>, k: string)
    requires FreshIds(cs)
    ensures var s, f := Run(EMPTY, cs), FirstWith(cs, k);
            && (k in s.idem <==> f < |cs|)
            && (f < |cs| ==> s.idem[k] in s.tasks && IsFor(s.tasks[s.idem[k]], cs[f].q.parent, cs[f].q.key))
  {
    hide IdemKey;
    if cs != [] {
      var before, c := cs[..|cs| - 1], cs[|cs| - 1];
      assert forall i :: 0 <= i < |before| ==> cs[..i] == before[..i];
      RunIsConsistent(before);
      FirstRegistrationStays(before, k);
      FirstStep(Run(EMPTY, before), c, k);
    }
  }

  lemma FirstStep(s: Store, c: Command, k: string)
    requires Consistent(s) && FreshId(s, c)
    ensures var t := Apply(s, c);
            && (k in s.idem ==>
                  && k in t.idem && t.idem[k] == s.idem[k] && s.idem[k] in t.tasks
                  && forall parent, key :: IsFor(s.tasks[s.idem[k]], parent, key) ==> IsFor(t.tasks[t.idem[k]], parent, key))
            && (k !in s.idem ==>
                  (k in t.idem <==> c.Register? && IdemKey(c.q.parent, c.q.key) == k)
                  && (k in t.idem ==> t.idem[k] in t.tasks && IsFor(t.tasks[t.idem[k]], c.q.parent, c.q.key)))
  {
    hide IdemKey;
  }

  /** A submission is answered with a record of its own parent and key exactly if it is new, or the first registration
      of the run with its index key was for that parent and key. */
  lemma RegisterAnswersOwnIff(cs: seq<Command>, q: Submission)
    requires FreshIds(cs)
    ensures var r, f := Answer(Run(EMPTY, cs), Register(q)), FirstWith(cs, IdemKey(q.parent, q.key));
            && r.Found?
            && (IsFor(r.rec, q.parent, q.key) <==> f == |cs| || (cs[f].q.parent == q.parent && cs[f].q.key == q.key))
  {
    hide IdemKey, FirstWith;
    RunIsConsistent(cs);
    FirstRegistrationStays(cs, IdemKey(q.parent, q.key));
  }

  /** So on such a run a submission is always answered by a task of its own parent and key. */
  lemma RegisterAnswersOwn(cs: seq<Command>, q: Submission)
    requires FreshIds(cs) && SlashFree(q.parent)
    requires forall i :: 0 <= i < |cs| && cs[i].Register? ==> SlashFree(cs[i].q.parent)
    ensures var r := Answer(Run(EMPTY, cs), Register(q));
            r.Found? && r.rec.parent == q.parent && r.rec.idempotencyKey == q.key
  {
    hide IdemKey, SlashFree;
    RegisterAnswersOwnIff(cs, q);
    var f := FirstWith(cs, IdemKey(q.parent, q.key));
    if f < |cs| {
      IdemKeyInjective(cs[f].q.parent, cs[f].q.key, q.parent, q.key);
    }
  }

  /** With slashes the answer can be another task: `a/b` with key `c` meets `a` with key `b/c`. */
  lemma SlashedParentsCollide(id: string, other: string, now: int)
    requires id != other
    ensures var first := Register(Submission("t", Some("a/b"), "io", "cpu", "c", id, now));
            var second := Submission("t", Some("a"), "io", "cpu", "b/c", other, now);
            FreshIds([first]) && Answer(Run(EMPTY, [first]), Register(second)).rec.parent == Some("a/b")
  {
    var first := Register(Submission("t", Some("a/b"), "io", "cpu", "c", id, now));
    assert [first][..0] == [];
    assert IdemKey(Some("a/b"), "c") == "a/b/c" == IdemKey(Some("a"), "b/c");
    assert Run(EMPTY, [first]) == Apply(Run(EMPTY, []), first);
  }

  /** An empty parent is taken for no parent. */
  lemma EmptyParentCollides(id: string, other: string, now: int)
    requires id != other
    ensures var first := Register(Submission("t", None, "io", "cpu", "c", id, now));
            var second := Submission("t", Some(""), "io", "cpu", "c", other, now);
            FreshIds([first]) && Answer(Run(EMPTY, [first]), Register(second)).rec.parent == None
  {
    var first := Register(Submission("t", None, "io", "cpu", "c", id, now));
    assert [first][..0] == [];
    assert IdemKey(None, "c") == IdemKey(Some(""), "c");
    assert Run(EMPTY, [first]) == Apply(Run(EMPTY, []), first);
  }
}
