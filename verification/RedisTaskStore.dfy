/** The Redis task store (control-plane/src/store_redis.rs): its key layout keeps the meaning of the simple store. */
module RedisTaskStore {
  import opened Prelude
  import opened Chains
  import opened TaskStore

  /** What a Redis key holds: a record as JSON, a plain id, or a set of ids. */
  datatype Stored = Json(rec: TaskRecord) | Plain(id: string) | Members(ids: set<string>)

  type Db = map<string, Stored>

  function TaskKey(id: string): string {
    "dalin:task:" + id
  }

  function IdemRedis(key: string): string {
    "dalin:idem:" + key
  }

  function ChildrenKey(parent: string): string {
    "dalin:children:" + parent
  }

  const TASKS_KEY := "dalin:tasks"

  /** The four families of keys never meet, and within a family the key tells the id. */
  lemma KeysApart(a: string, b: string)
    ensures TaskKey(a) == TaskKey(b) <==> a == b
    ensures IdemRedis(a) == IdemRedis(b) <==> a == b
    ensures ChildrenKey(a) == ChildrenKey(b) <==> a == b
    ensures TaskKey(a) != IdemRedis(b) && TaskKey(a) != ChildrenKey(b) && IdemRedis(a) != ChildrenKey(b)
    ensures TaskKey(a) != TASKS_KEY && IdemRedis(a) != TASKS_KEY && ChildrenKey(a) != TASKS_KEY
  {
    SamePrefix("dalin:task:", a, b);
    SamePrefix("dalin:idem:", a, b);
    SamePrefix("dalin:children:", a, b);
    assert TaskKey(a)[6] == 't' && IdemRedis(a)[6] == 'i' && ChildrenKey(a)[6] == 'c';
    assert IdemRedis(b)[6] == 'i' && ChildrenKey(b)[6] == 'c';
    assert TASKS_KEY[6] == 't' && TASKS_KEY[10] == 's' && TaskKey(a)[10] == ':';
  }

  lemma SamePrefix(prefix: string, a: string, b: string)
    ensures prefix + a == prefix + b <==> a == b
  {
    assert (prefix + a)[|prefix|..] == a && (prefix + b)[|prefix|..] == b;
  }

  /** `SMEMBERS`; a key that is absent or holds something else has none. */
  function MembersOf(db: Db, key: string): set<string> {
    if key in db && db[key].Members? then db[key].ids else {}
  }

  /** The keys built from `x` hold what the store says about `x` as an id, an index key and a parent. */
  ghost predicate Agrees(db: Db, s: Store, x: string) {
    && (TaskKey(x) in db <==> x in s.tasks)
    && (x in s.tasks ==> db[TaskKey(x)] == Json(s.tasks[x]))
    && (IdemRedis(x) in db <==> x in s.idem)
    && (x in s.idem ==> db[IdemRedis(x)] == Plain(s.idem[x]))
    && MembersOf(db, ChildrenKey(x)) == Selected(s, Some(x))
  }

  /** The database is the layout of the store. */
  ghost predicate Represents(db: Db, s: Store) {
    (forall x :: Agrees(db, s, x)) && MembersOf(db, TASKS_KEY) == s.tasks.Keys
  }

  lemma EmptyRepresents()
    ensures Represents(map[], EMPTY)
  {
    hide TaskKey, IdemRedis, ChildrenKey;
  }

  /** Overwriting one record leaves the indexes valid when the parent stays. */
  lemma RecordUpdated(db: Db, s: Store, id: string, rec: TaskRecord, events: seq<TaskEvent>)
    requires Represents(db, s) && id in s.tasks && rec.parent == s.tasks[id].parent
    ensures Represents(db[TaskKey(id) := Json(rec)], Store(s.tasks[id := rec], s.idem, events))
  {
    var db', t := db[TaskKey(id) := Json(rec)], Store(s.tasks[id := rec], s.idem, events);
    hide TaskKey, IdemRedis, ChildrenKey;
    forall x: string ensures Agrees(db', t, x) {
      assert Agrees(db, s, x);
      KeysApart(x, id);
      KeysApart(id, x);
      assert Selected(t, Some(x)) == Selected(s, Some(x));
    }
    KeysApart(id, id);
  }

  function WithMember(db: Db, key: string, id: string): Db {
    db[key := Members(MembersOf(db, key) + {id})]
  }

  /** The four writes of a registration. */
  function Registered(db: Db, q: Submission): Db {
    var db1 := db[TaskKey(q.id) := Json(NewRecord(q))][IdemRedis(IdemKey(q.parent, q.key)) := Plain(q.id)];
    var db2 := if q.parent.Some? then WithMember(db1, ChildrenKey(q.parent.value), q.id) else db1;
    WithMember(db2, TASKS_KEY, q.id)
  }

  lemma RegistrationRepresents(db: Db, s: Store, q: Submission)
    requires Represents(db, s) && Consistent(s) && q.id !in s.tasks && !Known(s, q.parent, q.key)
    ensures Represents(Registered(db, q), Apply(s, Register(q)))
  {
    var db', t := Registered(db, q), Apply(s, Register(q));
    assert t.tasks == s.tasks[q.id := NewRecord(q)] && t.idem == s.idem[IdemKey(q.parent, q.key) := q.id];
    hide TaskKey, IdemRedis, ChildrenKey, IdemKey, Registered, Apply, Selected, MembersOf, Consistent;
    forall x: string ensures Agrees(db', t, x) {
      assert Agrees(db, s, x);
      TaskKeysAfter(db, q, x);
      IdemKeysAfter(db, q, x);
      ChildrenAfter(db, q, x);
      ChildrenGrow(s, q, x);
    }
    AllTasksAfter(db, q);
  }

  lemma TaskKeysAfter(db: Db, q: Submission, x: string)
    ensures TaskKey(x) in Registered(db, q) <==> TaskKey(x) in db || x == q.id
    ensures TaskKey(x) in Registered(db, q) ==>
              Registered(db, q)[TaskKey(x)] == if x == q.id then Json(NewRecord(q)) else db[TaskKey(x)]
  {
    hide TaskKey, IdemRedis, ChildrenKey, IdemKey;
    KeysApart(x, q.id);
    KeysApart(x, IdemKey(q.parent, q.key));
    if q.parent.Some? {
      KeysApart(x, q.parent.value);
    }
  }

  lemma IdemKeysAfter(db: Db, q: Submission, x: string)
    ensures var k := IdemKey(q.parent, q.key);
            && (IdemRedis(x) in Registered(db, q) <==> IdemRedis(x) in db || x == k)
            && (IdemRedis(x) in Registered(db, q) ==>
                  Registered(db, q)[IdemRedis(x)] == if x == k then Plain(q.id) else db[IdemRedis(x)])
  {
    hide TaskKey, IdemRedis, ChildrenKey, IdemKey;
    KeysApart(x, IdemKey(q.parent, q.key));
    KeysApart(q.id, x);
    if q.parent.Some? {
      KeysApart(x, q.parent.value);
    }
  }

  lemma ChildrenAfter(db: Db, q: Submission, p: string)
    ensures MembersOf(Registered(db, q), ChildrenKey(p)) ==
            MembersOf(db, ChildrenKey(p)) + if q.parent == Some(p) then {q.id} else {}
  {
    hide TaskKey, IdemRedis, ChildrenKey, IdemKey;
    KeysApart(q.id, p);
    KeysApart(IdemKey(q.parent, q.key), p);
    KeysApart(p, p);
    if q.parent.Some? {
      KeysApart(p, q.parent.value);
      KeysApart(q.id, q.parent.value);
      KeysApart(IdemKey(q.parent, q.key), q.parent.value);
    }
  }

  lemma ChildrenGrow(s: Store, q: Submission, p: string)
    requires q.id !in s.tasks && !Known(s, q.parent, q.key)
    ensures Selected(Apply(s, Register(q)), Some(p)) == Selected(s, Some(p)) + if q.parent == Some(p) then {q.id} else {}
  {
    hide IdemKey;
  }

  lemma AllTasksAfter(db: Db, q: Submission)
    ensures MembersOf(Registered(db, q), TASKS_KEY) == MembersOf(db, TASKS_KEY) + {q.id}
  {
    hide TaskKey, IdemRedis, ChildrenKey, IdemKey;
    KeysApart(q.id, IdemKey(q.parent, q.key));
    KeysApart(IdemKey(q.parent, q.key), q.id);
    if q.parent.Some? {
      KeysApart(q.parent.value, q.id);
    }
  }

  class RedisStore {
    var db: Db
    /** The local broadcast and what has been published to the shared channel. */
    var events: seq<TaskEvent>
    var published: seq<TaskEvent>
    /** The simple store this database stands for. */
    ghost var contents: Store

    constructor ()
      ensures Valid() && contents == EMPTY
    {
      db, events, published, contents := map[], [], [], EMPTY;
      new;
      hide Represents;
      EmptyRepresents();
    }

    ghost predicate Valid()
      reads this
    {
      Represents(db, contents) && Consistent(contents) && events == published == contents.events
    }

    method PublishEvent(e: TaskEvent)
      modifies this`published, this`events
      ensures published == old(published) + [e] && events == old(events) + [e]
    {
      published := published + [e];
      events := events + [e];
    }

    method GetRecord(id: string) returns (rec: Option<TaskRecord>)
      requires Valid()
      ensures rec == if id in contents.tasks then Some(contents.tasks[id]) else None
    {
      assert Agrees(db, contents, id);
      var key := TaskKey(id);
      rec := if key in db && db[key].Json? then Some(db[key].rec) else None;
    }

    method RegisterTask(q: Submission) returns (rec: TaskRecord)
      requires Valid() && FreshId(contents, Register(q))
      modifies this
      ensures Valid() && contents == Apply(old(contents), Register(q))
      ensures Found(rec) == Answer(old(contents), Register(q))
    {
      hide Represents, IdemKey;
      ghost var s := contents;
      var k := IdemKey(q.parent, q.key);
      var indexed := GetIndexed(k);
      if indexed.Some? {
        var existing := GetRecord(indexed.value);
        if existing.Some? {
          return existing.value;
        }
      }
      rec := NewRecord(q);
      ghost var before := db;
      db := db[TaskKey(q.id) := Json(rec)];
      db := db[IdemRedis(k) := Plain(q.id)];
      if q.parent.Some? {
        db := WithMember(db, ChildrenKey(q.parent.value), q.id);
      }
      db := WithMember(db, TASKS_KEY, q.id);
      PublishEvent(EvSubmitted(rec));
      RegistrationRepresents(before, s, q);
      ApplyKeepsConsistent(s, Register(q));
      contents := Apply(s, Register(q));
    }

    method GetIndexed(k: string) returns (id: Option<string>)
      requires Valid()
      ensures id == if k in contents.idem then Some(contents.idem[k]) else None
    {
      assert Agrees(db, contents, k);
      var key := IdemRedis(k);
      id := if key in db && db[key].Plain? then Some(db[key].id) else None;
    }

    method SetTaskStatus(id: string, status: TaskStatus) returns (rec: Option<TaskRecord>)
      requires Valid()
      modifies this
      ensures Valid() && contents == Apply(old(contents), SetStatus(id, status))
      ensures Answer(old(contents), SetStatus(id, status)) == if rec.Some? then Found(rec.value) else Missing
    {
      hide Represents;
      ghost var s := contents;
      rec := GetRecord(id);
      if rec.None? {
        return;
      }
      var updated := rec.value.(status := status);
      RecordUpdated(db, s, id, updated, s.events + [EvStatusChanged(updated)]);
      db := db[TaskKey(id) := Json(updated)];
      PublishEvent(EvStatusChanged(updated));
      ApplyKeepsConsistent(s, SetStatus(id, status));
      contents := Apply(s, SetStatus(id, status));
      rec := Some(updated);
    }

    method Assign(id: string, node: string)
      requires Valid()
      modifies this
      ensures Valid() && contents == Apply(old(contents), AssignNode(id, node))
    {
      hide Represents;
      ghost var s := contents;
      var rec := GetRecord(id);
      if rec.Some? {
        var updated := rec.value.(node := Some(node));
        RecordUpdated(db, s, id, updated, s.events);
        db := db[TaskKey(id) := Json(updated)];
      }
      ApplyKeepsConsistent(s, AssignNode(id, node));
      contents := Apply(s, AssignNode(id, node));
    }

    method CancelTask(id: string) returns (ok: bool)
      requires Valid()
      modifies this
      ensures Valid() && contents == Apply(old(contents), Cancel(id))
      ensures Answer(old(contents), Cancel(id)) == if ok then Done else Missing
    {
      hide Represents;
      ghost var s := contents;
      var rec := GetRecord(id);
      if rec.None? {
        return false;
      }
      var updated := rec.value.(status := Canceled);
      RecordUpdated(db, s, id, updated, s.events + [EvCanceled(id)]);
      db := db[TaskKey(id) := Json(updated)];
      PublishEvent(EvCanceled(id));
      ApplyKeepsConsistent(s, Cancel(id));
      contents := Apply(s, Cancel(id));
      ok := true;
    }

    method ChildrenOf(parent: string) returns (out: seq<TaskRecord>)
      requires Valid()
      ensures Lists(out, contents, Some(parent))
    {
      assert Agrees(db, contents, parent);
      out := FetchMany(MembersOf(db, ChildrenKey(parent)), Some(parent));
    }

    method List(parent: Option<string>) returns (out: seq<TaskRecord>)
      requires Valid()
      ensures Lists(out, contents, parent)
    {
      if parent.Some? {
        out := ChildrenOf(parent.value);
      } else {
        assert Selected(contents, None) == contents.tasks.Keys;
        out := FetchMany(MembersOf(db, TASKS_KEY), None);
      }
    }

    /** Fetches the records of a set of ids, in the order the server hands them out. */
    method FetchMany(ids: set<string>, ghost parent: Option<string>) returns (out: seq<TaskRecord>)
      requires Valid() && ids == Selected(contents, parent)
      ensures Lists(out, contents, parent)
    {
      hide Represents;
      out := [];
      var todo := ids;
      while todo != {}
        invariant todo <= ids && Distinct(out)
        invariant forall r :: r in out <==> r.id in ids && r.id !in todo && contents.tasks[r.id] == r
      {
        var id :| id in todo;
        todo := todo - {id};
        var rec := GetRecord(id);
        if rec.Some? {
          out := out + [rec.value];
        }
      }
    }
  }

  /** Any run of commands against both backends gets the same answers from both, command by command. */
  method RunBoth(cs: seq<Command>) returns (simple: seq<Reply>, redis: seq<Reply>)
    requires FreshIds(cs)
    ensures simple == redis && |redis| == |cs|
    ensures forall i :: 0 <= i < |cs| ==> redis[i] == Answer(Run(EMPTY, cs[..i]), cs[i])
  {
    hide Apply, Answer, Represents, Consistent;
    var a := new InMemoryTaskStore();
    var b := new RedisStore();
    simple, redis := [], [];
    var i := 0;
    while i < |cs|
      invariant 0 <= i <= |cs| && fresh(a) && fresh(b)
      invariant b.Valid() && a.Contents() == b.contents == Run(EMPTY, cs[..i])
      invariant |simple| == |redis| == i && simple == redis
      invariant forall j :: 0 <= j < i ==> redis[j] == Answer(Run(EMPTY, cs[..j]), cs[j])
    {
      assert cs[..i + 1][..i] == cs[..i];
      var x, y := ExecuteOnBoth(a, b, cs[i]);
      simple, redis := simple + [x], redis + [y];
      i := i + 1;
    }
    assert cs[..|cs|] == cs;
  }

  method ExecuteOnBoth(a: InMemoryTaskStore, b: RedisStore, c: Command) returns (x: Reply, y: Reply)
    requires b.Valid() && a.Contents() == b.contents && FreshId(b.contents, c)
    modifies a, b
    ensures b.Valid() && a.Contents() == b.contents == Apply(old(b.contents), c)
    ensures x == y == Answer(old(b.contents), c)
  {
    hide Apply, Represents, Consistent;
    match c {
      case Register(q) =>
        var r := a.RegisterTask(q);
        var t := b.RegisterTask(q);
        x, y := Found(r), Found(t);
      case SetStatus(id, status) =>
        var r := a.SetTaskStatus(id, status);
        var t := b.SetTaskStatus(id, status);
        x, y := FoundOrMissing(r), FoundOrMissing(t);
      case AssignNode(id, node) =>
        a.Assign(id, node);
        b.Assign(id, node);
        x, y := Done, Done;
      case Cancel(id) =>
        var r := a.CancelTask(id);
        var t := b.CancelTask(id);
        x, y := if r then Done else Missing, if t then Done else Missing;
      case Get(id) =>
        var r := a.Lookup(id);
        var t := b.GetRecord(id);
        assert Apply(b.contents, Get(id)) == b.contents by {
          GetChangesNothing(b.contents, id);
        }
        x, y := FoundOrMissing(r), FoundOrMissing(t);
      case ListTasks(parent) => x, y := ListBoth(a, b, parent);
      case ListChildren(parent) =>
        var children := b.ChildrenOf(parent);
        ListsRecords(children, b.contents, Some(parent));
        y := Listed(multiset(children));
        var scanned := a.List(Some(parent));
        ListsRecords(scanned, b.contents, Some(parent));
        ListingChangesNothing(b.contents, Some(parent));
        x := Listed(multiset(scanned));
    }
  }

  method ListBoth(a: InMemoryTaskStore, b: RedisStore, parent: Option<string>) returns (x: Reply, y: Reply)
    requires b.Valid() && a.Contents() == b.contents
    ensures x == y == Listed(RecordsOf(b.contents, parent))
    ensures Answer(b.contents, ListTasks(parent)) == x && Apply(b.contents, ListTasks(parent)) == b.contents
  {
    hide Represents, Consistent, RecordsOf;
    var r := a.List(parent);
    var t := b.List(parent);
    ListsRecords(r, b.contents, parent);
    ListsRecords(t, b.contents, parent);
    ListingChangesNothing(b.contents, parent);
    x, y := Listed(multiset(r)), Listed(multiset(t));
  }

  lemma ListingChangesNothing(s: Store, parent: Option<string>)
    ensures Apply(s, ListTasks(parent)) == s && Answer(s, ListTasks(parent)) == Listed(RecordsOf(s, parent))
    ensures parent.Some? ==>
              && Apply(s, ListChildren(parent.value)) == s
              && Answer(s, ListChildren(parent.value)) == Listed(RecordsOf(s, parent))
  {
  }

  lemma GetChangesNothing(s: Store, id: string)
    ensures Apply(s, Get(id)) == s
  {
  }

  function FoundOrMissing(r: Option<TaskRecord>): Reply {
    if r.Some? then Found(r.value) else Missing
  }
}
