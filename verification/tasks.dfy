/** The task store: the database table as an immutable value, and each query
    and mutation handler of the backend as a pure function on it. */
module Tasks {
  import opened Wrappers
  import opened Schema
  import opened ByOrder
  import opened Decimal

  /** The `tasks` table: documents by id, and the counter the next inserted
      document takes its id from. */
  datatype Store = Store(tasks: map<Id, Task>, nextId: Id)

  /** Every stored id was handed out by the counter, so none is reused. */
  predicate Valid(s: Store) {
    forall id :: id in s.tasks ==> id < s.nextId
  }

  /** The table before anything was inserted. */
  const EmptyStore := Store(map[], 0)

  /** The documents whose ids lie in `[lo, hi)`, by ascending id. */
  function ScanRange(m: map<Id, Task>, lo: nat, hi: nat): (r: seq<Doc>)
    ensures forall d :: d in r <==> lo <= d.id < hi && d.id in m && m[d.id] == d.task
    ensures IdsIncreasing(r)
    decreases hi - lo
  {
    if lo >= hi then []
    else (if lo in m then [Doc(lo, m[lo])] else []) + ScanRange(m, lo + 1, hi)
  }

  /** A query with no index: every document, in creation order. */
  function Scan(s: Store): (r: seq<Doc>)
    requires Valid(s)
    ensures forall d :: d in r <==> d.id in s.tasks && s.tasks[d.id] == d.task
    ensures IdsIncreasing(r)
  {
    ScanRange(s.tasks, 0, s.nextId)
  }

  /** The `filter` argument of `getTasks`: "active" keeps open tasks,
      "completed" keeps finished ones, anything else (or nothing) keeps all. */
  predicate Matches(filter: Option<string>, t: Task) {
    if filter == Some("active") then !t.completed
    else if filter == Some("completed") then t.completed
    else true
  }

  /** The documents of `docs` that pass `filter`, in their original order. */
  function Where(docs: seq<Doc>, filter: Option<string>): (r: seq<Doc>)
    ensures forall d :: d in r <==> d in docs && Matches(filter, d.task)
    ensures |r| <= |docs|
  {
    if |docs| == 0 then []
    else
      assert docs == [docs[0]] + docs[1..];
      (if Matches(filter, docs[0].task) then [docs[0]] else []) + Where(docs[1..], filter)
  }

  /** Putting a document with a smaller id in front keeps ids increasing. */
  lemma PrependIncreasing(d: Doc, rest: seq<Doc>)
    requires IdsIncreasing(rest)
    requires forall x :: x in rest ==> d.id < x.id
    ensures IdsIncreasing([d] + rest)
  {
    var r := [d] + rest;
    forall i, j | 0 <= i < j < |r| ensures r[i].id < r[j].id {
      assert r[j] == rest[j - 1] && r[j] in rest;
      if i > 0 {
        assert r[i] == rest[i - 1];
      }
    }
  }

  /** Filtering keeps the relative order of what it keeps. */
  lemma {:induction false} WhereIncreasing(docs: seq<Doc>, filter: Option<string>)
    requires IdsIncreasing(docs)
    ensures IdsIncreasing(Where(docs, filter))
  {
    if |docs| > 0 {
      var tail := docs[1..];
      assert IdsIncreasing(tail) by {
        forall i, j | 0 <= i < j < |tail| ensures tail[i].id < tail[j].id {
          assert tail[i] == docs[i + 1] && tail[j] == docs[j + 1];
        }
      }
      WhereIncreasing(tail, filter);
      var rest := Where(tail, filter);
      if Matches(filter, docs[0].task) {
        forall x | x in rest ensures docs[0].id < x.id {
          var k :| 0 <= k < |tail| && tail[k] == x;
          assert docs[k + 1] == x;
        }
        PrependIncreasing(docs[0], rest);
      }
    }
  }

  /** Whether the `by_order` index could be used for a query, or the handler
      fell back to a plain query after the indexed one failed. */
  datatype QueryPath = ByOrderIndex | CreationOrderScan

  /** `getTasks`: the tasks passing `filter`, ascending by order on the indexed
      path and in creation order on the fallback path. */
  function GetTasks(s: Store, filter: Option<string>, path: QueryPath): (r: seq<Doc>)
    requires Valid(s)
    ensures forall d :: d in r <==> d.id in s.tasks && s.tasks[d.id] == d.task && Matches(filter, d.task)
    ensures path == ByOrderIndex ==> Sorted(r)
    ensures path == ByOrderIndex ==> TiesByAscendingId(r)
    ensures path == CreationOrderScan ==> IdsIncreasing(r)
  {
    var selected := Where(Scan(s), filter);
    match path
    case ByOrderIndex =>
      SortByOrderSorted(selected);
      WhereIncreasing(Scan(s), filter);
      SortByOrderStable(selected);
      SortByOrder(selected)
    case CreationOrderScan =>
      WhereIncreasing(Scan(s), filter);
      selected
  }

  /** The document an index query in descending order returns first: the last
      document of the `by_order` view. */
  function LastByOrder(s: Store): (r: Option<Doc>)
    requires Valid(s)
    ensures r.None? <==> s.tasks == map[]
    ensures r.Some? ==> r.value.id in s.tasks && s.tasks[r.value.id] == r.value.task
    ensures r.Some? ==> forall id :: id in s.tasks ==> OrderLe(s.tasks[id].order, r.value.task.order)
  {
    var view := SortByOrder(Scan(s));
    if |view| == 0 then
      assert forall id :: id in s.tasks ==> Doc(id, s.tasks[id]) in view;
      None
    else
      SortByOrderSorted(Scan(s));
      SortedLastIsGreatest(view);
      assert forall id :: id in s.tasks ==> Doc(id, s.tasks[id]) in view;
      assert view[|view| - 1] in view;
      Some(view[|view| - 1])
  }

  /** The order `create` gives a new task: one more than the order of the last
      task of the index, counting a missing order (or an empty table) as 0. */
  function NextOrder(s: Store): (n: int)
    requires Valid(s)
    ensures forall id :: id in s.tasks && s.tasks[id].order.Some? ==> s.tasks[id].order.value < n
    ensures (forall id :: id in s.tasks ==> s.tasks[id].order.None?) ==> n == 1
    ensures (exists id :: id in s.tasks && s.tasks[id].order.Some?) ==>
              exists id :: id in s.tasks && s.tasks[id].order == Some(n - 1)
  {
    var last := LastByOrder(s);
    (match last
     case None => 0
     case Some(d) => d.task.order.GetOr(0)) + 1
  }

  /** The outcome of `create`: the new table and the id of the inserted task. */
  datatype Created = Created(store: Store, id: Id)

  /** `create`: inserts an open task with the given title after every ordered
      task, under an id never used before. */
  function Create(s: Store, title: string): (r: Created)
    requires Valid(s)
    ensures Valid(r.store)
    ensures r.id !in s.tasks && r.store.tasks.Keys == s.tasks.Keys + {r.id}
    ensures s.nextId <= r.id < r.store.nextId
    ensures forall id :: id in s.tasks ==> r.store.tasks[id] == s.tasks[id]
    ensures r.store.tasks[r.id].title == title && !r.store.tasks[r.id].completed
    ensures r.store.tasks[r.id].order == Some(NextOrder(s))
    ensures forall id :: id in s.tasks && s.tasks[id].order.Some? ==>
              s.tasks[id].order.value < r.store.tasks[r.id].order.value
  {
    var id := s.nextId;
    Created(Store(s.tasks[id := Task(title, false, Some(NextOrder(s)))], s.nextId + 1), id)
  }

  /** `updateCompletion`: patches the completion flag of one existing task. */
  function UpdateCompletion(s: Store, id: Id, completed: bool): (r: Store)
    requires id in s.tasks
    ensures r.tasks.Keys == s.tasks.Keys && r.nextId == s.nextId
    ensures r.tasks[id].completed == completed
    ensures r.tasks[id].title == s.tasks[id].title && r.tasks[id].order == s.tasks[id].order
    ensures forall other :: other in s.tasks && other != id ==> r.tasks[other] == s.tasks[other]
  {
    Store(s.tasks[id := s.tasks[id].(completed := completed)], s.nextId)
  }

  /** `deleteTask`: removes one existing task; its id stays used up. */
  function DeleteTask(s: Store, id: Id): (r: Store)
    requires id in s.tasks
    ensures r.tasks.Keys == s.tasks.Keys - {id} && r.nextId == s.nextId
    ensures forall other :: other in r.tasks ==> r.tasks[other] == s.tasks[other]
    ensures |r.tasks| == |s.tasks| - 1
  {
    var r := Store(s.tasks - {id}, s.nextId);
    assert r.tasks.Keys == s.tasks.Keys - {id};
    r
  }

  /** One element of the `updateOrder` argument. */
  datatype OrderEntry = OrderEntry(id: Id, order: int)

  /** No id appears twice among `entries`. */
  predicate DistinctIds(entries: seq<OrderEntry>) {
    forall i, j :: 0 <= i < j < |entries| ==> entries[i].id != entries[j].id
  }

  /** Some entry names `id`. */
  predicate Listed(entries: seq<OrderEntry>, id: Id) {
    exists i :: 0 <= i < |entries| && entries[i].id == id
  }

  /** `updateOrder`: patches the order of every listed task, one entry at a
      time. */
  function UpdateOrder(s: Store, entries: seq<OrderEntry>): (r: Store)
    requires forall i :: 0 <= i < |entries| ==> entries[i].id in s.tasks
    requires DistinctIds(entries)
    ensures r.tasks.Keys == s.tasks.Keys && r.nextId == s.nextId
    ensures forall i :: 0 <= i < |entries| ==>
              r.tasks[entries[i].id] == s.tasks[entries[i].id].(order := Some(entries[i].order))
    ensures forall id :: id in s.tasks && !Listed(entries, id) ==> r.tasks[id] == s.tasks[id]
    decreases |entries|
  {
    if |entries| == 0 then s
    else
      var e := entries[0];
      var next := Store(s.tasks[e.id := s.tasks[e.id].(order := Some(e.order))], s.nextId);
      var rest := entries[1..];
      assert forall i :: 0 <= i < |rest| ==> rest[i] == entries[i + 1];
      var r := UpdateOrder(next, rest);
      assert !Listed(rest, e.id);
      forall id | id in s.tasks && !Listed(entries, id)
        ensures r.tasks[id] == s.tasks[id]
      {
        assert entries[0].id != id;
      }
      r
  }

  /** The ids of `docs` are pairwise different. */
  predicate DistinctDocIds(docs: seq<Doc>) {
    forall i, j :: 0 <= i < j < |docs| ==> docs[i].id != docs[j].id
  }

  /** Some document of `docs` has id `id`. */
  predicate HasId(docs: seq<Doc>, id: Id) {
    exists i :: 0 <= i < |docs| && docs[i].id == id
  }

  /** Deletes the documents of `docs` one after the other. */
  function DeleteEach(s: Store, docs: seq<Doc>): (r: Store)
    requires forall i :: 0 <= i < |docs| ==> docs[i].id in s.tasks
    requires DistinctDocIds(docs)
    ensures r.nextId == s.nextId
    ensures forall id :: id in r.tasks <==> id in s.tasks && !HasId(docs, id)
    ensures forall id :: id in r.tasks ==> r.tasks[id] == s.tasks[id]
    ensures |r.tasks| == |s.tasks| - |docs|
    decreases |docs|
  {
    if |docs| == 0 then s
    else
      var rest := docs[1..];
      assert forall i :: 0 <= i < |rest| ==> rest[i] == docs[i + 1];
      var r := DeleteEach(DeleteTask(s, docs[0].id), rest);
      forall id
        ensures id in r.tasks <==> id in s.tasks && !HasId(docs, id)
      {
        if HasId(rest, id) {
          var i :| 0 <= i < |rest| && rest[i].id == id;
          assert docs[i + 1].id == id;
        }
        if HasId(docs, id) && id != docs[0].id {
          var i :| 0 <= i < |docs| && docs[i].id == id;
          assert rest[i - 1].id == id;
        }
      }
      r
  }

  /** What `clearCompleted` reports. */
  datatype ClearOutcome = NothingToClear | Cleared(count: nat)

  datatype ClearResult = ClearResult(store: Store, outcome: ClearOutcome)

  /** The finished tasks, as the handler collects them before deleting. */
  function CompletedDocs(s: Store): (r: seq<Doc>)
    requires Valid(s)
    ensures DistinctDocIds(r)
    ensures forall i :: 0 <= i < |r| ==> r[i].id in s.tasks
    ensures forall id :: HasId(r, id) <==> id in s.tasks && s.tasks[id].completed
  {
    var done := Where(Scan(s), Some("completed"));
    WhereIncreasing(Scan(s), Some("completed"));
    assert forall i :: 0 <= i < |done| ==> done[i] in done;
    forall id | id in s.tasks && s.tasks[id].completed
      ensures HasId(done, id)
    {
      assert Doc(id, s.tasks[id]) in done;
    }
    done
  }

  /** `clearCompleted`: deletes every finished task and reports how many. */
  function ClearCompleted(s: Store): (r: ClearResult)
    requires Valid(s)
    ensures Valid(r.store) && r.store.nextId == s.nextId
    ensures forall id :: id in r.store.tasks <==> id in s.tasks && !s.tasks[id].completed
    ensures forall id :: id in r.store.tasks ==> r.store.tasks[id] == s.tasks[id]
    ensures r.outcome.NothingToClear? <==> forall id :: id in s.tasks ==> !s.tasks[id].completed
    ensures r.outcome.NothingToClear? ==> r.store == s
    ensures r.outcome.Cleared? ==> 0 < r.outcome.count == |s.tasks| - |r.store.tasks|
  {
    var done := CompletedDocs(s);
    if |done| == 0 then
      assert forall id :: !HasId(done, id);
      ClearResult(s, NothingToClear)
    else
      assert HasId(done, done[0].id);
      ClearResult(DeleteEach(s, done), Cleared(|done|))
  }

  const NothingToClearMessage := "No completed tasks to clear."
  const ClearedPrefix := "Cleared "
  const ClearedSuffix := " task(s)."

  /** The string `clearCompleted` returns for its outcome. */
  function ClearMessage(o: ClearOutcome): (m: string)
    ensures m == NothingToClearMessage <==> o == NothingToClear
    ensures o.Cleared? ==> ClearedPrefix <= m
  {
    match o
    case NothingToClear => NothingToClearMessage
    case Cleared(k) =>
      var m := ClearedPrefix + NatToString(k) + ClearedSuffix;
      assert m[0] != NothingToClearMessage[0];
      m
  }

  /** Recovers the outcome from a `clearCompleted` message. */
  function ParseClearMessage(m: string): Option<ClearOutcome> {
    if m == NothingToClearMessage then Some(NothingToClear)
    else if |m| > |ClearedPrefix| + |ClearedSuffix|
         && m[..|ClearedPrefix|] == ClearedPrefix
         && m[|m| - |ClearedSuffix|..] == ClearedSuffix
         && AllDigits(m[|ClearedPrefix|..|m| - |ClearedSuffix|])
    then Some(Cleared(StringToNat(m[|ClearedPrefix|..|m| - |ClearedSuffix|])))
    else None
  }

  /** The message names the outcome unambiguously: the count of a clear can
      be read back from it, and "nothing to clear" is never mistaken for a
      count. */
  lemma ClearMessageReadsBack(o: ClearOutcome)
    ensures ParseClearMessage(ClearMessage(o)) == Some(o)
  {
    match o
    case NothingToClear =>
    case Cleared(k) =>
      var digits := NatToString(k);
      var m := ClearMessage(o);
      assert m[..|ClearedPrefix|] == ClearedPrefix;
      assert m[|m| - |ClearedSuffix|..] == ClearedSuffix;
      assert m[|ClearedPrefix|..|m| - |ClearedSuffix|] == digits;
      assert m != NothingToClearMessage by {
        assert m[0] == 'C' && NothingToClearMessage[0] == 'N';
      }
      StringToNatInverts(k);
  }
}
