/** Properties of the task store that relate several handlers or several
    calls: the filter partition, the agreement of the two query paths,
    counts, idempotence and the append position of a created task. */
module TaskProperties {
  import opened Wrappers
  import opened Schema
  import opened ByOrder
  import opened Tasks

  /** The ids of the tasks that pass `filter`. */
  function MatchingIds(s: Store, filter: Option<string>): set<Id> {
    set id | id in s.tasks && Matches(filter, s.tasks[id])
  }

  /** The ids occurring in `docs`. */
  function IdsOf(docs: seq<Doc>): set<Id> {
    set i | 0 <= i < |docs| :: docs[i].id
  }

  /** A sequence with pairwise different ids has as many elements as ids. */
  lemma {:induction false} DistinctIdsCount(docs: seq<Doc>)
    requires DistinctDocIds(docs)
    ensures |IdsOf(docs)| == |docs|
  {
    if |docs| > 0 {
      var rest := docs[1..];
      assert DistinctDocIds(rest) by {
        forall i, j | 0 <= i < j < |rest| ensures rest[i].id != rest[j].id {
          assert rest[i] == docs[i + 1] && rest[j] == docs[j + 1];
        }
      }
      DistinctIdsCount(rest);
      assert IdsOf(docs) == {docs[0].id} + IdsOf(rest) by {
        forall id ensures id in IdsOf(docs) <==> id in {docs[0].id} + IdsOf(rest) {
          if id in IdsOf(docs) {
            var i :| 0 <= i < |docs| && docs[i].id == id;
            if i > 0 { assert rest[i - 1].id == id; }
          }
          if id in IdsOf(rest) {
            var i :| 0 <= i < |rest| && rest[i].id == id;
            assert docs[i + 1].id == id;
          }
        }
      }
      assert docs[0].id !in IdsOf(rest);
    }
  }

  /** `getTasks` returns one document per matching task, on either path. */
  lemma GetTasksCount(s: Store, filter: Option<string>, path: QueryPath)
    requires Valid(s)
    ensures |GetTasks(s, filter, path)| == |MatchingIds(s, filter)|
  {
    var scanned := GetTasks(s, filter, CreationOrderScan);
    assert DistinctDocIds(scanned);
    DistinctIdsCount(scanned);
    assert IdsOf(scanned) == MatchingIds(s, filter) by {
      forall id ensures id in IdsOf(scanned) <==> id in MatchingIds(s, filter) {
        if id in MatchingIds(s, filter) {
          assert Doc(id, s.tasks[id]) in scanned;
        }
      }
    }
    var indexed := GetTasks(s, filter, ByOrderIndex);
    assert |indexed| == |multiset(indexed)| == |multiset(scanned)| == |scanned|;
  }

  /** The "active" and "completed" results never share a document, and
      together they hold exactly the unfiltered result. */
  lemma FilterPartition(s: Store, path: QueryPath)
    requires Valid(s)
    ensures forall d :: d in GetTasks(s, Some("active"), path) ==> !d.task.completed
    ensures forall d :: d in GetTasks(s, Some("completed"), path) ==> d.task.completed
    ensures forall d :: !(d in GetTasks(s, Some("active"), path) && d in GetTasks(s, Some("completed"), path))
    ensures forall d :: d in GetTasks(s, None, path) <==>
              d in GetTasks(s, Some("active"), path) || d in GetTasks(s, Some("completed"), path)
    ensures forall other :: other != "active" && other != "completed" ==>
              forall d :: d in GetTasks(s, Some(other), path) <==> d in GetTasks(s, None, path)
  {
  }

  /** The fallback query returns the same documents as the indexed one; only
      their arrangement may differ. */
  lemma QueryPathsAgree(s: Store, filter: Option<string>)
    requires Valid(s)
    ensures multiset(GetTasks(s, filter, ByOrderIndex)) == multiset(GetTasks(s, filter, CreationOrderScan))
  {
  }

  /** Two creates in a row hand out different ids and increasing orders. */
  lemma CreateOrdersIncrease(s: Store, first: string, second: string)
    requires Valid(s)
    ensures var a := Create(s, first);
            var b := Create(a.store, second);
            a.id != b.id && NextOrder(s) < NextOrder(a.store)
  {
  }

  /** A document whose key is above every other key of a sorted sequence is
      its last element. */
  lemma StrictGreatestIsLast(view: seq<Doc>, d: Doc)
    requires Sorted(view) && d in view
    requires forall x :: x in view && x != d ==> !OrderLe(d.task.order, x.task.order)
    ensures view[|view| - 1] == d
  {
    var k :| 0 <= k < |view| && view[k] == d;
    if k < |view| - 1 {
      assert OrderLe(view[k].task.order, view[|view| - 1].task.order);
      assert view[|view| - 1] in view;
    }
  }

  /** After inserting `id` with order `n` above every earlier order, the key
      of the new document exceeds the key of every other listed document. */
  lemma InsertedKeyIsGreatest(before: map<Id, Task>, after: map<Id, Task>, id: Id, n: int, view: seq<Doc>)
    requires id !in before && after.Keys == before.Keys + {id}
    requires forall k :: k in before ==> after[k] == before[k]
    requires after[id].order == Some(n)
    requires forall k :: k in before && before[k].order.Some? ==> before[k].order.value < n
    requires forall x :: x in view ==> x.id in after && after[x.id] == x.task
    ensures forall x :: x in view && x != Doc(id, after[id]) ==> !OrderLe(Some(n), x.task.order)
  {
  }

  /** A created task is the last document of the ordered, unfiltered list. */
  lemma CreateAppendsToView(s: Store, title: string)
    requires Valid(s)
    ensures var c := Create(s, title);
            var view := GetTasks(c.store, None, ByOrderIndex);
            |view| > 0 && view[|view| - 1] == Doc(c.id, c.store.tasks[c.id])
  {
    var c := Create(s, title);
    var view := GetTasks(c.store, None, ByOrderIndex);
    var d := Doc(c.id, c.store.tasks[c.id]);
    InsertedKeyIsGreatest(s.tasks, c.store.tasks, c.id, NextOrder(s), view);
    StrictGreatestIsLast(view, d);
  }

  /** Setting the completion flag twice is setting it once. */
  lemma UpdateCompletionIdempotent(s: Store, id: Id, completed: bool)
    requires id in s.tasks
    ensures UpdateCompletion(UpdateCompletion(s, id, completed), id, completed) == UpdateCompletion(s, id, completed)
  {
  }

  /** Marking a task done moves it from the "active" to the "completed" list. */
  lemma CompletionMovesBetweenFilters(s: Store, id: Id, path: QueryPath)
    requires Valid(s) && id in s.tasks
    ensures var r := UpdateCompletion(s, id, true);
            var d := Doc(id, r.tasks[id]);
            Valid(r) && d in GetTasks(r, Some("completed"), path) && d !in GetTasks(r, Some("active"), path)
  {
  }

  /** A deleted task appears in no list. */
  lemma DeletedTaskNotListed(s: Store, id: Id, filter: Option<string>, path: QueryPath)
    requires Valid(s) && id in s.tasks
    ensures Valid(DeleteTask(s, id))
    ensures forall d :: d in GetTasks(DeleteTask(s, id), filter, path) ==> d.id != id
  {
  }

  /** Applying the same reorder twice equals applying it once. */
  lemma UpdateOrderIdempotent(s: Store, entries: seq<OrderEntry>)
    requires forall i :: 0 <= i < |entries| ==> entries[i].id in s.tasks
    requires DistinctIds(entries)
    ensures UpdateOrder(UpdateOrder(s, entries), entries) == UpdateOrder(s, entries)
  {
    var once := UpdateOrder(s, entries);
    var twice := UpdateOrder(once, entries);
    forall id | id in once.tasks ensures twice.tasks[id] == once.tasks[id] {
      if Listed(entries, id) {
        var i :| 0 <= i < |entries| && entries[i].id == id;
      }
    }
    assert twice.tasks == once.tasks;
  }

  /** Every task is either open or finished. */
  lemma OpenAndFinishedSplit(s: Store)
    ensures MatchingIds(s, None) == s.tasks.Keys
    ensures |s.tasks| == |MatchingIds(s, Some("active"))| + |MatchingIds(s, Some("completed"))|
  {
    var open := MatchingIds(s, Some("active"));
    var done := MatchingIds(s, Some("completed"));
    assert s.tasks.Keys == open + done;
    assert open !! done;
    assert |s.tasks| == |s.tasks.Keys|;
  }

  /** Clearing leaves exactly the open tasks, and reports as many removals as
      there were finished tasks. */
  lemma ClearCompletedIds(s: Store)
    requires Valid(s)
    ensures ClearCompleted(s).store.tasks.Keys == MatchingIds(s, Some("active"))
    ensures ClearCompleted(s).outcome.NothingToClear? <==> MatchingIds(s, Some("completed")) == {}
    ensures ClearCompleted(s).outcome.Cleared? ==>
              ClearCompleted(s).outcome.count == |MatchingIds(s, Some("completed"))|
  {
    var r := ClearCompleted(s);
    OpenAndFinishedSplit(s);
    assert r.store.tasks.Keys == MatchingIds(s, Some("active"));
    assert |r.store.tasks| == |r.store.tasks.Keys|;
    if MatchingIds(s, Some("completed")) == {} {
      forall id | id in s.tasks ensures !s.tasks[id].completed {
        assert id !in MatchingIds(s, Some("completed"));
      }
    }
  }

  /** With K finished and M open tasks, clearing reports K (or "nothing" when
      K is 0) and leaves exactly the M open tasks. */
  lemma ClearCompletedCounts(s: Store, path: QueryPath)
    requires Valid(s)
    ensures var r := ClearCompleted(s);
            var k := |GetTasks(s, Some("completed"), path)|;
            && (k == 0 <==> r.outcome.NothingToClear?)
            && (k > 0 ==> r.outcome == Cleared(k))
            && |GetTasks(r.store, None, path)| == |GetTasks(s, Some("active"), path)|
            && forall d :: d in GetTasks(r.store, None, path) ==> !d.task.completed
  {
    var r := ClearCompleted(s);
    ClearCompletedIds(s);
    GetTasksCount(s, Some("completed"), path);
    GetTasksCount(s, Some("active"), path);
    GetTasksCount(r.store, None, path);
    OpenAndFinishedSplit(r.store);
  }

  /** A list whose documents are exactly `d` is `[d]`. */
  lemma SingletonList(s: Store, filter: Option<string>, path: QueryPath, d: Doc)
    requires Valid(s)
    requires forall x :: x in GetTasks(s, filter, path) <==> x == d
    requires MatchingIds(s, filter) == {d.id}
    ensures GetTasks(s, filter, path) == [d]
  {
    GetTasksCount(s, filter, path);
    var l := GetTasks(s, filter, path);
    assert |l| == 1 && l[0] in l;
  }

  /** The two tasks of the worked scenario, as stored. */
  const BuyMilk := Task("Buy milk", false, Some(1))
  const WalkDog := Task("Walk dog", false, Some(2))

  /** Two creates on an empty table store orders 1 and 2 under ids 0 and 1. */
  lemma TwoCreatesFromEmpty()
    ensures Create(EmptyStore, "Buy milk") == Created(Store(map[0 := BuyMilk], 1), 0)
    ensures Create(Store(map[0 := BuyMilk], 1), "Walk dog") == Created(Store(map[0 := BuyMilk, 1 := WalkDog], 2), 1)
  {
    assert NextOrder(EmptyStore) == 1;
    assert NextOrder(Store(map[0 := BuyMilk], 1)) == 2;
  }

  /** The table once "Buy milk" is done, and after the clear. */
  const MilkDone := Store(map[0 := BuyMilk.(completed := true), 1 := WalkDog], 2)
  const OnlyWalkDog := Store(map[1 := WalkDog], 2)

  /** With "Buy milk" done, only "Walk dog" is active. */
  lemma ActiveAfterFirstDone(path: QueryPath)
    ensures Valid(MilkDone) && GetTasks(MilkDone, Some("active"), path) == [Doc(1, WalkDog)]
  {
    assert MatchingIds(MilkDone, Some("active")) == {1};
    SingletonList(MilkDone, Some("active"), path, Doc(1, WalkDog));
  }

  /** Clearing then removes one task and keeps "Walk dog". */
  lemma ClearAfterFirstDone()
    ensures Valid(MilkDone) && ClearCompleted(MilkDone) == ClearResult(OnlyWalkDog, Cleared(1))
  {
    var cleared := ClearCompleted(MilkDone);
    assert cleared.store.tasks == OnlyWalkDog.tasks;
    assert |MilkDone.tasks| == 2 && |cleared.store.tasks| == 1;
  }

  /** "Walk dog" is then all the list shows. */
  lemma ListAfterClear(path: QueryPath)
    ensures Valid(OnlyWalkDog) && GetTasks(OnlyWalkDog, None, path) == [Doc(1, WalkDog)]
  {
    assert MatchingIds(OnlyWalkDog, None) == {1};
    SingletonList(OnlyWalkDog, None, path, Doc(1, WalkDog));
  }

  /** The scenario end to end: create "Buy milk" (order 1) and "Walk dog"
      (order 2), mark the first done, list the active tasks, clear. */
  lemma ScenarioFromEmptyStore(path: QueryPath)
    ensures var c1 := Create(EmptyStore, "Buy milk");
            var c2 := Create(c1.store, "Walk dog");
            var s3 := UpdateCompletion(c2.store, c1.id, true);
            && c1.store.tasks[c1.id].order == Some(1)
            && c2.store.tasks[c2.id].order == Some(2)
            && GetTasks(s3, Some("active"), path) == [Doc(c2.id, WalkDog)]
            && ClearCompleted(s3).outcome == Cleared(1)
            && GetTasks(ClearCompleted(s3).store, None, path) == [Doc(c2.id, WalkDog)]
  {
    TwoCreatesFromEmpty();
    assert UpdateCompletion(Store(map[0 := BuyMilk, 1 := WalkDog], 2), 0, true) == MilkDone;
    ActiveAfterFirstDone(path);
    ClearAfterFirstDone();
    ListAfterClear(path);
  }
}
