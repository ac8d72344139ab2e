/** The list screen's own logic: the filter it asks for, the reorder payload
    it sends after a drag, the "items left" count, the theme toggle and the
    empty-list text. */
module TodoScreen {
  import opened Wrappers
  import opened Schema
  import opened ByOrder
  import opened Tasks
  import opened TaskProperties
  import opened Theme

  /** The filter tabs of the screen. */
  datatype Filter = All | Active | Completed

  /** The `filter` argument the screen passes to `getTasks`. */
  function FilterArg(f: Filter): (r: string)
    ensures forall t :: Matches(Some(r), t) == TabShows(f, t)
  {
    match f
    case All =>
      assert "all"[1] != "active"[1] && "all"[1] != "completed"[1];
      "all"
    case Active => "active"
    case Completed => "completed"
  }

  /** What a tab promises to show. */
  predicate TabShows(f: Filter, t: Task) {
    match f
    case All => true
    case Active => !t.completed
    case Completed => t.completed
  }

  /** Each tab lists exactly the tasks it promises; "all" lists every task. */
  lemma TabsSelect(s: Store, f: Filter, path: QueryPath)
    requires Valid(s)
    ensures forall d :: d in GetTasks(s, Some(FilterArg(f)), path) <==> d in GetTasks(s, None, path) && TabShows(f, d.task)
  {
    forall d ensures d in GetTasks(s, Some(FilterArg(f)), path) <==> d in GetTasks(s, None, path) && TabShows(f, d.task) {
      assert Matches(Some(FilterArg(f)), d.task) == TabShows(f, d.task);
    }
  }

  /** `handleDragEnd`: the reordered list becomes one entry per task, giving
      the task at position i the order i. */
  function DragPayload(dragged: seq<Doc>): (r: seq<OrderEntry>)
    ensures |r| == |dragged|
    ensures forall i :: 0 <= i < |r| ==> r[i].id == dragged[i].id && r[i].order == i
  {
    seq(|dragged|, i requires 0 <= i < |dragged| => OrderEntry(dragged[i].id, i))
  }

  /** The payload names each dragged task once, with dense, strictly
      increasing orders 0..N-1. */
  lemma DragPayloadShape(dragged: seq<Doc>)
    requires DistinctDocIds(dragged)
    ensures DistinctIds(DragPayload(dragged))
    ensures forall i, j :: 0 <= i < j < |dragged| ==> DragPayload(dragged)[i].order < DragPayload(dragged)[j].order
    ensures forall id :: Listed(DragPayload(dragged), id) <==> HasId(dragged, id)
  {
    var p := DragPayload(dragged);
    forall id ensures Listed(p, id) <==> HasId(dragged, id) {
      if HasId(dragged, id) {
        var i :| 0 <= i < |dragged| && dragged[i].id == id;
        assert p[i].id == id;
      }
    }
  }

  /** The ids of `docs`, in their order. */
  function IdSeq(docs: seq<Doc>): (r: seq<Id>)
    ensures |r| == |docs| && forall i :: 0 <= i < |r| ==> r[i] == docs[i].id
  {
    seq(|docs|, i requires 0 <= i < |docs| => docs[i].id)
  }

  /** A sequence with pairwise different ids holds each document once. */
  lemma {:induction false} DistinctMultiplicity(a: seq<Doc>)
    requires DistinctDocIds(a)
    ensures forall x :: multiset(a)[x] == if x in a then 1 else 0
  {
    if |a| > 0 {
      var rest := a[1..];
      assert DistinctDocIds(rest) by {
        forall i, j | 0 <= i < j < |rest| ensures rest[i].id != rest[j].id {
          assert rest[i] == a[i + 1] && rest[j] == a[j + 1];
        }
      }
      DistinctMultiplicity(rest);
      assert a == [a[0]] + rest;
      assert a[0] !in rest by {
        forall k | 0 <= k < |rest| ensures rest[k] != a[0] {
          assert rest[k] == a[k + 1];
        }
      }
      forall x ensures multiset(a)[x] == if x in a then 1 else 0 {
        assert multiset(a)[x] == multiset([a[0]])[x] + multiset(rest)[x];
      }
    }
  }

  /** Two sequences without repeated ids and with the same documents are
      rearrangements of each other. */
  lemma SameDocumentsSameMultiset(a: seq<Doc>, b: seq<Doc>)
    requires DistinctDocIds(a) && DistinctDocIds(b)
    requires forall x :: x in a <==> x in b
    ensures multiset(a) == multiset(b)
  {
    DistinctMultiplicity(a);
    DistinctMultiplicity(b);
    forall x ensures multiset(a)[x] == multiset(b)[x] {
    }
  }

  /** The documents of the dragged tasks as the table holds them after the
      reorder, in the dragged sequence. */
  function Reordered(r: Store, dragged: seq<Doc>): (e: seq<Doc>)
    requires forall i :: 0 <= i < |dragged| ==> dragged[i].id in r.tasks
    ensures |e| == |dragged|
    ensures forall i :: 0 <= i < |e| ==> e[i] == Doc(dragged[i].id, r.tasks[dragged[i].id])
  {
    seq(|dragged|, i requires 0 <= i < |dragged| => Doc(dragged[i].id, r.tasks[dragged[i].id]))
  }

  /** Orders 0..N-1 along `dragged` make its documents sorted, with a key
      per document. */
  lemma ReorderedSortedByKey(r: Store, dragged: seq<Doc>)
    requires forall i :: 0 <= i < |dragged| ==> dragged[i].id in r.tasks && r.tasks[dragged[i].id].order == Some(i)
    ensures Sorted(Reordered(r, dragged)) && KeysDistinct(Reordered(r, dragged))
  {
    var e := Reordered(r, dragged);
    forall i, j | 0 <= i < j < |e| ensures OrderLe(e[i].task.order, e[j].task.order) {
      assert e[i].task.order == Some(i) && e[j].task.order == Some(j);
    }
    forall i, j | 0 <= i < |e| && 0 <= j < |e| && e[i] != e[j]
      ensures e[i].task.order != e[j].task.order
    {
      assert e[i].task.order == Some(i) && e[j].task.order == Some(j);
    }
  }

  /** The dragged tasks, read from the table, are the documents of the list. */
  lemma ReorderedIsTheList(r: Store, filter: Option<string>, dragged: seq<Doc>)
    requires Valid(r)
    requires DistinctDocIds(dragged)
    requires forall i :: 0 <= i < |dragged| ==> dragged[i].id in r.tasks
    requires forall id :: HasId(dragged, id) <==> id in r.tasks && Matches(filter, r.tasks[id])
    ensures multiset(Reordered(r, dragged)) == multiset(GetTasks(r, filter, CreationOrderScan))
  {
    var e := Reordered(r, dragged);
    var scanned := GetTasks(r, filter, CreationOrderScan);
    assert DistinctDocIds(e);
    assert DistinctDocIds(scanned);
    forall x ensures x in e <==> x in scanned {
      if x in scanned {
        assert HasId(dragged, x.id);
        var i :| 0 <= i < |dragged| && dragged[i].id == x.id;
        assert e[i] == x;
      }
      if x in e {
        var i :| 0 <= i < |e| && e[i] == x;
        assert HasId(dragged, dragged[i].id);
      }
    }
    SameDocumentsSameMultiset(e, scanned);
  }

  /** When the tasks a list shows carry the orders 0..N-1 in the sequence
      `dragged`, the indexed read of that list returns them in that sequence. */
  lemma IndexedReadFollowsOrders(r: Store, filter: Option<string>, dragged: seq<Doc>)
    requires Valid(r)
    requires DistinctDocIds(dragged)
    requires forall i :: 0 <= i < |dragged| ==> dragged[i].id in r.tasks && r.tasks[dragged[i].id].order == Some(i)
    requires forall id :: HasId(dragged, id) <==> id in r.tasks && Matches(filter, r.tasks[id])
    ensures IdSeq(GetTasks(r, filter, ByOrderIndex)) == IdSeq(dragged)
  {
    ReorderedIsTheList(r, filter, dragged);
    ReorderedSortedByKey(r, dragged);
    QueryPathsAgree(r, filter);
    SortedUnique(Reordered(r, dragged), GetTasks(r, filter, ByOrderIndex));
  }

  /** Applying the drag payload gives the dragged tasks the orders 0..N-1 and
      leaves every completion flag, hence every list's membership, alone. */
  lemma DragPayloadEffect(s: Store, filter: Option<string>, dragged: seq<Doc>)
    requires Valid(s)
    requires DistinctDocIds(dragged)
    requires forall id :: HasId(dragged, id) <==> id in s.tasks && Matches(filter, s.tasks[id])
    ensures forall i :: 0 <= i < |dragged| ==> dragged[i].id in s.tasks
    ensures DistinctIds(DragPayload(dragged))
    ensures var r := UpdateOrder(s, DragPayload(dragged));
            && Valid(r)
            && (forall i :: 0 <= i < |dragged| ==> r.tasks[dragged[i].id].order == Some(i))
            && (forall id :: HasId(dragged, id) <==> id in r.tasks && Matches(filter, r.tasks[id]))
  {
    forall i | 0 <= i < |dragged| ensures dragged[i].id in s.tasks {
      assert HasId(dragged, dragged[i].id);
    }
    DragPayloadShape(dragged);
    var payload := DragPayload(dragged);
    var r := UpdateOrder(s, payload);
    forall id | id in r.tasks ensures r.tasks[id].completed == s.tasks[id].completed {
      if Listed(payload, id) {
        var i :| 0 <= i < |payload| && payload[i].id == id;
      }
    }
  }

  /** After a drag over the list shown for `filter`, reading that list back
      through the `by_order` index gives the tasks in the dragged sequence. */
  lemma DragEndReproducesOrder(s: Store, filter: Option<string>, dragged: seq<Doc>)
    requires Valid(s)
    requires DistinctDocIds(dragged)
    requires forall id :: HasId(dragged, id) <==> id in s.tasks && Matches(filter, s.tasks[id])
    ensures forall i :: 0 <= i < |dragged| ==> dragged[i].id in s.tasks
    ensures DistinctIds(DragPayload(dragged))
    ensures var r := UpdateOrder(s, DragPayload(dragged));
            Valid(r) && IdSeq(GetTasks(r, filter, ByOrderIndex)) == IdSeq(dragged)
  {
    DragPayloadEffect(s, filter, dragged);
    IndexedReadFollowsOrders(UpdateOrder(s, DragPayload(dragged)), filter, dragged);
  }

  /** The number of open tasks in `docs`, counted one by one. */
  function OpenCount(docs: seq<Doc>): nat {
    if |docs| == 0 then 0
    else (if docs[0].task.completed then 0 else 1) + OpenCount(docs[1..])
  }

  /** The "active" filter keeps exactly the open tasks, one for each. */
  lemma {:induction false} ActiveLengthIsOpenCount(docs: seq<Doc>)
    ensures |Where(docs, Some("active"))| == OpenCount(docs)
  {
    if |docs| > 0 {
      ActiveLengthIsOpenCount(docs[1..]);
    }
  }

  /** The footer count: open tasks among those loaded, 0 while loading. */
  function TasksLeft(tasks: Option<seq<Doc>>): (n: nat)
    ensures tasks.None? ==> n == 0
    ensures tasks.Some? ==> n == OpenCount(tasks.value) && n <= |tasks.value|
  {
    match tasks
    case None => 0
    case Some(loaded) =>
      ActiveLengthIsOpenCount(loaded);
      |Where(loaded, Some("active"))|
  }

  /** A list of open tasks counts every one; a list of finished tasks counts
      none. */
  lemma {:induction false} OpenCountExtremes(docs: seq<Doc>)
    ensures (forall d :: d in docs ==> !d.task.completed) ==> OpenCount(docs) == |docs|
    ensures (forall d :: d in docs ==> d.task.completed) ==> OpenCount(docs) == 0
  {
    if |docs| > 0 {
      assert forall d :: d in docs[1..] ==> d in docs;
      OpenCountExtremes(docs[1..]);
    }
  }

  /** The "all" argument filters nothing, exactly like no argument. */
  lemma {:induction false} AllArgumentIsUnfiltered(docs: seq<Doc>)
    ensures Where(docs, Some("all")) == Where(docs, None)
  {
    assert FilterArg(All) == "all";
    if |docs| > 0 {
      AllArgumentIsUnfiltered(docs[1..]);
    }
  }

  /** Sorting does not change how many documents a filter keeps. */
  lemma {:induction false} WhereCountInsert(d: Doc, s: seq<Doc>, filter: Option<string>)
    ensures |Where(Insert(d, s), filter)| == |Where(s, filter)| + (if Matches(filter, d.task) then 1 else 0)
  {
    if |s| > 0 && !OrderLe(d.task.order, s[0].task.order) {
      WhereCountInsert(d, s[1..], filter);
      assert Insert(d, s) == [s[0]] + Insert(d, s[1..]);
      assert Where(Insert(d, s), filter) ==
             (if Matches(filter, s[0].task) then [s[0]] else []) + Where(Insert(d, s[1..]), filter);
      assert ([s[0]] + Insert(d, s[1..]))[1..] == Insert(d, s[1..]);
    } else if |s| > 0 {
      assert ([d] + s)[1..] == s;
    }
  }

  lemma {:induction false} WhereCountSort(s: seq<Doc>, filter: Option<string>)
    ensures |Where(SortByOrder(s), filter)| == |Where(s, filter)|
  {
    if |s| > 0 {
      WhereCountSort(s[1..], filter);
      WhereCountInsert(s[0], SortByOrder(s[1..]), filter);
    }
  }

  /** Over the unfiltered list, the footer count is the number of open tasks
      in the table, which is the length of the "active" tab. */
  lemma TasksLeftCountsOpenTasks(s: Store, path: QueryPath)
    requires Valid(s)
    ensures TasksLeft(Some(GetTasks(s, None, path))) == |MatchingIds(s, Some("active"))|
    ensures TasksLeft(Some(GetTasks(s, None, path))) == |GetTasks(s, Some("active"), path)|
  {
    GetTasksCount(s, Some("active"), path);
    var scanned := Where(Scan(s), None);
    var open := Where(scanned, Some("active"));
    WhereIncreasing(Scan(s), None);
    WhereIncreasing(scanned, Some("active"));
    assert DistinctDocIds(open);
    DistinctIdsCount(open);
    assert IdsOf(open) == MatchingIds(s, Some("active")) by {
      forall id ensures id in IdsOf(open) <==> id in MatchingIds(s, Some("active")) {
        if id in MatchingIds(s, Some("active")) {
          assert Doc(id, s.tasks[id]) in open;
        }
      }
    }
    if path == ByOrderIndex {
      WhereCountSort(scanned, Some("active"));
    }
  }

  /** The footer under each tab, for the argument the screen sends: the
      table's open tasks on "all" and on "active" (where that is the length
      of the list shown), and always 0 on "completed". */
  lemma TasksLeftOnEachTab(s: Store, f: Filter, path: QueryPath)
    requires Valid(s)
    ensures TasksLeft(Some(GetTasks(s, Some(FilterArg(f)), path)))
            == (if f == Completed then 0 else |MatchingIds(s, Some("active"))|)
    ensures f == Active ==>
              TasksLeft(Some(GetTasks(s, Some(FilterArg(f)), path))) == |GetTasks(s, Some(FilterArg(f)), path)|
  {
    var shown := GetTasks(s, Some(FilterArg(f)), path);
    match f
    case All =>
      AllArgumentIsUnfiltered(Scan(s));
      assert shown == GetTasks(s, None, path);
      TasksLeftCountsOpenTasks(s, path);
    case Active =>
      OpenCountExtremes(shown);
      GetTasksCount(s, Some("active"), path);
    case Completed =>
      OpenCountExtremes(shown);
  }

  /** The header toggle always picks an explicit mode, the opposite of what
      is showing. */
  function ToggleTarget(isDark: bool): (m: ThemeMode)
    ensures m != System
    ensures m == Light <==> isDark
  {
    if isDark then Light else Dark
  }

  /** A successful toggle flips dark mode, whatever the mode and the system
      scheme were; a failed write changes nothing. */
  lemma ToggleFlipsDarkMode(mode: ThemeMode, scheme: SystemScheme, writeSucceeds: bool)
    ensures var after := SetThemeMode(mode, ToggleTarget(IsDark(mode, scheme)), writeSucceeds).mode;
            (writeSucceeds ==> IsDark(after, scheme) == !IsDark(mode, scheme))
            && (!writeSucceeds ==> after == mode)
  {
  }

  /** The text shown when the list is empty. */
  function EmptyListText(f: Filter): (r: string)
    ensures r == "No tasks yet. Add one!" <==> f == All
    ensures f != All ==> |r| > 10 && r[..3] == "No " && r[3..|r| - 7] == FilterArg(f) && r[|r| - 7..] == " tasks."
  {
    if f == All then "No tasks yet. Add one!" else "No " + FilterArg(f) + " tasks."
  }

  /** Each tab has its own empty-list text, and only "all" invites adding. */
  lemma EmptyListTextsDiffer(f: Filter, g: Filter)
    ensures f != g ==> EmptyListText(f) != EmptyListText(g)
    ensures EmptyListText(f) == "No tasks yet. Add one!" <==> f == All
  {
    if f != g && f != All && g != All {
      assert EmptyListText(f)[3] != EmptyListText(g)[3];
    }
    if f != All {
      assert EmptyListText(f)[3] != "No tasks yet. Add one!"[3];
    }
  }
}
