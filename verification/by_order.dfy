/** Sorting documents by the `by_order` index: a stable insertion sort on the
    order key, so documents with equal keys keep their scan (creation) order. */
module ByOrder {
  import opened Schema

  /** Non-decreasing in the index order. */
  predicate Sorted(s: seq<Doc>) {
    forall i, j :: 0 <= i < j < |s| ==> OrderLe(s[i].task.order, s[j].task.order)
  }

  /** Places `d` before the first document whose key is not below its own. */
  function Insert(d: Doc, s: seq<Doc>): (r: seq<Doc>)
    ensures multiset(r) == multiset(s) + multiset{d}
    ensures forall x :: x in r <==> x in s || x == d
  {
    if |s| == 0 then [d]
    else if OrderLe(d.task.order, s[0].task.order) then [d] + s
    else
      assert s == [s[0]] + s[1..];
      [s[0]] + Insert(d, s[1..])
  }

  /** Inserting into a sorted sequence keeps it sorted. */
  lemma {:induction false} InsertSorted(d: Doc, s: seq<Doc>)
    requires Sorted(s)
    ensures Sorted(Insert(d, s))
  {
    if |s| > 0 && !OrderLe(d.task.order, s[0].task.order) {
      var rest := Insert(d, s[1..]);
      SortedTail(s);
      InsertSorted(d, s[1..]);
      forall x | x in rest
        ensures OrderLe(s[0].task.order, x.task.order)
      {
        assert x in multiset(rest);
        if x != d {
          assert x in multiset(s[1..]);
          var k :| 0 <= k < |s[1..]| && s[1..][k] == x;
          assert s[k + 1] == x;
        }
      }
      var r := [s[0]] + rest;
      forall i, j | 0 <= i < j < |r|
        ensures OrderLe(r[i].task.order, r[j].task.order)
      {
        if i == 0 {
          assert r[j] == rest[j - 1];
          assert r[j] in rest;
        } else {
          assert r[i] == rest[i - 1] && r[j] == rest[j - 1];
        }
      }
    }
  }

  /** The ascending `by_order` view of `s`. */
  function SortByOrder(s: seq<Doc>): (r: seq<Doc>)
    ensures multiset(r) == multiset(s)
    ensures forall x :: x in r <==> x in s
  {
    if |s| == 0 then []
    else
      assert s == [s[0]] + s[1..];
      Insert(s[0], SortByOrder(s[1..]))
  }

  /** The `by_order` view is sorted. */
  lemma {:induction false} SortByOrderSorted(s: seq<Doc>)
    ensures Sorted(SortByOrder(s))
  {
    if |s| > 0 {
      SortByOrderSorted(s[1..]);
      InsertSorted(s[0], SortByOrder(s[1..]));
    }
  }

  /** Ids strictly increase along `docs`, as in a scan in creation order. */
  predicate IdsIncreasing(docs: seq<Doc>) {
    forall i, j :: 0 <= i < j < |docs| ==> docs[i].id < docs[j].id
  }

  /** Documents with equal keys appear in ascending id order. */
  predicate TiesByAscendingId(s: seq<Doc>) {
    forall i, j :: 0 <= i < j < |s| && s[i].task.order == s[j].task.order ==> s[i].id < s[j].id
  }

  /** Putting `h` in front keeps ties ordered when `h` has a smaller id than
      every document sharing its key. */
  lemma ConsKeepsTies(h: Doc, rest: seq<Doc>)
    requires TiesByAscendingId(rest)
    requires forall x :: x in rest && x.task.order == h.task.order ==> h.id < x.id
    ensures TiesByAscendingId([h] + rest)
  {
    var r := [h] + rest;
    forall i, j | 0 <= i < j < |r| && r[i].task.order == r[j].task.order
      ensures r[i].id < r[j].id
    {
      assert r[j] == rest[j - 1] && r[j] in rest;
      if i > 0 {
        assert r[i] == rest[i - 1];
      }
    }
  }

  /** Dropping the first document keeps ties ordered. */
  lemma TiesTail(s: seq<Doc>)
    requires TiesByAscendingId(s) && |s| > 0
    ensures TiesByAscendingId(s[1..])
  {
    var tail := s[1..];
    forall i, j | 0 <= i < j < |tail| && tail[i].task.order == tail[j].task.order
      ensures tail[i].id < tail[j].id
    {
      assert tail[i] == s[i + 1] && tail[j] == s[j + 1];
    }
  }

  /** Inserting a document with a smaller id than all others keeps ties in
      ascending id order: it lands before every document with its key. */
  lemma {:induction false} InsertKeepsTies(d: Doc, s: seq<Doc>)
    requires TiesByAscendingId(s)
    requires forall x :: x in s ==> d.id < x.id
    ensures TiesByAscendingId(Insert(d, s))
  {
    if |s| > 0 && OrderLe(d.task.order, s[0].task.order) {
      ConsKeepsTies(d, s);
    } else if |s| > 0 {
      var tail := s[1..];
      TiesTail(s);
      assert forall x :: x in tail ==> x in s;
      InsertKeepsTies(d, tail);
      var rest := Insert(d, tail);
      forall x | x in rest && x.task.order == s[0].task.order
        ensures s[0].id < x.id
      {
        if x != d {
          var k :| 0 <= k < |tail| && tail[k] == x;
          assert s[k + 1] == x;
        }
      }
      ConsKeepsTies(s[0], rest);
    }
  }

  /** The `by_order` view is stable: read from a scan in creation order,
      documents with equal keys keep their creation order. */
  lemma {:induction false} SortByOrderStable(s: seq<Doc>)
    requires IdsIncreasing(s)
    ensures TiesByAscendingId(SortByOrder(s))
  {
    if |s| > 0 {
      var tail := s[1..];
      assert IdsIncreasing(tail) by {
        forall i, j | 0 <= i < j < |tail|
          ensures tail[i].id < tail[j].id
        {
          assert tail[i] == s[i + 1] && tail[j] == s[j + 1];
        }
      }
      SortByOrderStable(tail);
      forall x | x in SortByOrder(tail)
        ensures s[0].id < x.id
      {
        var k :| 0 <= k < |tail| && tail[k] == x;
        assert s[k + 1] == x;
      }
      InsertKeepsTies(s[0], SortByOrder(tail));
    }
  }

  /** The last document of a sorted sequence has the greatest key. */
  lemma SortedLastIsGreatest(s: seq<Doc>)
    requires Sorted(s) && |s| > 0
    ensures forall d :: d in s ==> OrderLe(d.task.order, s[|s| - 1].task.order)
  {
    forall d | d in s
      ensures OrderLe(d.task.order, s[|s| - 1].task.order)
    {
      var k :| 0 <= k < |s| && s[k] == d;
      if k < |s| - 1 {
        assert OrderLe(s[k].task.order, s[|s| - 1].task.order);
      }
    }
  }

  /** The order key tells apart any two distinct documents of `s`. */
  predicate KeysDistinct(s: seq<Doc>) {
    forall i, j :: 0 <= i < |s| && 0 <= j < |s| && s[i] != s[j] ==> s[i].task.order != s[j].task.order
  }

  /** Dropping the first document keeps a sequence sorted. */
  lemma SortedTail(s: seq<Doc>)
    requires Sorted(s) && |s| > 0
    ensures Sorted(s[1..])
  {
    forall i, j | 0 <= i < j < |s[1..]|
      ensures OrderLe(s[1..][i].task.order, s[1..][j].task.order)
    {
      assert s[1..][i] == s[i + 1] && s[1..][j] == s[j + 1];
    }
  }

  /** Two sorted arrangements of one multiset start with the same document
      when keys tell documents apart. */
  lemma SortedSameHead(a: seq<Doc>, b: seq<Doc>)
    requires Sorted(a) && Sorted(b)
    requires multiset(a) == multiset(b)
    requires KeysDistinct(a)
    requires |a| > 0
    ensures |b| > 0 && a[0] == b[0]
  {
    assert a[0] in multiset(b);
    var i :| 0 <= i < |b| && b[i] == a[0];
    assert b[0] in multiset(a);
    var j :| 0 <= j < |a| && a[j] == b[0];
    assert OrderLe(b[0].task.order, a[0].task.order);
    assert OrderLe(a[0].task.order, b[0].task.order);
    assert a[0].task.order == a[j].task.order;
  }

  /** Two sorted arrangements of the same documents coincide when no two
      documents share a key: sorting then leaves no choice. */
  lemma {:induction false} SortedUnique(a: seq<Doc>, b: seq<Doc>)
    requires Sorted(a) && Sorted(b)
    requires multiset(a) == multiset(b)
    requires KeysDistinct(a)
    ensures a == b
    decreases |a|
  {
    assert |a| == |multiset(a)| == |multiset(b)| == |b|;
    if |a| > 0 {
      SortedSameHead(a, b);
      assert a == [a[0]] + a[1..];
      assert b == [b[0]] + b[1..];
      assert multiset(a[1..]) == multiset(b[1..]) by {
        assert multiset(a) == multiset{a[0]} + multiset(a[1..]);
        assert multiset(b) == multiset{b[0]} + multiset(b[1..]);
        forall x ensures multiset(a[1..])[x] == multiset(b[1..])[x] {
          assert multiset(a)[x] == multiset(b)[x];
        }
      }
      SortedTail(a);
      SortedTail(b);
      assert KeysDistinct(a[1..]) by {
        forall i, j | 0 <= i < |a[1..]| && 0 <= j < |a[1..]| && a[1..][i] != a[1..][j]
          ensures a[1..][i].task.order != a[1..][j].task.order
        {
          assert a[1..][i] == a[i + 1] && a[1..][j] == a[j + 1];
        }
      }
      SortedUnique(a[1..], b[1..]);
    }
  }
}
