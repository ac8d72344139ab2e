/** The `tasks` table of the database schema and the key of its `by_order` index. */
module Schema {
  import opened Wrappers

  /** Document ids. The store hands them out from a counter, so a smaller id
      always belongs to an earlier insertion. */
  type Id = nat

  /** A stored task: a title, a completion flag and an optional sort key.
      The table declares no other user fields (no description, no due date). */
  datatype Task = Task(title: string, completed: bool, order: Option<int>)

  /** A document as queries return it: the task together with its id. */
  datatype Doc = Doc(id: Id, task: Task)

  /** The `by_order` index comparison on order keys. A missing order sorts
      before every number, as the database orders an absent field below all
      numeric values. */
  predicate OrderLe(a: Option<int>, b: Option<int>): (r: bool)
    ensures a.None? ==> r
    ensures b.None? ==> (r <==> a.None?)
    ensures a.Some? && b.Some? ==> (r <==> a.value <= b.value)
  {
    match a
    case None => true
    case Some(x) => b.Some? && x <= b.value
  }

  /** The index comparison is a total preorder whose least key is "no order". */
  lemma OrderLeIsTotalPreorder()
    ensures forall a :: OrderLe(a, a)
    ensures forall a, b :: OrderLe(a, b) || OrderLe(b, a)
    ensures forall a, b, c :: OrderLe(a, b) && OrderLe(b, c) ==> OrderLe(a, c)
    ensures forall a :: OrderLe(None, a)
    ensures forall x: int, a :: OrderLe(a, None) ==> a != Some(x)
  {
  }
}
