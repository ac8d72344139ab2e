/** Sequences of backend calls: which calls a state admits, what a run of
    them produces, and the id-retirement guarantee that holds along any run. */
module History {
  import opened Wrappers
  import opened Schema
  import opened Tasks

  /** One call of a backend handler, with its arguments. */
  datatype Op =
    | CreateOp(title: string)
    | UpdateCompletionOp(id: Id, completed: bool)
    | DeleteTaskOp(id: Id)
    | UpdateOrderOp(entries: seq<OrderEntry>)
    | ClearCompletedOp

  /** The call names only existing tasks (and an order list names each once). */
  predicate Enabled(s: Store, op: Op) {
    match op
    case CreateOp(_) => true
    case UpdateCompletionOp(id, _) => id in s.tasks
    case DeleteTaskOp(id) => id in s.tasks
    case UpdateOrderOp(entries) =>
      (forall i :: 0 <= i < |entries| ==> entries[i].id in s.tasks) && DistinctIds(entries)
    case ClearCompletedOp => true
  }

  /** The table after one call. */
  function Step(s: Store, op: Op): (r: Store)
    requires Valid(s) && Enabled(s, op)
    ensures Valid(r)
  {
    match op
    case CreateOp(title) => Create(s, title).store
    case UpdateCompletionOp(id, completed) => UpdateCompletion(s, id, completed)
    case DeleteTaskOp(id) => DeleteTask(s, id)
    case UpdateOrderOp(entries) => UpdateOrder(s, entries)
    case ClearCompletedOp => ClearCompleted(s).store
  }

  /** Every call of `ops`, in turn, is admitted by the state it meets. */
  predicate Runnable(s: Store, ops: seq<Op>)
    decreases |ops|
  {
    Valid(s) && (|ops| == 0 || (Enabled(s, ops[0]) && Runnable(Step(s, ops[0]), ops[1..])))
  }

  /** The table after all calls of `ops`. */
  function Run(s: Store, ops: seq<Op>): (r: Store)
    requires Runnable(s, ops)
    ensures Valid(r)
    decreases |ops|
  {
    if |ops| == 0 then s else Run(Step(s, ops[0]), ops[1..])
  }

  /** An id below the counter and absent from the table is never stored
      again, whatever calls follow. */
  lemma {:induction false} RetiredIdStaysRetired(s: Store, ops: seq<Op>, id: Id)
    requires Runnable(s, ops)
    requires id < s.nextId && id !in s.tasks
    ensures id !in Run(s, ops).tasks && s.nextId <= Run(s, ops).nextId
    decreases |ops|
  {
    if |ops| > 0 {
      var next := Step(s, ops[0]);
      assert id !in next.tasks && s.nextId <= next.nextId by {
        match ops[0]
        case CreateOp(title) =>
        case UpdateCompletionOp(_, _) =>
        case DeleteTaskOp(_) =>
        case UpdateOrderOp(_) =>
        case ClearCompletedOp =>
      }
      RetiredIdStaysRetired(next, ops[1..], id);
    }
  }

  /** Deleting a task retires its id for good: no later call brings it back,
      and no later list shows it. */
  lemma DeletedIdNeverReturns(s: Store, id: Id, ops: seq<Op>, filter: Option<string>, path: QueryPath)
    requires Valid(s) && id in s.tasks
    requires Runnable(DeleteTask(s, id), ops)
    ensures id !in Run(DeleteTask(s, id), ops).tasks
    ensures forall d :: d in GetTasks(Run(DeleteTask(s, id), ops), filter, path) ==> d.id != id
  {
    RetiredIdStaysRetired(DeleteTask(s, id), ops, id);
  }
}
