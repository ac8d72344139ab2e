# Todo list: task store and client decision logic in Dafny

This project models the core of a small todo-list application. The backend is
a single `tasks` table in a hosted reactive database with six handlers:
`getTasks`, `create`, `updateCompletion`, `deleteTask`, `updateOrder` and
`clearCompleted`. The client adds a few pieces of decision logic on top: the
reorder payload sent after a drag, the "items left" count, the edit/new modal's
save decision and prefill, and the theme provider's mode handling.

The table is an immutable value `Store(tasks: map<Id, Task>, nextId)`. Each
handler is a pure function from one store to the next. `Valid` says that every
stored id is below the id counter, so an id is never handed out twice.

Modules, one per source concern:

- `Wrappers`: `Option`, which stands for an `undefined` field or argument.
- `Schema` (convex/schema.ts): `Task`, `Doc` and the `by_order` index key
  comparison `OrderLe`.
- `ByOrder`: a stable insertion sort by that key, plus the uniqueness of a
  sorted arrangement.
- `Tasks` (convex/tasks.ts): the store and the six handlers, and the message
  `clearCompleted` returns.
- `Decimal`: how that message prints a count.
- `TaskProperties`: properties that relate several calls. These are the filter
  partition, agreement of the two query paths, counts, idempotence, where a
  created task lands, and the worked scenario.
- `History`: runs of calls. An id that is deleted never returns.
- `TodoScreen` (app/index.tsx): the tab filter, the drag payload, the footer
  count, the theme toggle and the empty-list text.
- `TaskModal` (app/modal.tsx): the route id, the prefill, the save decision
  and the save handler's effects.
- `Theme` (context/ThemeContext.tsx): modes, the stored preference,
  `setThemeMode`, dark-mode resolution and the palettes.

Modelling assumptions:

- **Ids follow creation order.** The database orders an unindexed query by
  creation time. The counter makes a smaller id an earlier insertion, so a
  plain query (`Scan`) lists documents by ascending id.
- **Tasks without an order come first.** The `by_order` index places a missing
  `order` before every number, because the database sorts an absent field
  below all numbers. Equal keys keep creation order
  (`ByOrder.SortByOrderStable`).
- **`create` uses the index's last document.** It reads the order of the last
  document in the index (`LastByOrder`), treats a missing order as 0, and adds
  1. If every task lacks an order, the new order is therefore 1.
- **Which `getTasks` path runs is an input.** The `QueryPath` argument says
  whether the index query succeeded or the handler fell back to a plain query.
  Note that the handler calls `withIndex` on a query that has already been
  filtered. With the database's query builder that call is likely to fail for
  "active" and "completed", so those filters likely always take the fallback
  path. The model proves membership for both paths and sortedness only for the
  indexed one. A consequence: if "active" and "completed" do take the fallback
  path, a drag on those tabs is read back in creation order, not in the
  dragged order. `TodoScreen.DragEndReproducesOrder` holds only for the indexed
  path, so its promise then applies to the "all" tab alone.
- **What the handlers accept and return**:
  - `create` takes only a title (convex/tasks.ts:28-30).
  - `clearCompleted` returns a message string, not a bare count. It is modelled
    as an outcome (`NothingToClear` or `Cleared(k)`) plus its message.
  - The store does not reject an empty title. The check is client-side only
    (`TaskModal.DecideSave`).
  - No handler performs a text search.

## Model

| member | source | states |
|---|---|---|
| `Schema.OrderLeIsTotalPreorder` | convex/schema.ts:8-11 | The `by_order` key comparison is reflexive, total and transitive, and a missing order is below every key. So tasks without an order can be stored and sorted. |
| `Schema.OrderLe` | convex/schema.ts:8-11 | The `by_order` key order: a missing order is below or equal to every key and only a missing order is below a missing one; two numbers compare numerically. |
| `ByOrder.SortByOrder` | convex/tasks.ts:19 | The indexed read is a rearrangement of the selected documents: same multiset, same members. |
| `ByOrder.SortByOrderStable` | convex/tasks.ts:19 | Read from a scan in creation order, documents with equal keys keep ascending id (creation) order in the `by_order` view. |
| `ByOrder.SortByOrderSorted` | convex/schema.ts:11 | Reading through the `by_order` index gives a sequence that does not decrease in order. |
| `ByOrder.SortedUnique` | convex/schema.ts:11 | If no two documents share a key, their sorted arrangement is unique. |
| `Tasks.Where` | convex/tasks.ts:12-16 | A document passes exactly when it is one of the inputs and matches the filter. "active" keeps open tasks, "completed" keeps finished ones, and any other value or no value keeps all. |
| `Tasks.Scan` | convex/tasks.ts:22 | The fallback read returns every stored task exactly once as a document, in ascending id (creation) order. |
| `Tasks.GetTasks` | convex/tasks.ts:5-25 | On both paths the result is exactly the stored tasks that pass the filter. The indexed path is non-decreasing in order, and tasks with equal orders stay in creation order. The fallback path is in creation order. |
| `Tasks.LastByOrder` | convex/tasks.ts:32-36 | The first document of the descending index query: none exactly when the table is empty, otherwise a stored task whose key is at least every other key. |
| `Tasks.NextOrder` | convex/tasks.ts:38 | The new order is greater than every existing order. It is 1 when no task has an order. Otherwise it is one more than an existing order, which is then the largest. |
| `Tasks.Create` | convex/tasks.ts:27-46 | Adds exactly one task, under an id that was never used (at or above the old id counter, below the new one): the given title, not completed, order `NextOrder`, above every existing order. Existing tasks are unchanged and the result stays `Valid`. |
| `Tasks.UpdateCompletion` | convex/tasks.ts:48-56 | Only the target's completed flag changes. Its title and order, all other tasks, the key set and the id counter stay the same. |
| `Tasks.DeleteTask` | convex/tasks.ts:58-63 | Removes only the target id. The table shrinks by one, other tasks are unchanged, and the id counter does not move back. |
| `Tasks.UpdateOrder` | convex/tasks.ts:65-79 | With distinct, stored ids, each listed task gets its given order and keeps its other fields. Unlisted tasks, the key set and the counter are unchanged. |
| `Tasks.CompletedDocs` | convex/tasks.ts:84-87 | The collected documents have distinct ids and name exactly the finished tasks. |
| `Tasks.DeleteEach` | convex/tasks.ts:93-95 | Deleting a list of distinct stored ids removes exactly those ids, one per element, and changes nothing else. |
| `Tasks.ClearCompleted` | convex/tasks.ts:81-99 | Exactly the finished tasks are removed and every open task is kept unchanged. The outcome is "nothing to clear" (table untouched) exactly when no task is finished. Otherwise it is `Cleared(k)` with k > 0 equal to the number removed. |
| `Tasks.ClearMessage` | convex/tasks.ts:89-97 | The "No completed tasks to clear." text is returned exactly when nothing was cleared; otherwise the message starts with "Cleared ". |
| `Tasks.ClearMessageReadsBack` | convex/tasks.ts:89-97 | The returned message identifies the outcome: "No completed tasks to clear." and "Cleared K task(s)." parse back to the outcome and its K. |
| `Decimal.StringToNatInverts` | convex/tasks.ts:97 | The count printed in the message reads back as the count. |
| `TaskProperties.GetTasksCount` | convex/tasks.ts:12-23 | Either path returns one document per matching task. |
| `TaskProperties.FilterPartition` | convex/tasks.ts:12-16 | The "active" and "completed" results are disjoint, and their union is the unfiltered result. Any other filter value lists everything. |
| `TaskProperties.QueryPathsAgree` | convex/tasks.ts:18-23 | The fallback returns the same multiset of documents as the indexed query; only the arrangement may differ. |
| `TaskProperties.CreateOrdersIncrease` | convex/tasks.ts:32-44 | Two creates in a row give different ids and strictly increasing orders. |
| `TaskProperties.CreateAppendsToView` | convex/tasks.ts:32-44 | A created task is the last document of the unfiltered indexed list. |
| `TaskProperties.UpdateCompletionIdempotent` | convex/tasks.ts:54 | Setting the completion flag twice equals setting it once. |
| `TaskProperties.CompletionMovesBetweenFilters` | convex/tasks.ts:54 | After a task is marked done, it is in the "completed" list and not in the "active" list. |
| `TaskProperties.DeletedTaskNotListed` | convex/tasks.ts:61 | After a delete, no list on either path contains the deleted id. |
| `TaskProperties.UpdateOrderIdempotent` | convex/tasks.ts:75-77 | Applying the same reorder twice equals applying it once. |
| `TaskProperties.ClearCompletedIds` | convex/tasks.ts:84-97 | After a clear, the stored ids are exactly the open ones. The reported count is the number of finished tasks, and the outcome is "nothing" exactly when there are none. |
| `TaskProperties.ClearCompletedCounts` | convex/tasks.ts:84-97 | With K finished and M open tasks, the clear reports K ("nothing" when K = 0). The unfiltered list afterwards has exactly M tasks, all open. |
| `TaskProperties.ScenarioFromEmptyStore` | convex/tasks.ts:27-99 | Starting from an empty table: create "Buy milk" (order 1), create "Walk dog" (order 2), and mark the first done. The active list is then ["Walk dog"]. Clearing reports 1, and the list is then ["Walk dog"]. |
| `History.Run` | convex/tasks.ts:27-99 | Any run of handler calls, each on a task that exists, keeps the table `Valid`. |
| `History.RetiredIdStaysRetired` | convex/tasks.ts:40-44 | An id below the counter that is not stored is never stored again by any later calls. |
| `History.DeletedIdNeverReturns` | convex/tasks.ts:58-63 | After `deleteTask`, no later run of calls brings the id back into the table or into any list. |
| `TodoScreen.FilterArg` | app/index.tsx:137-138 | The string a tab sends makes the store's filter keep exactly the tasks the tab promises: all, open, or finished. |
| `TodoScreen.TabsSelect` | app/index.tsx:137-138 | Each tab's filter argument lists exactly the tasks the tab promises: all, open, or finished. |
| `TodoScreen.DragPayload` | app/index.tsx:146-149 | The payload has one entry per dragged task, in the dragged sequence, and entry i carries order i. |
| `TodoScreen.DragPayloadShape` | app/index.tsx:147-149 | The payload names each dragged task exactly once, no id is added or dropped, and its orders strictly increase. |
| `TodoScreen.DragEndReproducesOrder` | app/index.tsx:146-151 | The drag must cover exactly the tasks shown for a filter. After `updateOrder` applies its payload, the indexed list for that filter returns the tasks in the dragged sequence. |
| `TodoScreen.TasksLeft` | app/index.tsx:157 | The count is 0 while tasks are loading. Once loaded it is the number of open tasks among them (`OpenCount`, counted one by one), so never more than the number loaded. |
| `TodoScreen.TasksLeftCountsOpenTasks` | app/index.tsx:157 | Over the unfiltered list, the count equals the number of open tasks in the table, which is also the length of the "active" list. |
| `TodoScreen.TasksLeftOnEachTab` | app/index.tsx:137-157 | For the argument each tab sends, the footer shows the number of open tasks in the table on "all" and on "active" (there it equals the length of the list shown), and always 0 on "completed". |
| `TodoScreen.ToggleTarget` | app/index.tsx:174 | The header toggle always picks an explicit mode: 'light' exactly when dark mode is showing, otherwise 'dark', and never 'system'. |
| `TodoScreen.ToggleFlipsDarkMode` | app/index.tsx:174 | A toggle whose write succeeds flips dark mode, whatever the mode and system scheme were. A toggle whose write fails leaves the mode unchanged. |
| `TodoScreen.EmptyListText` | app/index.tsx:197 | The invitation "No tasks yet. Add one!" is shown exactly on the 'all' tab; the other tabs' text carries the tab's filter word between "No " and " tasks.". |
| `TodoScreen.EmptyListTextsDiffer` | app/index.tsx:197 | Each tab has its own empty-list text. Only 'all' shows "No tasks yet. Add one!". |
| `TaskModal.TaskIdParam` | app/modal.tsx:71 | An absent or empty route id means new-task mode. Any other id is kept as given. |
| `TaskModal.Prefill` | app/modal.tsx:84-98 | Loaded details fill the form, and a missing description or due date shows as ''. In new-task mode the form is cleared. While an edited task has not loaded, the form is kept. |
| `TaskModal.Optional` | app/modal.tsx:110-121 | An empty field is sent as no value. A non-empty field is sent unchanged. |
| `TaskModal.DecideSave` | app/modal.tsx:101-121 | The save is refused exactly when the title is empty. It is an update exactly when both an id and loaded details are present, and a create otherwise. The title is sent as typed; description and due date go through `Optional`. |
| `TaskModal.BlankTitleIsAccepted` | app/modal.tsx:102 | A title made only of blanks passes validation and is sent unchanged. |
| `TaskModal.MissingDetailsCreate` | app/modal.tsx:109-121 | An id whose details are missing leads to a create, not an update. |
| `TaskModal.UneditedSaveSendsDetailsBack` | app/modal.tsx:84-121 | Opening a loaded task and saving without edits sends its details back in an update. A missing or empty optional field goes back as no value. |
| `TaskModal.HandleSave` | app/modal.tsx:101-129 | An empty title only raises "Title is required". Otherwise the effects are: submitting is set, one call is made, then either navigate back (success) or the "Failed to save task" alert (failure), then submitting is cleared. |
| `TaskModal.SaveLeavesFormIdle` | app/modal.tsx:106-128 | The form is submitting while the call is in flight and idle afterwards, on success or failure. An empty title makes no call. |
| `Theme.ModeName` | context/ThemeContext.tsx:64 | The string written to storage is 'light', 'dark' or 'system', each exactly for its own mode. |
| `Theme.ParseMode` | context/ThemeContext.tsx:52 | A stored string names a mode exactly when it is 'light', 'dark' or 'system', and then it is that mode's name. |
| `Theme.ParseModeName` | context/ThemeContext.tsx:52-53 | Every mode's stored name reads back as that mode. |
| `Theme.LoadPreference` | context/ThemeContext.tsx:48-60 | A stored value is adopted only when it names a mode. Any other value, no value, or a failed read leaves the mode unchanged. |
| `Theme.MountedMode` | context/ThemeContext.tsx:46-60 | The provider starts in 'system' and stays there unless a valid mode was stored. |
| `Theme.SetThemeMode` | context/ThemeContext.tsx:62-69 | The mode's name is written. The in-memory mode changes to the request only when the write succeeds, and is unchanged otherwise. |
| `Theme.SavedModeSurvivesRestart` | context/ThemeContext.tsx:48-69 | After a successful save, a freshly mounted provider that reads back what was written ends up in the saved mode. |
| `Theme.IsDark` | context/ThemeContext.tsx:73-76 | Dark mode is on exactly when the mode is 'dark', or the mode is 'system' and the system scheme is dark. |
| `Theme.IsDarkResolution` | context/ThemeContext.tsx:73-76 | In 'system' mode dark is on exactly when the system scheme is dark. Otherwise it is on exactly when the mode is 'dark', whatever the system scheme. |
| `Theme.ActivePalette` | context/ThemeContext.tsx:78 | The palette is `darkTheme` exactly when dark is on, and `lightTheme` exactly when it is off. |

## Left out

- Text search: the `by_title` search index is declared, but no handler uses it, so search is not modelled.
- `getById` and `updateDetails`, which the modal calls, are not among the backend handlers. Their server behaviour is not modelled; only the modal's choice of call and its arguments are. The modal also passes a description and a due date to `create`, whose arguments declare only a title (convex/tasks.ts:28-30). What the handler does with the extra fields is defined by the database library's argument validation, most likely a validation error that ends in the modal's "Failed to save task" branch; this is not modelled.
- TaskModal.TaskIdParam: the route parameter may also be an array of strings; a non-empty array is truthy and would be used as the id. Only the single-string case is modelled.
- Tasks.UpdateCompletion: requires the id to be stored. A patch on a missing id makes the database library abort the call, leaving the table unchanged; that failure path is not modelled.
- Tasks.DeleteTask: requires the id to be stored, for the same reason.
- Tasks.UpdateOrder: requires the listed ids to be stored and distinct. Each handler is a database mutation, which commits all of its writes together or none of them. So the fold over the patches is the committed result of the one transaction, whatever the order the concurrent patches run in. A missing id would abort the whole call and leave the table unchanged; that failure path is not modelled.
- Tasks.ClearCompleted: the deletions are a fold inside one transaction, so the fold is the committed result. The failure path, in which a delete is rejected and the whole call leaves the table unchanged, is not modelled.
- Tasks.Create: mutations are serializable transactions, so two creates never commit on the same last order; modelling calls one after another (`History.Run`) is exact, not an approximation.
- Tasks.GetTasks: the live re-delivery of query results is not modelled; a query is a function of one table state. Whether the database accepts the indexed query is the `QueryPath` input, not derived.
- `order` is a floating-point number in the database; it is modelled as an integer, since only `+1` and list positions produce it.
- Storage reads and writes, the system colour scheme, alerts, logging, navigation and the network are inputs or recorded effects (`StoredRead`, `writeSucceeds`, `SystemScheme`, `callSucceeds`, `SaveEffect`). They are not modelled as behaviour.
- Rendering, styling, gestures, fonts, images, and the task row's toggle (which sends the negation of `completed` to `updateCompletion`) are not modelled.
