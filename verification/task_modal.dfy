/** The edit/new task modal: the route parameter, the form prefill effect and
    the save handler's decision, as far as which call it issues and with which
    arguments. The details query and the details update it calls are not part
    of the backend handlers modelled here, so only the call is modelled. */
module TaskModal {
  import opened Wrappers

  /** The details the modal's task query yields for an existing task. */
  datatype TaskDetails = TaskDetails(title: string, description: Option<string>, dueDate: Option<string>)

  /** The three text fields of the form. */
  datatype Form = Form(title: string, description: string, dueDate: string)

  const EmptyForm := Form("", "", "")

  /** The task id taken from the route: an absent or empty parameter means
      "new task". */
  function TaskIdParam(param: Option<string>): (r: Option<string>)
    ensures r.Some? <==> param.Some? && param.value != ""
    ensures r.Some? ==> r == param
  {
    match param
    case Some(p) => if p == "" then None else Some(p)
    case None => None
  }

  /** An optional text shown in a field: a missing or empty value shows as ''. */
  function Shown(v: Option<string>): string {
    v.GetOr("")
  }

  /** The prefill effect: fill the form from loaded details; in new-task mode
      clear it; while an edited task is still loading (or missing) keep it. */
  function Prefill(taskId: Option<string>, data: Option<TaskDetails>, current: Form): (f: Form)
    ensures data.Some? ==> f.title == data.value.title
    ensures data.Some? && data.value.description.Some? ==> f.description == data.value.description.value
    ensures data.Some? && data.value.description.None? ==> f.description == ""
    ensures data.Some? && data.value.dueDate.Some? ==> f.dueDate == data.value.dueDate.value
    ensures data.Some? && data.value.dueDate.None? ==> f.dueDate == ""
    ensures data.None? && taskId.None? ==> f == EmptyForm
    ensures data.None? && taskId.Some? ==> f == current
  {
    match data
    case Some(d) => Form(d.title, Shown(d.description), Shown(d.dueDate))
    case None => if taskId.None? then EmptyForm else current
  }

  /** `x || undefined`: an empty field is sent as no value. */
  function Optional(field: string): (r: Option<string>)
    ensures r.None? <==> field == ""
    ensures r.Some? ==> r.value == field
  {
    if field == "" then None else Some(field)
  }

  /** The mutation the save handler calls, with its arguments. */
  datatype SaveCall =
    | UpdateDetails(id: string, title: string, description: Option<string>, dueDate: Option<string>)
    | CreateTask(title: string, description: Option<string>, dueDate: Option<string>)

  /** What pressing Save decides. */
  datatype SaveDecision = RejectEmptyTitle | Issue(call: SaveCall)

  /** The save decision: refuse an empty title; update when an id and its
      loaded details are both present; create otherwise. */
  function DecideSave(form: Form, taskId: Option<string>, data: Option<TaskDetails>): (r: SaveDecision)
    ensures r.RejectEmptyTitle? <==> form.title == ""
    ensures r.Issue? ==> (r.call.UpdateDetails? <==> taskId.Some? && data.Some?)
    ensures r.Issue? && r.call.UpdateDetails? ==> r.call.id == taskId.value
    ensures r.Issue? ==> r.call.title == form.title
    ensures r.Issue? ==> r.call.description == Optional(form.description) && r.call.dueDate == Optional(form.dueDate)
  {
    if form.title == "" then RejectEmptyTitle
    else if taskId.Some? && data.Some? then
      Issue(UpdateDetails(taskId.value, form.title, Optional(form.description), Optional(form.dueDate)))
    else
      Issue(CreateTask(form.title, Optional(form.description), Optional(form.dueDate)))
  }

  /** Only the empty title is refused: a title of blanks is saved as typed. */
  lemma BlankTitleIsAccepted(blanks: string, taskId: Option<string>, data: Option<TaskDetails>, form: Form)
    requires |blanks| > 0 && forall i :: 0 <= i < |blanks| ==> blanks[i] == ' '
    ensures DecideSave(form.(title := blanks), taskId, data).Issue?
    ensures DecideSave(form.(title := blanks), taskId, data).call.title == blanks
  {
  }

  /** An id whose details are missing still leads to a create, never to an
      update of a task that was not loaded. */
  lemma MissingDetailsCreate(form: Form, id: string)
    requires form.title != ""
    ensures DecideSave(form, Some(id), None).Issue?
    ensures DecideSave(form, Some(id), None).call.CreateTask?
  {
  }

  /** Opening a loaded task and saving without edits sends its details back,
      except that an empty description or due date is sent as no value. */
  lemma UneditedSaveSendsDetailsBack(id: string, data: TaskDetails, current: Form)
    requires data.title != ""
    ensures DecideSave(Prefill(Some(id), Some(data), current), Some(id), Some(data))
            == Issue(UpdateDetails(id, data.title, Optional(Shown(data.description)), Optional(Shown(data.dueDate))))
    ensures data.description.Some? && data.description.value != "" ==>
              DecideSave(Prefill(Some(id), Some(data), current), Some(id), Some(data)).call.description == data.description
    ensures data.dueDate.Some? && data.dueDate.value != "" ==>
              DecideSave(Prefill(Some(id), Some(data), current), Some(id), Some(data)).call.dueDate == data.dueDate
  {
  }

  /** One observable effect of the save handler, in the order it happens. */
  datatype SaveEffect =
    | AlertShown(title: string, message: Option<string>)
    | SubmittingSet(value: bool)
    | Called(call: SaveCall)
    | NavigatedBack

  /** `handleSave` as the sequence of its effects, given whether the call
      succeeds. */
  function HandleSave(form: Form, taskId: Option<string>, data: Option<TaskDetails>, callSucceeds: bool): (effects: seq<SaveEffect>)
    ensures form.title == "" ==> effects == [AlertShown("Title is required", None)]
    ensures form.title != "" ==>
              && |effects| == 4
              && effects[0] == SubmittingSet(true)
              && effects[1] == Called(DecideSave(form, taskId, data).call)
              && effects[3] == SubmittingSet(false)
    ensures form.title != "" ==>
              effects[2] == (if callSucceeds then NavigatedBack else AlertShown("Error", Some("Failed to save task")))
  {
    match DecideSave(form, taskId, data)
    case RejectEmptyTitle => [AlertShown("Title is required", None)]
    case Issue(call) =>
      var outcome := if callSucceeds then NavigatedBack else AlertShown("Error", Some("Failed to save task"));
      [SubmittingSet(true), Called(call), outcome, SubmittingSet(false)]
  }

  /** The value of `isSubmitting` after the effects, starting from `initial`:
      the last value set, if any. */
  function SubmittingAfter(initial: bool, effects: seq<SaveEffect>): bool
    decreases |effects|
  {
    if |effects| == 0 then initial
    else if effects[|effects| - 1].SubmittingSet? then effects[|effects| - 1].value
    else SubmittingAfter(initial, effects[..|effects| - 1])
  }

  /** A save issues at most one call; it is submitting while the call is in
      flight; and it ends not submitting, whether the call succeeded or not. */
  lemma SaveLeavesFormIdle(form: Form, taskId: Option<string>, data: Option<TaskDetails>, callSucceeds: bool)
    ensures SubmittingAfter(false, HandleSave(form, taskId, data, callSucceeds)) == false
    ensures form.title != "" ==>
              SubmittingAfter(false, HandleSave(form, taskId, data, callSucceeds)[..2]) == true
    ensures form.title == "" ==> forall e :: e in HandleSave(form, taskId, data, callSucceeds) ==> !e.Called?
  {
    var effects := HandleSave(form, taskId, data, callSucceeds);
    if form.title != "" {
      assert effects[..2][..1] == [SubmittingSet(true)];
    }
  }
}
