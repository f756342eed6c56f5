/**
 * The container "edit task" page: it loads the task the route names (or
 * leaves for the list), turns the form's id and assignee into numbers,
 * validates, and puts the result in place of every stored task with the
 * same id.
 */
module EditTaskContainer {
  import opened JsValues
  import opened Dates
  import opened TaskSchema
  import opened LocalStore
  import opened Sequences
  import opened MemberSchema
  import EditTask
  import opened EditTaskForm

  /** `{ ...formData, memberId: Number(formData.memberId), id: Number(formData.id) }`. */
  function Coerce(f: Task): (r: Task)
    ensures (r.memberId.Num? || r.memberId.NaN?) && (r.id.Num? || r.id.NaN?)
    ensures r.title == f.title && r.description == f.description && r.dueDate == f.dueDate
    ensures r.status == f.status && r.priority == f.priority
    ensures f.id.Num? ==> r.id == f.id
    ensures f.memberId.Num? ==> r.memberId == f.memberId
  {
    f.(memberId := ToNumber(f.memberId), id := ToNumber(f.id))
  }

  /** Coercing twice is coercing once. */
  lemma CoerceIdempotent(f: Task)
    ensures Coerce(Coerce(f)) == Coerce(f)
  {
  }

  /** Picking a member in the select yields that member's numeric id once
      coerced. */
  lemma PickedMemberSurvivesCoercion(t: Task, memberId: int)
    ensures Coerce(SetInput(t, MemberIdInput, IntToString(memberId))).memberId == Num(memberId as real)
  {
    IntToStringRoundTrip(memberId);
  }

  /** Picking the placeholder option ("") becomes the number 0, which the
      schema refuses as below its minimum. */
  lemma PlaceholderIsBelowMin(t: Task, c: Clock)
    ensures FieldError(MemberIdField, BelowMin) in TaskErrors(Coerce(SetInput(t, MemberIdInput, "")), c)
  {
    var r := Coerce(SetInput(t, MemberIdInput, ""));
    assert r.memberId == Num(0.0);
    assert FieldError(MemberIdField, BelowMin) in FieldIssues(r, MemberIdField, c);
  }

  /** `tasks.map(t => t.id === processed.id ? processed : t)`. */
  function ReplaceById(ts: seq<Task>, p: Task): (r: seq<Task>)
    ensures |r| == |ts|
    ensures forall i :: 0 <= i < |ts| && !EditTask.HasTaskId(p.id)(ts[i]) ==> r[i] == ts[i]
    ensures forall i :: 0 <= i < |ts| && EditTask.HasTaskId(p.id)(ts[i]) ==> r[i] == p
  {
    MapWhere(ts, EditTask.HasTaskId(p.id), (t: Task) => p)
  }

  /** Replacing keeps every id, and replacing again changes nothing. */
  lemma ReplaceByIdKeepsIds(ts: seq<Task>, p: Task)
    ensures forall i :: 0 <= i < |ts| ==> ReplaceById(ts, p)[i].id == ts[i].id
    ensures ReplaceById(ReplaceById(ts, p), p) == ReplaceById(ts, p)
  {
    var once := ReplaceById(ts, p);
    assert forall i :: 0 <= i < |ts| ==> EditTask.HasTaskId(p.id)(once[i]) == EditTask.HasTaskId(p.id)(ts[i]);
  }

  /** With no task of that id stored (a NaN id matches none) the list is
      written back unchanged. */
  lemma ReplaceMissingIsIdentity(ts: seq<Task>, p: Task)
    requires forall i :: 0 <= i < |ts| ==> !EditTask.HasTaskId(p.id)(ts[i])
    ensures ReplaceById(ts, p) == ts
  {
  }

  /** What the page renders. */
  datatype View = Loading | NotFound | Editing(task: Task)

  datatype ContainerOutcome = Rejected(notifications: seq<FieldError<TaskField>>) | NothingStored | SaveFailed | Saved

  class EditTaskContainerPage {
    var task: Option<Task>
    var members: seq<Member>
    var isLoading: bool
    var redirected: bool
    var loadFailed: bool
    const store: Storage

    constructor(store: Storage)
      ensures this.store == store && task.None? && members == []
      ensures isLoading && !redirected && !loadFailed
    {
      this.store := store;
      task, members := None, [];
      isLoading, redirected, loadFailed := true, false, false;
    }

    /** `loadData`: the task first, then the members; a malformed entry
        throws and ends the load there; loading is false in every case. */
    method Load(routeId: string)
      modifies this
      ensures old(store.tasks).Stored? ==>
        match Find(old(store.tasks).items, EditTask.HasTaskId(EditTask.RouteNumber(routeId)))
        case Some(t) => task == Some(t) && redirected == old(redirected)
        case None => task == old(task) && redirected
      ensures !old(store.tasks).Stored? ==> task == old(task) && redirected == old(redirected)
      ensures !old(store.tasks).Malformed? && old(store.members).Stored? ==> members == old(store.members).items
      ensures old(store.tasks).Malformed? || !old(store.members).Stored? ==> members == old(members)
      ensures loadFailed <==> old(loadFailed) || old(store.tasks).Malformed? || old(store.members).Malformed?
      ensures !isLoading
    {
      match store.tasks {
        case Malformed =>
          loadFailed := true;
          isLoading := false;
          return;
        case Stored(ts) =>
          match Find(ts, EditTask.HasTaskId(EditTask.RouteNumber(routeId))) {
            case Some(t) => task := Some(t);
            case None => redirected := true;
          }
        case Absent =>
      }
      match store.members {
        case Malformed => loadFailed := true;
        case Stored(ms) => members := ms;
        case Absent =>
      }
      isLoading := false;
    }

    /** `handleSubmit` at clock `c`: one notification per schema issue and
        nothing written; otherwise the stored tasks with the coerced id take
        the coerced data and the page leaves for the list. */
    method Submit(formData: Task, c: Clock) returns (outcome: ContainerOutcome)
      modifies this, store
      ensures !ValidTask(Coerce(formData), c) ==>
        outcome == Rejected(TaskErrors(Coerce(formData), c)) && store.tasks == old(store.tasks)
      ensures ValidTask(Coerce(formData), c) && old(store.tasks).Absent? ==> outcome == NothingStored && store.tasks == old(store.tasks)
      ensures ValidTask(Coerce(formData), c) && old(store.tasks).Malformed? ==> outcome == SaveFailed && store.tasks == old(store.tasks)
      ensures ValidTask(Coerce(formData), c) && old(store.tasks).Stored? ==>
        outcome == Saved && store.tasks == Stored(ReplaceById(old(store.tasks).items, Coerce(formData)))
      ensures store.members == old(store.members)
      ensures redirected <==> old(redirected) || outcome == Saved
      ensures task == old(task) && members == old(members)
      ensures isLoading == old(isLoading) && loadFailed == old(loadFailed)
    {
      var processed := Coerce(formData);
      var errors := TaskErrors(processed, c);
      if errors != [] {
        return Rejected(errors);
      }
      match store.tasks {
        case Absent => outcome := NothingStored;
        case Malformed => outcome := SaveFailed;
        case Stored(ts) =>
          store.tasks := Stored(ReplaceById(ts, processed));
          outcome := Saved;
          redirected := true;
      }
    }

    function Render(): (v: View)
      reads this
      ensures v.Editing? <==> !isLoading && task.Some?
      ensures v.Editing? ==> v.task == task.value
    {
      if isLoading then Loading else if task.None? then NotFound else Editing(task.value)
    }
  }
}
