/**
 * The form-library "edit task" page: loading the task the route names into
 * the draft, with its due date normalised, or leaving for the list when
 * the stored tasks hold no such task; and the submit handler that puts the
 * draft, with the route's id, in place of that task.
 */
module EditTask {
  import opened JsValues
  import opened Dates
  import opened MemberSchema
  import opened TaskSchema
  import opened LocalStore
  import opened Sequences
  import NewTask

  /** `task.id === v`. */
  function HasTaskId(v: JsValue): Task -> bool {
    (t: Task) => StrictEquals(t.id, v)
  }

  /** `Number(routeId)`. */
  function RouteNumber(routeId: string): (r: JsValue)
    ensures r.Num? || r.NaN?
  {
    ToNumber(Str(routeId))
  }

  /** A list links to `/tasks/edit/${task.id}`: for an integer id that route
      names exactly the tasks with that id. */
  lemma RouteOfIdMatches(t: Task, id: int)
    ensures HasTaskId(RouteNumber(IntToString(id)))(t) <==> t.id == Num(id as real)
  {
    IntToStringRoundTrip(id);
  }

  /** `new Date(d).toISOString().split('T')[0]`: a date-only string comes
      back as itself; anything else is Invalid Date, whose `toISOString`
      throws. */
  function NormaliseDate(d: string): (r: Option<string>)
    ensures r.Some? <==> IsDate(d)
    ensures r.Some? ==> r.value == d
  {
    if IsDate(d) then Some(d) else None
  }

  datatype TaskLoad = Seeded(draft: Task) | RedirectToList | KeepDefaults | LoadFailed

  /** The load effect's outcome for the tasks key: the first stored task
      the route names seeds the draft, provided its date normalises. */
  function LoadEditTask(tasks: Slot<Task>, routeId: string): (r: TaskLoad)
    ensures tasks.Absent? ==> r == KeepDefaults
    ensures tasks.Malformed? ==> r == LoadFailed
    ensures r.RedirectToList? <==>
      tasks.Stored? && forall i :: 0 <= i < |tasks.items| ==> !HasTaskId(RouteNumber(routeId))(tasks.items[i])
    ensures tasks.Stored? && Find(tasks.items, HasTaskId(RouteNumber(routeId))).Some? ==>
      var t := Find(tasks.items, HasTaskId(RouteNumber(routeId))).value;
      r == if IsDate(t.dueDate) then Seeded(t) else LoadFailed
    ensures r.Seeded? ==> exists i :: 0 <= i < |tasks.items| && HasTaskId(RouteNumber(routeId))(tasks.items[i]) && r.draft == tasks.items[i]
  {
    match tasks
    case Absent => KeepDefaults
    case Malformed => LoadFailed
    case Stored(ts) =>
      match Find(ts, HasTaskId(RouteNumber(routeId)))
      case None => RedirectToList
      case Some(t) =>
        match NormaliseDate(t.dueDate)
        case None => LoadFailed
        case Some(d) => Seeded(t.(dueDate := d))
  }

  /** The card's edit link for a stored integer id loads a task with that
      id, when the stored dates are valid. */
  lemma CardRouteLoadsTask(ts: seq<Task>, id: int)
    requires exists i :: 0 <= i < |ts| && ts[i].id == Num(id as real)
    requires forall i :: 0 <= i < |ts| ==> IsDate(ts[i].dueDate)
    ensures LoadEditTask(Stored(ts), IntToString(id)).Seeded?
    ensures LoadEditTask(Stored(ts), IntToString(id)).draft.id == Num(id as real)
  {
    var i :| 0 <= i < |ts| && ts[i].id == Num(id as real);
    RouteOfIdMatches(ts[i], id);
    var t := Find(ts, HasTaskId(RouteNumber(IntToString(id)))).value;
    RouteOfIdMatches(t, id);
  }

  /** `tasks.map(task => task.id === Number(id) ? { ...data, id: Number(id) } : task)`. */
  function ReplaceByRoute(ts: seq<Task>, routeId: string, data: Task): (r: seq<Task>)
    ensures |r| == |ts|
    ensures forall i :: 0 <= i < |ts| && !HasTaskId(RouteNumber(routeId))(ts[i]) ==> r[i] == ts[i]
    ensures forall i :: 0 <= i < |ts| && HasTaskId(RouteNumber(routeId))(ts[i]) ==> r[i] == data.(id := RouteNumber(routeId))
  {
    MapWhere(ts, HasTaskId(RouteNumber(routeId)), (t: Task) => data.(id := RouteNumber(routeId)))
  }

  /** Replacing never changes an id: the replaced tasks already had the
      route's id. */
  lemma ReplaceKeepsIds(ts: seq<Task>, routeId: string, data: Task)
    ensures forall i :: 0 <= i < |ts| ==> ReplaceByRoute(ts, routeId, data)[i].id == ts[i].id
  {
  }

  /** Submitting twice is submitting once. */
  lemma ReplaceIdempotent(ts: seq<Task>, routeId: string, data: Task)
    ensures ReplaceByRoute(ReplaceByRoute(ts, routeId, data), routeId, data) == ReplaceByRoute(ts, routeId, data)
  {
    var once := ReplaceByRoute(ts, routeId, data);
    ReplaceKeepsIds(ts, routeId, data);
    assert forall i :: 0 <= i < |ts| ==> HasTaskId(RouteNumber(routeId))(once[i]) == HasTaskId(RouteNumber(routeId))(ts[i]);
  }

  datatype EditTaskOutcome = Rejected(errors: seq<FieldError<TaskField>>) | NothingStored | SaveFailed | Saved

  class EditTaskPage {
    var draft: Task
    var members: seq<Member>
    var redirected: bool
    var loadFailed: bool
    var isLoading: bool
    const store: Storage

    constructor(store: Storage, isoToday: string)
      ensures this.store == store && draft == NewTask.NewTaskDefaults(isoToday) && members == []
      ensures !redirected && !loadFailed && !isLoading
    {
      this.store := store;
      draft := NewTask.NewTaskDefaults(isoToday);
      members := [];
      redirected, loadFailed, isLoading := false, false, false;
    }

    /** `loadData`: members first (malformed text throws and ends the load),
        then the task. Loading is false afterwards in every case. */
    method Load(routeId: string)
      modifies this
      ensures old(store.members).Stored? ==> members == old(store.members).items
      ensures !old(store.members).Stored? ==> members == old(members)
      ensures old(store.members).Malformed? ==> draft == old(draft) && redirected == old(redirected) && loadFailed
      ensures !old(store.members).Malformed? ==>
        match LoadEditTask(old(store.tasks), routeId)
        case Seeded(d) => draft == d && redirected == old(redirected) && loadFailed == old(loadFailed)
        case RedirectToList => draft == old(draft) && redirected && loadFailed == old(loadFailed)
        case KeepDefaults => draft == old(draft) && redirected == old(redirected) && loadFailed == old(loadFailed)
        case LoadFailed => draft == old(draft) && redirected == old(redirected) && loadFailed
      ensures !isLoading
    {
      isLoading := true;
      match store.members {
        case Malformed =>
          loadFailed := true;
          isLoading := false;
          return;
        case Stored(ms) => members := ms;
        case Absent =>
      }
      match LoadEditTask(store.tasks, routeId) {
        case Seeded(d) => draft := d;
        case RedirectToList => redirected := true;
        case KeepDefaults =>
        case LoadFailed => loadFailed := true;
      }
      isLoading := false;
    }

    /** `form.handleSubmit(onSubmit)` at clock `c`: after writing the tasks
        the page leaves for the list. */
    method Submit(routeId: string, data: Task, c: Clock) returns (outcome: EditTaskOutcome)
      modifies this, store
      ensures !ValidTask(data, c) ==> outcome == Rejected(TaskErrors(data, c)) && store.tasks == old(store.tasks)
      ensures ValidTask(data, c) && old(store.tasks).Absent? ==> outcome == NothingStored && store.tasks == old(store.tasks)
      ensures ValidTask(data, c) && old(store.tasks).Malformed? ==> outcome == SaveFailed && store.tasks == old(store.tasks)
      ensures ValidTask(data, c) && old(store.tasks).Stored? ==>
        outcome == Saved && store.tasks == Stored(ReplaceByRoute(old(store.tasks).items, routeId, data))
      ensures store.members == old(store.members) && draft == old(draft)
      ensures members == old(members) && loadFailed == old(loadFailed)
      ensures redirected <==> old(redirected) || outcome == Saved
      ensures ValidTask(data, c) ==> !isLoading
      ensures !ValidTask(data, c) ==> isLoading == old(isLoading)
    {
      var errors := TaskErrors(data, c);
      if errors != [] {
        return Rejected(errors);
      }
      isLoading := true;
      match store.tasks {
        case Absent => outcome := NothingStored;
        case Malformed => outcome := SaveFailed;
        case Stored(ts) =>
          store.tasks := Stored(ReplaceByRoute(ts, routeId, data));
          outcome := Saved;
          redirected := true;
      }
      isLoading := false;
    }
  }
}
