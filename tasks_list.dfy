/**
 * The task list pages: the search and status quick-filter, the per-status
 * counts, the two-step delete (pick, then confirm), the store write that
 * happens only while the list is non-empty, the filter reset and the
 * loading flag.
 */
module TasksList {
  import opened JsValues
  import opened TaskSchema
  import opened LocalStore
  import opened Sequences

  /** `title.toLowerCase().includes(term.toLowerCase())`, or the same on the
      description when there is one. */
  predicate MatchesSearch(t: Task, term: string) {
    || Includes(ToLower(t.title), ToLower(term))
    || (t.description.Some? && Includes(ToLower(t.description.value), ToLower(term)))
  }

  predicate MatchesStatus(t: Task, statusFilter: string) {
    statusFilter == "all" || t.status == statusFilter
  }

  function IsVisible(term: string, statusFilter: string): Task -> bool {
    (t: Task) => MatchesSearch(t, term) && MatchesStatus(t, statusFilter)
  }

  /** `filteredTasks`: the tasks shown, in list order. */
  function FilteredTasks(ts: seq<Task>, term: string, statusFilter: string): (r: seq<Task>)
    ensures forall i :: 0 <= i < |r| ==> r[i] in ts && MatchesSearch(r[i], term) && MatchesStatus(r[i], statusFilter)
    ensures forall i :: 0 <= i < |ts| && MatchesSearch(ts[i], term) && MatchesStatus(ts[i], statusFilter) ==> ts[i] in r
    ensures IsSubsequence(r, ts)
  {
    Filter(ts, IsVisible(term, statusFilter))
  }

  /** With no search and the "all" filter every task is shown. */
  lemma NoFilterShowsAll(ts: seq<Task>)
    ensures FilteredTasks(ts, "", "all") == ts
  {
    forall i | 0 <= i < |ts| ensures IsVisible("", "all")(ts[i]) {
      IncludesEmpty(ToLower(ts[i].title));
    }
    FilterKeepsAll(ts, IsVisible("", "all"));
  }

  /** The search ignores letter case. */
  lemma SearchIgnoresCase(t: Task, term: string)
    ensures MatchesSearch(t, term) <==> MatchesSearch(t, ToLower(term))
  {
    ToLowerIdempotent(term);
  }

  /** Typing more narrows the result: a task matching a term matches every
      part of it. */
  lemma LongerTermNarrows(t: Task, term: string, part: string)
    requires Includes(term, part)
    requires MatchesSearch(t, term)
    ensures MatchesSearch(t, part)
  {
    var j :| OccursAt(term, part, j);
    OccursAtToLower(term, part, j);
    var lt, lp := ToLower(term), ToLower(part);
    if Includes(ToLower(t.title), lt) {
      var i :| OccursAt(ToLower(t.title), lt, i);
      OccursAtTransitive(ToLower(t.title), lt, lp, i, j);
    } else {
      var d := ToLower(t.description.value);
      var i :| OccursAt(d, lt, i);
      OccursAtTransitive(d, lt, lp, i, j);
    }
  }

  function HasStatus(status: string): Task -> bool {
    (t: Task) => t.status == status
  }

  /** `getTaskCountByStatus()`. */
  datatype TaskCounts = TaskCounts(all: nat, todo: nat, inProgress: nat, done: nat)

  function CountByStatus(ts: seq<Task>): (c: TaskCounts)
    ensures c.all == |ts|
    ensures c.todo == |Filter(ts, HasStatus("todo"))|
    ensures c.inProgress == |Filter(ts, HasStatus("in_progress"))|
    ensures c.done == |Filter(ts, HasStatus("done"))|
    ensures c.todo + c.inProgress + c.done <= c.all
  {
    CountDisjoint(ts);
    CountIsFilterLength(ts, HasStatus("todo"));
    CountIsFilterLength(ts, HasStatus("in_progress"));
    CountIsFilterLength(ts, HasStatus("done"));
    TaskCounts(|ts|, Count(ts, HasStatus("todo")), Count(ts, HasStatus("in_progress")), Count(ts, HasStatus("done")))
  }

  lemma {:induction false} CountDisjoint(ts: seq<Task>)
    ensures Count(ts, HasStatus("todo")) + Count(ts, HasStatus("in_progress")) + Count(ts, HasStatus("done")) <= |ts|
    ensures (forall i :: 0 <= i < |ts| ==> ts[i].status in TaskStatuses) ==>
      Count(ts, HasStatus("todo")) + Count(ts, HasStatus("in_progress")) + Count(ts, HasStatus("done")) == |ts|
  {
    if ts != [] {
      CountDisjoint(ts[1..]);
      assert forall i :: 1 <= i < |ts| ==> ts[i] == ts[1..][i - 1];
    }
  }

  /** Each status card's count is the number of tasks its quick-filter shows
      with an empty search. */
  lemma CountMatchesQuickFilter(ts: seq<Task>, status: string)
    requires status != "all"
    ensures Count(ts, HasStatus(status)) == |FilteredTasks(ts, "", status)|
  {
    CountIsFilterLength(ts, HasStatus(status));
    SameFilter(ts, HasStatus(status), IsVisible("", status));
  }

  /** Two tests that agree on every element filter alike. */
  lemma {:induction false} SameFilter<T>(s: seq<T>, a: T -> bool, b: T -> bool)
    requires forall x :: a(x) <==> b(x)
    ensures Filter(s, a) == Filter(s, b)
  {
    if s != [] {
      SameFilter(s[1..], a, b);
    }
  }

  /** `task.id !== taskToDelete`. */
  function HasOtherTaskId(pending: JsValue): Task -> bool {
    (t: Task) => !StrictEquals(t.id, pending)
  }

  /** The list after confirming: when the pending id is truthy, every task
      with that id goes; null, 0 or NaN deletes nothing. */
  function AfterConfirm(ts: seq<Task>, pending: JsValue): (r: seq<Task>)
    ensures !Truthy(pending) ==> r == ts
    ensures Truthy(pending) ==> forall i :: 0 <= i < |r| ==> r[i] in ts && r[i].id != pending
    ensures Truthy(pending) ==> forall i :: 0 <= i < |ts| && ts[i].id != pending ==> ts[i] in r
    ensures IsSubsequence(r, ts)
  {
    if Truthy(pending) then Filter(ts, HasOtherTaskId(pending)) else IsSubsequenceRefl(ts); ts
  }

  lemma {:induction false} IsSubsequenceRefl<T>(s: seq<T>)
    ensures IsSubsequence(s, s)
  {
    if s != [] {
      IsSubsequenceRefl(s[1..]);
    }
  }

  /** The page's state and the store it reads and writes. */
  class TasksListPage {
    var tasks: seq<Task>
    var members: seq<Member>
    var taskToDelete: JsValue
    var isDeleteDialogOpen: bool
    var searchTerm: string
    var statusFilter: string
    var isLoading: bool
    var loadFailed: bool
    const store: Storage

    constructor(store: Storage)
      ensures this.store == store && tasks == [] && members == []
      ensures taskToDelete == Null && !isDeleteDialogOpen
      ensures searchTerm == "" && statusFilter == "all"
      ensures isLoading && !loadFailed
    {
      this.store := store;
      tasks, members := [], [];
      taskToDelete, isDeleteDialogOpen := Null, false;
      searchTerm, statusFilter := "", "all";
      isLoading, loadFailed := true, false;
    }

    /** The effect that runs after every change of `tasks`: the list is
        written only when it is non-empty. */
    method Persist()
      modifies store
      ensures |tasks| > 0 ==> store.tasks == Stored(tasks)
      ensures |tasks| == 0 ==> store.tasks == old(store.tasks)
      ensures store.members == old(store.members)
    {
      if |tasks| > 0 {
        store.tasks := Stored(tasks);
      }
    }

    /** `loadData`: tasks, then members, each when stored; a malformed entry
        throws and ends the load there; loading is false in every case. */
    method Load()
      modifies this
      ensures old(store.tasks).Stored? ==> tasks == old(store.tasks).items
      ensures !old(store.tasks).Stored? ==> tasks == old(tasks)
      ensures !old(store.tasks).Malformed? && old(store.members).Stored? ==> members == old(store.members).items
      ensures old(store.tasks).Malformed? || !old(store.members).Stored? ==> members == old(members)
      ensures loadFailed <==> old(store.tasks).Malformed? || old(store.members).Malformed?
      ensures !isLoading
      ensures taskToDelete == old(taskToDelete) && isDeleteDialogOpen == old(isDeleteDialogOpen)
      ensures searchTerm == old(searchTerm) && statusFilter == old(statusFilter)
    {
      loadFailed := false;
      match store.tasks {
        case Malformed => loadFailed := true;
        case Stored(items) => tasks := items;
        case Absent =>
      }
      if !loadFailed {
        match store.members {
          case Malformed => loadFailed := true;
          case Stored(items) => members := items;
          case Absent =>
        }
      }
      isLoading := false;
    }

    /** `handleDeleteClick`: remember the id and open the dialog. */
    method DeleteClick(taskId: JsValue)
      modifies this
      ensures taskToDelete == taskId && isDeleteDialogOpen
      ensures tasks == old(tasks) && members == old(members)
      ensures searchTerm == old(searchTerm) && statusFilter == old(statusFilter)
      ensures isLoading == old(isLoading) && loadFailed == old(loadFailed)
    {
      taskToDelete := taskId;
      isDeleteDialogOpen := true;
    }

    /** `confirmDeleteTask` and the persist effect after it. */
    method ConfirmDelete()
      modifies this, store
      ensures tasks == AfterConfirm(old(tasks), old(taskToDelete))
      ensures taskToDelete == Null && !isDeleteDialogOpen
      ensures |tasks| > 0 ==> store.tasks == Stored(tasks)
      ensures |tasks| == 0 ==> store.tasks == old(store.tasks)
      ensures store.members == old(store.members) && members == old(members)
      ensures searchTerm == old(searchTerm) && statusFilter == old(statusFilter)
      ensures isLoading == old(isLoading) && loadFailed == old(loadFailed)
    {
      tasks := AfterConfirm(tasks, taskToDelete);
      isDeleteDialogOpen := false;
      taskToDelete := Null;
      Persist();
    }

    method SetSearchTerm(term: string)
      modifies this
      ensures searchTerm == term && statusFilter == old(statusFilter) && tasks == old(tasks)
      ensures members == old(members) && taskToDelete == old(taskToDelete) && isDeleteDialogOpen == old(isDeleteDialogOpen)
      ensures isLoading == old(isLoading) && loadFailed == old(loadFailed)
    {
      searchTerm := term;
    }

    /** The status select and the four status cards. */
    method SetStatusFilter(status: string)
      modifies this
      ensures statusFilter == status && searchTerm == old(searchTerm) && tasks == old(tasks)
      ensures members == old(members) && taskToDelete == old(taskToDelete) && isDeleteDialogOpen == old(isDeleteDialogOpen)
      ensures isLoading == old(isLoading) && loadFailed == old(loadFailed)
    {
      statusFilter := status;
    }

    /** The two "reset filters" buttons. */
    method ResetFilters()
      modifies this
      ensures searchTerm == "" && statusFilter == "all"
      ensures tasks == old(tasks) && members == old(members) && isLoading == old(isLoading)
      ensures taskToDelete == old(taskToDelete) && isDeleteDialogOpen == old(isDeleteDialogOpen)
      ensures loadFailed == old(loadFailed)
      ensures Shown() == tasks
    {
      searchTerm, statusFilter := "", "all";
      NoFilterShowsAll(tasks);
    }

    function Shown(): seq<Task>
      reads this
    {
      FilteredTasks(tasks, searchTerm, statusFilter)
    }
  }

  /** Deleting the only task removes it from the page but not from the
      store, which keeps the one-task list. */
  lemma DeletingLastTaskIsNotStored(t: Task)
    requires Truthy(t.id)
    ensures AfterConfirm([t], t.id) == []
  {
  }
}
