/**
 * The task card: the assignee's name, the status label, the overdue rule
 * and the badge built from them, and the id guard on the edit and delete
 * buttons.
 */
module TaskCard {
  import opened JsValues
  import opened Dates
  import opened MemberSchema
  import opened TaskSchema
  import opened Sequences
  import EditTask

  /** A member's id as a JavaScript value. */
  function MemberIdValue(m: MemberForm): JsValue {
    if m.id.Some? then Num(m.id.value as real) else Undefined
  }

  function HasMemberId(id: JsValue): MemberForm -> bool {
    (m: MemberForm) => StrictEquals(MemberIdValue(m), id)
  }

  /** `getMemberName`: the name of the first member whose id is `id`, else
      "Unassigned". */
  function MemberName(ms: seq<MemberForm>, id: JsValue): (r: string)
    ensures (forall i :: 0 <= i < |ms| ==> !HasMemberId(id)(ms[i])) ==> r == "Unassigned"
    ensures (exists i :: 0 <= i < |ms| && HasMemberId(id)(ms[i])) ==>
      exists i :: 0 <= i < |ms| && HasMemberId(id)(ms[i]) && r == ms[i].name && forall j :: 0 <= j < i ==> !HasMemberId(id)(ms[j])
  {
    match Find(ms, HasMemberId(id))
    case Some(m) => m.name
    case None => "Unassigned"
  }

  /** An assignee that is not a number shows as unassigned, except that an
      `undefined` one matches a member that has no id. */
  lemma NonNumericAssigneeIsUnassigned(ms: seq<MemberForm>, id: JsValue)
    requires !id.Num?
    requires id.Undefined? ==> forall i :: 0 <= i < |ms| ==> ms[i].id.Some?
    ensures MemberName(ms, id) == "Unassigned"
  {
    assert forall i :: 0 <= i < |ms| ==> !HasMemberId(id)(ms[i]);
  }

  /** The label of `getStatusConfig`. */
  function StatusLabel(status: string): (r: string)
    ensures status == "done" <==> r == "Terminé"
    ensures status == "in_progress" <==> r == "En cours"
    ensures status != "done" && status != "in_progress" <==> r == "À faire"
  {
    if status == "done" then "Terminé"
    else if status == "in_progress" then "En cours"
    else "À faire"
  }

  /** `new Date(task.dueDate) < new Date() && task.status !== "done"`; an
      Invalid Date compares false. */
  predicate IsOverdue(t: Task, nowMs: int)
    ensures IsOverdue(t, nowMs) ==> t.status != "done" && ParseIsoDate(t.dueDate).Some?
    ensures t.status != "done" && ParseIsoDate(t.dueDate).Some? ==>
      (IsOverdue(t, nowMs) <==> ParseIsoDate(t.dueDate).value * DayMs < nowMs)
  {
    DateMs(t.dueDate).Some? && DateMs(t.dueDate).value < nowMs && t.status != "done"
  }

  /** A done task, and a task whose date does not parse, is never overdue. */
  lemma NeverOverdue(t: Task, nowMs: int)
    ensures t.status == "done" ==> !IsOverdue(t, nowMs)
    ensures ParseIsoDate(t.dueDate).None? ==> !IsOverdue(t, nowMs)
  {
  }

  /** Once overdue, a task stays overdue as time passes. */
  lemma OverdueStays(t: Task, nowMs: int, laterMs: int)
    requires IsOverdue(t, nowMs) && nowMs <= laterMs
    ensures IsOverdue(t, laterMs)
  {
  }

  /** The date is read as midnight UTC, so a task that is not done is
      already overdue on the day it is due, from that midnight on. */
  lemma OverdueOnItsDay(t: Task, c: Clock)
    requires t.status != "done"
    requires ParseIsoDate(t.dueDate) == Some(c.nowMs / DayMs)
    requires c.nowMs % DayMs != 0
    ensures IsOverdue(t, c.nowMs)
  {
  }

  /** The badge: "En retard" for an overdue task, else the status label. */
  function BadgeText(t: Task, nowMs: int): (r: string)
    ensures IsOverdue(t, nowMs) ==> r == "En retard"
    ensures !IsOverdue(t, nowMs) ==> r == StatusLabel(t.status)
  {
    if IsOverdue(t, nowMs) then "En retard" else StatusLabel(t.status)
  }

  /** A done task always shows "Terminé". */
  lemma DoneBadge(t: Task, nowMs: int)
    requires t.status == "done"
    ensures BadgeText(t, nowMs) == "Terminé"
  {
  }

  /** The id the edit and delete buttons act on: none for a task whose id is
      `undefined`. */
  function ActionTarget(t: Task): (r: Option<JsValue>)
    ensures r.None? <==> t.id.Undefined?
    ensures r.Some? ==> r.value == t.id
  {
    if t.id.Undefined? then None else Some(t.id)
  }

  /** The edit button of a card with an integer id leads to a route that the
      edit page resolves to the first stored task with that id. */
  lemma EditLinkFindsTask(ts: seq<Task>, k: int, i: int)
    requires 0 <= i < |ts| && ActionTarget(ts[i]) == Some(Num(k as real))
    ensures Find(ts, EditTask.HasTaskId(EditTask.RouteNumber(IntToString(k)))).Some?
    ensures Find(ts, EditTask.HasTaskId(EditTask.RouteNumber(IntToString(k)))).value.id == Num(k as real)
  {
    var pick := EditTask.HasTaskId(EditTask.RouteNumber(IntToString(k)));
    forall j | 0 <= j < |ts|
      ensures pick(ts[j]) <==> ts[j].id == Num(k as real)
    {
      EditTask.RouteOfIdMatches(ts[j], k);
    }
  }
}
