/**
 * The "new task" pages (two copies of the same logic): the form defaults,
 * the members offered as assignees, and the submit handler that appends
 * the task, stamped with the clock as its id, to the "tasks" key.
 */
module NewTask {
  import opened JsValues
  import opened Dates
  import opened MemberSchema
  import opened TaskSchema
  import opened LocalStore
  import opened Sequences

  /** The form's initial values; `isoToday` is the UTC date of the clock. */
  function NewTaskDefaults(isoToday: string): (t: Task)
    ensures t.id.Undefined? && t.title == "" && t.description == Some("")
    ensures t.status == "todo" && t.priority == "medium" && t.dueDate == isoToday
    ensures t.memberId.Undefined?
  {
    Task(Undefined, "", Some(""), isoToday, "todo", "medium", Undefined)
  }

  /** The defaults are never accepted as they stand: the title is empty and
      no member is picked. */
  lemma DefaultsNeedTitleAndMember(isoToday: string, c: Clock)
    ensures FieldError(TitleField, TooShort) in TaskErrors(NewTaskDefaults(isoToday), c)
    ensures FieldError(MemberIdField, InvalidType) in TaskErrors(NewTaskDefaults(isoToday), c)
  {
  }

  /** A stored member read as form data. */
  function AsFormData(m: Member): (f: MemberForm)
    ensures f.id == Some(m.id) && f.name == m.name && f.email == m.email
    ensures f.role == Some(m.role) && f.joinDate == m.joinDate && f.status == m.status
  {
    MemberForm(Some(m.id), m.name, m.email, Some(m.role), m.joinDate, m.status)
  }

  function HasId(): MemberForm -> bool {
    (m: MemberForm) => m.id.Some?
  }

  function HasTruthyId(): MemberForm -> bool {
    (m: MemberForm) => m.id.Some? && m.id.value != 0
  }

  /** The load effect: the stored members that have an id; nothing when the
      key is absent or its text is malformed (the error is caught). */
  function LoadedMembers(slot: Slot<Member>): (r: seq<MemberForm>)
    ensures !slot.Stored? ==> r == []
    ensures forall i :: 0 <= i < |r| ==> r[i].id.Some?
    ensures slot.Stored? ==> |r| == |slot.items| && forall i :: 0 <= i < |r| ==> r[i] == AsFormData(slot.items[i])
  {
    match slot
    case Stored(items) =>
      var forms := seq(|items|, i requires 0 <= i < |items| => AsFormData(items[i]));
      FilterKeepsAll(forms, HasId());
      Filter(forms, HasId())
    case _ => []
  }

  /** The select's options: members with a truthy id (an id of 0 is
      dropped too), in list order. */
  function MemberOptions(ms: seq<MemberForm>): (r: seq<MemberForm>)
    ensures forall i :: 0 <= i < |r| ==> r[i] in ms && r[i].id.Some? && r[i].id.value != 0
    ensures forall i :: 0 <= i < |ms| && ms[i].id.Some? && ms[i].id.value != 0 ==> ms[i] in r
    ensures IsSubsequence(r, ms)
  {
    Filter(ms, HasTruthyId())
  }

  /** Picking an option: its value is `member.id.toString()`, and the
      select hands `Number(value)` to the form, which is the member's id. */
  lemma PickedOptionIsMemberId(m: MemberForm)
    requires m.id.Some?
    ensures ToNumber(Str(IntToString(m.id.value))) == Num(m.id.value as real)
  {
    IntToStringRoundTrip(m.id.value);
  }

  /** `{ ...data, id: Date.now(), memberId: Number(data.memberId) }`. */
  function Stamped(data: Task, nowMs: int): (t: Task)
    ensures t.id == Num(nowMs as real) && t.memberId == ToNumber(data.memberId)
    ensures t.title == data.title && t.description == data.description && t.dueDate == data.dueDate
    ensures t.status == data.status && t.priority == data.priority
  {
    data.(id := Num(nowMs as real), memberId := ToNumber(data.memberId))
  }

  /** An accepted task keeps its assignee when stamped. */
  lemma StampKeepsMember(data: Task, c: Clock)
    requires ValidTask(data, c)
    ensures Stamped(data, c.nowMs).memberId == data.memberId
    ensures ValidTask(Stamped(data, c.nowMs), c)
  {
    ValidMemberIdIsFixedByNumber(data, c);
  }

  datatype NewTaskOutcome = Rejected(errors: seq<FieldError<TaskField>>) | SaveFailed | Saved(id: JsValue)

  class NewTaskPage {
    var members: seq<MemberForm>
    const store: Storage

    constructor(store: Storage)
      ensures this.store == store && members == []
    {
      this.store := store;
      members := [];
    }

    /** The load effect. */
    method LoadMembers()
      modifies this
      ensures members == (if store.members.Stored? then LoadedMembers(store.members) else old(members))
    {
      if store.members.Stored? {
        members := LoadedMembers(store.members);
      }
    }

    function Options(): seq<MemberForm>
      reads this
    {
      MemberOptions(members)
    }

    /** `form.handleSubmit(onSubmit)` at clock `c`: invalid data is refused
        with the schema's issues; otherwise the stamped task goes after the
        stored ones (an absent key counts as empty), and `Saved` sends the
        page to the list. Malformed stored text throws inside the `try`,
        and nothing is written. */
    method Submit(data: Task, c: Clock) returns (outcome: NewTaskOutcome)
      modifies store
      ensures !ValidTask(data, c) ==> outcome == Rejected(TaskErrors(data, c)) && store.tasks == old(store.tasks)
      ensures ValidTask(data, c) && old(store.tasks).Malformed? ==> outcome == SaveFailed && store.tasks == old(store.tasks)
      ensures ValidTask(data, c) && !old(store.tasks).Malformed? ==>
        outcome == Saved(Num(c.nowMs as real))
        && store.tasks == Stored(ReadOrEmpty(old(store.tasks)).value + [Stamped(data, c.nowMs)])
      ensures store.members == old(store.members)
    {
      var errors := TaskErrors(data, c);
      if errors != [] {
        return Rejected(errors);
      }
      var existing := ReadOrEmpty(store.tasks);
      if existing.None? {
        return SaveFailed;
      }
      var task := Stamped(data, c.nowMs);
      store.tasks := Stored(existing.value + [task]);
      outcome := Saved(task.id);
    }
  }
}
