/**
 * The task form schema: the status and priority enumerations and the field
 * rules a task must pass. The "not in the past" rule depends on the clock.
 */
module TaskSchema {
  import opened JsValues
  import opened Dates
  import opened MemberSchema

  const TaskStatuses: seq<string> := ["todo", "in_progress", "done"]
  const TaskPriorities: seq<string> := ["low", "medium", "high"]

  /** A task record. `id` and `memberId` are loosely typed: a record may
      lack an id, and an edited `memberId` may hold the text of a select. */
  datatype Task = Task(
    id: JsValue,
    title: string,
    description: Option<string>,
    dueDate: string,
    status: string,
    priority: string,
    memberId: JsValue)

  datatype TaskField = IdField | TitleField | DescriptionField | DueDateField | TaskStatusField | PriorityField | MemberIdField

  /** `z.number()`: a number, not NaN. */
  predicate IsNumber(v: JsValue) {
    v.Num?
  }

  /** The due-date rule AS WRITTEN: `new Date(val)` (midnight UTC of the
      date) is not before `new Date().setHours(0, 0, 0, 0)` (midnight of
      the local day). An unparsable date fails it too. */
  predicate DueDateNotPastAsWritten(s: string, c: Clock)
    ensures DueDateNotPastAsWritten(s, c) ==> ParseIsoDate(s).Some?
    ensures ParseIsoDate(s).Some? && ParseIsoDate(s).value < LocalDay(c) && c.tzOffsetMs < DayMs ==>
      !DueDateNotPastAsWritten(s, c)
    ensures ParseIsoDate(s).Some? && ParseIsoDate(s).value > LocalDay(c) && -DayMs < c.tzOffsetMs ==>
      DueDateNotPastAsWritten(s, c)
  {
    match DateMs(s)
    case Some(ms) =>
      DayStartsApart(ParseIsoDate(s).value, LocalDay(c));
      ms >= LocalMidnightMs(c)
    case None => false
  }

  /** Day starts of different days are at least a day apart. */
  lemma DayStartsApart(d: int, e: int)
    ensures d < e ==> d * DayMs <= e * DayMs - DayMs
    ensures d > e ==> d * DayMs >= e * DayMs + DayMs
  {
    if d < e {
      assert (e - d) * DayMs >= DayMs;
    } else if d > e {
      assert (d - e) * DayMs >= DayMs;
    }
  }

  /** The due-date rule as intended: the date, a local calendar day, is not
      before the local day the clock is in. Stated on instants: the start
      of the due day in local time is not before the start of today. */
  predicate DueDateNotPast(s: string, c: Clock)
    ensures DueDateNotPast(s, c) ==> ParseIsoDate(s).Some?
    ensures ParseIsoDate(s) == Some(LocalDay(c)) ==> DueDateNotPast(s, c)
    ensures ParseIsoDate(s).Some? && ParseIsoDate(s).value < LocalDay(c) ==> !DueDateNotPast(s, c)
    ensures ParseIsoDate(s).Some? && ParseIsoDate(s).value > LocalDay(c) ==> DueDateNotPast(s, c)
  {
    match ParseIsoDate(s)
    case Some(day) => day >= LocalDay(c)
    case None => false
  }

  /** The intended rule on instants: the due day, begun at local midnight,
      does not start before today's local midnight. */
  lemma DueDateNotPastOnInstants(s: string, c: Clock)
    ensures DueDateNotPast(s, c) <==>
      ParseIsoDate(s).Some? && ParseIsoDate(s).value * DayMs - c.tzOffsetMs >= LocalMidnightMs(c)
  {
  }

  /** West of UTC the rule as written rejects the local date of today,
      which the intended rule accepts. */
  lemma AsWrittenRejectsTodayWestOfUtc(s: string, c: Clock)
    requires c.tzOffsetMs < 0
    requires ParseIsoDate(s) == Some(LocalDay(c))
    ensures !DueDateNotPastAsWritten(s, c)
    ensures DueDateNotPast(s, c)
  {
  }

  /** At UTC and east of it (offsets below a day) the two rules agree. */
  lemma AsWrittenAgreesEastOfUtc(s: string, c: Clock)
    requires 0 <= c.tzOffsetMs < DayMs
    ensures DueDateNotPastAsWritten(s, c) <==> DueDateNotPast(s, c)
  {
    if ParseIsoDate(s).Some? {
      DayStartsApart(ParseIsoDate(s).value, LocalDay(c));
    }
  }

  /** Within a day of UTC, whatever the rule as written accepts the
      intended rule accepts too: the two differ only on today's date, west
      of UTC. */
  lemma AsWrittenIsStricter(s: string, c: Clock)
    requires -DayMs < c.tzOffsetMs < DayMs
    ensures DueDateNotPastAsWritten(s, c) ==> DueDateNotPast(s, c)
    ensures DueDateNotPast(s, c) && !DueDateNotPastAsWritten(s, c) ==>
      c.tzOffsetMs < 0 && ParseIsoDate(s) == Some(LocalDay(c))
  {
    if ParseIsoDate(s).Some? && c.tzOffsetMs >= 0 {
      AsWrittenAgreesEastOfUtc(s, c);
    }
  }

  /** 10:00 on 10 March 2024 in UTC-5: the form's default due date (the
      UTC date of now, "2024-03-10") is today, and the rule as written
      rejects it. */
  lemma TodayRejectedInNewYork()
    ensures !DueDateNotPastAsWritten("2024-03-10", Clock(19792 * DayMs + 15 * 3_600_000, -5 * 3_600_000))
    ensures DueDateNotPast("2024-03-10", Clock(19792 * DayMs + 15 * 3_600_000, -5 * 3_600_000))
  {
    var c := Clock(19792 * DayMs + 15 * 3_600_000, -5 * 3_600_000);
    March10th2024();
    assert LocalDay(c) == 19792;
    AsWrittenRejectsTodayWestOfUtc("2024-03-10", c);
  }

  predicate TaskFieldOk(t: Task, field: TaskField, c: Clock) {
    match field
    case IdField => t.id.Undefined? || IsNumber(t.id)
    case TitleField => 2 <= |t.title| <= 100
    case DescriptionField => true
    case DueDateField => IsDate(t.dueDate) && DueDateNotPast(t.dueDate, c)
    case TaskStatusField => t.status in TaskStatuses
    case PriorityField => t.priority in TaskPriorities
    case MemberIdField => IsNumber(t.memberId) && t.memberId.n >= 1.0
  }

  /** The schema accepts the task at clock `c`. */
  predicate ValidTask(t: Task, c: Clock)
    ensures ValidTask(t, c) <==> forall field :: TaskFieldOk(t, field, c)
  {
    && TaskFieldOk(t, IdField, c)
    && TaskFieldOk(t, TitleField, c)
    && TaskFieldOk(t, DescriptionField, c)
    && TaskFieldOk(t, DueDateField, c)
    && TaskFieldOk(t, TaskStatusField, c)
    && TaskFieldOk(t, PriorityField, c)
    && TaskFieldOk(t, MemberIdField, c)
  }

  function TaskErrorIf(failed: bool, field: TaskField, code: ErrorCode): seq<FieldError<TaskField>> {
    if failed then [FieldError(field, code)] else []
  }

  /** The issues one field raises. Both refinements of `dueDate` run, so a
      date that does not parse is reported twice: invalid, and (Invalid Date
      compares false) past. */
  function FieldIssues(t: Task, field: TaskField, c: Clock): (r: seq<FieldError<TaskField>>)
    ensures r == [] <==> TaskFieldOk(t, field, c)
    ensures forall e :: e in r ==> e.field == field
  {
    match field
    case IdField => TaskErrorIf(!(t.id.Undefined? || IsNumber(t.id)), IdField, InvalidType)
    case TitleField => TaskErrorIf(|t.title| < 2, TitleField, TooShort) + TaskErrorIf(|t.title| > 100, TitleField, TooLong)
    case DescriptionField => []
    case DueDateField =>
      TaskErrorIf(!IsDate(t.dueDate), DueDateField, InvalidDate)
      + TaskErrorIf(!DueDateNotPast(t.dueDate, c), DueDateField, PastDate)
    case TaskStatusField => TaskErrorIf(t.status !in TaskStatuses, TaskStatusField, InvalidEnum)
    case PriorityField => TaskErrorIf(t.priority !in TaskPriorities, PriorityField, InvalidEnum)
    case MemberIdField =>
      TaskErrorIf(!IsNumber(t.memberId), MemberIdField, InvalidType)
      + TaskErrorIf(IsNumber(t.memberId) && t.memberId.n < 1.0, MemberIdField, BelowMin)
  }

  /** `taskFormSchema.safeParse(t)`'s issues, in the schema's field order.
      The task is accepted exactly when there are none; an unparsable due
      date yields both of its issues. */
  function TaskErrors(t: Task, c: Clock): (r: seq<FieldError<TaskField>>)
    ensures r == [] <==> ValidTask(t, c)
    ensures forall e :: e in r ==> !TaskFieldOk(t, e.field, c)
    ensures forall field :: !TaskFieldOk(t, field, c) ==> exists e :: e in r && e.field == field
    ensures !IsDate(t.dueDate) ==> FieldError(DueDateField, InvalidDate) in r && FieldError(DueDateField, PastDate) in r
  {
    FieldIssues(t, IdField, c) + FieldIssues(t, TitleField, c) + FieldIssues(t, DescriptionField, c)
    + FieldIssues(t, DueDateField, c) + FieldIssues(t, TaskStatusField, c) + FieldIssues(t, PriorityField, c)
    + FieldIssues(t, MemberIdField, c)
  }

  /** Coercing the `memberId` of an accepted task with `Number(...)`
      changes nothing. */
  lemma ValidMemberIdIsFixedByNumber(t: Task, c: Clock)
    requires ValidTask(t, c)
    ensures ToNumber(t.memberId) == t.memberId
  {
  }

  /** The schema with the due-date rule as written. */
  predicate ValidTaskAsWritten(t: Task, c: Clock) {
    ValidTask(t, c) && DueDateNotPastAsWritten(t.dueDate, c)
  }

  /** At UTC and east of it the model's schema is the schema as written. */
  lemma SchemaAgreesEastOfUtc(t: Task, c: Clock)
    requires 0 <= c.tzOffsetMs < DayMs
    ensures ValidTaskAsWritten(t, c) <==> ValidTask(t, c)
  {
    AsWrittenAgreesEastOfUtc(t.dueDate, c);
  }

  /** West of UTC the schema as written refuses exactly the tasks due today
      that the model's schema accepts. */
  lemma SchemaWestOfUtc(t: Task, c: Clock)
    requires -DayMs < c.tzOffsetMs < 0
    ensures ValidTaskAsWritten(t, c) ==> ValidTask(t, c)
    ensures ValidTask(t, c) && !ValidTaskAsWritten(t, c) <==> ValidTask(t, c) && ParseIsoDate(t.dueDate) == Some(LocalDay(c))
  {
    AsWrittenIsStricter(t.dueDate, c);
    if ParseIsoDate(t.dueDate) == Some(LocalDay(c)) {
      AsWrittenRejectsTodayWestOfUtc(t.dueDate, c);
    }
  }
}
