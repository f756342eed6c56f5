/**
 * The controlled "edit task" form: a local copy of the task that each input
 * overwrites, one named field at a time, with the input's text, and that
 * the submit button hands on as it stands.
 */
module EditTaskForm {
  import opened JsValues
  import opened TaskSchema

  /** The `name` attributes of the form's inputs. */
  datatype InputName = TitleInput | DescriptionInput | StatusInput | PriorityInput | DueDateInput | MemberIdInput

  /** A field of the form data as a JavaScript value (a missing description
      is `undefined`). */
  function FieldValue(t: Task, name: InputName): JsValue {
    match name
    case TitleInput => Str(t.title)
    case DescriptionInput => if t.description.Some? then Str(t.description.value) else Undefined
    case StatusInput => Str(t.status)
    case PriorityInput => Str(t.priority)
    case DueDateInput => Str(t.dueDate)
    case MemberIdInput => t.memberId
  }

  /** `{ ...prev, [name]: value }`: every input yields text, so the assignee
      becomes a string too. */
  function SetInput(t: Task, name: InputName, value: string): (r: Task)
    ensures r.id == t.id
  {
    match name
    case TitleInput => t.(title := value)
    case DescriptionInput => t.(description := Some(value))
    case StatusInput => t.(status := value)
    case PriorityInput => t.(priority := value)
    case DueDateInput => t.(dueDate := value)
    case MemberIdInput => t.(memberId := Str(value))
  }

  /** Reading back the field just set gives the text typed, and every other
      field and the id are as they were. */
  lemma SetThenGet(t: Task, name: InputName, value: string, other: InputName)
    ensures FieldValue(SetInput(t, name, value), name) == Str(value)
    ensures other != name ==> FieldValue(SetInput(t, name, value), other) == FieldValue(t, other)
    ensures SetInput(t, name, value).id == t.id
  {
  }

  /** Typing into the same input twice keeps only the second text. */
  lemma SetTwice(t: Task, name: InputName, a: string, b: string)
    ensures SetInput(SetInput(t, name, a), name, b) == SetInput(t, name, b)
  {
  }

  /** Edits of two different inputs commute. */
  lemma SetCommutes(t: Task, n: InputName, a: string, m: InputName, b: string)
    requires n != m
    ensures SetInput(SetInput(t, n, a), m, b) == SetInput(SetInput(t, m, b), n, a)
  {
  }

  /** The form component's state. */
  class EditTaskFormState {
    var formData: Task

    constructor(task: Task)
      ensures formData == task
    {
      formData := task;
    }

    /** `handleInputChange`. */
    method InputChange(name: InputName, value: string)
      modifies this
      ensures formData == SetInput(old(formData), name, value)
    {
      formData := SetInput(formData, name, value);
    }

    /** `handleFormSubmit`: the data handed to the page. */
    method FormSubmit() returns (submitted: Task)
      ensures submitted == formData
    {
      submitted := formData;
    }
  }
}
