/**
 * The browser's local store as the pages use it: two keys, "members" and
 * "tasks", each holding a JSON array of records. A slot is absent (no item,
 * or an empty string, which every page reads as absent), holds text that
 * `JSON.parse` refuses, or holds a list of records.
 */
module LocalStore {
  import opened JsValues
  import opened TaskSchema

  datatype Slot<T> = Absent | Malformed | Stored(items: seq<T>)

  /** A member of the local store; ids are numbers the pages assign. */
  datatype Member = Member(
    id: int,
    name: string,
    email: string,
    role: string,
    joinDate: string,
    status: string)

  /** `JSON.parse(localStorage.getItem(key) || "[]")`: an absent slot reads
      as the empty list; malformed text throws, written here as `None`. */
  function ReadOrEmpty<T>(slot: Slot<T>): (r: Option<seq<T>>)
    ensures r.None? <==> slot.Malformed?
    ensures slot.Stored? ==> r == Some(slot.items)
    ensures slot.Absent? ==> r == Some([])
  {
    match slot
    case Absent => Some([])
    case Malformed => None
    case Stored(items) => Some(items)
  }

  /** The two keys of the store. */
  class Storage {
    var members: Slot<Member>
    var tasks: Slot<Task>

    constructor(members: Slot<Member>, tasks: Slot<Task>)
      ensures this.members == members && this.tasks == tasks
    {
      this.members := members;
      this.tasks := tasks;
    }
  }

  /** No two members share an id. */
  predicate UniqueIds(ms: seq<Member>) {
    forall i, j :: 0 <= i < j < |ms| ==> ms[i].id != ms[j].id
  }
}
