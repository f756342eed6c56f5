/**
 * The "add member" page: its form defaults, the next id (one more than the
 * largest stored id, 1 for an empty store) and the submit handler that
 * appends the new member to the "members" key. The form library calls the
 * handler only once the schema accepts the form.
 */
module AddMember {
  import opened JsValues
  import opened MemberSchema
  import opened LocalStore

  /** The form's initial values; `isoToday` is the UTC date of the clock
      written "YYYY-MM-DD". */
  function AddMemberDefaults(isoToday: string): (f: MemberForm)
    ensures f.name == "" && f.email == "" && f.role.None?
    ensures f.joinDate == isoToday && f.status == "active"
    ensures !ValidMember(f)
  {
    MemberForm(None, "", "", None, isoToday, "active")
  }

  /** `Math.max(...ids)`. */
  function MaxId(ms: seq<Member>): (r: int)
    requires |ms| > 0
    ensures forall i :: 0 <= i < |ms| ==> ms[i].id <= r
    ensures exists i :: 0 <= i < |ms| && ms[i].id == r
  {
    if |ms| == 1 then ms[0].id
    else
      var rest := MaxId(ms[1..]);
      assert forall i :: 1 <= i < |ms| ==> ms[i] == ms[1..][i - 1];
      if ms[0].id >= rest then ms[0].id
      else
        var k :| 0 <= k < |ms[1..]| && ms[1..][k].id == rest;
        assert ms[k + 1].id == rest;
        rest
  }

  /** The id the next member gets: above every stored id, 1 when there are
      none. */
  function NextId(ms: seq<Member>): (r: int)
    ensures |ms| == 0 ==> r == 1
    ensures forall i :: 0 <= i < |ms| ==> ms[i].id < r
    ensures |ms| > 0 ==> exists i :: 0 <= i < |ms| && ms[i].id == r - 1
  {
    if |ms| > 0 then MaxId(ms) + 1 else 1
  }

  /** `{ ...data, id }` for an accepted form. */
  function NewMember(f: MemberForm, id: int): (m: Member)
    requires f.role.Some?
    ensures m.id == id && m.name == f.name && m.email == f.email
    ensures m.role == f.role.value && m.joinDate == f.joinDate && m.status == f.status
  {
    Member(id, f.name, f.email, f.role.value, f.joinDate, f.status)
  }

  /** `[...existingMembers, newMember]`. */
  function WithNewMember(ms: seq<Member>, f: MemberForm): (r: seq<Member>)
    requires f.role.Some?
    ensures |r| == |ms| + 1
    ensures r[..|ms|] == ms
    ensures r[|ms|] == NewMember(f, NextId(ms))
    ensures forall i :: 0 <= i < |ms| ==> r[i].id != r[|ms|].id
  {
    ms + [NewMember(f, NextId(ms))]
  }

  /** Adding keeps the ids of the store pairwise distinct. */
  lemma AddKeepsIdsUnique(ms: seq<Member>, f: MemberForm)
    requires f.role.Some?
    requires UniqueIds(ms)
    ensures UniqueIds(WithNewMember(ms, f))
  {
    var r := WithNewMember(ms, f);
    forall i, j | 0 <= i < j < |r|
      ensures r[i].id != r[j].id
    {
      if j < |ms| {
        assert r[i] == ms[i] && r[j] == ms[j];
      }
    }
  }

  /** An accepted form always has its role. */
  lemma ValidFormHasRole(f: MemberForm)
    requires ValidMember(f)
    ensures f.role.Some?
  {
  }

  datatype AddOutcome = Rejected(errors: seq<FieldError<MemberField>>) | ParseFailed | Added(id: int)

  /** Submitting the form: refused with the schema's errors when invalid;
      otherwise the stored list (an absent one read as empty) gets the new
      member appended and is written back. Malformed stored text makes
      `JSON.parse` throw before anything is written. */
  method SubmitAddMember(store: Storage, f: MemberForm) returns (outcome: AddOutcome)
    modifies store
    ensures store.tasks == old(store.tasks)
    ensures !ValidMember(f) ==> outcome == Rejected(MemberErrors(f)) && store.members == old(store.members)
    ensures ValidMember(f) && old(store.members).Malformed? ==>
      outcome == ParseFailed && store.members == old(store.members)
    ensures ValidMember(f) && !old(store.members).Malformed? ==>
      var ms := ReadOrEmpty(old(store.members)).value;
      outcome == Added(NextId(ms)) && store.members == Stored(WithNewMember(ms, f))
  {
    var errors := MemberErrors(f);
    if errors != [] {
      return Rejected(errors);
    }
    var existing := ReadOrEmpty(store.members);
    if existing.None? {
      return ParseFailed;
    }
    var ms := existing.value;
    var newId := NextId(ms);
    store.members := Stored(WithNewMember(ms, f));
    outcome := Added(newId);
  }
}
