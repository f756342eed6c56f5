/**
 * The remote member CRUD page: a form that either adds a member (POST) or,
 * while a member is being edited, replaces it (PUT); editing copies a
 * member into the form; deleting asks first and cancels an edit of the
 * member deleted. The server's reply is a parameter: `None` when the
 * request fails, which nothing catches.
 */
module MembersCrud {
  import opened JsValues
  import opened Sequences
  import opened RemoteMemberSchema

  /** `emptyMember`: the form's initial and reset value, with no id. */
  const EmptyForm: Record := map[
    "name" := Str(""), "email" := Str(""), "role" := Str(""), "status" := Str("active"),
    "joinDate" := Str(""), "address" := Str(""), "lat" := Num(0.0), "lng" := Num(0.0)]

  lemma EmptyFormHasNoId()
    ensures "id" !in EmptyForm && |EmptyForm.Keys| == 8
  {
    assert EmptyForm.Keys == {"name", "email", "role", "status", "joinDate", "address", "lat", "lng"};
  }

  /** `if (editId)`: a null or empty edit id means "add". */
  predicate IsEditing(editId: Option<string>) {
    editId.Some? && editId.value != ""
  }

  function HasRemoteId(id: string): RemoteMember -> bool {
    (m: RemoteMember) => m.id == id
  }

  function HasOtherRemoteId(id: string): RemoteMember -> bool {
    (m: RemoteMember) => m.id != id
  }

  /** `prev.map(m => m.id === editId ? data : m)`. */
  function ReplaceRemote(ms: seq<RemoteMember>, id: string, data: RemoteMember): (r: seq<RemoteMember>)
    ensures |r| == |ms|
    ensures forall i :: 0 <= i < |ms| && ms[i].id != id ==> r[i] == ms[i]
    ensures forall i :: 0 <= i < |ms| && ms[i].id == id ==> r[i] == data
  {
    MapWhere(ms, HasRemoteId(id), (m: RemoteMember) => data)
  }

  /** `prev.filter(m => m.id !== id)`. */
  function RemoveRemote(ms: seq<RemoteMember>, id: string): (r: seq<RemoteMember>)
    ensures forall i :: 0 <= i < |r| ==> r[i].id != id && r[i] in ms
    ensures forall i :: 0 <= i < |ms| && ms[i].id != id ==> ms[i] in r
    ensures IsSubsequence(r, ms)
  {
    Filter(ms, HasOtherRemoteId(id))
  }

  /** Deleting an id no member has changes nothing. */
  lemma RemoveAbsentIsIdentity(ms: seq<RemoteMember>, id: string)
    requires forall i :: 0 <= i < |ms| ==> ms[i].id != id
    ensures RemoveRemote(ms, id) == ms
  {
    FilterKeepsAll(ms, HasOtherRemoteId(id));
  }

  /** When the server answers with the same id, deleting after an edit is
      deleting without it. */
  lemma {:induction false} RemoveAfterReplace(ms: seq<RemoteMember>, id: string, data: RemoteMember)
    requires data.id == id
    ensures RemoveRemote(ReplaceRemote(ms, id, data), id) == RemoveRemote(ms, id)
  {
    if ms != [] {
      RemoveAfterReplace(ms[1..], id, data);
      assert ReplaceRemote(ms, id, data)[1..] == ReplaceRemote(ms[1..], id, data);
    }
  }

  predicate UniqueRemoteIds(ms: seq<RemoteMember>) {
    forall i, j :: 0 <= i < j < |ms| ==> ms[i].id != ms[j].id
  }

  /** A reply that keeps the id keeps the ids distinct. */
  lemma ReplaceKeepsUnique(ms: seq<RemoteMember>, id: string, data: RemoteMember)
    requires UniqueRemoteIds(ms) && data.id == id
    ensures UniqueRemoteIds(ReplaceRemote(ms, id, data))
  {
    var r := ReplaceRemote(ms, id, data);
    assert forall i :: 0 <= i < |ms| ==> r[i].id == ms[i].id;
  }

  /** The request a submit sends. */
  datatype Request = Put(id: string, body: Record) | Post(body: Record)

  class MembersCrudPage {
    var members: seq<RemoteMember>
    var loading: bool
    var form: Record
    var editId: Option<string>
    var saving: bool

    constructor()
      ensures members == [] && loading && form == EmptyForm && editId.None? && !saving
    {
      members, loading, form, editId, saving := [], true, EmptyForm, None, false;
    }

    /** The mount effect: the list the server returns, if any. */
    method Load(reply: Option<seq<RemoteMember>>)
      modifies this
      ensures members == (if reply.Some? then reply.value else old(members))
      ensures !loading && form == old(form) && editId == old(editId) && saving == old(saving)
    {
      if reply.Some? {
        members := reply.value;
      }
      loading := false;
    }

    /** `handleChange`: an input's text under its name. */
    method Change(name: string, value: string)
      modifies this
      ensures form == old(form)[name := Str(value)]
      ensures members == old(members) && editId == old(editId) && saving == old(saving) && loading == old(loading)
    {
      form := form[name := Str(value)];
    }

    /** `handleSubmit` with the server's reply. A PUT reply replaces the
        members with the edited id and ends the edit; a POST reply is
        appended; either way the form is reset. A failed request changes
        nothing but `saving`, which is false afterwards in every case. */
    method Submit(reply: Option<RemoteMember>) returns (request: Request)
      modifies this
      ensures IsEditing(old(editId)) ==> request == Put(old(editId).value, old(form))
      ensures !IsEditing(old(editId)) ==> request == Post(old(form))
      ensures reply.None? ==> members == old(members) && form == old(form) && editId == old(editId)
      ensures reply.Some? && IsEditing(old(editId)) ==>
        members == ReplaceRemote(old(members), old(editId).value, reply.value) && editId.None?
      ensures reply.Some? && !IsEditing(old(editId)) ==>
        members == old(members) + [reply.value] && editId == old(editId)
      ensures reply.Some? ==> form == EmptyForm
      ensures !saving && loading == old(loading)
    {
      saving := true;
      if IsEditing(editId) {
        request := Put(editId.value, form);
        if reply.Some? {
          members := ReplaceRemote(members, editId.value, reply.value);
          editId := None;
        }
      } else {
        request := Post(form);
        if reply.Some? {
          members := members + [reply.value];
        }
      }
      if reply.Some? {
        form := EmptyForm;
      }
      saving := false;
    }

    /** `handleEdit`: the member's id and every field, id included, into
        the form. */
    method Edit(m: RemoteMember)
      modifies this
      ensures editId == Some(m.id) && form == AsRecord(m)
      ensures members == old(members) && saving == old(saving) && loading == old(loading)
    {
      editId := Some(m.id);
      form := AsRecord(m);
    }

    /** `handleDelete`: nothing without confirmation or when the request
        fails; otherwise every member with that id goes, and deleting the
        member being edited ends the edit and resets the form. */
    method Delete(id: string, confirmed: bool, deleted: bool)
      modifies this
      ensures !confirmed || !deleted ==> members == old(members) && form == old(form) && editId == old(editId)
      ensures confirmed && deleted ==> members == RemoveRemote(old(members), id)
      ensures confirmed && deleted && old(editId) == Some(id) ==> editId.None? && form == EmptyForm
      ensures confirmed && deleted && old(editId) != Some(id) ==> editId == old(editId) && form == old(form)
      ensures saving == old(saving) && loading == old(loading)
    {
      if !confirmed || !deleted {
        return;
      }
      members := RemoveRemote(members, id);
      if editId == Some(id) {
        editId := None;
        form := EmptyForm;
      }
    }

    /** The "Annuler" button. */
    method Cancel()
      modifies this
      ensures editId.None? && form == EmptyForm
      ensures members == old(members) && saving == old(saving) && loading == old(loading)
    {
      editId := None;
      form := EmptyForm;
    }
  }
}
