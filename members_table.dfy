/**
 * The remote member table: inline editing of one row at a time through a
 * partial record, saving it with a PUT, deleting after confirmation, and
 * the initials shown in each row's avatar.
 */
module MembersTable {
  import opened JsValues
  import opened RemoteMemberSchema
  import opened MembersCrud

  /** The first character of each word, an empty word giving nothing
      (`n[0]` is `undefined`, which `join` writes as ""). */
  function FirstChars(words: seq<string>): string {
    if words == [] then "" else (if words[0] == "" then "" else [words[0][0]]) + FirstChars(words[1..])
  }

  /** Reference definition: the characters of `s` that are not spaces and
      come first or right after a space. `atStart` says whether the
      previous character was a space (or there was none). */
  function WordStartsFrom(s: string, atStart: bool): string {
    if s == [] then ""
    else (if atStart && s[0] != ' ' then [s[0]] else "") + WordStartsFrom(s[1..], s[0] == ' ')
  }

  function WordStarts(s: string): string {
    WordStartsFrom(s, true)
  }

  /** Splitting on spaces and taking first characters picks exactly the
      word starts; the words after the first one give the starts after a
      non-space character. */
  lemma {:induction false} FirstCharsOfSplit(s: string)
    ensures FirstChars(Split(s, ' ')) == WordStartsFrom(s, true)
    ensures FirstChars(Split(s, ' ')[1..]) == WordStartsFrom(s, false)
  {
    if s != [] {
      FirstCharsOfSplit(s[1..]);
      var rest := Split(s[1..], ' ');
      if s[0] == ' ' {
        assert Split(s, ' ') == [""] + rest;
        assert Split(s, ' ')[1..] == rest;
      } else {
        var w := [[s[0]] + rest[0]] + rest[1..];
        assert Split(s, ' ') == w;
        assert w[1..] == rest[1..];
      }
    }
  }

  /** A name has no word starts exactly when it is all spaces. */
  lemma {:induction false} NoWordStartsIffBlank(s: string)
    ensures WordStarts(s) == "" <==> forall i :: 0 <= i < |s| ==> s[i] == ' '
  {
    if s != [] && s[0] == ' ' {
      NoWordStartsIffBlank(s[1..]);
      assert forall i :: 1 <= i < |s| ==> s[i] == s[1..][i - 1];
    }
  }

  /** `getInitials`: the upper-cased word starts of the name, or "?" when
      there are none or the name is missing. */
  function Initials(name: Option<string>): (r: string)
    ensures name.None? ==> r == "?"
    ensures name.Some? && WordStarts(name.value) == "" ==> r == "?"
    ensures name.Some? && WordStarts(name.value) != "" ==> r == ToUpper(WordStarts(name.value))
    ensures r != ""
  {
    if name.None? then "?"
    else
      var joined := ToUpper(FirstChars(Split(name.value, ' ')));
      FirstCharsOfSplit(name.value);
      if joined == "" then "?" else joined
  }

  /** A one-word name gives its first letter, upper-cased. */
  lemma OneWordInitial(w: string)
    requires w != "" && forall i :: 0 <= i < |w| ==> w[i] != ' '
    ensures Initials(Some(w)) == [UpperChar(w[0])]
  {
    SplitNoSeparator(w, ' ');
    FirstCharsOfSplit(w);
    assert FirstChars([w]) == [w[0]];
  }

  class MembersTablePage {
    var members: seq<RemoteMember>
    var loading: bool
    var editId: Option<string>
    var editForm: Record

    constructor()
      ensures members == [] && loading && editId.None? && editForm == map[]
    {
      members, loading, editId, editForm := [], true, None, map[];
    }

    /** The mount effect: the list the server returns, if any. */
    method Load(reply: Option<seq<RemoteMember>>)
      modifies this
      ensures members == (if reply.Some? then reply.value else old(members))
      ensures !loading && editId == old(editId) && editForm == old(editForm)
    {
      if reply.Some? {
        members := reply.value;
      }
      loading := false;
    }

    /** `handleDelete`: nothing without confirmation or when the request
        fails; otherwise every member with that id goes. The edit state is
        left as it is. */
    method Delete(id: string, confirmed: bool, deleted: bool)
      modifies this
      ensures confirmed && deleted ==> members == RemoveRemote(old(members), id)
      ensures !confirmed || !deleted ==> members == old(members)
      ensures editId == old(editId) && editForm == old(editForm) && loading == old(loading)
    {
      if confirmed && deleted {
        members := RemoveRemote(members, id);
      }
    }

    /** `handleEdit`. */
    method Edit(m: RemoteMember)
      modifies this
      ensures editId == Some(m.id) && editForm == AsRecord(m)
      ensures members == old(members) && loading == old(loading)
    {
      editId := Some(m.id);
      editForm := AsRecord(m);
    }

    /** `handleEditSave` with the server's reply: nothing without a truthy
        edit id; the partial record is sent; a reply replaces the members
        with the edited id and clears the edit state; a failed request
        changes nothing. */
    method EditSave(reply: Option<RemoteMember>) returns (request: Option<Request>)
      modifies this
      ensures !IsEditing(old(editId)) ==> request.None?
      ensures IsEditing(old(editId)) ==> request == Some(Put(old(editId).value, old(editForm)))
      ensures !IsEditing(old(editId)) || reply.None? ==>
        members == old(members) && editId == old(editId) && editForm == old(editForm)
      ensures IsEditing(old(editId)) && reply.Some? ==>
        members == ReplaceRemote(old(members), old(editId).value, reply.value) && editId.None? && editForm == map[]
      ensures loading == old(loading)
    {
      if !IsEditing(editId) {
        return None;
      }
      request := Some(Put(editId.value, editForm));
      if reply.Some? {
        members := ReplaceRemote(members, editId.value, reply.value);
        editId := None;
        editForm := map[];
      }
    }

    /** Typing into a cell of the edited row: only that column's key. */
    method CellEdit(column: string, value: string)
      requires column != "actions"
      modifies this
      ensures editForm == old(editForm)[column := Str(value)]
      ensures forall k :: k in old(editForm) && k != column ==> k in editForm && editForm[k] == old(editForm)[k]
      ensures members == old(members) && editId == old(editId) && loading == old(loading)
    {
      editForm := editForm[column := Str(value)];
    }

    /** The row's "Annuler" button: the edit ends, the draft is kept. */
    method Cancel()
      modifies this
      ensures editId.None? && editForm == old(editForm) && members == old(members) && loading == old(loading)
    {
      editId := None;
    }
  }
}
