/**
 * The "edit member" page: the role guard, loading the member named by the
 * route into the draft (or leaving for the list when there is none), and
 * the submit handler that merges the draft into that member and writes the
 * whole list back.
 */
module EditMember {
  import opened JsValues
  import opened MemberSchema
  import opened LocalStore
  import opened Sequences

  /** `isValidRole(role)`: one of the five member roles. */
  predicate IsValidRole(role: string) {
    role in MemberRoles
  }

  lemma IsValidRoleExactly(role: string)
    ensures IsValidRole(role) <==>
      role == "Developer" || role == "Designer" || role == "Manager" || role == "QA Engineer" || role == "Product Owner"
  {
  }

  /** The draft before loading; `isoToday` is the UTC date of the clock. */
  function EditMemberDefaults(isoToday: string): (f: MemberForm)
    ensures f.id.None? && f.name == "" && f.email == ""
    ensures f.role == Some("Developer") && f.joinDate == isoToday && f.status == "active"
  {
    MemberForm(None, "", "", Some("Developer"), isoToday, "active")
  }

  /** `m.id === Number(routeId)`. */
  function MatchesRoute(routeId: string): Member -> bool {
    (m: Member) => StrictEquals(Num(m.id as real), ToNumber(Str(routeId)))
  }

  /** The list links to `/members/edit/${id}`: that route names exactly the
      members with that id. */
  lemma RouteOfIdMatches(m: Member, id: int)
    ensures MatchesRoute(IntToString(id))(m) <==> m.id == id
  {
    IntToStringRoundTrip(id);
  }

  /** A route that is not a number names no member. */
  lemma NonNumericRouteMatchesNothing(m: Member, routeId: string)
    requires ParseNumber(routeId).NaN?
    ensures !MatchesRoute(routeId)(m)
  {
  }

  /** The draft seeded from a stored member: its fields without the id, and
      "Developer" in place of a role that is not one of the five. */
  function DraftOf(m: Member): (f: MemberForm)
    ensures f.id.None? && f.name == m.name && f.email == m.email
    ensures f.joinDate == m.joinDate && f.status == m.status
    ensures f.role.Some? && IsValidRole(f.role.value)
    ensures IsValidRole(m.role) ==> f.role == Some(m.role)
  {
    MemberForm(None, m.name, m.email, Some(if IsValidRole(m.role) then m.role else "Developer"), m.joinDate, m.status)
  }

  datatype EditLoad = Seeded(draft: MemberForm) | RedirectToList | LoadFailed

  /** The load effect: the first stored member the route names seeds the
      draft; with none (an absent store included) the page goes back to the
      list. Malformed stored text throws. */
  function LoadEditMember(slot: Slot<Member>, routeId: string): (r: EditLoad)
    ensures r.LoadFailed? <==> slot.Malformed?
    ensures r.RedirectToList? <==> !slot.Malformed? && forall i :: 0 <= i < |ReadOrEmpty(slot).value| ==> !MatchesRoute(routeId)(ReadOrEmpty(slot).value[i])
    ensures r.Seeded? ==> exists i :: 0 <= i < |slot.items| && MatchesRoute(routeId)(slot.items[i]) && r.draft == DraftOf(slot.items[i])
    ensures slot.Stored? && Find(slot.items, MatchesRoute(routeId)).Some? ==>
      r == Seeded(DraftOf(Find(slot.items, MatchesRoute(routeId)).value))
  {
    match ReadOrEmpty(slot)
    case None => LoadFailed
    case Some(ms) =>
      match Find(ms, MatchesRoute(routeId))
      case Some(m) => Seeded(DraftOf(m))
      case None => RedirectToList
  }

  /** `{ ...member, ...data }`: the form's fields over the member's; the id
      is replaced only when the form carries one. */
  function Merge(m: Member, f: MemberForm): (r: Member)
    requires f.role.Some?
    ensures f.id.None? ==> r.id == m.id
    ensures r.name == f.name && r.email == f.email && r.role == f.role.value
    ensures r.joinDate == f.joinDate && r.status == f.status
  {
    Member(if f.id.Some? then f.id.value else m.id, f.name, f.email, f.role.value, f.joinDate, f.status)
  }

  /** The `members.map(...)` of the submit handler. */
  function MergeByRoute(ms: seq<Member>, routeId: string, f: MemberForm): (r: seq<Member>)
    requires f.role.Some?
    ensures |r| == |ms|
    ensures forall i :: 0 <= i < |ms| && !MatchesRoute(routeId)(ms[i]) ==> r[i] == ms[i]
    ensures forall i :: 0 <= i < |ms| && MatchesRoute(routeId)(ms[i]) ==> r[i] == Merge(ms[i], f)
  {
    MapWhere(ms, MatchesRoute(routeId), (m: Member) => Merge(m, f))
  }

  /** A draft without an id keeps every id where it was, so distinct ids
      stay distinct. */
  lemma MergeKeepsIds(ms: seq<Member>, routeId: string, f: MemberForm)
    requires f.role.Some? && f.id.None?
    ensures forall i :: 0 <= i < |ms| ==> MergeByRoute(ms, routeId, f)[i].id == ms[i].id
    ensures UniqueIds(ms) ==> UniqueIds(MergeByRoute(ms, routeId, f))
  {
    var r := MergeByRoute(ms, routeId, f);
    assert forall i :: 0 <= i < |ms| ==> r[i].id == ms[i].id;
  }

  datatype EditOutcome = Rejected(errors: seq<FieldError<MemberField>>) | SaveFailed | Saved

  /** The page: the draft, whether it left for the list, and the store. */
  class EditMemberPage {
    var draft: MemberForm
    var redirected: bool
    var isLoading: bool
    const store: Storage

    constructor(store: Storage, isoToday: string)
      ensures this.store == store && draft == EditMemberDefaults(isoToday)
      ensures !redirected && !isLoading
    {
      this.store := store;
      draft := EditMemberDefaults(isoToday);
      redirected := false;
      isLoading := false;
    }

    /** The load effect for route `routeId`. */
    method Load(routeId: string)
      modifies this
      ensures match LoadEditMember(store.members, routeId)
        case Seeded(d) => draft == d && redirected == old(redirected)
        case RedirectToList => draft == old(draft) && redirected
        case LoadFailed => draft == old(draft) && redirected == old(redirected)
      ensures isLoading == old(isLoading)
    {
      var r := LoadEditMember(store.members, routeId);
      match r
      case Seeded(d) => draft := d;
      case RedirectToList => redirected := true;
      case LoadFailed =>
    }

    /** `form.handleSubmit(onSubmit)`: invalid data is refused; otherwise the
      members the route names take the data, the list is written back (an
      absent list is written as the empty list), the page leaves for the
      list, and loading ends false. A malformed stored list is caught and
      nothing is written. */
    method Submit(routeId: string, data: MemberForm) returns (outcome: EditOutcome)
      modifies this, store
      ensures !ValidMember(data) ==> outcome == Rejected(MemberErrors(data)) && store.members == old(store.members)
      ensures ValidMember(data) && old(store.members).Malformed? ==> outcome == SaveFailed && store.members == old(store.members)
      ensures ValidMember(data) && !old(store.members).Malformed? ==>
        outcome == Saved && store.members == Stored(MergeByRoute(ReadOrEmpty(old(store.members)).value, routeId, data))
      ensures store.tasks == old(store.tasks)
      ensures draft == old(draft)
      ensures redirected <==> old(redirected) || outcome == Saved
      ensures ValidMember(data) ==> !isLoading
      ensures !ValidMember(data) ==> isLoading == old(isLoading)
    {
      var errors := MemberErrors(data);
      if errors != [] {
        return Rejected(errors);
      }
      isLoading := true;
      var existing := ReadOrEmpty(store.members);
      if existing.None? {
        outcome := SaveFailed;
      } else {
        store.members := Stored(MergeByRoute(existing.value, routeId, data));
        outcome := Saved;
        redirected := true;
      }
      isLoading := false;
    }
  }
}
