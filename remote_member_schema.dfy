/**
 * The member record served by the remote API, and the looser schema it is
 * checked against: the id is text, the name needs one character, role,
 * status and join date are free text, and the record carries an address and
 * coordinates. Records are field maps from key to loosely typed value.
 */
module RemoteMemberSchema {
  import opened JsValues
  import MemberSchema

  /** A remote member that passed the schema. */
  datatype RemoteMember = RemoteMember(
    id: string,
    name: string,
    email: string,
    role: string,
    status: string,
    joinDate: string,
    address: string,
    lat: real,
    lng: real)

  /** A record as a map from field name to value. */
  type Record = map<string, JsValue>

  predicate HasString(r: Record, key: string) {
    key in r && r[key].Str?
  }

  predicate HasNumber(r: Record, key: string) {
    key in r && r[key].Num?
  }

  /** `memberSchema`: every field present with its type, a non-empty name
      and a valid email. Unknown keys are ignored. */
  predicate ValidRemoteRecord(r: Record) {
    && HasString(r, "id") && HasString(r, "name") && HasString(r, "email")
    && HasString(r, "role") && HasString(r, "status") && HasString(r, "joinDate")
    && HasString(r, "address") && HasNumber(r, "lat") && HasNumber(r, "lng")
    && |r["name"].s| >= 1
    && MemberSchema.IsEmail(r["email"].s)
  }

  /** The record that holds a member's fields. */
  function AsRecord(m: RemoteMember): (r: Record)
    ensures r.Keys == {"id", "name", "email", "role", "status", "joinDate", "address", "lat", "lng"}
  {
    map[
      "id" := Str(m.id), "name" := Str(m.name), "email" := Str(m.email),
      "role" := Str(m.role), "status" := Str(m.status), "joinDate" := Str(m.joinDate),
      "address" := Str(m.address), "lat" := Num(m.lat), "lng" := Num(m.lng)]
  }

  /** `memberSchema.safeParse(r)`: the member the record describes, when it
      passes the schema. */
  function ParseRemoteMember(r: Record): (res: Option<RemoteMember>)
    ensures res.Some? <==> ValidRemoteRecord(r)
    ensures res.Some? ==> forall k :: k in AsRecord(res.value) ==> k in r && r[k] == AsRecord(res.value)[k]
  {
    if ValidRemoteRecord(r) then
      Some(RemoteMember(
        r["id"].s, r["name"].s, r["email"].s, r["role"].s, r["status"].s,
        r["joinDate"].s, r["address"].s, r["lat"].n, r["lng"].n))
    else None
  }

  /** A member's own record passes exactly when its name is non-empty and its
      email valid, and parses back to the member: role, status and join date
      are free text and the coordinates any numbers. */
  lemma RecordRoundTrip(m: RemoteMember)
    ensures ValidRemoteRecord(AsRecord(m)) <==> |m.name| >= 1 && MemberSchema.IsEmail(m.email)
    ensures ValidRemoteRecord(AsRecord(m)) ==> ParseRemoteMember(AsRecord(m)) == Some(m)
  {
  }

  /** A numeric id, as the local store uses, is refused. */
  lemma NumericIdRefused(r: Record, n: real)
    requires "id" in r && r["id"] == Num(n)
    ensures ParseRemoteMember(r) == None
  {
  }

  /** A missing coordinate is refused. */
  lemma MissingLatRefused(r: Record)
    requires "lat" !in r
    ensures ParseRemoteMember(r) == None
  {
  }

  /** The name rule is weaker than the member form's: every name the form
      accepts is accepted here, and a one-character name only here. */
  lemma NameRuleWeakerThanForm(m: RemoteMember, f: MemberSchema.MemberForm)
    requires f.name == m.name && f.email == m.email
    ensures MemberSchema.ValidMember(f) ==> ValidRemoteRecord(AsRecord(m))
    ensures |m.name| == 1 ==> !MemberSchema.ValidMember(f)
  {
    RecordRoundTrip(m);
  }

  /** Role, status and join date are free text: any replacement keeps an
      accepted record accepted. */
  lemma FreeTextFields(m: RemoteMember, role: string, status: string, joinDate: string)
    requires ValidRemoteRecord(AsRecord(m))
    ensures ValidRemoteRecord(AsRecord(m.(role := role, status := status, joinDate := joinDate)))
  {
    RecordRoundTrip(m);
    RecordRoundTrip(m.(role := role, status := status, joinDate := joinDate));
  }
}
