/**
 * The member form schema: the two enumerations and the field rules a member
 * must pass before it is stored. `validate` yields one field error per
 * failing field, in the schema's field order.
 */
module MemberSchema {
  import opened JsValues
  import Dates

  const MemberRoles: seq<string> := ["Developer", "Designer", "Manager", "QA Engineer", "Product Owner"]
  const MemberStatuses: seq<string> := ["active", "inactive"]

  /** The form's values. `role` is `None` while no role has been picked. */
  datatype MemberForm = MemberForm(
    id: Option<int>,
    name: string,
    email: string,
    role: Option<string>,
    joinDate: string,
    status: string)

  datatype MemberField = NameField | EmailField | RoleField | JoinDateField | StatusField

  datatype ErrorCode = TooShort | TooLong | InvalidEmail | InvalidEnum | InvalidType | InvalidDate | PastDate | BelowMin

  datatype FieldError<F> = FieldError(field: F, code: ErrorCode)

  predicate IsLetter(c: char) {
    ('A' <= c <= 'Z') || ('a' <= c <= 'z')
  }

  predicate IsAlnum(c: char) {
    IsLetter(c) || IsDigit(c)
  }

  /** A character of the local part before its last one. */
  predicate IsLocalChar(c: char) {
    IsAlnum(c) || c == '_' || c == '\'' || c == '+' || c == '-' || c == '.'
  }

  /** A character the local part may end with. */
  predicate IsLocalLastChar(c: char) {
    IsAlnum(c) || c == '_' || c == '+' || c == '-'
  }

  predicate LocalPartOk(local: string) {
    && |local| >= 1
    && local[0] != '.'
    && (forall i :: 0 <= i < |local| ==> IsLocalChar(local[i]))
    && IsLocalLastChar(local[|local| - 1])
  }

  predicate DomainLabelOk(part: string) {
    && |part| >= 1
    && IsAlnum(part[0])
    && forall i :: 0 <= i < |part| ==> IsAlnum(part[i]) || part[i] == '-'
  }

  predicate TopLevelOk(tld: string) {
    |tld| >= 2 && forall i :: 0 <= i < |tld| ==> IsLetter(tld[i])
  }

  predicate DomainOk(domain: string) {
    var labels := Split(domain, '.');
    && |labels| >= 2
    && (forall k :: 0 <= k < |labels| - 1 ==> DomainLabelOk(labels[k]))
    && TopLevelOk(labels[|labels| - 1])
  }

  predicate NoDoubleDot(s: string) {
    forall i :: 0 <= i < |s| - 1 ==> !(s[i] == '.' && s[i + 1] == '.')
  }

  /** zod's `.email()` check: one '@', no "..", a local part of letters,
      digits and `_'+-.` that neither starts with '.' nor ends with '.' or
      '\'', then dot-separated labels and a top-level label of two or more
      letters (letters in either case). */
  predicate IsEmail(s: string)
    ensures IsEmail(s) ==> exists i :: 0 <= i < |s| && s[i] == '@'
  {
    var parts := Split(s, '@');
    SplitHasSeparator(s, '@');
    && |parts| == 2
    && NoDoubleDot(s)
    && LocalPartOk(parts[0])
    && DomainOk(parts[1])
  }

  /** The `joinDate` refinement: `new Date(val)` is a valid date. */
  predicate IsDate(s: string) {
    Dates.ParseIsoDate(s).Some?
  }

  /** The rule each field must satisfy. The id is optional and any number. */
  predicate FieldOk(f: MemberForm, field: MemberField) {
    match field
    case NameField => |f.name| >= 2
    case EmailField => IsEmail(f.email)
    case RoleField => f.role.Some? && f.role.value in MemberRoles
    case JoinDateField => IsDate(f.joinDate)
    case StatusField => f.status in MemberStatuses
  }

  /** The schema accepts the form: every field rule holds. */
  predicate ValidMember(f: MemberForm)
    ensures ValidMember(f) <==> forall field :: FieldOk(f, field)
  {
    && FieldOk(f, NameField)
    && FieldOk(f, EmailField)
    && FieldOk(f, RoleField)
    && FieldOk(f, JoinDateField)
    && FieldOk(f, StatusField)
  }

  function ErrorIf(failed: bool, field: MemberField, code: ErrorCode): seq<FieldError<MemberField>> {
    if failed then [FieldError(field, code)] else []
  }

  /** `memberFormSchema.safeParse(f)`'s issues: one per failing field, in
      field order. The form is accepted exactly when there are none. */
  function MemberErrors(f: MemberForm): (r: seq<FieldError<MemberField>>)
    ensures r == [] <==> ValidMember(f)
    ensures forall e :: e in r ==> !FieldOk(f, e.field)
    ensures forall field :: !FieldOk(f, field) ==> exists e :: e in r && e.field == field
    ensures |r| <= 5
  {
    ErrorIf(|f.name| < 2, NameField, TooShort)
    + ErrorIf(!IsEmail(f.email), EmailField, InvalidEmail)
    + ErrorIf(f.role.None?, RoleField, InvalidType)
    + ErrorIf(f.role.Some? && f.role.value !in MemberRoles, RoleField, InvalidEnum)
    + ErrorIf(!IsDate(f.joinDate), JoinDateField, InvalidDate)
    + ErrorIf(f.status !in MemberStatuses, StatusField, InvalidEnum)
  }

  /** The id plays no part: a form without one is judged like the same form
      with any id. */
  lemma IdIsOptional(f: MemberForm, id: Option<int>)
    ensures ValidMember(f) <==> ValidMember(f.(id := id))
    ensures MemberErrors(f) == MemberErrors(f.(id := id))
  {
  }

  lemma SplitsOfBoAtX()
    ensures Split("bo@x.com", '@') == ["bo", "x.com"]
    ensures Split("x.com", '.') == ["x", "com"]
  {
    SplitNoSeparator("x.com", '@');
    assert "@x.com"[1..] == "x.com";
    assert "o@x.com"[1..] == "@x.com";
    assert "bo@x.com"[1..] == "o@x.com";
    assert Split("@x.com", '@') == ["", "x.com"];
    assert ['o'] + "" == "o" && ["", "x.com"][1..] == ["x.com"];
    assert Split("o@x.com", '@') == ["o", "x.com"];
    assert ['b'] + "o" == "bo" && ["o", "x.com"][1..] == ["x.com"];
    SplitNoSeparator("com", '.');
    assert ".com"[1..] == "com";
    assert "x.com"[1..] == ".com";
    assert Split(".com", '.') == ["", "com"];
    assert ['x'] + "" == "x" && ["", "com"][1..] == ["com"];
  }

  /** The address used in the end-to-end scenario is accepted. */
  lemma BoAtXIsEmail()
    ensures IsEmail("bo@x.com")
  {
    SplitsOfBoAtX();
    assert LocalPartOk("bo");
    assert DomainLabelOk("x");
    assert TopLevelOk("com");
  }

  /** A string without an '@' is rejected. */
  lemma NotAnEmail()
    ensures !IsEmail("not-an-email")
  {
    SplitNoSeparator("not-an-email", '@');
  }
}
