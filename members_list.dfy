/**
 * The member list page: the list it starts from (stored, or six built-in
 * members), deleting by id with the whole list written back on every
 * change, the role and status column filters, and the sorted role options.
 */
module MembersList {
  import opened JsValues
  import opened LocalStore
  import opened Sequences
  import opened StringOrder

  const DefaultMembers: seq<Member> := [
    Member(1, "Alice Johnson", "alice@mail.com", "Developer", "2022-01-15", "active"),
    Member(2, "Bob Smith", "bob@mail.com", "Designer", "2021-11-03", "active"),
    Member(3, "Charlie Brown", "charlie@mail.com", "Developer", "2023-02-20", "active"),
    Member(4, "Diana Prince", "diana@mail.com", "Manager", "2020-05-10", "inactive"),
    Member(5, "Evan Wright", "evan@mail.com", "QA Engineer", "2023-04-01", "active"),
    Member(6, "Fiona Green", "fiona@mail.com", "Product Owner", "2022-08-22", "active")
  ]

  /** The built-in members have distinct ids. */
  lemma DefaultMembersUnique()
    ensures UniqueIds(DefaultMembers)
  {
  }

  /** `saved ? JSON.parse(saved) : defaultData`; `None` when parsing
      throws. */
  function InitialMembers(slot: Slot<Member>): (r: Option<seq<Member>>)
    ensures slot.Absent? ==> r == Some(DefaultMembers)
    ensures slot.Stored? ==> r == Some(slot.items)
    ensures slot.Malformed? ==> r.None?
  {
    match slot
    case Absent => Some(DefaultMembers)
    case Malformed => None
    case Stored(items) => Some(items)
  }

  function HasOtherId(id: int): Member -> bool {
    (m: Member) => m.id != id
  }

  /** `members.filter(member => member.id !== id)`: every member with that id
      goes, every other member stays, in order. */
  function WithoutMember(ms: seq<Member>, id: int): (r: seq<Member>)
    ensures forall i :: 0 <= i < |r| ==> r[i].id != id && r[i] in ms
    ensures forall i :: 0 <= i < |ms| && ms[i].id != id ==> ms[i] in r
    ensures IsSubsequence(r, ms)
  {
    Filter(ms, HasOtherId(id))
  }

  /** With distinct ids, deleting an id that is present shortens the list by
      exactly one, and deleting an absent id changes nothing. */
  lemma {:induction false} DeleteRemovesOne(ms: seq<Member>, id: int)
    requires UniqueIds(ms)
    ensures (exists i :: 0 <= i < |ms| && ms[i].id == id) ==> |WithoutMember(ms, id)| == |ms| - 1
    ensures (forall i :: 0 <= i < |ms| ==> ms[i].id != id) ==> WithoutMember(ms, id) == ms
  {
    if ms != [] {
      DeleteRemovesOne(ms[1..], id);
      if ms[0].id == id {
        FilterKeepsAll(ms[1..], HasOtherId(id));
      } else {
        assert forall i :: 1 <= i < |ms| ==> ms[i] == ms[1..][i - 1];
        assert [ms[0]] + ms[1..] == ms;
      }
    }
  }

  /** One entry of the table's column-filter state. */
  datatype ColumnFilter = ColumnFilter(id: string, value: string)

  function OnOtherColumn(id: string): ColumnFilter -> bool {
    (f: ColumnFilter) => f.id != id
  }

  function OnColumn(id: string): ColumnFilter -> bool {
    (f: ColumnFilter) => f.id == id
  }

  /** The role and status select handlers: "all" drops the column's entry;
      any other value replaces it by one entry placed last. */
  function SetColumnFilter(fs: seq<ColumnFilter>, id: string, value: string): (r: seq<ColumnFilter>)
    ensures forall i :: 0 <= i < |fs| && fs[i].id != id ==> fs[i] in r
    ensures forall f :: f in r && f.id != id ==> f in fs
    ensures value == "all" ==> forall f :: f in r ==> f.id != id
    ensures value != "all" ==> r != [] && r[|r| - 1] == ColumnFilter(id, value)
    ensures value != "all" ==> forall i :: 0 <= i < |r| - 1 ==> r[i].id != id
  {
    var others := Filter(fs, OnOtherColumn(id));
    if value == "all" then others else others + [ColumnFilter(id, value)]
  }

  /** `columnFilters.find(f => f.id === id)?.value || "all"`: an absent or
      empty entry reads as "all". */
  function CurrentFilter(fs: seq<ColumnFilter>, id: string): (r: string)
    ensures r != ""
    ensures (forall i :: 0 <= i < |fs| ==> fs[i].id != id) ==> r == "all"
  {
    match Find(fs, OnColumn(id))
    case Some(f) => if f.value == "" then "all" else f.value
    case None => "all"
  }

  /** The select shows what was chosen: "all" after choosing "all", the value
      otherwise (an empty value shows as "all"). */
  lemma SetThenCurrent(fs: seq<ColumnFilter>, id: string, value: string)
    ensures CurrentFilter(SetColumnFilter(fs, id, value), id) == if value == "" then "all" else value
  {
    var r := SetColumnFilter(fs, id, value);
    var found := Find(r, OnColumn(id));
    if value != "all" {
      assert OnColumn(id)(r[|r| - 1]);
      var k :| 0 <= k < |r| && r[k] == found.value && OnColumn(id)(r[k]);
      assert k == |r| - 1;
    }
  }

  /** Choosing a value for one column leaves what another column shows
      untouched. */
  lemma SetKeepsOtherColumns(fs: seq<ColumnFilter>, id: string, value: string, other: string)
    requires other != id
    ensures CurrentFilter(SetColumnFilter(fs, id, value), other) == CurrentFilter(fs, other)
  {
    var others := Filter(fs, OnOtherColumn(id));
    FindSkipsFiltered(fs, OnOtherColumn(id), OnColumn(other));
    if value != "all" {
      FindInPrefix(others, [ColumnFilter(id, value)], OnColumn(other));
    }
  }

  /** Dropping elements the test rejects in any case does not change what
      `find` returns. */
  lemma {:induction false} FindSkipsFiltered<T>(s: seq<T>, keep: T -> bool, pick: T -> bool)
    requires forall x :: pick(x) ==> keep(x)
    ensures Find(Filter(s, keep), pick) == Find(s, pick)
  {
    if s != [] {
      FindSkipsFiltered(s[1..], keep, pick);
    }
  }

  /** `find` on a list with something appended finds in the prefix first. */
  lemma {:induction false} FindInPrefix<T>(s: seq<T>, t: seq<T>, pick: T -> bool)
    requires forall x :: x in t ==> !pick(x)
    ensures Find(s + t, pick) == Find(s, pick)
  {
    if s == [] {
      assert s + t == t;
    } else {
      FindInPrefix(s[1..], t, pick);
      assert (s + t)[1..] == s[1..] + t;
    }
  }

  /** Choosing the same value twice is choosing it once. */
  lemma SetColumnFilterIdempotent(fs: seq<ColumnFilter>, id: string, value: string)
    ensures SetColumnFilter(SetColumnFilter(fs, id, value), id, value) == SetColumnFilter(fs, id, value)
  {
    var others := Filter(fs, OnOtherColumn(id));
    FilterIdempotent(fs, OnOtherColumn(id));
    if value != "all" {
      FilterAppend(others, [ColumnFilter(id, value)], OnOtherColumn(id));
      assert Filter([ColumnFilter(id, value)], OnOtherColumn(id)) == [];
    }
  }

  /** The roles of the members, in list order. */
  function Roles(ms: seq<Member>): (r: seq<string>)
    ensures |r| == |ms|
    ensures forall i :: 0 <= i < |ms| ==> r[i] == ms[i].role
  {
    seq(|ms|, i requires 0 <= i < |ms| => ms[i].role)
  }

  /** `Array.from(new Set(members.map(m => m.role))).sort()`: each role that
      occurs, once, in increasing order. */
  function UniqueRoles(ms: seq<Member>): (r: seq<string>)
    ensures StrictlySorted(r)
    ensures forall y :: y in r <==> y in Roles(ms)
  {
    SortStrings(Distinct(Roles(ms)))
  }

  /** The options depend only on which roles occur, not on the order or
      number of the members holding them. */
  lemma RoleOptionsIgnoreOrder(ms: seq<Member>, ns: seq<Member>)
    requires forall y :: y in Roles(ms) <==> y in Roles(ns)
    ensures UniqueRoles(ms) == UniqueRoles(ns)
  {
    SortedIsUnique(UniqueRoles(ms), UniqueRoles(ns));
  }

  /** The page's state, with the store it writes to. */
  class MembersListPage {
    var members: seq<Member>
    var columnFilters: seq<ColumnFilter>
    const store: Storage

    constructor(store: Storage, members: seq<Member>)
      ensures this.store == store && this.members == members && columnFilters == []
    {
      this.store := store;
      this.members := members;
      columnFilters := [];
    }

    /** The effect that runs after every change of `members`. */
    method Persist()
      modifies store
      ensures store.members == Stored(members)
      ensures store.tasks == old(store.tasks)
    {
      store.members := Stored(members);
    }

    /** `handleDeleteMember`, followed by the persist effect. */
    method DeleteMember(id: int)
      modifies this, store
      ensures members == WithoutMember(old(members), id)
      ensures columnFilters == old(columnFilters)
      ensures store.members == Stored(members) && store.tasks == old(store.tasks)
    {
      members := WithoutMember(members, id);
      Persist();
    }

    /** `handleRoleFilterChange`. */
    method RoleFilterChange(role: string)
      modifies this
      ensures columnFilters == SetColumnFilter(old(columnFilters), "role", role)
      ensures members == old(members)
    {
      columnFilters := SetColumnFilter(columnFilters, "role", role);
    }

    /** `handleStatusFilterChange`. */
    method StatusFilterChange(status: string)
      modifies this
      ensures columnFilters == SetColumnFilter(old(columnFilters), "status", status)
      ensures members == old(members)
    {
      columnFilters := SetColumnFilter(columnFilters, "status", status);
    }

    function CurrentRoleFilter(): string
      reads this
    {
      CurrentFilter(columnFilters, "role")
    }

    function CurrentStatusFilter(): string
      reads this
    {
      CurrentFilter(columnFilters, "status")
    }

    function RoleOptions(): seq<string>
      reads this
    {
      UniqueRoles(members)
    }
  }

  /** Opening the page: the initial list, written back at once by the
      persist effect; a malformed stored list throws and nothing opens. */
  method OpenMembersList(store: Storage) returns (page: MembersListPage?)
    modifies store
    ensures InitialMembers(old(store.members)).None? ==> page == null && store.members == old(store.members)
    ensures InitialMembers(old(store.members)).Some? ==>
      && page != null && fresh(page) && page.store == store
      && page.members == InitialMembers(old(store.members)).value && page.columnFilters == []
      && store.members == Stored(page.members)
    ensures store.tasks == old(store.tasks)
  {
    var initial := InitialMembers(store.members);
    if initial.None? {
      return null;
    }
    page := new MembersListPage(store, initial.value);
    page.Persist();
  }
}
