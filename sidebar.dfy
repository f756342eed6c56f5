/**
 * The sidebar: the navigation items, the item made active from the path the
 * page opens on (a matching sub-item first, opening its parent's dropdown),
 * the dropdown and collapse toggles, the click handlers, and which parent is
 * highlighted.
 */
module Sidebar {
  import opened JsValues
  import opened Sequences

  datatype SubItem = SubItem(id: string, path: string)

  datatype NavItem = NavItem(id: string, path: string, hasDropdown: bool, subItems: seq<SubItem>)

  const SidebarItems: seq<NavItem> := [
    NavItem("dashboard", "/", false, []),
    NavItem("members", "/members", true, [SubItem("add-member", "/members/add"), SubItem("view-members", "/members")]),
    NavItem("tasks", "/tasks", true, [SubItem("add-task", "/tasks/new"), SubItem("view-tasks", "/tasks")])
  ]

  const BottomItems: seq<NavItem> := [NavItem("settings", "/settings", false, [])]

  function SubHasPath(path: string): SubItem -> bool {
    (s: SubItem) => s.path == path
  }

  function ItemHasPath(path: string): NavItem -> bool {
    (it: NavItem) => it.path == path
  }

  /** The item to make active and the dropdown to open, if any. */
  datatype Resolution = Resolution(active: string, openParent: Option<string>)

  /** The first item, in order, with a sub-item on `path`, and that
      sub-item. */
  function FirstSubMatch(items: seq<NavItem>, path: string): (r: Option<(NavItem, SubItem)>)
    ensures r.Some? ==> r.value.0 in items && r.value.1 in r.value.0.subItems && r.value.1.path == path
    ensures r.None? <==> forall i, j :: 0 <= i < |items| && 0 <= j < |items[i].subItems| ==> items[i].subItems[j].path != path
  {
    if items == [] then None
    else
      match Find(items[0].subItems, SubHasPath(path))
      case Some(s) => Some((items[0], s))
      case None =>
        var r := FirstSubMatch(items[1..], path);
        assert forall i :: 1 <= i < |items| ==> items[i] == items[1..][i - 1];
        r
  }

  /** The initial `activeItem`: a sub-item on the path, else the first main
      item and then the first bottom item on the path, else "dashboard". */
  function InitialResolution(items: seq<NavItem>, bottom: seq<NavItem>, path: string): (r: Resolution)
    ensures FirstSubMatch(items, path).Some? ==>
      r == Resolution(FirstSubMatch(items, path).value.1.id, Some(FirstSubMatch(items, path).value.0.id))
    ensures FirstSubMatch(items, path).None? ==> r.openParent.None? && r.active != ""
  {
    match FirstSubMatch(items, path)
    case Some(m) => Resolution(m.1.id, Some(m.0.id))
    case None =>
      var main := if Find(items, ItemHasPath(path)).Some? then Find(items, ItemHasPath(path)) else Find(bottom, ItemHasPath(path));
      if main.Some? && main.value.id != "" then Resolution(main.value.id, None) else Resolution("dashboard", None)
  }

  /** The `useState` initialiser: the loop over the items with its early
      return, then the main and bottom lookups. */
  method ResolveInitialActive(items: seq<NavItem>, bottom: seq<NavItem>, path: string) returns (r: Resolution)
    ensures r == InitialResolution(items, bottom, path)
  {
    var i := 0;
    while i < |items|
      invariant 0 <= i <= |items|
      invariant FirstSubMatch(items[i..], path) == FirstSubMatch(items, path)
    {
      var sub := Find(items[i].subItems, SubHasPath(path));
      if sub.Some? {
        return Resolution(sub.value.id, Some(items[i].id));
      }
      assert items[i..][1..] == items[i + 1..];
      i := i + 1;
    }
    var main := Find(items, ItemHasPath(path));
    if main.None? {
      main := Find(bottom, ItemHasPath(path));
    }
    if main.Some? && main.value.id != "" {
      r := Resolution(main.value.id, None);
    } else {
      r := Resolution("dashboard", None);
    }
  }

  /** Sub-items take precedence: "/members" selects "view-members" and opens
      the members dropdown, although the members item has that path too. */
  lemma MembersPathSelectsViewMembers()
    ensures InitialResolution(SidebarItems, BottomItems, "/members") == Resolution("view-members", Some("members"))
  {
    assert Find(SidebarItems[0].subItems, SubHasPath("/members")).None?;
    assert SidebarItems[1..][0] == SidebarItems[1];
    assert Find(SidebarItems[1].subItems, SubHasPath("/members")) == Some(SubItem("view-members", "/members"));
  }

  /** A bottom item's path selects it; an unknown path falls back to the
      dashboard; neither opens a dropdown. */
  lemma MainAndFallback(path: string)
    requires path !in {"/", "/members", "/members/add", "/tasks", "/tasks/new", "/settings"}
    ensures InitialResolution(SidebarItems, BottomItems, "/settings") == Resolution("settings", None)
    ensures InitialResolution(SidebarItems, BottomItems, path) == Resolution("dashboard", None)
  {
    assert FirstSubMatch(SidebarItems, "/settings").None?;
    assert Find(SidebarItems, ItemHasPath("/settings")).None?;
    assert FirstSubMatch(SidebarItems, path).None?;
    assert Find(SidebarItems, ItemHasPath(path)).None?;
    assert Find(BottomItems, ItemHasPath(path)).None?;
  }

  /** `openDropdowns[id] ?? false`. */
  function IsOpen(m: map<string, bool>, id: string): bool {
    if id in m then m[id] else false
  }

  /** `{ ...prev, [id]: !prev[id] }`: a missing key reads as closed, so it
      opens. */
  function Toggled(m: map<string, bool>, id: string): (r: map<string, bool>)
    ensures IsOpen(r, id) == !IsOpen(m, id)
    ensures forall k :: k != id ==> IsOpen(r, k) == IsOpen(m, k)
  {
    m[id := !IsOpen(m, id)]
  }

  /** Toggling twice reads as never toggling. */
  lemma ToggleTwice(m: map<string, bool>, id: string, k: string)
    ensures IsOpen(Toggled(Toggled(m, id), id), k) == IsOpen(m, k)
  {
  }

  const AllClosed: map<string, bool> := map["members" := false, "tasks" := false]

  lemma AllClosedReadsClosed(k: string)
    ensures !IsOpen(AllClosed, k)
  {
  }

  /** Whether an item is highlighted: it, or one of its sub-items, is the
      active item. */
  predicate Highlighted(item: NavItem, active: string) {
    active == item.id || exists j :: 0 <= j < |item.subItems| && item.subItems[j].id == active
  }

  /** After opening on a sub-item's path, its parent is highlighted and its
      dropdown is the one opened. */
  lemma ParentOfInitialSubIsHighlighted(items: seq<NavItem>, bottom: seq<NavItem>, path: string)
    requires FirstSubMatch(items, path).Some?
    ensures Highlighted(FirstSubMatch(items, path).value.0, InitialResolution(items, bottom, path).active)
  {
    var m := FirstSubMatch(items, path).value;
    var j :| 0 <= j < |m.0.subItems| && m.0.subItems[j] == m.1;
  }

  class SidebarState {
    var isCollapsed: bool
    var openDropdowns: map<string, bool>
    var activeItem: string

    /** Mounting on `path`. */
    constructor(path: string)
      ensures !isCollapsed
      ensures activeItem == InitialResolution(SidebarItems, BottomItems, path).active
      ensures openDropdowns == match InitialResolution(SidebarItems, BottomItems, path).openParent
        case Some(p) => AllClosed[p := true]
        case None => AllClosed
    {
      var r := ResolveInitialActive(SidebarItems, BottomItems, path);
      isCollapsed := false;
      activeItem := r.active;
      openDropdowns := if r.openParent.Some? then AllClosed[r.openParent.value := true] else AllClosed;
    }

    /** `isDropdownOpen`. */
    function DropdownOpen(id: string): (r: bool)
      reads this
      ensures r <==> id in openDropdowns && openDropdowns[id]
    {
      IsOpen(openDropdowns, id)
    }

    /** `toggleDropdown`. */
    method ToggleDropdown(id: string)
      modifies this
      ensures openDropdowns == Toggled(old(openDropdowns), id)
      ensures isCollapsed == old(isCollapsed) && activeItem == old(activeItem)
    {
      openDropdowns := Toggled(openDropdowns, id);
    }

    /** `toggleSidebar`: collapsing also closes every dropdown; expanding
        leaves them as they are. */
    method ToggleSidebar()
      modifies this
      ensures isCollapsed == !old(isCollapsed)
      ensures !old(isCollapsed) ==> openDropdowns == AllClosed
      ensures old(isCollapsed) ==> openDropdowns == old(openDropdowns)
      ensures activeItem == old(activeItem)
    {
      var wasCollapsed := isCollapsed;
      isCollapsed := !wasCollapsed;
      if !wasCollapsed {
        openDropdowns := AllClosed;
      }
    }

    /** `handleItemClick`: an item with a path and no dropdown becomes
        active and is navigated to; a dropdown item toggles only while the
        sidebar is expanded and never changes the active item. */
    method ItemClick(item: NavItem) returns (navigateTo: Option<string>)
      modifies this
      ensures item.path != "" && !item.hasDropdown ==> activeItem == item.id && navigateTo == Some(item.path)
      ensures item.path == "" || item.hasDropdown ==> activeItem == old(activeItem) && navigateTo.None?
      ensures item.hasDropdown && !old(isCollapsed) ==> openDropdowns == Toggled(old(openDropdowns), item.id)
      ensures !item.hasDropdown || old(isCollapsed) ==> openDropdowns == old(openDropdowns)
      ensures isCollapsed == old(isCollapsed)
    {
      navigateTo := None;
      if item.path != "" && !item.hasDropdown {
        navigateTo := Some(item.path);
        activeItem := item.id;
      }
      if item.hasDropdown && !isCollapsed {
        openDropdowns := Toggled(openDropdowns, item.id);
      }
    }

    /** `handleSubItemClick`. */
    method SubItemClick(sub: SubItem) returns (navigateTo: string)
      modifies this
      ensures activeItem == sub.id && navigateTo == sub.path
      ensures openDropdowns == old(openDropdowns) && isCollapsed == old(isCollapsed)
    {
      navigateTo := sub.path;
      activeItem := sub.id;
    }

    /** The item is shown active when it, or one of its sub-items, is the
        active item. */
    function IsHighlighted(item: NavItem): (r: bool)
      reads this
      ensures activeItem == item.id ==> r
      ensures (exists j :: 0 <= j < |item.subItems| && item.subItems[j].id == activeItem) ==> r
      ensures r ==> activeItem == item.id || exists sub :: sub in item.subItems && sub.id == activeItem
    {
      Highlighted(item, activeItem)
    }
  }
}
