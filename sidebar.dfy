/** The navigation sidebar: which entries are highlighted for the current
    location, and which parent entries are expanded to show their children. */
module Sidebar {
  import opened Options
  import opened Lists
  import opened Strings

  /** A navigation entry (its icon is not modelled). */
  datatype NavItem = NavItem(
    title: string,
    path: string,
    badge: Option<string>,
    children: Option<seq<NavItem>>)

  function Leaf(title: string, path: string): NavItem
  {
    NavItem(title, path, None, None)
  }

  function Parent(title: string, path: string, badge: Option<string>, children: seq<NavItem>): NavItem
  {
    NavItem(title, path, badge, Some(children))
  }

  /** `navigationItems`. */
  const Navigation: seq<NavItem> := [
    Leaf("Dashboard", "/"),
    Parent("Students", "/students", None, [
      Leaf("All Students", "/students"),
      Leaf("Add Student", "/students/add"),
      Leaf("Bulk Import", "/students/import")]),
    Parent("Staff", "/staff", None, [
      Leaf("Staff Directory", "/staff"),
      Leaf("Add Staff", "/staff/add"),
      Leaf("Salary Management", "/staff/salary")]),
    Parent("Fees", "/fees", Some("12"), [
      Leaf("Fee Structures", "/fees/structures"),
      Leaf("Fee Collection", "/fees/collection"),
      Leaf("Outstanding Fees", "/fees/outstanding")]),
    Parent("Expenses", "/expenses", None, [
      Leaf("Add Expense", "/expenses/add"),
      Leaf("Categories", "/expenses/categories"),
      Leaf("Approvals", "/expenses/approvals")]),
    Parent("Reports", "/reports", None, [
      Leaf("Financial Reports", "/reports/financial"),
      Leaf("Academic Reports", "/reports/academic"),
      Leaf("Custom Reports", "/reports/custom")]),
    Leaf("Academic Year", "/academic-year"),
    Parent("Settings", "/settings", None, [
      Leaf("Profile", "/settings/profile"),
      Leaf("School Settings", "/settings/school"),
      Leaf("User Management", "/settings/users")])
  ]

  // ---------------------------------------------------------------------
  // Active entries

  /** `isActive(path)` at location `pathname`: the location is the path
      itself or lies below it. */
  predicate IsActive(pathname: string, path: string)
  {
    pathname == path || StartsWith(pathname, path + "/")
  }

  /** The path is a prefix of the location that ends at a segment boundary. */
  lemma IsActiveIffSegmentPrefix(pathname: string, path: string)
    ensures IsActive(pathname, path) <==>
            path <= pathname && (|pathname| == |path| || pathname[|path|] == '/')
  {
    if path <= pathname && |pathname| > |path| && pathname[|path|] == '/' {
      assert pathname[..|path| + 1] == path + "/";
    }
  }

  /** A location below a path below `path` is below `path`. */
  lemma IsActiveTransitive(pathname: string, middle: string, path: string)
    requires IsActive(pathname, middle) && IsActive(middle, path)
    ensures IsActive(pathname, path)
  {
    IsActiveIffSegmentPrefix(pathname, middle);
    IsActiveIffSegmentPrefix(middle, path);
    IsActiveIffSegmentPrefix(pathname, path);
    if middle != path {
      assert pathname[|path|] == middle[|path|];
    }
  }

  /** Matching respects segment boundaries. */
  lemma SegmentBoundaryExamples()
    ensures IsActive("/students/add", "/students")
    ensures !IsActive("/studentsx", "/students")
    ensures IsActive("/", "/")
    ensures !IsActive("/students", "/")
  {
    IsActiveIffSegmentPrefix("/studentsx", "/students");
    IsActiveIffSegmentPrefix("/students", "/");
  }

  /** `children.some(child => isActive(child.path))`. */
  predicate AnyActive(pathname: string, children: seq<NavItem>)
  {
    children != [] && (IsActive(pathname, children[0].path) || AnyActive(pathname, children[1..]))
  }

  lemma {:induction false} AnyActiveIff(pathname: string, children: seq<NavItem>)
    ensures AnyActive(pathname, children) <==>
            exists k :: 0 <= k < |children| && IsActive(pathname, children[k].path)
  {
    if children != [] {
      AnyActiveIff(pathname, children[1..]);
      if exists k :: 0 <= k < |children| && IsActive(pathname, children[k].path) {
        var k :| 0 <= k < |children| && IsActive(pathname, children[k].path);
        if k > 0 {
          assert children[1..][k - 1] == children[k];
        }
      }
    }
  }

  /** `item.children && item.children.some(child => isActive(child.path))`. */
  predicate HasActiveChild(pathname: string, item: NavItem)
  {
    item.children.Some? && AnyActive(pathname, item.children.value)
  }

  /** `isParentActive(item)`. */
  predicate IsParentActive(pathname: string, item: NavItem)
  {
    HasActiveChild(pathname, item) || IsActive(pathname, item.path)
  }

  /** A parent entry is highlighted exactly when its own path or the path of
      one of its children is active. */
  lemma IsParentActiveIff(pathname: string, item: NavItem)
    ensures IsParentActive(pathname, item) <==>
            || IsActive(pathname, item.path)
            || (item.children.Some? &&
                exists k :: 0 <= k < |item.children.value| && IsActive(pathname, item.children.value[k].path))
  {
    if item.children.Some? {
      AnyActiveIff(pathname, item.children.value);
    }
  }

  // ---------------------------------------------------------------------
  // Expanded entries

  /** `toggleExpanded(path)` on the list `expanded`: a present path is removed
      everywhere, an absent one is appended. */
  function Toggle(expanded: seq<string>, path: string): (r: seq<string>)
    ensures path in r <==> path !in expanded
    ensures forall p :: p != path ==> (p in r <==> p in expanded)
    ensures path !in expanded ==> r == expanded + [path]
    ensures path in expanded ==> IsSubsequence(r, expanded)
    ensures path in expanded ==> forall p :: p != path ==> multiset(r)[p] == multiset(expanded)[p]
  {
    if path in expanded then
      WithoutIsSubsequence(expanded, path);
      Without(expanded, path)
    else expanded + [path]
  }

  /** Toggling an absent path twice gives the list back. */
  lemma ToggleTwiceRestores(expanded: seq<string>, path: string)
    requires path !in expanded
    ensures Toggle(Toggle(expanded, path), path) == expanded
  {
    WithoutAppend(expanded, [path], path);
    WithoutAbsent(expanded, path);
    assert Without([path], path) == [];
  }

  /** Toggling a present path twice moves it to the end: on a list without
      duplicates the same paths remain, each once. */
  lemma ToggleTwiceSamePaths(expanded: seq<string>, path: string)
    requires NoDuplicates(expanded)
    ensures multiset(Toggle(Toggle(expanded, path), path)) == multiset(expanded)
  {
    if path !in expanded {
      ToggleTwiceRestores(expanded, path);
    } else {
      var once := Without(expanded, path);
      assert Toggle(expanded, path) == once;
      assert path !in once;
      assert Toggle(once, path) == once + [path];
      var i :| 0 <= i < |expanded| && expanded[i] == path;
      NoDuplicatesCountsOne(expanded, i);
      forall p
        ensures multiset(once + [path])[p] == multiset(expanded)[p]
      {
        if p == path {
          assert multiset(once)[p] == 0;
        }
      }
      assert multiset(once + [path]) == multiset(expanded);
    }
  }

  lemma NoDuplicatesCountsOne(s: seq<string>, i: nat)
    requires NoDuplicates(s) && i < |s|
    ensures multiset(s)[s[i]] == 1
  {
    var x := s[i];
    assert s == s[..i] + [x] + s[i + 1..];
    assert x !in s[..i] && x !in s[i + 1..];
    assert multiset(s) == multiset(s[..i]) + multiset{x} + multiset(s[i + 1..]);
  }

  /** Toggling keeps the expanded list free of duplicates. */
  lemma ToggleKeepsNoDuplicates(expanded: seq<string>, path: string)
    requires NoDuplicates(expanded)
    ensures NoDuplicates(Toggle(expanded, path))
  {
    if path in expanded {
      WithoutKeepsNoDuplicates(expanded, path);
    }
  }

  /** One step of the auto-expand loop: the parent's path is appended when
      one of its children is active and the path is not yet present. */
  function ExpandStep(expanded: seq<string>, item: NavItem, pathname: string): seq<string>
  {
    if HasActiveChild(pathname, item) && item.path !in expanded then expanded + [item.path] else expanded
  }

  /** The expanded list after the auto-expand effect has run over `items`
      in order; the effect only ever appends. */
  function AutoExpanded(expanded: seq<string>, items: seq<NavItem>, pathname: string): (r: seq<string>)
    ensures expanded <= r
    decreases |items|
  {
    if items == [] then expanded
    else ExpandStep(AutoExpanded(expanded, items[..|items| - 1], pathname), items[|items| - 1], pathname)
  }

  /** A path is expanded after the effect exactly when it was before or it is
      the path of an entry with an active child. */
  lemma {:induction false} AutoExpandedMembership(expanded: seq<string>, items: seq<NavItem>, pathname: string, p: string)
    ensures p in AutoExpanded(expanded, items, pathname) <==>
            p in expanded || exists k :: 0 <= k < |items| && HasActiveChild(pathname, items[k]) && items[k].path == p
    decreases |items|
  {
    if items != [] {
      var front := items[..|items| - 1];
      AutoExpandedMembership(expanded, front, pathname, p);
      if exists k :: 0 <= k < |front| && HasActiveChild(pathname, front[k]) && front[k].path == p {
        var k :| 0 <= k < |front| && HasActiveChild(pathname, front[k]) && front[k].path == p;
        assert items[k] == front[k];
      }
      if exists k :: 0 <= k < |items| && HasActiveChild(pathname, items[k]) && items[k].path == p {
        var k :| 0 <= k < |items| && HasActiveChild(pathname, items[k]) && items[k].path == p;
        if k < |front| {
          assert front[k] == items[k];
        }
      }
    }
  }

  lemma {:induction false} AutoExpandedKeepsNoDuplicates(expanded: seq<string>, items: seq<NavItem>, pathname: string)
    requires NoDuplicates(expanded)
    ensures NoDuplicates(AutoExpanded(expanded, items, pathname))
    decreases |items|
  {
    if items != [] {
      var prev := AutoExpanded(expanded, items[..|items| - 1], pathname);
      var item := items[|items| - 1];
      AutoExpandedKeepsNoDuplicates(expanded, items[..|items| - 1], pathname);
      if HasActiveChild(pathname, item) && item.path !in prev {
        AppendFreshKeepsNoDuplicates(prev, item.path);
      }
    }
  }

  /** When every parent with an active child is already expanded, the effect
      changes nothing. */
  lemma {:induction false} AutoExpandedUnchanged(expanded: seq<string>, items: seq<NavItem>, pathname: string)
    requires forall k :: 0 <= k < |items| && HasActiveChild(pathname, items[k]) ==> items[k].path in expanded
    ensures AutoExpanded(expanded, items, pathname) == expanded
    decreases |items|
  {
    if items != [] {
      AutoExpandedUnchanged(expanded, items[..|items| - 1], pathname);
    }
  }

  /** Running the effect twice for one location is the same as running it once. */
  lemma AutoExpandedIdempotent(expanded: seq<string>, items: seq<NavItem>, pathname: string)
    ensures AutoExpanded(AutoExpanded(expanded, items, pathname), items, pathname)
         == AutoExpanded(expanded, items, pathname)
  {
    var once := AutoExpanded(expanded, items, pathname);
    forall k | 0 <= k < |items| && HasActiveChild(pathname, items[k])
      ensures items[k].path in once
    {
      AutoExpandedMembership(expanded, items, pathname, items[k].path);
    }
    AutoExpandedUnchanged(once, items, pathname);
  }

  /** Opening the application at a student page expands "Students" only. */
  lemma OpenAtAddStudent()
    ensures AutoExpanded([], Navigation, "/students/add") == ["/students"]
  {
    var n := Navigation;
    var pn := "/students/add";
    StudentsHasActiveChild();
    LaterEntriesInactive();
    assert n[..2][..1] == n[..1] && n[..1][..0] == [];
    assert AutoExpanded([], n[..1], pn) == [];
    assert n[..2][1] == n[1];
    assert AutoExpanded([], n[..2], pn) == ["/students"];
    AutoExpandedUnchanged(["/students"], n[2..], pn);
    AutoExpandedSplit([], n[..2], n[2..], pn);
    assert n[..2] + n[2..] == n;
  }

  /** At "/students/add" the "Students" entry has an active child and the
      entry before it has none. */
  lemma StudentsHasActiveChild()
    ensures !HasActiveChild("/students/add", Navigation[0])
    ensures HasActiveChild("/students/add", Navigation[1])
  {
    assert IsActive("/students/add", Navigation[1].children.value[1].path);
  }

  /** No entry after "Students" has an active child at "/students/add": every
      other child path differs from it in its fourth character. */
  lemma LaterEntriesInactive()
    ensures forall k :: 2 <= k < |Navigation| ==> !HasActiveChild("/students/add", Navigation[k])
  {
    assert |Navigation| == 8;
    forall k | 2 <= k < |Navigation|
      ensures !HasActiveChild("/students/add", Navigation[k])
    {
      if k == 2 {
        StaffInactive();
      } else if k == 3 {
        FeesInactive();
      } else if k == 4 {
        ExpensesInactive();
      } else if k == 5 {
        ReportsInactive();
      } else if k == 7 {
        SettingsInactive();
      }
    }
  }

  lemma StaffInactive() ensures !HasActiveChild("/students/add", Navigation[2])
  {
    NoActiveChildIfAllDiffer("/students/add", Navigation[2], 3);
  }

  lemma FeesInactive() ensures !HasActiveChild("/students/add", Navigation[3])
  {
    NoActiveChildIfAllDiffer("/students/add", Navigation[3], 3);
  }

  lemma ExpensesInactive() ensures !HasActiveChild("/students/add", Navigation[4])
  {
    NoActiveChildIfAllDiffer("/students/add", Navigation[4], 3);
  }

  lemma ReportsInactive() ensures !HasActiveChild("/students/add", Navigation[5])
  {
    NoActiveChildIfAllDiffer("/students/add", Navigation[5], 3);
  }

  lemma SettingsInactive() ensures !HasActiveChild("/students/add", Navigation[7])
  {
    NoActiveChildIfAllDiffer("/students/add", Navigation[7], 3);
  }

  /** An entry none of whose children agrees with the location at index `i`
      has no active child. */
  lemma NoActiveChildIfAllDiffer(pathname: string, item: NavItem, i: nat)
    requires i < |pathname|
    requires item.children.Some? ==>
      forall j :: 0 <= j < |item.children.value| ==>
        i < |item.children.value[j].path| && item.children.value[j].path[i] != pathname[i]
    ensures !HasActiveChild(pathname, item)
  {
    if item.children.Some? {
      var cs := item.children.value;
      AnyActiveIff(pathname, cs);
      forall j | 0 <= j < |cs|
        ensures !IsActive(pathname, cs[j].path)
      {
        InactiveIfDiffersAt(pathname, cs[j].path, i);
      }
    }
  }

  /** A path that disagrees with the location at some shared index is not active. */
  lemma InactiveIfDiffersAt(pathname: string, path: string, i: nat)
    requires i < |pathname| && i < |path| && pathname[i] != path[i]
    ensures !IsActive(pathname, path)
  {
    IsActiveIffSegmentPrefix(pathname, path);
  }

  /** Running the effect over two lists in turn is running it over both. */
  lemma {:induction false} AutoExpandedSplit(expanded: seq<string>, a: seq<NavItem>, b: seq<NavItem>, pathname: string)
    ensures AutoExpanded(expanded, a + b, pathname) == AutoExpanded(AutoExpanded(expanded, a, pathname), b, pathname)
    decreases |b|
  {
    if b == [] {
      assert a + b == a;
    } else {
      AutoExpandedSplit(expanded, a, b[..|b| - 1], pathname);
      assert (a + b)[..|a + b| - 1] == a + b[..|b| - 1];
    }
  }

  // ---------------------------------------------------------------------
  // The component state

  /** The sidebar's state: the current location (from the router) and the
      list of expanded parent paths. */
  class SidebarState {
    var pathname: string
    var expandedItems: seq<string>

    ghost predicate Valid()
      reads this
    {
      NoDuplicates(expandedItems)
    }

    /** Mounting at `location`: an empty list, then the auto-expand effect. */
    constructor (location: string)
      ensures pathname == location
      ensures expandedItems == AutoExpanded([], Navigation, location)
      ensures Valid()
    {
      pathname := location;
      expandedItems := [];
      new;
      AutoExpand();
      AutoExpandedKeepsNoDuplicates([], Navigation, location);
    }

    /** The body of the auto-expand effect: for each navigation entry in
        turn, append its path when a child is active and it is absent. */
    method AutoExpand()
      modifies this
      ensures pathname == old(pathname)
      ensures expandedItems == AutoExpanded(old(expandedItems), Navigation, pathname)
    {
      var i := 0;
      while i < |Navigation|
        invariant 0 <= i <= |Navigation|
        invariant pathname == old(pathname)
        invariant expandedItems == AutoExpanded(old(expandedItems), Navigation[..i], pathname)
      {
        var item := Navigation[i];
        if item.children.Some? && AnyActive(pathname, item.children.value) {
          if item.path !in expandedItems {
            expandedItems := expandedItems + [item.path];
          }
        }
        assert Navigation[..i + 1][..i] == Navigation[..i];
        i := i + 1;
      }
      assert Navigation[..i] == Navigation;
    }

    /** `toggleExpanded(path)`. */
    method ToggleExpanded(path: string)
      modifies this
      ensures pathname == old(pathname)
      ensures expandedItems == Toggle(old(expandedItems), path)
      ensures old(Valid()) ==> Valid()
    {
      if old(Valid()) {
        ToggleKeepsNoDuplicates(expandedItems, path);
      }
      expandedItems := Toggle(expandedItems, path);
    }

    /** A click on a parent entry toggles it unless the sidebar is collapsed. */
    method ClickParent(item: NavItem, collapsed: bool)
      modifies this
      ensures pathname == old(pathname)
      ensures expandedItems == if collapsed then old(expandedItems) else Toggle(old(expandedItems), item.path)
      ensures old(Valid()) ==> Valid()
    {
      if !collapsed {
        ToggleExpanded(item.path);
      }
    }

    /** The children of a parent entry are listed when the sidebar is not
        collapsed and the parent's path is expanded. */
    function ChildrenShown(item: NavItem, collapsed: bool): bool
      reads this
    {
      !collapsed && item.children.Some? && item.path in expandedItems
    }

    /** The router moved to `location`; the effect runs again only when the
        location changed. */
    method Navigate(location: string)
      modifies this
      ensures pathname == location
      ensures expandedItems == if location == old(pathname) then old(expandedItems)
                               else AutoExpanded(old(expandedItems), Navigation, location)
      ensures location != old(pathname) ==>
                forall k :: 0 <= k < |Navigation| && HasActiveChild(location, Navigation[k]) ==>
                  ChildrenShown(Navigation[k], false)
      ensures old(Valid()) ==> Valid()
    {
      if location != pathname {
        pathname := location;
        ghost var before := expandedItems;
        AutoExpand();
        if NoDuplicates(before) {
          AutoExpandedKeepsNoDuplicates(before, Navigation, location);
        }
        forall k | 0 <= k < |Navigation| && HasActiveChild(location, Navigation[k])
          ensures Navigation[k].path in expandedItems
        {
          AutoExpandedMembership(before, Navigation, location, Navigation[k].path);
        }
      }
    }
  }
}
