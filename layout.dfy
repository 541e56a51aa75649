/** The site header (Layout.jsx): four navigation entries, one of which is
    shown only to signed-in users, and the exact-match highlight. */
module Layout {
  datatype NavItem = NavItem(path: string, caption: string, requiresAuth: bool)

  const NavItems: seq<NavItem> := [
    NavItem("/", "홈", false),
    NavItem("/templates", "빙고 템플릿", false),
    NavItem("/boards", "내 빙고", true),
    NavItem("/leaderboard", "리더보드", false)
  ]

  /** The filter condition: entries without requiresAuth always pass. */
  predicate Shown(item: NavItem, isAuthenticated: bool) {
    !item.requiresAuth || isAuthenticated
  }

  /** Array.prototype.filter with the condition above, over any entry list. */
  function FilterShown(items: seq<NavItem>, isAuthenticated: bool): (r: seq<NavItem>)
    ensures |r| <= |items|
    ensures forall it :: it in r <==> it in items && Shown(it, isAuthenticated)
    ensures isAuthenticated ==> r == items
  {
    if items == [] then []
    else (if Shown(items[0], isAuthenticated) then [items[0]] else []) + FilterShown(items[1..], isAuthenticated)
  }

  /** filteredNavItems. */
  function FilteredNavItems(isAuthenticated: bool): seq<NavItem> {
    FilterShown(NavItems, isAuthenticated)
  }

  /** The active-entry test: an exact string comparison. */
  predicate IsHighlighted(pathname: string, item: NavItem) {
    pathname == item.path
  }

  /** Logged out the header shows home, templates and leaderboard, in that
      order; logged in it shows all four entries. */
  lemma FilteredExamples()
    ensures FilteredNavItems(false) == [NavItems[0], NavItems[1], NavItems[3]]
    ensures FilteredNavItems(true) == NavItems
    ensures |FilteredNavItems(false)| == 3 && |FilteredNavItems(true)| == 4
  {
    var items := NavItems;
    assert items[3..][1..] == [];
    assert items[2..][1..] == items[3..];
    assert items[1..][1..] == items[2..];
  }

  /** An entry of the header is shown iff it does not require sign-in or
      the user is signed in; so "/boards" appears only when signed in. */
  lemma ShownIff(item: NavItem, isAuthenticated: bool)
    requires item in NavItems
    ensures item in FilteredNavItems(isAuthenticated) <==> !item.requiresAuth || isAuthenticated
    ensures item.path == "/boards" ==> (item in FilteredNavItems(isAuthenticated) <==> isAuthenticated)
  {
  }

  /** The header paths are distinct, so at most one entry is highlighted. */
  lemma AtMostOneHighlighted(pathname: string, i: nat, j: nat)
    requires i < j < |NavItems|
    ensures !(IsHighlighted(pathname, NavItems[i]) && IsHighlighted(pathname, NavItems[j]))
  {
    assert NavItems[i].path != NavItems[j].path by {
      var items := NavItems;
      assert |items[0].path| == 1 && |items[1].path| == 10 && |items[2].path| == 7 && |items[3].path| == 12;
    }
  }

  /** Subpages do not highlight their section: "/boards/7" highlights no
      entry, unlike the prefix test of the admin sidebar. */
  lemma SubpageHighlightsNothing(k: nat)
    requires k < |NavItems|
    ensures !IsHighlighted("/boards/7", NavItems[k])
  {
    var items := NavItems;
    assert |items[0].path| == 1 && |items[1].path| == 10 && |items[2].path| == 7 && |items[3].path| == 12;
  }
}
