/** The admin sidebar (AdminLayout.jsx): four fixed entries, and which of
    them is highlighted for the current pathname. */
module AdminLayout {
  datatype AdminNavItem = AdminNavItem(path: string, caption: string, icon: string)

  const Dashboard: string := "/admin"

  const AdminNavItems: seq<AdminNavItem> := [
    AdminNavItem("/admin", "대시보드", "home"),
    AdminNavItem("/admin/restaurants", "식당 관리", "store"),
    AdminNavItem("/admin/templates", "템플릿 관리", "grid"),
    AdminNavItem("/admin/categories", "카테고리 관리", "tag")
  ]

  /** String.prototype.startsWith. */
  predicate StartsWith(s: string, prefix: string) {
    |prefix| <= |s| && s[..|prefix|] == prefix
  }

  /** isActive: the dashboard needs an exact match; every other entry is
      active on any pathname that starts with its path. */
  predicate IsActive(pathname: string, path: string) {
    if path == Dashboard then pathname == Dashboard else StartsWith(pathname, path)
  }

  /** The paths of the entries active on `pathname`, in sidebar order. */
  function ActivePaths(pathname: string, items: seq<AdminNavItem>): (r: seq<string>)
    ensures |r| <= |items|
    ensures forall p :: p in r <==> exists i :: 0 <= i < |items| && items[i].path == p && IsActive(pathname, p)
  {
    if items == [] then []
    else (if IsActive(pathname, items[0].path) then [items[0].path] else []) + ActivePaths(pathname, items[1..])
  }

  /** The sidebar holds the four entries in the order dashboard,
      restaurants, templates, categories. */
  lemma FourEntries()
    ensures |AdminNavItems| == 4
    ensures AdminNavItems[0].icon == "home" && AdminNavItems[1].icon == "store"
    ensures AdminNavItems[2].icon == "grid" && AdminNavItems[3].icon == "tag"
    ensures forall i :: 1 <= i < 4 ==> StartsWith(AdminNavItems[i].path, Dashboard)
  {
  }

  /** The dashboard entry is active exactly on "/admin" itself. */
  lemma DashboardExactOnly(pathname: string)
    ensures IsActive(pathname, AdminNavItems[0].path) <==> pathname == "/admin"
  {
  }

  /** On any subpage of "/admin" the dashboard entry is not active. */
  lemma SubpageNotDashboard(pathname: string)
    requires StartsWith(pathname, "/admin/")
    ensures !IsActive(pathname, Dashboard)
  {
    assert |pathname| > |Dashboard|;
  }

  /** A template's edit page highlights the templates entry and nothing else. */
  lemma TemplateEditPageExample()
    ensures ActivePaths("/admin/templates/3", AdminNavItems) == ["/admin/templates"]
  {
    var pathname := "/admin/templates/3";
    var items := AdminNavItems;
    assert pathname != Dashboard;
    assert pathname[7] == 't';
    assert !StartsWith(pathname, items[1].path) by {
      assert items[1].path[7] == 'r';
    }
    assert StartsWith(pathname, items[2].path);
    assert !StartsWith(pathname, items[3].path) by {
      assert items[3].path[7] == 'c';
    }
    NoneActive(pathname, items[3..]);
    assert ActivePaths(pathname, items[2..]) == ["/admin/templates"] by {
      assert items[2..][1..] == items[3..];
    }
    assert items[1..][1..] == items[2..];
  }

  /** The prefix test is on characters, not path segments: a pathname that
      merely extends an entry's last segment still activates that entry. */
  lemma NotSegmentAwareExample()
    ensures IsActive("/admin/templatesarchive", "/admin/templates")
  {
  }

  /** A prefix of a string determines which shorter prefixes it has. */
  lemma PrefixOfPrefix(s: string, p: string, q: string)
    requires StartsWith(s, p) && StartsWith(s, q) && |p| <= |q|
    ensures StartsWith(q, p)
  {
    assert q[..|p|] == s[..|q|][..|p|];
  }

  /** With no entry active the active list is empty. */
  lemma {:induction false} NoneActive(pathname: string, items: seq<AdminNavItem>)
    requires forall k :: 0 <= k < |items| ==> !IsActive(pathname, items[k].path)
    ensures ActivePaths(pathname, items) == []
  {
    if items != [] {
      NoneActive(pathname, items[1..]);
    }
  }

  /** When no two entries are active together, the active list has at most
      one path. */
  lemma {:induction false} ExclusiveActive(pathname: string, items: seq<AdminNavItem>)
    requires forall i, j :: 0 <= i < j < |items| ==> !(IsActive(pathname, items[i].path) && IsActive(pathname, items[j].path))
    ensures |ActivePaths(pathname, items)| <= 1
  {
    if items != [] {
      var rest := items[1..];
      if IsActive(pathname, items[0].path) {
        forall k | 0 <= k < |rest| ensures !IsActive(pathname, rest[k].path) {
          assert rest[k] == items[k + 1];
        }
        NoneActive(pathname, rest);
      } else {
        ExclusiveActive(pathname, rest);
      }
    }
  }

  /** Among the entries below the dashboard, no path starts with another. */
  lemma SectionPathsUnrelated()
    ensures forall i, j :: 1 <= i < 4 && 1 <= j < 4 && i != j ==> !StartsWith(AdminNavItems[j].path, AdminNavItems[i].path)
  {
    var items := AdminNavItems;
    forall i, j | 1 <= i < 4 && 1 <= j < 4 && i != j
      ensures !StartsWith(items[j].path, items[i].path)
    {
      var p, q := items[i].path, items[j].path;
      assert |p| > 7 && |q| > 7 && p[7] != q[7];
      if |p| <= |q| {
        assert q[..|p|][7] == q[7];
      }
    }
  }

  /** No entry's path is a prefix of another's, so at most one entry is
      active on any pathname. */
  lemma AtMostOneActive(pathname: string)
    ensures |ActivePaths(pathname, AdminNavItems)| <= 1
  {
    var items := AdminNavItems;
    SectionPathsUnrelated();
    forall i, j | 0 <= i < j < 4
      ensures !(IsActive(pathname, items[i].path) && IsActive(pathname, items[j].path))
    {
      var p, q := items[i].path, items[j].path;
      if IsActive(pathname, p) && IsActive(pathname, q) {
        if i == 0 {
          assert false;
        } else if |p| <= |q| {
          PrefixOfPrefix(pathname, p, q);
        } else {
          PrefixOfPrefix(pathname, q, p);
        }
      }
    }
    ExclusiveActive(pathname, items);
  }
}
