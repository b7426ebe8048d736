/** The admin sidebar's navigation: which item is highlighted for the current path. */
module Sidebar {
  import Strings

  /** A navigation entry; its icon is left out. */
  datatype NavItem = NavItem(title: string, href: string)

  const DashboardHref: string := "/admin"

  const NavItems: seq<NavItem> := [
    NavItem("Dashboard", "/admin"),
    NavItem("Bài viết", "/admin/posts"),
    NavItem("Thẻ", "/admin/tags"),
    NavItem("Bình luận", "/admin/comments"),
    NavItem("Cài đặt", "/admin/settings")
  ]

  /**
   * `pathname === item.href || (item.href !== "/admin" && pathname.startsWith(item.href))`:
   * the dashboard item only on its own path, every other item on any path starting with
   * its href.
   */
  predicate IsActive(pathname: string, href: string) {
    pathname == href || (href != DashboardHref && Strings.StartsWith(pathname, href))
  }

  /**
   * An item is active on its own path; the dashboard item is active only there; any other
   * item is active exactly on the paths that start with its href.
   */
  lemma ActiveRules(pathname: string, href: string)
    ensures pathname == href ==> IsActive(pathname, href)
    ensures href == DashboardHref ==> (IsActive(pathname, href) <==> pathname == DashboardHref)
    ensures href != DashboardHref ==> (IsActive(pathname, href) <==> Strings.StartsWith(pathname, href))
  {
  }

  /** A sub-route of the posts page highlights the posts item, not the dashboard or the tags. */
  lemma SubRouteHighlightsSection()
    ensures IsActive("/admin/posts/new", "/admin/posts")
    ensures !IsActive("/admin/posts/new", "/admin")
    ensures !IsActive("/admin/posts/new", "/admin/tags")
  {
    assert "/admin/posts/new"[..|"/admin/posts"|] == "/admin/posts";
    assert "/admin/posts/new"[..|"/admin/tags"|] != "/admin/tags" by {
      assert "/admin/posts/new"[7] != "/admin/tags"[7];
    }
  }

  /**
   * The prefix test compares characters, not path segments: "/admin/postsX" highlights
   * the posts item.
   */
  lemma PrefixIsCharacterBased()
    ensures IsActive("/admin/postsX", "/admin/posts")
  {
    assert "/admin/postsX"[..|"/admin/posts"|] == "/admin/posts";
  }

  /** On each item's own page, that item and no other is highlighted. */
  lemma ExactlyOneItemForEachSection(i: nat)
    requires i < |NavItems|
    ensures forall j :: 0 <= j < |NavItems| ==> (IsActive(NavItems[i].href, NavItems[j].href) <==> i == j)
  {
    forall j | 0 <= j < |NavItems|
      ensures IsActive(NavItems[i].href, NavItems[j].href) <==> i == j
    {
      var a, b := NavItems[i].href, NavItems[j].href;
      if i != j && i != 0 && j != 0 {
        assert |a| > 7 && |b| > 7 && a[7] != b[7];
        if |b| <= |a| {
          assert a[..|b|][7] != b[7];
        }
      } else if i == 0 && j != 0 {
        assert |a| < |b|;
      }
    }
  }
}
