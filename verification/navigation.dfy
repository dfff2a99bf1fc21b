/** Role-based navigation in the desktop and mobile sidebars: which links a
    user sees and which one is highlighted. */
module Navigation {
  import opened Wrappers
  import Text
  import Sequences

  datatype Link = Link(href: string, title: string, adminOnly: bool)

  /** The desktop sidebar's links, in display order. */
  const SidebarLinks: seq<Link> := [
    Link("/dashboard", "Dashboard", true),
    Link("/inspections", "Inspections", false),
    Link("/templates", "Templates", false),
    Link("/customers", "Customers", true)
  ]

  /** The mobile sidebar's links: the same targets, with the inspections page titled differently. */
  const MobileLinks: seq<Link> := [
    Link("/dashboard", "Dashboard", true),
    Link("/inspections", "Sample Evaluation", false),
    Link("/templates", "Templates", false),
    Link("/customers", "Customers", true)
  ]

  /** The stored flag grants superuser rights only when it is exactly the string "true". */
  function IsSuperUser(stored: Option<string>): (r: bool)
    ensures r <==> stored == Some("true")
  {
    match stored
    case None => false
    case Some(s) => s == "true"
  }

  /** Whether a link is offered to a user with or without superuser rights. */
  function Offered(superUser: bool): Link -> bool {
    (l: Link) => superUser || !l.adminOnly
  }

  /** The links shown to a user: all of them for a superuser, else only those not reserved to admins. */
  function VisibleLinks(links: seq<Link>, superUser: bool): (r: seq<Link>)
    ensures forall l :: l in r <==> l in links && (superUser || !l.adminOnly)
    ensures |r| <= |links|
  {
    Sequences.Filter(links, Offered(superUser))
  }

  /** A superuser sees the whole list, unchanged. */
  lemma SuperUserSeesAll(links: seq<Link>)
    ensures VisibleLinks(links, true) == links
  {
    Sequences.FilterAllPass(links, Offered(true));
  }

  /** Filtering keeps the links in their original order. */
  lemma VisibleKeepsOrder(links: seq<Link>, superUser: bool)
    ensures Sequences.Subsequence(VisibleLinks(links, superUser), links)
  {
    Sequences.FilterKeepsOrder(links, Offered(superUser));
  }

  /** An admin-only link is shown only when the stored flag is exactly "true": spellings such as
      "True" or "1", and a missing flag, leave the user a regular user. */
  lemma AdminLinksNeedTrueFlag(links: seq<Link>, stored: Option<string>)
    ensures forall l :: l in VisibleLinks(links, IsSuperUser(stored)) && l.adminOnly ==> stored == Some("true")
    ensures stored != Some("true") ==> VisibleLinks(links, IsSuperUser(stored)) == VisibleLinks(links, false)
    ensures !IsSuperUser(Some("True")) && !IsSuperUser(Some("1")) && !IsSuperUser(None)
  {
  }

  function Hrefs(links: seq<Link>): (hs: seq<string>)
    ensures |hs| == |links| && forall i :: 0 <= i < |links| ==> hs[i] == links[i].href
  {
    seq(|links|, i requires 0 <= i < |links| => links[i].href)
  }

  /** Without superuser rights the desktop sidebar offers only inspections and templates. */
  lemma RegularUserSidebar()
    ensures Hrefs(VisibleLinks(SidebarLinks, false)) == ["/inspections", "/templates"]
  {
    var l := SidebarLinks;
    assert l[1..][1..][1..][1..] == [];
    assert VisibleLinks(l[1..][1..][1..], false) == [];
  }

  /** The mobile sidebar offers regular users the same pages. */
  lemma RegularUserMobileSidebar()
    ensures Hrefs(VisibleLinks(MobileLinks, false)) == ["/inspections", "/templates"]
  {
    var l := MobileLinks;
    assert l[1..][1..][1..][1..] == [];
    assert VisibleLinks(l[1..][1..][1..], false) == [];
  }

  lemma HrefsCons(l: Link, rest: seq<Link>)
    ensures Hrefs([l] + rest) == [l.href] + Hrefs(rest)
  {
  }

  /** Showing a table unfolds into its first link, if offered, followed by the rest shown. */
  lemma VisibleCons(links: seq<Link>, superUser: bool)
    requires |links| > 0
    ensures Hrefs(VisibleLinks(links, superUser)) ==
      (if Offered(superUser)(links[0]) then [links[0].href] else []) + Hrefs(VisibleLinks(links[1..], superUser))
  {
    var rest := VisibleLinks(links[1..], superUser);
    if Offered(superUser)(links[0]) {
      assert VisibleLinks(links, superUser) == [links[0]] + rest;
      HrefsCons(links[0], rest);
    } else {
      assert VisibleLinks(links, superUser) == rest;
      assert [] + Hrefs(rest) == Hrefs(rest);
    }
  }

  /** Two link tables with the same targets and the same admin flags show every user the same targets. */
  lemma {:induction false} SameTargets(a: seq<Link>, b: seq<Link>, superUser: bool)
    requires |a| == |b|
    requires forall i :: 0 <= i < |a| ==> a[i].href == b[i].href && a[i].adminOnly == b[i].adminOnly
    ensures Hrefs(VisibleLinks(a, superUser)) == Hrefs(VisibleLinks(b, superUser))
    decreases |a|
  {
    if |a| > 0 {
      assert forall i :: 0 <= i < |a| - 1 ==> a[1..][i] == a[i + 1] && b[1..][i] == b[i + 1];
      SameTargets(a[1..], b[1..], superUser);
      VisibleCons(a, superUser);
      VisibleCons(b, superUser);
    }
  }

  /** The desktop and mobile sidebars lead every user to the same pages in the same order. */
  lemma SidebarsAgree(superUser: bool)
    ensures Hrefs(VisibleLinks(MobileLinks, superUser)) == Hrefs(VisibleLinks(SidebarLinks, superUser))
  {
    SameTargets(MobileLinks, SidebarLinks, superUser);
  }

  /** A link is highlighted when the current path starts with its target. */
  predicate IsActive(pathname: string, href: string) {
    Text.StartsWith(pathname, href)
  }

  /** The highlight is a prefix test: a deeper page keeps its section lit, and so does any path extending the target. */
  lemma ActiveOnSubpages(href: string, rest: string)
    ensures IsActive(href + rest, href)
    ensures IsActive("/inspections-archive", "/inspections")
  {
    assert (href + rest)[..|href|] == href;
  }
}
