/**
 * Page routing of the component builder: which page the current document is,
 * judged by substrings of its path, and what a click on a relative navigation
 * link does.
 */
module Routing {
  import opened Common
  import opened Text

  /** The pages that have their own components, in the order they are tested. */
  const PageNames: seq<string> := ["news", "contacts", "privacy", "cookies", "disclaimer"]

  /** The path fragment that identifies a page's document. */
  function Marker(page: string): string {
    "tung-" + page
  }

  /** `getCurrentPage`: the first page, in test order, whose marker occurs in the path,
      or "home" when none does. */
  function GetCurrentPage(path: string): (r: string)
    ensures r == "home" <==> forall k :: 0 <= k < |PageNames| ==> !Contains(path, Marker(PageNames[k]))
    ensures r != "home" ==>
              exists k :: 0 <= k < |PageNames| && r == PageNames[k] && Contains(path, Marker(PageNames[k]))
                          && forall j :: 0 <= j < k ==> !Contains(path, Marker(PageNames[j]))
  {
    MarkersSpelledOut();
    if Contains(path, "tung-news") then "news"
    else if Contains(path, "tung-contacts") then "contacts"
    else if Contains(path, "tung-privacy") then "privacy"
    else if Contains(path, "tung-cookies") then "cookies"
    else if Contains(path, "tung-disclaimer") then "disclaimer"
    else "home"
  }

  lemma MarkersSpelledOut()
    ensures |PageNames| == 5
    ensures Marker(PageNames[0]) == "tung-news" && Marker(PageNames[1]) == "tung-contacts"
    ensures Marker(PageNames[2]) == "tung-privacy" && Marker(PageNames[3]) == "tung-cookies"
    ensures Marker(PageNames[4]) == "tung-disclaimer"
  {
  }

  /** A path that names the news page is the news page, whatever else it names. */
  lemma NewsMarkerWins(path: string)
    requires Contains(path, "tung-news")
    ensures GetCurrentPage(path) == "news"
  {
  }

  /** What `navigateToPage` does. */
  datatype Navigation =
    | Stay                                   // the home page: nothing happens
    | Navigate(page: string, target: string) // `currentPage := page`, then load `target`

  /** The page name `navigateToPage` derives from a link: the first "./" and then the
      first ".html" are removed. */
  function PageOf(href: string): string {
    ReplaceFirst(ReplaceFirst(href, "./", ""), ".html", "")
  }

  /** `navigateToPage`: links to the index page (or to nothing) stay put; any other link
      records the derived page name and loads the link exactly as written. */
  function NavigateToPage(href: string): (r: Navigation)
    ensures r.Stay? <==> PageOf(href) in {"index", ""}
    ensures r.Navigate? ==> r.target == href && r.page == PageOf(href)
  {
    var page := PageOf(href);
    if page == "index" || page == "" then Stay else Navigate(page, href)
  }

  lemma StripLeadingDotSlash(rest: string)
    ensures ReplaceFirst("./" + rest, "./", "") == rest
  {
    var s := "./" + rest;
    assert FirstOccurrence(s, "./", 0);
    assert s[..0] + "" + s[2..] == rest;
  }

  lemma StripHtmlSuffix(p: string)
    requires '.' !in p
    ensures ReplaceFirst(p + ".html", ".html", "") == p
  {
    var t := p + ".html";
    assert OccursAt(t, ".html", |p|);
    forall k | 0 <= k < |p| ensures !OccursAt(t, ".html", k) {
      assert t[k] == p[k];
    }
    assert FirstOccurrence(t, ".html", |p|);
    assert t[..|p|] + "" + t[|p| + 5..] == p;
  }

  /** A relative link to a dot-free page name `p` yields exactly `p`. */
  lemma PageOfRelativeLink(p: string)
    requires '.' !in p
    ensures PageOf("./" + p + ".html") == p
  {
    assert "./" + p + ".html" == "./" + (p + ".html");
    StripLeadingDotSlash(p + ".html");
    StripHtmlSuffix(p);
  }

  /** So a link "./p.html" navigates to page `p`, unless `p` is "index" or empty. */
  lemma NavigateRelativeLink(p: string)
    requires '.' !in p
    ensures NavigateToPage("./" + p + ".html") ==
              if p == "index" || p == "" then Stay else Navigate(p, "./" + p + ".html")
  {
    PageOfRelativeLink(p);
  }

  /** The outcome of a click on a navigation link of a loaded component. */
  datatype LinkClick =
    | FollowedByBrowser        // the handler does not interfere
    | Handled(nav: Navigation) // default prevented, `navigateToPage(href)` called

  /** The click handler `setupComponentEvents` attaches: only links whose `href`
      attribute starts with "./" are routed through `navigateToPage`. */
  function OnNavLinkClick(href: Option<string>): (r: LinkClick)
    ensures r.Handled? <==> href.Some? && StartsWith(href.value, "./")
    ensures r.Handled? ==> r.nav == NavigateToPage(href.value)
  {
    if href.Some? && StartsWith(href.value, "./") then Handled(NavigateToPage(href.value))
    else FollowedByBrowser
  }
}
