/** `updateActiveNavLink`: highlight the navigation links that point at the
    current page. */
module NavLinks {
  import opened Values
  import opened Strings

  /** A `.nav-link`: its `href` attribute and its `active` class. */
  datatype NavLink = NavLink(href: Option<string>, active: bool)

  /** The last `/`-separated segment of the path, or `index.html` when that
      segment is empty. */
  function CurrentPage(pathname: string): (page: string)
    ensures page != ""
    ensures '/' !in page
  {
    SplitPiecesFree(pathname, '/');
    var segment := Last(Split(pathname, '/'));
    assert segment in Split(pathname, '/');
    if segment == "" then "index.html" else segment
  }

  /** The current page is the part of the path after its last `/` (the whole
      path when it has none), with `index.html` standing for an empty one. */
  lemma CurrentPageIsFileName(pathname: string)
    ensures var page := CurrentPage(pathname);
      pathname != [] && pathname[|pathname| - 1] != '/' ==>
        && |page| <= |pathname|
        && pathname[|pathname| - |page|..] == page
        && (|page| == |pathname| || pathname[|pathname| - |page| - 1] == '/')
    ensures pathname == [] || pathname[|pathname| - 1] == '/' ==> CurrentPage(pathname) == "index.html"
  {
    LastPieceIsSuffix(pathname, '/');
    LastPieceEmptyIff(pathname, '/');
  }

  /** A link is active iff it is a home link on the home page, or its `href`
      is present, non-empty and contains the current page's name. */
  predicate LinkIsActive(page: string, href: Option<string>)
  {
    || ((page == "index.html" || page == "") && (href == Some("index.html") || href == Some("/")))
    || (href.Some? && href.value != "" && Contains(href.value, page))
  }

  /** Away from the home page, a link is active exactly when the page's name
      occurs in its `href`; the `currentPage === ''` test never fires. */
  lemma ActiveIffNameOccurs(pathname: string, href: string)
    ensures var page := CurrentPage(pathname);
      page != "index.html" ==> (LinkIsActive(page, Some(href)) <==> exists i: nat :: OccursAt(href, page, i))
  {
    ContainsIffOccurs(href, CurrentPage(pathname));
  }

  /** On the home page both `index.html` and `/` links are active. */
  lemma HomeLinks(pathname: string)
    requires CurrentPage(pathname) == "index.html"
    ensures LinkIsActive(CurrentPage(pathname), Some("index.html"))
    ensures LinkIsActive(CurrentPage(pathname), Some("/"))
    ensures !LinkIsActive(CurrentPage(pathname), None)
  {
  }

  /** The loop over the links: clear `active`, then set it by the rule. */
  method UpdateActiveNavLink(links: array<NavLink>, pathname: string)
    modifies links
    ensures forall i :: 0 <= i < links.Length ==>
      links[i].href == old(links[i].href) &&
      (links[i].active <==> LinkIsActive(CurrentPage(pathname), links[i].href))
  {
    var page := CurrentPage(pathname);
    var i := 0;
    while i < links.Length
      invariant 0 <= i <= links.Length
      invariant forall k :: 0 <= k < i ==>
        links[k].href == old(links[k].href) && (links[k].active <==> LinkIsActive(page, links[k].href))
      invariant forall k :: i <= k < links.Length ==> links[k] == old(links[k])
    {
      var link := links[i].(active := false);
      var href := link.href;
      if (page == "index.html" || page == "") && (href == Some("index.html") || href == Some("/")) {
        link := link.(active := true);
      } else if href.Some? && href.value != "" && Contains(href.value, page) {
        link := link.(active := true);
      }
      links[i] := link;
      i := i + 1;
    }
  }
}
