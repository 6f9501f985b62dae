/** The hash router of the site's pages (public/js/router.js): the route
    name taken from `location.hash`, the document title, and the `active`
    flag of every navigation link. */
module Router {
  import opened Wrappers
  import opened Text

  /** The route name (router.js:8): the hash with its first '#' removed, or
      "home" when nothing is left. */
  function RouteName(hash: string): (route: string)
    ensures route != []
  {
    var h := RemoveFirst(hash, '#');
    if h == [] then "home" else h
  }

  const FormTitle := "Form — Cognifyz Demo"
  const HomeTitle := "Cognifyz Internship — Home"

  /** The title for a route (router.js:11-12). */
  function Title(route: string): (title: string)
    ensures title == FormTitle <==> route == "form"
    ensures title == HomeTitle <==> route != "form"
  {
    if route == "form" then FormTitle else HomeTitle
  }

  /** The `active` flag of a link with attribute `href` (None when it has
      none): its href, or '', contains the route name, or the route is
      "home" and the href is exactly "/" (router.js:15). */
  predicate IsActive(href: Option<string>, route: string) {
    Includes(href.GetOr([]), route) || (route == "home" && href == Some("/"))
  }

  /** What a hash of the usual form "#name" routes to. */
  lemma RouteOfHash(x: string)
    ensures x != [] ==> RouteName("#" + x) == x
    ensures RouteName("") == "home" && RouteName("#") == "home"
  {
    if x != [] {
      assert IndexOf("#" + x, '#') == 0;
      assert ("#" + x)[1..] == x;
    }
    assert IndexOf("#", '#') == 0;
  }

  /** A link without an href is never active: the route name is never
      empty and the empty string contains only the empty string. */
  lemma NoHrefNeverActive(hash: string)
    ensures !IsActive(None, RouteName(hash))
  {
    var route := RouteName(hash);
    assert forall i: nat :: !OccursAt([], route, i);
  }

  /** On the home route the link to "/" is active, and a link is active on
      the form route exactly when its href contains "form". */
  lemma HomeAndFormLinks(href: Option<string>)
    ensures IsActive(Some("/"), RouteName(""))
    ensures IsActive(href, RouteName("#form")) <==> Includes(href.GetOr([]), "form")
  {
    RouteOfHash("form");
  }

  /** The document of a page: its route attribute, its title, and the links
      of its navigation bar with their `active` flags. */
  class Page {
    var route: string
    var title: string
    const hrefs: seq<Option<string>>
    const active: array<bool>

    ghost predicate Valid()
      reads this
    {
      active.Length == |hrefs|
    }

    constructor (links: seq<Option<string>>)
      ensures Valid() && hrefs == links && fresh(active)
    {
      hrefs := links;
      active := new bool[|links|];
      route, title := [], [];
    }

    /** `applyRoute()` (router.js:7-17): every link's flag is set to the
        predicate, whatever it was before. */
    method ApplyRoute(hash: string)
      requires Valid()
      modifies this, active
      ensures Valid()
      ensures route == RouteName(hash) && title == Title(route)
      ensures forall i :: 0 <= i < active.Length ==> active[i] == IsActive(hrefs[i], route)
    {
      var h := RemoveFirst(hash, '#');
      if h == [] {
        h := "home";
      }
      route := h;
      if h == "form" {
        title := FormTitle;
      } else {
        title := HomeTitle;
      }
      var i := 0;
      while i < active.Length
        invariant 0 <= i <= active.Length
        invariant route == h && title == Title(h)
        invariant forall k :: 0 <= k < i ==> active[k] == IsActive(hrefs[k], h)
      {
        active[i] := Includes(hrefs[i].GetOr([]), h) || (h == "home" && hrefs[i] == Some("/"));
        i := i + 1;
      }
    }
  }
}
