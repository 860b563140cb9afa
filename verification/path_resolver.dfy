/** `getNodePath`: a node's real output path is the url of the first built
    page whose url ends with the node's slug (ignoring ASCII case and one
    trailing slash on each side); without such a page it is the path prefix
    joined with the slug. */
module PathResolver {
  import opened JsValues
  import opened Text
  import opened Records

  /** What one iteration of the scan over the built pages decides. */
  datatype PageTest = Skip | Hit(url: string) | BadUrl

  /** The test `page.node && page.node.url && page.node.url.replace(/\/$/, "").match(slugRegex)`
      for a slug already stripped of its trailing slash. A truthy url that is
      not a string has no `replace` method: the scan throws there. */
  function TestPage(page: Edge, slug: string): PageTest {
    match page
    case None => Skip
    case Some(p) =>
      if !TruthyAt(p, "url") then Skip
      else if !p["url"].Str? then BadUrl
      else if EndsWithIgnoreCase(StripTrailingSlash(p["url"].s), slug) then Hit(p["url"].s)
      else Skip
  }

  /** The outcome of the `for ... break` scan: the first page that does not
      skip decides it; `Skip` when every page skips. */
  function ScanPages(pages: seq<Edge>, slug: string): PageTest {
    if pages == [] then Skip
    else
      match TestPage(pages[0], slug)
      case Skip => ScanPages(pages[1..], slug)
      case other => other
  }

  /** The scan's outcome is that of the first page that does not skip, and
      `Skip` exactly when every page skips: the first match wins ties. */
  lemma {:induction false} ScanFindsFirst(pages: seq<Edge>, slug: string)
    ensures ScanPages(pages, slug) == Skip <==> forall j :: 0 <= j < |pages| ==> TestPage(pages[j], slug) == Skip
    ensures ScanPages(pages, slug) != Skip ==>
      exists k :: 0 <= k < |pages| && TestPage(pages[k], slug) == ScanPages(pages, slug) &&
        forall j :: 0 <= j < k ==> TestPage(pages[j], slug) == Skip
  {
    if pages != [] {
      ScanFindsFirst(pages[1..], slug);
      assert forall j :: 0 < j < |pages| ==> pages[j] == pages[1..][j - 1];
      if TestPage(pages[0], slug) == Skip && ScanPages(pages, slug) != Skip {
        var k :| 0 <= k < |pages[1..]| && TestPage(pages[1..][k], slug) == ScanPages(pages, slug) &&
          forall j :: 0 <= j < k ==> TestPage(pages[1..][j], slug) == Skip;
        assert TestPage(pages[k + 1], slug) == ScanPages(pages, slug);
      }
    }
  }

  /** The value `getNodePath` gives a node: unchanged without a truthy slug;
      a TypeError for a slug that is not a string, or when the scan meets a
      non-string url before a match; otherwise the node with `path` set. */
  function ResolvePath(node: Dict, pages: seq<Edge>, pathPrefix: string, join: (string, string) -> string): (r: Result<Dict>)
    ensures !TruthyAt(node, "slug") ==> r == Ok(node)
    ensures TruthyAt(node, "slug") && !node["slug"].Str? ==> r == Throw(TypeError)
    ensures r.Ok? && TruthyAt(node, "slug") ==>
      "path" in r.value && r.value["path"].Str? && r.value == node["path" := r.value["path"]]
  {
    if !TruthyAt(node, "slug") then Ok(node)
    else if !node["slug"].Str? then Throw(TypeError)
    else
      var slug := node["slug"].s;
      match ScanPages(pages, StripTrailingSlash(slug))
      case Skip => Ok(node["path" := Str(join(pathPrefix, slug))])
      case Hit(url) => Ok(node["path" := Str(url)])
      case BadUrl => Throw(TypeError)
  }

  /** `getNodePath(node, allSitePage, pathPrefix)`, with its scan over the
      built pages and its early `break`. */
  method GetNodePath(node: Dict, pages: seq<Edge>, pathPrefix: string, join: (string, string) -> string)
    returns (r: Result<Dict>)
    ensures r == ResolvePath(node, pages, pathPrefix, join)
  {
    if !TruthyAt(node, "slug") {
      return Ok(node);
    }
    if !node["slug"].Str? {
      return Throw(TypeError);
    }
    var slug := StripTrailingSlash(node["slug"].s);
    var n := node["path" := Str(join(pathPrefix, node["slug"].s))];
    var i := 0;
    while i < |pages|
      invariant 0 <= i <= |pages|
      invariant ScanPages(pages, slug) == ScanPages(pages[i..], slug)
      invariant n == node["path" := Str(join(pathPrefix, node["slug"].s))]
    {
      var page := pages[i];
      if page.Some? && TruthyAt(page.value, "url") {
        if !page.value["url"].Str? {
          return Throw(TypeError);
        }
        var url := page.value["url"].s;
        if EndsWithIgnoreCase(StripTrailingSlash(url), slug) {
          assert pages[i..][0] == page && TestPage(page, slug) == Hit(url);
          assert ScanPages(pages, slug) == Hit(url);
          n := n["path" := Str(url)];
          assert n == node["path" := Str(url)];
          return Ok(n);
        }
      }
      assert pages[i..][1..] == pages[i + 1..];
      i := i + 1;
    }
    return Ok(n);
  }

  /** Tie-break rule: the first built page that matches gives the path, as
      long as no earlier page made the scan throw. */
  lemma FirstMatchWins(node: Dict, pages: seq<Edge>, pathPrefix: string, join: (string, string) -> string, k: nat, url: string)
    requires TruthyAt(node, "slug") && node["slug"].Str?
    requires k < |pages| && TestPage(pages[k], StripTrailingSlash(node["slug"].s)) == Hit(url)
    requires forall j :: 0 <= j < k ==> TestPage(pages[j], StripTrailingSlash(node["slug"].s)) == Skip
    ensures ResolvePath(node, pages, pathPrefix, join) == Ok(node["path" := Str(url)])
  {
    var slug := StripTrailingSlash(node["slug"].s);
    ScanFindsFirst(pages, slug);
    var k' :| 0 <= k' < |pages| && TestPage(pages[k'], slug) == ScanPages(pages, slug) &&
      forall j :: 0 <= j < k' ==> TestPage(pages[j], slug) == Skip;
    assert k' == k;
  }

  /** A built page with a truthy url that is not a string, met before any
      match, makes the scan throw a TypeError: its url has no `replace`. */
  lemma BadUrlThrows(node: Dict, pages: seq<Edge>, pathPrefix: string, join: (string, string) -> string, k: nat)
    requires TruthyAt(node, "slug") && node["slug"].Str?
    requires k < |pages| && TestPage(pages[k], StripTrailingSlash(node["slug"].s)) == BadUrl
    requires forall j :: 0 <= j < k ==> TestPage(pages[j], StripTrailingSlash(node["slug"].s)) == Skip
    ensures ResolvePath(node, pages, pathPrefix, join) == Throw(TypeError)
  {
    var slug := StripTrailingSlash(node["slug"].s);
    ScanFindsFirst(pages, slug);
    var k' :| 0 <= k' < |pages| && TestPage(pages[k'], slug) == ScanPages(pages, slug) &&
      forall j :: 0 <= j < k' ==> TestPage(pages[j], slug) == Skip;
    assert k' == k;
  }

  /** Fallback: when no built page matches (and none makes the scan throw),
      the path is `path.join(pathPrefix, slug)`. */
  lemma NoMatchJoinsPrefix(node: Dict, pages: seq<Edge>, pathPrefix: string, join: (string, string) -> string)
    requires TruthyAt(node, "slug") && node["slug"].Str?
    requires forall j :: 0 <= j < |pages| ==> TestPage(pages[j], StripTrailingSlash(node["slug"].s)) == Skip
    ensures ResolvePath(node, pages, pathPrefix, join) == Ok(node["path" := Str(join(pathPrefix, node["slug"].s))])
  {
    ScanFindsFirst(pages, StripTrailingSlash(node["slug"].s));
  }

  /** The slug "/" strips to the empty string, which every url ends with: it
      takes the url of the first built page that has a truthy string url. */
  lemma RootSlugTakesFirstUrl(node: Dict, pages: seq<Edge>, pathPrefix: string, join: (string, string) -> string, k: nat)
    requires "slug" in node && node["slug"] == Str("/")
    requires k < |pages| && pages[k].Some? && GetString(pages[k].value, "url").Some?
    requires GetString(pages[k].value, "url").value != ""
    requires forall j :: 0 <= j < k ==> pages[j].None? || !TruthyAt(pages[j].value, "url")
    ensures ResolvePath(node, pages, pathPrefix, join) == Ok(node["path" := Str(pages[k].value["url"].s)])
  {
    var url := pages[k].value["url"].s;
    SuffixMatches(StripTrailingSlash(url), "", StripTrailingSlash(url));
    FirstMatchWins(node, pages, pathPrefix, join, k, url);
  }

  /** The match is on the url's end, not anywhere in it: the built page
      "/about-us/" does not end with the slug "/about/", so the node falls
      back to the joined path. */
  lemma SuffixIsNotSubstring(pathPrefix: string, join: (string, string) -> string)
    ensures var node := map["slug" := Str("/about/")];
      ResolvePath(node, [Some(map["url" := Str("/about-us/")])], pathPrefix, join) ==
      Ok(node["path" := Str(join(pathPrefix, "/about/"))])
  {
    var page: Edge := Some(map["url" := Str("/about-us/")]);
    var u := StripTrailingSlash("/about-us/");
    assert u == "/about-us";
    assert StripTrailingSlash("/about/") == "/about";
    assert u[|u| - 6..] == "out-us";
    assert Lower("out-us")[0] == 'o' != Lower("/about")[0];
    assert !EndsWithIgnoreCase(u, "/about");
    assert TestPage(page, "/about") == Skip;
    assert [page][1..] == [];
  }
}
