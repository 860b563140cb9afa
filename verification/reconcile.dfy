/** `addPageNodes` and the final `_.merge` of `serialize`: every built page
    that no source entry claims (no entry's `node.path` is `===` to its url)
    gets an entry in a `pages` list, and that list is merged into the source
    buckets. */
module Reconcile {
  import opened JsValues
  import opened Records

  /** `node.url === fetchedNode.node.path` for some entry of some bucket. */
  predicate Claimed(parsed: Buckets, page: Dict) {
    exists b, k :: b in parsed.entries && 0 <= k < |parsed.entries[b]| &&
      StrictEquals(Get(page, "url"), Get(parsed.entries[b][k].node, "path"))
  }

  /** A built page that is claimed (a null page never is). */
  predicate ClaimedEdge(parsed: Buckets, page: Edge) {
    page.Some? && Claimed(parsed, page.value)
  }

  /** The claimed pages (`usedNodes`), in order. */
  function ClaimedPages(parsed: Buckets, pages: seq<Edge>): (r: seq<Edge>)
    ensures forall e :: e in r <==> e in pages && ClaimedEdge(parsed, e)
    ensures forall e :: multiset(r)[e] == if ClaimedEdge(parsed, e) then multiset(pages)[e] else 0
  {
    if pages == [] then []
    else
      var init := ClaimedPages(parsed, pages[..|pages| - 1]);
      var last := pages[|pages| - 1];
      assert pages == pages[..|pages| - 1] + [last];
      if ClaimedEdge(parsed, last) then init + [last] else init
  }

  /** The pages no entry claims, in order. */
  function UnclaimedEdges(parsed: Buckets, pages: seq<Edge>): (r: seq<Edge>)
    ensures forall e :: e in r <==> e in pages && !ClaimedEdge(parsed, e)
    ensures forall e :: multiset(r)[e] == if ClaimedEdge(parsed, e) then 0 else multiset(pages)[e]
  {
    if pages == [] then []
    else
      var rest := UnclaimedEdges(parsed, pages[1..]);
      assert pages == [pages[0]] + pages[1..];
      if ClaimedEdge(parsed, pages[0]) then rest else [pages[0]] + rest
  }

  /** With no bucket at all, no page is claimed: every page is unclaimed, in
      order. */
  lemma {:induction false} NoneClaimed(pages: seq<Edge>)
    ensures UnclaimedEdges(NoBuckets, pages) == pages
  {
    if pages != [] {
      assert !ClaimedEdge(NoBuckets, pages[0]);
      NoneClaimed(pages[1..]);
      assert UnclaimedEdges(NoBuckets, pages) == [pages[0]] + pages[1..];
    }
  }

  /** `_.difference(xs, values)`: the elements of `xs` that do not occur in
      `values`, in order. */
  function Difference<T(==)>(xs: seq<T>, values: seq<T>): seq<T> {
    if xs == [] then []
    else (if xs[0] in values then [] else [xs[0]]) + Difference(xs[1..], values)
  }

  /** Removing the claimed pages from all pages leaves exactly the unclaimed
      ones, in order. */
  lemma {:induction false} DifferenceIsUnclaimed(parsed: Buckets, pages: seq<Edge>, used: seq<Edge>)
    requires forall e :: e in pages ==> (e in used <==> ClaimedEdge(parsed, e))
    ensures Difference(pages, used) == UnclaimedEdges(parsed, pages)
  {
    if pages != [] {
      assert forall e :: e in pages[1..] ==> e in pages;
      DifferenceIsUnclaimed(parsed, pages[1..], used);
    }
  }

  /** `usedNodes` and `remainingNodes` partition the built pages. */
  lemma UsedAndRemainingPartition(parsed: Buckets, pages: seq<Edge>)
    ensures multiset(pages) == multiset(ClaimedPages(parsed, pages)) + multiset(UnclaimedEdges(parsed, pages))
  {
    var claimed, unclaimed := ClaimedPages(parsed, pages), UnclaimedEdges(parsed, pages);
    assert forall e :: multiset(pages)[e] == multiset(claimed)[e] + multiset(unclaimed)[e];
  }

  /** The entry for one built page: none for a claimed page, `{ url:
      url.resolve(siteUrl, node.url), node }` otherwise. A null page throws
      (reading `url` of null), and so does `url.resolve` on a url that is not
      a string. */
  function PageEntry(parsed: Buckets, page: Edge, siteUrl: string, resolve: (string, string) -> string): Result<seq<Entry>> {
    match page
    case None => Throw(TypeError)
    case Some(node) =>
      if Claimed(parsed, node) then Ok([])
      else
        match GetString(node, "url")
        case None => Throw(TypeError)
        case Some(url) => Ok([Entry(resolve(siteUrl, url), node)])
  }

  /** The `pages` list `addPageNodes` returns, page by page. */
  function UnclaimedPages(parsed: Buckets, pages: seq<Edge>, siteUrl: string, resolve: (string, string) -> string): Result<seq<Entry>> {
    if pages == [] then Ok([])
    else
      var here :- PageEntry(parsed, pages[0], siteUrl, resolve);
      var rest :- UnclaimedPages(parsed, pages[1..], siteUrl, resolve);
      Ok(here + rest)
  }

  /** `xs` followed by the list in `r`, or the error of `r`. */
  function Prepend(xs: seq<Entry>, r: Result<seq<Entry>>): Result<seq<Entry>> {
    match r
    case Ok(ys) => Ok(xs + ys)
    case Throw(e) => Throw(e)
  }

  /** The reconciliation throws exactly when some built page is null or is an
      unclaimed page whose url is not a string, and then with a TypeError. */
  lemma {:induction false} UnclaimedPagesThrows(parsed: Buckets, pages: seq<Edge>, siteUrl: string, resolve: (string, string) -> string)
    ensures UnclaimedPages(parsed, pages, siteUrl, resolve).Throw? <==>
      exists i :: 0 <= i < |pages| && PageEntry(parsed, pages[i], siteUrl, resolve).Throw?
    ensures UnclaimedPages(parsed, pages, siteUrl, resolve).Throw? ==>
      UnclaimedPages(parsed, pages, siteUrl, resolve).error == TypeError
  {
    if pages != [] {
      UnclaimedPagesThrows(parsed, pages[1..], siteUrl, resolve);
      assert forall i :: 0 < i < |pages| ==> pages[i] == pages[1..][i - 1];
    }
  }

  /** Claimed pages contribute nothing: the list is the same when computed
      from the unclaimed pages only. */
  lemma {:induction false} OnlyUnclaimedContribute(parsed: Buckets, pages: seq<Edge>, siteUrl: string, resolve: (string, string) -> string)
    ensures UnclaimedPages(parsed, pages, siteUrl, resolve) == UnclaimedPages(parsed, UnclaimedEdges(parsed, pages), siteUrl, resolve)
  {
    if pages != [] {
      var rest := UnclaimedEdges(parsed, pages[1..]);
      OnlyUnclaimedContribute(parsed, pages[1..], siteUrl, resolve);
      if ClaimedEdge(parsed, pages[0]) {
        assert PageEntry(parsed, pages[0], siteUrl, resolve) == Ok([]);
        assert UnclaimedEdges(parsed, pages) == rest;
        match UnclaimedPages(parsed, pages[1..], siteUrl, resolve)
        case Ok(es) => assert [] + es == es;
        case Throw(_) =>
      } else {
        var un := [pages[0]] + rest;
        assert UnclaimedEdges(parsed, pages) == un;
        assert un[0] == pages[0] && un[1..] == rest;
      }
    }
  }

  /** `e` is the entry of an unclaimed page: its url is the site URL resolved
      against the page's string url. */
  predicate PageOf(parsed: Buckets, e: Entry, siteUrl: string, resolve: (string, string) -> string) {
    GetString(e.node, "url").Some? && e.url == resolve(siteUrl, e.node["url"].s) && !Claimed(parsed, e.node)
  }

  /** The list holds exactly one entry per unclaimed page, in built-page
      order, whose url is the site URL resolved against the page's url. */
  lemma {:induction false} OneEntryPerUnclaimedPage(parsed: Buckets, pages: seq<Edge>, siteUrl: string, resolve: (string, string) -> string)
    requires UnclaimedPages(parsed, pages, siteUrl, resolve).Ok?
    ensures ListsUnclaimed(parsed, UnclaimedPages(parsed, pages, siteUrl, resolve).value, UnclaimedEdges(parsed, pages), siteUrl, resolve)
  {
    if pages != [] {
      OneEntryPerUnclaimedPage(parsed, pages[1..], siteUrl, resolve);
      var here := PageEntry(parsed, pages[0], siteUrl, resolve).value;
      var es', un' := UnclaimedPages(parsed, pages[1..], siteUrl, resolve).value, UnclaimedEdges(parsed, pages[1..]);
      assert UnclaimedPages(parsed, pages, siteUrl, resolve).value == here + es';
      if ClaimedEdge(parsed, pages[0]) {
        assert here == [] && UnclaimedEdges(parsed, pages) == un';
        assert here + es' == es';
      } else {
        assert UnclaimedEdges(parsed, pages) == [pages[0]] + un';
        ListsUnclaimedCons(parsed, here, es', pages[0], un', siteUrl, resolve);
      }
    }
  }

  /** `es` lists the unclaimed pages `un` index by index. */
  predicate ListsUnclaimed(parsed: Buckets, es: seq<Entry>, un: seq<Edge>, siteUrl: string, resolve: (string, string) -> string) {
    |es| == |un| &&
    forall k :: 0 <= k < |es| ==> un[k] == Some(es[k].node) && PageOf(parsed, es[k], siteUrl, resolve)
  }

  /** The entry of one more unclaimed page in front of a list. */
  lemma ListsUnclaimedCons(parsed: Buckets, here: seq<Entry>, es: seq<Entry>, page: Edge, un: seq<Edge>, siteUrl: string, resolve: (string, string) -> string)
    requires ListsUnclaimed(parsed, es, un, siteUrl, resolve)
    requires !ClaimedEdge(parsed, page) && PageEntry(parsed, page, siteUrl, resolve) == Ok(here)
    ensures ListsUnclaimed(parsed, here + es, [page] + un, siteUrl, resolve)
  {
    var node := page.value;
    assert here == [Entry(resolve(siteUrl, node["url"].s), node)];
    assert PageOf(parsed, here[0], siteUrl, resolve);
    var es2, un2 := here + es, [page] + un;
    assert forall k :: 0 < k < |es2| ==> es2[k] == es[k - 1] && un2[k] == un[k - 1];
  }

  /** Reconciliation invariant: every built page is claimed by a source
      entry or has an entry of its own in the list, whose url is the site URL
      resolved against the page's url. */
  lemma EveryPageRepresented(parsed: Buckets, pages: seq<Edge>, siteUrl: string, resolve: (string, string) -> string, i: nat)
    requires UnclaimedPages(parsed, pages, siteUrl, resolve).Ok? && i < |pages|
    ensures pages[i].Some?
    ensures Claimed(parsed, pages[i].value) ||
      exists k :: 0 <= k < |UnclaimedPages(parsed, pages, siteUrl, resolve).value| &&
        UnclaimedPages(parsed, pages, siteUrl, resolve).value[k].node == pages[i].value &&
        PageOf(parsed, UnclaimedPages(parsed, pages, siteUrl, resolve).value[k], siteUrl, resolve)
  {
    UnclaimedPagesThrows(parsed, pages, siteUrl, resolve);
    OneEntryPerUnclaimedPage(parsed, pages, siteUrl, resolve);
    var es, un := UnclaimedPages(parsed, pages, siteUrl, resolve).value, UnclaimedEdges(parsed, pages);
    assert ListsUnclaimed(parsed, es, un, siteUrl, resolve);
    if !Claimed(parsed, pages[i].value) {
      assert pages[i] in un;
      var k :| 0 <= k < |un| && un[k] == pages[i];
      assert es[k].node == pages[i].value && PageOf(parsed, es[k], siteUrl, resolve);
    }
  }

  /** Some entry of `entries` claims `page`. */
  predicate ClaimedBy(page: Edge, entries: seq<Entry>) {
    page.Some? && exists k :: 0 <= k < |entries| && StrictEquals(Get(page.value, "url"), Get(entries[k].node, "path"))
  }

  /** Some entry of a bucket named in `names` claims `page`. */
  predicate ClaimedIn(page: Edge, parsed: Buckets, names: seq<string>) {
    exists b :: b in names && b in parsed.entries && ClaimedBy(page, parsed.entries[b])
  }

  /** Scanning the buckets in name order finds a claim exactly when there is
      one. */
  lemma ClaimedInAllBuckets(page: Edge, parsed: Buckets)
    requires parsed.Valid()
    ensures ClaimedIn(page, parsed, parsed.names) <==> ClaimedEdge(parsed, page)
  {
    if ClaimedEdge(parsed, page) {
      var b, k :| b in parsed.entries && 0 <= k < |parsed.entries[b]| &&
        StrictEquals(Get(page.value, "url"), Get(parsed.entries[b][k].node, "path"));
      assert b in parsed.names && ClaimedBy(page, parsed.entries[b]);
    }
  }

  /** The `usedNodes` filter callback for one built page: a scan over every
      entry of every bucket that sets `foundOne` on a claim. Reading `url` of
      a null page throws, but only once there is an entry to compare with. */
  method ClaimScan(parsed: Buckets, page: Edge) returns (r: Result<bool>)
    requires parsed.Valid()
    ensures r.Ok? ==> r.value == ClaimedEdge(parsed, page)
    ensures r.Throw? ==> page.None? && r.error == TypeError
  {
    var foundOne := false;
    var t := 0;
    while t < |parsed.names|
      invariant 0 <= t <= |parsed.names|
      invariant foundOne <==> ClaimedIn(page, parsed, parsed.names[..t])
    {
      var b := parsed.names[t];
      var fetched := parsed.entries[b];
      var k := 0;
      while k < |fetched|
        invariant 0 <= k <= |fetched|
        invariant foundOne <==> ClaimedIn(page, parsed, parsed.names[..t]) || ClaimedBy(page, fetched[..k])
      {
        if page.None? {
          return Throw(TypeError);
        }
        if StrictEquals(Get(page.value, "url"), Get(fetched[k].node, "path")) {
          foundOne := true;
        }
        assert fetched[..k + 1][k] == fetched[k];
        assert forall k' :: 0 <= k' < k ==> fetched[..k + 1][k'] == fetched[..k][k'];
        k := k + 1;
      }
      assert fetched[..k] == fetched;
      assert forall b' :: b' in parsed.names[..t + 1] <==> b' in parsed.names[..t] || b' == b;
      t := t + 1;
    }
    assert parsed.names[..t] == parsed.names;
    ClaimedInAllBuckets(page, parsed);
    return Ok(foundOne);
  }

  /** `allSiteNodes.filter(...)`: the claimed pages, or the TypeError of the
      first null page when there is an entry to compare with. */
  method UsedNodes(parsed: Buckets, pages: seq<Edge>) returns (r: Result<seq<Edge>>)
    requires parsed.Valid()
    ensures r.Ok? ==> r.value == ClaimedPages(parsed, pages)
    ensures r.Throw? ==> r.error == TypeError && exists i :: 0 <= i < |pages| && pages[i].None?
  {
    var used: seq<Edge> := [];
    var i := 0;
    while i < |pages|
      invariant 0 <= i <= |pages|
      invariant used == ClaimedPages(parsed, pages[..i])
    {
      var claimed := ClaimScan(parsed, pages[i]);
      if claimed.Throw? {
        return Throw(TypeError);
      }
      assert pages[..i + 1] == pages[..i] + [pages[i]];
      if claimed.value {
        used := used + [pages[i]];
      }
      i := i + 1;
    }
    assert pages[..i] == pages;
    return Ok(used);
  }

  /** `addPageNodes(parsedNodesArray, allSiteNodes, siteUrl)`: the claimed
      pages (`usedNodes`), `_.difference`, and the loop that pushes one entry
      per remaining page. */
  method AddPageNodes(parsed: Buckets, pages: seq<Edge>, siteUrl: string, resolve: (string, string) -> string)
    returns (r: Result<seq<Entry>>)
    requires parsed.Valid()
    ensures r == UnclaimedPages(parsed, pages, siteUrl, resolve)
  {
    UnclaimedPagesThrows(parsed, pages, siteUrl, resolve);
    var usedNodes := UsedNodes(parsed, pages);
    if usedNodes.Throw? {
      return Throw(TypeError);
    }
    var used := usedNodes.value;
    var remaining := Difference(pages, used);
    DifferenceIsUnclaimed(parsed, pages, used);
    OnlyUnclaimedContribute(parsed, pages, siteUrl, resolve);
    r := PushRemaining(parsed, remaining, siteUrl, resolve);
  }

  /** One step of the push loop: the entry of an unclaimed page comes before
      the entries of the pages after it. */
  lemma PushStep(parsed: Buckets, added: seq<Entry>, rest: seq<Edge>, siteUrl: string, resolve: (string, string) -> string)
    requires rest != [] && !ClaimedEdge(parsed, rest[0])
    requires rest[0].Some? && GetString(rest[0].value, "url").Some?
    ensures Prepend(added, UnclaimedPages(parsed, rest, siteUrl, resolve)) ==
      Prepend(added + [Entry(resolve(siteUrl, rest[0].value["url"].s), rest[0].value)], UnclaimedPages(parsed, rest[1..], siteUrl, resolve))
  {
    var e := Entry(resolve(siteUrl, rest[0].value["url"].s), rest[0].value);
    assert PageEntry(parsed, rest[0], siteUrl, resolve) == Ok([e]);
    match UnclaimedPages(parsed, rest[1..], siteUrl, resolve) {
      case Ok(es) => assert added + ([e] + es) == (added + [e]) + es;
      case Throw(_) =>
    }
  }

  /** The loop that pushes `{ url: url.resolve(siteUrl, node.url), node }`
      for every remaining (unclaimed) page. */
  method PushRemaining(parsed: Buckets, remaining: seq<Edge>, siteUrl: string, resolve: (string, string) -> string)
    returns (r: Result<seq<Entry>>)
    requires forall e :: e in remaining ==> !ClaimedEdge(parsed, e)
    ensures r == UnclaimedPages(parsed, remaining, siteUrl, resolve)
  {
    var added: seq<Entry> := [];
    var j := 0;
    assert remaining[j..] == remaining;
    match UnclaimedPages(parsed, remaining, siteUrl, resolve) {
      case Ok(es) => assert added + es == es;
      case Throw(_) =>
    }
    while j < |remaining|
      invariant 0 <= j <= |remaining|
      invariant Prepend(added, UnclaimedPages(parsed, remaining[j..], siteUrl, resolve)) ==
        UnclaimedPages(parsed, remaining, siteUrl, resolve)
    {
      var page := remaining[j];
      assert remaining[j..][0] == page && remaining[j..][1..] == remaining[j + 1..];
      assert page in remaining;
      if page.None? {
        return Throw(TypeError);
      }
      var url := GetString(page.value, "url");
      if url.None? {
        return Throw(TypeError);
      }
      PushStep(parsed, added, remaining[j..], siteUrl, resolve);
      added := added + [Entry(resolve(siteUrl, url.value), page.value)];
      j := j + 1;
    }
    assert remaining[j..] == [] && added + [] == added;
    return Ok(added);
  }

  /** `_.merge` of two values: plain objects merge key by key, recursively;
      any other value replaces the one it is merged onto. */
  function MergeValue(dest: Value, src: Value): Value
    decreases src, 1
  {
    if src.Obj? && dest.Obj? then Obj(MergeDict(dest.props, src.props)) else src
  }

  /** `_.merge` of two plain objects: every key of `src` is merged onto
      `dest`, the other keys of `dest` stay. */
  function MergeDict(dest: Dict, src: Dict): (r: Dict)
    ensures r.Keys == dest.Keys + src.Keys
    ensures forall k :: k in dest && k !in src ==> r[k] == dest[k]
    ensures forall k :: k in src && !src[k].Obj? ==> r[k] == src[k]
    ensures src == map[] ==> r == dest
    ensures dest == map[] ==> r == src
    decreases Obj(src), 0
  {
    map k | k in dest.Keys + src.Keys ::
      if k in src then (if k in dest then MergeValue(dest[k], src[k]) else src[k]) else dest[k]
  }

  /** Merging a value onto itself changes nothing, at any depth. */
  lemma {:induction false} MergeValueIdempotent(v: Value)
    ensures MergeValue(v, v) == v
    decreases v, 1
  {
    if v.Obj? {
      MergeDictIdempotent(v.props);
    }
  }

  /** Merging an object onto itself changes nothing, at any depth. */
  lemma {:induction false} MergeDictIdempotent(d: Dict)
    ensures MergeDict(d, d) == d
    decreases Obj(d), 0
  {
    forall k | k in d
      ensures MergeDict(d, d)[k] == d[k]
    {
      MergeValueIdempotent(d[k]);
    }
  }

  /** `_.merge` of a reconciliation entry onto a source entry at the same
      index: the url is replaced, the nodes are merged. */
  function MergeEntry(dest: Entry, src: Entry): (r: Entry)
    ensures r.url == src.url
    ensures r.node.Keys == dest.node.Keys + src.node.Keys
    ensures forall k :: k in src.node && !src.node[k].Obj? ==> r.node[k] == src.node[k]
    ensures forall k :: k in dest.node && k !in src.node ==> r.node[k] == dest.node[k]
  {
    Entry(src.url, MergeDict(dest.node, src.node))
  }

  function Max(a: int, b: int): int { if a < b then b else a }

  /** `_.merge` of two arrays: index by index, not concatenated. */
  function MergeLists(dest: seq<Entry>, src: seq<Entry>): (r: seq<Entry>)
    ensures |r| == Max(|dest|, |src|)
    ensures forall i :: 0 <= i < |dest| && i < |src| ==> r[i] == MergeEntry(dest[i], src[i])
    ensures forall i :: |src| <= i < |dest| ==> r[i] == dest[i]
    ensures forall i :: |dest| <= i < |src| ==> r[i] == src[i]
  {
    if dest == [] then src
    else if src == [] then dest
    else [MergeEntry(dest[0], src[0])] + MergeLists(dest[1..], src[1..])
  }

  /** The name of the bucket that collects unclaimed pages. */
  const PagesBucket := "pages"

  /** `_.merge([sourceObject], [{ pages: list }])`: only the `pages` bucket
      changes. It becomes the list when no source fed it (appended last in
      key order), and the index-wise overlay of the list onto the source's
      entries otherwise. */
  function MergePages(parsed: Buckets, list: seq<Entry>): (r: Buckets)
    requires parsed.Valid()
    ensures r.Valid()
    ensures forall b :: b != PagesBucket ==> (b in r.entries <==> b in parsed.entries)
    ensures forall b :: b != PagesBucket && b in parsed.entries ==> r.entries[b] == parsed.entries[b]
    ensures PagesBucket in r.entries
    ensures PagesBucket !in parsed.entries ==> r.entries[PagesBucket] == list && r.names == parsed.names + [PagesBucket]
    ensures PagesBucket in parsed.entries ==>
      r.names == parsed.names && r.entries[PagesBucket] == MergeLists(parsed.entries[PagesBucket], list)
  {
    if PagesBucket in parsed.entries then
      Buckets(parsed.names, parsed.entries[PagesBucket := MergeLists(parsed.entries[PagesBucket], list)])
    else
      Buckets(parsed.names + [PagesBucket], parsed.entries[PagesBucket := list])
  }

  /** The overlay loses claimed entries. A `pages` bucket fed by a source
      holds one entry whose path "/x/" claims the built page "/x/"; the
      reconciliation list then holds only the page "/y/", and `_.merge` writes
      it over index 0: the result lists one entry, with the url of "/y/", and
      the source entry's own url is gone. */
  lemma ClaimedEntryOverlaid(siteUrl: string, resolve: (string, string) -> string, u: string)
    ensures
      var x: Dict := map["path" := Str("/x/")];
      var y: Dict := map["url" := Str("/y/")];
      var parsed := Buckets([PagesBucket], map[PagesBucket := [Entry(u, x)]]);
      var pages: seq<Edge> := [Some(map["url" := Str("/x/")]), Some(y)];
      UnclaimedPages(parsed, pages, siteUrl, resolve) == Ok([Entry(resolve(siteUrl, "/y/"), y)]) &&
      MergePages(parsed, [Entry(resolve(siteUrl, "/y/"), y)]).entries[PagesBucket] ==
        [MergeEntry(Entry(u, x), Entry(resolve(siteUrl, "/y/"), y))]
  {
    var x: Dict := map["path" := Str("/x/")];
    var y: Dict := map["url" := Str("/y/")];
    var parsed := Buckets([PagesBucket], map[PagesBucket := [Entry(u, x)]]);
    var pages: seq<Edge> := [Some(map["url" := Str("/x/")]), Some(y)];
    assert Claimed(parsed, pages[0].value) by {
      assert StrictEquals(Get(pages[0].value, "url"), Get(parsed.entries[PagesBucket][0].node, "path"));
    }
    assert !Claimed(parsed, y) by {
      forall b, k | b in parsed.entries && 0 <= k < |parsed.entries[b]|
        ensures !StrictEquals(Get(y, "url"), Get(parsed.entries[b][k].node, "path"))
      {
        assert b == PagesBucket && k == 0;
      }
    }
    assert PageEntry(parsed, pages[0], siteUrl, resolve) == Ok([]);
    assert PageEntry(parsed, Some(y), siteUrl, resolve) == Ok([Entry(resolve(siteUrl, "/y/"), y)]);
    assert pages[1..] == [Some(y)] && [Some(y)][1..] == [];
    var e := Entry(resolve(siteUrl, "/y/"), y);
    var none: seq<Entry> := [];
    assert [e] + none == [e] && none + [e] == [e];
    assert UnclaimedPages(parsed, [Some(y)], siteUrl, resolve) == Ok([e] + none);
    assert UnclaimedPages(parsed, pages, siteUrl, resolve) == Ok(none + [e]);
    assert parsed.Valid();
  }
}
