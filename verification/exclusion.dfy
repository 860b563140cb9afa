/** The exclusion filter of `runQuery`: every connection in a query result
    loses the edges whose slug contains one of the configured exclusion
    fragments. */
module Exclusion {
  import opened JsValues
  import opened Text
  import opened Sequences
  import opened Records

  /** The one source whose slug is nested under `fields`. */
  const MarkdownSource := "allMarkdownRemark"

  /** The slug the filter callback reads from an edge (`node.fields.slug` for
      markdown, `node.slug` otherwise), or `None` when reading it, or calling
      `replace` on it, throws. */
  function ExclusionSlug(source: string, e: Edge): Option<string> {
    match e
    case None => None
    case Some(node) =>
      if source == MarkdownSource then
        if "fields" in node && node["fields"].Obj? then GetString(node["fields"].props, "slug") else None
      else
        GetString(node, "slug")
  }

  /** The reference meaning of exclusion: some fragment, stripped of one
      slash, occurs in the slug, stripped of one slash. */
  predicate Excluded(slug: string, exclude: seq<string>) {
    exists route :: route in exclude && IsSubstring(StripOneSlash(route), StripOneSlash(slug))
  }

  /** `exclude.some(route => slug.indexOf(route.replace(...)) >= 0)`, for a
      slug that is already stripped. */
  function SomeRouteHits(stripped: string, routes: seq<string>): (r: bool)
    ensures r <==> exists route :: route in routes && IsSubstring(StripOneSlash(route), stripped)
  {
    if routes == [] then false
    else if IndexOf(stripped, StripOneSlash(routes[0])) >= 0 then true
    else
      var r := SomeRouteHits(stripped, routes[1..]);
      assert forall route :: route in routes <==> route == routes[0] || route in routes[1..];
      r
  }

  /** The filter callback for one edge: throws when there is at least one
      fragment to test and the slug cannot be read. */
  function KeepEdge(source: string, exclude: seq<string>, e: Edge): Result<bool> {
    if exclude == [] then Ok(true)
    else
      match ExclusionSlug(source, e)
      case None => Throw(TypeError)
      case Some(slug) => Ok(!SomeRouteHits(StripOneSlash(slug), exclude))
  }

  /** An edge the filter keeps: its slug is excluded by no fragment. */
  predicate Survives(source: string, exclude: seq<string>, e: Edge) {
    match ExclusionSlug(source, e)
    case None => true
    case Some(slug) => !Excluded(slug, exclude)
  }

  /** `edges.filter(...)`: the surviving edges, in their order and with their
      multiplicities; throws exactly when some slug is unreadable and there is
      a fragment to test it against. */
  function FilterEdges(source: string, exclude: seq<string>, edges: seq<Edge>): (r: Result<seq<Edge>>)
    ensures r.Throw? <==> exclude != [] && exists i :: 0 <= i < |edges| && ExclusionSlug(source, edges[i]).None?
    ensures r.Ok? ==> IsSubsequence(r.value, edges)
    ensures r.Ok? ==> forall e :: multiset(r.value)[e] == if Survives(source, exclude, e) then multiset(edges)[e] else 0
  {
    if edges == [] then Ok([])
    else
      var keep :- KeepEdge(source, exclude, edges[0]);
      var rest :- FilterEdges(source, exclude, edges[1..]);
      KeptEdgesStep(source, exclude, edges, keep, rest);
      Ok(if keep then [edges[0]] + rest else rest)
  }

  /** The callback keeps an edge exactly when it survives. */
  lemma KeepMeansSurvives(source: string, exclude: seq<string>, e: Edge, keep: bool)
    requires KeepEdge(source, exclude, e) == Ok(keep)
    ensures keep == Survives(source, exclude, e)
  {
    if exclude != [] {
      var slug := ExclusionSlug(source, e).value;
      assert keep == !SomeRouteHits(StripOneSlash(slug), exclude);
    }
  }

  /** One step of the filter: what the first edge adds to the survivors of
      the others. */
  lemma KeptEdgesStep(source: string, exclude: seq<string>, edges: seq<Edge>, keep: bool, rest: seq<Edge>)
    requires edges != [] && KeepEdge(source, exclude, edges[0]) == Ok(keep)
    requires IsSubsequence(rest, edges[1..])
    requires forall e :: multiset(rest)[e] == if Survives(source, exclude, e) then multiset(edges[1..])[e] else 0
    ensures IsSubsequence(if keep then [edges[0]] + rest else rest, edges)
    ensures forall e ::
      multiset(if keep then [edges[0]] + rest else rest)[e] == (if Survives(source, exclude, e) then multiset(edges)[e] else 0)
  {
    KeepMeansSurvives(source, exclude, edges[0], keep);
    KeptOrder(edges, keep, rest);
    KeptCount(source, exclude, edges, keep, rest);
  }

  /** Keeping or dropping the first element keeps the order. */
  lemma KeptOrder(edges: seq<Edge>, keep: bool, rest: seq<Edge>)
    requires edges != [] && IsSubsequence(rest, edges[1..])
    ensures IsSubsequence(if keep then [edges[0]] + rest else rest, edges)
  {
    if keep {
      var kept := [edges[0]] + rest;
      assert kept[0] == edges[0] && kept[1..] == rest;
    } else if rest != [] {
      assert IsSubsequence(rest, edges[1..]);
    }
  }

  /** Keeping the first element exactly when it survives keeps the
      survivor counts. */
  lemma KeptCount(source: string, exclude: seq<string>, edges: seq<Edge>, keep: bool, rest: seq<Edge>)
    requires edges != [] && keep == Survives(source, exclude, edges[0])
    requires forall e :: multiset(rest)[e] == if Survives(source, exclude, e) then multiset(edges[1..])[e] else 0
    ensures forall e ::
      multiset(if keep then [edges[0]] + rest else rest)[e] == (if Survives(source, exclude, e) then multiset(edges)[e] else 0)
  {
    FilterCountStep(edges, rest, e => Survives(source, exclude, e));
  }

  /** The exclusion step for one key of `data`: only a connection with at
      least one edge is filtered. */
  function FilterSource(source: string, exclude: seq<string>, sd: SourceData): Result<SourceData> {
    match sd
    case Connection(edges) =>
      if |edges| > 0 then
        var kept :- FilterEdges(source, exclude, edges);
        Ok(Connection(kept))
      else Ok(sd)
    case _ => Ok(sd)
  }

  /** The body of the loop for one key: `r.data[source].edges =
      r.data[source].edges.filter(...)` when the value is a connection with
      at least one edge. */
  method FilterKey(source: string, exclude: seq<string>, sd: SourceData) returns (r: Result<SourceData>)
    ensures r == FilterSource(source, exclude, sd)
  {
    r := Ok(sd);
    if sd.Connection? && |sd.edges| > 0 {
      var filtered := FilterEdges(source, exclude, sd.edges);
      if filtered.Throw? {
        return Throw(filtered.error);
      }
      r := Ok(Connection(filtered.value));
    }
  }

  /** The `for (let source in r.data)` loop: replaces the edges of every
      connection by the filtered edges, keeping the keys and their order;
      throws when the filter of some key throws. */
  method ExcludeRoutes(data: QueryData, exclude: seq<string>) returns (r: Result<QueryData>)
    ensures r.Throw? <==> exists k :: 0 <= k < |data| && FilterSource(data[k].0, exclude, data[k].1).Throw?
    ensures r.Ok? ==> |r.value| == |data|
    ensures r.Ok? ==> forall k :: 0 <= k < |data| ==>
      r.value[k].0 == data[k].0 && FilterSource(data[k].0, exclude, data[k].1) == Ok(r.value[k].1)
  {
    var result := data;
    var i := 0;
    while i < |data|
      invariant 0 <= i <= |data| && |result| == |data|
      invariant forall k :: 0 <= k < i ==> FilteredAt(data, exclude, result, k)
      invariant forall k :: i <= k < |data| ==> result[k] == data[k]
    {
      var filtered := FilterKey(data[i].0, exclude, data[i].1);
      if filtered.Throw? {
        return Throw(filtered.error);
      }
      ghost var before := result;
      result := result[i := (data[i].0, filtered.value)];
      forall k | 0 <= k < i
        ensures FilteredAt(data, exclude, result, k)
      {
        assert result[k] == before[k] && FilteredAt(data, exclude, before, k);
      }
      assert FilteredAt(data, exclude, result, i);
      i := i + 1;
    }
    forall k | 0 <= k < |data|
      ensures result[k].0 == data[k].0 && FilterSource(data[k].0, exclude, data[k].1) == Ok(result[k].1)
    {
      assert FilteredAt(data, exclude, result, k);
    }
    return Ok(result);
  }

  /** Key `k` of `result` is key `k` of `data` with its value filtered. */
  predicate FilteredAt(data: QueryData, exclude: seq<string>, result: QueryData, k: int)
    requires 0 <= k < |data| == |result|
  {
    result[k].0 == data[k].0 && FilterSource(data[k].0, exclude, data[k].1) == Ok(result[k].1)
  }

  /** A fragment that strips to the empty string (such as "/") occurs in
      every slug, so the filter keeps no edge. */
  lemma EmptyFragmentExcludesAll(source: string, exclude: seq<string>, edges: seq<Edge>, route: string)
    requires route in exclude && StripOneSlash(route) == ""
    requires FilterEdges(source, exclude, edges).Ok?
    ensures FilterEdges(source, exclude, edges).value == []
  {
    var kept := FilterEdges(source, exclude, edges).value;
    forall e | e in edges
      ensures !Survives(source, exclude, e)
    {
      var i :| 0 <= i < |edges| && edges[i] == e;
      var slug := ExclusionSlug(source, e).value;
      assert "" <= StripOneSlash(slug)[0..];
    }
    assert multiset(kept) == multiset{};
  }

  /** An exclusion fragment matches anywhere in the slug: the fragment
      "drafts" excludes the slug "/drafts/post-1/". */
  lemma DraftsAreExcluded()
    ensures Excluded("/drafts/post-1/", ["drafts"])
  {
    var slug := "/drafts/post-1/";
    assert StripOneSlash("drafts") == "drafts";
    assert StripOneSlash(slug) == slug[1..];
    assert "drafts" <= slug[1..][0..];
  }
}
