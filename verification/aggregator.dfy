/** `serialize`: groups the nodes of every mapped source into named buckets
    of `{ url, node }` entries, then merges in the built pages no entry
    claims. */
module Aggregator {
  import opened JsValues
  import opened Records
  import opened Sequences
  import opened Normalizer
  import opened PathResolver
  import opened Reconcile
  import Exclusion

  /** What happens to one non-null node before it becomes an entry: a
      markdown node is normalised first, then every node gets its path. */
  function ProcessNode(source: string, node: Dict, ctx: Context): Result<Dict> {
    var n :- if source == Exclusion.MarkdownSource then NormaliseMarkdown(node) else Ok(node);
    ResolvePath(n, ctx.pages, ctx.pathPrefix, ctx.join)
  }

  /** The entries one edge contributes: none for a null node, otherwise
      `{ url: url.resolve(siteUrl, node.path), node }`, where `url.resolve`
      throws a TypeError on a path that is not a string. */
  function EdgeEntries(source: string, e: Edge, ctx: Context): Result<seq<Entry>> {
    match e
    case None => Ok([])
    case Some(node) =>
      var n :- ProcessNode(source, node, ctx);
      match GetString(n, "path")
      case None => Throw(TypeError)
      case Some(path) => Ok([Entry(ctx.resolve(ctx.siteUrl, path), n)])
  }

  /** `currentSource.edges.map(...)`: the entries of all edges, in edge
      order; the first edge that throws stops the map. */
  function SourceEntries(source: string, edges: seq<Edge>, ctx: Context): Result<seq<Entry>> {
    if edges == [] then Ok([])
    else
      var es :- EdgeEntries(source, edges[0], ctx);
      var rest :- SourceEntries(source, edges[1..], ctx);
      Ok(es + rest)
  }

  /** Bucket `b` of `acc` extended by the entries in `r`, or the error of `r`. */
  function PushResult(acc: Buckets, b: string, r: Result<seq<Entry>>): Result<Buckets>
    requires acc.Valid() && b in acc.entries
  {
    match r
    case Ok(es) => Ok(acc.Push(b, es))
    case Throw(e) => Throw(e)
  }

  /** One iteration of `for (let type in sources)`: an unmapped or null source
      changes nothing; a mapped one gets its bucket (created at the end of the
      key order if new) and its entries; a mapped source without `edges`
      throws on `edges.map`. */
  function AddSource(acc: Buckets, source: string, sd: SourceData, mapping: Mapping, ctx: Context): (r: Result<Buckets>)
    requires acc.Valid()
    ensures r.Ok? ==> r.value.Valid()
  {
    match BucketOf(mapping, source)
    case None => Ok(acc)
    case Some(b) =>
      match sd
      case NullSource => Ok(acc)
      case NoEdges => Throw(TypeError)
      case Connection(edges) => PushResult(acc.Ensure(b), b, SourceEntries(source, edges, ctx))
  }

  /** The whole `for (let type in sources)` loop, starting from `acc`. */
  function BucketsFrom(acc: Buckets, sources: QueryData, mapping: Mapping, ctx: Context): (r: Result<Buckets>)
    requires acc.Valid()
    ensures r.Ok? ==> r.value.Valid()
    decreases |sources|
  {
    if sources == [] then Ok(acc)
    else
      var next :- AddSource(acc, sources[0].0, sources[0].1, mapping, ctx);
      BucketsFrom(next, sources[1..], mapping, ctx)
  }

  /** The value of `serialize`: the source buckets with the reconciliation
      list merged into `pages`. */
  function Serialized(sources: QueryData, mapping: Mapping, ctx: Context): Result<Buckets> {
    var parsed :- BucketsFrom(NoBuckets, sources, mapping, ctx);
    var list :- UnclaimedPages(parsed, ctx.pages, ctx.siteUrl, ctx.resolve);
    Ok(MergePages(parsed, list))
  }

  /** Pushing twice onto one bucket pushes the concatenation. */
  lemma PushTwice(acc: Buckets, b: string, xs: seq<Entry>, ys: seq<Entry>)
    requires acc.Valid() && b in acc.entries
    ensures acc.Push(b, xs).Push(b, ys) == acc.Push(b, xs + ys)
  {
    assert acc.entries[b] + xs + ys == acc.entries[b] + (xs + ys);
  }

  /** One step of the edge loop: the entries of edge `j` are pushed before
      those of the edges after it. */
  lemma PushEdgeStep(acc: Buckets, b: string, source: string, edges: seq<Edge>, ctx: Context, es: seq<Entry>)
    requires acc.Valid() && b in acc.entries
    requires edges != [] && EdgeEntries(source, edges[0], ctx) == Ok(es)
    ensures PushResult(acc, b, SourceEntries(source, edges, ctx)) ==
      PushResult(acc.Push(b, es), b, SourceEntries(source, edges[1..], ctx))
  {
    match SourceEntries(source, edges[1..], ctx) {
      case Ok(rest) => PushTwice(acc, b, es, rest);
      case Throw(_) =>
    }
  }

  /** The body of the `for (let type in sources)` loop for one source, with
      the `edges.map` loop that pushes one entry per non-null node. */
  method CollectSource(acc: Buckets, source: string, current: SourceData, mapping: Mapping, ctx: Context)
    returns (r: Result<Buckets>)
    requires acc.Valid()
    ensures r == AddSource(acc, source, current, mapping, ctx)
  {
    var bucket := BucketOf(mapping, source);
    if bucket.None? || current.NullSource? {
      return Ok(acc);
    }
    var b := bucket.value;
    var sourceObject := acc.Ensure(b);
    if current.NoEdges? {
      return Throw(TypeError);
    }
    var edges := current.edges;
    assert edges[0..] == edges;
    var j := 0;
    while j < |edges|
      invariant 0 <= j <= |edges| && sourceObject.Valid() && b in sourceObject.entries
      invariant AddSource(acc, source, current, mapping, ctx) ==
        PushResult(sourceObject, b, SourceEntries(source, edges[j..], ctx))
    {
      assert edges[j..][0] == edges[j] && edges[j..][1..] == edges[j + 1..];
      var e := edges[j];
      if e.Some? {
        var node := e.value;
        if source == Exclusion.MarkdownSource {
          var normalised := SerializeMarkdownNodes(node);
          if normalised.Throw? {
            return Throw(normalised.error);
          }
          node := normalised.value;
        }
        var resolved := GetNodePath(node, ctx.pages, ctx.pathPrefix, ctx.join);
        if resolved.Throw? {
          return Throw(resolved.error);
        }
        node := resolved.value;
        var path := GetString(node, "path");
        if path.None? {
          return Throw(TypeError);
        }
        var entry := Entry(ctx.resolve(ctx.siteUrl, path.value), node);
        PushEdgeStep(sourceObject, b, source, edges[j..], ctx, [entry]);
        sourceObject := sourceObject.Push(b, [entry]);
      } else {
        PushEdgeStep(sourceObject, b, source, edges[j..], ctx, []);
        assert sourceObject.Push(b, []) == sourceObject by {
          assert sourceObject.entries[b] + [] == sourceObject.entries[b];
        }
      }
      j := j + 1;
    }
    assert sourceObject.Push(b, []) == sourceObject by {
      assert sourceObject.entries[b] + [] == sourceObject.entries[b];
    }
    return Ok(sourceObject);
  }

  /** `serialize(sources, { site, allSitePage }, mapping, pathPrefix)`, with
      `site.siteMetadata.siteUrl` and `allSitePage.edges` given in `ctx`. */
  method Serialize(sources: QueryData, mapping: Mapping, ctx: Context) returns (r: Result<Buckets>)
    ensures r == Serialized(sources, mapping, ctx)
  {
    var sourceObject := NoBuckets;
    assert sources[0..] == sources;
    var i := 0;
    while i < |sources|
      invariant 0 <= i <= |sources| && sourceObject.Valid()
      invariant BucketsFrom(NoBuckets, sources, mapping, ctx) == BucketsFrom(sourceObject, sources[i..], mapping, ctx)
    {
      assert sources[i..][0] == sources[i] && sources[i..][1..] == sources[i + 1..];
      var collected := CollectSource(sourceObject, sources[i].0, sources[i].1, mapping, ctx);
      if collected.Throw? {
        return Throw(collected.error);
      }
      sourceObject := collected.value;
      i := i + 1;
    }
    assert sources[i..] == [];
    var pageNodes := AddPageNodes(sourceObject, ctx.pages, ctx.siteUrl, ctx.resolve);
    if pageNodes.Throw? {
      return Throw(pageNodes.error);
    }
    return Ok(MergePages(sourceObject, pageNodes.value));
  }

  /** The bucket source `s` feeds, if any: null sources and unmapped ones
      feed none. */
  function FedBucket(mapping: Mapping, s: (string, SourceData)): Option<string> {
    if s.1.NullSource? then None else BucketOf(mapping, s.0)
  }

  /** The entries a source that feeds a bucket contributes; a source without
      `edges` throws. */
  function FedEntries(s: (string, SourceData), ctx: Context): Result<seq<Entry>> {
    match s.1
    case Connection(edges) => SourceEntries(s.0, edges, ctx)
    case _ => Throw(TypeError)
  }

  /** Reference meaning of one bucket: the entries of every source that feeds
      `b`, in source order and, within a source, in edge order. */
  function BucketContents(b: string, sources: QueryData, mapping: Mapping, ctx: Context): Result<seq<Entry>> {
    if sources == [] then Ok([])
    else
      var here :- if FedBucket(mapping, sources[0]) == Some(b) then FedEntries(sources[0], ctx) else Ok([]);
      var rest :- BucketContents(b, sources[1..], mapping, ctx);
      Ok(here + rest)
  }

  /** Reference meaning of the key order: the buckets fed by `sources`, in
      order of their first feeding source, leaving out those in `seen`. */
  function NewNames(seen: seq<string>, sources: QueryData, mapping: Mapping): seq<string>
    decreases |sources|
  {
    if sources == [] then []
    else
      match FedBucket(mapping, sources[0])
      case Some(b) =>
        if b in seen then NewNames(seen, sources[1..], mapping)
        else [b] + NewNames(seen + [b], sources[1..], mapping)
      case None => NewNames(seen, sources[1..], mapping)
  }

  /** What one source does to the buckets, in the terms of the reference
      definitions. */
  lemma AddSourceEffect(acc: Buckets, s: (string, SourceData), mapping: Mapping, ctx: Context)
    requires acc.Valid() && AddSource(acc, s.0, s.1, mapping, ctx).Ok?
    ensures var next := AddSource(acc, s.0, s.1, mapping, ctx).value;
      match FedBucket(mapping, s)
      case None => next == acc
      case Some(c) =>
        FedEntries(s, ctx).Ok? &&
        next.names == (if c in acc.names then acc.names else acc.names + [c]) &&
        next.entries == acc.entries[c := (if c in acc.entries then acc.entries[c] else []) + FedEntries(s, ctx).value]
  {
  }

  /** What one source does to the single bucket `b`. */
  lemma AddSourceBucket(acc: Buckets, s: (string, SourceData), mapping: Mapping, ctx: Context, b: string)
    requires acc.Valid() && AddSource(acc, s.0, s.1, mapping, ctx).Ok?
    ensures FedBucket(mapping, s) == Some(b) ==> FedEntries(s, ctx).Ok?
    ensures var next := AddSource(acc, s.0, s.1, mapping, ctx).value;
      (b in next.entries <==> b in acc.entries || FedBucket(mapping, s) == Some(b)) &&
      (if b in next.entries then next.entries[b] else []) ==
        (if b in acc.entries then acc.entries[b] else []) +
        (if FedBucket(mapping, s) == Some(b) then FedEntries(s, ctx).value else [])
  {
    AddSourceEffect(acc, s, mapping, ctx);
    var next := AddSource(acc, s.0, s.1, mapping, ctx).value;
    if FedBucket(mapping, s) != Some(b) {
      assert (if b in acc.entries then acc.entries[b] else []) + [] == (if b in acc.entries then acc.entries[b] else []);
    }
  }

  /** One source of the reference contents: its own entries if it feeds `b`,
      then those of the sources after it. */
  lemma BucketContentsStep(b: string, sources: QueryData, mapping: Mapping, ctx: Context)
    requires sources != [] && BucketContents(b, sources[1..], mapping, ctx).Ok?
    requires FedBucket(mapping, sources[0]) == Some(b) ==> FedEntries(sources[0], ctx).Ok?
    ensures BucketContents(b, sources, mapping, ctx) ==
      Ok((if FedBucket(mapping, sources[0]) == Some(b) then FedEntries(sources[0], ctx).value else []) +
        BucketContents(b, sources[1..], mapping, ctx).value)
  {
  }

  /** The key order after one source: its bucket is appended unless it is
      already a key. */
  function NamesAfter(seen: seq<string>, s: (string, SourceData), mapping: Mapping): seq<string> {
    match FedBucket(mapping, s)
    case Some(b) => if b in seen then seen else seen + [b]
    case None => seen
  }

  /** Unfolding the reference key order by one source. */
  lemma NewNamesStep(seen: seq<string>, sources: QueryData, mapping: Mapping)
    requires sources != []
    ensures var after := NamesAfter(seen, sources[0], mapping);
      seen + NewNames(seen, sources, mapping) == after + NewNames(after, sources[1..], mapping)
  {
    match FedBucket(mapping, sources[0]) {
      case None =>
      case Some(b) =>
        if b !in seen {
          assert seen + ([b] + NewNames(seen + [b], sources[1..], mapping)) ==
            seen + [b] + NewNames(seen + [b], sources[1..], mapping);
        }
    }
  }

  /** The bucket fold creates the buckets in order of their first feeding
      source. */
  lemma {:induction false} BucketsFromNames(acc: Buckets, sources: QueryData, mapping: Mapping, ctx: Context)
    requires acc.Valid() && BucketsFrom(acc, sources, mapping, ctx).Ok?
    ensures BucketsFrom(acc, sources, mapping, ctx).value.names == acc.names + NewNames(acc.names, sources, mapping)
    decreases |sources|
  {
    if sources != [] {
      var s := sources[0];
      var next := AddSource(acc, s.0, s.1, mapping, ctx).value;
      AddSourceEffect(acc, s, mapping, ctx);
      assert next.names == NamesAfter(acc.names, s, mapping) by {
        if FedBucket(mapping, s).Some? {
          assert FedBucket(mapping, s).value in acc.names <==> FedBucket(mapping, s).value in acc.entries;
        }
      }
      BucketsFromNames(next, sources[1..], mapping, ctx);
      NewNamesStep(acc.names, sources, mapping);
    } else {
      assert acc.names + [] == acc.names;
    }
  }

  /** The bucket fold leaves every bucket holding what it held in `acc`
      followed by the entries of the sources that feed it. */
  lemma {:induction false} BucketsFromContents(acc: Buckets, sources: QueryData, mapping: Mapping, ctx: Context, b: string)
    requires acc.Valid() && BucketsFrom(acc, sources, mapping, ctx).Ok?
    requires b in BucketsFrom(acc, sources, mapping, ctx).value.entries
    ensures BucketContents(b, sources, mapping, ctx).Ok?
    ensures BucketsFrom(acc, sources, mapping, ctx).value.entries[b] ==
      (if b in acc.entries then acc.entries[b] else []) + BucketContents(b, sources, mapping, ctx).value
    decreases |sources|
  {
    if sources != [] {
      var s := sources[0];
      var next := AddSource(acc, s.0, s.1, mapping, ctx).value;
      assert BucketsFrom(acc, sources, mapping, ctx) == BucketsFrom(next, sources[1..], mapping, ctx);
      AddSourceBucket(acc, s, mapping, ctx, b);
      BucketsFromContents(next, sources[1..], mapping, ctx, b);
      BucketContentsStep(b, sources, mapping, ctx);
      var rest := BucketContents(b, sources[1..], mapping, ctx).value;
      var before := if b in acc.entries then acc.entries[b] else [];
      var mid := if b in next.entries then next.entries[b] else [];
      var here := if FedBucket(mapping, s) == Some(b) then FedEntries(s, ctx).value else [];
      assert mid == before + here;
      assert BucketContents(b, sources, mapping, ctx).value == here + rest;
      AppendAssoc(before, here, rest);
    } else {
      assert acc.entries[b] + [] == acc.entries[b];
    }
  }

  /** The bucket fold agrees with the reference definitions: keys in order of
      first feeding source, and every bucket holding the entries of the
      sources that feed it, in source order then edge order. */
  lemma BucketsMeaning(sources: QueryData, mapping: Mapping, ctx: Context)
    requires BucketsFrom(NoBuckets, sources, mapping, ctx).Ok?
    ensures var bk := BucketsFrom(NoBuckets, sources, mapping, ctx).value;
      bk.names == NewNames([], sources, mapping) &&
      forall b :: b in bk.entries ==> BucketContents(b, sources, mapping, ctx) == Ok(bk.entries[b])
  {
    BucketsFromNames(NoBuckets, sources, mapping, ctx);
    var bk := BucketsFrom(NoBuckets, sources, mapping, ctx).value;
    forall b | b in bk.entries
      ensures BucketContents(b, sources, mapping, ctx) == Ok(bk.entries[b])
    {
      BucketsFromContents(NoBuckets, sources, mapping, ctx, b);
      assert b !in NoBuckets.entries;
      assert [] + BucketContents(b, sources, mapping, ctx).value == BucketContents(b, sources, mapping, ctx).value;
    }
  }

  /** A source that feeds some bucket and throws. */
  predicate FailingSource(s: (string, SourceData), mapping: Mapping, ctx: Context) {
    FedBucket(mapping, s).Some? && FedEntries(s, ctx).Throw?
  }

  /** The bucket fold throws exactly when some source that feeds a bucket
      throws; the error is that of the first such source. */
  lemma {:induction false} BucketsFromThrows(acc: Buckets, sources: QueryData, mapping: Mapping, ctx: Context)
    requires acc.Valid()
    ensures BucketsFrom(acc, sources, mapping, ctx).Throw? <==>
      exists i :: 0 <= i < |sources| && FailingSource(sources[i], mapping, ctx)
    ensures BucketsFrom(acc, sources, mapping, ctx).Throw? ==>
      exists i :: 0 <= i < |sources| && FailingSource(sources[i], mapping, ctx) &&
        BucketsFrom(acc, sources, mapping, ctx).error == FedEntries(sources[i], ctx).error &&
        forall j :: 0 <= j < i ==> !FailingSource(sources[j], mapping, ctx)
    decreases |sources|
  {
    if sources != [] {
      var s := sources[0];
      assert forall i :: 0 < i < |sources| ==> sources[i] == sources[1..][i - 1];
      if FailingSource(s, mapping, ctx) {
        assert AddSource(acc, s.0, s.1, mapping, ctx).Throw?;
      } else {
        assert AddSource(acc, s.0, s.1, mapping, ctx).Ok?;
        var next := AddSource(acc, s.0, s.1, mapping, ctx).value;
        BucketsFromThrows(next, sources[1..], mapping, ctx);
        if BucketsFrom(acc, sources, mapping, ctx).Throw? {
          var i :| 0 <= i < |sources[1..]| && FailingSource(sources[1..][i], mapping, ctx) &&
            BucketsFrom(next, sources[1..], mapping, ctx).error == FedEntries(sources[1..][i], ctx).error &&
            forall j :: 0 <= j < i ==> !FailingSource(sources[1..][j], mapping, ctx);
          assert FailingSource(sources[i + 1], mapping, ctx);
        }
      }
    }
  }

  /** The non-null nodes of a connection, in edge order. */
  function Nodes(edges: seq<Edge>): seq<Dict> {
    if edges == [] then []
    else (if edges[0].Some? then [edges[0].value] else []) + Nodes(edges[1..])
  }

  /** `e` is the entry of a processed node: its url is the site URL resolved
      against the node's string path. */
  predicate EntryOf(e: Entry, ctx: Context) {
    GetString(e.node, "path").Some? && e.url == ctx.resolve(ctx.siteUrl, e.node["path"].s)
  }

  /** `es` holds, index by index, the entries of the processed nodes `ns`. */
  predicate ListsNodes(source: string, es: seq<Entry>, ns: seq<Dict>, ctx: Context) {
    |es| == |ns| &&
    forall k :: 0 <= k < |es| ==> ProcessNode(source, ns[k], ctx) == Ok(es[k].node) && EntryOf(es[k], ctx)
  }

  /** The entries of one more edge in front of a list. */
  lemma ListsNodesCons(source: string, e: Edge, here: seq<Entry>, es: seq<Entry>, ns: seq<Dict>, ctx: Context)
    requires EdgeEntries(source, e, ctx) == Ok(here) && ListsNodes(source, es, ns, ctx)
    ensures ListsNodes(source, here + es, (if e.Some? then [e.value] else []) + ns, ctx)
  {
    if e.Some? {
      var es2, ns2 := here + es, [e.value] + ns;
      assert EntryOf(here[0], ctx) && es2[0] == here[0];
      assert forall k :: 0 < k < |es2| ==> es2[k] == es[k - 1] && ns2[k] == ns[k - 1];
    } else {
      assert here + es == es && [] + ns == ns;
    }
  }

  /** A connection contributes exactly one entry per non-null node, in edge
      order; each entry holds the processed node and the url resolved from
      its path. */
  lemma {:induction false} OneEntryPerNode(source: string, edges: seq<Edge>, ctx: Context)
    requires SourceEntries(source, edges, ctx).Ok?
    ensures ListsNodes(source, SourceEntries(source, edges, ctx).value, Nodes(edges), ctx)
  {
    if edges != [] {
      OneEntryPerNode(source, edges[1..], ctx);
      var here := EdgeEntries(source, edges[0], ctx).value;
      ListsNodesCons(source, edges[0], here, SourceEntries(source, edges[1..], ctx).value, Nodes(edges[1..]), ctx);
    }
  }

  /** A connection throws exactly when one of its non-null nodes throws in
      processing or ends up without a string path. */
  lemma {:induction false} SourceEntriesThrows(source: string, edges: seq<Edge>, ctx: Context)
    ensures SourceEntries(source, edges, ctx).Throw? <==>
      exists k :: 0 <= k < |edges| && EdgeEntries(source, edges[k], ctx).Throw?
  {
    if edges != [] {
      SourceEntriesThrows(source, edges[1..], ctx);
      assert forall k :: 0 < k < |edges| ==> edges[k] == edges[1..][k - 1];
    }
  }

  /** Processing keeps every field of a node except `path` and, for a
      markdown node, the fields the normaliser touches. */
  lemma ProcessKeepsFields(source: string, node: Dict, ctx: Context, k: string)
    requires ProcessNode(source, node, ctx).Ok? && k != "path"
    requires source == Exclusion.MarkdownSource ==> k !in TouchedKeys
    ensures Unchanged(node, ProcessNode(source, node, ctx).value, k)
  {
  }

  /** The merge step of `serialize` changes only the `pages` bucket: every
      other bucket of the result is the one the sources produced. */
  lemma OtherBucketsSurvive(sources: QueryData, mapping: Mapping, ctx: Context, b: string)
    requires Serialized(sources, mapping, ctx).Ok? && b != PagesBucket
    ensures BucketsFrom(NoBuckets, sources, mapping, ctx).Ok?
    ensures var out, parsed := Serialized(sources, mapping, ctx).value, BucketsFrom(NoBuckets, sources, mapping, ctx).value;
      (b in out.entries <==> b in parsed.entries) && (b in parsed.entries ==> out.entries[b] == parsed.entries[b])
  {
  }

  /** Every built page is accounted for: it was claimed by a source entry
      before the merge (the merge may then overlay that entry, see
      `Reconcile.ClaimedEntryOverlaid`), or the `pages` bucket holds, at its
      index in the reconciliation list, an entry whose url is resolved from
      the page's url. */
  lemma EveryPageInSitemap(sources: QueryData, mapping: Mapping, ctx: Context, i: nat)
    requires Serialized(sources, mapping, ctx).Ok? && i < |ctx.pages|
    ensures BucketsFrom(NoBuckets, sources, mapping, ctx).Ok?
    ensures ctx.pages[i].Some?
    ensures var out, parsed := Serialized(sources, mapping, ctx).value, BucketsFrom(NoBuckets, sources, mapping, ctx).value;
      Claimed(parsed, ctx.pages[i].value) ||
      (GetString(ctx.pages[i].value, "url").Some? &&
       exists k :: 0 <= k < |out.entries[PagesBucket]| &&
         out.entries[PagesBucket][k].url == ctx.resolve(ctx.siteUrl, ctx.pages[i].value["url"].s))
  {
    var parsed := BucketsFrom(NoBuckets, sources, mapping, ctx).value;
    var list := UnclaimedPages(parsed, ctx.pages, ctx.siteUrl, ctx.resolve).value;
    var out := Serialized(sources, mapping, ctx).value;
    assert out == MergePages(parsed, list);
    EveryPageRepresented(parsed, ctx.pages, ctx.siteUrl, ctx.resolve, i);
    if !Claimed(parsed, ctx.pages[i].value) {
      var k :| 0 <= k < |list| && list[k].node == ctx.pages[i].value && PageOf(parsed, list[k], ctx.siteUrl, ctx.resolve);
      assert out.entries[PagesBucket][k].url == list[k].url;
    }
  }

  /** Without a custom query `sources` is empty: no bucket but `pages`
      exists, and it lists every built page, in order, under the site URL
      resolved against the page's url. */
  lemma NoSourcesListsEveryPage(mapping: Mapping, ctx: Context)
    requires Serialized([], mapping, ctx).Ok?
    ensures var out := Serialized([], mapping, ctx).value;
      out.names == [PagesBucket] && |out.entries[PagesBucket]| == |ctx.pages| &&
      forall k :: 0 <= k < |ctx.pages| ==>
        ctx.pages[k] == Some(out.entries[PagesBucket][k].node) &&
        GetString(out.entries[PagesBucket][k].node, "url").Some? &&
        out.entries[PagesBucket][k].url == ctx.resolve(ctx.siteUrl, out.entries[PagesBucket][k].node["url"].s)
  {
    assert BucketsFrom(NoBuckets, [], mapping, ctx) == Ok(NoBuckets);
    NoneClaimed(ctx.pages);
    OneEntryPerUnclaimedPage(NoBuckets, ctx.pages, ctx.siteUrl, ctx.resolve);
    var list := UnclaimedPages(NoBuckets, ctx.pages, ctx.siteUrl, ctx.resolve).value;
    assert ListsUnclaimed(NoBuckets, list, ctx.pages, ctx.siteUrl, ctx.resolve);
    var out := MergePages(NoBuckets, list);
    assert Serialized([], mapping, ctx).value == out;
    assert out.entries[PagesBucket] == list && out.names == [PagesBucket];
    forall k | 0 <= k < |ctx.pages|
      ensures ctx.pages[k] == Some(list[k].node) && PageOf(NoBuckets, list[k], ctx.siteUrl, ctx.resolve)
    {
    }
  }
}
