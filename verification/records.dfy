/** The records the pipeline passes between its stages: query results, the
    source-to-sitemap mapping, sitemap entries and the buckets that collect
    them. A JavaScript object whose key order matters is an ordered sequence
    of (key, value) pairs, or a list of names beside a map. */
module Records {
  import opened JsValues
  import opened Sequences

  /** One `{ node }` edge of a GraphQL connection; `None` when `node` is null. */
  type Edge = Option<Dict>

  /** What a query result holds under one key of `data`. */
  datatype SourceData =
    | NullSource                      // null
    | NoEdges                         // an object without `edges`, such as `site`
    | Connection(edges: seq<Edge>)    // `{ edges: [...] }`

  /** `data` of a query result, keys in enumeration order. */
  type QueryData = seq<(string, SourceData)>

  /** One value of the `mapping` option: `{ sitemap, name }`. */
  datatype MapEntry = MapEntry(sitemap: Option<string>, name: Option<string>)

  /** The `mapping` option, keys (query aliases) in enumeration order. */
  type Mapping = seq<(string, MapEntry)>

  /** `obj[k]` for an object given as an ordered sequence of pairs. */
  function Lookup<V>(kvs: seq<(string, V)>, k: string): (r: Option<V>)
    ensures r.Some? <==> exists i :: 0 <= i < |kvs| && kvs[i].0 == k
    ensures r.Some? ==> exists i :: 0 <= i < |kvs| && kvs[i] == (k, r.value)
  {
    if kvs == [] then None
    else if kvs[0].0 == k then Some(kvs[0].1)
    else
      var r := Lookup(kvs[1..], k);
      assert forall i :: 0 < i < |kvs| ==> kvs[i] == kvs[1..][i - 1];
      r
  }

  /** The bucket a source feeds: `mapping[source].sitemap` when
      `mapping[source] && mapping[source].sitemap` holds. */
  function BucketOf(mapping: Mapping, source: string): (r: Option<string>)
    ensures r.Some? ==> r.value != ""
  {
    match Lookup(mapping, source)
    case None => None
    case Some(m) => if TruthyString(m.sitemap) then m.sitemap else None
  }

  /** A source feeds a bucket only through a mapping key of its own name,
      whose `sitemap` names the bucket; without such a key it feeds none. */
  lemma BucketOfMeaning(mapping: Mapping, source: string)
    ensures BucketOf(mapping, source).Some? ==>
      exists i :: 0 <= i < |mapping| && mapping[i].0 == source && mapping[i].1.sitemap == BucketOf(mapping, source)
    ensures (forall i :: 0 <= i < |mapping| ==> mapping[i].0 != source) ==> BucketOf(mapping, source).None?
  {
  }

  /** `obj[k]` reads the first pair with key `k`. */
  lemma {:induction false} LookupFirst<V>(kvs: seq<(string, V)>, k: string, i: nat)
    requires i < |kvs| && kvs[i].0 == k
    requires forall j :: 0 <= j < i ==> kvs[j].0 != k
    ensures Lookup(kvs, k) == Some(kvs[i].1)
  {
    if i > 0 {
      assert kvs[1..][i - 1] == kvs[i];
      LookupFirst(kvs[1..], k, i - 1);
    }
  }

  /** A mapped source feeds exactly the bucket its `sitemap` names, when that
      name is truthy, and no bucket otherwise. */
  lemma MappedFeeds(mapping: Mapping, source: string, i: nat)
    requires i < |mapping| && mapping[i].0 == source
    requires forall j :: 0 <= j < i ==> mapping[j].0 != source
    ensures BucketOf(mapping, source) == if TruthyString(mapping[i].1.sitemap) then mapping[i].1.sitemap else None
  {
    LookupFirst(mapping, source, i);
  }

  /** One sitemap entry `{ url, node }`. */
  datatype Entry = Entry(url: string, node: Dict)

  /** An object from bucket names to entry lists (`sourceObject`), with its
      keys in insertion order. */
  datatype Buckets = Buckets(names: seq<string>, entries: map<string, seq<Entry>>) {

    predicate Valid() {
      Distinct(names) && entries.Keys == set b | b in names
    }

    /** `obj[b] = obj[b] || []`: creates an empty bucket at the end of the key
        order unless `b` is already a key. */
    function Ensure(b: string): (r: Buckets)
      requires Valid()
      ensures r.Valid() && b in r.entries
      ensures b in entries ==> r == this
      ensures b !in entries ==> r.names == names + [b] && r.entries == entries[b := []]
    {
      if b in entries then this else Buckets(names + [b], entries[b := []])
    }

    /** `obj[b].push(...es)` */
    function Push(b: string, es: seq<Entry>): (r: Buckets)
      requires Valid() && b in entries
      ensures r.Valid() && r.names == names
      ensures r.entries == entries[b := entries[b] + es]
    {
      Buckets(names, entries[b := entries[b] + es])
    }
  }

  /** The empty object `{}`. */
  const NoBuckets := Buckets([], map[])

  /** What every stage reads besides its own input: the built pages
      (`allSitePage.edges`), the path prefix, the site URL, and Node's
      `path.join` and `url.resolve`, whose internals are not modelled. */
  datatype Context = Context(
    pages: seq<Edge>,
    pathPrefix: string,
    siteUrl: string,
    join: (string, string) -> string,
    resolve: (string, string) -> string)
}
