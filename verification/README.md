# gatsby-plugin-advanced-sitemap: the aggregation pipeline

This project models the core of the plugin's build step in `src/gatsby-node.js`.
That core turns GraphQL query results and the generator's list of built pages
into named, ordered buckets of sitemap entries (`{ url, node }`). It also
covers the two small text templates around the generated files.

The pieces, in pipeline order:

- **Exclusion** (`Exclusion`): the body of `runQuery`. Every connection loses
  the edges whose slug contains one of the configured exclusion fragments.
  Both sides are first stripped of one slash, with the non-global
  `/^\/|\/$/`.
- **Markdown normaliser** (`Normalizer`): `serializeMarkdownNodes`. It moves
  `fields.slug` to `slug` and lifts truthy `published_at` and
  `feature_image` out of `frontmatter`.
- **Path resolver** (`PathResolver`): `getNodePath`. A node's path is the url
  of the first built page whose url ends with the node's slug. Otherwise it
  is `path.join(pathPrefix, slug)`.
- **Bucketing** (`Aggregator`): `serialize`. Sources run in key order and
  edges in order. Each non-null node of a mapped source is pushed into the
  bucket named by `mapping[type].sitemap`.
- **Reconciliation** (`Reconcile`): `addPageNodes` and the final `_.merge`.
  Every built page that no entry claims gets an entry in a `pages` list. That
  list is then merged index by index into the `pages` bucket.
- **Source list** (`SourceMapper`): `serializeSources`. It produces one
  `{ name, sitemap }` per distinct display name.
- **Templating** (`Templating`):
  - the global `{{blog-url}}` replacement in the stylesheet;
  - the `:resource` replacement in the resource file names.

Supporting modules:

- `JsValues` holds the JavaScript values and their semantics: truthiness,
  `===`, and the `TypeError`s of property reads and string methods.
- `Text` holds `indexOf`, the slash-stripping `replace` calls and ASCII
  case-insensitive suffix matching.
- `Records` holds the records passed between stages.
- `Sequences` holds order and distinctness predicates.

How JavaScript behaviour is represented:

- JavaScript objects whose key order matters are ordered sequences of
  (key, value) pairs (`QueryData`, `Mapping`). The buckets object is a list
  of names beside a map (`Buckets`).
- Every operation that can throw returns a `Result`, whose `Throw` carries
  the error. The model reproduces the TypeErrors of the code as written:
  - a null page;
  - a url or path that is not a string;
  - a source without `edges`.
- The loops of the source are methods. Most are proved equal to a
  specification function (`ensures r == ...`), and the properties are proved
  as lemmas about those functions. Three are specified otherwise:
  `Reconcile.ClaimScan` by when it sets `foundOne` and when it throws,
  `Reconcile.UsedNodes` by its result on success and its TypeError, and
  `Exclusion.ExcludeRoutes` key by key.
- `path.join` and `url.resolve` are function parameters held in `Context`,
  together with the built pages, the path prefix and the site URL.

## Model

| member | source | states |
|---|---|---|
| Text.IndexOf | src/gatsby-node.js:158 | `indexOf` is the first position where the fragment occurs, and -1 exactly when it occurs nowhere |
| Text.StripOneSlash | src/gatsby-node.js:155-156 | removing one slash: a leading `/` is removed; failing that, a trailing one; the result is the input exactly when the input neither starts nor ends with `/`, is at most one character shorter and occurs in the input |
| Text.StripTrailingSlash | src/gatsby-node.js:77 | `replace(/\/$/, "")` removes one character exactly when the string ends with `/`, and the result is a prefix |
| Text.SuffixMatches | src/gatsby-node.js:77-82 | an exact suffix matches the case-insensitive slug test, and the empty slug matches every url |
| Text.MatchIgnoresCase | src/gatsby-node.js:77-82 | the `i` flag: a url ending in a string of the slug's length matches exactly when that ending equals the slug up to ASCII case, whatever precedes it |
| Exclusion.SomeRouteHits | src/gatsby-node.js:154-158 | `exclude.some(...)` holds exactly when some stripped fragment is a substring of the stripped slug |
| Exclusion.ExclusionSlug | src/gatsby-node.js:155 | the slug read per source; its meaning is stated by Exclusion.FilterEdges, which throws exactly when it cannot be read |
| Exclusion.KeepEdge | src/gatsby-node.js:154-159 | the filter callback; stated by Exclusion.KeepMeansSurvives: it keeps an edge exactly when no fragment occurs in its slug |
| Exclusion.FilterEdges | src/gatsby-node.js:154-159 | the filter throws exactly when there is a fragment and some slug cannot be read; otherwise the survivors are a subsequence of the edges, in order, and each edge survives with its multiplicity exactly when no fragment occurs in its slug |
| Exclusion.KeptEdgesStep | src/gatsby-node.js:154-159 | one edge of the filter keeps the order and the survivor multiset |
| Exclusion.KeepMeansSurvives | src/gatsby-node.js:154-159 | the filter callback keeps an edge exactly when no fragment occurs in its slug |
| Exclusion.KeptOrder | src/gatsby-node.js:154 | keeping or dropping one edge keeps the survivors in edge order |
| Exclusion.KeptCount | src/gatsby-node.js:154-159 | keeping an edge exactly when it survives keeps every survivor's count and drops every other edge |
| Exclusion.FilterKey | src/gatsby-node.js:153-160 | the body for one key filters a connection with at least one edge and leaves every other value as it is |
| Exclusion.FilterSource | src/gatsby-node.js:153-160 | one key's value after the filter; stated by Exclusion.FilterKey and Exclusion.ExcludeRoutes: a non-empty connection loses exactly its excluded edges, anything else is kept |
| Exclusion.ExcludeRoutes | src/gatsby-node.js:151-161 | the `for ... in r.data` loop keeps every key in its place and replaces each non-empty connection by its filtered edges; it throws exactly when some key's filter throws |
| Exclusion.EmptyFragmentExcludesAll | src/gatsby-node.js:154-158 | a fragment that strips to "" (such as "/") removes every edge |
| Exclusion.DraftsAreExcluded | src/gatsby-node.js:154-158 | the fragment "drafts" excludes the slug "/drafts/post-1/" |
| Normalizer.LiftField | src/gatsby-node.js:60-67 | a truthy front-matter field moves to the top level and leaves `frontmatter`; a falsy one leaves the node as it is; no other key changes |
| Normalizer.LiftBoth | src/gatsby-node.js:59-68 | lifting both fields lifts exactly the truthy ones and changes nothing outside them and `frontmatter` |
| Normalizer.Normalised | src/gatsby-node.js:55-68 | the normalised node; stated by Normalizer.NormalisedShape: slug moved, truthy front-matter fields lifted, nothing else changed |
| Normalizer.NormalisedShape | src/gatsby-node.js:55-68 | the normalised node has `slug` set to the old `fields.slug`, `fields` without `slug`, the truthy front-matter fields lifted, and every other key unchanged |
| Normalizer.NormaliseMarkdown | src/gatsby-node.js:50-71 | throws exactly when `fields.slug` is not truthy: a TypeError when `fields` is missing or null, the "`slug` is a required field" error otherwise; on success the slug is moved, the front matter lifted and nothing else changed |
| Normalizer.SerializeMarkdownNodes | src/gatsby-node.js:50-71 | the step-by-step assignments and deletes give exactly the specified normalised node or error |
| PathResolver.ScanFindsFirst | src/gatsby-node.js:81-86 | the scan over built pages decides by the first page that does not skip it, and finds nothing exactly when every page skips |
| PathResolver.ResolvePath | src/gatsby-node.js:73-89 | a node without a truthy slug is returned unchanged; a non-string slug throws; otherwise it throws a TypeError when the first page that does not skip has a truthy non-string url (stated by PathResolver.BadUrlThrows), and else only `path` is set, to a string |
| PathResolver.GetNodePath | src/gatsby-node.js:73-89 | the `for ... break` scan gives exactly the specified node or error |
| PathResolver.FirstMatchWins | src/gatsby-node.js:81-85 | the first built page whose url matches gives the path, whatever matches later (tie-break) |
| PathResolver.BadUrlThrows | src/gatsby-node.js:81-86 | a built page with a truthy non-string url, met before any match, makes `getNodePath` throw a TypeError |
| PathResolver.NoMatchJoinsPrefix | src/gatsby-node.js:79 | when no built page matches, the path is `join(pathPrefix, slug)` |
| PathResolver.RootSlugTakesFirstUrl | src/gatsby-node.js:77-85 | the slug "/" takes the url of the first page that has a truthy string url |
| PathResolver.SuffixIsNotSubstring | src/gatsby-node.js:77-85 | "/about-us/" does not match the slug "/about/", so the node falls back to the joined path |
| PathResolver.TestPage | src/gatsby-node.js:82-85 | one page of the scan; stated by PathResolver.FirstMatchWins: a page with a truthy url whose slash-stripped form ends with the slug, ignoring case, gives the path |
| PathResolver.ScanPages | src/gatsby-node.js:81-86 | the scan; stated by PathResolver.ScanFindsFirst: it decides by the first page that does not skip |
| Reconcile.ClaimedPages | src/gatsby-node.js:98-108 | `usedNodes` holds exactly the claimed pages, each with its multiplicity |
| Reconcile.UnclaimedEdges | src/gatsby-node.js:110 | the remaining pages are exactly the unclaimed ones, each with its multiplicity |
| Reconcile.ClaimScan | src/gatsby-node.js:99-107 | the nested scan over every entry of every bucket sets `foundOne` exactly when the page is claimed; it throws only on a null page |
| Reconcile.UsedNodes | src/gatsby-node.js:98-108 | the filter returns the claimed pages, in order, or the TypeError of a null page |
| Reconcile.Difference | src/gatsby-node.js:110 | `_.difference`; stated by Reconcile.DifferenceIsUnclaimed: with the claimed pages removed, exactly the unclaimed ones remain, in order |
| Reconcile.ClaimedInAllBuckets | src/gatsby-node.js:100-106 | scanning the buckets in key order finds a claim exactly when one exists |
| Reconcile.DifferenceIsUnclaimed | src/gatsby-node.js:110 | `_.difference(allSiteNodes, usedNodes)` is the unclaimed pages, in order |
| Reconcile.UsedAndRemainingPartition | src/gatsby-node.js:98-110 | used and remaining pages together are the built pages, as a multiset |
| Reconcile.NoneClaimed | src/gatsby-node.js:98-110 | with no buckets every page is unclaimed, in order |
| Reconcile.PageEntry | src/gatsby-node.js:98-117 | one page's contribution; stated by Reconcile.UnclaimedPagesThrows and Reconcile.OnlyUnclaimedContribute: none for a claimed page, one resolved entry for an unclaimed one, a TypeError for a null page or a non-string url |
| Reconcile.UnclaimedPages | src/gatsby-node.js:98-117 | the `pages` list; stated by Reconcile.OneEntryPerUnclaimedPage and Reconcile.UnclaimedPagesThrows |
| Reconcile.UnclaimedPagesThrows | src/gatsby-node.js:98-117 | reconciliation throws exactly when some page is null or is unclaimed with a non-string url, and the error is a TypeError |
| Reconcile.OnlyUnclaimedContribute | src/gatsby-node.js:110-117 | claimed pages add nothing to the list |
| Reconcile.OneEntryPerUnclaimedPage | src/gatsby-node.js:112-117 | the `pages` list has one entry per unclaimed page, in built-page order, with the page as node and url `resolve(siteUrl, page.url)` |
| Reconcile.ListsUnclaimedCons | src/gatsby-node.js:112-117 | one more unclaimed page adds its entry in front |
| Reconcile.EveryPageRepresented | src/gatsby-node.js:98-117 | every built page is claimed by a source entry or has its own entry in the list |
| Reconcile.PushStep | src/gatsby-node.js:112-117 | one push of the loop appends the page's entry before those of later pages |
| Reconcile.PushRemaining | src/gatsby-node.js:112-117 | the push loop over the remaining pages builds exactly the specified list |
| Reconcile.AddPageNodes | src/gatsby-node.js:93-122 | `addPageNodes` (filter, difference, push loop) gives exactly the list of unclaimed page entries, or its TypeError |
| Reconcile.MergeDict | src/gatsby-node.js:202 | `_.merge` of objects: the empty object is an identity on either side, and a source key whose value is not an object overwrites the destination's |
| Reconcile.MergeValue | src/gatsby-node.js:202 | `_.merge` of two values; stated by Reconcile.MergeValueIdempotent and Reconcile.MergeDict |
| Reconcile.MergeValueIdempotent | src/gatsby-node.js:202 | merging a value onto itself changes nothing, at any depth |
| Reconcile.MergeDictIdempotent | src/gatsby-node.js:202 | merging an object onto itself changes nothing, at any depth |
| Reconcile.MergeEntry | src/gatsby-node.js:202 | merging a reconciliation entry onto a source entry: the url becomes the reconciliation's, the node keeps the fields of both, the reconciliation's plain values winning and fields only the source has keeping their values |
| Reconcile.MergeLists | src/gatsby-node.js:202 | `_.merge` of arrays is an index-wise overlay: its length is the longer length, overlapping indices are merged, and the longer array's tail is kept |
| Reconcile.MergePages | src/gatsby-node.js:198-204 | the merge changes only the `pages` bucket; it becomes the list (appended last in key order) when no source fed it, and the overlay otherwise |
| Reconcile.ClaimedEntryOverlaid | src/gatsby-node.js:200-202 | a source entry in `pages` that claims the page "/x/" is overlaid by the entry of the unclaimed page "/y/": the bucket ends with one entry, carrying the url of "/y/" |
| Aggregator.AddSource | src/gatsby-node.js:172-196 | one source step keeps the buckets well formed |
| Records.BucketOf | src/gatsby-node.js:173 | the bucket a source feeds is a non-empty name; stated fully by Records.MappedFeeds and Records.BucketOfMeaning |
| Records.BucketOfMeaning | src/gatsby-node.js:173 | a source feeds a bucket only when the mapping has its key with a truthy `sitemap`, and the bucket is that sitemap name; a source without a mapping key feeds none |
| Records.MappedFeeds | src/gatsby-node.js:173 | a source whose first mapping key has a truthy `sitemap` feeds exactly that bucket, and one whose `sitemap` is falsy feeds none: with BucketOfMeaning, a source feeds a bucket exactly when its mapping names it |
| Records.LookupFirst | src/gatsby-node.js:173 | `mapping[type]` reads the first pair with that key |
| Records.Buckets.Ensure | src/gatsby-node.js:177 | an existing bucket is left as it is; a new one is created empty, last in key order; the buckets stay well formed |
| Records.Buckets.Push | src/gatsby-node.js:190-193 | the entries are appended to that bucket only, and the key order is unchanged |
| Aggregator.BucketsFrom | src/gatsby-node.js:172-197 | the source loop keeps the buckets well formed |
| Aggregator.PushTwice | src/gatsby-node.js:190-193 | two pushes to one bucket are one push of the concatenation |
| Aggregator.PushEdgeStep | src/gatsby-node.js:178-194 | one edge of the `edges.map` pushes its entries before those of the later edges |
| Aggregator.CollectSource | src/gatsby-node.js:173-196 | the loop body for one source, with its edge loop, gives exactly the specified step |
| Aggregator.Serialize | src/gatsby-node.js:166-205 | `serialize` gives exactly the source buckets with the reconciliation list merged in, or the error |
| Aggregator.Serialized | src/gatsby-node.js:166-205 | the value of `serialize`; stated by Aggregator.OtherBucketsSurvive, Aggregator.EveryPageInSitemap and Aggregator.NoSourcesListsEveryPage |
| Aggregator.AddSourceEffect | src/gatsby-node.js:173-194 | an unmapped or null source changes nothing; a mapped one appends its bucket name if new and its entries to its bucket |
| Aggregator.AddSourceBucket | src/gatsby-node.js:177-193 | what one source does to a single bucket |
| Aggregator.BucketContentsStep | src/gatsby-node.js:172-194 | one source of the reference bucket contents |
| Aggregator.NewNamesStep | src/gatsby-node.js:177 | one source of the reference key order |
| Aggregator.BucketsFromNames | src/gatsby-node.js:172-177 | buckets are created in order of their first feeding source |
| Aggregator.BucketsFromContents | src/gatsby-node.js:172-194 | every bucket holds its earlier entries followed by those of every source that feeds it |
| Aggregator.BucketsMeaning | src/gatsby-node.js:172-197 | bucket names are in first-feeding-source order, and each bucket holds the entries of all sources that feed it (same-named buckets accumulate), in source order then edge order |
| Aggregator.BucketsFromThrows | src/gatsby-node.js:172-194 | the source loop throws exactly when some mapped, non-null source throws, with the error of the first such source |
| Aggregator.ListsNodesCons | src/gatsby-node.js:178-193 | one more edge adds its entry in front |
| Aggregator.ProcessNode | src/gatsby-node.js:183-188 | one node's processing; stated by Aggregator.ProcessKeepsFields |
| Aggregator.EdgeEntries | src/gatsby-node.js:178-193 | one edge's entries; stated by Aggregator.OneEntryPerNode and Aggregator.SourceEntriesThrows |
| Aggregator.SourceEntries | src/gatsby-node.js:178-194 | the `edges.map` of one connection; stated by Aggregator.OneEntryPerNode and Aggregator.SourceEntriesThrows |
| Aggregator.OneEntryPerNode | src/gatsby-node.js:178-194 | a connection gives one entry per non-null node, in edge order, holding the processed node and url `resolve(siteUrl, node.path)` |
| Aggregator.SourceEntriesThrows | src/gatsby-node.js:178-194 | a connection throws exactly when one of its edges throws |
| Aggregator.ProcessKeepsFields | src/gatsby-node.js:183-188 | processing a node changes only `path` and, for markdown, the normalised keys |
| Aggregator.OtherBucketsSurvive | src/gatsby-node.js:202 | after the merge every bucket other than `pages` is as the sources left it |
| Aggregator.EveryPageInSitemap | src/gatsby-node.js:200-202 | every built page was claimed by a source entry before the merge, or has an entry in the `pages` bucket whose url is resolved from the page's url (a claimed page may still lose its entry to the overlay, see Reconcile.ClaimedEntryOverlaid) |
| Aggregator.NoSourcesListsEveryPage | src/gatsby-node.js:166-205 | without sources the only bucket is `pages`, and it lists every built page in order with its resolved url |
| SourceMapper.UniqFrom | src/gatsby-node.js:141 | `_.uniqBy` keeps only items of the input, none with a name already taken, and the kept names are distinct |
| SourceMapper.UniqCovers | src/gatsby-node.js:141 | every name not taken before appears in the result |
| SourceMapper.UniqKeepsFirst | src/gatsby-node.js:141 | every kept item is the first item of the input with its name |
| SourceMapper.UniqKeepsOrder | src/gatsby-node.js:141 | the result keeps input order |
| SourceMapper.ToSource | src/gatsby-node.js:131-139 | the `_.map` callback; stated by SourceMapper.NameFallsBackToSitemap |
| SourceMapper.NameFallsBackToSitemap | src/gatsby-node.js:131-141 | every mapping value is listed under its name when that is a non-empty string and under its sitemap otherwise, and every listed sitemap is some value's sitemap |
| SourceMapper.Sources | src/gatsby-node.js:124-144 | the value of `serializeSources`; stated by SourceMapper.SourcesMeaning and SourceMapper.FirstNameWins |
| SourceMapper.SerializeSources | src/gatsby-node.js:124-144 | the push loop, map and `uniqBy` give exactly the specified list |
| SourceMapper.SourcesMeaning | src/gatsby-node.js:124-144 | names are distinct, every mapping value's name is present, items follow key order, and each is the first value with its name |
| SourceMapper.FirstNameWins | src/gatsby-node.js:136-141 | for duplicate names the first mapping value in key order is the one listed |
| Templating.ReplaceAll | src/gatsby-node.js:43 | global replacement; stated by Templating.ReplaceAllJoined and Templating.ReplaceAllAbsent |
| Templating.ReplaceFirst | src/gatsby-node.js:275 | first-occurrence replacement; stated by Templating.ReplaceAfterHead and Templating.ResourcePathWithoutToken |
| Templating.ReplaceAllAbsent | src/gatsby-node.js:43 | a template without the token is unchanged |
| Templating.ReplaceAllSkipsPrefix | src/gatsby-node.js:43 | text in which no occurrence of the token starts is copied unchanged, whatever characters it holds |
| Templating.ReplaceAllJoined | src/gatsby-node.js:43 | for a token that cannot overlap itself, text made of token-free parts separated by tokens comes out with the replacement between the same parts: every occurrence is replaced and nothing else changes |
| Templating.BlogUrlTokenHasNoBorder | src/gatsby-node.js:37 | `{{blog-url}}` cannot overlap itself |
| Templating.Stylesheet | src/gatsby-node.js:36-43 | the written stylesheet; stated by Templating.StylesheetFillsEveryToken and Templating.StylesheetWithoutToken |
| Templating.StylesheetFillsEveryToken | src/gatsby-node.js:37-43 | for any template, written as pieces without the token joined by tokens, every `{{blog-url}}` becomes `resolve(siteUrl, "/sitemap.xml")` and the pieces, braces included, are kept |
| Templating.StylesheetKeepsOtherBraces | src/gatsby-node.js:37-43 | braces of the template's own beside the token are kept |
| Templating.StylesheetWithoutToken | src/gatsby-node.js:43 | a stylesheet without the token is written unchanged |
| Templating.IndexOfAt | src/gatsby-node.js:275 | the first occurrence of the token is found at a position where it occurs and before which no occurrence starts |
| Templating.ReplaceAfterHead | src/gatsby-node.js:275 | only the first `:resource` is replaced, by the name |
| Templating.ResourceFilePath | src/gatsby-node.js:275 | the resource sitemap's file name; stated by Templating.ResourceFileName and Templating.ResourcePathWithoutToken |
| Templating.ResourceFileName | src/gatsby-node.js:275 | under a directory without `:`, a resource sitemap is written to `sitemap-<name>.xml` |
| Templating.UnnamedResourceFile | src/gatsby-node.js:275 | a sitemap without a name is written to `sitemap-undefined.xml` |
| Templating.ResourcePathWithoutToken | src/gatsby-node.js:275 | a file name without the token is used as it is |

## Left out

- File reading and writing are not modelled: the stylesheet template read, and the writes of the stylesheet, the index and the resource sitemaps. The model states only the text that is written and the name it is written under.
- The `forEach(async ...)` write loop, whose errors escape the `try`, is not modelled, and neither is the `console.error` catch.
- The GraphQL handler and the `r.errors` check of `runQuery` are calls into code outside the core. Only the exclusion filter is modelled, over the data such a query returns.
- `onPostBuild` orchestration is not modelled. This covers option defaults, the `options` self-reference, `mapping` read before its default is applied, and the module-global `siteUrl`. The site URL, built pages, path prefix and mapping are parameters.
- `Manager` and its XML output are not part of this model, and neither are the default options.
- `path.join` and `url.resolve` are uninterpreted function parameters. A `url.resolve` argument that is not a string throws a TypeError, and that case is modelled.
- PathResolver.ResolvePath: the slug is matched as a literal suffix. Regular-expression metacharacters in a slug are not modelled, and case folding is ASCII only.
- Templating.ResourceFilePath: replacement text is inserted literally. The `$` patterns of `String.prototype.replace` are not modelled.
- Templating.Stylesheet: the resolved index URL is inserted literally as well. A `$&` or `$1` in it would be expanded by `replace`; `url.resolve` is a parameter here, so that case is not modelled.
- Nodes are values (maps), not shared heap objects. So the model does not show that `serializeMarkdownNodes`, `getNodePath` and `_.merge` update the query-result objects in place, or any effect of that through aliasing. Within the pipeline only the returned node is used.
- Reconcile.Difference: `_.difference` compares by value here, where the code compares object references. The two agree because whether a page is claimed depends only on its contents.
- Mapping values are records with an optional string `sitemap` and `name`. A null mapping value, and non-string `sitemap` or `name` values, are not modelled.
- Only three shapes of a query-result value are modelled: null, an object without `edges`, and a connection. Other falsy values are not modelled.
- Key enumeration order is the given sequence order. JavaScript's reordering of integer-like keys is not modelled.
- Numbers are integers. Floating point is not modelled.
- Aggregator.Serialize returns the merged buckets object itself. The code wraps it in a one-element array.
- SourceMapper.SourcesMeaning: duplicate display names keep the first mapping value, as lodash `uniqBy` does in the code. A last-write reading of duplicates is not what the code does and is not modelled.
- Reconcile.MergePages: when a source already feeds `pages`, the index-wise overlay replaces the url of the first source entries by reconciliation urls. It merges page nodes into the source nodes. It keeps every source entry beyond the list's length. This is modelled as written.
- Exclusion.ExcludeRoutes: `exclude` is a list of strings. A non-string entry, whose `replace` throws a TypeError, is not modelled.
- Aggregator.Serialize and Reconcile.UnclaimedPages: `siteUrl` is a string. A missing `siteMetadata.siteUrl`, with which `url.resolve` throws, is not modelled.
- Reconcile.MergeValue: values have no arrays, so `_.merge` of two array-valued node fields, which lodash merges index by index, is not modelled; such fields would be replaced whole. The arrays `_.merge` meets at the top (the buckets object and each bucket) are modelled, by Reconcile.MergePages and Reconcile.MergeLists.
- Records.Lookup: `QueryData` and `Mapping` may hold a key twice, which a JavaScript object cannot. `Lookup` reads the first pair, while the key loops visit every pair. Keys inherited from `Object.prototype` are not modelled either: a bucket named `constructor` would make `sourceObject[b] || []` return a function, and its `push` would throw.
