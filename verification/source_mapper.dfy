/** `serializeSources`: the list of sitemaps the index links to, one per
    distinct name, taken from the `mapping` option. */
module SourceMapper {
  import opened JsValues
  import opened Sequences
  import opened Records

  /** One `{ name, sitemap }` item of the list. */
  datatype SitemapSource = SitemapSource(name: Option<string>, sitemap: Option<string>)

  /** The `_.map` callback: the name falls back to the sitemap when it is
      falsy. */
  function ToSource(m: MapEntry): SitemapSource {
    SitemapSource(if TruthyString(m.name) then m.name else m.sitemap, m.sitemap)
  }

  /** `s[i]` is the first item of `s` with its name. */
  predicate FirstWithName(s: seq<SitemapSource>, i: int)
    requires 0 <= i < |s|
  {
    forall j :: 0 <= j < i ==> s[j].name != s[i].name
  }

  /** The names of the items of `r` are pairwise different. */
  predicate DistinctNames(r: seq<SitemapSource>) {
    forall i, j :: 0 <= i < j < |r| ==> r[i].name != r[j].name
  }

  /** Some item of `r` carries `name`. */
  predicate HasName(r: seq<SitemapSource>, name: Option<string>) {
    exists x :: x in r && x.name == name
  }

  /** `_.uniqBy(s, "name")` once the names in `seen` are taken: the first
      item of every name not yet taken, in order. */
  function UniqFrom(s: seq<SitemapSource>, seen: set<Option<string>>): (r: seq<SitemapSource>)
    ensures forall x :: x in r ==> x in s && x.name !in seen
    ensures DistinctNames(r)
  {
    if s == [] then []
    else if s[0].name in seen then UniqFrom(s[1..], seen)
    else
      var r := UniqFrom(s[1..], seen + {s[0].name});
      assert forall k :: 0 < k <= |r| ==> ([s[0]] + r)[k] == r[k - 1];
      [s[0]] + r
  }

  /** Every name not taken before appears in the result. */
  lemma {:induction false} UniqCovers(s: seq<SitemapSource>, seen: set<Option<string>>, i: nat)
    requires i < |s| && s[i].name !in seen
    ensures HasName(UniqFrom(s, seen), s[i].name)
  {
    if s[0].name in seen || (i > 0 && s[i].name != s[0].name) {
      assert s[i] == s[1..][i - 1];
      UniqCovers(s[1..], if s[0].name in seen then seen else seen + {s[0].name}, i - 1);
      var x :| x in UniqFrom(s[1..], if s[0].name in seen then seen else seen + {s[0].name}) && x.name == s[i].name;
      assert x in UniqFrom(s, seen);
    } else {
      assert s[0] in UniqFrom(s, seen);
    }
  }

  /** Every item of the result is the first item of `s` with its name. */
  lemma {:induction false} UniqKeepsFirst(s: seq<SitemapSource>, seen: set<Option<string>>, x: SitemapSource)
    requires x in UniqFrom(s, seen)
    ensures exists i :: 0 <= i < |s| && s[i] == x && FirstWithName(s, i)
  {
    if s[0] == x && s[0].name !in seen {
      assert FirstWithName(s, 0);
    } else {
      var seen' := if s[0].name in seen then seen else seen + {s[0].name};
      assert x in UniqFrom(s[1..], seen');
      UniqKeepsFirst(s[1..], seen', x);
      var i :| 0 <= i < |s[1..]| && s[1..][i] == x && FirstWithName(s[1..], i);
      assert x.name != s[0].name;
      assert s[i + 1] == x;
      assert forall j :: 1 <= j < i + 1 ==> s[j] == s[1..][j - 1];
    }
  }

  /** The result keeps the order of `s`. */
  lemma {:induction false} UniqKeepsOrder(s: seq<SitemapSource>, seen: set<Option<string>>)
    ensures IsSubsequence(UniqFrom(s, seen), s)
  {
    if s != [] {
      var seen' := if s[0].name in seen then seen else seen + {s[0].name};
      UniqKeepsOrder(s[1..], seen');
      var r := UniqFrom(s[1..], seen');
      if s[0].name !in seen {
        assert ([s[0]] + r)[1..] == r;
      }
    }
  }

  /** The mapping values in key order (`sitemaps` after the `for ... in` loop). */
  function Values(mapping: Mapping): (r: seq<MapEntry>)
    ensures |r| == |mapping| && forall i :: 0 <= i < |mapping| ==> r[i] == mapping[i].1
  {
    seq(|mapping|, i requires 0 <= i < |mapping| => mapping[i].1)
  }

  /** `_.map(sitemaps, ToSource)`. */
  function Named(ms: seq<MapEntry>): (r: seq<SitemapSource>)
    ensures |r| == |ms| && forall i :: 0 <= i < |ms| ==> r[i] == ToSource(ms[i])
  {
    seq(|ms|, i requires 0 <= i < |ms| => ToSource(ms[i]))
  }

  /** The value of `serializeSources(mapping)`. */
  function Sources(mapping: Mapping): seq<SitemapSource> {
    UniqFrom(Named(Values(mapping)), {})
  }

  /** `serializeSources(mapping)`: the loop that collects the values of
      `mapping` in key order, then `_.map` and `_.uniqBy(..., "name")`. */
  method SerializeSources(mapping: Mapping) returns (r: seq<SitemapSource>)
    ensures r == Sources(mapping)
  {
    var sitemaps: seq<MapEntry> := [];
    var i := 0;
    while i < |mapping|
      invariant 0 <= i <= |mapping| && sitemaps == Values(mapping)[..i]
    {
      sitemaps := sitemaps + [mapping[i].1];
      i := i + 1;
    }
    assert Values(mapping)[..i] == Values(mapping);
    r := UniqFrom(Named(sitemaps), {});
  }

  /** The list names every mapping value's name exactly once, each time with
      the first value that carries it, in key order. */
  lemma SourcesMeaning(mapping: Mapping)
    ensures DistinctNames(Sources(mapping))
    ensures IsSubsequence(Sources(mapping), Named(Values(mapping)))
    ensures forall i :: 0 <= i < |mapping| ==> HasName(Sources(mapping), ToSource(mapping[i].1).name)
    ensures forall x :: x in Sources(mapping) ==>
      exists i :: 0 <= i < |mapping| && Named(Values(mapping))[i] == x && FirstWithName(Named(Values(mapping)), i)
  {
    var s := Named(Values(mapping));
    UniqKeepsOrder(s, {});
    forall i | 0 <= i < |mapping|
      ensures HasName(Sources(mapping), ToSource(mapping[i].1).name)
    {
      UniqCovers(s, {}, i);
    }
    forall x | x in Sources(mapping)
      ensures exists i :: 0 <= i < |mapping| && s[i] == x && FirstWithName(s, i)
    {
      UniqKeepsFirst(s, {}, x);
    }
  }

  /** Duplicate names keep the first mapping value that carries them: the
      item with that name is exactly that value's, and no later value with
      the same name appears under it. */
  lemma FirstNameWins(mapping: Mapping, i: nat)
    requires i < |mapping| && FirstWithName(Named(Values(mapping)), i)
    ensures ToSource(mapping[i].1) in Sources(mapping)
    ensures forall x :: x in Sources(mapping) && x.name == ToSource(mapping[i].1).name ==> x == ToSource(mapping[i].1)
  {
    var s := Named(Values(mapping));
    forall x | x in Sources(mapping) && x.name == s[i].name
      ensures x == s[i]
    {
      UniqKeepsFirst(s, {}, x);
      var i' :| 0 <= i' < |s| && s[i'] == x && FirstWithName(s, i');
      assert i' == i;
    }
    UniqCovers(s, {}, i);
  }

  /** Every mapping value is listed under its own name when that name is a
      non-empty string, and under its sitemap's name otherwise; the sitemap
      itself is kept either way. */
  lemma NameFallsBackToSitemap(mapping: Mapping)
    ensures forall i :: 0 <= i < |mapping| && TruthyString(mapping[i].1.name) ==>
      HasName(Sources(mapping), mapping[i].1.name)
    ensures forall i :: 0 <= i < |mapping| && !TruthyString(mapping[i].1.name) ==>
      HasName(Sources(mapping), mapping[i].1.sitemap)
    ensures forall x :: x in Sources(mapping) ==>
      exists i :: 0 <= i < |mapping| && x.sitemap == mapping[i].1.sitemap
  {
    SourcesMeaning(mapping);
    var s := Named(Values(mapping));
    forall x | x in Sources(mapping)
      ensures exists i :: 0 <= i < |mapping| && x.sitemap == mapping[i].1.sitemap
    {
      var i :| 0 <= i < |mapping| && s[i] == x && FirstWithName(s, i);
      assert x.sitemap == ToSource(mapping[i].1).sitemap;
    }
  }
}
