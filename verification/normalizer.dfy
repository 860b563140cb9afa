/** `serializeMarkdownNodes`: brings a markdown node into the shape of the
    other sources by moving `fields.slug` to `slug` and lifting the publish
    date and feature image out of `frontmatter`. */
module Normalizer {
  import opened JsValues

  /** The front-matter fields that are lifted to the top level. */
  const LiftedKeys: set<string> := {"published_at", "feature_image"}

  /** The top-level keys the normaliser may change. */
  const TouchedKeys: set<string> := {"slug", "fields", "frontmatter"} + LiftedKeys

  /** `node.fields.slug` is readable and truthy. */
  predicate HasMarkdownSlug(node: Dict) {
    "fields" in node && node["fields"].Obj? && TruthyAt(node["fields"].props, "slug")
  }

  /** Key `k` is equally present, with an equal value, in `a` and `b`. */
  predicate Unchanged(a: Dict, b: Dict, k: string) {
    (k in a <==> k in b) && (k in a ==> a[k] == b[k])
  }

  /** `n` carries the old `fields.slug` as `slug`, and `fields` lost it. */
  predicate MovedSlug(node: Dict, n: Dict)
    requires HasMarkdownSlug(node)
  {
    var fields := node["fields"].props;
    "slug" in n && n["slug"] == fields["slug"] &&
    "fields" in n && n["fields"] == Obj(fields - {"slug"})
  }

  /** Each front-matter field in LiftedKeys is at the top level of `n` and
      gone from `n.frontmatter` when it was truthy, and left where it was
      otherwise. */
  predicate LiftedFrontmatter(node: Dict, n: Dict) {
    if "frontmatter" in node && node["frontmatter"].Obj? then
      var fm := node["frontmatter"].props;
      (forall k :: k in LiftedKeys && TruthyAt(fm, k) ==> k in n && n[k] == fm[k]) &&
      (forall k :: k in LiftedKeys && !TruthyAt(fm, k) ==> Unchanged(node, n, k)) &&
      "frontmatter" in n && n["frontmatter"] == Obj(fm - set k | k in LiftedKeys && TruthyAt(fm, k))
    else
      forall k :: k in LiftedKeys + {"frontmatter"} ==> Unchanged(node, n, k)
  }

  /** `if (node.frontmatter[key]) { node[key] = node.frontmatter[key]; delete node.frontmatter[key] }` */
  function LiftField(node: Dict, key: string): (r: Dict)
    requires key in LiftedKeys && "frontmatter" in node && node["frontmatter"].Obj?
    ensures "frontmatter" in r && r["frontmatter"].Obj?
    ensures var fm := node["frontmatter"].props;
      if TruthyAt(fm, key) then
        key in r && r[key] == fm[key] && r["frontmatter"].props == fm - {key}
      else r == node
    ensures forall k :: k != key && k != "frontmatter" ==> Unchanged(node, r, k)
  {
    var fm := node["frontmatter"].props;
    if TruthyAt(fm, key) then node[key := fm[key]]["frontmatter" := Obj(fm - {key})] else node
  }

  /** The node `serializeMarkdownNodes` returns when the slug is readable. */
  function Normalised(node: Dict): Dict
    requires HasMarkdownSlug(node)
  {
    var fields := node["fields"].props;
    var moved := node["slug" := fields["slug"]]["fields" := Obj(fields - {"slug"})];
    if "frontmatter" in moved && moved["frontmatter"].Obj? then
      LiftField(LiftField(moved, "published_at"), "feature_image")
    else
      moved
  }

  /** Lifting both fields out of a front-matter object. */
  lemma LiftBoth(m: Dict)
    requires "frontmatter" in m && m["frontmatter"].Obj?
    ensures var lifted := LiftField(LiftField(m, "published_at"), "feature_image");
      LiftedFrontmatter(m, lifted) && forall k :: k !in LiftedKeys + {"frontmatter"} ==> Unchanged(m, lifted, k)
  {
    var fm := m["frontmatter"].props;
    var once := LiftField(m, "published_at");
    assert once["frontmatter"].props == fm - (if TruthyAt(fm, "published_at") then {"published_at"} else {});
    assert TruthyAt(once["frontmatter"].props, "feature_image") == TruthyAt(fm, "feature_image");
    assert (set k | k in LiftedKeys && TruthyAt(fm, k)) ==
      (if TruthyAt(fm, "published_at") then {"published_at"} else {}) +
      (if TruthyAt(fm, "feature_image") then {"feature_image"} else {});
  }

  /** The normalised node has the slug moved, the truthy front-matter fields
      lifted, and every other field as it was. */
  lemma NormalisedShape(node: Dict)
    requires HasMarkdownSlug(node)
    ensures MovedSlug(node, Normalised(node)) && LiftedFrontmatter(node, Normalised(node))
    ensures forall k :: k !in TouchedKeys ==> Unchanged(node, Normalised(node), k)
  {
    var fields := node["fields"].props;
    var moved := node["slug" := fields["slug"]]["fields" := Obj(fields - {"slug"})];
    assert forall k :: k != "slug" && k != "fields" ==> Unchanged(node, moved, k);
    if "frontmatter" in moved && moved["frontmatter"].Obj? {
      LiftBoth(moved);
    }
  }

  /** What `serializeMarkdownNodes(node)` gives. Reading `slug` from a
      missing or null `fields` throws a TypeError; a falsy slug throws the
      "`slug` is a required field" error. Otherwise the slug moves to the top
      level, the truthy front-matter fields are lifted, and nothing else
      changes. */
  function NormaliseMarkdown(node: Dict): (r: Result<Dict>)
    ensures r.Throw? <==> !HasMarkdownSlug(node)
    ensures r == Throw(TypeError) <==> "fields" !in node || node["fields"] == Null
    ensures r.Ok? ==> MovedSlug(node, r.value) && LiftedFrontmatter(node, r.value)
    ensures r.Ok? ==> forall k :: k !in TouchedKeys ==> Unchanged(node, r.value, k)
  {
    if "fields" !in node || node["fields"] == Null then Throw(TypeError)
    else if !HasMarkdownSlug(node) then Throw(MissingSlug)
    else
      NormalisedShape(node);
      Ok(Normalised(node))
  }

  /** `serializeMarkdownNodes(node)`: the assignments and deletes applied to
      the node one after the other. */
  method SerializeMarkdownNodes(node: Dict) returns (r: Result<Dict>)
    ensures r == NormaliseMarkdown(node)
  {
    if "fields" !in node || node["fields"] == Null {
      return Throw(TypeError);
    }
    if !HasMarkdownSlug(node) {
      return Throw(MissingSlug);
    }
    var fields := node["fields"].props;
    var n := node["slug" := fields["slug"]];
    n := n["fields" := Obj(fields - {"slug"})];
    if "frontmatter" in n && n["frontmatter"].Obj? {
      var fm := n["frontmatter"].props;
      if TruthyAt(fm, "published_at") {
        n := n["published_at" := fm["published_at"]];
        n := n["frontmatter" := Obj(fm - {"published_at"})];
      }
      fm := n["frontmatter"].props;
      if TruthyAt(fm, "feature_image") {
        n := n["feature_image" := fm["feature_image"]];
        n := n["frontmatter" := Obj(fm - {"feature_image"})];
      }
    }
    return Ok(n);
  }
}
