/** The two token substitutions of the build step: the site's index sitemap
    URL written into the stylesheet template, and a sitemap's name written
    into the resource file name. Both tokens are literal text without
    regular-expression metacharacters, so a match is a literal occurrence. */
module Templating {
  import opened JsValues
  import opened Text

  /** The placeholder in the stylesheet template (`/(\{\{blog-url\}\})/g`). */
  const BlogUrlToken := "{{blog-url}}"

  /** The index sitemap's file (INDEXFILE, also `options.indexOutput`). */
  const IndexFile := "/sitemap.xml"

  /** The placeholder in the resource file name (`/:resource/`). */
  const ResourceToken := ":resource"

  /** The resource sitemaps' file name pattern (RESOURCESFILE). */
  const ResourcesFile := "/sitemap-:resource.xml"

  /** `s.replace(/t/g, r)` for a literal, non-empty `t`: every occurrence,
      found left to right without overlap, becomes `r`. */
  function ReplaceAll(s: string, t: string, r: string): string
    requires |t| > 0
  {
    if s == [] then []
    else if t <= s then r + ReplaceAll(s[|t|..], t, r)
    else [s[0]] + ReplaceAll(s[1..], t, r)
  }

  /** `s.replace(/t/, r)` for a literal `t`: only the first occurrence
      becomes `r`. */
  function ReplaceFirst(s: string, t: string, r: string): string {
    var i := IndexOf(s, t);
    if i < 0 then s else s[..i] + r + s[i + |t|..]
  }

  /** A text without the token is left as it is. */
  lemma {:induction false} ReplaceAllAbsent(s: string, t: string, r: string)
    requires |t| > 0 && !IsSubstring(t, s)
    ensures ReplaceAll(s, t, r) == s
  {
    if s != [] {
      assert s[0..] == s;
      ReplaceAllAbsent(s[1..], t, r);
    }
  }

  /** Text before the first occurrence of the token is copied unchanged: when
      no occurrence starts inside `p`, the replacement starts after it. */
  lemma {:induction false} ReplaceAllSkipsPrefix(p: string, s: string, t: string, r: string)
    requires |t| > 0
    requires forall i :: 0 <= i < |p| ==> !(t <= (p + s)[i..])
    ensures ReplaceAll(p + s, t, r) == p + ReplaceAll(s, t, r)
  {
    if p != [] {
      assert (p + s)[0..] == p + s;
      assert (p + s)[1..] == p[1..] + s;
      forall i | 0 <= i < |p[1..]|
        ensures !(t <= (p[1..] + s)[i..])
      {
        assert (p[1..] + s)[i..] == (p + s)[i + 1..];
      }
      ReplaceAllSkipsPrefix(p[1..], s, t, r);
    } else {
      assert p + s == s;
    }
  }

  /** `t` overlaps no shifted copy of itself: no proper suffix of `t` is a
      prefix of `t`, so two occurrences of `t` never overlap. */
  predicate NoBorder(t: string) {
    forall m :: 0 < m < |t| ==> !(t[m..] <= t)
  }

  /** The placeholder has no border. */
  lemma BlogUrlTokenHasNoBorder()
    ensures NoBorder(BlogUrlToken)
  {
    var t := BlogUrlToken;
    forall m | 0 < m < |t|
      ensures !(t[m..] <= t)
    {
      if m == 1 {
        assert t[1..][1] != t[1];
      } else {
        assert t[m..][0] != t[0];
      }
    }
  }

  /** Two occurrences of `t` in `x`, `m` characters apart with `m` shorter
      than `t`, overlap: a suffix of `t` is then also a prefix of `t`. */
  lemma ShiftedOccurrence(t: string, x: string, i: nat, m: nat)
    requires 0 < m < |t| && i + m <= |x| && t <= x[i + m..]
    ensures t <= x[i..] ==> t[m..] <= t
  {
    forall j | 0 <= j < |t| - m
      ensures t <= x[i..] ==> t[m..][j] == t[j]
    {
      assert x[i..][m + j] == x[i + m..][j];
    }
  }

  /** In a piece without the token followed by the token, an occurrence of a
      border-free token can only start at the token itself. */
  lemma NoOccurrenceInPiece(p: string, t: string, rest: string)
    requires |t| > 0 && NoBorder(t) && !IsSubstring(t, p)
    ensures forall i :: 0 <= i < |p| ==> !(t <= (p + (t + rest))[i..])
  {
    var x := p + (t + rest);
    forall i | 0 <= i < |p|
      ensures !(t <= x[i..])
    {
      if i + |t| <= |p| {
        assert !(t <= p[i..]);
        assert x[i..][..|t|] == p[i..][..|t|];
      } else {
        var m := |p| - i;
        assert x[i + m..] == t + rest;
        ShiftedOccurrence(t, x, i, m);
        assert !(t[m..] <= t);
      }
    }
  }

  /** `parts` joined with `sep` between neighbours. */
  function Join(parts: seq<string>, sep: string): string {
    if parts == [] then []
    else if |parts| == 1 then parts[0]
    else parts[0] + sep + Join(parts[1..], sep)
  }

  /** Every occurrence of a border-free token is replaced and nothing else
      changes: a text made of parts without the token, separated by tokens,
      comes out with the replacement between the same parts. */
  lemma {:induction false} ReplaceAllJoined(parts: seq<string>, t: string, r: string)
    requires |t| > 0 && NoBorder(t)
    requires forall i :: 0 <= i < |parts| ==> !IsSubstring(t, parts[i])
    ensures ReplaceAll(Join(parts, t), t, r) == Join(parts, r)
  {
    if |parts| == 1 {
      assert parts[0] + [] == parts[0];
      ReplaceAllSkipsPrefix(parts[0], [], t, r);
    } else if |parts| > 1 {
      var rest := Join(parts[1..], t);
      ReplaceAllJoined(parts[1..], t, r);
      NoOccurrenceInPiece(parts[0], t, rest);
      ReplaceAllSkipsPrefix(parts[0], t + rest, t, r);
      assert parts[0] + t + rest == parts[0] + (t + rest);
      assert (t + rest)[|t|..] == rest && t <= t + rest;
      assert ReplaceAll(t + rest, t, r) == r + ReplaceAll(rest, t, r);
    }
  }

  /** `sitemapStylesheet` in `copyStylesheet`: every `{{blog-url}}` in the
      template becomes the site URL resolved against the index file. */
  function Stylesheet(template: string, siteUrl: string, resolve: (string, string) -> string): string {
    ReplaceAll(template, BlogUrlToken, resolve(siteUrl, IndexFile))
  }

  /** The stylesheet of a template made of pieces without the token, joined
      by tokens, is those pieces with the index URL wherever the token was;
      other braces in the template are kept. */
  lemma StylesheetFillsEveryToken(pieces: seq<string>, siteUrl: string, resolve: (string, string) -> string)
    requires forall i :: 0 <= i < |pieces| ==> !IsSubstring(BlogUrlToken, pieces[i])
    ensures Stylesheet(Join(pieces, BlogUrlToken), siteUrl, resolve) == Join(pieces, resolve(siteUrl, IndexFile))
  {
    BlogUrlTokenHasNoBorder();
    ReplaceAllJoined(pieces, BlogUrlToken, resolve(siteUrl, IndexFile));
  }

  /** A template with braces of its own around the token. */
  lemma StylesheetKeepsOtherBraces(siteUrl: string, resolve: (string, string) -> string)
    ensures Stylesheet("{a}" + BlogUrlToken + "b", siteUrl, resolve) == "{a}" + resolve(siteUrl, IndexFile) + "b"
  {
    var pieces := ["{a}", "b"];
    forall i | 0 <= i < |pieces|
      ensures !IsSubstring(BlogUrlToken, pieces[i])
    {
      assert |pieces[i]| < |BlogUrlToken|;
    }
    StylesheetFillsEveryToken(pieces, siteUrl, resolve);
    assert Join(pieces, BlogUrlToken) == "{a}" + BlogUrlToken + "b";
    assert Join(pieces, resolve(siteUrl, IndexFile)) == "{a}" + resolve(siteUrl, IndexFile) + "b";
  }

  /** A template without the token is written unchanged. */
  lemma StylesheetWithoutToken(template: string, siteUrl: string, resolve: (string, string) -> string)
    requires !IsSubstring(BlogUrlToken, template)
    ensures Stylesheet(template, siteUrl, resolve) == template
  {
    ReplaceAllAbsent(template, BlogUrlToken, resolve(siteUrl, IndexFile));
  }

  /** `filePath` in the write loop: `resourcesSitemapFile.replace(/:resource/,
      sitemap.type)`, where an undefined name is written as "undefined". */
  function ResourceFilePath(resourcesSitemapFile: string, name: Option<string>): string {
    ReplaceFirst(resourcesSitemapFile, ResourceToken, JsString(name))
  }

  /** The first occurrence of `t` is at `at` when `t` occurs there and no
      occurrence starts before. */
  lemma IndexOfAt(s: string, t: string, at: nat)
    requires at <= |s| && t <= s[at..]
    requires forall j :: 0 <= j < at ==> !(t <= s[j..])
    ensures IndexOf(s, t) == at
  {
    assert IsSubstring(t, s);
  }

  /** The first `:resource` of a file name whose part before it holds no `:`
      is the one after that part. */
  lemma ReplaceAfterHead(head: string, tail: string, n: string)
    requires ':' !in head
    ensures ReplaceFirst(head + ResourceToken + tail, ResourceToken, n) == head + n + tail
  {
    var s := head + ResourceToken + tail;
    assert s[|head|..] == ResourceToken + tail;
    forall j | 0 <= j < |head|
      ensures !(ResourceToken <= s[j..])
    {
      assert s[j..][0] == s[j] == head[j];
    }
    IndexOfAt(s, ResourceToken, |head|);
    assert s[..|head|] == head;
    assert s[|head| + |ResourceToken|..] == tail;
  }

  /** A directory without a `:` followed by `/sitemap-` has none either. */
  lemma NoColonInHead(dir: string)
    requires ':' !in dir
    ensures ':' !in dir + "/sitemap-"
  {
    var head := dir + "/sitemap-";
    forall j | 0 <= j < |head|
      ensures head[j] != ':'
    {
      if j >= |dir| {
        assert head[j] == "/sitemap-"[j - |dir|];
      }
    }
  }

  /** Under any directory without a `:`, a resource sitemap is written to
      `sitemap-<name>.xml` in that directory. */
  lemma ResourceFileName(dir: string, name: Option<string>)
    requires ':' !in dir
    ensures ResourceFilePath(dir + ResourcesFile, name) == dir + "/sitemap-" + JsString(name) + ".xml"
  {
    var head := dir + "/sitemap-";
    NoColonInHead(dir);
    assert dir + ResourcesFile == head + ResourceToken + ".xml" by {
      assert ResourcesFile == "/sitemap-" + ResourceToken + ".xml";
    }
    ReplaceAfterHead(head, ".xml", JsString(name));
  }

  /** A sitemap without a name is written to `sitemap-undefined.xml`. */
  lemma UnnamedResourceFile(dir: string)
    requires ':' !in dir
    ensures ResourceFilePath(dir + ResourcesFile, None) == dir + "/sitemap-undefined.xml"
  {
    ResourceFileName(dir, None);
    assert dir + "/sitemap-" + "undefined" + ".xml" == dir + "/sitemap-undefined.xml";
  }

  /** A file name without the token is used as it is. */
  lemma ResourcePathWithoutToken(path: string, name: Option<string>)
    requires !IsSubstring(ResourceToken, path)
    ensures ResourceFilePath(path, name) == path
  {
  }
}
