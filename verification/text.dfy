/** String operations the pipeline performs through JavaScript's string
    methods and regular expressions, on strings as sequences of characters. */
module Text {

  /** `p` occurs in `s` at some position. */
  predicate IsSubstring(p: string, s: string) {
    exists i :: 0 <= i <= |s| && p <= s[i..]
  }

  /** `s.indexOf(p)`: the first position at which `p` occurs in `s`, or -1. */
  function IndexOf(s: string, p: string): (r: int)
    ensures -1 <= r <= |s|
    ensures r >= 0 <==> IsSubstring(p, s)
    ensures r >= 0 ==> p <= s[r..] && forall j :: 0 <= j < r ==> !(p <= s[j..])
    decreases |s|
  {
    if p <= s then
      assert s[0..] == s;
      0
    else if s == [] then
      -1
    else
      var k := IndexOf(s[1..], p);
      SubstringOfTail(p, s);
      if k < 0 then -1 else k + 1
  }

  /** Searching past a position where `p` does not start: the occurrences of
      `p` in `s` are those in `s[1..]`, one position further on. */
  lemma SubstringOfTail(p: string, s: string)
    requires s != [] && !(p <= s)
    ensures IsSubstring(p, s) <==> IsSubstring(p, s[1..])
    ensures forall j :: 1 <= j <= |s| ==> s[j..] == s[1..][j - 1..]
  {
    if IsSubstring(p, s) {
      var i :| 0 <= i <= |s| && p <= s[i..];
      assert i != 0 && p <= s[1..][i - 1..];
    }
    if IsSubstring(p, s[1..]) {
      var i :| 0 <= i <= |s[1..]| && p <= s[1..][i..];
      assert p <= s[i + 1..];
    }
  }

  /** `s.replace(/^\/|\/$/, "")`: the regular expression is not global, so only
      the first match is removed: a leading slash if there is one, otherwise a
      trailing slash. */
  function StripOneSlash(s: string): (r: string)
    ensures |s| - 1 <= |r| <= |s|
    ensures r == s <==> (s == [] || (s[0] != '/' && s[|s| - 1] != '/'))
    ensures IsSubstring(r, s)
    ensures |s| > 0 && s[0] == '/' ==> r == s[1..]
    ensures |s| > 0 && s[0] != '/' && s[|s| - 1] == '/' ==> r == s[..|s| - 1]
  {
    if |s| > 0 && s[0] == '/' then
      assert s[1..] <= s[1..];
      s[1..]
    else if |s| > 0 && s[|s| - 1] == '/' then
      assert s[..|s| - 1] <= s[0..];
      s[..|s| - 1]
    else
      assert s <= s[0..];
      s
  }

  /** `s.replace(/\/$/, "")`: drops one trailing slash. */
  function StripTrailingSlash(s: string): (r: string)
    ensures r <= s && |s| - 1 <= |r|
    ensures r == s <==> (s == [] || s[|s| - 1] != '/')
  {
    if |s| > 0 && s[|s| - 1] == '/' then s[..|s| - 1] else s
  }

  /** ASCII case folding, as the `i` flag of a regular expression applies it
      to ASCII letters. */
  function LowerChar(c: char): char {
    if 'A' <= c <= 'Z' then (c as int + 32) as char else c
  }

  function Lower(s: string): (r: string)
    ensures |r| == |s|
    ensures forall i :: 0 <= i < |s| ==> r[i] == LowerChar(s[i])
  {
    seq(|s|, i requires 0 <= i < |s| => LowerChar(s[i]))
  }

  /** `u.match(new RegExp(x + "$", "i"))` for a slug `x` without regular
      expression metacharacters: `u` ends with `x`, ignoring ASCII case. */
  predicate EndsWithIgnoreCase(u: string, x: string) {
    |x| <= |u| && Lower(u[|u| - |x|..]) == Lower(x)
  }

  /** An exact suffix is also a case-insensitive one, and the empty pattern
      (the slug "/" after stripping) matches every url. */
  lemma SuffixMatches(u: string, x: string, prefix: string)
    requires u == prefix + x
    ensures EndsWithIgnoreCase(u, x)
    ensures EndsWithIgnoreCase(u, "")
  {
    assert u[|u| - |x|..] == x;
  }

  /** The case-insensitive test really ignores case: whatever precedes it, a
      url ending in `y` matches `x` of the same length exactly when `y` and
      `x` differ at most in ASCII letter case. */
  lemma MatchIgnoresCase(prefix: string, y: string, x: string)
    requires |y| == |x|
    ensures EndsWithIgnoreCase(prefix + y, x) <==> forall i :: 0 <= i < |x| ==> LowerChar(y[i]) == LowerChar(x[i])
  {
    var u := prefix + y;
    assert u[|u| - |x|..] == y;
    if forall i :: 0 <= i < |x| ==> LowerChar(y[i]) == LowerChar(x[i]) {
      assert Lower(y) == Lower(x);
    }
    if EndsWithIgnoreCase(u, x) {
      forall i | 0 <= i < |x|
        ensures LowerChar(y[i]) == LowerChar(x[i])
      {
        assert Lower(y)[i] == Lower(x)[i];
      }
    }
  }
}
