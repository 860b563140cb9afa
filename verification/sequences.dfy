/** Order-preservation between sequences. */
module Sequences {

  /** `a` is `b` with some elements left out, in the same order. */
  predicate IsSubsequence<T(==)>(a: seq<T>, b: seq<T>)
    decreases |b|
  {
    if a == [] then true
    else if b == [] then false
    else (a[0] == b[0] && IsSubsequence(a[1..], b[1..])) || IsSubsequence(a, b[1..])
  }

  /** The elements of `s` are pairwise different. */
  predicate Distinct<T(==)>(s: seq<T>) {
    forall i, j :: 0 <= i < j < |s| ==> s[i] != s[j]
  }

  /** Concatenation is associative. */
  lemma AppendAssoc<T>(a: seq<T>, b: seq<T>, c: seq<T>)
    ensures (a + b) + c == a + (b + c)
  {
  }

  /** Filtering by `p` one element at a time: keeping the head exactly when
      it satisfies `p` keeps every count of an element satisfying `p` and
      drops every other. */
  lemma FilterCountStep<T>(xs: seq<T>, rest: seq<T>, p: T -> bool)
    requires xs != []
    requires forall e :: multiset(rest)[e] == if p(e) then multiset(xs[1..])[e] else 0
    ensures forall e :: multiset(if p(xs[0]) then [xs[0]] + rest else rest)[e] == if p(e) then multiset(xs)[e] else 0
  {
    assert xs == [xs[0]] + xs[1..];
    assert multiset(xs) == multiset{xs[0]} + multiset(xs[1..]);
    var kept := if p(xs[0]) then [xs[0]] + rest else rest;
    assert multiset(kept) == (if p(xs[0]) then multiset{xs[0]} else multiset{}) + multiset(rest);
  }
}
