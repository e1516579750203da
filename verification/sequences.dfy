/** Sequence operations the pages rely on: JavaScript's `Array.prototype.filter`
    and the de-duplication done by spreading a `Set`, with the order facts
    the views depend on. */
module Sequences {

  /** No value occurs twice in `s`. */
  ghost predicate NoDuplicates<T>(s: seq<T>) {
    forall i, j :: 0 <= i < j < |s| ==> s[i] != s[j]
  }

  /** Every earlier element of `s` is related by `rel` to every later one. */
  ghost predicate Pairwise<T>(s: seq<T>, rel: (T, T) -> bool) {
    forall i, j :: 0 <= i < j < |s| ==> rel(s[i], s[j])
  }

  /** `a` is `b` with zero or more elements deleted, the rest kept in order. */
  ghost predicate IsSubsequence<T>(a: seq<T>, b: seq<T>)
    decreases |b|
  {
    if a == [] then true
    else if b == [] then false
    else (a[0] == b[0] && IsSubsequence(a[1..], b[1..])) || IsSubsequence(a, b[1..])
  }

  /** `Array.prototype.filter`: the elements of `s` satisfying `p`, in their
      original order, each as often as it occurs in `s`. */
  function Filter<T(!new)>(s: seq<T>, p: T -> bool): (r: seq<T>)
    ensures |r| <= |s|
    ensures forall i :: 0 <= i < |r| ==> p(r[i])
    ensures forall x :: multiset(r)[x] == (if p(x) then multiset(s)[x] else 0)
    ensures IsSubsequence(r, s)
  {
    if s == [] then []
    else
      assert s == [s[0]] + s[1..];
      if p(s[0]) then [s[0]] + Filter(s[1..], p) else Filter(s[1..], p)
  }

  /** Two predicates that agree on every element of `s` filter it alike. */
  lemma {:induction false} FilterCongruent<T(!new)>(s: seq<T>, p: T -> bool, q: T -> bool)
    requires forall i :: 0 <= i < |s| ==> p(s[i]) == q(s[i])
    ensures Filter(s, p) == Filter(s, q)
  {
    if s != [] {
      FilterCongruent(s[1..], p, q);
    }
  }

  /** Every element of a subsequence is an element of the whole. */
  lemma {:induction false} SubsequenceMembers<T>(a: seq<T>, b: seq<T>)
    requires IsSubsequence(a, b)
    ensures forall x :: x in a ==> x in b
    decreases |b|
  {
    if a != [] {
      assert b != [];
      if a[0] == b[0] && IsSubsequence(a[1..], b[1..]) {
        SubsequenceMembers(a[1..], b[1..]);
        assert a == [a[0]] + a[1..];
      } else {
        SubsequenceMembers(a, b[1..]);
      }
    }
  }

  /** Deleting elements keeps any relation that held between earlier and later ones. */
  lemma {:induction false} SubsequencePairwise<T>(a: seq<T>, b: seq<T>, rel: (T, T) -> bool)
    requires IsSubsequence(a, b)
    requires Pairwise(b, rel)
    ensures Pairwise(a, rel)
    decreases |b|
  {
    if a != [] {
      assert b != [];
      if a[0] == b[0] && IsSubsequence(a[1..], b[1..]) {
        SubsequencePairwise(a[1..], b[1..], rel);
        SubsequenceMembers(a[1..], b[1..]);
        forall i, j | 0 <= i < j < |a| ensures rel(a[i], a[j]) {
          if i == 0 {
            assert a[j] == a[1..][j - 1] && a[1..][j - 1] in a[1..];
            var m :| 0 <= m < |b[1..]| && b[1..][m] == a[j];
            assert b[m + 1] == a[j];
          } else {
            assert a[i] == a[1..][i - 1] && a[j] == a[1..][j - 1];
          }
        }
      } else {
        SubsequencePairwise(a, b[1..], rel);
      }
    }
  }

  /** Position of the first occurrence of `x` in `s`, or `|s|` when there is none. */
  function IndexOf<T(==)>(s: seq<T>, x: T): (i: nat)
    ensures i <= |s|
    ensures i < |s| <==> x in s
    ensures i < |s| ==> s[i] == x
    ensures forall j :: 0 <= j < i ==> s[j] != x
  {
    if s == [] then 0
    else if s[0] == x then 0
    else 1 + IndexOf(s[1..], x)
  }

  /** Appending an element leaves the first occurrence of anything earlier where it was. */
  lemma IndexOfAppend<T>(s: seq<T>, y: T, x: T)
    requires x in s
    ensures IndexOf(s + [y], x) == IndexOf(s, x)
  {
    assert (s + [y])[IndexOf(s, x)] == x;
  }

  /** The distinct values of `s` in order of first occurrence: what `[...new Set(s)]` gives. */
  function Distinct<T(==,!new)>(s: seq<T>): (r: seq<T>)
    ensures forall x :: x in r <==> x in s
    ensures NoDuplicates(r)
    ensures forall i, j :: 0 <= i < j < |r| ==> IndexOf(s, r[i]) < IndexOf(s, r[j])
    decreases |s|
  {
    if s == [] then []
    else
      var init := s[..|s| - 1];
      var y := s[|s| - 1];
      var d := Distinct(init);
      assert s == init + [y];
      assert forall x :: x in d ==> IndexOf(s, x) == IndexOf(init, x) by {
        forall x | x in d ensures IndexOf(s, x) == IndexOf(init, x) {
          IndexOfAppend(init, y, x);
        }
      }
      if y in d then d
      else
        assert IndexOf(s, y) == |init|;
        d + [y]
  }
}
