/** Sequence notions shared by the components: order-preserving subsequences,
    duplicate-free sequences and the array `filter` every component relies on. */
module Sequences {

  /** `a` is obtained from `b` by leaving elements out, keeping the order of the rest. */
  predicate SubsequenceOf<T(==)>(a: seq<T>, b: seq<T>)
    decreases |b|
  {
    a == [] ||
    (b != [] && ((a[0] == b[0] && SubsequenceOf(a[1..], b[1..])) || SubsequenceOf(a, b[1..])))
  }

  /** Every sequence is a subsequence of itself. */
  lemma {:induction false} SubsequenceOfSelf<T>(s: seq<T>)
    ensures SubsequenceOf(s, s)
    decreases |s|
  {
    if s != [] {
      SubsequenceOfSelf(s[1..]);
    }
  }

  /** No element occurs twice. */
  predicate Distinct<T(==)>(s: seq<T>)
  {
    forall i, j :: 0 <= i < j < |s| ==> s[i] != s[j]
  }

  /** JavaScript's `Array.prototype.filter`: the elements that pass `keep`, in their order. */
  function Filter<T(==)>(s: seq<T>, keep: T -> bool): (r: seq<T>)
    ensures |r| <= |s|
    ensures forall x :: x in r ==> x in s && keep(x)
    ensures forall x :: x in s && keep(x) ==> x in r
    ensures SubsequenceOf(r, s)
    ensures forall x :: x in s ==> multiset(r)[x] == if keep(x) then multiset(s)[x] else 0
  {
    if s == [] then []
    else
      assert s == [s[0]] + s[1..];
      if keep(s[0]) then [s[0]] + Filter(s[1..], keep)
      else Filter(s[1..], keep)
  }

  /** `filter` takes the head first, then filters the rest. */
  lemma FilterCons<T>(h: T, t: seq<T>, keep: T -> bool)
    ensures Filter([h] + t, keep) == (if keep(h) then [h] else []) + Filter(t, keep)
  {
    assert ([h] + t)[1..] == t;
  }

  /** Prepending a fresh element to a duplicate-free sequence, with or without
      dropping its last element, leaves it duplicate-free. */
  lemma DistinctPrepend<T>(h: T, s: seq<T>)
    requires Distinct(s) && h !in s && s != []
    ensures Distinct([h] + s)
    ensures Distinct([h] + s[..|s| - 1])
  {
    var t := [h] + s;
    forall i, j | 0 <= i < j < |t| ensures t[i] != t[j] {
      if i == 0 {
        assert t[j] == s[j - 1];
      } else {
        assert t[i] == s[i - 1] && t[j] == s[j - 1];
      }
    }
    assert [h] + s[..|s| - 1] == t[..|s|];
  }
}
