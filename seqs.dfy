/**
 * Order-preserving selection from a sequence: the shape of a Python list
 * comprehension `[x for x in s if keep(x)]`, shared by the product filter
 * and the memory search.
 */
module Seqs {

  /** `r` can be obtained from `s` by deleting elements, keeping the order of the rest. */
  ghost predicate IsSubsequence<T>(r: seq<T>, s: seq<T>)
    decreases |s|
  {
    if r == [] then true
    else if s == [] then false
    else (r[0] == s[0] && IsSubsequence(r[1..], s[1..])) || IsSubsequence(r, s[1..])
  }

  lemma {:induction false} SubsequenceRefl<T>(s: seq<T>)
    ensures IsSubsequence(s, s)
    decreases |s|
  {
    if s != [] {
      SubsequenceRefl(s[1..]);
    }
  }

  /** A subsequence never holds an element more often than the sequence it was taken from. */
  lemma {:induction false} SubsequenceMultiset<T>(r: seq<T>, s: seq<T>)
    requires IsSubsequence(r, s)
    ensures multiset(r) <= multiset(s)
    decreases |s|
  {
    if r != [] {
      assert s == [s[0]] + s[1..];
      if r[0] == s[0] && IsSubsequence(r[1..], s[1..]) {
        SubsequenceMultiset(r[1..], s[1..]);
        assert r == [r[0]] + r[1..];
      } else {
        SubsequenceMultiset(r, s[1..]);
      }
    }
  }

  /**
   * `[x for x in s if keep(x)]`: only elements of `s` that pass, never more
   * than `s` holds. FilterComplete adds that nothing passing is lost and the
   * order is kept.
   */
  function Filter<T>(s: seq<T>, keep: T -> bool): (r: seq<T>)
    ensures |r| <= |s|
    ensures forall x :: x in r ==> x in s && keep(x)
  {
    if s == [] then []
    else
      var rest := Filter(s[1..], keep);
      if keep(s[0]) then [s[0]] + rest else rest
  }

  /**
   * Filter keeps every passing element of `s`, as often as `s` holds it, in
   * the order of `s`.
   */
  lemma {:induction false} FilterComplete<T>(s: seq<T>, keep: T -> bool)
    ensures forall x :: x in s && keep(x) ==> x in Filter(s, keep)
    ensures forall x :: x in s && keep(x) ==> multiset(Filter(s, keep))[x] == multiset(s)[x]
    ensures IsSubsequence(Filter(s, keep), s)
    decreases |s|
  {
    if s != [] {
      var rest := Filter(s[1..], keep);
      FilterComplete(s[1..], keep);
      assert s == [s[0]] + s[1..];
      if keep(s[0]) {
        var r := [s[0]] + rest;
        assert r[1..] == rest;
        assert Filter(s, keep) == r;
      } else {
        assert Filter(s, keep) == rest;
      }
    }
  }

  /** Filtering a sequence whose elements all pass returns it unchanged. */
  lemma {:induction false} FilterAllKept<T>(s: seq<T>, keep: T -> bool)
    requires forall x :: x in s ==> keep(x)
    ensures Filter(s, keep) == s
    decreases |s|
  {
    if s != [] {
      FilterAllKept(s[1..], keep);
    }
  }

  /** Filtering depends only on the outcome of the test on the elements of `s`. */
  lemma {:induction false} FilterCongruent<T>(s: seq<T>, f: T -> bool, g: T -> bool)
    requires forall x :: x in s ==> f(x) == g(x)
    ensures Filter(s, f) == Filter(s, g)
    decreases |s|
  {
    if s != [] {
      FilterCongruent(s[1..], f, g);
    }
  }

  /** Filtering twice with the same test is filtering once. */
  lemma {:induction false} FilterIdempotent<T>(s: seq<T>, keep: T -> bool)
    ensures Filter(Filter(s, keep), keep) == Filter(s, keep)
  {
    FilterAllKept(Filter(s, keep), keep);
  }

  /** Appending one element appends it to the result exactly when it passes. */
  lemma {:induction false} FilterAppend<T>(s: seq<T>, x: T, keep: T -> bool)
    ensures Filter(s + [x], keep) == Filter(s, keep) + (if keep(x) then [x] else [])
    decreases |s|
  {
    var tailOfX: seq<T> := if keep(x) then [x] else [];
    if s == [] {
      assert s + [x] == [x] && [x][1..] == [];
    } else {
      var t := s + [x];
      assert t[0] == s[0] && t[1..] == s[1..] + [x];
      FilterAppend(s[1..], x, keep);
      var rest := Filter(s[1..], keep);
      assert Filter(t, keep) == (if keep(s[0]) then [s[0]] else []) + (rest + tailOfX);
      assert Filter(s, keep) == (if keep(s[0]) then [s[0]] else []) + rest;
    }
  }

  /**
   * The contract of Filter determines its result: any subsequence of `s` whose
   * elements all pass and which holds every passing element as often as `s`
   * does is `Filter(s, keep)`.
   */
  lemma {:induction false} FilterUnique<T>(s: seq<T>, keep: T -> bool, r: seq<T>)
    requires IsSubsequence(r, s)
    requires forall x :: x in r ==> keep(x)
    requires forall x :: x in s && keep(x) ==> multiset(r)[x] == multiset(s)[x]
    ensures r == Filter(s, keep)
    decreases |s|
  {
    if s == [] {
      assert r == [];
    } else {
      var a, tail := s[0], s[1..];
      assert s == [a] + tail;
      if r != [] && r[0] == a && IsSubsequence(r[1..], tail) {
        assert r == [a] + r[1..];
        forall x | x in tail && keep(x) ensures multiset(r[1..])[x] == multiset(tail)[x] {
          assert multiset(r)[x] == multiset([a])[x] + multiset(r[1..])[x];
        }
        FilterUnique(tail, keep, r[1..]);
      } else {
        assert IsSubsequence(r, tail);
        SubsequenceMultiset(r, tail);
        assert !keep(a);
        FilterUnique(tail, keep, r);
      }
    }
  }
}
