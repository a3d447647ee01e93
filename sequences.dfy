/** Filtering and subsequences: the shape of every "keep some, in order" loop of the extension. */
module Sequences {

  /** `s.filter(keep)`: the elements `keep` accepts, in their order. */
  function Filter<T>(s: seq<T>, keep: T -> bool): (r: seq<T>)
    ensures |r| <= |s|
  {
    if s == [] then [] else Filter(s[..|s| - 1], keep) + (if keep(s[|s| - 1]) then [s[|s| - 1]] else [])
  }

  /** `a` is obtained from `b` by deleting elements. */
  ghost predicate IsSubsequence<T>(a: seq<T>, b: seq<T>)
    decreases |b|
  {
    if a == [] then true
    else if b == [] then false
    else (a[|a| - 1] == b[|b| - 1] && IsSubsequence(a[..|a| - 1], b[..|b| - 1])) || IsSubsequence(a, b[..|b| - 1])
  }

  lemma {:induction false} FilterMembership<T>(s: seq<T>, keep: T -> bool, x: T)
    ensures x in Filter(s, keep) <==> x in s && keep(x)
    decreases |s|
  {
    if s != [] {
      FilterMembership(s[..|s| - 1], keep, x);
      assert s == s[..|s| - 1] + [s[|s| - 1]];
    }
  }

  lemma {:induction false} FilterIsSubsequence<T>(s: seq<T>, keep: T -> bool)
    ensures IsSubsequence(Filter(s, keep), s)
    decreases |s|
  {
    if s != [] {
      var r := Filter(s, keep);
      var p := s[..|s| - 1];
      FilterIsSubsequence(p, keep);
      if keep(s[|s| - 1]) {
        assert r[..|r| - 1] == Filter(p, keep);
      } else {
        assert r == Filter(p, keep);
        if r != [] {
          SubsequenceOfLonger(r, p, s[|s| - 1]);
        }
      }
    }
  }

  lemma {:induction false} SubsequenceOfLonger<T>(a: seq<T>, b: seq<T>, x: T)
    requires IsSubsequence(a, b)
    ensures IsSubsequence(a, b + [x])
    decreases |b|
  {
    if a != [] {
      assert (b + [x])[..|b + [x]| - 1] == b;
    }
  }

  /** Filtering twice is filtering once by both conditions. */
  lemma {:induction false} FilterFilter<T>(s: seq<T>, p: T -> bool, q: T -> bool, pq: T -> bool)
    requires forall x :: pq(x) == (p(x) && q(x))
    ensures Filter(Filter(s, p), q) == Filter(s, pq)
    decreases |s|
  {
    if s != [] {
      var init := s[..|s| - 1];
      FilterFilter(init, p, q, pq);
      var fp := Filter(s, p);
      if p(s[|s| - 1]) {
        assert fp[..|fp| - 1] == Filter(init, p);
      } else {
        assert fp == Filter(init, p);
      }
    }
  }

  /** A condition holds along the filtered list exactly when it holds for every kept element of the input. */
  lemma FilterEvery<T>(s: seq<T>, keep: T -> bool, ok: T -> bool)
    ensures (forall j :: 0 <= j < |Filter(s, keep)| ==> ok(Filter(s, keep)[j]))
      <==> (forall x :: x in s && keep(x) ==> ok(x))
  {
    var r := Filter(s, keep);
    if forall j :: 0 <= j < |r| ==> ok(r[j]) {
      forall x | x in s && keep(x) ensures ok(x) {
        FilterMembership(s, keep, x);
        var j :| 0 <= j < |r| && r[j] == x;
      }
    }
    if forall x :: x in s && keep(x) ==> ok(x) {
      forall j | 0 <= j < |r| ensures ok(r[j]) {
        FilterMembership(s, keep, r[j]);
      }
    }
  }

  /** Putting an element in front of the longer sequence keeps a subsequence one. */
  lemma {:induction false} SubsequenceSkipFront<T>(a: seq<T>, b: seq<T>, x: T)
    requires IsSubsequence(a, b)
    ensures IsSubsequence(a, [x] + b)
    decreases |b|
  {
    if a != [] && b != [] {
      var xb := [x] + b;
      assert xb[|xb| - 1] == b[|b| - 1];
      assert xb[..|xb| - 1] == [x] + b[..|b| - 1];
      if a[|a| - 1] == b[|b| - 1] && IsSubsequence(a[..|a| - 1], b[..|b| - 1]) {
        SubsequenceSkipFront(a[..|a| - 1], b[..|b| - 1], x);
      } else {
        SubsequenceSkipFront(a, b[..|b| - 1], x);
      }
    }
  }

  /** Putting the same element in front of both keeps a subsequence one. */
  lemma {:induction false} SubsequenceConsBoth<T>(a: seq<T>, b: seq<T>, x: T)
    requires IsSubsequence(a, b)
    ensures IsSubsequence([x] + a, [x] + b)
    decreases |b|
  {
    var xa, xb := [x] + a, [x] + b;
    assert xa[|xa| - 1] == (if a == [] then x else a[|a| - 1]);
    assert xa[..|xa| - 1] == (if a == [] then [] else [x] + a[..|a| - 1]);
    if b == [] {
      assert xb[..|xb| - 1] == [];
    } else {
      assert xb[|xb| - 1] == b[|b| - 1];
      assert xb[..|xb| - 1] == [x] + b[..|b| - 1];
      if a == [] {
        SubsequenceConsBoth(a, b[..|b| - 1], x);
      } else if a[|a| - 1] == b[|b| - 1] && IsSubsequence(a[..|a| - 1], b[..|b| - 1]) {
        SubsequenceConsBoth(a[..|a| - 1], b[..|b| - 1], x);
      } else {
        SubsequenceConsBoth(a, b[..|b| - 1], x);
      }
    }
  }

  lemma {:induction false} FilterAppend<T>(a: seq<T>, b: seq<T>, keep: T -> bool)
    ensures Filter(a + b, keep) == Filter(a, keep) + Filter(b, keep)
    decreases |b|
  {
    if b == [] {
      assert a + b == a;
    } else {
      var init := b[..|b| - 1];
      assert (a + b)[..|a + b| - 1] == a + init;
      assert (a + b)[|a + b| - 1] == b[|b| - 1];
      FilterAppend(a, init, keep);
    }
  }
}
