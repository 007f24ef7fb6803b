/** Sequence operations that the table queries are built from: boolean-mask
    filtering, first-match search and first-occurrence de-duplication. */
module Sequences {

  /** The set of elements of `s`. */
  function Elements<T>(s: seq<T>): set<T>
  {
    set x | x in s
  }

  predicate NoDuplicates<T(==)>(s: seq<T>)
  {
    forall i, j :: 0 <= i < j < |s| ==> s[i] != s[j]
  }

  /** `a` is obtained from `b` by deleting elements, keeping the order of the rest. */
  ghost predicate IsSubsequence<T>(a: seq<T>, b: seq<T>)
    decreases |b|
  {
    a == [] || (b != [] && ((a[0] == b[0] && IsSubsequence(a[1..], b[1..])) || IsSubsequence(a, b[1..])))
  }

  /** The elements of `s` that satisfy `p`, in their original order. */
  function Filter<T(!new)>(s: seq<T>, p: T -> bool): (r: seq<T>)
    ensures |r| <= |s|
    ensures forall x :: x in r <==> x in s && p(x)
  {
    if s == [] then [] else (if p(s[0]) then [s[0]] else []) + Filter(s[1..], p)
  }

  /** Filtering keeps every occurrence of an element that passes and none of one that fails. */
  lemma {:induction false} FilterCounts<T(!new)>(s: seq<T>, p: T -> bool)
    ensures forall x :: multiset(Filter(s, p))[x] == if p(x) then multiset(s)[x] else 0
  {
    if s != [] {
      FilterCounts(s[1..], p);
      assert s == [s[0]] + s[1..];
    }
  }

  lemma {:induction false} FilterIsSubsequence<T(!new)>(s: seq<T>, p: T -> bool)
    ensures IsSubsequence(Filter(s, p), s)
  {
    if s != [] {
      FilterIsSubsequence(s[1..], p);
      var rest := Filter(s[1..], p);
      if p(s[0]) {
        assert Filter(s, p) == [s[0]] + rest;
        assert ([s[0]] + rest)[1..] == rest;
      } else {
        assert Filter(s, p) == rest;
      }
    }
  }

  /** Two masks that agree on every element of `s` select the same rows. */
  lemma {:induction false} FilterCongruent<T(!new)>(s: seq<T>, p: T -> bool, q: T -> bool)
    requires forall x :: x in s ==> p(x) == q(x)
    ensures Filter(s, p) == Filter(s, q)
  {
    if s != [] {
      FilterCongruent(s[1..], p, q);
    }
  }

  /** Index of the first occurrence of `v` in `xs`, or `|xs|` when there is none. */
  function FirstIndex<T(==)>(xs: seq<T>, v: T): (r: nat)
    ensures r <= |xs|
    ensures r < |xs| <==> v in xs
    ensures r < |xs| ==> xs[r] == v
    ensures forall k :: 0 <= k < r ==> xs[k] != v
  {
    if xs == [] then 0 else if xs[0] == v then 0 else 1 + FirstIndex(xs[1..], v)
  }

  lemma FirstIndexAppend<T>(a: seq<T>, b: seq<T>, v: T)
    ensures FirstIndex(a + b, v) == if v in a then FirstIndex(a, v) else |a| + FirstIndex(b, v)
  {
    var r := FirstIndex(a + b, v);
    if v in a {
      var ra := FirstIndex(a, v);
      assert (a + b)[ra] == v;
      assert r <= ra;
      assert r < |a| && a[r] == v;
    } else {
      var rb := FirstIndex(b, v);
      assert forall k :: 0 <= k < |a| ==> (a + b)[k] != v;
      assert r >= |a|;
      assert forall k :: 0 <= k < r - |a| ==> b[k] == (a + b)[|a| + k];
      if rb < |b| {
        assert (a + b)[|a| + rb] == v;
      }
    }
  }

  /** The distinct elements of `xs` in order of first occurrence. */
  function Unique<T(==,!new)>(xs: seq<T>): (r: seq<T>)
    ensures NoDuplicates(r)
    ensures forall v :: v in r <==> v in xs
  {
    if xs == [] then []
    else
      var u := Unique(xs[..|xs| - 1]);
      var last := xs[|xs| - 1];
      assert xs == xs[..|xs| - 1] + [last];
      if last in u then u else u + [last]
  }

  /** Elements of `Unique(xs)` appear in the order in which `xs` first mentions them. */
  lemma {:induction false} UniqueInFirstSeenOrder<T(!new)>(xs: seq<T>)
    ensures forall i, j :: 0 <= i < j < |Unique(xs)| ==> FirstIndex(xs, Unique(xs)[i]) < FirstIndex(xs, Unique(xs)[j])
  {
    if xs != [] {
      var init := xs[..|xs| - 1];
      var last := xs[|xs| - 1];
      var u := Unique(init);
      UniqueInFirstSeenOrder(init);
      assert xs == init + [last];
      forall v | v in init
        ensures FirstIndex(xs, v) == FirstIndex(init, v) < |init|
      {
        FirstIndexAppend(init, [last], v);
      }
      if last !in init {
        FirstIndexAppend(init, [last], last);
        assert FirstIndex(xs, last) == |init|;
      }
    }
  }

  lemma {:induction false} DistinctCardinality<T>(s: seq<T>)
    requires NoDuplicates(s)
    ensures |Elements(s)| == |s|
  {
    if s != [] {
      DistinctCardinality(s[1..]);
      assert Elements(s) == {s[0]} + Elements(s[1..]);
      assert s[0] !in Elements(s[1..]) by {
        forall k | 0 <= k < |s[1..]| ensures s[1..][k] != s[0] {
          assert s[1..][k] == s[k + 1];
        }
      }
    }
  }

  lemma {:induction false} ElementsBound<T>(s: seq<T>)
    ensures |Elements(s)| <= |s|
  {
    if s != [] {
      ElementsBound(s[1..]);
      assert Elements(s) == {s[0]} + Elements(s[1..]);
    }
  }

  /** A sequence has as many distinct elements as entries exactly when it repeats none. */
  lemma DistinctIff<T>(s: seq<T>)
    ensures |Elements(s)| == |s| <==> NoDuplicates(s)
  {
    if NoDuplicates(s) {
      DistinctCardinality(s);
    } else {
      var i, j :| 0 <= i < j < |s| && s[i] == s[j];
      var t := s[..j] + s[j + 1..];
      assert Elements(s) == Elements(t) by {
        assert s == s[..j] + [s[j]] + s[j + 1..];
        assert s[j] == t[i];
      }
      ElementsBound(t);
    }
  }

  /** The de-duplicated sequence is exactly as long as the number of distinct values. */
  lemma UniqueLength<T(!new)>(xs: seq<T>)
    ensures |Unique(xs)| == |Elements(xs)|
  {
    DistinctCardinality(Unique(xs));
    assert Elements(Unique(xs)) == Elements(xs);
  }
}
