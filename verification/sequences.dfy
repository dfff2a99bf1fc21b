/** Generic sequence operations: order-preserving filtering, duplicate
    removal in first-occurrence order (what a `Set` built from a list keeps)
    and sorting under a strict total order. */
module Sequences {

  ghost predicate StrictTotalOrder<T(!new)>(below: (T, T) -> bool) {
    && (forall x :: !below(x, x))
    && (forall x, y, z :: below(x, y) && below(y, z) ==> below(x, z))
    && (forall x, y :: x != y ==> below(x, y) || below(y, x))
  }

  /** Strictly ascending, hence also free of duplicates. */
  ghost predicate StrictlySorted<T>(s: seq<T>, below: (T, T) -> bool) {
    forall i, j :: 0 <= i < j < |s| ==> below(s[i], s[j])
  }

  ghost predicate NoDuplicates<T>(s: seq<T>) {
    forall i, j :: 0 <= i < j < |s| ==> s[i] != s[j]
  }

  /** `r` is `s` with some elements dropped, the kept ones in their original order. */
  ghost predicate Subsequence<T>(r: seq<T>, s: seq<T>)
    decreases |s|
  {
    if |r| == 0 then true
    else if |s| == 0 then false
    else if r[0] == s[0] then Subsequence(r[1..], s[1..])
    else Subsequence(r, s[1..])
  }

  /** The elements of `s` that satisfy `p`, in their original order (`Array.prototype.filter`, a queryset filter). */
  function Filter<T(!new)>(s: seq<T>, p: T -> bool): (r: seq<T>)
    ensures forall x :: x in r <==> x in s && p(x)
    ensures forall i :: 0 <= i < |r| ==> p(r[i])
    ensures |r| <= |s|
    decreases |s|
  {
    if |s| == 0 then []
    else
      var rest := Filter(s[1..], p);
      if p(s[0]) then [s[0]] + rest else rest
  }

  /** Filtering keeps the relative order of what it keeps. */
  lemma {:induction false} FilterKeepsOrder<T(!new)>(s: seq<T>, p: T -> bool)
    ensures Subsequence(Filter(s, p), s)
    decreases |s|
  {
    if |s| > 0 {
      FilterKeepsOrder(s[1..], p);
      var r := Filter(s, p);
      if p(s[0]) {
        assert r[0] == s[0] && r[1..] == Filter(s[1..], p);
      } else if |r| > 0 {
        assert r[0] in r;
      }
    }
  }

  /** A filter every element passes changes nothing. */
  lemma {:induction false} FilterAllPass<T(!new)>(s: seq<T>, p: T -> bool)
    requires forall i :: 0 <= i < |s| ==> p(s[i])
    ensures Filter(s, p) == s
    decreases |s|
  {
    if |s| > 0 {
      FilterAllPass(s[1..], p);
      assert s == [s[0]] + s[1..];
    }
  }

  /** Applying the same filter twice is applying it once. */
  lemma FilterIdempotent<T(!new)>(s: seq<T>, p: T -> bool)
    ensures Filter(Filter(s, p), p) == Filter(s, p)
  {
    FilterAllPass(Filter(s, p), p);
  }

  /** Filtering distributes over concatenation. */
  lemma {:induction false} FilterAppend<T(!new)>(s: seq<T>, t: seq<T>, p: T -> bool)
    ensures Filter(s + t, p) == Filter(s, p) + Filter(t, p)
    decreases |s|
  {
    if |s| == 0 {
      assert s + t == t;
    } else {
      assert (s + t)[0] == s[0] && (s + t)[1..] == s[1..] + t;
      FilterAppend(s[1..], t, p);
    }
  }

  /** Filtering keeps a list free of duplicates. */
  lemma {:induction false} FilterNoDuplicates<T(!new)>(s: seq<T>, p: T -> bool)
    requires NoDuplicates(s)
    ensures NoDuplicates(Filter(s, p))
    decreases |s|
  {
    if |s| > 0 {
      var tail := s[1..];
      assert NoDuplicates(tail) by {
        forall i, j | 0 <= i < j < |tail| ensures tail[i] != tail[j] {
          assert tail[i] == s[i + 1] && tail[j] == s[j + 1];
        }
      }
      FilterNoDuplicates(tail, p);
      if p(s[0]) {
        var rest := Filter(tail, p);
        var r := [s[0]] + rest;
        assert s[0] !in tail by {
          forall k | 0 <= k < |tail| ensures tail[k] != s[0] {
            assert tail[k] == s[k + 1];
          }
        }
        forall i, j | 0 <= i < j < |r| ensures r[i] != r[j] {
          if i == 0 {
            assert r[j] == rest[j - 1];
            assert r[j] in rest;
          } else {
            assert r[i] == rest[i - 1] && r[j] == rest[j - 1];
          }
        }
      }
    }
  }

  /** The elements of `s`, each once, in order of first occurrence. */
  function Dedup<T(==,!new)>(s: seq<T>): (r: seq<T>)
    ensures NoDuplicates(r)
    ensures forall x :: x in r <==> x in s
    ensures Subsequence(r, s)
    decreases |s|
  {
    if |s| == 0 then []
    else
      var prev := Dedup(s[..|s| - 1]);
      assert s == s[..|s| - 1] + [s[|s| - 1]];
      if s[|s| - 1] in prev then
        SubsequenceExtend(prev, s[..|s| - 1], s[|s| - 1]);
        prev
      else
        SubsequenceSnoc(prev, s[..|s| - 1], s[|s| - 1]);
        prev + [s[|s| - 1]]
  }

  /** Appending to the longer list keeps a subsequence one. */
  lemma {:induction false} SubsequenceExtend<T>(r: seq<T>, s: seq<T>, x: T)
    requires Subsequence(r, s)
    ensures Subsequence(r, s + [x])
    decreases |s|
  {
    if |r| > 0 && |s| > 0 {
      assert (s + [x])[0] == s[0] && (s + [x])[1..] == s[1..] + [x];
      if r[0] == s[0] {
        SubsequenceExtend(r[1..], s[1..], x);
      } else {
        SubsequenceExtend(r, s[1..], x);
      }
    }
  }

  /** Appending the same element to both lists keeps a subsequence one. */
  lemma {:induction false} SubsequenceSnoc<T>(r: seq<T>, s: seq<T>, x: T)
    requires Subsequence(r, s)
    ensures Subsequence(r + [x], s + [x])
    decreases |s|
  {
    if |s| == 0 {
      assert r == [] && r + [x] == s + [x];
      assert [x][1..] == [];
    } else {
      assert (s + [x])[0] == s[0] && (s + [x])[1..] == s[1..] + [x];
      if |r| == 0 {
        if s[0] != x {
          SubsequenceSnoc(r, s[1..], x);
        } else {
          assert (r + [x])[1..] == [];
        }
      } else if r[0] == s[0] {
        assert (r + [x])[0] == r[0] && (r + [x])[1..] == r[1..] + [x];
        SubsequenceSnoc(r[1..], s[1..], x);
      } else {
        assert (r + [x])[0] == r[0];
        SubsequenceSnoc(r, s[1..], x);
      }
    }
  }

  /** In a strictly sorted list, the head is below every later element. */
  lemma HeadBelowRest<T(!new)>(s: seq<T>, below: (T, T) -> bool)
    requires StrictlySorted(s, below) && |s| > 0
    ensures forall y :: y in s[1..] ==> below(s[0], y)
  {
    forall y | y in s[1..] ensures below(s[0], y) {
      var j :| 0 <= j < |s[1..]| && s[1..][j] == y;
      assert s[j + 1] == y;
    }
  }

  /** Inserts `x` before the first element of the ascending list `s` that is not below it. */
  function Insert<T(==,!new)>(x: T, s: seq<T>, below: (T, T) -> bool): (r: seq<T>)
    requires StrictTotalOrder(below)
    requires StrictlySorted(s, below) && x !in s
    ensures StrictlySorted(r, below)
    ensures forall y :: y in r <==> y == x || y in s
    ensures multiset(r) == multiset(s) + multiset{x}
    decreases |s|
  {
    if |s| == 0 then [x]
    else if below(x, s[0]) then
      HeadBelowRest(s, below);
      [x] + s
    else
      var rest := Insert(x, s[1..], below);
      assert s == [s[0]] + s[1..];
      HeadBelowRest(s, below);
      assert below(s[0], x);
      assert forall y :: y in rest ==> below(s[0], y);
      [s[0]] + rest
  }

  /** Sorts a duplicate-free list ascending. */
  function Sort<T(==,!new)>(s: seq<T>, below: (T, T) -> bool): (r: seq<T>)
    requires StrictTotalOrder(below)
    requires NoDuplicates(s)
    ensures StrictlySorted(r, below)
    ensures multiset(r) == multiset(s)
    ensures forall x :: x in r <==> x in s
    decreases |s|
  {
    if |s| == 0 then []
    else
      var rest := Sort(s[..|s| - 1], below);
      assert s == s[..|s| - 1] + [s[|s| - 1]];
      assert s[|s| - 1] !in s[..|s| - 1];
      assert s[|s| - 1] !in multiset(rest);
      var r := Insert(s[|s| - 1], rest, below);
      assert forall x :: x in r <==> x in multiset(r);
      assert forall x :: x in s <==> x in multiset(s);
      r
  }

  /** A strictly sorted list drawn from two values, holding both, is exactly those two in order. */
  lemma SortedPair<T(!new)>(s: seq<T>, a: T, b: T, below: (T, T) -> bool)
    requires StrictTotalOrder(below) && StrictlySorted(s, below)
    requires below(a, b) && a in s && b in s
    requires forall i :: 0 <= i < |s| ==> s[i] == a || s[i] == b
    ensures s == [a, b]
  {
    var ia :| 0 <= ia < |s| && s[ia] == a;
    var ib :| 0 <= ib < |s| && s[ib] == b;
    assert ia < ib;
    forall c | 0 <= c < |s| ensures (s[c] == a && c == ia) || (s[c] == b && c == ib) {
      if s[c] == a {
        assert !below(a, a);
        assert c == ia;
      } else {
        assert !below(b, b) && !below(b, a);
        assert c == ib;
      }
    }
    assert s[0] == a;
    assert s[|s| - 1] == b;
    assert s[1] == b;
  }

  /** The sum of `val` over the elements of `s`. */
  function SumOf<T>(s: seq<T>, val: T -> nat): nat
    decreases |s|
  {
    if |s| == 0 then 0 else val(s[0]) + SumOf(s[1..], val)
  }

  /** Two lists whose elements carry the same values, position by position, have the same sum. */
  lemma {:induction false} SumOfMatches<S, T>(a: seq<S>, fa: S -> nat, b: seq<T>, fb: T -> nat)
    requires |a| == |b|
    requires forall i :: 0 <= i < |a| ==> fa(a[i]) == fb(b[i])
    ensures SumOf(a, fa) == SumOf(b, fb)
    decreases |a|
  {
    if |a| > 0 {
      assert forall i :: 0 <= i < |a| - 1 ==> a[1..][i] == a[i + 1] && b[1..][i] == b[i + 1];
      SumOfMatches(a[1..], fa, b[1..], fb);
    }
  }
}
