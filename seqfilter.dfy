/** Order-preserving filtering of a sequence: the meaning of a Python list
    comprehension `[x for x in s if keep(x)]`, which the catalogue uses both to
    remove books by title and to look books up by author. */
module SeqFilter {

  /** `r` is obtained from `s` by deleting zero or more elements, so the
      elements of `r` occur in `s` in the same relative order. */
  ghost predicate IsSubsequence<T>(r: seq<T>, s: seq<T>)
  {
    r == [] || (s != [] && ((r[0] == s[0] && IsSubsequence(r[1..], s[1..])) || IsSubsequence(r, s[1..])))
  }

  /** The elements of `s` that satisfy `keep`, in their original order. */
  function Filter<T>(s: seq<T>, keep: T -> bool): (r: seq<T>)
    ensures |r| <= |s|
    ensures forall i :: 0 <= i < |r| ==> keep(r[i])
  {
    if s == [] then []
    else
      var rest := Filter(s[1..], keep);
      if keep(s[0]) then [s[0]] + rest else rest
  }

  /** Each kept value occurs in the result exactly as often as in `s`; every
      other value is gone. */
  lemma {:induction false} FilterCount<T>(s: seq<T>, keep: T -> bool, x: T)
    ensures multiset(Filter(s, keep))[x] == if keep(x) then multiset(s)[x] else 0
  {
    if s != [] {
      FilterCount(s[1..], keep, x);
      assert s == [s[0]] + s[1..];
    }
  }

  /** An element is in the result exactly when it is in the input and kept. */
  lemma {:induction false} FilterMembership<T>(s: seq<T>, keep: T -> bool, x: T)
    ensures x in Filter(s, keep) <==> x in s && keep(x)
  {
    FilterCount(s, keep, x);
    assert x in Filter(s, keep) <==> multiset(Filter(s, keep))[x] > 0;
    assert x in s <==> multiset(s)[x] > 0;
  }

  /** Filtering an extended sequence filters the prefix and then decides on
      the new last element alone. */
  lemma {:induction false} FilterAppend<T>(s: seq<T>, x: T, keep: T -> bool)
    ensures Filter(s + [x], keep) == Filter(s, keep) + (if keep(x) then [x] else [])
  {
    if s == [] {
      assert s + [x] == [x];
    } else {
      var t := s + [x];
      assert t[0] == s[0] && t[1..] == s[1..] + [x];
      FilterAppend(s[1..], x, keep);
      assert Filter(t, keep) == (if keep(s[0]) then [s[0]] else []) + Filter(t[1..], keep);
      assert Filter(s, keep) == (if keep(s[0]) then [s[0]] else []) + Filter(s[1..], keep);
    }
  }

  /** The filter keeps the survivors in their original relative order. */
  lemma {:induction false} FilterIsSubsequence<T>(s: seq<T>, keep: T -> bool)
    ensures IsSubsequence(Filter(s, keep), s)
  {
    if s != [] {
      FilterIsSubsequence(s[1..], keep);
      var rest := Filter(s[1..], keep);
      if keep(s[0]) {
        assert ([s[0]] + rest)[1..] == rest;
      }
    }
  }

  /** No subsequence made only of kept elements is longer than the filter. */
  lemma {:induction false} KeptSubsequenceBound<T>(r: seq<T>, s: seq<T>, keep: T -> bool)
    requires IsSubsequence(r, s)
    requires forall x :: x in r ==> keep(x)
    ensures |r| <= |Filter(s, keep)|
  {
    if r != [] {
      assert s != [];
      if r[0] == s[0] && IsSubsequence(r[1..], s[1..]) {
        assert forall x :: x in r[1..] ==> x in r;
        KeptSubsequenceBound(r[1..], s[1..], keep);
        assert keep(s[0]);
      } else {
        KeptSubsequenceBound(r, s[1..], keep);
      }
    }
  }

  /** The filter is the ONLY subsequence of `s` that consists of kept elements
      and is as long as the number of kept elements: "exactly the elements that
      satisfy `keep`, in their original order" pins the result down. */
  lemma {:induction false} FilterIsExact<T>(r: seq<T>, s: seq<T>, keep: T -> bool)
    requires IsSubsequence(r, s)
    requires forall x :: x in r ==> keep(x)
    requires |r| == |Filter(s, keep)|
    ensures r == Filter(s, keep)
  {
    if s == [] {
    } else if r == [] {
    } else if r[0] == s[0] && IsSubsequence(r[1..], s[1..]) {
      assert forall x :: x in r[1..] ==> x in r;
      assert keep(s[0]);
      FilterIsExact(r[1..], s[1..], keep);
      assert r == [r[0]] + r[1..];
    } else {
      assert IsSubsequence(r, s[1..]);
      KeptSubsequenceBound(r, s[1..], keep);
      if keep(s[0]) {
        // r would have to be longer than every kept subsequence of s[1..]
        assert false;
      }
      FilterIsExact(r, s[1..], keep);
    }
  }

  /** When every element is kept, filtering changes nothing. */
  lemma {:induction false} FilterKeepsAll<T>(s: seq<T>, keep: T -> bool)
    requires forall x :: x in s ==> keep(x)
    ensures Filter(s, keep) == s
  {
    if s != [] {
      assert forall x :: x in s[1..] ==> x in s;
      FilterKeepsAll(s[1..], keep);
      assert s == [s[0]] + s[1..];
    }
  }

  /** Filtering is idempotent: a second pass with the same predicate finds
      nothing left to drop. */
  lemma {:induction false} FilterIdempotent<T>(s: seq<T>, keep: T -> bool)
    ensures Filter(Filter(s, keep), keep) == Filter(s, keep)
  {
    FilterKeepsAll(Filter(s, keep), keep);
  }
}
