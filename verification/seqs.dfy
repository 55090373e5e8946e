/** Order-preserving sub-lists and repetition-free lists. */
module Sequences {

  /** `a` is `b` with some elements removed, the rest in order. */
  predicate IsSubsequence<T(==)>(a: seq<T>, b: seq<T>)
  {
    if a == [] then true
    else if b == [] then false
    else (a[0] == b[0] && IsSubsequence(a[1..], b[1..])) || IsSubsequence(a, b[1..])
  }

  lemma {:induction false} SubsequenceLength<T>(a: seq<T>, b: seq<T>)
    requires IsSubsequence(a, b)
    ensures |a| <= |b|
  {
    if a != [] {
      if a[0] == b[0] && IsSubsequence(a[1..], b[1..]) {
        SubsequenceLength(a[1..], b[1..]);
      } else {
        SubsequenceLength(a, b[1..]);
      }
    }
  }

  lemma SubsequenceOfTail<T>(a: seq<T>, b: seq<T>, x: T)
    requires IsSubsequence(a, b)
    ensures IsSubsequence(a, [x] + b)
  {
    assert ([x] + b)[1..] == b;
  }

  /** A sub-list stays one when the list grows at the end, and when both grow by the same element. */
  lemma {:induction false} SubsequenceSnoc<T>(a: seq<T>, b: seq<T>, x: T)
    requires IsSubsequence(a, b)
    ensures IsSubsequence(a, b + [x])
    ensures IsSubsequence(a + [x], b + [x])
    decreases |b|
  {
    if a == [] {
      LastIsSubsequence(b, x);
      assert a + [x] == [x];
    } else {
      assert (b + [x])[1..] == b[1..] + [x];
      assert (a + [x])[1..] == a[1..] + [x];
      if a[0] == b[0] && IsSubsequence(a[1..], b[1..]) {
        SubsequenceSnoc(a[1..], b[1..], x);
      } else {
        SubsequenceSnoc(a, b[1..], x);
      }
    }
  }

  lemma {:induction false} LastIsSubsequence<T>(b: seq<T>, x: T)
    ensures IsSubsequence([x], b + [x])
  {
    if b != [] {
      assert (b + [x])[1..] == b[1..] + [x];
      LastIsSubsequence(b[1..], x);
    } else {
      assert [x][1..] == [];
    }
  }

  predicate Distinct<T(==)>(s: seq<T>)
  {
    forall i, j :: 0 <= i < j < |s| ==> s[i] != s[j]
  }

  lemma {:induction false} DistinctCountsAtMostOne<T>(s: seq<T>, x: T)
    requires Distinct(s)
    ensures multiset(s)[x] <= 1
  {
    if s != [] {
      assert s == [s[0]] + s[1..];
      assert Distinct(s[1..]);
      DistinctCountsAtMostOne(s[1..], x);
      if x == s[0] {
        assert x !in s[1..];
      }
    }
  }

  /** A reordering of a list without repetitions has none either. */
  lemma DistinctPermutation<T>(r: seq<T>, s: seq<T>)
    requires multiset(r) == multiset(s) && Distinct(s)
    ensures Distinct(r)
  {
    forall i, j | 0 <= i < j < |r|
      ensures r[i] != r[j]
    {
      if r[i] == r[j] {
        assert r == r[..j] + r[j..];
        assert r[i] in r[..j] && r[j] in r[j..];
        assert multiset(r)[r[i]] == multiset(r[..j])[r[i]] + multiset(r[j..])[r[i]];
        DistinctCountsAtMostOne(s, r[i]);
      }
    }
  }

  /**
   * Keeping the head of `s` in front of a list that holds the rest of `s`
   * plus `x` gives a list holding `s` plus `x`: the step of an insertion.
   */
  lemma InsertAfterHead<T>(s: seq<T>, t: seq<T>, x: T)
    requires s != [] && multiset(t) == multiset(s[1..]) + multiset{x}
    ensures multiset([s[0]] + t) == multiset(s) + multiset{x}
  {
    assert s == [s[0]] + s[1..];
  }
}
