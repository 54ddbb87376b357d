/** Subsequences and distinctness of sequences, for the organizer's bookkeeping. */
module Sequences {

  /** `a` is `b` with some elements left out, the rest in the same order. */
  predicate Subseq<T(==)>(a: seq<T>, b: seq<T>)
    decreases |b|
  {
    if a == [] then true
    else if b == [] then false
    else
      (a[|a| - 1] == b[|b| - 1] && Subseq(a[..|a| - 1], b[..|b| - 1])) || Subseq(a, b[..|b| - 1])
  }

  /** Leaving out a new last element of `b` keeps a subsequence. */
  lemma SubseqSkip<T>(a: seq<T>, b: seq<T>, x: T)
    requires Subseq(a, b)
    ensures Subseq(a, b + [x])
  {
    if a != [] {
      assert (b + [x])[..|b|] == b;
    }
  }

  /** Keeping a new last element of `b` keeps a subsequence. */
  lemma SubseqTake<T>(a: seq<T>, b: seq<T>, x: T)
    requires Subseq(a, b)
    ensures Subseq(a + [x], b + [x])
  {
    assert (a + [x])[..|a|] == a;
    assert (b + [x])[..|b|] == b;
  }

  /** Every element of a subsequence comes from the sequence, and it is no longer. */
  lemma {:induction false} SubseqMembers<T>(a: seq<T>, b: seq<T>)
    requires Subseq(a, b)
    ensures forall x :: x in a ==> x in b
    ensures |a| <= |b|
    decreases |b|
  {
    if a != [] {
      var b' := b[..|b| - 1];
      if a[|a| - 1] == b[|b| - 1] && Subseq(a[..|a| - 1], b') {
        SubseqMembers(a[..|a| - 1], b');
        assert a == a[..|a| - 1] + [a[|a| - 1]];
      } else {
        SubseqMembers(a, b');
      }
      assert b == b' + [b[|b| - 1]];
    }
  }

  /** Being a prefix is transitive. */
  lemma PrefixTrans<T>(a: seq<T>, b: seq<T>, c: seq<T>)
    requires a <= b && b <= c
    ensures a <= c
  {
    assert c[..|a|] == c[..|b|][..|a|];
  }

  /** No element occurs twice. */
  predicate Distinct<T(==)>(s: seq<T>)
  {
    forall i, j :: 0 <= i < j < |s| ==> s[i] != s[j]
  }

  lemma DistinctSnoc<T>(s: seq<T>, x: T)
    requires Distinct(s) && x !in s
    ensures Distinct(s + [x])
  {
  }

  lemma DistinctLast<T>(s: seq<T>, x: T)
    requires Distinct(s + [x])
    ensures Distinct(s) && x !in s
  {
    assert forall i :: 0 <= i < |s| ==> (s + [x])[i] == s[i];
    forall i | 0 <= i < |s| ensures s[i] != x {
      assert (s + [x])[i] == s[i] && (s + [x])[|s|] == x;
    }
  }
}
