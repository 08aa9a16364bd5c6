/** Sequences without repetition, and the pigeonhole principle for them. */
module Counting {

  predicate Distinct<T(==)>(s: seq<T>) {
    forall j, k :: 0 <= j < k < |s| ==> s[j] != s[k]
  }

  function Members<T>(s: seq<T>): set<T> {
    set x | x in s
  }

  lemma SomeMember<T>(s: set<T>) returns (x: T)
    requires s != {}
    ensures x in s
  {
    assert exists k :: k in s by {
      assert (forall k :: k !in s) ==> s == {};
    }
    x :| x in s;
  }

  lemma {:induction false} DistinctCount<T>(s: seq<T>)
    ensures |Members(s)| <= |s|
    ensures Distinct(s) ==> |Members(s)| == |s|
  {
    if s != [] {
      var init, last := s[..|s| - 1], s[|s| - 1];
      DistinctCount(init);
      assert Members(s) == Members(init) + {last};
      if Distinct(s) {
        assert last !in Members(init);
      }
    }
  }

  lemma SubsetCount<T>(a: set<T>, b: set<T>)
    requires a <= b
    ensures |a| <= |b|
    ensures |a| == |b| ==> a == b
  {
    assert b == a + (b - a);
  }

  /** Distinct items drawn from b are no more than b, and if they are as many they exhaust it. */
  lemma Pigeonhole<T>(a: seq<T>, b: seq<T>)
    requires Distinct(a) && forall k :: 0 <= k < |a| ==> a[k] in b
    ensures |a| <= |b|
    ensures |a| == |b| ==> forall x :: x in b ==> x in a
  {
    DistinctCount(a);
    DistinctCount(b);
    assert Members(a) <= Members(b);
    SubsetCount(Members(a), Members(b));
    if |a| == |b| {
      forall x | x in b ensures x in a {
        assert x in Members(b);
      }
    }
  }

  function Range(n: nat): (r: seq<nat>)
    ensures |r| == n && forall k :: 0 <= k < n ==> r[k] == k
  {
    seq(n, k => k)
  }

  /** Distinct numbers below n are at most n, and n of them are all of them. */
  lemma PigeonholeRange(a: seq<nat>, n: nat)
    requires Distinct(a) && forall k :: 0 <= k < |a| ==> a[k] < n
    ensures |a| <= n
    ensures |a| == n ==> forall i :: 0 <= i < n ==> i in a
  {
    forall k | 0 <= k < |a| ensures a[k] in Range(n) {
      assert Range(n)[a[k]] == a[k];
    }
    Pigeonhole(a, Range(n));
    forall i | 0 <= i < n && |a| == n ensures i in a {
      assert Range(n)[i] == i;
    }
  }
}
