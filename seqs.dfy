/** Order-preserving filtering of sequences, the shape of the source's list comprehensions. */
module Seqs {

  /** The elements of `s` that satisfy `p`, in their original order. */
  function Filter<T>(s: seq<T>, p: T -> bool): (r: seq<T>)
    ensures |r| <= |s|
    ensures forall x :: x in r ==> x in s && p(x)
    decreases |s|
  {
    if s == [] then []
    else Filter(s[..|s| - 1], p) + (if p(s[|s| - 1]) then [s[|s| - 1]] else [])
  }

  lemma AppendAssoc<T>(a: seq<T>, b: seq<T>, c: seq<T>)
    ensures a + (b + c) == (a + b) + c
  {
  }

  /** The elements of a non-empty sequence are those before its last one, and the last one. */
  lemma LastMultiset<T>(s: seq<T>)
    requires s != []
    ensures multiset(s) == multiset(s[..|s| - 1]) + multiset{s[|s| - 1]}
  {
    assert s == s[..|s| - 1] + [s[|s| - 1]];
  }

  /** Cutting a slice around its element at `k`. */
  lemma SliceAround<T>(s: seq<T>, i: nat, k: nat, e: nat)
    requires i <= k < e <= |s|
    ensures s[i..e][..k - i] == s[i..k] && s[i..e][k - i] == s[k] && s[i..e][k - i + 1..] == s[k + 1..e]
  {
  }

  lemma {:induction false} FilterAppend<T>(a: seq<T>, b: seq<T>, p: T -> bool)
    ensures Filter(a + b, p) == Filter(a, p) + Filter(b, p)
    decreases |b|
  {
    if b == [] {
      assert a + b == a;
    } else {
      var b' := b[..|b| - 1];
      assert (a + b)[..|a + b| - 1] == a + b';
      FilterAppend(a, b', p);
    }
  }

  lemma {:induction false} FilterAll<T>(s: seq<T>, p: T -> bool)
    requires forall x :: x in s ==> p(x)
    ensures Filter(s, p) == s
    decreases |s|
  {
    if s != [] {
      var s', x := s[..|s| - 1], s[|s| - 1];
      assert s == s' + [x];
      FilterAll(s', p);
    }
  }

  lemma {:induction false} FilterNone<T>(s: seq<T>, p: T -> bool)
    requires forall x :: x in s ==> !p(x)
    ensures Filter(s, p) == []
    decreases |s|
  {
    if s != [] {
      FilterNone(s[..|s| - 1], p);
    }
  }

  /** Filtering twice is filtering by the conjunction. */
  lemma {:induction false} FilterFilter<T>(s: seq<T>, p: T -> bool, q: T -> bool, pq: T -> bool)
    requires forall x :: x in s ==> (pq(x) <==> p(x) && q(x))
    ensures Filter(Filter(s, p), q) == Filter(s, pq)
    decreases |s|
  {
    if s != [] {
      var s' := s[..|s| - 1];
      var x := s[|s| - 1];
      FilterFilter(s', p, q, pq);
      FilterAppend(Filter(s', p), if p(x) then [x] else [], q);
    }
  }

  /** Predicates that agree on the elements give the same filter. */
  lemma {:induction false} FilterExt<T>(s: seq<T>, p: T -> bool, q: T -> bool)
    requires forall x :: x in s ==> (p(x) <==> q(x))
    ensures Filter(s, p) == Filter(s, q)
    decreases |s|
  {
    if s != [] {
      FilterExt(s[..|s| - 1], p, q);
    }
  }

  lemma {:induction false} FilterMultiset<T>(s: seq<T>, p: T -> bool)
    ensures multiset(Filter(s, p)) <= multiset(s)
    decreases |s|
  {
    if s != [] {
      FilterMultiset(s[..|s| - 1], p);
      assert s == s[..|s| - 1] + [s[|s| - 1]];
    }
  }

  /** Two elements kept by a filter keep their relative order in its result. */
  lemma {:induction false} FilterKeepsOrder<T>(s: seq<T>, p: T -> bool, i: nat, j: nat)
    requires i < j < |s| && p(s[i]) && p(s[j])
    ensures exists a: nat, b: nat :: a < b < |Filter(s, p)| && Filter(s, p)[a] == s[i] && Filter(s, p)[b] == s[j]
    decreases |s|
  {
    var s' := s[..|s| - 1];
    if j == |s| - 1 {
      assert s[i] == s'[i];
      FilterIndex(s', p, i);
      var a :| 0 <= a < |Filter(s', p)| && Filter(s', p)[a] == s[i];
      var b := |Filter(s', p)|;
      assert Filter(s, p)[a] == s[i] && Filter(s, p)[b] == s[j];
    } else {
      assert s[i] == s'[i] && s[j] == s'[j];
      FilterKeepsOrder(s', p, i, j);
      var a, b :| 0 <= a < b < |Filter(s', p)| && Filter(s', p)[a] == s[i] && Filter(s', p)[b] == s[j];
      assert Filter(s, p) == Filter(s', p) + (if p(s[|s| - 1]) then [s[|s| - 1]] else []);
      assert Filter(s, p)[a] == s[i] && Filter(s, p)[b] == s[j];
    }
  }

  lemma {:induction false} FilterIndex<T>(s: seq<T>, p: T -> bool, i: nat)
    requires i < |s| && p(s[i])
    ensures exists a: nat :: a < |Filter(s, p)| && Filter(s, p)[a] == s[i]
    decreases |s|
  {
    if i == |s| - 1 {
      assert Filter(s, p)[|Filter(s, p)| - 1] == s[i];
    } else {
      var s' := s[..|s| - 1];
      assert s[i] == s'[i];
      FilterIndex(s', p, i);
      var a :| 0 <= a < |Filter(s', p)| && Filter(s', p)[a] == s[i];
      assert Filter(s, p) == Filter(s', p) + (if p(s[|s| - 1]) then [s[|s| - 1]] else []);
      assert Filter(s, p)[a] == s[i];
    }
  }

  /** Every element of `s` that satisfies `p` appears in the filter. */
  lemma FilterContains<T>(s: seq<T>, p: T -> bool, x: T)
    requires x in s && p(x)
    ensures x in Filter(s, p)
  {
    var i :| 0 <= i < |s| && s[i] == x;
    FilterIndex(s, p, i);
  }

  /** A pairwise property of `s` (for earlier/later pairs) holds of its filter. */
  ghost predicate Pairwise<T(!new)>(s: seq<T>, rel: (T, T) -> bool)
  {
    forall i, j :: 0 <= i < j < |s| ==> rel(s[i], s[j])
  }

  lemma {:induction false} FilterPairwise<T(!new)>(s: seq<T>, p: T -> bool, rel: (T, T) -> bool)
    requires Pairwise(s, rel)
    ensures Pairwise(Filter(s, p), rel)
    decreases |s|
  {
    if s != [] {
      var s' := s[..|s| - 1];
      var x := s[|s| - 1];
      assert Pairwise(s', rel) by {
        forall i, j | 0 <= i < j < |s'| ensures rel(s'[i], s'[j]) {
          assert s'[i] == s[i] && s'[j] == s[j];
        }
      }
      FilterPairwise(s', p, rel);
      var f' := Filter(s', p);
      var f := Filter(s, p);
      forall i, j | 0 <= i < j < |f| ensures rel(f[i], f[j]) {
        if j < |f'| {
          assert f[i] == f'[i] && f[j] == f'[j];
        } else {
          assert f[i] in s';
          var k :| 0 <= k < |s'| && s'[k] == f[i];
          assert s[k] == f[i] && s[|s| - 1] == f[j];
        }
      }
    }
  }

  /** A filter is empty exactly when no element passes. */
  lemma {:induction false} FilterEmpty<T>(s: seq<T>, p: T -> bool)
    ensures Filter(s, p) == [] <==> forall i :: 0 <= i < |s| ==> !p(s[i])
    decreases |s|
  {
    if s != [] {
      FilterEmpty(s[..|s| - 1], p);
    }
  }

  /** A filter keeps everything exactly when every element passes. */
  lemma {:induction false} FilterFull<T>(s: seq<T>, p: T -> bool)
    ensures |Filter(s, p)| == |s| <==> forall i :: 0 <= i < |s| ==> p(s[i])
    decreases |s|
  {
    if s != [] {
      var s' := s[..|s| - 1];
      FilterFull(s', p);
      assert (forall i :: 0 <= i < |s| ==> p(s[i])) <==> (forall i :: 0 <= i < |s'| ==> p(s'[i])) && p(s[|s| - 1]) by {
        assert forall i :: 0 <= i < |s'| ==> s'[i] == s[i];
      }
    }
  }
}
