/**
 * Keeping the first element of each key: the shape shared by a `seen` set
 * loop (DISTINCT), the key order of a `defaultdict` filled in a loop
 * (GROUP BY) and the key order of a dictionary assigned in a loop.
 */
module Unique {

  /** The key of every element, in order. */
  function Image<T, K>(s: seq<T>, key: T -> K): (r: seq<K>)
    ensures |r| == |s|
    ensures forall i :: 0 <= i < |s| ==> r[i] == key(s[i])
    decreases |s|
  {
    if s == [] then [] else Image(s[..|s| - 1], key) + [key(s[|s| - 1])]
  }

  /** The elements whose key has not appeared before them, in order. */
  function UniqBy<T, K(==)>(s: seq<T>, key: T -> K): seq<T>
    decreases |s|
  {
    if s == [] then []
    else
      var s', x := s[..|s| - 1], s[|s| - 1];
      UniqBy(s', key) + (if key(x) in Image(s', key) then [] else [x])
  }

  /** `s[i]` is the first element of `s` with its key. */
  predicate FirstAt<T, K(==)>(s: seq<T>, key: T -> K, i: nat)
    requires i < |s|
  {
    key(s[i]) !in Image(s[..i], key)
  }

  /** No two elements have the same key. */
  predicate DistinctBy<T, K(==)>(s: seq<T>, key: T -> K)
  {
    forall i, j :: 0 <= i < j < |s| ==> key(s[i]) != key(s[j])
  }

  /** Dropping repeated keys keeps every key. */
  lemma {:induction false} UniqByImage<T, K>(s: seq<T>, key: T -> K, k: K)
    ensures k in Image(UniqBy(s, key), key) <==> k in Image(s, key)
    decreases |s|
  {
    if s != [] {
      var s', x := s[..|s| - 1], s[|s| - 1];
      UniqByImage(s', key, k);
      var u' := UniqBy(s', key);
      var tail := if key(x) in Image(s', key) then [] else [x];
      assert UniqBy(s, key) == u' + tail;
      ImageAppend(u', tail, key);
      assert Image(s, key) == Image(s', key) + [key(x)];
      assert k in Image(UniqBy(s, key), key) <==> k in Image(u', key) || k in Image(tail, key);
    }
  }

  lemma ImageAppend<T, K>(a: seq<T>, b: seq<T>, key: T -> K)
    ensures Image(a + b, key) == Image(a, key) + Image(b, key)
  {
  }

  /** The kept elements have pairwise different keys. */
  lemma {:induction false} UniqByDistinct<T, K>(s: seq<T>, key: T -> K)
    ensures DistinctBy(UniqBy(s, key), key)
    decreases |s|
  {
    if s != [] {
      var s', x := s[..|s| - 1], s[|s| - 1];
      UniqByDistinct(s', key);
      var u', u := UniqBy(s', key), UniqBy(s, key);
      if key(x) !in Image(s', key) {
        UniqByImage(s', key, key(x));
        forall i, j | 0 <= i < j < |u| ensures key(u[i]) != key(u[j]) {
          if j == |u'| {
            assert u[i] == u'[i] && key(u'[i]) == Image(u', key)[i];
          } else {
            assert u[i] == u'[i] && u[j] == u'[j];
          }
        }
      }
    }
  }

  /** A sequence with no repeated key is kept whole. */
  lemma {:induction false} UniqByOfDistinct<T, K>(s: seq<T>, key: T -> K)
    requires DistinctBy(s, key)
    ensures UniqBy(s, key) == s
    decreases |s|
  {
    if s != [] {
      var s', x := s[..|s| - 1], s[|s| - 1];
      assert DistinctBy(s', key) by {
        forall i, j | 0 <= i < j < |s'| ensures key(s'[i]) != key(s'[j]) { assert s'[i] == s[i] && s'[j] == s[j]; }
      }
      UniqByOfDistinct(s', key);
      assert key(x) !in Image(s', key) by {
        forall i | 0 <= i < |s'| ensures Image(s', key)[i] != key(x) { assert s'[i] == s[i]; }
      }
    }
  }

  /** Dropping repeated keys twice is dropping them once. */
  lemma UniqByIdempotent<T, K>(s: seq<T>, key: T -> K)
    ensures UniqBy(UniqBy(s, key), key) == UniqBy(s, key)
  {
    UniqByDistinct(s, key);
    UniqByOfDistinct(UniqBy(s, key), key);
  }

  /** Extending a sequence does not change which of its elements come first with their key. */
  lemma FirstAtPrefix<T, K>(s: seq<T>, x: T, key: T -> K, i: nat)
    requires i < |s|
    ensures FirstAt(s + [x], key, i) <==> FirstAt(s, key, i)
  {
    assert (s + [x])[..i] == s[..i];
  }

  /** Each kept element is the first occurrence of its key. */
  lemma {:induction false} UniqByKeepsFirsts<T, K>(s: seq<T>, key: T -> K, a: nat)
    requires a < |UniqBy(s, key)|
    ensures exists i :: 0 <= i < |s| && FirstAt(s, key, i) && s[i] == UniqBy(s, key)[a]
    decreases |s|
  {
    var s', x := s[..|s| - 1], s[|s| - 1];
    assert s == s' + [x];
    var u', u := UniqBy(s', key), UniqBy(s, key);
    var tail := if key(x) in Image(s', key) then [] else [x];
    assert u == u' + tail;
    if a < |u'| {
      UniqByKeepsFirsts(s', key, a);
      var i :| 0 <= i < |s'| && FirstAt(s', key, i) && s'[i] == u'[a];
      FirstAtPrefix(s', x, key, i);
      assert s[i] == u[a];
    } else {
      assert u[a] == x && s[..|s'|] == s';
      assert FirstAt(s, key, |s'|);
    }
  }

  /** The kept elements stay in the order they had. */
  lemma {:induction false} UniqByKeepsOrder<T, K>(s: seq<T>, key: T -> K, a: nat, b: nat)
    requires a < b < |UniqBy(s, key)|
    ensures exists i, j :: 0 <= i < j < |s| && s[i] == UniqBy(s, key)[a] && s[j] == UniqBy(s, key)[b]
    decreases |s|
  {
    var s', x := s[..|s| - 1], s[|s| - 1];
    assert s == s' + [x];
    var u', u := UniqBy(s', key), UniqBy(s, key);
    var tail := if key(x) in Image(s', key) then [] else [x];
    assert u == u' + tail;
    if b < |u'| {
      UniqByKeepsOrder(s', key, a, b);
      var i, j :| 0 <= i < j < |s'| && s'[i] == u'[a] && s'[j] == u'[b];
      assert s[i] == u[a] && s[j] == u[b];
    } else {
      UniqByKeepsFirsts(s', key, a);
      var i :| 0 <= i < |s'| && FirstAt(s', key, i) && s'[i] == u'[a];
      assert s[i] == u[a] && s[|s'|] == u[b];
    }
  }

  /** Every first occurrence of a key is kept. */
  lemma {:induction false} UniqByKeepsEveryFirst<T, K>(s: seq<T>, key: T -> K, i: nat)
    requires i < |s| && FirstAt(s, key, i)
    ensures s[i] in UniqBy(s, key)
    decreases |s|
  {
    var s', x := s[..|s| - 1], s[|s| - 1];
    assert s == s' + [x];
    if i < |s'| {
      FirstAtPrefix(s', x, key, i);
      UniqByKeepsEveryFirst(s', key, i);
      assert s[i] == s'[i];
    } else {
      assert s[..i] == s';
    }
  }
}
