/**
 * Association lists: Python dictionaries as sequences of key/value pairs in
 * insertion order.
 */
module Assoc {
  import opened Wrappers
  import opened Unique

  /** The keys, in insertion order. */
  function Keys<K, V>(s: seq<(K, V)>): (r: seq<K>)
    ensures |r| == |s|
    ensures forall j :: 0 <= j < |s| ==> r[j] == s[j].0
  {
    if s == [] then [] else [s[0].0] + Keys(s[1..])
  }

  /** No key appears twice. */
  predicate DistinctKeys<K(==), V>(s: seq<(K, V)>)
  {
    forall i, j :: 0 <= i < j < |s| ==> s[i].0 != s[j].0
  }

  /** `d.get(k)`: the value of the first entry with key `k`. */
  function Lookup<K(==), V>(s: seq<(K, V)>, k: K): Option<V>
    decreases |s|
  {
    if s == [] then None else if s[0].0 == k then Some(s[0].1) else Lookup(s[1..], k)
  }

  /** A value found under `k` comes from the first entry with key `k`. */
  lemma {:induction false} LookupFound<K, V>(s: seq<(K, V)>, k: K)
    requires Lookup(s, k).Some?
    ensures exists j :: 0 <= j < |s| && s[j] == (k, Lookup(s, k).value) && k !in Keys(s[..j])
    decreases |s|
  {
    if s[0].0 == k {
      assert s[0] == (k, Lookup(s, k).value) && Keys(s[..0]) == [];
    } else {
      LookupFound(s[1..], k);
      var j :| 0 <= j < |s| - 1 && s[1..][j] == (k, Lookup(s, k).value) && k !in Keys(s[1..][..j]);
      assert s[..j + 1] == [s[0]] + s[1..][..j];
      assert Keys(s[..j + 1]) == [s[0].0] + Keys(s[1..][..j]);
    }
  }

  /** The entries whose key is not `k`, in order. */
  function RemoveKey<K(==), V>(s: seq<(K, V)>, k: K): (r: seq<(K, V)>)
    ensures |r| <= |s|
    decreases |s|
  {
    if s == [] then [] else if s[0].0 == k then RemoveKey(s[1..], k) else [s[0]] + RemoveKey(s[1..], k)
  }

  /** A key is looked up exactly when it is one of the keys. */
  lemma {:induction false} LookupKeys<K, V>(s: seq<(K, V)>, k: K)
    ensures Lookup(s, k).Some? <==> k in Keys(s)
    decreases |s|
  {
    if s != [] {
      LookupKeys(s[1..], k);
      assert Keys(s) == [s[0].0] + Keys(s[1..]);
    }
  }

  /** Removing `k` leaves every other key's value and drops `k`'s. */
  lemma {:induction false} RemoveKeyLookup<K, V>(s: seq<(K, V)>, k: K, x: K)
    ensures Lookup(RemoveKey(s, k), x) == if x == k then None else Lookup(s, x)
    decreases |s|
  {
    if s != [] {
      RemoveKeyLookup(s[1..], k, x);
      if s[0].0 != k {
        assert ([s[0]] + RemoveKey(s[1..], k))[1..] == RemoveKey(s[1..], k);
      }
    }
  }

  /** Removing `k` keeps exactly the other keys, and keeps them distinct. */
  lemma {:induction false} RemoveKeyKeys<K, V>(s: seq<(K, V)>, k: K)
    ensures forall x :: x in Keys(RemoveKey(s, k)) <==> x in Keys(s) && x != k
    ensures DistinctKeys(s) ==> DistinctKeys(RemoveKey(s, k))
    decreases |s|
  {
    if s != [] {
      RemoveKeyKeys(s[1..], k);
      assert Keys(s) == [s[0].0] + Keys(s[1..]);
      if s[0].0 != k {
        var r := RemoveKey(s[1..], k);
        assert Keys([s[0]] + r) == [s[0].0] + Keys(r);
        if DistinctKeys(s) {
          assert s[0].0 !in Keys(s[1..]);
          assert DistinctKeys(s[1..]);
          assert s[0].0 !in Keys(r);
          forall i, j | 0 <= i < j < |[s[0]] + r| ensures ([s[0]] + r)[i].0 != ([s[0]] + r)[j].0 {
            if i == 0 {
              assert ([s[0]] + r)[j].0 == Keys(r)[j - 1];
            }
          }
        }
      } else if DistinctKeys(s) {
        assert DistinctKeys(s[1..]);
      }
    }
  }
  /** `d[k] = v`: an existing key keeps its place and takes the new value, a new key goes last. */
  function Put<K(==), V>(s: seq<(K, V)>, k: K, v: V): (r: seq<(K, V)>)
    decreases |s|
  {
    if s == [] then [(k, v)]
    else if s[0].0 == k then [(k, v)] + s[1..]
    else [s[0]] + Put(s[1..], k, v)
  }

  /** After `d[k] = v`, `k` holds `v` and every other key holds what it held. */
  lemma {:induction false} PutLookup<K, V>(s: seq<(K, V)>, k: K, v: V, x: K)
    ensures Lookup(Put(s, k, v), x) == if x == k then Some(v) else Lookup(s, x)
    decreases |s|
  {
    if s != [] && s[0].0 != k {
      PutLookup(s[1..], k, v, x);
      assert ([s[0]] + Put(s[1..], k, v))[1..] == Put(s[1..], k, v);
    }
  }

  /** `d[k] = v` keeps the key order, and appends `k` when it is new. */
  lemma {:induction false} PutKeys<K, V>(s: seq<(K, V)>, k: K, v: V)
    ensures Keys(Put(s, k, v)) == if k in Keys(s) then Keys(s) else Keys(s) + [k]
    decreases |s|
  {
    if s != [] {
      assert Keys(s) == [s[0].0] + Keys(s[1..]);
      if s[0].0 == k {
        assert Keys([(k, v)] + s[1..]) == [k] + Keys(s[1..]);
      } else {
        PutKeys(s[1..], k, v);
        assert Keys([s[0]] + Put(s[1..], k, v)) == [s[0].0] + Keys(Put(s[1..], k, v));
      }
    }
  }

  /** A dictionary's tail has distinct keys, none of them its first key. */
  lemma TailDistinct<K, V>(s: seq<(K, V)>)
    requires s != [] && DistinctKeys(s)
    ensures DistinctKeys(s[1..]) && s[0].0 !in Keys(s[1..])
  {
    forall i, j | 0 <= i < j < |s| - 1 ensures s[1..][i].0 != s[1..][j].0 {
      assert s[1..][i] == s[i + 1] && s[1..][j] == s[j + 1];
    }
  }

  /** An entry whose key is new, put in front of a dictionary, keeps its keys distinct. */
  lemma ConsDistinct<K, V>(e: (K, V), t: seq<(K, V)>)
    requires DistinctKeys(t) && e.0 !in Keys(t)
    ensures DistinctKeys([e] + t)
  {
    forall i, j | 0 <= i < j < |[e] + t| ensures ([e] + t)[i].0 != ([e] + t)[j].0 {
      if i == 0 {
        assert ([e] + t)[j].0 == Keys(t)[j - 1];
      } else {
        assert ([e] + t)[i] == t[i - 1] && ([e] + t)[j] == t[j - 1];
      }
    }
  }

  /** `d[k] = v` keeps a dictionary's keys distinct. */
  lemma {:induction false} PutDistinct<K, V>(s: seq<(K, V)>, k: K, v: V)
    requires DistinctKeys(s)
    ensures DistinctKeys(Put(s, k, v))
    decreases |s|
  {
    if s != [] {
      TailDistinct(s);
      if s[0].0 == k {
        ConsDistinct((k, v), s[1..]);
      } else {
        PutDistinct(s[1..], k, v);
        PutKeys(s[1..], k, v);
        ConsDistinct(s[0], Put(s[1..], k, v));
      }
    }
  }

  /** `for k, v in pairs: d[k] = v`, applied in order. */
  function PutAll<K(==), V>(s: seq<(K, V)>, pairs: seq<(K, V)>): seq<(K, V)>
    decreases |pairs|
  {
    if pairs == [] then s
    else
      var p := pairs[|pairs| - 1];
      Put(PutAll(s, pairs[..|pairs| - 1]), p.0, p.1)
  }

  /** The value of the last entry with key `k`. */
  function LastLookup<K(==), V>(pairs: seq<(K, V)>, k: K): Option<V>
    decreases |pairs|
  {
    if pairs == [] then None
    else if pairs[|pairs| - 1].0 == k then Some(pairs[|pairs| - 1].1)
    else LastLookup(pairs[..|pairs| - 1], k)
  }

  /** A key with an entry has a last entry. */
  lemma {:induction false} LastLookupPresent<K, V>(pairs: seq<(K, V)>, k: K, i: nat)
    requires i < |pairs| && pairs[i].0 == k
    ensures LastLookup(pairs, k).Some?
    decreases |pairs|
  {
    if pairs[|pairs| - 1].0 != k {
      LastLookupPresent(pairs[..|pairs| - 1], k, i);
    }
  }

  /** The key of an entry. */
  function PairKey<K, V>(p: (K, V)): K
  {
    p.0
  }

  /** After a run of assignments, the last one to a key decides its value; other keys keep theirs. */
  lemma {:induction false} PutAllLookup<K, V>(s: seq<(K, V)>, pairs: seq<(K, V)>, x: K)
    ensures Lookup(PutAll(s, pairs), x) ==
      if LastLookup(pairs, x).Some? then LastLookup(pairs, x) else Lookup(s, x)
    decreases |pairs|
  {
    if pairs != [] {
      var p := pairs[|pairs| - 1];
      PutAllLookup(s, pairs[..|pairs| - 1], x);
      PutLookup(PutAll(s, pairs[..|pairs| - 1]), p.0, p.1, x);
    }
  }

  /** Two runs of assignments are one run. */
  lemma {:induction false} PutAllAppend<K, V>(s: seq<(K, V)>, a: seq<(K, V)>, b: seq<(K, V)>)
    ensures PutAll(s, a + b) == PutAll(PutAll(s, a), b)
    decreases |b|
  {
    if b == [] {
      assert a + b == a;
    } else {
      assert (a + b)[..|a + b| - 1] == a + b[..|b| - 1];
      PutAllAppend(s, a, b[..|b| - 1]);
    }
  }

  lemma KeysImage<K, V>(s: seq<(K, V)>)
    ensures Keys(s) == Image(s, PairKey)
  {
  }

  /** A run of assignments keeps a dictionary's keys distinct. */
  lemma {:induction false} PutAllDistinct<K, V>(s: seq<(K, V)>, pairs: seq<(K, V)>)
    requires DistinctKeys(s)
    ensures DistinctKeys(PutAll(s, pairs))
    decreases |pairs|
  {
    if pairs != [] {
      var p := pairs[|pairs| - 1];
      PutAllDistinct(s, pairs[..|pairs| - 1]);
      PutDistinct(PutAll(s, pairs[..|pairs| - 1]), p.0, p.1);
    }
  }

  /** One more assignment adds its key to the first-occurrence keys exactly when it is new. */
  lemma PutAllKeysStep<K, V>(whole: seq<(K, V)>, prev: seq<(K, V)>, p: (K, V))
    requires Keys(prev) == Image(UniqBy(whole, PairKey), PairKey)
    ensures Keys(Put(prev, p.0, p.1)) == Image(UniqBy(whole + [p], PairKey), PairKey)
  {
    PutKeys(prev, p.0, p.1);
    assert (whole + [p])[..|whole + [p]| - 1] == whole;
    UniqByImage(whole, PairKey, p.0);
    var tail := if PairKey(p) in Image(whole, PairKey) then [] else [p];
    ImageAppend(UniqBy(whole, PairKey), tail, PairKey);
  }

  /** A dictionary's keys, each once, are the keys of its first occurrences. */
  lemma DistinctKeysImage<K, V>(s: seq<(K, V)>)
    requires DistinctKeys(s)
    ensures Keys(s) == Image(UniqBy(s, PairKey), PairKey)
  {
    assert DistinctBy(s, PairKey) by {
      forall i, j | 0 <= i < j < |s| ensures PairKey(s[i]) != PairKey(s[j]) { }
    }
    UniqByOfDistinct(s, PairKey);
    KeysImage(s);
  }

  /**
   * After a run of assignments the keys are the old ones followed by the new
   * ones in the order of their first assignment, each once.
   */
  lemma {:induction false} PutAllKeys<K, V>(s: seq<(K, V)>, pairs: seq<(K, V)>)
    requires DistinctKeys(s)
    ensures Keys(PutAll(s, pairs)) == Image(UniqBy(s + pairs, PairKey), PairKey)
    ensures DistinctKeys(PutAll(s, pairs))
    decreases |pairs|
  {
    PutAllDistinct(s, pairs);
    if pairs == [] {
      assert s + pairs == s;
      DistinctKeysImage(s);
    } else {
      PutAllKeys(s, pairs[..|pairs| - 1]);
      PutAllKeysLast(s, pairs);
    }
  }

  /** The keys after a run of assignments follow from those before its last one. */
  lemma PutAllKeysLast<K, V>(s: seq<(K, V)>, pairs: seq<(K, V)>)
    requires pairs != []
    requires Keys(PutAll(s, pairs[..|pairs| - 1])) == Image(UniqBy(s + pairs[..|pairs| - 1], PairKey), PairKey)
    ensures Keys(PutAll(s, pairs)) == Image(UniqBy(s + pairs, PairKey), PairKey)
  {
    var pairs', p := pairs[..|pairs| - 1], pairs[|pairs| - 1];
    AppendLast(s, pairs);
    PutAllKeysStep(s + pairs', PutAll(s, pairs'), p);
  }

  /** Appending a non-empty sequence is appending all but its last element, then that element. */
  lemma AppendLast<T>(s: seq<T>, pairs: seq<T>)
    requires pairs != []
    ensures s + pairs == (s + pairs[..|pairs| - 1]) + [pairs[|pairs| - 1]]
  {
    assert pairs == pairs[..|pairs| - 1] + [pairs[|pairs| - 1]];
  }

  /** In two runs of assignments, the later run decides where it assigns the key. */
  lemma {:induction false} LastLookupAppend<K, V>(a: seq<(K, V)>, b: seq<(K, V)>, k: K)
    ensures LastLookup(a + b, k) == if LastLookup(b, k).Some? then LastLookup(b, k) else LastLookup(a, k)
    decreases |b|
  {
    if b == [] {
      assert a + b == a;
    } else {
      assert (a + b)[..|a + b| - 1] == a + b[..|b| - 1];
      LastLookupAppend(a, b[..|b| - 1], k);
    }
  }
}
