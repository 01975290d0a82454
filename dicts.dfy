/** Insertion-ordered dictionaries: Python's `dict` and the JSON objects it
    is read from and written to keep their keys in the order they were
    first inserted. A dictionary is a sequence of pairs with distinct keys. */
module Dicts {
  import opened Wrappers

  datatype Pair<K, V> = Pair(key: K, value: V)

  function Keys<K, V>(d: seq<Pair<K, V>>): (ks: seq<K>)
    ensures |ks| == |d|
  {
    seq(|d|, i requires 0 <= i < |d| => d[i].key)
  }

  /** `list(d.values())`. */
  function Values<K, V>(d: seq<Pair<K, V>>): (vs: seq<V>)
    ensures |vs| == |d|
  {
    seq(|d|, i requires 0 <= i < |d| => d[i].value)
  }

  ghost predicate DistinctKeys<K, V>(d: seq<Pair<K, V>>) {
    forall i, j :: 0 <= i < j < |d| ==> d[i].key != d[j].key
  }

  /** The position of key `k`, or `|d|` when it is absent. */
  function Find<K(==), V>(d: seq<Pair<K, V>>, k: K): (n: nat)
    ensures n <= |d|
    ensures forall i :: 0 <= i < n ==> d[i].key != k
    ensures n < |d| ==> d[n].key == k
    decreases |d|
  {
    if d == [] || d[0].key == k then 0 else 1 + Find(d[1..], k)
  }

  /** `d.get(k)`. */
  function Get<K(==), V>(d: seq<Pair<K, V>>, k: K): Option<V> {
    var n := Find(d, k);
    if n < |d| then Some(d[n].value) else None
  }

  /** `d[k] = v`: replaces the value of a present key in place, appends an
      absent one at the end. */
  function Set<K(==), V>(d: seq<Pair<K, V>>, k: K, v: V): seq<Pair<K, V>> {
    var n := Find(d, k);
    if n < |d| then d[n := Pair(k, v)] else d + [Pair(k, v)]
  }

  /** `Find` is the first position holding the key. */
  lemma FindFirst<K, V>(d: seq<Pair<K, V>>, k: K, n: nat)
    requires n <= |d|
    requires forall i :: 0 <= i < n ==> d[i].key != k
    requires n < |d| ==> d[n].key == k
    ensures Find(d, k) == n
  {
  }

  /** A key is present exactly when some pair holds it. */
  lemma GetPresent<K, V>(d: seq<Pair<K, V>>, k: K)
    ensures Get(d, k).Some? <==> exists i :: 0 <= i < |d| && d[i].key == k
    ensures Get(d, k).Some? ==> Pair(k, Get(d, k).value) in d
  {
    if Get(d, k).Some? {
      assert d[Find(d, k)] == Pair(k, Get(d, k).value);
    }
  }

  /** After `d[k] = v`, `k` maps to `v` and every other key to what it
      mapped to before. */
  lemma SetGet<K, V>(d: seq<Pair<K, V>>, k: K, v: V, j: K)
    ensures Get(Set(d, k, v), j) == if j == k then Some(v) else Get(d, j)
  {
    var n := Find(d, k);
    var e := Set(d, k, v);
    var m := Find(d, j);
    if j == k {
      FindFirst(e, k, n);
    } else if n < |d| {
      FindFirst(e, j, m);
    } else if m < |d| {
      FindFirst(e, j, m);
    } else {
      FindFirst(e, j, |e|);
    }
  }

  /** `d[k] = v` keeps the order of the keys and appends a new key last. */
  lemma SetKeys<K, V>(d: seq<Pair<K, V>>, k: K, v: V)
    ensures Keys(Set(d, k, v)) == Keys(d) + (if Get(d, k).None? then [k] else [])
  {
    var e := Set(d, k, v);
    if Get(d, k).None? {
      assert forall i :: 0 <= i < |d| ==> Keys(e)[i] == Keys(d)[i];
    } else {
      assert forall i :: 0 <= i < |d| ==> Keys(e)[i] == Keys(d)[i];
    }
  }

  /** With distinct keys, no pair occurs twice. */
  lemma {:induction false} DistinctKeysOnce<K, V>(d: seq<Pair<K, V>>, x: Pair<K, V>)
    requires DistinctKeys(d)
    ensures multiset(d)[x] <= 1
    decreases |d|
  {
    if d != [] {
      var rest := d[1..];
      assert d == [d[0]] + rest;
      forall i, j | 0 <= i < j < |rest|
        ensures rest[i].key != rest[j].key
      {
        assert rest[i] == d[i + 1] && rest[j] == d[j + 1];
      }
      DistinctKeysOnce(rest, x);
      if x == d[0] {
        forall i | 0 <= i < |rest|
          ensures rest[i] != x
        {
          assert rest[i] == d[i + 1];
        }
      }
    }
  }

  /** With distinct keys, a key determines its pair. */
  lemma KeyDetermines<K, V>(d: seq<Pair<K, V>>, x: Pair<K, V>, y: Pair<K, V>)
    requires DistinctKeys(d) && x in d && y in d
    ensures x.key == y.key ==> x == y
  {
    var a :| 0 <= a < |d| && d[a] == x;
    var b :| 0 <= b < |d| && d[b] == y;
  }

  lemma CountTwice<T>(s: seq<T>, i: nat, j: nat)
    requires i < j < |s|
    ensures s[i] == s[j] ==> multiset(s)[s[i]] >= 2
  {
    assert s == s[..j] + [s[j]] + s[j + 1..];
    assert s[i] == s[..j][i];
  }

  /** Dropping pairs, or reordering them, keeps keys distinct. */
  lemma SubMultisetDistinct<K, V>(r: seq<Pair<K, V>>, d: seq<Pair<K, V>>)
    requires multiset(r) <= multiset(d) && DistinctKeys(d)
    ensures DistinctKeys(r)
  {
    forall i, j | 0 <= i < j < |r|
      ensures r[i].key != r[j].key
    {
      assert r[i] in multiset(r) && r[j] in multiset(r);
      KeyDetermines(d, r[i], r[j]);
      CountTwice(r, i, j);
      DistinctKeysOnce(d, r[i]);
    }
  }

  /** `d[k] = v` keeps keys distinct. */
  lemma SetDistinct<K, V>(d: seq<Pair<K, V>>, k: K, v: V)
    requires DistinctKeys(d)
    ensures DistinctKeys(Set(d, k, v))
  {
  }
}
