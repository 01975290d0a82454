/** Stable sorting by a key, the behaviour of Python's `sorted(key=...)` and
    `list.sort(key=...)` and of JavaScript's `Array.prototype.sort` with a
    numeric comparator (stable since ECMAScript 2019). */
module Sorting {
  import opened Seqs

  /** A sort key, compared by `major` first and then by `minor`. */
  datatype Rank = Rank(major: int, minor: real)

  predicate RankLe(a: Rank, b: Rank) {
    a.major < b.major || (a.major == b.major && a.minor <= b.minor)
  }

  ghost predicate SortedBy<T>(s: seq<T>, key: T -> Rank) {
    forall i, j :: 0 <= i < j < |s| ==> RankLe(key(s[i]), key(s[j]))
  }

  /** The elements whose key is `k`. */
  function HasRank<T>(key: T -> Rank, k: Rank): T -> bool {
    e => key(e) == k
  }

  /** Inserts `x` in front of the first element whose key is not below `x`'s. */
  function Insert<T>(x: T, s: seq<T>, key: T -> Rank): seq<T>
    decreases |s|
  {
    if s == [] || RankLe(key(x), key(s[0])) then [x] + s
    else [s[0]] + Insert(x, s[1..], key)
  }

  lemma {:induction false} InsertPermutes<T>(x: T, s: seq<T>, key: T -> Rank)
    ensures |Insert(x, s, key)| == |s| + 1
    ensures multiset(Insert(x, s, key)) == multiset(s) + multiset{x}
    decreases |s|
  {
    if s != [] && !RankLe(key(x), key(s[0])) {
      InsertPermutes(x, s[1..], key);
      assert s == [s[0]] + s[1..];
    }
  }

  /** A lower bound of `x` and of every element of `s` bounds the insertion. */
  lemma {:induction false} InsertLowerBound<T>(x: T, s: seq<T>, key: T -> Rank, b: Rank)
    requires RankLe(b, key(x))
    requires forall i :: 0 <= i < |s| ==> RankLe(b, key(s[i]))
    ensures forall i :: 0 <= i < |Insert(x, s, key)| ==> RankLe(b, key(Insert(x, s, key)[i]))
    decreases |s|
  {
    if s != [] && !RankLe(key(x), key(s[0])) {
      InsertLowerBound(x, s[1..], key, b);
    }
  }

  lemma {:induction false} InsertSorted<T>(x: T, s: seq<T>, key: T -> Rank)
    requires SortedBy(s, key)
    ensures SortedBy(Insert(x, s, key), key)
    decreases |s|
  {
    if s != [] && !RankLe(key(x), key(s[0])) {
      var t := Insert(x, s[1..], key);
      InsertSorted(x, s[1..], key);
      InsertLowerBound(x, s[1..], key, key(s[0]));
      var r := [s[0]] + t;
      assert Insert(x, s, key) == r;
      forall i, j | 0 <= i < j < |r|
        ensures RankLe(key(r[i]), key(r[j]))
      {
        if i > 0 {
          assert r[i] == t[i - 1] && r[j] == t[j - 1];
        } else {
          assert r[j] == t[j - 1];
        }
      }
    }
  }

  /** Insertion sort by key. */
  function SortBy<T>(s: seq<T>, key: T -> Rank): seq<T>
    decreases |s|
  {
    if s == [] then [] else Insert(s[0], SortBy(s[1..], key), key)
  }

  /** The sort is ascending by key and a permutation of its input. */
  lemma {:induction false} SortBySorts<T>(s: seq<T>, key: T -> Rank)
    ensures |SortBy(s, key)| == |s|
    ensures multiset(SortBy(s, key)) == multiset(s)
    ensures SortedBy(SortBy(s, key), key)
    decreases |s|
  {
    if s != [] {
      SortBySorts(s[1..], key);
      InsertPermutes(s[0], SortBy(s[1..], key), key);
      InsertSorted(s[0], SortBy(s[1..], key), key);
      assert s == [s[0]] + s[1..];
    }
  }

  lemma {:induction false} InsertStable<T>(x: T, s: seq<T>, key: T -> Rank, k: Rank)
    ensures Filter(Insert(x, s, key), HasRank(key, k))
         == (if key(x) == k then [x] else []) + Filter(s, HasRank(key, k))
    decreases |s|
  {
    var p := HasRank(key, k);
    assert p(x) == (key(x) == k);
    if s == [] || RankLe(key(x), key(s[0])) {
      FilterCons(x, s, p);
    } else {
      var t := Insert(x, s[1..], key);
      assert p(s[0]) == (key(s[0]) == k);
      InsertStable(x, s[1..], key, k);
      FilterCons(s[0], t, p);
      assert Filter(Insert(x, s, key), p) == Filter([s[0]] + t, p);
      if key(x) == k {
        assert Filter([s[0]] + t, p) == Filter(t, p);
        assert Filter(s, p) == Filter(s[1..], p);
      } else {
        assert Filter(t, p) == Filter(s[1..], p);
      }
    }
  }

  /** Stability: the elements sharing a key keep their input order. */
  lemma {:induction false} SortByStable<T>(s: seq<T>, key: T -> Rank, k: Rank)
    ensures Filter(SortBy(s, key), HasRank(key, k)) == Filter(s, HasRank(key, k))
    decreases |s|
  {
    if s != [] {
      SortByStable(s[1..], key, k);
      InsertStable(s[0], SortBy(s[1..], key), key, k);
    }
  }

  /** When every key is the same, sorting changes nothing. */
  lemma SortByConstantKey<T>(s: seq<T>, key: T -> Rank, k: Rank)
    requires forall i :: 0 <= i < |s| ==> key(s[i]) == k
    ensures SortBy(s, key) == s
  {
    var t := SortBy(s, key);
    var p := HasRank(key, k);
    SortBySorts(s, key);
    SortByStable(s, key, k);
    FilterAll(s, p);
    forall i | 0 <= i < |t|
      ensures p(t[i])
    {
      assert t[i] in multiset(t);
      assert t[i] in multiset(s);
      var j :| 0 <= j < |s| && s[j] == t[i];
    }
    FilterAll(t, p);
  }

  /** The first `n` of a sorted sequence are the least: an element left
      out means all `n` places were filled by elements not above it. */
  lemma TakeSortedBound<T>(u: seq<T>, key: T -> Rank, n: nat, x: T)
    requires SortedBy(u, key) && x in u && x !in Take(u, n)
    ensures |Take(u, n)| == n
    ensures forall y :: y in Take(u, n) ==> RankLe(key(y), key(x))
  {
    var j :| 0 <= j < |u| && u[j] == x;
    assert n <= j;
    forall y | y in Take(u, n)
      ensures RankLe(key(y), key(x))
    {
      var i :| 0 <= i < n && u[..n][i] == y;
      assert u[i] == y;
    }
  }
}
