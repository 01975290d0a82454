/** The offline builder of the PreciosGamer cache
    (scripts/build_preciosgamer_cache.py): the query key, the removal of
    repeated items, the list of tracked queries and the rule that merges
    fresh results into the cache read from disk. */
module CacheBuilder {
  import opened Wrappers
  import opened Chars
  import opened Seqs
  import opened Strings
  import opened Dicts
  import opened Listing

  /** `normalize_query` as written: lower-cased and stripped, each
      whitespace run made one space, every character that is neither a word
      character nor whitespace removed, stripped again; "" for `None`. */
  function NormalizeQuery(query: Option<string>): string {
    match query
    case None => ""
    case Some(q) => Strip(KeepWordOrSpace(Squeeze(Strip(Lower(q), IsPySpace))), IsPySpace)
  }

  /** The key has no upper-case letter, only word characters and plain
      spaces, and no space at either end. */
  lemma NormalizeQueryShape(query: Option<string>)
    ensures var r := NormalizeQuery(query);
      && NoUpper(r) && AllChars(r, WordOrBlank)
      && (r != [] ==> r[0] != ' ' && r[|r| - 1] != ' ')
  {
    if query.Some? {
      var l := Strip(Lower(query.value), IsPySpace);
      StripKeeps(Lower(query.value), IsPySpace, NotUpper);
      WordFilterShape(l);
    }
  }

  /** The squeeze, the filter and the final strip keep text free of
      upper-case letters and leave only word characters and plain spaces. */
  lemma WordFilterShape(l: string)
    requires NoUpper(l)
    ensures var r := Strip(KeepWordOrSpace(Squeeze(l)), IsPySpace);
      && NoUpper(r) && AllChars(r, WordOrBlank)
      && (r != [] ==> r[0] != ' ' && r[|r| - 1] != ' ')
  {
    var q := Squeeze(l);
    var k := KeepWordOrSpace(q);
    SqueezeKeeps(l, NotUpper);
    KeepWordOrSpaceKeeps(q, NotUpper);
    KeepWordOrSpaceKeeps(q, BlankIsSpace);
    StripKeeps(k, IsPySpace, NotUpper);
    assert AllChars(k, WordOrBlank);
    StripKeeps(k, IsPySpace, WordOrBlank);
  }

  /** The whitespace runs are squeezed before the punctuation between them
      is removed, so a removed character leaves two spaces in a row:
      "a - b" gives "a  b". */
  lemma NormalizeQueryDoubleSpace()
    ensures NormalizeQuery(Some("a - b")) == "a  b"
    ensures !SingleSpaced(NormalizeQuery(Some("a - b")))
  {
    var l := Strip(Lower("a - b"), IsPySpace);
    ExampleLowerStrip();
    assert l == "a - b";
    ExampleSqueeze();
    ExampleKeep();
    var k := KeepWordOrSpace(Squeeze(l));
    assert k == "a  b";
    ExampleStrip();
    assert NormalizeQuery(Some("a - b")) == Strip(k, IsPySpace);
    assert k[1] == ' ' && k[2] == ' ';
  }

  lemma ExampleStrip()
    ensures Strip("a  b", IsPySpace) == "a  b"
  {
    var r := "a  b";
    assert !IsPySpace(r[0]) && !IsPySpace(r[3]);
  }

  lemma ExampleLowerStrip()
    ensures Strip(Lower("a - b"), IsPySpace) == "a - b"
  {
    var s := "a - b";
    assert NoUpper(s);
    assert Lower(s) == s;
  }

  lemma ExampleSqueeze()
    ensures Squeeze("a - b") == "a - b"
  {
    assert LeadingCount("b", IsPySpace) == 0;
    assert LeadingCount(" b", IsPySpace) == 1;
    assert StripLeft(" b", IsPySpace) == "b";
    assert LeadingCount("- b", IsPySpace) == 0;
    assert LeadingCount(" - b", IsPySpace) == 1;
    assert StripLeft(" - b", IsPySpace) == "- b";
    assert Squeeze("b") == "b";
    assert Squeeze(" b") == " b";
    assert Squeeze("- b") == "- b";
    assert Squeeze(" - b") == " - b";
  }

  lemma ExampleKeep()
    ensures KeepWordOrSpace("a - b") == "a  b"
  {
    KeepStep('b', "");
    KeepStep(' ', "b");
    KeepStep('-', " b");
    KeepStep(' ', "- b");
    KeepStep('a', " - b");
    assert "a - b" == ['a'] + " - b";
  }

  /** One step of the filter, on a text split into its first character and
      the rest. */
  lemma KeepStep(c: char, t: string)
    ensures KeepWordOrSpace([c] + t)
      == (if IsWordChar(c) || IsPySpace(c) then [c] else []) + KeepWordOrSpace(t)
  {
    assert ([c] + t)[1..] == t;
  }

  /** The cache key with single spaces, as the squeezing step intends: the
      words of the key as written, joined by one space. */
  function QueryKey(query: string): (r: string)
    ensures SingleSpaced(r) && NoUpper(r) && AllChars(r, WordOrBlank)
    ensures Split(r) == Split(NormalizeQuery(Some(query)))
  {
    var ws := Split(NormalizeQuery(Some(query)));
    NormalizeQueryShape(Some(query));
    SplitKeeps(NormalizeQuery(Some(query)), NotUpper);
    SplitKeeps(NormalizeQuery(Some(query)), WordOrBlank);
    JoinShape(ws, NotUpper);
    JoinShape(ws, WordOrBlank);
    SplitJoin(ws);
    Join(ws)
  }

  /** The corrected key differs from the key as written only in the
      spacing: the two have the same words, and a key as written that is
      already single-spaced is kept. */
  lemma QueryKeyKeepsSingleSpaced(query: string)
    requires SingleSpaced(NormalizeQuery(Some(query)))
    ensures QueryKey(query) == NormalizeQuery(Some(query))
  {
    JoinSplitSingleSpaced(NormalizeQuery(Some(query)));
  }

  /** `" ".join(s.split()) == s` for single-spaced text. */
  lemma {:induction false} JoinSplitSingleSpaced(s: string)
    requires SingleSpaced(s)
    ensures Join(Split(s)) == s
    decreases |s|
  {
    if s != [] {
      var n := RunLen(s);
      SingleSpacedParts(s);
      var w, t := s[..n], s[n..];
      if t == [] {
        assert Split(s) == [w] + Split(t);
        assert w == s;
      } else {
        var u := s[n + 1..];
        JoinSplitSingleSpaced(u);
        assert t[1..] == u;
        assert Split(t) == Split(u);
        assert Split(s) == [w] + Split(u);
        JoinCons(w, Split(u));
        assert s == w + " " + u;
      }
    }
  }

  /** A non-empty single-spaced text is a word, then either nothing or one
      space and a single-spaced text that starts with a word. */
  lemma SingleSpacedParts(s: string)
    requires SingleSpaced(s) && s != []
    ensures 0 < RunLen(s) <= |s|
    ensures Split(s) == [s[..RunLen(s)]] + Split(s[RunLen(s)..])
    ensures RunLen(s) < |s| ==>
      && RunLen(s) + 1 < |s| && SingleSpaced(s[RunLen(s) + 1..])
      && Split(s[RunLen(s)..]) == Split(s[RunLen(s) + 1..])
      && Split(s[RunLen(s) + 1..]) != []
  {
    var n := RunLen(s);
    RunLenBound(s);
    if n < |s| {
      assert s[n] == ' ';
      assert n + 1 < |s|;
      SingleSpacedSuffix(s, n + 1);
      SplitSkipSpace(s[n..]);
      assert s[n..][1..] == s[n + 1..];
      SplitWordList(s[n + 1..]);
    }
  }

  /** What follows a space of single-spaced text is single-spaced and
      starts with a word. */
  lemma SingleSpacedSuffix(s: string, m: nat)
    requires SingleSpaced(s) && 0 < m < |s| && s[m - 1] == ' '
    ensures SingleSpaced(s[m..]) && !IsPySpace(s[m])
  {
    var u := s[m..];
    assert s[m] != ' ';
    assert forall i :: 0 <= i < |u| ==> u[i] == s[m + i];
    assert u[|u| - 1] == s[|s| - 1];
  }

  /** Leading whitespace does not make a word. */
  lemma SplitSkipSpace(t: string)
    requires t != [] && IsPySpace(t[0])
    ensures Split(t) == Split(t[1..])
  {
  }

  /** The first word of a text is its leading non-whitespace run. */
  lemma RunLenBound(s: string)
    requires s != [] && !IsPySpace(s[0])
    ensures 0 < RunLen(s) <= |s|
    ensures forall i :: 0 <= i < RunLen(s) ==> !IsPySpace(s[i])
    ensures RunLen(s) < |s| ==> IsPySpace(s[RunLen(s)])
    ensures Split(s) == [s[..RunLen(s)]] + Split(s[RunLen(s)..])
  {
    RunLenFacts(s);
  }

  lemma {:induction false} RunLenFacts(s: string)
    ensures RunLen(s) <= |s|
    ensures forall i :: 0 <= i < RunLen(s) ==> !IsPySpace(s[i])
    ensures RunLen(s) < |s| ==> IsPySpace(s[RunLen(s)])
    decreases |s|
  {
    if s != [] && !IsPySpace(s[0]) {
      RunLenFacts(s[1..]);
    }
  }

  /** A text that starts with a word splits into a non-empty list. */
  lemma SplitWordList(u: string)
    requires u != [] && !IsPySpace(u[0])
    ensures Split(u) != []
  {
  }

  /** The key `dedupe_items` compares: stripped lower-cased name, stripped
      lower-cased link and the price. */
  datatype ItemKey = ItemKey(nombre: string, link: string, precio: real)

  function KeyOf(item: Product): ItemKey {
    ItemKey(Lower(Strip(item.nombre, IsPySpace)), Lower(Strip(item.link, IsPySpace)), item.precio)
  }

  /** The keys of the items of `s`. */
  function KeySet<T, K(==)>(s: seq<T>, key: T -> K): set<K>
    decreases |s|
  {
    if s == [] then {} else KeySet(s[..|s| - 1], key) + {key(s[|s| - 1])}
  }

  lemma {:induction false} KeySetMember<T, K>(s: seq<T>, key: T -> K, k: K)
    ensures k in KeySet(s, key) <==> exists i :: 0 <= i < |s| && key(s[i]) == k
    decreases |s|
  {
    if s != [] {
      var t := s[..|s| - 1];
      KeySetMember(t, key, k);
      if exists i :: 0 <= i < |t| && key(t[i]) == k {
        var i :| 0 <= i < |t| && key(t[i]) == k;
        assert key(s[i]) == k;
      }
      if exists i :: 0 <= i < |s| && key(s[i]) == k {
        var i :| 0 <= i < |s| && key(s[i]) == k;
        if i < |t| {
          assert key(t[i]) == k;
        }
      }
    }
  }

  /** The items of `s` whose key no earlier item has, in order: the
      specification of `dedupe_items`. */
  function KeepFirst<T, K(==)>(s: seq<T>, key: T -> K): seq<T>
    decreases |s|
  {
    if s == [] then []
    else
      var t := s[..|s| - 1];
      KeepFirst(t, key) + (if key(s[|s| - 1]) in KeySet(t, key) then [] else [s[|s| - 1]])
  }

  /** `dedupe_items`: one pass that remembers the keys seen so far and
      appends an item only when its key is new. */
  method DedupeItems(items: seq<Product>) returns (out: seq<Product>)
    ensures out == KeepFirst(items, KeyOf)
  {
    out := DedupeBy(items, KeyOf);
  }

  /** The pass of `dedupe_items` for any key. */
  method DedupeBy<T, K(==)>(items: seq<T>, key: T -> K) returns (out: seq<T>)
    ensures out == KeepFirst(items, key)
  {
    var seen: set<K> := {};
    out := [];
    for i := 0 to |items|
      invariant out == KeepFirst(items[..i], key)
      invariant seen == KeySet(items[..i], key)
    {
      assert items[..i + 1][..i] == items[..i];
      var k := key(items[i]);
      if k !in seen {
        seen := seen + {k};
        out := out + [items[i]];
      }
    }
    assert items[..|items|] == items;
  }

  /** The result is a subsequence of the input and holds every key of the
      input. */
  lemma {:induction false} KeepFirstSubseq<T, K>(s: seq<T>, key: T -> K)
    ensures IsSubseq(KeepFirst(s, key), s)
    ensures KeySet(KeepFirst(s, key), key) == KeySet(s, key)
    decreases |s|
  {
    if s != [] {
      var t, x := s[..|s| - 1], s[|s| - 1];
      var r := KeepFirst(t, key);
      KeepFirstSubseq(t, key);
      assert s == t + [x];
      if key(x) in KeySet(t, key) {
        SubseqExtendRight(r, t, x);
        assert KeepFirst(s, key) == r;
      } else {
        SubseqExtendBoth(r, t, x);
        assert KeepFirst(s, key) == r + [x];
        assert (r + [x])[..|r|] == r;
      }
    }
  }

  /** No two items of the result share a key. */
  lemma {:induction false} KeepFirstDistinct<T, K>(s: seq<T>, key: T -> K)
    ensures forall i, j :: 0 <= i < j < |KeepFirst(s, key)| ==>
      key(KeepFirst(s, key)[i]) != key(KeepFirst(s, key)[j])
    decreases |s|
  {
    if s != [] {
      var t, x := s[..|s| - 1], s[|s| - 1];
      var r := KeepFirst(t, key);
      KeepFirstDistinct(t, key);
      if key(x) !in KeySet(t, key) {
        KeepFirstSubseq(t, key);
        var e := r + [x];
        forall i, j | 0 <= i < j < |e|
          ensures key(e[i]) != key(e[j])
        {
          if j == |r| {
            KeySetMember(r, key, key(r[i]));
          }
        }
      }
    }
  }

  /** Every item of the input whose key no earlier item has is kept, and
      every item kept is such an item. */
  lemma KeepFirstKeepsFirsts<T, K>(s: seq<T>, key: T -> K)
    ensures forall i :: 0 <= i < |s| && key(s[i]) !in KeySet(s[..i], key) ==> s[i] in KeepFirst(s, key)
    ensures forall y :: y in KeepFirst(s, key) ==>
      exists i :: 0 <= i < |s| && s[i] == y && key(y) !in KeySet(s[..i], key)
  {
    KeepFirstKeepsNew(s, key);
    KeepFirstOnlyNew(s, key);
  }

  lemma {:induction false} KeepFirstKeepsNew<T, K>(s: seq<T>, key: T -> K)
    ensures forall i :: 0 <= i < |s| && key(s[i]) !in KeySet(s[..i], key) ==> s[i] in KeepFirst(s, key)
    decreases |s|
  {
    if s != [] {
      var t, x := s[..|s| - 1], s[|s| - 1];
      var r := KeepFirst(t, key);
      var tail := if key(x) in KeySet(t, key) then [] else [x];
      assert KeepFirst(s, key) == r + tail;
      KeepFirstKeepsNew(t, key);
      forall i | 0 <= i < |s| && key(s[i]) !in KeySet(s[..i], key)
        ensures s[i] in r + tail
      {
        if i < |t| {
          assert s[..i] == t[..i] && s[i] == t[i];
        } else {
          assert s[..i] == t;
        }
      }
    }
  }

  lemma {:induction false} KeepFirstOnlyNew<T, K>(s: seq<T>, key: T -> K)
    ensures forall y :: y in KeepFirst(s, key) ==>
      exists i :: 0 <= i < |s| && s[i] == y && key(y) !in KeySet(s[..i], key)
    decreases |s|
  {
    if s != [] {
      var t, x := s[..|s| - 1], s[|s| - 1];
      var r := KeepFirst(t, key);
      var tail := if key(x) in KeySet(t, key) then [] else [x];
      assert KeepFirst(s, key) == r + tail;
      KeepFirstOnlyNew(t, key);
      forall y | y in r + tail
        ensures exists i :: 0 <= i < |s| && s[i] == y && key(y) !in KeySet(s[..i], key)
      {
        if y in r {
          var i :| 0 <= i < |t| && t[i] == y && key(y) !in KeySet(t[..i], key);
          assert s[..i] == t[..i] && s[i] == t[i];
        } else {
          assert s[..|t|] == t && s[|t|] == y;
        }
      }
    }
  }

  /** On items with distinct keys the pass changes nothing. */
  lemma {:induction false} KeepFirstOfDistinct<T, K>(s: seq<T>, key: T -> K)
    requires forall i, j :: 0 <= i < j < |s| ==> key(s[i]) != key(s[j])
    ensures KeepFirst(s, key) == s
    decreases |s|
  {
    if s != [] {
      var t, x := s[..|s| - 1], s[|s| - 1];
      forall i, j | 0 <= i < j < |t|
        ensures key(t[i]) != key(t[j])
      {
        assert t[i] == s[i] && t[j] == s[j];
      }
      KeepFirstOfDistinct(t, key);
      KeySetMember(t, key, key(x));
      assert s == t + [x];
    }
  }

  /** `dedupe_items(dedupe_items(x)) == dedupe_items(x)`. */
  lemma KeepFirstIdempotent<T, K>(s: seq<T>, key: T -> K)
    ensures KeepFirst(KeepFirst(s, key), key) == KeepFirst(s, key)
  {
    KeepFirstDistinct(s, key);
    KeepFirstOfDistinct(KeepFirst(s, key), key);
  }

  /** An entry of the `queries` list of the tracked-queries file: a string,
      or any other JSON value. */
  datatype TrackedEntry = Text(s: string) | NotText

  /** The tracked queries: the string entries, stripped, that are not blank. */
  function TrackedQueries(entries: seq<TrackedEntry>): (r: seq<string>)
    ensures |r| <= |entries|
    ensures forall i :: 0 <= i < |r| ==> r[i] != "" && Strip(r[i], IsPySpace) == r[i]
    decreases |entries|
  {
    if entries == [] then []
    else
      var e := entries[0];
      (if e.Text? && Strip(e.s, IsPySpace) != "" then [Strip(e.s, IsPySpace)] else [])
        + TrackedQueries(entries[1..])
  }

  /** Entries that are already clean queries are kept as they are, and in
      full: nothing is lost that was a usable query. */
  lemma {:induction false} TrackedQueriesOfClean(entries: seq<TrackedEntry>)
    requires forall i :: 0 <= i < |entries| ==>
      entries[i].Text? && entries[i].s != "" && Strip(entries[i].s, IsPySpace) == entries[i].s
    ensures |TrackedQueries(entries)| == |entries|
    ensures forall i :: 0 <= i < |entries| ==> TrackedQueries(entries)[i] == entries[i].s
    decreases |entries|
  {
    if entries != [] {
      assert forall i :: 0 <= i < |entries| - 1 ==> entries[1..][i] == entries[i + 1];
      TrackedQueriesOfClean(entries[1..]);
      var r := TrackedQueries(entries);
      assert r == [entries[0].s] + TrackedQueries(entries[1..]);
      forall i | 0 < i < |entries|
        ensures r[i] == entries[i].s
      {
        assert r[i] == TrackedQueries(entries[1..])[i - 1];
        assert entries[1..][i - 1] == entries[i];
      }
    }
  }

  /** Non-string and blank entries are dropped without a trace. */
  lemma TrackedQueriesSkips(entries: seq<TrackedEntry>, e: TrackedEntry)
    requires e.NotText? || Strip(e.s, IsPySpace) == ""
    ensures TrackedQueries([e] + entries) == TrackedQueries(entries)
  {
    assert ([e] + entries)[1..] == entries;
  }

  /** A value of the cache file's `queries` object: an entry the builder
      writes, or any other JSON value, which Python treats as true or false. */
  datatype CacheValue =
    | Entry(query: string, updatedAt: int, results: seq<Product>)
    | Other(truthy: bool)

  predicate Truthy(v: CacheValue) {
    v.Entry? || v.truthy
  }

  /** What the scraper gave for one query (`None` when it raised) and the
      time at which the entry would be stamped. */
  datatype Fetch = Fetch(results: Option<seq<Product>>, stamp: int)

  type Cache = seq<Pair<string, CacheValue>>

  /** One query processed, its entry stored under `keyOf(query)`: the
      results without repeats replace the entry when there are any;
      otherwise a truthy entry is kept, and a missing or falsy one becomes
      an entry with no results. */
  function MergeStep(cache: Cache, keyOf: string -> string, query: string, fetch: Fetch): Cache {
    var key := keyOf(query);
    var results := KeepFirst(fetch.results.GetOr([]), KeyOf);
    var prev := Get(cache, key);
    if results != [] || !(prev.Some? && Truthy(prev.value)) then
      Set(cache, key, Entry(query, fetch.stamp, results))
    else cache
  }

  /** The three outcomes for the key of the query, and every other key
      left as it was. */
  lemma MergeStepMeaning(cache: Cache, keyOf: string -> string, query: string, fetch: Fetch, k: string)
    ensures var r := MergeStep(cache, keyOf, query, fetch);
      var results := KeepFirst(fetch.results.GetOr([]), KeyOf);
      var prev := Get(cache, keyOf(query));
      && (k == keyOf(query) && results != [] ==> Get(r, k) == Some(Entry(query, fetch.stamp, results)))
      && (k == keyOf(query) && results == [] && prev.Some? && Truthy(prev.value) ==> Get(r, k) == prev)
      && (k == keyOf(query) && results == [] && !(prev.Some? && Truthy(prev.value)) ==>
            Get(r, k) == Some(Entry(query, fetch.stamp, [])))
      && (k != keyOf(query) ==> Get(r, k) == Get(cache, k))
    ensures DistinctKeys(cache) ==> DistinctKeys(MergeStep(cache, keyOf, query, fetch))
  {
    var key := keyOf(query);
    var results := KeepFirst(fetch.results.GetOr([]), KeyOf);
    var v := Entry(query, fetch.stamp, results);
    SetGet(cache, key, v, k);
    if DistinctKeys(cache) {
      SetDistinct(cache, key, v);
    }
  }

  /** The queries processed in order, starting from the cache read from disk. */
  function MergeAll(cache: Cache, keyOf: string -> string, queries: seq<string>, fetches: seq<Fetch>): Cache
    requires |fetches| == |queries|
    decreases |queries|
  {
    if queries == [] then cache
    else MergeAll(MergeStep(cache, keyOf, queries[0], fetches[0]), keyOf, queries[1..], fetches[1..])
  }

  /** The key `main` files an entry under: `normalize_query` of the query. */
  function ScriptKey(query: string): string {
    NormalizeQuery(Some(query))
  }

  /** "a - b" and "a b" name the same words, yet the script files them under
      two keys; the corrected key files them under one. */
  lemma ScriptKeySplitsSpellings()
    ensures ScriptKey("a - b") == "a  b"
    ensures ScriptKey("a - b") != QueryKey("a - b")
    ensures Split(ScriptKey("a - b")) == Split(QueryKey("a - b"))
  {
    NormalizeQueryDoubleSpace();
  }

  /** The loop of `main` over the tracked queries, updating a copy of the
      cache read from disk; entries are stored under `normalize_query`'s key. */
  method MergeCache(existing: Cache, queries: seq<string>, fetches: seq<Fetch>) returns (updated: Cache)
    requires |fetches| == |queries|
    ensures updated == MergeAll(existing, ScriptKey, queries, fetches)
  {
    updated := MergeCacheBy(existing, ScriptKey, queries, fetches);
  }

  /** The same loop with entries stored under the single-spaced key, so
      that queries with the same words share one entry. */
  method MergeCacheCorrected(existing: Cache, queries: seq<string>, fetches: seq<Fetch>) returns (updated: Cache)
    requires |fetches| == |queries|
    ensures updated == MergeAll(existing, QueryKey, queries, fetches)
  {
    updated := MergeCacheBy(existing, QueryKey, queries, fetches);
  }

  /** The loop of `main` for any key function. */
  method MergeCacheBy(existing: Cache, keyOf: string -> string, queries: seq<string>, fetches: seq<Fetch>)
    returns (updated: Cache)
    requires |fetches| == |queries|
    ensures updated == MergeAll(existing, keyOf, queries, fetches)
  {
    updated := existing;
    for i := 0 to |queries|
      invariant MergeAll(updated, keyOf, queries[i..], fetches[i..]) == MergeAll(existing, keyOf, queries, fetches)
    {
      var results: seq<Product>;
      if fetches[i].results.Some? {
        results := DedupeItems(fetches[i].results.value);
      } else {
        results := [];
      }
      var key := keyOf(queries[i]);
      var prev := Get(updated, key);
      if results != [] {
        updated := Set(updated, key, Entry(queries[i], fetches[i].stamp, results));
      } else if !(prev.Some? && Truthy(prev.value)) {
        updated := Set(updated, key, Entry(queries[i], fetches[i].stamp, []));
      }
      assert queries[i..][1..] == queries[i + 1..] && fetches[i..][1..] == fetches[i + 1..];
    }
  }

  /** Keys that no query maps to are carried over unchanged. */
  lemma {:induction false} MergeAllCarriesOver(cache: Cache, keyOf: string -> string, queries: seq<string>,
                                               fetches: seq<Fetch>, k: string)
    requires |fetches| == |queries|
    requires forall i :: 0 <= i < |queries| ==> keyOf(queries[i]) != k
    ensures Get(MergeAll(cache, keyOf, queries, fetches), k) == Get(cache, k)
    decreases |queries|
  {
    if queries != [] {
      MergeStepMeaning(cache, keyOf, queries[0], fetches[0], k);
      MergeAllCarriesOver(MergeStep(cache, keyOf, queries[0], fetches[0]), keyOf, queries[1..], fetches[1..], k);
    }
  }

  /** Processing a list in two parts. */
  lemma {:induction false} MergeAllConcat(cache: Cache, keyOf: string -> string, qa: seq<string>, fa: seq<Fetch>,
                                          qb: seq<string>, fb: seq<Fetch>)
    requires |fa| == |qa| && |fb| == |qb|
    ensures MergeAll(cache, keyOf, qa + qb, fa + fb) == MergeAll(MergeAll(cache, keyOf, qa, fa), keyOf, qb, fb)
    decreases |qa|
  {
    if qa == [] {
      assert qa + qb == qb && fa + fb == fb;
    } else {
      assert (qa + qb)[1..] == qa[1..] + qb && (fa + fb)[1..] == fa[1..] + fb;
      MergeAllConcat(MergeStep(cache, keyOf, qa[0], fa[0]), keyOf, qa[1..], fa[1..], qb, fb);
    }
  }

  /** The entry of a key is decided by the last query that maps to it, by
      the rule of `MergeStep` applied to the cache as it was then. */
  lemma MergeAllLastWins(cache: Cache, keyOf: string -> string, queries: seq<string>, fetches: seq<Fetch>, i: nat)
    requires |fetches| == |queries| && i < |queries|
    requires forall j :: i < j < |queries| ==> keyOf(queries[j]) != keyOf(queries[i])
    ensures Get(MergeAll(cache, keyOf, queries, fetches), keyOf(queries[i]))
         == Get(MergeStep(MergeAll(cache, keyOf, queries[..i], fetches[..i]), keyOf, queries[i], fetches[i]),
                keyOf(queries[i]))
  {
    var k := keyOf(queries[i]);
    assert queries == queries[..i] + queries[i..] && fetches == fetches[..i] + fetches[i..];
    MergeAllConcat(cache, keyOf, queries[..i], fetches[..i], queries[i..], fetches[i..]);
    var before := MergeAll(cache, keyOf, queries[..i], fetches[..i]);
    var after := MergeStep(before, keyOf, queries[i], fetches[i]);
    var later, laterFetches := queries[i + 1..], fetches[i + 1..];
    assert queries[i..][1..] == later && fetches[i..][1..] == laterFetches;
    forall j | 0 <= j < |later|
      ensures keyOf(later[j]) != k
    {
      assert later[j] == queries[i + 1 + j];
    }
    MergeAllCarriesOver(after, keyOf, later, laterFetches, k);
  }

  /** The merged cache keeps its keys distinct. */
  lemma {:induction false} MergeAllDistinct(cache: Cache, keyOf: string -> string, queries: seq<string>,
                                            fetches: seq<Fetch>)
    requires |fetches| == |queries| && DistinctKeys(cache)
    ensures DistinctKeys(MergeAll(cache, keyOf, queries, fetches))
    decreases |queries|
  {
    if queries != [] {
      MergeStepMeaning(cache, keyOf, queries[0], fetches[0], "");
      MergeAllDistinct(MergeStep(cache, keyOf, queries[0], fetches[0]), keyOf, queries[1..], fetches[1..]);
    }
  }
}
