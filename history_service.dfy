/** `PriceHistoryService` (price_history.py): loading the document, folding
    a search into it, pruning it to the newest records, writing it back, and
    answering history queries. */
module HistoryService {
  import opened Wrappers
  import opened Seqs
  import opened Dicts
  import opened Sorting
  import opened Strings
  import opened Listing
  import opened HistoryKeys
  import opened HistoryDocs
  import opened HistoryBackends
  import opened HistoryFold

  /** The sort key of `_prune`: newest `last_seen_at` first. */
  function ItemRank(p: Pair<Fingerprint, Entry>): Rank {
    NewestFirst(p.value)
  }

  /** How many items Python's `items[:stop]` keeps of `len` items. */
  function PrefixLength(len: nat, stop: int): (n: nat)
    ensures n <= len
    ensures stop >= 0 ==> n == if stop < len then stop else len
    ensures stop < 0 ==> n == if len + stop > 0 then len + stop else 0
  {
    if stop >= 0 then (if stop < len then stop else len)
    else if len + stop > 0 then len + stop else 0
  }

  /** `_prune`: a table over `max_products` records keeps the first
      `max_products` of its records sorted newest first. */
  function PruneTable(t: Table, maxProducts: int): Table {
    if |t| <= maxProducts then t
    else Take(SortBy(t, ItemRank), PrefixLength(|t|, maxProducts))
  }

  /** Pruning keeps records of the table only, each at most as often as the
      table holds it (so distinct keys stay distinct), as many as the bound
      allows, newest first; no record it drops was seen later than one it
      keeps. */
  lemma PruneKeepsNewest(t: Table, maxProducts: int)
    ensures var r := PruneTable(t, maxProducts);
      && (|t| <= maxProducts ==> r == t)
      && (|t| > maxProducts ==> |r| == PrefixLength(|t|, maxProducts) && SortedBy(r, ItemRank))
      && multiset(r) <= multiset(t)
      && (DistinctKeys(t) ==> DistinctKeys(r))
      && (forall x :: x in r ==> x in t)
      && (forall x, y :: x in r && y in t && y !in r ==> RankLe(SeenRank(y.value), SeenRank(x.value)))
  {
    var r := PruneTable(t, maxProducts);
    if |t| > maxProducts {
      var u := SortBy(t, ItemRank);
      var n := PrefixLength(|t|, maxProducts);
      SortBySorts(t, ItemRank);
      TakeMultiset(u, n);
      if DistinctKeys(t) {
        SubMultisetDistinct(r, t);
      }
      assert r == u[..n];
      forall x | x in r
        ensures x in t
      {
        assert x in multiset(u);
      }
      forall x, y | x in r && y in t && y !in r
        ensures RankLe(SeenRank(y.value), SeenRank(x.value))
      {
        assert y in multiset(t);
        TakeSortedBound(u, ItemRank, n, y);
        NewestFirstReverses(x.value, y.value);
      }
      forall i, j | 0 <= i < j < |r|
        ensures RankLe(ItemRank(r[i]), ItemRank(r[j]))
      {
        assert r[i] == u[i] && r[j] == u[j];
      }
    }
  }

  /** `limit` clamped to 1..100. */
  function Clamp(limit: int): (n: nat)
    ensures 1 <= n <= 100
    ensures 1 <= limit <= 100 ==> n == limit
  {
    if limit < 1 then 1 else if limit > 100 then 100 else limit
  }

  /** The filter of `get_history`: the normalized query occurs in the
      normalized name or in the store key. */
  function Matches(needle: string): Entry -> bool {
    (e: Entry) => Contains(NormalizeText(e.nombre), needle) || Contains(NormalizeStore(e.tienda), needle)
  }

  /** The records `get_history` considers: all of them for an empty query. */
  function Candidates(t: Table, query: string): seq<Entry> {
    if query == "" then Values(t) else Filter(Values(t), Matches(NormalizeText(query)))
  }

  /** The items of `get_history`: the candidates newest first, at most
      `limit` of them. */
  function HistoryItems(t: Table, query: string, limit: int): seq<Entry> {
    Take(SortBy(Candidates(t, query), NewestFirst), Clamp(limit))
  }

  /** The candidates are exactly the stored records that match the query. */
  lemma CandidatesMember(t: Table, query: string, e: Entry)
    ensures e in Candidates(t, query) <==>
      e in Values(t) && (query != "" ==> Matches(NormalizeText(query))(e))
  {
    if query != "" {
      FilterMember(Values(t), Matches(NormalizeText(query)), e);
    }
  }

  /** `get_history` returns up to `limit` (clamped to 1..100) stored records
      that match the query, each at most as often as it is stored, newest
      first; a matching record is left out only when the list is full of
      records seen no earlier than it. */
  lemma HistoryItemsSpec(t: Table, query: string, limit: int)
    ensures var items := HistoryItems(t, query, limit);
      && |items| <= Clamp(limit)
      && multiset(items) <= multiset(Candidates(t, query))
      && (forall i, j :: 0 <= i < j < |items| ==> RankLe(SeenRank(items[j]), SeenRank(items[i])))
      && (forall e :: e in items ==> e in Values(t) && (query != "" ==> Matches(NormalizeText(query))(e)))
      && (forall e :: e in Values(t) && (query != "" ==> Matches(NormalizeText(query))(e)) && e !in items ==>
            |items| == Clamp(limit) && forall x :: x in items ==> RankLe(SeenRank(e), SeenRank(x)))
  {
    var cands := Candidates(t, query);
    var u := SortBy(cands, NewestFirst);
    var items := HistoryItems(t, query, limit);
    SortBySorts(cands, NewestFirst);
    TakeMultiset(u, Clamp(limit));
    forall i, j | 0 <= i < j < |items|
      ensures RankLe(SeenRank(items[j]), SeenRank(items[i]))
    {
      assert items[i] == u[i] && items[j] == u[j];
      NewestFirstReverses(items[i], items[j]);
    }
    forall e | e in items
      ensures e in Values(t) && (query != "" ==> Matches(NormalizeText(query))(e))
    {
      assert e in multiset(u);
      CandidatesMember(t, query, e);
    }
    forall e | e in Values(t) && (query != "" ==> Matches(NormalizeText(query))(e)) && e !in items
      ensures |items| == Clamp(limit) && forall x :: x in items ==> RankLe(SeenRank(e), SeenRank(x))
    {
      CandidatesMember(t, query, e);
      assert e in multiset(cands);
      TakeSortedBound(u, NewestFirst, Clamp(limit), e);
      forall x | x in items
        ensures RankLe(SeenRank(e), SeenRank(x))
      {
        NewestFirstReverses(x, e);
      }
    }
  }

  /** The dictionary `record_snapshot` returns. */
  datatype Snapshot = Snapshot(saved: bool, capturedAt: int, changes: seq<Pair<Fingerprint, Change>>, backend: string)

  /** The dictionary `get_history` returns; `total` is the number of items. */
  datatype HistoryView = HistoryView(backend: string, updatedAt: Option<int>, total: nat, items: seq<Entry>)

  /** The document `record_snapshot` writes: the loaded document with the
      search folded in, the capture time as `updated_at`, then pruned. */
  function SnapshotDoc(raw: Doc, ps: seq<Product>, c: Capture, maxProducts: int): Doc
    requires LoadDoc(raw).products.Some?
  {
    var loaded := LoadDoc(raw);
    var folded := FoldAll(FoldState(loaded.products.value, []), ps, c);
    loaded.(updatedAt := Present(c.capturedAt), products := Some(PruneTable(folded.products, maxProducts)))
  }

  class PriceHistoryService {
    const backend: HistoryBackend
    /** `PRICE_HISTORY_MAX_PRODUCTS` (1000 when unset). */
    const maxProducts: int
    /** `PRICE_HISTORY_MAX_POINTS` (30 when unset). */
    const maxPoints: int

    constructor (backend: HistoryBackend, maxProducts: int, maxPoints: int)
      ensures this.backend == backend && this.maxProducts == maxProducts && this.maxPoints == maxPoints
    {
      this.backend := backend;
      this.maxProducts := maxProducts;
      this.maxPoints := maxPoints;
    }

    /** `backend_name`. */
    function BackendName(): string {
      backend.Name()
    }

    /** `_load`. */
    method Load() returns (doc: HistoryDoc)
      ensures fresh(doc)
      ensures doc.Value() == LoadDoc(backend.Read())
    {
      doc := new HistoryDoc(LoadDoc(backend.Read()));
    }

    /** `_prune`: replaces the product table, nothing else. */
    method Prune(doc: HistoryDoc)
      modifies doc
      ensures doc.Value() == old(doc.Value()).(products := Some(PruneTable(old(doc.products), maxProducts)))
    {
      if |doc.products| <= maxProducts {
        return;
      }
      var sorted := SortBy(doc.products, ItemRank);
      doc.products := Take(sorted, PrefixLength(|doc.products|, maxProducts));
    }

    /** The loop of `record_snapshot`: updates the document's records in
        place and collects the changes, as the fold over the products does. */
    method FoldSearch(doc: HistoryDoc, query: string, products: seq<Product>, capturedAt: int)
      returns (changes: seq<Pair<Fingerprint, Change>>)
      modifies doc
      ensures FoldState(doc.products, changes)
           == FoldAll(FoldState(old(doc.products), []), products, Capture(query, capturedAt, maxPoints))
      ensures doc.Value() == old(doc.Value()).(products := Some(doc.products))
    {
      ghost var c := Capture(query, capturedAt, maxPoints);
      ghost var start := FoldState(doc.products, []);
      changes := [];
      var i := 0;
      while i < |products|
        invariant 0 <= i <= |products|
        invariant FoldState(doc.products, changes) == FoldAll(start, products[..i], c)
        invariant doc.Value() == old(doc.Value()).(products := Some(doc.products))
      {
        var p := products[i];
        assert products[..i + 1][..i] == products[..i];
        if p.precio > 0.0 {
          var key := ProductFingerprint(p);
          var entry := Get(doc.products, key).GetOr(NewEntry(key, p));
          var prev := LastPrice(entry.history);
          var history := entry.history + [PricePoint(capturedAt, p.precio, query)];
          if |history| > maxPoints {
            history := SliceFrom(history, -maxPoints);
          }
          entry := entry.(nombre := p.nombre, tienda := p.tienda, fuente := p.fuente, link := p.link,
                          imagen := p.imagen, lastSeenAt := Some(capturedAt), history := history);
          doc.products := Set(doc.products, key, entry);
          changes := Set(changes, key, ChangeOf(prev, p.precio));
        }
        i := i + 1;
      }
      assert products[..|products|] == products;
    }

    /** `record_snapshot`: folds the search's products into the loaded
        document, stamps and prunes it, and writes it back. The changes
        returned are those of the fold; what the backend holds afterwards is
        the written document whenever the write succeeded, and what it held
        before whenever it failed. */
    method RecordSnapshot(query: string, products: seq<Product>, capturedAt: int) returns (snap: Snapshot)
      modifies backend
      ensures var c := Capture(query, capturedAt, maxPoints);
        var loaded := LoadDoc(old(backend.Read()));
        var written := SnapshotDoc(old(backend.Read()), products, c, maxProducts);
        && snap.changes == FoldAll(FoldState(loaded.products.value, []), products, c).changes
        && snap.capturedAt == capturedAt && snap.backend == BackendName()
        && (backend.kind == NoOp ==> !snap.saved)
        && (backend.kind == LocalJson ==> snap.saved && backend.stored == Some(written))
        && (backend.kind == GithubJson ==>
              snap.saved == GithubOutcome(backend.status, |old(backend.puts)|).ok
              && (snap.saved ==> backend.stored == Some(written.(githubSha := Absent))))
        && (!snap.saved ==> backend.stored == old(backend.stored))
        && (backend.kind != GithubJson ==>
              backend.puts == old(backend.puts) && backend.remoteSha == old(backend.remoteSha))
        && (backend.kind == GithubJson ==>
              var n := |old(backend.puts)|;
              var outcome := GithubOutcome(backend.status, n);
              var content := written.(githubSha := Absent);
              && |backend.puts| == n + outcome.requests
              && backend.puts[..n] == old(backend.puts)
              && backend.puts[n] == PutBody(content, FirstSha(written.githubSha))
              && (outcome.requests == 2 ==> backend.puts[n + 1] == PutBody(content, RetrySha(old(backend.Read()))))
              && (snap.saved ==> backend.remoteSha == Some(backend.shaAfter(|backend.puts| - 1)))
              && (!snap.saved ==> backend.remoteSha == old(backend.remoteSha)))
    {
      var doc := Load();
      var changes := FoldSearch(doc, query, products, capturedAt);
      doc.updatedAt := Present(capturedAt);
      Prune(doc);
      var saved := backend.Write(doc);
      snap := Snapshot(saved, capturedAt, changes, BackendName());
    }

    /** `get_history`: reads nothing but the backend and changes nothing. */
    method GetHistory(query: string, limit: int) returns (view: HistoryView)
      ensures var t := LoadDoc(backend.Read()).products.value;
        && view.backend == BackendName()
        && view.total == |view.items| <= Clamp(limit)
        && view.updatedAt == (var d := LoadDoc(backend.Read());
                              if d.updatedAt.Present? then Some(d.updatedAt.value) else None)
        && multiset(view.items) <= multiset(Candidates(t, query))
        && (forall i, j :: 0 <= i < j < |view.items| ==> RankLe(SeenRank(view.items[j]), SeenRank(view.items[i])))
        && (forall e :: e in view.items ==> e in Values(t) && (query != "" ==> Matches(NormalizeText(query))(e)))
        && (forall e :: e in Values(t) && (query != "" ==> Matches(NormalizeText(query))(e)) && e !in view.items ==>
              view.total == Clamp(limit) && forall x :: x in view.items ==> RankLe(SeenRank(e), SeenRank(x)))
    {
      var data := LoadDoc(backend.Read());
      var t := data.products.value;
      var items := HistoryItems(t, query, limit);
      HistoryItemsSpec(t, query, limit);
      var updatedAt := if data.updatedAt.Present? then Some(data.updatedAt.value) else None;
      view := HistoryView(BackendName(), updatedAt, |items|, items);
    }
  }
}
