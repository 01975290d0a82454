/** The fold at the heart of `record_snapshot` (price_history.py): each
    product of a search, in order, updates the record of its fingerprint and
    yields a price change. */
module HistoryFold {
  import opened Wrappers
  import opened Seqs
  import opened Dicts
  import opened Listing
  import opened HistoryKeys
  import opened HistoryDocs

  /** Python's `round(x, 2)` on the exact value of `x`: the nearest multiple
      of 0.01, ties going to the even multiple. */
  function Round2(x: real): (r: real)
    ensures -0.005 <= r - x <= 0.005
    ensures x >= 0.0 ==> r >= 0.0
    ensures x <= 0.0 ==> r <= 0.0
    ensures (r * 100.0).Floor as real == r * 100.0
  {
    var y := x * 100.0;
    var k := y.Floor;
    var f := y - k as real;
    var n := if f > 0.5 || (f == 0.5 && k % 2 != 0) then k + 1 else k;
    n as real / 100.0
  }

  /** A whole number of hundredths is left as it is. */
  lemma Round2Hundredths(n: int)
    ensures Round2(n as real / 100.0) == n as real / 100.0
  {
    var y := (n as real / 100.0) * 100.0;
    assert y == n as real;
    assert y.Floor == n;
  }

  /** The `price_change` of a product: without an earlier price both
      differences are 0; otherwise the difference and, when the earlier
      price is positive, the percent difference, both rounded to 0.01. */
  function ChangeOf(prev: Option<real>, cur: real): (c: Change)
    ensures c.previousPrice == prev && c.currentPrice == cur
    ensures prev.None? ==> c.delta == 0.0 && c.deltaPct == 0.0
    ensures prev.Some? && prev.value <= 0.0 ==> c.deltaPct == 0.0
  {
    match prev
    case None => Change(None, cur, 0.0, 0.0)
    case Some(p) =>
      var delta := Round2(cur - p);
      var pct := if p > 0.0 then Round2(delta / p * 100.0) else 0.0;
      Change(prev, cur, delta, pct)
  }

  /** Against an earlier price, `delta` is the price difference to within
      half a cent, never of the wrong sign, and the percent difference has
      the sign of `delta` and is its ratio to the earlier price to within
      0.005. */
  lemma ChangeOfMeaning(p: real, cur: real)
    ensures var c := ChangeOf(Some(p), cur);
      && -0.005 <= c.delta - (cur - p) <= 0.005
      && (cur <= p ==> c.delta <= 0.0)
      && (cur >= p ==> c.delta >= 0.0)
      && (p > 0.0 ==> -0.005 <= c.deltaPct - c.delta / p * 100.0 <= 0.005)
      && (c.deltaPct < 0.0 ==> c.delta < 0.0)
      && (c.deltaPct > 0.0 ==> c.delta > 0.0)
  {
    var c := ChangeOf(Some(p), cur);
    if p > 0.0 {
      var x := c.delta / p * 100.0;
      assert c.deltaPct == Round2(x);
      if c.delta <= 0.0 {
        assert c.delta / p <= 0.0;
        assert x <= 0.0;
      }
      if c.delta >= 0.0 {
        assert c.delta / p >= 0.0;
        assert x >= 0.0;
      }
    }
  }

  /** The price of the last observation. */
  function LastPrice(h: seq<PricePoint>): (r: Option<real>)
    ensures r.None? <==> h == []
    ensures r.Some? ==> r.value == h[|h| - 1].precio
  {
    if h == [] then None else Some(h[|h| - 1].precio)
  }

  /** Python's `h[start:]`: a negative start counts from the end. */
  function SliceFrom<T>(h: seq<T>, start: int): (r: seq<T>)
    ensures |r| <= |h| && r == h[|h| - |r|..]
    ensures start < 0 ==> |r| == if -start < |h| then -start else |h|
    ensures start >= 0 ==> |r| == if start < |h| then |h| - start else 0
  {
    var i := if start < 0 then (if |h| + start < 0 then 0 else |h| + start)
             else (if start > |h| then |h| else start);
    h[i..]
  }

  /** `if len(h) > max_points: h = h[-max_points:]`. With a positive bound
      the last `max_points` observations remain; with a bound of 0 the slice
      `h[-0:]` is the whole list, and a negative bound drops that many
      observations from the front. */
  function KeepLast<T>(h: seq<T>, maxPoints: int): (r: seq<T>)
    ensures |r| <= |h| && r == h[|h| - |r|..]
    ensures maxPoints > 0 ==> |r| == if |h| < maxPoints then |h| else maxPoints
    ensures maxPoints == 0 ==> r == h
    ensures maxPoints < 0 ==> r == h[if -maxPoints < |h| then -maxPoints else |h|..]
  {
    if |h| > maxPoints then SliceFrom(h, -maxPoints) else h
  }

  /** What one call of `record_snapshot` stamps on every record it touches. */
  datatype Capture = Capture(query: string, capturedAt: int, maxPoints: int)

  /** The record `setdefault` creates for an unseen fingerprint. */
  function NewEntry(key: Fingerprint, p: Product): (e: Entry)
    ensures e.id == key && e.lastSeenAt.None? && e.history == []
  {
    Entry(key, p.nombre, p.tienda, p.fuente, p.link, p.imagen, None, [])
  }

  /** The record table and the `changes` dictionary being built. */
  datatype FoldState = FoldState(products: Table, changes: seq<Pair<Fingerprint, Change>>)

  /** The record of `p` after one observation: the product's fields, the
      capture time, and the new point appended and trimmed. */
  function Observe(e: Entry, p: Product, c: Capture): Entry {
    e.(nombre := p.nombre, tienda := p.tienda, fuente := p.fuente, link := p.link,
       imagen := p.imagen, lastSeenAt := Some(c.capturedAt),
       history := KeepLast(e.history + [PricePoint(c.capturedAt, p.precio, c.query)], c.maxPoints))
  }

  /** One iteration of the loop of `record_snapshot`. */
  function Step(s: FoldState, p: Product, c: Capture): FoldState {
    if p.precio <= 0.0 then s
    else
      var key := ProductFingerprint(p);
      var entry := Get(s.products, key).GetOr(NewEntry(key, p));
      FoldState(Set(s.products, key, Observe(entry, p, c)),
                Set(s.changes, key, ChangeOf(LastPrice(entry.history), p.precio)))
  }

  /** The loop of `record_snapshot` over `ps`. */
  function FoldAll(s: FoldState, ps: seq<Product>, c: Capture): FoldState
    decreases |ps|
  {
    if ps == [] then s else Step(FoldAll(s, ps[..|ps| - 1], c), ps[|ps| - 1], c)
  }

  predicate Positive(p: Product) {
    p.precio > 0.0
  }

  /** The fingerprints a step of the fold touches. */
  predicate Touches(p: Product, k: Fingerprint) {
    Positive(p) && ProductFingerprint(p) == k
  }

  /** A step leaves every other fingerprint's record and change alone. */
  lemma StepOthers(s: FoldState, p: Product, c: Capture, k: Fingerprint)
    requires !Touches(p, k)
    ensures Get(Step(s, p, c).products, k) == Get(s.products, k)
    ensures Get(Step(s, p, c).changes, k) == Get(s.changes, k)
  {
    if Positive(p) {
      var key := ProductFingerprint(p);
      var entry := Get(s.products, key).GetOr(NewEntry(key, p));
      SetGet(s.products, key, Observe(entry, p, c), k);
      SetGet(s.changes, key, ChangeOf(LastPrice(entry.history), p.precio), k);
    }
  }

  /** A step with a positive price records the product under its
      fingerprint: its fields and capture time, a history that is the last
      `max_points` of the earlier history followed by the new observation
      (so that observation is the last point, for a bound of at least 0),
      and a change against the record's previous last price. */
  lemma StepRecords(s: FoldState, p: Product, c: Capture)
    requires Positive(p)
    ensures var k := ProductFingerprint(p);
      var before := Get(s.products, k);
      var after := Get(Step(s, p, c).products, k);
      var prev := if before.Some? then LastPrice(before.value.history) else None;
      && after.Some?
      && after.value.nombre == p.nombre && after.value.tienda == p.tienda
      && after.value.fuente == p.fuente && after.value.link == p.link
      && after.value.imagen == p.imagen
      && after.value.lastSeenAt == Some(c.capturedAt)
      && after.value.history
         == KeepLast((if before.Some? then before.value.history else []) + [PricePoint(c.capturedAt, p.precio, c.query)],
                     c.maxPoints)
      && (c.maxPoints >= 0 ==> after.value.history != [])
      && (c.maxPoints >= 0 ==>
            after.value.history[|after.value.history| - 1] == PricePoint(c.capturedAt, p.precio, c.query))
      && Get(Step(s, p, c).changes, k) == Some(ChangeOf(prev, p.precio))
  {
    var key := ProductFingerprint(p);
    var entry := Get(s.products, key).GetOr(NewEntry(key, p));
    var e := Observe(entry, p, c);
    SetGet(s.products, key, e, key);
    SetGet(s.changes, key, ChangeOf(LastPrice(entry.history), p.precio), key);
    var h := entry.history + [PricePoint(c.capturedAt, p.precio, c.query)];
    assert e.history == h[|h| - |e.history|..];
  }

  /** Two observations of one fingerprint in the same call: the second
      change is measured against the price of the first. */
  lemma RepeatSeesEarlierPrice(s: FoldState, p: Product, q: Product, c: Capture)
    requires Positive(p) && Positive(q) && c.maxPoints >= 0
    requires ProductFingerprint(p) == ProductFingerprint(q)
    ensures var ch := Get(Step(Step(s, p, c), q, c).changes, ProductFingerprint(q));
      ch.Some? && ch.value.previousPrice == Some(p.precio) && ch.value.currentPrice == q.precio
  {
    StepRecords(s, p, c);
    StepRecords(Step(s, p, c), q, c);
  }

  /** Every record's history holds at most `n` points. */
  ghost predicate HistoriesWithin(t: Table, n: int) {
    forall i :: 0 <= i < |t| ==> |t[i].value.history| <= n
  }

  lemma StepWithin(s: FoldState, p: Product, c: Capture)
    requires c.maxPoints > 0 && HistoriesWithin(s.products, c.maxPoints)
    ensures HistoriesWithin(Step(s, p, c).products, c.maxPoints)
  {
    if Positive(p) {
      var key := ProductFingerprint(p);
      var t := s.products;
      var entry := Get(t, key).GetOr(NewEntry(key, p));
      var e := Observe(entry, p, c);
      assert |e.history| <= c.maxPoints;
      var n := Find(t, key);
      if n < |t| {
        assert Set(t, key, e) == t[n := Pair(key, e)];
      } else {
        assert Set(t, key, e) == t + [Pair(key, e)];
      }
    }
  }

  /** With a positive `max_points`, no history outgrows it. */
  lemma {:induction false} FoldAllWithin(s: FoldState, ps: seq<Product>, c: Capture)
    requires c.maxPoints > 0 && HistoriesWithin(s.products, c.maxPoints)
    ensures HistoriesWithin(FoldAll(s, ps, c).products, c.maxPoints)
    decreases |ps|
  {
    if ps != [] {
      FoldAllWithin(s, ps[..|ps| - 1], c);
      StepWithin(FoldAll(s, ps[..|ps| - 1], c), ps[|ps| - 1], c);
    }
  }

  lemma StepDistinct(s: FoldState, p: Product, c: Capture)
    requires DistinctKeys(s.products) && DistinctKeys(s.changes)
    ensures DistinctKeys(Step(s, p, c).products) && DistinctKeys(Step(s, p, c).changes)
  {
    if Positive(p) {
      var key := ProductFingerprint(p);
      var entry := Get(s.products, key).GetOr(NewEntry(key, p));
      SetDistinct(s.products, key, Observe(entry, p, c));
      SetDistinct(s.changes, key, ChangeOf(LastPrice(entry.history), p.precio));
    }
  }

  /** The fold keeps the keys of both dictionaries distinct. */
  lemma {:induction false} FoldAllDistinct(s: FoldState, ps: seq<Product>, c: Capture)
    requires DistinctKeys(s.products) && DistinctKeys(s.changes)
    ensures DistinctKeys(FoldAll(s, ps, c).products) && DistinctKeys(FoldAll(s, ps, c).changes)
    decreases |ps|
  {
    if ps != [] {
      FoldAllDistinct(s, ps[..|ps| - 1], c);
      StepDistinct(FoldAll(s, ps[..|ps| - 1], c), ps[|ps| - 1], c);
    }
  }

  /** A fingerprint no positive product carries keeps its record and change. */
  lemma {:induction false} FoldAllUntouched(s: FoldState, ps: seq<Product>, c: Capture, k: Fingerprint)
    requires !TouchedBy(ps, k)
    ensures Get(FoldAll(s, ps, c).products, k) == Get(s.products, k)
    ensures Get(FoldAll(s, ps, c).changes, k) == Get(s.changes, k)
    decreases |ps|
  {
    if ps != [] {
      TouchedBySnoc(ps, k);
      FoldAllUntouched(s, ps[..|ps| - 1], c, k);
      StepOthers(FoldAll(s, ps[..|ps| - 1], c), ps[|ps| - 1], c, k);
    }
  }

  /** Some product of `ps` has a positive price and fingerprint `k`. */
  ghost predicate TouchedBy(ps: seq<Product>, k: Fingerprint) {
    exists p :: p in ps && Touches(p, k)
  }

  lemma TouchedBySnoc(ps: seq<Product>, k: Fingerprint)
    requires ps != []
    ensures TouchedBy(ps, k) <==> TouchedBy(ps[..|ps| - 1], k) || Touches(ps[|ps| - 1], k)
  {
    assert ps == ps[..|ps| - 1] + [ps[|ps| - 1]];
  }

  /** A step with a positive price puts its fingerprint in both dictionaries. */
  lemma StepAdds(s: FoldState, p: Product, c: Capture)
    requires Positive(p)
    ensures Get(Step(s, p, c).products, ProductFingerprint(p)).Some?
    ensures Get(Step(s, p, c).changes, ProductFingerprint(p)).Some?
  {
    var key := ProductFingerprint(p);
    var entry := Get(s.products, key).GetOr(NewEntry(key, p));
    SetGet(s.products, key, Observe(entry, p, c), key);
    SetGet(s.changes, key, ChangeOf(LastPrice(entry.history), p.precio), key);
  }

  /** `changes` gains exactly the fingerprints of the products with a
      positive price, and so does the record table. */
  lemma {:induction false} FoldAllKeys(s: FoldState, ps: seq<Product>, c: Capture, k: Fingerprint)
    ensures Get(FoldAll(s, ps, c).changes, k).Some? <==> Get(s.changes, k).Some? || TouchedBy(ps, k)
    ensures Get(FoldAll(s, ps, c).products, k).Some? <==> Get(s.products, k).Some? || TouchedBy(ps, k)
    decreases |ps|
  {
    if ps != [] {
      var init := ps[..|ps| - 1];
      var last := ps[|ps| - 1];
      FoldAllKeys(s, init, c, k);
      TouchedBySnoc(ps, k);
      if Touches(last, k) {
        StepAdds(FoldAll(s, init, c), last, c);
      } else {
        StepOthers(FoldAll(s, init, c), last, c, k);
      }
    }
  }

  /** The change reported for a fingerprint is that of its last positive
      product in the search, measured against the last price the record
      held just before that product was folded in. */
  lemma {:induction false} FoldAllLastChange(s: FoldState, ps: seq<Product>, c: Capture, j: nat)
    requires j < |ps| && Positive(ps[j])
    requires forall i :: j < i < |ps| ==> !Touches(ps[i], ProductFingerprint(ps[j]))
    ensures var k := ProductFingerprint(ps[j]);
      var before := Get(FoldAll(s, ps[..j], c).products, k);
      var prev := if before.Some? then LastPrice(before.value.history) else None;
      Get(FoldAll(s, ps, c).changes, k) == Some(ChangeOf(prev, ps[j].precio))
    decreases |ps|
  {
    var init := ps[..|ps| - 1];
    var k := ProductFingerprint(ps[j]);
    if j == |ps| - 1 {
      StepRecords(FoldAll(s, init, c), ps[j], c);
    } else {
      FoldAllLastChange(s, init, c, j);
      assert init[..j] == ps[..j];
      StepOthers(FoldAll(s, init, c), ps[|ps| - 1], c, k);
    }
  }

  lemma FoldAllSnoc(s: FoldState, ps: seq<Product>, p: Product, c: Capture)
    ensures FoldAll(s, ps + [p], c) == Step(FoldAll(s, ps, c), p, c)
  {
    assert (ps + [p])[..|ps|] == ps;
  }

  /** Products without a positive price play no part in the fold. */
  lemma {:induction false} FoldAllSkipsNonPositive(s: FoldState, ps: seq<Product>, c: Capture)
    ensures FoldAll(s, ps, c) == FoldAll(s, Filter(ps, Positive), c)
    decreases |ps|
  {
    if ps != [] {
      var init := ps[..|ps| - 1];
      var last := ps[|ps| - 1];
      assert ps == init + [last];
      FoldAllSkipsNonPositive(s, init, c);
      FilterConcat(init, [last], Positive);
      assert Filter([last], Positive) == if Positive(last) then [last] else [];
      if Positive(last) {
        FoldAllSnoc(s, Filter(init, Positive), last, c);
      } else {
        assert Filter(ps, Positive) == Filter(init, Positive);
      }
    }
  }
}
