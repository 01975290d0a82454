/** The list state the browser keeps (static/js/main.js): the search
    history, the followed queries and the stored price-drop alerts, all three
    held in local storage, and the pure helpers that sort, filter and label
    the results. */
module Client {
  import opened Wrappers
  import opened Chars
  import opened Seqs
  import opened Strings
  import opened Sorting
  import opened Listing

  /** The length limits of the history and of the stored alerts. */
  const MaxHistoryItems: nat := 10
  const MaxStoredAlerts: nat := 100
  /** How many of the cheapest results are examined for alerts. */
  const AlertCandidates: nat := 15

  /** A remembered query with its time in milliseconds: `{query, timestamp}`
      in the history, `{query, createdAt}` among the followed queries. */
  datatype Saved = Saved(query: string, at: int)

  /** A stored price-drop alert. */
  datatype PriceAlert = PriceAlert(
    id: string,
    timestamp: int,
    query: string,
    nombre: string,
    tienda: string,
    fuente: string,
    precioAnterior: real,
    precioActual: real,
    delta: real,
    deltaPct: real,
    link: string)

  /** Queries are compared with `toLowerCase()` on both sides: character
      by character, after lower-casing each. */
  predicate SameQuery(a: string, b: string)
    decreases |a|
  {
    |a| == |b| && (a == [] || (LowerChar(a[0]) == LowerChar(b[0]) && SameQuery(a[1..], b[1..])))
  }

  /** The comparison is equality of the lower-cased texts. */
  lemma SameQueryIsLower(a: string, b: string)
    ensures SameQuery(a, b) <==> Lower(a) == Lower(b)
  {
    SameQueryPointwise(a, b);
    if |a| == |b| && (forall i :: 0 <= i < |a| ==> LowerChar(a[i]) == LowerChar(b[i])) {
      assert Lower(a) == Lower(b);
    }
  }

  lemma {:induction false} SameQueryPointwise(a: string, b: string)
    ensures SameQuery(a, b) <==> |a| == |b| && forall i :: 0 <= i < |a| ==> LowerChar(a[i]) == LowerChar(b[i])
    decreases |a|
  {
    if |a| == |b| && a != [] {
      SameQueryPointwise(a[1..], b[1..]);
      assert forall i :: 1 <= i < |a| ==> a[i] == a[1..][i - 1] && b[i] == b[1..][i - 1];
    }
  }

  lemma {:induction false} SameQueryRefl(a: string)
    ensures SameQuery(a, a)
    decreases |a|
  {
    if a != [] {
      SameQueryRefl(a[1..]);
    }
  }

  lemma {:induction false} SameQuerySym(a: string, b: string)
    requires SameQuery(a, b)
    ensures SameQuery(b, a)
    decreases |a|
  {
    if a != [] {
      SameQuerySym(a[1..], b[1..]);
    }
  }

  lemma {:induction false} SameQueryTrans(a: string, b: string, c: string)
    requires SameQuery(a, b) && SameQuery(b, c)
    ensures SameQuery(a, c)
    decreases |a|
  {
    if a != [] {
      SameQueryTrans(a[1..], b[1..], c[1..]);
    }
  }

  /** The entries that do not match `query`. */
  function NotQuery(query: string): Saved -> bool {
    (s: Saved) => !SameQuery(s.query, query)
  }

  /** `estaSiguiendoQuery`: some entry matches `query`. */
  ghost predicate Follows(qs: seq<Saved>, query: string) {
    exists i :: 0 <= i < |qs| && SameQuery(qs[i].query, query)
  }

  /** No two entries match each other. */
  ghost predicate NoCaseDuplicates(qs: seq<Saved>) {
    forall i, j :: 0 <= i < j < |qs| ==> !SameQuery(qs[i].query, qs[j].query)
  }

  /** The history after `guardarEnHistorial(query)` at time `now`. */
  function AddToHistory(h: seq<Saved>, query: string, now: int): seq<Saved> {
    Take([Saved(query, now)] + Filter(h, NotQuery(query)), MaxHistoryItems)
  }

  /** The new query comes first, no other entry matches it, at most ten
      entries are kept, and the others keep their relative order. */
  lemma AddToHistoryMeaning(h: seq<Saved>, query: string, now: int)
    ensures var r := AddToHistory(h, query, now);
      && 1 <= |r| <= MaxHistoryItems
      && r[0] == Saved(query, now)
      && (forall i :: 1 <= i < |r| ==> !SameQuery(r[i].query, query))
      && r[1..] == Take(Filter(h, NotQuery(query)), MaxHistoryItems - 1)
      && IsSubseq(r[1..], h)
  {
    var f := Filter(h, NotQuery(query));
    var r := AddToHistory(h, query, now);
    assert r[1..] == Take(f, MaxHistoryItems - 1);
    forall i | 1 <= i < |r|
      ensures !SameQuery(r[i].query, query)
    {
      assert r[i] == f[i - 1];
      assert NotQuery(query)(f[i - 1]);
    }
    FilterIsSubseq(h, NotQuery(query));
    TakeSubseq(f, MaxHistoryItems - 1, h);
  }

  /** A prefix of a subsequence is a subsequence. */
  lemma TakeSubseq<T>(a: seq<T>, n: nat, b: seq<T>)
    requires IsSubseq(a, b)
    ensures IsSubseq(Take(a, n), b)
  {
    if n < |a| {
      PrefixSubseq(a, n, b);
    }
  }

  lemma {:induction false} PrefixSubseq<T>(a: seq<T>, n: nat, b: seq<T>)
    requires IsSubseq(a, b) && n <= |a|
    ensures IsSubseq(a[..n], b)
    decreases |b|
  {
    if n > 0 {
      if a[0] == b[0] {
        PrefixSubseq(a[1..], n - 1, b[1..]);
        assert a[..n][1..] == a[1..][..n - 1];
      } else {
        PrefixSubseq(a, n, b[1..]);
      }
    }
  }

  /** Searching the same query again only refreshes its entry: the result
      is as if the earlier search had not been saved. */
  lemma AddToHistoryAgain(h: seq<Saved>, query: string, t1: int, t2: int)
    ensures AddToHistory(AddToHistory(h, query, t1), query, t2) == AddToHistory(h, query, t2)
  {
    var p := NotQuery(query);
    var f := Filter(h, p);
    var r1 := AddToHistory(h, query, t1);
    SameQueryRefl(query);
    assert !p(Saved(query, t1));
    assert r1 == [Saved(query, t1)] + Take(f, MaxHistoryItems - 1);
    FilterCons(Saved(query, t1), Take(f, MaxHistoryItems - 1), p);
    FilterAll(Take(f, MaxHistoryItems - 1), p);
    assert Filter(r1, p) == Take(f, MaxHistoryItems - 1);
    TakeConsTake(Saved(query, t2), f, MaxHistoryItems - 1);
  }

  /** Keeping `n` items after a first one is the same as keeping `n + 1`. */
  lemma TakeConsTake<T>(x: T, s: seq<T>, n: nat)
    ensures Take([x] + Take(s, n), n + 1) == Take([x] + s, n + 1)
  {
    if |s| > n {
      assert ([x] + s)[..n + 1] == [x] + s[..n];
    }
  }

  /** The first entry matching `query`, or `|qs|` (`findIndex` gives -1). */
  function FindQuery(qs: seq<Saved>, query: string): (n: nat)
    ensures n <= |qs|
    ensures forall i :: 0 <= i < n ==> !SameQuery(qs[i].query, query)
    ensures n < |qs| ==> SameQuery(qs[n].query, query)
    decreases |qs|
  {
    if qs == [] || SameQuery(qs[0].query, query) then 0 else 1 + FindQuery(qs[1..], query)
  }

  /** The followed queries after `toggleAlertaBusquedaActual` with the
      trimmed, non-blank `query`: the first match removed, or the query
      put first. */
  function Toggled(qs: seq<Saved>, query: string, now: int): seq<Saved> {
    var idx := FindQuery(qs, query);
    if idx < |qs| then qs[..idx] + qs[idx + 1..] else [Saved(query, now)] + qs
  }

  /** Toggling flips whether the query is followed, leaves every query that
      does not match it as it was, and keeps the list free of duplicates. */
  lemma ToggledFlips(qs: seq<Saved>, query: string, now: int, other: string)
    requires NoCaseDuplicates(qs)
    ensures Follows(Toggled(qs, query, now), query) == !Follows(qs, query)
    ensures !SameQuery(other, query) ==> Follows(Toggled(qs, query, now), other) == Follows(qs, other)
    ensures NoCaseDuplicates(Toggled(qs, query, now))
  {
    var idx := FindQuery(qs, query);
    if idx < |qs| {
      ToggledRemoves(qs, query, idx, other);
    } else {
      ToggledAdds(qs, query, now, other);
    }
  }

  /** Removing the matching entry at `idx`. */
  lemma ToggledRemoves(qs: seq<Saved>, query: string, idx: nat, other: string)
    requires NoCaseDuplicates(qs) && idx < |qs| && SameQuery(qs[idx].query, query)
    ensures var r := qs[..idx] + qs[idx + 1..];
      && !Follows(r, query)
      && (!SameQuery(other, query) ==> Follows(r, other) == Follows(qs, other))
      && NoCaseDuplicates(r)
  {
    var a, m, b := qs[..idx], qs[idx], qs[idx + 1..];
    assert qs == a + [m] + b;
    NoDuplicatesDrop(a, m, b);
    FollowsSame(a + b, m.query, query);
    FollowsConcat(a, b, other);
    FollowsConcat(a + [m], b, other);
    FollowsConcat(a, [m], other);
    if !SameQuery(other, query) && Follows([m], other) {
      assert SameQuery([m][0].query, other);
      SameQuerySym(m.query, other);
      SameQueryTrans(other, m.query, query);
      assert false;
    }
  }

  /** Putting the unmatched query first. */
  lemma ToggledAdds(qs: seq<Saved>, query: string, now: int, other: string)
    requires NoCaseDuplicates(qs) && !Follows(qs, query)
    ensures var r := [Saved(query, now)] + qs;
      && Follows(r, query)
      && (!SameQuery(other, query) ==> Follows(r, other) == Follows(qs, other))
      && NoCaseDuplicates(r)
  {
    var x := Saved(query, now);
    var r := [x] + qs;
    SameQueryRefl(query);
    assert SameQuery(r[0].query, query);
    FollowsConcat([x], qs, other);
    if !SameQuery(other, query) && Follows([x], other) {
      assert SameQuery([x][0].query, other);
      SameQuerySym(query, other);
      assert false;
    }
    NoDuplicatesCons(x, qs);
  }

  /** `Follows` distributes over concatenation. */
  lemma FollowsConcat(a: seq<Saved>, b: seq<Saved>, query: string)
    ensures Follows(a + b, query) <==> Follows(a, query) || Follows(b, query)
  {
    var ab := a + b;
    if Follows(ab, query) {
      var i :| 0 <= i < |ab| && SameQuery(ab[i].query, query);
      if i < |a| {
        assert ab[i] == a[i];
      } else {
        assert ab[i] == b[i - |a|];
      }
    }
    if Follows(a, query) {
      var i :| 0 <= i < |a| && SameQuery(a[i].query, query);
      assert ab[i] == a[i];
    }
    if Follows(b, query) {
      var i :| 0 <= i < |b| && SameQuery(b[i].query, query);
      assert ab[|a| + i] == b[i];
    }
  }

  /** Following matching queries is the same thing. */
  lemma FollowsSame(qs: seq<Saved>, q: string, q': string)
    requires SameQuery(q, q')
    ensures Follows(qs, q) <==> Follows(qs, q')
  {
    SameQuerySym(q, q');
    if Follows(qs, q) {
      var i :| 0 <= i < |qs| && SameQuery(qs[i].query, q);
      SameQueryTrans(qs[i].query, q, q');
    }
    if Follows(qs, q') {
      var i :| 0 <= i < |qs| && SameQuery(qs[i].query, q');
      SameQueryTrans(qs[i].query, q', q);
    }
  }

  /** Dropping an entry keeps the list free of duplicates, and nothing left
      matches the dropped entry. */
  lemma NoDuplicatesDrop(a: seq<Saved>, m: Saved, b: seq<Saved>)
    requires NoCaseDuplicates(a + [m] + b)
    ensures NoCaseDuplicates(a + b) && !Follows(a + b, m.query)
  {
    var qs, r := a + [m] + b, a + b;
    forall i, j | 0 <= i < j < |r|
      ensures !SameQuery(r[i].query, r[j].query)
    {
      var i', j' := if i < |a| then i else i + 1, if j < |a| then j else j + 1;
      assert r[i] == qs[i'] && r[j] == qs[j'];
    }
    if Follows(r, m.query) {
      var i :| 0 <= i < |r| && SameQuery(r[i].query, m.query);
      var k := if i < |a| then i else i + 1;
      assert r[i] == qs[k] && qs[|a|] == m;
      SameQuerySym(r[i].query, m.query);
      assert false;
    }
  }

  /** An entry no other entry matches can go first. */
  lemma NoDuplicatesCons(x: Saved, qs: seq<Saved>)
    requires NoCaseDuplicates(qs) && !Follows(qs, x.query)
    ensures NoCaseDuplicates([x] + qs)
  {
    var r := [x] + qs;
    forall i, j | 0 <= i < j < |r|
      ensures !SameQuery(r[i].query, r[j].query)
    {
      assert r[j] == qs[j - 1];
      if i == 0 {
        if SameQuery(x.query, qs[j - 1].query) {
          SameQuerySym(x.query, qs[j - 1].query);
          assert false;
        }
      } else {
        assert r[i] == qs[i - 1];
      }
    }
  }

  /** `quitarQueryAlerta`: every matching entry removed, the rest in order. */
  lemma RemoveQueryMeaning(qs: seq<Saved>, query: string, s: Saved)
    ensures !Follows(Filter(qs, NotQuery(query)), query)
    ensures s in Filter(qs, NotQuery(query)) <==> s in qs && !SameQuery(s.query, query)
    ensures IsSubseq(Filter(qs, NotQuery(query)), qs)
  {
    FilterMember(qs, NotQuery(query), s);
    FilterIsSubseq(qs, NotQuery(query));
  }

  /** `x | 0`: the 32-bit two's complement value of `x`. */
  function Wrap32(x: int): (r: int)
    ensures -0x8000_0000 <= r < 0x8000_0000
  {
    (x + 0x8000_0000) % 0x1_0000_0000 - 0x8000_0000
  }

  /** Wrapping once or twice is the same, whatever is added in between. */
  lemma Wrap32Add(x: int, c: int)
    ensures Wrap32(Wrap32(x) + c) == Wrap32(x + c)
  {
    var q := (x + 0x8000_0000) / 0x1_0000_0000;
    assert Wrap32(x) == x - q * 0x1_0000_0000;
    WrapShift(x + c, q);
  }

  /** Shifting by a multiple of 2^32 does not change the wrapped value. */
  lemma WrapShift(y: int, q: int)
    ensures Wrap32(y - q * 0x1_0000_0000) == Wrap32(y)
  {
    var a := y + 0x8000_0000;
    var d, r := a / 0x1_0000_0000, a % 0x1_0000_0000;
    assert a == d * 0x1_0000_0000 + r;
    assert a - q * 0x1_0000_0000 == (d - q) * 0x1_0000_0000 + r;
  }

  /** The UTF-16 code units of a string, as `charCodeAt` reads them: a
      character above U+FFFF is a surrogate pair. */
  function CodeUnits(s: string): (us: seq<int>)
    ensures forall i :: 0 <= i < |us| ==> 0 <= us[i] < 0x1_0000
    decreases |s|
  {
    if s == [] then []
    else
      var n := s[0] as int;
      (if n < 0x1_0000 then [n]
       else [0xD800 + (n - 0x1_0000) / 0x400, 0xDC00 + (n - 0x1_0000) % 0x400])
      + CodeUnits(s[1..])
  }

  /** The hash of the code units: `h = 31 * h + unit`, in 32-bit arithmetic. */
  function Hash(us: seq<int>): (h: int)
    ensures -0x8000_0000 <= h < 0x8000_0000
    decreases |us|
  {
    if us == [] then 0 else Wrap32(31 * Hash(us[..|us| - 1]) + us[|us| - 1])
  }

  /** The alert id of a key: "a" followed by the absolute hash in decimal. */
  function HashId(value: string): string {
    var h := Hash(CodeUnits(value));
    "a" + DecimalString(if h < 0 then -h else h)
  }

  /** An id is "a" and a numeral that reads back as the absolute value of
      the 32-bit hash, which is at most 2^31. */
  lemma HashIdMeaning(value: string)
    ensures var id := HashId(value); var h := Hash(CodeUnits(value));
      && |id| >= 2 && id[0] == 'a' && AllChars(id[1..], IsDigit)
      && DigitsValue(id[1..]) == (if h < 0 then -h else h) <= 0x8000_0000
  {
    var h := Hash(CodeUnits(value));
    var id := HashId(value);
    assert id[1..] == DecimalString(if h < 0 then -h else h);
    DecimalStringValue(if h < 0 then -h else h);
  }

  /** `hashString`: the loop over the code units with `Math.imul(31, h)`
      and `| 0`. */
  method HashString(value: string) returns (id: string)
    ensures id == HashId(value)
  {
    var us := CodeUnits(value);
    var h := 0;
    for i := 0 to |us|
      invariant h == Hash(us[..i])
    {
      assert us[..i + 1][..i] == us[..i];
      Wrap32Add(31 * h, us[i]);
      h := Wrap32(Wrap32(31 * h) + us[i]);
    }
    assert us[..|us|] == us;
    id := "a" + DecimalString(if h < 0 then -h else h);
  }

  /** The sort key of `(p.precio || 0)`. */
  function PriceRank(p: Product): Rank {
    Rank(0, p.precio)
  }

  /** Products with a positive price. */
  function Positive(p: Product): bool {
    p.precio > 0.0
  }

  /** The candidates for alerts: the positive-priced products, cheapest
      first, at most fifteen. */
  function Candidates(todos: seq<Product>): seq<Product> {
    Take(SortBy(Filter(todos, Positive), PriceRank), AlertCandidates)
  }

  /** The candidates are positive-priced products of the results, none
      taken more often than it occurs, cheapest first, fifteen of them or
      all the positive-priced ones when there are fewer; a positive-priced
      product left out costs at least as much as each of the fifteen taken. */
  lemma CandidatesMeaning(todos: seq<Product>, x: Product)
    ensures var c := Candidates(todos);
      && |c| <= AlertCandidates
      && multiset(c) <= multiset(todos)
      && |c| == (var n := |Filter(todos, Positive)|; if n < AlertCandidates then n else AlertCandidates)
      && (forall i :: 0 <= i < |c| ==> c[i].precio > 0.0 && c[i] in todos)
      && (forall i, j :: 0 <= i < j < |c| ==> c[i].precio <= c[j].precio)
      && (x in todos && x.precio > 0.0 && x !in c ==>
            |c| == AlertCandidates && forall y :: y in c ==> y.precio <= x.precio)
  {
    var f := Filter(todos, Positive);
    var u := SortBy(f, PriceRank);
    var c := Candidates(todos);
    SortBySorts(f, PriceRank);
    TakeMultiset(u, AlertCandidates);
    FilterMultiset(todos, Positive);
    forall i | 0 <= i < |c|
      ensures c[i].precio > 0.0 && c[i] in todos
    {
      assert c[i] == u[i];
      assert u[i] in multiset(u);
      assert u[i] in multiset(f);
      FilterMember(todos, Positive, u[i]);
    }
    forall i, j | 0 <= i < j < |c|
      ensures c[i].precio <= c[j].precio
    {
      assert c[i] == u[i] && c[j] == u[j];
      assert RankLe(PriceRank(u[i]), PriceRank(u[j]));
    }
    if x in todos && x.precio > 0.0 && x !in c {
      FilterMember(todos, Positive, x);
      assert x in multiset(f);
      assert x in u;
      TakeSortedBound(u, PriceRank, AlertCandidates, x);
    }
  }

  /** The alert a product raises, if any: only a product whose change has a
      previous price and a negative delta. The id hashes the query, the link
      (or the name when there is no link) and the capture time. */
  function AlertFor(query: string, p: Product, capturedAt: string, now: int): Option<PriceAlert> {
    match p.priceChange
    case None => None
    case Some(c) =>
      if c.previousPrice.None? || c.delta >= 0.0 then None
      else
        var key := query + "|" + (if p.link != "" then p.link else p.nombre) + "|" + capturedAt;
        Some(PriceAlert(HashId(key), now, query, p.nombre, p.tienda, p.fuente,
                        c.previousPrice.value,
                        if c.currentPrice != 0.0 then c.currentPrice else p.precio,
                        c.delta, c.deltaPct, p.link))
  }

  /** `capturado_en` of the history block, or "sin-fecha" when it is
      missing or empty. */
  function CaptureStamp(capturedAt: Option<string>): string {
    if capturedAt.Some? && capturedAt.value != "" then capturedAt.value else "sin-fecha"
  }

  /** The alerts the candidates raise, in their order (`nuevos`). */
  function NewAlerts(query: string, ps: seq<Product>, capturedAt: string, now: int): seq<PriceAlert>
    decreases |ps|
  {
    if ps == [] then []
    else
      var a := AlertFor(query, ps[|ps| - 1], capturedAt, now);
      NewAlerts(query, ps[..|ps| - 1], capturedAt, now) + (if a.Some? then [a.value] else [])
  }

  /** Every new alert comes from one of the products, a drop from a known
      previous price. */
  lemma {:induction false} NewAlertsFromDrops(query: string, ps: seq<Product>, capturedAt: string, now: int)
    ensures forall a :: a in NewAlerts(query, ps, capturedAt, now) ==>
      exists i :: 0 <= i < |ps| && AlertFor(query, ps[i], capturedAt, now) == Some(a)
        && ps[i].priceChange.Some? && ps[i].priceChange.value.previousPrice.Some?
        && ps[i].priceChange.value.delta < 0.0 && a.delta < 0.0 && a.query == query
    decreases |ps|
  {
    if ps != [] {
      var t := ps[..|ps| - 1];
      NewAlertsFromDrops(query, t, capturedAt, now);
      forall a | a in NewAlerts(query, ps, capturedAt, now)
        ensures exists i :: 0 <= i < |ps| && AlertFor(query, ps[i], capturedAt, now) == Some(a)
                  && ps[i].priceChange.Some? && ps[i].priceChange.value.previousPrice.Some?
                  && ps[i].priceChange.value.delta < 0.0 && a.delta < 0.0 && a.query == query
      {
        if a in NewAlerts(query, t, capturedAt, now) {
          var i :| 0 <= i < |t| && AlertFor(query, t[i], capturedAt, now) == Some(a)
            && t[i].priceChange.Some? && t[i].priceChange.value.previousPrice.Some?
            && t[i].priceChange.value.delta < 0.0 && a.delta < 0.0 && a.query == query;
          assert ps[i] == t[i];
        } else {
          assert AlertFor(query, ps[|ps| - 1], capturedAt, now) == Some(a);
        }
      }
    }
  }

  /** The ids of a list of alerts. */
  function Ids(alerts: seq<PriceAlert>): set<string>
    decreases |alerts|
  {
    if alerts == [] then {} else {alerts[0].id} + Ids(alerts[1..])
  }

  lemma {:induction false} IdsMember(alerts: seq<PriceAlert>, a: PriceAlert)
    requires a in alerts
    ensures a.id in Ids(alerts)
    decreases |alerts|
  {
    if alerts[0] != a {
      IdsMember(alerts[1..], a);
    }
  }

  /** The new alerts whose id is not stored yet (`agregados`). */
  function Unstored(stored: seq<PriceAlert>): PriceAlert -> bool {
    (a: PriceAlert) => a.id !in Ids(stored)
  }

  /** The stored alerts after new ones are added: the added first, then the
      ones stored before, cut to a hundred. */
  function MergeAlerts(added: seq<PriceAlert>, stored: seq<PriceAlert>): seq<PriceAlert> {
    Take(added + stored, MaxStoredAlerts)
  }

  /** An added alert has an id not stored before; the merge keeps the added
      first and the stored in their order after them, up to a hundred. */
  lemma MergeAlertsMeaning(nuevos: seq<PriceAlert>, stored: seq<PriceAlert>)
    ensures var added := Filter(nuevos, Unstored(stored));
      var r := MergeAlerts(added, stored);
      && (forall a, b :: a in added && b in stored ==> a.id != b.id)
      && |r| <= MaxStoredAlerts
      && (|added| <= MaxStoredAlerts ==> r[..|added|] == added)
      && (|added| + |stored| <= MaxStoredAlerts ==> r == added + stored)
      && r <= added + stored
  {
    var added := Filter(nuevos, Unstored(stored));
    forall a, b | a in added && b in stored
      ensures a.id != b.id
    {
      IdsMember(stored, b);
      FilterMember(nuevos, Unstored(stored), a);
    }
    var r := MergeAlerts(added, stored);
    if |added| <= MaxStoredAlerts {
      assert r[..|added|] == (added + stored)[..|added|];
    }
  }

  /** The local-storage lists of the page. */
  class ClientStore {
    var history: seq<Saved>
    var alertQueries: seq<Saved>
    var priceAlerts: seq<PriceAlert>

    /** Empty storage. */
    constructor()
      ensures history == [] && alertQueries == [] && priceAlerts == []
    {
      history := [];
      alertQueries := [];
      priceAlerts := [];
    }

    /** `guardarEnHistorial`: drop the matching entries, put the query
        first, keep ten. */
    method GuardarEnHistorial(query: string, now: int)
      modifies this
      ensures history == AddToHistory(old(history), query, now)
      ensures alertQueries == old(alertQueries) && priceAlerts == old(priceAlerts)
    {
      var kept := Filter(history, NotQuery(query));
      kept := [Saved(query, now)] + kept;
      history := Take(kept, MaxHistoryItems);
    }

    /** `toggleAlertaBusquedaActual` with the search box text `input`: a
        blank query changes nothing; otherwise the first matching entry is
        spliced out, or the trimmed query is put first. */
    method ToggleAlertaBusquedaActual(input: string, now: int)
      modifies this
      ensures var query := Strip(input, IsJsSpace);
        alertQueries == if query == "" then old(alertQueries) else Toggled(old(alertQueries), query, now)
      ensures history == old(history) && priceAlerts == old(priceAlerts)
    {
      var query := Strip(input, IsJsSpace);
      if query == "" {
        return;
      }
      var queries := alertQueries;
      var idx := FindQuery(queries, query);
      if idx < |queries| {
        queries := queries[..idx] + queries[idx + 1..];
      } else {
        queries := [Saved(query, now)] + queries;
      }
      alertQueries := queries;
    }

    /** `quitarQueryAlerta`. */
    method QuitarQueryAlerta(query: string)
      modifies this
      ensures alertQueries == Filter(old(alertQueries), NotQuery(query))
      ensures history == old(history) && priceAlerts == old(priceAlerts)
    {
      alertQueries := Filter(alertQueries, NotQuery(query));
    }

    /** `procesarAlertasDeBajada`: for a followed query, the alerts raised
        by the fifteen cheapest positive-priced results are added in front
        of the stored ones unless their id is stored already; returns how
        many were added and leaves the store as it was when none were. */
    method ProcesarAlertasDeBajada(query: string, todos: seq<Product>, capturedAt: Option<string>, now: int)
      returns (count: nat)
      modifies this
      ensures var stamp := CaptureStamp(capturedAt);
        var added := Filter(NewAlerts(query, Candidates(todos), stamp, now), Unstored(old(priceAlerts)));
        if query == "" || !Follows(alertQueries, query) then count == 0 && priceAlerts == old(priceAlerts)
        else
          && count == |added|
          && priceAlerts == (if count > 0 then MergeAlerts(added, old(priceAlerts)) else old(priceAlerts))
      ensures history == old(history) && alertQueries == old(alertQueries)
    {
      if query == "" || !IsFollowed(alertQueries, query) {
        return 0;
      }
      var stamp := CaptureStamp(capturedAt);
      var nuevos := CollectAlerts(query, Candidates(todos), stamp, now);
      if |nuevos| == 0 {
        assert Filter(nuevos, Unstored(priceAlerts)) == [];
        return 0;
      }
      var added := Filter(nuevos, Unstored(priceAlerts));
      if |added| > 0 {
        priceAlerts := MergeAlerts(added, priceAlerts);
      }
      count := |added|;
    }
  }

  /** The `forEach` of `procesarAlertasDeBajada` that pushes into `nuevos`. */
  method CollectAlerts(query: string, top: seq<Product>, stamp: string, now: int) returns (nuevos: seq<PriceAlert>)
    ensures nuevos == NewAlerts(query, top, stamp, now)
  {
    nuevos := [];
    for i := 0 to |top|
      invariant nuevos == NewAlerts(query, top[..i], stamp, now)
    {
      assert top[..i + 1][..i] == top[..i];
      var p := top[i];
      if p.priceChange.Some? && p.priceChange.value.previousPrice.Some? && p.priceChange.value.delta < 0.0 {
        var c := p.priceChange.value;
        var id := HashString(query + "|" + (if p.link != "" then p.link else p.nombre) + "|" + stamp);
        nuevos := nuevos + [PriceAlert(id, now, query, p.nombre, p.tienda, p.fuente,
                                       c.previousPrice.value,
                                       if c.currentPrice != 0.0 then c.currentPrice else p.precio,
                                       c.delta, c.deltaPct, p.link)];
      }
    }
    assert top[..|top|] == top;
  }

  /** `estaSiguiendoQuery`: the search `some` over the followed queries. */
  function IsFollowed(qs: seq<Saved>, query: string): (b: bool)
    ensures b <==> Follows(qs, query)
  {
    FindQuery(qs, query) < |qs|
  }

  /** The sort key of each order of `ordenarProductos`: by price, by price
      descending, or discounted first and then by price. */
  function OrderKey(orden: string): Product -> Rank {
    if orden == "price_asc" then (p: Product) => Rank(0, p.precio)
    else if orden == "price_desc" then (p: Product) => Rank(0, -p.precio)
    else if orden == "best_deal" then (p: Product) => Rank(if p.descuento != "" then 0 else 1, p.precio)
    else (p: Product) => Rank(0, 0.0)
  }

  /** `ordenarProductos`: a sorted copy; an unknown order keeps the input order. */
  function OrdenarProductos(productos: seq<Product>, orden: string): seq<Product> {
    SortBy(productos, OrderKey(orden))
  }

  /** The copy is a permutation of the input, ordered as the order names;
      products that compare equal keep their input order, and an unknown
      order changes nothing. */
  lemma OrdenarProductosMeaning(productos: seq<Product>, orden: string, k: Rank)
    ensures var r := OrdenarProductos(productos, orden);
      && multiset(r) == multiset(productos)
      && (orden == "price_asc" ==> forall i, j :: 0 <= i < j < |r| ==> r[i].precio <= r[j].precio)
      && (orden == "price_desc" ==> forall i, j :: 0 <= i < j < |r| ==> r[i].precio >= r[j].precio)
      && (orden == "best_deal" ==> forall i, j :: 0 <= i < j < |r| ==>
            && (r[j].descuento != "" ==> r[i].descuento != "")
            && ((r[i].descuento != "") == (r[j].descuento != "") ==> r[i].precio <= r[j].precio))
      && Filter(r, HasRank(OrderKey(orden), k)) == Filter(productos, HasRank(OrderKey(orden), k))
      && (orden !in {"price_asc", "price_desc", "best_deal"} ==> r == productos)
  {
    var key := OrderKey(orden);
    var r := OrdenarProductos(productos, orden);
    SortBySorts(productos, key);
    SortByStable(productos, key, k);
    if orden !in {"price_asc", "price_desc", "best_deal"} {
      SortByConstantKey(productos, key, Rank(0, 0.0));
    }
    forall i, j | 0 <= i < j < |r|
      ensures RankLe(key(r[i]), key(r[j]))
    {
    }
  }

  /** `filtrarProductos` with the slider bounds: with both bounds unset or
      zero the list is returned as it is; otherwise the products within the
      set bounds are kept. */
  function FiltrarProductos(productos: seq<Product>, priceMin: Option<real>, priceMax: Option<real>): seq<Product> {
    if Falsy(priceMin) && Falsy(priceMax) then productos
    else Filter(productos, WithinBounds(priceMin, priceMax))
  }

  /** `null` and 0 are false in JavaScript. */
  predicate Falsy(bound: Option<real>) {
    bound.None? || bound.value == 0.0
  }

  function WithinBounds(priceMin: Option<real>, priceMax: Option<real>): Product -> bool {
    (p: Product) => (priceMin.None? || p.precio >= priceMin.value) && (priceMax.None? || p.precio <= priceMax.value)
  }

  /** The result is the input when both bounds are false; otherwise a
      product is kept exactly when it is within the bounds that are set,
      and the kept products keep their order. */
  lemma FiltrarProductosMeaning(productos: seq<Product>, priceMin: Option<real>, priceMax: Option<real>, p: Product)
    ensures var r := FiltrarProductos(productos, priceMin, priceMax);
      && (Falsy(priceMin) && Falsy(priceMax) ==> r == productos)
      && (!(Falsy(priceMin) && Falsy(priceMax)) ==>
            (p in r <==> p in productos
                         && (priceMin.None? || p.precio >= priceMin.value)
                         && (priceMax.None? || p.precio <= priceMax.value)))
      && IsSubseq(r, productos)
  {
    if Falsy(priceMin) && Falsy(priceMax) {
      SubseqRefl(productos);
    } else {
      FilterMember(productos, WithinBounds(priceMin, priceMax), p);
      FilterIsSubseq(productos, WithinBounds(priceMin, priceMax));
    }
  }

  /** `formatearTiempo`: the time since `timestamp`, in whole minutes under
      an hour, whole hours under a day, whole days otherwise; "Ahora" under
      a minute. `Math.floor` of a quotient by a positive divisor is `/`. */
  function FormatearTiempo(now: int, timestamp: int): string {
    var diferencia := now - timestamp;
    var minutos := diferencia / 60000;
    var horas := diferencia / 3600000;
    var dias := diferencia / 86400000;
    if minutos < 1 then "Ahora"
    else if minutos < 60 then DecimalString(minutos) + "m"
    else if horas < 24 then DecimalString(horas) + "h"
    else DecimalString(dias) + "d"
  }

  /** The label names the unit by the elapsed time and its number reads
      back as the whole count of that unit. */
  lemma FormatearTiempoMeaning(now: int, timestamp: int)
    ensures var d := now - timestamp; var r := FormatearTiempo(now, timestamp);
      && (r == "Ahora" <==> d < 60000)
      && (60000 <= d < 3600000 ==> r[|r| - 1] == 'm' && DigitsValue(r[..|r| - 1]) == d / 60000)
      && (3600000 <= d < 86400000 ==> r[|r| - 1] == 'h' && DigitsValue(r[..|r| - 1]) == d / 3600000)
      && (86400000 <= d ==> r[|r| - 1] == 'd' && DigitsValue(r[..|r| - 1]) == d / 86400000)
  {
    var d := now - timestamp;
    var r := FormatearTiempo(now, timestamp);
    if d >= 60000 {
      var n := if d < 3600000 then d / 60000 else if d < 86400000 then d / 3600000 else d / 86400000;
      assert n >= 1;
      DecimalStringValue(n);
      assert r[..|r| - 1] == DecimalString(n);
      assert r != "Ahora" by {
        assert IsDigit(r[0]);
      }
    }
  }
}
