/** The price-history document (price_history.py): its JSON shape, the
    default document `_load` falls back to, and the in-memory copy that
    `record_snapshot` and `_prune` update in place. */
module HistoryDocs {
  import opened Wrappers
  import opened Dicts
  import opened Sorting
  import opened HistoryKeys

  /** A member of a JSON object: missing, present as `null`, or present. */
  datatype Field<T> = Absent | Null | Present(value: T)

  /** One observation of a price: `{captured_at, precio, query}`. */
  datatype PricePoint = PricePoint(capturedAt: int, precio: real, query: string)

  /** The stored record of one fingerprint. `lastSeenAt` is the capture time
      of the last search that saw it (missing in a record never seen). */
  datatype Entry = Entry(
    id: Fingerprint,
    nombre: string,
    tienda: string,
    fuente: string,
    link: string,
    imagen: string,
    lastSeenAt: Option<int>,
    history: seq<PricePoint>)

  /** The `products` object: records keyed by fingerprint, in insertion order. */
  type Table = seq<Pair<Fingerprint, Entry>>

  /** The document `{version, updated_at, products, _github_sha}` as read
      from a backend; the members other code never reads are not modelled. */
  datatype Doc = Doc(
    version: Field<int>,
    updatedAt: Field<int>,
    products: Option<Table>,
    githubSha: Field<string>)

  /** `{}`, the only falsy document. */
  const EmptyDoc: Doc := Doc(Absent, Absent, None, Absent)

  /** `_base_doc`: `{version: 1, updated_at: None, products: {}}`. */
  const BaseDoc: Doc := Doc(Present(1), Null, Some([]), Absent)

  /** `_load` applied to what the backend read: the base document for `{}`,
      otherwise the document with an empty product map added if missing. */
  function LoadDoc(raw: Doc): (d: Doc)
    ensures d.products.Some?
    ensures raw == EmptyDoc ==> d == BaseDoc
    ensures raw != EmptyDoc ==> d.(products := raw.products) == raw
    ensures raw.products.Some? ==> d.products == raw.products
  {
    if raw == EmptyDoc then BaseDoc
    else if raw.products.None? then raw.(products := Some([]))
    else raw
  }

  /** Loading what was loaded changes nothing. */
  lemma LoadDocIdempotent(raw: Doc)
    ensures LoadDoc(LoadDoc(raw)) == LoadDoc(raw)
  {
  }

  /** The order of `last_seen_at`: a record never seen sorts first (the
      source compares it as ""), then by capture time. */
  function SeenRank(e: Entry): Rank {
    match e.lastSeenAt
    case None => Rank(0, 0.0)
    case Some(t) => Rank(1, t as real)
  }

  /** Newest first: the key `sort(..., reverse=True)` orders by, ascending. */
  function NewestFirst(e: Entry): Rank {
    Rank(-SeenRank(e).major, -SeenRank(e).minor)
  }

  /** Ascending by `NewestFirst` is descending by `last_seen_at`. */
  lemma NewestFirstReverses(e: Entry, f: Entry)
    ensures RankLe(NewestFirst(e), NewestFirst(f)) <==> RankLe(SeenRank(f), SeenRank(e))
  {
  }

  /** The in-memory document (`data`), which `_load` builds and the service
      updates in place. */
  class HistoryDoc {
    var version: Field<int>
    var updatedAt: Field<int>
    var products: Table
    var githubSha: Field<string>

    constructor (d: Doc)
      requires d.products.Some?
      ensures Value() == d
    {
      version := d.version;
      updatedAt := d.updatedAt;
      products := d.products.value;
      githubSha := d.githubSha;
    }

    function Value(): Doc
      reads this
    {
      Doc(version, updatedAt, Some(products), githubSha)
    }
  }
}
