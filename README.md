# mejorprecio — a Dafny model of the price-comparison core

mejorprecio searches two Argentine hardware price sites (PreciosGamer and
HardGamers), merges their listings, removes duplicates, records every
price it sees in a price history keyed by a product fingerprint, and shows
the results in a browser page. The page keeps the search history, the
queries the user follows and the price-drop alerts in local storage. An
offline script keeps a cache of PreciosGamer results for the tracked queries.

This project models that core in Dafny and proves what it promises:

- **Price history** (`price_history.py`):
  - `HistoryKeys`: the text and store normalizers and the product fingerprint.
  - `HistoryDocs`: the JSON document, `_load`, and the order by `last_seen_at`.
  - `HistoryBackends`: the local-file, GitHub and no-op backends. This includes the GitHub write with its single retry on HTTP 409.
  - `HistoryFold`: the loop of `record_snapshot` as a fold, with `round(x, 2)` and the trimming of each history.
  - `HistoryService`: the service class with `_prune`, `record_snapshot` and `get_history`.
- **Duplicate resolution** (`app.py`), module `Dedup`:
  - `normalizar_texto` and `normalizar_tienda`;
  - `son_duplicados`;
  - the greedy `eliminar_duplicados`;
  - `aplicar_cambios_de_historial`;
  - the final sort by price.
- **Scraper string rules** (`scraper.py`), module `Scraper`:
  - `limpiar_precio`, which reads an Argentine-format price;
  - the rules that make links and image addresses absolute.
- **Cache builder** (`scripts/build_preciosgamer_cache.py`), module `CacheBuilder`:
  - `normalize_query` and `dedupe_items`;
  - the tracked-query filter;
  - the rule that merges fresh results into the cache read from disk.
- **Browser list state** (`static/js/main.js`), module `Client`:
  - the search history, the followed queries and the stored alerts, held by the class `ClientStore`;
  - `hashString` with its 32-bit arithmetic;
  - `ordenarProductos`, `filtrarProductos` and `formatearTiempo`.

Shared modules:

- `Wrappers` holds `Option`.
- `Chars` holds Python's `str.isspace`, JavaScript's `trim` set, the `\w` class and lower-casing.
- `Strings` holds strip, split, join, squeeze, replace and decimal numerals.
- `Seqs` holds filter, take and subsequence.
- `Sorting` is a stable sort by a rank, standing for Python's `sorted` and JavaScript's `Array.prototype.sort`.
- `Dicts` models insertion-ordered dictionaries as association lists.
- `Listing` holds the product and change records.

The model follows the code where the comments in it disagree with it:

- `app.py:50` speaks of 80% name similarity. The code (`app.py:67`) tests 70%, and `Dedup.NombresSimilaresMeaning` states the 70% rule.
- `app.py:79-81` says names with repetitions such as "placa de placa" are penalized. The code returns 1, the best score under the ascending sort of `app.py:85`, so those names are preferred as representatives. The model follows the code, and `Dedup.PlacaRanksFirst` states the preference.
- A price with a single dot and no comma is read as a decimal ("1.563" is 1.563), as `scraper.py:69` assumes. `Scraper.SingleDot` states it.

## Model

| member | source | states |
|---|---|---|
| HistoryKeys.NormalizeText | price_history.py:16-19 | empty input gives ""; the result is single-spaced with no upper-case letter |
| HistoryKeys.NormalizeTextIdempotent | price_history.py:16-19 | normalizing normalized text changes nothing |
| HistoryKeys.NormalizeTextByWords | price_history.py:16-19 | two texts with the same lower-cased words normalize to the same text, whatever the whitespace |
| HistoryKeys.NormalizeStore | price_history.py:22-25 | the store key has no whitespace and no upper-case letter |
| HistoryKeys.NormalizeStoreRemovesSpaces | price_history.py:22-25 | the store key is the normalized text with all spaces removed; the "full h4rd" rewrite is subsumed by that |
| HistoryKeys.StoreJoinsWords | price_history.py:22-25 | "w1 w2" and "w1w2" give the same store key (as "Full H4rd" and "fullh4rd" do) |
| HistoryKeys.NormalizeTextOfWords | price_history.py:16-19 | whitespace-free words joined by spaces normalize to their lower-cased join |
| HistoryKeys.FingerprintIgnoresOffer | price_history.py:28-33 | the fingerprint depends only on source, store and name, not on price, link or image |
| HistoryKeys.FingerprintInjective | price_history.py:28-33 | two products share a fingerprint exactly when their normalized source, store and name agree, when neither normalized source nor store contains a bar character |
| HistoryKeys.KeyInjective | price_history.py:32 | the hashed key (source, store and name joined by bar characters) determines its three parts when the first two contain no bar |
| HistoryDocs.LoadDoc | price_history.py:155-161 | `{}` loads as the base document `{version: 1, updated_at: None, products: {}}`; any other document keeps all its members and gains an empty `products` if it lacked one |
| HistoryDocs.LoadDocIdempotent | price_history.py:155-161 | loading a loaded document changes nothing |
| HistoryDocs.NewestFirstReverses | price_history.py:167-171 | the key `sorted(..., reverse=True)` uses orders records by `last_seen_at` descending; a record never seen sorts as "" |
| HistoryBackends.ChooseBackend | price_history.py:265-282 | GitHub exactly when the setting is "github" and the token and repository are set; the local file exactly when the setting is "local" or empty; otherwise no-op |
| HistoryBackends.FirstSha | price_history.py:105-113 | the first PUT carries a sha exactly when `_github_sha` is a non-empty string |
| HistoryBackends.RetrySha | price_history.py:120-122 | the retry always sends a sha member: the re-read sha, or `null` |
| HistoryBackends.GithubOutcome | price_history.py:115-125 | one or two PUTs, two exactly on a 409; success on 200/201, or on a 409 followed by 200/201 |
| HistoryBackends.HistoryBackend.Read | price_history.py:52-132 | `{}` when nothing is stored and always for no-op; the local file as stored; the GitHub file with `_github_sha` added |
| HistoryBackends.HistoryBackend.Put | price_history.py:115 | the PUT is logged; an accepted PUT replaces the stored file and its sha, a refused one leaves them |
| HistoryBackends.HistoryBackend.Write | price_history.py:58-135 | no-op fails and changes nothing; local stores the document, keeps the sha and the PUT log, and succeeds; GitHub pops `_github_sha`, sends the PUTs `GithubOutcome` counts with the shas `FirstSha`/`RetrySha` give, and on success stores the content with the sha the server gave the last PUT; on failure the file and its sha stay as they were |
| HistoryFold.Round2 | price_history.py:218-219 | `round(x, 2)` is a whole number of hundredths within 0.005 of `x`, with the sign of `x` |
| HistoryFold.Round2Hundredths | price_history.py:218 | a whole number of hundredths is left unchanged |
| HistoryFold.ChangeOf | price_history.py:217-222 | the change carries the previous and current price; no previous price gives 0 and 0; a previous price that is not positive gives a percent of 0 |
| HistoryFold.ChangeOfMeaning | price_history.py:217-229 | `delta` is the price difference within half a cent and never of the wrong sign; the percent is `delta` over the previous price within 0.005 and has the sign of `delta` |
| HistoryFold.LastPrice | price_history.py:200 | the price of the last point, `None` exactly for an empty history |
| HistoryFold.SliceFrom | price_history.py:215 | Python's `h[start:]`: a suffix of `h`, with a negative start counting from the end |
| HistoryFold.KeepLast | price_history.py:214-215 | the history trimmed to its last `max_points` points for a positive bound; kept whole for 0; shortened from the front for a negative bound |
| HistoryFold.NewEntry | price_history.py:187-198 | the record `setdefault` creates has the fingerprint as id, no `last_seen_at` and an empty history |
| HistoryFold.StepOthers | price_history.py:181-229 | a product leaves every other fingerprint's record and change untouched |
| HistoryFold.StepRecords | price_history.py:181-229 | a positive-priced product's record takes its fields and the capture time, its history is the last `max_points` of the earlier history followed by the new observation (which is then the last point when the bound is at least 0), for any bound, and its change is measured against the record's previous last price |
| HistoryFold.RepeatSeesEarlierPrice | price_history.py:200-213 | a second product with the same fingerprint in one search is compared with the first one's price |
| HistoryFold.FoldAllWithin | price_history.py:214-215 | with a positive `max_points` no history outgrows it |
| HistoryFold.FoldAllDistinct | price_history.py:187-229 | both dictionaries keep distinct keys |
| HistoryFold.FoldAllUntouched | price_history.py:181-185 | a fingerprint no positive-priced product carries keeps its record and change |
| HistoryFold.FoldAllKeys | price_history.py:181-229 | `changes` and the record table gain exactly the fingerprints of the positive-priced products |
| HistoryFold.FoldAllLastChange | price_history.py:224-229 | the change reported for a fingerprint is `ChangeOf` of its last positive-priced product's price against the last price its record held just before that product: previous price, current price, delta and percent all fixed |
| HistoryFold.FoldAllSkipsNonPositive | price_history.py:183-185 | products without a positive price play no part |
| HistoryService.PrefixLength | price_history.py:172 | how many items `items[:stop]` keeps, for a positive or negative `stop` |
| HistoryService.PruneKeepsNewest | price_history.py:163-173 | within the bound the table is unchanged; over it, `max_products` records of the table are kept (a sub-multiset, so distinct keys stay distinct), newest first, and none dropped was seen later than one kept |
| HistoryService.Clamp | price_history.py:256 | the limit is clamped to 1..100 and kept when already in that range |
| HistoryService.CandidatesMember | price_history.py:243-253 | the records considered are exactly the stored ones matching the normalized query in the name or the store key |
| HistoryService.HistoryItemsSpec | price_history.py:242-262 | at most the clamped limit of matching records, a sub-multiset of the matches (no record listed more often than stored), newest first; a matching record is left out only when the list is full of records seen no earlier |
| HistoryService.PriceHistoryService.constructor | price_history.py:139-142 | the service holds the backend and the two bounds |
| HistoryService.PriceHistoryService.Load | price_history.py:155-161 | a fresh in-memory document equal to `LoadDoc` of what the backend reads |
| HistoryService.PriceHistoryService.Prune | price_history.py:163-173 | replaces the product table with the pruned one and nothing else |
| HistoryService.PriceHistoryService.FoldSearch | price_history.py:181-229 | the loop updating records in place ends in the state of the fold and returns its changes |
| HistoryService.PriceHistoryService.RecordSnapshot | price_history.py:175-240 | the changes of the fold are returned; the written document is loaded, folded, stamped and pruned; `saved`, the stored document, its sha and the PUTs sent follow each backend's write rule; a failed write leaves the store and its sha as they were |
| HistoryService.PriceHistoryService.GetHistory | price_history.py:242-262 | the view satisfies `HistoryItemsSpec` on the stored table, including the sub-multiset bound; `updated_at` is the loaded document's, or None; `total` counts its items |
| Dedup.NormalizarTextoShape | app.py:10-20 | the normalized name has no upper-case letter, only word characters and plain spaces, and no space at either end |
| Dedup.NormalizarTiendaRemovesSpaces | app.py:22-31 | the store key is the stripped lower-cased store with all spaces removed |
| Dedup.NormalizarTiendaJoinsWords | app.py:22-31 | "w1 w2" and "w1w2" give the same store key |
| Dedup.SonDuplicadosSymmetric | app.py:33-69 | the duplicate test does not depend on the order of its arguments |
| Dedup.NombresSimilaresMeaning | app.py:54-67 | names are similar exactly when both have words and share at least 7 in 10 of their distinct words |
| Dedup.PreciosSimilaresMeaning | app.py:44-66 | prices are similar exactly when they differ by less than 1% of the larger, or the larger is not positive |
| Dedup.SonDuplicadosMeaning | app.py:33-69 | the duplicate test without division: word overlap, equal store keys, price within 1% |
| Dedup.NoWordsNoDuplicate | app.py:55-62 | a name without words is nobody's duplicate |
| Dedup.PlacaRanksFirst | app.py:77-85 | a name containing "placa de placa" in any case scores 1, so it ranks no worse than any non-empty name and strictly ahead of a longer name without it under the ascending sort |
| Dedup.EliminarDuplicados | app.py:71-106 | empty stays empty; the output is a subsequence of the input sorted by name quality, has no two duplicates, and every input record is kept or duplicates a kept record whose name scores no worse, as "manteniendo el de mejor formato" promises |
| Dedup.QuitarRepetidos | app.py:86-106 | the loop keeps a subsequence with no two duplicates; every record is kept or duplicates a kept record of no worse quality; the replacement branch is never taken |
| Dedup.KeptNotWorse | app.py:94-99 | every kept record has a name no worse than the record being examined |
| Dedup.WithChangeMeaning | app.py:112-117 | only `price_change` is touched: it becomes the change stored under the fingerprint, and a record without one is unchanged |
| Dedup.WithChangeIdempotent | app.py:112-117 | attaching the changes twice is attaching them once |
| Dedup.AplicarCambiosDeHistorial | app.py:109-117 | each array element becomes its old value with the change of its fingerprint attached |
| Dedup.AplicarCambiosPorClave | app.py:112-117 | the loop attaches to each element the change found under its key |
| Dedup.PriceOrder | app.py:143 | the sort is a permutation; priced records come first in ascending price, and unpriced ones last in their original order |
| Scraper.KeepDigitsAndDots | scraper.py:75 | only digits and dots remain |
| Scraper.KeepDigitsAndDotsId | scraper.py:75 | text made of digits and dots passes unchanged |
| Scraper.CleanPrice | scraper.py:57-75 | the text handed to `float` is made of digits and dots |
| Scraper.LimpiarPrecio | scraper.py:51-80 | never negative; 0 for empty input and for text with no digit or dot left |
| Scraper.ParseDecimalOfNumeral | scraper.py:77-78 | `float` of digits, one dot, digits is their exact decimal value |
| Scraper.ParseDecimalOfDigits | scraper.py:77-78 | `float` of a digit string is its value |
| Scraper.CleanPriceIgnoresSymbol | scraper.py:57 | inserting `$` or a space anywhere does not change the price |
| Scraper.LimpiarFormatted | scraper.py:57-78 | a formatted price is what `float` makes of the text the separator rule leaves |
| Scraper.ThousandsAndDecimals | scraper.py:61-63 | thousands dots and a decimal comma: "1.563.890,50" is 1563890.50 |
| Scraper.SeparatorsBoth | scraper.py:61-63 | with both separators the dots are removed and the comma becomes the point |
| Scraper.ThousandsOnly | scraper.py:64-68 | several dots and no comma: the dots group thousands, "1.563.890" is 1563890 |
| Scraper.SingleDot | scraper.py:64-69 | a single dot is the decimal point: "1.563" is 1.563 |
| Scraper.DecimalComma | scraper.py:70-72 | a comma alone is the decimal point: "899,99" is 899.99 |
| Scraper.SeveralCommas | scraper.py:70-80 | several commas and no dot do not parse and give 0 |
| Scraper.SeveralDotsRejected | scraper.py:77-80 | `float` rejects two dots or more |
| Scraper.AbsoluteLinkShape | scraper.py:239-243 | the link starts with "http"; a relative one is the site, one `/`, and the path; the rule is idempotent (also scraper.py:334-338) |
| Scraper.AbsoluteImageShape | scraper.py:226-233 | an empty address stays empty, any other starts with "http"; the rule is idempotent (also scraper.py:309-317) |
| CacheBuilder.NormalizeQueryShape | scripts/build_preciosgamer_cache.py:15-20 | the key has no upper-case letter, only word characters and plain spaces, and no space at either end |
| CacheBuilder.NormalizeQueryDoubleSpace | scripts/build_preciosgamer_cache.py:17-19 | as written, "a - b" gives "a  b", which is not single-spaced |
| CacheBuilder.QueryKey | scripts/build_preciosgamer_cache.py:15-20 | the corrected key is single-spaced, lower-case, word characters only, with the same words as the key as written |
| CacheBuilder.QueryKeyKeepsSingleSpaced | scripts/build_preciosgamer_cache.py:15-20 | where the key as written is single-spaced, the corrected key equals it |
| CacheBuilder.DedupeItems | scripts/build_preciosgamer_cache.py:23-36 | the loop returns the items whose key (stripped lower-cased name and link, price) no earlier item has |
| CacheBuilder.DedupeBy | scripts/build_preciosgamer_cache.py:24-35 | the same pass for any key function |
| CacheBuilder.KeepFirstSubseq | scripts/build_preciosgamer_cache.py:23-36 | the result is a subsequence of the input and holds every key of the input |
| CacheBuilder.KeepFirstDistinct | scripts/build_preciosgamer_cache.py:23-36 | no two items of the result share a key |
| CacheBuilder.KeepFirstKeepsFirsts | scripts/build_preciosgamer_cache.py:26-35 | an item is kept exactly when no earlier item has its key |
| CacheBuilder.KeepFirstOfDistinct | scripts/build_preciosgamer_cache.py:23-36 | items with distinct keys pass unchanged |
| CacheBuilder.KeepFirstIdempotent | scripts/build_preciosgamer_cache.py:23-36 | deduplicating twice is deduplicating once |
| CacheBuilder.TrackedQueries | scripts/build_preciosgamer_cache.py:56 | at most one query per entry, each non-empty and already stripped |
| CacheBuilder.TrackedQueriesOfClean | scripts/build_preciosgamer_cache.py:56 | entries that are clean strings are all kept, in order |
| CacheBuilder.TrackedQueriesSkips | scripts/build_preciosgamer_cache.py:56 | non-string and blank entries are dropped |
| CacheBuilder.MergeStepMeaning | scripts/build_preciosgamer_cache.py:77-94 | fresh results replace the entry; with none, a truthy entry is kept and a missing or falsy one becomes an empty entry; other keys are untouched |
| CacheBuilder.MergeCache | scripts/build_preciosgamer_cache.py:62-94 | the loop over the tracked queries produces the fold of the merge step from the cache read from disk, each entry filed under `normalize_query`'s key as written |
| CacheBuilder.ScriptKeySplitsSpellings | scripts/build_preciosgamer_cache.py:15-20 | "a - b" is filed under "a  b", not under the corrected key, although both keys have the same words |
| CacheBuilder.MergeCacheCorrected | scripts/build_preciosgamer_cache.py:62-94 | the same loop with entries filed under the corrected single-spaced key |
| CacheBuilder.MergeCacheBy | scripts/build_preciosgamer_cache.py:67-94 | the same loop for any key function |
| CacheBuilder.MergeAllCarriesOver | scripts/build_preciosgamer_cache.py:64 | keys no tracked query maps to are carried over from the old cache |
| CacheBuilder.MergeAllConcat | scripts/build_preciosgamer_cache.py:67 | processing the queries in two parts is processing them at once |
| CacheBuilder.MergeAllLastWins | scripts/build_preciosgamer_cache.py:67-94 | a key's entry is decided by the last query mapping to it |
| CacheBuilder.MergeAllDistinct | scripts/build_preciosgamer_cache.py:62-94 | the merged cache keeps its keys distinct |
| Client.SameQueryIsLower | static/js/main.js:540 | two queries match exactly when their lower-cased texts are equal |
| Client.AddToHistoryMeaning | static/js/main.js:538-550 | the new query comes first; no other entry matches it; at most ten entries; the others keep their order and come from the old history |
| Client.AddToHistoryAgain | static/js/main.js:538-550 | saving the same query again only refreshes its entry |
| Client.FindQuery | static/js/main.js:686 | the index of the first matching entry, or the length when none matches |
| Client.ToggledFlips | static/js/main.js:678-694 | toggling flips whether the query is followed, leaves other queries' status alone, and keeps the list free of case-insensitive duplicates |
| Client.RemoveQueryMeaning | static/js/main.js:703-705 | every matching entry is removed, exactly those, the rest in order |
| Client.Wrap32 | static/js/main.js:813 | `x OR 0` gives the 32-bit two's complement value of `x` |
| Client.CodeUnits | static/js/main.js:813 | `charCodeAt` reads UTF-16 code units, each below 2^16 |
| Client.Hash | static/js/main.js:810-814 | the hash is a 32-bit signed value |
| Client.HashIdMeaning | static/js/main.js:815 | the id is "a" and a decimal numeral whose value is the absolute hash, at most 2^31 |
| Client.HashString | static/js/main.js:810-816 | the loop with `Math.imul` and the bitwise OR with 0 computes the id of the hash of the code units |
| Client.CandidatesMeaning | static/js/main.js:462-465 | exactly min(15, number of positive-priced results) of them, a sub-multiset of the results (no product repeated), cheapest first; a positive-priced result left out costs at least as much as each one taken |
| Client.NewAlertsFromDrops | static/js/main.js:467-490 | every new alert comes from a candidate whose change has a previous price and a negative delta |
| Client.MergeAlertsMeaning | static/js/main.js:497-503 | added alerts have ids not stored before; the merge puts them first, then the stored ones in order, at most a hundred |
| Client.ClientStore.constructor | static/js/main.js:552-558 | the three lists start empty |
| Client.ClientStore.GuardarEnHistorial | static/js/main.js:538-550 | the history becomes `AddToHistory` of the old one; nothing else changes |
| Client.ClientStore.ToggleAlertaBusquedaActual | static/js/main.js:678-694 | a blank trimmed query changes nothing; otherwise the followed list is toggled; nothing else changes |
| Client.ClientStore.QuitarQueryAlerta | static/js/main.js:703-705 | the followed list loses its matching entries; nothing else changes |
| Client.ClientStore.ProcesarAlertasDeBajada | static/js/main.js:456-509 | for an empty or unfollowed query, 0 and nothing stored; otherwise the alerts not yet stored are merged in front and their number returned |
| Client.CollectAlerts | static/js/main.js:467-490 | the loop builds the alerts the candidates raise, in order |
| Client.IsFollowed | static/js/main.js:674-676 | true exactly when some followed entry matches the query |
| Client.OrdenarProductosMeaning | static/js/main.js:192-207 | a permutation, ordered by price ascending, by price descending, or discounted first then by price; ties keep their order; an unknown order changes nothing |
| Client.FiltrarProductosMeaning | static/js/main.js:209-227 | with both bounds falsy the list is returned as is; otherwise exactly the products within the set bounds are kept, in order |
| Client.FormatearTiempoMeaning | static/js/main.js:620-631 | "Ahora" exactly under a minute; otherwise the unit is chosen by the elapsed time and the number reads back as the whole count of it |

## Left out

- I/O is not modelled. Files, `localStorage`, HTTP requests, Selenium and the HTML parsing of the scraper are left out. What they return is a parameter: the backend's stored document, the fetched results, and the `src`/`href` attributes.
- Clocks are parameters. The capture time is an `int` passed in. One `now` stands for every `Date.now()` of a call, so the alerts of one call share a timestamp.
- The SHA-1 digest is not modelled. `HistoryKeys.ProductFingerprint` is an injective constructor over the key.
- JSON encoding, base64 and the commit message are not modelled.
- The JSON parse fallbacks are not modelled. These are the `try/except` around `json.load` and around the local-storage reads, and the `isinstance` checks on the tracked file and the cache file. The model starts from the parsed value.
- The rendering functions of `main.js` (`render*`, `mostrar*`, `actualizar*`) and all `print` calls are not modelled.
- Client.ClientStore.ToggleAlertaBusquedaActual: does not model the follow-up call to `procesarAlertasDeBajada` when the toggled query is the one on screen (`main.js:698-700`). That call is modelled on its own as `ProcesarAlertasDeBajada`.
- Scraper.LimpiarPrecio: prices are exact decimals, not IEEE doubles. Python's `float` may round a long numeral that the model keeps exact.
- HistoryFold.Round2: `round(x, 2)` is applied to the exact value. Binary representation effects on ties are not modelled.
- `NaN` and infinite prices are not modelled. The sort key `float('inf')` of `app.py:143` is a rank above every price.
- `\d`, `\w` and `str.lower` are modelled on ASCII and Latin-1. Digits, word characters and case mappings above U+00FF are not. JavaScript's `toLowerCase` is modelled per character, so multi-character case mappings are left out.
- Dicts: Python dictionaries are association lists in insertion order. `_prune` is specified by `Sorting.SortBy` on that order, which is stable as Python's `sorted` is.
- HistoryBackends.HistoryBackend.Read: the GitHub read's error paths are not modelled. A non-404 error status (`raise_for_status`, `price_history.py:94`), a JSON or base64 decoding error (`price_history.py:95-100`) and a failing re-read after a 409 (`price_history.py:120`) all raise, and `_load` (`price_history.py:155-161`) does not catch them, so `record_snapshot` and `get_history` raise too. `Read` is total.
- HistoryBackends.HistoryBackend.Read: a GitHub file whose `content` is empty reads as `{}` without `_github_sha` (`price_history.py:96-98`). The stored file is always a parsed document, so a stored document always gains the sha.
- Dedup.SonDuplicadosMeaning: the ratios of `son_duplicados` (`app.py:47`, `app.py:60`, `app.py:66-67`) are exact reals, not IEEE doubles, so a comparison that rounding would tip is decided exactly. The same holds for the price difference `record_snapshot` computes before rounding (`HistoryFold.ChangeOf`).
- HistoryBackends.HistoryBackend.Write: the remote file changes only through this backend's own PUTs. The re-read after a 409 (`price_history.py:120`) therefore sees the sha as it was before the call; concurrent writers are not modelled.
- The environment variables are constructor parameters of `PriceHistoryService` and arguments of `ChooseBackend`. A non-integer value, which makes `int()` raise, is not modelled.

## Findings

| source | as written | input that shows it | evidently intended | confidence | as-written member | corrected member |
|---|---|---|---|---|---|---|
| scripts/build_preciosgamer_cache.py:15-20 | whitespace runs are squeezed before punctuation is removed, so removed punctuation between two spaces leaves two spaces | "a - b" gives the key "a  b" instead of "a b" | a single-spaced key, so the same words always give the same cache key | not executed | CacheBuilder.NormalizeQueryDoubleSpace, CacheBuilder.ScriptKeySplitsSpellings | CacheBuilder.QueryKey, CacheBuilder.MergeCacheCorrected |

The same order of steps is in `normalizar_texto` (`app.py:10-20`). There it is harmless: only the word set (`split()`) of its result is used.
