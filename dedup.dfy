/** Duplicate resolution of search results (app.py): the comparison
    normalizers, the duplicate test, the greedy pass that keeps one record
    per group of duplicates, the attachment of price changes and the price
    order of the combined results. */
module Dedup {
  import opened Wrappers
  import opened Chars
  import opened Seqs
  import opened Strings
  import opened Sorting
  import opened Dicts
  import opened Listing
  import opened HistoryKeys

  /** `normalizar_texto`: lower-cased, each whitespace run made one space,
      every character that is neither a word character nor whitespace
      removed, then stripped; "" for empty input. */
  function NormalizarTexto(texto: string): string {
    if texto == "" then "" else Strip(KeepWordOrSpace(Squeeze(Lower(texto))), IsPySpace)
  }

  /** Normalized text has no upper-case letter, only word characters and
      plain spaces, and no space at either end. */
  lemma NormalizarTextoShape(texto: string)
    ensures var r := NormalizarTexto(texto);
      && NoUpper(r) && AllChars(r, WordOrBlank)
      && (r != [] ==> r[0] != ' ' && r[|r| - 1] != ' ')
  {
    if texto != "" {
      var l := Lower(texto);
      var q := Squeeze(l);
      var k := KeepWordOrSpace(q);
      SqueezeKeeps(l, NotUpper);
      KeepWordOrSpaceKeeps(q, NotUpper);
      KeepWordOrSpaceKeeps(q, BlankIsSpace);
      StripKeeps(k, IsPySpace, NotUpper);
      assert AllChars(k, WordOrBlank);
      StripKeeps(k, IsPySpace, WordOrBlank);
    }
  }

  /** `normalizar_tienda`: lower-cased and stripped, "full h4rd" rewritten
      to "fullh4rd" (twice, as the source does), every space removed;
      "" for empty input. */
  function NormalizarTienda(tienda: string): string {
    if tienda == "" then ""
    else
      var t := Strip(Lower(tienda), IsPySpace);
      RemoveChar(Replace(Replace(t, SpacedSpelling, JoinedSpelling), SpacedSpelling, JoinedSpelling), ' ')
  }

  /** The store key is the stripped, lower-cased store without its spaces:
      the "full h4rd" rewrite is subsumed by the removal of spaces. */
  lemma NormalizarTiendaRemovesSpaces(tienda: string)
    ensures NormalizarTienda(tienda) == RemoveChar(Strip(Lower(tienda), IsPySpace), ' ')
    ensures ' ' !in NormalizarTienda(tienda)
  {
    var t := Strip(Lower(tienda), IsPySpace);
    var u1 := Replace(t, SpacedSpelling, JoinedSpelling);
    SpellingsAgree();
    RemoveCharAfterReplace(u1, SpacedSpelling, JoinedSpelling, ' ');
    RemoveCharAfterReplace(t, SpacedSpelling, JoinedSpelling, ' ');
    RemoveCharChars(t, ' ', NotUpper);
  }

  /** Two words and their concatenation give the same store key, as
      "Full H4rd" and "fullh4rd" do. */
  lemma NormalizarTiendaJoinsWords(w1: string, w2: string)
    requires IsWord(w1) && IsWord(w2)
    ensures NormalizarTienda(w1 + " " + w2) == NormalizarTienda(w1 + w2)
  {
    var l1, l2 := Lower(w1), Lower(w2);
    NormalizarTiendaRemovesSpaces(w1 + " " + w2);
    NormalizarTiendaRemovesSpaces(w1 + w2);
    StrippedLowerSpaced(w1, w2);
    StrippedLowerJoined(w1, w2);
    RemoveSpaceBetween(l1, l2);
  }

  /** Two words with a space between are already stripped once lower-cased. */
  lemma StrippedLowerSpaced(w1: string, w2: string)
    requires IsWord(w1) && IsWord(w2)
    ensures Strip(Lower(w1 + " " + w2), IsPySpace) == Lower(w1) + ([' '] + Lower(w2))
    ensures ' ' !in Lower(w1) && ' ' !in Lower(w2)
  {
    var l1, l2 := Lower(w1), Lower(w2);
    LowerWord(w1);
    LowerWord(w2);
    LowerSpaced(w1, w2);
    StripWord(l1 + ([' '] + l2), l1[0], l2[|l2| - 1]);
  }

  lemma LowerSpaced(w1: string, w2: string)
    ensures Lower(w1 + " " + w2) == Lower(w1) + ([' '] + Lower(w2))
  {
    LowerConcat(w1 + " ", w2);
    LowerConcat(w1, " ");
    assert Lower(" ") == " ";
  }

  /** Two words written together are stripped and space-free once lower-cased. */
  lemma StrippedLowerJoined(w1: string, w2: string)
    requires IsWord(w1) && IsWord(w2)
    ensures RemoveChar(Strip(Lower(w1 + w2), IsPySpace), ' ') == Lower(w1) + Lower(w2)
  {
    var l1, l2 := Lower(w1), Lower(w2);
    LowerWord(w1);
    LowerWord(w2);
    LowerConcat(w1, w2);
    StripWord(l1 + l2, l1[0], l2[|l2| - 1]);
    assert ' ' !in l1 + l2;
    RemoveCharChars(l1 + l2, ' ', NotUpper);
  }

  /** Text whose ends are not whitespace is its own strip. */
  lemma StripWord(s: string, first: char, last: char)
    requires s != [] && s[0] == first && s[|s| - 1] == last
    requires !IsPySpace(first) && !IsPySpace(last)
    ensures Strip(s, IsPySpace) == s
  {
  }

  /** The set of words of a text: `set(texto.split())`. */
  function WordSet(s: string): set<string> {
    set w | w in Split(s)
  }

  function Abs(x: real): real {
    if x < 0.0 then -x else x
  }

  function Max(x: real, y: real): real {
    if x >= y then x else y
  }

  /** Word-set Jaccard similarity in percent, 0 when either set is empty. */
  function Similitud(w1: set<string>, w2: set<string>): real {
    if w1 != {} && w2 != {} then
      var total := |w1 + w2|;
      if total > 0 then |w1 * w2| as real / total as real * 100.0 else 0.0
    else 0.0
  }

  /** The price difference in percent of the larger price, 0 when that is
      not positive. */
  function PorcentajeDiferencia(p1: real, p2: real): real {
    var m := Max(p1, p2);
    if m > 0.0 then Abs(p1 - p2) / m * 100.0 else 0.0
  }

  /** The three tests of `son_duplicados`. */
  predicate NombresSimilares(w1: set<string>, w2: set<string>) {
    Similitud(w1, w2) >= 70.0
  }

  predicate TiendasCoinciden(t1: string, t2: string) {
    t1 == t2 || (t1 == "" && t2 == "")
  }

  predicate PreciosSimilares(p1: real, p2: real) {
    PorcentajeDiferencia(p1, p2) < 1.0
  }

  /** `son_duplicados`: names at least 70% similar by words, equal store
      keys, prices less than 1% apart. */
  predicate SonDuplicados(p1: Product, p2: Product) {
    && NombresSimilares(WordSet(NormalizarTexto(p1.nombre)), WordSet(NormalizarTexto(p2.nombre)))
    && TiendasCoinciden(NormalizarTienda(p1.tienda), NormalizarTienda(p2.tienda))
    && PreciosSimilares(p1.precio, p2.precio)
  }

  /** The duplicate test does not depend on the order of its arguments. */
  lemma SonDuplicadosSymmetric(p1: Product, p2: Product)
    ensures SonDuplicados(p1, p2) == SonDuplicados(p2, p1)
  {
    NombresSimilaresSymmetric(WordSet(NormalizarTexto(p1.nombre)), WordSet(NormalizarTexto(p2.nombre)));
    PreciosSimilaresSymmetric(p1.precio, p2.precio);
  }

  lemma NombresSimilaresSymmetric(w1: set<string>, w2: set<string>)
    ensures NombresSimilares(w1, w2) == NombresSimilares(w2, w1)
  {
    assert w1 + w2 == w2 + w1 && w1 * w2 == w2 * w1;
  }

  lemma PreciosSimilaresSymmetric(p1: real, p2: real)
    ensures PreciosSimilares(p1, p2) == PreciosSimilares(p2, p1)
  {
    assert Abs(p1 - p2) == Abs(p2 - p1);
  }

  /** The name test without division: both names have words and share at
      least 7 in 10 of their distinct words. */
  lemma NombresSimilaresMeaning(w1: set<string>, w2: set<string>)
    ensures NombresSimilares(w1, w2) <==> w1 != {} && w2 != {} && 10 * |w1 * w2| >= 7 * |w1 + w2|
  {
    if w1 != {} && w2 != {} {
      var x :| x in w1;
      assert x in w1 + w2;
      RatioAtLeast(|w1 * w2|, |w1 + w2|);
    }
  }

  /** The price test without division: the prices differ by less than 1%
      of the larger one, which holds in particular when neither price is
      positive (two zero prices count as close). */
  lemma PreciosSimilaresMeaning(p1: real, p2: real)
    ensures var m := Max(p1, p2);
      PreciosSimilares(p1, p2) <==> m <= 0.0 || 100.0 * Abs(p1 - p2) < m
  {
    var m := Max(p1, p2);
    if m > 0.0 {
      PercentBelowOne(Abs(p1 - p2), m);
    }
  }

  lemma RatioAtLeast(c: nat, t: nat)
    requires t > 0
    ensures c as real / t as real * 100.0 >= 70.0 <==> 10 * c >= 7 * t
  {
    var x := c as real / t as real;
    var tr := t as real;
    assert x * tr == c as real;
    ScaleOrder(x, 0.7, tr);
    assert (10 * c >= 7 * t) == (10.0 * (c as real) >= 7.0 * tr);
  }

  lemma PercentBelowOne(d: real, m: real)
    requires m > 0.0
    ensures d / m * 100.0 < 1.0 <==> 100.0 * d < m
  {
    var x := d / m;
    assert x * m == d;
    ScaleOrder(0.01, x, m);
  }

  /** Multiplying by a positive number keeps the order. */
  lemma ScaleOrder(a: real, b: real, t: real)
    requires t > 0.0
    ensures a >= b <==> a * t >= b * t
  {
    if a >= b {
      assert (a - b) * t >= 0.0;
    } else {
      assert (b - a) * t > 0.0;
    }
  }

  /** The duplicate test without division. */
  lemma SonDuplicadosMeaning(p1: Product, p2: Product)
    ensures var w1 := WordSet(NormalizarTexto(p1.nombre));
      var w2 := WordSet(NormalizarTexto(p2.nombre));
      var m := Max(p1.precio, p2.precio);
      SonDuplicados(p1, p2) <==>
        && w1 != {} && w2 != {} && 10 * |w1 * w2| >= 7 * |w1 + w2|
        && NormalizarTienda(p1.tienda) == NormalizarTienda(p2.tienda)
        && (m <= 0.0 || 100.0 * Abs(p1.precio - p2.precio) < m)
  {
    NombresSimilaresMeaning(WordSet(NormalizarTexto(p1.nombre)), WordSet(NormalizarTexto(p2.nombre)));
    PreciosSimilaresMeaning(p1.precio, p2.precio);
  }

  /** A name without words is nobody's duplicate. */
  lemma NoWordsNoDuplicate(p1: Product, p2: Product)
    requires Split(NormalizarTexto(p1.nombre)) == [] || Split(NormalizarTexto(p2.nombre)) == []
    ensures !SonDuplicados(p1, p2)
  {
    var w1, w2 := WordSet(NormalizarTexto(p1.nombre)), WordSet(NormalizarTexto(p2.nombre));
    assert w1 == {} || w2 == {};
  }

  /** `calidad_nombre`: 1 for a name repeating "placa de placa" (in any
      case), otherwise the length of the name. `eliminar_duplicados` sorts
      ascending by it, so lower is better, and a name with the repetition
      is preferred although the comment beside it speaks of penalizing it. */
  function CalidadNombre(p: Product): (q: nat)
    ensures Contains(Lower(p.nombre), RepeatedPlaca) ==> q == 1
    ensures !Contains(Lower(p.nombre), RepeatedPlaca) ==> q == |p.nombre|
  {
    if Contains(Lower(p.nombre), RepeatedPlaca) then 1 else |p.nombre|
  }

  const RepeatedPlaca: string := "placa de placa"

  /** A name with the repetition scores no worse than any non-empty name,
      and strictly better than a longer name without it: it is sorted
      ahead of them and so becomes the kept representative. */
  lemma PlacaRanksFirst(p: Product, q: Product)
    requires Contains(Lower(p.nombre), RepeatedPlaca) && q.nombre != []
    ensures CalidadNombre(p) <= CalidadNombre(q)
    ensures !Contains(Lower(q.nombre), RepeatedPlaca) && |q.nombre| > 1 ==> CalidadNombre(p) < CalidadNombre(q)
  {
    if Contains(Lower(q.nombre), RepeatedPlaca) {
      assert CalidadNombre(q) == 1;
    } else {
      assert CalidadNombre(q) == |q.nombre|;
    }
  }

  function Quality(p: Product): Rank {
    Rank(CalidadNombre(p), 0.0)
  }

  /** `eliminar_duplicados`: sorts by name quality and keeps, walking the
      sorted list, each record that is not a duplicate of one already kept.
      The output is a subsequence of the sorted input, no two kept records
      are duplicates, and every input record is kept or duplicates a kept
      one whose name is no worse. */
  method EliminarDuplicados(resultados: seq<Product>) returns (out: seq<Product>)
    ensures resultados == [] ==> out == []
    ensures IsSubseq(out, SortBy(resultados, Quality))
    ensures SinDuplicados(out, SonDuplicados)
    ensures Cubiertos(resultados, out, SonDuplicados, CalidadNombre)
  {
    if resultados == [] {
      return resultados;
    }
    var ordenados := SortBy(resultados, Quality);
    SortBySorts(resultados, Quality);
    forall p, q
      ensures SonDuplicados(p, q) == SonDuplicados(q, p)
    {
      SonDuplicadosSymmetric(p, q);
    }
    out := QuitarRepetidos(ordenados, SonDuplicados, CalidadNombre);
    CubiertosPermuted(resultados, ordenados, out, SonDuplicados, CalidadNombre);
  }

  /** No two records at distinct places of `out` are duplicates under `dup`. */
  ghost predicate SinDuplicados(out: seq<Product>, dup: (Product, Product) -> bool) {
    forall a, b :: 0 <= a < |out| && 0 <= b < |out| && a != b ==> !dup(out[a], out[b])
  }

  /** Every record of `ps` is in `out` or duplicates a record of `out`
      whose quality is no worse. */
  ghost predicate Cubiertos(ps: seq<Product>, out: seq<Product>, dup: (Product, Product) -> bool,
                            calidad: Product -> nat) {
    forall p :: p in ps ==> p in out || exists q :: q in out && dup(p, q) && calidad(q) <= calidad(p)
  }

  /** The loop of `eliminar_duplicados` over the records sorted by
      `calidad`, for a symmetric duplicate test `dup`. The branch that would
      swap a kept record for a better-named duplicate is never taken: the
      kept one was sorted first and is never worse. */
  method QuitarRepetidos(ordenados: seq<Product>, dup: (Product, Product) -> bool, calidad: Product -> nat)
      returns (out: seq<Product>)
    requires forall p, q :: dup(p, q) == dup(q, p)
    requires forall i, j :: 0 <= i < j < |ordenados| ==> calidad(ordenados[i]) <= calidad(ordenados[j])
    ensures IsSubseq(out, ordenados)
    ensures SinDuplicados(out, dup)
    ensures Cubiertos(ordenados, out, dup, calidad)
  {
    out := [];
    var vistos: seq<Product> := [];
    var i := 0;
    while i < |ordenados|
      invariant 0 <= i <= |ordenados|
      invariant vistos == out
      invariant IsSubseq(out, ordenados[..i])
      invariant SinDuplicados(out, dup)
      invariant Cubiertos(ordenados[..i], out, dup, calidad)
    {
      var producto := ordenados[i];
      KeptNotWorse(ordenados, out, i, calidad);
      var esDuplicado := false;
      var j := 0;
      while j < |vistos|
        invariant 0 <= j <= |vistos|
        invariant forall k :: 0 <= k < j ==> !dup(producto, vistos[k])
      {
        if dup(producto, vistos[j]) {
          esDuplicado := true;
          assert vistos[j] in out;
          if calidad(producto) < calidad(vistos[j]) {
            assert false;
          }
          break;
        }
        j := j + 1;
      }
      if !esDuplicado {
        SinDuplicadosAppend(out, producto, dup);
        CubiertosKeep(ordenados[..i], out, producto, dup, calidad);
        SubseqExtendBoth(out, ordenados[..i], producto);
        out := out + [producto];
        vistos := vistos + [producto];
      } else {
        CubiertosDrop(ordenados[..i], out, producto, dup, calidad, vistos[j]);
        SubseqExtendRight(out, ordenados[..i], producto);
      }
      assert ordenados[..i + 1] == ordenados[..i] + [producto];
      i := i + 1;
    }
    assert ordenados[..i] == ordenados;
  }

  /** A record that duplicates no kept record can be kept. */
  lemma SinDuplicadosAppend(out: seq<Product>, x: Product, dup: (Product, Product) -> bool)
    requires forall p, q :: dup(p, q) == dup(q, p)
    requires SinDuplicados(out, dup)
    requires forall k :: 0 <= k < |out| ==> !dup(x, out[k])
    ensures SinDuplicados(out + [x], dup)
  {
    var r := out + [x];
    forall a, b | 0 <= a < |r| && 0 <= b < |r| && a != b
      ensures !dup(r[a], r[b])
    {
      if b == |out| {
        assert !dup(x, out[a]);
      } else if a == |out| {
        assert !dup(x, out[b]);
      }
    }
  }

  /** A kept record covers itself. */
  lemma CubiertosKeep(ps: seq<Product>, out: seq<Product>, x: Product, dup: (Product, Product) -> bool,
                      calidad: Product -> nat)
    requires Cubiertos(ps, out, dup, calidad)
    ensures Cubiertos(ps + [x], out + [x], dup, calidad)
  {
    forall p | p in ps + [x]
      ensures p in out + [x] || exists q :: q in out + [x] && dup(p, q) && calidad(q) <= calidad(p)
    {
      if p != x {
        assert p in ps;
        if p !in out {
          var q :| q in out && dup(p, q) && calidad(q) <= calidad(p);
          assert q in out + [x];
        }
      }
    }
  }

  /** A dropped record is covered by the kept record it duplicates, whose
      quality is no worse. */
  lemma CubiertosDrop(ps: seq<Product>, out: seq<Product>, x: Product, dup: (Product, Product) -> bool,
                      calidad: Product -> nat, q: Product)
    requires Cubiertos(ps, out, dup, calidad)
    requires q in out && dup(x, q) && calidad(q) <= calidad(x)
    ensures Cubiertos(ps + [x], out, dup, calidad)
  {
    forall p | p in ps + [x]
      ensures p in out || exists q :: q in out && dup(p, q) && calidad(q) <= calidad(p)
    {
      if p != x {
        assert p in ps;
      }
    }
  }

  /** Coverage depends only on the members of the covered sequence. */
  lemma CubiertosPermuted(ps: seq<Product>, qs: seq<Product>, out: seq<Product>, dup: (Product, Product) -> bool,
                          calidad: Product -> nat)
    requires multiset(ps) == multiset(qs)
    requires Cubiertos(qs, out, dup, calidad)
    ensures Cubiertos(ps, out, dup, calidad)
  {
    forall p | p in ps
      ensures p in qs
    {
      assert p in multiset(ps);
    }
  }

  /** Every kept record was sorted before position `i`, so its quality is
      not worse than that of the record at `i`. */
  lemma KeptNotWorse(ordenados: seq<Product>, out: seq<Product>, i: nat, calidad: Product -> nat)
    requires i < |ordenados|
    requires forall a, b :: 0 <= a < b < |ordenados| ==> calidad(ordenados[a]) <= calidad(ordenados[b])
    requires IsSubseq(out, ordenados[..i])
    ensures forall q :: q in out ==> calidad(q) <= calidad(ordenados[i])
  {
    SubseqLength(out, ordenados[..i]);
    forall q | q in out
      ensures calidad(q) <= calidad(ordenados[i])
    {
      assert q in ordenados[..i];
      var k :| 0 <= k < i && ordenados[..i][k] == q;
      assert ordenados[k] == q;
    }
  }

  /** The record with `price_change` set to the change found, if any. */
  function ConCambio(p: Product, cambio: Option<Change>): Product {
    if cambio.Some? then p.(priceChange := cambio) else p
  }

  /** The record with its `price_change` set when the changes hold its
      fingerprint. */
  function WithChange(p: Product, cambios: seq<Pair<Fingerprint, Change>>): Product {
    ConCambio(p, Get(cambios, ProductFingerprint(p)))
  }

  /** Only the change record is touched: it becomes the change stored under
      the record's fingerprint, and a record without one is left as it is. */
  lemma WithChangeMeaning(p: Product, cambios: seq<Pair<Fingerprint, Change>>)
    ensures var r := WithChange(p, cambios);
      && r.(priceChange := p.priceChange) == p
      && (Get(cambios, ProductFingerprint(p)).Some? ==> r.priceChange == Get(cambios, ProductFingerprint(p)))
      && (Get(cambios, ProductFingerprint(p)).None? ==> r == p)
  {
  }

  /** Attaching changes a second time changes nothing: the fingerprint does
      not depend on the change record. */
  lemma WithChangeIdempotent(p: Product, cambios: seq<Pair<Fingerprint, Change>>)
    ensures WithChange(WithChange(p, cambios), cambios) == WithChange(p, cambios)
  {
    FingerprintIgnoresOffer(p, WithChange(p, cambios));
  }

  /** `aplicar_cambios_de_historial`: sets `price_change` on exactly the
      records whose fingerprint has a change; nothing else changes. */
  method AplicarCambiosDeHistorial(resultados: array<Product>, cambios: seq<Pair<Fingerprint, Change>>)
    modifies resultados
    ensures forall i :: 0 <= i < resultados.Length ==> resultados[i] == WithChange(old(resultados[i]), cambios)
  {
    if resultados.Length == 0 {
      return;
    }
    AplicarCambiosPorClave(resultados, cambios, ProductFingerprint);
  }

  /** The loop of `aplicar_cambios_de_historial`, for records keyed by `clave`. */
  method AplicarCambiosPorClave(resultados: array<Product>, cambios: seq<Pair<Fingerprint, Change>>, clave: Product -> Fingerprint)
    modifies resultados
    ensures forall i :: 0 <= i < resultados.Length ==>
      resultados[i] == ConCambio(old(resultados[i]), Get(cambios, clave(old(resultados[i]))))
  {
    var i := 0;
    while i < resultados.Length
      invariant 0 <= i <= resultados.Length
      invariant forall k :: 0 <= k < i ==> resultados[k] == ConCambio(old(resultados[k]), Get(cambios, clave(old(resultados[k]))))
      invariant forall k :: i <= k < resultados.Length ==> resultados[k] == old(resultados[k])
    {
      var producto := resultados[i];
      var key := clave(producto);
      var cambio := Get(cambios, key);
      if cambio.None? {
        i := i + 1;
        continue;
      }
      resultados[i] := producto.(priceChange := cambio);
      i := i + 1;
    }
  }

  /** The key of the final sort (app.py line 143): the price, with a price
      that is not positive sorting last as infinity. */
  function PriceKey(p: Product): Rank {
    if p.precio > 0.0 then Rank(0, p.precio) else Rank(1, 0.0)
  }

  predicate Priced(p: Product) {
    p.precio > 0.0
  }

  predicate Unpriced(p: Product) {
    !Priced(p)
  }

  /** Sorting by that key puts the priced records first, in ascending
      price, and the unpriced ones last, in their original order. */
  lemma PriceOrder(ps: seq<Product>)
    ensures var r := SortBy(ps, PriceKey);
      && multiset(r) == multiset(ps)
      && (forall i, j :: 0 <= i < j < |r| && Priced(r[j]) ==> Priced(r[i]) && r[i].precio <= r[j].precio)
      && Filter(r, Unpriced) == Filter(ps, Unpriced)
  {
    var r := SortBy(ps, PriceKey);
    SortBySorts(ps, PriceKey);
    SortByStable(ps, PriceKey, Rank(1, 0.0));
    forall p
      ensures HasRank(PriceKey, Rank(1, 0.0))(p) == Unpriced(p)
    {
      assert HasRank(PriceKey, Rank(1, 0.0))(p) == (PriceKey(p) == Rank(1, 0.0));
    }
    FilterSameTest(r, HasRank(PriceKey, Rank(1, 0.0)), Unpriced);
    FilterSameTest(ps, HasRank(PriceKey, Rank(1, 0.0)), Unpriced);
  }
}
