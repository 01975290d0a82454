/** Product identity for the price history (price_history.py): the text and
    store normalizers and the fingerprint built from them. */
module HistoryKeys {
  import opened Chars
  import opened Strings
  import opened Listing

  /** The SHA-1 hex digest of a key. The digest algorithm is not modelled:
      distinct keys give distinct fingerprints. */
  datatype Fingerprint = Sha1Of(key: string)

  /** `normalize_text`: lower-cased, whitespace-separated words joined by
      single spaces; "" for empty input. */
  function NormalizeText(value: string): (r: string)
    ensures value == "" ==> r == ""
    ensures SingleSpaced(r) && NoUpper(r)
  {
    if value == "" then ""
    else
      var t := Strip(Lower(value), IsPySpace);
      StripKeeps(Lower(value), IsPySpace, NotUpper);
      SplitKeeps(t, NotUpper);
      var ws := Split(t);
      JoinShape(ws, NotUpper);
      Join(ws)
  }

  /** Normalized text is a fixed point of `normalize_text`. */
  lemma NormalizeTextIdempotent(value: string)
    ensures NormalizeText(NormalizeText(value)) == NormalizeText(value)
  {
    var r := NormalizeText(value);
    if value != "" && r != "" {
      var ws := Split(Strip(Lower(value), IsPySpace));
      assert r == Join(ws);
      assert Lower(r) == r;
      assert Strip(r, IsPySpace) == r;
      SplitJoin(ws);
    }
  }

  /** Case and the layout of whitespace do not matter: text with the same
      lower-cased words normalizes equally. */
  lemma NormalizeTextByWords(a: string, b: string)
    requires Split(Lower(a)) == Split(Lower(b))
    ensures NormalizeText(a) == NormalizeText(b)
  {
    SplitStrip(Lower(a));
    SplitStrip(Lower(b));
  }

  /** `normalize_store`: normalized text with the spelling "full h4rd"
      rewritten to "fullh4rd" and every space removed. */
  function NormalizeStore(value: string): (r: string)
    ensures forall i :: 0 <= i < |r| ==> !IsPySpace(r[i]) && !IsUpper(r[i])
  {
    var t := NormalizeText(value);
    var u := Replace(t, SpacedSpelling, JoinedSpelling);
    StoreChars(t);
    ReplaceKeeps(t, SpacedSpelling, JoinedSpelling, StoreChar);
    RemoveCharChars(u, ' ', StoreChar);
    RemoveChar(u, ' ')
  }

  /** The two spellings of the "Full H4rd" store that `normalize_store`
      identifies. */
  const SpacedSpelling: string := "full h4rd"
  const JoinedSpelling: string := "fullh4rd"

  /** The characters normalized text is made of. */
  predicate StoreChar(c: char) {
    c == ' ' || (!IsPySpace(c) && !IsUpper(c))
  }

  lemma StoreChars(t: string)
    requires SingleSpaced(t) && NoUpper(t)
    ensures AllChars(t, StoreChar) && AllChars(JoinedSpelling, StoreChar)
  {
    JoinedSpellingChars();
  }

  lemma JoinedSpellingChars()
    ensures AllChars(JoinedSpelling, StoreChar)
  {
  }

  /** The "full h4rd" rewrite is subsumed by the removal of spaces: the store
      key is the normalized text without its spaces. */
  lemma NormalizeStoreRemovesSpaces(value: string)
    ensures NormalizeStore(value) == RemoveChar(NormalizeText(value), ' ')
  {
    SpellingsAgree();
    RemoveCharAfterReplace(NormalizeText(value), SpacedSpelling, JoinedSpelling, ' ');
  }

  lemma SpellingsAgree()
    ensures RemoveChar(SpacedSpelling, ' ') == RemoveChar(JoinedSpelling, ' ')
  {
    var a, b := "full", "h4rd";
    assert ' ' !in a && ' ' !in b;
    assert SpacedSpelling == a + ([' '] + b);
    assert JoinedSpelling == a + b;
    RemoveSpaceBetween(a, b);
    RemoveCharChars(a + b, ' ', NotUpper);
  }

  lemma RemoveSpaceBetween(a: string, b: string)
    requires ' ' !in a && ' ' !in b
    ensures RemoveChar(a + ([' '] + b), ' ') == a + b
  {
    RemoveCharConcat(a, [' '] + b, ' ');
    RemoveCharChars(a, ' ', NotUpper);
    RemoveCharChars(b, ' ', NotUpper);
    var sb := [' '] + b;
    assert sb[1..] == b;
    assert sb[0] == ' ';
    assert RemoveChar(sb, ' ') == RemoveChar(b, ' ');
  }

  /** Two words and their concatenation give the same store key, as
      "Full H4rd" and "fullh4rd" do. */
  lemma StoreJoinsWords(w1: string, w2: string)
    requires IsWord(w1) && IsWord(w2)
    ensures NormalizeStore(w1 + " " + w2) == NormalizeStore(w1 + w2)
  {
    NormalizeStoreRemovesSpaces(w1 + " " + w2);
    NormalizeStoreRemovesSpaces(w1 + w2);
    TwoWords(w1, w2);
    JoinedWords(w1, w2);
  }

  lemma JoinedWords(w1: string, w2: string)
    requires IsWord(w1) && IsWord(w2)
    ensures RemoveChar(NormalizeText(w1 + w2), ' ') == Lower(w1) + Lower(w2)
  {
    assert IsWord(w1 + w2);
    OneWord(w1 + w2);
    LowerConcat(w1, w2);
    LowerWord(w1 + w2);
    RemoveCharChars(Lower(w1 + w2), ' ', NotUpper);
  }

  lemma TwoWords(w1: string, w2: string)
    requires IsWord(w1) && IsWord(w2)
    ensures RemoveChar(NormalizeText(w1 + " " + w2), ' ') == Lower(w1) + Lower(w2)
  {
    var ws := [w1, w2];
    JoinTwo(w1, w2);
    NormalizeTextOfWords(ws);
    LowerWord(w1);
    LowerWord(w2);
    RemoveSpaceBetween(Lower(w1), Lower(w2));
  }

  lemma JoinTwo(w1: string, w2: string)
    ensures Join([w1, w2]) == w1 + " " + w2
    ensures Join(LowerAll([w1, w2])) == Lower(w1) + ([' '] + Lower(w2))
  {
    assert LowerAll([w1, w2])[1..] == [Lower(w2)];
  }

  /** Lower-casing a word gives a word with no space character. */
  lemma LowerWord(w: string)
    requires IsWord(w)
    ensures IsWord(Lower(w)) && ' ' !in Lower(w)
  {
  }

  lemma OneWord(w: string)
    requires IsWord(w)
    ensures NormalizeText(w) == Lower(w)
  {
    NormalizeTextOfWords([w]);
  }

  /** Words without whitespace normalize to their lower-cased join. */
  lemma NormalizeTextOfWords(ws: seq<string>)
    requires ws != []
    requires forall k :: 0 <= k < |ws| ==> IsWord(ws[k])
    ensures NormalizeText(Join(ws)) == Join(LowerAll(ws))
  {
    JoinShape(ws, c => true);
    LowerJoin(ws);
    var lws := LowerAll(ws);
    assert forall k :: 0 <= k < |lws| ==> IsWord(lws[k]);
    SplitJoin(lws);
    SplitStrip(Join(lws));
  }

  /** The text hashed by `product_fingerprint`: source, store and name,
      each normalized, separated by `|`. */
  function FingerprintKey(p: Product): string {
    NormalizeText(p.fuente) + "|" + NormalizeStore(p.tienda) + "|" + NormalizeText(p.nombre)
  }

  function ProductFingerprint(p: Product): Fingerprint {
    Sha1Of(FingerprintKey(p))
  }

  /** The fingerprint depends on source, store and name only: price, link,
      image, discount and change record do not enter it. */
  lemma FingerprintIgnoresOffer(p: Product, q: Product)
    requires p.fuente == q.fuente && p.tienda == q.tienda && p.nombre == q.nombre
    ensures ProductFingerprint(p) == ProductFingerprint(q)
  {
  }

  /** Two products share a fingerprint exactly when their normalized source,
      store and name agree, provided the normalized source and store contain
      no `|`. */
  lemma FingerprintInjective(p: Product, q: Product)
    requires '|' !in NormalizeText(p.fuente) && '|' !in NormalizeText(q.fuente)
    requires '|' !in NormalizeStore(p.tienda) && '|' !in NormalizeStore(q.tienda)
    ensures ProductFingerprint(p) == ProductFingerprint(q) <==>
      (&& NormalizeText(p.fuente) == NormalizeText(q.fuente)
       && NormalizeStore(p.tienda) == NormalizeStore(q.tienda)
       && NormalizeText(p.nombre) == NormalizeText(q.nombre))
  {
    var a1, b1, c1 := NormalizeText(p.fuente), NormalizeStore(p.tienda), NormalizeText(p.nombre);
    var a2, b2, c2 := NormalizeText(q.fuente), NormalizeStore(q.tienda), NormalizeText(q.nombre);
    assert ProductFingerprint(p).key == a1 + "|" + b1 + "|" + c1;
    assert ProductFingerprint(q).key == a2 + "|" + b2 + "|" + c2;
    if ProductFingerprint(p) == ProductFingerprint(q) {
      KeyInjective(a1, b1, c1, a2, b2, c2);
    }
  }

  lemma KeyInjective(a1: string, b1: string, c1: string, a2: string, b2: string, c2: string)
    requires '|' !in a1 && '|' !in a2 && '|' !in b1 && '|' !in b2
    requires a1 + "|" + b1 + "|" + c1 == a2 + "|" + b2 + "|" + c2
    ensures a1 == a2 && b1 == b2 && c1 == c2
  {
    assert a1 + "|" + b1 + "|" + c1 == a1 + "|" + (b1 + "|" + c1);
    assert a2 + "|" + b2 + "|" + c2 == a2 + "|" + (b2 + "|" + c2);
    SplitAtBar(a1, b1 + "|" + c1, a2, b2 + "|" + c2);
    SplitAtBar(b1, c1, b2, c2);
  }

  /** The part before the first `|` is determined. */
  lemma SplitAtBar(a1: string, r1: string, a2: string, r2: string)
    requires '|' !in a1 && '|' !in a2
    requires a1 + "|" + r1 == a2 + "|" + r2
    ensures a1 == a2 && r1 == r2
  {
    var s := a1 + "|" + r1;
    IndexOfAfter(a1, '|', r1);
    IndexOfAfter(a2, '|', r2);
    assert s[..|a1|] == a1 && s[|a1| + 1..] == r1;
    assert (a2 + "|" + r2)[..|a2|] == a2 && (a2 + "|" + r2)[|a2| + 1..] == r2;
  }
}
