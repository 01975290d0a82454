/** The string rules of the scraper (scraper.py): `limpiar_precio`, which
    reads an Argentine-format price ("$ 1.563.890,50": `.` groups thousands,
    `,` marks decimals), and the rules that make scraped links and image
    addresses absolute. */
module Scraper {
  import opened Wrappers
  import opened Chars
  import opened Strings

  /** The characters `re.sub(r'[^\d.]', '', s)` keeps. */
  predicate DigitOrDot(c: char) {
    IsDigit(c) || c == '.'
  }

  /** `re.sub(r'[^\d.]', '', s)`. */
  function KeepDigitsAndDots(s: string): (r: string)
    ensures AllChars(r, DigitOrDot)
    decreases |s|
  {
    if s == [] then []
    else (if DigitOrDot(s[0]) then [s[0]] else []) + KeepDigitsAndDots(s[1..])
  }

  /** Text made of digits and dots passes the filter unchanged. */
  lemma {:induction false} KeepDigitsAndDotsId(s: string)
    requires AllChars(s, DigitOrDot)
    ensures KeepDigitsAndDots(s) == s
    decreases |s|
  {
    if s != [] {
      KeepDigitsAndDotsId(s[1..]);
    }
  }

  /** The separator rule: with both `.` and `,` the dots group thousands and
      the comma is the decimal point; several dots alone group thousands and
      a single dot is the decimal point; commas alone are decimal points. */
  function NormalizeSeparators(t: string): string {
    if '.' in t && ',' in t then ReplaceChar(RemoveChar(t, '.'), ',', '.')
    else if '.' in t then (if Count(t, '.') > 1 then RemoveChar(t, '.') else t)
    else if ',' in t then ReplaceChar(t, ',', '.')
    else t
  }

  /** The first steps of `limpiar_precio`: `$` and spaces removed, then
      the surrounding whitespace. */
  function Trimmed(precio: string): string {
    Strip(RemoveChar(RemoveChar(precio, '$'), ' '), IsPySpace)
  }

  /** `limpiar_precio` up to the text handed to `float`: trimmed, separators
      normalized, everything but digits and dots removed. */
  function CleanPrice(precio: string): (r: string)
    ensures AllChars(r, DigitOrDot)
  {
    KeepDigitsAndDots(NormalizeSeparators(Trimmed(precio)))
  }

  function Pow10(n: nat): (p: nat)
    ensures p >= 1
  {
    if n == 0 then 1 else 10 * Pow10(n - 1)
  }

  /** The value of the decimal numeral `ip.fp`. */
  function DecimalValue(ip: string, fp: string): (v: real)
    ensures v >= 0.0
  {
    DigitsValue(ip) as real + DigitsValue(fp) as real / Pow10(|fp|) as real
  }

  /** Python's `float` on a string of digits and dots: digits with at most
      one dot and at least one digit ("12", "12.5", "12.", ".5") give their
      exact decimal value; anything else ("", ".", "1.2.3") is rejected. */
  function ParseDecimal(s: string): Option<real> {
    var n := IndexOf(s, '.');
    var ip := s[..n];
    var fp := if n < |s| then s[n + 1..] else "";
    if '.' in fp || (ip == "" && fp == "") then None
    else Some(DecimalValue(ip, fp))
  }

  /** `limpiar_precio`: 0 for empty input or text that does not parse,
      otherwise the decimal value of the cleaned text; never negative. */
  function LimpiarPrecio(precio: string): (r: real)
    ensures r >= 0.0
    ensures precio == "" ==> r == 0.0
    ensures CleanPrice(precio) == "" ==> r == 0.0
  {
    if precio == "" then 0.0
    else
      var c := CleanPrice(precio);
      if c == "" then 0.0 else ParseDecimal(c).GetOr(0.0)
  }

  /** Two digit strings joined by one dot parse to their decimal value. */
  lemma ParseDecimalOfNumeral(ip: string, fp: string)
    requires AllChars(ip, IsDigit) && AllChars(fp, IsDigit)
    requires ip != [] || fp != []
    ensures ParseDecimal(ip + "." + fp) == Some(DecimalValue(ip, fp))
  {
    var s := ip + "." + fp;
    assert '.' !in ip;
    IndexOfAfter(ip, '.', fp);
    assert s[..|ip|] == ip && s[|ip| + 1..] == fp;
    assert '.' !in fp;
  }

  /** A digit string alone parses to its value. */
  lemma ParseDecimalOfDigits(ip: string)
    requires AllChars(ip, IsDigit) && ip != []
    ensures ParseDecimal(ip) == Some(DigitsValue(ip) as real)
  {
    assert '.' !in ip;
    var n := IndexOf(ip, '.');
    assert n == |ip|;
    assert ip[..n] == ip;
    assert DigitsValue("") == 0 && Pow10(0) == 1;
    assert DecimalValue(ip, "") == DigitsValue(ip) as real;
  }

  /** Removing `$` and spaces commutes with concatenation. */
  lemma RemoveSymbolsConcat(a: string, b: string)
    ensures RemoveChar(RemoveChar(a + b, '$'), ' ')
         == RemoveChar(RemoveChar(a, '$'), ' ') + RemoveChar(RemoveChar(b, '$'), ' ')
  {
    RemoveCharConcat(a, b, '$');
    RemoveCharConcat(RemoveChar(a, '$'), RemoveChar(b, '$'), ' ');
  }

  /** `$` and spaces are removed before anything else: inserting one
      anywhere does not change the price. */
  lemma CleanPriceIgnoresSymbol(a: string, c: char, b: string)
    requires c == '$' || c == ' '
    ensures Trimmed(a + [c] + b) == Trimmed(a + b)
    ensures CleanPrice(a + [c] + b) == CleanPrice(a + b)
    ensures a + b != "" ==> LimpiarPrecio(a + [c] + b) == LimpiarPrecio(a + b)
  {
    RemoveSymbolsConcat(a + [c], b);
    RemoveSymbolsConcat(a, [c]);
    RemoveSymbolsConcat(a, b);
    assert RemoveChar(RemoveChar([c], '$'), ' ') == [] by {
      assert [c][1..] == [];
      if c == ' ' {
        assert RemoveChar([c], '$') == [c];
      }
    }
    assert RemoveChar(RemoveChar(a, '$'), ' ') + [] == RemoveChar(RemoveChar(a, '$'), ' ');
  }

  /** The characters of a formatted price. */
  predicate DigitOrComma(c: char) {
    IsDigit(c) || c == '.' || c == ','
  }

  /** A formatted price has nothing for the first steps to remove. */
  lemma TrimmedFormatted(t: string)
    requires AllChars(t, DigitOrComma) && t != []
    ensures Trimmed(t) == t
  {
    assert '$' !in t && ' ' !in t;
    RemoveCharNone(t, '$');
    RemoveCharNone(t, ' ');
    assert !IsPySpace(t[0]) && !IsPySpace(t[|t| - 1]);
  }

  /** The price of a formatted text is what `float` makes of the text the
      separator rule and the filter leave. */
  lemma LimpiarFormatted(t: string, u: string)
    requires AllChars(t, DigitOrComma) && t != []
    requires NormalizeSeparators(t) == u && AllChars(u, DigitOrDot)
    ensures LimpiarPrecio(t) == ParseDecimal(u).GetOr(0.0)
  {
    TrimmedFormatted(t);
    KeepDigitsAndDotsId(u);
    if u == "" {
      assert IndexOf(u, '.') == 0;
    }
  }

  lemma {:induction false} RemoveCharNone(s: string, c: char)
    requires c !in s
    ensures RemoveChar(s, c) == s
    decreases |s|
  {
    if s != [] {
      RemoveCharNone(s[1..], c);
    }
  }

  /** Digits with thousands dots and a decimal comma: "1.563.890,50" is
      1563890.50. */
  lemma ThousandsAndDecimals(ip: string, fp: string)
    requires AllChars(ip, DigitOrDot) && '.' in ip
    requires AllChars(fp, IsDigit) && fp != []
    ensures LimpiarPrecio(ip + "," + fp) == DecimalValue(RemoveChar(ip, '.'), fp)
  {
    var t := ip + "," + fp;
    var a := RemoveChar(ip, '.');
    RemoveCharChars(ip, '.', DigitOrDot);
    assert AllChars(a, IsDigit);
    AllCharsAround(ip, ',', fp, DigitOrComma);
    AllCharsAround(a, '.', fp, DigitOrDot);
    SeparatorsBoth(ip, fp);
    LimpiarFormatted(t, a + "." + fp);
    ParseDecimalOfNumeral(a, fp);
  }

  /** A character class holds of `a + [c] + b` when it holds of the parts. */
  lemma AllCharsAround(a: string, c: char, b: string, p: char -> bool)
    requires AllChars(a, p) && p(c) && AllChars(b, p)
    ensures AllChars(a + [c] + b, p)
  {
    var t := a + [c] + b;
    forall i | 0 <= i < |t|
      ensures p(t[i])
    {
      if i < |a| {
        assert t[i] == a[i];
      } else if i > |a| {
        assert t[i] == b[i - |a| - 1];
      }
    }
  }

  /** The separator rule on thousands dots and a decimal comma. */
  lemma SeparatorsBoth(ip: string, fp: string)
    requires AllChars(ip, DigitOrDot) && '.' in ip
    requires AllChars(fp, IsDigit)
    ensures NormalizeSeparators(ip + "," + fp) == RemoveChar(ip, '.') + "." + fp
  {
    var t := ip + "," + fp;
    assert '.' in t && ',' in t by {
      assert t[|ip|] == ',';
      var i :| 0 <= i < |ip| && ip[i] == '.';
      assert t[i] == '.';
    }
    RemoveCharConcat(ip + ",", fp, '.');
    RemoveCharConcat(ip, ",", '.');
    assert '.' !in fp;
    RemoveCharNone(fp, '.');
    assert RemoveChar(",", '.') == ",";
    var a := RemoveChar(ip, '.');
    RemoveCharChars(ip, '.', DigitOrDot);
    ReplaceCharDigitsComma(a, fp);
  }

  /** Replacing the comma of `a,fp` by a dot, for texts without commas. */
  lemma ReplaceCharDigitsComma(a: string, fp: string)
    requires ',' !in a && ',' !in fp
    ensures ReplaceChar(a + "," + fp, ',', '.') == a + "." + fp
  {
    ReplaceCharConcat(a + ",", fp, ',', '.');
    ReplaceCharConcat(a, ",", ',', '.');
    ReplaceCharNone(a, ',', '.');
    ReplaceCharNone(fp, ',', '.');
  }

  lemma {:induction false} ReplaceCharConcat(a: string, b: string, x: char, y: char)
    ensures ReplaceChar(a + b, x, y) == ReplaceChar(a, x, y) + ReplaceChar(b, x, y)
    decreases |a|
  {
    if a == [] {
      assert a + b == b;
    } else {
      assert (a + b)[0] == a[0];
      assert (a + b)[1..] == a[1..] + b;
      ReplaceCharConcat(a[1..], b, x, y);
    }
  }

  lemma {:induction false} ReplaceCharNone(s: string, x: char, y: char)
    requires x !in s
    ensures ReplaceChar(s, x, y) == s
    decreases |s|
  {
    if s != [] {
      ReplaceCharNone(s[1..], x, y);
    }
  }

  /** Digits with several dots and no comma: the dots group thousands,
      "1.563.890" is 1563890. */
  lemma ThousandsOnly(ip: string)
    requires AllChars(ip, DigitOrDot) && Count(ip, '.') > 1
    requires exists i :: 0 <= i < |ip| && IsDigit(ip[i])
    ensures LimpiarPrecio(ip) == DigitsValue(RemoveChar(ip, '.')) as real
  {
    CountPositive(ip, '.');
    assert ',' !in ip;
    var a := RemoveChar(ip, '.');
    RemoveCharChars(ip, '.', DigitOrDot);
    assert AllChars(a, IsDigit);
    var i :| 0 <= i < |ip| && IsDigit(ip[i]);
    RemoveCharKeeps(ip, '.', i);
    assert NormalizeSeparators(ip) == a;
    LimpiarFormatted(ip, a);
    ParseDecimalOfDigits(a);
  }

  lemma {:induction false} CountPositive(s: string, c: char)
    requires Count(s, c) > 0
    ensures c in s
    decreases |s|
  {
    if s[0] != c {
      CountPositive(s[1..], c);
    }
  }

  /** A character other than `c` survives the removal of `c`. */
  lemma {:induction false} RemoveCharKeeps(s: string, c: char, i: nat)
    requires i < |s| && s[i] != c
    ensures RemoveChar(s, c) != []
    decreases |s|
  {
    if i > 0 && s[0] == c {
      RemoveCharKeeps(s[1..], c, i - 1);
    }
  }

  /** Digits, one dot, digits: the dot is the decimal point, so "1.563"
      is 1.563 and not 1563. */
  lemma SingleDot(ip: string, fp: string)
    requires AllChars(ip, IsDigit) && AllChars(fp, IsDigit)
    requires ip != [] || fp != []
    ensures LimpiarPrecio(ip + "." + fp) == DecimalValue(ip, fp)
  {
    var t := ip + "." + fp;
    assert ',' !in t && '.' in t by {
      assert t[|ip|] == '.';
      assert forall i :: 0 <= i < |t| ==> t[i] != ',';
    }
    CountOne(ip, fp);
    assert NormalizeSeparators(t) == t;
    LimpiarFormatted(t, t);
    ParseDecimalOfNumeral(ip, fp);
  }

  lemma CountOne(ip: string, fp: string)
    requires '.' !in ip && '.' !in fp
    ensures Count(ip + "." + fp, '.') == 1
  {
    CountConcat(ip + ".", fp, '.');
    CountConcat(ip, ".", '.');
    CountNone(ip, '.');
    CountNone(fp, '.');
  }

  lemma {:induction false} CountConcat(a: string, b: string, c: char)
    ensures Count(a + b, c) == Count(a, c) + Count(b, c)
    decreases |a|
  {
    if a == [] {
      assert a + b == b;
    } else {
      assert (a + b)[0] == a[0];
      assert (a + b)[1..] == a[1..] + b;
      CountConcat(a[1..], b, c);
    }
  }

  lemma {:induction false} CountNone(s: string, c: char)
    requires c !in s
    ensures Count(s, c) == 0
    decreases |s|
  {
    if s != [] {
      CountNone(s[1..], c);
    }
  }

  /** Digits with a decimal comma and no dot: "899,99" is 899.99. */
  lemma DecimalComma(ip: string, fp: string)
    requires AllChars(ip, IsDigit) && AllChars(fp, IsDigit)
    requires ip != [] || fp != []
    ensures LimpiarPrecio(ip + "," + fp) == DecimalValue(ip, fp)
  {
    var t := ip + "," + fp;
    assert '.' !in t && ',' in t by {
      assert t[|ip|] == ',';
      assert forall i :: 0 <= i < |t| ==> t[i] != '.';
    }
    ReplaceCharDigitsComma(ip, fp);
    assert NormalizeSeparators(t) == ip + "." + fp;
    LimpiarFormatted(t, ip + "." + fp);
    ParseDecimalOfNumeral(ip, fp);
  }

  /** The characters of a price written with commas alone. */
  predicate DigitOrCommaOnly(c: char) {
    IsDigit(c) || c == ','
  }

  /** Several commas and no dot give several dots, which do not parse:
      "1,2,3" is 0. */
  lemma SeveralCommas(t: string)
    requires AllChars(t, DigitOrCommaOnly) && Count(t, ',') > 1
    ensures LimpiarPrecio(t) == 0.0
  {
    CountPositive(t, ',');
    assert '.' !in t;
    var u := ReplaceChar(t, ',', '.');
    assert NormalizeSeparators(t) == u;
    ReplaceCommas(t);
    LimpiarFormatted(t, u);
    SeveralDotsRejected(u);
  }

  /** Replacing the commas of a comma-only price by dots. */
  lemma {:induction false} ReplaceCommas(t: string)
    requires AllChars(t, DigitOrCommaOnly)
    ensures AllChars(ReplaceChar(t, ',', '.'), DigitOrDot)
    ensures Count(ReplaceChar(t, ',', '.'), '.') == Count(t, ',')
    decreases |t|
  {
    if t != [] {
      ReplaceCommas(t[1..]);
      var r := ReplaceChar(t, ',', '.');
      assert r[1..] == ReplaceChar(t[1..], ',', '.');
    }
  }

  /** `float` rejects a text with two dots or more. */
  lemma SeveralDotsRejected(u: string)
    requires Count(u, '.') > 1
    ensures ParseDecimal(u) == None
  {
    var n := IndexOf(u, '.');
    if n == |u| {
      assert '.' !in u;
      CountNone(u, '.');
    }
    var fp := u[n + 1..];
    assert u == u[..n] + [u[n]] + fp;
    CountConcat(u[..n] + [u[n]], fp, '.');
    CountConcat(u[..n], [u[n]], '.');
    assert '.' !in u[..n];
    CountNone(u[..n], '.');
    assert Count([u[n]], '.') == 1;
    CountPositive(fp, '.');
  }

  /** Where scraped links point: the site of each source. */
  const PreciosGamerSite: string := "https://preciosgamer.com"
  const HardGamersSite: string := "https://www.hardgamers.com.ar"

  /** A scraped link made absolute: kept when it starts with "http",
      otherwise put after the site with a `/` inserted only if missing. */
  function AbsoluteLink(link: string, site: string): string {
    if "http" <= link then link
    else if "/" <= link then site + link
    else site + "/" + link
  }

  /** The result starts with "http" and is the site, one `/`, and the link
      without a leading `/`; making it absolute again changes nothing. */
  lemma AbsoluteLinkShape(link: string, site: string)
    requires "http" <= site
    ensures "http" <= AbsoluteLink(link, site)
    ensures !("http" <= link) ==>
      AbsoluteLink(link, site) == site + "/" + (if "/" <= link then link[1..] else link)
    ensures AbsoluteLink(AbsoluteLink(link, site), site) == AbsoluteLink(link, site)
  {
    if !("http" <= link) {
      if "/" <= link {
        assert link == "/" + link[1..];
        assert site + link == site + "/" + link[1..];
      }
      PrefixOfConcat("http", site, AbsoluteLink(link, site)[|site|..]);
      assert site + AbsoluteLink(link, site)[|site|..] == AbsoluteLink(link, site);
    }
  }

  lemma PrefixOfConcat(p: string, a: string, b: string)
    requires p <= a
    ensures p <= a + b
  {
    assert (a + b)[..|p|] == a[..|p|];
  }

  /** A scraped image address made absolute: empty and "http" addresses are
      kept, "//host/x" gets "https:", "/x" goes after the site, and any other
      relative address after `base`, the address of the page. */
  function AbsoluteImage(imagen: string, site: string, base: string): string {
    if imagen == "" || "http" <= imagen then imagen
    else if "//" <= imagen then "https:" + imagen
    else if "/" <= imagen then site + imagen
    else base + "/" + imagen
  }

  /** A non-empty address becomes one that starts with "http", an empty one
      stays empty, and making it absolute again changes nothing. */
  lemma AbsoluteImageShape(imagen: string, site: string, base: string)
    requires "http" <= site && "http" <= base
    ensures imagen == "" ==> AbsoluteImage(imagen, site, base) == ""
    ensures imagen != "" ==> "http" <= AbsoluteImage(imagen, site, base)
    ensures AbsoluteImage(AbsoluteImage(imagen, site, base), site, base) == AbsoluteImage(imagen, site, base)
  {
    var r := AbsoluteImage(imagen, site, base);
    if imagen != "" && !("http" <= imagen) {
      if "//" <= imagen {
        assert r == "https:" + imagen;
        assert r[..4] == "http";
      } else if "/" <= imagen {
        PrefixOfConcat("http", site, imagen);
      } else {
        PrefixOfConcat("http", base, "/" + imagen);
        assert base + "/" + imagen == base + ("/" + imagen);
      }
    }
  }
}
