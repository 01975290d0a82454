/** String operations of Python's `str` and JavaScript's `String` that the
    normalizers are built from: lower-casing, stripping, `split()`/`join`,
    `replace`, and the two regular-expression substitutions
    `re.sub(r'\s+', ' ', s)` and `re.sub(r'[^\w\s]', '', s)`. */
module Strings {
  import opened Chars

  /** Every character of `s` is in the class `p`. */
  ghost predicate AllChars(s: string, p: char -> bool) {
    forall i :: 0 <= i < |s| ==> p(s[i])
  }

  ghost predicate NoUpper(s: string) {
    AllChars(s, NotUpper)
  }

  function Lower(s: string): (r: string)
    ensures |r| == |s|
    ensures forall i :: 0 <= i < |s| ==> r[i] == LowerChar(s[i])
    ensures NoUpper(r)
    ensures NoUpper(s) ==> r == s
  {
    seq(|s|, i requires 0 <= i < |s| => LowerChar(s[i]))
  }

  lemma LowerConcat(a: string, b: string)
    ensures Lower(a + b) == Lower(a) + Lower(b)
  {
  }

  /** The number of leading characters in the class `space`. */
  function LeadingCount(s: string, space: char -> bool): (n: nat)
    ensures n <= |s|
    ensures forall i :: 0 <= i < n ==> space(s[i])
    ensures n < |s| ==> !space(s[n])
    decreases |s|
  {
    if s != [] && space(s[0]) then 1 + LeadingCount(s[1..], space) else 0
  }

  /** The length of `s` without its trailing characters in the class `space`. */
  function TrailingStart(s: string, space: char -> bool): (n: nat)
    ensures n <= |s|
    ensures forall i :: n <= i < |s| ==> space(s[i])
    ensures n > 0 ==> !space(s[n - 1])
    decreases |s|
  {
    if s != [] && space(s[|s| - 1]) then TrailingStart(s[..|s| - 1], space) else |s|
  }

  /** `lstrip()` with the given notion of whitespace. */
  function StripLeft(s: string, space: char -> bool): string {
    s[LeadingCount(s, space)..]
  }

  /** `rstrip()` with the given notion of whitespace. */
  function StripRight(s: string, space: char -> bool): string {
    s[..TrailingStart(s, space)]
  }

  /** Python's `strip()` (with `IsPySpace`) and JavaScript's `trim()` (with
      `IsJsSpace`): the string without its leading and trailing whitespace. */
  function Strip(s: string, space: char -> bool): (r: string)
    ensures r != [] ==> !space(r[0]) && !space(r[|r| - 1])
    ensures s == [] || (!space(s[0]) && !space(s[|s| - 1])) ==> r == s
  {
    var l := StripLeft(s, space);
    var r := StripRight(l, space);
    assert r != [] ==> r[0] == s[LeadingCount(s, space)];
    r
  }

  /** Stripping keeps a character class that the whole text is in. */
  lemma StripKeeps(s: string, space: char -> bool, p: char -> bool)
    requires AllChars(s, p)
    ensures AllChars(Strip(s, space), p)
  {
    var l := StripLeft(s, space);
    AllCharsSlice(s, p, LeadingCount(s, space), |s|);
    AllCharsSlice(l, p, 0, TrailingStart(l, space));
  }

  lemma AllCharsSlice(s: string, p: char -> bool, a: nat, b: nat)
    requires a <= b <= |s| && AllChars(s, p)
    ensures AllChars(s[a..b], p)
  {
    assert forall i :: 0 <= i < b - a ==> s[a..b][i] == s[a + i];
  }

  /** Length of the leading run of non-whitespace characters. */
  function RunLen(s: string): (n: nat)
    ensures n <= |s|
    ensures forall i :: 0 <= i < n ==> !IsPySpace(s[i])
    ensures n < |s| ==> IsPySpace(s[n])
  {
    if s == [] || IsPySpace(s[0]) then 0 else 1 + RunLen(s[1..])
  }

  /** A token of `str.split()`: non-empty, without whitespace. */
  ghost predicate IsWord(w: string) {
    w != [] && forall i :: 0 <= i < |w| ==> !IsPySpace(w[i])
  }

  /** Python's `str.split()` with no separator: the maximal runs of
      non-whitespace characters, in order. */
  function Split(s: string): (ws: seq<string>)
    ensures forall k :: 0 <= k < |ws| ==> IsWord(ws[k])
    decreases |s|
  {
    if s == [] then []
    else if IsPySpace(s[0]) then Split(s[1..])
    else
      var n := RunLen(s);
      [s[..n]] + Split(s[n..])
  }

  /** The words of a text are in every character class the text is in. */
  lemma {:induction false} SplitKeeps(s: string, p: char -> bool)
    requires AllChars(s, p)
    ensures forall k :: 0 <= k < |Split(s)| ==> AllChars(Split(s)[k], p)
    decreases |s|
  {
    if s != [] {
      if IsPySpace(s[0]) {
        SplitKeeps(s[1..], p);
      } else {
        var n := RunLen(s);
        SplitKeeps(s[n..], p);
        assert Split(s) == [s[..n]] + Split(s[n..]);
      }
    }
  }

  /** Python's `" ".join(ws)`. */
  function Join(ws: seq<string>): string {
    if ws == [] then "" else if |ws| == 1 then ws[0] else ws[0] + " " + Join(ws[1..])
  }

  /** Joining a word in front of a non-empty list puts one space after it. */
  lemma JoinCons(w: string, ws: seq<string>)
    requires ws != []
    ensures Join([w] + ws) == w + " " + Join(ws)
  {
    assert ([w] + ws)[1..] == ws;
  }

  /** Text in which every whitespace character is a plain space, with no
      space at either end and no two spaces in a row. */
  ghost predicate SingleSpaced(s: string) {
    && (forall i :: 0 <= i < |s| && IsPySpace(s[i]) ==> s[i] == ' ')
    && (s != [] ==> !IsPySpace(s[0]) && !IsPySpace(s[|s| - 1]))
    && (forall i :: 0 <= i < |s| - 1 && s[i] == ' ' ==> s[i + 1] != ' ')
  }

  /** Splitting what `join` built gives back the words. */
  lemma {:induction false} SplitJoin(ws: seq<string>)
    requires forall k :: 0 <= k < |ws| ==> IsWord(ws[k])
    ensures Split(Join(ws)) == ws
    decreases |ws|
  {
    if |ws| == 1 {
      var w := ws[0];
      SplitWordThen(w, "");
      assert w + "" == w;
      assert Split(w) == [w] + Split([]);
    } else if |ws| > 1 {
      SplitJoin(ws[1..]);
      SplitJoinStep(ws[0], ws[1..]);
      assert ws == [ws[0]] + ws[1..];
    }
  }

  lemma SplitJoinStep(w: string, rest: seq<string>)
    requires IsWord(w) && rest != [] && Split(Join(rest)) == rest
    ensures Split(Join([w] + rest)) == [w] + rest
  {
    var t := " " + Join(rest);
    SplitWordThen(w, t);
    assert t[1..] == Join(rest);
    assert ([w] + rest)[1..] == rest;
    assert Join([w] + rest) == w + t;
  }

  /** A word followed by whitespace or nothing is split off as the first word. */
  lemma SplitWordThen(w: string, t: string)
    requires IsWord(w) && (t == [] || IsPySpace(t[0]))
    ensures Split(w + t) == [w] + Split(if t == [] then [] else t[1..])
  {
    var s := w + t;
    RunLenWord(w, t);
    assert s[..|w|] == w && s[|w|..] == t;
  }

  lemma {:induction false} RunLenWord(w: string, t: string)
    requires forall i :: 0 <= i < |w| ==> !IsPySpace(w[i])
    requires t == [] || IsPySpace(t[0])
    ensures RunLen(w + t) == |w|
    decreases |w|
  {
    if w == [] {
      assert w + t == t;
    } else {
      assert (w + t)[0] == w[0];
      assert (w + t)[1..] == w[1..] + t;
      RunLenWord(w[1..], t);
    }
  }

  /** A join of words is single-spaced, and keeps every property of
      characters that the words and the space share. */
  lemma {:induction false} JoinShape(ws: seq<string>, p: char -> bool)
    requires forall k :: 0 <= k < |ws| ==> IsWord(ws[k])
    requires p(' ')
    requires forall k, i :: 0 <= k < |ws| && 0 <= i < |ws[k]| ==> p(ws[k][i])
    ensures SingleSpaced(Join(ws))
    ensures forall i :: 0 <= i < |Join(ws)| ==> p(Join(ws)[i])
    ensures ws != [] ==> Join(ws) != []
    decreases |ws|
  {
    if |ws| > 1 {
      var w, rest := ws[0], ws[1..];
      var j := Join(rest);
      JoinShape(rest, p);
      var s := w + " " + j;
      assert Join(ws) == s;
      forall i | 0 <= i < |s|
        ensures p(s[i])
        ensures IsPySpace(s[i]) ==> s[i] == ' '
        ensures i < |s| - 1 && s[i] == ' ' ==> s[i + 1] != ' '
      {
        if i < |w| {
          assert s[i] == w[i];
        } else if i > |w| {
          assert s[i] == j[i - |w| - 1];
          if i < |s| - 1 {
            assert s[i + 1] == j[i - |w|];
          }
        } else {
          assert s[i + 1] == j[0];
        }
      }
      assert s[|s| - 1] == j[|j| - 1];
    }
  }

  /** Python's `s.replace(pat, rep)`: left to right, non-overlapping. */
  function Replace(s: string, pat: string, rep: string): string
    requires pat != []
    decreases |s|
  {
    if |s| < |pat| then s
    else if s[..|pat|] == pat then rep + Replace(s[|pat|..], pat, rep)
    else [s[0]] + Replace(s[1..], pat, rep)
  }

  /** Python's `s.replace(c, '')` for one character `c`. */
  function RemoveChar(s: string, c: char): string
    decreases |s|
  {
    if s == [] then [] else (if s[0] == c then [] else [s[0]]) + RemoveChar(s[1..], c)
  }

  /** What is left holds no `c` and only characters of `s`; a string
      without `c` is left as it is. */
  lemma {:induction false} RemoveCharChars(s: string, c: char, p: char -> bool)
    ensures forall i :: 0 <= i < |RemoveChar(s, c)| ==> RemoveChar(s, c)[i] != c
    ensures AllChars(s, p) ==> AllChars(RemoveChar(s, c), p)
    ensures c !in s ==> RemoveChar(s, c) == s
    decreases |s|
  {
    if s != [] {
      RemoveCharChars(s[1..], c, p);
    }
  }

  /** A character class that holds on the text and on the replacement
      holds on the result of `replace`. */
  lemma {:induction false} ReplaceKeeps(s: string, pat: string, rep: string, p: char -> bool)
    requires pat != []
    requires AllChars(s, p) && AllChars(rep, p)
    ensures AllChars(Replace(s, pat, rep), p)
    decreases |s|
  {
    if |s| >= |pat| {
      if s[..|pat|] == pat {
        ReplaceKeeps(s[|pat|..], pat, rep, p);
      } else {
        ReplaceKeeps(s[1..], pat, rep, p);
      }
    }
  }

  lemma {:induction false} RemoveCharConcat(a: string, b: string, c: char)
    ensures RemoveChar(a + b, c) == RemoveChar(a, c) + RemoveChar(b, c)
    decreases |a|
  {
    if a == [] {
      assert a + b == b;
    } else {
      assert (a + b)[0] == a[0];
      assert (a + b)[1..] == a[1..] + b;
      RemoveCharConcat(a[1..], b, c);
    }
  }

  /** Replacing a pattern by a text that differs from it only in occurrences
      of `c` makes no difference once every `c` is removed. */
  lemma {:induction false} RemoveCharAfterReplace(s: string, pat: string, rep: string, c: char)
    requires pat != []
    requires RemoveChar(pat, c) == RemoveChar(rep, c)
    ensures RemoveChar(Replace(s, pat, rep), c) == RemoveChar(s, c)
    decreases |s|
  {
    if |s| >= |pat| {
      if s[..|pat|] == pat {
        RemoveCharAfterReplace(s[|pat|..], pat, rep, c);
        RemoveCharConcat(rep, Replace(s[|pat|..], pat, rep), c);
        RemoveCharConcat(s[..|pat|], s[|pat|..], c);
        assert s[..|pat|] + s[|pat|..] == s;
      } else {
        RemoveCharAfterReplace(s[1..], pat, rep, c);
        RemoveCharConcat([s[0]], Replace(s[1..], pat, rep), c);
        RemoveCharConcat([s[0]], s[1..], c);
        assert [s[0]] + s[1..] == s;
      }
    }
  }

  /** Python's `s.replace(a, b)` for one character `a` and one character `b`. */
  function ReplaceChar(s: string, a: char, b: char): (r: string)
    ensures |r| == |s|
    decreases |s|
  {
    if s == [] then [] else [if s[0] == a then b else s[0]] + ReplaceChar(s[1..], a, b)
  }

  /** Python's `s.count(c)` for one character `c`. */
  function Count(s: string, c: char): nat
    decreases |s|
  {
    if s == [] then 0 else (if s[0] == c then 1 else 0) + Count(s[1..], c)
  }

  /** The position of the first `c` in `s`, or `|s|` when there is none. */
  function IndexOf(s: string, c: char): (n: nat)
    ensures n <= |s|
    ensures forall i :: 0 <= i < n ==> s[i] != c
    ensures n < |s| ==> s[n] == c
    decreases |s|
  {
    if s == [] || s[0] == c then 0 else 1 + IndexOf(s[1..], c)
  }

  /** A `c` right after a text without `c` is the first one. */
  lemma IndexOfAfter(a: string, c: char, r: string)
    requires c !in a
    ensures IndexOf(a + [c] + r, c) == |a|
  {
    var s := a + [c] + r;
    assert s[|a|] == c;
    assert forall i :: 0 <= i < |a| ==> s[i] == a[i];
  }

  /** `re.sub(r'\s+', ' ', s)`: every run of whitespace becomes one space. */
  function Squeeze(s: string): (r: string)
    ensures forall i :: 0 <= i < |r| ==> IsPySpace(r[i]) ==> r[i] == ' '
    decreases |s|
  {
    if s == [] then []
    else if IsPySpace(s[0]) then " " + Squeeze(StripLeft(s, IsPySpace))
    else [s[0]] + Squeeze(s[1..])
  }

  /** Squeezing keeps a character class that the text and the space are in. */
  lemma {:induction false} SqueezeKeeps(s: string, p: char -> bool)
    requires AllChars(s, p) && p(' ')
    ensures AllChars(Squeeze(s), p)
    decreases |s|
  {
    if s != [] {
      if IsPySpace(s[0]) {
        var l := StripLeft(s, IsPySpace);
        AllCharsSlice(s, p, LeadingCount(s, IsPySpace), |s|);
        SqueezeKeeps(l, p);
      } else {
        SqueezeKeeps(s[1..], p);
      }
    }
  }

  /** `re.sub(r'[^\w\s]', '', s)`: drops every character that is neither a
      word character nor whitespace. */
  function KeepWordOrSpace(s: string): (r: string)
    ensures forall i :: 0 <= i < |r| ==> IsWordChar(r[i]) || IsPySpace(r[i])
    decreases |s|
  {
    if s == [] then []
    else (if IsWordChar(s[0]) || IsPySpace(s[0]) then [s[0]] else []) + KeepWordOrSpace(s[1..])
  }

  /** The filter keeps a character class the text is in, and keeps every
      word or whitespace character. */
  lemma {:induction false} KeepWordOrSpaceKeeps(s: string, p: char -> bool)
    ensures AllChars(s, p) ==> AllChars(KeepWordOrSpace(s), p)
    ensures AllChars(s, c => IsWordChar(c) || IsPySpace(c)) ==> KeepWordOrSpace(s) == s
    decreases |s|
  {
    if s != [] {
      KeepWordOrSpaceKeeps(s[1..], p);
    }
  }

  ghost predicate OccursAt(s: string, needle: string, i: int) {
    0 <= i <= |s| - |needle| && s[i..i + |needle|] == needle
  }

  lemma OccursShift(s: string, needle: string)
    requires s != [] && !(needle <= s)
    ensures (exists i :: OccursAt(s, needle, i)) <==> (exists i :: OccursAt(s[1..], needle, i))
  {
    forall i | 1 <= i
      ensures OccursAt(s, needle, i) <==> OccursAt(s[1..], needle, i - 1)
    {
      if i <= |s| - |needle| {
        SliceOfTail(s, i, i + |needle|);
      }
    }
    assert !OccursAt(s, needle, 0) by {
      if |needle| <= |s| {
        assert s[..|needle|] == s[0..|needle|];
      }
    }
    if exists i :: OccursAt(s, needle, i) {
      var i :| OccursAt(s, needle, i);
      assert OccursAt(s[1..], needle, i - 1);
    }
    if exists i :: OccursAt(s[1..], needle, i) {
      var i :| OccursAt(s[1..], needle, i);
      assert OccursAt(s, needle, i + 1);
    }
  }

  lemma SliceOfTail(s: string, i: nat, j: nat)
    requires 1 <= i <= j <= |s|
    ensures s[i..j] == s[1..][i - 1..j - 1]
  {
    assert |s[i..j]| == |s[1..][i - 1..j - 1]|;
    forall k | 0 <= k < j - i
      ensures s[i..j][k] == s[1..][i - 1..j - 1][k]
    {
    }
  }

  /** Python's `needle in s` on strings: some position of `s` starts a copy of `needle`. */
  function Contains(s: string, needle: string): (b: bool)
    ensures b <==> exists i :: OccursAt(s, needle, i)
    decreases |s|
  {
    if needle <= s then
      assert OccursAt(s, needle, 0);
      true
    else if s == [] then
      false
    else
      OccursShift(s, needle);
      Contains(s[1..], needle)
  }
  /** Stripping before splitting changes nothing. */
  lemma {:induction false} SplitStrip(s: string)
    ensures Split(Strip(s, IsPySpace)) == Split(s)
  {
    SplitStripLeft(s);
    SplitStripRight(StripLeft(s, IsPySpace));
  }

  lemma {:induction false} SplitStripLeft(s: string)
    ensures Split(StripLeft(s, IsPySpace)) == Split(s)
    decreases |s|
  {
    if s != [] && IsPySpace(s[0]) {
      SplitStripLeft(s[1..]);
      assert StripLeft(s, IsPySpace) == StripLeft(s[1..], IsPySpace);
    }
  }

  lemma {:induction false} SplitStripRight(s: string)
    ensures Split(StripRight(s, IsPySpace)) == Split(s)
    decreases |s|
  {
    if s != [] && IsPySpace(s[|s| - 1]) {
      var t := s[..|s| - 1];
      var n := TrailingStart(s, IsPySpace);
      assert n == TrailingStart(t, IsPySpace);
      assert s[..n] == t[..n];
      assert StripRight(s, IsPySpace) == StripRight(t, IsPySpace);
      SplitStripRight(t);
      SplitDropTrailingSpace(t, s[|s| - 1]);
      assert t + [s[|s| - 1]] == s;
    } else {
      assert s[..|s|] == s;
    }
  }

  /** A trailing whitespace character adds no word. */
  lemma {:induction false} SplitDropTrailingSpace(t: string, c: char)
    requires IsPySpace(c)
    ensures Split(t + [c]) == Split(t)
    decreases |t|
  {
    var s := t + [c];
    if t == [] {
      assert s == [c];
      assert Split(s) == Split(s[1..]);
      assert s[1..] == [];
    } else {
      assert s[0] == t[0];
      assert s[1..] == t[1..] + [c];
      if IsPySpace(t[0]) {
        SplitDropTrailingSpace(t[1..], c);
      } else {
        var n := RunLen(t);
        RunLenSpaceSuffix(t, c);
        assert RunLen(s) == n;
        assert s[..n] == t[..n];
        if n < |t| {
          assert s[n..] == t[n..] + [c];
          SplitDropTrailingSpace(t[n..], c);
        } else {
          assert s[n..] == [c];
          assert t[n..] == [];
          assert Split([c]) == Split([c][1..]);
          assert [c][1..] == [];
        }
      }
    }
  }

  lemma {:induction false} RunLenSpaceSuffix(t: string, c: char)
    requires IsPySpace(c)
    ensures RunLen(t + [c]) == RunLen(t)
    decreases |t|
  {
    if t == [] {
      assert (t + [c])[0] == c;
    } else {
      assert (t + [c])[0] == t[0];
      assert (t + [c])[1..] == t[1..] + [c];
      if !IsPySpace(t[0]) {
        RunLenSpaceSuffix(t[1..], c);
      }
    }
  }

  function LowerAll(ws: seq<string>): (r: seq<string>)
    ensures |r| == |ws| && forall k :: 0 <= k < |ws| ==> r[k] == Lower(ws[k])
  {
    seq(|ws|, k requires 0 <= k < |ws| => Lower(ws[k]))
  }

  lemma {:induction false} LowerJoin(ws: seq<string>)
    ensures Lower(Join(ws)) == Join(LowerAll(ws))
    decreases |ws|
  {
    if |ws| > 1 {
      LowerJoin(ws[1..]);
      assert LowerAll(ws)[1..] == LowerAll(ws[1..]);
      LowerConcat(ws[0], " ");
      LowerConcat(ws[0] + " ", Join(ws[1..]));
    }
  }


  /** The value of an ASCII digit. */
  function DigitValue(c: char): nat {
    if IsDigit(c) then c as int - '0' as int else 0
  }

  /** The value of a string of decimal digits ("" is 0). */
  function DigitsValue(ds: string): nat
    decreases |ds|
  {
    if ds == [] then 0 else 10 * DigitsValue(ds[..|ds| - 1]) + DigitValue(ds[|ds| - 1])
  }

  /** The digit for `d < 10`. */
  function DigitChar(d: nat): (c: char)
    requires d < 10
    ensures IsDigit(c) && DigitValue(c) == d
  {
    ('0' as int + d) as char
  }

  /** The decimal numeral of `n`, as `String(n)` and `${n}` write it. */
  function DecimalString(n: nat): (r: string)
    ensures r != [] && AllChars(r, IsDigit)
    ensures |r| > 1 ==> r[0] != '0'
    decreases n
  {
    if n < 10 then [DigitChar(n)]
    else
      var p := DecimalString(n / 10);
      p + [DigitChar(n % 10)]
  }

  /** Reading the numeral back gives the number. */
  lemma {:induction false} DecimalStringValue(n: nat)
    ensures DigitsValue(DecimalString(n)) == n
    decreases n
  {
    var r := DecimalString(n);
    if n < 10 {
      assert r[..0] == [];
    } else {
      DecimalStringValue(n / 10);
      assert r[..|r| - 1] == DecimalString(n / 10);
    }
  }
}
