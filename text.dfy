/**
 * The pieces of Python's string and regular-expression library that the audit
 * engine and the checklist parser rely on: the character classes `[一-鿿]`,
 * `\w` and `str.isspace`, and the operations `str.find`, `str.count`, `str.strip`,
 * `str.replace("\n", " ")`, `str.upper`, `re.findall` of CJK runs and `re.split(r"\W+")`.
 */
module Text {

  function Max(a: int, b: int): int {
    if a < b then b else a
  }

  function Min(a: int, b: int): int {
    if a < b then a else b
  }

  /** The class `[一-鿿]` of the CJK pattern. */
  predicate IsCjk(c: char) {
    '\U{4E00}' <= c <= '\U{9FFF}'
  }

  /** The characters `str.isspace` accepts, which `str.strip()` removes. */
  predicate IsSpace(c: char) {
    c == ' ' || '\t' <= c <= '\r' || '\U{1C}' <= c <= '\U{1F}' || c == '\U{85}' || c == '\U{A0}'
    || c == '\U{1680}' || '\U{2000}' <= c <= '\U{200A}' || c == '\U{2028}' || c == '\U{2029}'
    || c == '\U{202F}' || c == '\U{205F}' || c == '\U{3000}'
  }

  /**
   * The regular-expression class `\w`: ASCII letters, digits and underscore, and the
   * ideograph, kana, hangul and full-width letter and digit blocks.
   */
  predicate IsWordChar(c: char) {
    ('a' <= c <= 'z') || ('A' <= c <= 'Z') || ('0' <= c <= '9') || c == '_'
    || IsCjk(c) || ('\U{3400}' <= c <= '\U{4DBF}')
    || ('\U{3041}' <= c <= '\U{3096}') || ('\U{30A1}' <= c <= '\U{30FA}')
    || ('\U{AC00}' <= c <= '\U{D7A3}')
    || ('\U{FF10}' <= c <= '\U{FF19}') || ('\U{FF21}' <= c <= '\U{FF3A}') || ('\U{FF41}' <= c <= '\U{FF5A}')
  }

  predicate IsNonWordChar(c: char) {
    !IsWordChar(c)
  }

  predicate AllSpace(s: string) {
    forall i :: 0 <= i < |s| ==> IsSpace(s[i])
  }

  /** `pat` occurs in `text` starting at index `i`. */
  predicate Occurs(text: string, pat: string, i: int) {
    0 <= i && i + |pat| <= |text| && text[i..i + |pat|] == pat
  }

  /** Python's `pat in text`. */
  ghost predicate Contains(text: string, pat: string) {
    exists i :: Occurs(text, pat, i)
  }

  lemma OccursShift(text: string, pat: string, i: int)
    requires text != [] && i >= 1
    ensures Occurs(text, pat, i) <==> Occurs(text[1..], pat, i - 1)
  {
    if 0 <= i - 1 && i - 1 + |pat| <= |text[1..]| {
      assert text[1..][i - 1..i - 1 + |pat|] == text[i..i + |pat|];
    }
  }

  lemma OccursInSlice(text: string, lo: int, hi: int, pat: string, i: int)
    requires 0 <= lo <= hi <= |text|
    requires Occurs(text[lo..hi], pat, i)
    ensures Occurs(text, pat, lo + i)
  {
    var a, b := text[lo..hi][i..i + |pat|], text[lo + i..lo + i + |pat|];
    assert |a| == |b|;
    forall k | 0 <= k < |a| ensures a[k] == b[k] {
    }
    assert a == b;
  }

  lemma ContainsItself(s: string)
    ensures Contains(s, s)
  {
    assert Occurs(s, s, 0);
  }

  /** A pattern found in `b` is found in `a + b`. */
  lemma ContainsAfter(a: string, b: string, pat: string)
    requires Contains(b, pat)
    ensures Contains(a + b, pat)
  {
    var i :| Occurs(b, pat, i);
    var t := a + b;
    assert t[|a| + i..|a| + i + |pat|] == b[i..i + |pat|];
    assert Occurs(t, pat, |a| + i);
  }

  /** A pattern found in `b` is found in `b + c`. */
  lemma ContainsBefore(b: string, c: string, pat: string)
    requires Contains(b, pat)
    ensures Contains(b + c, pat)
  {
    var i :| Occurs(b, pat, i);
    var t := b + c;
    assert t[i..i + |pat|] == b[i..i + |pat|];
    assert Occurs(t, pat, i);
  }

  lemma ContainsTrans(text: string, mid: string, pat: string)
    requires Contains(text, mid) && Contains(mid, pat)
    ensures Contains(text, pat)
  {
    var i :| Occurs(text, mid, i);
    var j :| Occurs(mid, pat, j);
    OccursInSlice(text, i, i + |mid|, pat, j);
  }

  /** The length of the longest prefix of `s` whose characters all satisfy `p`. */
  function Span(s: string, p: char -> bool): (n: nat)
    ensures n <= |s|
    ensures forall i :: 0 <= i < n ==> p(s[i])
    ensures n == |s| || !p(s[n])
  {
    if s != [] && p(s[0]) then 1 + Span(s[1..], p) else 0
  }

  /** `s` without its leading whitespace. */
  function TrimStart(s: string): (r: string)
    ensures |r| <= |s|
  {
    if s != [] && IsSpace(s[0]) then TrimStart(s[1..]) else s
  }

  /** `s` without its trailing whitespace. */
  function TrimEnd(s: string): (r: string)
    ensures |r| <= |s|
  {
    if s != [] && IsSpace(s[|s| - 1]) then TrimEnd(s[..|s| - 1]) else s
  }

  /** Python's `s.strip()`: `s` with its leading and trailing whitespace removed. */
  function Strip(s: string): (r: string)
    ensures |r| <= |s|
  {
    TrimEnd(TrimStart(s))
  }

  /** Where `Strip(s)` begins in `s`. */
  function StripStart(s: string): nat
    ensures StripStart(s) <= |s|
  {
    |s| - |TrimStart(s)|
  }

  lemma {:induction false} TrimStartIsSuffix(s: string)
    ensures TrimStart(s) == s[|s| - |TrimStart(s)|..]
    ensures AllSpace(s[..|s| - |TrimStart(s)|])
    ensures TrimStart(s) == [] || !IsSpace(TrimStart(s)[0])
    decreases |s|
  {
    if s != [] && IsSpace(s[0]) {
      TrimStartIsSuffix(s[1..]);
      var k := |s| - |TrimStart(s)|;
      assert s[..k] == [s[0]] + s[1..][..k - 1];
    }
  }

  lemma {:induction false} TrimEndIsPrefix(s: string)
    ensures TrimEnd(s) == s[..|TrimEnd(s)|]
    ensures AllSpace(s[|TrimEnd(s)|..])
    ensures TrimEnd(s) == [] || !IsSpace(TrimEnd(s)[|TrimEnd(s)| - 1])
    decreases |s|
  {
    if s != [] && IsSpace(s[|s| - 1]) {
      var init := s[..|s| - 1];
      TrimEndIsPrefix(init);
      var k := |TrimEnd(s)|;
      assert s[k..] == init[k..] + [s[|s| - 1]];
    }
  }

  /**
   * `Strip(s)` is the slice of `s` at `StripStart(s)`, everything around it in `s` is
   * whitespace, and it neither begins nor ends with whitespace.
   */
  lemma StripTrims(s: string)
    ensures StripStart(s) + |Strip(s)| <= |s|
    ensures Strip(s) == s[StripStart(s)..StripStart(s) + |Strip(s)|]
    ensures AllSpace(s[..StripStart(s)]) && AllSpace(s[StripStart(s) + |Strip(s)|..])
    ensures Strip(s) == [] || (!IsSpace(Strip(s)[0]) && !IsSpace(Strip(s)[|Strip(s)| - 1]))
  {
    var a := StripStart(s);
    var t := TrimStart(s);
    var r := Strip(s);
    TrimStartIsSuffix(s);
    TrimEndIsPrefix(t);
    assert t == s[a..];
    assert r == t[..|r|];
    assert s[a + |r|..] == t[|r|..];
    if r != [] {
      assert r[0] == t[0];
    }
  }

  /** Python's `text.find(pat)`: the first index where `pat` occurs, or -1. */
  function Find(text: string, pat: string): (r: int)
    ensures -1 <= r
    ensures r >= 0 ==> Occurs(text, pat, r)
    decreases |text|
  {
    if |pat| > |text| then -1
    else if text[..|pat|] == pat then 0
    else
      var k := Find(text[1..], pat);
      if k < 0 then -1
      else
        OccursShift(text, pat, k + 1);
        k + 1
  }

  /** `Find` reports the first occurrence, and -1 exactly when there is none. */
  lemma {:induction false} FindFirst(text: string, pat: string)
    ensures Find(text, pat) == -1 <==> !Contains(text, pat)
    ensures forall j :: 0 <= j < Find(text, pat) ==> !Occurs(text, pat, j)
    decreases |text|
  {
    if |pat| > |text| {
    } else if text[..|pat|] == pat {
      assert Occurs(text, pat, 0);
    } else {
      FindFirst(text[1..], pat);
      forall j | Occurs(text, pat, j)
        ensures j >= 1 && Occurs(text[1..], pat, j - 1)
      {
        OccursShift(text, pat, j);
      }
      if Find(text[1..], pat) >= 0 {
        assert Occurs(text, pat, Find(text, pat));
      }
    }
  }

  /** Python's `text.count(pat)` for a non-empty `pat`: non-overlapping occurrences, left to right. */
  function CountOccurrences(text: string, pat: string): nat
    requires pat != []
    decreases |text|
  {
    if |text| < |pat| then 0
    else if text[..|pat|] == pat then 1 + CountOccurrences(text[|pat|..], pat)
    else CountOccurrences(text[1..], pat)
  }

  /** A non-empty pattern is counted at least once exactly when it occurs. */
  lemma {:induction false} CountPositiveIffContains(text: string, pat: string)
    requires pat != []
    ensures CountOccurrences(text, pat) > 0 <==> Contains(text, pat)
    decreases |text|
  {
    if |text| < |pat| {
      assert forall i :: !Occurs(text, pat, i);
    } else if text[..|pat|] == pat {
      assert Occurs(text, pat, 0);
    } else {
      CountPositiveIffContains(text[1..], pat);
      if Contains(text, pat) {
        var i :| Occurs(text, pat, i);
        OccursShift(text, pat, i);
        assert Occurs(text[1..], pat, i - 1);
      }
      if Contains(text[1..], pat) {
        var i :| Occurs(text[1..], pat, i);
        OccursShift(text, pat, i + 1);
        assert Occurs(text, pat, i + 1);
      }
    }
  }

  /** The occurrences `str.count` counts never overlap, so they fit into the text. */
  lemma {:induction false} CountFits(text: string, pat: string)
    requires pat != []
    ensures CountOccurrences(text, pat) * |pat| <= |text|
    decreases |text|
  {
    if |text| < |pat| {
    } else if text[..|pat|] == pat {
      CountFits(text[|pat|..], pat);
    } else {
      CountFits(text[1..], pat);
    }
  }

  /** Python's `s.replace("\n", " ")`. */
  function ReplaceNewlines(s: string): (r: string)
    ensures |r| == |s|
    ensures '\n' !in r
    ensures forall i :: 0 <= i < |s| && s[i] != '\n' ==> r[i] == s[i]
    ensures forall i :: 0 <= i < |s| && s[i] == '\n' ==> r[i] == ' '
  {
    seq(|s|, i requires 0 <= i < |s| => if s[i] == '\n' then ' ' else s[i])
  }

  /**
   * What `str.upper` makes of one character: ASCII letters, and the three characters
   * whose upper case is ASCII (sharp s, dotless i and long s). Every other character is
   * kept as it is.
   */
  function UpperOf(c: char): string {
    if 'a' <= c <= 'z' then [(c as int - 32) as char]
    else if c == '\U{DF}' then "SS"
    else if c == '\U{131}' then "I"
    else if c == '\U{17F}' then "S"
    else [c]
  }

  /** Python's `s.upper()`, character by character. */
  function Upper(s: string): (r: string)
    ensures |r| >= |s|
  {
    if s == [] then [] else UpperOf(s[0]) + Upper(s[1..])
  }

  predicate AllCjk(s: string) {
    forall i :: 0 <= i < |s| ==> IsCjk(s[i])
  }

  predicate AllWord(s: string) {
    forall i :: 0 <= i < |s| ==> IsWordChar(s[i])
  }

  /** `re.findall(r"[一-鿿]+", s)`: the maximal CJK runs of `s`, in order. */
  function CjkRuns(s: string): seq<string>
    decreases |s|
  {
    if s == [] then []
    else if !IsCjk(s[0]) then CjkRuns(s[1..])
    else
      var n := Span(s, IsCjk);
      [s[..n]] + CjkRuns(s[n..])
  }

  /**
   * `re.split(r"\W+", s)`: the pieces between maximal runs of non-word characters.
   * A leading or trailing run of non-word characters yields an empty first or last piece.
   */
  function SplitNonWord(s: string): seq<string>
    decreases |s|
  {
    var n := Span(s, IsWordChar);
    if n == |s| then [s]
    else
      var m := n + Span(s[n..], IsNonWordChar);
      [s[..n]] + SplitNonWord(s[m..])
  }

  /** The characters of `s` that satisfy `p`, in order. */
  function Filter(s: string, p: char -> bool): string {
    if s == [] then [] else (if p(s[0]) then [s[0]] else []) + Filter(s[1..], p)
  }

  /** The pieces of `ss` joined together. */
  function Concat(ss: seq<string>): string {
    if ss == [] then [] else ss[0] + Concat(ss[1..])
  }

  lemma {:induction false} FilterAppend(a: string, b: string, p: char -> bool)
    ensures Filter(a + b, p) == Filter(a, p) + Filter(b, p)
    decreases |a|
  {
    if a == [] {
      assert a + b == b;
    } else {
      assert (a + b)[0] == a[0];
      assert (a + b)[1..] == a[1..] + b;
      FilterAppend(a[1..], b, p);
      var h := if p(a[0]) then [a[0]] else [];
      assert Filter(a + b, p) == h + (Filter(a[1..], p) + Filter(b, p));
    }
  }

  lemma {:induction false} FilterKeeps(s: string, p: char -> bool)
    requires forall i :: 0 <= i < |s| ==> p(s[i])
    ensures Filter(s, p) == s
    decreases |s|
  {
    if s != [] {
      FilterKeeps(s[1..], p);
    }
  }

  lemma {:induction false} FilterDrops(s: string, p: char -> bool)
    requires forall i :: 0 <= i < |s| ==> !p(s[i])
    ensures Filter(s, p) == []
    decreases |s|
  {
    if s != [] {
      FilterDrops(s[1..], p);
    }
  }

  /** The CJK runs, joined, are exactly the CJK characters of `s`: none is lost or added. */
  lemma {:induction false} CjkRunsCover(s: string)
    ensures Concat(CjkRuns(s)) == Filter(s, IsCjk)
    decreases |s|
  {
    if s != [] && IsCjk(s[0]) {
      var n := Span(s, IsCjk);
      assert s == s[..n] + s[n..];
      FilterAppend(s[..n], s[n..], IsCjk);
      FilterKeeps(s[..n], IsCjk);
      CjkRunsCover(s[n..]);
      var runs := CjkRuns(s);
      assert runs[0] == s[..n] && runs[1..] == CjkRuns(s[n..]);
    } else if s != [] {
      CjkRunsCover(s[1..]);
    }
  }

  /** The pieces of the split, joined, are exactly the word characters of `s`. */
  lemma {:induction false} SplitNonWordCovers(s: string)
    ensures Concat(SplitNonWord(s)) == Filter(s, IsWordChar)
    decreases |s|
  {
    var n := Span(s, IsWordChar);
    if n == |s| {
      FilterKeeps(s, IsWordChar);
      assert Concat([s]) == s + Concat([]);
    } else {
      var m := n + Span(s[n..], IsNonWordChar);
      SplitStep(s, n, m);
      SplitNonWordCovers(s[m..]);
      var pieces := SplitNonWord(s);
      assert pieces[0] == s[..n] && pieces[1..] == SplitNonWord(s[m..]);
    }
  }

  /** One word run and the gap after it: the run is kept, the gap is dropped. */
  lemma SplitStep(s: string, n: nat, m: nat)
    requires n == Span(s, IsWordChar) < |s| && m == n + Span(s[n..], IsNonWordChar)
    ensures m <= |s|
    ensures Filter(s, IsWordChar) == s[..n] + Filter(s[m..], IsWordChar)
  {
    GapIsNonWord(s, n, m);
    KeepThenDrop(s, n, m, IsWordChar);
  }

  /** Filtering a text that starts with `n` kept characters followed by dropped ones up to `m`. */
  lemma KeepThenDrop(s: string, n: nat, m: nat, p: char -> bool)
    requires n <= m <= |s|
    requires forall i :: 0 <= i < n ==> p(s[i])
    requires forall i :: 0 <= i < m - n ==> !p(s[n..m][i])
    ensures Filter(s, p) == s[..n] + Filter(s[m..], p)
  {
    FilterThree(s, n, m, p);
    FilterKeeps(s[..n], p);
    FilterDrops(s[n..m], p);
    assert s[..n] + [] == s[..n];
  }

  lemma GapIsNonWord(s: string, n: nat, m: nat)
    requires n <= |s| && m == n + Span(s[n..], IsNonWordChar)
    ensures m <= |s| && forall i :: 0 <= i < m - n ==> !IsWordChar(s[n..m][i])
  {
    assert forall i :: 0 <= i < m - n ==> s[n..m][i] == s[n..][i];
  }

  /** Filtering distributes over a cut of `s` into three slices. */
  lemma FilterThree(s: string, n: nat, m: nat, p: char -> bool)
    requires n <= m <= |s|
    ensures Filter(s, p) == Filter(s[..n], p) + Filter(s[n..m], p) + Filter(s[m..], p)
  {
    assert s[n..] == s[n..m] + s[m..];
    assert s == s[..n] + s[n..];
    FilterAppend(s[..n], s[n..], p);
    FilterAppend(s[n..m], s[m..], p);
    var a, b, c := Filter(s[..n], p), Filter(s[n..m], p), Filter(s[m..], p);
    assert a + (b + c) == a + b + c;
  }

  /** Every CJK run is non-empty and made of CJK characters only. */
  lemma {:induction false} CjkRunsAreCjk(s: string)
    ensures forall k :: 0 <= k < |CjkRuns(s)| ==> CjkRuns(s)[k] != [] && AllCjk(CjkRuns(s)[k])
    decreases |s|
  {
    if s != [] && !IsCjk(s[0]) {
      CjkRunsAreCjk(s[1..]);
    } else if s != [] {
      var n := Span(s, IsCjk);
      CjkRunsAreCjk(s[n..]);
      var runs := CjkRuns(s);
      assert runs[0] == s[..n] && runs[1..] == CjkRuns(s[n..]);
      forall k | 0 <= k < |runs| ensures runs[k] != [] && AllCjk(runs[k]) {
        if k > 0 {
          assert runs[k] == CjkRuns(s[n..])[k - 1];
        }
      }
    }
  }

  /** The split yields at least one piece, and every piece is made of word characters only. */
  lemma {:induction false} SplitNonWordAreWords(s: string)
    ensures |SplitNonWord(s)| >= 1
    ensures forall k :: 0 <= k < |SplitNonWord(s)| ==> AllWord(SplitNonWord(s)[k])
    decreases |s|
  {
    var n := Span(s, IsWordChar);
    var head := s[..n];
    assert AllWord(head) by {
      forall i | 0 <= i < n ensures IsWordChar(head[i]) {
        assert head[i] == s[i];
      }
    }
    if n < |s| {
      var m := n + Span(s[n..], IsNonWordChar);
      SplitNonWordAreWords(s[m..]);
      var rest := SplitNonWord(s[m..]);
      assert SplitNonWord(s) == [head] + rest;
      AllWordCons(head, rest);
    } else {
      assert head == s;
    }
  }

  lemma AllWordCons(head: string, rest: seq<string>)
    requires AllWord(head) && forall k :: 0 <= k < |rest| ==> AllWord(rest[k])
    ensures forall k :: 0 <= k < |[head] + rest| ==> AllWord(([head] + rest)[k])
  {
    forall k | 0 <= k < |[head] + rest| ensures AllWord(([head] + rest)[k]) {
      if k > 0 {
        assert ([head] + rest)[k] == rest[k - 1];
      }
    }
  }

  // ----- Where the pieces start and end -----

  /**
   * `w` is a whole CJK run of `s` at index `i`: a non-empty run of CJK characters with
   * the text's edge or a non-CJK character on either side.
   */
  predicate MaximalRunAt(s: string, w: string, i: int) {
    && Occurs(s, w, i) && w != [] && AllCjk(w)
    && (i == 0 || !IsCjk(s[i - 1]))
    && (i + |w| == |s| || !IsCjk(s[i + |w|]))
  }

  /** `w` is a whole CJK run somewhere in `s`. */
  predicate IsRunOf(s: string, w: string) {
    exists i :: 0 <= i <= |s| && MaximalRunAt(s, w, i)
  }

  /** Every CJK run `re.findall` returns is a maximal run of the text. */
  lemma {:induction false} CjkRunsMaximal(s: string)
    ensures forall k :: 0 <= k < |CjkRuns(s)| ==> IsRunOf(s, CjkRuns(s)[k])
    decreases |s|
  {
    if s == [] {
      assert CjkRuns(s) == [];
    } else if !IsCjk(s[0]) {
      CjkRunsMaximal(s[1..]);
      assert CjkRuns(s) == CjkRuns(s[1..]);
      forall k | 0 <= k < |CjkRuns(s)| ensures IsRunOf(s, CjkRuns(s)[k]) {
        var i :| MaximalRunAt(s[1..], CjkRuns(s[1..])[k], i);
        RunShift(s, 1, CjkRuns(s)[k], i);
      }
    } else {
      var n := Span(s, IsCjk);
      assert n >= 1;
      CjkRunsMaximal(s[n..]);
      assert CjkRuns(s) == [s[..n]] + CjkRuns(s[n..]);
      forall k | 0 <= k < |CjkRuns(s)| ensures IsRunOf(s, CjkRuns(s)[k]) {
        if k == 0 {
          assert forall j :: 0 <= j < n ==> s[..n][j] == s[j];
          assert MaximalRunAt(s, s[..n], 0);
        } else {
          var w := CjkRuns(s[n..])[k - 1];
          assert CjkRuns(s)[k] == w;
          assert IsRunOf(s[n..], w);
          var i :| 0 <= i <= |s[n..]| && MaximalRunAt(s[n..], w, i);
          assert Occurs(s[n..], w, i) && w != [];
          assert s[n..][i] == s[n..][i..i + |w|][0] == w[0] && IsCjk(w[0]);
          assert i != 0 by { assert s[n..][0] == s[n]; }
          RunShift(s, n, w, i);
        }
      }
    }
  }

  /** A maximal run of a suffix is a maximal run of the text, unless it starts right after a CJK character. */
  lemma RunShift(s: string, j: nat, w: string, i: int)
    requires 1 <= j <= |s| && MaximalRunAt(s[j..], w, i)
    requires i == 0 ==> !IsCjk(s[j - 1])
    ensures MaximalRunAt(s, w, i + j)
  {
    assert s[j..|s|] == s[j..];
    OccursInSlice(s, j, |s|, w, i);
    if i > 0 {
      assert s[i + j - 1] == s[j..][i - 1];
    }
    if i + |w| < |s[j..]| {
      assert s[i + j + |w|] == s[j..][i + |w|];
    }
  }

  predicate AllNonWord(s: string) {
    forall i :: 0 <= i < |s| ==> !IsWordChar(s[i])
  }

  /** The runs of non-word characters `re.split(r"\W+", s)` cuts at, in order. */
  function NonWordGaps(s: string): seq<string>
    decreases |s|
  {
    var n := Span(s, IsWordChar);
    if n == |s| then []
    else
      var m := n + Span(s[n..], IsNonWordChar);
      [s[n..m]] + NonWordGaps(s[m..])
  }

  /** The pieces with the gaps put back between them. */
  function Interleave(pieces: seq<string>, gaps: seq<string>): string
    requires |pieces| == |gaps| + 1
    decreases |gaps|
  {
    if gaps == [] then pieces[0] else pieces[0] + gaps[0] + Interleave(pieces[1..], gaps[1..])
  }

  /** The split and the gaps, one step of the recursion both share. */
  lemma SplitCut(s: string) returns (n: nat, m: nat)
    ensures n == Span(s, IsWordChar)
    ensures n < |s| ==>
      && n < m <= |s| && AllNonWord(s[n..m])
      && SplitNonWord(s) == [s[..n]] + SplitNonWord(s[m..])
      && NonWordGaps(s) == [s[n..m]] + NonWordGaps(s[m..])
    ensures n == |s| ==> SplitNonWord(s) == [s] && NonWordGaps(s) == []
  {
    n := Span(s, IsWordChar);
    m := n;
    if n < |s| {
      m := n + Span(s[n..], IsNonWordChar);
      CutWidens(s, n, m);
      CutGapNonWord(s, n, m);
      CutPieces(s, n, m);
      CutGaps(s, n, m);
    }
  }

  lemma CutWidens(s: string, n: nat, m: nat)
    requires n == Span(s, IsWordChar) < |s| && m == n + Span(s[n..], IsNonWordChar)
    ensures n < m
  {
    assert s[n..][0] == s[n];
  }

  lemma CutGapNonWord(s: string, n: nat, m: nat)
    requires n <= |s| && m == n + Span(s[n..], IsNonWordChar)
    ensures m <= |s| && AllNonWord(s[n..m])
  {
    GapIsNonWord(s, n, m);
  }

  lemma CutPieces(s: string, n: nat, m: nat)
    requires n == Span(s, IsWordChar) < |s| && m == n + Span(s[n..], IsNonWordChar)
    ensures SplitNonWord(s) == [s[..n]] + SplitNonWord(s[m..])
  {
  }

  lemma CutGaps(s: string, n: nat, m: nat)
    requires n == Span(s, IsWordChar) < |s| && m == n + Span(s[n..], IsNonWordChar)
    ensures NonWordGaps(s) == [s[n..m]] + NonWordGaps(s[m..])
  {
  }

  /** The split cuts the text at non-empty runs of non-word characters, one more piece than cuts. */
  lemma {:induction false} SplitNonWordGaps(s: string)
    ensures |SplitNonWord(s)| == |NonWordGaps(s)| + 1
    ensures forall k :: 0 <= k < |NonWordGaps(s)| ==> NonWordGaps(s)[k] != [] && AllNonWord(NonWordGaps(s)[k])
    decreases |s|
  {
    var n, m := SplitCut(s);
    if n < |s| {
      SplitNonWordGaps(s[m..]);
      var gaps := NonWordGaps(s);
      forall k | 0 <= k < |gaps| ensures gaps[k] != [] && AllNonWord(gaps[k]) {
        if k > 0 {
          assert gaps[k] == NonWordGaps(s[m..])[k - 1];
        }
      }
    }
  }

  /** The pieces, with the gaps put back between them, give the text again. */
  lemma {:induction false} SplitNonWordJoins(s: string)
    ensures |SplitNonWord(s)| == |NonWordGaps(s)| + 1
    ensures Interleave(SplitNonWord(s), NonWordGaps(s)) == s
    decreases |s|
  {
    var n, m := SplitCut(s);
    if n < |s| {
      var rest := s[m..];
      SplitNonWordJoins(rest);
      JoinStep(s, n, m, SplitNonWord(rest), NonWordGaps(rest));
    }
  }

  /** Putting back the first piece and gap in front of a rejoined rest. */
  lemma JoinStep(s: string, n: nat, m: nat, pieces: seq<string>, gaps: seq<string>)
    requires n <= m <= |s| && |pieces| == |gaps| + 1 && Interleave(pieces, gaps) == s[m..]
    ensures Interleave([s[..n]] + pieces, [s[n..m]] + gaps) == s
  {
    assert ([s[..n]] + pieces)[1..] == pieces && ([s[n..m]] + gaps)[1..] == gaps;
    assert s[..n] + s[n..m] + s[m..] == s;
  }

  /** Only the first and the last piece of the split can be empty. */
  lemma {:induction false} SplitNonWordInnerPieces(s: string)
    ensures forall k :: 0 < k < |SplitNonWord(s)| - 1 ==> SplitNonWord(s)[k] != []
    decreases |s|
  {
    var n := Span(s, IsWordChar);
    if n < |s| {
      var m := n + Span(s[n..], IsNonWordChar);
      GapIsNonWord(s, n, m);
      var rest := s[m..];
      SplitNonWordInnerPieces(rest);
      var pieces := SplitNonWord(s);
      assert pieces == [s[..n]] + SplitNonWord(rest);
      forall k | 0 < k < |pieces| - 1 ensures pieces[k] != [] {
        assert pieces[k] == SplitNonWord(rest)[k - 1];
        if k == 1 {
          FirstPiece(rest);
        }
      }
    }
  }

  /** The first piece of a non-empty text that starts with a word character is not empty. */
  lemma FirstPiece(t: string)
    requires t == [] || IsWordChar(t[0])
    ensures |SplitNonWord(t)| > 1 ==> SplitNonWord(t)[0] != []
  {
  }

  /** An occurrence inside `text[lo..hi]` is an occurrence in the slice, shifted by `lo`. */
  lemma OccursInWindow(text: string, lo: int, hi: int, pat: string, i: int)
    requires 0 <= lo <= i && i + |pat| <= hi <= |text|
    requires Occurs(text, pat, i)
    ensures Occurs(text[lo..hi], pat, i - lo)
  {
    var a, b := text[lo..hi][i - lo..i - lo + |pat|], text[i..i + |pat|];
    assert |a| == |b|;
    forall k | 0 <= k < |a| ensures a[k] == b[k] {
    }
    assert a == b;
  }

  /** Replacing newlines keeps an occurrence of a pattern without newlines. */
  lemma ReplaceNewlinesKeeps(s: string, pat: string, i: int)
    requires Occurs(s, pat, i) && '\n' !in pat
    ensures Occurs(ReplaceNewlines(s), pat, i)
  {
    var r := ReplaceNewlines(s);
    forall c | 0 <= c < |pat| ensures r[i + c] == pat[c] {
      assert s[i..i + |pat|][c] == pat[c];
    }
    assert r[i..i + |pat|] == pat;
  }

  /** Stripping keeps an occurrence of a pattern that begins and ends with non-whitespace. */
  lemma StripKeeps(s: string, pat: string, i: int)
    requires Occurs(s, pat, i) && pat != []
    requires !IsSpace(pat[0]) && !IsSpace(pat[|pat| - 1])
    ensures Occurs(Strip(s), pat, i - StripStart(s))
  {
    StripTrims(s);
    var a, r := StripStart(s), Strip(s);
    assert s[i] == pat[0] by { assert s[i..i + |pat|][0] == pat[0]; }
    assert s[i + |pat| - 1] == pat[|pat| - 1] by { assert s[i..i + |pat|][|pat| - 1] == pat[|pat| - 1]; }
    assert forall j :: 0 <= j < a ==> s[..a][j] == s[j];
    assert forall j :: a + |r| <= j < |s| ==> s[a + |r|..][j - (a + |r|)] == s[j];
    assert a <= i && i + |pat| <= a + |r|;
    forall c | 0 <= c < |pat| ensures r[i - a + c] == pat[c] {
      assert r[i - a + c] == s[a..a + |r|][i - a + c] == s[i + c];
      assert s[i..i + |pat|][c] == s[i + c];
    }
    assert r[i - a..i - a + |pat|] == pat;
  }
}
