/**
 * Evidence retrieval: pages are scored by how often the rule's keywords occur in them,
 * the pages that score are ranked by score, and the best of them are searched for
 * short quotes around each keyword.
 */
module Evidence {
  import opened Wrappers
  import opened Text
  import opened KeywordExtraction
  import opened ExcelParser

  /** A page of the drawing set: its number and its extracted text. */
  datatype Page = Page(pageNum: int, text: string)

  /** A quote found on a page. */
  datatype EvidenceItem = EvidenceItem(page: int, quote: string)

  /** A page together with its score. */
  datatype ScoredPage = ScoredPage(score: nat, page: Page)

  /** How many characters a quote reaches on either side of its keyword. */
  const SnippetWindow: nat := 60

  // ----- Page scoring -----

  /** How often a keyword occurs in `text`; an empty keyword is not counted. */
  function CountOf(text: string, kw: string): nat {
    if kw == [] then 0 else CountOccurrences(text, kw)
  }

  /** The counts of the keywords added up, keyword by keyword. */
  function KeywordCounts(text: string, keywords: seq<string>): nat {
    if keywords == [] then 0
    else KeywordCounts(text, keywords[..|keywords| - 1]) + CountOf(text, keywords[|keywords| - 1])
  }

  /** The score of a page: 0 for an empty text or no keywords, otherwise the added counts. */
  function PageScore(text: string, keywords: seq<string>): nat {
    if text == [] || keywords == [] then 0 else KeywordCounts(text, keywords)
  }

  method ScorePage(text: string, keywords: seq<string>) returns (score: nat)
    ensures score == PageScore(text, keywords)
  {
    if text == [] || keywords == [] {
      return 0;
    }
    score := 0;
    for i := 0 to |keywords|
      invariant score == KeywordCounts(text, keywords[..i])
    {
      assert keywords[..i + 1][..i] == keywords[..i];
      if keywords[i] != [] {
        score := score + CountOccurrences(text, keywords[i]);
      }
    }
    assert keywords[..|keywords|] == keywords;
  }

  /** A page scores exactly when one of the non-empty keywords occurs in its text. */
  lemma {:induction false} ScorePositiveIffContains(text: string, keywords: seq<string>)
    ensures PageScore(text, keywords) > 0
        <==> exists k :: 0 <= k < |keywords| && keywords[k] != [] && Contains(text, keywords[k])
  {
    if text == [] {
      forall k | 0 <= k < |keywords| && keywords[k] != [] ensures !Contains(text, keywords[k]) {
      }
    } else {
      CountsPositiveIffContains(text, keywords);
    }
  }

  lemma {:induction false} CountsPositiveIffContains(text: string, keywords: seq<string>)
    ensures KeywordCounts(text, keywords) > 0
        <==> exists k :: 0 <= k < |keywords| && keywords[k] != [] && Contains(text, keywords[k])
    decreases |keywords|
  {
    if keywords != [] {
      var init, last := keywords[..|keywords| - 1], keywords[|keywords| - 1];
      CountsPositiveIffContains(text, init);
      if last != [] {
        CountPositiveIffContains(text, last);
      }
      if exists k :: 0 <= k < |keywords| && keywords[k] != [] && Contains(text, keywords[k]) {
        var k :| 0 <= k < |keywords| && keywords[k] != [] && Contains(text, keywords[k]);
        if k < |init| {
          assert init[k] == keywords[k];
        }
      }
      if exists k :: 0 <= k < |init| && init[k] != [] && Contains(text, init[k]) {
        var k :| 0 <= k < |init| && init[k] != [] && Contains(text, init[k]);
        assert keywords[k] == init[k];
      }
    }
  }

  /** Occurrences of one keyword never overlap, so the score is at most the text's length per keyword. */
  lemma {:induction false} ScoreBound(text: string, keywords: seq<string>)
    ensures PageScore(text, keywords) <= |keywords| * |text|
  {
    if text != [] && keywords != [] {
      CountsBound(text, keywords);
    }
  }

  lemma {:induction false} CountsBound(text: string, keywords: seq<string>)
    ensures KeywordCounts(text, keywords) <= |keywords| * |text|
    decreases |keywords|
  {
    if keywords != [] {
      var n, last := |keywords|, keywords[|keywords| - 1];
      CountsBound(text, keywords[..n - 1]);
      CountOfBound(text, last);
      assert (n - 1) * |text| + |text| == n * |text|;
    }
  }

  lemma CountOfBound(text: string, kw: string)
    ensures CountOf(text, kw) <= |text|
  {
    if kw != [] {
      CountFits(text, kw);
      var c := CountOccurrences(text, kw);
      assert c <= c * |kw|;
    }
  }

  // ----- Snippets -----

  /**
   * The text around the first occurrence of `keyword`, reaching `window` characters to
   * either side, with newlines turned into spaces and the ends stripped; nothing for an
   * empty keyword or one that does not occur.
   */
  function ExtractSnippet(text: string, keyword: string, window: nat): Option<string> {
    if keyword == [] then None
    else
      var idx := Find(text, keyword);
      if idx < 0 then None
      else
        var start, end := Max(0, idx - window), Min(|text|, idx + |keyword| + window);
        Some(Strip(ReplaceNewlines(text[start..end])))
  }

  /** A snippet is found exactly for a non-empty keyword that occurs in the text. */
  lemma SnippetFound(text: string, keyword: string, window: nat)
    ensures ExtractSnippet(text, keyword, window).None? <==> keyword == [] || !Contains(text, keyword)
  {
    FindFirst(text, keyword);
  }

  /**
   * A snippet is no longer than the keyword with a window on each side, holds no
   * newline, and contains the keyword when that neither holds a newline nor begins or
   * ends with whitespace.
   */
  lemma SnippetShape(text: string, keyword: string, window: nat)
    requires ExtractSnippet(text, keyword, window).Some?
    ensures |ExtractSnippet(text, keyword, window).value| <= |keyword| + 2 * window
    ensures '\n' !in ExtractSnippet(text, keyword, window).value
    ensures '\n' !in keyword && !IsSpace(keyword[0]) && !IsSpace(keyword[|keyword| - 1])
            ==> Contains(ExtractSnippet(text, keyword, window).value, keyword)
  {
    var idx := Find(text, keyword);
    var start, end := Max(0, idx - window), Min(|text|, idx + |keyword| + window);
    var replaced := ReplaceNewlines(text[start..end]);
    StripWithin(replaced);
    if '\n' !in keyword && !IsSpace(keyword[0]) && !IsSpace(keyword[|keyword| - 1]) {
      SnippetHasKeyword(text, keyword, window);
    }
  }

  /** The stripped text is a slice of the text, so it holds no character the text does not. */
  lemma StripWithin(s: string)
    ensures forall c :: c in Strip(s) ==> c in s
  {
    StripTrims(s);
    var a, r := StripStart(s), Strip(s);
    forall c | c in r ensures c in s {
      var k :| 0 <= k < |r| && r[k] == c;
      assert r[k] == s[a + k];
    }
  }

  lemma SnippetHasKeyword(text: string, keyword: string, window: nat)
    requires ExtractSnippet(text, keyword, window).Some?
    requires '\n' !in keyword && !IsSpace(keyword[0]) && !IsSpace(keyword[|keyword| - 1])
    ensures Contains(ExtractSnippet(text, keyword, window).value, keyword)
  {
    var idx := Find(text, keyword);
    var start, end := Max(0, idx - window), Min(|text|, idx + |keyword| + window);
    var k := WindowKeeps(text, keyword, idx, start, end);
  }

  /** A keyword occurrence inside the window survives the newline replacement and the strip. */
  lemma WindowKeeps(text: string, keyword: string, idx: int, start: int, end: int) returns (k: int)
    requires 0 <= start <= idx && idx + |keyword| <= end <= |text|
    requires Occurs(text, keyword, idx) && keyword != []
    requires '\n' !in keyword && !IsSpace(keyword[0]) && !IsSpace(keyword[|keyword| - 1])
    ensures Occurs(Strip(ReplaceNewlines(text[start..end])), keyword, k)
  {
    var slice := text[start..end];
    OccursInWindow(text, start, end, keyword, idx);
    ReplaceNewlinesKeeps(slice, keyword, idx - start);
    StripKeeps(ReplaceNewlines(slice), keyword, idx - start);
    k := idx - start - StripStart(ReplaceNewlines(slice));
  }

  // ----- Ranking -----

  /** The pages that score, in page order, each with its score. */
  function ScoredPages(pages: seq<Page>, keywords: seq<string>): seq<ScoredPage> {
    if pages == [] then []
    else
      var page := pages[|pages| - 1];
      var score := PageScore(page.text, keywords);
      ScoredPages(pages[..|pages| - 1], keywords) + (if score > 0 then [ScoredPage(score, page)] else [])
  }

  /** A scored page carries its page's score, which is positive, and its page is one of `pages`. */
  lemma {:induction false} ScoredPagesScore(pages: seq<Page>, keywords: seq<string>)
    ensures forall k :: 0 <= k < |ScoredPages(pages, keywords)| ==>
              var sp := ScoredPages(pages, keywords)[k];
              sp.score > 0 && sp.score == PageScore(sp.page.text, keywords) && sp.page in pages
    decreases |pages|
  {
    if pages != [] {
      ScoredPagesScore(pages[..|pages| - 1], keywords);
    }
  }

  /** `x` placed after every element scoring at least as much. */
  function InsertByScore(x: ScoredPage, s: seq<ScoredPage>): seq<ScoredPage> {
    if s == [] then [x]
    else if s[0].score >= x.score then [s[0]] + InsertByScore(x, s[1..])
    else [x] + s
  }

  /** Python's stable `sort(key=score, reverse=True)`, as an insertion sort. */
  function SortByScore(xs: seq<ScoredPage>): seq<ScoredPage> {
    if xs == [] then []
    else InsertByScore(xs[|xs| - 1], SortByScore(xs[..|xs| - 1]))
  }

  predicate SortedByScore(s: seq<ScoredPage>) {
    forall i, j :: 0 <= i < j < |s| ==> s[i].score >= s[j].score
  }

  /** The elements of `s` that score `v`, in order. */
  function WithScore(s: seq<ScoredPage>, v: nat): seq<ScoredPage> {
    if s == [] then [] else (if s[0].score == v then [s[0]] else []) + WithScore(s[1..], v)
  }

  lemma {:induction false} InsertSorted(x: ScoredPage, s: seq<ScoredPage>)
    requires SortedByScore(s)
    ensures SortedByScore(InsertByScore(x, s))
    ensures multiset(InsertByScore(x, s)) == multiset(s) + multiset{x}
    decreases |s|
  {
    InsertPerm(x, s);
    if s != [] && s[0].score >= x.score {
      var tail := s[1..];
      SortedTail(s);
      InsertSorted(x, tail);
      var r := InsertByScore(x, tail);
      forall k | 0 <= k < |r| ensures r[k].score <= s[0].score {
        assert r[k] in multiset(r);
        if r[k] != x {
          assert r[k] in multiset(tail);
          var j :| 0 <= j < |tail| && tail[j] == r[k];
          assert s[j + 1] == r[k];
        }
      }
      HeadSorted(s[0], r);
    } else if s != [] {
      HeadSorted(x, s);
    }
  }

  lemma {:induction false} InsertPerm(x: ScoredPage, s: seq<ScoredPage>)
    ensures multiset(InsertByScore(x, s)) == multiset(s) + multiset{x}
    decreases |s|
  {
    if s != [] && s[0].score >= x.score {
      InsertPerm(x, s[1..]);
      assert s == [s[0]] + s[1..];
    }
  }

  /** A head scoring at least as much as every element of a sorted list keeps it sorted. */
  lemma HeadSorted(a: ScoredPage, r: seq<ScoredPage>)
    requires SortedByScore(r) && forall k :: 0 <= k < |r| ==> r[k].score <= a.score
    ensures SortedByScore([a] + r)
  {
    var t := [a] + r;
    forall i, j | 0 <= i < j < |t| ensures t[i].score >= t[j].score {
      assert t[j] == r[j - 1];
      if i > 0 {
        assert t[i] == r[i - 1];
      }
    }
  }

  lemma {:induction false} InsertWithScore(x: ScoredPage, s: seq<ScoredPage>, v: nat)
    requires SortedByScore(s)
    ensures WithScore(InsertByScore(x, s), v) == WithScore(s, v) + (if x.score == v then [x] else [])
    decreases |s|
  {
    if s != [] && s[0].score >= x.score {
      SortedTail(s);
      InsertWithScore(x, s[1..], v);
      WithScoreBehind(x, s, v);
    } else {
      WithScoreAhead(x, s, v);
    }
  }

  /** Inserting behind the head: the head's contribution comes first on both sides. */
  lemma WithScoreBehind(x: ScoredPage, s: seq<ScoredPage>, v: nat)
    requires s != [] && s[0].score >= x.score
    requires WithScore(InsertByScore(x, s[1..]), v) == WithScore(s[1..], v) + (if x.score == v then [x] else [])
    ensures WithScore(InsertByScore(x, s), v) == WithScore(s, v) + (if x.score == v then [x] else [])
  {
    var tail := if x.score == v then [x] else [];
    var head := if s[0].score == v then [s[0]] else [];
    assert InsertByScore(x, s) == [s[0]] + InsertByScore(x, s[1..]);
    WithScoreCons(s[0], InsertByScore(x, s[1..]), v);
    WithScoreCons(s[0], s[1..], v);
    assert [s[0]] + s[1..] == s;
    assert head + (WithScore(s[1..], v) + tail) == (head + WithScore(s[1..], v)) + tail;
  }

  /** Inserting at the front of a sorted list whose elements all score less than `x`. */
  lemma WithScoreAhead(x: ScoredPage, s: seq<ScoredPage>, v: nat)
    requires SortedByScore(s) && (s == [] || s[0].score < x.score)
    ensures WithScore(InsertByScore(x, s), v) == WithScore(s, v) + (if x.score == v then [x] else [])
  {
    var tail := if x.score == v then [x] else [];
    assert InsertByScore(x, s) == [x] + s;
    WithScoreCons(x, s, v);
    if x.score == v && s != [] {
      assert forall k :: 0 <= k < |s| ==> s[k].score <= s[0].score < v;
      WithScoreNone(s, v);
    }
    if s == [] {
      assert WithScore(s, v) == [];
    }
    assert tail + WithScore(s, v) == WithScore(s, v) + tail;
  }

  lemma SortedTail(s: seq<ScoredPage>)
    requires SortedByScore(s) && s != []
    ensures SortedByScore(s[1..])
  {
    var tail := s[1..];
    forall i, j | 0 <= i < j < |tail| ensures tail[i].score >= tail[j].score {
      assert tail[i] == s[i + 1] && tail[j] == s[j + 1];
    }
  }

  lemma WithScoreCons(a: ScoredPage, r: seq<ScoredPage>, v: nat)
    ensures WithScore([a] + r, v) == (if a.score == v then [a] else []) + WithScore(r, v)
  {
    assert ([a] + r)[0] == a && ([a] + r)[1..] == r;
  }

  lemma {:induction false} WithScoreNone(s: seq<ScoredPage>, v: nat)
    requires forall k :: 0 <= k < |s| ==> s[k].score != v
    ensures WithScore(s, v) == []
    decreases |s|
  {
    if s != [] {
      WithScoreNone(s[1..], v);
    }
  }

  lemma {:induction false} WithScoreAppend(a: seq<ScoredPage>, b: seq<ScoredPage>, v: nat)
    ensures WithScore(a + b, v) == WithScore(a, v) + WithScore(b, v)
    decreases |a|
  {
    if a == [] {
      assert a + b == b;
    } else {
      assert (a + b)[1..] == a[1..] + b;
      WithScoreAppend(a[1..], b, v);
      var head := if a[0].score == v then [a[0]] else [];
      assert head + (WithScore(a[1..], v) + WithScore(b, v)) == (head + WithScore(a[1..], v)) + WithScore(b, v);
    }
  }

  /**
   * The sort orders by score, highest first, and is stable: for every score, the pages
   * with that score come out in the order they went in. It is a permutation.
   */
  lemma {:induction false} SortByScoreIsStable(xs: seq<ScoredPage>)
    ensures SortedByScore(SortByScore(xs))
    ensures forall v :: WithScore(SortByScore(xs), v) == WithScore(xs, v)
    ensures multiset(SortByScore(xs)) == multiset(xs)
    decreases |xs|
  {
    if xs != [] {
      var init, last := xs[..|xs| - 1], xs[|xs| - 1];
      SortByScoreIsStable(init);
      InsertSorted(last, SortByScore(init));
      assert xs == init + [last];
      forall v ensures WithScore(SortByScore(xs), v) == WithScore(xs, v) {
        InsertWithScore(last, SortByScore(init), v);
        WithScoreAppend(init, [last], v);
        assert WithScore([last], v) == (if last.score == v then [last] else []) + WithScore([], v);
      }
    }
  }

  // ----- Collecting evidence -----

  /** Python's `s[:k]`: a negative `k` drops `-k` elements from the end. */
  function PyPrefix<T>(s: seq<T>, k: int): seq<T> {
    if k >= 0 then s[..Min(k, |s|)] else s[..Max(|s| + k, 0)]
  }

  /** The number of items after which the search returns: at least one. */
  function Cap(maxItems: int): nat {
    Max(maxItems, 1)
  }

  /** The item a keyword yields on a page: its snippet, when there is a non-empty one. */
  function HitOf(page: Page, kw: string): seq<EvidenceItem> {
    var snippet := ExtractSnippet(page.text, kw, SnippetWindow);
    if snippet.Some? && snippet.value != [] then [EvidenceItem(page.pageNum, snippet.value)] else []
  }

  /** The items of one page, keyword by keyword. */
  function PageHits(page: Page, keywords: seq<string>): seq<EvidenceItem> {
    if keywords == [] then []
    else PageHits(page, keywords[..|keywords| - 1]) + HitOf(page, keywords[|keywords| - 1])
  }

  /** The items of the ranked pages, page by page, with no cap. */
  function Hits(top: seq<ScoredPage>, keywords: seq<string>): seq<EvidenceItem> {
    if top == [] then []
    else Hits(top[..|top| - 1], keywords) + PageHits(top[|top| - 1].page, keywords)
  }

  /** The text a rule's keywords are drawn from: its requirement and its standard. */
  function RuleText(rule: AuditRule): string {
    rule.requirement + " " + rule.standard
  }

  /** The pages searched: the scoring pages ranked by score, the first `2 * maxItems` of them. */
  function Considered(pages: seq<Page>, keywords: seq<string>, maxItems: int): seq<ScoredPage> {
    PyPrefix(SortByScore(ScoredPages(pages, keywords)), maxItems * 2)
  }

  /** The evidence for a rule: the items of the searched pages, cut at `Cap(maxItems)`. */
  function EvidenceFor(pages: seq<Page>, rule: AuditRule, maxItems: int): seq<EvidenceItem> {
    var keywords := Keywords(RuleText(rule), DefaultLimit);
    var hits := Hits(Considered(pages, keywords, maxItems), keywords);
    hits[..Min(|hits|, Cap(maxItems))]
  }

  /**
   * The search for a rule: its keywords, the scoring pages ranked by score, and the
   * quotes of the first `2 * maxItems` of them, stopping once `maxItems` are found.
   */
  method FindEvidence(pages: seq<Page>, rule: AuditRule, maxItems: int) returns (evidence: seq<EvidenceItem>)
    ensures evidence == EvidenceFor(pages, rule, maxItems)
  {
    var keywords := ExtractKeywords(RuleText(rule), DefaultLimit);
    var scoredPages := RankPages(pages, keywords);
    evidence := CollectHits(PyPrefix(scoredPages, maxItems * 2), keywords, maxItems);
  }

  /** The quotes of the ranked pages, page by page and keyword by keyword, up to `Cap(maxItems)`. */
  method CollectHits(top: seq<ScoredPage>, keywords: seq<string>, maxItems: int)
    returns (evidence: seq<EvidenceItem>)
    ensures var hits := Hits(top, keywords); evidence == hits[..Min(|hits|, Cap(maxItems))]
  {
    evidence := [];
    for p := 0 to |top|
      invariant evidence == Hits(top[..p], keywords)
      invariant |evidence| < Cap(maxItems)
    {
      var page := top[p].page;
      assert top[..p + 1][..p] == top[..p];
      for q := 0 to |keywords|
        invariant evidence == Hits(top[..p], keywords) + PageHits(page, keywords[..q])
        invariant |evidence| < Cap(maxItems)
      {
        HitStep(Hits(top[..p], keywords), page, keywords, q);
        var snippet := ExtractSnippet(page.text, keywords[q], SnippetWindow);
        if snippet.Some? && snippet.value != [] {
          evidence := evidence + [EvidenceItem(page.pageNum, snippet.value)];
          if |evidence| >= maxItems {
            CapReached(top, keywords, p, q + 1, evidence, maxItems);
            return evidence;
          }
        }
      }
      assert keywords[..|keywords|] == keywords;
    }
    AllPagesSearched(top, keywords, evidence, maxItems);
  }

  /** Stopping once the cap is reached, the items gathered are the first `Cap(maxItems)` hits. */
  lemma CapReached(top: seq<ScoredPage>, keywords: seq<string>, p: nat, q: nat,
                   evidence: seq<EvidenceItem>, maxItems: int)
    requires p < |top| && q <= |keywords|
    requires evidence == Hits(top[..p], keywords) + PageHits(top[p].page, keywords[..q])
    requires |evidence| == Cap(maxItems)
    ensures var hits := Hits(top, keywords); evidence == hits[..Min(|hits|, Cap(maxItems))]
  {
    HitsPrefix(top, keywords, p, q);
  }

  /** Having searched every page below the cap, the items gathered are all the hits. */
  lemma AllPagesSearched(top: seq<ScoredPage>, keywords: seq<string>, evidence: seq<EvidenceItem>, maxItems: int)
    requires evidence == Hits(top[..|top|], keywords) && |evidence| < Cap(maxItems)
    ensures var hits := Hits(top, keywords); evidence == hits[..Min(|hits|, Cap(maxItems))]
  {
    assert top[..|top|] == top;
  }

  /** The pages that score, each with its score, ranked by score with ties in page order. */
  method RankPages(pages: seq<Page>, keywords: seq<string>) returns (scoredPages: seq<ScoredPage>)
    ensures scoredPages == SortByScore(ScoredPages(pages, keywords))
  {
    scoredPages := [];
    for i := 0 to |pages|
      invariant scoredPages == ScoredPages(pages[..i], keywords)
    {
      assert pages[..i + 1][..i] == pages[..i];
      var score := ScorePage(pages[i].text, keywords);
      if score > 0 {
        scoredPages := scoredPages + [ScoredPage(score, pages[i])];
      }
    }
    assert pages[..|pages|] == pages;
    scoredPages := SortByScore(scoredPages);
  }

  /** One more keyword searched on `page`, after the items `before` of the earlier pages. */
  lemma HitStep(before: seq<EvidenceItem>, page: Page, keywords: seq<string>, q: nat)
    requires q < |keywords|
    ensures before + PageHits(page, keywords[..q + 1])
         == (before + PageHits(page, keywords[..q])) + HitOf(page, keywords[q])
  {
    assert keywords[..q + 1][..q] == keywords[..q];
    var a, b := PageHits(page, keywords[..q]), HitOf(page, keywords[q]);
    assert before + (a + b) == (before + a) + b;
  }

  lemma HitsPrefix(top: seq<ScoredPage>, keywords: seq<string>, p: nat, q: nat)
    requires p < |top| && q <= |keywords|
    ensures IsItemPrefix(Hits(top[..p], keywords) + PageHits(top[p].page, keywords[..q]), Hits(top, keywords))
  {
    var before := Hits(top[..p], keywords);
    PageHitsPrefix(top[p].page, keywords, q);
    PrefixAppend(before, PageHits(top[p].page, keywords[..q]), PageHits(top[p].page, keywords));
    assert top[..p + 1][..p] == top[..p];
    assert Hits(top[..p + 1], keywords) == before + PageHits(top[p].page, keywords);
    HitsGrow(top, keywords, p + 1);
    PrefixTrans(before + PageHits(top[p].page, keywords[..q]), Hits(top[..p + 1], keywords), Hits(top, keywords));
  }

  lemma PrefixAppend(a: seq<EvidenceItem>, b: seq<EvidenceItem>, c: seq<EvidenceItem>)
    requires IsItemPrefix(b, c)
    ensures IsItemPrefix(a + b, a + c)
  {
    assert (a + c)[..|a + b|] == a + c[..|b|];
  }

  predicate IsItemPrefix(a: seq<EvidenceItem>, b: seq<EvidenceItem>) {
    |a| <= |b| && a == b[..|a|]
  }

  lemma {:induction false} PageHitsPrefix(page: Page, keywords: seq<string>, q: nat)
    requires q <= |keywords|
    ensures IsItemPrefix(PageHits(page, keywords[..q]), PageHits(page, keywords))
    decreases |keywords| - q
  {
    if q < |keywords| {
      PageHitsPrefix(page, keywords, q + 1);
      assert keywords[..q + 1][..q] == keywords[..q];
      var a, b := PageHits(page, keywords[..q]), PageHits(page, keywords[..q + 1]);
      assert b == a + HitOf(page, keywords[q]);
      PrefixTrans(a, b, PageHits(page, keywords));
    } else {
      assert keywords[..q] == keywords;
    }
  }

  lemma PrefixTrans(a: seq<EvidenceItem>, b: seq<EvidenceItem>, c: seq<EvidenceItem>)
    requires IsItemPrefix(a, b) && IsItemPrefix(b, c)
    ensures IsItemPrefix(a, c)
  {
    assert c[..|a|] == c[..|b|][..|a|];
  }

  lemma {:induction false} HitsGrow(top: seq<ScoredPage>, keywords: seq<string>, p: nat)
    requires p <= |top|
    ensures IsItemPrefix(Hits(top[..p], keywords), Hits(top, keywords))
    decreases |top| - p
  {
    if p < |top| {
      HitsGrow(top, keywords, p + 1);
      assert top[..p + 1][..p] == top[..p];
      var a, b := Hits(top[..p], keywords), Hits(top[..p + 1], keywords);
      assert b == a + PageHits(top[p].page, keywords);
      assert b[..|a|] == a;
      PrefixTrans(a, b, Hits(top, keywords));
    } else {
      assert top[..p] == top;
    }
  }

  // ----- What the evidence is -----

  /** `item` is the non-empty quote that keyword `kw` yields on `page`. */
  predicate QuoteOf(page: Page, kw: string, item: EvidenceItem) {
    item.page == page.pageNum && item.quote != []
    && ExtractSnippet(page.text, kw, SnippetWindow) == Some(item.quote)
  }

  lemma {:induction false} PageHitsFrom(page: Page, keywords: seq<string>)
    ensures forall e :: e in PageHits(page, keywords) ==> exists kw :: kw in keywords && QuoteOf(page, kw, e)
    decreases |keywords|
  {
    if keywords != [] {
      var init, last := keywords[..|keywords| - 1], keywords[|keywords| - 1];
      PageHitsFrom(page, init);
      forall e | e in PageHits(page, keywords) ensures exists kw :: kw in keywords && QuoteOf(page, kw, e) {
        if e in PageHits(page, init) {
          var kw :| kw in init && QuoteOf(page, kw, e);
          var i :| 0 <= i < |init| && init[i] == kw;
          assert keywords[i] == kw;
        } else {
          assert QuoteOf(page, last, e);
        }
      }
    }
  }

  /** Every item is the quote of one of the keywords on one of the searched pages. */
  lemma {:induction false} HitsFrom(top: seq<ScoredPage>, keywords: seq<string>)
    ensures forall e :: e in Hits(top, keywords) ==>
              exists sp, kw :: sp in top && kw in keywords && QuoteOf(sp.page, kw, e)
    decreases |top|
  {
    if top != [] {
      var init, last := top[..|top| - 1], top[|top| - 1];
      HitsFrom(init, keywords);
      PageHitsFrom(last.page, keywords);
      forall e | e in Hits(top, keywords)
        ensures exists sp, kw :: sp in top && kw in keywords && QuoteOf(sp.page, kw, e)
      {
        if e in Hits(init, keywords) {
          var sp, kw :| sp in init && kw in keywords && QuoteOf(sp.page, kw, e);
          var i :| 0 <= i < |init| && init[i] == sp;
          assert top[i] == sp;
        } else {
          var kw :| kw in keywords && QuoteOf(last.page, kw, e);
          assert last in top;
        }
      }
    }
  }

  /** A page that scores is among the scored pages, with its score. */
  lemma {:induction false} ScoredPagesHas(pages: seq<Page>, keywords: seq<string>, page: Page)
    requires page in pages && PageScore(page.text, keywords) > 0
    ensures ScoredPage(PageScore(page.text, keywords), page) in ScoredPages(pages, keywords)
    decreases |pages|
  {
    var init := pages[..|pages| - 1];
    if page != pages[|pages| - 1] {
      var i :| 0 <= i < |pages| && pages[i] == page;
      assert init[i] == page;
      ScoredPagesHas(init, keywords, page);
    }
  }

  /** A searched page is one of the input pages, scores, and carries its own score. */
  lemma ConsideredScore(pages: seq<Page>, keywords: seq<string>, maxItems: int, sp: ScoredPage)
    requires sp in Considered(pages, keywords, maxItems)
    ensures sp.page in pages && sp.score > 0 && sp.score == PageScore(sp.page.text, keywords)
  {
    var sorted := SortByScore(ScoredPages(pages, keywords));
    SortByScoreIsStable(ScoredPages(pages, keywords));
    assert sp in sorted;
    assert sp in multiset(ScoredPages(pages, keywords));
    ScoredPagesScore(pages, keywords);
  }

  /**
   * The evidence holds at most `Cap(maxItems)` items; each is a non-empty quote without
   * newlines, no longer than a keyword with its two windows, taken from an input page
   * on which that keyword of the rule occurs, and it contains the keyword.
   */
  lemma EvidenceFrom(pages: seq<Page>, rule: AuditRule, maxItems: int)
    ensures |EvidenceFor(pages, rule, maxItems)| <= Cap(maxItems)
    ensures forall e :: e in EvidenceFor(pages, rule, maxItems) ==>
              e.quote != [] && '\n' !in e.quote &&
              exists page, kw :: page in pages && kw in Keywords(RuleText(rule), DefaultLimit)
                && page.pageNum == e.page && Contains(page.text, kw) && Contains(e.quote, kw)
                && |e.quote| <= |kw| + 2 * SnippetWindow
  {
    var keywords := Keywords(RuleText(rule), DefaultLimit);
    var top := Considered(pages, keywords, maxItems);
    var hits := Hits(top, keywords);
    HitsFrom(top, keywords);
    KeywordsShape(RuleText(rule), DefaultLimit);
    forall e | e in EvidenceFor(pages, rule, maxItems)
      ensures e.quote != [] && '\n' !in e.quote &&
              exists page, kw :: page in pages && kw in keywords
                && page.pageNum == e.page && Contains(page.text, kw) && Contains(e.quote, kw)
                && |e.quote| <= |kw| + 2 * SnippetWindow
    {
      assert e in hits;
      var sp, kw :| sp in top && kw in keywords && QuoteOf(sp.page, kw, e);
      ConsideredScore(pages, keywords, maxItems, sp);
      SnippetFound(sp.page.text, kw, SnippetWindow);
      SnippetShape(sp.page.text, kw, SnippetWindow);
      assert IsSpace('\n');
    }
  }

  /**
   * Asked for at least one item, the search finds evidence exactly when one of the
   * rule's keywords occurs on one of the pages.
   */
  lemma EvidenceExists(pages: seq<Page>, rule: AuditRule, maxItems: int)
    requires maxItems >= 1
    ensures EvidenceFor(pages, rule, maxItems) != []
        <==> exists page, kw :: page in pages && kw in Keywords(RuleText(rule), DefaultLimit) && Contains(page.text, kw)
  {
    var keywords := Keywords(RuleText(rule), DefaultLimit);
    EvidenceFrom(pages, rule, maxItems);
    if EvidenceFor(pages, rule, maxItems) != [] {
      assert EvidenceFor(pages, rule, maxItems)[0] in EvidenceFor(pages, rule, maxItems);
    }
    if exists page, kw :: page in pages && kw in keywords && Contains(page.text, kw) {
      var page, kw :| page in pages && kw in keywords && Contains(page.text, kw);
      KeywordsShape(RuleText(rule), DefaultLimit);
      var k :| 0 <= k < |keywords| && keywords[k] == kw;
      ScorePositiveIffContains(page.text, keywords);
      ScoredPagesHas(pages, keywords, page);
      SortByScoreIsStable(ScoredPages(pages, keywords));
      var sorted := SortByScore(ScoredPages(pages, keywords));
      assert ScoredPage(PageScore(page.text, keywords), page) in multiset(sorted);
      var top := Considered(pages, keywords, maxItems);
      assert top[0] in top;
      ConsideredScore(pages, keywords, maxItems, top[0]);
      FirstPageHits(top, keywords);
    }
  }

  /** The first searched page, when some keyword occurs on it, yields an item. */
  lemma FirstPageHits(top: seq<ScoredPage>, keywords: seq<string>)
    requires top != [] && PageScore(top[0].page.text, keywords) > 0
    requires forall kw :: kw in keywords ==> kw != [] && forall i :: 0 <= i < |kw| ==> !IsSpace(kw[i])
    ensures Hits(top, keywords) != []
  {
    var page := top[0].page;
    ScorePositiveIffContains(page.text, keywords);
    var k :| 0 <= k < |keywords| && keywords[k] != [] && Contains(page.text, keywords[k]);
    assert keywords[k] in keywords;
    KeywordHit(page, keywords[k]);
    PageHitsHas(page, keywords, k);
    HitsGrow(top, keywords, 1);
    assert top[..1][..0] == [];
    assert Hits(top[..1], keywords) == Hits([], keywords) + PageHits(page, keywords);
  }

  /** A keyword without whitespace that occurs on a page yields an item there. */
  lemma KeywordHit(page: Page, kw: string)
    requires kw != [] && (forall i :: 0 <= i < |kw| ==> !IsSpace(kw[i])) && Contains(page.text, kw)
    ensures HitOf(page, kw) != []
  {
    SnippetFound(page.text, kw, SnippetWindow);
    assert IsSpace('\n');
    SnippetShape(page.text, kw, SnippetWindow);
  }

  lemma PageHitsHas(page: Page, keywords: seq<string>, k: nat)
    requires k < |keywords| && HitOf(page, keywords[k]) != []
    ensures PageHits(page, keywords) != []
  {
    PageHitsPrefix(page, keywords, k + 1);
    assert keywords[..k + 1][..k] == keywords[..k];
    assert PageHits(page, keywords[..k + 1]) == PageHits(page, keywords[..k]) + HitOf(page, keywords[k]);
  }
}
