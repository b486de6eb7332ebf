/**
 * Keyword extraction from a rule's text. Maximal CJK runs of at most six characters
 * are kept whole; longer runs are cut into 2-, 3- and 4-grams at even offsets, size by
 * size; then the pieces of the text between runs of non-word characters are added when
 * they are at least three characters long. Keywords are kept once, in the order they
 * are first met, and the extraction stops once the list reaches the limit at a point
 * where it is checked.
 *
 * The extraction is read as a list of steps (`Steps`), each proposing at most one
 * keyword and saying whether the limit is checked after it, applied in order by `Fold`.
 */
module KeywordExtraction {
  import opened Wrappers
  import opened Text

  /** The limit used when a rule's evidence is searched. */
  const DefaultLimit: int := 18

  /** The longest CJK run kept whole. */
  const ShortRun: nat := 6

  /** One step of the extraction: the keyword it proposes, if any, and whether the limit is checked after it. */
  datatype Step = Step(candidate: Option<string>, checked: bool)

  /** The `size`-grams of `run` starting at offsets `from`, `from + 2`, `from + 4`, ... */
  function NGramSteps(run: string, size: nat, from: nat): seq<Step>
    requires 2 <= size
    decreases |run| - from
  {
    if from + size > |run| then []
    else [Step(Some(run[from..from + size]), true)] + NGramSteps(run, size, from + 2)
  }

  /** The n-grams of a long run for the sizes `size` to 4, size by size. */
  function GramSteps(run: string, size: nat): seq<Step>
    requires 2 <= size
    decreases 5 - size
  {
    if size > 4 then [] else NGramSteps(run, size, 0) + GramSteps(run, size + 1)
  }

  /** A short run is one unchecked step; a long run is its n-grams, each checked. */
  function RunSteps(run: string): seq<Step> {
    if |run| <= ShortRun then [Step(Some(run), false)] else GramSteps(run, 2)
  }

  function CjkSteps(runs: seq<string>): seq<Step> {
    if runs == [] then [] else RunSteps(runs[0]) + CjkSteps(runs[1..])
  }

  /** A piece of the split proposes its stripped text when that has at least three characters. */
  function TokenCandidate(piece: string): Option<string> {
    var token := Strip(piece);
    if |token| >= 3 then Some(token) else None
  }

  function TokenSteps(pieces: seq<string>): seq<Step> {
    if pieces == [] then [] else [Step(TokenCandidate(pieces[0]), true)] + TokenSteps(pieces[1..])
  }

  /** All steps of the extraction from `text`: the CJK runs first, then the split pieces. */
  function Steps(text: string): seq<Step> {
    CjkSteps(CjkRuns(text)) + TokenSteps(SplitNonWord(text))
  }

  /** `kws` with `candidate` appended unless it is absent or already there. */
  function Admit(kws: seq<string>, candidate: Option<string>): seq<string> {
    if candidate.Some? && candidate.value !in kws then kws + [candidate.value] else kws
  }

  /** The keywords gathered so far, and whether the extraction has stopped. */
  datatype Progress = Progress(keywords: seq<string>, stopped: bool)

  /** One step: admit its keyword, and stop if the limit is checked and reached. */
  function Advance(p: Progress, s: Step, limit: int): Progress {
    var next := Admit(p.keywords, s.candidate);
    Progress(next, s.checked && |next| >= limit)
  }

  /** The steps applied in order, none once the extraction has stopped. */
  function Fold(steps: seq<Step>, limit: int, p: Progress): Progress {
    if p.stopped || steps == [] then p else Fold(steps[1..], limit, Advance(p, steps[0], limit))
  }

  /** The keywords of `text`: none for the empty text. */
  function Keywords(text: string, limit: int): seq<string> {
    if text == [] then [] else Fold(Steps(text), limit, Progress([], false)).keywords
  }

  /** The steps folded into `kws` with no limit at all. */
  function AdmitAll(steps: seq<Step>, kws: seq<string>): seq<string> {
    if steps == [] then kws else AdmitAll(steps[1..], Admit(kws, steps[0].candidate))
  }

  /** The number of steps after which the limit is not checked. */
  function Unchecked(steps: seq<Step>): nat {
    if steps == [] then 0 else (if steps[0].checked then 0 else 1) + Unchecked(steps[1..])
  }

  /** The number of runs short enough to be kept whole. */
  function ShortRuns(runs: seq<string>): nat {
    if runs == [] then 0 else (if |runs[0]| <= ShortRun then 1 else 0) + ShortRuns(runs[1..])
  }

  predicate Distinct(s: seq<string>) {
    forall i, j :: 0 <= i < j < |s| ==> s[i] != s[j]
  }

  predicate IsPrefix(a: seq<string>, b: seq<string>) {
    |a| <= |b| && a == b[..|a|]
  }

  /** Every keyword the text proposes, in order, each once: the extraction without a limit. */
  function AllKeywords(text: string): seq<string> {
    if text == [] then [] else AdmitAll(Steps(text), [])
  }

  /** The `size` characters of `run` from offset `i`. */
  function Gram(run: string, i: nat, size: nat): string
    requires i + size <= |run|
  {
    run[i..i + size]
  }

  /** `w` is a `size`-gram of `run` at an even offset, for a size from 2 to 4. */
  predicate IsGram(run: string, w: string) {
    exists i: nat, size: nat :: 2 <= size <= 4 && i % 2 == 0 && i + size <= |run| && w == Gram(run, i, size)
  }

  /** `w` comes from the CJK run `run`: the run itself when short, one of its n-grams when long. */
  predicate FromRun(run: string, w: string) {
    if |run| <= ShortRun then w == run else IsGram(run, w)
  }

  /** `w` is a keyword `text` proposes: from one of its CJK runs, or one of its split pieces. */
  ghost predicate IsCandidate(text: string, w: string) {
    || (exists j :: 0 <= j < |CjkRuns(text)| && FromRun(CjkRuns(text)[j], w))
    || (exists j :: 0 <= j < |SplitNonWord(text)| && TokenCandidate(SplitNonWord(text)[j]) == Some(w))
  }

  // ----- The extraction loops -----

  /**
   * The extraction as the loops run it, with a `seen` set beside the keyword list. The
   * run loop hands each run to `AddRun`, which reports whether the n-gram loop returned
   * early; the token loop stops once the limit is reached.
   */
  method ExtractKeywords(text: string, limit: int) returns (keywords: seq<string>)
    ensures keywords == Keywords(text, limit)
  {
    if text == [] {
      return [];
    }
    keywords := [];
    var seen: set<string> := {};
    var runs := CjkRuns(text);
    var pieces := SplitNonWord(text);
    ghost var tokens := TokenSteps(pieces);
    ghost var goal := Fold(Steps(text), limit, Progress([], false));
    assert runs[0..] == runs;
    for r := 0 to |runs|
      invariant forall w :: w in seen <==> w in keywords
      invariant goal == Fold(CjkSteps(runs[r..]) + tokens, limit, Progress(keywords, false))
    {
      ghost var before := Progress(keywords, false);
      CjkStepsAt(runs, r, tokens);
      FoldAppend(RunSteps(runs[r]), CjkSteps(runs[r + 1..]) + tokens, limit, before);
      var stopped;
      keywords, seen, stopped := AddRun(runs[r], limit, keywords, seen);
      if stopped {
        return keywords;
      }
    }
    assert CjkSteps(runs[|runs|..]) + tokens == tokens;
    assert pieces[0..] == pieces;
    for p := 0 to |pieces|
      invariant forall w :: w in seen <==> w in keywords
      invariant goal == Fold(TokenSteps(pieces[p..]), limit, Progress(keywords, false))
    {
      var token := Strip(pieces[p]);
      assert pieces[p..][0] == pieces[p] && pieces[p..][1..] == pieces[p + 1..];
      FoldCons(Step(TokenCandidate(pieces[p]), true), TokenSteps(pieces[p + 1..]), limit,
               Progress(keywords, false));
      if |token| >= 3 {
        keywords, seen := AddNew(keywords, seen, token);
      }
      if |keywords| >= limit {
        return keywords;
      }
    }
  }

  /**
   * One CJK run: a short run is added whole, without a limit check; a long run is cut
   * into its 2-, 3- and 4-grams, and `stopped` says the limit was reached among them.
   */
  method AddRun(run: string, limit: int, keywords: seq<string>, seen: set<string>)
    returns (keywords': seq<string>, seen': set<string>, stopped: bool)
    requires forall w :: w in seen <==> w in keywords
    ensures forall w :: w in seen' <==> w in keywords'
    ensures Progress(keywords', stopped) == Fold(RunSteps(run), limit, Progress(keywords, false))
  {
    if |run| <= ShortRun {
      FoldCons(Step(Some(run), false), [], limit, Progress(keywords, false));
      assert [Step(Some(run), false)] + [] == RunSteps(run);
      keywords', seen' := AddNew(keywords, seen, run);
      return keywords', seen', false;
    }
    keywords', seen' := keywords, seen;
    for size := 2 to 5
      invariant forall w :: w in seen' <==> w in keywords'
      invariant Fold(RunSteps(run), limit, Progress(keywords, false))
             == Fold(GramSteps(run, size), limit, Progress(keywords', false))
    {
      FoldAppend(NGramSteps(run, size, 0), GramSteps(run, size + 1), limit, Progress(keywords', false));
      keywords', seen', stopped := AddGrams(run, size, limit, keywords', seen');
      if stopped {
        return keywords', seen', true;
      }
    }
    return keywords', seen', false;
  }

  /** The `size`-grams of `run` at even offsets, stopping once the limit is reached. */
  method AddGrams(run: string, size: nat, limit: int, keywords: seq<string>, seen: set<string>)
    returns (keywords': seq<string>, seen': set<string>, stopped: bool)
    requires 2 <= size
    requires forall w :: w in seen <==> w in keywords
    ensures forall w :: w in seen' <==> w in keywords'
    ensures Progress(keywords', stopped) == Fold(NGramSteps(run, size, 0), limit, Progress(keywords, false))
  {
    keywords', seen' := keywords, seen;
    var i := 0;
    while i + size <= |run|
      invariant forall w :: w in seen' <==> w in keywords'
      invariant Fold(NGramSteps(run, size, 0), limit, Progress(keywords, false))
             == Fold(NGramSteps(run, size, i), limit, Progress(keywords', false))
      decreases |run| - i
    {
      var token := run[i..i + size];
      FoldCons(Step(Some(token), true), NGramSteps(run, size, i + 2), limit, Progress(keywords', false));
      keywords', seen' := AddNew(keywords', seen', token);
      if |keywords'| >= limit {
        return keywords', seen', true;
      }
      i := i + 2;
    }
    return keywords', seen', false;
  }

  /** Appends `token` to the keywords and to `seen` unless `seen` already holds it. */
  method AddNew(keywords: seq<string>, seen: set<string>, token: string)
    returns (keywords': seq<string>, seen': set<string>)
    requires forall w :: w in seen <==> w in keywords
    ensures keywords' == Admit(keywords, Some(token))
    ensures forall w :: w in seen' <==> w in keywords'
  {
    keywords', seen' := keywords, seen;
    if token !in seen {
      keywords' := keywords + [token];
      seen' := seen + {token};
    }
  }

  // ----- Unfolding helpers -----

  /** One step of the fold. */
  lemma FoldCons(s: Step, rest: seq<Step>, limit: int, p: Progress)
    requires !p.stopped
    ensures Fold([s] + rest, limit, p) == Fold(rest, limit, Advance(p, s, limit))
  {
    assert ([s] + rest)[0] == s;
    assert ([s] + rest)[1..] == rest;
  }

  /** Folding two lists of steps one after the other. */
  lemma {:induction false} FoldAppend(a: seq<Step>, b: seq<Step>, limit: int, p: Progress)
    ensures Fold(a + b, limit, p) == Fold(b, limit, Fold(a, limit, p))
    decreases |a|
  {
    if a == [] {
      assert a + b == b;
    } else if !p.stopped {
      assert (a + b)[0] == a[0];
      assert (a + b)[1..] == a[1..] + b;
      FoldAppend(a[1..], b, limit, Advance(p, a[0], limit));
    }
  }

  lemma CjkStepsAt(runs: seq<string>, r: nat, tokens: seq<Step>)
    requires r < |runs|
    ensures CjkSteps(runs[r..]) + tokens == RunSteps(runs[r]) + (CjkSteps(runs[r + 1..]) + tokens)
  {
    assert runs[r..][0] == runs[r];
    assert runs[r..][1..] == runs[r + 1..];
  }

  // ----- What the extraction yields -----

  /** The keyword list never holds the same keyword twice. */
  lemma KeywordsDistinct(text: string, limit: int)
    ensures Distinct(Keywords(text, limit))
  {
    if text != [] {
      FoldDistinct(Steps(text), limit, Progress([], false));
    }
  }

  lemma {:induction false} FoldDistinct(steps: seq<Step>, limit: int, p: Progress)
    requires Distinct(p.keywords)
    ensures Distinct(Fold(steps, limit, p).keywords)
    decreases |steps|
  {
    if !p.stopped && steps != [] {
      var q := Advance(p, steps[0], limit);
      assert Distinct(q.keywords);
      FoldDistinct(steps[1..], limit, q);
    }
  }

  /**
   * Every keyword is a short CJK run of the text, an even-offset 2-, 3- or 4-gram of a
   * longer CJK run, or a piece of the split whose stripped text has at least three
   * characters.
   */
  lemma KeywordsAreCandidates(text: string, limit: int)
    ensures forall w :: w in Keywords(text, limit) ==> IsCandidate(text, w)
  {
    if text != [] {
      var steps := Steps(text);
      StepsPropose(text);
      forall w | w in Keywords(text, limit) ensures IsCandidate(text, w) {
        FoldProposes(steps, limit, Progress([], false), w);
      }
    }
  }

  /** A keyword of the fold was there before or is proposed by one of the steps. */
  lemma {:induction false} FoldProposes(steps: seq<Step>, limit: int, p: Progress, w: string)
    requires w in Fold(steps, limit, p).keywords
    ensures w in p.keywords || exists k :: 0 <= k < |steps| && steps[k].candidate == Some(w)
    decreases |steps|
  {
    if !p.stopped && steps != [] {
      var q := Advance(p, steps[0], limit);
      FoldProposes(steps[1..], limit, q, w);
      if w !in p.keywords {
        if w in q.keywords {
          assert steps[0].candidate == Some(w);
        } else {
          var k :| 0 <= k < |steps[1..]| && steps[1..][k].candidate == Some(w);
          assert steps[k + 1].candidate == Some(w);
        }
      }
    }
  }

  /** Every keyword a step of the text proposes is a candidate of the text. */
  lemma StepsPropose(text: string)
    ensures forall k :: 0 <= k < |Steps(text)| && Steps(text)[k].candidate.Some?
              ==> IsCandidate(text, Steps(text)[k].candidate.value)
  {
    var runs, pieces := CjkRuns(text), SplitNonWord(text);
    CjkStepsPropose(runs);
    TokenStepsAt(pieces);
    var cjk: seq<Step>, tok: seq<Step> := CjkSteps(runs), TokenSteps(pieces);
    forall k | 0 <= k < |cjk + tok| && (cjk + tok)[k].candidate.Some?
      ensures IsCandidate(text, (cjk + tok)[k].candidate.value)
    {
      if k >= |cjk| {
        assert tok[k - |cjk|].candidate == TokenCandidate(pieces[k - |cjk|]);
      }
    }
  }

  lemma {:induction false} CjkStepsPropose(runs: seq<string>)
    ensures forall k :: 0 <= k < |CjkSteps(runs)| ==>
              && CjkSteps(runs)[k].candidate.Some?
              && exists j :: 0 <= j < |runs| && FromRun(runs[j], CjkSteps(runs)[k].candidate.value)
    decreases |runs|
  {
    if runs != [] {
      CjkStepsPropose(runs[1..]);
      RunStepsPropose(runs[0]);
      var head: seq<Step>, tail: seq<Step> := RunSteps(runs[0]), CjkSteps(runs[1..]);
      forall k | 0 <= k < |head + tail|
        ensures (head + tail)[k].candidate.Some?
        ensures exists j :: 0 <= j < |runs| && FromRun(runs[j], (head + tail)[k].candidate.value)
      {
        if k < |head| {
          assert FromRun(runs[0], head[k].candidate.value);
        } else {
          var j :| 0 <= j < |runs[1..]| && FromRun(runs[1..][j], tail[k - |head|].candidate.value);
          assert FromRun(runs[j + 1], (head + tail)[k].candidate.value);
        }
      }
    }
  }

  lemma RunStepsPropose(run: string)
    ensures forall k :: 0 <= k < |RunSteps(run)| ==>
              RunSteps(run)[k].candidate.Some? && FromRun(run, RunSteps(run)[k].candidate.value)
  {
    if |run| > ShortRun {
      GramStepsPropose(run, 2);
    }
  }

  lemma {:induction false} GramStepsPropose(run: string, size: nat)
    requires 2 <= size
    ensures forall k :: 0 <= k < |GramSteps(run, size)| ==>
              GramSteps(run, size)[k].candidate.Some? && IsGram(run, GramSteps(run, size)[k].candidate.value)
    decreases 5 - size
  {
    if size <= 4 {
      GramStepsPropose(run, size + 1);
      var grams: seq<Step>, rest: seq<Step> := NGramSteps(run, size, 0), GramSteps(run, size + 1);
      forall k | 0 <= k < |grams + rest|
        ensures (grams + rest)[k].candidate.Some? && IsGram(run, (grams + rest)[k].candidate.value)
      {
        if k < |grams| {
          NGramAt(run, size, 0, k);
          assert grams[k].candidate.value == Gram(run, 2 * k, size);
        } else {
          assert (grams + rest)[k] == rest[k - |grams|];
        }
      }
    }
  }

  /** The `k`-th n-gram step starts at offset `from + 2 * k`. */
  lemma {:induction false} NGramAt(run: string, size: nat, from: nat, k: nat)
    requires 2 <= size && k < |NGramSteps(run, size, from)|
    ensures from + 2 * k + size <= |run|
    ensures NGramSteps(run, size, from)[k] == Step(Some(run[from + 2 * k..from + 2 * k + size]), true)
    decreases |run| - from
  {
    if k > 0 {
      NGramAt(run, size, from + 2, k - 1);
    }
  }

  /** The `k`-th token step is the `k`-th piece's. */
  lemma {:induction false} TokenStepsAt(pieces: seq<string>)
    ensures |TokenSteps(pieces)| == |pieces|
    ensures forall k :: 0 <= k < |pieces| ==> TokenSteps(pieces)[k] == Step(TokenCandidate(pieces[k]), true)
    decreases |pieces|
  {
    if pieces != [] {
      TokenStepsAt(pieces[1..]);
    }
  }

  /**
   * A candidate is non-empty and holds no whitespace; it is either made of CJK
   * characters and at most six long, or made of word characters and at least three long.
   */
  lemma CandidateShape(text: string, w: string)
    requires IsCandidate(text, w)
    ensures w != []
    ensures forall i :: 0 <= i < |w| ==> !IsSpace(w[i])
    ensures (AllCjk(w) && |w| <= ShortRun) || (AllWord(w) && |w| >= 3)
  {
    if j :| 0 <= j < |CjkRuns(text)| && FromRun(CjkRuns(text)[j], w) {
      CjkRunsAreCjk(text);
      RunCandidateShape(CjkRuns(text)[j], w);
    } else {
      SplitNonWordAreWords(text);
      var j :| 0 <= j < |SplitNonWord(text)| && TokenCandidate(SplitNonWord(text)[j]) == Some(w);
      TokenCandidateShape(SplitNonWord(text)[j], w);
    }
  }

  lemma RunCandidateShape(run: string, w: string)
    requires run != [] && AllCjk(run) && FromRun(run, w)
    ensures w != [] && AllCjk(w) && |w| <= ShortRun
    ensures forall i :: 0 <= i < |w| ==> !IsSpace(w[i])
  {
    if |run| > ShortRun {
      var i: nat, size: nat :| 2 <= size <= 4 && i % 2 == 0 && i + size <= |run| && w == Gram(run, i, size);
      forall c | 0 <= c < |w| ensures IsCjk(w[c]) {
        assert w[c] == run[i + c];
      }
    }
  }

  lemma TokenCandidateShape(piece: string, w: string)
    requires AllWord(piece) && TokenCandidate(piece) == Some(w)
    ensures w != [] && AllWord(w) && |w| >= 3
    ensures forall i :: 0 <= i < |w| ==> !IsSpace(w[i])
  {
    StripTrims(piece);
    forall c | 0 <= c < |w| ensures IsWordChar(w[c]) {
      assert w[c] == piece[StripStart(piece) + c];
    }
  }

  /** Every keyword has the shape of a candidate. */
  lemma KeywordsShape(text: string, limit: int)
    ensures forall w :: w in Keywords(text, limit) ==>
              && w != []
              && (forall i :: 0 <= i < |w| ==> !IsSpace(w[i]))
              && ((AllCjk(w) && |w| <= ShortRun) || (AllWord(w) && |w| >= 3))
  {
    KeywordsAreCandidates(text, limit);
    forall w | w in Keywords(text, limit)
      ensures w != [] && (forall i :: 0 <= i < |w| ==> !IsSpace(w[i]))
      ensures (AllCjk(w) && |w| <= ShortRun) || (AllWord(w) && |w| >= 3)
    {
      CandidateShape(text, w);
    }
  }

  // ----- The limit -----

  lemma {:induction false} AdmitAllExtends(steps: seq<Step>, kws: seq<string>)
    ensures IsPrefix(kws, AdmitAll(steps, kws))
    decreases |steps|
  {
    if steps != [] {
      var next := Admit(kws, steps[0].candidate);
      AdmitAllExtends(steps[1..], next);
      assert IsPrefix(kws, next);
    }
  }

  /**
   * The fold yields a prefix of what the steps would yield with no limit: all of it,
   * unless it stopped with at least `limit` keywords.
   */
  lemma {:induction false} FoldIsPrefix(steps: seq<Step>, limit: int, p: Progress)
    requires !p.stopped
    ensures var q := Fold(steps, limit, p);
      && IsPrefix(q.keywords, AdmitAll(steps, p.keywords))
      && (q.keywords == AdmitAll(steps, p.keywords) || (q.stopped && |q.keywords| >= limit))
    decreases |steps|
  {
    if steps != [] {
      var q := Advance(p, steps[0], limit);
      if q.stopped {
        AdmitAllExtends(steps[1..], q.keywords);
      } else {
        FoldIsPrefix(steps[1..], limit, q);
      }
    }
  }

  /**
   * Each checked step adds at most one keyword before the limit is tested, so only the
   * unchecked steps can carry the list past the limit.
   */
  lemma {:induction false} FoldBound(steps: seq<Step>, limit: int, p: Progress)
    requires !p.stopped
    ensures |Fold(steps, limit, p).keywords| <= Max(limit, |p.keywords| + 1) + Unchecked(steps)
    decreases |steps|
  {
    if steps != [] {
      var q := Advance(p, steps[0], limit);
      if !q.stopped {
        FoldBound(steps[1..], limit, q);
      }
    }
  }

  lemma {:induction false} UncheckedAppend(a: seq<Step>, b: seq<Step>)
    ensures Unchecked(a + b) == Unchecked(a) + Unchecked(b)
    decreases |a|
  {
    if a == [] {
      assert a + b == b;
    } else {
      assert (a + b)[1..] == a[1..] + b;
      UncheckedAppend(a[1..], b);
    }
  }

  lemma {:induction false} UncheckedNGrams(run: string, size: nat, from: nat)
    requires 2 <= size
    ensures Unchecked(NGramSteps(run, size, from)) == 0
    decreases |run| - from
  {
    if from + size <= |run| {
      UncheckedNGrams(run, size, from + 2);
      UncheckedAppend([Step(Some(run[from..from + size]), true)], NGramSteps(run, size, from + 2));
    }
  }

  lemma {:induction false} UncheckedGrams(run: string, size: nat)
    requires 2 <= size
    ensures Unchecked(GramSteps(run, size)) == 0
    decreases 5 - size
  {
    if size <= 4 {
      UncheckedGrams(run, size + 1);
      UncheckedNGrams(run, size, 0);
      UncheckedAppend(NGramSteps(run, size, 0), GramSteps(run, size + 1));
    }
  }

  lemma {:induction false} UncheckedRuns(runs: seq<string>)
    ensures Unchecked(CjkSteps(runs)) == ShortRuns(runs)
    decreases |runs|
  {
    if runs != [] {
      UncheckedRuns(runs[1..]);
      UncheckedAppend(RunSteps(runs[0]), CjkSteps(runs[1..]));
      if |runs[0]| > ShortRun {
        UncheckedGrams(runs[0], 2);
      }
    }
  }

  lemma {:induction false} UncheckedTokens(pieces: seq<string>)
    ensures Unchecked(TokenSteps(pieces)) == 0
    decreases |pieces|
  {
    if pieces != [] {
      UncheckedTokens(pieces[1..]);
      UncheckedAppend([Step(TokenCandidate(pieces[0]), true)], TokenSteps(pieces[1..]));
    }
  }

  /**
   * The keywords are a prefix of all the keywords the text proposes: all of them, or at
   * least `limit`. Short CJK runs are added without a limit check, so the list can pass
   * the limit, but by no more than the number of short runs.
   */
  lemma KeywordsLimit(text: string, limit: int)
    ensures IsPrefix(Keywords(text, limit), AllKeywords(text))
    ensures Keywords(text, limit) == AllKeywords(text) || |Keywords(text, limit)| >= limit
    ensures |Keywords(text, limit)| <= Max(limit, 1) + ShortRuns(CjkRuns(text))
  {
    if text != [] {
      var steps := Steps(text);
      FoldIsPrefix(steps, limit, Progress([], false));
      FoldBound(steps, limit, Progress([], false));
      UncheckedRuns(CjkRuns(text));
      UncheckedTokens(SplitNonWord(text));
      UncheckedAppend(CjkSteps(CjkRuns(text)), TokenSteps(SplitNonWord(text)));
    }
  }

  /** Step `k` is checked, and the keywords admitted up to and including it reach the limit. */
  predicate Reaches(steps: seq<Step>, limit: int, kws: seq<string>, k: int) {
    0 <= k < |steps| && steps[k].checked && |AdmitAll(steps[..k + 1], kws)| >= limit
  }

  /** Step `k` is the first step that reaches the limit. */
  predicate FirstReach(steps: seq<Step>, limit: int, kws: seq<string>, k: int) {
    Reaches(steps, limit, kws, k) && forall j :: 0 <= j < k ==> !Reaches(steps, limit, kws, j)
  }

  /**
   * The extraction stops at the first checked step whose keyword count reaches the limit,
   * with the keywords admitted up to that step; when no checked step reaches it, every
   * step is applied.
   */
  lemma {:induction false} FoldStopsFirst(steps: seq<Step>, limit: int, kws: seq<string>)
    ensures var r := Fold(steps, limit, Progress(kws, false));
      && (r.stopped ==> exists k :: FirstReach(steps, limit, kws, k) && r.keywords == AdmitAll(steps[..k + 1], kws))
      && (!r.stopped ==> r.keywords == AdmitAll(steps, kws) && forall k :: !Reaches(steps, limit, kws, k))
    decreases |steps|
  {
    if steps != [] {
      var next := Admit(kws, steps[0].candidate);
      assert AdmitAll(steps[..1], kws) == AdmitAll([], next) by {
        assert steps[..1][1..] == [];
      }
      var r := Fold(steps, limit, Progress(kws, false));
      if steps[0].checked && |next| >= limit {
        assert FirstReach(steps, limit, kws, 0);
        assert r == Fold(steps[1..], limit, Progress(next, true));
      } else {
        assert !Reaches(steps, limit, kws, 0);
        FoldStopsFirst(steps[1..], limit, next);
        assert r == Fold(steps[1..], limit, Progress(next, false));
        forall k | 0 <= k < |steps| - 1
          ensures Reaches(steps[1..], limit, next, k) <==> Reaches(steps, limit, kws, k + 1)
          ensures AdmitAll(steps[1..][..k + 1], next) == AdmitAll(steps[..k + 2], kws)
        {
          ReachesShift(steps, limit, kws, k);
        }
        if r.stopped {
          var k :| FirstReach(steps[1..], limit, next, k) && r.keywords == AdmitAll(steps[1..][..k + 1], next);
          forall j | 0 < j < k + 1 ensures !Reaches(steps, limit, kws, j) {
            assert !Reaches(steps[1..], limit, next, j - 1);
          }
          assert FirstReach(steps, limit, kws, k + 1);
        } else {
          forall k ensures !Reaches(steps, limit, kws, k) {
            if 0 < k < |steps| {
              assert !Reaches(steps[1..], limit, next, k - 1);
            }
          }
        }
      }
    }
  }

  /** Admitting the first `k + 2` steps is admitting the first step, then `k + 1` more. */
  lemma ReachesShift(steps: seq<Step>, limit: int, kws: seq<string>, k: nat)
    requires k + 1 < |steps|
    ensures AdmitAll(steps[1..][..k + 1], Admit(kws, steps[0].candidate)) == AdmitAll(steps[..k + 2], kws)
    ensures Reaches(steps[1..], limit, Admit(kws, steps[0].candidate), k) <==> Reaches(steps, limit, kws, k + 1)
  {
    assert steps[..k + 2][1..] == steps[1..][..k + 1];
  }

  /**
   * The keywords of a non-empty text are those admitted up to the first checked step that
   * reaches the limit, or all of them when none does.
   */
  lemma KeywordsStopFirst(text: string, limit: int)
    ensures text != [] ==>
      var steps := Steps(text);
      || (exists k :: FirstReach(steps, limit, [], k) && Keywords(text, limit) == AdmitAll(steps[..k + 1], []))
      || ((forall k :: !Reaches(steps, limit, [], k)) && Keywords(text, limit) == AllKeywords(text))
  {
    if text != [] {
      FoldStopsFirst(Steps(text), limit, []);
    }
  }
}
