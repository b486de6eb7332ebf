# MR drawing-audit core, modelled in Dafny

This project models the core of the MR site-installation drawing auditor. The auditor
reads a checklist of rules from a spreadsheet. Each rule has a category, a
sub-category, a requirement and an acceptance standard. For every rule it searches the
text of the drawing's pages for evidence, then asks a language model for a verdict of
PASS, FAIL or UNKNOWN.

The model covers two source files:

- `mr_audit/excel_parser.py` is modelled in `excel_parser.dfy` (module `ExcelParser`):
  - `AuditRule`;
  - the header alias table;
  - `_normalize_header`;
  - `_find_header_row`;
  - the row folding of `load_rules_from_excel`. It runs on the rows once they are in memory.
- `mr_audit/audit_engine.py` is modelled across four files:
  - `keywords.dfy` (module `KeywordExtraction`): `_extract_keywords`.
  - `evidence.dfy` (module `Evidence`): `EvidenceItem`, `_score_page`, `_extract_snippet`, the stable sort by score, and `find_evidence`.
  - `json.dfy` (module `Json`): the `json.dumps` escaping that `_build_prompt` uses.
  - `audit.dfy` (module `Audit`): `AuditResult`, `_build_prompt`, the reading of the model's reply, and `audit_rules`.

`text.dfy` (module `Text`) models the pieces of Python's string and regular-expression
library these files call:

- `str.strip`, `str.find`, `str.count`, `str.upper` and `str.replace("\n", " ")`;
- the CJK `re.findall`;
- `re.split(r"\W+")`.

`wrappers.dfy` holds `Option` and `Result`.

The source's loops are methods. Each is proved equal to a specification function:

- `ExtractKeywords` against `Keywords`;
- `ScorePage` against `PageScore`;
- `RankPages` and `CollectHits`, and with them `FindEvidence`, against `EvidenceFor`;
- `FindHeaderRow` against `HeaderRow`;
- `LoadRules` against `RulesOf`;
- `AuditRules` against `AuditAll` and `Requests`.

Lemmas then prove the properties that the code promises about those
functions.

Two behaviours of the code differ from what a reader might expect:

- **Keyword limit.** A parameter called `limit` reads as a cap on the number of
  keywords. In the code, a CJK run of six characters or fewer is appended without a
  limit check (`audit_engine.py:42-45`). So the list can pass the limit by one keyword
  per short run. `KeywordsLimit` proves the bound the code actually keeps:
  `Max(limit, 1) + ShortRuns(...)`. `KeywordsStopFirst` proves where the extraction
  stops: at the first checked step whose count reaches the limit.
- **Confidence range.** The prompt asks the model for a confidence between 0 and 1
  (`audit_engine.py:117`). The code converts whatever the model returns and never
  clamps it, and neither does the model.

Both effects outside the engine are parameters:

- The language-model call is an `Oracle` function of the system prompt, the user
  prompt and the model name. It returns either a reply or the message of the error the
  call raised.
- The calls made are returned as a list of `Request`s beside the results.

## Model

| member | source | states |
|---|---|---|
| Text.StripTrims | mr_audit/excel_parser.py:25-28 | `str.strip()` returns the slice of its input between a leading and a trailing run of whitespace; the result neither starts nor ends with whitespace |
| Text.Find | mr_audit/audit_engine.py:81 | `str.find` returns -1 or an index at which the keyword occurs |
| Text.FindFirst | mr_audit/audit_engine.py:81-83 | `str.find` returns -1 exactly when the keyword does not occur; otherwise no occurrence starts before the index it returns |
| Text.CountPositiveIffContains | mr_audit/audit_engine.py:73-74 | `text.count(kw)` is positive exactly when `kw` occurs in `text` |
| Text.CountFits | mr_audit/audit_engine.py:74 | occurrences are counted without overlap: count times keyword length is at most the text length |
| Text.ReplaceNewlines | mr_audit/audit_engine.py:86 | replacing line breaks keeps the length, turns every line break into a space, leaves no line break and keeps every other character in place |
| Text.ReplaceNewlinesKeeps | mr_audit/audit_engine.py:86 | an occurrence of a pattern without line breaks survives the replacement at the same index |
| Text.StripKeeps | mr_audit/audit_engine.py:86 | stripping keeps an occurrence of a pattern that does not start or end with whitespace, shifted by the stripped prefix |
| Text.OccursInWindow | mr_audit/audit_engine.py:84-86 | an occurrence inside `[start, end)` is an occurrence in `text[start:end]` |
| Text.CjkRunsCover | mr_audit/audit_engine.py:41 | the CJK runs, joined, are exactly the CJK characters of the text in order |
| Text.CjkRunsAreCjk | mr_audit/audit_engine.py:41 | every CJK run is non-empty and holds only CJK characters |
| Text.SplitNonWordCovers | mr_audit/audit_engine.py:57 | the pieces of `re.split(r"\W+")`, joined, are exactly the word characters of the text in order |
| Text.SplitNonWordAreWords | mr_audit/audit_engine.py:57 | the split yields at least one piece, and every piece holds only word characters |
| Text.CjkRunsMaximal | mr_audit/audit_engine.py:41 | every CJK run occurs in the text with the text's edge or a non-CJK character on both sides |
| Text.SplitNonWordGaps | mr_audit/audit_engine.py:57 | the split has one more piece than it has cuts, and every cut is a non-empty run of non-word characters |
| Text.SplitNonWordJoins | mr_audit/audit_engine.py:57 | the pieces with the cuts put back between them give the text again |
| Text.SplitNonWordInnerPieces | mr_audit/audit_engine.py:57 | only the first and the last piece of the split can be empty |
| Json.EscapeCharRoundTrip | mr_audit/audit_engine.py:120 | reading back one character's JSON escape gives the character and continues with the rest |
| Json.ControlRoundTrip | mr_audit/audit_engine.py:120 | a control character written as a `\u00xx` escape reads back as itself |
| Json.EscapeRoundTrip | mr_audit/audit_engine.py:120 | decoding the body of a JSON string literal written by `json.dumps(..., ensure_ascii=False)` gives back exactly the quote text |
| Json.DigitsRoundTrip | mr_audit/audit_engine.py:120 | the decimal digits of a natural number are non-empty digits that read back as the number |
| Json.IntTextRoundTrip | mr_audit/audit_engine.py:120 | a page number written in JSON reads back as the same integer, negative numbers included |
| KeywordExtraction.ExtractKeywords | mr_audit/audit_engine.py:33-65 | the loops with their `seen` set return exactly `Keywords(text, limit)`, the ordered steps folded with first-seen deduplication and the early stops; the empty text gives no keywords |
| KeywordExtraction.AddRun | mr_audit/audit_engine.py:42-54 | one CJK run: a short run is added whole with no limit check; a long run goes through its n-grams, and `stopped` reports the early return; `seen` keeps mirroring the list |
| KeywordExtraction.AddGrams | mr_audit/audit_engine.py:48-54 | the grams of one size at even offsets, each followed by the limit check, equal the fold of those steps |
| KeywordExtraction.AddNew | mr_audit/audit_engine.py:43-45 | a token is appended, and added to `seen`, exactly when it is not already there |
| KeywordExtraction.FoldCons | mr_audit/audit_engine.py:41-63 | while not stopped, the fold advances over its first step and continues with the rest |
| KeywordExtraction.FoldAppend | mr_audit/audit_engine.py:41-63 | folding two step lists one after the other is folding their concatenation, so the CJK phase hands its state to the token phase |
| KeywordExtraction.KeywordsDistinct | mr_audit/audit_engine.py:43-61 | no keyword is returned twice |
| KeywordExtraction.FoldDistinct | mr_audit/audit_engine.py:43-61 | the fold keeps the keyword list free of duplicates |
| KeywordExtraction.KeywordsAreCandidates | mr_audit/audit_engine.py:41-61 | every keyword is a whole short CJK run, an even-offset 2-, 3- or 4-gram of a long run, or a stripped split piece of at least three characters |
| KeywordExtraction.FoldProposes | mr_audit/audit_engine.py:41-61 | a keyword after the fold was already there or was proposed by one of the steps |
| KeywordExtraction.StepsPropose | mr_audit/audit_engine.py:41-61 | every keyword a step proposes comes from a CJK run or a split piece of the text |
| KeywordExtraction.CjkStepsPropose | mr_audit/audit_engine.py:41-54 | every step of the CJK phase proposes a keyword taken from one of the runs |
| KeywordExtraction.RunStepsPropose | mr_audit/audit_engine.py:42-54 | a run proposes itself when short, and its grams when long |
| KeywordExtraction.GramStepsPropose | mr_audit/audit_engine.py:47-52 | every gram step proposes a 2-, 3- or 4-gram of the run at an even offset |
| KeywordExtraction.NGramAt | mr_audit/audit_engine.py:48-49 | the k-th gram of one size starts at offset `from + 2k` and fits in the run |
| KeywordExtraction.TokenStepsAt | mr_audit/audit_engine.py:57-63 | there is one step per split piece, proposing its stripped text when that is at least 3 characters, followed by the limit check |
| KeywordExtraction.CandidateShape | mr_audit/audit_engine.py:42-59 | a proposed keyword is non-empty and has no whitespace; it is either at most six CJK characters or at least three word characters |
| KeywordExtraction.RunCandidateShape | mr_audit/audit_engine.py:42-49 | a keyword taken from a CJK run is at most six CJK characters |
| KeywordExtraction.TokenCandidateShape | mr_audit/audit_engine.py:57-59 | a token keyword is at least three word characters |
| KeywordExtraction.KeywordsShape | mr_audit/audit_engine.py:41-61 | every returned keyword is non-empty, has no whitespace, and is short CJK or a word token of length ≥ 3 |
| KeywordExtraction.AdmitAllExtends | mr_audit/audit_engine.py:43-61 | admitting keywords only appends to the list |
| KeywordExtraction.FoldIsPrefix | mr_audit/audit_engine.py:53-54 | the limited extraction is a prefix of the unlimited one, and differs from it only when it stopped at the limit |
| KeywordExtraction.FoldBound | mr_audit/audit_engine.py:42-45 | the list never outgrows the limit by more than the steps that skip the limit check |
| KeywordExtraction.UncheckedRuns | mr_audit/audit_engine.py:42-45 | the only steps without a limit check are the short CJK runs |
| KeywordExtraction.UncheckedGrams | mr_audit/audit_engine.py:53-54 | every gram step is followed by a limit check |
| KeywordExtraction.UncheckedTokens | mr_audit/audit_engine.py:62-63 | every token step is followed by a limit check |
| KeywordExtraction.KeywordsLimit | mr_audit/audit_engine.py:53-63 | the keywords are a prefix of all keywords the text proposes; either they are all of them or the limit was reached; there are at most `Max(limit, 1)` plus the number of short CJK runs |
| KeywordExtraction.FoldStopsFirst | mr_audit/audit_engine.py:53-63 | the extraction stops at the first checked step whose keyword count reaches the limit, with the keywords admitted up to that step; if no checked step reaches it, every step is applied |
| KeywordExtraction.KeywordsStopFirst | mr_audit/audit_engine.py:33-63 | the keywords of a non-empty text are those admitted up to the first checked step reaching the limit, or all keywords the text proposes when no step reaches it |
| ExcelParser.NormalizeHeaderTrims | mr_audit/excel_parser.py:25-28 | an empty cell reads as ""; a non-empty cell reads as its text with surrounding whitespace removed, so the result has no whitespace at either end |
| ExcelParser.FirstMatch | mr_audit/excel_parser.py:34-38 | a matched column lies inside the row |
| ExcelParser.FirstMatchIsLeftmost | mr_audit/excel_parser.py:34-38 | the column kept for a key names it, and no column to its left does; there is none only when no column names the key |
| ExcelParser.FirstMatchSnoc | mr_audit/excel_parser.py:34-38 | one more column changes a key's match only when the key had none yet and the column names it |
| ExcelParser.HeaderColumns | mr_audit/excel_parser.py:33-38 | the column map built cell by cell maps each key to its leftmost matching column, and holds no key that no cell names |
| ExcelParser.FirstHeader | mr_audit/excel_parser.py:31-41 | the search reports no row exactly when no row names the category, sub-category and requirement columns; otherwise it reports the first such row |
| ExcelParser.HeaderRow | mr_audit/excel_parser.py:32-40 | a found header's 1-based row number is within the sheet |
| ExcelParser.FindHeaderRow | mr_audit/excel_parser.py:31-41 | the scan over the rows returns `HeaderRow(rows)`: the first header row, its 1-based number, and its leftmost columns |
| ExcelParser.FoldRows | mr_audit/excel_parser.py:62-89 | at most one rule per row; every rule has a non-empty requirement; without a standard column every standard is "" |
| ExcelParser.FoldRowsAt | mr_audit/excel_parser.py:65-89 | a blank row is skipped; any other row first updates the carried category, then yields its rule if it has a requirement |
| ExcelParser.RulesOfOutcomes | mr_audit/excel_parser.py:52-94 | loading fails with "no header row" exactly when no row is a header; it fails with "no rules" exactly when no row below the header yields a rule; otherwise the rules are non-empty, each has a requirement, and without a standard column every standard is "" |
| ExcelParser.LoadRules | mr_audit/excel_parser.py:52-94 | the loop over the rows below the header returns `RulesOf(rows)`: the rules, or the error raised |
| ExcelParser.LastMajorCons | mr_audit/excel_parser.py:74-77 | the category carried past a row is the last non-blank category at or above it |
| ExcelParser.FoldRowsSnoc | mr_audit/excel_parser.py:62-89 | folding one more row adds that row's rule, under the last non-blank category above it |
| ExcelParser.FoldRowsIsRulesByRow | mr_audit/excel_parser.py:62-89 | the fold equals an independent row-by-row reading: each row with a requirement yields one rule under the last non-blank category at or above it |
| Evidence.ScorePage | mr_audit/audit_engine.py:68-75 | the loop's score is `PageScore`: 0 for an empty text or no keywords, otherwise the added counts of the non-empty keywords |
| Evidence.ScorePositiveIffContains | mr_audit/audit_engine.py:68-75 | a page scores above 0 exactly when some non-empty keyword occurs in its text |
| Evidence.CountsPositiveIffContains | mr_audit/audit_engine.py:71-75 | the added counts are positive exactly when some non-empty keyword occurs |
| Evidence.ScoreBound | mr_audit/audit_engine.py:68-75 | a page's score is at most the number of keywords times the length of its text |
| Evidence.CountsBound | mr_audit/audit_engine.py:71-75 | the added counts are at most the number of keywords times the text length |
| Evidence.CountOfBound | mr_audit/audit_engine.py:73-74 | one keyword's count is at most the text length |
| Evidence.SnippetFound | mr_audit/audit_engine.py:78-83 | there is no snippet exactly when the keyword is empty or does not occur in the text |
| Evidence.SnippetShape | mr_audit/audit_engine.py:84-87 | a snippet is at most the keyword's length plus twice the window, and holds no line break; when the keyword has no line break and no whitespace at either end, the snippet contains it |
| Evidence.StripWithin | mr_audit/audit_engine.py:86 | stripping adds no character |
| Evidence.SnippetHasKeyword | mr_audit/audit_engine.py:84-87 | the snippet contains its keyword, for a keyword with no line break and no whitespace at either end |
| Evidence.WindowKeeps | mr_audit/audit_engine.py:84-86 | an occurrence of the keyword in the window survives the line-break replacement and the strip |
| Evidence.ScoredPagesScore | mr_audit/audit_engine.py:92-96 | each kept page has a positive score, which is its own `PageScore`, and is one of the input pages |
| Evidence.InsertSorted | mr_audit/audit_engine.py:98 | inserting into a list sorted by descending score keeps it sorted and adds exactly that element |
| Evidence.InsertPerm | mr_audit/audit_engine.py:98 | insertion adds exactly the inserted element to the multiset |
| Evidence.InsertWithScore | mr_audit/audit_engine.py:98 | insertion places an element after every element of equal score |
| Evidence.WithScoreBehind | mr_audit/audit_engine.py:98 | inserting behind the head keeps equal-score elements in order |
| Evidence.WithScoreAhead | mr_audit/audit_engine.py:98 | inserting in front of lower scores keeps equal-score elements in order |
| Evidence.WithScoreCons | mr_audit/audit_engine.py:98 | the elements of a given score in a list with a head are the head, if it has that score, followed by those of the tail |
| Evidence.WithScoreNone | mr_audit/audit_engine.py:98 | a list with no element of a given score has none to keep |
| Evidence.WithScoreAppend | mr_audit/audit_engine.py:98 | the elements of one score in a concatenation are those of each part, in order |
| Evidence.SortByScoreIsStable | mr_audit/audit_engine.py:98 | the sort orders by descending score, is a permutation, and keeps pages of equal score in their original order (stable) |
| Evidence.RankPages | mr_audit/audit_engine.py:92-98 | the loop keeps the pages with a positive score, in page order, each with its score, and then sorts them by `SortByScore` |
| Evidence.FindEvidence | mr_audit/audit_engine.py:90-108 | the search returns `EvidenceFor`: the non-empty snippets of the first `2 * max_items` ranked pages, keyword by keyword, cut at `Max(max_items, 1)` items |
| Evidence.CollectHits | mr_audit/audit_engine.py:100-108 | the nested loop with its early return yields the first `Max(max_items, 1)` items of all the hits, page by page and keyword by keyword |
| Evidence.CapReached | mr_audit/audit_engine.py:106-107 | returning early at the cap gives exactly the first `Max(max_items, 1)` hits |
| Evidence.AllPagesSearched | mr_audit/audit_engine.py:108 | finishing all pages under the cap gives all the hits |
| Evidence.HitStep | mr_audit/audit_engine.py:102-105 | searching one more keyword on a page appends that keyword's hit |
| Evidence.HitsPrefix | mr_audit/audit_engine.py:100-107 | the items gathered at any point of the loop are a prefix of all the hits |
| Evidence.PageHitsPrefix | mr_audit/audit_engine.py:102-105 | a page's hits for the first `q` keywords are a prefix of its hits for all keywords |
| Evidence.HitsGrow | mr_audit/audit_engine.py:101-105 | the hits of the first `p` pages are a prefix of the hits of all pages |
| Evidence.PageHitsFrom | mr_audit/audit_engine.py:102-105 | every item of a page is the non-empty snippet of one of the keywords on that page |
| Evidence.HitsFrom | mr_audit/audit_engine.py:101-105 | every hit is the non-empty snippet of a keyword on one of the searched pages |
| Evidence.ScoredPagesHas | mr_audit/audit_engine.py:93-96 | a page with a positive score is kept with its score |
| Evidence.ConsideredScore | mr_audit/audit_engine.py:92-101 | a searched page is an input page with a positive score |
| Evidence.EvidenceFrom | mr_audit/audit_engine.py:90-108 | there are at most `Max(max_items, 1)` items; each quote is non-empty and has no line break; each comes from an input page with the item's page number, and is near one of the rule's keywords that occurs on that page: the quote contains the keyword and is at most the keyword's length plus 120 characters |
| Evidence.EvidenceExists | mr_audit/audit_engine.py:90-108 | for `max_items ≥ 1`, the evidence is non-empty exactly when one of the rule's keywords occurs on some page |
| Evidence.FirstPageHits | mr_audit/audit_engine.py:101-105 | the top-ranked page, having a positive score, yields at least one item when the keywords have no whitespace |
| Evidence.KeywordHit | mr_audit/audit_engine.py:103-105 | a keyword without whitespace that occurs on a page yields an item |
| Evidence.PageHitsHas | mr_audit/audit_engine.py:102-105 | one keyword's hit makes the page's hits non-empty |
| Audit.ItemsJsonHas | mr_audit/audit_engine.py:112-120 | the serialised evidence list contains each item's JSON object |
| Audit.EvidenceJsonHas | mr_audit/audit_engine.py:120 | the serialised evidence contains each item's quote as a JSON string literal |
| Audit.PromptTail | mr_audit/audit_engine.py:119-120 | text found in the standard-and-evidence tail of the prompt is found in the prompt |
| Audit.PromptCarries | mr_audit/audit_engine.py:111-121 | the prompt contains the requirement, the standard and every quote as a JSON string; the quote text reads back unchanged from it |
| Audit.NormalizeVerdict | mr_audit/audit_engine.py:168-170 | the verdict is always PASS, FAIL or UNKNOWN: the upper-cased reply when that is one of them, UNKNOWN otherwise |
| Audit.UpperFixes | mr_audit/audit_engine.py:168 | upper-casing leaves a text of characters without a case mapping unchanged |
| Audit.NormalizeIdempotent | mr_audit/audit_engine.py:168-170 | normalising a normalised verdict changes nothing |
| Audit.ReadEntriesOutcome | mr_audit/audit_engine.py:173-179 | reading the reply's evidence list fails exactly when an object's page number does not convert, with the first such error; otherwise there is one item per object, in order, with page 0 and quote "" for missing fields |
| Audit.ReadEntriesEmpty | mr_audit/audit_engine.py:175-179 | a successful read is empty exactly when the list holds no object |
| Audit.ObjectsEmpty | mr_audit/audit_engine.py:175-178 | a list has no objects exactly when none of its elements is one |
| Audit.JudgeOutcomes | mr_audit/audit_engine.py:165-183 | the verdict is always PASS, FAIL or UNKNOWN. A failed call gives UNKNOWN, confidence 0, the failure prefix plus the call's error, and the found evidence; an unconvertible confidence does the same with the conversion's error, and so does an unconvertible page, with the error of the first such page in the list. Otherwise the verdict is the upper-cased `result` (UNKNOWN when absent or not a verdict), the confidence is the converted value or 0, and the reason is `reason` or empty. A reply list holding an object replaces the found evidence by exactly its objects' items in order; anything else keeps the found evidence, and found evidence never becomes empty |
| Audit.FoundFor | mr_audit/audit_engine.py:135-136 | the evidence is searched once per rule |
| Audit.AuditRules | mr_audit/audit_engine.py:124-197 | the audit with the source's prompt writer returns one result per rule, `AuditAll` over the found evidence, and sends exactly the calls `Requests` lists |
| Audit.AuditRulesWith | mr_audit/audit_engine.py:132-197 | the loop over the rules equals `AuditAll` and `Requests` over `FoundFor`, for any prompt writer |
| Audit.AuditFound | mr_audit/audit_engine.py:137-195 | one rule's branch and its try/except equal `AuditOne`; a call is made only when there is evidence and the model is not skipped |
| Audit.AuditStep | mr_audit/audit_engine.py:135-195 | one more rule appends its result and its call, if any |
| Audit.AuditDone | mr_audit/audit_engine.py:197 | after the last rule, the results are those of all rules |
| Audit.AuditAllAt | mr_audit/audit_engine.py:135-197 | there is one result per rule, in order, and the i-th result is that rule's audit |
| Audit.AuditOutcomes | mr_audit/audit_engine.py:135-195 | each result copies its rule's category, sub-category and requirement and has a verdict. No evidence gives UNKNOWN, an empty list, the no-evidence reason and confidence 0. Skipping the model gives UNKNOWN, the found evidence, the skip reason and confidence 0. A result's evidence is empty exactly when none was found, and then the verdict is UNKNOWN |
| Audit.RequestsOutcome | mr_audit/audit_engine.py:151-167 | at most one call is made per rule, with the fixed system prompt and the given model. No call is made exactly when the model is skipped or no rule has evidence. Each call's prompt is written for a rule with evidence |
| Audit.PromptsCarryRules | mr_audit/audit_engine.py:165-167 | every prompt sent is written for a rule with evidence and contains that rule's requirement, its standard and each of its quotes |
| Audit.NoEvidenceIffNoKeyword | mr_audit/audit_engine.py:136-149 | for `max_evidence ≥ 1`, a rule's result has no evidence exactly when none of its keywords occurs on any page |

## Left out

- Reading the workbook with `openpyxl` (`excel_parser.py:45-50`) is not modelled. `LoadRules` starts from the rows as lists of optional cell texts. A non-text cell value is taken as its `str()` text.
- The two `ValueError`s of `load_rules_from_excel` are modelled as the `LoadError` values `NoHeaderRow` and `NoRules`. Their message texts are not.
- `_find_header_row` returns a dictionary with a `"row"` entry. The model returns a `HeaderInfo` record with the same fields, and `standard` is optional.
- `call_qwen_json` is the `Oracle` parameter. It is a function, so in the model identical prompts always get identical replies; retries, timeouts and any state behind the call are not modelled. Its reply is given as the fields' `str()`/`float()`/`int()` conversions: the value, nothing, or the conversion's error message. The JSON parsing and the number conversions themselves are not modelled.
- `confidence` is a `real`. Python's floating point is not modelled.
- `AuditRulesWith`: takes the prompt writer as a parameter, which keeps the proofs small. `AuditRules` passes `BuildPrompt`, the model of `_build_prompt`, as the source does.
- `EvidenceExists` and `NoEvidenceIffNoKeyword`: stated only for `max_items ≥ 1`. With 0 no page is searched. With a negative value Python's slice drops pages from the end of the ranking. `FindEvidence` itself handles every value.
- `str.upper` maps the ASCII letters, `ß`, `ı` and `ſ` and leaves every other character as it is. Only these characters can turn a reply into PASS, FAIL or UNKNOWN. Other case mappings (other scripts, accented letters) are left out.
- `\w` is modelled as these ranges: ASCII letters, digits and `_`; CJK ideographs and extension A; kana; hangul; full-width letters and digits. It is not Python's full Unicode `\w`.
- `str.isspace` is modelled by its fixed list of Unicode whitespace characters.
- `list.sort` is modelled by a stable insertion sort on values (`SortByScore`). Proofs establish its order, permutation and stability, but it does not sort in place.
- The keyword limit's default of 18 and the window's default of 60 are fixed constants, and the window is a natural number.
- `json.dumps` is modelled for the values the prompt holds: lists of objects with an integer page and a string quote, written with Python's separators and with `ensure_ascii=False`.
