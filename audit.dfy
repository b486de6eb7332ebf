/**
 * The audit of a checklist against a drawing set. For each rule the evidence search
 * runs, and then one of four outcomes follows: no evidence, evidence without a model
 * verdict, the verdict read from the model's reply, or a failed model call.
 */
module Audit {
  import opened Wrappers
  import opened Text
  import opened Json
  import opened KeywordExtraction
  import opened ExcelParser
  import opened Evidence

  /** The outcome of auditing one rule. */
  datatype AuditResult = AuditResult(
    major: string, minor: string, requirement: string,
    result: string, evidence: seq<EvidenceItem>, reason: string, confidence: real)

  /**
   * A field of the model's reply after conversion: absent, converted, or refused by the
   * conversion with the message of the error it raised.
   */
  datatype Field<T> = Missing | Value(value: T) | Invalid(error: string)

  /** An element of the reply's evidence list: an object with its fields, or anything else. */
  datatype Entry = NotAnObject | Object(page: Field<int>, quote: Option<string>)

  /** The reply's evidence field: a list, or something else (or nothing). */
  datatype EvidenceField = NotAList | EntryList(entries: seq<Entry>)

  /**
   * The JSON object the model replied with: `result`, `reason` and `quote` hold the
   * text of the values present, `confidence` and `page` their numeric conversions.
   */
  datatype Response = Response(result: Option<string>, confidence: Field<real>, reason: Option<string>, evidence: EvidenceField)

  /** A call to the model: its reply, or the message of the error it raised. */
  datatype Reply = Replied(response: Response) | CallFailed(error: string)

  /** The model, as a function of the system prompt, the user prompt and the model name. */
  type Oracle = (string, string, Option<string>) -> Reply

  /** How the user prompt is written from a rule and its evidence; `BuildPrompt` is the one the audit uses. */
  type Prompter = (AuditRule, seq<EvidenceItem>) -> string

  /** A call made to the model. */
  datatype Request = Request(system: string, user: string, model: Option<string>)

  /** What the model's answer decides for a rule. */
  datatype Judgement = Judgement(result: string, confidence: real, reason: string, evidence: seq<EvidenceItem>)

  const SystemPrompt: string := "你是严格遵守 JSON 输出的工程审核助手。"
  const NoEvidenceReason: string := "图纸中未找到可验证的相关证据"
  const SkippedReason: string := "已找到证据，但跳过大模型判断"
  const FailurePrefix: string := "大模型调用失败: "

  const Pass: string := "PASS"
  const Fail: string := "FAIL"
  const Unknown: string := "UNKNOWN"

  predicate IsVerdict(s: string) {
    s == Pass || s == Fail || s == Unknown
  }

  // ----- The prompt -----

  const PromptPreamble: string := "你是 MR 场地安装图纸审核助手。请仅基于给定证据做判断。\n若证据不足或无法确认，请返回 UNKNOWN。\n要求输出严格 JSON，字段为: result, confidence, reason, evidence。\nresult 只能是 PASS/FAIL/UNKNOWN。confidence 取 0-1 小数。\n"

  /** One item as `json.dumps` writes the dictionary of its fields. */
  function ItemJson(item: EvidenceItem): string {
    "{\"page\": " + (IntText(item.page) + (", \"quote\": " + (Quote(item.quote) + "}")))
  }

  function ItemsJson(items: seq<EvidenceItem>): string {
    if items == [] then []
    else if |items| == 1 then ItemJson(items[0])
    else ItemJson(items[0]) + (", " + ItemsJson(items[1..]))
  }

  /** The evidence list as `json.dumps(..., ensure_ascii=False)` writes it. */
  function EvidenceJson(items: seq<EvidenceItem>): string {
    "[" + (ItemsJson(items) + "]")
  }

  /** The user prompt: the fixed instructions, the rule's requirement and standard, and the evidence. */
  function BuildPrompt(rule: AuditRule, evidence: seq<EvidenceItem>): string {
    PromptPreamble + ("审核要点: " + (rule.requirement + ("\n合格标准: " + (rule.standard + ("\n证据: " + EvidenceJson(evidence))))))
  }

  lemma {:induction false} ItemsJsonHas(items: seq<EvidenceItem>, k: nat)
    requires k < |items|
    ensures Contains(ItemsJson(items), ItemJson(items[k]))
    decreases |items|
  {
    if |items| == 1 {
      ContainsItself(ItemJson(items[0]));
    } else if k == 0 {
      ContainsItself(ItemJson(items[0]));
      ContainsBefore(ItemJson(items[0]), ", " + ItemsJson(items[1..]), ItemJson(items[0]));
    } else {
      ItemsJsonHas(items[1..], k - 1);
      ContainsAfter(", ", ItemsJson(items[1..]), ItemJson(items[k]));
      ContainsAfter(ItemJson(items[0]), ", " + ItemsJson(items[1..]), ItemJson(items[k]));
    }
  }

  /** `pat` occurs in the evidence part of `rule`'s prompt. */
  lemma PromptTail(rule: AuditRule, evidence: seq<EvidenceItem>, pat: string)
    requires Contains(rule.standard + ("\n证据: " + EvidenceJson(evidence)), pat)
    ensures Contains(BuildPrompt(rule, evidence), pat)
  {
    var t0 := rule.standard + ("\n证据: " + EvidenceJson(evidence));
    var t1 := "\n合格标准: " + t0;
    var t2 := rule.requirement + t1;
    var t3 := "审核要点: " + t2;
    ContainsAfter("\n合格标准: ", t0, pat);
    ContainsAfter(rule.requirement, t1, pat);
    ContainsAfter("审核要点: ", t2, pat);
    ContainsAfter(PromptPreamble, t3, pat);
  }

  /**
   * The prompt carries the rule's requirement and standard, and every evidence item's
   * quote as a JSON string literal, from which the quote reads back unchanged.
   */
  lemma PromptCarries(rule: AuditRule, evidence: seq<EvidenceItem>)
    ensures Contains(BuildPrompt(rule, evidence), rule.requirement)
    ensures Contains(BuildPrompt(rule, evidence), rule.standard)
    ensures forall item :: item in evidence ==>
              Contains(BuildPrompt(rule, evidence), Quote(item.quote)) && Unescape(Escape(item.quote)) == Some(item.quote)
  {
    var t1 := "\n合格标准: " + (rule.standard + ("\n证据: " + EvidenceJson(evidence)));
    ContainsItself(rule.requirement);
    ContainsBefore(rule.requirement, t1, rule.requirement);
    ContainsAfter("审核要点: ", rule.requirement + t1, rule.requirement);
    ContainsAfter(PromptPreamble, "审核要点: " + (rule.requirement + t1), rule.requirement);
    ContainsItself(rule.standard);
    ContainsBefore(rule.standard, "\n证据: " + EvidenceJson(evidence), rule.standard);
    PromptTail(rule, evidence, rule.standard);
    forall item | item in evidence
      ensures Contains(BuildPrompt(rule, evidence), Quote(item.quote)) && Unescape(Escape(item.quote)) == Some(item.quote)
    {
      EvidenceJsonHas(evidence, item);
      ContainsAfter("\n证据: ", EvidenceJson(evidence), Quote(item.quote));
      ContainsAfter(rule.standard, "\n证据: " + EvidenceJson(evidence), Quote(item.quote));
      PromptTail(rule, evidence, Quote(item.quote));
      EscapeRoundTrip(item.quote);
    }
  }

  /** The evidence list's JSON holds each item's quote as a string literal. */
  lemma EvidenceJsonHas(evidence: seq<EvidenceItem>, item: EvidenceItem)
    requires item in evidence
    ensures Contains(EvidenceJson(evidence), Quote(item.quote))
  {
    var k :| 0 <= k < |evidence| && evidence[k] == item;
    var q := Quote(item.quote);
    ContainsItself(q);
    ContainsBefore(q, "}", q);
    ContainsAfter(", \"quote\": ", q + "}", q);
    ContainsAfter(IntText(item.page), ", \"quote\": " + (q + "}"), q);
    ContainsAfter("{\"page\": ", IntText(item.page) + (", \"quote\": " + (q + "}")), q);
    ItemsJsonHas(evidence, k);
    ContainsTrans(ItemsJson(evidence), ItemJson(item), q);
    ContainsBefore(ItemsJson(evidence), "]", q);
    ContainsAfter("[", ItemsJson(evidence) + "]", q);
  }

  // ----- Reading the model's reply -----

  /** `str(result).upper()`, kept when it names a verdict and `UNKNOWN` otherwise. */
  function NormalizeVerdict(raw: string): (r: string)
    ensures IsVerdict(r)
    ensures IsVerdict(Upper(raw)) ==> r == Upper(raw)
    ensures !IsVerdict(Upper(raw)) ==> r == Unknown
  {
    var up := Upper(raw);
    if IsVerdict(up) then up else Unknown
  }

  lemma {:induction false} UpperFixes(s: string)
    requires forall i :: 0 <= i < |s| ==> UpperOf(s[i]) == [s[i]]
    ensures Upper(s) == s
  {
    if s != [] {
      UpperFixes(s[1..]);
      assert [s[0]] + s[1..] == s;
    }
  }

  /** A verdict is its own upper case, so normalising twice is normalising once. */
  lemma NormalizeIdempotent(raw: string)
    ensures NormalizeVerdict(NormalizeVerdict(raw)) == NormalizeVerdict(raw)
  {
    var v := NormalizeVerdict(raw);
    assert forall i :: 0 <= i < |v| ==> 'A' <= v[i] <= 'Z';
    UpperFixes(v);
  }

  /** The page number and quote of an object in the reply's evidence list, 0 and "" when absent. */
  function ItemOf(page: Field<int>, quote: Option<string>): EvidenceItem {
    EvidenceItem(if page.Value? then page.value else 0, quote.GetOr(""))
  }

  /**
   * The list comprehension over the reply's evidence: each object becomes an item and
   * the other elements are skipped; the first page number that fails to convert fails
   * the whole list.
   */
  function ReadEntries(entries: seq<Entry>): Result<seq<EvidenceItem>, string> {
    if entries == [] then Success([])
    else
      var rest := ReadEntries(entries[1..]);
      match entries[0]
      case NotAnObject => rest
      case Object(page, quote) =>
        if page.Invalid? then Failure(page.error)
        else if rest.Failure? then rest
        else Success([ItemOf(page, quote)] + rest.value)
  }

  /** The objects of a list, in order. */
  function Objects(entries: seq<Entry>): seq<Entry> {
    if entries == [] then []
    else (if entries[0].Object? then [entries[0]] else []) + Objects(entries[1..])
  }

  predicate BadPage(e: Entry) {
    e.Object? && e.page.Invalid?
  }

  /**
   * Reading the list fails exactly when an object's page number does not convert, with
   * the first such error; otherwise it yields one item per object, in order.
   */
  lemma {:induction false} ReadEntriesOutcome(entries: seq<Entry>)
    ensures ReadEntries(entries).Failure? <==> exists k :: 0 <= k < |entries| && BadPage(entries[k])
    ensures ReadEntries(entries).Failure? ==>
              exists k :: 0 <= k < |entries| && BadPage(entries[k]) && entries[k].page.error == ReadEntries(entries).error
                && forall j :: 0 <= j < k ==> !BadPage(entries[j])
    ensures ReadEntries(entries).Success? ==>
              var items, objects := ReadEntries(entries).value, Objects(entries);
              |items| == |objects|
              && forall k :: 0 <= k < |objects| ==> objects[k].Object? && items[k] == ItemOf(objects[k].page, objects[k].quote)
    decreases |entries|
  {
    if entries != [] {
      var rest := entries[1..];
      ReadEntriesOutcome(rest);
      if exists k :: 0 <= k < |rest| && BadPage(rest[k]) {
        var k :| 0 <= k < |rest| && BadPage(rest[k]);
        assert BadPage(entries[k + 1]);
      }
      if exists k :: 0 <= k < |entries| && BadPage(entries[k]) {
        var k :| 0 <= k < |entries| && BadPage(entries[k]);
        if k > 0 {
          assert BadPage(rest[k - 1]);
        }
      }
      if ReadEntries(entries).Failure? && !BadPage(entries[0]) {
        var k :| 0 <= k < |rest| && BadPage(rest[k]) && rest[k].page.error == ReadEntries(rest).error
                 && forall j :: 0 <= j < k ==> !BadPage(rest[j]);
        assert BadPage(entries[k + 1]);
        forall j | 0 <= j < k + 1 ensures !BadPage(entries[j]) {
          if j > 0 {
            assert entries[j] == rest[j - 1];
          }
        }
      }
    }
  }

  /** The list read from the reply holds an item exactly when the list holds an object. */
  lemma ReadEntriesEmpty(entries: seq<Entry>)
    requires ReadEntries(entries).Success?
    ensures ReadEntries(entries).value == [] <==> forall k :: 0 <= k < |entries| ==> !entries[k].Object?
  {
    ReadEntriesOutcome(entries);
    ObjectsEmpty(entries);
  }

  lemma {:induction false} ObjectsEmpty(entries: seq<Entry>)
    ensures Objects(entries) == [] <==> forall k :: 0 <= k < |entries| ==> !entries[k].Object?
    decreases |entries|
  {
    if entries != [] {
      ObjectsEmpty(entries[1..]);
      if forall k :: 0 <= k < |entries[1..]| ==> !entries[1..][k].Object? {
        forall k | 1 <= k < |entries| ensures !entries[k].Object? {
          assert entries[k] == entries[1..][k - 1];
        }
      }
    }
  }

  /**
   * The body of the model call: the normalised verdict, the confidence (0 when absent),
   * the reason ("" when absent), and the reply's evidence list when it yields at least
   * one item, the found evidence otherwise. A conversion that raises fails the reading.
   */
  function ReadResponse(response: Response, found: seq<EvidenceItem>): Result<Judgement, string> {
    var result := NormalizeVerdict(response.result.GetOr(Unknown));
    if response.confidence.Invalid? then Failure(response.confidence.error)
    else
      var confidence := if response.confidence.Value? then response.confidence.value else 0.0;
      var reason := response.reason.GetOr("");
      if response.evidence.NotAList? then Success(Judgement(result, confidence, reason, found))
      else
        var items := ReadEntries(response.evidence.entries);
        if items.Failure? then Failure(items.error)
        else Success(Judgement(result, confidence, reason, if items.value != [] then items.value else found))
  }

  /** What a reply decides: the reading of the response, or `UNKNOWN` with the error when anything raised. */
  function Judge(found: seq<EvidenceItem>, reply: Reply): Judgement {
    if reply.CallFailed? then Judgement(Unknown, 0.0, FailurePrefix + reply.error, found)
    else
      var read := ReadResponse(reply.response, found);
      if read.Failure? then Judgement(Unknown, 0.0, FailurePrefix + read.error, found)
      else read.value
  }

  /** No object of the reply's evidence list has a page number that fails to convert. */
  predicate PagesConvert(evidence: EvidenceField) {
    evidence.EntryList? ==> forall k :: 0 <= k < |evidence.entries| ==> !BadPage(evidence.entries[k])
  }

  /** The reply's evidence list holds at least one object. */
  predicate HasObject(evidence: EvidenceField) {
    evidence.EntryList? && exists k :: 0 <= k < |evidence.entries| && evidence.entries[k].Object?
  }

  /**
   * The verdict is always PASS, FAIL or UNKNOWN. A failed call, and a reply whose
   * conversion raises, give UNKNOWN, confidence 0, the error's message and the found
   * evidence. A reply that converts gives its normalised verdict, its confidence (0 when
   * absent), its reason ("" when absent), and the items of its evidence list when that
   * list holds an object, the found evidence otherwise. So found evidence is never lost.
   */
  lemma JudgeOutcomes(found: seq<EvidenceItem>, reply: Reply)
    ensures IsVerdict(Judge(found, reply).result)
    ensures reply.CallFailed? ==> Judge(found, reply) == Judgement(Unknown, 0.0, FailurePrefix + reply.error, found)
    ensures reply.Replied? && reply.response.confidence.Invalid? ==>
              Judge(found, reply) == Judgement(Unknown, 0.0, FailurePrefix + reply.response.confidence.error, found)
    ensures reply.Replied? && !reply.response.confidence.Invalid? && !PagesConvert(reply.response.evidence) ==>
              var entries := reply.response.evidence.entries;
              exists k :: 0 <= k < |entries| && BadPage(entries[k]) && (forall j :: 0 <= j < k ==> !BadPage(entries[j]))
                && Judge(found, reply) == Judgement(Unknown, 0.0, FailurePrefix + entries[k].page.error, found)
    ensures reply.Replied? && !reply.response.confidence.Invalid? && PagesConvert(reply.response.evidence) ==>
              var r, j := reply.response, Judge(found, reply);
              && j.result == NormalizeVerdict(r.result.GetOr(Unknown))
              && j.confidence == (if r.confidence.Value? then r.confidence.value else 0.0)
              && j.reason == r.reason.GetOr("")
              && (!HasObject(r.evidence) ==> j.evidence == found)
    ensures reply.Replied? && !reply.response.confidence.Invalid? && PagesConvert(reply.response.evidence)
            && HasObject(reply.response.evidence) ==>
              var objects := Objects(reply.response.evidence.entries);
              |Judge(found, reply).evidence| == |objects|
              && forall k :: 0 <= k < |objects| ==>
                   objects[k].Object? && Judge(found, reply).evidence[k] == ItemOf(objects[k].page, objects[k].quote)
    ensures Judge(found, reply).evidence != found ==>
              reply.Replied? && reply.response.evidence.EntryList?
              && exists k :: 0 <= k < |reply.response.evidence.entries| && reply.response.evidence.entries[k].Object?
    ensures found != [] ==> Judge(found, reply).evidence != []
  {
    if reply.Replied? && !reply.response.confidence.Invalid? && reply.response.evidence.EntryList? {
      var entries := reply.response.evidence.entries;
      ReadEntriesOutcome(entries);
      if ReadEntries(entries).Success? {
        ReadEntriesEmpty(entries);
      }
    }
  }

  // ----- Auditing the rules -----

  /** The result for a rule, with the rule's major, minor and requirement. */
  function ResultOf(rule: AuditRule, j: Judgement): AuditResult {
    AuditResult(rule.major, rule.minor, rule.requirement, j.result, j.evidence, j.reason, j.confidence)
  }

  /** The audit of one rule, given the evidence found for it. */
  function AuditOne(rule: AuditRule, found: seq<EvidenceItem>, prompt: Prompter, oracle: Oracle, model: Option<string>,
                    skipLlm: bool): AuditResult
  {
    if found == [] then ResultOf(rule, Judgement(Unknown, 0.0, NoEvidenceReason, []))
    else if skipLlm then ResultOf(rule, Judgement(Unknown, 0.0, SkippedReason, found))
    else ResultOf(rule, Judge(found, oracle(SystemPrompt, prompt(rule, found), model)))
  }

  /** The call made for a rule: one when evidence is found and the model is not skipped. */
  function RequestFor(rule: AuditRule, found: seq<EvidenceItem>, prompt: Prompter, model: Option<string>, skipLlm: bool): seq<Request> {
    if found == [] || skipLlm then [] else [Request(SystemPrompt, prompt(rule, found), model)]
  }

  /** The evidence the search finds for each rule. */
  function FoundFor(rules: seq<AuditRule>, pages: seq<Page>, maxEvidence: int): (found: seq<seq<EvidenceItem>>)
    ensures |found| == |rules|
  {
    seq(|rules|, i requires 0 <= i < |rules| => EvidenceFor(pages, rules[i], maxEvidence))
  }

  /** The results of the rules, given the evidence found for each. */
  function AuditAll(rules: seq<AuditRule>, found: seq<seq<EvidenceItem>>, prompt: Prompter, oracle: Oracle,
                    model: Option<string>, skipLlm: bool): seq<AuditResult>
    requires |found| == |rules|
  {
    if rules == [] then []
    else AuditAll(rules[..|rules| - 1], found[..|rules| - 1], prompt, oracle, model, skipLlm)
         + [AuditOne(rules[|rules| - 1], found[|rules| - 1], prompt, oracle, model, skipLlm)]
  }

  /** The calls made for the rules, given the evidence found for each. */
  function Requests(rules: seq<AuditRule>, found: seq<seq<EvidenceItem>>, prompt: Prompter, model: Option<string>,
                    skipLlm: bool): seq<Request>
    requires |found| == |rules|
  {
    if rules == [] then []
    else Requests(rules[..|rules| - 1], found[..|rules| - 1], prompt, model, skipLlm)
         + RequestFor(rules[|rules| - 1], found[|rules| - 1], prompt, model, skipLlm)
  }

  /**
   * Audits every rule in order and returns one result per rule, together with the calls
   * made to the model, whose user prompts `BuildPrompt` writes.
   */
  method AuditRules(rules: seq<AuditRule>, pages: seq<Page>, oracle: Oracle, model: Option<string>,
                    skipLlm: bool, maxEvidence: int)
    returns (results: seq<AuditResult>, requests: seq<Request>)
    ensures results == AuditAll(rules, FoundFor(rules, pages, maxEvidence), BuildPrompt, oracle, model, skipLlm)
    ensures requests == Requests(rules, FoundFor(rules, pages, maxEvidence), BuildPrompt, model, skipLlm)
  {
    results, requests := AuditRulesWith(rules, pages, BuildPrompt, oracle, model, skipLlm, maxEvidence);
  }

  /** The loop over the rules, for any way of writing the user prompt. */
  method AuditRulesWith(rules: seq<AuditRule>, pages: seq<Page>, prompt: Prompter, oracle: Oracle, model: Option<string>,
                        skipLlm: bool, maxEvidence: int)
    returns (results: seq<AuditResult>, requests: seq<Request>)
    ensures results == AuditAll(rules, FoundFor(rules, pages, maxEvidence), prompt, oracle, model, skipLlm)
    ensures requests == Requests(rules, FoundFor(rules, pages, maxEvidence), prompt, model, skipLlm)
  {
    ghost var found := FoundFor(rules, pages, maxEvidence);
    results, requests := [], [];
    for i := 0 to |rules|
      invariant results == AuditAll(rules[..i], found[..i], prompt, oracle, model, skipLlm)
      invariant requests == Requests(rules[..i], found[..i], prompt, model, skipLlm)
    {
      var evidence := FindEvidence(pages, rules[i], maxEvidence);
      var result, calls := AuditFound(rules[i], evidence, prompt, oracle, model, skipLlm);
      AuditStep(rules, found, i, prompt, oracle, model, skipLlm);
      results, requests := results + [result], requests + calls;
    }
    AuditDone(rules, found, prompt, oracle, model, skipLlm);
  }

  /** One more rule audited. */
  lemma AuditStep(rules: seq<AuditRule>, found: seq<seq<EvidenceItem>>, i: nat, prompt: Prompter, oracle: Oracle,
                  model: Option<string>, skipLlm: bool)
    requires |found| == |rules| && i < |rules|
    ensures AuditAll(rules[..i + 1], found[..i + 1], prompt, oracle, model, skipLlm)
         == AuditAll(rules[..i], found[..i], prompt, oracle, model, skipLlm) + [AuditOne(rules[i], found[i], prompt, oracle, model, skipLlm)]
    ensures Requests(rules[..i + 1], found[..i + 1], prompt, model, skipLlm)
         == Requests(rules[..i], found[..i], prompt, model, skipLlm) + RequestFor(rules[i], found[i], prompt, model, skipLlm)
  {
    assert rules[..i + 1][..i] == rules[..i];
    assert found[..i + 1][..i] == found[..i];
  }

  lemma AuditDone(rules: seq<AuditRule>, found: seq<seq<EvidenceItem>>, prompt: Prompter, oracle: Oracle,
                  model: Option<string>, skipLlm: bool)
    requires |found| == |rules|
    ensures AuditAll(rules[..|rules|], found[..|rules|], prompt, oracle, model, skipLlm) == AuditAll(rules, found, prompt, oracle, model, skipLlm)
    ensures Requests(rules[..|rules|], found[..|rules|], prompt, model, skipLlm) == Requests(rules, found, prompt, model, skipLlm)
  {
    assert rules[..|rules|] == rules;
    assert found[..|rules|] == found;
  }

  /** The audit of one rule once its evidence is found: the body of the loop over the rules. */
  method AuditFound(rule: AuditRule, found: seq<EvidenceItem>, prompt: Prompter, oracle: Oracle,
                    model: Option<string>, skipLlm: bool)
    returns (result: AuditResult, calls: seq<Request>)
    ensures result == AuditOne(rule, found, prompt, oracle, model, skipLlm)
    ensures calls == RequestFor(rule, found, prompt, model, skipLlm)
  {
    calls := [];
    var evidence := found;
    if evidence == [] {
      return AuditResult(rule.major, rule.minor, rule.requirement, Unknown, [], NoEvidenceReason, 0.0), calls;
    }
    if skipLlm {
      return AuditResult(rule.major, rule.minor, rule.requirement, Unknown, evidence, SkippedReason, 0.0), calls;
    }
    var userPrompt := prompt(rule, evidence);
    calls := [Request(SystemPrompt, userPrompt, model)];
    var reply := oracle(SystemPrompt, userPrompt, model);
    var verdict: string, confidence: real, reason: string;
    if reply.CallFailed? {
      verdict, confidence, reason := Unknown, 0.0, FailurePrefix + reply.error;
    } else {
      var read := ReadResponse(reply.response, evidence);
      if read.Failure? {
        verdict, confidence, reason := Unknown, 0.0, FailurePrefix + read.error;
      } else {
        verdict, confidence, reason, evidence := read.value.result, read.value.confidence, read.value.reason, read.value.evidence;
      }
    }
    result := AuditResult(rule.major, rule.minor, rule.requirement, verdict, evidence, reason, confidence);
  }

  lemma {:induction false} AuditAllAt(rules: seq<AuditRule>, found: seq<seq<EvidenceItem>>, prompt: Prompter, oracle: Oracle,
                                     model: Option<string>, skipLlm: bool)
    requires |found| == |rules|
    ensures |AuditAll(rules, found, prompt, oracle, model, skipLlm)| == |rules|
    ensures forall i :: 0 <= i < |rules| ==>
              AuditAll(rules, found, prompt, oracle, model, skipLlm)[i] == AuditOne(rules[i], found[i], prompt, oracle, model, skipLlm)
    decreases |rules|
  {
    if rules != [] {
      var n := |rules| - 1;
      AuditAllAt(rules[..n], found[..n], prompt, oracle, model, skipLlm);
    }
  }

  /**
   * One result per rule, in rule order, with the rule's major, minor and requirement and a
   * verdict that is PASS, FAIL or UNKNOWN. A rule without evidence gets UNKNOWN, no evidence
   * and confidence 0; with the model skipped, a rule with evidence gets UNKNOWN, its
   * evidence and confidence 0. A result has no evidence exactly when none was found, and
   * is then UNKNOWN.
   */
  lemma AuditOutcomes(rules: seq<AuditRule>, found: seq<seq<EvidenceItem>>, prompt: Prompter, oracle: Oracle,
                      model: Option<string>, skipLlm: bool)
    requires |found| == |rules|
    ensures var results := AuditAll(rules, found, prompt, oracle, model, skipLlm);
      |results| == |rules| &&
      forall i :: 0 <= i < |rules| ==>
        results[i].major == rules[i].major && results[i].minor == rules[i].minor
        && results[i].requirement == rules[i].requirement
        && IsVerdict(results[i].result)
        && (found[i] == [] ==> results[i].result == Unknown && results[i].evidence == []
                               && results[i].reason == NoEvidenceReason && results[i].confidence == 0.0)
        && (found[i] != [] && skipLlm ==> results[i].result == Unknown && results[i].evidence == found[i]
                                          && results[i].reason == SkippedReason && results[i].confidence == 0.0)
        && (results[i].evidence == [] <==> found[i] == [])
        && (results[i].evidence == [] ==> results[i].result == Unknown)
  {
    AuditAllAt(rules, found, prompt, oracle, model, skipLlm);
    forall i | 0 <= i < |rules| && found[i] != [] && !skipLlm
      ensures Judge(found[i], oracle(SystemPrompt, prompt(rules[i], found[i]), model)).evidence != []
      ensures IsVerdict(Judge(found[i], oracle(SystemPrompt, prompt(rules[i], found[i]), model)).result)
    {
      JudgeOutcomes(found[i], oracle(SystemPrompt, prompt(rules[i], found[i]), model));
    }
  }

  /**
   * The model is called at most once per rule: for each rule with evidence, in rule order,
   * with the system prompt and that rule's prompt; never when it is skipped or no rule has
   * evidence.
   */
  lemma RequestsOutcome(rules: seq<AuditRule>, found: seq<seq<EvidenceItem>>, prompt: Prompter,
                        model: Option<string>, skipLlm: bool)
    requires |found| == |rules|
    ensures var calls := Requests(rules, found, prompt, model, skipLlm);
      |calls| <= |rules|
      && (calls == [] <==> skipLlm || forall i :: 0 <= i < |rules| ==> found[i] == [])
      && forall c :: c in calls ==>
           (c.system == SystemPrompt && c.model == model
            && exists i :: 0 <= i < |rules| && found[i] != [] && c.user == prompt(rules[i], found[i]))
  {
    RequestsCount(rules, found, prompt, model, skipLlm);
    RequestsFromRules(rules, found, prompt, model, skipLlm);
  }

  /** At most one call per rule, and none exactly when skipped or no rule has evidence. */
  lemma {:induction false} RequestsCount(rules: seq<AuditRule>, found: seq<seq<EvidenceItem>>, prompt: Prompter,
                                         model: Option<string>, skipLlm: bool)
    requires |found| == |rules|
    ensures var calls := Requests(rules, found, prompt, model, skipLlm);
      |calls| <= |rules|
      && (calls == [] <==> skipLlm || forall i :: 0 <= i < |rules| ==> found[i] == [])
    decreases |rules|
  {
    if rules != [] {
      var n := |rules| - 1;
      var initFound := found[..n];
      RequestsCount(rules[..n], initFound, prompt, model, skipLlm);
      if !skipLlm && exists i :: 0 <= i < n && initFound[i] != [] {
        var i :| 0 <= i < n && initFound[i] != [];
        assert found[i] == initFound[i];
      }
    }
  }

  /** Every call carries the system prompt, the model, and the prompt of a rule with evidence. */
  lemma {:induction false} RequestsFromRules(rules: seq<AuditRule>, found: seq<seq<EvidenceItem>>, prompt: Prompter,
                                             model: Option<string>, skipLlm: bool)
    requires |found| == |rules|
    ensures forall c :: c in Requests(rules, found, prompt, model, skipLlm) ==>
           (c.system == SystemPrompt && c.model == model
            && exists i :: 0 <= i < |rules| && found[i] != [] && c.user == prompt(rules[i], found[i]))
    decreases |rules|
  {
    if rules != [] {
      var n := |rules| - 1;
      var init, initFound := rules[..n], found[..n];
      RequestsFromRules(init, initFound, prompt, model, skipLlm);
      forall c | c in Requests(rules, found, prompt, model, skipLlm)
        ensures c.system == SystemPrompt && c.model == model
            && exists i :: 0 <= i < |rules| && found[i] != [] && c.user == prompt(rules[i], found[i])
      {
        if c in Requests(init, initFound, prompt, model, skipLlm) {
          var i :| 0 <= i < n && initFound[i] != [] && c.user == prompt(init[i], initFound[i]);
          assert rules[i] == init[i] && found[i] == initFound[i];
        } else {
          assert c.user == prompt(rules[n], found[n]);
        }
      }
    }
  }

  /**
   * Asked for at least one item per rule, a result comes back without evidence exactly
   * when none of its rule's keywords occurs on any page.
   */
  lemma NoEvidenceIffNoKeyword(rules: seq<AuditRule>, pages: seq<Page>, prompt: Prompter, oracle: Oracle, model: Option<string>,
                               skipLlm: bool, maxEvidence: int)
    requires maxEvidence >= 1
    ensures var results := AuditAll(rules, FoundFor(rules, pages, maxEvidence), prompt, oracle, model, skipLlm);
      |results| == |rules| &&
      forall i :: 0 <= i < |rules| ==>
        (results[i].evidence == []
         <==> !exists page, kw :: page in pages && kw in Keywords(RuleText(rules[i]), DefaultLimit) && Contains(page.text, kw))
  {
    var found := FoundFor(rules, pages, maxEvidence);
    AuditOutcomes(rules, found, prompt, oracle, model, skipLlm);
    forall i | 0 <= i < |rules|
      ensures found[i] == [] <==>
              !exists page, kw :: page in pages && kw in Keywords(RuleText(rules[i]), DefaultLimit) && Contains(page.text, kw)
    {
      EvidenceExists(pages, rules[i], maxEvidence);
    }
  }

  /**
   * Every prompt sent to the model is written for a rule with evidence, and carries that
   * rule's requirement and standard and each of its quotes as a JSON string.
   */
  lemma PromptsCarryRules(rules: seq<AuditRule>, found: seq<seq<EvidenceItem>>, model: Option<string>, skipLlm: bool)
    requires |found| == |rules|
    ensures forall c :: c in Requests(rules, found, BuildPrompt, model, skipLlm) ==>
              exists i :: 0 <= i < |rules| && found[i] != []
                && Contains(c.user, rules[i].requirement) && Contains(c.user, rules[i].standard)
                && forall item :: item in found[i] ==> Contains(c.user, Quote(item.quote))
  {
    RequestsOutcome(rules, found, BuildPrompt, model, skipLlm);
    forall c | c in Requests(rules, found, BuildPrompt, model, skipLlm)
      ensures exists i :: 0 <= i < |rules| && found[i] != []
                && Contains(c.user, rules[i].requirement) && Contains(c.user, rules[i].standard)
                && forall item :: item in found[i] ==> Contains(c.user, Quote(item.quote))
    {
      var i :| 0 <= i < |rules| && found[i] != [] && c.user == BuildPrompt(rules[i], found[i]);
      PromptCarries(rules[i], found[i]);
    }
  }
}
