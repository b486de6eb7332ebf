/**
 * Turning the rows of a checklist worksheet into audit rules. A row is the list of its
 * cell values (`None` for an empty cell, otherwise the cell's text); loading the
 * workbook itself is not part of this model.
 */
module ExcelParser {
  import opened Wrappers
  import opened Text

  /** One checklist item: its category, sub-category, requirement and acceptance standard. */
  datatype AuditRule = AuditRule(major: string, minor: string, requirement: string, standard: string)

  type Cell = Option<string>
  type Row = seq<Cell>

  /** The keys of the header alias table, in the table's iteration order. */
  datatype HeaderKey = Major | Minor | Requirement | Standard

  const HeaderKeys: seq<HeaderKey> := [Major, Minor, Requirement, Standard]

  function KeyIndex(key: HeaderKey): nat {
    match key
    case Major => 0
    case Minor => 1
    case Requirement => 2
    case Standard => 3
  }

  /** The header texts that name each column. */
  function Aliases(key: HeaderKey): seq<string> {
    match key
    case Major => ["大类"]
    case Minor => ["小类"]
    case Requirement => ["审核要求", "具体要求"]
    case Standard => ["合格标准", "布局图要求项目", "备注（型号差异）"]
  }

  /** `header` is one of `aliases`. */
  predicate IsAlias(header: string, aliases: seq<string>) {
    aliases != [] && (aliases[0] == header || IsAlias(header, aliases[1..]))
  }

  /** The header of `cell` names `key`. */
  predicate Names(cell: Cell, key: HeaderKey) {
    IsAlias(NormalizeHeader(cell), Aliases(key))
  }

  /** The two errors loading can raise. */
  datatype LoadError = NoHeaderRow | NoRules

  /** A cell's text: "" for an empty cell, otherwise its text stripped. */
  function NormalizeHeader(value: Cell): string {
    if value.None? then "" else Strip(value.value)
  }

  /**
   * An empty cell reads as ""; any other cell reads as its text with the surrounding
   * whitespace removed, so that the result neither begins nor ends with whitespace.
   */
  lemma NormalizeHeaderTrims(value: Cell)
    ensures value.None? ==> NormalizeHeader(value) == ""
    ensures value.Some? ==>
              var v, r := value.value, NormalizeHeader(value);
              && StripStart(v) + |r| <= |v|
              && r == v[StripStart(v)..StripStart(v) + |r|]
              && AllSpace(v[..StripStart(v)]) && AllSpace(v[StripStart(v) + |r|..])
    ensures NormalizeHeader(value) == [] || (!IsSpace(NormalizeHeader(value)[0])
              && !IsSpace(NormalizeHeader(value)[|NormalizeHeader(value)| - 1]))
  {
    if value.Some? {
      StripTrims(value.value);
    }
  }

  /** The leftmost column of `row` whose header names `key`, if any. */
  function FirstMatch(row: Row, key: HeaderKey): (r: Option<nat>)
    ensures r.Some? ==> r.value < |row|
  {
    if row == [] then None
    else
      ExtendMatch(FirstMatch(row[..|row| - 1], key), Names(row[|row| - 1], key), |row| - 1)
  }

  /**
   * `FirstMatch` finds the leftmost column whose header names `key`: that column names
   * it, no column before it does, and it reports none only when no column does.
   */
  lemma {:induction false} FirstMatchIsLeftmost(row: Row, key: HeaderKey)
    ensures var r := FirstMatch(row, key);
      && (r.Some? ==> Names(row[r.value], key) && forall j :: 0 <= j < r.value ==> !Names(row[j], key))
      && (r.None? ==> forall j :: 0 <= j < |row| ==> !Names(row[j], key))
  {
    if row != [] {
      var init := row[..|row| - 1];
      FirstMatchIsLeftmost(init, key);
      assert forall j :: 0 <= j < |init| ==> init[j] == row[j];
    }
  }

  /** The leftmost match after one more column: an earlier match stands. */
  function ExtendMatch(prev: Option<nat>, hit: bool, col: nat): Option<nat> {
    if prev.Some? then prev else if hit then Some(col) else None
  }

  lemma FirstMatchSnoc(row: Row, c: nat, key: HeaderKey)
    requires c < |row|
    ensures FirstMatch(row[..c + 1], key) == ExtendMatch(FirstMatch(row[..c], key), Names(row[c], key), c)
  {
    assert row[..c + 1][..c] == row[..c];
  }

  /**
   * `colMap` holds, for the first `t` keys, their leftmost match in `done` and, for the
   * others, their leftmost match in `before`.
   */
  predicate MapIsFirstMatches(colMap: map<HeaderKey, nat>, done: Row, before: Row, t: nat) {
    && KeyMatches(colMap, Major, done, before, t)
    && KeyMatches(colMap, Minor, done, before, t)
    && KeyMatches(colMap, Requirement, done, before, t)
    && KeyMatches(colMap, Standard, done, before, t)
  }

  predicate KeyMatches(colMap: map<HeaderKey, nat>, key: HeaderKey, done: Row, before: Row, t: nat) {
    Lookup(colMap, key) == if KeyIndex(key) < t then FirstMatch(done, key) else FirstMatch(before, key)
  }

  /** `row` names the category, sub-category and requirement columns. */
  predicate IsHeader(row: Row) {
    FirstMatch(row, Major).Some? && FirstMatch(row, Minor).Some? && FirstMatch(row, Requirement).Some?
  }

  /** Where the header was found: its 1-based row number and the columns it names. */
  datatype HeaderInfo = HeaderInfo(row: nat, major: nat, minor: nat, requirement: nat, standard: Option<nat>)

  /** The header found at 0-based index `i`. */
  function InfoAt(rows: seq<Row>, i: nat): HeaderInfo
    requires i < |rows| && IsHeader(rows[i])
  {
    var row := rows[i];
    HeaderInfo(i + 1, FirstMatch(row, Major).value, FirstMatch(row, Minor).value,
               FirstMatch(row, Requirement).value, FirstMatch(row, Standard))
  }

  /**
   * The index of the first header row at index `from` or later: none exactly when no
   * row from there on is a header.
   */
  function FirstHeader(rows: seq<Row>, from: nat): (r: Option<nat>)
    requires from <= |rows|
    ensures r.None? <==> forall i :: from <= i < |rows| ==> !IsHeader(rows[i])
    ensures r.Some? ==>
              && from <= r.value < |rows| && IsHeader(rows[r.value])
              && forall i :: from <= i < r.value ==> !IsHeader(rows[i])
    decreases |rows| - from
  {
    if from == |rows| then None
    else if IsHeader(rows[from]) then Some(from)
    else FirstHeader(rows, from + 1)
  }

  /** The first header row of the sheet, with the columns it names. */
  function HeaderRow(rows: seq<Row>): (r: Option<HeaderInfo>)
    ensures r.Some? ==> 0 < r.value.row <= |rows|
  {
    match FirstHeader(rows, 0)
    case None => None
    case Some(i) => Some(InfoAt(rows, i))
  }

  /** The entry for `key` in a column map, if any. */
  function Lookup(colMap: map<HeaderKey, nat>, key: HeaderKey): Option<nat> {
    if key in colMap then Some(colMap[key]) else None
  }

  /**
   * Scans the rows in order and stops at the first one that names the category,
   * sub-category and requirement columns.
   */
  method FindHeaderRow(rows: seq<Row>) returns (r: Option<HeaderInfo>)
    ensures r == HeaderRow(rows)
  {
    var idx := 0;
    while idx < |rows|
      invariant 0 <= idx <= |rows|
      invariant FirstHeader(rows, 0) == FirstHeader(rows, idx)
    {
      var row := rows[idx];
      var colMap := HeaderColumns(row);
      if Major in colMap && Minor in colMap && Requirement in colMap {
        assert IsHeader(row);
        return Some(HeaderInfo(idx + 1, colMap[Major], colMap[Minor], colMap[Requirement],
                               Lookup(colMap, Standard)));
      }
      idx := idx + 1;
    }
    return None;
  }

  /**
   * The column map of one row: each cell's header is tested against every key's
   * aliases, and a key keeps the leftmost column that names it.
   */
  method HeaderColumns(row: Row) returns (colMap: map<HeaderKey, nat>)
    ensures MapIsFirstMatches(colMap, row, row, 4)
  {
    colMap := map[];
    var c := 0;
    while c < |row|
      invariant 0 <= c <= |row|
      invariant MapIsFirstMatches(colMap, row[..c], row[..c], 4)
    {
      var header := NormalizeHeader(row[c]);
      var t := 0;
      while t < |HeaderKeys|
        invariant 0 <= t <= |HeaderKeys|
        invariant MapIsFirstMatches(colMap, row[..c + 1], row[..c], t)
      {
        var key := HeaderKeys[t];
        FirstMatchSnoc(row, c, key);
        if IsAlias(header, Aliases(key)) && key !in colMap {
          colMap := colMap[key := c];
        }
        t := t + 1;
      }
      c := c + 1;
    }
    assert row[..|row|] == row;
  }

  /** Column `col` of `row` as normalised text; a column past the row's end reads as "". */
  function CellText(row: Row, col: nat): string {
    if col < |row| then NormalizeHeader(row[col]) else ""
  }

  function MajorOf(row: Row, info: HeaderInfo): string { CellText(row, info.major) }
  function MinorOf(row: Row, info: HeaderInfo): string { CellText(row, info.minor) }
  function RequirementOf(row: Row, info: HeaderInfo): string { CellText(row, info.requirement) }

  /** The standard column is optional; without it every standard is "". */
  function StandardOf(row: Row, info: HeaderInfo): string {
    match info.standard
    case None => ""
    case Some(col) => CellText(row, col)
  }

  predicate IsBlank(row: Row, info: HeaderInfo) {
    MajorOf(row, info) == "" && MinorOf(row, info) == "" && RequirementOf(row, info) == ""
    && StandardOf(row, info) == ""
  }

  /** The category carried past `row`: its own when non-blank, otherwise `current`. */
  function CarryMajor(row: Row, info: HeaderInfo, current: string): string {
    if MajorOf(row, info) != "" then MajorOf(row, info) else current
  }

  /** The rule `row` yields under the carried category `major`: none without a requirement. */
  function RuleFor(row: Row, info: HeaderInfo, major: string): seq<AuditRule> {
    if RequirementOf(row, info) == "" then []
    else [AuditRule(major, MinorOf(row, info), RequirementOf(row, info), StandardOf(row, info))]
  }

  /**
   * The rows below the header folded into rules, `current` being the category carried
   * in from above: blank rows are skipped, a blank category inherits the carried one,
   * and rows without a requirement yield no rule but still set the carried category.
   */
  function FoldRows(body: seq<Row>, info: HeaderInfo, current: string): (rules: seq<AuditRule>)
    ensures |rules| <= |body|
    ensures forall k :: 0 <= k < |rules| ==> rules[k].requirement != []
    ensures info.standard.None? ==> forall k :: 0 <= k < |rules| ==> rules[k].standard == ""
  {
    if body == [] then []
    else if IsBlank(body[0], info) then FoldRows(body[1..], info, current)
    else
      var major := CarryMajor(body[0], info, current);
      RuleFor(body[0], info, major) + FoldRows(body[1..], info, major)
  }

  /** One step of the fold, at row `i` of `body`. */
  lemma FoldRowsAt(body: seq<Row>, i: nat, info: HeaderInfo, current: string)
    requires i < |body|
    ensures FoldRows(body[i..], info, current)
         == if IsBlank(body[i], info) then FoldRows(body[i + 1..], info, current)
            else RuleFor(body[i], info, CarryMajor(body[i], info, current))
                 + FoldRows(body[i + 1..], info, CarryMajor(body[i], info, current))
  {
    assert body[i..][0] == body[i];
    assert body[i..][1..] == body[i + 1..];
  }

  lemma AppendAssoc(rules: seq<AuditRule>, rule: AuditRule, rest: seq<AuditRule>)
    ensures rules + ([rule] + rest) == (rules + [rule]) + rest
  {
  }

  /** What loading the rows of a sheet yields: its rules, or the error it raises. */
  function RulesOf(rows: seq<Row>): Result<seq<AuditRule>, LoadError> {
    match HeaderRow(rows)
    case None => Failure(NoHeaderRow)
    case Some(info) =>
      var rules := FoldRows(rows[info.row..], info, "");
      if rules == [] then Failure(NoRules) else Success(rules)
  }

  /**
   * Loading fails with `NoHeaderRow` exactly when no row is a header, and with `NoRules`
   * exactly when the header is found but no row below it yields a rule. Otherwise every
   * rule has a requirement, and without a standard column every standard is "".
   */
  lemma RulesOfOutcomes(rows: seq<Row>)
    ensures RulesOf(rows) == Failure(NoHeaderRow) <==> forall i :: 0 <= i < |rows| ==> !IsHeader(rows[i])
    ensures RulesOf(rows) == Failure(NoRules)
        <==> HeaderRow(rows).Some? && FoldRows(rows[HeaderRow(rows).value.row..], HeaderRow(rows).value, "") == []
    ensures RulesOf(rows).Success? ==>
              && RulesOf(rows).value != []
              && (forall k :: 0 <= k < |RulesOf(rows).value| ==> RulesOf(rows).value[k].requirement != [])
              && (HeaderRow(rows).value.standard.None? ==>
                    forall k :: 0 <= k < |RulesOf(rows).value| ==> RulesOf(rows).value[k].standard == "")
  {
  }

  /**
   * The loader once the worksheet's rows are in memory: find the header, then walk the
   * rows below it carrying the current category down.
   */
  method LoadRules(rows: seq<Row>) returns (r: Result<seq<AuditRule>, LoadError>)
    ensures r == RulesOf(rows)
  {
    var headerInfo := FindHeaderRow(rows);
    if headerInfo.None? {
      return Failure(NoHeaderRow);
    }
    var info := headerInfo.value;
    var body := rows[info.row..];
    var rules: seq<AuditRule> := [];
    var currentMajor := "";
    for i := 0 to |body|
      invariant rules + FoldRows(body[i..], info, currentMajor) == FoldRows(body, info, "")
    {
      var row := body[i];
      FoldRowsAt(body, i, info, currentMajor);
      ghost var before := currentMajor;
      var major := MajorOf(row, info);
      var minor := MinorOf(row, info);
      var requirement := RequirementOf(row, info);
      var standard := StandardOf(row, info);
      if major == "" && minor == "" && requirement == "" && standard == "" {
        continue;
      }
      if major != "" {
        currentMajor := major;
      } else {
        major := currentMajor;
      }
      ghost var rest := FoldRows(body[i + 1..], info, currentMajor);
      assert currentMajor == CarryMajor(row, info, before);
      if requirement == "" {
        assert RuleFor(row, info, currentMajor) + rest == rest;
        continue;
      }
      AppendAssoc(rules, AuditRule(major, minor, requirement, standard),
                  FoldRows(body[i + 1..], info, currentMajor));
      rules := rules + [AuditRule(major, minor, requirement, standard)];
    }
    assert body[|body|..] == [];
    assert rules + FoldRows(body[|body|..], info, currentMajor) == rules;
    if rules == [] {
      return Failure(NoRules);
    }
    return Success(rules);
  }

  /** The last non-blank category among `body`, or `current` when all are blank. */
  function LastMajor(body: seq<Row>, info: HeaderInfo, current: string): string {
    if body == [] then current
    else if MajorOf(body[|body| - 1], info) != "" then MajorOf(body[|body| - 1], info)
    else LastMajor(body[..|body| - 1], info, current)
  }

  /**
   * A reference reading of the fold, row by row from the top: every row with a
   * requirement yields one rule whose category is the last non-blank category at or
   * above it. Blank rows play no part in it.
   */
  function RulesByRow(body: seq<Row>, info: HeaderInfo, current: string): seq<AuditRule> {
    if body == [] then []
    else
      RulesByRow(body[..|body| - 1], info, current)
      + RuleFor(body[|body| - 1], info, LastMajor(body, info, current))
  }

  lemma {:induction false} LastMajorCons(row: Row, rest: seq<Row>, info: HeaderInfo, current: string)
    ensures LastMajor([row] + rest, info, current) == LastMajor(rest, info, CarryMajor(row, info, current))
    decreases |rest|
  {
    if rest == [] {
      assert ([row] + rest)[..0] == [];
    } else {
      var all := [row] + rest;
      assert all[|all| - 1] == rest[|rest| - 1];
      assert all[..|all| - 1] == [row] + rest[..|rest| - 1];
      LastMajorCons(row, rest[..|rest| - 1], info, current);
    }
  }

  lemma {:induction false} FoldRowsSnoc(body: seq<Row>, row: Row, info: HeaderInfo, current: string)
    ensures FoldRows(body + [row], info, current)
         == FoldRows(body, info, current) + RuleFor(row, info, LastMajor(body + [row], info, current))
    decreases |body|
  {
    if body == [] {
      assert [row][1..] == [];
      assert [row][..0] == [];
    } else {
      var all := body + [row];
      assert all[0] == body[0];
      assert all[1..] == body[1..] + [row];
      assert all == [body[0]] + (body[1..] + [row]);
      LastMajorCons(body[0], body[1..] + [row], info, current);
      if IsBlank(body[0], info) {
        FoldRowsSnoc(body[1..], row, info, current);
      } else {
        FoldRowsSnoc(body[1..], row, info, CarryMajor(body[0], info, current));
      }
    }
  }

  /** The loader's fold agrees with the row-by-row reading. */
  lemma {:induction false} FoldRowsIsRulesByRow(body: seq<Row>, info: HeaderInfo, current: string)
    ensures FoldRows(body, info, current) == RulesByRow(body, info, current)
    decreases |body|
  {
    if body != [] {
      var init := body[..|body| - 1];
      FoldRowsIsRulesByRow(init, info, current);
      FoldRowsSnoc(init, body[|body| - 1], info, current);
      assert init + [body[|body| - 1]] == body;
    }
  }
}
