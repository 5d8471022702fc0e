/**
 The join of two reports' rows: one line for each row of either report, and
 whether a row that gates certification got worse.
 */
module ReportDiff {
  import opened Prelude
  import opened Sorting
  import opened Text

  datatype Pillar = ToolCallCorrectness | Functionality | Resource | AutomationReadiness | Storage

  datatype Outcome =
    | Pass
    | Fail(reason: string)
    | Unsupported(reason: string)
    | Error(reason: string)
    | Absent(reason: string)

  datatype TestResult = TestResult(
    pillar: Pillar,
    id: string,
    row: nat,
    outcome: Outcome,
    requirement: string,
    capabilityDeclared: Option<bool>)

  datatype Requirement = Core | OptionalFacet | Informational

  datatype RowKey = RowKey(pillar: Pillar, id: string)

  datatype RowDiff = RowDiff(
    pillar: Pillar,
    row: nat,
    id: string,
    badgeImpact: string,
    before: Option<string>,
    after: Option<string>,
    change: string)

  datatype DiffError = DuplicateRowId(id: string)

  /** The row definitions of the scenario table, by id. */
  type Registry = map<string, Requirement>

  function KeyOf(result: TestResult): RowKey { RowKey(result.pillar, result.id) }

  // ---- The order of rows ---------------------------------------------------------------

  function PillarIndex(p: Pillar): nat {
    match p
    case ToolCallCorrectness => 0
    case Functionality => 1
    case Resource => 2
    case AutomationReadiness => 3
    case Storage => 4
  }

  predicate KeyLe(a: RowKey, b: RowKey) {
    PillarIndex(a.pillar) < PillarIndex(b.pillar) || (a.pillar == b.pillar && LexLe(a.id, b.id))
  }

  predicate RowLe(a: RowDiff, b: RowDiff) {
    a.row < b.row || (a.row == b.row && LexLe(a.id, b.id))
  }

  lemma KeyOrder()
    ensures TotalOrder(KeyLe)
  {
    hide LexLe;
    LexOrder();
  }

  lemma RowOrder()
    ensures TotalPreorder(RowLe)
  {
    hide LexLe;
    LexOrder();
  }

  /** A `BTreeSet` of row keys in iteration order. */
  function SortedKeys(s: set<RowKey>): (r: seq<RowKey>)
    ensures forall x :: x in r <==> x in s
  {
    KeyOrder();
    Listed(s, KeyLe)
  }

  lemma SortedKeysDistinct(s: set<RowKey>)
    ensures Distinct(SortedKeys(s))
  {
    KeyOrder();
    ListedInOrder(s, KeyLe);
  }

  // ---- One row -----------------------------------------------------------------------------

  function OutcomeLabel(outcome: Outcome): string {
    match outcome
    case Pass => "PASS"
    case Fail(_) => "FAIL"
    case Unsupported(_) => "UNSUPPORTED"
    case Error(_) => "ERROR"
    case Absent(_) => "ABSENT"
  }

  function RequirementFor(registry: Registry, result: TestResult): Requirement {
    if result.pillar.Storage? then
      if result.id == "footprint-curve"
         || (result.id == "delete-uninstall-residue" && result.requirement != "informational")
      then Core else Informational
    else if result.id in registry then registry[result.id]
    else if result.requirement == "informational" then Informational
    else if result.requirement == "optional-facet" then OptionalFacet
    else Core
  }

  function RequirementLabel(requirement: Requirement): string {
    match requirement
    case Core => "core"
    case OptionalFacet => "optional-facet"
    case Informational => "informational"
  }

  function InformationalChange(before: string, after: string): (string, bool) {
    if before == "PASS" && after == "FAIL" then ("informational-regression", false)
    else if before == "FAIL" && after == "PASS" then ("informational-improvement", false)
    else if (before == "PASS" || before == "FAIL") && (after == "ERROR" || after == "ABSENT") then
      ("evidence-regression", false)
    else if (before == "ERROR" || before == "ABSENT") && (after == "PASS" || after == "FAIL") then
      ("evidence-improvement", false)
    else if (before == "PASS" || before == "FAIL") && after == "UNSUPPORTED" then ("evidence-regression", false)
    else if before == "UNSUPPORTED" && (after == "PASS" || after == "FAIL") then ("evidence-improvement", false)
    else ("changed-nonpass", false)
  }

  /** `row_change`: the name of the change, and whether it is a gating regression. */
  function RowChange(requirement: Requirement, before: Option<TestResult>, after: Option<TestResult>): (string, bool) {
    if before.None? then ("added", false)
    else if after.None? then ("removed", !requirement.Informational? && before.value.outcome.Pass?)
    else
      var (a, b) := (before.value, after.value);
      var (was, now) := (OutcomeLabel(a.outcome), OutcomeLabel(b.outcome));
      var (declared, declares) := (a.capabilityDeclared, b.capabilityDeclared);
      if requirement.OptionalFacet? && declared == Some(false) && declares == Some(true) then
        (if now == "PASS" then "facet-added" else "facet-added-nonpass", false)
      else if requirement.OptionalFacet? && declared == Some(true) && declares == Some(false) && now == "UNSUPPORTED" then
        ("facet-removed", was == "PASS")
      else if was == now then ("unchanged", false)
      else if requirement.Informational? then InformationalChange(was, now)
      else if requirement.OptionalFacet? && was == "UNSUPPORTED" && declared == Some(false) && declares == Some(true)
              && now != "PASS" then
        ("facet-added-nonpass", false)
      else if requirement.OptionalFacet? && was == "UNSUPPORTED" && now == "PASS" then
        (if declared == Some(false) then "facet-added" else "improvement", false)
      else if requirement.OptionalFacet? && now == "UNSUPPORTED" then
        if declares == Some(false) then ("facet-removed", was == "PASS")
        else if was == "PASS" then ("regression", true)
        else ("changed-nonpass", false)
      else if was == "PASS" then ("regression", true)
      else if now == "PASS" then ("improvement", false)
      else ("changed-nonpass", false)
  }

  predicate GatingStorageRow(id: string) { id == "footprint-curve" || id == "delete-uninstall-residue" }

  /** `storage::row_change`. */
  function StorageRowChange(id: string, before: Option<TestResult>, after: Option<TestResult>): (string, bool) {
    var change :=
      if before.None? then "added"
      else if after.None? then "removed"
      else if OutcomeLabel(before.value.outcome) == OutcomeLabel(after.value.outcome) then "unchanged"
      else "changed";
    if GatingStorageRow(id)
       && before.Some? && before.value.outcome.Pass? && after.Some? && after.value.outcome.Fail?
    then ("regression", true) else (change, false)
  }

  predicate Passed(result: Option<TestResult>) { result.Some? && result.value.outcome.Pass? }

  /** An optional facet that was not declared before and is declared now. */
  predicate FacetAdded(requirement: Requirement, before: Option<TestResult>, after: Option<TestResult>) {
    && requirement.OptionalFacet? && before.Some? && after.Some?
    && before.value.capabilityDeclared == Some(false) && after.value.capabilityDeclared == Some(true)
  }

  /**
   When a row regresses: it is core or optional, passed before, and is now
   missing or not passing; unless it is an optional facet that the earlier report
   recorded as undeclared and the later one as declared.
   */
  lemma RowRegresses(requirement: Requirement, before: Option<TestResult>, after: Option<TestResult>)
    ensures RowChange(requirement, before, after).1 <==>
              && !requirement.Informational? && Passed(before) && !Passed(after)
              && !FacetAdded(requirement, before, after)
  {
    LabelOfPass(before);
    LabelOfPass(after);
  }

  lemma LabelOfPass(result: Option<TestResult>)
    ensures result.Some? ==> (OutcomeLabel(result.value.outcome) == "PASS" <==> result.value.outcome.Pass?)
  {
    if result.Some? {
      assert "FAIL"[0] != "PASS"[0] && "UNSUPPORTED"[0] != "PASS"[0] && "ERROR"[0] != "PASS"[0] && "ABSENT"[0] != "PASS"[0];
    }
  }

  // ---- What a change is called ---------------------------------------------------------------

  predicate SameOutcome(a: Outcome, b: Outcome) {
    && (a.Pass? <==> b.Pass?) && (a.Fail? <==> b.Fail?) && (a.Unsupported? <==> b.Unsupported?)
    && (a.Error? <==> b.Error?) && (a.Absent? <==> b.Absent?)
  }

  /** Outcomes have the same name exactly if they are of one kind, whatever their reasons. */
  lemma LabelsDiffer(a: Outcome, b: Outcome)
    ensures OutcomeLabel(a) == OutcomeLabel(b) <==> SameOutcome(a, b)
    ensures OutcomeLabel(a) == "PASS" <==> a.Pass?
    ensures OutcomeLabel(a) == "FAIL" <==> a.Fail?
    ensures OutcomeLabel(a) == "UNSUPPORTED" <==> a.Unsupported?
    ensures OutcomeLabel(a) == "ERROR" <==> a.Error?
    ensures OutcomeLabel(a) == "ABSENT" <==> a.Absent?
  {
    assert "FAIL"[0] == 'F' && "PASS"[0] == 'P' && "UNSUPPORTED"[0] == 'U' && "ERROR"[0] == 'E' && "ABSENT"[0] == 'A';
  }

  /** A row that only one report has. */
  lemma OneSided(requirement: Requirement, before: Option<TestResult>, after: Option<TestResult>)
    ensures before.None? ==> RowChange(requirement, before, after).0 == "added"
    ensures before.Some? && after.None? ==> RowChange(requirement, before, after).0 == "removed"
  {}

  /** The change of a core row. */
  lemma CoreChange(before: TestResult, after: TestResult)
    ensures RowChange(Core, Some(before), Some(after)).0
         == if SameOutcome(before.outcome, after.outcome) then "unchanged"
            else if before.outcome.Pass? then "regression"
            else if after.outcome.Pass? then "improvement"
            else "changed-nonpass"
  {
    LabelsDiffer(before.outcome, after.outcome);
    LabelsDiffer(after.outcome, before.outcome);
  }

  /** The row was measured, whatever came out of it. */
  predicate Measured(outcome: Outcome) { outcome.Pass? || outcome.Fail? }

  /** The change of an informational row: of what was measured, or of whether it was. */
  lemma InformationalRow(before: TestResult, after: TestResult)
    ensures RowChange(Informational, Some(before), Some(after)).0
         == if SameOutcome(before.outcome, after.outcome) then "unchanged"
            else if Measured(before.outcome) && Measured(after.outcome) then
              if before.outcome.Pass? then "informational-regression" else "informational-improvement"
            else if Measured(before.outcome) then "evidence-regression"
            else if Measured(after.outcome) then "evidence-improvement"
            else "changed-nonpass"
  {
    LabelsDiffer(before.outcome, after.outcome);
    LabelsDiffer(after.outcome, before.outcome);
  }

  /** An optional facet that is declared now and was not, or the other way round. */
  predicate NewlyDeclared(before: TestResult, after: TestResult) {
    before.capabilityDeclared == Some(false) && after.capabilityDeclared == Some(true)
  }

  /**
   The change of an optional facet. A facet newly declared is added, one that is no
   longer supported and no longer declared is removed, and one not supported before
   is added when it passes if it had been declared missing; otherwise it changes as
   a core row does.
   */
  lemma FacetChange(before: TestResult, after: TestResult)
    ensures RowChange(OptionalFacet, Some(before), Some(after)).0
         == if NewlyDeclared(before, after) then if after.outcome.Pass? then "facet-added" else "facet-added-nonpass"
            else if after.outcome.Unsupported? && after.capabilityDeclared == Some(false)
                    && (before.capabilityDeclared == Some(true) || !before.outcome.Unsupported?) then "facet-removed"
            else if before.outcome.Unsupported? && after.outcome.Pass? && before.capabilityDeclared == Some(false) then
              "facet-added"
            else RowChange(Core, Some(before), Some(after)).0
  {
    LabelsDiffer(before.outcome, after.outcome);
    LabelsDiffer(after.outcome, before.outcome);
  }

  /** The change of a storage row. */
  lemma StorageChange(id: string, before: TestResult, after: TestResult)
    ensures StorageRowChange(id, Some(before), Some(after)).0
         == if GatingStorageRow(id) && before.outcome.Pass? && after.outcome.Fail? then "regression"
            else if SameOutcome(before.outcome, after.outcome) then "unchanged" else "changed"
  {
    LabelsDiffer(before.outcome, after.outcome);
  }

  function Mirrored(change: string): string {
    if change == "regression" then "improvement" else if change == "improvement" then "regression" else change
  }

  /** Read in the other direction, a core row's regression is an improvement and the other way round. */
  lemma CoreMirrored(before: TestResult, after: TestResult)
    ensures RowChange(Core, Some(after), Some(before)).0 == Mirrored(RowChange(Core, Some(before), Some(after)).0)
  {
    hide RowChange;
    CoreChange(before, after);
    CoreChange(after, before);
    assert "regression"[0] == 'r' && "improvement"[0] == 'i' && "unchanged"[0] == 'u' && "changed-nonpass"[0] == 'c';
  }

  /** A passing row that turns into a failure without gating: the facet was recorded as undeclared while it passed. */
  lemma FacetAddedHidesFailure()
    ensures var before := TestResult(Functionality, "facet", 1, Pass, "optional-facet", Some(false));
            var after := TestResult(Functionality, "facet", 1, Fail("broken"), "optional-facet", Some(true));
            RowChange(OptionalFacet, Some(before), Some(after)) == ("facet-added-nonpass", false)
  {
    LabelOfPass(Some(TestResult(Functionality, "facet", 1, Fail("broken"), "optional-facet", Some(true))));
  }

  // ---- Joining two reports ---------------------------------------------------------------

  predicate UniqueIds(results: seq<TestResult>) {
    forall i, j | 0 <= i < j < |results| :: KeyOf(results[i]) != KeyOf(results[j])
  }

  /** The first result whose key was there before. */
  predicate RepeatedAt(results: seq<TestResult>, j: int) {
    0 <= j < |results| && UniqueIds(results[..j]) && exists i | 0 <= i < j :: KeyOf(results[i]) == KeyOf(results[j])
  }

  /** The map lists exactly these results, each under its key. */
  ghost predicate Lists(byId: map<RowKey, TestResult>, results: seq<TestResult>) {
    && (forall i | 0 <= i < |results| :: KeyOf(results[i]) in byId && byId[KeyOf(results[i])] == results[i])
    && forall k | k in byId :: exists i :: 0 <= i < |results| && results[i] == byId[k] && KeyOf(results[i]) == k
  }

  /** `results_by_id`. */
  method ResultsById(results: seq<TestResult>) returns (r: Result<map<RowKey, TestResult>, DiffError>)
    ensures r.Ok? <==> UniqueIds(results)
    ensures r.Ok? ==> Lists(r.value, results)
    ensures r.Err? ==> exists j :: RepeatedAt(results, j) && r.error == DuplicateRowId(results[j].id)
  {
    hide Lists, KeyOf;
    var byId: map<RowKey, TestResult> := map[];
    NothingListed();
    for i := 0 to |results|
      invariant UniqueIds(results[..i]) && Lists(byId, results[..i])
    {
      var key := KeyOf(results[i]);
      ListsKeys(byId, results[..i], key);
      if key in byId {
        var j :| 0 <= j < i && KeyOf(results[..i][j]) == key;
        assert KeyOf(results[j]) == KeyOf(results[i]);
        assert RepeatedAt(results, i);
        return Err(DuplicateRowId(results[i].id));
      }
      ListsSnoc(byId, results[..i], results[i]);
      byId := byId[key := results[i]];
      assert results[..i + 1] == results[..i] + [results[i]];
    }
    assert results[..|results|] == results;
    r := Ok(byId);
  }

  lemma NothingListed()
    ensures Lists(map[], [])
  {}

  /** A key is listed exactly if some result has it. */
  lemma ListsKeys(byId: map<RowKey, TestResult>, results: seq<TestResult>, key: RowKey)
    requires Lists(byId, results)
    ensures key in byId <==> exists j :: 0 <= j < |results| && KeyOf(results[j]) == key
  {
    hide KeyOf;
  }

  lemma ListsSnoc(byId: map<RowKey, TestResult>, results: seq<TestResult>, result: TestResult)
    requires Lists(byId, results) && KeyOf(result) !in byId
    ensures Lists(byId[KeyOf(result) := result], results + [result])
  {
    hide KeyOf;
    var all, grown := results + [result], byId[KeyOf(result) := result];
    forall k | k in grown ensures exists i :: 0 <= i < |all| && all[i] == grown[k] && KeyOf(all[i]) == k {
      if k == KeyOf(result) {
        assert all[|results|] == result;
      } else {
        var i :| 0 <= i < |results| && results[i] == byId[k] && KeyOf(results[i]) == k;
        assert all[i] == results[i];
      }
    }
  }

  function Current(before: Option<TestResult>, after: Option<TestResult>): TestResult
    requires before.Some? || after.Some?
  {
    if after.Some? then after.value else before.value
  }

  function ChangeOf(registry: Registry, key: RowKey, before: Option<TestResult>, after: Option<TestResult>): (string, bool)
    requires before.Some? || after.Some?
  {
    var current := Current(before, after);
    if current.pillar.Storage? then StorageRowChange(key.id, before, after)
    else RowChange(RequirementFor(registry, current), before, after)
  }

  function Label(result: Option<TestResult>): Option<string> {
    if result.Some? then Some(OutcomeLabel(result.value.outcome)) else None
  }

  function RowOf(registry: Registry, key: RowKey, before: Option<TestResult>, after: Option<TestResult>): (row: RowDiff)
    requires before.Some? || after.Some?
    ensures RowKeyOf(row) == key
  {
    var current := Current(before, after);
    RowDiff(key.pillar, current.row, key.id, RequirementLabel(RequirementFor(registry, current)),
            Label(before), Label(after), ChangeOf(registry, key, before, after).0)
  }

  function RowKeyOf(row: RowDiff): RowKey { RowKey(row.pillar, row.id) }

  function Rows(registry: Registry, left: map<RowKey, TestResult>, right: map<RowKey, TestResult>, keys: seq<RowKey>)
    : (rows: seq<RowDiff>)
    requires forall k | k in keys :: k in left || k in right
    ensures |rows| == |keys| && forall i | 0 <= i < |keys| :: RowKeyOf(rows[i]) == keys[i]
  {
    seq(|keys|, i requires 0 <= i < |keys| => RowOf(registry, keys[i], Find(left, keys[i]), Find(right, keys[i])))
  }

  predicate Regresses(registry: Registry, left: map<RowKey, TestResult>, right: map<RowKey, TestResult>, key: RowKey)
    requires key in left || key in right
  {
    ChangeOf(registry, key, Find(left, key), Find(right, key)).1
  }

  predicate AnyRegresses(registry: Registry, left: map<RowKey, TestResult>, right: map<RowKey, TestResult>, keys: seq<RowKey>)
    requires forall k | k in keys :: k in left || k in right
  {
    exists j | 0 <= j < |keys| :: Regresses(registry, left, right, keys[j])
  }

  lemma RegressesSnoc(registry: Registry, left: map<RowKey, TestResult>, right: map<RowKey, TestResult>,
                      keys: seq<RowKey>, i: nat)
    requires (forall k | k in keys :: k in left || k in right) && i < |keys|
    ensures keys[i] in left || keys[i] in right
    ensures forall k | k in keys[..i] || k in keys[..i + 1] :: k in left || k in right
    ensures AnyRegresses(registry, left, right, keys[..i + 1])
       <==> AnyRegresses(registry, left, right, keys[..i]) || Regresses(registry, left, right, keys[i])
    ensures Rows(registry, left, right, keys[..i + 1])
         == Rows(registry, left, right, keys[..i])
            + [RowOf(registry, keys[i], Find(left, keys[i]), Find(right, keys[i]))]
  {
    hide RowOf, ChangeOf;
    if Regresses(registry, left, right, keys[i]) {
      assert Regresses(registry, left, right, keys[..i + 1][i]);
    }
    if AnyRegresses(registry, left, right, keys[..i]) {
      var j :| 0 <= j < i && Regresses(registry, left, right, keys[..i][j]);
      assert Regresses(registry, left, right, keys[..i + 1][j]);
    }
  }

  /** The loop over all row keys. */
  method JoinRows(registry: Registry, left: map<RowKey, TestResult>, right: map<RowKey, TestResult>)
    returns (rows: seq<RowDiff>, gating: bool)
    ensures rows == Rows(registry, left, right, SortedKeys(left.Keys + right.Keys))
    ensures gating <==> exists key :: key in left.Keys + right.Keys && Regresses(registry, left, right, key)
  {
    hide ChangeOf, RowOf, AnyRegresses, Rows, SortedKeys;
    var keys := SortedKeys(left.Keys + right.Keys);
    rows := [];
    gating := false;
    NoRows(registry, left, right);
    for i := 0 to |keys|
      invariant forall k | k in keys[..i] :: k in left || k in right
      invariant rows == Rows(registry, left, right, keys[..i])
      invariant gating <==> AnyRegresses(registry, left, right, keys[..i])
    {
      RegressesSnoc(registry, left, right, keys, i);
      var before, after := Find(left, keys[i]), Find(right, keys[i]);
      gating := gating || ChangeOf(registry, keys[i], before, after).1;
      rows := rows + [RowOf(registry, keys[i], before, after)];
    }
    assert keys[..|keys|] == keys;
    AnyOfSorted(registry, left, right);
  }

  lemma NoRows(registry: Registry, left: map<RowKey, TestResult>, right: map<RowKey, TestResult>)
    ensures Rows(registry, left, right, []) == [] && !AnyRegresses(registry, left, right, [])
  {}

  lemma AnyOfSorted(registry: Registry, left: map<RowKey, TestResult>, right: map<RowKey, TestResult>)
    ensures AnyRegresses(registry, left, right, SortedKeys(left.Keys + right.Keys))
       <==> exists key :: key in left.Keys + right.Keys && Regresses(registry, left, right, key)
  {
    hide Regresses, SortedKeys;
    var keys := SortedKeys(left.Keys + right.Keys);
    if AnyRegresses(registry, left, right, keys) {
      var j :| 0 <= j < |keys| && Regresses(registry, left, right, keys[j]);
      assert keys[j] in keys;
    }
    if key :| key in left.Keys + right.Keys && Regresses(registry, left, right, key) {
      assert key in keys;
      var j :| 0 <= j < |keys| && keys[j] == key;
    }
  }

  /** A result of one of the reports, by its key. */
  function ResultOf(results: seq<TestResult>, key: RowKey): (r: Option<TestResult>)
    ensures r.Some? ==> r.value in results && KeyOf(r.value) == key
    ensures r.None? ==> forall x | x in results :: KeyOf(x) != key
  {
    if results == [] then None
    else if KeyOf(results[0]) == key then Some(results[0])
    else ResultOf(results[1..], key)
  }

  lemma FindIsResult(byId: map<RowKey, TestResult>, results: seq<TestResult>, key: RowKey)
    requires Lists(byId, results)
    ensures Find(byId, key) == ResultOf(results, key)
  {
    if key in byId {
      var i :| 0 <= i < |results| && results[i] == byId[key] && KeyOf(results[i]) == key;
      assert results[i] in results;
    }
    var r := ResultOf(results, key);
    if r.Some? {
      var i :| 0 <= i < |results| && results[i] == r.value;
      assert KeyOf(results[i]) in byId;
    }
  }

  /** The row with this key regressed between the reports. */
  predicate RowRegressed(registry: Registry, left: seq<TestResult>, right: seq<TestResult>, key: RowKey) {
    var before, after := ResultOf(left, key), ResultOf(right, key);
    (before.Some? || after.Some?) && ChangeOf(registry, key, before, after).1
  }

  ghost predicate HasLine(rows: seq<RowDiff>, key: RowKey) { exists row :: row in rows && RowKeyOf(row) == key }

  ghost predicate KeysDistinct(rows: seq<RowDiff>) {
    forall i, j | 0 <= i < j < |rows| :: RowKeyOf(rows[i]) != RowKeyOf(rows[j])
  }

  /** Either report has a row with this key. */
  predicate Reported(left: seq<TestResult>, right: seq<TestResult>, key: RowKey) {
    ResultOf(left, key).Some? || ResultOf(right, key).Some?
  }

  /** The line states this row's change. */
  predicate Faithful(registry: Registry, left: seq<TestResult>, right: seq<TestResult>, row: RowDiff) {
    var key := RowKeyOf(row);
    Reported(left, right, key) && row == RowOf(registry, key, ResultOf(left, key), ResultOf(right, key))
  }

  /** Exactly one line for each key of either report, each stating that row's change, in order of row and id. */
  ghost predicate JoinOf(rows: seq<RowDiff>, registry: Registry, left: seq<TestResult>, right: seq<TestResult>) {
    && Ascending(rows, RowLe)
    && KeysDistinct(rows)
    && (forall key :: HasLine(rows, key) <==> Reported(left, right, key))
    && forall row | row in rows :: Faithful(registry, left, right, row)
  }

  /** `compare_rows`. */
  method CompareRows(registry: Registry, left: seq<TestResult>, right: seq<TestResult>)
    returns (r: Result<(seq<RowDiff>, bool), DiffError>)
    ensures r.Ok? <==> UniqueIds(left) && UniqueIds(right)
    ensures r.Err? ==> var repeating := if UniqueIds(left) then right else left;
              exists j :: RepeatedAt(repeating, j) && r.error == DuplicateRowId(repeating[j].id)
    ensures r.Ok? ==> JoinOf(r.value.0, registry, left, right)
    ensures r.Ok? ==> (r.value.1 <==> exists key :: RowRegressed(registry, left, right, key))
    ensures r.Ok? && PassesAreDeclared(left) && NoStorage(left) && NoStorage(right) ==>
              (r.value.1 <==> exists i | 0 <= i < |left| :: PassLost(registry, left, right, i))
  {
    hide ChangeOf, RowOf, Lists, JoinOf, Regresses, RowRegressed, Rows, SortedKeys, Arranged, UniqueIds, PassLost,
         PassesAreDeclared, NoStorage;
    var l := ResultsById(left);
    if l.Err? {
      return Err(l.error);
    }
    var g := ResultsById(right);
    if g.Err? {
      return Err(g.error);
    }
    var rows, gating := JoinRows(registry, l.value, g.value);
    JoinIsOrdered(registry, l.value, g.value, left, right);
    forall key ensures key in l.value.Keys + g.value.Keys && Regresses(registry, l.value, g.value, key)
                       <==> RowRegressed(registry, left, right, key)
    {
      RegressesAlike(registry, l.value, g.value, left, right, key);
    }
    if PassesAreDeclared(left) && NoStorage(left) && NoStorage(right) {
      GatingRule(registry, left, right);
    }
    r := Ok((Arranged(rows, RowLe), gating));
  }

  lemma RegressesAlike(registry: Registry, byLeft: map<RowKey, TestResult>, byRight: map<RowKey, TestResult>,
                       left: seq<TestResult>, right: seq<TestResult>, key: RowKey)
    requires Lists(byLeft, left) && Lists(byRight, right)
    ensures key in byLeft.Keys + byRight.Keys && Regresses(registry, byLeft, byRight, key)
       <==> RowRegressed(registry, left, right, key)
  {
    hide ChangeOf, Lists, ResultOf;
    FindIsResult(byLeft, left, key);
    FindIsResult(byRight, right, key);
  }

  lemma JoinIsOrdered(registry: Registry, byLeft: map<RowKey, TestResult>, byRight: map<RowKey, TestResult>,
                      left: seq<TestResult>, right: seq<TestResult>)
    requires Lists(byLeft, left) && Lists(byRight, right)
    ensures JoinOf(Arranged(Rows(registry, byLeft, byRight, SortedKeys(byLeft.Keys + byRight.Keys)), RowLe),
                   registry, left, right)
  {
    hide RowOf, Lists, Rows, Arranged, SortedKeys, RowLe, Faithful, HasLine, KeysDistinct, ResultOf, Find;
    var keys := SortedKeys(byLeft.Keys + byRight.Keys);
    var rows := Rows(registry, byLeft, byRight, keys);
    var arranged := Arranged(rows, RowLe);
    RowOrder();
    ArrangedAscending(rows, RowLe);
    SortedKeysDistinct(byLeft.Keys + byRight.Keys);
    forall row ensures row in arranged <==> row in rows {
      InMultiset(arranged, row);
      InMultiset(rows, row);
    }
    ArrangedKeysDistinct(rows, keys);
    forall key ensures HasLine(arranged, key) <==> Reported(left, right, key) {
      LinesOfKeys(rows, arranged, keys, key);
      FindIsResult(byLeft, left, key);
      FindIsResult(byRight, right, key);
      FoundEither(byLeft, byRight, key);
    }
    forall row | row in arranged ensures Faithful(registry, left, right, row) {
      RowsFaithful(registry, byLeft, byRight, left, right, keys, row);
    }
  }

  lemma FoundEither(byLeft: map<RowKey, TestResult>, byRight: map<RowKey, TestResult>, key: RowKey)
    ensures Find(byLeft, key).Some? || Find(byRight, key).Some? <==> key in byLeft.Keys + byRight.Keys
  {}

  lemma {:induction false} ArrangedKeysDistinct(rows: seq<RowDiff>, keys: seq<RowKey>)
    requires |rows| == |keys| && Distinct(keys) && forall i | 0 <= i < |keys| :: RowKeyOf(rows[i]) == keys[i]
    ensures KeysDistinct(Arranged(rows, RowLe))
  {
    hide RowLe, Arranged;
    var arranged := Arranged(rows, RowLe);
    ArrangedDistinct(rows, RowLe);
    forall i, j | 0 <= i < j < |arranged| ensures RowKeyOf(arranged[i]) != RowKeyOf(arranged[j]) {
      InMultiset(arranged, arranged[i]);
      InMultiset(rows, arranged[i]);
      InMultiset(arranged, arranged[j]);
      InMultiset(rows, arranged[j]);
      var p :| 0 <= p < |rows| && rows[p] == arranged[i];
      var q :| 0 <= q < |rows| && rows[q] == arranged[j];
    }
  }

  lemma LinesOfKeys(rows: seq<RowDiff>, arranged: seq<RowDiff>, keys: seq<RowKey>, key: RowKey)
    requires |rows| == |keys| && forall i | 0 <= i < |keys| :: RowKeyOf(rows[i]) == keys[i]
    requires forall row :: row in arranged <==> row in rows
    ensures HasLine(arranged, key) <==> key in keys
  {
    if key in keys {
      var i :| 0 <= i < |keys| && keys[i] == key;
      assert rows[i] in rows && rows[i] in arranged;
    }
    if HasLine(arranged, key) {
      var row :| row in arranged && RowKeyOf(row) == key;
      assert row in rows;
      var i :| 0 <= i < |rows| && rows[i] == row;
      assert keys[i] in keys;
    }
  }

  lemma RowsFaithful(registry: Registry, byLeft: map<RowKey, TestResult>, byRight: map<RowKey, TestResult>,
                     left: seq<TestResult>, right: seq<TestResult>, keys: seq<RowKey>, row: RowDiff)
    requires Lists(byLeft, left) && Lists(byRight, right) && forall k | k in keys :: k in byLeft || k in byRight
    requires row in Rows(registry, byLeft, byRight, keys)
    ensures Faithful(registry, left, right, row)
  {
    hide RowOf, Lists;
    var i :| 0 <= i < |keys| && Rows(registry, byLeft, byRight, keys)[i] == row;
    FindIsResult(byLeft, left, keys[i]);
    FindIsResult(byRight, right, keys[i]);
  }

  /** What a line says: the row of the later report that has it, both outcomes by name, and the row's change. */
  lemma LineSays(registry: Registry, left: seq<TestResult>, right: seq<TestResult>, row: RowDiff)
    requires Faithful(registry, left, right, row)
    ensures var before, after := ResultOf(left, RowKeyOf(row)), ResultOf(right, RowKeyOf(row));
            && row.row == (if after.Some? then after.value.row else before.value.row)
            && (row.before.Some? <==> before.Some?) && (row.after.Some? <==> after.Some?)
            && (before.Some? ==> row.before == Some(OutcomeLabel(before.value.outcome)))
            && (after.Some? ==> row.after == Some(OutcomeLabel(after.value.outcome)))
            && (row.pillar.Storage? ==> row.change == StorageRowChange(row.id, before, after).0)
            && (!row.pillar.Storage? ==>
                  var requirement := RequirementFor(registry, if after.Some? then after.value else before.value);
                  && row.badgeImpact == RequirementLabel(requirement)
                  && row.change == RowChange(requirement, before, after).0)
  {
    hide RowChange, StorageRowChange, RequirementFor, OutcomeLabel, RequirementLabel;
    var key := RowKeyOf(row);
    assert Current(ResultOf(left, key), ResultOf(right, key)).pillar == key.pillar;
  }

  /** A registered row has its registered requirement; any other one what its result says, core unless it says otherwise. */
  lemma RequirementMeans(registry: Registry, result: TestResult)
    requires !result.pillar.Storage?
    ensures result.id in registry ==> RequirementFor(registry, result) == registry[result.id]
    ensures result.id !in registry ==>
              && (RequirementFor(registry, result) == Informational <==> result.requirement == "informational")
              && (RequirementFor(registry, result) == OptionalFacet <==> result.requirement == "optional-facet")
  {
    assert "informational"[0] != "optional-facet"[0];
  }

  // ---- When a comparison gates -----------------------------------------------------------

  /** The exact condition for one key, storage rows included. */
  predicate GotWorse(registry: Registry, left: seq<TestResult>, right: seq<TestResult>, key: RowKey) {
    var before, after := ResultOf(left, key), ResultOf(right, key);
    if before.None? && after.None? then false
    else if key.pillar.Storage? then
      GatingStorageRow(key.id) && Passed(before) && after.Some? && after.value.outcome.Fail?
    else
      var requirement := RequirementFor(registry, Current(before, after));
      !requirement.Informational? && Passed(before) && !Passed(after) && !FacetAdded(requirement, before, after)
  }

  /**
   The gating flag, exactly: some core or optional row passed on the left and is
   missing or not passing on the right (for storage, one of two rows passed and
   fails), other than an optional facet recorded as undeclared on the left and
   declared on the right.
   */
  lemma GatingExact(registry: Registry, left: seq<TestResult>, right: seq<TestResult>, key: RowKey)
    ensures RowRegressed(registry, left, right, key) <==> GotWorse(registry, left, right, key)
  {
    hide RowChange, FacetAdded, RequirementFor;
    var before, after := ResultOf(left, key), ResultOf(right, key);
    if before.Some? || after.Some? {
      RowRegresses(RequirementFor(registry, Current(before, after)), before, after);
      assert Current(before, after).pillar == key.pillar;
    }
  }

  /** No passing row of the left report is recorded as an undeclared facet. */
  predicate PassesAreDeclared(left: seq<TestResult>) {
    forall i | 0 <= i < |left| :: left[i].outcome.Pass? ==> left[i].capabilityDeclared != Some(false)
  }

  /** Then the exception for added facets is empty: a row gates whenever it passed and no longer does. */
  lemma GatingPlain(registry: Registry, left: seq<TestResult>, right: seq<TestResult>, key: RowKey)
    requires PassesAreDeclared(left) && !key.pillar.Storage?
    ensures var before, after := ResultOf(left, key), ResultOf(right, key);
            RowRegressed(registry, left, right, key) <==>
              Passed(before) && !Passed(after) && !RequirementFor(registry, Current(before, after)).Informational?
  {
    hide RowRegressed, RequirementFor;
    GatingExact(registry, left, right, key);
    var before := ResultOf(left, key);
    if before.Some? {
      var i :| 0 <= i < |left| && left[i] == before.value;
    }
  }

  predicate NoStorage(results: seq<TestResult>) { forall i | 0 <= i < |results| :: !results[i].pillar.Storage? }

  /** A core or optional row that passed on the left and is missing or not passing on the right. */
  predicate PassLost(registry: Registry, left: seq<TestResult>, right: seq<TestResult>, i: nat)
    requires i < |left|
  {
    var after := ResultOf(right, KeyOf(left[i]));
    && left[i].outcome.Pass? && !Passed(after)
    && !RequirementFor(registry, Current(Some(left[i]), after)).Informational?
  }

  lemma {:induction false} UniqueResult(results: seq<TestResult>, i: nat)
    requires UniqueIds(results) && i < |results|
    ensures ResultOf(results, KeyOf(results[i])) == Some(results[i])
  {
    if i > 0 {
      assert results[1..][i - 1] == results[i];
      var rest := results[1..];
      assert forall p, q | 0 <= p < q < |rest| :: rest[p] == results[p + 1] && rest[q] == results[q + 1];
      UniqueResult(results[1..], i - 1);
    }
  }

  /** The gating rule: the comparison gates if and only if some core or optional pass was lost. */
  lemma GatingRule(registry: Registry, left: seq<TestResult>, right: seq<TestResult>)
    requires UniqueIds(left) && PassesAreDeclared(left) && NoStorage(left) && NoStorage(right)
    ensures (exists key :: RowRegressed(registry, left, right, key))
       <==> exists i | 0 <= i < |left| :: PassLost(registry, left, right, i)
  {
    hide RowRegressed, RequirementFor, PassesAreDeclared, UniqueIds;
    if exists key :: RowRegressed(registry, left, right, key) {
      var key :| RowRegressed(registry, left, right, key);
      KeyNotStorage(registry, left, right, key);
      GatingPlain(registry, left, right, key);
      var before := ResultOf(left, key).value;
      var i :| 0 <= i < |left| && left[i] == before;
      assert PassLost(registry, left, right, i);
    }
    if exists i | 0 <= i < |left| :: PassLost(registry, left, right, i) {
      var i :| 0 <= i < |left| && PassLost(registry, left, right, i);
      UniqueResult(left, i);
      GatingPlain(registry, left, right, KeyOf(left[i]));
    }
  }

  lemma KeyNotStorage(registry: Registry, left: seq<TestResult>, right: seq<TestResult>, key: RowKey)
    requires NoStorage(left) && NoStorage(right) && RowRegressed(registry, left, right, key)
    ensures !key.pillar.Storage?
  {
    hide ChangeOf;
  }
}
