/**
 How a turn ends: with the last terminal that its records report, unless that is
 a success or a failure which the exit contradicts.
 */
module Reports {
  import opened Prelude
  import opened Text
  import opened Json
  import opened Pointers
  import opened Framing
  import opened JsonLines
  import opened Carriers
  import opened Events
  import opened Additions
  import opened Polls
  import opened Exactness
  import opened Expanded

  /** A terminal event; on stdout, one of this turn. */
  predicate EndsTurn(config: CollectorConfig, owner: Owner, turn: nat, stamp: Stamp) {
    IsTerminal(stamp.event) && (config.frame.source == Stdout ==> StartsWith(stamp.id, TurnPrefix(owner, turn) + ":"))
  }

  /** The last such event of the list. */
  predicate LastToEnd(config: CollectorConfig, owner: Owner, turn: nat, stamps: seq<Stamp>, j: int) {
    && 0 <= j < |stamps| && EndsTurn(config, owner, turn, stamps[j])
    && forall k | j < k < |stamps| :: !EndsTurn(config, owner, turn, stamps[k])
  }

  lemma {:induction false} LastTerminalIs(config: CollectorConfig, owner: Owner, turn: nat, stamps: seq<Stamp>, j: int)
    requires LastToEnd(config, owner, turn, stamps, j)
    ensures LastTerminal(config, owner, turn, stamps) == Some(stamps[j])
  {
    hide TurnPrefix;
    var n := |stamps| - 1;
    assert EndsTurn(config, owner, turn, stamps[n]) <==> j == n;
    if j < n {
      LastTerminalIs(config, owner, turn, stamps[..n], j);
    }
  }

  lemma {:induction false} NoTerminalAtAll(config: CollectorConfig, owner: Owner, turn: nat, stamps: seq<Stamp>)
    requires forall k | 0 <= k < |stamps| :: !EndsTurn(config, owner, turn, stamps[k])
    ensures LastTerminal(config, owner, turn, stamps).None?
  {
    hide TurnPrefix;
    if stamps != [] {
      NoTerminalAtAll(config, owner, turn, stamps[..|stamps| - 1]);
    }
  }

  lemma {:induction false} SomeIsLast(config: CollectorConfig, owner: Owner, turn: nat, stamps: seq<Stamp>, i: nat) returns (j: nat)
    requires i < |stamps| && EndsTurn(config, owner, turn, stamps[i])
    ensures i <= j && LastToEnd(config, owner, turn, stamps, j)
    decreases |stamps| - i
  {
    hide EndsTurn;
    if k :| i < k < |stamps| && EndsTurn(config, owner, turn, stamps[k]) {
      j := SomeIsLast(config, owner, turn, stamps, k);
    } else {
      j := i;
    }
  }

  /** What stands although the exit says otherwise. */
  predicate Stands(event: Vocabulary, expected: Vocabulary) {
    event == expected || event == TerminalCancelled || event == TerminalTimeout
  }

  /**
   When the exit adds an event of its own: exactly if no event reported by the
   records ended the turn, or the last one that did is another success or failure.
   */
  lemma ExitAdds(config: CollectorConfig, owner: Owner, turn: nat, start: nat, p: Progress, expected: Vocabulary)
    requires start <= |p.index|
    ensures var added, closed := p.index[start..], Closed(config, owner, turn, start, p, expected);
            if exists j :: LastToEnd(config, owner, turn, added, j) && Stands(added[j].event, expected) then closed == p
            else closed.index == p.index + [ExitStamp(owner, turn, p.next, expected)] && closed.next == p.next + 1
  {
    hide EndsTurn, TurnPrefix, LastTerminal;
    var added := p.index[start..];
    if i :| 0 <= i < |added| && EndsTurn(config, owner, turn, added[i]) {
      var j := SomeIsLast(config, owner, turn, added, i);
      LastTerminalIs(config, owner, turn, added, j);
      forall k | LastToEnd(config, owner, turn, added, k) ensures k == j {}
    } else {
      NoTerminalAtAll(config, owner, turn, added);
    }
  }

  // ---- A reported class that the exit confirms -------------------------------------------------

  /** Every terminal that the record fires is the event of this name. */
  ghost predicate ReportsOnly(setting: Setting, raw: Value, name: string) {
    forall i: nat, k: nat | Fires(setting, raw, i, k) && TerminalName(setting.mapping.rules[i].event) ::
      setting.mapping.rules[i].event == name
  }

  ghost predicate ReportsNothing(setting: Setting, raw: Value) {
    forall i: nat, k: nat | Fires(setting, raw, i, k) :: !TerminalName(setting.mapping.rules[i].event)
  }

  lemma OwnInTurn(config: CollectorConfig, owner: Owner, turn: nat, raw: Value, at: nat, id: string)
    requires IsOwn(SettingOf(config, owner, turn, true), raw, at, id) && config.frame.source == Stdout
    ensures StartsWith(id, TurnPrefix(owner, turn) + ":")
  {
    hide SourceId, Decimal;
    var setting := SettingOf(config, owner, turn, true);
    var rule: nat, element: nat :| id == EventId(setting, raw, at, rule, element);
    assert IdPrefix(setting) == TurnPrefix(owner, turn) + ":" by {
      assert owner.localId + ":" + ("turn-" + Decimal(turn)) + ":" == owner.localId + ":turn-" + Decimal(turn) + ":";
    }
  }

  lemma NamesDiffer(v: Vocabulary, w: Vocabulary)
    requires VocabularyName(v) == VocabularyName(w)
    ensures v == w
  {
    hide VocabularyName;
    VocabularyNames(v, VocabularyName(w));
    VocabularyNames(w, VocabularyName(v));
  }

  lemma ReportedClass(setting: Setting, raw: Value, at: nat, stamp: Stamp, expected: Vocabulary)
    requires Yields(setting, raw, at, stamp) && IsTerminal(stamp.event)
    requires ReportsOnly(setting, raw, VocabularyName(expected))
    ensures stamp.event == expected
  {
    hide Fires, EventId, ActorOf, VocabularyName;
    var i: nat, k: nat :| YieldedBy(setting, raw, at, i, k, stamp);
    NameIsTerminal(stamp.event);
    NamesDiffer(stamp.event, expected);
  }

  lemma NothingReported(setting: Setting, records: seq<Value>, base: nat, stamp: Stamp)
    requires IsFrom(setting, records, base, stamp)
    requires forall i | 0 <= i < |records| :: ReportsNothing(setting, records[i])
    ensures !IsTerminal(stamp.event)
  {
    hide Fires, EventId, ActorOf, VocabularyName;
    var i :| 0 <= i < |records| && Yields(setting, records[i], base + i, stamp);
    var rule: nat, k: nat :| YieldedBy(setting, records[i], base + i, rule, k, stamp);
    assert ReportsNothing(setting, records[i]);
    NameIsTerminal(stamp.event);
  }

  /** The terminals among what the records from `raw` on add are all of the class that `raw` reports, and there is one. */
  lemma ReportedLast(setting: Setting, raw: Value, at: nat, after: seq<Value>, p: Progress, rule: nat, element: nat,
                     expected: Vocabulary)
    returns (j: nat)
    requires Fires(setting, raw, rule, element) && setting.mapping.rules[rule].event == VocabularyName(expected)
    requires ReportsOnly(setting, raw, VocabularyName(expected)) && Fresh(setting, raw, at, p.seen)
    requires forall i | 0 <= i < |after| :: ReportsNothing(setting, after[i])
    requires FoldRecords(setting, [raw] + after, at, p).Ok?
    ensures var q := FoldRecords(setting, [raw] + after, at, p).value;
            && |p.index| <= j < |q.index| && q.index[j].event == expected && IsOwn(setting, raw, at, q.index[j].id)
            && forall k | |p.index| <= k < |q.index| && IsTerminal(q.index[k].event) :: q.index[k].event == expected
  {
    hide FoldRecord, Extends, Fires, EventId, Yields, IsFrom, AddsOwn, TakesAll, VocabularyName, ReportsOnly;
    var all := [raw] + after;
    assert all[1..] == after;
    var mid := FoldRecord(setting, raw, at, p).value;
    var q := FoldRecords(setting, all, at, p).value;
    FoldRecordExtends(setting, raw, at, p);
    RecordAddsOwn(setting, raw, at, p);
    FoldRecordsExtends(setting, after, at + 1, mid);
    RecordsAddTheirs(setting, after, at + 1, mid);
    j := FiresIsAdded(setting, raw, at, rule, element, p, mid);
    NamesDiffer(mid.index[j].event, expected);
    StaysIndexed(setting, mid, q);
    YieldsOne(setting, raw, at, rule, element, mid.index[j]);
    forall k | |p.index| <= k < |q.index| && IsTerminal(q.index[k].event) ensures q.index[k].event == expected {
      if k < |mid.index| {
        AddedIsYielded(setting, raw, at, p, mid, k);
        ReportedClass(setting, raw, at, q.index[k], expected);
      } else {
        assert IsFrom(setting, after, at + 1, q.index[k]) by { AddedIsFrom(setting, after, at + 1, mid, q, k); }
        NothingReported(setting, after, at + 1, q.index[k]);
      }
    }
  }

  lemma StaysIndexed(setting: Setting, p: Progress, q: Progress)
    requires Extends(setting, p, q)
    ensures |p.index| <= |q.index| && forall k | 0 <= k < |p.index| :: q.index[k] == p.index[k]
  {
    hide IdPrefix;
    forall k | 0 <= k < |p.index| ensures q.index[k] == p.index[k] { assert q.index[..|p.index|][k] == q.index[k]; }
  }

  lemma YieldsOne(setting: Setting, raw: Value, at: nat, rule: nat, element: nat, stamp: Stamp)
    requires YieldedBy(setting, raw, at, rule, element, stamp)
    ensures Yields(setting, raw, at, stamp) && IsOwn(setting, raw, at, stamp.id)
  {
    hide EventId, Fires, ActorOf, VocabularyName;
  }

  lemma AddedIsYielded(setting: Setting, raw: Value, at: nat, p: Progress, q: Progress, k: nat)
    requires AddsOwn(setting, raw, at, p, q) && |p.index| <= k < |q.index|
    ensures Yields(setting, raw, at, q.index[k])
  {
    hide Yields;
  }

  lemma AddedIsFrom(setting: Setting, records: seq<Value>, base: nat, p: Progress, q: Progress, k: nat)
    requires AddsTheirs(setting, records, base, p, q) && |p.index| <= k < |q.index|
    ensures IsFrom(setting, records, base, q.index[k])
  {
    hide IsFrom;
  }

  /**
   A turn whose last report is the exit's own class. If among the untaken records
   one that is new reports just that class, and none after it reports any, then the
   completed poll adds nothing of the exit's: the reported event is there, and the
   last event that ends the turn is of that class.
   */
  lemma ReportedClassStands(config: CollectorConfig, owner: Owner, turn: nat, c: Collected, file: string,
                            expected: Vocabulary, before: seq<Value>, raw: Value, after: seq<Value>, rule: nat, element: nat)
    returns (j: nat)
    requires Untaken(config, c.taken, file, true) == before + ([raw] + after)
    requires Completed(config, owner, turn, c, file, expected).Ok? && IsTerminal(expected)
    requires var setting, at := SettingOf(config, owner, turn, true), c.taken + |before|;
             && Fires(setting, raw, rule, element) && config.mapping.rules[rule].event == VocabularyName(expected)
             && ReportsOnly(setting, raw, VocabularyName(expected))
             && Fresh(setting, raw, at, c.progress.seen) && Apart(setting, before, c.taken, raw, at)
             && forall i | 0 <= i < |after| :: ReportsNothing(setting, after[i])
    ensures var setting := SettingOf(config, owner, turn, true);
            var r := Completed(config, owner, turn, c, file, expected).value.progress;
            && FoldRecords(setting, before + ([raw] + after), c.taken, c.progress) == Ok(r)
            && |c.progress.index| <= j < |r.index| && r.index[j].event == expected
            && EndsTurn(config, owner, turn, r.index[j])
            && IsOwn(setting, raw, c.taken + |before|, r.index[j].id)
            && forall k | j < k < |r.index| && EndsTurn(config, owner, turn, r.index[k]) :: r.index[k].event == expected
  {
    hide FoldRecords, WellFramed, Untaken, TurnPrefix, Fires, Fresh, Apart, ReportsOnly, ReportsNothing, Extends, IsOwn,
         NamespaceOf, VocabularyName, LastTerminal;
    var setting, at, start := SettingOf(config, owner, turn, true), c.taken + |before|, |c.progress.index|;
    FoldRecordsAppend(setting, before, [raw] + after, c.taken, c.progress);
    var mid := FoldRecords(setting, before, c.taken, c.progress).value;
    var q := FoldRecords(setting, [raw] + after, at, mid).value;
    FoldRecordsExtends(setting, before, c.taken, c.progress);
    FoldRecordsExtends(setting, before + ([raw] + after), c.taken, c.progress);
    StaysIndexed(setting, c.progress, mid);
    StaysFresh(setting, before, c.taken, raw, at, c.progress);
    j := ReportedLast(setting, raw, at, after, mid, rule, element, expected);
    if config.frame.source == Stdout {
      OwnInTurn(config, owner, turn, raw, at, q.index[j].id);
    }
    var added := q.index[start..];
    var last := SomeIsLast(config, owner, turn, added, j - start);
    assert added[last] == q.index[start + last] && IsTerminal(added[last].event);
    ExitAdds(config, owner, turn, start, q, expected);
  }

  // ---- What is held back, and what fails ---------------------------------------------------------

  lemma SameType(mapping: Mapping, raw: Value)
    requires raw.Object?
    ensures HeldType(mapping, raw) == EventType(mapping, raw)
  {}

  /**
   Where terminal rules match whole records, a running poll holds back exactly the
   records that report a terminal.
   */
  lemma HeldExactly(setting: Setting, raw: Value)
    requires TerminalRulesPlain(setting.mapping) && setting.allowTerminal && raw.Object?
    ensures Held(setting.mapping, raw) <==> !ReportsNothing(setting, raw)
  {
    hide RuleMatches, EventType, HeldType;
    SameType(setting.mapping, raw);
    if i :| 0 <= i < |setting.mapping.rules| && HeldType(setting.mapping, raw) == Some(setting.mapping.rules[i].matches)
            && RuleMatches(raw, setting.mapping.rules[i]) && TerminalName(setting.mapping.rules[i].event) {
      assert Expansions(setting.mapping.rules[i], raw) == [None];
      assert Fires(setting, raw, i, 0);
    }
    if i: nat, k: nat :| Fires(setting, raw, i, k) && TerminalName(setting.mapping.rules[i].event) {
      assert Expansions(setting.mapping.rules[i], raw) == [None];
    }
  }

  /** An error record on a line of stdout fails the exit, whatever its code. */
  lemma ErrorLineFails(contract: ExitContract, exit: Exit, parse: string -> Option<Value>, before: string, line: string,
                       after: string, v: Value)
    requires exit.stdout == before + (['\n'] + (line + ['\n'] + after)) && '\n' !in line
    requires parse(TrimAscii(line)) == Some(v)
    requires Holds(v, "type", "error")
             || (Holds(v, "type", "result") && "is_error" in v.fields && v.fields["is_error"] == Bool(true))
    ensures ClassifyExit(contract, exit, parse) == TerminalFailure
  {
    hide TrimAscii;
    var rest := line + ['\n'] + after;
    assert exit.stdout == before + ['\n'] + rest;
    SplitAppend(before, '\n', rest);
    SplitHead(line, '\n', after);
    var n := |Lines(before)|;
    assert Lines(exit.stdout)[n] == line;
    assert IsErrorRecord(v);
    assert TopLevelError(exit.stdout, parse);
  }

  // ---- The shipped mock-exec mapping ----------------------------------------------------------

  /** A rule of the mock harness: the record's type names the event. */
  function MockRule(name: string): Rule { Rule(name, name, map[], "", "/payload", map[]) }

  const MOCK_MAPPING := Mapping("", "/id", [
    MockRule("turn-accepted"), MockRule("model-request"), MockRule("model-response"), MockRule("context-compacted"),
    MockRule("tool-call"), MockRule("tool-result"), MockRule("barrier-reached"), MockRule("terminal-success"),
    MockRule("terminal-failure"), MockRule("terminal-cancelled")])

  const MOCK_SUCCESS := Object(map["type" := Str("terminal-success"), "id" := Str("t1"), "payload" := Object(map[])])

  lemma MockType(v: Value)
    requires v.Object? && "type" in v.fields && v.fields["type"] == Str("terminal-success")
    ensures EventType(MOCK_MAPPING, v) == Some("terminal-success")
  {}

  lemma OnlySuccess(i: nat)
    requires i < |MOCK_MAPPING.rules|
    ensures MOCK_MAPPING.rules[i].matches == "terminal-success" <==> i == 7
  {
    assert "terminal-failure"[9] != "terminal-success"[9];
  }

  /** No rule but the one for successes gives anything. */
  lemma {:induction false} MockSkips(setting: Setting, at: nat, i: nat, p: Progress)
    requires setting.mapping == MOCK_MAPPING && i <= |MOCK_MAPPING.rules|
    ensures i > 7 ==> FoldRules(setting, MOCK_SUCCESS, at, "terminal-success", i, p) == Ok(p)
    ensures i <= 7 ==> FoldRules(setting, MOCK_SUCCESS, at, "terminal-success", i, p)
                       == FoldRules(setting, MOCK_SUCCESS, at, "terminal-success", 7, p)
    decreases |MOCK_MAPPING.rules| - i
  {
    hide FoldExpansions, Expansions;
    if i < |MOCK_MAPPING.rules| && i != 7 {
      OnlySuccess(i);
      MockSkips(setting, at, i + 1, p);
    }
  }

  /** The success event that the mock harness writes, as the rule gives it. */
  lemma MockNormalizes(setting: Setting, id: string, cursor: nat)
    requires setting.mapping == MOCK_MAPPING
    ensures var r := Normalized(setting, MockRule("terminal-success"), MOCK_SUCCESS, MOCK_SUCCESS, id, cursor);
            r.Ok? && StampOf(r.value) == Stamp(id, cursor, TerminalSuccess, setting.localId, setting.marker)
  {
    hide EventType, CursorNumber, ValueEq, Lookup;
    var record := Identified(setting, MOCK_SUCCESS, id, cursor);
    MockType(record);
    LookupField(record, "payload", "/payload");
    VocabularyNames(TerminalSuccess, "terminal-success");
  }

  /**
   The mock harness reports a success in the last line of its source and exits with
   that class: the turn is indexed as this one success.
   */
  lemma MockSuccess(config: CollectorConfig, owner: Owner, turn: nat)
    requires config.mapping == MOCK_MAPPING && config.frame.format == JsonLines
    requires config.frame.parse(Serialize(MOCK_SUCCESS)) == Some(MOCK_SUCCESS)
    requires Fits(config.frame, Serialize(MOCK_SUCCESS))
    ensures var setting := SettingOf(config, owner, turn, true);
            var file := Serialize(MOCK_SUCCESS) + if config.frame.source == Stdout then "" else "\n";
            var r := Completed(config, owner, turn, Collected(0, Progress({}, 1, [])), file, TerminalSuccess);
            r.Ok? && r.value.progress.index
                     == [Stamp(EventId(setting, MOCK_SUCCESS, 0, 7, 0), 1, TerminalSuccess, owner.localId, owner.marker)]
  {
    hide FoldRules, EventId, LastTerminal, Normalized, Serialize, WellFramed, VisibleRecords, IdPrefix, TurnPrefix, NamespaceOf;
    var setting, p := SettingOf(config, owner, turn, true), Progress({}, 1, []);
    var file := Serialize(MOCK_SUCCESS) + if config.frame.source == Stdout then "" else "\n";
    OneJsonLine(config.frame, MOCK_SUCCESS, true);
    assert Serialize(MOCK_SUCCESS) + "" == Serialize(MOCK_SUCCESS);
    FramingGrows(config.frame, Serialize(MOCK_SUCCESS), "\n");
    assert [MOCK_SUCCESS][0..] == [MOCK_SUCCESS];
    var id := EventId(setting, MOCK_SUCCESS, 0, 7, 0);
    MockFolds(setting, p);
    var q := FoldRecords(setting, [MOCK_SUCCESS], 0, p).value;
    assert q.index[0..] == q.index;
    OwnId(setting, MOCK_SUCCESS, 0, 7, 0);
    if config.frame.source == Stdout {
      OwnInTurn(config, owner, turn, MOCK_SUCCESS, 0, id);
    }
    assert LastToEnd(config, owner, turn, q.index, 0);
    ExitAdds(config, owner, turn, 0, q, TerminalSuccess);
  }

  lemma MockFolds(setting: Setting, p: Progress)
    requires setting.mapping == MOCK_MAPPING && setting.allowTerminal && p == Progress({}, 1, [])
    ensures var stamp := Stamp(EventId(setting, MOCK_SUCCESS, 0, 7, 0), 1, TerminalSuccess, setting.localId, setting.marker);
            FoldRecords(setting, [MOCK_SUCCESS], 0, p) == Ok(Progress({stamp.id}, 2, [stamp]))
  {
    hide EventId, Normalized;
    var id := EventId(setting, MOCK_SUCCESS, 0, 7, 0);
    var q := Progress({id}, 2, [Stamp(id, 1, TerminalSuccess, setting.localId, setting.marker)]);
    assert [MOCK_SUCCESS][1..] == [];
    MockType(MOCK_SUCCESS);
    MockSkips(setting, 0, 0, p);
    MockSkips(setting, 0, 8, q);
    MockNormalizes(setting, id, 1);
    assert MOCK_MAPPING.rules[7] == MockRule("terminal-success") && RuleMatches(MOCK_SUCCESS, MOCK_MAPPING.rules[7]);
    assert {} + {id} == {id} && [] + q.index == q.index;
    assert Emit(setting, MOCK_SUCCESS, 0, 7, 0, None, p) == Ok(q);
    assert FoldExpansions(setting, MOCK_SUCCESS, 0, 7, [None], 1, q) == Ok(q);
  }
}
