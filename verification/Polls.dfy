/**
 What one poll of a session's source adds to its event index, and why the way an
 invocation is polled does not matter in the end.
 */
module Polls {
  import opened Prelude
  import opened Text
  import opened Json
  import opened Pointers
  import opened Framing
  import opened Events

  // ---- The exit contract --------------------------------------------------------

  datatype ExitContract = ExitContract(
    success: int,
    failures: map<string, int>,
    successStdout: seq<string>,
    failureStdout: seq<string>)

  /** How the child ended: its exit code, if it has one, and its captured stdout. */
  datatype Exit = Exit(code: Option<int>, stdout: string)

  predicate IsErrorRecord(v: Value) {
    var kind := AsStr(Get(v, "type"));
    kind == Some("error") || (kind == Some("result") && Get(v, "is_error") == Some(Bool(true)))
  }

  /** Some line of stdout is a top-level error record. */
  predicate TopLevelError(stdout: string, parse: string -> Option<Value>) {
    exists i | 0 <= i < |Lines(stdout)| ::
      parse(TrimAscii(Lines(stdout)[i])).Some? && IsErrorRecord(parse(TrimAscii(Lines(stdout)[i])).value)
  }

  predicate FailureMarked(contract: ExitContract, stdout: string, parse: string -> Option<Value>) {
    || (exists i | 0 <= i < |contract.failureStdout| :: Occurs(contract.failureStdout[i], stdout))
    || TopLevelError(stdout, parse)
  }

  /** The terminal class of `classify_exit_contract`. */
  function ClassifyExit(contract: ExitContract, exit: Exit, parse: string -> Option<Value>): (v: Vocabulary)
    ensures v == TerminalSuccess || v == TerminalFailure
    ensures v == TerminalFailure <==>
              || exit.code != Some(contract.success)
              || (exists marker | marker in contract.failureStdout :: Occurs(marker, exit.stdout))
              || TopLevelError(exit.stdout, parse)
              || (contract.successStdout != []
                  && forall marker | marker in contract.successStdout :: !Occurs(marker, exit.stdout))
  {
    if exit.code == Some(contract.success)
       && !FailureMarked(contract, exit.stdout, parse)
       && (contract.successStdout == []
           || exists i | 0 <= i < |contract.successStdout| :: Occurs(contract.successStdout[i], exit.stdout))
    then TerminalSuccess else TerminalFailure
  }

  /** The category of a failed exit: the declared code first, then the reason that is left. */
  function FailureCategory(contract: ExitContract, exit: Exit, parse: string -> Option<Value>, names: seq<string>): string
    requires forall n :: n in names ==> n in contract.failures
    decreases |names|
  {
    if names != [] && exit.code == Some(contract.failures[names[0]]) then names[0]
    else if names != [] then FailureCategory(contract, exit, parse, names[1..])
    else if FailureMarked(contract, exit.stdout, parse) then "stdout-failure"
    else if exit.code == Some(contract.success) then "stdout-contract"
    else "unmapped-exit"
  }

  /** The exit code is one that the contract declares under this name. */
  predicate DeclaredAs(contract: ExitContract, exit: Exit, name: string) {
    name in contract.failures && exit.code == Some(contract.failures[name])
  }

  /**
   The category of a failure: the first declared name, in order, of its exit code;
   without one, a failure marker, a success code that the markers contradict, or an
   exit code that nobody declared.
   */
  lemma {:induction false} CategoryMeans(contract: ExitContract, exit: Exit, parse: string -> Option<Value>, names: seq<string>)
    requires forall n :: n in names ==> n in contract.failures
    ensures var category := FailureCategory(contract, exit, parse, names);
            && (forall i | 0 <= i < |names| && DeclaredAs(contract, exit, names[i])
                           && (forall j | 0 <= j < i :: !DeclaredAs(contract, exit, names[j])) :: category == names[i])
            && ((forall i | 0 <= i < |names| :: !DeclaredAs(contract, exit, names[i])) ==>
                  category == if FailureMarked(contract, exit.stdout, parse) then "stdout-failure"
                              else if exit.code == Some(contract.success) then "stdout-contract" else "unmapped-exit")
    decreases |names|
  {
    hide FailureMarked;
    if names != [] && !DeclaredAs(contract, exit, names[0]) {
      var rest := names[1..];
      CategoryMeans(contract, exit, parse, rest);
      assert forall i | 1 <= i < |names| :: names[i] == rest[i - 1];
      forall i | 0 <= i < |names| && DeclaredAs(contract, exit, names[i])
                 && (forall j | 0 <= j < i :: !DeclaredAs(contract, exit, names[j]))
        ensures FailureCategory(contract, exit, parse, names) == names[i]
      {
        assert forall j | 0 <= j < i - 1 :: !DeclaredAs(contract, exit, rest[j]) by {
          assert forall j | 0 <= j < i - 1 :: rest[j] == names[j + 1];
        }
      }
    }
  }

  function ExitPayload(contract: ExitContract, exit: Exit, parse: string -> Option<Value>): Value {
    if ClassifyExit(contract, exit, parse).TerminalSuccess? then Object(map["status" := Str("success")])
    else
      Object(map["status" := Str("failure"),
                 "category" := Str(FailureCategory(contract, exit, parse, SortedStrings(contract.failures.Keys)))])
  }

  /** The exit's details: its status, and of a failure the category. */
  lemma ExitPayloadHolds(contract: ExitContract, exit: Exit, parse: string -> Option<Value>)
    ensures var payload, failed := ExitPayload(contract, exit, parse), ClassifyExit(contract, exit, parse) == TerminalFailure;
            && Get(payload, "status") == Some(Str(if failed then "failure" else "success"))
            && (!failed ==> Get(payload, "category").None?)
            && (failed ==> Get(payload, "category")
                           == Some(Str(FailureCategory(contract, exit, parse, SortedStrings(contract.failures.Keys)))))
  {
    hide FailureCategory, SortedStrings;
    assert |"status"| != |"category"|;
  }

  // ---- One poll ----------------------------------------------------------------------

  datatype CollectorConfig = CollectorConfig(
    frame: FrameConfig,
    mapping: Mapping,
    fixtures: Fixtures,
    digest: (Value, nat) -> string,
    exit: ExitContract)

  datatype Owner = Owner(localId: string, marker: string)

  datatype CollectError = FrameFailed(frame: FrameError) | EventFailed(event: EventError)

  /** Absolute index of the first record not yet taken, and the progress of the index. */
  datatype Collected = Collected(taken: nat, progress: Progress)

  function TurnPrefix(owner: Owner, turn: nat): string { owner.localId + ":turn-" + Decimal(turn) }

  function NamespaceOf(config: CollectorConfig, turn: nat): string {
    if config.frame.source == Stdout then "turn-" + Decimal(turn) else "journal"
  }

  function SettingOf(config: CollectorConfig, owner: Owner, turn: nat, allowTerminal: bool): Setting {
    Setting(config.mapping, owner.localId, owner.marker, NamespaceOf(config, turn), allowTerminal, config.digest)
  }

  /** A record that a running poll must hold back: some terminal rule matches it. */
  predicate Held(mapping: Mapping, raw: Value) {
    exists i | 0 <= i < |mapping.rules| ::
      && HeldType(mapping, raw) == Some(mapping.rules[i].matches)
      && RuleMatches(raw, mapping.rules[i])
      && TerminalName(mapping.rules[i].event)
  }

  /** How many records come before the first one that is held back. */
  function BeforeHeld(mapping: Mapping, records: seq<Value>): (n: nat)
    ensures n <= |records|
    ensures forall i | 0 <= i < n :: !Held(mapping, records[i])
    ensures n < |records| ==> Held(mapping, records[n])
  {
    if records == [] || Held(mapping, records[0]) then 0 else 1 + BeforeHeld(mapping, records[1..])
  }

  function Untaken(config: CollectorConfig, taken: nat, file: string, finished: bool): seq<Value> {
    var visible := VisibleRecords(config.frame, file, finished);
    if taken <= |visible| then visible[taken..] else []
  }

  /** A poll while the child runs: everything before the first held record is indexed. */
  function Running(config: CollectorConfig, owner: Owner, turn: nat, c: Collected, file: string)
    : Result<Collected, CollectError>
  {
    if !WellFramed(config.frame, file) then Err(FrameFailed(RecordTooLong))
    else
      var records := Untaken(config, c.taken, file, false);
      var n := BeforeHeld(config.mapping, records);
      match FoldRecords(SettingOf(config, owner, turn, false), records[..n], c.taken, c.progress)
      case Err(e) => Err(EventFailed(e))
      case Ok(q) => Ok(Collected(c.taken + n, q))
  }

  /** The last terminal event; on stdout only events of this turn are considered. */
  function LastTerminal(config: CollectorConfig, owner: Owner, turn: nat, stamps: seq<Stamp>): (r: Option<Stamp>)
    ensures r.Some? ==> r.value in stamps && IsTerminal(r.value.event)
  {
    if stamps == [] then None
    else
      var last := stamps[|stamps| - 1];
      if IsTerminal(last.event)
         && (config.frame.source == Stdout ==> StartsWith(last.id, TurnPrefix(owner, turn) + ":"))
      then Some(last)
      else LastTerminal(config, owner, turn, stamps[..|stamps| - 1])
  }

  /** The exit contract has the last word unless the source reported its class, a cancellation or a timeout. */
  predicate NeedsExit(last: Option<Stamp>, expected: Vocabulary) {
    last.None? || (last.value.event != expected
                   && !last.value.event.TerminalCancelled? && !last.value.event.TerminalTimeout?)
  }

  function ExitStamp(owner: Owner, turn: nat, cursor: nat, expected: Vocabulary): Stamp {
    Stamp(TurnPrefix(owner, turn) + ":terminal", cursor, expected, owner.localId, owner.marker)
  }

  /** Close the turn: add the exit contract's terminal where it is needed. */
  function Closed(config: CollectorConfig, owner: Owner, turn: nat, start: nat, p: Progress, expected: Vocabulary): Progress
    requires start <= |p.index|
  {
    if NeedsExit(LastTerminal(config, owner, turn, p.index[start..]), expected) then
      var stamp := ExitStamp(owner, turn, p.next, expected);
      Progress(p.seen + {stamp.id}, p.next + 1, p.index + [stamp])
    else p
  }

  /** The poll that sees the child's exit: all records, then the terminal. */
  function Completed(config: CollectorConfig, owner: Owner, turn: nat, c: Collected, file: string, expected: Vocabulary)
    : Result<Collected, CollectError>
  {
    if !WellFramed(config.frame, file) then Err(FrameFailed(RecordTooLong))
    else
      var records := Untaken(config, c.taken, file, true);
      var setting := SettingOf(config, owner, turn, true);
      FoldRecordsExtends(setting, records, c.taken, c.progress);
      match FoldRecords(setting, records, c.taken, c.progress)
      case Err(e) => Err(EventFailed(e))
      case Ok(q) =>
        Ok(Collected(c.taken + |records|, Closed(config, owner, turn, |c.progress.index|, q, expected)))
  }

  /** A poll of a journal while no invocation runs: all records, terminals included, and no exit to report. */
  function Idle(config: CollectorConfig, owner: Owner, turn: nat, c: Collected, file: string)
    : Result<Collected, CollectError>
  {
    if !WellFramed(config.frame, file) then Err(FrameFailed(RecordTooLong))
    else
      var records := Untaken(config, c.taken, file, true);
      match FoldRecords(SettingOf(config, owner, turn, true), records, c.taken, c.progress)
      case Err(e) => Err(EventFailed(e))
      case Ok(q) => Ok(Collected(c.taken + |records|, q))
  }

  // ---- Terminal discipline ---------------------------------------------------------------

  /** While the child runs, the source adds no terminal event. */
  lemma RunningAddsNoTerminal(config: CollectorConfig, owner: Owner, turn: nat, c: Collected, file: string)
    ensures var r := Running(config, owner, turn, c, file);
            r.Ok? ==>
              && c.progress.index <= r.value.progress.index
              && forall i | |c.progress.index| <= i < |r.value.progress.index| ::
                   !IsTerminal(r.value.progress.index[i].event)
  {
    hide FoldRecords, WellFramed, Untaken;
    var records := Untaken(config, c.taken, file, false);
    FoldRecordsExtends(SettingOf(config, owner, turn, false), records[..BeforeHeld(config.mapping, records)], c.taken,
                       c.progress);
  }

  lemma {:induction false} LastTerminalSnoc(config: CollectorConfig, owner: Owner, turn: nat, stamps: seq<Stamp>, s: Stamp)
    requires IsTerminal(s.event)
    requires config.frame.source == Stdout ==> StartsWith(s.id, TurnPrefix(owner, turn) + ":")
    ensures LastTerminal(config, owner, turn, stamps + [s]) == Some(s)
  {}

  lemma ExitStampOwn(owner: Owner, turn: nat)
    ensures StartsWith(TurnPrefix(owner, turn) + ":terminal", TurnPrefix(owner, turn) + ":")
  {
    assert TurnPrefix(owner, turn) + ":terminal" == (TurnPrefix(owner, turn) + ":") + "terminal";
  }

  /**
   The poll that completes a turn leaves a terminal event among its additions, and
   the last one is the exit contract's class, a cancellation or a timeout.
   */
  lemma CompletedEndsTurn(config: CollectorConfig, owner: Owner, turn: nat, c: Collected, file: string,
                          expected: Vocabulary)
    requires IsTerminal(expected)
    ensures var r := Completed(config, owner, turn, c, file, expected);
            r.Ok? ==>
              && c.progress.index <= r.value.progress.index
              && var last := LastTerminal(config, owner, turn, r.value.progress.index[|c.progress.index|..]);
                 last.Some? && (last.value.event == expected || last.value.event.TerminalCancelled?
                                || last.value.event.TerminalTimeout?)
  {
    hide FoldRecords, WellFramed, Untaken, TurnPrefix, LastTerminal;
    var records := Untaken(config, c.taken, file, true);
    var setting := SettingOf(config, owner, turn, true);
    FoldRecordsExtends(setting, records, c.taken, c.progress);
    var folded := FoldRecords(setting, records, c.taken, c.progress);
    if folded.Ok? {
      var q, n := folded.value, |c.progress.index|;
      var stamp := ExitStamp(owner, turn, q.next, expected);
      ExitStampOwn(owner, turn);
      LastTerminalSnoc(config, owner, turn, q.index[n..], stamp);
      assert (q.index + [stamp])[n..] == q.index[n..] + [stamp];
    }
  }

  // ---- Poll independence --------------------------------------------------------------------

  /** Terminal rules match whole records, not elements of an expanded array. */
  predicate TerminalRulesPlain(mapping: Mapping) {
    forall i | 0 <= i < |mapping.rules| :: TerminalName(mapping.rules[i].event) ==> mapping.rules[i].expandPointer == ""
  }

  /** Some element of what this terminal rule expands would be a terminal event. */
  predicate EmitsTerminal(mapping: Mapping, raw: Value, i: nat)
    requires i < |mapping.rules|
  {
    var rule := mapping.rules[i];
    && TerminalName(rule.event) && EventType(mapping, raw) == Some(rule.matches) && raw.Object?
    && exists k | 0 <= k < |Expansions(rule, raw)| :: RuleMatches(Prepared(raw, Expansions(rule, raw)[k]), rule)
  }

  /** A record with a terminal is one that running polls hold back. */
  predicate Covered(mapping: Mapping, raw: Value) {
    Held(mapping, raw) || forall i | 0 <= i < |mapping.rules| :: !EmitsTerminal(mapping, raw, i)
  }

  predicate AllCovered(mapping: Mapping, records: seq<Value>) {
    forall i | 0 <= i < |records| :: Covered(mapping, records[i])
  }

  /** Mappings whose terminal rules expand nothing cover every record. */
  lemma PlainRulesCover(mapping: Mapping, raw: Value)
    requires TerminalRulesPlain(mapping)
    ensures Covered(mapping, raw)
  {
    hide RuleMatches, EventType, HeldType;
    forall i | 0 <= i < |mapping.rules| ensures EmitsTerminal(mapping, raw, i) ==> Held(mapping, raw) {
      TypesAgree(mapping, raw);
      if EmitsTerminal(mapping, raw, i) {
        assert Expansions(mapping.rules[i], raw) == [None];
        assert RuleMatches(raw, mapping.rules[i]);
      }
    }
  }

  lemma PlainRulesCoverAll(mapping: Mapping, records: seq<Value>)
    requires TerminalRulesPlain(mapping)
    ensures AllCovered(mapping, records)
  {
    hide Covered, TerminalRulesPlain;
    forall i | 0 <= i < |records| ensures Covered(mapping, records[i]) {
      PlainRulesCover(mapping, records[i]);
    }
  }

  lemma EmitIgnoresFlag(setting: Setting, raw: Value, at: nat, ruleIndex: nat, expandIndex: nat,
                        expanded: Option<Value>, p: Progress)
    requires ruleIndex < |setting.mapping.rules|
    ensures Emit(setting.(allowTerminal := false), raw, at, ruleIndex, expandIndex, expanded, p)
         == Emit(setting, raw, at, ruleIndex, expandIndex, expanded, p)
  {
    hide RuleMatches, Payload, ParseVocabulary, EventType, SourceId;
    if raw.Object? {
      var id := EventId(setting, raw, at, ruleIndex, expandIndex);
      var closed := setting.(allowTerminal := false);
      assert EventId(closed, raw, at, ruleIndex, expandIndex) == id by { SourceIgnoresFlag(setting, raw, at); }
      assert Identified(closed, Prepared(raw, expanded), id, p.next)
          == Identified(setting, Prepared(raw, expanded), id, p.next);
    }
  }

  lemma SourceIgnoresFlag(setting: Setting, raw: Value, at: nat)
    ensures SourceId(setting.(allowTerminal := false), raw, at) == SourceId(setting, raw, at)
  {}

  lemma {:induction false} ExpansionsIgnoreFlag(setting: Setting, raw: Value, at: nat, ruleIndex: nat,
                                                expansions: seq<Option<Value>>, from: nat, p: Progress)
    requires ruleIndex < |setting.mapping.rules| && from <= |expansions|
    ensures FoldExpansions(setting.(allowTerminal := false), raw, at, ruleIndex, expansions, from, p)
         == FoldExpansions(setting, raw, at, ruleIndex, expansions, from, p)
    decreases |expansions| - from
  {
    hide Emit;
    if from < |expansions| {
      EmitIgnoresFlag(setting, raw, at, ruleIndex, from, expansions[from], p);
      var step := Emit(setting, raw, at, ruleIndex, from, expansions[from], p);
      if step.Ok? {
        ExpansionsIgnoreFlag(setting, raw, at, ruleIndex, expansions, from + 1, step.value);
      }
    }
  }

  /** A rule that matches none of the expansions emits nothing from them. */
  lemma {:induction false} UnmatchedExpansions(setting: Setting, raw: Value, at: nat, ruleIndex: nat,
                                               expansions: seq<Option<Value>>, from: nat, p: Progress)
    requires ruleIndex < |setting.mapping.rules| && from <= |expansions|
    requires raw.Object? ==>
               forall k | from <= k < |expansions| ::
                 !RuleMatches(Prepared(raw, expansions[k]), setting.mapping.rules[ruleIndex])
    ensures var r := FoldExpansions(setting, raw, at, ruleIndex, expansions, from, p);
            (r.Ok? ==> r == Ok(p)) && (raw.Object? ==> r.Ok?)
    decreases |expansions| - from
  {
    hide RuleMatches, Normalized, SourceId;
    if from < |expansions| && raw.Object? {
      assert Emit(setting, raw, at, ruleIndex, from, expansions[from], p) == Ok(p);
      UnmatchedExpansions(setting, raw, at, ruleIndex, expansions, from + 1, p);
    }
  }

  lemma RuleIgnoresFlag(setting: Setting, raw: Value, at: nat, kind: string, ruleIndex: nat, p: Progress)
    requires ruleIndex < |setting.mapping.rules| && setting.allowTerminal
    requires EventType(setting.mapping, raw) == Some(kind) && !EmitsTerminal(setting.mapping, raw, ruleIndex)
    ensures var closed := FoldRule(setting.(allowTerminal := false), raw, at, kind, ruleIndex, p);
            var open := FoldRule(setting, raw, at, kind, ruleIndex, p);
            (open.Ok? || raw.Object?) ==> closed == open
  {
    hide RuleMatches, FoldExpansions, EventType, Expansions, FallbackType;
    var rule := setting.mapping.rules[ruleIndex];
    ExpansionsIgnoreFlag(setting, raw, at, ruleIndex, Expansions(rule, raw), 0, p);
    if TerminalName(rule.event) && rule.matches == kind {
      UnmatchedExpansions(setting, raw, at, ruleIndex, Expansions(rule, raw), 0, p);
    }
  }

  lemma {:induction false} RulesIgnoreFlag(setting: Setting, raw: Value, at: nat, kind: string, ruleIndex: nat,
                                           p: Progress)
    requires ruleIndex <= |setting.mapping.rules| && setting.allowTerminal
    requires EventType(setting.mapping, raw) == Some(kind)
    requires forall i | 0 <= i < |setting.mapping.rules| :: !EmitsTerminal(setting.mapping, raw, i)
    ensures var closed := FoldRules(setting.(allowTerminal := false), raw, at, kind, ruleIndex, p);
            var open := FoldRules(setting, raw, at, kind, ruleIndex, p);
            (open.Ok? || raw.Object?) ==> closed == open
    decreases |setting.mapping.rules| - ruleIndex
  {
    hide FoldRule, EventType, EmitsTerminal;
    if ruleIndex < |setting.mapping.rules| {
      RuleIgnoresFlag(setting, raw, at, kind, ruleIndex, p);
      var step := FoldRule(setting, raw, at, kind, ruleIndex, p);
      if step.Ok? {
        RulesIgnoreFlag(setting, raw, at, kind, ruleIndex + 1, step.value);
      }
    }
  }

  predicate AllObjects(records: seq<Value>) { forall i | 0 <= i < |records| :: records[i].Object? }

  /** On records that are not held back, allowing terminals makes no difference. */
  lemma {:induction false} RecordsIgnoreFlag(setting: Setting, records: seq<Value>, base: nat, p: Progress)
    requires setting.allowTerminal && AllCovered(setting.mapping, records)
    requires forall i | 0 <= i < |records| :: !Held(setting.mapping, records[i])
    ensures var closed := FoldRecords(setting.(allowTerminal := false), records, base, p);
            var open := FoldRecords(setting, records, base, p);
            (open.Ok? || AllObjects(records)) ==> closed == open
  {
    hide FoldRules, Held, EmitsTerminal, EventType;
    if records != [] {
      var kind := EventType(setting.mapping, records[0]);
      assert Covered(setting.mapping, records[0]);
      if kind.Some? {
        RulesIgnoreFlag(setting, records[0], base, kind.value, 0, p);
      }
      var step := FoldRecord(setting, records[0], base, p);
      if step.Ok? {
        RecordsIgnoreFlag(setting, records[1..], base + 1, step.value);
      }
    }
  }

  lemma {:induction false} LastTerminalAppend(config: CollectorConfig, owner: Owner, turn: nat, a: seq<Stamp>, b: seq<Stamp>)
    requires forall i | 0 <= i < |a| :: !IsTerminal(a[i].event)
    ensures LastTerminal(config, owner, turn, a + b) == LastTerminal(config, owner, turn, b)
  {
    hide TurnPrefix;
    if b == [] {
      assert a + b == a;
      NoTerminal(config, owner, turn, a);
    } else {
      assert (a + b)[..|a + b| - 1] == a + b[..|b| - 1];
      LastTerminalAppend(config, owner, turn, a, b[..|b| - 1]);
    }
  }

  lemma {:induction false} NoTerminal(config: CollectorConfig, owner: Owner, turn: nat, a: seq<Stamp>)
    requires forall i | 0 <= i < |a| :: !IsTerminal(a[i].event)
    ensures LastTerminal(config, owner, turn, a).None?
  {
    if a != [] {
      NoTerminal(config, owner, turn, a[..|a| - 1]);
    }
  }

  /** What a running poll sees is the beginning of what the completed poll will see. */
  lemma VisibleGrows(frame: FrameConfig, early: string, late: string)
    requires early <= late
    ensures VisibleRecords(frame, early, false) <= VisibleRecords(frame, late, true)
    ensures VisibleRecords(frame, early, false) <= VisibleRecords(frame, late, false)
    ensures WellFramed(frame, late) ==> WellFramed(frame, early)
  {
    hide Lines, LinesRecords, WellFramed;
    var more := late[|early|..];
    assert late == early + more;
    FramingGrows(frame, early, more);
    LinesSplit(late);
    LinesRecordsAppend(frame, CompleteLines(late), [Tail(late)]);
  }

  /** The records of the completed poll, cut where a running poll stopped. */
  lemma UntakenSplit(config: CollectorConfig, taken: nat, early: string, late: string, n: nat)
    requires early <= late && taken <= |VisibleRecords(config.frame, early, false)|
    requires n <= |Untaken(config, taken, early, false)|
    ensures Untaken(config, taken, late, true) == Untaken(config, taken, early, false)[..n]
                                                  + Untaken(config, taken + n, late, true)
    ensures taken + n <= |VisibleRecords(config.frame, early, false)|
    ensures |Untaken(config, taken + n, late, true)| == |Untaken(config, taken, late, true)| - n
  {
    hide VisibleRecords;
    VisibleGrows(config.frame, early, late);
    var x, y := VisibleRecords(config.frame, early, false), VisibleRecords(config.frame, late, true);
    assert forall i | 0 <= i < |x| :: x[i] == y[i];
    assert y[taken..] == y[taken..taken + n] + y[taken + n..];
    assert y[taken..taken + n] == x[taken..][..n];
  }

  /** The records that a running poll takes: those before the first one that is held back. */
  function Taken(config: CollectorConfig, taken: nat, file: string): seq<Value> {
    var untaken := Untaken(config, taken, file, false);
    untaken[..BeforeHeld(config.mapping, untaken)]
  }

  /** The records that a running poll sees and holds back: the first held one and all after it. */
  function HeldBack(config: CollectorConfig, taken: nat, file: string): seq<Value> {
    var untaken := Untaken(config, taken, file, false);
    untaken[BeforeHeld(config.mapping, untaken)..]
  }

  /**
   What a poll saw, then what a later one reads from there on: together they are
   all untaken records if and only if the poll held nothing back.
   */
  lemma HeldBackLost(config: CollectorConfig, taken: nat, early: string, late: string)
    requires early <= late && taken <= |VisibleRecords(config.frame, early, false)|
    ensures var rest := Untaken(config, |VisibleRecords(config.frame, early, false)|, late, true);
            var all, took, kept := Untaken(config, taken, late, true), Taken(config, taken, early), HeldBack(config, taken, early);
            && all == took + kept + rest
            && (all == took + rest <==> kept == [])
            && (kept == [] <==> forall raw | raw in Untaken(config, taken, early, false) :: !Held(config.mapping, raw))
  {
    hide VisibleRecords, Held;
    var untaken := Untaken(config, taken, early, false);
    UntakenSplit(config, taken, early, late, |untaken|);
    assert untaken[..|untaken|] == untaken == Taken(config, taken, early) + HeldBack(config, taken, early);
  }

  /**
   A running poll that takes only covered records, if the turn can be collected
   at once, succeeds and changes nothing about the outcome.
   */
  lemma PollThenComplete(config: CollectorConfig, owner: Owner, turn: nat, c: Collected, early: string, late: string,
                         expected: Vocabulary)
    requires early <= late && AllCovered(config.mapping, Taken(config, c.taken, early))
    requires c.taken <= |VisibleRecords(config.frame, early, false)|
    ensures var polled := Running(config, owner, turn, c, early);
            var once := Completed(config, owner, turn, c, late, expected);
            && (polled.Ok? ==> polled.value.taken <= |VisibleRecords(config.frame, early, false)|)
            && (once.Ok? ==> polled.Ok? && Completed(config, owner, turn, polled.value, late, expected) == once)
            && (polled.Ok? && AllObjects(Taken(config, c.taken, early)) ==>
                  Completed(config, owner, turn, polled.value, late, expected) == once)
  {
    hide FoldRecords, VisibleRecords, Held, Covered, LastTerminal, NeedsExit, WellFramed, Extends, Untaken,
         NamespaceOf, ExitStamp;
    VisibleGrows(config.frame, early, late);
    var open := SettingOf(config, owner, turn, true);
    var closed := SettingOf(config, owner, turn, false);
    assert open.(allowTerminal := false) == closed;
    var untaken := Untaken(config, c.taken, early, false);
    var n := BeforeHeld(config.mapping, untaken);
    var first, rest := untaken[..n], Untaken(config, c.taken + n, late, true);
    UntakenSplit(config, c.taken, early, late, n);
    FoldRecordsAppend(open, first, rest, c.taken, c.progress);
    RecordsIgnoreFlag(open, first, c.taken, c.progress);
    var polled := Running(config, owner, turn, c, early);
    if polled.Ok? {
      RunningAddsNoTerminal(config, owner, turn, c, early);
      var p := polled.value.progress;
      FoldRecordsExtends(open, rest, c.taken + n, p);
      var folded := FoldRecords(open, rest, c.taken + n, p);
      if folded.Ok? {
        ClosedAlike(config, owner, turn, c.progress.index, p.index, folded.value, expected, open, p);
      }
    }
  }

  lemma ClosedAlike(config: CollectorConfig, owner: Owner, turn: nat, before: seq<Stamp>, polled: seq<Stamp>, q: Progress,
                    expected: Vocabulary, setting: Setting, p: Progress)
    requires before <= polled && polled == p.index && Extends(setting, p, q)
    requires forall i | |before| <= i < |polled| :: !IsTerminal(polled[i].event)
    ensures |before| <= |q.index|
    ensures Closed(config, owner, turn, |before|, q, expected) == Closed(config, owner, turn, |polled|, q, expected)
  {
    hide LastTerminal, NeedsExit, ExitStamp;
    var a, b := polled[|before|..], q.index[|polled|..];
    assert q.index == polled + b;
    assert q.index[|before|..] == a + b;
    LastTerminalAppend(config, owner, turn, a, b);
  }

  // ---- Whole runs -------------------------------------------------------------------------------

  /** Each poll sees at least what the poll before it saw. */
  predicate Growing(files: seq<string>) {
    |files| > 1 ==> files[0] <= files[1] && Growing(files[1..])
  }

  function RunPolls(config: CollectorConfig, owner: Owner, turn: nat, c: Collected, files: seq<string>)
    : Result<Collected, CollectError>
    decreases |files|
  {
    if files == [] then Ok(c)
    else
      match Running(config, owner, turn, c, files[0])
      case Err(e) => Err(e)
      case Ok(d) => RunPolls(config, owner, turn, d, files[1..])
  }

  lemma {:induction false} GrowingEnds(files: seq<string>)
    requires Growing(files) && files != []
    ensures files[0] <= files[|files| - 1]
  {
    if |files| > 1 {
      GrowingEnds(files[1..]);
    }
  }

  lemma {:induction false} BeforeHeldAppend(mapping: Mapping, a: seq<Value>, b: seq<Value>)
    requires forall i | 0 <= i < |a| :: !Held(mapping, a[i])
    ensures BeforeHeld(mapping, a + b) == |a| + BeforeHeld(mapping, b)
  {
    hide Held;
    if a == [] {
      assert a + b == b;
    } else {
      assert (a + b)[0] == a[0] && (a + b)[1..] == a[1..] + b;
      BeforeHeldAppend(mapping, a[1..], b);
    }
  }

  /** What two running polls take is what the later one alone would take. */
  lemma TakenTwice(config: CollectorConfig, taken: nat, early: string, late: string)
    requires early <= late && taken <= |VisibleRecords(config.frame, early, false)|
    ensures var n := |Taken(config, taken, early)|;
            && taken + n <= |VisibleRecords(config.frame, early, false)|
            && Taken(config, taken, late) == Taken(config, taken, early) + Taken(config, taken + n, late)
  {
    hide VisibleRecords, Held;
    VisibleGrows(config.frame, early, late);
    var x, y := VisibleRecords(config.frame, early, false), VisibleRecords(config.frame, late, false);
    var first := Taken(config, taken, early);
    var n := |first|;
    assert forall i | 0 <= i < |x| :: x[i] == y[i];
    assert y[taken..] == first + y[taken + n..];
    BeforeHeldAppend(config.mapping, first, y[taken + n..]);
  }

  /** Two running polls succeed exactly if the later one alone would, and collect the same. */
  lemma RunningTwice(config: CollectorConfig, owner: Owner, turn: nat, c: Collected, early: string, late: string)
    requires early <= late && c.taken <= |VisibleRecords(config.frame, early, false)|
    ensures var first, alone := Running(config, owner, turn, c, early), Running(config, owner, turn, c, late);
            && (first.Ok? ==> first.value.taken <= |VisibleRecords(config.frame, early, false)|)
            && (first.Err? ==> alone.Err?)
            && (first.Ok? ==>
                  var second := Running(config, owner, turn, first.value, late);
                  (second.Ok? <==> alone.Ok?) && (second.Ok? ==> second == alone))
  {
    hide VisibleRecords, BeforeHeld, WellFramed, FoldRecords, Untaken;
    VisibleGrows(config.frame, early, late);
    TakenTwice(config, c.taken, early, late);
    var first := Taken(config, c.taken, early);
    FoldRecordsAppend(SettingOf(config, owner, turn, false), first, Taken(config, c.taken + |first|, late), c.taken,
                      c.progress);
  }

  /** Polling a growing source again and again collects what one poll of its last state collects. */
  lemma {:induction false} PollsCollapse(config: CollectorConfig, owner: Owner, turn: nat, c: Collected, read: string,
                                         files: seq<string>)
    requires Growing([read] + files) && files != []
    requires c.taken <= |VisibleRecords(config.frame, read, false)|
    ensures var polled, alone := RunPolls(config, owner, turn, c, files),
                                 Running(config, owner, turn, c, files[|files| - 1]);
            (polled.Ok? <==> alone.Ok?) && (polled.Ok? ==> polled == alone)
    decreases |files|
  {
    hide Running, VisibleRecords;
    var all, last := [read] + files, files[|files| - 1];
    assert all[1..] == files && all[1] == files[0];
    VisibleGrows(config.frame, read, files[0]);
    if |files| > 1 {
      var later := files[1..];
      assert files == [files[0]] + later && last == later[|later| - 1];
      GrowingEnds(files);
      RunningTwice(config, owner, turn, c, files[0], last);
      var step := Running(config, owner, turn, c, files[0]);
      if step.Ok? {
        PollsCollapse(config, owner, turn, step.value, files[0], later);
      }
    } else {
      assert files[1..] == [];
    }
  }

  /** What the polls of a growing source take in all. */
  function TakenBy(config: CollectorConfig, taken: nat, files: seq<string>): seq<Value> {
    if files == [] then [] else Taken(config, taken, files[|files| - 1])
  }

  lemma GrowingStep(files: seq<string>)
    ensures |files| > 1 ==> (Growing(files) <==> files[0] <= files[1] && Growing(files[1..]))
    ensures |files| <= 1 ==> Growing(files)
  {}

  /** A growing run of files without its last one. */
  lemma {:induction false} GrowingBefore(read: string, files: seq<string>, whole: string)
    requires Growing([read] + files + [whole])
    ensures Growing([read] + files)
    ensures read <= whole && (files != [] ==> read <= files[0] && read <= files[|files| - 1] <= whole)
    ensures files != [] ==> files[0] <= whole && Growing([files[0]] + files[1..] + [whole])
    decreases |files|
  {
    hide Growing;
    var all, before := [read] + files + [whole], [read] + files;
    GrowingStep(all);
    GrowingStep(before);
    assert all[0] == before[0] == read;
    if files == [] {
      assert all[1] == whole;
    } else {
      assert all[1] == before[1] == files[0];
      assert all[1..] == [files[0]] + files[1..] + [whole] && before[1..] == [files[0]] + files[1..];
      GrowingBefore(files[0], files[1..], whole);
    }
  }

  /**
   Poll independence. However often an invocation is polled while its source
   grows, as long as the polls take only covered records, the completed poll
   leaves the same sequence of (id, cursor, event, session, actor) as one
   completed poll over the whole source; and the polls succeed whenever that one
   poll does.
   */
  lemma PollIndependence(config: CollectorConfig, owner: Owner, turn: nat, c: Collected,
                         read: string, files: seq<string>, whole: string, expected: Vocabulary)
    requires Growing([read] + files + [whole])
    requires AllCovered(config.mapping, TakenBy(config, c.taken, files))
    requires c.taken <= |VisibleRecords(config.frame, read, false)|
    ensures var once := Completed(config, owner, turn, c, whole, expected);
            var polled := RunPolls(config, owner, turn, c, files);
            && (once.Ok? ==> polled.Ok? && Completed(config, owner, turn, polled.value, whole, expected) == once)
            && (polled.Ok? && AllObjects(TakenBy(config, c.taken, files)) ==>
                  Completed(config, owner, turn, polled.value, whole, expected) == once)
  {
    hide Running, Completed, VisibleRecords, AllCovered, Taken, Growing;
    GrowingBefore(read, files, whole);
    if files != [] {
      var last := files[|files| - 1];
      VisibleGrows(config.frame, read, last);
      PollsCollapse(config, owner, turn, c, read, files);
      PollThenComplete(config, owner, turn, c, last, whole, expected);
    }
  }

  /** Where no terminal rule expands an array, polls never matter. */
  lemma PlainPollIndependence(config: CollectorConfig, owner: Owner, turn: nat, c: Collected,
                              read: string, files: seq<string>, whole: string, expected: Vocabulary)
    requires Growing([read] + files + [whole]) && TerminalRulesPlain(config.mapping)
    requires c.taken <= |VisibleRecords(config.frame, read, false)|
    ensures var once := Completed(config, owner, turn, c, whole, expected);
            var polled := RunPolls(config, owner, turn, c, files);
            once.Ok? ==> polled.Ok? && Completed(config, owner, turn, polled.value, whole, expected) == once
  {
    hide Running, Completed, VisibleRecords, AllCovered, TakenBy, TerminalRulesPlain;
    PlainRulesCoverAll(config.mapping, TakenBy(config, c.taken, files));
    PollIndependence(config, owner, turn, c, read, files, whole, expected);
  }
}
