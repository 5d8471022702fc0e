/**
 A terminal event that running polls lose, with the event mapping that the goose
 adapter ships: a provider error is an element of a message's content.
 */
module Expanded {
  import opened Prelude
  import opened Text
  import opened Json
  import opened Framing
  import opened JsonLines
  import opened Events
  import opened Polls
  import opened Exactness

  // ---- The mapping and the record ---------------------------------------------------------

  /** A rule over the content blocks of a message. */
  function BlockRule(fields: map<string, string>, event: string, bindings: map<string, string>): Rule {
    Rule("message", event, fields, "/message/content", "/_ahrb_expanded", bindings)
  }

  const ERROR_RULE := BlockRule(map["/_ahrb_expanded/type" := "error"], "terminal-failure", map[])

  const GOOSE_MAPPING := Mapping("", "/message/id", [
    BlockRule(map["/_ahrb_expanded/type" := "toolRequest", "/_ahrb_expanded/toolCall/status" := "success"], "tool-call",
              map["call_id" := "/_ahrb_expanded/id", "name" := "/_ahrb_expanded/toolCall/value/name",
                  "arguments" := "/_ahrb_expanded/toolCall/value/arguments"]),
    BlockRule(map["/_ahrb_expanded/type" := "toolResponse", "/_ahrb_expanded/toolResult/status" := "success"],
              "tool-result",
              map["call_id" := "/_ahrb_expanded/id", "result" := "/_ahrb_expanded/toolResult/value/structuredContent"]),
    BlockRule(map["/_ahrb_expanded/type" := "toolResponse", "/_ahrb_expanded/toolResult/status" := "error"],
              "tool-result", map["call_id" := "/_ahrb_expanded/id", "result" := "/_ahrb_expanded/toolResult"]),
    BlockRule(map["/message/role" := "assistant", "/_ahrb_expanded/type" := "text"], "model-response", map[]),
    ERROR_RULE])

  const ERROR_BLOCK := Object(map["type" := Str("error")])

  /** A message whose only content block is an error. */
  const ERROR_MESSAGE := Object(map[
    "type" := Str("message"),
    "message" := Object(map["id" := Str("m1"), "role" := Str("assistant"), "content" := Array([ERROR_BLOCK])])])

  // ---- Lookups -------------------------------------------------------------------------------

  /** A segment without special characters is looked up as it is. */
  lemma {:induction false} PlainSegment(s: string)
    requires '/' !in s && '~' !in s
    ensures Split(s, '/') == [s] && UnescapeToken(s) == s
  {
    if s != "" {
      PlainSegment(s[1..]);
      assert s == [s[0]] + s[1..];
    }
  }

  lemma FollowOne(v: Value, name: string)
    requires v.Object? && '/' !in name && '~' !in name
    ensures Follow(v, [name]) == Get(v, name)
  {
    PlainSegment(name);
    assert [name][1..] == [];
    if name in v.fields {
      assert Follow(v.fields[name], []) == Some(v.fields[name]);
    }
  }

  lemma LookupField(v: Value, name: string, pointer: string)
    requires v.Object? && '/' !in name && '~' !in name && pointer == ['/'] + name
    ensures Lookup(v, pointer) == Get(v, name)
  {
    PlainSegment(name);
    FollowOne(v, name);
    assert pointer[1..] == name;
  }

  lemma LookupInField(v: Value, name: string, inner: string, pointer: string)
    requires v.Object? && (name in v.fields ==> v.fields[name].Object?)
    requires '/' !in name && '~' !in name && '/' !in inner && '~' !in inner && pointer == ['/'] + (name + ['/'] + inner)
    ensures Lookup(v, pointer) == if name in v.fields then Get(v.fields[name], inner) else None
  {
    hide Split, UnescapeToken;
    PlainSegment(name);
    PlainSegment(inner);
    SplitHead(name, '/', inner);
    var parts := [name] + [inner];
    assert pointer[1..] == name + ['/'] + inner && parts[1..] == [inner] && parts[0] == name;
    if name in v.fields {
      FollowOne(v.fields[name], inner);
    }
  }

  /** The record with the block that a rule looks at, whatever other fields it has. */
  predicate HasBlock(v: Value) {
    v.Object? && "_ahrb_expanded" in v.fields && v.fields["_ahrb_expanded"] == ERROR_BLOCK
  }

  lemma BlockType(v: Value)
    requires HasBlock(v)
    ensures Lookup(v, "/_ahrb_expanded/type") == Some(Str("error")) && Lookup(v, "/_ahrb_expanded") == Some(ERROR_BLOCK)
  {
    LookupInField(v, "_ahrb_expanded", "type", "/_ahrb_expanded/type");
    LookupField(v, "_ahrb_expanded", "/_ahrb_expanded");
  }

  /** Of the rules, only the last matches the error block. */
  lemma BlockMatches(v: Value, i: nat)
    requires HasBlock(v) && i < 5
    ensures RuleMatches(v, GOOSE_MAPPING.rules[i]) <==> i == 4
  {
    hide Lookup;
    BlockType(v);
    var rule := GOOSE_MAPPING.rules[i];
    assert "/_ahrb_expanded/type" in rule.matchFields;
    assert rule.matchFields["/_ahrb_expanded/type"] == "error" <==> i == 4;
  }

  /** As a whole, the message matches no rule for its blocks. */
  lemma MessageMatchesNone()
    ensures !RuleMatches(ERROR_MESSAGE, ERROR_RULE)
  {
    hide Lookup;
    LookupInField(ERROR_MESSAGE, "_ahrb_expanded", "type", "/_ahrb_expanded/type");
    assert "/_ahrb_expanded/type" in ERROR_RULE.matchFields;
  }

  lemma MessageBlocks(i: nat)
    requires i < 5
    ensures Expansions(GOOSE_MAPPING.rules[i], ERROR_MESSAGE) == [Some(ERROR_BLOCK)]
  {
    hide Lookup;
    LookupInField(ERROR_MESSAGE, "message", "content", "/message/content");
  }

  lemma MessageType(v: Value)
    requires v.Object? && "type" in v.fields && v.fields["type"] == Str("message")
    ensures EventType(GOOSE_MAPPING, v) == Some("message")
  {}

  /** The message is not held back, although one of its blocks is a terminal. */
  lemma MessageUncovered()
    ensures !Held(GOOSE_MAPPING, ERROR_MESSAGE) && !Covered(GOOSE_MAPPING, ERROR_MESSAGE)
  {
    hide RuleMatches, EventType, Expansions;
    MessageMatchesNone();
    MessageType(ERROR_MESSAGE);
    MessageBlocks(4);
    BlockMatches(Prepared(ERROR_MESSAGE, Some(ERROR_BLOCK)), 4);
    assert GOOSE_MAPPING.rules[4] == ERROR_RULE;
    assert Expansions(ERROR_RULE, ERROR_MESSAGE)[0] == Some(ERROR_BLOCK);
    assert EmitsTerminal(GOOSE_MAPPING, ERROR_MESSAGE, 4);
  }

  // ---- What one completed poll makes of it -------------------------------------------------

  /** The collector's own fields leave the block and the type as they are. */
  lemma IdentifiedMessage(setting: Setting, id: string, cursor: nat)
    ensures var record := Identified(setting, Prepared(ERROR_MESSAGE, Some(ERROR_BLOCK)), id, cursor);
            HasBlock(record) && record.Object? && "type" in record.fields && record.fields["type"] == Str("message")
  {
    hide CursorNumber;
  }

  lemma ErrorNormalizes(setting: Setting, id: string, cursor: nat)
    requires setting.mapping == GOOSE_MAPPING
    ensures var r := Normalized(setting, ERROR_RULE, ERROR_MESSAGE, Prepared(ERROR_MESSAGE, Some(ERROR_BLOCK)), id, cursor);
            r.Ok? && r.value.event == TerminalFailure
  {
    hide RuleMatches, EventType, Identified, ValueEq, Lookup;
    var record := Identified(setting, Prepared(ERROR_MESSAGE, Some(ERROR_BLOCK)), id, cursor);
    IdentifiedMessage(setting, id, cursor);
    BlockMatches(record, 4);
    BlockType(record);
    MessageType(record);
  }

  /** The rules before the last give nothing. */
  lemma {:induction false} OtherRules(setting: Setting, at: nat, i: nat, p: Progress)
    requires setting.mapping == GOOSE_MAPPING && i <= 4
    ensures FoldRules(setting, ERROR_MESSAGE, at, "message", i, p) == FoldRules(setting, ERROR_MESSAGE, at, "message", 4, p)
    decreases 4 - i
  {
    hide RuleMatches, Expansions;
    if i < 4 {
      MessageBlocks(i);
      BlockMatches(Prepared(ERROR_MESSAGE, Some(ERROR_BLOCK)), i);
      UnmatchedExpansions(setting, ERROR_MESSAGE, at, i, [Some(ERROR_BLOCK)], 0, p);
      OtherRules(setting, at, i + 1, p);
    }
  }

  lemma ErrorFolds(setting: Setting, at: nat, p: Progress)
    requires setting.mapping == GOOSE_MAPPING && setting.allowTerminal && p.seen == {}
    ensures var r := FoldRecords(setting, [ERROR_MESSAGE], at, p);
            && r.Ok? && |r.value.index| == |p.index| + 1 && r.value.index[..|p.index|] == p.index
            && r.value.index[|p.index|].event == TerminalFailure
  {
    hide RuleMatches, EventType, Expansions, EventId, Normalized;
    assert [ERROR_MESSAGE][1..] == [];
    MessageType(ERROR_MESSAGE);
    OtherRules(setting, at, 0, p);
    MessageBlocks(4);
    BlockMatches(Prepared(ERROR_MESSAGE, Some(ERROR_BLOCK)), 4);
    ErrorNormalizes(setting, EventId(setting, ERROR_MESSAGE, at, 4, 0), p.next);
    var q := Emit(setting, ERROR_MESSAGE, at, 4, 0, Some(ERROR_BLOCK), p).value;
    assert FoldExpansions(setting, ERROR_MESSAGE, at, 4, [Some(ERROR_BLOCK)], 1, q) == Ok(q);
    assert FoldRules(setting, ERROR_MESSAGE, at, "message", 5, q) == Ok(q);
  }

  /**
   A provider error under the goose mapping. Its message is the only line of the
   turn's stdout. One completed poll records the failure that the harness reports;
   after a running poll, which takes the message and leaves no trace of it, the
   completed poll knows the exit's own class only.
   */
  lemma ExpandedTerminalLost(config: CollectorConfig, owner: Owner, turn: nat, expected: Vocabulary)
    requires config.mapping == GOOSE_MAPPING && config.frame.source == Stdout && config.frame.format == JsonLines
    requires Fits(config.frame, Serialize(ERROR_MESSAGE))
    requires config.frame.parse(Serialize(ERROR_MESSAGE)) == Some(ERROR_MESSAGE)
    ensures var c, file := Collected(0, Progress({}, 1, [])), Serialize(ERROR_MESSAGE) + "\n";
            var polled, once := Running(config, owner, turn, c, file), Completed(config, owner, turn, c, file, expected);
            && polled == Ok(Collected(1, c.progress))
            && once.Ok? && once.value.progress.index != [] && once.value.progress.index[0].event == TerminalFailure
            && Completed(config, owner, turn, polled.value, file, expected)
            == Ok(Collected(1, Progress({TurnPrefix(owner, turn) + ":terminal"}, 2, [ExitStamp(owner, turn, 1, expected)])))
            && Completed(config, owner, turn, polled.value, file, expected) != once
  {
    hide Serialize, FoldRecords, Held, Covered, WellFramed, VisibleRecords, EventId, ExitStamp, TurnPrefix, LastTerminal,
         NeedsExit, SourceId;
    var c, file := Collected(0, Progress({}, 1, [])), Serialize(ERROR_MESSAGE) + "\n";
    var open, closed := SettingOf(config, owner, turn, true), SettingOf(config, owner, turn, false);
    OneJsonLine(config.frame, ERROR_MESSAGE, false);
    OneJsonLine(config.frame, ERROR_MESSAGE, true);
    MessageUncovered();
    var records := [ERROR_MESSAGE];
    assert records[0..] == records && records[..1] == records && records[1..] == [];
    assert BeforeHeld(config.mapping, records) == 1;
    ErrorFolds(open, 0, c.progress);
    ErrorIgnored(closed, 0, c.progress);
    FoldRecordsExtends(open, records, 0, c.progress);
    EmptyFold(open, 1, c.progress);
    NoEarlierTerminal(config, owner, turn, expected);
    assert [ExitStamp(owner, turn, 1, expected)][0] == ExitStamp(owner, turn, 1, expected);
    UncoveredPollLoses(config, owner, turn, c, file, file, expected, 0);
  }

  lemma EmptyFold(setting: Setting, at: nat, p: Progress)
    ensures FoldRecords(setting, [], at, p) == Ok(p)
  {}

  /** Without terminals, no rule gives anything. */
  lemma ErrorIgnored(setting: Setting, at: nat, p: Progress)
    requires setting.mapping == GOOSE_MAPPING && !setting.allowTerminal
    ensures FoldRecords(setting, [ERROR_MESSAGE], at, p) == Ok(p)
  {
    hide RuleMatches, EventType, Expansions, EventId, Normalized;
    MessageType(ERROR_MESSAGE);
    OtherRules(setting, at, 0, p);
    assert [ERROR_MESSAGE][1..] == [];
    assert FoldRules(setting, ERROR_MESSAGE, at, "message", 5, p) == Ok(p);
  }

  /** A turn without events of its own needs the exit's terminal. */
  lemma NoEarlierTerminal(config: CollectorConfig, owner: Owner, turn: nat, expected: Vocabulary)
    ensures Closed(config, owner, turn, 0, Progress({}, 1, []), expected)
         == Progress({TurnPrefix(owner, turn) + ":terminal"}, 2, [ExitStamp(owner, turn, 1, expected)])
  {
    hide TurnPrefix;
    var index: seq<Stamp> := [];
    assert index[0..] == index && LastTerminal(config, owner, turn, index).None?;
  }

  // ---- Why the sources must differ ---------------------------------------------------------------

  /** The message's id does not depend on where it stands. */
  lemma MessageId(setting: Setting, at: nat)
    requires setting.mapping == GOOSE_MAPPING
    ensures EventId(setting, ERROR_MESSAGE, at, 4, 0) == IdPrefix(setting) + ("m1" + ":r" + Decimal(4) + ":x" + Decimal(0))
  {
    hide Lookup, Decimal, IdPrefix;
    LookupInField(ERROR_MESSAGE, "message", "id", "/message/id");
  }

  /** Normalizing the message is one emission of the last rule. */
  lemma ErrorIsEmission(setting: Setting, at: nat, p: Progress)
    requires setting.mapping == GOOSE_MAPPING && setting.allowTerminal
    ensures FoldRecord(setting, ERROR_MESSAGE, at, p) == Emit(setting, ERROR_MESSAGE, at, 4, 0, Some(ERROR_BLOCK), p)
  {
    hide RuleMatches, EventType, Expansions, EventId, Normalized;
    MessageType(ERROR_MESSAGE);
    OtherRules(setting, at, 0, p);
    MessageBlocks(4);
    var step := Emit(setting, ERROR_MESSAGE, at, 4, 0, Some(ERROR_BLOCK), p);
    if step.Ok? {
      assert FoldExpansions(setting, ERROR_MESSAGE, at, 4, [Some(ERROR_BLOCK)], 1, step.value) == Ok(step.value);
      assert FoldRules(setting, ERROR_MESSAGE, at, "message", 5, step.value) == Ok(step.value);
    }
  }

  /** The emission depends on the record's place only through its id. */
  lemma EmitAnywhere(setting: Setting, at: nat, p: Progress)
    requires setting.mapping == GOOSE_MAPPING
    ensures Emit(setting, ERROR_MESSAGE, at, 4, 0, Some(ERROR_BLOCK), p)
         == Emit(setting, ERROR_MESSAGE, 0, 4, 0, Some(ERROR_BLOCK), p)
  {
    hide RuleMatches, EventId, Normalized;
    MessageId(setting, at);
    MessageId(setting, 0);
  }

  lemma EmitTwice(setting: Setting, p: Progress)
    requires setting.mapping == GOOSE_MAPPING
    ensures var q := Emit(setting, ERROR_MESSAGE, 0, 4, 0, Some(ERROR_BLOCK), p);
            q.Ok? ==> Emit(setting, ERROR_MESSAGE, 0, 4, 0, Some(ERROR_BLOCK), q.value) == q
  {
    hide RuleMatches, EventId, Normalized;
    BlockMatches(Prepared(ERROR_MESSAGE, Some(ERROR_BLOCK)), 4);
  }

  /**
   A message that is written twice. The running poll loses its terminal with the
   first copy, an uncovered record, and the completed poll finds it again with the
   second: the outcome is the one of a single completed poll.
   */
  lemma RepeatedMessageRecovers(config: CollectorConfig, owner: Owner, turn: nat, early: string, late: string,
                                expected: Vocabulary)
    requires config.mapping == GOOSE_MAPPING && WellFramed(config.frame, early) && WellFramed(config.frame, late)
    requires VisibleRecords(config.frame, early, false) == [ERROR_MESSAGE]
    requires VisibleRecords(config.frame, late, true) == [ERROR_MESSAGE, ERROR_MESSAGE]
    ensures var c := Collected(0, Progress({}, 1, []));
            var polled, once := Running(config, owner, turn, c, early), Completed(config, owner, turn, c, late, expected);
            && !AllCovered(config.mapping, Taken(config, 0, early))
            && polled.Ok? && once.Ok? && Completed(config, owner, turn, polled.value, late, expected) == once
  {
    hide FoldRecords, Held, Covered, WellFramed, VisibleRecords, EventId, Closed;
    var c, twice := Collected(0, Progress({}, 1, [])), [ERROR_MESSAGE, ERROR_MESSAGE];
    var open, closed := SettingOf(config, owner, turn, true), SettingOf(config, owner, turn, false);
    MessageUncovered();
    FoldRecordsExtends(open, [ERROR_MESSAGE], 1, c.progress);
    FoldRecordsExtends(open, twice, 0, c.progress);
    var records := [ERROR_MESSAGE];
    assert records[0..] == records && records[..1] == records && records[1..] == [];
    assert twice[0..] == twice && twice[1..] == records;
    assert BeforeHeld(config.mapping, records) == 1;
    ErrorIgnored(closed, 0, c.progress);
    OneErrorFold(open, c.progress);
    assert Running(config, owner, turn, c, early) == Ok(Collected(1, c.progress));
  }

  /** One copy or two, wherever they stand, fold to the same. */
  lemma OneErrorFold(setting: Setting, p: Progress)
    requires setting.mapping == GOOSE_MAPPING && setting.allowTerminal && p.seen == {}
    ensures FoldRecords(setting, [ERROR_MESSAGE], 1, p).Ok?
    ensures FoldRecords(setting, [ERROR_MESSAGE, ERROR_MESSAGE], 0, p) == FoldRecords(setting, [ERROR_MESSAGE], 1, p)
  {
    hide FoldRecord, Emit;
    var twice := [ERROR_MESSAGE, ERROR_MESSAGE];
    assert twice[1..] == [ERROR_MESSAGE] && [ERROR_MESSAGE][1..] == [];
    ErrorFolds(setting, 1, p);
    ErrorIsEmission(setting, 0, p);
    ErrorIsEmission(setting, 1, p);
    EmitAnywhere(setting, 1, p);
    var q := Emit(setting, ERROR_MESSAGE, 0, 4, 0, Some(ERROR_BLOCK), p);
    assert q.Ok?;
    EmptyFold(setting, 1, q.value);
    EmptyFold(setting, 2, q.value);
    EmitTwice(setting, p);
    EmitAnywhere(setting, 1, q.value);
    ErrorIsEmission(setting, 1, q.value);
  }
}
