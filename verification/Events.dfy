/**
 The normalized event vocabulary and the table-driven normalization of source
 records into events with stable ids and consecutive cursors.
 */
module Events {
  import opened Prelude
  import opened Text
  import opened Json
  import opened Pointers

  datatype Vocabulary =
    | TurnAccepted | ModelRequest | ModelResponse | ContextCompacted | ToolCall | ToolResult | AgentSpawned
    | BarrierReached | InputAccepted | HookCompleted
    | TerminalSuccess | TerminalFailure | TerminalCancelled | TerminalTimeout

  predicate IsTerminal(v: Vocabulary) {
    v.TerminalSuccess? || v.TerminalFailure? || v.TerminalCancelled? || v.TerminalTimeout?
  }

  datatype EventError =
    | RecordNotObject | NoType | NoRule | MissingPayload | BindingsNotObject | MissingBinding | UnknownVocabulary

  predicate TerminalName(name: string) {
    name == "terminal-success" || name == "terminal-failure" || name == "terminal-cancelled" || name == "terminal-timeout"
  }

  /** The name that a mapping uses for a vocabulary entry. */
  function VocabularyName(v: Vocabulary): string {
    match v
    case TurnAccepted => "turn-accepted"
    case ModelRequest => "model-request"
    case ModelResponse => "model-response"
    case ContextCompacted => "context-compacted"
    case ToolCall => "tool-call"
    case ToolResult => "tool-result"
    case AgentSpawned => "agent-spawned"
    case BarrierReached => "barrier-reached"
    case InputAccepted => "input-accepted"
    case HookCompleted => "hook-completed"
    case TerminalSuccess => "terminal-success"
    case TerminalFailure => "terminal-failure"
    case TerminalCancelled => "terminal-cancelled"
    case TerminalTimeout => "terminal-timeout"
  }

  /** `parse_vocab`: the entry of that name, and none for any other name. */
  function ParseVocabulary(name: string): (r: Result<Vocabulary, EventError>)
    ensures r.Ok? ==> VocabularyName(r.value) == name
    ensures r.Ok? ==> (IsTerminal(r.value) <==> TerminalName(name))
    ensures TerminalName(name) ==> r.Ok?
  {
    if name == "turn-accepted" then Ok(TurnAccepted)
    else if name == "model-request" then Ok(ModelRequest)
    else if name == "model-response" then Ok(ModelResponse)
    else if name == "context-compacted" then Ok(ContextCompacted)
    else if name == "tool-call" then Ok(ToolCall)
    else if name == "tool-result" then Ok(ToolResult)
    else if name == "agent-spawned" then Ok(AgentSpawned)
    else if name == "barrier-reached" then Ok(BarrierReached)
    else if name == "input-accepted" then Ok(InputAccepted)
    else if name == "hook-completed" then Ok(HookCompleted)
    else if name == "terminal-success" then Ok(TerminalSuccess)
    else if name == "terminal-failure" then Ok(TerminalFailure)
    else if name == "terminal-cancelled" then Ok(TerminalCancelled)
    else if name == "terminal-timeout" then Ok(TerminalTimeout)
    else Err(UnknownVocabulary)
  }

  /** Every entry is found by its name, so that name and entry determine each other. */
  lemma VocabularyNames(v: Vocabulary, name: string)
    ensures ParseVocabulary(name) == Ok(v) <==> name == VocabularyName(v)
  {}

  datatype Rule = Rule(
    matches: string,
    event: string,
    matchFields: map<string, string>,
    expandPointer: string,
    payloadPointer: string,
    payloadBindings: map<string, string>)

  datatype Mapping = Mapping(typePointer: string, idPointer: string, rules: seq<Rule>)

  datatype NormalizedEvent = NormalizedEvent(
    id: string,
    cursor: nat,
    sessionId: string,
    actor: string,
    event: Vocabulary,
    payload: Value)

  /** What of an event does not depend on how the source was polled. */
  datatype Stamp = Stamp(id: string, cursor: nat, event: Vocabulary, sessionId: string, actor: string)

  function StampOf(e: NormalizedEvent): Stamp { Stamp(e.id, e.cursor, e.event, e.sessionId, e.actor) }

  function StampsOf(events: seq<NormalizedEvent>): (stamps: seq<Stamp>)
    ensures |stamps| == |events| && forall i | 0 <= i < |events| :: stamps[i] == StampOf(events[i])
  {
    seq(|events|, i requires 0 <= i < |events| => StampOf(events[i]))
  }

  // ---- Rules -----------------------------------------------------------------------

  predicate FieldMatches(actual: Option<Value>, expected: string) {
    match actual
    case Some(Str(s)) => s == expected
    case Some(Bool(flag)) => (if flag then "true" else "false") == expected
    case Some(Number(text)) => text == expected
    case _ => false
  }

  predicate RuleMatches(raw: Value, rule: Rule) {
    forall p | p in rule.matchFields :: FieldMatches(Lookup(raw, p), rule.matchFields[p])
  }

  function OrElse(a: Option<string>, b: Option<string>): Option<string> { if a.Some? then a else b }

  function FallbackType(raw: Value): Option<string> { OrElse(AsStr(Get(raw, "type")), AsStr(Get(raw, "event"))) }

  /** The record's type as normalization reads it: an empty pointer is not followed. */
  function EventType(mapping: Mapping, raw: Value): Option<string> {
    OrElse(if mapping.typePointer == "" then None else AsStr(Lookup(raw, mapping.typePointer)), FallbackType(raw))
  }

  /** The record's type as the poll reads it when it looks for a terminal: the pointer is always followed. */
  function HeldType(mapping: Mapping, raw: Value): Option<string> {
    OrElse(AsStr(Lookup(raw, mapping.typePointer)), FallbackType(raw))
  }

  lemma TypesAgree(mapping: Mapping, raw: Value)
    ensures EventType(mapping, raw).Some? ==> HeldType(mapping, raw) == EventType(mapping, raw)
  {}

  function Expansions(rule: Rule, raw: Value): seq<Option<Value>> {
    if rule.expandPointer == "" then [None]
    else
      match Lookup(raw, rule.expandPointer)
      case Some(Array(items)) => seq(|items|, i requires 0 <= i < |items| => Some(items[i]))
      case _ => []
  }

  // ---- One record, one rule, one expansion ---------------------------------------------

  /** Everything normalization knows besides the records. `digest` stands for the hash of record and index. */
  datatype Setting = Setting(
    mapping: Mapping,
    localId: string,
    marker: string,
    namespace: string,
    allowTerminal: bool,
    digest: (Value, nat) -> string)

  function Prepared(raw: Value, expanded: Option<Value>): Value
    requires raw.Object?
  {
    if expanded.None? then raw else Object(raw.fields["_ahrb_expanded" := expanded.value])
  }

  function SourceId(setting: Setting, raw: Value, index: nat): string {
    var named := if setting.mapping.idPointer == "" then None else AsStr(Lookup(raw, setting.mapping.idPointer));
    if named.Some? then named.value else setting.digest(raw, index)
  }

  function IdPrefix(setting: Setting): string { setting.localId + ":" + setting.namespace + ":" }

  function EventId(setting: Setting, raw: Value, index: nat, ruleIndex: nat, expandIndex: nat): string {
    IdPrefix(setting) + (SourceId(setting, raw, index) + ":r" + Decimal(ruleIndex) + ":x" + Decimal(expandIndex))
  }

  function CursorNumber(cursor: nat): NumberText {
    var digits := Decimal(cursor);
    assert forall i :: 0 <= i < |digits| ==> IsDigit(digits[i]);
    digits
  }

  /** The prepared record with the collector's own identity fields. */
  function Identified(setting: Setting, prepared: Value, id: string, cursor: nat): Value
    requires prepared.Object?
  {
    var fields := prepared.fields["_ahrb_id" := Str(id)]["_ahrb_cursor" := Number(CursorNumber(cursor))]
                                 ["session_id" := Str(setting.localId)];
    Object(if "actor" in fields then fields else fields["actor" := Str(setting.marker)])
  }

  /** An event's actor: the one that the record names, and otherwise the session's marker. */
  function ActorOf(setting: Setting, prepared: Value): string {
    if Get(prepared, "actor").None? then setting.marker
    else if AsStr(Get(prepared, "actor")).Some? then AsStr(Get(prepared, "actor")).value
    else ""
  }

  function Payload(rule: Rule, record: Value): Result<Value, EventError> {
    var extracted := if rule.payloadPointer == "" then Some(record) else Lookup(record, rule.payloadPointer);
    if extracted.None? then Err(MissingPayload)
    else if rule.payloadBindings == map[] then Ok(extracted.value)
    else if !extracted.value.Object? then Err(BindingsNotObject)
    else if exists f | f in rule.payloadBindings :: Lookup(record, rule.payloadBindings[f]).None? then Err(MissingBinding)
    else
      Ok(Object(extracted.value.fields
                + map f | f in rule.payloadBindings :: Lookup(record, rule.payloadBindings[f]).value))
  }

  /** `EventNormalizer::normalize` with the one candidate rule. */
  function Normalized(setting: Setting, rule: Rule, raw: Value, prepared: Value, id: string, cursor: nat)
    : (r: Result<NormalizedEvent, EventError>)
    requires prepared.Object?
    ensures r.Ok? ==> r.value.id == id && r.value.cursor == cursor && r.value.sessionId == setting.localId
    ensures r.Ok? ==> (IsTerminal(r.value.event) <==> TerminalName(rule.event))
    ensures r.Ok? ==> VocabularyName(r.value.event) == rule.event && r.value.actor == ActorOf(setting, prepared)
  {
    var record := Identified(setting, prepared, id, cursor);
    var kind := EventType(setting.mapping, record);
    if kind.None? then Err(NoType)
    else if kind.value != rule.matches || !RuleMatches(record, rule) then Err(NoRule)
    else
      match Payload(rule, record)
      case Err(e) => Err(e)
      case Ok(payload) =>
        match ParseVocabulary(rule.event)
        case Err(e) => Err(e)
        case Ok(vocabulary) =>
          var evidence := if !payload.Object? then payload
                          else if ValueEq(record, raw) then Object(payload.fields["_ahrb_source_raw" := raw])
                          else Object(payload.fields["_ahrb_source_raw" := raw]["_ahrb_mapping_raw" := record]);
          var actor := AsStr(Get(record, "actor"));
          Ok(NormalizedEvent(id, cursor, setting.localId, if actor.Some? then actor.value else "", vocabulary, evidence))
  }

  lemma PreparedActor(setting: Setting, raw: Value, expanded: Option<Value>)
    requires raw.Object?
    ensures ActorOf(setting, Prepared(raw, expanded)) == ActorOf(setting, raw)
  {
    if expanded.Some? {
      assert "actor" != "_ahrb_expanded" by { assert |"actor"| != |"_ahrb_expanded"|; }
    }
  }

  /** What the collector puts into a record before it maps it; everything else stays. */
  lemma IdentifiedHolds(setting: Setting, prepared: Value, id: string, cursor: nat, f: string)
    requires prepared.Object?
    ensures var record := Identified(setting, prepared, id, cursor);
            && Get(record, "_ahrb_id") == Some(Str(id)) && Get(record, "_ahrb_cursor") == Some(Number(CursorNumber(cursor)))
            && Get(record, "session_id") == Some(Str(setting.localId))
            && Get(record, "actor") == Some(if "actor" in prepared.fields then prepared.fields["actor"] else Str(setting.marker))
            && (f !in ["_ahrb_id", "_ahrb_cursor", "session_id", "actor"] ==> Get(record, f) == Get(prepared, f))
  {
    hide CursorNumber;
    assert |"_ahrb_id"| == 8 && |"_ahrb_cursor"| == 12 && |"session_id"| == 10 && |"actor"| == 5;
  }

  /** The fields that normalization itself puts into a payload. */
  predicate Reserved(f: string) { f == "_ahrb_source_raw" || f == "_ahrb_mapping_raw" }

  /**
   What a payload holds, field by field: a bound field is what its pointer finds in
   the record, any other one is what was extracted, and the raw record is kept.
   Only a payload that is no object is the extracted value itself.
   */
  lemma PayloadHolds(setting: Setting, rule: Rule, raw: Value, prepared: Value, id: string, cursor: nat, f: string)
    requires prepared.Object? && Normalized(setting, rule, raw, prepared, id, cursor).Ok?
    ensures var record := Identified(setting, prepared, id, cursor);
            var extracted := if rule.payloadPointer == "" then Some(record) else Lookup(record, rule.payloadPointer);
            var payload := Normalized(setting, rule, raw, prepared, id, cursor).value.payload;
            && extracted.Some?
            && (!extracted.value.Object? ==> rule.payloadBindings == map[] && payload == extracted.value)
            && (extracted.value.Object? ==>
                  && Get(payload, "_ahrb_source_raw") == Some(raw)
                  && (f in rule.payloadBindings && !Reserved(f) ==>
                        Get(payload, f) == Lookup(record, rule.payloadBindings[f]) != None)
                  && (f !in rule.payloadBindings && !Reserved(f) ==> Get(payload, f) == Get(extracted.value, f)))
  {
    hide Identified, EventType, RuleMatches, ParseVocabulary, ValueEq, Lookup;
    assert "_ahrb_source_raw"[6] != "_ahrb_mapping_raw"[6];
  }

  /** A field matches if it is a text, a flag or a number that is written like this. */
  lemma FieldMatchesText(v: Value, expected: string)
    ensures FieldMatches(Some(v), expected)
       <==> if v.Str? then v.chars == expected else (v.Bool? || v.Number?) && Serialize(v) == expected
    ensures !FieldMatches(None, expected)
  {
    if v.Number? {
      assert v.text + "" == v.text;
    }
    assert "true" + "" == "true" && "false" + "" == "false";
  }

  /** A record's type is its `type`, even if it has an `event` too, unless the mapping points elsewhere. */
  lemma TypePrecedes(mapping: Mapping, raw: Value)
    ensures var pointed := if mapping.typePointer == "" then None else AsStr(Lookup(raw, mapping.typePointer));
            && (pointed.Some? ==> EventType(mapping, raw) == pointed)
            && (pointed.None? && AsStr(Get(raw, "type")).Some? ==> EventType(mapping, raw) == AsStr(Get(raw, "type")))
            && (pointed.None? && AsStr(Get(raw, "type")).None? ==> EventType(mapping, raw) == AsStr(Get(raw, "event")))
  {}

  // ---- The specification: a left-to-right fold over records, rules and expansions -------------

  /** Ids already taken, the next cursor, and the index so far. */
  datatype Progress = Progress(seen: set<string>, next: nat, index: seq<Stamp>)

  function Emit(setting: Setting, raw: Value, at: nat, ruleIndex: nat, expandIndex: nat, expanded: Option<Value>,
                p: Progress): Result<Progress, EventError>
    requires ruleIndex < |setting.mapping.rules|
  {
    var rule := setting.mapping.rules[ruleIndex];
    if !raw.Object? then Err(RecordNotObject)
    else if !RuleMatches(Prepared(raw, expanded), rule) then Ok(p)
    else
      var id := EventId(setting, raw, at, ruleIndex, expandIndex);
      if id in p.seen then Ok(p)
      else
        match Normalized(setting, rule, raw, Prepared(raw, expanded), id, p.next)
        case Err(e) => Err(e)
        case Ok(event) => Ok(Progress(p.seen + {id}, p.next + 1, p.index + [StampOf(event)]))
  }

  function FoldExpansions(setting: Setting, raw: Value, at: nat, ruleIndex: nat, expansions: seq<Option<Value>>,
                          from: nat, p: Progress): Result<Progress, EventError>
    requires ruleIndex < |setting.mapping.rules| && from <= |expansions|
    decreases |expansions| - from
  {
    if from == |expansions| then Ok(p)
    else
      match Emit(setting, raw, at, ruleIndex, from, expansions[from], p)
      case Err(e) => Err(e)
      case Ok(q) => FoldExpansions(setting, raw, at, ruleIndex, expansions, from + 1, q)
  }

  /** A rule applies when it names the record's type, unless it is terminal and terminals are held back. */
  predicate Applies(setting: Setting, rule: Rule, kind: string) {
    rule.matches == kind && (setting.allowTerminal || !TerminalName(rule.event))
  }

  function FoldRule(setting: Setting, raw: Value, at: nat, kind: string, ruleIndex: nat, p: Progress)
    : Result<Progress, EventError>
    requires ruleIndex < |setting.mapping.rules|
  {
    var rule := setting.mapping.rules[ruleIndex];
    if Applies(setting, rule, kind) then FoldExpansions(setting, raw, at, ruleIndex, Expansions(rule, raw), 0, p)
    else Ok(p)
  }

  function FoldRules(setting: Setting, raw: Value, at: nat, kind: string, ruleIndex: nat, p: Progress)
    : Result<Progress, EventError>
    requires ruleIndex <= |setting.mapping.rules|
    decreases |setting.mapping.rules| - ruleIndex
  {
    if ruleIndex == |setting.mapping.rules| then Ok(p)
    else
      match FoldRule(setting, raw, at, kind, ruleIndex, p)
      case Err(e) => Err(e)
      case Ok(q) => FoldRules(setting, raw, at, kind, ruleIndex + 1, q)
  }

  function FoldRecord(setting: Setting, raw: Value, at: nat, p: Progress): Result<Progress, EventError> {
    match EventType(setting.mapping, raw)
    case None => Ok(p)
    case Some(kind) => FoldRules(setting, raw, at, kind, 0, p)
  }

  /** The records starting at absolute index `base`. */
  function FoldRecords(setting: Setting, records: seq<Value>, base: nat, p: Progress): Result<Progress, EventError> {
    if records == [] then Ok(p)
    else
      match FoldRecord(setting, records[0], base, p)
      case Err(e) => Err(e)
      case Ok(q) => FoldRecords(setting, records[1..], base + 1, q)
  }

  // ---- What every fold keeps ----------------------------------------------------------------

  /** The index only grows, by events with fresh ids of this namespace and consecutive cursors. */
  predicate Extends(setting: Setting, p: Progress, q: Progress) {
    && |p.index| <= |q.index| && q.index[..|p.index|] == p.index
    && q.next == p.next + (|q.index| - |p.index|)
    && p.seen <= q.seen
    && (forall i | |p.index| <= i < |q.index| ::
          && q.index[i].cursor == p.next + (i - |p.index|)
          && q.index[i].sessionId == setting.localId
          && StartsWith(q.index[i].id, IdPrefix(setting))
          && q.index[i].id in q.seen && q.index[i].id !in p.seen
          && (IsTerminal(q.index[i].event) ==> setting.allowTerminal))
    && forall id | id in q.seen - p.seen :: exists i :: |p.index| <= i < |q.index| && q.index[i].id == id
  }

  lemma ExtendsReflexive(setting: Setting, p: Progress)
    ensures Extends(setting, p, p)
  {
    assert p.index[..|p.index|] == p.index;
  }

  lemma ExtendsTransitive(setting: Setting, p: Progress, q: Progress, r: Progress)
    requires Extends(setting, p, q) && Extends(setting, q, r)
    ensures Extends(setting, p, r)
  {
    hide IdPrefix;
    assert r.index[..|p.index|] == r.index[..|q.index|][..|p.index|];
    forall i | |p.index| <= i < |q.index| ensures r.index[i] == q.index[i] {
      assert r.index[..|q.index|][i] == r.index[i];
    }
    forall id | id in r.seen - p.seen ensures exists i :: |p.index| <= i < |r.index| && r.index[i].id == id {
      if id in q.seen {
        assert id in q.seen - p.seen;
        var i :| |p.index| <= i < |q.index| && q.index[i].id == id;
        assert r.index[i].id == id;
      } else {
        assert id in r.seen - q.seen;
      }
    }
  }

  lemma EmitExtends(setting: Setting, raw: Value, at: nat, ruleIndex: nat, expandIndex: nat, expanded: Option<Value>,
                    p: Progress)
    requires ruleIndex < |setting.mapping.rules|
    requires setting.allowTerminal || !TerminalName(setting.mapping.rules[ruleIndex].event)
    ensures var r := Emit(setting, raw, at, ruleIndex, expandIndex, expanded, p);
            r.Ok? ==> Extends(setting, p, r.value)
  {
    hide RuleMatches, Normalized, SourceId, IdPrefix;
    ExtendsReflexive(setting, p);
    var r := Emit(setting, raw, at, ruleIndex, expandIndex, expanded, p);
    if r.Ok? && r.value != p {
      var id := EventId(setting, raw, at, ruleIndex, expandIndex);
      var q := r.value;
      assert q.index[..|p.index|] == p.index;
      assert q.index[|p.index|].id == id;
    }
  }

  lemma {:induction false} FoldExpansionsExtends(setting: Setting, raw: Value, at: nat, ruleIndex: nat,
                                                 expansions: seq<Option<Value>>, from: nat, p: Progress)
    requires ruleIndex < |setting.mapping.rules| && from <= |expansions|
    requires setting.allowTerminal || !TerminalName(setting.mapping.rules[ruleIndex].event)
    ensures var r := FoldExpansions(setting, raw, at, ruleIndex, expansions, from, p);
            r.Ok? ==> Extends(setting, p, r.value)
    decreases |expansions| - from
  {
    hide Emit, Extends;
    ExtendsReflexive(setting, p);
    if from < |expansions| {
      EmitExtends(setting, raw, at, ruleIndex, from, expansions[from], p);
      var step := Emit(setting, raw, at, ruleIndex, from, expansions[from], p);
      if step.Ok? {
        FoldExpansionsExtends(setting, raw, at, ruleIndex, expansions, from + 1, step.value);
        var r := FoldExpansions(setting, raw, at, ruleIndex, expansions, from + 1, step.value);
        if r.Ok? {
          ExtendsTransitive(setting, p, step.value, r.value);
        }
      }
    }
  }

  lemma {:induction false} FoldRulesExtends(setting: Setting, raw: Value, at: nat, kind: string, ruleIndex: nat,
                                            p: Progress)
    requires ruleIndex <= |setting.mapping.rules|
    ensures var r := FoldRules(setting, raw, at, kind, ruleIndex, p);
            r.Ok? ==> Extends(setting, p, r.value)
    decreases |setting.mapping.rules| - ruleIndex
  {
    hide FoldExpansions, Extends, Expansions;
    ExtendsReflexive(setting, p);
    if ruleIndex < |setting.mapping.rules| {
      var rule := setting.mapping.rules[ruleIndex];
      if Applies(setting, rule, kind) {
        FoldExpansionsExtends(setting, raw, at, ruleIndex, Expansions(rule, raw), 0, p);
      }
      var step := FoldRule(setting, raw, at, kind, ruleIndex, p);
      if step.Ok? {
        FoldRulesExtends(setting, raw, at, kind, ruleIndex + 1, step.value);
        var r := FoldRules(setting, raw, at, kind, ruleIndex + 1, step.value);
        if r.Ok? {
          ExtendsTransitive(setting, p, step.value, r.value);
        }
      }
    }
  }

  lemma FoldRecordExtends(setting: Setting, raw: Value, at: nat, p: Progress)
    ensures var r := FoldRecord(setting, raw, at, p);
            r.Ok? ==> Extends(setting, p, r.value)
  {
    hide FoldRules, Extends;
    ExtendsReflexive(setting, p);
    var kind := EventType(setting.mapping, raw);
    if kind.Some? {
      FoldRulesExtends(setting, raw, at, kind.value, 0, p);
    }
  }

  lemma {:induction false} FoldRecordsExtends(setting: Setting, records: seq<Value>, base: nat, p: Progress)
    ensures var r := FoldRecords(setting, records, base, p);
            r.Ok? ==> Extends(setting, p, r.value)
  {
    hide FoldRecord, Extends;
    ExtendsReflexive(setting, p);
    if records != [] {
      FoldRecordExtends(setting, records[0], base, p);
      var step := FoldRecord(setting, records[0], base, p);
      if step.Ok? {
        FoldRecordsExtends(setting, records[1..], base + 1, step.value);
        var r := FoldRecords(setting, records[1..], base + 1, step.value);
        if r.Ok? {
          ExtendsTransitive(setting, p, step.value, r.value);
        }
      }
    }
  }

  /** Normalizing a list of records in two parts is normalizing it in one. */
  lemma {:induction false} FoldRecordsAppend(setting: Setting, a: seq<Value>, b: seq<Value>, base: nat, p: Progress)
    ensures FoldRecords(setting, a + b, base, p)
         == match FoldRecords(setting, a, base, p)
            case Err(e) => Err(e)
            case Ok(q) => FoldRecords(setting, b, base + |a|, q)
  {
    hide FoldRecord;
    if a == [] {
      assert a + b == b;
    } else {
      assert (a + b)[1..] == a[1..] + b;
      var step := FoldRecord(setting, a[0], base, p);
      if step.Ok? {
        FoldRecordsAppend(setting, a[1..], b, base + 1, step.value);
      }
    }
  }

  // ---- Fixture correlation and corrections ------------------------------------------------------

  type Calls = map<string, Value>

  /**
   How native tool events are correlated with fixture calls. Only payloads are
   rewritten: `seed` collects the known calls, `rewrite` gives a tool event's
   canonical payload and the calls known afterwards, `stale` says that an indexed
   tool event has an outdated payload.
   */
  datatype Fixtures = Fixtures(
    seed: (seq<NormalizedEvent>, seq<Value>) -> Calls,
    rewrite: (NormalizedEvent, Calls) -> (Value, Calls),
    stale: (NormalizedEvent, Calls) -> bool)

  predicate IsTool(v: Vocabulary) { v.ToolCall? || v.ToolResult? }

  function Rewritten(fixtures: Fixtures, event: NormalizedEvent, calls: Calls): (NormalizedEvent, Calls) {
    if IsTool(event.event) then
      var (payload, calls') := fixtures.rewrite(event, calls);
      (event.(payload := payload), calls')
    else (event, calls)
  }

  function Ids(events: seq<NormalizedEvent>): set<string> { set e | e in events :: e.id }

  /** `BTreeMap::values`: the indexed events of the current turn in id order. */
  function ValuesById(existing: map<string, NormalizedEvent>): (events: seq<NormalizedEvent>)
    ensures |events| == |SortedStrings(existing.Keys)|
    ensures forall i | 0 <= i < |events| ::
              SortedStrings(existing.Keys)[i] in existing && events[i] == existing[SortedStrings(existing.Keys)[i]]
  {
    var keys := SortedStrings(existing.Keys);
    assert forall i | 0 <= i < |keys| :: keys[i] in keys;
    seq(|keys|, i requires 0 <= i < |keys| => existing[keys[i]])
  }

  predicate CorrectionOf(existing: map<string, NormalizedEvent>, k: string, e: NormalizedEvent) {
    k in existing && IsTool(existing[k].event) && e == existing[k].(payload := e.payload)
  }

  ghost predicate IsCorrection(existing: map<string, NormalizedEvent>, e: NormalizedEvent) {
    exists k :: CorrectionOf(existing, k, e)
  }

  /** Each correction rewrites the payload of one indexed tool event and nothing else. */
  ghost predicate Corrects(existing: map<string, NormalizedEvent>, corrections: seq<NormalizedEvent>) {
    forall i | 0 <= i < |corrections| :: IsCorrection(existing, corrections[i])
  }

  lemma CorrectsSnoc(existing: map<string, NormalizedEvent>, corrections: seq<NormalizedEvent>, k: string,
                     e: NormalizedEvent)
    requires Corrects(existing, corrections) && CorrectionOf(existing, k, e)
    ensures Corrects(existing, corrections + [e])
  {
    assert IsCorrection(existing, e);
  }

  /** The stale tool events, each with its payload rewritten. */
  function CorrectionsOf(fixtures: Fixtures, events: seq<NormalizedEvent>, calls: Calls): seq<NormalizedEvent> {
    if events == [] then []
    else
      var event := events[|events| - 1];
      CorrectionsOf(fixtures, events[..|events| - 1], calls)
      + if IsTool(event.event) && fixtures.stale(event, calls) then [Rewritten(fixtures, event, calls).0] else []
  }

  lemma CorrectionsSnoc(fixtures: Fixtures, existing: map<string, NormalizedEvent>, calls: Calls, i: nat)
    requires i < |ValuesById(existing)|
    ensures var events := ValuesById(existing);
            var before, after := CorrectionsOf(fixtures, events[..i], calls), CorrectionsOf(fixtures, events[..i + 1], calls);
            && after == before + (if IsTool(events[i].event) && fixtures.stale(events[i], calls)
                                  then [Rewritten(fixtures, events[i], calls).0] else [])
            && (Corrects(existing, before) ==> Corrects(existing, after))
  {
    hide SortedStrings, Corrects, ValuesById, IsTool;
    var events := ValuesById(existing);
    assert events[..i + 1][..i] == events[..i];
    assert CorrectionsOf(fixtures, events[..i], calls) + [] == CorrectionsOf(fixtures, events[..i], calls);
    if IsTool(events[i].event) && fixtures.stale(events[i], calls)
       && Corrects(existing, CorrectionsOf(fixtures, events[..i], calls)) {
      var corrected := Rewritten(fixtures, events[i], calls).0;
      var k := SortedStrings(existing.Keys)[i];
      assert corrected == events[i].(payload := corrected.payload);
      CorrectsSnoc(existing, CorrectionsOf(fixtures, events[..i], calls), k, corrected);
    }
  }

  method Corrections(fixtures: Fixtures, existing: map<string, NormalizedEvent>, calls: Calls)
    returns (output: seq<NormalizedEvent>)
    ensures output == CorrectionsOf(fixtures, ValuesById(existing), calls)
    ensures Corrects(existing, output)
  {
    var events := ValuesById(existing);
    output := [];
    assert Corrects(existing, []) && CorrectionsOf(fixtures, events[..0], calls) == [];
    hide ValuesById, Corrects, CorrectionsOf, Rewritten;
    for i := 0 to |events|
      invariant output == CorrectionsOf(fixtures, events[..i], calls)
      invariant Corrects(existing, output)
    {
      CorrectionsSnoc(fixtures, existing, calls, i);
      if IsTool(events[i].event) && fixtures.stale(events[i], calls) {
        output := output + [Rewritten(fixtures, events[i], calls).0];
      }
    }
    assert events[..|events|] == events;
  }

  // ---- Normalization as the source runs it ---------------------------------------------------------

  /** The new events agree with the specification's progress from `start` to `p`. */
  ghost predicate Matches(start: Progress, events: seq<NormalizedEvent>, p: Progress) {
    p.index == start.index + StampsOf(events) && p.seen == start.seen + Ids(events)
  }

  lemma MatchesStep(start: Progress, events: seq<NormalizedEvent>, p: Progress, event: NormalizedEvent)
    requires Matches(start, events, p)
    ensures Matches(start, events + [event], Progress(p.seen + {event.id}, p.next + 1, p.index + [StampOf(event)]))
  {
    assert StampsOf(events + [event]) == StampsOf(events) + [StampOf(event)];
    assert event in events + [event];
    assert forall e :: e in events + [event] <==> e in events || e == event;
    assert Ids(events + [event]) == Ids(events) + {event.id};
  }

  /**
   Where an event comes from: this rule, applied to this element of this record,
   gives it, with its payload rewritten if it is a tool event.
   */
  ghost predicate Gives(setting: Setting, fixtures: Fixtures, raw: Value, at: nat, rule: nat, element: nat,
                        e: NormalizedEvent)
  {
    && raw.Object? && rule < |setting.mapping.rules| && element < |Expansions(setting.mapping.rules[rule], raw)|
    && e.id == EventId(setting, raw, at, rule, element)
    && VocabularyName(e.event) == setting.mapping.rules[rule].event && e.actor == ActorOf(setting, raw)
    && var normalized := Normalized(setting, setting.mapping.rules[rule], raw,
                                    Prepared(raw, Expansions(setting.mapping.rules[rule], raw)[element]), e.id, e.cursor);
       normalized.Ok? && exists calls :: e == Rewritten(fixtures, normalized.value, calls).0
  }

  ghost predicate Sourced(setting: Setting, fixtures: Fixtures, raw: Value, at: nat, e: NormalizedEvent) {
    exists rule, element :: Gives(setting, fixtures, raw, at, rule, element, e)
  }

  /** Every new event comes from one of the records, at its absolute index. */
  ghost predicate AllSourced(setting: Setting, fixtures: Fixtures, records: seq<Value>, base: nat,
                             events: seq<NormalizedEvent>)
  {
    forall e | e in events :: exists i | 0 <= i < |records| :: Sourced(setting, fixtures, records[i], base + i, e)
  }

  /** All expansions of one rule on one record. */
  method NormalizeExpansions(setting: Setting, fixtures: Fixtures, raw: Value, at: nat, ruleIndex: nat,
                             existing: map<string, NormalizedEvent>, output: seq<NormalizedEvent>, next: nat,
                             calls: Calls, ghost start: Progress, ghost p: Progress)
    returns (r: Result<(seq<NormalizedEvent>, nat, Calls), EventError>, ghost q: Progress)
    requires ruleIndex < |setting.mapping.rules|
    requires start.seen == existing.Keys && Matches(start, output, p) && p.next == next
    ensures var goal := FoldExpansions(setting, raw, at, ruleIndex,
                                       Expansions(setting.mapping.rules[ruleIndex], raw), 0, p);
            match goal
            case Err(e) => r == Err(e)
            case Ok(g) => r.Ok? && q == g && Matches(start, r.value.0, q) && q.next == r.value.1
    ensures r.Ok? ==> output <= r.value.0
                      && forall e | e in r.value.0[|output|..] :: Sourced(setting, fixtures, raw, at, e)
  {
    hide Matches, Expansions, RuleMatches, Normalized, SourceId, EventId, Sourced;
    var rule := setting.mapping.rules[ruleIndex];
    var expansions := Expansions(rule, raw);
    var output', next', calls' := output, next, calls;
    q := p;
    for i := 0 to |expansions|
      invariant FoldExpansions(setting, raw, at, ruleIndex, expansions, 0, p)
             == FoldExpansions(setting, raw, at, ruleIndex, expansions, i, q)
      invariant Matches(start, output', q) && q.next == next'
      invariant output <= output' && forall e | e in output'[|output|..] :: Sourced(setting, fixtures, raw, at, e)
    {
      if !raw.Object? {
        return Err(RecordNotObject), q;
      }
      var prepared := Prepared(raw, expansions[i]);
      if !RuleMatches(prepared, rule) {
        continue;
      }
      var id := EventId(setting, raw, at, ruleIndex, i);
      SeenIds(start, output', q, id);
      if id in existing || exists e | e in output' :: e.id == id {
        continue;
      }
      var normalized := Normalized(setting, rule, raw, prepared, id, next');
      if normalized.Err? {
        return Err(normalized.error), q;
      }
      var (event, later) := Rewritten(fixtures, normalized.value, calls');
      MatchesStep(start, output', q, event);
      GivenIsSourced(setting, fixtures, raw, at, ruleIndex, i, event, normalized.value, calls');
      assert (output' + [event])[|output|..] == output'[|output|..] + [event];
      q := Progress(q.seen + {id}, q.next + 1, q.index + [StampOf(event)]);
      output', next', calls' := output' + [event], next' + 1, later;
    }
    r := Ok((output', next', calls'));
  }

  lemma GivenIsSourced(setting: Setting, fixtures: Fixtures, raw: Value, at: nat, rule: nat, element: nat,
                       e: NormalizedEvent, normalized: NormalizedEvent, calls: Calls)
    requires raw.Object? && rule < |setting.mapping.rules|
    requires element < |Expansions(setting.mapping.rules[rule], raw)|
    requires Normalized(setting, setting.mapping.rules[rule], raw,
                        Prepared(raw, Expansions(setting.mapping.rules[rule], raw)[element]),
                        EventId(setting, raw, at, rule, element), normalized.cursor) == Ok(normalized)
    requires e == Rewritten(fixtures, normalized, calls).0
    ensures Sourced(setting, fixtures, raw, at, e)
  {
    hide Normalized, Expansions, EventId, ActorOf, VocabularyName;
    PreparedActor(setting, raw, Expansions(setting.mapping.rules[rule], raw)[element]);
    assert Gives(setting, fixtures, raw, at, rule, element, e);
  }

  lemma SeenIds(start: Progress, output: seq<NormalizedEvent>, p: Progress, id: string)
    requires Matches(start, output, p)
    ensures id in p.seen <==> id in start.seen || exists e :: e in output && e.id == id
  {}

  /** All rules on one record. */
  method NormalizeRecord(setting: Setting, fixtures: Fixtures, raw: Value, at: nat,
                         existing: map<string, NormalizedEvent>, output: seq<NormalizedEvent>, next: nat,
                         calls: Calls, ghost start: Progress, ghost p: Progress)
    returns (r: Result<(seq<NormalizedEvent>, nat, Calls), EventError>, ghost q: Progress)
    requires start.seen == existing.Keys && Matches(start, output, p) && p.next == next
    ensures match FoldRecord(setting, raw, at, p)
            case Err(e) => r == Err(e)
            case Ok(g) => r.Ok? && q == g && Matches(start, r.value.0, q) && q.next == r.value.1
    ensures r.Ok? ==> output <= r.value.0
                      && forall e | e in r.value.0[|output|..] :: Sourced(setting, fixtures, raw, at, e)
  {
    hide Matches, FoldExpansions, EventType, Sourced;
    var kind := EventType(setting.mapping, raw);
    if kind.None? {
      return Ok((output, next, calls)), p;
    }
    var output', next', calls' := output, next, calls;
    q := p;
    for i := 0 to |setting.mapping.rules|
      invariant FoldRules(setting, raw, at, kind.value, 0, p) == FoldRules(setting, raw, at, kind.value, i, q)
      invariant Matches(start, output', q) && q.next == next'
      invariant output <= output' && forall e | e in output'[|output|..] :: Sourced(setting, fixtures, raw, at, e)
    {
      if !Applies(setting, setting.mapping.rules[i], kind.value) {
        continue;
      }
      var step;
      step, q := NormalizeExpansions(setting, fixtures, raw, at, i, existing, output', next', calls', start, q);
      if step.Err? {
        return Err(step.error), q;
      }
      assert step.value.0[|output|..] == output'[|output|..] + step.value.0[|output'|..];
      output', next', calls' := step.value.0, step.value.1, step.value.2;
    }
    r := Ok((output', next', calls'));
  }

  lemma SourcedGrows(setting: Setting, fixtures: Fixtures, records: seq<Value>, base: nat, i: nat,
                     before: seq<NormalizedEvent>, after: seq<NormalizedEvent>)
    requires i < |records| && before <= after && AllSourced(setting, fixtures, records, base, before)
    requires forall e | e in after[|before|..] :: Sourced(setting, fixtures, records[i], base + i, e)
    ensures AllSourced(setting, fixtures, records, base, after)
  {
    hide Sourced;
    assert after == before + after[|before|..];
  }

  /** The events of all the records, in order. */
  method NormalizeAll(setting: Setting, fixtures: Fixtures, records: seq<Value>, base: nat,
                      existing: map<string, NormalizedEvent>, next: nat, seeded: Calls, ghost start: Progress)
    returns (r: Result<(seq<NormalizedEvent>, nat), EventError>)
    requires start.seen == existing.Keys && start.next == next
    ensures var goal := FoldRecords(setting, records, base, start);
            && (r.Ok? <==> goal.Ok?)
            && (r.Err? ==> r.error == goal.error)
            && (r.Ok? ==> Matches(start, r.value.0, goal.value) && goal.value.next == r.value.1)
    ensures r.Ok? ==> AllSourced(setting, fixtures, records, base, r.value.0)
  {
    hide Matches, AllSourced, FoldRecord, Sourced;
    var calls, next' := seeded, next;
    var output: seq<NormalizedEvent> := [];
    ghost var p := start;
    NothingNormalized(setting, fixtures, records, base, start);
    for i := 0 to |records|
      invariant FoldRecords(setting, records, base, start) == FoldRecords(setting, records[i..], base + i, p)
      invariant Matches(start, output, p) && p.next == next'
      invariant AllSourced(setting, fixtures, records, base, output)
    {
      assert records[i..][1..] == records[i + 1..];
      var step;
      step, p := NormalizeRecord(setting, fixtures, records[i], base + i, existing, output, next', calls, start, p);
      if step.Err? {
        return Err(step.error);
      }
      SourcedGrows(setting, fixtures, records, base, i, output, step.value.0);
      output, next', calls := step.value.0, step.value.1, step.value.2;
    }
    r := Ok((output, next'));
  }

  lemma NothingNormalized(setting: Setting, fixtures: Fixtures, records: seq<Value>, base: nat, start: Progress)
    ensures Matches(start, [], start) && AllSourced(setting, fixtures, records, base, []) && records[0..] == records
  {
    assert StampsOf([]) == [] && start.index + [] == start.index;
  }

  /**
   `normalize_records_at`: corrections of indexed tool events, then the events of
   the new records. The new events' stamps and the advanced cursor are those of
   the fold, and each event has the payload that its rule gives it.
   */
  method NormalizeRecordsAt(setting: Setting, fixtures: Fixtures, records: seq<Value>, base: nat,
                            existing: map<string, NormalizedEvent>, next: nat, ghost index: seq<Stamp>)
    returns (r: Result<(seq<NormalizedEvent>, seq<NormalizedEvent>, nat), EventError>)
    ensures var goal := FoldRecords(setting, records, base, Progress(existing.Keys, next, index));
            && (r.Ok? <==> goal.Ok?)
            && (r.Err? ==> r.error == goal.error)
            && (r.Ok? ==>
                  var (events, next') := (r.value.1, r.value.2);
                  goal.value == Progress(existing.Keys + Ids(events), next', index + StampsOf(events)))
    ensures r.Ok? ==> AllSourced(setting, fixtures, records, base, r.value.1)
    ensures r.Ok? ==> Corrects(existing, r.value.0)
    ensures r.Ok? ==>
              r.value.0 == CorrectionsOf(fixtures, ValuesById(existing), fixtures.seed(ValuesById(existing), records))
  {
    hide FoldRecords, Corrects, AllSourced, CorrectionsOf, ValuesById;
    var calls := fixtures.seed(ValuesById(existing), records);
    var corrections := Corrections(fixtures, existing, calls);
    var normalized :=
      NormalizeAll(setting, fixtures, records, base, existing, next, calls, Progress(existing.Keys, next, index));
    if normalized.Err? {
      return Err(normalized.error);
    }
    r := Ok((corrections, normalized.value.0, normalized.value.1));
  }
}
