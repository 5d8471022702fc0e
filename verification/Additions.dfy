/**
 What normalizing records adds to an index: exactly the events of the rules that
 fire, under ids that tell record, rule and element apart.
 */
module Additions {
  import opened Prelude
  import opened Text
  import opened Json
  import opened Events

  // ---- Event ids -----------------------------------------------------------------------------

  /** If the text after a last separator is longer on one side, that text holds the separator. */
  lemma LongerTail(s: string, c: char, x: string, t: string, y: string)
    requires s + [c] + x == t + [c] + y && |x| < |y|
    ensures c in y
  {
    assert (s + [c] + x)[|s|] == c;
    assert (t + [c] + y)[|s|] == y[|s| - |t| - 1];
  }

  /** Texts that are equal are equal before and after their last separator. */
  lemma CutAtLast(s: string, c: char, x: string, t: string, y: string)
    requires c !in x && c !in y && s + [c] + x == t + [c] + y
    ensures s == t && x == y
  {
    if |x| < |y| {
      LongerTail(s, c, x, t, y);
    } else if |y| < |x| {
      LongerTail(t, c, y, s, x);
    } else {
      Cancel(s + [c], t + [c], x, y);
      Cancel(s, t, [c], [c]);
    }
  }

  lemma DecimalPlain(n: nat, c: char)
    requires !IsDigit(c)
    ensures c !in Decimal(n)
  {}

  lemma EventIdParts(setting: Setting, raw: Value, at: nat, i: nat, k: nat)
    ensures EventId(setting, raw, at, i, k)
         == ((IdPrefix(setting) + SourceId(setting, raw, at) + ":") + ['r'] + (Decimal(i) + ":")) + ['x'] + Decimal(k)
  {}

  /** An id determines the source id of its record, the rule and the expanded element. */
  lemma EventIdsDiffer(setting: Setting, a: Value, n: nat, i: nat, k: nat, b: Value, m: nat, j: nat, l: nat)
    requires EventId(setting, a, n, i, k) == EventId(setting, b, m, j, l)
    ensures SourceId(setting, a, n) == SourceId(setting, b, m) && i == j && k == l
  {
    hide SourceId, IdPrefix, Decimal, EventId;
    var prefix, s, t := IdPrefix(setting), SourceId(setting, a, n), SourceId(setting, b, m);
    EventIdParts(setting, a, n, i, k);
    EventIdParts(setting, b, m, j, l);
    var x, y := Decimal(i) + ":", Decimal(j) + ":";
    DecimalPlain(k, 'x');
    DecimalPlain(l, 'x');
    CutAtLast(prefix + s + ":" + ['r'] + x, 'x', Decimal(k), prefix + t + ":" + ['r'] + y, Decimal(l));
    DecimalPlain(i, 'r');
    DecimalPlain(j, 'r');
    CutAtLast(prefix + s + ":", 'r', x, prefix + t + ":", y);
    Cancel(Decimal(i), Decimal(j), ":", ":");
    DecimalInjective(i, j);
    DecimalInjective(k, l);
    Cancel(prefix + s, prefix + t, ":", ":");
    Cancel(prefix, prefix, s, t);
  }

  // ---- The rules that fire -------------------------------------------------------------------

  /** The rule applies to this element of the record: by type, by its fields, and unless terminals are held back. */
  predicate Fires(setting: Setting, raw: Value, rule: nat, element: nat) {
    && raw.Object? && rule < |setting.mapping.rules|
    && var r := setting.mapping.rules[rule];
       && EventType(setting.mapping, raw) == Some(r.matches)
       && (setting.allowTerminal || !TerminalName(r.event))
       && element < |Expansions(r, raw)|
       && RuleMatches(Prepared(raw, Expansions(r, raw)[element]), r)
  }

  /** The entry of a rule that fires: its id, the vocabulary entry that the rule names, and whose event it is. */
  predicate YieldedBy(setting: Setting, raw: Value, at: nat, rule: nat, element: nat, stamp: Stamp) {
    && Fires(setting, raw, rule, element)
    && stamp.id == EventId(setting, raw, at, rule, element)
    && VocabularyName(stamp.event) == setting.mapping.rules[rule].event
    && stamp.sessionId == setting.localId && stamp.actor == ActorOf(setting, raw)
  }

  ghost predicate Yields(setting: Setting, raw: Value, at: nat, stamp: Stamp) {
    exists rule: nat, element: nat :: YieldedBy(setting, raw, at, rule, element, stamp)
  }

  /** The id is one that this record can give. */
  ghost predicate IsOwn(setting: Setting, raw: Value, at: nat, id: string) {
    exists rule: nat, element: nat :: id == EventId(setting, raw, at, rule, element)
  }

  lemma OwnId(setting: Setting, raw: Value, at: nat, rule: nat, element: nat)
    ensures IsOwn(setting, raw, at, EventId(setting, raw, at, rule, element))
  {}

  lemma YieldedIsOwn(setting: Setting, raw: Value, at: nat, stamp: Stamp)
    requires Yields(setting, raw, at, stamp)
    ensures IsOwn(setting, raw, at, stamp.id)
  {
    hide EventId, Fires;
  }

  // ---- What one record adds --------------------------------------------------------------------

  /** Everything added is what some rule gives for this record. */
  ghost predicate AddsOwn(setting: Setting, raw: Value, at: nat, p: Progress, q: Progress) {
    forall j | |p.index| <= j < |q.index| :: Yields(setting, raw, at, q.index[j])
  }

  lemma AddsOwnLater(setting: Setting, raw: Value, at: nat, p: Progress, q: Progress, r: Progress)
    requires Extends(setting, q, r) && AddsOwn(setting, raw, at, p, q) && AddsOwn(setting, raw, at, q, r)
    ensures AddsOwn(setting, raw, at, p, r)
  {
    hide IdPrefix, Yields;
    forall j | |p.index| <= j < |r.index| ensures Yields(setting, raw, at, r.index[j]) {
      if j < |q.index| {
        assert r.index[..|q.index|][j] == r.index[j];
      }
    }
  }

  lemma NothingAdded(setting: Setting, raw: Value, at: nat, p: Progress)
    ensures AddsOwn(setting, raw, at, p, p)
  {}

  lemma EmitAddsOwn(setting: Setting, raw: Value, at: nat, rule: nat, element: nat, p: Progress)
    requires rule < |setting.mapping.rules| && element < |Expansions(setting.mapping.rules[rule], raw)|
    requires EventType(setting.mapping, raw) == Some(setting.mapping.rules[rule].matches)
    requires setting.allowTerminal || !TerminalName(setting.mapping.rules[rule].event)
    ensures var r := Emit(setting, raw, at, rule, element, Expansions(setting.mapping.rules[rule], raw)[element], p);
            r.Ok? ==>
              && AddsOwn(setting, raw, at, p, r.value)
              && (Fires(setting, raw, rule, element) ==> EventId(setting, raw, at, rule, element) in r.value.seen)
  {
    hide EventId, RuleMatches, Normalized, ActorOf, Expansions, EventType;
    var expanded := Expansions(setting.mapping.rules[rule], raw)[element];
    var r := Emit(setting, raw, at, rule, element, expanded, p);
    if r.Ok? {
      PreparedActor(setting, raw, expanded);
      if |r.value.index| > |p.index| {
        assert YieldedBy(setting, raw, at, rule, element, r.value.index[|p.index|]);
      }
    }
  }

  /** Nothing that fires from this element of this rule on is missing. */
  ghost predicate TakesFrom(setting: Setting, raw: Value, at: nat, rule: nat, element: nat, seen: set<string>) {
    forall i: nat, k: nat | Fires(setting, raw, i, k) && (i > rule || (i == rule && k >= element)) ::
      EventId(setting, raw, at, i, k) in seen
  }

  /** The ids of everything that fires are taken. */
  ghost predicate TakesAll(setting: Setting, raw: Value, at: nat, seen: set<string>) {
    forall i: nat, k: nat | Fires(setting, raw, i, k) :: EventId(setting, raw, at, i, k) in seen
  }

  lemma {:induction false} ExpansionsAddOwn(setting: Setting, raw: Value, at: nat, rule: nat, from: nat, p: Progress)
    requires rule < |setting.mapping.rules| && from <= |Expansions(setting.mapping.rules[rule], raw)|
    requires EventType(setting.mapping, raw) == Some(setting.mapping.rules[rule].matches)
    requires setting.allowTerminal || !TerminalName(setting.mapping.rules[rule].event)
    ensures var r := FoldExpansions(setting, raw, at, rule, Expansions(setting.mapping.rules[rule], raw), from, p);
            r.Ok? ==>
              && AddsOwn(setting, raw, at, p, r.value)
              && forall k: nat | Fires(setting, raw, rule, k) && k >= from ::
                   EventId(setting, raw, at, rule, k) in r.value.seen
    decreases |Expansions(setting.mapping.rules[rule], raw)| - from
  {
    hide Emit, IdPrefix, AddsOwn, EventId, Expansions, RuleMatches, EventType;
    var expansions := Expansions(setting.mapping.rules[rule], raw);
    if from == |expansions| {
      NothingAdded(setting, raw, at, p);
    } else {
      var step := Emit(setting, raw, at, rule, from, expansions[from], p);
      if step.Ok? {
        EmitAddsOwn(setting, raw, at, rule, from, p);
        ExpansionsAddOwn(setting, raw, at, rule, from + 1, step.value);
        FoldExpansionsExtends(setting, raw, at, rule, expansions, from + 1, step.value);
        var r := FoldExpansions(setting, raw, at, rule, expansions, from + 1, step.value);
        if r.Ok? {
          AddsOwnLater(setting, raw, at, p, step.value, r.value);
        }
      }
    }
  }

  lemma {:induction false} RulesAddOwn(setting: Setting, raw: Value, at: nat, kind: string, rule: nat, p: Progress)
    requires rule <= |setting.mapping.rules| && EventType(setting.mapping, raw) == Some(kind)
    ensures var r := FoldRules(setting, raw, at, kind, rule, p);
            r.Ok? ==> AddsOwn(setting, raw, at, p, r.value) && TakesFrom(setting, raw, at, rule, 0, r.value.seen)
    decreases |setting.mapping.rules| - rule
  {
    hide FoldExpansions, IdPrefix, AddsOwn, Expansions, EventId, EventType, RuleMatches;
    NothingAdded(setting, raw, at, p);
    if rule < |setting.mapping.rules| {
      var step := FoldRule(setting, raw, at, kind, rule, p);
      if step.Ok? {
        if Applies(setting, setting.mapping.rules[rule], kind) {
          ExpansionsAddOwn(setting, raw, at, rule, 0, p);
        }
        RulesAddOwn(setting, raw, at, kind, rule + 1, step.value);
        FoldRulesExtends(setting, raw, at, kind, rule + 1, step.value);
        var r := FoldRules(setting, raw, at, kind, rule + 1, step.value);
        if r.Ok? {
          AddsOwnLater(setting, raw, at, p, step.value, r.value);
        }
      }
    }
  }

  /** One record adds what its rules give, and nothing that fires is left out. */
  lemma RecordAddsOwn(setting: Setting, raw: Value, at: nat, p: Progress)
    ensures var r := FoldRecord(setting, raw, at, p);
            r.Ok? ==> AddsOwn(setting, raw, at, p, r.value) && TakesAll(setting, raw, at, r.value.seen)
  {
    hide FoldRules, AddsOwn, EventId, EventType;
    NothingAdded(setting, raw, at, p);
    var kind := EventType(setting.mapping, raw);
    if kind.Some? {
      RulesAddOwn(setting, raw, at, kind.value, 0, p);
    }
  }

  // ---- What a run of records adds -------------------------------------------------------------

  /** The entry is what some rule gives for one of these records. */
  ghost predicate IsFrom(setting: Setting, records: seq<Value>, base: nat, stamp: Stamp) {
    exists i | 0 <= i < |records| :: Yields(setting, records[i], base + i, stamp)
  }

  ghost predicate AddsTheirs(setting: Setting, records: seq<Value>, base: nat, p: Progress, q: Progress) {
    forall j | |p.index| <= j < |q.index| :: IsFrom(setting, records, base, q.index[j])
  }

  /** The id is one that some of these records can give. */
  ghost predicate IsTheirs(setting: Setting, records: seq<Value>, base: nat, id: string) {
    exists i | 0 <= i < |records| :: IsOwn(setting, records[i], base + i, id)
  }

  lemma FromIsTheirs(setting: Setting, records: seq<Value>, base: nat, stamp: Stamp)
    requires IsFrom(setting, records, base, stamp)
    ensures IsTheirs(setting, records, base, stamp.id)
  {
    hide Yields, IsOwn;
    var i :| 0 <= i < |records| && Yields(setting, records[i], base + i, stamp);
    YieldedIsOwn(setting, records[i], base + i, stamp);
  }

  /** Nothing that fires for these records is left out. */
  ghost predicate TakesEach(setting: Setting, records: seq<Value>, base: nat, seen: set<string>) {
    forall i | 0 <= i < |records| :: TakesAll(setting, records[i], base + i, seen)
  }

  lemma FromRest(setting: Setting, records: seq<Value>, base: nat, stamp: Stamp)
    requires records != [] && (Yields(setting, records[0], base, stamp) || IsFrom(setting, records[1..], base + 1, stamp))
    ensures IsFrom(setting, records, base, stamp)
  {
    hide Yields;
    if IsFrom(setting, records[1..], base + 1, stamp) {
      var i :| 0 <= i < |records[1..]| && Yields(setting, records[1..][i], base + 1 + i, stamp);
      assert Yields(setting, records[i + 1], base + (i + 1), stamp);
    } else {
      assert Yields(setting, records[0], base + 0, stamp);
    }
  }

  lemma AddsTheirsLater(setting: Setting, records: seq<Value>, base: nat, p: Progress, q: Progress, r: Progress)
    requires records != [] && Extends(setting, q, r) && AddsOwn(setting, records[0], base, p, q)
    requires AddsTheirs(setting, records[1..], base + 1, q, r)
    ensures AddsTheirs(setting, records, base, p, r)
  {
    hide IdPrefix, Yields, IsFrom;
    forall j | |p.index| <= j < |r.index| ensures IsFrom(setting, records, base, r.index[j]) {
      if j < |q.index| {
        assert r.index[..|q.index|][j] == r.index[j];
      }
      FromRest(setting, records, base, r.index[j]);
    }
  }

  lemma TakesEachLater(setting: Setting, records: seq<Value>, base: nat, q: Progress, r: Progress)
    requires records != [] && Extends(setting, q, r) && TakesAll(setting, records[0], base, q.seen)
    requires TakesEach(setting, records[1..], base + 1, r.seen)
    ensures TakesEach(setting, records, base, r.seen)
  {
    hide IdPrefix, EventId, Fires;
    forall i | 0 <= i < |records| ensures TakesAll(setting, records[i], base + i, r.seen) {
      if i > 0 {
        assert TakesAll(setting, records[1..][i - 1], base + 1 + (i - 1), r.seen);
      }
    }
  }

  /**
   What normalizing records adds. Every new entry is what one rule gives for one
   element of one record: with the id of the three, the vocabulary entry that the
   rule names, and the record's actor. And the id of every rule that fires is
   taken.
   */
  lemma {:induction false} RecordsAddTheirs(setting: Setting, records: seq<Value>, base: nat, p: Progress)
    ensures var r := FoldRecords(setting, records, base, p);
            r.Ok? ==> AddsTheirs(setting, records, base, p, r.value) && TakesEach(setting, records, base, r.value.seen)
  {
    hide FoldRecord, Extends, Yields, IsFrom, AddsOwn, TakesAll;
    if records != [] {
      var step := FoldRecord(setting, records[0], base, p);
      if step.Ok? {
        RecordAddsOwn(setting, records[0], base, p);
        RecordsAddTheirs(setting, records[1..], base + 1, step.value);
        FoldRecordsExtends(setting, records[1..], base + 1, step.value);
        var r := FoldRecords(setting, records[1..], base + 1, step.value);
        if r.Ok? {
          AddsTheirsLater(setting, records, base, p, step.value, r.value);
          TakesEachLater(setting, records, base, step.value, r.value);
        }
      }
    }
  }

  /** An entry that was added for a rule and element is named by that very rule. */
  lemma NamedByRule(setting: Setting, raw: Value, at: nat, rule: nat, element: nat, stamp: Stamp)
    requires Yields(setting, raw, at, stamp) && stamp.id == EventId(setting, raw, at, rule, element)
    ensures YieldedBy(setting, raw, at, rule, element, stamp)
  {
    hide EventId, Fires, ActorOf;
    var i: nat, k: nat :| YieldedBy(setting, raw, at, i, k, stamp);
    EventIdsDiffer(setting, raw, at, i, k, raw, at, rule, element);
  }
}
