/**
 Exactly when polling a running invocation changes what its turn leaves: when it
 takes a record whose terminal event is found only inside an expanded array.
 */
module Exactness {
  import opened Text
  import opened Json
  import opened Framing
  import opened Events
  import opened Additions
  import opened Polls

  // ---- One record ------------------------------------------------------------------------------

  /** No id of this record is taken. */
  ghost predicate Fresh(setting: Setting, raw: Value, at: nat, seen: set<string>) {
    forall rule: nat, element: nat :: EventId(setting, raw, at, rule, element) !in seen
  }

  predicate AddsTerminal(p: Progress, q: Progress) {
    exists j | 0 <= j < |q.index| :: |p.index| <= j && IsTerminal(q.index[j].event)
  }

  /** What fires with a new id is added, under that id. */
  lemma FiresIsAdded(setting: Setting, raw: Value, at: nat, rule: nat, element: nat, p: Progress, q: Progress) returns (j: nat)
    requires Extends(setting, p, q) && AddsOwn(setting, raw, at, p, q) && TakesAll(setting, raw, at, q.seen)
    requires Fires(setting, raw, rule, element) && EventId(setting, raw, at, rule, element) !in p.seen
    ensures |p.index| <= j < |q.index| && YieldedBy(setting, raw, at, rule, element, q.index[j])
  {
    hide IdPrefix, EventId, Fires, Yields;
    var id := EventId(setting, raw, at, rule, element);
    assert id in q.seen - p.seen;
    j :| |p.index| <= j < |q.index| && q.index[j].id == id;
    NamedByRule(setting, raw, at, rule, element, q.index[j]);
  }

  /** An uncovered new record brings a terminal. */
  lemma UncoveredAddsTerminal(setting: Setting, raw: Value, at: nat, p: Progress)
    requires setting.allowTerminal && !Covered(setting.mapping, raw) && Fresh(setting, raw, at, p.seen)
    ensures var r := FoldRecord(setting, raw, at, p); r.Ok? ==> AddsTerminal(p, r.value)
  {
    hide FoldRecord, EventType, Held, Extends, EventId, Expansions, RuleMatches, TakesAll, AddsOwn, VocabularyName;
    var i :| 0 <= i < |setting.mapping.rules| && EmitsTerminal(setting.mapping, raw, i);
    var rule := setting.mapping.rules[i];
    var k :| 0 <= k < |Expansions(rule, raw)| && RuleMatches(Prepared(raw, Expansions(rule, raw)[k]), rule);
    var r := FoldRecord(setting, raw, at, p);
    if r.Ok? {
      FoldRecordExtends(setting, raw, at, p);
      RecordAddsOwn(setting, raw, at, p);
      var j := FiresIsAdded(setting, raw, at, i, k, p, r.value);
      NameIsTerminal(r.value.index[j].event);
    }
  }

  lemma NameIsTerminal(v: Vocabulary)
    ensures IsTerminal(v) <==> TerminalName(VocabularyName(v))
  {
    VocabularyNames(v, VocabularyName(v));
  }

  /**
   The exact condition. A record that a running poll does not hold back, and of
   which nothing is indexed yet, is normalized alike with and without terminals
   if and only if it is covered.
   */
  lemma CoveredExactly(setting: Setting, raw: Value, at: nat, p: Progress)
    requires setting.allowTerminal && raw.Object? && !Held(setting.mapping, raw)
    requires Fresh(setting, raw, at, p.seen) && FoldRecord(setting, raw, at, p).Ok?
    ensures FoldRecord(setting.(allowTerminal := false), raw, at, p) == FoldRecord(setting, raw, at, p)
       <==> Covered(setting.mapping, raw)
  {
    hide FoldRules, Extends, EventType, Held, EmitsTerminal, Fresh, AddsTerminal;
    var closed, kind := setting.(allowTerminal := false), EventType(setting.mapping, raw);
    if Covered(setting.mapping, raw) {
      if kind.Some? {
        RulesIgnoreFlag(setting, raw, at, kind.value, 0, p);
      }
    } else {
      UncoveredAddsTerminal(setting, raw, at, p);
      FoldRecordExtends(closed, raw, at, p);
      var r := FoldRecord(closed, raw, at, p);
      if r.Ok? {
        ClosedAddsNone(closed, p, r.value);
      }
    }
  }

  lemma ClosedAddsNone(setting: Setting, p: Progress, q: Progress)
    requires Extends(setting, p, q) && !setting.allowTerminal
    ensures !AddsTerminal(p, q)
  {
    hide IdPrefix;
  }

  // ---- Exactly when a run of polls changes the outcome ---------------------------------------

  /** None of these records has the source id of the given one. */
  ghost predicate Apart(setting: Setting, records: seq<Value>, base: nat, raw: Value, at: nat) {
    forall j | 0 <= j < |records| :: SourceId(setting, records[j], base + j) != SourceId(setting, raw, at)
  }

  lemma SourcesApart(setting: Setting, a: Value, n: nat, b: Value, m: nat, id: string)
    requires SourceId(setting, a, n) != SourceId(setting, b, m)
    ensures !(IsOwn(setting, a, n, id) && IsOwn(setting, b, m, id))
  {
    hide SourceId, EventId;
    if IsOwn(setting, a, n, id) && IsOwn(setting, b, m, id) {
      var i: nat, k: nat :| id == EventId(setting, a, n, i, k);
      var j: nat, l: nat :| id == EventId(setting, b, m, j, l);
      EventIdsDiffer(setting, a, n, i, k, b, m, j, l);
    }
  }

  lemma TheirsApart(setting: Setting, records: seq<Value>, base: nat, raw: Value, at: nat, id: string)
    requires Apart(setting, records, base, raw, at)
    ensures !(IsTheirs(setting, records, base, id) && IsOwn(setting, raw, at, id))
  {
    hide SourceId, IsOwn;
    if IsTheirs(setting, records, base, id) {
      var j :| 0 <= j < |records| && IsOwn(setting, records[j], base + j, id);
      SourcesApart(setting, records[j], base + j, raw, at, id);
    }
  }

  lemma SeenIsTheirs(setting: Setting, records: seq<Value>, base: nat, p: Progress, q: Progress, id: string)
    requires Extends(setting, p, q) && AddsTheirs(setting, records, base, p, q) && id in q.seen
    ensures id in p.seen || IsTheirs(setting, records, base, id)
  {
    hide IdPrefix, IsTheirs, IsFrom;
    if id !in p.seen {
      assert id in q.seen - p.seen;
      var j :| |p.index| <= j < |q.index| && q.index[j].id == id;
      FromIsTheirs(setting, records, base, q.index[j]);
    }
  }

  /** A record stays new while records of other sources are normalized. */
  lemma StaysFresh(setting: Setting, records: seq<Value>, base: nat, raw: Value, at: nat, p: Progress)
    requires Fresh(setting, raw, at, p.seen) && Apart(setting, records, base, raw, at)
    ensures var r := FoldRecords(setting, records, base, p); r.Ok? ==> Fresh(setting, raw, at, r.value.seen)
  {
    hide EventId, Extends, AddsTheirs, IsOwn, IsTheirs, Apart, FoldRecords;
    FoldRecordsExtends(setting, records, base, p);
    RecordsAddTheirs(setting, records, base, p);
    var r := FoldRecords(setting, records, base, p);
    if r.Ok? {
      forall rule: nat, element: nat ensures EventId(setting, raw, at, rule, element) !in r.value.seen {
        var id := EventId(setting, raw, at, rule, element);
        OwnId(setting, raw, at, rule, element);
        TheirsApart(setting, records, base, raw, at, id);
        if id in r.value.seen {
          SeenIsTheirs(setting, records, base, p, r.value, id);
        }
      }
    }
  }

  // ---- The lost terminal ---------------------------------------------------------------------

  /** No terminal among the entries from `from` on carries an id of this record. */
  ghost predicate NoTerminalOf(setting: Setting, raw: Value, at: nat, from: nat, index: seq<Stamp>) {
    forall j | from <= j < |index| :: IsTerminal(index[j].event) ==> !IsOwn(setting, raw, at, index[j].id)
  }

  lemma IdEndsInDigit(setting: Setting, raw: Value, at: nat, id: string)
    requires IsOwn(setting, raw, at, id)
    ensures id != "" && IsDigit(id[|id| - 1])
  {
    hide EventId, Decimal;
    var rule: nat, element: nat :| id == EventId(setting, raw, at, rule, element);
    EventIdParts(setting, raw, at, rule, element);
    var digits := Decimal(element);
    assert id[|id| - 1] == digits[|digits| - 1];
  }

  /** The exit's own terminal has the id of no record. */
  lemma ExitIdApart(owner: Owner, turn: nat, setting: Setting, raw: Value, at: nat)
    ensures !IsOwn(setting, raw, at, TurnPrefix(owner, turn) + ":terminal")
  {
    hide TurnPrefix, IsOwn;
    var id := TurnPrefix(owner, turn) + ":terminal";
    assert id[|id| - 1] == 'l';
    if IsOwn(setting, raw, at, id) {
      IdEndsInDigit(setting, raw, at, id);
    }
  }

  /** Records of other sources bring no terminal of this one. */
  lemma RestHasNone(setting: Setting, rest: seq<Value>, base: nat, raw: Value, at: nat, from: nat, p: Progress, q: Progress)
    requires Apart(setting, rest, base, raw, at)
    requires Extends(setting, p, q) && AddsTheirs(setting, rest, base, p, q)
    requires from <= |p.index| && NoTerminalOf(setting, raw, at, from, p.index)
    ensures NoTerminalOf(setting, raw, at, from, q.index)
  {
    hide IsTheirs, IsOwn, IsFrom, IdPrefix, Apart;
    forall j | from <= j < |q.index| && IsTerminal(q.index[j].event)
      ensures !IsOwn(setting, raw, at, q.index[j].id)
    {
      if j < |p.index| {
        assert q.index[..|p.index|][j] == q.index[j];
      } else {
        FromIsTheirs(setting, rest, base, q.index[j]);
        TheirsApart(setting, rest, base, raw, at, q.index[j].id);
      }
    }
  }

  lemma ClosedHasNone(config: CollectorConfig, owner: Owner, turn: nat, setting: Setting, raw: Value, at: nat,
                      from: nat, start: nat, p: Progress, expected: Vocabulary)
    requires start <= |p.index| && NoTerminalOf(setting, raw, at, from, p.index)
    ensures NoTerminalOf(setting, raw, at, from, Closed(config, owner, turn, start, p, expected).index)
  {
    hide IsOwn, LastTerminal, NeedsExit, TurnPrefix;
    ExitIdApart(owner, turn, setting, raw, at);
  }

  lemma TerminalStays(setting: Setting, raw: Value, at: nat, from: nat, a: seq<Stamp>, b: seq<Stamp>)
    requires a <= b && !NoTerminalOf(setting, raw, at, from, a)
    ensures !NoTerminalOf(setting, raw, at, from, b)
  {
    hide IsOwn;
    var j :| from <= j < |a| && IsTerminal(a[j].event) && IsOwn(setting, raw, at, a[j].id);
    assert b[j] == a[j];
  }

  /** With terminals, an uncovered new record leaves one of its own. */
  lemma RecordHasOne(setting: Setting, raw: Value, at: nat, from: nat, p: Progress)
    requires setting.allowTerminal && !Covered(setting.mapping, raw) && Fresh(setting, raw, at, p.seen)
    requires from <= |p.index|
    ensures var q := FoldRecord(setting, raw, at, p); q.Ok? ==> !NoTerminalOf(setting, raw, at, from, q.value.index)
  {
    hide FoldRecord, Covered, Fresh, IsOwn, Yields, TakesAll;
    UncoveredAddsTerminal(setting, raw, at, p);
    RecordAddsOwn(setting, raw, at, p);
    var q := FoldRecord(setting, raw, at, p);
    if q.Ok? {
      var j :| 0 <= j < |q.value.index| && |p.index| <= j && IsTerminal(q.value.index[j].event);
      YieldedIsOwn(setting, raw, at, q.value.index[j]);
    }
  }

  /** So does a run of records that begins with it. */
  lemma FirstHasOne(setting: Setting, records: seq<Value>, base: nat, from: nat, p: Progress)
    requires records != [] && setting.allowTerminal && !Covered(setting.mapping, records[0])
    requires Fresh(setting, records[0], base, p.seen) && from <= |p.index|
    ensures var q := FoldRecords(setting, records, base, p);
            q.Ok? ==> !NoTerminalOf(setting, records[0], base, from, q.value.index)
  {
    hide FoldRecord, Covered, Fresh, NoTerminalOf, IdPrefix;
    var step := FoldRecord(setting, records[0], base, p);
    if step.Ok? {
      RecordHasOne(setting, records[0], base, from, p);
      FoldRecordsExtends(setting, records[1..], base + 1, step.value);
      var q := FoldRecords(setting, records[1..], base + 1, step.value);
      if q.Ok? {
        assert q.value.index[..|step.value.index|] == step.value.index;
        TerminalStays(setting, records[0], base, from, step.value.index, q.value.index);
      }
    }
  }

  /** And any run of records in which no other shares its source before it. */
  lemma OpenHasOne(setting: Setting, records: seq<Value>, base: nat, i: nat, p: Progress)
    requires i < |records| && setting.allowTerminal && !Covered(setting.mapping, records[i])
    requires Fresh(setting, records[i], base + i, p.seen) && Apart(setting, records[..i], base, records[i], base + i)
    ensures var q := FoldRecords(setting, records, base, p);
            q.Ok? ==> !NoTerminalOf(setting, records[i], base + i, |p.index|, q.value.index)
  {
    hide FoldRecords, Covered, Fresh, NoTerminalOf, Extends, Apart;
    assert records == records[..i] + records[i..];
    FoldRecordsAppend(setting, records[..i], records[i..], base, p);
    var q := FoldRecords(setting, records[..i], base, p);
    if q.Ok? {
      FoldRecordsExtends(setting, records[..i], base, p);
      ExtendsLonger(setting, p, q.value);
      StaysFresh(setting, records[..i], base, records[i], base + i, p);
      FirstHasOne(setting, records[i..], base + i, |p.index|, q.value);
    }
  }

  /** Without terminals, records leave none. */
  lemma ClosedFoldHasNone(open: Setting, raw: Value, at: nat, p: Progress, q: Progress)
    requires Extends(open.(allowTerminal := false), p, q)
    ensures NoTerminalOf(open, raw, at, |p.index|, q.index)
  {
    hide IdPrefix, IsOwn;
  }

  lemma ExtendsLonger(setting: Setting, p: Progress, q: Progress)
    requires Extends(setting, p, q)
    ensures |p.index| <= |q.index|
  {
    hide IdPrefix;
  }

  /** The record is new, and no other of these records has its source id. */
  ghost predicate Alone(setting: Setting, records: seq<Value>, base: nat, seen: set<string>, i: nat) {
    && i < |records| && Fresh(setting, records[i], base + i, seen)
    && forall j | 0 <= j < |records| && j != i ::
         SourceId(setting, records[j], base + j) != SourceId(setting, records[i], base + i)
  }

  lemma AloneApart(setting: Setting, first: seq<Value>, rest: seq<Value>, base: nat, seen: set<string>, i: nat)
    requires i < |first| && Alone(setting, first + rest, base, seen, i)
    ensures Fresh(setting, first[i], base + i, seen)
    ensures Apart(setting, first[..i], base, first[i], base + i)
    ensures Apart(setting, rest, base + |first|, first[i], base + i)
  {
    hide Fresh, SourceId;
    var all := first + rest;
    assert all[i] == first[i];
    assert forall j | 0 <= j < i :: all[j] == first[..i][j];
    forall j | 0 <= j < |rest|
      ensures SourceId(setting, rest[j], base + |first| + j) != SourceId(setting, first[i], base + i)
    {
      assert all[|first| + j] == rest[j];
      assert SourceId(setting, all[|first| + j], base + (|first| + j)) != SourceId(setting, all[i], base + i);
    }
  }

  /**
   A running poll that takes an uncovered record, new to the index and alone with
   its source, loses its terminal for good: it fails, or the completed outcome is
   another one.
   */
  lemma UncoveredPollLoses(config: CollectorConfig, owner: Owner, turn: nat, c: Collected, early: string, late: string,
                           expected: Vocabulary, i: nat)
    requires early <= late && c.taken <= |VisibleRecords(config.frame, early, false)|
    requires i < |Taken(config, c.taken, early)| && !Covered(config.mapping, Taken(config, c.taken, early)[i])
    requires Alone(SettingOf(config, owner, turn, true), Untaken(config, c.taken, late, true), c.taken, c.progress.seen, i)
    ensures var polled := Running(config, owner, turn, c, early);
            var once := Completed(config, owner, turn, c, late, expected);
            once.Ok? && polled.Ok? ==> Completed(config, owner, turn, polled.value, late, expected) != once
  {
    hide FoldRecords, VisibleRecords, BeforeHeld, Covered, Alone, Apart, Fresh, NoTerminalOf, Untaken, WellFramed,
         Closed, NamespaceOf, AddsTheirs, Extends;
    var open, closed := SettingOf(config, owner, turn, true), SettingOf(config, owner, turn, false);
    assert open.(allowTerminal := false) == closed;
    var first, start := Taken(config, c.taken, early), c.progress;
    var n, from := |first|, |c.progress.index|;
    var rest := Untaken(config, c.taken + n, late, true);
    UntakenSplit(config, c.taken, early, late, n);
    AloneApart(open, first, rest, c.taken, start.seen, i);
    FoldRecordsAppend(open, first, rest, c.taken, start);
    OpenHasOne(open, first, c.taken, i, start);
    FoldRecordsExtends(closed, first, c.taken, start);
    var q, p := FoldRecords(open, first, c.taken, start), FoldRecords(closed, first, c.taken, start);
    FoldRecordsExtends(open, first, c.taken, start);
    if q.Ok? {
      ExtendsLonger(open, start, q.value);
      OnceHasOne(config, owner, turn, open, first[i], c.taken + i, rest, c.taken + n, from, q.value, expected);
    }
    if p.Ok? {
      ExtendsLonger(closed, start, p.value);
      ClosedFoldHasNone(open, first[i], c.taken + i, start, p.value);
      PolledHasNone(config, owner, turn, open, first[i], c.taken + i, rest, c.taken + n, from, p.value, expected);
    }
  }

  /** What one completed poll makes of the rest keeps a terminal that is there. */
  lemma OnceHasOne(config: CollectorConfig, owner: Owner, turn: nat, open: Setting, raw: Value, at: nat, rest: seq<Value>,
                   base: nat, from: nat, q: Progress, expected: Vocabulary)
    requires !NoTerminalOf(open, raw, at, from, q.index) && from <= |q.index|
    ensures var r := FoldRecords(open, rest, base, q);
            r.Ok? ==> from <= |r.value.index|
                      && !NoTerminalOf(open, raw, at, from, Closed(config, owner, turn, from, r.value, expected).index)
  {
    hide FoldRecords, NoTerminalOf, LastTerminal, NeedsExit, ExitStamp, IdPrefix;
    var r := FoldRecords(open, rest, base, q);
    if r.Ok? {
      FoldRecordsExtends(open, rest, base, q);
      assert r.value.index[..|q.index|] == q.index;
      var end := Closed(config, owner, turn, from, r.value, expected).index;
      TerminalStays(open, raw, at, from, q.index, end);
    }
  }

  /** What the completed poll makes of the rest brings no terminal of a record it does not hold. */
  lemma PolledHasNone(config: CollectorConfig, owner: Owner, turn: nat, open: Setting, raw: Value, at: nat, rest: seq<Value>,
                      base: nat, from: nat, p: Progress, expected: Vocabulary)
    requires Apart(open, rest, base, raw, at)
    requires NoTerminalOf(open, raw, at, from, p.index) && from <= |p.index|
    ensures var r := FoldRecords(open, rest, base, p);
            r.Ok? ==> |p.index| <= |r.value.index|
                      && NoTerminalOf(open, raw, at, from, Closed(config, owner, turn, |p.index|, r.value, expected).index)
  {
    hide FoldRecords, NoTerminalOf, Closed, Apart, AddsTheirs, Extends;
    var r := FoldRecords(open, rest, base, p);
    if r.Ok? {
      FoldRecordsExtends(open, rest, base, p);
      ExtendsLonger(open, p, r.value);
      RecordsAddTheirs(open, rest, base, p);
      RestHasNone(open, rest, base, raw, at, from, p, r.value);
      ClosedHasNone(config, owner, turn, open, raw, at, from, |p.index|, r.value, expected);
    }
  }

  /** Some uncovered record that the polls take is new and alone with its source among the turn's untaken records. */
  ghost predicate TakesAlone(config: CollectorConfig, owner: Owner, turn: nat, c: Collected, files: seq<string>,
                             whole: string)
  {
    var taken := TakenBy(config, c.taken, files);
    exists i: nat | i < |taken| ::
      && !Covered(config.mapping, taken[i])
      && Alone(SettingOf(config, owner, turn, true), Untaken(config, c.taken, whole, true), c.taken, c.progress.seen, i)
  }

  lemma AloneIsUncovered(config: CollectorConfig, owner: Owner, turn: nat, c: Collected, files: seq<string>, whole: string)
    requires TakesAlone(config, owner, turn, c, files, whole)
    ensures !AllCovered(config.mapping, TakenBy(config, c.taken, files))
  {
    hide Covered, Alone;
  }

  /**
   Poll independence, exactly. Where a turn can be collected at once, and its polls
   take only covered records or some uncovered one alone with its source, polling
   succeeds and leads to the same outcome if and only if the records are covered.
   */
  lemma PollIndependenceExactly(config: CollectorConfig, owner: Owner, turn: nat, c: Collected,
                                read: string, files: seq<string>, whole: string, expected: Vocabulary)
    requires Growing([read] + files + [whole]) && c.taken <= |VisibleRecords(config.frame, read, false)|
    requires Completed(config, owner, turn, c, whole, expected).Ok?
    requires AllCovered(config.mapping, TakenBy(config, c.taken, files)) || TakesAlone(config, owner, turn, c, files, whole)
    ensures var once := Completed(config, owner, turn, c, whole, expected);
            var polled := RunPolls(config, owner, turn, c, files);
            var same := polled.Ok? && Completed(config, owner, turn, polled.value, whole, expected) == once;
            same <==> AllCovered(config.mapping, TakenBy(config, c.taken, files))
  {
    hide Running, Completed, VisibleRecords, Covered, Taken, Growing, Alone;
    if AllCovered(config.mapping, TakenBy(config, c.taken, files)) {
      PollIndependence(config, owner, turn, c, read, files, whole, expected);
    } else {
      GrowingBefore(read, files, whole);
      var last := files[|files| - 1];
      var i: nat :| i < |Taken(config, c.taken, last)| && !Covered(config.mapping, Taken(config, c.taken, last)[i])
                    && Alone(SettingOf(config, owner, turn, true), Untaken(config, c.taken, whole, true), c.taken,
                             c.progress.seen, i);
      VisibleGrows(config.frame, read, last);
      PollsCollapse(config, owner, turn, c, read, files);
      UncoveredPollLoses(config, owner, turn, c, last, whole, expected, i);
    }
  }

  /** Where all untaken records are new and of different sources, the polls take an uncovered one alone or none. */
  lemma DistinctSourcesDecide(config: CollectorConfig, owner: Owner, turn: nat, c: Collected, read: string,
                              files: seq<string>, whole: string)
    requires Growing([read] + files + [whole]) && c.taken <= |VisibleRecords(config.frame, read, false)|
    requires var untaken := Untaken(config, c.taken, whole, true);
             forall i | 0 <= i < |untaken| ::
               Alone(SettingOf(config, owner, turn, true), untaken, c.taken, c.progress.seen, i)
    ensures AllCovered(config.mapping, TakenBy(config, c.taken, files)) || TakesAlone(config, owner, turn, c, files, whole)
  {
    hide VisibleRecords, Covered, Growing, Alone, BeforeHeld, Untaken;
    if files != [] {
      GrowingBefore(read, files, whole);
      var last := files[|files| - 1];
      VisibleGrows(config.frame, read, last);
      UntakenSplit(config, c.taken, last, whole, |Taken(config, c.taken, last)|);
    }
  }
}
