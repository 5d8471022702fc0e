/**
 The per-invocation driver: sessions, their source cursors and event caches, and
 the durable files that mirror them. Files of the environment are inputs: each
 operation that polls is given what the source holds at that moment.
 */
module Driver {
  import opened Prelude
  import opened Sorting
  import opened Text
  import opened Json
  import opened Framing
  import opened Events
  import opened EventIndex
  import opened Polls

  datatype Persisted = Persisted(
    localId: string,
    marker: string,
    turns: nat,
    invocations: nat,
    nextCursor: nat,
    closed: bool)

  /** A session; `active` is the turn of the running invocation, `deleted` that its deletion was observed. */
  datatype ExecSession = ExecSession(persisted: Persisted, active: Option<nat>, deleted: bool)

  datatype DriverConfig = DriverConfig(
    collector: CollectorConfig,
    localIdOf: string -> string,
    hasCancelCommand: bool,
    hasCloseDeleteCommand: bool,
    hasResumeControl: bool)

  datatype DriverError =
    | EmptyMarker | UnknownSession | StillActive | SessionClosed | StdoutExists | NoMetadata | Unsupported
    | CollectFailed(error: CollectError)

  // ---- What one session's files, caches and counters must satisfy --------------------

  /** Everything the driver and the disk hold for one session id. */
  datatype Slot = Slot(
    session: Option<ExecSession>,
    metadata: Option<Persisted>,
    disk: seq<NormalizedEvent>,
    cache: Option<EventCache>,
    cursor: Option<SourceCursor>,
    read: string,
    stdouts: set<nat>)

  function FindOr<V>(m: map<string, V>, k: string, default: V): V { if k in m then m[k] else default }

  function ActiveCount(session: ExecSession): nat { if session.active.Some? then 1 else 0 }

  predicate CountersOk(id: string, session: ExecSession, stdouts: set<nat>) {
    var p := session.persisted;
    && p.localId == id
    && p.turns + ActiveCount(session) <= p.invocations
    && (session.active.Some? ==> session.active.value == p.invocations && !p.closed)
    && forall t | t in stdouts :: 1 <= t <= p.invocations
  }

  /** The cursor is in step with its source, unless it belongs to a finished stdout. */
  predicate CursorOk(frame: FrameConfig, id: string, session: ExecSession, cursor: SourceCursor, read: string) {
    && cursor.turn <= session.persisted.invocations
    && match frame.source
       case JournalFile => cursor.path == JournalAt(id) && Tracks(frame, cursor, read)
       case Stdout =>
         && cursor.path == StdoutFile(id, cursor.turn)
         && (session.active == Some(cursor.turn) ==> Tracks(frame, cursor, read))
  }

  ghost predicate SlotOk(config: DriverConfig, id: string, slot: Slot) {
    match slot.session
    case None =>
      slot.metadata.None? && slot.disk == [] && slot.cache.None? && slot.cursor.None? && slot.stdouts == {}
    case Some(session) =>
      && CountersOk(id, session, slot.stdouts)
      && DiskOk(slot.disk, session.persisted.nextCursor)
      && (slot.cache.Some? ==> CacheOk(slot.cache.value, slot.disk))
      && (slot.cursor.Some? ==> CursorOk(config.collector.frame, id, session, slot.cursor.value, slot.read))
      && slot.metadata.Some?
      && (session.active.None? ==> slot.metadata.value == session.persisted)
  }

  // ---- Entering a poll: what a new turn resets -------------------------------------------

  /** A new path starts afresh; a new turn on the same path lets go of the records still held. */
  function EnteredCursor(cursor: Option<SourceCursor>, path: SourcePath, turn: nat): SourceCursor {
    if cursor.None? || cursor.value.path != path then SourceCursor(path, 0, "", [], 0, turn)
    else if cursor.value.turn != turn then
      cursor.value.(recordBase := cursor.value.recordBase + |cursor.value.records|, records := [], turn := turn)
    else cursor.value
  }

  function EnteredRead(cursor: Option<SourceCursor>, path: SourcePath, read: string): string {
    if cursor.None? || cursor.value.path != path then "" else read
  }

  /** The absolute index a poll starts at, the events it may complete, and the file. */
  datatype PollStart = PollStart(taken: nat, current: map<string, NormalizedEvent>, disk: seq<NormalizedEvent>)

  /** The events that a poll may complete: those of the current turn, or all of them after a reload. */
  function EnteredCurrent(cache: Option<EventCache>, disk: seq<NormalizedEvent>, turn: nat): map<string, NormalizedEvent> {
    match cache
    case None => ById(disk)
    case Some(c) => if c.turn == turn then c.current else map[]
  }

  /** The ids that count as seen are theirs. */
  function EnteredSeen(cache: Option<EventCache>, disk: seq<NormalizedEvent>, turn: nat): set<string> {
    EnteredCurrent(cache, disk, turn).Keys
  }

  function PathOf(frame: FrameConfig, id: string, turn: nat): SourcePath {
    if frame.source == Stdout then StdoutFile(id, turn) else JournalAt(id)
  }

  function Content(file: Option<string>): string { if file.Some? then file.value else "" }

  lemma FreshCursorTracks(frame: FrameConfig, cursor: SourceCursor)
    requires cursor.offset == 0 && cursor.pending == "" && cursor.records == [] && cursor.recordBase == 0
    ensures Tracks(frame, cursor, "")
  {}

  /** After entering, the cursor is in step with what was read of the path. */
  lemma EnteredTracks(frame: FrameConfig, cursor: Option<SourceCursor>, path: SourcePath, turn: nat, read: string)
    requires cursor.Some? && cursor.value.path == path ==> Tracks(frame, cursor.value, read)
    ensures Tracks(frame, EnteredCursor(cursor, path, turn), EnteredRead(cursor, path, read))
  {
    hide Tail, WellFramed, Records;
    if cursor.None? || cursor.value.path != path {
      FreshCursorTracks(frame, EnteredCursor(cursor, path, turn));
    }
  }

  // ---- From records to changes of the index ---------------------------------------------

  /** The progress after normalizing the records and, if the child exited, closing the turn. */
  function Outcome(config: CollectorConfig, owner: Owner, turn: nat, records: seq<Value>, base: nat, start: Progress,
                   allowTerminal: bool, exit: Option<Exit>): Result<Progress, EventError>
  {
    var setting := SettingOf(config, owner, turn, allowTerminal);
    FoldRecordsExtends(setting, records, base, start);
    match FoldRecords(setting, records, base, start)
    case Err(e) => Err(e)
    case Ok(q) =>
      if exit.None? then Ok(q)
      else Ok(Closed(config, owner, turn, |start.index|, q, ClassifyExit(config.exit, exit.value, config.frame.parse)))
  }

  /** The outcome of any poll: frame the source, cut at the first held record if asked to, and normalize. */
  function Polled(config: CollectorConfig, owner: Owner, turn: nat, c: Collected, file: string, finished: bool, hold: bool,
                  exit: Option<Exit>): Result<Collected, CollectError>
  {
    if !WellFramed(config.frame, file) then Err(FrameFailed(RecordTooLong))
    else
      var untaken := Untaken(config, c.taken, file, finished);
      var n := if hold then BeforeHeld(config.mapping, untaken) else |untaken|;
      match Outcome(config, owner, turn, untaken[..n], c.taken, c.progress, !hold, exit)
      case Err(e) => Err(EventFailed(e))
      case Ok(q) => Ok(Collected(c.taken + n, q))
  }

  /** A poll whose framed records are these, from this index on. */
  lemma PolledFrom(config: CollectorConfig, owner: Owner, turn: nat, c: Collected, file: string, finished: bool, hold: bool,
                   exit: Option<Exit>, records: seq<Value>, n: nat)
    requires WellFramed(config.frame, file) && records == Untaken(config, c.taken, file, finished)
    requires n == if hold then BeforeHeld(config.mapping, records) else |records|
    ensures var outcome := Outcome(config, owner, turn, records[..n], c.taken, c.progress, !hold, exit);
            var polled := Polled(config, owner, turn, c, file, finished, hold, exit);
            (polled.Ok? <==> outcome.Ok?) && (polled.Ok? ==> polled.value == Collected(c.taken + n, outcome.value))
  {
    hide WellFramed, Untaken, BeforeHeld, Outcome;
  }

  lemma IllFramed(config: CollectorConfig, owner: Owner, turn: nat, c: Collected, file: string, finished: bool, hold: bool,
                  exit: Option<Exit>)
    requires !WellFramed(config.frame, file)
    ensures Polled(config, owner, turn, c, file, finished, hold, exit).Err?
  {}

  /** Holding back while the child runs, and not when it exited, is what the two kinds of active polls do. */
  lemma PolledIsActive(config: CollectorConfig, owner: Owner, turn: nat, c: Collected, file: string, exit: Option<Exit>)
    ensures Polled(config, owner, turn, c, file, exit.Some?, exit.None?, exit)
         == if exit.None? then Running(config, owner, turn, c, file)
            else Completed(config, owner, turn, c, file, ClassifyExit(config.exit, exit.value, config.frame.parse))
  {
    hide Untaken, WellFramed, FoldRecords, BeforeHeld, ClassifyExit, Closed;
    var untaken := Untaken(config, c.taken, file, exit.Some?);
    assert untaken[..|untaken|] == untaken;
  }

  lemma PolledIsIdle(config: CollectorConfig, owner: Owner, turn: nat, c: Collected, file: string)
    ensures Polled(config, owner, turn, c, file, true, false, None) == Idle(config, owner, turn, c, file)
  {
    hide Untaken, WellFramed, FoldRecords, BeforeHeld, Closed;
    var untaken := Untaken(config, c.taken, file, true);
    assert untaken[..|untaken|] == untaken;
  }

  predicate Mapped(v: Vocabulary) { v.TerminalSuccess? || v.TerminalFailure? || v.TerminalTimeout? }

  /** The exit's details join the payload of the last success, failure or timeout, if that is the exit's own class. */
  function MergeExit(events: seq<NormalizedEvent>, expected: Vocabulary, payload: Value): (r: seq<NormalizedEvent>)
    ensures StampsOf(r) == StampsOf(events)
  {
    if events == [] then []
    else
      var n := |events| - 1;
      var last := events[n];
      if Mapped(last.event) then
        if last.event == expected && last.payload.Object? && payload.Object? then
          events[n := last.(payload := Object(payload.fields + last.payload.fields))]
        else events
      else
        var init := MergeExit(events[..n], expected, payload);
        assert StampsOf(init + [last]) == StampsOf(init) + [StampOf(last)];
        assert StampsOf(events) == StampsOf(events[..n]) + [StampOf(last)];
        init + [last]
  }

  /** The last success, failure or timeout. */
  predicate LastMapped(events: seq<NormalizedEvent>, i: nat)
    requires i < |events|
  {
    && Mapped(events[i].event)
    && forall j | i < j < |events| :: !Mapped(events[j].event)
  }

  /** Only that terminal can change, and it keeps every field it has. */
  lemma {:induction false} MergeExitAt(events: seq<NormalizedEvent>, expected: Vocabulary, payload: Value, i: nat)
    requires i < |events|
    ensures |MergeExit(events, expected, payload)| == |events|
    ensures MergeExit(events, expected, payload)[i]
         == if LastMapped(events, i) && events[i].event == expected && events[i].payload.Object? && payload.Object?
            then events[i].(payload := Object(payload.fields + events[i].payload.fields))
            else events[i]
  {
    hide StampOf;
    var n := |events| - 1;
    SameCursors(MergeExit(events, expected, payload), events);
    if Mapped(events[n].event) {
      assert i < n ==> !LastMapped(events, i);
    } else if i < n {
      SameCursors(MergeExit(events[..n], expected, payload), events[..n]);
      MergeExitAt(events[..n], expected, payload, i);
      assert LastMapped(events, i) <==> LastMapped(events[..n], i);
    }
  }

  lemma SameStampsSameIds(a: seq<NormalizedEvent>, b: seq<NormalizedEvent>)
    requires StampsOf(a) == StampsOf(b)
    ensures Ids(a) == Ids(b)
  {
    assert |a| == |StampsOf(a)| == |b|;
    assert forall i | 0 <= i < |a| :: StampsOf(a)[i] == StampOf(a[i]) && StampsOf(b)[i] == StampOf(b[i]);
    forall id ensures id in Ids(a) <==> id in Ids(b) {
      if id in Ids(a) {
        var e :| e in a && e.id == id;
        var i :| 0 <= i < |a| && a[i] == e;
        assert b[i] in b && b[i].id == id;
      }
      if id in Ids(b) {
        var e :| e in b && e.id == id;
        var i :| 0 <= i < |b| && b[i] == e;
        assert a[i] in a && a[i].id == id;
      }
    }
  }

  lemma StampsAppend(a: seq<NormalizedEvent>, b: seq<NormalizedEvent>)
    ensures StampsOf(a + b) == StampsOf(a) + StampsOf(b)
  {}

  lemma CorrectionsAreTools(existing: map<string, NormalizedEvent>, corrections: seq<NormalizedEvent>)
    requires Corrects(existing, corrections)
    ensures forall i | 0 <= i < |corrections| :: IsTool(corrections[i].event)
    ensures forall i | 0 <= i < |corrections| :: !IsTerminal(StampsOf(corrections)[i].event)
  {
    forall i | 0 <= i < |corrections| ensures IsTool(corrections[i].event) {
      assert IsCorrection(existing, corrections[i]);
    }
  }

  lemma CorrectionIds(cache: EventCache, disk: seq<NormalizedEvent>, corrections: seq<NormalizedEvent>)
    requires CacheOk(cache, disk) && Corrects(cache.current, corrections)
    ensures Ids(corrections) <= cache.current.Keys
  {
    forall id | id in Ids(corrections) ensures id in cache.current {
      var e :| e in corrections && e.id == id;
      var i :| 0 <= i < |corrections| && corrections[i] == e;
      assert IsCorrection(cache.current, e);
      var k :| CorrectionOf(cache.current, k, e);
      assert Filed(cache.current[k], k, disk);
    }
  }

  /** New events take the cursors that follow the file. */
  lemma AdditionsFollow(setting: Setting, disk: seq<NormalizedEvent>, start: Progress, events: seq<NormalizedEvent>,
                        q: Progress)
    requires start.index == StampsOf(disk) && start.next == |disk| + 1 && Extends(setting, start, q)
    requires q.index == start.index + StampsOf(events)
    ensures forall i | 0 <= i < |events| :: events[i].cursor == |disk| + 1 + i
    ensures q.next == start.next + |events|
  {
    hide IdPrefix;
    forall i | 0 <= i < |events| ensures events[i].cursor == |disk| + 1 + i {
      assert q.index[|disk| + i] == StampsOf(events)[i];
    }
  }

  /** The terminal event that the exit itself brings. */
  predicate IsExitEvent(config: CollectorConfig, owner: Owner, turn: nat, exit: Exit, e: NormalizedEvent) {
    && StampOf(e) == ExitStamp(owner, turn, e.cursor, ClassifyExit(config.exit, exit, config.frame.parse))
    && e.payload == ExitPayload(config.exit, exit, config.frame.parse)
  }

  /** What becomes of the records' events: an exit's details are merged in, and its own terminal may follow. */
  predicate ClosedBy(config: CollectorConfig, owner: Owner, turn: nat, exit: Option<Exit>, events: seq<NormalizedEvent>,
                     added: seq<NormalizedEvent>)
  {
    match exit
    case None => added == events
    case Some(x) =>
      var merged := MergeExit(events, ClassifyExit(config.exit, x, config.frame.parse),
                              ExitPayload(config.exit, x, config.frame.parse));
      || added == merged
      || (|added| == |merged| + 1 && added[..|merged|] == merged
          && IsExitEvent(config, owner, turn, x, added[|merged|]))
  }

  /** Every added event comes from one of the records, up to the exit's details, or from the exit. */
  ghost predicate Adds(config: CollectorConfig, owner: Owner, turn: nat, records: seq<Value>, base: nat,
                       allowTerminal: bool, exit: Option<Exit>, added: seq<NormalizedEvent>)
  {
    exists events :: AddsFrom(config, owner, turn, records, base, allowTerminal, exit, added, events)
  }

  ghost predicate AddsFrom(config: CollectorConfig, owner: Owner, turn: nat, records: seq<Value>, base: nat,
                           allowTerminal: bool, exit: Option<Exit>, added: seq<NormalizedEvent>,
                           events: seq<NormalizedEvent>)
  {
    && AllSourced(SettingOf(config, owner, turn, allowTerminal), config.fixtures, records, base, events)
    && ClosedBy(config, owner, turn, exit, events, added)
  }

  /** The corrections of the events that a poll may complete. */
  function CorrectionsFor(config: CollectorConfig, existing: map<string, NormalizedEvent>, records: seq<Value>)
    : seq<NormalizedEvent>
  {
    CorrectionsOf(config.fixtures, ValuesById(existing), config.fixtures.seed(ValuesById(existing), records))
  }

  /** What a poll does to the event file, payloads included. */
  ghost predicate Recorded(config: CollectorConfig, owner: Owner, turn: nat, records: seq<Value>, base: nat,
                           allowTerminal: bool, exit: Option<Exit>, existing: map<string, NormalizedEvent>,
                           before: seq<NormalizedEvent>, after: seq<NormalizedEvent>)
  {
    && |before| <= |after|
    && after[..|before|] == Applied(before, CorrectionsFor(config, existing, records))
    && Adds(config, owner, turn, records, base, allowTerminal, exit, after[|before|..])
  }

  /** What the collected events mean for the progress of the index. */
  ghost predicate Reaches(seen: set<string>, disk: seq<NormalizedEvent>, corrections: seq<NormalizedEvent>,
                          events: seq<NormalizedEvent>, next: nat, q: Progress) {
    && ChangesFit(disk, corrections, events)
    && (forall i | 0 <= i < |corrections| :: IsTool(corrections[i].event))
    && next == |disk| + |events| + 1
    && q == Progress(seen + Ids(events), next, StampsOf(disk) + StampsOf(events))
  }

  lemma ReachesSnoc(seen: set<string>, disk: seq<NormalizedEvent>, corrections: seq<NormalizedEvent>,
                    events: seq<NormalizedEvent>, next: nat, q: Progress, e: NormalizedEvent)
    requires Reaches(seen, disk, corrections, events, next, q) && e.cursor == next
    ensures Reaches(seen, disk, corrections, events + [e], next + 1,
                    Progress(q.seen + {e.id}, q.next + 1, q.index + [StampOf(e)]))
  {
    StampsAppend(events, [e]);
    assert StampsOf([e]) == [StampOf(e)];
    AppendAssociative(StampsOf(disk), StampsOf(events), [StampOf(e)]);
    IdsSnoc(events, e);
    assert seen + (Ids(events) + {e.id}) == (seen + Ids(events)) + {e.id};
  }

  lemma ReachesMerged(seen: set<string>, disk: seq<NormalizedEvent>, corrections: seq<NormalizedEvent>,
                      events: seq<NormalizedEvent>, next: nat, q: Progress, merged: seq<NormalizedEvent>)
    requires Reaches(seen, disk, corrections, events, next, q) && StampsOf(merged) == StampsOf(events)
    ensures Reaches(seen, disk, corrections, merged, next, q)
  {
    hide Ids;
    SameStampsSameIds(merged, events);
    SameCursors(merged, events);
  }

  /** Merge the exit's details and add its terminal where the turn still needs one. */
  method CloseTurn(config: CollectorConfig, owner: Owner, turn: nat, corrections: seq<NormalizedEvent>,
                   events: seq<NormalizedEvent>, next: nat, exit: Exit,
                   ghost seen: set<string>, ghost disk: seq<NormalizedEvent>, ghost q: Progress)
    returns (events': seq<NormalizedEvent>, next': nat)
    requires Reaches(seen, disk, corrections, events, next, q)
    requires forall i | 0 <= i < |corrections| :: !IsTerminal(StampsOf(corrections)[i].event)
    ensures Reaches(seen, disk, corrections, events', next',
                    Closed(config, owner, turn, |StampsOf(disk)|, q,
                           ClassifyExit(config.exit, exit, config.frame.parse)))
    ensures ClosedBy(config, owner, turn, Some(exit), events, events')
  {
    hide Reaches, ClassifyExit, ExitPayload, MergeExit, LastTerminal, Ids, TurnPrefix;
    var expected := ClassifyExit(config.exit, exit, config.frame.parse);
    events' := MergeExit(events, expected, ExitPayload(config.exit, exit, config.frame.parse));
    next' := next;
    ReachesMerged(seen, disk, corrections, events, next, q, events');
    ReachesIndex(seen, disk, corrections, events', next, q);
    StampsAppend(corrections, events');
    LastTerminalAppend(config, owner, turn, StampsOf(corrections), StampsOf(events'));
    if NeedsExit(LastTerminal(config, owner, turn, StampsOf(corrections + events')), expected) {
      var stamp := ExitStamp(owner, turn, next', expected);
      var terminal := NormalizedEvent(stamp.id, next', stamp.sessionId, stamp.actor, expected,
                                      ExitPayload(config.exit, exit, config.frame.parse));
      ReachesSnoc(seen, disk, corrections, events', next', q, terminal);
      assert (events' + [terminal])[..|events'|] == events';
      events', next' := events' + [terminal], next' + 1;
    }
  }

  lemma ReachesIndex(seen: set<string>, disk: seq<NormalizedEvent>, corrections: seq<NormalizedEvent>,
                     events: seq<NormalizedEvent>, next: nat, q: Progress)
    requires Reaches(seen, disk, corrections, events, next, q)
    ensures |StampsOf(disk)| <= |q.index| && q.index[|StampsOf(disk)|..] == StampsOf(events) && q.next == next
  {}

  /** Corrections, new events and, at the end of a turn, the exit contract's terminal. */
  method CollectAdditions(config: CollectorConfig, owner: Owner, turn: nat, records: seq<Value>, base: nat,
                          cache: EventCache, next: nat, allowTerminal: bool, exit: Option<Exit>,
                          ghost disk: seq<NormalizedEvent>)
    returns (r: Result<(seq<NormalizedEvent>, seq<NormalizedEvent>, nat), EventError>)
    requires CacheOk(cache, disk) && DiskOk(disk, next)
    ensures var start := Progress(cache.current.Keys, next, StampsOf(disk));
            var goal := Outcome(config, owner, turn, records, base, start, allowTerminal, exit);
            && (r.Ok? <==> goal.Ok?)
            && (r.Err? ==> r.error == goal.error)
            && (r.Ok? ==>
                  && Ids(r.value.0) <= cache.current.Keys
                  && Reaches(cache.current.Keys, disk, r.value.0, r.value.1, r.value.2, goal.value))
    ensures r.Ok? ==> r.value.0 == CorrectionsFor(config, cache.current, records)
                      && Adds(config, owner, turn, records, base, allowTerminal, exit, r.value.1)
  {
    hide FoldRecords, CacheOk, Corrects, Extends, ClassifyExit, Ids, Closed, AllSourced, ClosedBy, ValuesById;
    ghost var start := Progress(cache.current.Keys, next, StampsOf(disk));
    var setting := SettingOf(config, owner, turn, allowTerminal);
    FoldRecordsExtends(setting, records, base, start);
    var normalized :=
      NormalizeRecordsAt(setting, config.fixtures, records, base, cache.current, next, StampsOf(disk));
    if normalized.Err? {
      return Err(normalized.error);
    }
    var (corrections, events, next') := normalized.value;
    ghost var q := FoldRecords(setting, records, base, start).value;
    CorrectionsFit(cache, disk, corrections);
    CorrectionIds(cache, disk, corrections);
    AdditionsFollow(setting, disk, start, events, q);
    CorrectionsAreTools(cache.current, corrections);
    assert Reaches(cache.current.Keys, disk, corrections, events, next', q);
    var additions := events;
    if exit.Some? {
      hide Reaches;
      additions, next' :=
        CloseTurn(config, owner, turn, corrections, events, next', exit.value, cache.current.Keys, disk, q);
    } else {
      NotClosed(config, owner, turn, events);
    }
    assert AddsFrom(config, owner, turn, records, base, allowTerminal, exit, additions, events);
    r := Ok((corrections, additions, next'));
  }

  lemma NotClosed(config: CollectorConfig, owner: Owner, turn: nat, events: seq<NormalizedEvent>)
    ensures ClosedBy(config, owner, turn, None, events, events)
  {}

  lemma SameCursors(a: seq<NormalizedEvent>, b: seq<NormalizedEvent>)
    requires StampsOf(a) == StampsOf(b)
    ensures |a| == |b| && forall i | 0 <= i < |a| :: a[i].cursor == b[i].cursor
  {
    assert |a| == |StampsOf(a)| == |b|;
    assert forall i | 0 <= i < |a| :: StampsOf(a)[i] == StampOf(a[i]) && StampsOf(b)[i] == StampOf(b[i]);
  }

  class PerInvocationDriver {
    const config: DriverConfig
    var sessions: map<string, ExecSession>
    var eventCaches: map<string, EventCache>
    var sourceCursors: map<string, SourceCursor>
    /** `events.jsonl` of each session. */
    var eventFiles: map<string, seq<NormalizedEvent>>
    /** `session.json` of each session. */
    var metadata: map<string, Persisted>
    /** The per-turn stdout files that were created. */
    var stdoutFiles: map<string, set<nat>>
    /** What each cursor has read of its source. */
    ghost var sources: map<string, string>

    ghost function SlotOf(id: string): Slot
      reads this
    {
      Slot(Find(sessions, id), Find(metadata, id), FindOr(eventFiles, id, []), Find(eventCaches, id),
           Find(sourceCursors, id), FindOr(sources, id, ""), FindOr(stdoutFiles, id, {}))
    }

    ghost predicate Valid()
      reads this
    {
      forall id :: SlotOk(config, id, SlotOf(id))
    }

    constructor (config: DriverConfig)
      ensures Valid() && this.config == config && sessions == map[]
    {
      this.config := config;
      sessions, eventCaches, sourceCursors := map[], map[], map[];
      eventFiles, metadata, stdoutFiles, sources := map[], map[], map[], map[];
    }

    // ---- Caches and files ------------------------------------------------------------

    /** The cache is moved out of the driver while a poll works on it. */
    method TakeEventCache(persisted: Persisted) returns (cache: EventCache)
      requires DiskOk(FindOr(eventFiles, persisted.localId, []), |FindOr(eventFiles, persisted.localId, [])| + 1)
      requires persisted.localId in eventCaches ==>
                 CacheOk(eventCaches[persisted.localId], FindOr(eventFiles, persisted.localId, []))
      modifies this`eventCaches
      ensures eventCaches == old(eventCaches) - {persisted.localId}
      ensures CacheOk(cache, FindOr(eventFiles, persisted.localId, [])) && cache.turn == persisted.invocations
      ensures cache.current
           == EnteredCurrent(Find(old(eventCaches), persisted.localId), FindOr(eventFiles, persisted.localId, []),
                             persisted.invocations)
    {
      var id := persisted.localId;
      if id in eventCaches {
        cache := eventCaches[id];
        eventCaches := eventCaches - {id};
      } else {
        cache := LoadCache(FindOr(eventFiles, id, []), persisted.invocations);
        eventCaches := eventCaches - {id};
      }
      if cache.turn != persisted.invocations {
        cache := cache.(current := map[], turn := persisted.invocations);
      }
    }

    /**
     Publish the changes: in place when some of them correct indexed events, by
     appending otherwise. Either way the file is the old file with the changes
     applied, and the cache that goes back into the driver mirrors it.
     */
    method PersistEventCache(id: string, cache: EventCache, changes: seq<NormalizedEvent>,
                             ghost corrections: seq<NormalizedEvent>, ghost additions: seq<NormalizedEvent>)
      requires CacheOk(cache, FindOr(eventFiles, id, [])) && changes == corrections + additions
      requires ChangesFit(FindOr(eventFiles, id, []), corrections, additions)
      modifies this`eventCaches, this`eventFiles
      ensures eventFiles == old(eventFiles)[id := Applied(FindOr(old(eventFiles), id, []), changes)]
      ensures id in eventCaches && eventCaches == old(eventCaches)[id := eventCaches[id]]
      ensures CacheOk(eventCaches[id], eventFiles[id]) && eventCaches[id].turn == cache.turn
      ensures eventCaches[id].current.Keys == cache.current.Keys + Ids(changes)
    {
      ghost var disk := FindOr(eventFiles, id, []);
      var correcting := exists i | 0 <= i < |changes| :: changes[i].cursor in cache.events;
      var updated := InsertChanges(cache, changes, disk, corrections, additions);
      if correcting {
        WholeIndex(updated, Applied(disk, changes));
        eventFiles := eventFiles[id := CachedAfterInMemory(updated, 0)];
      } else {
        AppendingSuffices(disk, cache, corrections, additions);
        eventFiles := eventFiles[id := FindOr(eventFiles, id, []) + changes];
      }
      eventCaches := eventCaches[id := updated];
    }

    /** `cached_after`: from the cache if there is one, otherwise from the file. */
    method CachedAfter(id: string, after: nat) returns (events: seq<NormalizedEvent>)
      requires Valid()
      ensures events == EventsAfter(SlotOf(id).disk, after)
    {
      hide CachedAfterInMemory, CachedAfterOnDisk, EventsAfter, CountersOk, CursorOk;
      ghost var slot := SlotOf(id);
      assert SlotOk(config, id, slot);
      if id in eventCaches {
        IndexAgreesWithDisk(eventCaches[id], slot.disk, after);
        events := CachedAfterInMemory(eventCaches[id], after);
      } else {
        var disk := FindOr(eventFiles, id, []);
        ReloadedAgrees(disk, after);
        events := CachedAfterOnDisk(disk, after);
      }
    }

    // ---- Polling ------------------------------------------------------------------------

    /** `source_records`: bring the cursor up to date and hand out the records it holds. */
    method SourceRecords(id: string, path: SourcePath, turn: nat, file: Option<string>, finished: bool)
      returns (r: Result<(seq<Value>, nat), FrameError>)
      requires Tracks(config.collector.frame, EnteredCursor(Find(sourceCursors, id), path, turn),
                      EnteredRead(Find(sourceCursors, id), path, FindOr(sources, id, "")))
      requires EnteredRead(Find(sourceCursors, id), path, FindOr(sources, id, "")) <= Content(file)
      modifies this`sourceCursors, this`sources
      ensures r.Ok? <==> WellFramed(config.collector.frame, Content(file))
      ensures id in sourceCursors && sourceCursors == old(sourceCursors)[id := sourceCursors[id]]
      ensures sources == old(sources)[id := Content(file)]
      ensures var start := EnteredCursor(Find(old(sourceCursors), id), path, turn);
              var frame := config.collector.frame;
              r.Ok? ==>
                && sourceCursors[id].path == path && sourceCursors[id].turn == turn
                && sourceCursors[id].recordBase == start.recordBase
                && start.recordBase <= |VisibleRecords(frame, Content(file), finished)|
                && sourceCursors[id].records == VisibleRecords(frame, Content(file), finished)[start.recordBase..]
                && (!(finished && frame.source == Stdout) ==> Tracks(frame, sourceCursors[id], Content(file)))
                && r.value == (sourceCursors[id].records, start.recordBase)
      ensures var start := EnteredCursor(Find(old(sourceCursors), id), path, turn);
              var frame := config.collector.frame;
              var lines := if finished && frame.source == Stdout then Content(file) + "\n" else Content(file);
              r.Ok? ==> start.recordBase <= |Records(frame, lines)|
                        && r.value.0 == Records(frame, lines)[start.recordBase..]
    {
      hide Tail, WellFramed, Records, Lines, LinesRecords;
      VisibleIsParsed(config.collector.frame, Content(file), finished);
      var frame := config.collector.frame;
      ghost var read := EnteredRead(Find(sourceCursors, id), path, FindOr(sources, id, ""));
      var cursor := EnteredCursor(Find(sourceCursors, id), path, turn);
      assert read == Content(file)[..cursor.offset];
      var step := ReadSource(frame, cursor, Content(file), read);
      if step.Ok? {
        cursor := step.value;
        if finished && frame.source == Stdout {
          cursor := FlushPending(frame, cursor, Content(file));
        }
      }
      sourceCursors := sourceCursors[id := cursor];
      sources := sources[id := Content(file)];
      if step.Err? {
        return Err(step.error);
      }
      r := Ok((cursor.records, cursor.recordBase));
    }

    /** What the poll starts from: the entered cursor's base, the ids seen, the next cursor, the index. */
    ghost function Before(persisted: Persisted): Collected
      reads this`eventCaches, this`eventFiles, this`sourceCursors, this`sources
    {
      var id := persisted.localId;
      var path := PathOf(config.collector.frame, id, persisted.invocations);
      Collected(EnteredCursor(Find(sourceCursors, id), path, persisted.invocations).recordBase,
                Progress(EnteredSeen(Find(eventCaches, id), FindOr(eventFiles, id, []), persisted.invocations),
                         persisted.nextCursor, StampsOf(FindOr(eventFiles, id, []))))
    }

    /** The poll leaves the session collected this far. */
    ghost predicate Leaves(id: string, c: Collected)
      reads this`eventCaches, this`eventFiles, this`sourceCursors, this`sources
    {
      && id in sourceCursors && id in eventCaches && id in eventFiles
      && c == Collected(sourceCursors[id].recordBase,
                        Progress(eventCaches[id].current.Keys, c.progress.next, StampsOf(eventFiles[id])))
    }

    /** A new turn knows no ids yet. */
    lemma NewTurnForgets(persisted: Persisted)
      requires persisted.localId in eventCaches && eventCaches[persisted.localId].turn != persisted.invocations
      ensures Before(persisted).progress
           == Progress({}, persisted.nextCursor, StampsOf(FindOr(eventFiles, persisted.localId, [])))
    {
      hide EnteredCursor, StampsOf;
    }

    /** What has been read of the path that a poll would read now. */
    ghost function ReadSoFar(persisted: Persisted): string
      reads this`sourceCursors, this`sources
    {
      EnteredRead(Find(sourceCursors, persisted.localId),
                  PathOf(config.collector.frame, persisted.localId, persisted.invocations),
                  FindOr(sources, persisted.localId, ""))
    }

    /** What a poll relies on: the session's files and caches are in order and the source only grew. */
    ghost predicate ReadyToPoll(persisted: Persisted, file: Option<string>)
      reads this`eventCaches, this`eventFiles, this`sourceCursors, this`sources
    {
      var id := persisted.localId;
      var frame := config.collector.frame;
      var path := PathOf(frame, id, persisted.invocations);
      && DiskOk(FindOr(eventFiles, id, []), persisted.nextCursor)
      && (id in eventCaches ==> CacheOk(eventCaches[id], FindOr(eventFiles, id, [])))
      && Tracks(frame, EnteredCursor(Find(sourceCursors, id), path, persisted.invocations), ReadSoFar(persisted))
      && ReadSoFar(persisted) <= Content(file)
    }

    /** What a successful poll leaves in order. */
    ghost predicate PolledWell(persisted: Persisted, file: Option<string>, flushed: bool)
      reads this`eventCaches, this`eventFiles, this`sourceCursors, this`sources
    {
      var id := persisted.localId;
      && id in eventFiles && id in eventCaches && id in sourceCursors && id in sources
      && DiskOk(eventFiles[id], persisted.nextCursor) && CacheOk(eventCaches[id], eventFiles[id])
      && eventCaches[id].turn == persisted.invocations
      && sources[id] == Content(file)
      && sourceCursors[id].path == PathOf(config.collector.frame, id, persisted.invocations)
      && sourceCursors[id].turn == persisted.invocations
      && (!flushed ==> Tracks(config.collector.frame, sourceCursors[id], Content(file)))
    }

    /** The common part of all polls: read, normalize, persist, and let go of what was consumed. */
    method Poll(persisted: Persisted, file: Option<string>, finished: bool, hold: bool, exit: Option<Exit>)
      returns (r: Result<Persisted, DriverError>)
      requires ReadyToPoll(persisted, file)
      modifies this`eventCaches, this`eventFiles, this`sourceCursors, this`sources
      ensures r.Err? ==> r.error.CollectFailed?
      ensures var outcome := Polled(config.collector, Owner(persisted.localId, persisted.marker), persisted.invocations,
                                    old(Before(persisted)), Content(file), finished, hold, exit);
              && (r.Ok? <==> outcome.Ok?)
              && (r.Ok? ==>
                    && r.value == persisted.(nextCursor := outcome.value.progress.next)
                    && PolledWell(r.value, file, finished && config.collector.frame.source == Stdout)
                    && Leaves(persisted.localId, outcome.value))
      ensures r.Ok? ==> PollRecorded(old(StartOf(persisted)), persisted, file, finished, hold, exit)
      ensures r.Ok? ==> Kept(persisted.localId)
      ensures r.Ok? ==> eventCaches - {persisted.localId} == old(eventCaches) - {persisted.localId}
                        && eventFiles - {persisted.localId} == old(eventFiles) - {persisted.localId}
                        && sourceCursors - {persisted.localId} == old(sourceCursors) - {persisted.localId}
                        && sources - {persisted.localId} == old(sources) - {persisted.localId}
    {
      hide CacheOk, Tracks, WellFramed, VisibleRecords, Records, BeforeHeld, Outcome, Ids, EnteredCurrent, StampsOf, EnteredRead,
           Untaken, EnteredCursor, Polled, Leaves, Recorded;
      var id := persisted.localId;
      ghost var before := Before(persisted);
      ghost var owner := Owner(id, persisted.marker);
      var cache := TakeEventCache(persisted);
      var source := SourceRecords(id, PathOf(config.collector.frame, id, persisted.invocations), persisted.invocations,
                                  file, finished);
      if source.Err? {
        IllFramed(config.collector, owner, persisted.invocations, before, Content(file), finished, hold, exit);
        return Err(CollectFailed(FrameFailed(source.error)));
      }
      UntakenFrom(config.collector, before.taken, Content(file), finished);
      r := Absorb(persisted, cache, finished, hold, exit, before, Content(file));
    }

    /** What a poll starts from, payloads included. */
    ghost function StartOf(persisted: Persisted): PollStart
      reads this`eventCaches, this`eventFiles, this`sourceCursors, this`sources
    {
      var id := persisted.localId;
      PollStart(Before(persisted).taken,
                EnteredCurrent(Find(eventCaches, id), FindOr(eventFiles, id, []), persisted.invocations),
                FindOr(eventFiles, id, []))
    }

    /** What the poll did to the event file, payloads included. */
    ghost predicate PollRecorded(start: PollStart, persisted: Persisted, file: Option<string>, finished: bool, hold: bool,
                                 exit: Option<Exit>)
      reads this`eventFiles
    {
      var untaken := Untaken(config.collector, start.taken, Content(file), finished);
      var n := if hold then BeforeHeld(config.collector.mapping, untaken) else |untaken|;
      Recorded(config.collector, Owner(persisted.localId, persisted.marker), persisted.invocations, untaken[..n],
               start.taken, !hold, exit, start.current, start.disk, FindOr(eventFiles, persisted.localId, []))
    }

    /** Normalize what the cursor holds, up to the first held record, and publish the result. */
    method Absorb(persisted: Persisted, cache: EventCache, ghost finished: bool, hold: bool, exit: Option<Exit>,
                  ghost before: Collected, ghost content: string)
      returns (r: Result<Persisted, DriverError>)
      requires persisted.localId in sourceCursors && CacheOk(cache, FindOr(eventFiles, persisted.localId, []))
      requires DiskOk(FindOr(eventFiles, persisted.localId, []), persisted.nextCursor)
      requires WellFramed(config.collector.frame, content)
      requires sourceCursors[persisted.localId].records == Untaken(config.collector, before.taken, content, finished)
      requires before == Collected(sourceCursors[persisted.localId].recordBase,
                                   Progress(cache.current.Keys, persisted.nextCursor,
                                            StampsOf(FindOr(eventFiles, persisted.localId, []))))
      modifies this`eventCaches, this`eventFiles, this`sourceCursors
      ensures r.Err? ==> r.error.CollectFailed?
      ensures r.Ok? ==> Kept(persisted.localId)
      ensures r.Ok? ==>
                var id, cursor := persisted.localId, old(sourceCursors)[persisted.localId];
                var n := if hold then BeforeHeld(config.collector.mapping, cursor.records) else |cursor.records|;
                Recorded(config.collector, Owner(id, persisted.marker), persisted.invocations, cursor.records[..n],
                         cursor.recordBase, !hold, exit, cache.current, FindOr(old(eventFiles), id, []),
                         FindOr(eventFiles, id, []))
      ensures var id, cursor := persisted.localId, old(sourceCursors)[persisted.localId];
              var outcome := Polled(config.collector, Owner(id, persisted.marker), persisted.invocations, before, content,
                                    finished, hold, exit);
              && (r.Ok? <==> outcome.Ok?)
              && (r.Ok? ==>
                    && r.value == persisted.(nextCursor := outcome.value.progress.next)
                    && Leaves(id, outcome.value)
                    && id in eventFiles && eventFiles == old(eventFiles)[id := eventFiles[id]]
                    && id in eventCaches && eventCaches == old(eventCaches)[id := eventCaches[id]]
                    && id in sourceCursors && sourceCursors == old(sourceCursors)[id := sourceCursors[id]]
                    && DiskOk(eventFiles[id], r.value.nextCursor) && CacheOk(eventCaches[id], eventFiles[id])
                    && eventCaches[id].turn == cache.turn
                    && sourceCursors[id].path == cursor.path && sourceCursors[id].turn == cursor.turn
                    && (Tracks(config.collector.frame, cursor, content) ==>
                          Tracks(config.collector.frame, sourceCursors[id], content)))
    {
      hide CacheOk, Tracks, BeforeHeld, Outcome, Ids, StampsOf, ChangesFit, Untaken, Polled, WellFramed, Adds, Applied,
           CorrectionsFor;
      var id := persisted.localId;
      ghost var disk := FindOr(eventFiles, id, []);
      var cursor := sourceCursors[id];
      var consumed := if hold then BeforeHeld(config.collector.mapping, cursor.records) else |cursor.records|;
      PolledFrom(config.collector, Owner(id, persisted.marker), persisted.invocations, before, content, finished, hold, exit,
                 cursor.records, consumed);
      var collected :=
        CollectAdditions(config.collector, Owner(id, persisted.marker), persisted.invocations,
                         cursor.records[..consumed], cursor.recordBase, cache, persisted.nextCursor, !hold, exit, disk);
      if collected.Err? {
        return Err(CollectFailed(EventFailed(collected.error)));
      }
      var (corrections, additions, next) := collected.value;
      ghost var start := Progress(cache.current.Keys, persisted.nextCursor, StampsOf(disk));
      ghost var q := Outcome(config.collector, Owner(id, persisted.marker), persisted.invocations,
                             cursor.records[..consumed], cursor.recordBase, start, !hold, exit).value;
      ConsumedTracks(config.collector.frame, cursor, content, consumed);
      Publish(id, cache, corrections, additions, next, consumed, q);
      r := Ok(persisted.(nextCursor := next));
    }

    /** Of the events that were indexed, at most payloads of tool events have changed. */
    twostate predicate Kept(id: string)
      reads this`eventFiles
    {
      Keeps(FindOr(old(eventFiles), id, []), FindOr(eventFiles, id, []))
    }

    /** Make the changes durable and let go of the consumed records. */
    method Publish(id: string, cache: EventCache, corrections: seq<NormalizedEvent>, additions: seq<NormalizedEvent>,
                   next: nat, consumed: nat, ghost q: Progress)
      requires CacheOk(cache, FindOr(eventFiles, id, []))
      requires DiskOk(FindOr(eventFiles, id, []), |FindOr(eventFiles, id, [])| + 1)
      requires Reaches(cache.current.Keys, FindOr(eventFiles, id, []), corrections, additions, next, q)
      requires Ids(corrections) <= cache.current.Keys
      requires id in sourceCursors && consumed <= |sourceCursors[id].records|
      modifies this`eventCaches, this`eventFiles, this`sourceCursors
      ensures id in eventFiles && eventFiles == old(eventFiles)[id := eventFiles[id]]
      ensures id in eventCaches && eventCaches == old(eventCaches)[id := eventCaches[id]]
      ensures DiskOk(eventFiles[id], next) && CacheOk(eventCaches[id], eventFiles[id])
      ensures q == Progress(eventCaches[id].current.Keys, next, StampsOf(eventFiles[id]))
      ensures eventCaches[id].turn == cache.turn
      ensures Kept(id)
      ensures var disk := FindOr(old(eventFiles), id, []);
              && |disk| <= |eventFiles[id]| && eventFiles[id][..|disk|] == Applied(disk, corrections)
              && eventFiles[id][|disk|..] == additions
      ensures var cursor := old(sourceCursors)[id];
              sourceCursors == old(sourceCursors)[id := cursor.(records := cursor.records[consumed..],
                                                                recordBase := cursor.recordBase + consumed)]
    {
      hide CacheOk, Ids, StampsOf, Applied;
      ghost var disk := FindOr(eventFiles, id, []);
      PersistEventCache(id, cache, corrections + additions, corrections, additions);
      AppliedStamps(disk, corrections, additions);
      AppliedKeeps(disk, corrections, additions);
      AppliedSplit(disk, corrections, additions);
      IdsAppend(corrections, additions);
      var cursor := sourceCursors[id];
      sourceCursors := sourceCursors[id := cursor.(records := cursor.records[consumed..],
                                                   recordBase := cursor.recordBase + consumed)];
    }

    /** The outcome that a poll of the running invocation must have. */
    ghost function ActiveOutcome(p: Persisted, before: Collected, file: Option<string>, exit: Option<Exit>)
      : Result<Collected, CollectError>
    {
      var owner := Owner(p.localId, p.marker);
      if exit.None? then Running(config.collector, owner, p.invocations, before, Content(file))
      else Completed(config.collector, owner, p.invocations, before, Content(file),
                     ClassifyExit(config.collector.exit, exit.value, config.collector.frame.parse))
    }

    /** `refresh_source`: a running poll holds terminals back, the completing one closes the turn. */
    method RefreshSource(persisted: Persisted, file: Option<string>, exit: Option<Exit>)
      returns (r: Result<Persisted, DriverError>)
      requires ReadyToPoll(persisted, file)
      modifies this`eventCaches, this`eventFiles, this`sourceCursors, this`sources
      ensures r.Err? ==> r.error.CollectFailed?
      ensures var outcome := ActiveOutcome(persisted, old(Before(persisted)), file, exit);
              && (r.Ok? <==> outcome.Ok?)
              && (r.Ok? ==>
                    && r.value == persisted.(nextCursor := outcome.value.progress.next)
                    && PolledWell(r.value, file, exit.Some? && config.collector.frame.source == Stdout)
                    && Leaves(persisted.localId, outcome.value))
      ensures r.Ok? ==> PollRecorded(old(StartOf(persisted)), persisted, file, exit.Some?, exit.None?, exit)
      ensures r.Ok? ==> Kept(persisted.localId)
      ensures r.Ok? ==> eventCaches - {persisted.localId} == old(eventCaches) - {persisted.localId}
                        && eventFiles - {persisted.localId} == old(eventFiles) - {persisted.localId}
                        && sourceCursors - {persisted.localId} == old(sourceCursors) - {persisted.localId}
                        && sources - {persisted.localId} == old(sources) - {persisted.localId}
    {
      hide Polled, Running, Completed, Before, PolledWell, Leaves, ReadyToPoll, ClassifyExit, PollRecorded, StartOf;
      ghost var before := Before(persisted);
      r := Poll(persisted, file, exit.Some?, exit.None?, exit);
      PolledIsActive(config.collector, Owner(persisted.localId, persisted.marker), persisted.invocations, before,
                     Content(file), exit);
    }

    /** `refresh_inactive_journal`: without an invocation a journal is read to its end. */
    method RefreshInactiveJournal(persisted: Persisted, file: Option<string>) returns (r: Result<Persisted, DriverError>)
      requires ReadyToPoll(persisted, file)
      modifies this`eventCaches, this`eventFiles, this`sourceCursors, this`sources
      ensures r.Err? ==> r.error.CollectFailed?
      ensures config.collector.frame.source != JournalFile ==>
                r == Ok(persisted) && eventCaches == old(eventCaches) && eventFiles == old(eventFiles)
                && sourceCursors == old(sourceCursors) && sources == old(sources)
      ensures config.collector.frame.source == JournalFile ==>
                var owner := Owner(persisted.localId, persisted.marker);
                var outcome := Idle(config.collector, owner, persisted.invocations, old(Before(persisted)), Content(file));
                && (r.Ok? <==> outcome.Ok?)
                && (r.Ok? ==>
                      && r.value == persisted.(nextCursor := outcome.value.progress.next)
                      && PolledWell(r.value, file, false)
                      && Leaves(persisted.localId, outcome.value))
      ensures r.Ok? && config.collector.frame.source == JournalFile ==>
                PollRecorded(old(StartOf(persisted)), persisted, file, true, false, None)
      ensures r.Ok? ==> Kept(persisted.localId)
      ensures r.Ok? ==> eventCaches - {persisted.localId} == old(eventCaches) - {persisted.localId}
                        && eventFiles - {persisted.localId} == old(eventFiles) - {persisted.localId}
                        && sourceCursors - {persisted.localId} == old(sourceCursors) - {persisted.localId}
                        && sources - {persisted.localId} == old(sources) - {persisted.localId}
    {
      hide Polled, Idle, Before, PolledWell, Leaves, ReadyToPoll, PollRecorded, StartOf;
      if config.collector.frame.source != JournalFile {
        return Ok(persisted);
      }
      ghost var before := Before(persisted);
      r := Poll(persisted, file, true, false, None);
      PolledIsIdle(config.collector, Owner(persisted.localId, persisted.marker), persisted.invocations, before, Content(file));
    }

    // ---- Session operations ----------------------------------------------------------------

    /** Only the state of one session changed. */
    twostate predicate Only(id: string)
      reads this
    {
      && sessions - {id} == old(sessions) - {id}
      && eventCaches - {id} == old(eventCaches) - {id}
      && sourceCursors - {id} == old(sourceCursors) - {id}
      && eventFiles - {id} == old(eventFiles) - {id}
      && metadata - {id} == old(metadata) - {id}
      && stdoutFiles - {id} == old(stdoutFiles) - {id}
      && sources - {id} == old(sources) - {id}
    }

    /** If only one session changed and it is in order, everything is. */
    twostate lemma StillValid(id: string)
      requires old(Valid()) && Only(id) && SlotOk(config, id, SlotOf(id))
      ensures Valid()
    {
      hide SlotOk, Find;
      forall k ensures SlotOk(config, k, SlotOf(k)) {
        if k != id {
          assert old(SlotOk(config, k, SlotOf(k)));
          ElsewhereAlike(old(sessions), sessions, id, k);
          ElsewhereAlike(old(metadata), metadata, id, k);
          ElsewhereAlike(old(eventFiles), eventFiles, id, k);
          ElsewhereAlike(old(eventCaches), eventCaches, id, k);
          ElsewhereAlike(old(sourceCursors), sourceCursors, id, k);
          ElsewhereAlike(old(sources), sources, id, k);
          ElsewhereAlike(old(stdoutFiles), stdoutFiles, id, k);
          FindOrAlike(old(eventFiles), eventFiles, k, []);
          FindOrAlike(old(sources), sources, k, "");
          FindOrAlike(old(stdoutFiles), stdoutFiles, k, {});
          assert SlotOf(k) == old(SlotOf(k));
        }
      }
    }

    /** What was collected, and how far, is as it was. */
    twostate predicate SameCollection()
      reads this
    {
      && eventFiles == old(eventFiles) && eventCaches == old(eventCaches)
      && sourceCursors == old(sourceCursors) && sources == old(sources)
    }

    /** `create_session`: a new session, or an existing one reopened with everything collected for it. */
    method CreateSession(marker: string) returns (r: Result<string, DriverError>)
      requires Valid()
      modifies this`sessions, this`metadata
      ensures Valid()
      ensures SameCollection() && stdoutFiles == old(stdoutFiles)
      ensures r.Err? <==> TrimAscii(marker) == ""
      ensures r.Err? ==> r.error == EmptyMarker && unchanged(this)
      ensures r.Ok? ==> r.value == config.localIdOf(marker) && Only(r.value) && r.value in sessions
      ensures r.Ok? && r.value in old(sessions) ==>
                var before := old(sessions)[r.value];
                sessions[r.value] == before.(persisted := before.persisted.(closed := false))
      ensures r.Ok? && r.value !in old(sessions) ==>
                && sessions[r.value] == ExecSession(Persisted(r.value, marker, 0, 0, 1, false), None, false)
                && Before(sessions[r.value].persisted) == NOTHING_COLLECTED
    {
      hide CacheOk, Tracks, CursorOk, DiskOk, CountersOk, Valid, SlotOk, Before;
      if TrimAscii(marker) == "" {
        return Err(EmptyMarker);
      }
      var id := config.localIdOf(marker);
      if id in sessions {
        InOrder(id);
        CursorInOrder(id);
        ghost var before := sessions[id];
        var session := sessions[id];
        session := session.(persisted := session.persisted.(closed := false));
        sessions := sessions[id := session];
        metadata := metadata[id := session.persisted];
        CountersReopened(id, before, session, FindOr(stdoutFiles, id, {}));
        CursorKept(config.collector.frame, id, before, session, Find(sourceCursors, id), FindOr(sources, id, ""));
      } else {
        NothingKnown(id);
        var persisted := Persisted(id, marker, 0, 0, 1, false);
        metadata := metadata[id := persisted];
        sessions := sessions[id := ExecSession(persisted, None, false)];
        FreshStart(persisted, None);
        NewCounters(persisted);
      }
      InOrderAgain(id);
      StillValid(id);
      r := Ok(id);
    }

    /** Nothing is held for a session that does not exist. */
    lemma NothingKnown(id: string)
      requires Valid() && id !in sessions
      ensures id !in eventCaches && id !in sourceCursors
      ensures FindOr(eventFiles, id, []) == [] && FindOr(stdoutFiles, id, {}) == {}
    {
      hide CacheOk, Tracks, CursorOk, DiskOk;
      assert SlotOk(config, id, SlotOf(id));
    }

    /**
     `submit`: start the next invocation on a stdout file of its own. What was
     collected stays; the new turn begins at its stdout's first record, or after
     everything that was read of the journal.
     */
    method Submit(id: string) returns (r: Result<nat, DriverError>)
      requires Valid()
      modifies this`sessions, this`metadata, this`stdoutFiles
      ensures Valid()
      ensures SameCollection()
      ensures r.Ok? <==> id in old(sessions) && old(sessions)[id].active.None? && !old(sessions)[id].persisted.closed
      ensures r.Err? ==> r.error != StdoutExists && unchanged(this)
      ensures r.Ok? ==>
                var before := old(sessions)[id];
                && r.value == before.persisted.invocations + 1
                && r.value !in FindOr(old(stdoutFiles), id, {})
                && stdoutFiles == old(stdoutFiles)[id := FindOr(old(stdoutFiles), id, {}) + {r.value}]
                && sessions == old(sessions)[id := before.(persisted := before.persisted.(invocations := r.value),
                                                           active := Some(r.value))]
                && Only(id)
      ensures r.Ok? ==>
                var p := sessions[id].persisted;
                if config.collector.frame.source == Stdout then Before(p).taken == 0 && ReadSoFar(p) == ""
                else
                  && ReadSoFar(p) == old(ReadSoFar(sessions[id].persisted))
                  && Before(p).taken == |VisibleRecords(config.collector.frame, ReadSoFar(p), false)|
    {
      hide CacheOk, Tracks, DiskOk, CursorOk, CountersOk, Valid, SlotOk, Before, ReadSoFar, VisibleRecords;
      if id !in sessions {
        return Err(UnknownSession);
      }
      var session := sessions[id];
      if session.active.Some? {
        return Err(StillActive);
      }
      if session.persisted.closed {
        return Err(SessionClosed);
      }
      InOrder(id);
      CursorInOrder(id);
      var turn := session.persisted.invocations + 1;
      var launched := session.persisted.(invocations := turn);
      CountersLaunched(id, session, FindOr(stdoutFiles, id, {}));
      if turn in FindOr(stdoutFiles, id, {}) {
        assert false;
        return Err(StdoutExists);
      }
      NextTurnStarts(session, launched);
      metadata := metadata[id := launched];
      stdoutFiles := stdoutFiles[id := FindOr(stdoutFiles, id, {}) + {turn}];
      sessions := sessions[id := session.(persisted := launched, active := Some(turn))];
      CursorLaunched(config.collector.frame, id, session, sessions[id], Find(sourceCursors, id), FindOr(sources, id, ""));
      InOrderAgain(id);
      StillValid(id);
      r := Ok(turn);
    }

    /** Where the polls of a turn about to be launched start. */
    lemma NextTurnStarts(session: ExecSession, launched: Persisted)
      requires launched == session.persisted.(invocations := session.persisted.invocations + 1)
      requires var id := launched.localId;
               id in sourceCursors ==>
                 CursorOk(config.collector.frame, id, session, sourceCursors[id], FindOr(sources, id, ""))
      ensures if config.collector.frame.source == Stdout then Before(launched).taken == 0 && ReadSoFar(launched) == ""
              else
                && ReadSoFar(launched) == ReadSoFar(session.persisted)
                && Before(launched).taken == |VisibleRecords(config.collector.frame, ReadSoFar(launched), false)|
    {
      hide EnteredCurrent, StampsOf, WellFramed, Tail, Records;
      NothingVisible(config.collector.frame);
    }

    /** The file that the session would poll now still begins with what was read of it. */
    ghost predicate SourceGrew(id: string, file: Option<string>)
      reads this
    {
      id in sessions && (sessions[id].active.Some? || config.collector.frame.source == JournalFile) ==>
        ReadSoFar(sessions[id].persisted) <= Content(file)
    }

    /** A session in order can be polled while it runs, and at any time if its source is a journal. */
    lemma CanPoll(id: string, file: Option<string>)
      requires Valid() && SourceGrew(id, file) && id in sessions
      requires sessions[id].active.Some? || config.collector.frame.source == JournalFile
      ensures ReadyToPoll(sessions[id].persisted, file)
    {
      hide CacheOk, Tracks, DiskOk, EnteredCursor;
      assert SlotOk(config, id, SlotOf(id));
      EnteredTracks(config.collector.frame, Find(sourceCursors, id),
                    PathOf(config.collector.frame, id, sessions[id].persisted.invocations),
                    sessions[id].persisted.invocations, FindOr(sources, id, ""));
    }

    /** After a poll, the session with the polled counters is in order. */
    lemma PolledInOrder(id: string, session: ExecSession, file: Option<string>, flushed: bool)
      requires id in sessions && sessions[id] == session && PolledWell(session.persisted, file, flushed)
      requires session.persisted.localId == id && CountersOk(id, session, FindOr(stdoutFiles, id, {}))
      requires id in metadata && (session.active.None? ==> metadata[id] == session.persisted)
      requires flushed ==> session.active.None? && config.collector.frame.source == Stdout
      ensures SlotOk(config, id, SlotOf(id))
    {
      hide CacheOk, Tracks, DiskOk, CountersOk;
    }

    /** After a poll, the next one on the same path starts where it stopped. */
    lemma NextPollStarts(persisted: Persisted, file: Option<string>, c: Collected)
      requires PolledWell(persisted, file, false) && Leaves(persisted.localId, c) && c.progress.next == persisted.nextCursor
      ensures Before(persisted) == c && ReadSoFar(persisted) == Content(file)
      ensures ReadyToPoll(persisted, file)
    {
      hide CacheOk, Tracks, DiskOk;
    }

    lemma ReadyLater(persisted: Persisted, file: Option<string>, later: Option<string>)
      requires ReadyToPoll(persisted, file) && Content(file) <= Content(later)
      ensures ReadyToPoll(persisted, later)
    {
      hide CacheOk, Tracks, DiskOk;
    }

    /** Poll the running invocation; its exit ends the turn. */
    method PollActive(id: string, file: Option<string>, exit: Option<Exit>) returns (r: Result<(), DriverError>)
      requires Valid() && SourceGrew(id, file) && id in sessions && sessions[id].active.Some?
      modifies this
      ensures r.Err? ==> r.error.CollectFailed?
      ensures r.Ok? ==> Valid() && Only(id) && Kept(id) && id in sessions && stdoutFiles == old(stdoutFiles)
      ensures var p := old(sessions)[id].persisted;
              var outcome := ActiveOutcome(p, old(Before(p)), file, exit);
              && (r.Ok? <==> outcome.Ok?)
              && (r.Ok? ==>
                    && Leaves(id, outcome.value)
                    && sessions[id] == Advanced(old(sessions)[id], outcome.value.progress.next, EndedTurns(exit)))
      ensures r.Ok? && exit.None? ==>
                var p := old(sessions)[id].persisted;
                && Before(sessions[id].persisted) == ActiveOutcome(p, old(Before(p)), file, exit).value
                && ReadSoFar(sessions[id].persisted) == Content(file)
      ensures r.Ok? ==>
                PollRecorded(old(StartOf(sessions[id].persisted)), old(sessions)[id].persisted, file, exit.Some?, exit.None?,
                             exit)
    {
      hide CacheOk, Tracks, DiskOk, ActiveOutcome, Before, SlotOk, ReadyToPoll, SourceGrew, CountersOk, Valid, PolledWell,
           Leaves, PollRecorded, StartOf, Keeps, ReadSoFar;
      var session := sessions[id];
      ghost var outcome := ActiveOutcome(session.persisted, Before(session.persisted), file, exit);
      CanPoll(id, file);
      InOrder(id);
      sessions := sessions[id := session.(active := None)];
      var refreshed := RefreshSource(session.persisted, file, exit);
      if refreshed.Err? {
        return Err(refreshed.error);
      }
      ghost var next := refreshed.value.nextCursor;
      AdvancedCounters(id, session, next, EndedTurns(exit), FindOr(stdoutFiles, id, {}));
      var persisted := refreshed.value;
      if exit.Some? {
        persisted := persisted.(turns := persisted.turns + 1);
        metadata := metadata[id := persisted];
        session := session.(persisted := persisted, active := None);
      } else {
        session := session.(persisted := persisted);
      }
      sessions := sessions[id := session];
      PolledElsewhere(refreshed.value, persisted, file, exit.Some? && config.collector.frame.source == Stdout);
      PolledInOrder(id, session, file, exit.Some? && config.collector.frame.source == Stdout);
      if exit.None? {
        NextPollStarts(session.persisted, file, outcome.value);
      }
      StillValid(id);
      r := Ok(());
    }

    /** What a session in order offers to an operation on it. */
    lemma InOrder(id: string)
      requires Valid() && id in sessions
      ensures CountersOk(id, sessions[id], FindOr(stdoutFiles, id, {})) && sessions[id].persisted.localId == id
      ensures id in metadata && (sessions[id].active.None? ==> metadata[id] == sessions[id].persisted)
      ensures DiskOk(FindOr(eventFiles, id, []), sessions[id].persisted.nextCursor)
      ensures id in eventCaches ==> CacheOk(eventCaches[id], FindOr(eventFiles, id, []))
    {
      hide CacheOk, Tracks, DiskOk, CursorOk;
      assert SlotOk(config, id, SlotOf(id));
    }

    /** A poll is well done whatever becomes of the counters it does not touch. */
    lemma PolledElsewhere(polled: Persisted, persisted: Persisted, file: Option<string>, flushed: bool)
      requires PolledWell(polled, file, flushed)
      requires persisted == polled.(turns := persisted.turns)
      ensures PolledWell(persisted, file, flushed)
    {
      hide CacheOk, Tracks, DiskOk;
    }

    /** Poll a journal while no invocation runs. */
    method PollIdle(id: string, file: Option<string>) returns (r: Result<(), DriverError>)
      requires Valid() && SourceGrew(id, file) && id in sessions && sessions[id].active.None?
      requires config.collector.frame.source == JournalFile
      modifies this
      ensures r.Err? ==> r.error.CollectFailed?
      ensures r.Ok? ==> Valid() && Only(id) && Kept(id) && id in sessions && stdoutFiles == old(stdoutFiles)
      ensures var p := old(sessions)[id].persisted;
              var outcome :=
                Idle(config.collector, Owner(p.localId, p.marker), p.invocations, old(Before(p)), Content(file));
              && (r.Ok? <==> outcome.Ok?)
              && (r.Ok? ==>
                    && Leaves(id, outcome.value)
                    && sessions[id] == Advanced(old(sessions)[id], outcome.value.progress.next, 0))
      ensures r.Ok? ==>
                PollRecorded(old(StartOf(sessions[id].persisted)), old(sessions)[id].persisted, file, true, false, None)
    {
      hide CacheOk, Tracks, DiskOk, Idle, Before, SlotOk, ReadyToPoll, SourceGrew, CountersOk, Valid, PolledWell, Leaves,
           PollRecorded, StartOf, Keeps, ReadSoFar;
      var session := sessions[id];
      InOrder(id);
      CanPoll(id, file);
      var refreshed := RefreshInactiveJournal(session.persisted, file);
      if refreshed.Err? {
        return Err(refreshed.error);
      }
      AdvancedCounters(id, session, refreshed.value.nextCursor, 0, FindOr(stdoutFiles, id, {}));
      session := session.(persisted := refreshed.value);
      metadata := metadata[id := session.persisted];
      sessions := sessions[id := session];
      PolledInOrder(id, session, file, false);
      StillValid(id);
      r := Ok(());
    }

    /** `attach`: poll the session, then return its events after the given cursor. */
    method Attach(id: string, after: nat, file: Option<string>, exit: Option<Exit>)
      returns (r: Result<seq<NormalizedEvent>, DriverError>)
      requires Valid() && SourceGrew(id, file)
      modifies this
      ensures id !in old(sessions) ==> r == Err(UnknownSession) && unchanged(this)
      ensures r.Ok? ==> Valid() && Only(id) && Kept(id) && id in sessions && r.value == EventsAfter(SlotOf(id).disk, after)
      ensures id in old(sessions) && old(sessions)[id].active.Some? ==>
                var p := old(sessions)[id].persisted;
                var outcome := ActiveOutcome(p, old(Before(p)), file, exit);
                && (r.Ok? <==> outcome.Ok?)
                && (r.Ok? ==>
                      && Leaves(id, outcome.value)
                      && sessions[id] == Advanced(old(sessions)[id], outcome.value.progress.next, EndedTurns(exit))
                      && (exit.None? ==> Before(sessions[id].persisted) == outcome.value
                                         && ReadSoFar(sessions[id].persisted) == Content(file)))
      ensures r.Ok? && old(sessions)[id].active.None? ==>
                sessions[id] == Advanced(old(sessions)[id], sessions[id].persisted.nextCursor, 0)
      ensures id in old(sessions) && old(sessions)[id].active.None? && config.collector.frame.source == Stdout ==>
                r.Ok? && unchanged(this)
      ensures id in old(sessions) && old(sessions)[id].active.None? && config.collector.frame.source == JournalFile ==>
                var p := old(sessions)[id].persisted;
                var outcome :=
                  Idle(config.collector, Owner(p.localId, p.marker), p.invocations, old(Before(p)), Content(file));
                (r.Ok? <==> outcome.Ok?) && (r.Ok? ==> Leaves(id, outcome.value))
      ensures r.Ok? && old(sessions)[id].active.Some? ==>
                PollRecorded(old(StartOf(sessions[id].persisted)), old(sessions)[id].persisted, file, exit.Some?, exit.None?,
                             exit)
      ensures r.Ok? && old(sessions)[id].active.None? && config.collector.frame.source == JournalFile ==>
                PollRecorded(old(StartOf(sessions[id].persisted)), old(sessions)[id].persisted, file, true, false, None)
    {
      hide Before, SlotOk, EventsAfter, Idle, Running, Completed, ReadSoFar, SourceGrew, ActiveOutcome, Leaves,
           PollRecorded, StartOf;
      if id !in sessions {
        return Err(UnknownSession);
      }
      if sessions[id].active.Some? {
        var polled := PollActive(id, file, exit);
        if polled.Err? {
          return Err(polled.error);
        }
      } else if config.collector.frame.source == JournalFile {
        var polled := PollIdle(id, file);
        if polled.Err? {
          return Err(polled.error);
        }
      }
      var events := CachedAfter(id, after);
      r := Ok(events);
    }

    /**
     The lifecycle of every session in every reachable state: a turn ended or
     running for each invocation at most, no invocation runs in a closed
     session, and the running one is the last to have been given a stdout.
     */
    lemma Lifecycle(id: string)
      requires Valid() && id in sessions
      ensures var p := sessions[id].persisted;
              && p.turns + ActiveCount(sessions[id]) <= p.invocations
              && (p.closed ==> sessions[id].active.None?)
              && (sessions[id].active.Some? ==> sessions[id].active.value == p.invocations)
              && (forall t | t in FindOr(stdoutFiles, id, {}) :: 1 <= t <= p.invocations)
    {
      InOrder(id);
    }

    /**
     The index and its file agree in every reachable state: the file lists the
     cursors from 1 up to the next one, and reading the index after any cursor is
     reading, filtering and sorting the file.
     */
    lemma IndexMirrorsFile(id: string, after: nat)
      requires Valid() && id in sessions
      ensures var disk := FindOr(eventFiles, id, []);
              && |disk| == sessions[id].persisted.nextCursor - 1
              && (forall i | 0 <= i < |disk| :: disk[i].cursor == i + 1)
              && (id in eventCaches ==>
                    && (forall c :: c in eventCaches[id].events <==> 1 <= c < sessions[id].persisted.nextCursor)
                    && CachedAfterInMemory(eventCaches[id], after) == CachedAfterOnDisk(disk, after))
    {
      hide CachedAfterInMemory, CachedAfterOnDisk, CountersOk;
      InOrder(id);
      if id in eventCaches {
        IndexAgreesWithDisk(eventCaches[id], FindOr(eventFiles, id, []), after);
      }
    }

    // ---- Ending a turn early, closing, resuming ------------------------------------------

    /** The outcome of a turn that is ended from outside: a journal is read once more after the exit. */
    ghost function EndedOutcome(p: Persisted, before: Collected, file: Option<string>, exit: Exit, later: Option<string>)
      : Result<Collected, CollectError>
    {
      var completed := ActiveOutcome(p, before, file, Some(exit));
      if config.collector.frame.source == JournalFile && completed.Ok? then
        Idle(config.collector, Owner(p.localId, p.marker), p.invocations, completed.value, Content(later))
      else completed
    }

    /** Collect the stopped invocation's events: its source with the exit, and a journal's remainder. */
    method CollectStopped(persisted: Persisted, file: Option<string>, exit: Exit, later: Option<string>)
      returns (r: Result<Persisted, DriverError>)
      requires ReadyToPoll(persisted, file) && Content(file) <= Content(later)
      modifies this`eventCaches, this`eventFiles, this`sourceCursors, this`sources
      ensures r.Err? ==> r.error.CollectFailed?
      ensures var outcome := EndedOutcome(persisted, old(Before(persisted)), file, exit, later);
              && (r.Ok? <==> outcome.Ok?)
              && (r.Ok? ==>
                    && r.value == persisted.(nextCursor := outcome.value.progress.next)
                    && PolledWell(r.value, if config.collector.frame.source == Stdout then file else later,
                                  config.collector.frame.source == Stdout)
                    && Leaves(persisted.localId, outcome.value))
      ensures r.Ok? ==> Kept(persisted.localId)
      ensures r.Ok? ==> eventCaches - {persisted.localId} == old(eventCaches) - {persisted.localId}
                        && eventFiles - {persisted.localId} == old(eventFiles) - {persisted.localId}
                        && sourceCursors - {persisted.localId} == old(sourceCursors) - {persisted.localId}
                        && sources - {persisted.localId} == old(sources) - {persisted.localId}
      ensures r.Ok? && config.collector.frame.source == Stdout ==>
                PollRecorded(old(StartOf(persisted)), persisted, file, true, false, Some(exit))
    {
      hide Before, ReadyToPoll, PolledWell, Leaves, PollRecorded, StartOf, ActiveOutcome, Idle;
      ghost var completed := ActiveOutcome(persisted, Before(persisted), file, Some(exit));
      r := RefreshSource(persisted, file, Some(exit));
      if r.Err? || config.collector.frame.source != JournalFile {
        return;
      }
      NextPollStarts(r.value, file, completed.value);
      ReadyLater(r.value, file, later);
      ghost var before, between := FindOr(old(eventFiles), persisted.localId, []), FindOr(eventFiles, persisted.localId, []);
      r := RefreshInactiveJournal(r.value, later);
      if r.Ok? {
        KeepsTransitive(before, between, FindOr(eventFiles, persisted.localId, []));
      }
    }

    /** Stop the running invocation and settle its turn. */
    method Settle(id: string, file: Option<string>, exit: Exit, later: Option<string>) returns (r: Result<(), DriverError>)
      requires Valid() && SourceGrew(id, file) && id in sessions && sessions[id].active.Some?
      requires Content(file) <= Content(later)
      modifies this
      ensures r.Err? ==> r.error.CollectFailed?
      ensures r.Ok? ==> Valid() && Only(id) && Kept(id) && id in sessions && stdoutFiles == old(stdoutFiles)
      ensures var p := old(sessions)[id].persisted;
              var outcome := EndedOutcome(p, old(Before(p)), file, exit, later);
              && (r.Ok? <==> outcome.Ok?)
              && (r.Ok? ==>
                    && Leaves(id, outcome.value)
                    && sessions[id] == Advanced(old(sessions)[id], outcome.value.progress.next, 1))
      ensures r.Ok? && config.collector.frame.source == Stdout ==>
                PollRecorded(old(StartOf(sessions[id].persisted)), old(sessions)[id].persisted, file, true, false, Some(exit))
    {
      hide CacheOk, Tracks, DiskOk, EndedOutcome, Before, SlotOk, ReadyToPoll, SourceGrew, CountersOk, Valid, PolledWell,
           Leaves, PollRecorded, StartOf;
      var session := sessions[id];
      CanPoll(id, file);
      InOrder(id);
      sessions := sessions[id := session.(active := None)];
      var collected := CollectStopped(session.persisted, file, exit, later);
      if collected.Err? {
        return Err(collected.error);
      }
      var persisted := collected.value.(turns := collected.value.turns + 1);
      AdvancedCounters(id, session, persisted.nextCursor, 1, FindOr(stdoutFiles, id, {}));
      metadata := metadata[id := persisted];
      session := session.(persisted := persisted, active := None);
      sessions := sessions[id := session];
      ghost var seenFile := if config.collector.frame.source == Stdout then file else later;
      PolledElsewhere(collected.value, persisted, seenFile, config.collector.frame.source == Stdout);
      PolledInOrder(id, session, seenFile, config.collector.frame.source == Stdout);
      StillValid(id);
      r := Ok(());
    }

    /** The turn was cut off: one event was indexed, its source was not read again, and the cache still has its turn. */
    twostate predicate Interrupted(id: string)
      requires id in old(sessions)
      reads this
    {
      && sourceCursors == old(sourceCursors) && sources == old(sources)
      && id in eventCaches && eventCaches[id].turn == old(sessions)[id].persisted.invocations
      && id in sessions && sessions[id].persisted.nextCursor == old(sessions)[id].persisted.nextCursor + 1
    }

    /** Record that the invocation was cancelled, without asking its source. */
    method RecordCancelled(id: string)
      requires Valid() && id in sessions && sessions[id].active.Some?
      modifies this
      ensures Valid() && Only(id) && id in sessions && stdoutFiles == old(stdoutFiles)
      ensures var before := old(sessions)[id];
              && sessions[id] == Advanced(before, before.persisted.nextCursor + 1, 1)
              && SlotOf(id).disk == old(SlotOf(id)).disk + [CancelledEvent(before.persisted)]
      ensures Interrupted(id)
    {
      hide CacheOk, Tracks, DiskOk, SlotOk, CountersOk, Valid, CursorOk, CancelledEvent;
      var session := sessions[id];
      InOrder(id);
      CursorInOrder(id);
      var persisted := session.persisted;
      DiskNext(FindOr(eventFiles, id, []), persisted.nextCursor);
      IndexEvent(persisted, CancelledEvent(persisted));
      AdvancedCounters(id, session, persisted.nextCursor + 1, 1, FindOr(stdoutFiles, id, {}));
      ghost var before := session;
      persisted := persisted.(nextCursor := persisted.nextCursor + 1, turns := persisted.turns + 1);
      metadata := metadata[id := persisted];
      session := session.(persisted := persisted, active := None);
      sessions := sessions[id := session];
      CursorKept(config.collector.frame, id, before, session, Find(sourceCursors, id), FindOr(sources, id, ""));
      InOrderAgain(id);
      StillValid(id);
    }

    /** Index one event of the driver's own. */
    method IndexEvent(persisted: Persisted, event: NormalizedEvent)
      requires DiskOk(FindOr(eventFiles, persisted.localId, []), |FindOr(eventFiles, persisted.localId, [])| + 1)
      requires persisted.localId in eventCaches ==>
                 CacheOk(eventCaches[persisted.localId], FindOr(eventFiles, persisted.localId, []))
      requires event.cursor == |FindOr(eventFiles, persisted.localId, [])| + 1
      modifies this`eventCaches, this`eventFiles
      ensures var id := persisted.localId;
              && eventFiles == old(eventFiles)[id := FindOr(old(eventFiles), id, []) + [event]]
              && DiskOk(eventFiles[id], event.cursor + 1)
              && id in eventCaches && CacheOk(eventCaches[id], eventFiles[id])
              && eventCaches[id].turn == persisted.invocations
              && eventCaches - {id} == old(eventCaches) - {id}
    {
      hide CacheOk, Applied;
      var id := persisted.localId;
      ghost var disk := FindOr(eventFiles, id, []);
      var cache := TakeEventCache(persisted);
      PersistEventCache(id, cache, [event], [], [event]);
      EventApplied(disk, event);
    }

    lemma CursorInOrder(id: string)
      requires Valid() && id in sessions
      ensures id in sourceCursors ==>
                CursorOk(config.collector.frame, id, sessions[id], sourceCursors[id], FindOr(sources, id, ""))
    {
      hide CacheOk, Tracks, DiskOk, CursorOk, CountersOk;
      assert SlotOk(config, id, SlotOf(id));
    }

    /** The parts that make a session in order. */
    lemma InOrderAgain(id: string)
      requires id in sessions && CountersOk(id, sessions[id], FindOr(stdoutFiles, id, {}))
      requires id in metadata && (sessions[id].active.None? ==> metadata[id] == sessions[id].persisted)
      requires DiskOk(FindOr(eventFiles, id, []), sessions[id].persisted.nextCursor)
      requires id in eventCaches ==> CacheOk(eventCaches[id], FindOr(eventFiles, id, []))
      requires id in sourceCursors ==>
                 CursorOk(config.collector.frame, id, sessions[id], sourceCursors[id], FindOr(sources, id, ""))
      ensures SlotOk(config, id, SlotOf(id))
    {
      hide CacheOk, Tracks, DiskOk, CursorOk, CountersOk;
    }

    /** Whether the session can be stopped: only collecting what a cancel command left can fail. */
    ghost predicate Stoppable(id: string, file: Option<string>, exit: Exit, later: Option<string>)
      reads this
    {
      && id in sessions
      && (sessions[id].active.Some? && config.hasCancelCommand ==>
            var p := sessions[id].persisted; EndedOutcome(p, Before(p), file, exit, later).Ok?)
    }

    /** What stopping does to the index: nothing, one cancellation, or what the stopped client reported. */
    twostate predicate StoppedAs(id: string, file: Option<string>, exit: Exit, later: Option<string>)
      requires old(Stoppable(id, file, exit, later))
      reads this
    {
      var p := old(sessions)[id].persisted;
      if old(sessions)[id].active.None? then eventFiles == old(eventFiles)
      else if !config.hasCancelCommand then SlotOf(id).disk == old(SlotOf(id)).disk + [CancelledEvent(p)]
      else
        && Leaves(id, EndedOutcome(p, old(Before(p)), file, exit, later).value)
        && (config.collector.frame.source == Stdout ==>
              PollRecorded(old(StartOf(p)), p, file, true, false, Some(exit)))
    }

    /**
     `cancel`: without a cancel command the driver records the cancellation
     itself; with one, the stopped client's own report decides. Either way the
     turn is over. An idle session is left alone.
     */
    method Cancel(id: string, file: Option<string>, exit: Exit, later: Option<string>) returns (r: Result<(), DriverError>)
      requires Valid() && SourceGrew(id, file) && Content(file) <= Content(later)
      modifies this
      ensures r.Ok? <==> old(Stoppable(id, file, exit, later))
      ensures r.Err? ==> if id in old(sessions) then r.error.CollectFailed? else r.error.UnknownSession?
      ensures r.Ok? ==> Valid() && Only(id) && Kept(id) && id in sessions && stdoutFiles == old(stdoutFiles)
      ensures r.Ok? ==> StoppedAs(id, file, exit, later)
      ensures r.Ok? ==> sessions[id] == Stopped(old(sessions)[id], sessions[id].persisted.nextCursor)
      ensures id in old(sessions) && old(sessions)[id].active.None? ==> unchanged(this)
      ensures r.Ok? && old(sessions)[id].active.Some? && !config.hasCancelCommand ==> Interrupted(id)
    {
      hide Valid, SourceGrew, Before, EndedOutcome, Leaves, Find, FindOr, PollRecorded, StartOf;
      if id !in sessions {
        return Err(UnknownSession);
      }
      r := Ok(());
      if sessions[id].active.Some? {
        if config.hasCancelCommand {
          r := Settle(id, file, exit, later);
        } else {
          RecordCancelled(id);
        }
      }
    }

    /** `force_stop_session`: the killed client's exit ends the turn; an idle session is left alone. */
    method ForceStopSession(id: string, file: Option<string>, exit: Exit, later: Option<string>)
      returns (r: Result<(), DriverError>)
      requires Valid() && SourceGrew(id, file) && Content(file) <= Content(later)
      modifies this
      ensures r.Err? ==> if id in old(sessions) then r.error.CollectFailed? else r.error.UnknownSession?
      ensures r.Ok? ==> Valid() && Only(id) && Kept(id) && id in sessions && stdoutFiles == old(stdoutFiles)
      ensures id in old(sessions) && old(sessions)[id].active.None? ==>
                r.Ok? && unchanged(this)
      ensures id in old(sessions) && old(sessions)[id].active.Some? ==>
                var p := old(sessions)[id].persisted;
                var outcome := EndedOutcome(p, old(Before(p)), file, exit, later);
                && (r.Ok? <==> outcome.Ok?)
                && (r.Ok? ==> Leaves(id, outcome.value)
                              && sessions[id] == Advanced(old(sessions)[id], outcome.value.progress.next, 1))
      ensures r.Ok? && id in old(sessions) && old(sessions)[id].active.Some? && config.collector.frame.source == Stdout ==>
                PollRecorded(old(StartOf(sessions[id].persisted)), old(sessions)[id].persisted, file, true, false, Some(exit))
    {
      hide Valid, SourceGrew, Before, EndedOutcome, Leaves, PollRecorded, StartOf;
      if id !in sessions {
        return Err(UnknownSession);
      }
      r := Ok(());
      if sessions[id].active.Some? {
        r := Settle(id, file, exit, later);
      }
    }

    /** Mark an idle session closed, in memory and in its metadata. */
    method MarkClosed(id: string, deleted: bool)
      requires Valid() && id in sessions && sessions[id].active.None?
      modifies this`sessions, this`metadata
      ensures Valid() && Only(id)
      ensures sessions == old(sessions)[id := ClosedSession(old(sessions)[id], deleted)]
      ensures SameCollection()
    {
      hide CacheOk, Tracks, DiskOk, SlotOk, Valid;
      InOrder(id);
      CursorInOrder(id);
      ghost var before := sessions[id];
      var session := ClosedSession(sessions[id], deleted);
      sessions := sessions[id := session];
      metadata := metadata[id := session.persisted];
      CursorKept(config.collector.frame, id, before, session, Find(sourceCursors, id), FindOr(sources, id, ""));
      InOrderAgain(id);
      StillValid(id);
    }

    /**
     `close`: a running turn is stopped first, and closing succeeds exactly if
     that does; closing an idle session touches nothing else, closing it again
     nothing at all.
     */
    method Close(id: string, file: Option<string>, exit: Exit, later: Option<string>) returns (r: Result<(), DriverError>)
      requires Valid() && SourceGrew(id, file) && Content(file) <= Content(later)
      modifies this
      ensures r.Ok? <==> old(Stoppable(id, file, exit, later))
      ensures r.Err? ==> if id in old(sessions) then r.error.CollectFailed? else r.error.UnknownSession?
      ensures r.Ok? ==> Valid() && Only(id) && Kept(id) && id in sessions && stdoutFiles == old(stdoutFiles)
      ensures r.Ok? ==> StoppedAs(id, file, exit, later)
      ensures r.Ok? ==> sessions[id] == ClosedSession(Stopped(old(sessions)[id], sessions[id].persisted.nextCursor), false)
      ensures r.Ok? && old(sessions)[id].active.None? ==>
                sessions == old(sessions)[id := ClosedSession(old(sessions)[id], false)] && SameCollection()
      ensures r.Ok? && old(sessions)[id].persisted.closed ==> unchanged(this)
    {
      hide Valid, SourceGrew, Before, EndedOutcome, Leaves, CancelledEvent, Find, FindOr, PollRecorded, StartOf;
      if id in sessions {
        Lifecycle(id);
      }
      r := Cancel(id, file, exit, later);
      if r.Err? {
        return;
      }
      if !sessions[id].persisted.closed {
        MarkClosed(id, false);
      }
    }

    /** Whether deletion needs the harness's command: the session was used and is not deleted yet. */
    predicate NeedsDeletion(session: ExecSession) {
      session.persisted.invocations > 0 && !(session.persisted.closed && session.deleted)
    }

    /**
     `close_delete`: like `close`, and a session the harness knows of is deleted
     through its command; without a command that is unsupported and the session,
     its turn stopped, stays open.
     */
    method CloseDelete(id: string, file: Option<string>, exit: Exit, later: Option<string>)
      returns (r: Result<(), DriverError>)
      requires Valid() && SourceGrew(id, file) && Content(file) <= Content(later)
      modifies this
      ensures r.Ok? <==> old(Stoppable(id, file, exit, later))
                         && (NeedsDeletion(old(sessions)[id]) ==> config.hasCloseDeleteCommand)
      ensures old(Stoppable(id, file, exit, later)) ==>
                && Valid() && Only(id) && Kept(id) && id in sessions && stdoutFiles == old(stdoutFiles)
                && StoppedAs(id, file, exit, later)
                && (r.Err? ==> r.error == Unsupported)
                && var stopped := Stopped(old(sessions)[id], sessions[id].persisted.nextCursor);
                   sessions[id] == if r.Err? then stopped else ClosedSession(stopped, stopped.persisted.invocations > 0)
      ensures id in old(sessions) && old(sessions)[id].active.None? ==>
                && SameCollection()
                && (r.Err? || (old(sessions)[id].persisted.closed && old(sessions)[id].deleted) ==> unchanged(this))
      ensures !old(Stoppable(id, file, exit, later)) ==>
                r.Err? && if id in old(sessions) then r.error.CollectFailed? else r.error.UnknownSession?
    {
      hide Valid, SourceGrew, Before, EndedOutcome, Leaves, CancelledEvent, Find, FindOr, Stoppable, PollRecorded, StartOf,
           Keeps;
      r := Cancel(id, file, exit, later);
      if r.Err? {
        return;
      }
      var session := sessions[id];
      if session.persisted.closed && session.deleted {
        return Ok(());
      }
      if session.persisted.invocations == 0 {
        MarkClosed(id, false);
        return Ok(());
      }
      if !config.hasCloseDeleteCommand {
        return Err(Unsupported);
      }
      MarkClosed(id, true);
    }

    /** `resume`: reopen from the metadata; without a resume command a journal is indexed anew. */
    method Resume(id: string, file: Option<string>) returns (r: Result<(), DriverError>)
      requires Valid()
      modifies this
      ensures id in old(sessions) && old(sessions)[id].active.Some? ==> r == Err(StillActive) && unchanged(this)
      ensures id !in old(sessions) ==> r == Err(NoMetadata) && unchanged(this)
      ensures r.Ok? ==> Valid() && Only(id) && id in sessions && stdoutFiles == old(stdoutFiles)
      ensures r.Ok? ==>
                var before := old(sessions)[id];
                sessions[id] == ExecSession(before.persisted.(nextCursor := sessions[id].persisted.nextCursor), None, false)
      ensures id in old(sessions) && old(sessions)[id].active.None? && !Reindexes() ==>
                && r.Ok? && eventFiles == old(eventFiles) && sessions[id].persisted == old(sessions)[id].persisted
                && eventCaches == old(eventCaches) - {id} && sourceCursors == old(sourceCursors) - {id}
      ensures id in old(sessions) && old(sessions)[id].active.None? && Reindexes() ==>
                var p := old(sessions)[id].persisted;
                var outcome := Idle(config.collector, Owner(id, p.marker), p.invocations, NOTHING_COLLECTED, Content(file));
                && (r.Ok? <==> outcome.Ok?)
                && (r.Ok? ==> Leaves(id, outcome.value) && sessions[id].persisted.nextCursor == outcome.value.progress.next)
      ensures r.Ok? && Reindexes() ==>
                PollRecorded(PollStart(0, map[], []), old(sessions)[id].persisted, file, true, false, None)
    {
      hide CacheOk, Tracks, DiskOk, SlotOk, CountersOk, Idle, PolledWell, Leaves, Valid, CursorOk, PollRecorded;
      if id in sessions && sessions[id].active.Some? {
        return Err(StillActive);
      }
      MetadataOfSession(id);
      if id !in metadata {
        return Err(NoMetadata);
      }
      InOrder(id);
      ghost var before := sessions[id];
      var persisted := metadata[id];
      sourceCursors := sourceCursors - {id};
      eventCaches := eventCaches - {id};
      if Reindexes() {
        var rebuilt := Reindex(persisted, file);
        if rebuilt.Err? {
          return Err(rebuilt.error);
        }
        persisted := rebuilt.value;
      }
      metadata := metadata[id := persisted];
      sessions := sessions[id := ExecSession(persisted, None, false)];
      CountersResumed(id, before, persisted, FindOr(stdoutFiles, id, {}));
      if Reindexes() {
        PolledInOrder(id, sessions[id], file, false);
      } else {
        InOrderAgain(id);
      }
      StillValid(id);
      r := Ok(());
    }

    /** Remove the event file and collect the journal again from its beginning. */
    method Reindex(persisted: Persisted, file: Option<string>) returns (r: Result<Persisted, DriverError>)
      requires persisted.localId !in sourceCursors && persisted.localId !in eventCaches && Reindexes()
      modifies this`eventCaches, this`eventFiles, this`sourceCursors, this`sources
      ensures r.Err? ==> r.error.CollectFailed?
      ensures var owner := Owner(persisted.localId, persisted.marker);
              var outcome := Idle(config.collector, owner, persisted.invocations, NOTHING_COLLECTED, Content(file));
              && (r.Ok? <==> outcome.Ok?)
              && (r.Ok? ==> r.value == persisted.(nextCursor := outcome.value.progress.next)
                            && PolledWell(r.value, file, false) && Leaves(persisted.localId, outcome.value))
      ensures r.Ok? ==> eventCaches - {persisted.localId} == old(eventCaches) - {persisted.localId}
                        && eventFiles - {persisted.localId} == old(eventFiles) - {persisted.localId}
                        && sourceCursors - {persisted.localId} == old(sourceCursors) - {persisted.localId}
                        && sources - {persisted.localId} == old(sources) - {persisted.localId}
      ensures r.Ok? ==> PollRecorded(PollStart(0, map[], []), persisted, file, true, false, None)
    {
      hide Idle, PolledWell, Leaves, Before, ReadyToPoll, StartOf, Recorded;
      eventFiles := eventFiles - {persisted.localId};
      FreshStart(persisted.(nextCursor := 1), file);
      r := RefreshInactiveJournal(persisted.(nextCursor := 1), file);
    }

    lemma MetadataOfSession(id: string)
      requires Valid()
      ensures id in metadata <==> id in sessions
    {
      hide CacheOk, Tracks, DiskOk, CursorOk, CountersOk;
      assert SlotOk(config, id, SlotOf(id));
    }

    /** Without cursor, cache and file, everything is collected from the beginning. */
    lemma FreshStart(persisted: Persisted, file: Option<string>)
      requires persisted.localId !in sourceCursors && persisted.localId !in eventCaches
      requires FindOr(eventFiles, persisted.localId, []) == [] && persisted.nextCursor == 1
      ensures DiskOk(FindOr(eventFiles, persisted.localId, []), 1)
      ensures ReadyToPoll(persisted, file) && Before(persisted) == NOTHING_COLLECTED
      ensures StartOf(persisted) == PollStart(0, map[], [])
    {
      hide Tail, WellFramed, Records;
      FreshCursorTracks(config.collector.frame,
                        EnteredCursor(None, PathOf(config.collector.frame, persisted.localId, persisted.invocations),
                                      persisted.invocations));
    }

    /** Resuming rebuilds the index of a journal unless a resume command is declared. */
    predicate Reindexes() { !config.hasResumeControl && config.collector.frame.source == JournalFile }
  }

  const NOTHING_COLLECTED := Collected(0, Progress({}, 1, []))

  /** The terminal event that the driver itself records for a cancelled turn. */
  function CancelledEvent(p: Persisted): (e: NormalizedEvent)
    ensures e.cursor == p.nextCursor && e.event == TerminalCancelled
  {
    NormalizedEvent(TurnPrefix(Owner(p.localId, p.marker), p.invocations) + ":cancelled", p.nextCursor, p.localId, p.marker,
                    TerminalCancelled, Object(map["status" := Str("cancelled")]))
  }

  lemma EventApplied(disk: seq<NormalizedEvent>, event: NormalizedEvent)
    requires event.cursor == |disk| + 1
    ensures Applied(disk, [event]) == disk + [event]
    ensures DiskOk(disk, |disk| + 1) ==> DiskOk(disk + [event], |disk| + 2)
  {
    hide Applied;
    AppliedSnoc(disk, [], event);
    AppliedNothing(disk);
    assert [] + [event] == [event];
  }

  lemma DiskNext(disk: seq<NormalizedEvent>, next: nat)
    requires DiskOk(disk, next)
    ensures next == |disk| + 1
  {}

  /** A reopened session keeps its counters. */
  lemma CountersResumed(id: string, before: ExecSession, persisted: Persisted, stdouts: set<nat>)
    requires CountersOk(id, before, stdouts) && persisted == before.persisted.(nextCursor := persisted.nextCursor)
    ensures CountersOk(id, ExecSession(persisted, None, false), stdouts)
  {}

  /** The session once a running turn, if any, is over. */
  function Stopped(session: ExecSession, next: nat): ExecSession {
    Advanced(session, next, ActiveCount(session))
  }

  function ClosedSession(session: ExecSession, deleted: bool): ExecSession {
    session.(persisted := session.persisted.(closed := true), deleted := session.deleted || deleted)
  }

  function EndedTurns(exit: Option<Exit>): nat { if exit.Some? then 1 else 0 }

  /** The session after a poll: the next cursor moves, and an exit ends the turn. */
  function Advanced(session: ExecSession, next: nat, ended: nat): ExecSession {
    session.(persisted := session.persisted.(nextCursor := next, turns := session.persisted.turns + ended),
             active := if ended == 0 then session.active else None)
  }

  /** A turn ends only if an invocation runs, so the counters stay in order. */
  lemma AdvancedCounters(id: string, session: ExecSession, next: nat, ended: nat, stdouts: set<nat>)
    requires CountersOk(id, session, stdouts) && ended <= ActiveCount(session)
    ensures CountersOk(id, Advanced(session, next, ended), stdouts)
  {}


  lemma FindOrAlike<V>(before: map<string, V>, after: map<string, V>, k: string, default: V)
    requires Find(before, k) == Find(after, k)
    ensures FindOr(before, k, default) == FindOr(after, k, default)
  {}

  lemma NewCounters(persisted: Persisted)
    requires persisted.turns == persisted.invocations == 0
    ensures CountersOk(persisted.localId, ExecSession(persisted, None, false), {})
  {}

  /** The next invocation is new to the stdout files. */
  lemma CountersLaunched(id: string, before: ExecSession, stdouts: set<nat>)
    requires CountersOk(id, before, stdouts) && before.active.None? && !before.persisted.closed
    ensures var turn := before.persisted.invocations + 1;
            && turn !in stdouts
            && CountersOk(id, before.(persisted := before.persisted.(invocations := turn), active := Some(turn)),
                          stdouts + {turn})
  {}

  /** Reopening touches no counter. */
  lemma CountersReopened(id: string, before: ExecSession, after: ExecSession, stdouts: set<nat>)
    requires CountersOk(id, before, stdouts) && after == before.(persisted := before.persisted.(closed := false))
    ensures CountersOk(id, after, stdouts)
  {}

  lemma NothingVisible(frame: FrameConfig)
    ensures VisibleRecords(frame, "", false) == []
  {}

  /** A cursor stays in order when the next invocation starts: it is not the one of the new stdout. */
  lemma CursorLaunched(frame: FrameConfig, id: string, before: ExecSession, after: ExecSession,
                       cursor: Option<SourceCursor>, read: string)
    requires after.persisted.invocations == before.persisted.invocations + 1
    requires after.active == Some(after.persisted.invocations)
    ensures cursor.Some? && CursorOk(frame, id, before, cursor.value, read) ==> CursorOk(frame, id, after, cursor.value, read)
  {
    hide Tracks;
  }

  /** A cursor stays in order when the session's counters stay and no invocation starts. */
  lemma CursorKept(frame: FrameConfig, id: string, before: ExecSession, after: ExecSession, cursor: Option<SourceCursor>,
                   read: string)
    requires after.persisted.invocations == before.persisted.invocations
    requires after.active == before.active || after.active.None?
    ensures cursor.Some? && CursorOk(frame, id, before, cursor.value, read) ==> CursorOk(frame, id, after, cursor.value, read)
  {
    hide Tracks;
  }

  /** Maps that differ at most at one key agree everywhere else. */
  lemma ElsewhereAlike<V>(before: map<string, V>, after: map<string, V>, id: string, k: string)
    requires after - {id} == before - {id} && k != id
    ensures Find(before, k) == Find(after, k)
  {
    assert k in before - {id} <==> k in after - {id};
    assert k in before ==> (before - {id})[k] == before[k];
    assert k in after ==> (after - {id})[k] == after[k];
  }

  lemma UntakenFrom(config: CollectorConfig, taken: nat, file: string, finished: bool)
    requires taken <= |VisibleRecords(config.frame, file, finished)|
    ensures Untaken(config, taken, file, finished) == VisibleRecords(config.frame, file, finished)[taken..]
  {}

  lemma IdsAppend(a: seq<NormalizedEvent>, b: seq<NormalizedEvent>)
    ensures Ids(a + b) == Ids(a) + Ids(b)
  {
    assert forall e :: e in a + b <==> e in a || e in b;
  }

  lemma ConsumedTracks(frame: FrameConfig, cursor: SourceCursor, read: string, n: nat)
    requires n <= |cursor.records|
    ensures Tracks(frame, cursor, read) ==>
              Tracks(frame, cursor.(records := cursor.records[n..], recordBase := cursor.recordBase + n), read)
  {
    hide Tail, WellFramed, Records;
  }

  lemma ReloadedAgrees(disk: seq<NormalizedEvent>, after: nat)
    requires DiskOk(disk, |disk| + 1)
    ensures CachedAfterOnDisk(disk, after) == EventsAfter(disk, after)
  {
    hide Retained, Arranged;
    RetainedTail(disk, after);
    AlreadySorted(EventsAfter(disk, after));
  }
}
