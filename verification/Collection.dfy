/**
 Collecting a whole turn through the driver: attach again and again while the
 invocation runs, and once more after its exit.
 */
module Collection {
  import opened Prelude
  import opened Framing
  import opened Events
  import opened EventIndex
  import opened Polls
  import opened Exactness
  import opened Driver

  /** The turn as one completed poll over the whole source would collect it. */
  ghost function CollectedAtOnce(driver: PerInvocationDriver, p: Persisted, before: Collected, whole: string, exit: Exit)
    : Result<Collected, CollectError>
  {
    var config := driver.config.collector;
    Completed(config, Owner(p.localId, p.marker), p.invocations, before, whole,
              ClassifyExit(config.exit, exit, config.frame.parse))
  }

  /** The turn as the running polls and the completed one collect it. */
  ghost function CollectedInPolls(driver: PerInvocationDriver, p: Persisted, before: Collected, polls: seq<string>,
                                  whole: string, exit: Exit): Result<Collected, CollectError>
  {
    var polled := RunPolls(driver.config.collector, Owner(p.localId, p.marker), p.invocations, before, polls);
    if polled.Err? then polled else CollectedAtOnce(driver, p, polled.value, whole, exit)
  }

  /** The driver has collected the session this far. */
  ghost predicate Left(driver: PerInvocationDriver, id: string, c: Collected)
    reads driver
  {
    driver.Leaves(id, c) && id in driver.sessions && driver.sessions[id].persisted.nextCursor == c.progress.next
  }

  lemma LeftOnce(driver: PerInvocationDriver, id: string, c: Collected, d: Collected)
    requires Left(driver, id, c) && Left(driver, id, d)
    ensures c == d
  {}

  lemma RunNext(config: CollectorConfig, owner: Owner, turn: nat, c: Collected, files: seq<string>)
    ensures RunPolls(config, owner, turn, c, files)
         == if files == [] then Ok(c)
            else
              var step := Running(config, owner, turn, c, files[0]);
              if step.Err? then step else RunPolls(config, owner, turn, step.value, files[1..])
  {
    hide Running;
  }

  /** The records taken so far are visible in what was read. */
  lemma StartVisible(driver: PerInvocationDriver, id: string)
    requires driver.Valid() && id in driver.sessions && driver.sessions[id].active.Some?
    ensures driver.sessions[id].persisted.localId == id
    ensures var p := driver.sessions[id].persisted;
            driver.Before(p).taken <= |VisibleRecords(driver.config.collector.frame, driver.ReadSoFar(p), false)|
  {
    hide WellFramed, Tail, Records;
    driver.InOrder(id);
    driver.CanPoll(id, Some(driver.ReadSoFar(driver.sessions[id].persisted)));
  }

  /**
   A turn collected through the driver. Whether the attaches succeed, and what the
   index, its file, the seen ids and the next cursor are afterwards, is what the
   running polls and the completed one come to.
   */
  method AttachAll(driver: PerInvocationDriver, id: string, polls: seq<string>, whole: string, exit: Exit)
    returns (r: Result<seq<NormalizedEvent>, DriverError>)
    requires driver.Valid() && id in driver.sessions && driver.sessions[id].active.Some?
    requires driver.sessions[id].persisted.localId == id
    requires Growing([driver.ReadSoFar(driver.sessions[id].persisted)] + polls + [whole])
    modifies driver
    ensures var p := old(driver.sessions)[id].persisted;
            var outcome := CollectedInPolls(driver, p, old(driver.Before(p)), polls, whole, exit);
            && (r.Ok? <==> outcome.Ok?)
            && (r.Ok? ==>
                  && driver.Valid() && Left(driver, id, outcome.value)
                  && driver.sessions[id] == Advanced(old(driver.sessions)[id], outcome.value.progress.next, 1)
                  && r.value == EventsAfter(driver.SlotOf(id).disk, 0))
  {
    hide Growing, Running, Completed, ClassifyExit, EventsAfter, RunPolls, PerInvocationDriver.Before,
         PerInvocationDriver.ReadSoFar, PerInvocationDriver.Valid, PerInvocationDriver.Leaves,
         PerInvocationDriver.PollRecorded, PerInvocationDriver.StartOf, PerInvocationDriver.Only, PerInvocationDriver.Kept;
    ghost var before := driver.sessions[id];
    ghost var p, config := before.persisted, driver.config.collector;
    ghost var owner, start := Owner(p.localId, p.marker), driver.Before(p);
    ghost var read := driver.ReadSoFar(p);
    assert polls[0..] == polls;
    for i := 0 to |polls|
      invariant driver.Valid() && id in driver.sessions
      invariant driver.sessions[id] == Advanced(before, driver.sessions[id].persisted.nextCursor, 0)
      invariant driver.ReadSoFar(driver.sessions[id].persisted) == read && Growing([read] + polls[i..] + [whole])
      invariant RunPolls(config, owner, p.invocations, start, polls)
             == RunPolls(config, owner, p.invocations, driver.Before(driver.sessions[id].persisted), polls[i..])
    {
      GrowingBefore(read, polls[i..], whole);
      RunNext(config, owner, p.invocations, driver.Before(driver.sessions[id].persisted), polls[i..]);
      assert polls[i..][0] == polls[i] && polls[i..][1..] == polls[i + 1..];
      var attached := driver.Attach(id, 0, Some(polls[i]), None);
      if attached.Err? {
        return Err(attached.error);
      }
      read := polls[i];
    }
    assert polls[|polls|..] == [];
    RunNext(config, owner, p.invocations, driver.Before(driver.sessions[id].persisted), []);
    GrowingBefore(read, [], whole);
    r := driver.Attach(id, 0, Some(whole), Some(exit));
  }

  /**
   Poll independence for the driver, exactly. If one completed poll could collect
   the turn, then attaching on the way collects the same, provided the running
   polls take only covered records, and does not if they take an uncovered one that
   is new and alone with its source.
   */
  method CollectTurn(driver: PerInvocationDriver, id: string, polls: seq<string>, whole: string, exit: Exit)
    returns (r: Result<seq<NormalizedEvent>, DriverError>)
    requires driver.Valid() && id in driver.sessions && driver.sessions[id].active.Some?
    requires Growing([driver.ReadSoFar(driver.sessions[id].persisted)] + polls + [whole])
    modifies driver
    ensures var p := old(driver.sessions)[id].persisted;
            var outcome := CollectedInPolls(driver, p, old(driver.Before(p)), polls, whole, exit);
            && (r.Ok? <==> outcome.Ok?)
            && (r.Ok? ==>
                  && driver.Valid() && Left(driver, id, outcome.value)
                  && driver.sessions[id] == Advanced(old(driver.sessions)[id], outcome.value.progress.next, 1)
                  && r.value == EventsAfter(driver.SlotOf(id).disk, 0))
    ensures var p, before := old(driver.sessions)[id].persisted, old(driver.Before(driver.sessions[id].persisted));
            var config, owner := driver.config.collector, Owner(p.localId, p.marker);
            var once := CollectedAtOnce(driver, p, before, whole, exit);
            var covered := AllCovered(config.mapping, TakenBy(config, before.taken, polls));
            && (once.Ok? && covered ==> r.Ok? && Left(driver, id, once.value))
            && (once.Ok? && TakesAlone(config, owner, p.invocations, before, polls, whole) ==>
                  !(r.Ok? && Left(driver, id, once.value)))
  {
    hide Growing, AllCovered, TakesAlone, TakenBy, Left, CollectedAtOnce, VisibleRecords;
    ghost var p, config := driver.sessions[id].persisted, driver.config.collector;
    ghost var before, read := driver.Before(p), driver.ReadSoFar(p);
    ghost var owner, once := Owner(p.localId, p.marker), CollectedAtOnce(driver, p, before, whole, exit);
    StartVisible(driver, id);
    TurnIndependence(driver, p, before, read, polls, whole, exit);
    r := AttachAll(driver, id, polls, whole, exit);
    if r.Ok? && once.Ok? && Left(driver, id, once.value) {
      LeftOnce(driver, id, once.value, CollectedInPolls(driver, p, before, polls, whole, exit).value);
    }
  }

  lemma TurnIndependence(driver: PerInvocationDriver, p: Persisted, before: Collected, read: string, polls: seq<string>,
                         whole: string, exit: Exit)
    requires Growing([read] + polls + [whole])
    requires before.taken <= |VisibleRecords(driver.config.collector.frame, read, false)|
    ensures var config, owner := driver.config.collector, Owner(p.localId, p.marker);
            var once := CollectedAtOnce(driver, p, before, whole, exit);
            var same := CollectedInPolls(driver, p, before, polls, whole, exit) == once;
            var covered := AllCovered(config.mapping, TakenBy(config, before.taken, polls));
            && (once.Ok? && covered ==> same)
            && (once.Ok? && TakesAlone(config, owner, p.invocations, before, polls, whole) ==> !same)
  {
    hide Growing, AllCovered, TakesAlone, TakenBy, Completed, RunPolls, VisibleRecords;
    var config, owner := driver.config.collector, Owner(p.localId, p.marker);
    var expected := ClassifyExit(config.exit, exit, config.frame.parse);
    if CollectedAtOnce(driver, p, before, whole, exit).Ok? {
      if AllCovered(config.mapping, TakenBy(config, before.taken, polls)) {
        PollIndependence(config, owner, p.invocations, before, read, polls, whole, expected);
      }
      if TakesAlone(config, owner, p.invocations, before, polls, whole) {
        AloneIsUncovered(config, owner, p.invocations, before, polls, whole);
        PollIndependenceExactly(config, owner, p.invocations, before, read, polls, whole, expected);
      }
    }
  }

  // ---- Waiting for a terminal event ----------------------------------------------------------

  /** Why waiting for a terminal event ends. */
  datatype CollectionOutcome = SawTerminal | DeadlinePassed | AttachFailed(error: DriverError) | ClientExited

  predicate AnyTerminal(events: seq<NormalizedEvent>) { exists i | 0 <= i < |events| :: IsTerminal(events[i].event) }

  predicate TerminalIn(index: seq<Stamp>) { exists i | 0 <= i < |index| :: IsTerminal(index[i].event) }

  lemma TerminalsShown(disk: seq<NormalizedEvent>)
    ensures EventsAfter(disk, 0) == disk
    ensures AnyTerminal(disk) <==> TerminalIn(StampsOf(disk))
  {
    var index := StampsOf(disk);
    assert forall i | 0 <= i < |disk| :: index[i].event == disk[i].event;
  }

  /** A running poll shows no terminal that was not there before, and the completed one always shows some. */
  lemma PollShows(driver: PerInvocationDriver, p: Persisted, before: Collected, file: string, exit: Option<Exit>)
    ensures var r := driver.ActiveOutcome(p, before, Some(file), exit);
            r.Ok? ==> (TerminalIn(r.value.progress.index) <==> exit.Some? || TerminalIn(before.progress.index))
  {
    hide Running, Completed, ClassifyExit, LastTerminal;
    var config, owner := driver.config.collector, Owner(p.localId, p.marker);
    if exit.None? {
      RunningAddsNoTerminal(config, owner, p.invocations, before, file);
    } else {
      var expected := ClassifyExit(config.exit, exit.value, config.frame.parse);
      CompletedEndsTurn(config, owner, p.invocations, before, file, expected);
    }
    var r := driver.ActiveOutcome(p, before, Some(file), exit);
    if r.Ok? {
      assert forall i | 0 <= i < |before.progress.index| :: r.value.progress.index[i] == before.progress.index[i];
    }
  }

  /** One round: attach, look for a terminal, look whether the client has exited. */
  method AwaitOnce(driver: PerInvocationDriver, id: string, file: string, exit: Option<Exit>)
    returns (events: seq<NormalizedEvent>, outcome: Option<CollectionOutcome>)
    requires driver.Valid() && driver.SourceGrew(id, Some(file)) && id in driver.sessions
    requires driver.sessions[id].active.Some?
    modifies driver
    ensures var p, before := old(driver.sessions)[id].persisted, old(driver.Before(driver.sessions[id].persisted));
            var polled := driver.ActiveOutcome(p, before, Some(file), exit);
            && (polled.Err? <==> outcome.Some? && outcome.value.AttachFailed?)
            && (polled.Ok? ==>
                  && driver.Valid() && Left(driver, id, polled.value) && id in driver.sessions
                  && events == driver.SlotOf(id).disk
                  && driver.sessions[id]
                     == Advanced(old(driver.sessions)[id], polled.value.progress.next, EndedTurns(exit))
                  && (exit.None? ==> driver.Before(driver.sessions[id].persisted) == polled.value
                                     && driver.ReadSoFar(driver.sessions[id].persisted) == file)
                  && outcome == if exit.Some? || TerminalIn(before.progress.index) then Some(SawTerminal) else None)
  {
    hide PerInvocationDriver.Valid, PerInvocationDriver.SourceGrew, PerInvocationDriver.Before,
         PerInvocationDriver.ReadSoFar, PerInvocationDriver.ActiveOutcome, PerInvocationDriver.Only,
         PerInvocationDriver.Kept, PerInvocationDriver.PollRecorded, PerInvocationDriver.StartOf, AnyTerminal, TerminalIn,
         EventsAfter;
    PollShows(driver, driver.sessions[id].persisted, driver.Before(driver.sessions[id].persisted), file, exit);
    var attached := driver.Attach(id, 0, Some(file), exit);
    if attached.Err? {
      return [], Some(AttachFailed(attached.error));
    }
    events := attached.value;
    TerminalsShown(driver.SlotOf(id).disk);
    if AnyTerminal(events) {
      return events, Some(SawTerminal);
    }
    if driver.sessions[id].active.None? {
      assert false;
      return events, Some(ClientExited);
    }
    outcome := None;
  }

  /** What the source holds at the end, if the client's exit is seen in time. */
  function Ending(last: Option<(string, Exit)>): seq<string> { if last.Some? then [last.value.0] else [] }

  /**
   `collect_fidelity_terminal`: attach until a terminal event is seen, an attach
   fails, the client has exited or time is up. It never finds the client gone
   without a terminal. In a session without earlier terminals it stops at the exit,
   no sooner and no later, with the events that the polls come to; after an earlier
   turn's terminal the first attach ends it.
   */
  method CollectFidelityTerminal(driver: PerInvocationDriver, id: string, polls: seq<string>,
                                 last: Option<(string, Exit)>)
    returns (events: seq<NormalizedEvent>, outcome: CollectionOutcome)
    requires driver.Valid() && id in driver.sessions && driver.sessions[id].active.Some?
    requires Growing([driver.ReadSoFar(driver.sessions[id].persisted)] + polls + Ending(last))
    modifies driver
    ensures outcome != ClientExited
    ensures var p, before := old(driver.sessions)[id].persisted, old(driver.Before(driver.sessions[id].persisted));
            var polled := RunPolls(driver.config.collector, Owner(p.localId, p.marker), p.invocations, before, polls);
            !TerminalIn(before.progress.index) ==>
              && (outcome == DeadlinePassed <==> polled.Ok? && last.None?)
              && (outcome == DeadlinePassed ==>
                    && driver.Valid() && id in driver.sessions
                    && driver.Before(driver.sessions[id].persisted) == polled.value
                    && events == if polls == [] then [] else driver.SlotOf(id).disk)
              && (outcome == SawTerminal
                  <==> last.Some? && CollectedInPolls(driver, p, before, polls, last.value.0, last.value.1).Ok?)
              && (outcome == SawTerminal ==>
                    && driver.Valid() && events == driver.SlotOf(id).disk
                    && Left(driver, id, CollectedInPolls(driver, p, before, polls, last.value.0, last.value.1).value)
                    && driver.sessions[id].active.None?)
    ensures var p, before := old(driver.sessions)[id].persisted, old(driver.Before(driver.sessions[id].persisted));
            TerminalIn(before.progress.index) && polls != [] ==>
              var first := Running(driver.config.collector, Owner(p.localId, p.marker), p.invocations, before, polls[0]);
              if first.Err? then outcome.AttachFailed?
              else outcome == SawTerminal && Left(driver, id, first.value) && driver.sessions[id].active.Some?
  {
    hide Growing, Running, Completed, ClassifyExit, RunPolls, TerminalIn, Left, PerInvocationDriver.Before,
         PerInvocationDriver.ReadSoFar, PerInvocationDriver.Valid;
    ghost var before := driver.sessions[id];
    ghost var p, config := before.persisted, driver.config.collector;
    ghost var owner, start := Owner(p.localId, p.marker), driver.Before(p);
    ghost var read := driver.ReadSoFar(p);
    events := [];
    assert polls[0..] == polls;
    for i := 0 to |polls|
      invariant driver.Valid() && id in driver.sessions
      invariant driver.sessions[id] == Advanced(before, driver.sessions[id].persisted.nextCursor, 0)
      invariant driver.ReadSoFar(driver.sessions[id].persisted) == read && Growing([read] + polls[i..] + Ending(last))
      invariant RunPolls(config, owner, p.invocations, start, polls)
             == RunPolls(config, owner, p.invocations, driver.Before(driver.sessions[id].persisted), polls[i..])
      invariant TerminalIn(driver.Before(driver.sessions[id].persisted).progress.index)
             == TerminalIn(start.progress.index)
      invariant i > 0 ==> !TerminalIn(start.progress.index)
      invariant i == 0 ==> driver.Before(driver.sessions[id].persisted) == start && events == []
      invariant i > 0 ==> events == driver.SlotOf(id).disk
    {
      GrowingStep([read] + polls[i..] + Ending(last));
      RunNext(config, owner, p.invocations, driver.Before(driver.sessions[id].persisted), polls[i..]);
      assert polls[i..][0] == polls[i] && polls[i..][1..] == polls[i + 1..];
      assert ([read] + polls[i..] + Ending(last))[1..] == [polls[i]] + polls[i + 1..] + Ending(last);
      PollShows(driver, driver.sessions[id].persisted, driver.Before(driver.sessions[id].persisted), polls[i], None);
      var shown, over := AwaitOnce(driver, id, polls[i], None);
      if over.Some? {
        return shown, over.value;
      }
      events := shown;
      read := polls[i];
    }
    assert polls[|polls|..] == [];
    RunNext(config, owner, p.invocations, driver.Before(driver.sessions[id].persisted), []);
    if last.None? {
      return events, DeadlinePassed;
    }
    GrowingStep([read] + polls[|polls|..] + Ending(last));
    var shown, over := AwaitOnce(driver, id, last.value.0, Some(last.value.1));
    events := shown;
    outcome := over.value;
  }

  // ---- A journal turn that is cancelled ------------------------------------------------------

  /**
   Cancel a journal's turn without a command and launch the next one. The new turn
   knows no ids yet and begins after every record read of the journal, those
   included that the polls held back.
   */
  method CancelAndSubmit(driver: PerInvocationDriver, id: string, exit: Exit, file: Option<string>)
    returns (r: Result<nat, DriverError>)
    requires driver.Valid() && driver.SourceGrew(id, file) && id in driver.sessions && driver.sessions[id].active.Some?
    requires driver.config.collector.frame.source == JournalFile && !driver.config.hasCancelCommand
    modifies driver
    ensures r.Ok? && driver.Valid() && id in driver.sessions && driver.sessions[id].active == Some(r.value)
    ensures var p, read := old(driver.sessions)[id].persisted, old(driver.ReadSoFar(driver.sessions[id].persisted));
            && driver.ReadSoFar(driver.sessions[id].persisted) == read
            && driver.Before(driver.sessions[id].persisted)
            == Collected(|VisibleRecords(driver.config.collector.frame, read, false)|,
                         Progress({}, p.nextCursor + 1, old(driver.Before(p)).progress.index + [StampOf(CancelledEvent(p))]))
  {
    hide PerInvocationDriver.Valid, VisibleRecords, CancelledEvent, Keeps, PerInvocationDriver.EndedOutcome, EnteredCursor,
         StampsOf, PerInvocationDriver.SourceGrew, EnteredRead, EnteredCurrent;
    driver.Lifecycle(id);
    driver.InOrder(id);
    ghost var disk, event := driver.SlotOf(id).disk, CancelledEvent(driver.sessions[id].persisted);
    var cancelled := driver.Cancel(id, file, exit, file);
    r := driver.Submit(id);
    driver.NewTurnForgets(driver.sessions[id].persisted);
    StampsAppend(disk, [event]);
    OneStamp(event);
  }

  lemma OneStamp(event: NormalizedEvent)
    ensures StampsOf([event]) == [StampOf(event)]
  {}

  /**
   A journal turn that is polled and then cancelled without a command. The poll's
   own records are indexed, what it held back is skipped by the next turn, and so
   nothing is lost exactly if it held nothing back.
   */
  method PollCancelSubmit(driver: PerInvocationDriver, id: string, file: string, exit: Exit)
    returns (r: Result<nat, DriverError>)
    requires driver.Valid() && driver.SourceGrew(id, Some(file)) && id in driver.sessions
    requires driver.sessions[id].active.Some?
    requires driver.config.collector.frame.source == JournalFile && !driver.config.hasCancelCommand
    modifies driver
    ensures var p, before := old(driver.sessions)[id].persisted, old(driver.Before(driver.sessions[id].persisted));
            var config := driver.config.collector;
            var polled := Running(config, Owner(p.localId, p.marker), p.invocations, before, file);
            && (r.Ok? <==> polled.Ok?)
            && (r.Ok? ==>
                  && driver.Valid() && id in driver.sessions && driver.sessions[id].active == Some(r.value)
                  && var next := driver.Before(driver.sessions[id].persisted);
                     && next.progress.index
                     == polled.value.progress.index
                        + [StampOf(CancelledEvent(p.(nextCursor := polled.value.progress.next)))]
                     && forall whole | file <= whole ::
                          (Untaken(config, before.taken, whole, true)
                             == Taken(config, before.taken, file) + Untaken(config, next.taken, whole, true)
                           <==> HeldBack(config, before.taken, file) == []))
  {
    hide PerInvocationDriver.Valid, VisibleRecords, CancelledEvent, Keeps, Running, Untaken, Taken, HeldBack,
         PerInvocationDriver.Before, PerInvocationDriver.ReadSoFar, PerInvocationDriver.Leaves;
    ghost var p, config := driver.sessions[id].persisted, driver.config.collector;
    ghost var before := driver.Before(p);
    StartVisible(driver, id);
    VisibleGrows(config.frame, driver.ReadSoFar(p), file);
    var attached := driver.Attach(id, 0, Some(file), None);
    if attached.Err? {
      return Err(attached.error);
    }
    r := CancelAndSubmit(driver, id, exit, Some(file));
    forall whole | file <= whole
      ensures var next := driver.Before(driver.sessions[id].persisted);
              Untaken(config, before.taken, whole, true)
                == Taken(config, before.taken, file) + Untaken(config, next.taken, whole, true)
              <==> HeldBack(config, before.taken, file) == []
    {
      HeldBackLost(config, before.taken, file, whole);
    }
  }
}
