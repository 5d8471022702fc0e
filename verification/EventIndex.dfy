/**
 The in-memory event index of a session and its mirror, the durable event file.
 */
module EventIndex {
  import opened Sorting
  import opened Text
  import opened Events

  /** Events by cursor, the events of the current turn by id, and that turn. */
  datatype EventCache = EventCache(events: map<nat, NormalizedEvent>, current: map<string, NormalizedEvent>, turn: nat)

  /** The file lists the events by cursor, from 1 up to the next cursor. */
  predicate DiskOk(disk: seq<NormalizedEvent>, next: nat) {
    |disk| + 1 == next && forall i | 0 <= i < |disk| :: disk[i].cursor == i + 1
  }

  /** The index and the file hold the same events, and the current ones are filed under their own ids. */
  ghost predicate CacheOk(cache: EventCache, disk: seq<NormalizedEvent>) {
    && (forall c :: c in cache.events <==> 1 <= c <= |disk|)
    && (forall c | c in cache.events :: cache.events[c] == disk[c - 1])
    && forall k | k in cache.current :: Filed(cache.current[k], k, disk)
  }

  predicate Filed(e: NormalizedEvent, k: string, disk: seq<NormalizedEvent>) {
    e.id == k && 1 <= e.cursor <= |disk| && disk[e.cursor - 1] == e
  }

  // ---- Rebuilding the index from the file --------------------------------------------

  /** The events by id, the last one of each staying. */
  function ById(disk: seq<NormalizedEvent>): (current: map<string, NormalizedEvent>)
    ensures current.Keys == Ids(disk)
  {
    if disk == [] then map[]
    else
      var n := |disk| - 1;
      assert disk == disk[..n] + [disk[n]];
      IdsSnoc(disk[..n], disk[n]);
      ById(disk[..n])[disk[n].id := disk[n]]
  }

  /** Collect the events by id and by cursor; a repeated key keeps its last event. */
  method LoadCache(disk: seq<NormalizedEvent>, turn: nat) returns (cache: EventCache)
    requires DiskOk(disk, |disk| + 1)
    ensures CacheOk(cache, disk) && cache.turn == turn && cache.current == ById(disk)
  {
    var events: map<nat, NormalizedEvent> := map[];
    var current: map<string, NormalizedEvent> := map[];
    for i := 0 to |disk|
      invariant forall c :: c in events <==> 1 <= c <= i
      invariant forall c | c in events :: events[c] == disk[c - 1]
      invariant current == ById(disk[..i]) && forall k | k in current :: Filed(current[k], k, disk)
    {
      assert disk[..i + 1][..i] == disk[..i];
      current := current[disk[i].id := disk[i]];
      events := events[disk[i].cursor := disk[i]];
    }
    assert disk[..|disk|] == disk;
    cache := EventCache(events, current, turn);
  }

  // ---- Applying changes ------------------------------------------------------------------

  /** A change rewrites the event at its cursor, or appends. */
  function ApplyOne(disk: seq<NormalizedEvent>, e: NormalizedEvent): seq<NormalizedEvent> {
    if 1 <= e.cursor <= |disk| then disk[e.cursor - 1 := e] else disk + [e]
  }

  function Applied(disk: seq<NormalizedEvent>, changes: seq<NormalizedEvent>): seq<NormalizedEvent> {
    if changes == [] then disk else ApplyOne(Applied(disk, changes[..|changes| - 1]), changes[|changes| - 1])
  }

  predicate Corrective(disk: seq<NormalizedEvent>, e: NormalizedEvent) {
    1 <= e.cursor <= |disk| && StampOf(disk[e.cursor - 1]) == StampOf(e)
  }

  /** First corrections of indexed events, then additions with consecutive cursors. */
  predicate ChangesFit(disk: seq<NormalizedEvent>, corrections: seq<NormalizedEvent>, additions: seq<NormalizedEvent>) {
    && (forall i | 0 <= i < |corrections| :: Corrective(disk, corrections[i]))
    && forall i | 0 <= i < |additions| :: additions[i].cursor == |disk| + 1 + i
  }

  function Inserted(cache: EventCache, e: NormalizedEvent): EventCache {
    cache.(current := cache.current[e.id := e], events := cache.events[e.cursor := e])
  }

  lemma InsertedOk(cache: EventCache, disk: seq<NormalizedEvent>, e: NormalizedEvent)
    requires CacheOk(cache, disk) && (Corrective(disk, e) || e.cursor == |disk| + 1)
    ensures CacheOk(Inserted(cache, e), ApplyOne(disk, e))
  {
    var disk' := ApplyOne(disk, e);
    forall k | k in cache.current && k != e.id ensures Filed(cache.current[k], k, disk') {
      assert Filed(cache.current[k], k, disk);
    }
  }

  lemma {:induction false} AppliedCorrections(disk: seq<NormalizedEvent>, corrections: seq<NormalizedEvent>)
    requires forall i | 0 <= i < |corrections| :: Corrective(disk, corrections[i])
    ensures StampsOf(Applied(disk, corrections)) == StampsOf(disk)
  {
    if corrections != [] {
      AppliedCorrections(disk, corrections[..|corrections| - 1]);
      var before, e := Applied(disk, corrections[..|corrections| - 1]), corrections[|corrections| - 1];
      assert Corrective(disk, e);
      assert |before| == |StampsOf(before)| == |disk|;
    }
  }

  lemma {:induction false} AppliedAdditions(disk: seq<NormalizedEvent>, corrections: seq<NormalizedEvent>,
                                            additions: seq<NormalizedEvent>)
    requires ChangesFit(disk, corrections, additions)
    ensures Applied(disk, corrections + additions) == Applied(disk, corrections) + additions
  {
    AppliedCorrections(disk, corrections);
    assert |Applied(disk, corrections)| == |StampsOf(Applied(disk, corrections))| == |disk|;
    if additions == [] {
      assert corrections + additions == corrections;
    } else {
      hide Applied;
      var n := |additions| - 1;
      var e := additions[n];
      assert additions == additions[..n] + [e];
      AppendAssociative(corrections, additions[..n], [e]);
      AppliedSnoc(disk, corrections + additions[..n], e);
      AppliedAdditions(disk, corrections, additions[..n]);
      AppendAssociative(Applied(disk, corrections), additions[..n], [e]);
    }
  }

  lemma AppliedSnoc(disk: seq<NormalizedEvent>, changes: seq<NormalizedEvent>, e: NormalizedEvent)
    ensures Applied(disk, changes + [e]) == ApplyOne(Applied(disk, changes), e)
  {
    assert (changes + [e])[..|changes|] == changes;
  }

  /** Corrections never touch an id, a cursor or the order; additions extend the file. */
  lemma AppliedStamps(disk: seq<NormalizedEvent>, corrections: seq<NormalizedEvent>, additions: seq<NormalizedEvent>)
    requires ChangesFit(disk, corrections, additions)
    ensures StampsOf(Applied(disk, corrections + additions)) == StampsOf(disk) + StampsOf(additions)
    ensures DiskOk(disk, |disk| + 1) ==>
              DiskOk(Applied(disk, corrections + additions), |disk| + |additions| + 1)
  {
    hide Applied;
    AppliedCorrections(disk, corrections);
    AppliedAdditions(disk, corrections, additions);
    var corrected := Applied(disk, corrections);
    assert |corrected| == |StampsOf(corrected)| == |disk|;
    if DiskOk(disk, |disk| + 1) {
      forall i | 0 <= i < |disk| ensures corrected[i].cursor == i + 1 {
        assert StampsOf(corrected)[i] == StampsOf(disk)[i];
      }
    }
  }

  /** What was indexed stays, except that a tool event may have its payload completed. */
  predicate Keeps(before: seq<NormalizedEvent>, after: seq<NormalizedEvent>) {
    && |before| <= |after|
    && forall i | 0 <= i < |before| ::
         StampOf(after[i]) == StampOf(before[i]) && (IsTool(before[i].event) || after[i] == before[i])
  }

  lemma KeepsTransitive(a: seq<NormalizedEvent>, b: seq<NormalizedEvent>, c: seq<NormalizedEvent>)
    requires Keeps(a, b) && Keeps(b, c)
    ensures Keeps(a, c)
  {
    forall i | 0 <= i < |a| ensures StampOf(c[i]) == StampOf(a[i]) && (IsTool(a[i].event) || c[i] == a[i]) {
      assert StampOf(b[i]) == StampOf(a[i]);
    }
  }

  lemma {:induction false} AppliedCorrectionsKeep(disk: seq<NormalizedEvent>, corrections: seq<NormalizedEvent>)
    requires forall i | 0 <= i < |corrections| :: Corrective(disk, corrections[i]) && IsTool(corrections[i].event)
    ensures Keeps(disk, Applied(disk, corrections)) && |Applied(disk, corrections)| == |disk|
  {
    if corrections != [] {
      var n := |corrections| - 1;
      AppliedCorrectionsKeep(disk, corrections[..n]);
      assert Corrective(disk, corrections[n]) && IsTool(corrections[n].event);
      assert StampOf(disk[corrections[n].cursor - 1]).event == corrections[n].event;
    }
  }

  /** Applying changes touches nothing but payloads of tool events. */
  lemma AppliedKeeps(disk: seq<NormalizedEvent>, corrections: seq<NormalizedEvent>, additions: seq<NormalizedEvent>)
    requires ChangesFit(disk, corrections, additions)
    requires forall i | 0 <= i < |corrections| :: IsTool(corrections[i].event)
    ensures Keeps(disk, Applied(disk, corrections + additions))
  {
    hide Applied;
    AppliedCorrectionsKeep(disk, corrections);
    AppliedAdditions(disk, corrections, additions);
  }

  /** The file after the changes: corrected where it was, then the additions. */
  lemma AppliedSplit(disk: seq<NormalizedEvent>, corrections: seq<NormalizedEvent>, additions: seq<NormalizedEvent>)
    requires ChangesFit(disk, corrections, additions)
    ensures var after := Applied(disk, corrections + additions);
            |disk| <= |after| && after[..|disk|] == Applied(disk, corrections) && after[|disk|..] == additions
  {
    hide Applied;
    AppliedCorrections(disk, corrections);
    AppliedAdditions(disk, corrections, additions);
    assert |Applied(disk, corrections)| == |StampsOf(Applied(disk, corrections))| == |disk|;
  }

  /** The corrections that normalization finds for the current events fit the file. */
  lemma CorrectionsFit(cache: EventCache, disk: seq<NormalizedEvent>, corrections: seq<NormalizedEvent>)
    requires CacheOk(cache, disk) && Corrects(cache.current, corrections)
    ensures forall i | 0 <= i < |corrections| :: Corrective(disk, corrections[i])
  {
    forall i | 0 <= i < |corrections| ensures Corrective(disk, corrections[i]) {
      assert IsCorrection(cache.current, corrections[i]);
      var k :| CorrectionOf(cache.current, k, corrections[i]);
      assert Filed(cache.current[k], k, disk);
    }
  }

  lemma ChangeStep(disk: seq<NormalizedEvent>, corrections: seq<NormalizedEvent>, additions: seq<NormalizedEvent>, i: nat)
    requires ChangesFit(disk, corrections, additions) && i < |corrections + additions|
    ensures var before, e := Applied(disk, (corrections + additions)[..i]), (corrections + additions)[i];
            Corrective(before, e) || e.cursor == |before| + 1
  {
    hide Applied;
    var changes := corrections + additions;
    if i < |corrections| {
      assert changes[..i] == corrections[..i] && changes[i] == corrections[i];
      AppliedCorrections(disk, corrections[..i]);
      var before := Applied(disk, corrections[..i]);
      assert |before| == |StampsOf(before)| == |disk|;
      assert StampsOf(before)[changes[i].cursor - 1] == StampsOf(disk)[changes[i].cursor - 1];
    } else {
      var n := i - |corrections|;
      assert changes[..i] == corrections + additions[..n] && changes[i] == additions[n];
      AppliedStamps(disk, corrections, additions[..n]);
      var before := Applied(disk, corrections + additions[..n]);
      assert |before| == |StampsOf(before)|;
    }
  }

  lemma IdsSnoc(events: seq<NormalizedEvent>, e: NormalizedEvent)
    ensures Ids(events + [e]) == Ids(events) + {e.id}
  {
    assert e in events + [e];
    assert forall x :: x in events + [e] <==> x in events || x == e;
  }

  /** When no change touches an indexed cursor, there are no corrections and appending is applying. */
  lemma AppendingSuffices(disk: seq<NormalizedEvent>, cache: EventCache, corrections: seq<NormalizedEvent>,
                          additions: seq<NormalizedEvent>)
    requires CacheOk(cache, disk) && ChangesFit(disk, corrections, additions)
    requires forall i | 0 <= i < |corrections + additions| :: (corrections + additions)[i].cursor !in cache.events
    ensures Applied(disk, corrections + additions) == disk + (corrections + additions)
  {
    hide CacheOk, Applied, ChangesFit;
    if corrections != [] {
      CorrectionIndexed(disk, cache, corrections, additions);
    } else {
      AppliedAdditions(disk, [], additions);
      AppliedNothing(disk);
      assert [] + additions == additions;
    }
  }

  lemma CorrectionIndexed(disk: seq<NormalizedEvent>, cache: EventCache, corrections: seq<NormalizedEvent>,
                          additions: seq<NormalizedEvent>)
    requires CacheOk(cache, disk) && ChangesFit(disk, corrections, additions) && corrections != []
    ensures (corrections + additions)[0].cursor in cache.events
  {
    assert (corrections + additions)[0] == corrections[0] && Corrective(disk, corrections[0]);
  }

  /** Insert the changes one by one, by id and by cursor. */
  method InsertChanges(cache: EventCache, changes: seq<NormalizedEvent>, ghost disk: seq<NormalizedEvent>,
                       ghost corrections: seq<NormalizedEvent>, ghost additions: seq<NormalizedEvent>)
    returns (updated: EventCache)
    requires CacheOk(cache, disk) && changes == corrections + additions && ChangesFit(disk, corrections, additions)
    ensures CacheOk(updated, Applied(disk, changes)) && updated.turn == cache.turn
    ensures updated.current.Keys == cache.current.Keys + Ids(changes)
  {
    hide CacheOk, Applied, ChangesFit;
    updated := cache;
    assert Applied(disk, changes[..0]) == disk by { AppliedNothing(disk); }
    for i := 0 to |changes|
      invariant CacheOk(updated, Applied(disk, changes[..i])) && updated.turn == cache.turn
      invariant updated.current.Keys == cache.current.Keys + Ids(changes[..i])
    {
      ChangeStep(disk, corrections, additions, i);
      InsertedOk(updated, Applied(disk, changes[..i]), changes[i]);
      AppliedSnoc(disk, changes[..i], changes[i]);
      assert changes[..i + 1] == changes[..i] + [changes[i]];
      IdsSnoc(changes[..i], changes[i]);
      updated := Inserted(updated, changes[i]);
    }
    assert changes[..|changes|] == changes;
  }

  lemma AppliedNothing(disk: seq<NormalizedEvent>)
    ensures Applied(disk, []) == disk
  {}

  // ---- Reading in cursor order ---------------------------------------------------------------

  /** `BTreeMap::values` and `range` from a cursor on. */
  function ValuesAfter(events: map<nat, NormalizedEvent>, keys: seq<nat>, after: nat): seq<NormalizedEvent>
    requires forall c :: c in keys ==> c in events
  {
    if keys == [] then []
    else (if keys[0] > after then [events[keys[0]]] else []) + ValuesAfter(events, keys[1..], after)
  }

  lemma {:induction false} ValuesAreTail(cache: EventCache, disk: seq<NormalizedEvent>, keys: seq<nat>, from: nat, after: nat)
    requires CacheOk(cache, disk) && 1 <= from && |keys| + from == |disk| + 1
    requires forall i | 0 <= i < |keys| :: keys[i] == from + i
    ensures forall c :: c in keys ==> c in cache.events
    ensures ValuesAfter(cache.events, keys, after) == if after < from then disk[from - 1..] else EventsAfter(disk, after)
    decreases |keys|
  {
    if keys == [] {
      assert disk[from - 1..] == [];
    } else {
      hide CacheOk, EventsAfter;
      ValuesAreTail(cache, disk, keys[1..], from + 1, after);
      CachedEvent(cache, disk, from);
      TailStep(disk, from, after);
      assert keys[0] == from;
      assert forall c :: c in keys <==> c == from || c in keys[1..];
    }
  }

  lemma TailStep(disk: seq<NormalizedEvent>, from: nat, after: nat)
    requires 1 <= from <= |disk|
    ensures (if from > after then [disk[from - 1]] else [])
            + (if after < from + 1 then disk[from..] else EventsAfter(disk, after))
         == if after < from then disk[from - 1..] else EventsAfter(disk, after)
  {
    TailFrom(disk, from - 1);
    assert [] + disk[from..] == disk[from..] && [] + EventsAfter(disk, after) == EventsAfter(disk, after);
  }

  lemma CachedEvent(cache: EventCache, disk: seq<NormalizedEvent>, c: nat)
    requires CacheOk(cache, disk) && 1 <= c <= |disk|
    ensures c in cache.events && cache.events[c] == disk[c - 1]
  {}

  lemma TailFrom<T>(s: seq<T>, n: nat)
    requires n < |s|
    ensures s[n..] == [s[n]] + s[n + 1..]
  {}

  /** The events with a greater cursor. */
  function EventsAfter(disk: seq<NormalizedEvent>, after: nat): seq<NormalizedEvent> {
    if after <= |disk| then disk[after..] else []
  }

  lemma KeysOfCache(cache: EventCache, disk: seq<NormalizedEvent>)
    requires CacheOk(cache, disk)
    ensures var keys := SortedNats(cache.events.Keys);
            |keys| == |disk| && forall i | 0 <= i < |keys| :: keys[i] == i + 1
  {
    SortedRange(cache.events.Keys, 1, |disk| + 1);
  }

  /** What the index returns after a cursor. */
  function CachedAfterInMemory(cache: EventCache, after: nat): seq<NormalizedEvent> {
    ValuesAfter(cache.events, SortedNats(cache.events.Keys), after)
  }

  function Retained(events: seq<NormalizedEvent>, after: nat): seq<NormalizedEvent> {
    if events == [] then []
    else Retained(events[..|events| - 1], after)
         + if events[|events| - 1].cursor > after then [events[|events| - 1]] else []
  }

  predicate CursorLe(a: NormalizedEvent, b: NormalizedEvent) { a.cursor <= b.cursor }

  /** What re-reading the file, filtering and sorting it by cursor returns. */
  function CachedAfterOnDisk(disk: seq<NormalizedEvent>, after: nat): seq<NormalizedEvent> {
    Arranged(Retained(disk, after), CursorLe)
  }

  lemma {:induction false} RetainedTail(disk: seq<NormalizedEvent>, after: nat)
    requires DiskOk(disk, |disk| + 1)
    ensures Retained(disk, after) == EventsAfter(disk, after)
  {
    if disk != [] {
      RetainedTail(disk[..|disk| - 1], after);
      if after < |disk| {
        assert disk[after..] == disk[..|disk| - 1][after..] + [disk[|disk| - 1]];
      }
    }
  }

  lemma {:induction false} AlreadySorted(events: seq<NormalizedEvent>)
    requires forall i, j | 0 <= i < j < |events| :: events[i].cursor <= events[j].cursor
    ensures Arranged(events, CursorLe) == events
  {
    if events != [] {
      AlreadySorted(events[1..]);
      assert events == [events[0]] + events[1..];
    }
  }

  /**
   The in-memory index agrees with the durable file: for every cursor, the range
   read from the index is what re-reading, filtering and sorting the file gives.
   */
  lemma IndexAgreesWithDisk(cache: EventCache, disk: seq<NormalizedEvent>, after: nat)
    requires DiskOk(disk, |disk| + 1) && CacheOk(cache, disk)
    ensures CachedAfterInMemory(cache, after) == CachedAfterOnDisk(disk, after) == EventsAfter(disk, after)
  {
    hide ValuesAfter, SortedNats, Arranged, Retained;
    KeysOfCache(cache, disk);
    ValuesAreTail(cache, disk, SortedNats(cache.events.Keys), 1, after);
    assert disk[0..] == disk;
    RetainedTail(disk, after);
    AlreadySorted(EventsAfter(disk, after));
  }

  /** The whole index in cursor order is the file. */
  lemma WholeIndex(cache: EventCache, disk: seq<NormalizedEvent>)
    requires CacheOk(cache, disk)
    ensures CachedAfterInMemory(cache, 0) == disk
  {
    hide ValuesAfter, SortedNats;
    KeysOfCache(cache, disk);
    ValuesAreTail(cache, disk, SortedNats(cache.events.Keys), 1, 0);
    assert disk[0..] == disk;
  }
}
