/**
 Normalized request streams: semantic keys, physical attempts, and the first
 difference between two streams.
 */
module Streams {
  import opened Prelude
  import opened Sorting
  import opened Text
  import opened Json
  import opened Normalization

  datatype AttemptKey = AttemptKey(scenario: string, actor: string, ordinal: nat, checkpoint: string)

  /** A semantic request key: the attempt key and the number of the physical attempt. */
  datatype RequestKey = RequestKey(request: AttemptKey, attempt: nat)

  datatype Request = Request(dialect: string, canonical: Value, attemptsTotal: nat)

  type Stream = map<RequestKey, Request>

  /** One physical request as the fake provider recorded it. */
  datatype Record = Record(key: RequestKey, dialect: string, canonical: Value, attemptsTotal: nat)

  datatype Run = Run(run: nat, records: seq<Record>, collectorComplete: bool, normalization: Context)

  datatype StreamError =
    | UnorderedRuns
    | IncompleteCollector(run: nat)
    | DuplicateKey(run: nat)
    | InconsistentTotals(key: AttemptKey)
    | WrongAttempts(key: AttemptKey)
    | NoBaseline
    | EmptyStreams
    | ZeroDenominator(run: nat)

  // ---- The order of keys -------------------------------------------------------

  predicate AttemptLe(a: AttemptKey, b: AttemptKey) {
    if a.scenario != b.scenario then LexLe(a.scenario, b.scenario)
    else if a.actor != b.actor then LexLe(a.actor, b.actor)
    else if a.ordinal != b.ordinal then a.ordinal < b.ordinal
    else LexLe(a.checkpoint, b.checkpoint)
  }

  predicate RequestLe(a: RequestKey, b: RequestKey) {
    if a.request != b.request then AttemptLe(a.request, b.request) else a.attempt <= b.attempt
  }

  lemma AttemptTransitive(a: AttemptKey, b: AttemptKey, c: AttemptKey)
    requires TotalOrder(LexLe) && AttemptLe(a, b) && AttemptLe(b, c)
    ensures AttemptLe(a, c)
  {
    hide LexLe;
  }

  lemma AttemptOrder()
    ensures TotalOrder(AttemptLe)
  {
    LexOrder();
    hide LexLe;
    forall x, y, z | AttemptLe(x, y) && AttemptLe(y, z) ensures AttemptLe(x, z) { AttemptTransitive(x, y, z); }
  }

  lemma RequestOrder()
    ensures TotalOrder(RequestLe)
  {
    AttemptOrder();
    hide AttemptLe;
    forall x, y, z | RequestLe(x, y) && RequestLe(y, z) ensures RequestLe(x, z) {
      if x.request != y.request && y.request != z.request {
        assert AttemptLe(x.request, z.request);
      }
    }
  }

  function LeastAttempt(s: set<AttemptKey>): (k: AttemptKey)
    requires s != {}
    ensures k in s
  {
    AttemptOrder();
    Least(s, AttemptLe)
  }

  /** The keys of a `BTreeMap<SemanticAttemptKey, _>` in iteration order. */
  function SortedAttempts(s: set<AttemptKey>): (r: seq<AttemptKey>)
    ensures forall k :: k in r <==> k in s
  {
    AttemptOrder();
    Listed(s, AttemptLe)
  }

  /** The keys of a `BTreeMap<SemanticRequestKey, _>` in iteration order. */
  function SortedRequests(s: set<RequestKey>): (r: seq<RequestKey>)
    ensures forall k :: k in r <==> k in s
  {
    RequestOrder();
    Listed(s, RequestLe)
  }

  // ---- Collecting one stream -----------------------------------------------------

  predicate DistinctKeys(records: seq<Record>) {
    forall i, j | 0 <= i < j < |records| :: records[i].key != records[j].key
  }

  predicate Collectable(run: Run) { run.collectorComplete && DistinctKeys(run.records) }

  function RequestOf(record: Record, context: Context): Request {
    Request(record.dialect, NormalizeRequest(record.dialect, record.canonical, context), record.attemptsTotal)
  }

  function StreamOf(records: seq<Record>, context: Context): Stream {
    if records == [] then map[]
    else
      var last := records[|records| - 1];
      StreamOf(records[..|records| - 1], context)[last.key := RequestOf(last, context)]
  }

  function RunStream(run: Run): Stream { StreamOf(run.records, run.normalization) }

  predicate HasKey(records: seq<Record>, k: RequestKey) {
    exists i | 0 <= i < |records| :: records[i].key == k
  }

  lemma {:induction false} StreamKeys(records: seq<Record>, context: Context, k: RequestKey)
    ensures k in StreamOf(records, context) <==> HasKey(records, k)
  {
    hide RequestOf;
    if records != [] {
      var n := |records| - 1;
      StreamKeys(records[..n], context, k);
      if HasKey(records, k) && records[n].key != k {
        var i :| 0 <= i < |records| && records[i].key == k;
        assert records[..n][i].key == k;
      }
      if HasKey(records[..n], k) {
        var i :| 0 <= i < n && records[..n][i].key == k;
        assert records[i].key == k;
      }
    }
  }

  /** With distinct keys, each record contributes its own normalized body. */
  lemma {:induction false} StreamBody(records: seq<Record>, context: Context, i: nat)
    requires DistinctKeys(records) && i < |records|
    ensures records[i].key in StreamOf(records, context)
    ensures StreamOf(records, context)[records[i].key]
         == Request(records[i].dialect, NormalizeAtPointer(records[i].canonical, "", records[i].dialect, context),
                    records[i].attemptsTotal)
  {
    hide NormalizeAtPointer;
    var n := |records| - 1;
    if i < n {
      StreamBody(records[..n], context, i);
    }
  }

  /** Another record extends the stream exactly if its key is new. */
  lemma StreamSnoc(records: seq<Record>, context: Context, i: nat)
    requires i < |records|
    ensures StreamOf(records[..i + 1], context)
         == StreamOf(records[..i], context)[records[i].key := RequestOf(records[i], context)]
    ensures DistinctKeys(records[..i + 1])
       <==> DistinctKeys(records[..i]) && records[i].key !in StreamOf(records[..i], context)
  {
    hide RequestOf;
    assert records[..i + 1][..i] == records[..i];
    StreamKeys(records[..i], context, records[i].key);
    if HasKey(records[..i], records[i].key) {
      var j :| 0 <= j < i && records[..i][j].key == records[i].key;
      assert records[..i + 1][j].key == records[..i + 1][i].key;
    }
  }

  lemma DistinctBefore(records: seq<Record>, i: nat)
    requires i <= |records| && DistinctKeys(records)
    ensures DistinctKeys(records[..i])
  {}

  /** `comparable_requests`: one normalized request for each semantic key, or why not. */
  method ComparableRequests(run: Run) returns (r: Result<Stream, StreamError>)
    ensures r.Ok? <==> Collectable(run)
    ensures r.Ok? ==> r.value == RunStream(run)
    ensures r.Err? ==> r.error == if run.collectorComplete then DuplicateKey(run.run) else IncompleteCollector(run.run)
  {
    hide RequestOf, StreamOf, DistinctKeys;
    if !run.collectorComplete {
      return Err(IncompleteCollector(run.run));
    }
    var requests: Stream := map[];
    NothingStreamed(run.normalization);
    for i := 0 to |run.records|
      invariant requests == StreamOf(run.records[..i], run.normalization)
      invariant DistinctKeys(run.records[..i])
    {
      var record := run.records[i];
      StreamSnoc(run.records, run.normalization, i);
      if record.key in requests {
        if DistinctKeys(run.records) {
          DistinctBefore(run.records, i + 1);
        }
        return Err(DuplicateKey(run.run));
      }
      requests := requests[record.key := RequestOf(record, run.normalization)];
    }
    assert run.records[..|run.records|] == run.records;
    r := Ok(requests);
  }

  lemma NothingStreamed(context: Context)
    ensures StreamOf([], context) == map[] && DistinctKeys([])
  {}

  // ---- Attempt multiplicity ---------------------------------------------------------

  function AttemptKeys(requests: Stream): set<AttemptKey> { set k | k in requests :: k.request }

  function Observed(requests: Stream, key: AttemptKey): set<nat> {
    set k | k in requests && k.request == key :: k.attempt
  }

  function Declared(requests: Stream, key: AttemptKey): set<nat> {
    set k | k in requests && k.request == key :: requests[k].attemptsTotal
  }

  /** `(1..=total).collect::<BTreeSet<_>>()` */
  function UpTo(total: nat): (r: set<nat>)
    ensures forall n :: n in r <==> 1 <= n <= total
  {
    if total == 0 then {} else UpTo(total - 1) + {total}
  }

  /** All attempts of the semantic request declare one positive total and are 1..=total. */
  predicate Consistent(requests: Stream, key: AttemptKey, total: nat) {
    DeclaresOne(requests, key, total) && Observed(requests, key) == UpTo(total)
  }

  /** All attempts of the semantic request declare this one positive total. */
  predicate DeclaresOne(requests: Stream, key: AttemptKey, total: nat) {
    total > 0 && Declared(requests, key) == {total}
  }

  ghost predicate Inconsistent(requests: Stream, key: AttemptKey) {
    key in AttemptKeys(requests) && forall total: nat :: !Consistent(requests, key, total)
  }

  /** An inconsistent request fails for its totals or else for its attempts. */
  ghost function Fault(requests: Stream, key: AttemptKey): StreamError {
    if exists total: nat :: DeclaresOne(requests, key, total) then WrongAttempts(key) else InconsistentTotals(key)
  }

  /** Why counting fails: the first inconsistent request in key order. */
  ghost predicate FailsAt(requests: Stream, key: AttemptKey, error: StreamError) {
    && Inconsistent(requests, key) && error == Fault(requests, key)
    && forall k | Inconsistent(requests, k) :: AttemptLe(key, k)
  }

  ghost predicate AttemptsConsistent(requests: Stream) {
    forall key :: key in AttemptKeys(requests) ==> exists total :: Consistent(requests, key, total)
  }

  /** What a successful count returns: one entry for each semantic request. */
  predicate Counts(requests: Stream, attempts: map<AttemptKey, nat>) {
    attempts.Keys == AttemptKeys(requests) && forall key | key in attempts :: Consistent(requests, key, attempts[key])
  }

  /** The requests whose keys come first in the iteration order. */
  function Restricted(requests: Stream, keys: seq<RequestKey>): Stream
    requires forall k :: k in keys ==> k in requests
  {
    map k | k in keys :: requests[k]
  }

  lemma RestrictedStep(requests: Stream, keys: seq<RequestKey>, n: nat, key: AttemptKey)
    requires forall k :: k in keys ==> k in requests
    requires n < |keys|
    ensures var before, after := Restricted(requests, keys[..n]), Restricted(requests, keys[..n + 1]);
            && AttemptKeys(after) == AttemptKeys(before) + {keys[n].request}
            && Observed(after, key) == Observed(before, key) + (if keys[n].request == key then {keys[n].attempt} else {})
            && Declared(after, key) == Declared(before, key)
                                       + (if keys[n].request == key then {requests[keys[n]].attemptsTotal} else {})
  {
    var before, after := Restricted(requests, keys[..n]), Restricted(requests, keys[..n + 1]);
    assert keys[..n + 1] == keys[..n] + [keys[n]];
    assert after.Keys == before.Keys + {keys[n]};
    assert keys[n] in after;
    assert forall k :: k in before ==> k in after && after[k] == before[k];
  }

  lemma NothingObserved(requests: Stream, key: AttemptKey)
    ensures key !in AttemptKeys(requests) ==> Observed(requests, key) == {} && Declared(requests, key) == {}
    ensures key in AttemptKeys(requests) ==> Declared(requests, key) != {}
  {
    if key in AttemptKeys(requests) {
      var k :| k in requests && k.request == key;
      assert requests[k].attemptsTotal in Declared(requests, key);
    }
  }

  type Groups = map<AttemptKey, (set<nat>, set<nat>)>

  predicate Grouped(requests: Stream, groups: Groups) {
    && groups.Keys == AttemptKeys(requests)
    && forall key | key in groups :: groups[key] == (Observed(requests, key), Declared(requests, key))
  }

  function AddToGroups(groups: Groups, key: RequestKey, total: nat): Groups {
    var (observed, declared) := if key.request in groups then groups[key.request] else ({}, {});
    groups[key.request := (observed + {key.attempt}, declared + {total})]
  }

  lemma GroupedStep(requests: Stream, keys: seq<RequestKey>, n: nat, groups: Groups)
    requires forall k :: k in keys ==> k in requests
    requires n < |keys| && Grouped(Restricted(requests, keys[..n]), groups)
    ensures Grouped(Restricted(requests, keys[..n + 1]), AddToGroups(groups, keys[n], requests[keys[n]].attemptsTotal))
  {
    hide Observed, Declared, AttemptKeys, Restricted;
    var before, after := Restricted(requests, keys[..n]), Restricted(requests, keys[..n + 1]);
    var next := AddToGroups(groups, keys[n], requests[keys[n]].attemptsTotal);
    RestrictedStep(requests, keys, n, keys[n].request);
    NothingObserved(before, keys[n].request);
    forall key | key in next ensures next[key] == (Observed(after, key), Declared(after, key)) {
      RestrictedStep(requests, keys, n, key);
      if key != keys[n].request {
        assert Observed(before, key) + {} == Observed(before, key);
        assert Declared(before, key) + {} == Declared(before, key);
      } else if key !in groups {
        assert {} + {keys[n].attempt} == Observed(after, key);
      }
    }
  }

  /** Group the requests: for each semantic request, the attempts seen and the totals declared. */
  method GroupAttempts(requests: Stream) returns (groups: Groups)
    ensures Grouped(requests, groups)
  {
    hide SortedRequests, Grouped, AddToGroups;
    var keys := SortedRequests(requests.Keys);
    groups := map[];
    NothingGrouped(requests, keys[..0]);
    for i := 0 to |keys|
      invariant forall k :: k in keys ==> k in requests
      invariant Grouped(Restricted(requests, keys[..i]), groups)
    {
      assert keys[i] in keys;
      GroupedStep(requests, keys, i, groups);
      groups := AddToGroups(groups, keys[i], requests[keys[i]].attemptsTotal);
    }
    assert keys[..|keys|] == keys;
    assert Restricted(requests, keys) == requests;
  }

  lemma NothingGrouped(requests: Stream, keys: seq<RequestKey>)
    requires keys == []
    ensures Grouped(Restricted(requests, keys), map[])
  {}

  /** `attempt_multiplicity`: the declared total of each semantic request, when all are consistent. */
  method AttemptMultiplicity(requests: Stream) returns (r: Result<map<AttemptKey, nat>, StreamError>)
    ensures r.Ok? <==> AttemptsConsistent(requests)
    ensures r.Ok? ==> Counts(requests, r.value)
    ensures r.Err? ==> exists key :: FailsAt(requests, key, r.error)
  {
    hide SortedAttempts, Observed, Declared, AttemptKeys, Consistent, Inconsistent, FailsAt;
    var groups := GroupAttempts(requests);
    var multiplicity: map<AttemptKey, nat> := map[];
    var keys := SortedAttempts(groups.Keys);
    for i := 0 to |keys|
      invariant forall k :: k in multiplicity <==> k in keys[..i]
      invariant forall key | key in multiplicity :: Consistent(requests, key, multiplicity[key])
      invariant forall j | 0 <= j < i :: !Inconsistent(requests, keys[j])
    {
      var key := keys[i];
      assert key in keys && keys[..i + 1] == keys[..i] + [key];
      var (observed, declared) := groups[key];
      var total := DeclaredTotal(requests, key, observed, declared);
      if total.Err? {
        FirstFails(requests, groups.Keys, i);
        return Err(total.error);
      }
      multiplicity := multiplicity[key := total.value];
    }
    assert keys[..|keys|] == keys;
    assert multiplicity.Keys == AttemptKeys(requests);
    r := Ok(multiplicity);
  }

  /** The one total of a semantic request whose attempts are 1 up to it. */
  method DeclaredTotal(requests: Stream, key: AttemptKey, observed: set<nat>, declared: set<nat>)
    returns (r: Result<nat, StreamError>)
    requires key in AttemptKeys(requests) && observed == Observed(requests, key) && declared == Declared(requests, key)
    ensures r.Ok? ==> Consistent(requests, key, r.value) && !Inconsistent(requests, key)
    ensures r.Err? ==> Inconsistent(requests, key) && r.error == Fault(requests, key)
  {
    hide Observed, Declared, AttemptKeys, UpTo, LeastNat;
    NothingObserved(requests, key);
    var total := LeastNat(declared);
    OnlyDeclared(requests, key, total);
    if declared != {total} || total == 0 {
      return Err(InconsistentTotals(key));
    }
    assert DeclaresOne(requests, key, total);
    if observed != UpTo(total) {
      return Err(WrongAttempts(key));
    }
    r := Ok(total);
  }

  lemma OnlyDeclared(requests: Stream, key: AttemptKey, total: nat)
    requires total in Declared(requests, key)
    ensures forall t: nat :: DeclaresOne(requests, key, t) ==> t == total
  {
    hide Declared;
    forall t: nat | DeclaresOne(requests, key, t) ensures t == total {
      assert total in {t};
    }
  }

  /** Where all keys before are consistent and this one is not, counting fails at it. */
  lemma FirstFails(requests: Stream, keys: set<AttemptKey>, i: nat)
    requires keys == AttemptKeys(requests) && i < |SortedAttempts(keys)|
    requires forall j | 0 <= j < i :: !Inconsistent(requests, SortedAttempts(keys)[j])
    requires Inconsistent(requests, SortedAttempts(keys)[i])
    ensures FailsAt(requests, SortedAttempts(keys)[i], Fault(requests, SortedAttempts(keys)[i]))
    ensures !AttemptsConsistent(requests)
  {
    hide Consistent, AttemptKeys, AttemptLe, Fault;
    AttemptOrder();
    ListedInOrder(keys, AttemptLe);
    var sorted := SortedAttempts(keys);
    var key := sorted[i];
    forall k | Inconsistent(requests, k) ensures AttemptLe(key, k) {
      assert k in sorted;
      var j :| 0 <= j < |sorted| && sorted[j] == k;
      assert j >= i;
    }
  }

  // ---- Conservation of attempts -------------------------------------------------------

  /** All request keys that a table of totals describes. */
  function Expanded(attempts: map<AttemptKey, nat>): set<RequestKey> {
    set key, n | key in attempts && n in UpTo(attempts[key]) :: RequestKey(key, n)
  }

  /** A consistent stream has exactly the keys that its totals describe. */
  lemma CountsDescribeKeys(requests: Stream, attempts: map<AttemptKey, nat>)
    requires Counts(requests, attempts)
    ensures requests.Keys == Expanded(attempts)
  {
    forall k ensures k in requests <==> k in Expanded(attempts) {
      if k in requests {
        assert k.request in AttemptKeys(requests);
        assert k.attempt in Observed(requests, k.request);
      }
      if k in Expanded(attempts) {
        assert k.attempt in Observed(requests, k.request);
      }
    }
  }

  function SumTotals(attempts: map<AttemptKey, nat>, keys: set<AttemptKey>): nat
    requires keys <= attempts.Keys
  {
    if keys == {} then 0
    else var k := LeastAttempt(keys); attempts[k] + SumTotals(attempts, keys - {k})
  }

  lemma {:induction false} UpToSize(total: nat)
    ensures |UpTo(total)| == total
  {
    if total > 0 {
      UpToSize(total - 1);
    }
  }

  lemma {:induction false} TaggedSize(key: AttemptKey, ns: set<nat>)
    ensures |set n | n in ns :: RequestKey(key, n)| == |ns|
  {
    var tagged := set n | n in ns :: RequestKey(key, n);
    if ns != {} {
      var n :| n in ns;
      TaggedSize(key, ns - {n});
      assert tagged == (set m | m in ns - {n} :: RequestKey(key, m)) + {RequestKey(key, n)};
    }
  }

  function ExpandedOn(attempts: map<AttemptKey, nat>, keys: set<AttemptKey>): set<RequestKey>
    requires keys <= attempts.Keys
  {
    set key, n | key in keys && n in UpTo(attempts[key]) :: RequestKey(key, n)
  }

  lemma {:induction false} ExpandedSize(attempts: map<AttemptKey, nat>, keys: set<AttemptKey>)
    requires keys <= attempts.Keys
    ensures |ExpandedOn(attempts, keys)| == SumTotals(attempts, keys)
  {
    if keys != {} {
      var k := LeastAttempt(keys);
      var here := set n | n in UpTo(attempts[k]) :: RequestKey(k, n);
      ExpandedSize(attempts, keys - {k});
      UpToSize(attempts[k]);
      TaggedSize(k, UpTo(attempts[k]));
      assert ExpandedOn(attempts, keys) == ExpandedOn(attempts, keys - {k}) + here;
      assert ExpandedOn(attempts, keys - {k}) !! here;
    }
  }

  /** The declared totals of a consistent stream sum to its number of requests. */
  lemma AttemptConservation(requests: Stream, attempts: map<AttemptKey, nat>)
    requires Counts(requests, attempts)
    ensures SumTotals(attempts, attempts.Keys) == |requests|
  {
    CountsDescribeKeys(requests, attempts);
    ExpandedSize(attempts, attempts.Keys);
    assert Expanded(attempts) == ExpandedOn(attempts, attempts.Keys);
    assert |requests| == |requests.Keys|;
  }

  /** Two consistent streams with the same totals have the same request keys. */
  lemma SameTotalsSameKeys(a: Stream, b: Stream, attempts: map<AttemptKey, nat>)
    requires Counts(a, attempts) && Counts(b, attempts)
    ensures a.Keys == b.Keys
  {
    CountsDescribeKeys(a, attempts);
    CountsDescribeKeys(b, attempts);
  }

  // ---- First difference ------------------------------------------------------------------

  datatype Difference =
    | MissingAttempts(group: AttemptKey)
    | AddedAttempts(group: AttemptKey)
    | AttemptMismatch(group: AttemptKey, before: nat, after: nat)
    | MissingRequest(key: RequestKey)
    | AddedRequest(key: RequestKey)
    | CanonicalBody(key: RequestKey)

  function AttemptDifference(a: map<AttemptKey, nat>, b: map<AttemptKey, nat>, key: AttemptKey): Option<Difference> {
    if key in a && key !in b then Some(MissingAttempts(key))
    else if key !in a && key in b then Some(AddedAttempts(key))
    else if key in a && key in b && a[key] != b[key] then Some(AttemptMismatch(key, a[key], b[key]))
    else None
  }

  function BodyDifference(a: Stream, b: Stream, key: RequestKey): Option<Difference> {
    if key in a && key in b then
      if ValueEq(a[key].canonical, b[key].canonical) then None else Some(CanonicalBody(key))
    else if key in a then Some(MissingRequest(key))
    else if key in b then Some(AddedRequest(key))
    else None
  }

  /** The first difference at one of the keys, if there is one. */
  ghost predicate IsFirst<K>(keys: seq<K>, diff: K -> Option<Difference>, d: Option<Difference>) {
    match d
    case None => forall i | 0 <= i < |keys| :: diff(keys[i]).None?
    case Some(_) => exists i :: 0 <= i < |keys| && diff(keys[i]) == d && forall j | 0 <= j < i :: diff(keys[j]).None?
  }

  /** Equal attempt tables and, key by key, equal bodies. */
  predicate SameStream(a: Stream, b: Stream) {
    a.Keys == b.Keys && forall k | k in a :: ValueEq(a[k].canonical, b[k].canonical)
  }

  /** The difference is one: what it says of the two sides is so. */
  predicate Truthful(a: Stream, b: Stream, x: map<AttemptKey, nat>, y: map<AttemptKey, nat>, d: Difference) {
    match d
    case MissingAttempts(group) => group in x && group !in y
    case AddedAttempts(group) => group !in x && group in y
    case AttemptMismatch(group, before, after) =>
      group in x && group in y && before == x[group] && after == y[group] && before != after
    case MissingRequest(key) => key in a && key !in b
    case AddedRequest(key) => key !in a && key in b
    case CanonicalBody(key) => key in a && key in b && !ValueEq(a[key].canonical, b[key].canonical)
  }

  /** `first_stream_difference`: attempt tables first, then bodies, each in key order. */
  method FirstStreamDifference(baseline: Stream, comparison: Stream,
                               baselineAttempts: map<AttemptKey, nat>, comparisonAttempts: map<AttemptKey, nat>)
    returns (d: Option<Difference>)
    ensures d.None? <==> baselineAttempts == comparisonAttempts && SameStream(baseline, comparison)
    ensures d.Some? ==> Truthful(baseline, comparison, baselineAttempts, comparisonAttempts, d.value)
    ensures baselineAttempts != comparisonAttempts ==>
              IsFirst(SortedAttempts(baselineAttempts.Keys + comparisonAttempts.Keys),
                      key => AttemptDifference(baselineAttempts, comparisonAttempts, key), d)
    ensures baselineAttempts == comparisonAttempts ==>
              IsFirst(SortedRequests(baseline.Keys + comparison.Keys),
                      key => BodyDifference(baseline, comparison, key), d)
  {
    hide SortedAttempts, SortedRequests, ValueEq;
    var groups := SortedAttempts(baselineAttempts.Keys + comparisonAttempts.Keys);
    for i := 0 to |groups|
      invariant forall j | 0 <= j < i :: AttemptDifference(baselineAttempts, comparisonAttempts, groups[j]).None?
    {
      d := AttemptDifference(baselineAttempts, comparisonAttempts, groups[i]);
      if d.Some? {
        return;
      }
    }
    SameTables(baselineAttempts, comparisonAttempts, groups);
    var keys := SortedRequests(baseline.Keys + comparison.Keys);
    for i := 0 to |keys|
      invariant forall j | 0 <= j < i :: BodyDifference(baseline, comparison, keys[j]).None?
    {
      d := BodyDifference(baseline, comparison, keys[i]);
      if d.Some? {
        BodiesDiffer(baseline, comparison, keys[i]);
        return;
      }
    }
    SameBodies(baseline, comparison, keys);
    d := None;
  }

  lemma SameTables(a: map<AttemptKey, nat>, b: map<AttemptKey, nat>, keys: seq<AttemptKey>)
    requires forall k :: k in keys <==> k in a.Keys + b.Keys
    requires forall j | 0 <= j < |keys| :: AttemptDifference(a, b, keys[j]).None?
    ensures a == b
  {
    forall k | k in a || k in b ensures k in a && k in b && a[k] == b[k] {
      assert k in keys;
      var j :| 0 <= j < |keys| && keys[j] == k;
    }
  }

  lemma BodiesDiffer(a: Stream, b: Stream, key: RequestKey)
    requires BodyDifference(a, b, key).Some?
    ensures !SameStream(a, b)
  {}

  lemma SameBodies(a: Stream, b: Stream, keys: seq<RequestKey>)
    requires forall k :: k in keys <==> k in a.Keys + b.Keys
    requires forall j | 0 <= j < |keys| :: BodyDifference(a, b, keys[j]).None?
    ensures SameStream(a, b)
  {
    forall k | k in a || k in b ensures k in a && k in b && ValueEq(a[k].canonical, b[k].canonical) {
      assert k in keys;
      var j :| 0 <= j < |keys| && keys[j] == k;
    }
  }

  /** After equal attempt tables, only a body can differ: no request is missing or added. */
  lemma OnlyBodiesRemain(a: Stream, b: Stream, attempts: map<AttemptKey, nat>, key: RequestKey)
    requires Counts(a, attempts) && Counts(b, attempts)
    ensures BodyDifference(a, b, key).Some? ==> BodyDifference(a, b, key) == Some(CanonicalBody(key))
  {
    SameTotalsSameKeys(a, b, attempts);
    assert key in a.Keys <==> key in b.Keys;
  }

  /** Streams with the same keys have the same attempt table up to declared totals: consistent totals agree. */
  lemma SameKeysSameTotals(a: Stream, b: Stream, x: map<AttemptKey, nat>, y: map<AttemptKey, nat>)
    requires Counts(a, x) && Counts(b, y) && a.Keys == b.Keys
    ensures x == y
  {
    assert AttemptKeys(a) == AttemptKeys(b);
    forall key | key in x ensures x[key] == y[key] {
      assert Observed(a, key) == Observed(b, key);
      UpToSize(x[key]);
      UpToSize(y[key]);
    }
  }
}
