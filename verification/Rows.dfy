/**
 The two determinism rows: row 63 counts differing leaves, row 64 decides whether
 the normalized request streams are identical.
 */
module Rows {
  import opened Prelude
  import opened Text
  import opened Json
  import opened Pointers
  import opened Comparison
  import opened Fractions
  import opened Normalization
  import opened Streams

  predicate RunsInOrder(runs: seq<Run>, expected: nat) {
    |runs| == expected && forall i | 0 <= i < |runs| :: runs[i].run == i + 1
  }

  // ---- Stream hashes ---------------------------------------------------------

  /** The `width` low bytes of a length, most significant first. */
  function BigEndian(n: nat, width: nat): (s: string)
    ensures |s| == width
  {
    if width == 0 then "" else BigEndian(n / 256, width - 1) + [(n % 256) as char]
  }

  function Limit(width: nat): nat { if width == 0 then 1 else 256 * Limit(width - 1) }

  /** The number whose bytes these are, the most significant first. */
  function BytesValue(s: string): nat {
    if s == "" then 0 else BytesValue(s[..|s| - 1]) * 256 + s[|s| - 1] as int
  }

  lemma {:induction false} BigEndianValue(n: nat, width: nat)
    requires n < Limit(width)
    ensures BytesValue(BigEndian(n, width)) == n
  {
    if width > 0 {
      var s := BigEndian(n, width);
      BigEndianValue(n / 256, width - 1);
      assert s[..width - 1] == BigEndian(n / 256, width - 1) && s[width - 1] == (n % 256) as char;
    }
  }

  /** Each body's text behind its eight-byte length. */
  function Framed(requests: Stream, keys: seq<RequestKey>): string
    requires forall k :: k in keys ==> k in requests
  {
    if keys == [] then ""
    else
      var text := Serialize(requests[keys[0]].canonical);
      BigEndian(|text|, 8) + (text + Framed(requests, keys[1..]))
  }

  /** The bytes that `normalized_stream_sha256` feeds to the hash. */
  function StreamBytes(requests: Stream): string { Framed(requests, SortedRequests(requests.Keys)) }

  /** Same keys and, key by key, the same body text. */
  predicate SameBytes(a: Stream, b: Stream) {
    a.Keys == b.Keys && forall k | k in a :: a[k].canonical == b[k].canonical
  }

  /** No body is longer than a 64-bit length can say. */
  predicate ShortBodies(requests: Stream) {
    forall k | k in requests :: |Serialize(requests[k].canonical)| < Limit(8)
  }

  lemma {:induction false} FramedEqual(a: Stream, b: Stream, keys: seq<RequestKey>)
    requires forall k :: k in keys ==> k in a && k in b && a[k].canonical == b[k].canonical
    ensures Framed(a, keys) == Framed(b, keys)
  {
    if keys != [] {
      FramedEqual(a, b, keys[1..]);
    }
  }

  lemma {:induction false} FramedInjective(a: Stream, b: Stream, keys: seq<RequestKey>)
    requires forall k :: k in keys ==> k in a && k in b
    requires ShortBodies(a) && ShortBodies(b)
    requires Framed(a, keys) == Framed(b, keys)
    ensures forall k :: k in keys ==> a[k].canonical == b[k].canonical
  {
    if keys != [] {
      hide Limit, BigEndian, Serialize;
      var s, t := Serialize(a[keys[0]].canonical), Serialize(b[keys[0]].canonical);
      assert keys[0] in keys;
      Cancel(BigEndian(|s|, 8), BigEndian(|t|, 8), s + Framed(a, keys[1..]), t + Framed(b, keys[1..]));
      BigEndianValue(|s|, 8);
      BigEndianValue(|t|, 8);
      Cancel(s, t, Framed(a, keys[1..]), Framed(b, keys[1..]));
      SerializeInjective(a[keys[0]].canonical, b[keys[0]].canonical);
      FramedInjective(a, b, keys[1..]);
    }
  }

  /** For two streams over the same keys, the hashed bytes agree exactly when all bodies do. */
  lemma StreamBytesDecide(a: Stream, b: Stream)
    requires a.Keys == b.Keys && ShortBodies(a) && ShortBodies(b)
    ensures StreamBytes(a) == StreamBytes(b) <==> SameBytes(a, b)
  {
    hide Framed, SortedRequests, ShortBodies;
    var keys := SortedRequests(a.Keys);
    if SameBytes(a, b) {
      FramedEqual(a, b, keys);
    }
    if StreamBytes(a) == StreamBytes(b) {
      FramedInjective(a, b, keys);
    }
  }

  // ---- Row 64: cross-run reproducibility --------------------------------------------

  datatype CrossRun = CrossRun(
    identical: bool,
    streamCount: nat,
    attemptCount: nat,
    hashes: map<nat, string>,
    firstDifference: Option<(nat, Difference)>,
    complete: bool,
    error: Option<StreamError>)

  function CrossRunIncomplete(error: StreamError): CrossRun {
    CrossRun(false, 0, 0, map[], None, false, Some(error))
  }

  ghost predicate CrossRunComplete(runs: seq<Run>, expected: nat) {
    && RunsInOrder(runs, expected)
    && (forall i | 0 <= i < |runs| :: Usable(runs[i]))
    && (exists i | 0 <= i < |runs| :: RunStream(runs[i]) != map[])
  }

  /** Why a run's requests cannot be used. */
  ghost predicate RunFails(run: Run, error: StreamError) {
    if !Collectable(run) then error == CollectError(run)
    else exists key :: FailsAt(RunStream(run), key, error)
  }

  function CollectError(run: Run): StreamError {
    if run.collectorComplete then DuplicateKey(run.run) else IncompleteCollector(run.run)
  }

  ghost predicate Usable(run: Run) { Collectable(run) && AttemptsConsistent(RunStream(run)) }

  /** The error of the first run, in order, that cannot be used. */
  ghost predicate FirstUnusable(runs: seq<Run>, i: int, error: StreamError) {
    0 <= i < |runs| && (forall j | 0 <= j < i :: Usable(runs[j])) && !Usable(runs[i]) && RunFails(runs[i], error)
  }

  /** What row 64 reports of runs it cannot compare. */
  ghost predicate CrossRunFails(runs: seq<Run>, expected: nat, error: StreamError) {
    if !RunsInOrder(runs, expected) then error == UnorderedRuns
    else if forall i | 0 <= i < |runs| :: Usable(runs[i]) then error == if runs == [] then NoBaseline else EmptyStreams
    else exists i :: FirstUnusable(runs, i, error)
  }

  function RunStreams(runs: seq<Run>): (streams: seq<Stream>)
    ensures |streams| == |runs| && forall i | 0 <= i < |runs| :: streams[i] == RunStream(runs[i])
  {
    seq(|runs|, i requires 0 <= i < |runs| => RunStream(runs[i]))
  }

  /** The first `n` streams agree with the baseline. */
  predicate SameAsFirst(streams: seq<Stream>, n: nat)
    requires 0 < n <= |streams|
  {
    forall i | 0 <= i < n :: SameStream(streams[0], streams[i])
  }

  predicate HashesAgree(streams: seq<Stream>, sha: string -> string) {
    forall i | 0 <= i < |streams| :: sha(StreamBytes(streams[i])) == sha(StreamBytes(streams[0]))
  }

  /** The hash of each run, by run number. */
  ghost predicate HashTable(streams: seq<Stream>, sha: string -> string, hashes: map<nat, string>) {
    && (forall n :: n in hashes <==> 1 <= n <= |streams|)
    && forall i | 0 <= i < |streams| :: hashes[i + 1] == sha(StreamBytes(streams[i]))
  }

  lemma SameStreamReflexive(a: Stream)
    ensures SameStream(a, a)
  {
    forall k | k in a { ValueEqReflexive(a[k].canonical); }
  }

  predicate TablesCount(streams: seq<Stream>, tables: seq<map<AttemptKey, nat>>) {
    |streams| == |tables| && forall i | 0 <= i < |streams| :: Counts(streams[i], tables[i])
  }

  /** Everything that row 64 collects before it compares: streams, attempt tables and hashes. */
  method CollectStreams(runs: seq<Run>, sha: string -> string)
    returns (streams: seq<Stream>, tables: seq<map<AttemptKey, nat>>, hashes: map<nat, string>,
             error: Option<StreamError>)
    requires RunsInOrder(runs, |runs|)
    ensures error.None? <==> forall i | 0 <= i < |runs| :: Usable(runs[i])
    ensures error.Some? ==> exists i :: FirstUnusable(runs, i, error.value)
    ensures error.None? ==> streams == RunStreams(runs) && TablesCount(streams, tables)
    ensures error.None? ==> HashTable(streams, sha, hashes)
  {
    hide RunStream, StreamBytes, Collectable, AttemptsConsistent, Counts, FailsAt;
    streams, tables, hashes := [], [], map[];
    for i := 0 to |runs|
      invariant |streams| == i && TablesCount(streams, tables)
      invariant forall j | 0 <= j < i :: Usable(runs[j])
      invariant forall j | 0 <= j < i :: streams[j] == RunStream(runs[j])
      invariant HashTable(streams, sha, hashes)
    {
      var requests := ComparableRequests(runs[i]);
      if requests.Err? {
        assert FirstUnusable(runs, i, requests.error);
        return streams, tables, hashes, Some(requests.error);
      }
      var attempts := AttemptMultiplicity(requests.value);
      if attempts.Err? {
        assert FirstUnusable(runs, i, attempts.error);
        return streams, tables, hashes, Some(attempts.error);
      }
      hashes := hashes[runs[i].run := sha(StreamBytes(requests.value))];
      streams := streams + [requests.value];
      tables := tables + [attempts.value];
    }
    error := None;
  }

  /** Compare the runs with the baseline, in order, up to the first difference. */
  method CompareWithBaseline(streams: seq<Stream>, tables: seq<map<AttemptKey, nat>>)
    returns (first: Option<(nat, Difference)>)
    requires streams != [] && TablesCount(streams, tables)
    ensures first.None? <==> SameAsFirst(streams, |streams|)
    ensures first.Some? ==>
              var n := first.value.0;
              2 <= n <= |streams| && SameAsFirst(streams, n - 1) && !SameStream(streams[0], streams[n - 1])
  {
    hide SameStream, Counts;
    SameStreamReflexive(streams[0]);
    for index := 1 to |streams|
      invariant SameAsFirst(streams, index)
    {
      var d := FirstStreamDifference(streams[0], streams[index], tables[0], tables[index]);
      TablesFollow(streams[0], streams[index], tables[0], tables[index]);
      if d.Some? {
        return Some((index + 1, d.value));
      }
    }
    first := None;
  }

  /** Streams that agree have equally many requests and equal attempt tables. */
  lemma TablesFollow(a: Stream, b: Stream, x: map<AttemptKey, nat>, y: map<AttemptKey, nat>)
    requires Counts(a, x) && Counts(b, y)
    ensures SameStream(a, b) ==> x == y && |a| == |b|
  {
    hide ValueEq, Counts;
    if SameStream(a, b) {
      SameKeysSameTotals(a, b, x, y);
      assert |a| == |a.Keys| && |b| == |b.Keys|;
    }
  }

  lemma AllTablesFollow(streams: seq<Stream>, tables: seq<map<AttemptKey, nat>>)
    requires streams != [] && TablesCount(streams, tables) && SameAsFirst(streams, |streams|)
    ensures forall i | 0 <= i < |streams| :: |streams[i]| == |streams[0]| && tables[i] == tables[0]
  {
    hide SameStream, Counts;
    forall i | 0 <= i < |streams| ensures |streams[i]| == |streams[0]| && tables[i] == tables[0] {
      TablesFollow(streams[0], streams[i], tables[0], tables[i]);
    }
  }

  lemma HashTableAgrees(streams: seq<Stream>, sha: string -> string, hashes: map<nat, string>)
    requires streams != [] && HashTable(streams, sha, hashes)
    ensures 1 in hashes && ((forall n | n in hashes :: hashes[n] == hashes[1]) <==> HashesAgree(streams, sha))
  {
    hide StreamBytes;
    if forall n | n in hashes :: hashes[n] == hashes[1] {
      forall i | 0 <= i < |streams| ensures sha(StreamBytes(streams[i])) == sha(StreamBytes(streams[0])) {
        assert hashes[i + 1] == hashes[1];
      }
    }
    if HashesAgree(streams, sha) {
      forall n | n in hashes ensures hashes[n] == hashes[1] {
        assert hashes[(n - 1) + 1] == sha(StreamBytes(streams[n - 1]));
      }
    }
  }

  /** `evaluate_cross_run_reproducibility` */
  method EvaluateCrossRunReproducibility(runs: seq<Run>, expected: nat, sha: string -> string) returns (r: CrossRun)
    ensures r.complete <==> CrossRunComplete(runs, expected)
    ensures r.complete <==> r.error.None?
    ensures r.complete ==> var streams := RunStreams(runs);
              && (r.identical <==> SameAsFirst(streams, |streams|) && HashesAgree(streams, sha))
              && (r.firstDifference.None? <==> SameAsFirst(streams, |streams|))
              && HashTable(streams, sha, r.hashes)
              && r.streamCount == |runs| && r.attemptCount == |streams[0]|
    ensures r.complete && r.firstDifference.Some? ==>
              var streams, n := RunStreams(runs), r.firstDifference.value.0;
              2 <= n <= |streams| && SameAsFirst(streams, n - 1) && !SameStream(streams[0], streams[n - 1])
    ensures !r.complete ==> !r.identical && r.firstDifference.None? && CrossRunFails(runs, expected, r.error.value)
  {
    hide RunStream, StreamBytes, SameStream, Usable, Counts, SameAsFirst, HashesAgree, FirstUnusable;
    if |runs| != expected || exists i | 0 <= i < |runs| :: runs[i].run != i + 1 {
      return CrossRunIncomplete(UnorderedRuns);
    }
    var streams, tables, hashes, error := CollectStreams(runs, sha);
    if error.Some? {
      return CrossRunIncomplete(error.value);
    }
    if |streams| == 0 {
      return CrossRunIncomplete(NoBaseline);
    }
    if forall i | 0 <= i < |streams| :: streams[i] == map[] {
      return CrossRunIncomplete(EmptyStreams);
    }
    var firstDifference := CompareWithBaseline(streams, tables);
    HashTableAgrees(streams, sha, hashes);
    if SameAsFirst(streams, |streams|) {
      AllTablesFollow(streams, tables);
    }
    var identical := firstDifference.None?
                     && (forall i | 0 <= i < |streams| :: |streams[i]| == |streams[0]|)
                     && (forall i | 0 <= i < |tables| :: tables[i] == tables[0])
                     && (forall n | n in hashes :: hashes[n] == hashes[1]);
    r := CrossRun(identical, |runs|, |streams[0]|, hashes, firstDifference, true, None);
  }

  // ---- Row 63: nondeterministic fields -------------------------------------------------

  /** One leaf comparison, or one wholly missing request, as row 63 counts it. */
  datatype Contribution = Contribution(
    pointer: string,
    run: nat,
    dialects: set<string>,
    beforeType: string,
    afterType: string,
    varies: bool)

  datatype Field = Field(
    occurrences: nat,
    runs: set<nat>,
    beforeTypes: set<string>,
    afterTypes: set<string>,
    dialects: set<string>)

  type Fields = map<string, Field>

  function JsonType(v: Option<Value>): string {
    match v
    case None => "missing"
    case Some(Null) => "null"
    case Some(Bool(_)) => "boolean"
    case Some(Number(_)) => "number"
    case Some(Str(_)) => "string"
    case Some(Array(_)) => "array"
    case Some(Object(_)) => "object"
  }

  /** The type of a value shows in the first character of its text. */
  lemma TypeByText(v: Value)
    ensures var c, kind := Serialize(v)[0], JsonType(Some(v));
            && (kind == "null" <==> c == 'n') && (kind == "boolean" <==> c == 't' || c == 'f')
            && (kind == "string" <==> c == '"') && (kind == "array" <==> c == '[') && (kind == "object" <==> c == '{')
            && (kind == "number" <==> NumberChar(c)) && kind != "missing"
  {
    WriteStart(v, "");
    TypesDiffer();
  }

  lemma TypesDiffer()
    ensures var kinds := ["null", "boolean", "number", "string", "array", "object", "missing"];
            forall i, j | 0 <= i < j < 7 :: kinds[i] != kinds[j]
  {
    assert "null"[1] == 'u' && "number"[1] == 'u' && |"null"| != |"number"|;
  }

  function Dialects(b: Stream, a: Stream, key: RequestKey): set<string> {
    (if key in b then {b[key].dialect} else {}) + (if key in a then {a[key].dialect} else {})
  }

  function OccurrenceContribution(o: Occurrence, dialects: set<string>, run: nat): Contribution {
    Contribution(o.pointer, run, dialects, JsonType(o.before), JsonType(o.after), !OptEq(o.before, o.after))
  }

  function OccurrenceContributions(occurrences: seq<Occurrence>, dialects: set<string>, run: nat): (cs: seq<Contribution>)
    ensures |cs| == |occurrences|
    ensures forall i | 0 <= i < |cs| :: cs[i] == OccurrenceContribution(occurrences[i], dialects, run)
  {
    seq(|occurrences|, i requires 0 <= i < |occurrences| => OccurrenceContribution(occurrences[i], dialects, run))
  }

  function MissingContribution(b: Stream, a: Stream, key: RequestKey, run: nat): Contribution {
    Contribution("", run, Dialects(b, a, key), if key in b then "object" else "missing",
                 if key in a then "object" else "missing", true)
  }

  /** A request that only one run has is one varying leaf at the root, an object on its side and missing on the other. */
  lemma MissingRequestVaries(b: Stream, a: Stream, key: RequestKey, run: nat)
    requires key in b <==> key !in a
    ensures var cs := KeyContributions(b, a, key, run);
            && |cs| == 1 && cs[0].varies && cs[0].pointer == "" && cs[0].run == run
            && cs[0].dialects == {if key in b then b[key].dialect else a[key].dialect}
            && (key in b ==> cs[0].beforeType == "object" && cs[0].afterType == "missing")
            && (key in a ==> cs[0].beforeType == "missing" && cs[0].afterType == "object")
  {}

  function KeyContributions(b: Stream, a: Stream, key: RequestKey, run: nat): seq<Contribution> {
    if key in b && key in a then
      OccurrenceContributions(ComparisonOccurrences(b[key].canonical, a[key].canonical), Dialects(b, a, key), run)
    else
      [MissingContribution(b, a, key, run)]
  }

  function ContributionsOn(b: Stream, a: Stream, keys: seq<RequestKey>, run: nat): seq<Contribution> {
    if keys == [] then []
    else ContributionsOn(b, a, keys[..|keys| - 1], run) + KeyContributions(b, a, keys[|keys| - 1], run)
  }

  /** All contributions of one comparison run, in key order. */
  function Contributions(b: Stream, a: Stream, run: nat): seq<Contribution> {
    ContributionsOn(b, a, SortedRequests(b.Keys + a.Keys), run)
  }

  /** The contributions of the first `n` runs compared with run 1. */
  function RunContributions(streams: seq<Stream>, n: nat): seq<Contribution>
    requires n <= |streams|
  {
    if n <= 1 then []
    else RunContributions(streams, n - 1) + Contributions(streams[0], streams[n - 1], n)
  }

  function CountVarying(cs: seq<Contribution>): nat {
    if cs == [] then 0 else CountVarying(cs[..|cs| - 1]) + if cs[|cs| - 1].varies then 1 else 0
  }

  function CountAt(cs: seq<Contribution>, pointer: string): nat {
    if cs == [] then 0
    else CountAt(cs[..|cs| - 1], pointer) + if cs[|cs| - 1].varies && cs[|cs| - 1].pointer == pointer then 1 else 0
  }

  ghost predicate AnyCritical(cs: seq<Contribution>) {
    exists c | c in cs :: c.varies && IsCriticalPointer(c.dialects, c.pointer)
  }

  /** The score of a set of comparisons: the fraction of contributions that do not vary. */
  function Score(varying: nat, comparable: nat): real
    requires comparable > 0
  {
    1.0 - varying as real / comparable as real
  }

  /** The score without its division: what it is the share of, its extremes, and the bound of the envelope. */
  lemma ScoreMeans(varying: nat, comparable: nat)
    requires varying <= comparable && comparable > 0
    ensures Score(varying, comparable) * comparable as real == (comparable - varying) as real
    ensures 0.0 <= Score(varying, comparable) <= 1.0
    ensures Score(varying, comparable) == 1.0 <==> varying == 0
    ensures Score(varying, comparable) == 0.0 <==> varying == comparable
    ensures Score(varying, comparable) >= 0.99 <==> 100 * varying <= comparable
  {
    assert Score(varying, comparable) == 1.0 - Share(varying, comparable);
    hide Score, Share;
    ShareLeft(varying, comparable);
    ShareHundredth(varying, comparable);
    ShareOrder(0, varying, comparable);
    ShareBounds(varying, comparable);
    NoShare(comparable);
  }

  /** The counters are numbers of positions. */
  lemma {:induction false} VaryingPositions(cs: seq<Contribution>)
    ensures CountVarying(cs) == |Positions(cs, (c: Contribution) => c.varies)|
  {
    if cs != [] {
      VaryingPositions(cs[..|cs| - 1]);
      PositionsSnoc(cs, (c: Contribution) => c.varies);
    } else {
      NoPositions(cs, (c: Contribution) => c.varies);
    }
  }

  lemma {:induction false} PointerPositions(cs: seq<Contribution>, pointer: string)
    ensures CountAt(cs, pointer) == |Positions(cs, (c: Contribution) => c.varies && c.pointer == pointer)|
  {
    if cs != [] {
      PointerPositions(cs[..|cs| - 1], pointer);
      PositionsSnoc(cs, (c: Contribution) => c.varies && c.pointer == pointer);
    } else {
      NoPositions(cs, (c: Contribution) => c.varies && c.pointer == pointer);
    }
  }

  /** What the field report says about one pointer. */
  predicate FieldMeans(cs: seq<Contribution>, pointer: string, field: Field) {
    && field.occurrences == CountAt(cs, pointer)
    && field.runs == (set c | c in cs && c.varies && c.pointer == pointer :: c.run)
    && field.beforeTypes == (set c | c in cs && c.varies && c.pointer == pointer :: c.beforeType)
    && field.afterTypes == (set c | c in cs && c.varies && c.pointer == pointer :: c.afterType)
    && field.dialects == (set c, d | c in cs && c.varies && c.pointer == pointer && d in c.dialects :: d)
  }

  predicate FieldsMean(cs: seq<Contribution>, fields: Fields) {
    && fields.Keys == (set c | c in cs && c.varies :: c.pointer)
    && forall p | p in fields :: FieldMeans(cs, p, fields[p])
  }

  function RecordField(fields: Fields, c: Contribution): Fields {
    var field := if c.pointer in fields then fields[c.pointer] else Field(0, {}, {}, {}, {});
    fields[c.pointer := Field(field.occurrences + 1, field.runs + {c.run}, field.beforeTypes + {c.beforeType},
                              field.afterTypes + {c.afterType}, field.dialects + c.dialects)]
  }

  lemma NothingCounted(cs: seq<Contribution>, pointer: string)
    requires forall c :: c in cs && c.varies ==> c.pointer != pointer
    ensures CountAt(cs, pointer) == 0
  {
    if cs != [] {
      assert cs[|cs| - 1] in cs;
      NothingCounted(cs[..|cs| - 1], pointer);
    }
  }

  lemma FieldKept(cs: seq<Contribution>, c: Contribution, pointer: string, field: Field)
    requires FieldMeans(cs, pointer, field) && !(c.varies && c.pointer == pointer)
    ensures FieldMeans(cs + [c], pointer, field)
  {
    assert (cs + [c])[..|cs|] == cs;
  }

  lemma FieldGrows(cs: seq<Contribution>, c: Contribution, field: Field)
    requires c.varies && FieldMeans(cs, c.pointer, field)
    ensures FieldMeans(cs + [c], c.pointer,
                       Field(field.occurrences + 1, field.runs + {c.run}, field.beforeTypes + {c.beforeType},
                             field.afterTypes + {c.afterType}, field.dialects + c.dialects))
  {
    assert (cs + [c])[..|cs|] == cs;
    assert c in cs + [c];
  }

  lemma FieldsStep(cs: seq<Contribution>, c: Contribution, fields: Fields)
    requires FieldsMean(cs, fields)
    ensures FieldsMean(cs + [c], if c.varies then RecordField(fields, c) else fields)
  {
    hide FieldMeans;
    var next := if c.varies then RecordField(fields, c) else fields;
    assert c in cs + [c];
    if c.varies {
      if c.pointer !in fields {
        NothingCounted(cs, c.pointer);
        EmptyField(cs, c.pointer);
      }
      FieldGrows(cs, c, if c.pointer in fields then fields[c.pointer] else Field(0, {}, {}, {}, {}));
    }
    forall p | p in next && !(c.varies && p == c.pointer) ensures FieldMeans(cs + [c], p, next[p]) {
      FieldKept(cs, c, p, fields[p]);
    }
  }

  lemma EmptyField(cs: seq<Contribution>, pointer: string)
    requires forall c :: c in cs && c.varies ==> c.pointer != pointer
    ensures FieldMeans(cs, pointer, Field(0, {}, {}, {}, {}))
  {
    NothingCounted(cs, pointer);
  }

  // ---- Row 63: counting -------------------------------------------------------------------

  datatype Tally = Tally(comparable: nat, varying: nat, fields: Fields)

  predicate TallyMeans(cs: seq<Contribution>, tally: Tally) {
    tally.comparable == |cs| && tally.varying == CountVarying(cs) && FieldsMean(cs, tally.fields)
  }

  function Tallied(tally: Tally, c: Contribution): Tally {
    if c.varies then Tally(tally.comparable + 1, tally.varying + 1, RecordField(tally.fields, c))
    else tally.(comparable := tally.comparable + 1)
  }

  lemma TallyStep(cs: seq<Contribution>, tally: Tally, c: Contribution)
    requires TallyMeans(cs, tally)
    ensures TallyMeans(cs + [c], Tallied(tally, c))
  {
    hide FieldsMean, RecordField;
    FieldsStep(cs, c, tally.fields);
    assert (cs + [c])[..|cs|] == cs;
  }

  /** The counters that one comparison run keeps for itself. */
  ghost predicate ComparisonMeans(cs: seq<Contribution>, comparable: nat, varying: nat, critical: bool) {
    comparable == |cs| && varying == CountVarying(cs) && (critical <==> AnyCritical(cs))
  }

  lemma ComparisonStep(cs: seq<Contribution>, c: Contribution, comparable: nat, varying: nat, critical: bool)
    requires ComparisonMeans(cs, comparable, varying, critical)
    ensures ComparisonMeans(cs + [c], comparable + 1, varying + (if c.varies then 1 else 0),
                            critical || (c.varies && IsCriticalPointer(c.dialects, c.pointer)))
  {
    hide IsCriticalPointer;
    assert (cs + [c])[..|cs|] == cs;
    assert c in cs + [c];
    assert forall x :: x in cs + [c] <==> x in cs || x == c;
  }

  lemma AppendOne<T>(a: seq<T>, b: seq<T>, c: seq<T>, n: nat)
    requires n < |c|
    ensures a + (b + c[..n + 1]) == (a + (b + c[..n])) + [c[n]]
    ensures b + c[..n + 1] == (b + c[..n]) + [c[n]]
  {}

  /** Count one compared pair of bodies, occurrence by occurrence. */
  method CountOccurrences(occurrences: seq<Occurrence>, dialects: set<string>, run: nat, tally: Tally,
                          comparable: nat, varying: nat, critical: bool,
                          ghost all: seq<Contribution>, ghost here: seq<Contribution>)
    returns (tally': Tally, comparable': nat, varying': nat, critical': bool)
    requires TallyMeans(all + here, tally) && ComparisonMeans(here, comparable, varying, critical)
    ensures var cs := OccurrenceContributions(occurrences, dialects, run);
            TallyMeans(all + (here + cs), tally') && ComparisonMeans(here + cs, comparable', varying', critical')
  {
    hide TallyMeans, ComparisonMeans, IsCriticalPointer, OptEq, RecordField, OccurrenceContributions, JsonType;
    ghost var cs := OccurrenceContributions(occurrences, dialects, run);
    tally', comparable', varying', critical' := tally, comparable, varying, critical;
    assert here + cs[..0] == here;
    for i := 0 to |occurrences|
      invariant TallyMeans(all + (here + cs[..i]), tally')
      invariant ComparisonMeans(here + cs[..i], comparable', varying', critical')
    {
      var o := occurrences[i];
      TallyStep(all + (here + cs[..i]), tally', cs[i]);
      ComparisonStep(here + cs[..i], cs[i], comparable', varying', critical');
      AppendOne(all, here, cs, i);
      var contribution := OccurrenceContribution(o, dialects, run);
      tally' := Tallied(tally', contribution);
      comparable' := comparable' + 1;
      if contribution.varies {
        varying' := varying' + 1;
        critical' := critical' || IsCriticalPointer(dialects, o.pointer);
      }
    }
    assert cs[..|occurrences|] == cs;
  }

  lemma MissingIsCritical(c: Contribution)
    requires c.pointer == ""
    ensures IsCriticalPointer(c.dialects, c.pointer)
  {}

  /** One key of a comparison: a missing request counts once, a shared one leaf by leaf. */
  method CompareKey(b: Stream, a: Stream, key: RequestKey, run: nat, tally: Tally,
                    comparable: nat, varying: nat, critical: bool,
                    ghost all: seq<Contribution>, ghost here: seq<Contribution>)
    returns (tally': Tally, comparable': nat, varying': nat, critical': bool)
    requires TallyMeans(all + here, tally) && ComparisonMeans(here, comparable, varying, critical)
    ensures var cs := KeyContributions(b, a, key, run);
            TallyMeans(all + (here + cs), tally') && ComparisonMeans(here + cs, comparable', varying', critical')
  {
    hide TallyMeans, ComparisonMeans, IsCriticalPointer, RecordField, Visit, Dialects;
    if key in b && key in a {
      var occurrences := VisitInto(Some(b[key].canonical), Some(a[key].canonical), "", []);
      assert occurrences == ComparisonOccurrences(b[key].canonical, a[key].canonical);
      tally', comparable', varying', critical' :=
        CountOccurrences(occurrences, Dialects(b, a, key), run, tally, comparable, varying, critical, all, here);
    } else {
      var c := MissingContribution(b, a, key, run);
      TallyStep(all + here, tally, c);
      ComparisonStep(here, c, comparable, varying, critical);
      MissingIsCritical(c);
      AppendAssociative(all, here, [c]);
      tally' := Tallied(tally, c);
      comparable', varying', critical' := comparable + 1, varying + 1, true;
    }
  }

  /** Compare one run with the baseline, key by key. */
  method CompareRun(b: Stream, a: Stream, run: nat, tally: Tally, ghost all: seq<Contribution>)
    returns (tally': Tally, comparable: nat, varying: nat, critical: bool)
    requires TallyMeans(all, tally)
    ensures TallyMeans(all + Contributions(b, a, run), tally')
    ensures ComparisonMeans(Contributions(b, a, run), comparable, varying, critical)
  {
    hide TallyMeans, SortedRequests, KeyContributions;
    var keys := SortedRequests(b.Keys + a.Keys);
    tally', comparable, varying, critical := tally, 0, 0, false;
    assert all + ContributionsOn(b, a, keys[..0], run) == all;
    for i := 0 to |keys|
      invariant TallyMeans(all + ContributionsOn(b, a, keys[..i], run), tally')
      invariant ComparisonMeans(ContributionsOn(b, a, keys[..i], run), comparable, varying, critical)
    {
      hide ComparisonMeans, ContributionsOn;
      ContributionsSnoc(b, a, keys, i, run);
      tally', comparable, varying, critical :=
        CompareKey(b, a, keys[i], run, tally', comparable, varying, critical, all,
                   ContributionsOn(b, a, keys[..i], run));
    }
    assert keys[..|keys|] == keys;
  }

  lemma ContributionsSnoc(b: Stream, a: Stream, keys: seq<RequestKey>, n: nat, run: nat)
    requires n < |keys|
    ensures ContributionsOn(b, a, keys[..n + 1], run)
         == ContributionsOn(b, a, keys[..n], run) + KeyContributions(b, a, keys[n], run)
  {
    assert keys[..n + 1][..n] == keys[..n];
  }

  // ---- Row 63: evaluation --------------------------------------------------------------------

  datatype FieldEvaluation = FieldEvaluation(
    score: real,
    comparable: nat,
    varying: nat,
    pointerCount: nat,
    criticalCount: nat,
    fields: Fields,
    complete: bool,
    envelopePass: bool,
    error: Option<StreamError>)

  function FieldsIncomplete(error: StreamError): FieldEvaluation {
    FieldEvaluation(0.0, 0, 0, 0, 0, map[], false, false, Some(error))
  }

  /** Ordered, collectable runs, at least one comparison, and no comparison without a request. */
  predicate FieldsComplete(runs: seq<Run>, expected: nat) {
    && RunsInOrder(runs, expected)
    && |runs| >= 2
    && (forall i | 0 <= i < |runs| :: Collectable(runs[i]))
    && (forall i | 1 <= i < |runs| :: RunStream(runs[0]) != map[] || RunStream(runs[i]) != map[])
  }

  /** The first comparison without any request. */
  predicate EmptyComparison(streams: seq<Stream>, i: int) {
    && 1 <= i < |streams| && streams[0] == map[] && streams[i] == map[]
    && forall j | 1 <= j < i :: streams[j] != map[]
  }

  /** The first run, in order, whose requests cannot be collected. */
  predicate FirstUncollectable(runs: seq<Run>, i: int) {
    0 <= i < |runs| && !Collectable(runs[i]) && forall j | 0 <= j < i :: Collectable(runs[j])
  }

  /** What row 63 reports of runs it cannot compare. */
  ghost predicate FieldsFail(runs: seq<Run>, expected: nat, error: StreamError) {
    if !RunsInOrder(runs, expected) then error == UnorderedRuns
    else if exists i | 0 <= i < |runs| :: !Collectable(runs[i]) then
      exists i :: FirstUncollectable(runs, i) && error == CollectError(runs[i])
    else if runs == [] then error == NoBaseline
    else if |runs| == 1 then error == ZeroDenominator(0)
    else exists i :: EmptyComparison(RunStreams(runs), i) && error == ZeroDenominator(i + 1)
  }

  function CriticalPointers(fields: Fields): set<string> {
    set p | p in fields && IsCriticalPointer(fields[p].dialects, p)
  }

  /** Of each comparison's contributions at most one in a hundred varies, and none of them at a critical pointer. */
  ghost predicate WithinEnvelope(streams: seq<Stream>) {
    forall i | 1 <= i < |streams| ::
      var cs := Contributions(streams[0], streams[i], i + 1); 100 * CountVarying(cs) <= |cs| && !AnyCritical(cs)
  }

  lemma EnvelopeWithoutScores(streams: seq<Stream>)
    requires forall i | 1 <= i < |streams| :: streams[0] != map[] || streams[i] != map[]
    ensures ComparisonsPass(streams, |streams|) <==> WithinEnvelope(streams)
  {
    hide Contributions, CountVarying, AnyCritical, Score;
    forall i | 1 <= i < |streams|
      ensures var cs := Contributions(streams[0], streams[i], i + 1);
              cs != [] && (Score(CountVarying(cs), |cs|) >= 0.99 <==> 100 * CountVarying(cs) <= |cs|)
    {
      var cs := Contributions(streams[0], streams[i], i + 1);
      ContributionsNonEmpty(streams[0], streams[i], i + 1);
      VaryingAtMostAll(cs);
      ScoreMeans(CountVarying(cs), |cs|);
    }
  }

  /** Runs that agree vary nowhere, and so they are within the envelope. */
  lemma AgreeingRunsPass(streams: seq<Stream>)
    requires streams != [] && SameAsFirst(streams, |streams|)
    ensures WithinEnvelope(streams) && CountVarying(RunContributions(streams, |streams|)) == 0
  {
    hide Contributions, CountVarying, IsCriticalPointer, SameStream;
    RunsVary(streams, |streams|);
    forall i | 1 <= i < |streams|
      ensures var cs := Contributions(streams[0], streams[i], i + 1); CountVarying(cs) == 0 && !AnyCritical(cs)
    {
      ComparisonVaries(streams[0], streams[i], i + 1);
      NothingVaries(Contributions(streams[0], streams[i], i + 1));
    }
  }

  /** One comparison passes with a score of at least 0.99 and no critical variation. */
  ghost predicate ComparisonPasses(cs: seq<Contribution>)
    requires cs != []
  {
    Score(CountVarying(cs), |cs|) >= 0.99 && !AnyCritical(cs)
  }

  lemma {:induction false} OnNonEmpty(b: Stream, a: Stream, keys: seq<RequestKey>, run: nat)
    ensures ContributionsOn(b, a, keys, run) != [] <==> keys != []
  {
    hide Visit;
    if keys != [] {
      var key := keys[|keys| - 1];
      if key in b && key in a {
        ComparisonSoundAndComplete(b[key].canonical, a[key].canonical);
      }
    }
  }

  lemma ContributionsNonEmpty(b: Stream, a: Stream, run: nat)
    ensures Contributions(b, a, run) != [] <==> b != map[] || a != map[]
  {
    hide ContributionsOn;
    var keys := SortedRequests(b.Keys + a.Keys);
    OnNonEmpty(b, a, keys, run);
    if b != map[] {
      var k :| k in b;
      assert k in keys;
    } else if a != map[] {
      var k :| k in a;
      assert k in keys;
    } else {
      assert b.Keys + a.Keys == {};
    }
  }

  method CollectRequests(runs: seq<Run>) returns (streams: seq<Stream>, error: Option<StreamError>)
    ensures error.None? <==> forall i | 0 <= i < |runs| :: Collectable(runs[i])
    ensures error.None? ==> streams == RunStreams(runs)
    ensures error.Some? ==> exists i :: FirstUncollectable(runs, i) && error.value == CollectError(runs[i])
  {
    hide RunStream, Collectable;
    streams := [];
    for i := 0 to |runs|
      invariant |streams| == i
      invariant forall j | 0 <= j < i :: Collectable(runs[j]) && streams[j] == RunStream(runs[j])
    {
      var requests := ComparableRequests(runs[i]);
      if requests.Err? {
        assert FirstUncollectable(runs, i);
        return streams, Some(requests.error);
      }
      streams := streams + [requests.value];
    }
    error := None;
  }

  ghost predicate ComparisonsPass(streams: seq<Stream>, n: nat)
    requires n <= |streams|
  {
    forall i | 1 <= i < n ::
      var cs := Contributions(streams[0], streams[i], i + 1);
      cs != [] && ComparisonPasses(cs)
  }

  /** `evaluate_nondeterministic_fields` */
  method EvaluateNondeterministicFields(runs: seq<Run>, expected: nat) returns (r: FieldEvaluation)
    ensures r.complete <==> FieldsComplete(runs, expected)
    ensures r.complete <==> r.error.None?
    ensures r.complete ==> var streams := RunStreams(runs);
              var cs := RunContributions(streams, |streams|);
              && r.comparable == |cs| > 0
              && r.varying == CountVarying(cs)
              && FieldsMean(cs, r.fields)
              && r.pointerCount == |r.fields|
              && r.criticalCount == |CriticalPointers(r.fields)|
              && r.score * r.comparable as real == (r.comparable - r.varying) as real
              && (r.envelopePass <==> WithinEnvelope(streams))
              && (SameAsFirst(streams, |streams|) ==> r.envelopePass && r.score == 1.0)
    ensures r.complete ==> (r.score == 1.0 <==> r.varying == 0) && (r.score == 0.0 <==> r.varying == r.comparable)
    ensures !r.complete ==> !r.envelopePass && FieldsFail(runs, expected, r.error.value)
  {
    hide RunStream, Collectable, Contributions, CountVarying, AnyCritical, FieldsMean, CriticalPointers, FirstUncollectable,
         CollectError, Score, WithinEnvelope, ComparisonsPass, SameStream, RunContributions;
    if |runs| != expected || exists i | 0 <= i < |runs| :: runs[i].run != i + 1 {
      return FieldsIncomplete(UnorderedRuns);
    }
    var streams, error := CollectRequests(runs);
    if error.Some? {
      return FieldsIncomplete(error.value);
    }
    if |streams| == 0 {
      return FieldsIncomplete(NoBaseline);
    }
    var tally, pass, empty := CompareRuns(streams);
    if empty.Some? {
      return FieldsIncomplete(ZeroDenominator(empty.value + 1));
    }
    if tally.comparable == 0 {
      return FieldsIncomplete(ZeroDenominator(0));
    }
    VaryingAtMostAll(RunContributions(streams, |streams|));
    ScoreMeans(tally.varying, tally.comparable);
    EnvelopeWithoutScores(streams);
    if SameAsFirst(streams, |streams|) {
      AgreeingRunsPass(streams);
    }
    r := FieldEvaluation(Score(tally.varying, tally.comparable), tally.comparable, tally.varying,
                         |tally.fields|, |CriticalPointers(tally.fields)|, tally.fields, true, pass, None);
  }

  /** Compare every run with the baseline, up to the first comparison without any request. */
  method CompareRuns(streams: seq<Stream>) returns (tally: Tally, pass: bool, empty: Option<nat>)
    requires streams != []
    ensures empty.None? <==> forall i | 1 <= i < |streams| :: streams[0] != map[] || streams[i] != map[]
    ensures empty.Some? ==> EmptyComparison(streams, empty.value)
    ensures empty.None? ==>
              && TallyMeans(RunContributions(streams, |streams|), tally)
              && (pass <==> ComparisonsPass(streams, |streams|))
              && (tally.comparable == 0 <==> |streams| == 1)
  {
    hide Contributions, CountVarying, AnyCritical, FieldsMean, CriticalPointers;
    tally, pass := Tally(0, 0, map[]), true;
    EmptyTally();
    for index := 1 to |streams|
      invariant TallyMeans(RunContributions(streams, index), tally)
      invariant forall i | 1 <= i < index :: streams[0] != map[] || streams[i] != map[]
      invariant tally.comparable == 0 <==> index == 1
      invariant pass <==> ComparisonsPass(streams, index)
    {
      hide TallyMeans;
      var comparable, varying, critical;
      ghost var before := RunContributions(streams, index);
      ghost var cs := Contributions(streams[0], streams[index], index + 1);
      tally, comparable, varying, critical :=
        CompareRun(streams[0], streams[index], index + 1, tally, before);
      TallyNonEmpty(before, cs, tally);
      ContributionsNonEmpty(streams[0], streams[index], index + 1);
      if comparable == 0 {
        return tally, false, Some(index);
      }
      pass := pass && Score(varying, comparable) >= 0.99 && !critical;
    }
    empty := None;
  }

  lemma EmptyTally()
    ensures TallyMeans([], Tally(0, 0, map[]))
  {}

  lemma TallyNonEmpty(before: seq<Contribution>, cs: seq<Contribution>, tally: Tally)
    requires TallyMeans(before + cs, tally)
    ensures tally.comparable == |before| + |cs|
  {}

  // ---- Row 63 bookkeeping -----------------------------------------------------------------------

  function SumOccurrences(fields: Fields, pointers: set<string>): nat
    requires pointers <= fields.Keys
  {
    if pointers == {} then 0
    else var p := LeastString(pointers); fields[p].occurrences + SumOccurrences(fields, pointers - {p})
  }

  function SumAt(cs: seq<Contribution>, pointers: set<string>): nat {
    if pointers == {} then 0
    else var p := LeastString(pointers); CountAt(cs, p) + SumAt(cs, pointers - {p})
  }

  lemma {:induction false} SumAtStep(cs: seq<Contribution>, pointers: set<string>)
    requires cs != []
    ensures var c := cs[|cs| - 1];
            SumAt(cs, pointers) == SumAt(cs[..|cs| - 1], pointers) + if c.varies && c.pointer in pointers then 1 else 0
  {
    if pointers != {} {
      SumAtStep(cs, pointers - {LeastString(pointers)});
    }
  }

  lemma {:induction false} SumAtNothing(pointers: set<string>)
    ensures SumAt([], pointers) == 0
  {
    if pointers != {} {
      SumAtNothing(pointers - {LeastString(pointers)});
    }
  }

  lemma {:induction false} SumAtCounts(cs: seq<Contribution>, pointers: set<string>)
    requires forall c :: c in cs && c.varies ==> c.pointer in pointers
    ensures SumAt(cs, pointers) == CountVarying(cs)
  {
    hide SumAt;
    if cs == [] {
      SumAtNothing(pointers);
    } else {
      assert cs[|cs| - 1] in cs;
      SumAtCounts(cs[..|cs| - 1], pointers);
      SumAtStep(cs, pointers);
    }
  }

  lemma {:induction false} SumsAgree(cs: seq<Contribution>, fields: Fields, pointers: set<string>)
    requires pointers <= fields.Keys && FieldsMean(cs, fields)
    ensures SumOccurrences(fields, pointers) == SumAt(cs, pointers)
  {
    if pointers != {} {
      SumsAgree(cs, fields, pointers - {LeastString(pointers)});
    }
  }

  lemma {:induction false} VaryingAtMostAll(cs: seq<Contribution>)
    ensures CountVarying(cs) <= |cs|
  {
    if cs != [] {
      VaryingAtMostAll(cs[..|cs| - 1]);
    }
  }

  /** The varying total is the sum of the per-field occurrences and never exceeds the comparable total. */
  lemma FieldBookkeeping(cs: seq<Contribution>, fields: Fields)
    requires FieldsMean(cs, fields)
    ensures CountVarying(cs) == SumOccurrences(fields, fields.Keys) <= |cs|
  {
    hide CountVarying, SumAt, SumOccurrences;
    SumsAgree(cs, fields, fields.Keys);
    SumAtCounts(cs, fields.Keys);
    VaryingAtMostAll(cs);
  }

  /** A field is critical for its collected dialects exactly when one contribution to it was critical. */
  lemma CriticalFieldsDecide(cs: seq<Contribution>, fields: Fields)
    requires FieldsMean(cs, fields)
    ensures CriticalPointers(fields) == {} <==> !AnyCritical(cs)
  {
    hide CriticalAlways, CriticalFor, CountAt;
    if AnyCritical(cs) {
      var c :| c in cs && c.varies && IsCriticalPointer(c.dialects, c.pointer);
      assert c.pointer in fields && FieldMeans(cs, c.pointer, fields[c.pointer]);
      assert c.dialects <= fields[c.pointer].dialects;
      assert c.pointer in CriticalPointers(fields);
    }
    if CriticalPointers(fields) != {} {
      var p :| p in CriticalPointers(fields);
      assert FieldMeans(cs, p, fields[p]);
      if CriticalAlways(p) {
        var c :| c in cs && c.varies && c.pointer == p;
        assert IsCriticalPointer(c.dialects, c.pointer);
      } else {
        var d :| d in fields[p].dialects && CriticalFor(d, p);
        var c :| c in cs && c.varies && c.pointer == p && d in c.dialects;
        assert IsCriticalPointer(c.dialects, c.pointer);
      }
    }
  }

  lemma {:induction false} AnyCriticalUpTo(streams: seq<Stream>, n: nat)
    requires n <= |streams|
    ensures AnyCritical(RunContributions(streams, n)) <==>
            exists i :: 1 <= i < n && AnyCritical(Contributions(streams[0], streams[i], i + 1))
  {
    hide Contributions, IsCriticalPointer;
    if n > 1 {
      AnyCriticalUpTo(streams, n - 1);
      AnyCriticalAppend(RunContributions(streams, n - 1), Contributions(streams[0], streams[n - 1], n));
    }
  }

  lemma AnyCriticalAppend(x: seq<Contribution>, y: seq<Contribution>)
    ensures AnyCritical(x + y) <==> AnyCritical(x) || AnyCritical(y)
  {
    hide IsCriticalPointer;
    assert forall c :: c in x + y <==> c in x || c in y;
  }

  /**
   The envelope passes exactly when every comparison scores at least 0.99, that is,
   at most one in a hundred of its contributions varies, and the
   report counts no critical varying field: judging each contribution by its own
   dialects and each field by the union of its dialects comes to the same.
   */
  lemma ReferenceEnvelope(streams: seq<Stream>, fields: Fields)
    requires FieldsMean(RunContributions(streams, |streams|), fields)
    requires forall i | 1 <= i < |streams| :: Contributions(streams[0], streams[i], i + 1) != []
    ensures ComparisonsPass(streams, |streams|) <==>
            && (forall i | 1 <= i < |streams| ::
                  var cs := Contributions(streams[0], streams[i], i + 1); 100 * CountVarying(cs) <= |cs|)
            && |CriticalPointers(fields)| == 0
  {
    hide Contributions, CountVarying, AnyCritical, FieldsMean, CriticalPointers, Score;
    forall i | 1 <= i < |streams|
      ensures var cs := Contributions(streams[0], streams[i], i + 1);
              Score(CountVarying(cs), |cs|) >= 0.99 <==> 100 * CountVarying(cs) <= |cs|
    {
      var cs := Contributions(streams[0], streams[i], i + 1);
      VaryingAtMostAll(cs);
      ScoreMeans(CountVarying(cs), |cs|);
    }
    CriticalFieldsDecide(RunContributions(streams, |streams|), fields);
    AnyCriticalUpTo(streams, |streams|);
  }

  // ---- The two rows agree -----------------------------------------------------------------------

  lemma {:induction false} NothingVaries(cs: seq<Contribution>)
    ensures CountVarying(cs) == 0 <==> forall c | c in cs :: !c.varies
  {
    if cs != [] {
      var init := cs[..|cs| - 1];
      NothingVaries(init);
      assert forall c :: c in cs <==> c in init || c == cs[|cs| - 1];
    }
  }

  lemma {:induction false} VaryingAppend(x: seq<Contribution>, y: seq<Contribution>)
    ensures CountVarying(x + y) == CountVarying(x) + CountVarying(y)
  {
    if y == [] {
      assert x + y == x;
    } else {
      assert (x + y)[..|x + y| - 1] == x + y[..|y| - 1];
      VaryingAppend(x, y[..|y| - 1]);
    }
  }

  /** At one key nothing varies exactly when both sides have it with equal bodies. */
  lemma KeyVaries(b: Stream, a: Stream, key: RequestKey, run: nat)
    ensures CountVarying(KeyContributions(b, a, key, run)) == 0 <==>
            key in b && key in a && ValueEq(b[key].canonical, a[key].canonical)
  {
    hide Visit, OptEq, ValueEq, JsonType;
    var cs := KeyContributions(b, a, key, run);
    NothingVaries(cs);
    if key in b && key in a {
      var occurrences := ComparisonOccurrences(b[key].canonical, a[key].canonical);
      ComparisonSoundAndComplete(b[key].canonical, a[key].canonical);
      assert forall i | 0 <= i < |cs| :: cs[i].varies == !OptEq(occurrences[i].before, occurrences[i].after);
      if forall c | c in cs :: !c.varies {
        forall i | 0 <= i < |occurrences| ensures OptEq(occurrences[i].before, occurrences[i].after) {
          assert cs[i] in cs;
        }
      }
    } else {
      assert cs[0] in cs && cs[0].varies;
    }
  }

  lemma {:induction false} KeysVary(b: Stream, a: Stream, keys: seq<RequestKey>, run: nat)
    ensures CountVarying(ContributionsOn(b, a, keys, run)) == 0 <==>
            forall k | k in keys :: k in b && k in a && ValueEq(b[k].canonical, a[k].canonical)
  {
    hide KeyContributions, CountVarying, ValueEq;
    if keys == [] {
      NothingVaries(ContributionsOn(b, a, keys, run));
    } else {
      var n := |keys| - 1;
      KeysVary(b, a, keys[..n], run);
      KeyVaries(b, a, keys[n], run);
      VaryingAppend(ContributionsOn(b, a, keys[..n], run), KeyContributions(b, a, keys[n], run));
      assert keys == keys[..n] + [keys[n]];
    }
  }

  /** A comparison has no varying contribution exactly when the two streams agree. */
  lemma ComparisonVaries(b: Stream, a: Stream, run: nat)
    ensures CountVarying(Contributions(b, a, run)) == 0 <==> SameStream(b, a)
  {
    hide ContributionsOn, CountVarying, ValueEq, SortedRequests;
    var keys := SortedRequests(b.Keys + a.Keys);
    KeysVary(b, a, keys, run);
    assert forall k :: k in b ==> k in keys;
    assert forall k :: k in a ==> k in keys;
    if CountVarying(Contributions(b, a, run)) == 0 {
      assert b.Keys == a.Keys;
    }
  }

  lemma {:induction false} RunsVary(streams: seq<Stream>, n: nat)
    requires 0 < n <= |streams|
    ensures CountVarying(RunContributions(streams, n)) == 0 <==> SameAsFirst(streams, n)
  {
    hide Contributions, CountVarying, SameStream;
    if n == 1 {
      SameStreamReflexive(streams[0]);
      NothingVaries(RunContributions(streams, n));
    } else {
      RunsVary(streams, n - 1);
      VaryingAppend(RunContributions(streams, n - 1), Contributions(streams[0], streams[n - 1], n));
      ComparisonVaries(streams[0], streams[n - 1], n);
    }
  }

  /** What row 63 reports as `varying_leaf_occurrences`, and row 64 as `identical`. */
  function Varying(runs: seq<Run>): nat { CountVarying(RunContributions(RunStreams(runs), |runs|)) }

  predicate Identical(runs: seq<Run>, sha: string -> string)
    requires runs != []
  {
    SameAsFirst(RunStreams(runs), |runs|) && HashesAgree(RunStreams(runs), sha)
  }

  /** No two different streams of these runs have the same hash as the baseline. */
  predicate NoCollision(streams: seq<Stream>, sha: string -> string) {
    forall i | 0 <= i < |streams| ::
      sha(StreamBytes(streams[i])) == sha(StreamBytes(streams[0])) ==> StreamBytes(streams[i]) == StreamBytes(streams[0])
  }

  /** Two float zeros of different sign. */
  predicate OppositeZeros(a: Option<Value>, b: Option<Value>) {
    && a.Some? && b.Some? && a.value.Number? && b.value.Number?
    && FloatZero(a.value.text) && FloatZero(b.value.text) && a.value.text != b.value.text
  }

  /** At some path the two values hold float zeros of different sign. */
  ghost predicate ZeroFlipped(a: Value, b: Value) {
    exists path :: OppositeZeros(Reach(Some(a), path), Reach(Some(b), path))
  }

  lemma ReachStep(a: Value, b: Value, step: Step, path: seq<Step>)
    requires OppositeZeros(Reach(Child(Some(a), step), path), Reach(Child(Some(b), step), path))
    ensures ZeroFlipped(a, b)
  {
    hide Child, OppositeZeros;
    var longer := [step] + path;
    assert longer[0] == step && longer[1..] == path;
    assert OppositeZeros(Reach(Some(a), longer), Reach(Some(b), longer));
  }

  /** Values that compare equal are the same value, unless a float zero has changed its sign somewhere. */
  lemma {:induction false} EqualUpToZeros(a: Value, b: Value)
    requires ValueEq(a, b)
    ensures a != b <==> ZeroFlipped(a, b)
    decreases a
  {
    if a != b {
      match a
      case Array(xs) =>
        var i :| 0 <= i < |xs| && xs[i] != b.items[i];
        EqualUpToZeros(xs[i], b.items[i]);
        var path :| OppositeZeros(Reach(Some(xs[i]), path), Reach(Some(b.items[i]), path));
        ReachStep(a, b, Index(i), path);
      case Object(f) =>
        var k :| k in f && f[k] != b.fields[k];
        EqualUpToZeros(f[k], b.fields[k]);
        var path :| OppositeZeros(Reach(Some(f[k]), path), Reach(Some(b.fields[k]), path));
        ReachStep(a, b, Key(k), path);
      case Number(_) =>
        assert OppositeZeros(Reach(Some(a), []), Reach(Some(b), []));
      case _ =>
    }
  }

  /** In some run, at some key and path, a float zero has the other sign than in run 1. */
  ghost predicate SomeZeroFlipped(streams: seq<Stream>) {
    exists i, k | 0 <= i < |streams| && k in streams[i] :: FlippedAt(streams[0], streams[i], k)
  }

  ghost predicate FlippedAt(a: Stream, b: Stream, k: RequestKey) {
    k in a && k in b && ZeroFlipped(a[k].canonical, b[k].canonical)
  }

  /** Streams that agree have the same texts exactly if no zero is flipped. */
  lemma SameBytesExactly(a: Stream, b: Stream)
    requires SameStream(a, b)
    ensures SameBytes(a, b) <==> forall k | k in b :: !FlippedAt(a, b, k)
  {
    hide ValueEq, ZeroFlipped;
    forall k | k in a ensures a[k].canonical != b[k].canonical <==> FlippedAt(a, b, k) {
      EqualUpToZeros(a[k].canonical, b[k].canonical);
    }
  }

  lemma SameBytesSameHash(a: Stream, b: Stream)
    requires SameBytes(a, b)
    ensures StreamBytes(a) == StreamBytes(b)
  {
    hide Framed, SortedRequests;
    FramedEqual(a, b, SortedRequests(a.Keys));
  }

  /**
   Row 64 never finds the runs identical where row 63 finds something varying, and
   whatever the hash, the other way round only if a float zero has changed its
   sign somewhere.
   */
  lemma RowsDifferOnZerosOnly(runs: seq<Run>, sha: string -> string)
    requires runs != []
    ensures Identical(runs, sha) ==> Varying(runs) == 0
    ensures Varying(runs) == 0 && !Identical(runs, sha) ==> SomeZeroFlipped(RunStreams(runs))
  {
    hide RunStream, CountVarying, RunContributions, SameStream, SameBytes, StreamBytes, FlippedAt;
    var streams := RunStreams(runs);
    RunsVary(streams, |streams|);
    if SameAsFirst(streams, |streams|) && !SomeZeroFlipped(streams) {
      forall i | 0 <= i < |streams| ensures sha(StreamBytes(streams[i])) == sha(StreamBytes(streams[0])) {
        assert SameStream(streams[0], streams[i]);
        SameBytesExactly(streams[0], streams[i]);
        SameBytesSameHash(streams[0], streams[i]);
      }
    }
  }

  /**
   When the two rows agree, exactly. With a hash that tells these streams apart,
   row 63 finding nothing varying and row 64 finding the runs identical are the
   same, except where the streams agree as values and at some key and path run 1
   and another run hold float zeros of different sign.
   */
  lemma RowsAgree(runs: seq<Run>, sha: string -> string)
    requires runs != [] && NoCollision(RunStreams(runs), sha)
    requires forall i | 0 <= i < |runs| :: ShortBodies(RunStream(runs[i]))
    ensures var streams := RunStreams(runs);
            && ((Varying(runs) == 0 <==> Identical(runs, sha)) <==>
                  !(SameAsFirst(streams, |streams|) && SomeZeroFlipped(streams)))
            && (Identical(runs, sha) <==> Varying(runs) == 0 && !SomeZeroFlipped(streams))
  {
    hide RunStream, CountVarying, RunContributions, SameStream, SameBytes, StreamBytes, ShortBodies, FlippedAt;
    var streams := RunStreams(runs);
    RunsVary(streams, |streams|);
    RowsDifferOnZerosOnly(runs, sha);
    if SameAsFirst(streams, |streams|) && SomeZeroFlipped(streams) {
      var i, k :| 0 <= i < |streams| && k in streams[i] && FlippedAt(streams[0], streams[i], k);
      assert SameStream(streams[0], streams[i]);
      SameBytesExactly(streams[0], streams[i]);
      SameStreamKeys(streams[0], streams[i]);
      StreamBytesDecide(streams[0], streams[i]);
    }
  }

  lemma SameStreamKeys(a: Stream, b: Stream)
    requires SameStream(a, b)
    ensures a.Keys == b.Keys
  {}

  /** No body of any run contains a negative float zero. */
  predicate ZeroFree(streams: seq<Stream>) {
    forall i | 0 <= i < |streams| :: forall k | k in streams[i] :: NoNegativeZero(streams[i][k].canonical)
  }

  /** Without negative zeros the rows always agree, whatever the hash function. */
  lemma RowsAgreeWithoutNegativeZero(runs: seq<Run>, sha: string -> string)
    requires runs != [] && ZeroFree(RunStreams(runs))
    ensures Identical(runs, sha) <==> Varying(runs) == 0
  {
    hide RunStream, CountVarying, RunContributions, NoNegativeZero, Identical, Varying, ZeroFlipped, SameStream;
    var streams := RunStreams(runs);
    RowsDifferOnZerosOnly(runs, sha);
    if Varying(runs) == 0 && !Identical(runs, sha) {
      var i, k :| 0 <= i < |streams| && k in streams[i] && FlippedAt(streams[0], streams[i], k);
      FlippedHasNegativeZero(streams[0][k].canonical, streams[i][k].canonical);
    }
  }

  lemma {:induction false} ReachedZeroFree(v: Option<Value>, path: seq<Step>)
    requires v.Some? ==> NoNegativeZero(v.value)
    ensures Reach(v, path).Some? ==> NoNegativeZero(Reach(v, path).value)
    decreases |path|
  {
    if path != [] {
      ReachedZeroFree(Child(v, path[0]), path[1..]);
    }
  }

  lemma FlippedHasNegativeZero(a: Value, b: Value)
    requires ZeroFlipped(a, b)
    ensures !(NoNegativeZero(a) && NoNegativeZero(b))
  {
    var path :| OppositeZeros(Reach(Some(a), path), Reach(Some(b), path));
    if NoNegativeZero(a) && NoNegativeZero(b) {
      ReachedZeroFree(Some(a), path);
      ReachedZeroFree(Some(b), path);
    }
  }

  // ---- A signed zero separates the rows ------------------------------------------------------------

  const ZERO_KEY := RequestKey(AttemptKey("s", "a", 1, "c"), 1)
  const NO_OWNED_VALUES := Context("", [], [], [], [], [], "")

  /** A body with one sampling parameter. */
  function ZeroBody(zero: NumberText): Value { Object(map["t" := Number(zero)]) }

  function ZeroRun(run: nat, zero: NumberText): Run {
    Run(run, [Record(ZERO_KEY, "openai-responses", ZeroBody(zero), 1)], true, NO_OWNED_VALUES)
  }

  function ZeroStream(zero: NumberText): Stream {
    map[ZERO_KEY := Request("openai-responses", ZeroBody(zero), 1)]
  }

  function ZeroRuns(): seq<Run> { [ZeroRun(1, POSITIVE_ZERO), ZeroRun(2, NEGATIVE_ZERO)] }

  lemma ZeroRunStream(run: nat, zero: NumberText)
    ensures RunStream(ZeroRun(run, zero)) == ZeroStream(zero)
  {
    var records := ZeroRun(run, zero).records;
    assert records[..0] == [] && StreamOf(records[..0], NO_OWNED_VALUES) == map[];
    assert NormalizeAtPointer(ZeroBody(zero), "", "openai-responses", NO_OWNED_VALUES) == ZeroBody(zero);
  }

  lemma ZeroStreamConsistent(zero: NumberText)
    ensures AttemptsConsistent(ZeroStream(zero))
  {
    var stream := ZeroStream(zero);
    forall group | group in AttemptKeys(stream) ensures exists total :: Consistent(stream, group, total) {
      assert group == ZERO_KEY.request && ZERO_KEY in stream;
      assert stream[ZERO_KEY].attemptsTotal in Declared(stream, group);
      assert ZERO_KEY.attempt in Observed(stream, group);
      assert Declared(stream, group) == {1};
      assert Observed(stream, group) == UpTo(1);
      assert Consistent(stream, group, 1);
    }
  }

  lemma ZeroStreamShort(zero: NumberText)
    requires |zero| <= 4
    ensures ShortBodies(ZeroStream(zero))
  {
    var body := ZeroBody(zero);
    var keys := SortedStrings(body.fields.Keys);
    assert "t" in keys;
    SortedStringsInOrder(body.fields.Keys);
    assert |body.fields.Keys| == |{"t"}| == 1;
    assert keys == ["t"];
    var tail := [':'] + Write(Number(zero), WriteFields(body, keys[1..], false, ['}'] + ""));
    assert |tail| <= 6;
    assert |WriteText("t", ['"'] + tail)| <= 8 by {
      assert "t"[1..] == "";
      assert EscapedChar('t') == "t";
    }
    assert WriteFields(body, keys, true, ['}'] + "") == WriteString("t", tail);
    assert Serialize(body) == ['{'] + WriteFields(body, keys, true, ['}'] + "");
    assert Limit(8) >= 256 * Limit(7) >= 256;
  }

  lemma ZeroStreams()
    ensures RunStreams(ZeroRuns()) == [ZeroStream(POSITIVE_ZERO), ZeroStream(NEGATIVE_ZERO)]
  {
    hide RunStream;
    ZeroRunStream(1, POSITIVE_ZERO);
    ZeroRunStream(2, NEGATIVE_ZERO);
  }

  lemma ZeroRunsComplete()
    ensures CrossRunComplete(ZeroRuns(), 2) && FieldsComplete(ZeroRuns(), 2)
  {
    hide AttemptsConsistent, RunStream;
    var runs := ZeroRuns();
    ZeroStreams();
    ZeroStreamConsistent(POSITIVE_ZERO);
    ZeroStreamConsistent(NEGATIVE_ZERO);
    assert RunStream(runs[0]) == RunStreams(runs)[0] && RunStream(runs[1]) == RunStreams(runs)[1];
    assert ZERO_KEY in RunStream(runs[0]);
    assert Collectable(runs[0]) && Collectable(runs[1]);
  }

  /** Two complete runs whose only difference is `0.0` against `-0.0`: nothing varies, yet not identical. */
  lemma SignedZeroSeparatesRows(sha: string -> string)
    requires NoCollision(RunStreams(ZeroRuns()), sha)
    ensures CrossRunComplete(ZeroRuns(), 2) && FieldsComplete(ZeroRuns(), 2)
    ensures Varying(ZeroRuns()) == 0 && !Identical(ZeroRuns(), sha)
  {
    hide CountVarying, RunContributions, RunStream, NoCollision, ShortBodies, CrossRunComplete, FieldsComplete,
         Identical, SameStream;
    var runs := ZeroRuns();
    var streams := RunStreams(runs);
    ZeroRunsComplete();
    ZeroStreams();
    ZeroStreamShort(POSITIVE_ZERO);
    ZeroStreamShort(NEGATIVE_ZERO);
    ZeroSame(POSITIVE_ZERO);
    ZeroSame(NEGATIVE_ZERO);
    RunsVary(streams, 2);
    ZeroSeen(POSITIVE_ZERO);
    ZeroSeen(NEGATIVE_ZERO);
    ReachStep(ZeroBody(POSITIVE_ZERO), ZeroBody(NEGATIVE_ZERO), Key("t"), []);
    assert FlippedAt(streams[0], streams[1], ZERO_KEY);
    RowsAgree(runs, sha);
  }

  lemma ZeroSeen(zero: NumberText)
    ensures Child(Some(ZeroBody(zero)), Key("t")) == Some(Number(zero))
    ensures ZERO_KEY in ZeroStream(zero) && ZeroStream(zero)[ZERO_KEY].canonical == ZeroBody(zero)
  {}

  lemma ZeroSame(zero: NumberText)
    requires FloatZero(zero)
    ensures SameStream(ZeroStream(POSITIVE_ZERO), ZeroStream(zero))
  {
    assert ValueEq(Number(POSITIVE_ZERO), Number(zero));
    assert ValueEq(ZeroBody(POSITIVE_ZERO), ZeroBody(zero));
  }
}
