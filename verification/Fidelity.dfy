/**
 Context fidelity over the primary requests of a run: how long planted needles
 survive, and how much of the delivered tool results is still sent verbatim.
 */
module Fidelity {
  import opened Prelude
  import opened Text
  import opened Json
  import opened Carriers
  import opened Fractions

  datatype NeedleDefinition = NeedleDefinition(id: string, token: string)

  datatype NeedleSurvival = NeedleSurvival(
    id: string,
    token: string,
    plantedTurn: Option<nat>,
    firstDisappearedTurn: Option<nat>,
    everReappeared: bool)

  /** `contains_bytes`: an empty needle is never there. */
  predicate ContainsBytes(haystack: string, needle: string) {
    needle != "" && Occurs(needle, haystack)
  }

  function OneBasedTurn(index: nat): nat { index + 1 }

  // ---- Needles ---------------------------------------------------------------------------

  predicate CarriesToken(carriers: map<string, string>, token: string) {
    exists id | id in carriers :: ContainsBytes(carriers[id], token)
  }

  /** Some tool result of the request carries the token. */
  predicate Plants(record: Value, token: string) { CarriesToken(CarriersOf(record), token) }

  /** The first request, from an index on, whose tool results carry the token. */
  function Planted(records: seq<Value>, token: string, from: nat): (r: Option<nat>)
    requires from <= |records|
    ensures r.Some? ==> from <= r.value < |records| && Plants(records[r.value], token)
    ensures forall i | from <= i < (if r.Some? then r.value else |records|) :: !Plants(records[i], token)
    decreases |records| - from
  {
    hide Plants;
    if from == |records| then None
    else if Plants(records[from], token) then Some(from)
    else Planted(records, token, from + 1)
  }

  /** The first request, from an index on, that does or does not contain the token. */
  function FirstWith(requests: seq<string>, token: string, present: bool, from: nat): (r: Option<nat>)
    requires from <= |requests|
    ensures r.Some? ==> from <= r.value < |requests| && ContainsBytes(requests[r.value], token) == present
    ensures forall i | from <= i < (if r.Some? then r.value else |requests|) :: ContainsBytes(requests[i], token) != present
    decreases |requests| - from
  {
    if from == |requests| then None
    else if ContainsBytes(requests[from], token) == present then Some(from)
    else FirstWith(requests, token, present, from + 1)
  }

  function AnalyzeNeedle(records: seq<Value>, requests: seq<string>, definition: NeedleDefinition): NeedleSurvival
    requires |records| == |requests|
  {
    var planted := Planted(records, definition.token, 0);
    var loss := if planted.None? then None else FirstWith(requests, definition.token, false, planted.value + 1);
    NeedleSurvival(
      definition.id, definition.token,
      if planted.None? then None else Some(OneBasedTurn(planted.value)),
      if loss.None? then None else Some(OneBasedTurn(loss.value)),
      loss.Some? && FirstWith(requests, definition.token, true, loss.value + 1).Some?)
  }

  /** `analyze_needles`. */
  function AnalyzeNeedles(records: seq<Value>, requests: seq<string>, definitions: seq<NeedleDefinition>)
    : (needles: seq<NeedleSurvival>)
    requires |records| == |requests|
    ensures |needles| == |definitions|
  {
    seq(|definitions|, i requires 0 <= i < |definitions| => AnalyzeNeedle(records, requests, definitions[i]))
  }

  /** The request bodies that `analyze` hands on: each canonical request, serialized. */
  function RequestBytes(records: seq<Value>): (requests: seq<string>)
    ensures |requests| == |records|
  {
    seq(|records|, i requires 0 <= i < |records| => Serialize(records[i]))
  }

  /** A needle that a tool result carries is in the whole request. */
  lemma CarriedIsPresent(record: Value, token: string)
    requires Plants(record, token)
    ensures ContainsBytes(Serialize(record), token)
  {
    hide Occurs, Serialize, CarriersOf;
    var id :| id in CarriersOf(record) && ContainsBytes(CarriersOf(record)[id], token);
    CarriersInRequest(record, id);
    OccursThrough(token, CarriersOf(record)[id], Serialize(record));
  }

  /** In the request of this turn the token can be found. */
  predicate PresentAt(requests: seq<string>, token: string, turn: nat)
    requires 1 <= turn <= |requests|
  {
    ContainsBytes(requests[turn - 1], token)
  }

  /**
   What the record of a needle means. It is planted by the first turn whose tool
   results carry it, present from then on
   up to its loss, which comes strictly later and finds it gone; it reappeared
   exactly if some later turn has it again, which presupposes a loss.
   */
  lemma NeedleMeans(records: seq<Value>, definition: NeedleDefinition)
    ensures var requests := RequestBytes(records);
            var n := AnalyzeNeedle(records, requests, definition);
            && n.id == definition.id && n.token == definition.token
            && (n.plantedTurn.None? <==> forall i | 0 <= i < |records| :: !Plants(records[i], n.token))
            && (n.plantedTurn.Some? ==>
                  && 1 <= n.plantedTurn.value <= |requests|
                  && Plants(records[n.plantedTurn.value - 1], n.token)
                  && (forall i | 0 <= i < n.plantedTurn.value - 1 :: !Plants(records[i], n.token))
                  && PresentAt(requests, n.token, n.plantedTurn.value))
            && (n.firstDisappearedTurn.Some? ==>
                  && n.plantedTurn.Some? && n.plantedTurn.value < n.firstDisappearedTurn.value <= |requests|
                  && !PresentAt(requests, n.token, n.firstDisappearedTurn.value))
            && (n.plantedTurn.Some? ==>
                  forall t | n.plantedTurn.value <= t <= |requests|
                             && (n.firstDisappearedTurn.None? || t < n.firstDisappearedTurn.value) ::
                    PresentAt(requests, n.token, t))
            && (n.everReappeared <==>
                  n.firstDisappearedTurn.Some?
                  && exists t | n.firstDisappearedTurn.value < t <= |requests| :: PresentAt(requests, n.token, t))
  {
    hide ContainsBytes, Serialize, Plants;
    var requests, planted := RequestBytes(records), Planted(records, definition.token, 0);
    if planted.Some? {
      CarriedIsPresent(records[planted.value], definition.token);
      var loss := FirstWith(requests, definition.token, false, planted.value + 1);
      if loss.Some? {
        var again := FirstWith(requests, definition.token, true, loss.value + 1);
        if again.Some? {
          assert PresentAt(requests, definition.token, again.value + 1);
        }
      }
    }
  }

  // ---- The survival curve ----------------------------------------------------------------

  function CountWhere<T>(s: seq<T>, p: T -> bool): (n: nat)
    ensures n <= |s|
  {
    if s == [] then 0 else (if p(s[0]) then 1 else 0) + CountWhere(s[1..], p)
  }

  lemma {:induction false} CountSnoc<T>(s: seq<T>, x: T, p: T -> bool)
    ensures CountWhere(s + [x], p) == CountWhere(s, p) + if p(x) then 1 else 0
  {
    if s == [] {
      assert [] + [x] == [x] && [x][1..] == [];
    } else {
      CountSnoc(s[1..], x, p);
      assert (s + [x])[1..] == s[1..] + [x];
    }
  }

  /** Counting is counting positions. */
  lemma {:induction false} CountPositions<T(!new)>(s: seq<T>, p: T -> bool)
    ensures CountWhere(s, p) == |Positions(s, p)|
  {
    if s == [] {
      NoPositions(s, p);
    } else {
      var n := |s| - 1;
      CountPositions(s[..n], p);
      PositionsSnoc(s, p);
      CountSnoc(s[..n], s[n], p);
      assert s[..n] + [s[n]] == s;
    }
  }

  function PlantedBy(turn: nat): NeedleSurvival -> bool {
    (n: NeedleSurvival) => n.plantedTurn.Some? && n.plantedTurn.value <= turn
  }

  function SurvivingAt(request: string, turn: nat): NeedleSurvival -> bool {
    (n: NeedleSurvival) => PlantedBy(turn)(n) && ContainsBytes(request, n.token)
  }

  /** `needle_survival_curve`. */
  function NeedleSurvivalCurve(requests: seq<string>, needles: seq<NeedleSurvival>): (curve: seq<real>)
    ensures |curve| == |requests|
  {
    seq(|requests|, i requires 0 <= i < |requests| =>
      Share(CountWhere(needles, SurvivingAt(requests[i], OneBasedTurn(i))), |needles|))
  }

  lemma Survives(request: string, turn: nat, n: NeedleSurvival)
    ensures SurvivingAt(request, turn)(n)
       <==> n.plantedTurn.Some? && n.plantedTurn.value <= turn && ContainsBytes(request, n.token)
  {
    hide ContainsBytes;
    assert PlantedBy(turn)(n) <==> n.plantedTurn.Some? && n.plantedTurn.value <= turn;
  }

  /** A point of the survival curve makes up the number of planted needles that the request contains. */
  lemma CurveCounts(requests: seq<string>, needles: seq<NeedleSurvival>, i: nat)
    requires i < |requests|
    ensures var surviving := set k | 0 <= k < |needles| && needles[k].plantedTurn.Some?
                                     && needles[k].plantedTurn.value <= i + 1 && ContainsBytes(requests[i], needles[k].token);
            NeedleSurvivalCurve(requests, needles)[i] * |needles| as real == |surviving| as real
  {
    hide ContainsBytes, CountWhere, Share;
    var p := SurvivingAt(requests[i], OneBasedTurn(i));
    CountPositions(needles, p);
    var surviving := set k | 0 <= k < |needles| && needles[k].plantedTurn.Some?
                             && needles[k].plantedTurn.value <= i + 1 && ContainsBytes(requests[i], needles[k].token);
    forall k ensures k in Positions(needles, p) <==> k in surviving {
      if 0 <= k < |needles| {
        Survives(requests[i], i + 1, needles[k]);
      }
    }
    assert Positions(needles, p) == surviving;
    ShareOfWhole(CountWhere(needles, p), |needles|);
  }

  /** Counting fewer: equal exactly if nothing is left out. */
  lemma {:induction false} CountStronger<T>(s: seq<T>, p: T -> bool, q: T -> bool)
    requires forall x | x in s :: p(x) ==> q(x)
    ensures CountWhere(s, p) <= CountWhere(s, q)
    ensures CountWhere(s, p) == CountWhere(s, q) <==> forall x | x in s :: q(x) ==> p(x)
  {
    if s != [] {
      CountStronger(s[1..], p, q);
      assert forall x :: x in s <==> x == s[0] || x in s[1..];
    }
  }

  /** Every needle planted by then is in the request. */
  predicate AllKept(request: string, turn: nat, needles: seq<NeedleSurvival>) {
    forall n | n in needles :: PlantedBy(turn)(n) ==> ContainsBytes(request, n.token)
  }

  /** A point of the curve is at most the share of needles planted so far, and equal to it exactly if all of them are kept. */
  lemma CurveBound(requests: seq<string>, needles: seq<NeedleSurvival>, i: nat)
    requires i < |requests|
    ensures var point, planted :=
              NeedleSurvivalCurve(requests, needles)[i], Share(CountWhere(needles, PlantedBy(OneBasedTurn(i))), |needles|);
            && 0.0 <= point <= planted <= 1.0
            && (point == planted <==> AllKept(requests[i], OneBasedTurn(i), needles))
  {
    hide ContainsBytes, CountWhere, Share;
    var turn := OneBasedTurn(i);
    CountStronger(needles, SurvivingAt(requests[i], turn), PlantedBy(turn));
    ShareOrder(CountWhere(needles, SurvivingAt(requests[i], turn)), CountWhere(needles, PlantedBy(turn)), |needles|);
  }

  predicate NoLoss(needles: seq<NeedleSurvival>) {
    forall n | n in needles :: n.firstDisappearedTurn.None?
  }

  /** Nothing was lost exactly if every needle is in every request since it was planted. */
  lemma NoLossMeansKept(records: seq<Value>, definitions: seq<NeedleDefinition>)
    ensures var requests := RequestBytes(records);
            var needles := AnalyzeNeedles(records, requests, definitions);
            NoLoss(needles) <==>
              forall i | 0 <= i < |requests| :: AllKept(requests[i], OneBasedTurn(i), needles)
  {
    hide ContainsBytes, Serialize, Planted, FirstWith, AnalyzeNeedle;
    var requests := RequestBytes(records);
    var needles := AnalyzeNeedles(records, requests, definitions);
    forall k | 0 <= k < |definitions|
      ensures needles[k] == AnalyzeNeedle(records, requests, definitions[k])
    {
      NeedleMeans(records, definitions[k]);
    }
    if NoLoss(needles) {
      forall i, n | 0 <= i < |requests| && n in needles && PlantedBy(OneBasedTurn(i))(n)
        ensures ContainsBytes(requests[i], n.token)
      {
        var k :| 0 <= k < |definitions| && needles[k] == n;
        NeedleMeans(records, definitions[k]);
        assert PresentAt(requests, n.token, i + 1);
      }
    } else {
      var n :| n in needles && n.firstDisappearedTurn.Some?;
      var k :| 0 <= k < |definitions| && needles[k] == n;
      NeedleMeans(records, definitions[k]);
      assert !PresentAt(requests, n.token, n.firstDisappearedTurn.value);
      assert !AllKept(requests[n.firstDisappearedTurn.value - 1], n.firstDisappearedTurn.value, needles);
    }
  }

  /**
   No needle was lost if and only if the survival curve is, at every turn, the
   share of needles planted so far; and then it never falls.
   */
  lemma SurvivalCurveMeans(records: seq<Value>, definitions: seq<NeedleDefinition>)
    ensures var requests := RequestBytes(records);
            var needles := AnalyzeNeedles(records, requests, definitions);
            var curve := NeedleSurvivalCurve(requests, needles);
            && (NoLoss(needles) <==>
                  forall i | 0 <= i < |curve| ::
                    curve[i] == Share(CountWhere(needles, PlantedBy(OneBasedTurn(i))), |needles|))
            && (NoLoss(needles) ==> forall i, j | 0 <= i <= j < |curve| :: curve[i] <= curve[j])
  {
    hide ContainsBytes, Serialize, AnalyzeNeedle, CountWhere, Share, AllKept, NoLoss, NeedleSurvivalCurve;
    var requests := RequestBytes(records);
    var needles := AnalyzeNeedles(records, requests, definitions);
    var curve := NeedleSurvivalCurve(requests, needles);
    NoLossMeansKept(records, definitions);
    forall i | 0 <= i < |curve|
      ensures curve[i] == Share(CountWhere(needles, PlantedBy(OneBasedTurn(i))), |needles|)
         <==> AllKept(requests[i], OneBasedTurn(i), needles)
    {
      CurveBound(requests, needles, i);
    }
    if NoLoss(needles) {
      forall i, j | 0 <= i <= j < |curve| ensures curve[i] <= curve[j] {
        CountStronger(needles, PlantedBy(OneBasedTurn(i)), PlantedBy(OneBasedTurn(j)));
        ShareOrder(CountWhere(needles, PlantedBy(OneBasedTurn(i))), CountWhere(needles, PlantedBy(OneBasedTurn(j))),
                   |needles|);
      }
    }
  }

  // ---- Retention of tool results -----------------------------------------------------------

  /** The first bytes that were delivered for each id. */
  function Delivered(records: seq<Value>): map<string, string> {
    if records == [] then map[]
    else CarriersOf(records[|records| - 1]) + Delivered(records[..|records| - 1])
  }

  function Retained(delivered: map<string, string>, current: map<string, string>): set<string> {
    set id | id in delivered && id in current && current[id] == delivered[id]
  }

  function RetentionAt(records: seq<Value>, i: nat): real
    requires i < |records|
  {
    var delivered := Delivered(records[..i + 1]);
    if |delivered| == 0 then 1.0
    else |Retained(delivered, CarriersOf(records[i]))| as real / |delivered| as real
  }

  /** `or_insert` of every current carrier: what was delivered before stays. */
  method DeliverMissing(delivered: map<string, string>, current: map<string, string>) returns (r: map<string, string>)
    ensures r == current + delivered
  {
    r := delivered;
    var ids := SortedStrings(current.Keys);
    for i := 0 to |ids|
      invariant r == Restricted(current, ids[..i]) + delivered
    {
      MissingStep(delivered, current, ids, i);
      if ids[i] !in r {
        r := r[ids[i] := current[ids[i]]];
      }
    }
    assert Restricted(current, ids[..|ids|]) == current;
  }

  function Restricted(current: map<string, string>, ids: seq<string>): map<string, string> {
    map id | id in current && id in ids :: current[id]
  }

  lemma MissingStep(delivered: map<string, string>, current: map<string, string>, ids: seq<string>, i: nat)
    requires i < |ids| && ids[i] in current
    ensures var r := Restricted(current, ids[..i]) + delivered;
            Restricted(current, ids[..i + 1]) + delivered == if ids[i] in r then r else r[ids[i] := current[ids[i]]]
  {
    assert forall id :: id in ids[..i + 1] <==> id in ids[..i] || id == ids[i];
  }

  /** `tool_result_retention_curve`. */
  method ToolResultRetentionCurve(records: seq<Value>) returns (curve: seq<real>)
    ensures |curve| == |records|
    ensures forall i | 0 <= i < |records| :: curve[i] == RetentionAt(records, i)
  {
    hide CarriersOf, Delivered;
    var delivered: map<string, string> := map[];
    curve := [];
    NothingDelivered();
    for i := 0 to |records|
      invariant delivered == Delivered(records[..i])
      invariant |curve| == i && forall j | 0 <= j < i :: curve[j] == RetentionAt(records, j)
    {
      var current := ToolResultCarriers(records[i]);
      DeliveredNext(records, i);
      delivered := DeliverMissing(delivered, current);
      var fraction := if |delivered| == 0 then 1.0 else |Retained(delivered, current)| as real / |delivered| as real;
      curve := curve + [fraction];
    }
  }

  lemma NothingDelivered()
    ensures Delivered([]) == map[]
  {}

  lemma DeliveredNext(records: seq<Value>, i: nat)
    requires i < |records|
    ensures Delivered(records[..i + 1]) == CarriersOf(records[i]) + Delivered(records[..i])
  {
    hide CarriersOf;
    assert records[..i + 1][..i] == records[..i];
  }

  /** What was delivered first is never overwritten, and nothing delivered is forgotten. */
  lemma {:induction false} FirstDeliveryStays(records: seq<Value>, i: nat, j: nat, id: string)
    requires i <= j <= |records|
    ensures id in Delivered(records[..i]) ==>
              id in Delivered(records[..j]) && Delivered(records[..j])[id] == Delivered(records[..i])[id]
  {
    hide CarriersOf;
    if i < j {
      FirstDeliveryStays(records, i, j - 1, id);
      assert records[..j][..j - 1] == records[..j - 1];
    }
  }

  /** The first of the first `n` requests that carries the id. */
  function FirstCarrying(records: seq<Value>, id: string, n: nat): (r: Option<nat>)
    requires n <= |records|
    ensures r.Some? ==> r.value < n && id in CarriersOf(records[r.value])
    ensures forall i | 0 <= i < (if r.Some? then r.value else n) :: id !in CarriersOf(records[i])
  {
    if n == 0 then None
    else
      var before := FirstCarrying(records, id, n - 1);
      if before.Some? then before else if id in CarriersOf(records[n - 1]) then Some(n - 1) else None
  }

  /** An id is delivered exactly if some request so far carries it, with the bytes of the first that does. */
  lemma {:induction false} DeliveredByFirst(records: seq<Value>, n: nat, id: string)
    requires n <= |records|
    ensures var first := FirstCarrying(records, id, n);
            && (id in Delivered(records[..n]) <==> first.Some?)
            && (first.Some? ==> Delivered(records[..n])[id] == CarriersOf(records[first.value])[id])
  {
    hide CarriersOf;
    if n > 0 {
      DeliveredByFirst(records, n - 1, id);
      assert records[..n][..n - 1] == records[..n - 1];
    }
  }

  /** Every delivered id is still carried, with the bytes of its first delivery. */
  predicate AllRetained(delivered: map<string, string>, current: map<string, string>) {
    forall id | id in delivered :: id in current && current[id] == delivered[id]
  }

  lemma SubsetSizes<T>(a: set<T>, b: set<T>)
    requires a <= b
    ensures |a| <= |b| && (|a| == |b| <==> a == b)
  {
    assert b == a + (b - a);
    assert |b - a| == 0 <==> b - a == {};
  }

  lemma RetentionBounds(records: seq<Value>, i: nat)
    requires i < |records|
    ensures 0.0 <= RetentionAt(records, i) <= 1.0
    ensures RetentionAt(records, i) == 1.0 <==> AllRetained(Delivered(records[..i + 1]), CarriersOf(records[i]))
  {
    hide CarriersOf, Delivered;
    var delivered, current := Delivered(records[..i + 1]), CarriersOf(records[i]);
    var retained := Retained(delivered, current);
    SubsetSizes(retained, delivered.Keys);
    assert |delivered.Keys| == |delivered|;
    if |delivered| > 0 {
      ShareOrder(|retained|, |delivered|, |delivered|);
      assert |delivered| as real / |delivered| as real == 1.0;
    }
    assert retained == delivered.Keys <==> AllRetained(delivered, current);
  }

  /** A point of the retention curve makes up the number of delivered results that are still carried verbatim. */
  lemma RetentionCounts(records: seq<Value>, i: nat)
    requires i < |records|
    ensures var delivered, current := Delivered(records[..i + 1]), CarriersOf(records[i]);
            if |delivered| == 0 then RetentionAt(records, i) == 1.0
            else RetentionAt(records, i) * |delivered| as real
                 == |set id | id in delivered && id in current && current[id] == delivered[id]| as real
  {
    hide CarriersOf, Delivered;
    var delivered, current := Delivered(records[..i + 1]), CarriersOf(records[i]);
    if |delivered| > 0 {
      Multiplied(|Retained(delivered, current)| as real, |delivered| as real);
    }
  }

  /** Once a request carries a tool result, this later request carries it byte for byte. */
  predicate KeptVerbatim(records: seq<Value>, j: int, i: int)
    requires 0 <= j <= i < |records|
  {
    forall id | id in CarriersOf(records[j]) ::
      id in CarriersOf(records[i]) && CarriersOf(records[i])[id] == CarriersOf(records[j])[id]
  }

  /**
   The retention curve stays between 0 and 1, and it is 1 throughout if and only
   if every tool result, once delivered, is sent byte for byte in every later
   request.
   */
  lemma RetentionExact(records: seq<Value>)
    ensures forall i | 0 <= i < |records| :: 0.0 <= RetentionAt(records, i) <= 1.0
    ensures (forall i | 0 <= i < |records| :: RetentionAt(records, i) == 1.0)
       <==> (forall i, j | 0 <= j <= i < |records| :: KeptVerbatim(records, j, i))
  {
    hide CarriersOf, Delivered, RetentionAt;
    forall i | 0 <= i < |records|
      ensures 0.0 <= RetentionAt(records, i) <= 1.0
      ensures RetentionAt(records, i) == 1.0 <==> AllRetained(Delivered(records[..i + 1]), CarriersOf(records[i]))
    {
      RetentionBounds(records, i);
    }
    if forall i | 0 <= i < |records| :: RetentionAt(records, i) == 1.0 {
      forall i, j | 0 <= j <= i < |records| ensures KeptVerbatim(records, j, i) {
        RetainedKept(records, j, i);
      }
    }
    if forall i, j | 0 <= j <= i < |records| :: KeptVerbatim(records, j, i) {
      forall i | 0 <= i < |records| ensures RetentionAt(records, i) == 1.0 {
        KeptRetained(records, i);
      }
    }
  }

  lemma RetainedKept(records: seq<Value>, j: nat, i: nat)
    requires j <= i < |records|
    requires AllRetained(Delivered(records[..j + 1]), CarriersOf(records[j]))
    requires AllRetained(Delivered(records[..i + 1]), CarriersOf(records[i]))
    ensures KeptVerbatim(records, j, i)
  {
    hide CarriersOf, Delivered;
    forall id | id in CarriersOf(records[j])
      ensures id in CarriersOf(records[i]) && CarriersOf(records[i])[id] == CarriersOf(records[j])[id]
    {
      DeliveredByFirst(records, j + 1, id);
      FirstDeliveryStays(records, j + 1, i + 1, id);
    }
  }

  lemma KeptRetained(records: seq<Value>, i: nat)
    requires i < |records| && forall j | 0 <= j <= i :: KeptVerbatim(records, j, i)
    ensures AllRetained(Delivered(records[..i + 1]), CarriersOf(records[i]))
  {
    hide CarriersOf, Delivered;
    forall id | id in Delivered(records[..i + 1])
      ensures id in CarriersOf(records[i]) && CarriersOf(records[i])[id] == Delivered(records[..i + 1])[id]
    {
      DeliveredByFirst(records, i + 1, id);
      assert KeptVerbatim(records, FirstCarrying(records, id, i + 1).value, i);
    }
  }
}
