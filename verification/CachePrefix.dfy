/**
 The economics of prompt caching: how much of each request repeats the request
 before it, and how much of an earlier request a later one throws away.
 */
module CachePrefix {
  import opened Prelude
  import opened Json
  import opened Tokenizer
  import opened Fractions

  type Tokens = seq<Bytes>

  datatype CachePrefixMetrics = CachePrefixMetrics(
    eligibleFraction: real,
    stablePrefixPreservedFraction: real,
    cacheBustCount: nat,
    invalidatedPrefixTokens: nat,
    invalidatedPrefixTokensPerTurn: seq<nat>)

  // ---- Common prefixes -----------------------------------------------------------

  /** `token_lcp_len`. */
  function TokenLcpLen(left: Tokens, right: Tokens): (n: nat)
    ensures n <= |left| && n <= |right| && left[..n] == right[..n]
    ensures n == |left| || n == |right| || left[n] != right[n]
  {
    if left == [] || right == [] || left[0] != right[0] then 0
    else
      var n := TokenLcpLen(left[1..], right[1..]);
      assert left[..n + 1] == [left[0]] + left[1..][..n] && right[..n + 1] == [right[0]] + right[1..][..n];
      n + 1
  }

  /** `message_array_preserves_prefix`: the current array begins with the prior one, by JSON equality. */
  predicate MessageArrayPreservesPrefix(prior: Value, current: Value) {
    prior.Array? && current.Array? && |prior.items| <= |current.items|
    && forall i | 0 <= i < |prior.items| :: ValueEq(current.items[i], prior.items[i])
  }

  // ---- Sums over a history -----------------------------------------------------------

  function Sum(s: seq<nat>): nat {
    if s == [] then 0 else Sum(s[..|s| - 1]) + s[|s| - 1]
  }

  function Positive(s: seq<nat>): (n: nat)
    ensures n <= |s|
  {
    if s == [] then 0 else Positive(s[..|s| - 1]) + if s[|s| - 1] > 0 then 1 else 0
  }

  function Lengths(history: seq<Tokens>): nat {
    if history == [] then 0 else Lengths(history[..|history| - 1]) + |history[|history| - 1]|
  }

  /** Tokens that repeat the request before. */
  function Eligible(history: seq<Tokens>): nat {
    var n := |history|;
    if n < 2 then 0 else Eligible(history[..n - 1]) + TokenLcpLen(history[n - 2], history[n - 1])
  }

  /** Prior tokens that the next request does not keep; a request that only appends keeps them all. */
  function Lost(prior: Value, priorTokens: Tokens, current: Value, tokens: Tokens): nat {
    if MessageArrayPreservesPrefix(prior, current) then 0 else |priorTokens| - TokenLcpLen(priorTokens, tokens)
  }

  function Losses(arrays: seq<Value>, history: seq<Tokens>): (r: seq<nat>)
    requires |arrays| == |history|
    ensures |r| == if |arrays| == 0 then 0 else |arrays| - 1
  {
    var n := |arrays|;
    if n < 2 then []
    else Losses(arrays[..n - 1], history[..n - 1])
         + [Lost(arrays[n - 2], history[n - 2], arrays[n - 1], history[n - 1])]
  }

  function MetricsOf(arrays: seq<Value>, history: seq<Tokens>): CachePrefixMetrics
    requires |arrays| == |history|
  {
    var losses := Losses(arrays, history);
    CachePrefixMetrics(
      Share(Eligible(history), Lengths(history)),
      Share(|losses| - Positive(losses), |losses|),
      Positive(losses), Sum(losses), losses)
  }

  // ---- The accounting loop -------------------------------------------------------------

  type Encoder = string -> Result<Tokens, TokenizeError>

  predicate Encodes(encode: Encoder, arrays: seq<Value>) {
    forall i | 0 <= i < |arrays| :: encode(Serialize(arrays[i])).Ok?
  }

  /** The first request that cannot be encoded, and why. */
  predicate FailsAt(encode: Encoder, arrays: seq<Value>, i: int, error: TokenizeError) {
    0 <= i < |arrays| && Encodes(encode, arrays[..i]) && encode(Serialize(arrays[i])) == Err(error)
  }

  function TokensOf(encode: Encoder, arrays: seq<Value>): (history: seq<Tokens>)
    requires Encodes(encode, arrays)
    ensures |history| == |arrays|
  {
    seq(|arrays|, i requires 0 <= i < |arrays| => encode(Serialize(arrays[i])).value)
  }

  lemma SumSnoc(s: seq<nat>, x: nat)
    ensures Sum(s + [x]) == Sum(s) + x && Positive(s + [x]) == Positive(s) + if x > 0 then 1 else 0
  {
    assert (s + [x])[..|s|] == s;
  }

  lemma HistoryStep(arrays: seq<Value>, history: seq<Tokens>, i: nat)
    requires |arrays| == |history| && i < |arrays|
    ensures Lengths(history[..i + 1]) == Lengths(history[..i]) + |history[i]|
    ensures Eligible(history[..i + 1])
         == Eligible(history[..i]) + if i == 0 then 0 else TokenLcpLen(history[i - 1], history[i])
    ensures Losses(arrays[..i + 1], history[..i + 1])
         == if i == 0 then []
            else Losses(arrays[..i], history[..i]) + [Lost(arrays[i - 1], history[i - 1], arrays[i], history[i])]
  {
    assert history[..i + 1][..i] == history[..i] && arrays[..i + 1][..i] == arrays[..i];
  }

  /** `cache_prefix_metrics` over the message arrays of the primary requests. */
  method MeasureCachePrefix(encode: Encoder, arrays: seq<Value>) returns (r: Result<CachePrefixMetrics, TokenizeError>)
    ensures r.Ok? <==> Encodes(encode, arrays)
    ensures r.Ok? ==> r.value == MetricsOf(arrays, TokensOf(encode, arrays))
    ensures r.Err? ==> exists i :: FailsAt(encode, arrays, i, r.error)
  {
    hide Eligible, Lengths, Losses, Lost, TokenLcpLen, Sum, Positive, Share, Serialize;
    var previousEligibility: Option<Tokens> := None;
    var previousStability: Option<(Value, Tokens)> := None;
    var eligible, denominator, invalidatedPrefixTokens := 0, 0, 0;
    var perTurn: seq<nat> := [];
    ghost var history: seq<Tokens> := [];
    NothingMeasured();
    for i := 0 to |arrays|
      invariant Encodes(encode, arrays[..i]) && history == TokensOf(encode, arrays[..i])
      invariant previousEligibility == if i == 0 then None else Some(history[i - 1])
      invariant previousStability == if i == 0 then None else Some((arrays[i - 1], history[i - 1]))
      invariant eligible == Eligible(history) && denominator == Lengths(history)
      invariant perTurn == Losses(arrays[..i], history) && invalidatedPrefixTokens == Sum(perTurn)
    {
      var messageArray := arrays[i];
      var encoded := encode(Serialize(messageArray));
      if encoded.Err? {
        assert FailsAt(encode, arrays, i, encoded.error);
        return Err(encoded.error);
      }
      var current := encoded.value;
      ghost var before := history;
      history := history + [current];
      assert history == TokensOf(encode, arrays[..i + 1]);
      HistoryStep(arrays[..i + 1], history, i);
      assert history[..i] == before && history[..i + 1] == history;
      assert arrays[..i + 1][..i] == arrays[..i] && arrays[..i + 1][..i + 1] == arrays[..i + 1];
      denominator := denominator + |current|;
      if previousEligibility.Some? {
        eligible := eligible + TokenLcpLen(previousEligibility.value, current);
      }
      previousEligibility := Some(current);
      if previousStability.Some? {
        var (priorArray, priorTokens) := previousStability.value;
        var invalidated := Invalidated(priorArray, priorTokens, messageArray, current);
        SumSnoc(perTurn, invalidated);
        invalidatedPrefixTokens := invalidatedPrefixTokens + invalidated;
        perTurn := perTurn + [invalidated];
      }
      previousStability := Some((messageArray, current));
    }
    assert arrays[..|arrays|] == arrays;
    var cacheBustCount := Positive(perTurn);
    r := Ok(CachePrefixMetrics(Share(eligible, denominator),
                               Share(|perTurn| - cacheBustCount, |perTurn|),
                               cacheBustCount, invalidatedPrefixTokens, perTurn));
  }

  /** What the current request invalidates of the prior one. */
  method Invalidated(priorArray: Value, priorTokens: Tokens, messageArray: Value, current: Tokens) returns (n: nat)
    ensures n == Lost(priorArray, priorTokens, messageArray, current)
  {
    var prefix := if MessageArrayPreservesPrefix(priorArray, messageArray) then |priorTokens|
                  else TokenLcpLen(priorTokens, current);
    n := |priorTokens| - prefix;
  }

  lemma NothingMeasured()
    ensures Eligible([]) == 0 && Lengths([]) == 0 && Losses([], []) == [] && Sum([]) == 0
  {}

  // ---- Bounds --------------------------------------------------------------------------

  lemma LostBounds(prior: Value, priorTokens: Tokens, current: Value, tokens: Tokens)
    ensures TokenLcpLen(priorTokens, tokens) + Lost(prior, priorTokens, current, tokens) <= |priorTokens|
    ensures Lost(prior, priorTokens, current, tokens) == 0 <==>
              MessageArrayPreservesPrefix(prior, current) || priorTokens <= tokens
  {
    hide MessageArrayPreservesPrefix;
    if priorTokens <= tokens {
      PrefixLcp(priorTokens, tokens);
    }
  }

  lemma {:induction false} PrefixLcp(left: Tokens, right: Tokens)
    requires left <= right
    ensures TokenLcpLen(left, right) == |left|
  {
    if left != [] {
      PrefixLcp(left[1..], right[1..]);
    }
  }

  /**
   Eligible tokens are part of all tokens; with the invalidated ones they are no
   more than the requests before the last held.
   */
  lemma {:induction false} AccountingBounds(arrays: seq<Value>, history: seq<Tokens>)
    requires |arrays| == |history|
    ensures Eligible(history) <= Lengths(history)
    ensures history != [] ==>
              Eligible(history) + Sum(Losses(arrays, history)) <= Lengths(history[..|history| - 1])
  {
    hide Lost, TokenLcpLen;
    var n := |history|;
    if n >= 2 {
      var before, losses := history[..n - 1], Losses(arrays[..n - 1], history[..n - 1]);
      AccountingBounds(arrays[..n - 1], before);
      LostBounds(arrays[n - 2], history[n - 2], arrays[n - 1], history[n - 1]);
      SumSnoc(losses, Lost(arrays[n - 2], history[n - 2], arrays[n - 1], history[n - 1]));
      assert before[|before| - 1] == history[n - 2];
    }
  }

  // ---- What the sums are, exactly ---------------------------------------------------------

  /**
   What a request loses of the one before. If it only adds messages, nothing;
   otherwise every token from the first on that differs or is no longer there.
   */
  lemma LostMeans(prior: Value, priorTokens: Tokens, current: Value, tokens: Tokens, n: nat)
    requires n <= |priorTokens| && n <= |tokens| && priorTokens[..n] == tokens[..n]
    requires n == |priorTokens| || n == |tokens| || priorTokens[n] != tokens[n]
    ensures Lost(prior, priorTokens, current, tokens)
         == if MessageArrayPreservesPrefix(prior, current) then 0 else |priorTokens| - n
    ensures TokenLcpLen(priorTokens, tokens) == n
  {
    hide MessageArrayPreservesPrefix;
    SamePrefix(priorTokens, tokens, n);
    SamePrefix(priorTokens, tokens, TokenLcpLen(priorTokens, tokens));
  }

  lemma SamePrefix(left: Tokens, right: Tokens, n: nat)
    requires n <= |left| && n <= |right| && left[..n] == right[..n]
    ensures forall i | 0 <= i < n :: left[i] == right[i]
  {
    assert forall i | 0 <= i < n :: left[i] == left[..n][i] && right[i] == right[..n][i];
  }

  /** All tokens of the history, one request after the other. */
  function Concatenated(history: seq<Tokens>): Tokens {
    if history == [] then [] else Concatenated(history[..|history| - 1]) + history[|history| - 1]
  }

  lemma {:induction false} LengthsMean(history: seq<Tokens>)
    ensures Lengths(history) == |Concatenated(history)|
  {
    if history != [] {
      LengthsMean(history[..|history| - 1]);
    }
  }

  /** Each request adds to the tokens of the one before. */
  predicate AllAddTokens(history: seq<Tokens>) { forall i | 0 <= i < |history| - 1 :: AddsTokens(history, i) }

  /** Whatever only adds messages only adds tokens. */
  predicate AppendsAddTokens(arrays: seq<Value>, history: seq<Tokens>)
    requires |arrays| == |history|
  {
    forall i | 0 <= i < |history| - 1 :: AddsMessages(arrays, i) ==> AddsTokens(history, i)
  }

  lemma AddsBefore(arrays: seq<Value>, history: seq<Tokens>)
    requires |arrays| == |history| >= 2
    ensures var n := |history|;
            && (AllAddTokens(history) <==> AllAddTokens(history[..n - 1]) && AddsTokens(history, n - 2))
            && (AppendsAddTokens(arrays, history)
                <==> AppendsAddTokens(arrays[..n - 1], history[..n - 1])
                     && (AddsMessages(arrays, n - 2) ==> AddsTokens(history, n - 2)))
  {
    hide MessageArrayPreservesPrefix;
    var n := |history|;
    var before, fewer := history[..n - 1], arrays[..n - 1];
    assert forall i | 0 <= i < n - 2 ::
        AddsTokens(history, i) == AddsTokens(before, i) && AddsMessages(arrays, i) == AddsMessages(fewer, i);
  }

  /**
   Every token of the requests before the last is eligible exactly if each request
   adds to the tokens of the one before; and eligible and invalidated tokens make
   up all of them exactly if a request that only adds messages only adds tokens.
   */
  lemma {:induction false} AccountingExact(arrays: seq<Value>, history: seq<Tokens>)
    requires |arrays| == |history| > 0
    ensures var before := Lengths(history[..|history| - 1]);
            && (Eligible(history) == before <==> AllAddTokens(history))
            && (Eligible(history) + Sum(Losses(arrays, history)) == before <==> AppendsAddTokens(arrays, history))
  {
    hide Lost, TokenLcpLen, MessageArrayPreservesPrefix, Sum, AllAddTokens, AppendsAddTokens;
    var n := |history|;
    NothingMeasured();
    if n == 1 {
      OneRequest(arrays, history);
    } else {
      var before, fewer, i := history[..n - 1], arrays[..n - 1], n - 2;
      AccountingExact(fewer, before);
      AccountingBounds(fewer, before);
      AddsBefore(arrays, history);
      SumSnoc(Losses(fewer, before), Lost(arrays[i], history[i], arrays[i + 1], history[i + 1]));
      LostBounds(arrays[i], history[i], arrays[i + 1], history[i + 1]);
      TransitionExact(arrays[i], history[i], arrays[i + 1], history[i + 1]);
      assert before[|before| - 1] == history[i];
    }
  }

  lemma OneRequest(arrays: seq<Value>, history: seq<Tokens>)
    requires |arrays| == |history| == 1
    ensures AllAddTokens(history) && AppendsAddTokens(arrays, history)
    ensures history[..0] == [] && Losses(arrays, history) == []
  {}

  lemma TransitionExact(prior: Value, priorTokens: Tokens, current: Value, tokens: Tokens)
    ensures TokenLcpLen(priorTokens, tokens) == |priorTokens| <==> priorTokens <= tokens
    ensures TokenLcpLen(priorTokens, tokens) + Lost(prior, priorTokens, current, tokens) == |priorTokens|
       <==> (MessageArrayPreservesPrefix(prior, current) ==> priorTokens <= tokens)
  {
    hide MessageArrayPreservesPrefix;
    if priorTokens <= tokens {
      PrefixLcp(priorTokens, tokens);
    }
  }

  /** No turn lost anything exactly if nothing was lost in all. */
  lemma {:induction false} NoBusts(losses: seq<nat>)
    ensures Positive(losses) == 0 <==> forall i | 0 <= i < |losses| :: losses[i] == 0
    ensures Positive(losses) == 0 <==> Sum(losses) == 0
    ensures Positive(losses) <= Sum(losses)
  {
    if losses != [] {
      var n := |losses| - 1;
      NoBusts(losses[..n]);
      assert losses == losses[..n] + [losses[n]];
    }
  }

  /** The request after the `i`-th only adds to its messages. */
  predicate AddsMessages(arrays: seq<Value>, i: nat)
    requires i + 1 < |arrays|
  {
    MessageArrayPreservesPrefix(arrays[i], arrays[i + 1])
  }

  /** The request after the `i`-th only adds to its tokens. */
  predicate AddsTokens(history: seq<Tokens>, i: nat)
    requires i + 1 < |history|
  {
    history[i] <= history[i + 1]
  }

  predicate OnlyAppends(arrays: seq<Value>, history: seq<Tokens>)
    requires |arrays| == |history|
  {
    forall i | 0 <= i < |arrays| - 1 :: AddsMessages(arrays, i) || AddsTokens(history, i)
  }

  lemma {:induction false} LossAt(arrays: seq<Value>, history: seq<Tokens>, i: nat)
    requires |arrays| == |history| && i + 1 < |arrays|
    ensures Losses(arrays, history)[i] == Lost(arrays[i], history[i], arrays[i + 1], history[i + 1])
  {
    hide Lost;
    var n := |arrays|;
    if i + 2 < n {
      LossAt(arrays[..n - 1], history[..n - 1], i);
    }
  }

  /**
   What the metrics mean. Both fractions lie between 0 and 1, there is one entry
   for each transition and they add up to the total, a bust is a transition that
   lost something, and there is none exactly if every request only appends.
   */
  lemma MetricsMean(arrays: seq<Value>, history: seq<Tokens>)
    requires |arrays| == |history|
    ensures var m := MetricsOf(arrays, history);
            && 0.0 <= m.eligibleFraction <= 1.0 && 0.0 <= m.stablePrefixPreservedFraction <= 1.0
            && |m.invalidatedPrefixTokensPerTurn| == (if arrays == [] then 0 else |arrays| - 1)
            && m.invalidatedPrefixTokens == Sum(m.invalidatedPrefixTokensPerTurn)
            && m.cacheBustCount <= m.invalidatedPrefixTokens
            && (m.cacheBustCount == 0 <==> OnlyAppends(arrays, history))
            && (m.invalidatedPrefixTokens == 0 <==> OnlyAppends(arrays, history))
            && (|arrays| >= 2 ==> (m.stablePrefixPreservedFraction == 1.0 <==> OnlyAppends(arrays, history)))
  {
    hide Lost, Losses, TokenLcpLen, Eligible, Lengths, Sum, Positive, Share, MessageArrayPreservesPrefix;
    var losses := Losses(arrays, history);
    AccountingBounds(arrays, history);
    ShareBounds(Eligible(history), Lengths(history));
    ShareBounds(|losses| - Positive(losses), |losses|);
    NoBusts(losses);
    forall i | 0 <= i < |arrays| - 1
      ensures losses[i] == 0 <==> AddsMessages(arrays, i) || AddsTokens(history, i)
    {
      LossAt(arrays, history, i);
      LostBounds(arrays[i], history[i], arrays[i + 1], history[i + 1]);
    }
    assert (forall i | 0 <= i < |losses| :: losses[i] == 0) <==> OnlyAppends(arrays, history);
  }

  /** A conversation that only ever grows at its end busts no cache, whatever its tokens are. */
  lemma AppendOnlyKeepsCache(arrays: seq<Value>, history: seq<Tokens>)
    requires |arrays| == |history|
    requires forall i | 0 <= i < |arrays| - 1 :: AddsMessages(arrays, i)
    ensures MetricsOf(arrays, history).cacheBustCount == 0
  {
    hide MetricsOf;
    MetricsMean(arrays, history);
  }

  // ---- Effective tokens --------------------------------------------------------------------

  const CACHE_INPUT_DISCOUNT: real := 0.9

  /** The discounted token count of `analyze`. */
  function EffectiveTokens(total: nat, eligibleFraction: real): real {
    total as real * (1.0 - eligibleFraction * CACHE_INPUT_DISCOUNT)
  }

  /** Effective tokens stay between a tenth of all tokens and all of them. */
  lemma EffectiveTokensBounds(total: nat, arrays: seq<Value>, history: seq<Tokens>)
    requires |arrays| == |history|
    ensures var effective := EffectiveTokens(total, MetricsOf(arrays, history).eligibleFraction);
            total as real / 10.0 <= effective <= total as real
  {
    hide MetricsOf;
    FractionInRange(arrays, history);
    Discounted(total as real, MetricsOf(arrays, history).eligibleFraction);
  }

  /** In whole tokens: every eligible token saves nine tenths of a token. */
  lemma EffectiveTokensExact(arrays: seq<Value>, history: seq<Tokens>)
    requires |arrays| == |history|
    ensures var total := Lengths(history);
            var effective := EffectiveTokens(total, MetricsOf(arrays, history).eligibleFraction);
            10.0 * effective == (10 * total - 9 * Eligible(history)) as real
  {
    hide Eligible, Lengths, Losses, Positive, Sum, Share;
    AccountingBounds(arrays, history);
    var total := Lengths(history);
    var f := Share(Eligible(history), total);
    ShareOfWhole(Eligible(history), total);
    Expanded(total as real, f);
  }

  lemma Expanded(t: real, f: real)
    ensures t * (1.0 - f * CACHE_INPUT_DISCOUNT) == t - 0.9 * (f * t)
  {
    assert t * (1.0 - f * 0.9) == t - t * (f * 0.9);
  }

  lemma FractionInRange(arrays: seq<Value>, history: seq<Tokens>)
    requires |arrays| == |history|
    ensures 0.0 <= MetricsOf(arrays, history).eligibleFraction <= 1.0
  {
    hide MetricsOf, OnlyAppends, Sum;
    MetricsMean(arrays, history);
  }

  lemma Discounted(t: real, f: real)
    requires 0.0 <= t && 0.0 <= f <= 1.0
    ensures t / 10.0 <= t * (1.0 - f * CACHE_INPUT_DISCOUNT) <= t
  {
    var kept := 1.0 - f;
    assert t * kept >= 0.0 && t * f >= 0.0;
    assert t * (1.0 - f * CACHE_INPUT_DISCOUNT) == t - t * f * 0.9;
    assert t * f == t - t * kept;
  }
}
