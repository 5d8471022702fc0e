/**
 The reference tokenizer: byte-pair merging of the pieces that a pre-tokenizer
 finds in a request body.
 */
module Tokenizer {
  import opened Prelude
  import opened Text

  /** The rank of each multi-byte token; a smaller rank merges earlier. */
  type Ranks = map<Bytes, nat>

  // ---- Tokens of a boundary list -------------------------------------------------

  /** Ascending offsets that begin a piece at `first` and end it at `last`. */
  predicate Boundaries(bounds: seq<nat>, first: nat, last: nat) {
    && |bounds| >= 2 && bounds[0] == first && bounds[|bounds| - 1] == last
    && forall i, j | 0 <= i < j < |bounds| :: bounds[i] < bounds[j]
  }

  /** `windows(2)`: the bytes between neighbouring boundaries. */
  function Between(piece: Bytes, bounds: seq<nat>): (tokens: seq<Bytes>)
    requires |bounds| >= 1 && bounds[|bounds| - 1] <= |piece|
    requires forall i, j | 0 <= i < j < |bounds| :: bounds[i] < bounds[j]
    ensures |tokens| == |bounds| - 1
  {
    seq(|bounds| - 1, i requires 0 <= i < |bounds| - 1 => piece[bounds[i]..bounds[i + 1]])
  }

  function Joined(tokens: seq<Bytes>): Bytes {
    if tokens == [] then [] else tokens[0] + Joined(tokens[1..])
  }

  function Singletons(piece: Bytes): (tokens: seq<Bytes>) {
    seq(|piece|, i requires 0 <= i < |piece| => [piece[i]])
  }

  // ---- The merge to do next ----------------------------------------------------------

  predicate Mergeable(ranks: Ranks, tokens: seq<Bytes>, i: nat)
    requires i + 1 < |tokens|
  {
    tokens[i] + tokens[i + 1] in ranks
  }

  /** The order of candidates: by rank, then by position. */
  predicate Precedes(ranks: Ranks, tokens: seq<Bytes>, i: nat, j: nat)
    requires i + 1 < |tokens| && j + 1 < |tokens| && Mergeable(ranks, tokens, i) && Mergeable(ranks, tokens, j)
  {
    var a, b := ranks[tokens[i] + tokens[i + 1]], ranks[tokens[j] + tokens[j + 1]];
    a < b || (a == b && i <= j)
  }

  /** The least candidate among the first `n` neighbouring pairs. */
  function LeastMerge(ranks: Ranks, tokens: seq<Bytes>, n: nat): (r: Option<nat>)
    requires n == 0 || n < |tokens|
    ensures r.Some? ==> r.value < n && Mergeable(ranks, tokens, r.value)
    ensures r.None? ==> forall j | 0 <= j < n :: !Mergeable(ranks, tokens, j)
    ensures r.Some? ==> forall j | 0 <= j < n && Mergeable(ranks, tokens, j) :: Precedes(ranks, tokens, r.value, j)
  {
    if n == 0 then None
    else
      var before := LeastMerge(ranks, tokens, n - 1);
      if !Mergeable(ranks, tokens, n - 1) then before
      else if before.None? || !Precedes(ranks, tokens, before.value, n - 1) then Some(n - 1)
      else before
  }

  function MergedAt(tokens: seq<Bytes>, i: nat): (r: seq<Bytes>)
    requires i + 1 < |tokens|
    ensures |r| == |tokens| - 1
  {
    tokens[..i] + [tokens[i] + tokens[i + 1]] + tokens[i + 2..]
  }

  /** Merge the least candidate for as long as there is one. */
  function Merged(ranks: Ranks, tokens: seq<Bytes>): seq<Bytes>
    requires tokens != []
    decreases |tokens|
  {
    var next := LeastMerge(ranks, tokens, |tokens| - 1);
    if next.None? then tokens else Merged(ranks, MergedAt(tokens, next.value))
  }

  function PieceTokens(ranks: Ranks, piece: Bytes): seq<Bytes> {
    if piece == [] then []
    else if piece in ranks then [piece]
    else Merged(ranks, Singletons(piece))
  }

  // ---- The merge loop over boundaries ---------------------------------------------

  lemma BetweenAll(piece: Bytes, bounds: seq<nat>)
    requires bounds == seq(|piece| + 1, i => i)
    ensures Between(piece, bounds) == Singletons(piece)
  {
    forall i | 0 <= i < |piece| ensures Between(piece, bounds)[i] == Singletons(piece)[i] {
      assert piece[bounds[i]..bounds[i + 1]] == [piece[i]];
    }
  }

  lemma BetweenAt(piece: Bytes, bounds: seq<nat>, j: nat)
    requires Boundaries(bounds, 0, |piece|) && j + 1 < |bounds|
    ensures Between(piece, bounds)[j] == piece[bounds[j]..bounds[j + 1]]
  {}

  lemma RemovedBoundaries(bounds: seq<nat>, last: nat, i: nat)
    requires Boundaries(bounds, 0, last) && i + 2 < |bounds|
    ensures Boundaries(bounds[..i + 1] + bounds[i + 2..], 0, last)
  {}

  lemma RemovedToken(piece: Bytes, bounds: seq<nat>, fewer: seq<nat>, i: nat, j: nat)
    requires Boundaries(bounds, 0, |piece|) && Boundaries(fewer, 0, |piece|)
    requires i + 2 < |bounds| && fewer == bounds[..i + 1] + bounds[i + 2..] && j + 1 < |fewer|
    ensures Between(piece, fewer)[j] == MergedAt(Between(piece, bounds), i)[j]
  {
    hide Between;
    BetweenAt(piece, fewer, j);
    BetweenAt(piece, bounds, j);
    BetweenAt(piece, bounds, j + 1);
  }

  /** Removing the boundary between two tokens merges them. */
  lemma RemovedBoundary(piece: Bytes, bounds: seq<nat>, i: nat)
    requires Boundaries(bounds, 0, |piece|) && i + 2 < |bounds|
    ensures Boundaries(bounds[..i + 1] + bounds[i + 2..], 0, |piece|)
    ensures Between(piece, bounds[..i + 1] + bounds[i + 2..]) == MergedAt(Between(piece, bounds), i)
  {
    hide Between, MergedAt;
    var fewer := bounds[..i + 1] + bounds[i + 2..];
    RemovedBoundaries(bounds, |piece|, i);
    forall j | 0 <= j < |fewer| - 1 ensures Between(piece, fewer)[j] == MergedAt(Between(piece, bounds), i)[j] {
      RemovedToken(piece, bounds, fewer, i, j);
    }
  }

  /** The whole piece is left only if the vocabulary has no such token. */
  lemma WholePieceStays(ranks: Ranks, piece: Bytes, bounds: seq<nat>)
    requires Boundaries(bounds, 0, |piece|) && |bounds| <= 2
    ensures Merged(ranks, Between(piece, bounds)) == Between(piece, bounds)
  {}

  lemma MergesNext(ranks: Ranks, piece: Bytes, bounds: seq<nat>)
    requires Boundaries(bounds, 0, |piece|) && |bounds| > 2
    ensures var next := LeastMerge(ranks, Between(piece, bounds), |bounds| - 2);
            Merged(ranks, Between(piece, bounds))
            == if next.None? then Between(piece, bounds) else Merged(ranks, MergedAt(Between(piece, bounds), next.value))
  {
    hide Between, LeastMerge, MergedAt;
  }

  /** `encode_piece`. */
  method EncodePiece(ranks: Ranks, piece: Bytes) returns (tokens: seq<Bytes>)
    ensures tokens == PieceTokens(ranks, piece)
    ensures piece != [] && piece in ranks ==> tokens == [piece]
    ensures Tokenizes(ranks, piece, tokens)
  {
    hide Between, LeastMerge, MergedAt, Merged, Singletons, Tokenizes;
    PieceTokenized(ranks, piece);
    if piece == [] {
      return [];
    }
    if piece in ranks {
      return [piece];
    }
    var bounds: seq<nat> := seq(|piece| + 1, i => i);
    BetweenAll(piece, bounds);
    while |bounds| > 2
      invariant Boundaries(bounds, 0, |piece|)
      invariant Merged(ranks, Between(piece, bounds)) == Merged(ranks, Singletons(piece))
      decreases |bounds|
    {
      MergesNext(ranks, piece, bounds);
      var candidate := LeastCandidate(ranks, piece, bounds);
      if candidate.None? {
        break;
      }
      RemovedBoundary(piece, bounds, candidate.value);
      bounds := bounds[..candidate.value + 1] + bounds[candidate.value + 2..];
    }
    if |bounds| <= 2 {
      WholePieceStays(ranks, piece, bounds);
    }
    tokens := Between(piece, bounds);
  }

  lemma PairBytes(piece: Bytes, bounds: seq<nat>, i: nat)
    requires Boundaries(bounds, 0, |piece|) && i + 2 < |bounds|
    ensures Between(piece, bounds)[i] + Between(piece, bounds)[i + 1] == piece[bounds[i]..bounds[i + 2]]
  {}

  /** `windows(3)` with the ranks of the pairs they span: the position of the least. */
  method LeastCandidate(ranks: Ranks, piece: Bytes, bounds: seq<nat>) returns (r: Option<nat>)
    requires Boundaries(bounds, 0, |piece|)
    ensures r == LeastMerge(ranks, Between(piece, bounds), |bounds| - 2)
  {
    hide Between;
    var best: Option<(nat, nat)> := None;
    ghost var tokens := Between(piece, bounds);
    for i := 0 to |bounds| - 2
      invariant best.None? ==> LeastMerge(ranks, tokens, i).None?
      invariant best.Some? ==> LeastMerge(ranks, tokens, i) == Some(best.value.1)
      invariant best.Some? ==> best.value.0 == ranks[tokens[best.value.1] + tokens[best.value.1 + 1]]
    {
      PairBytes(piece, bounds, i);
      var pair := piece[bounds[i]..bounds[i + 2]];
      if pair in ranks && (best.None? || ranks[pair] < best.value.0) {
        best := Some((ranks[pair], i));
      }
    }
    r := if best.None? then None else Some(best.value.1);
  }

  // ---- What merging guarantees --------------------------------------------------------

  lemma {:induction false} JoinedAppend(a: seq<Bytes>, b: seq<Bytes>)
    ensures Joined(a + b) == Joined(a) + Joined(b)
  {
    if a == [] {
      assert a + b == b;
    } else {
      assert (a + b)[0] == a[0] && (a + b)[1..] == a[1..] + b;
      JoinedAppend(a[1..], b);
      AppendAssociative(a[0], Joined(a[1..]), Joined(b));
    }
  }

  lemma JoinedOne(t: Bytes)
    ensures Joined([t]) == t
  {
    assert [t][1..] == [];
  }

  lemma {:induction false} SingletonsJoin(piece: Bytes)
    ensures Joined(Singletons(piece)) == piece
  {
    if piece != [] {
      assert Singletons(piece)[1..] == Singletons(piece[1..]);
      SingletonsJoin(piece[1..]);
      assert piece == [piece[0]] + piece[1..];
    }
  }

  lemma PairJoins(x: Bytes, y: Bytes, after: seq<Bytes>)
    ensures Joined([x + y] + after) == Joined([x] + ([y] + after))
  {
    assert ([x + y] + after)[1..] == after;
    assert ([x] + ([y] + after))[1..] == [y] + after && ([y] + after)[1..] == after;
    AppendAssociative(x, y, Joined(after));
  }

  lemma MergedAtJoins(tokens: seq<Bytes>, i: nat)
    requires i + 1 < |tokens|
    ensures Joined(MergedAt(tokens, i)) == Joined(tokens)
  {
    hide Joined, MergedAt;
    var before, x, y, after := tokens[..i], tokens[i], tokens[i + 1], tokens[i + 2..];
    assert tokens == before + ([x] + ([y] + after));
    assert MergedAt(tokens, i) == before + ([x + y] + after) by { MergedAtParts(tokens, i); }
    JoinedAppend(before, [x] + ([y] + after));
    JoinedAppend(before, [x + y] + after);
    PairJoins(x, y, after);
  }

  lemma MergedAtParts(tokens: seq<Bytes>, i: nat)
    requires i + 1 < |tokens|
    ensures MergedAt(tokens, i) == tokens[..i] + ([tokens[i] + tokens[i + 1]] + tokens[i + 2..])
  {
    AppendAssociative(tokens[..i], [tokens[i] + tokens[i + 1]], tokens[i + 2..]);
  }

  /** A token is a byte or an entry of the vocabulary. */
  predicate InVocabulary(ranks: Ranks, token: Bytes) { |token| == 1 || token in ranks }

  predicate Closed(ranks: Ranks, tokens: seq<Bytes>) {
    forall i | 0 <= i < |tokens| :: InVocabulary(ranks, tokens[i])
  }

  /** Nothing is left to merge: no two neighbours form an entry of the vocabulary. */
  predicate Finished(ranks: Ranks, tokens: seq<Bytes>) {
    forall i | 0 <= i < |tokens| - 1 :: !Mergeable(ranks, tokens, i)
  }

  lemma MergedAtClosed(ranks: Ranks, tokens: seq<Bytes>, i: nat)
    requires i + 1 < |tokens| && Mergeable(ranks, tokens, i) && Closed(ranks, tokens)
    ensures Closed(ranks, MergedAt(tokens, i))
  {
    var merged := MergedAt(tokens, i);
    forall j | 0 <= j < |merged| ensures InVocabulary(ranks, merged[j]) {
      assert merged[j] == if j < i then tokens[j] else if j == i then tokens[i] + tokens[i + 1] else tokens[j + 1];
    }
  }

  lemma {:induction false} MergedGuarantees(ranks: Ranks, tokens: seq<Bytes>)
    requires tokens != [] && Closed(ranks, tokens)
    ensures var r := Merged(ranks, tokens);
            Joined(r) == Joined(tokens) && Closed(ranks, r) && Finished(ranks, r) && r != []
    decreases |tokens|
  {
    hide Joined, MergedAt, LeastMerge, Closed;
    var next := LeastMerge(ranks, tokens, |tokens| - 1);
    if next.Some? {
      MergedAtJoins(tokens, next.value);
      MergedAtClosed(ranks, tokens, next.value);
      MergedGuarantees(ranks, MergedAt(tokens, next.value));
    }
  }

  /** Encoding a piece is lossless, closed and finished. */
  lemma PieceGuarantees(ranks: Ranks, piece: Bytes)
    ensures var tokens := PieceTokens(ranks, piece);
            Joined(tokens) == piece && Closed(ranks, tokens) && Finished(ranks, tokens)
  {
    hide Merged;
    if piece in ranks {
      JoinedOne(piece);
    } else if piece != [] {
      SingletonsJoin(piece);
      MergedGuarantees(ranks, Singletons(piece));
    }
  }

  // ---- Which tokens a piece has ---------------------------------------------------------

  /** The neighbours at this place form an entry, and no others one of smaller rank, or of the same earlier. */
  predicate IsLeastMerge(ranks: Ranks, tokens: seq<Bytes>, i: nat) {
    && i + 1 < |tokens| && Mergeable(ranks, tokens, i)
    && forall j | 0 <= j < |tokens| - 1 && Mergeable(ranks, tokens, j) :: Precedes(ranks, tokens, i, j)
  }

  /** One step: exactly the neighbours at the least place become one token. */
  ghost predicate MergesTo(ranks: Ranks, before: seq<Bytes>, after: seq<Bytes>) {
    exists i: nat ::
      IsLeastMerge(ranks, before, i) && after == before[..i] + [before[i] + before[i + 1]] + before[i + 2..]
  }

  /** Token lists, each one step from the one before. */
  ghost predicate Derivation(ranks: Ranks, chain: seq<seq<Bytes>>) {
    chain != [] && forall k | 0 <= k < |chain| - 1 :: MergesTo(ranks, chain[k], chain[k + 1])
  }

  ghost predicate Derives(ranks: Ranks, first: seq<Bytes>, last: seq<Bytes>) {
    exists chain :: Derivation(ranks, chain) && chain[0] == first && chain[|chain| - 1] == last
  }

  /**
   The tokens of a piece: itself if the vocabulary has it, and otherwise what its
   single bytes become by least merges until nothing is left to merge.
   */
  ghost predicate Tokenizes(ranks: Ranks, piece: Bytes, tokens: seq<Bytes>) {
    if piece == [] then tokens == []
    else if piece in ranks then tokens == [piece]
    else exists bytes :: |bytes| == |piece| && (forall i | 0 <= i < |piece| :: bytes[i] == [piece[i]])
                         && Derives(ranks, bytes, tokens) && Finished(ranks, tokens)
  }

  lemma LeastIsLeast(ranks: Ranks, tokens: seq<Bytes>, i: nat)
    requires tokens != []
    ensures LeastMerge(ranks, tokens, |tokens| - 1) == Some(i) <==> IsLeastMerge(ranks, tokens, i)
  {
    hide LeastMerge;
    var least := LeastMerge(ranks, tokens, |tokens| - 1);
    if IsLeastMerge(ranks, tokens, i) {
      assert least.Some?;
      assert Precedes(ranks, tokens, i, least.value) && Precedes(ranks, tokens, least.value, i);
    }
  }

  lemma DerivesStep(ranks: Ranks, first: seq<Bytes>, second: seq<Bytes>, last: seq<Bytes>)
    requires MergesTo(ranks, first, second) && Derives(ranks, second, last)
    ensures Derives(ranks, first, last)
  {
    hide MergesTo;
    var chain :| Derivation(ranks, chain) && chain[0] == second && chain[|chain| - 1] == last;
    var longer := [first] + chain;
    forall k | 0 <= k < |longer| - 1 ensures MergesTo(ranks, longer[k], longer[k + 1]) {
      if k > 0 {
        assert longer[k] == chain[k - 1] && longer[k + 1] == chain[k];
        assert MergesTo(ranks, chain[k - 1], chain[k - 1 + 1]);
      }
    }
    assert Derivation(ranks, longer);
  }

  lemma {:induction false} MergedDerives(ranks: Ranks, tokens: seq<Bytes>)
    requires tokens != []
    ensures Derives(ranks, tokens, Merged(ranks, tokens)) && Finished(ranks, Merged(ranks, tokens))
    decreases |tokens|
  {
    hide LeastMerge, Derives, IsLeastMerge;
    var next := LeastMerge(ranks, tokens, |tokens| - 1);
    if next.None? {
      DerivesItself(ranks, tokens);
    } else {
      LeastIsLeast(ranks, tokens, next.value);
      MergedDerives(ranks, MergedAt(tokens, next.value));
      DerivesStep(ranks, tokens, MergedAt(tokens, next.value), Merged(ranks, tokens));
    }
  }

  lemma DerivesItself(ranks: Ranks, tokens: seq<Bytes>)
    ensures Derives(ranks, tokens, tokens)
  {
    assert Derivation(ranks, [tokens]) && [tokens][0] == tokens;
  }

  lemma PieceTokenized(ranks: Ranks, piece: Bytes)
    ensures Tokenizes(ranks, piece, PieceTokens(ranks, piece))
  {
    hide Merged, Derives, Finished;
    if piece != [] && piece !in ranks {
      MergedDerives(ranks, Singletons(piece));
    }
  }

  lemma {:induction false} DerivationEnds(ranks: Ranks, chain: seq<seq<Bytes>>)
    requires Derivation(ranks, chain) && chain[0] != [] && Finished(ranks, chain[|chain| - 1])
    ensures Merged(ranks, chain[0]) == chain[|chain| - 1]
    decreases |chain|
  {
    hide LeastMerge, Mergeable;
    if |chain| > 1 {
      assert MergesTo(ranks, chain[0], chain[0 + 1]);
      var i: nat :| IsLeastMerge(ranks, chain[0], i)
               && chain[1] == chain[0][..i] + [chain[0][i] + chain[0][i + 1]] + chain[0][i + 2..];
      LeastIsLeast(ranks, chain[0], i);
      var rest := chain[1..];
      forall k | 0 <= k < |rest| - 1 ensures MergesTo(ranks, rest[k], rest[k + 1]) {
        assert MergesTo(ranks, chain[k + 1], chain[k + 1 + 1]);
      }
      DerivationEnds(ranks, rest);
    }
  }

  lemma DerivedMerged(ranks: Ranks, first: seq<Bytes>, last: seq<Bytes>)
    requires first != [] && Derives(ranks, first, last) && Finished(ranks, last)
    ensures Merged(ranks, first) == last
  {
    hide MergesTo, Finished, Merged;
    var chain :| Derivation(ranks, chain) && chain[0] == first && chain[|chain| - 1] == last;
    DerivationEnds(ranks, chain);
  }

  /** A piece has one list of tokens only. */
  lemma TokensUnique(ranks: Ranks, piece: Bytes, tokens: seq<Bytes>)
    ensures Tokenizes(ranks, piece, tokens) <==> tokens == PieceTokens(ranks, piece)
  {
    hide Merged, Derives, Finished;
    PieceTokenized(ranks, piece);
    if Tokenizes(ranks, piece, tokens) && piece != [] && piece !in ranks {
      var bytes :| |bytes| == |piece| && (forall i | 0 <= i < |piece| :: bytes[i] == [piece[i]])
                   && Derives(ranks, bytes, tokens) && Finished(ranks, tokens);
      assert bytes == Singletons(piece);
      DerivedMerged(ranks, bytes, tokens);
    }
  }

  /** The piece between the fields of most bodies is one token, although none of its halves is. */
  lemma SeparatorIsOneToken(ranks: Ranks)
    requires [34, 44, 34] in ranks
    ensures PieceTokens(ranks, [34, 44, 34]) == [[34, 44, 34]]
  {}

  // ---- Whole texts ------------------------------------------------------------------------

  /** A match of the pre-tokenizer, as offsets into the text. */
  datatype Match = Match(begin: nat, end: nat)

  datatype TokenizeError = Unmatched(gap: Match)

  /** The matches come in order and do not overlap. */
  predicate InOrder(matches: seq<Match>, from: nat, length: nat) {
    if matches == [] then from <= length
    else from <= matches[0].begin <= matches[0].end && InOrder(matches[1..], matches[0].end, length)
  }

  /** The first bytes that the matches leave out. */
  function FirstGap(matches: seq<Match>, from: nat, length: nat): Option<Match> {
    if matches == [] then if from == length then None else Some(Match(from, length))
    else if from != matches[0].begin then Some(Match(from, matches[0].begin))
    else FirstGap(matches[1..], matches[0].end, length)
  }

  /** Where the next match must begin after the first `k`. */
  function CoveredTo(matches: seq<Match>, from: nat, k: nat): nat
    requires k <= |matches|
  {
    if k == 0 then from else matches[k - 1].end
  }

  /** The first `k` matches follow each other without a gap. */
  predicate Tiles(matches: seq<Match>, from: nat, k: nat)
    requires k <= |matches|
  {
    forall j | 0 <= j < k :: matches[j].begin == CoveredTo(matches, from, j)
  }

  /** There is no gap exactly if the matches tile the text; otherwise it is what lies before the first match that does not follow. */
  lemma {:induction false} FirstGapMeans(matches: seq<Match>, from: nat, length: nat)
    ensures var n := |matches|;
            FirstGap(matches, from, length).None? <==> Tiles(matches, from, n) && CoveredTo(matches, from, n) == length
    ensures FirstGap(matches, from, length).Some? ==>
              exists k: nat | k <= |matches| ::
                && Tiles(matches, from, k)
                && FirstGap(matches, from, length)
                   == Some(Match(CoveredTo(matches, from, k), if k < |matches| then matches[k].begin else length))
                && CoveredTo(matches, from, k) != (if k < |matches| then matches[k].begin else length)
  {
    if matches == [] {
      assert Tiles(matches, from, 0) && CoveredTo(matches, from, 0) == from;
    } else if from != matches[0].begin {
      assert Tiles(matches, from, 0) && CoveredTo(matches, from, 0) == from;
      TilesStart(matches, from);
    } else {
      var rest, next := matches[1..], matches[0].end;
      FirstGapMeans(rest, next, length);
      TilesRest(matches, from, |rest|);
      if FirstGap(matches, from, length).Some? {
        var k: nat :| k <= |rest| && Tiles(rest, next, k)
                      && FirstGap(rest, next, length)
                         == Some(Match(CoveredTo(rest, next, k), if k < |rest| then rest[k].begin else length))
                      && CoveredTo(rest, next, k) != (if k < |rest| then rest[k].begin else length);
        TilesRest(matches, from, k);
        assert Tiles(matches, from, k + 1);
      }
    }
  }

  lemma TilesStart(matches: seq<Match>, from: nat)
    requires matches != []
    ensures Tiles(matches, from, |matches|) ==> matches[0].begin == from
  {}

  lemma TilesRest(matches: seq<Match>, from: nat, k: nat)
    requires matches != [] && matches[0].begin == from && k < |matches|
    ensures CoveredTo(matches, from, k + 1) == CoveredTo(matches[1..], matches[0].end, k)
    ensures Tiles(matches, from, k + 1) <==> Tiles(matches[1..], matches[0].end, k)
  {
    var rest := matches[1..];
    assert forall j | 0 <= j < k :: rest[j] == matches[j + 1];
    assert forall j: nat | j < k :: CoveredTo(matches, from, j + 1) == CoveredTo(rest, matches[0].end, j);
    if Tiles(matches, from, k + 1) {
      forall j | 0 <= j < k ensures rest[j].begin == CoveredTo(rest, matches[0].end, j) {
        assert matches[j + 1].begin == CoveredTo(matches, from, j + 1);
      }
    }
    if Tiles(rest, matches[0].end, k) {
      forall j | 0 <= j < k + 1 ensures matches[j].begin == CoveredTo(matches, from, j) {
        if j > 0 {
          assert rest[j - 1].begin == CoveredTo(rest, matches[0].end, j - 1);
        }
      }
    }
  }

  function TextTokens(ranks: Ranks, text: Bytes, matches: seq<Match>, from: nat): seq<Bytes>
    requires InOrder(matches, from, |text|)
  {
    if matches == [] then []
    else
      OrderedEnds(matches, from, |text|);
      PieceTokens(ranks, text[matches[0].begin..matches[0].end])
      + TextTokens(ranks, text, matches[1..], matches[0].end)
  }

  lemma {:induction false} OrderedEnds(matches: seq<Match>, from: nat, length: nat)
    requires InOrder(matches, from, length)
    ensures from <= length
    ensures matches != [] ==> matches[0].end <= length
  {
    if matches != [] {
      OrderedEnds(matches[1..], matches[0].end, length);
    }
  }

  /** `encode`: the tokens of all pieces, or the first gap between them. */
  method Encode(ranks: Ranks, text: Bytes, matches: seq<Match>) returns (r: Result<seq<Bytes>, TokenizeError>)
    requires InOrder(matches, 0, |text|)
    ensures match FirstGap(matches, 0, |text|)
            case None => r == Ok(TextTokens(ranks, text, matches, 0))
            case Some(gap) => r == Err(Unmatched(gap))
    ensures r.Ok? ==> PieceByPiece(ranks, text, matches, r.value)
  {
    hide PieceTokens, PieceByPiece;
    TextTokenized(ranks, text, matches, 0);
    var tokens: seq<Bytes> := [];
    var consumed: nat := 0;
    assert matches[0..] == matches;
    for i := 0 to |matches|
      invariant consumed <= |text| && InOrder(matches[i..], consumed, |text|)
      invariant FirstGap(matches, 0, |text|) == FirstGap(matches[i..], consumed, |text|)
      invariant TextTokens(ranks, text, matches, 0) == tokens + TextTokens(ranks, text, matches[i..], consumed)
    {
      var rest := matches[i..];
      OrderedEnds(rest, consumed, |text|);
      assert rest[0] == matches[i] && rest[1..] == matches[i + 1..];
      if matches[i].begin != consumed {
        return Err(Unmatched(Match(consumed, matches[i].begin)));
      }
      var piece := EncodePiece(ranks, text[matches[i].begin..matches[i].end]);
      AppendAssociative(tokens, piece, TextTokens(ranks, text, rest[1..], rest[0].end));
      tokens := tokens + piece;
      consumed := matches[i].end;
    }
    assert matches[|matches|..] == [];
    if consumed != |text| {
      return Err(Unmatched(Match(consumed, |text|)));
    }
    assert TextTokens(ranks, text, [], consumed) == [] && tokens + [] == tokens;
    r := Ok(tokens);
  }

  function Flat(lists: seq<seq<Bytes>>): seq<Bytes> {
    if lists == [] then [] else lists[0] + Flat(lists[1..])
  }

  ghost predicate TokenizesEach(ranks: Ranks, text: Bytes, matches: seq<Match>, lists: seq<seq<Bytes>>) {
    && |lists| == |matches|
    && forall i | 0 <= i < |matches| ::
         && matches[i].begin <= matches[i].end <= |text|
         && Tokenizes(ranks, text[matches[i].begin..matches[i].end], lists[i])
  }

  /** The tokens are those of the pieces, one after the other. */
  ghost predicate PieceByPiece(ranks: Ranks, text: Bytes, matches: seq<Match>, tokens: seq<Bytes>) {
    exists lists :: TokenizesEach(ranks, text, matches, lists) && tokens == Flat(lists)
  }

  lemma {:induction false} TextTokenized(ranks: Ranks, text: Bytes, matches: seq<Match>, from: nat)
    requires InOrder(matches, from, |text|)
    ensures PieceByPiece(ranks, text, matches, TextTokens(ranks, text, matches, from))
  {
    hide PieceTokens, Tokenizes;
    if matches == [] {
      assert TokenizesEach(ranks, text, matches, []) && Flat([]) == [];
    } else {
      OrderedEnds(matches, from, |text|);
      TextTokenized(ranks, text, matches[1..], matches[0].end);
      var rest :| TokenizesEach(ranks, text, matches[1..], rest)
                  && TextTokens(ranks, text, matches[1..], matches[0].end) == Flat(rest);
      var piece := text[matches[0].begin..matches[0].end];
      PieceTokenized(ranks, piece);
      var lists := [PieceTokens(ranks, piece)] + rest;
      assert lists[1..] == rest;
      forall i | 0 <= i < |matches|
        ensures matches[i].begin <= matches[i].end <= |text|
                && Tokenizes(ranks, text[matches[i].begin..matches[i].end], lists[i])
      {
        if i > 0 {
          assert matches[1..][i - 1] == matches[i] && lists[i] == rest[i - 1];
        }
      }
      assert TokenizesEach(ranks, text, matches, lists);
    }
  }

  lemma ClosedAppend(ranks: Ranks, a: seq<Bytes>, b: seq<Bytes>)
    requires Closed(ranks, a) && Closed(ranks, b)
    ensures Closed(ranks, a + b)
  {}

  lemma NoTokens(ranks: Ranks)
    ensures Joined([]) == [] && Closed(ranks, [])
  {}

  /** Where the matches tile the text, its tokens spell it out and all belong to the vocabulary. */
  lemma {:induction false} TextGuarantees(ranks: Ranks, text: Bytes, matches: seq<Match>, from: nat)
    requires InOrder(matches, from, |text|) && FirstGap(matches, from, |text|).None?
    ensures from <= |text|
    ensures var tokens := TextTokens(ranks, text, matches, from);
            Joined(tokens) == text[from..] && Closed(ranks, tokens)
  {
    hide PieceTokens, Joined, Closed, Finished;
    OrderedEnds(matches, from, |text|);
    if matches == [] {
      NoTokens(ranks);
    } else {
      var m := matches[0];
      PieceGuarantees(ranks, text[m.begin..m.end]);
      TextGuarantees(ranks, text, matches[1..], m.end);
      var first, rest := PieceTokens(ranks, text[m.begin..m.end]), TextTokens(ranks, text, matches[1..], m.end);
      JoinedAppend(first, rest);
      ClosedAppend(ranks, first, rest);
      assert text[from..] == text[m.begin..m.end] + text[m.end..];
    }
  }
}
