/**
 What replacing owned values does to texts that are built around them: the texts
 of two runs that differ only in each run's own values become the same.
 */
module Templates {
  import opened Sorting
  import opened Text
  import opened Pointers
  import opened Normalization

  // ---- One source ------------------------------------------------------------------------------

  function Joined(parts: seq<string>, glue: string): string
    requires parts != []
  {
    if |parts| == 1 then parts[0] else parts[0] + (glue + Joined(parts[1..], glue))
  }

  /** After the part, the source occurs for the first time, even across the seam. */
  predicate FirstAfter(part: string, source: string) {
    forall i | 0 <= i < |part| :: !StartsWith((part + source)[i..], source)
  }

  /** The source is found exactly between the parts. */
  predicate Cuts(parts: seq<string>, source: string) {
    && parts != [] && source != ""
    && (forall k | 0 <= k < |parts| - 1 :: FirstAfter(parts[k], source))
    && !Occurs(source, parts[|parts| - 1])
  }

  lemma StartsWithin(s: string, more: string, source: string)
    requires |source| <= |s|
    ensures StartsWith(s + more, source) <==> StartsWith(s, source)
  {
    assert (s + more)[..|source|] == s[..|source|];
  }

  lemma FirstAfterTail(part: string, source: string)
    requires FirstAfter(part, source) && part != ""
    ensures FirstAfter(part[1..], source) && !StartsWith(part + source, source)
  {
    assert (part + source)[0..] == part + source;
    forall i | 0 <= i < |part[1..]| ensures !StartsWith((part[1..] + source)[i..], source) {
      assert (part[1..] + source)[i..] == (part + source)[i + 1..];
    }
  }

  lemma {:induction false} ReplacePart(part: string, source: string, rest: string, sentinel: string)
    requires source != "" && FirstAfter(part, source)
    ensures ReplaceAll(part + (source + rest), source, sentinel) == part + (sentinel + ReplaceAll(rest, source, sentinel))
  {
    hide FirstAfter, ReplaceAll;
    var s := part + (source + rest);
    if part == "" {
      assert s == source + rest;
      ReplaceHere(source, rest, sentinel);
    } else {
      FirstAfterTail(part, source);
      StartsWithin(part + source, rest, source);
      assert s == (part + source) + rest && s[1..] == part[1..] + (source + rest) && s[0] == part[0];
      ReplacePart(part[1..], source, rest, sentinel);
      ReplaceLater(s, source, sentinel);
      assert part == [part[0]] + part[1..];
    }
  }

  lemma ReplaceHere(source: string, rest: string, sentinel: string)
    requires source != ""
    ensures ReplaceAll(source + rest, source, sentinel) == sentinel + ReplaceAll(rest, source, sentinel)
  {
    assert (source + rest)[|source|..] == rest;
  }

  lemma ReplaceLater(s: string, source: string, sentinel: string)
    requires s != "" && source != "" && !StartsWith(s, source)
    ensures ReplaceAll(s, source, sentinel) == [s[0]] + ReplaceAll(s[1..], source, sentinel)
  {}

  lemma ShiftedSlice(c: char, s: string, i: nat, j: nat)
    requires 1 <= i <= j <= |s| + 1
    ensures ([c] + s)[i..j] == s[i - 1..j - 1]
  {}

  /** A text occurs at the front or further on. */
  lemma OccursCons(source: string, c: char, s: string)
    ensures Occurs(source, [c] + s) <==> StartsWith([c] + s, source) || Occurs(source, s)
  {
    var all := [c] + s;
    assert OccursAt(source, all, 0) <==> StartsWith(all, source);
    if i :| 0 <= i <= |s| && OccursAt(source, s, i) {
      ShiftedSlice(c, s, i + 1, i + 1 + |source|);
      assert OccursAt(source, all, i + 1);
    }
    if i :| 1 <= i <= |all| && OccursAt(source, all, i) {
      ShiftedSlice(c, s, i, i + |source|);
      assert OccursAt(source, s, i - 1);
    }
  }

  lemma {:induction false} ReplaceFree(part: string, source: string, sentinel: string)
    requires source != "" && !Occurs(source, part)
    ensures ReplaceAll(part, source, sentinel) == part
  {
    hide Occurs;
    if part != "" {
      assert part == [part[0]] + part[1..];
      OccursCons(source, part[0], part[1..]);
      ReplaceFree(part[1..], source, sentinel);
    }
  }

  /** The parts stay, and the sentinel stands wherever the source stood. */
  lemma {:induction false} ReplacedParts(parts: seq<string>, source: string, sentinel: string)
    requires Cuts(parts, source)
    ensures ReplaceAll(Joined(parts, source), source, sentinel) == Joined(parts, sentinel)
  {
    hide FirstAfter;
    if |parts| == 1 {
      ReplaceFree(parts[0], source, sentinel);
    } else {
      var rest := parts[1..];
      forall k | 0 <= k < |rest| - 1 ensures FirstAfter(rest[k], source) {
        assert FirstAfter(parts[k + 1], source);
      }
      ReplacedParts(rest, source, sentinel);
      assert FirstAfter(parts[0], source);
      ReplacePart(parts[0], source, Joined(rest, source), sentinel);
    }
  }

  lemma FirstAfterGrows(c: char, part: string, source: string, rest: string)
    requires FirstAfter(part, source) && !StartsWith([c] + (part + (source + rest)), source)
    ensures FirstAfter([c] + part, source)
  {
    var s := [c] + (part + (source + rest));
    forall i | 0 <= i < |[c] + part| ensures !StartsWith(([c] + part + source)[i..], source) {
      if i == 0 {
        assert ([c] + part + source)[0..] == s[..1 + |part| + |source|];
      } else {
        assert ([c] + part + source)[i..] == (part + source)[i - 1..];
      }
    }
  }

  /** Every text is cut by every source: replacing is replacing between the parts. */
  lemma {:induction false} EveryTextCuts(s: string, source: string) returns (parts: seq<string>)
    requires source != ""
    ensures Cuts(parts, source) && Joined(parts, source) == s
    decreases |s|
  {
    hide FirstAfter;
    if s == "" {
      parts := [""];
      assert !Occurs(source, "");
    } else if StartsWith(s, source) {
      var rest := EveryTextCuts(s[|source|..], source);
      parts := [""] + rest;
      assert parts[1..] == rest && s == source + s[|source|..];
      assert FirstAfter("", source) by { NothingBefore(source); }
      forall k | 0 <= k < |parts| - 1 ensures FirstAfter(parts[k], source) {
        assert k > 0 ==> parts[k] == rest[k - 1];
      }
    } else {
      var rest := EveryTextCuts(s[1..], source);
      parts := [[s[0]] + rest[0]] + rest[1..];
      assert parts[1..] == rest[1..] && s == [s[0]] + s[1..];
      if |rest| == 1 {
        OccursCons(source, s[0], rest[0]);
      } else {
        assert s == [s[0]] + (rest[0] + (source + Joined(rest[1..], source)));
        FirstAfterGrows(s[0], rest[0], source, Joined(rest[1..], source));
        forall k | 0 <= k < |parts| - 1 ensures FirstAfter(parts[k], source) {
          assert k > 0 ==> parts[k] == rest[k];
        }
      }
    }
  }

  lemma NothingBefore(source: string)
    ensures FirstAfter("", source)
  {}

  /**
   It is not enough that the parts hold no source: behind `a`, the source `aa` is
   found one place too early, across the seam.
   */
  lemma SeamFoundFirst()
    ensures !Occurs("aa", "a") && !Occurs("aa", "") && !Cuts(["a", ""], "aa")
    ensures ReplaceAll(Joined(["a", ""], "aa"), "aa", "#") == "#a" != Joined(["a", ""], "#")
  {
    var parts := ["a", ""];
    assert parts[1..] == [""];
    assert Joined(parts, "aa") == "aaa" && Joined(parts, "#") == "a#";
    assert "aaa"[2..] == "a" && "a"[1..] == "";
    assert ReplaceAll("a", "aa", "#") == "a";
    assert ("a" + "aa")[0..] == "aaa";
    assert !FirstAfter("a", "aa");
  }

  // ---- Several sources, one after the other ----------------------------------------------------

  /** A text that is replaced, and by what. */
  datatype Replacement = Replacement(source: string, sentinel: string)

  function ReplaceInOrder(s: string, order: seq<Replacement>): string
    decreases |order|
  {
    if order == [] then s else ReplaceInOrder(ReplaceAll(s, order[0].source, order[0].sentinel), order[1..])
  }

  function SourcesOf(order: seq<Replacement>): (texts: seq<string>)
    ensures |texts| == |order|
  {
    seq(|order|, i requires 0 <= i < |order| => order[i].source)
  }

  function SentinelsOf(order: seq<Replacement>): (texts: seq<string>)
    ensures |texts| == |order|
  {
    seq(|order|, i requires 0 <= i < |order| => order[i].sentinel)
  }

  /** A text with places for values that each run has of its own. */
  datatype Piece = Fixed(text: string) | Slot(n: nat)

  function TextOf(piece: Piece, texts: seq<string>): string {
    match piece
    case Fixed(text) => text
    case Slot(n) => if n < |texts| then texts[n] else ""
  }

  function Fill(template: seq<Piece>, texts: seq<string>): string {
    if template == [] then "" else TextOf(template[0], texts) + Fill(template[1..], texts)
  }

  /** The filled text around the places of the first value. */
  function Around(template: seq<Piece>, texts: seq<string>): (parts: seq<string>)
    ensures parts != []
  {
    if template == [] then [""]
    else
      var rest := Around(template[1..], texts);
      if template[0] == Slot(0) then [""] + rest else [TextOf(template[0], texts) + rest[0]] + rest[1..]
  }

  function SettledPiece(piece: Piece, text: string): Piece {
    match piece
    case Fixed(t) => Fixed(t)
    case Slot(n) => if n == 0 then Fixed(text) else Slot(n - 1)
  }

  /** The template once the first value's places hold this text. */
  function Settled(template: seq<Piece>, text: string): (next: seq<Piece>) {
    if template == [] then [] else [SettledPiece(template[0], text)] + Settled(template[1..], text)
  }

  /** Whenever its turn comes, each value is found in its places and nowhere else. */
  predicate Separate(template: seq<Piece>, order: seq<Replacement>)
    decreases |order|
  {
    order == []
    || (Cuts(Around(template, SourcesOf(order)), order[0].source)
        && Separate(Settled(template, order[0].sentinel), order[1..]))
  }

  lemma {:induction false} JoinedGrows(text: string, parts: seq<string>, glue: string)
    requires parts != []
    ensures Joined([text + parts[0]] + parts[1..], glue) == text + Joined(parts, glue)
    ensures Joined([""] + parts, glue) == glue + Joined(parts, glue)
  {
    var grown, longer := [text + parts[0]] + parts[1..], [""] + parts;
    assert grown[1..] == parts[1..] && longer[1..] == parts;
    if |parts| > 1 {
      assert (text + parts[0]) + (glue + Joined(parts[1..], glue)) == text + (parts[0] + (glue + Joined(parts[1..], glue)));
    }
    assert "" + (glue + Joined(parts, glue)) == glue + Joined(parts, glue);
  }

  /** Putting a text into the first value's places gives the parts around them, joined by it. */
  lemma {:induction false} SettledJoins(template: seq<Piece>, texts: seq<string>, text: string)
    requires texts != []
    ensures Fill(Settled(template, text), texts[1..]) == Joined(Around(template, texts), text)
  {
    hide Joined, TextOf, SettledPiece;
    if template == [] {
      OnePart("", text);
    } else {
      SettledJoins(template[1..], texts, text);
      JoinedGrows(TextOf(template[0], texts), Around(template[1..], texts), text);
      SettledText(template[0], texts, text);
      FillFirst(SettledPiece(template[0], text), Settled(template[1..], text), texts[1..]);
    }
  }

  lemma OnePart(part: string, glue: string)
    ensures Joined([part], glue) == part
  {}

  lemma FillFirst(piece: Piece, rest: seq<Piece>, texts: seq<string>)
    ensures Fill([piece] + rest, texts) == TextOf(piece, texts) + Fill(rest, texts)
  {
    assert ([piece] + rest)[1..] == rest;
  }

  lemma SettledText(piece: Piece, texts: seq<string>, text: string)
    requires texts != []
    ensures TextOf(SettledPiece(piece, text), texts[1..]) == if piece == Slot(0) then text else TextOf(piece, texts)
  {}

  lemma {:induction false} FilledJoins(template: seq<Piece>, texts: seq<string>)
    requires texts != []
    ensures Fill(template, texts) == Joined(Around(template, texts), texts[0])
  {
    hide Joined, TextOf;
    if template == [] {
      OnePart("", texts[0]);
    } else {
      SlotText(template[0], texts);
      FilledJoins(template[1..], texts);
      JoinedGrows(TextOf(template[0], texts), Around(template[1..], texts), texts[0]);
    }
  }

  lemma SlotText(piece: Piece, texts: seq<string>)
    requires texts != []
    ensures piece == Slot(0) ==> TextOf(piece, texts) == texts[0]
  {}

  /** Replacing the values of a filled template leaves the template filled with the sentinels. */
  lemma {:induction false} FilledNormalizes(template: seq<Piece>, order: seq<Replacement>)
    requires Separate(template, order)
    ensures ReplaceInOrder(Fill(template, SourcesOf(order)), order) == Fill(template, SentinelsOf(order))
    decreases |order|
  {
    hide Cuts, Around, Fill, Joined, ReplaceAll, Settled;
    var sources, sentinels := SourcesOf(order), SentinelsOf(order);
    if order == [] {
      assert sources == sentinels == [];
    } else {
      var first := order[0];
      assert sources[0] == first.source && sources[1..] == SourcesOf(order[1..]);
      assert sentinels[0] == first.sentinel && sentinels[1..] == SentinelsOf(order[1..]);
      FilledJoins(template, sources);
      ReplacedParts(Around(template, sources), first.source, first.sentinel);
      SettledJoins(template, sources, first.sentinel);
      FilledNormalizes(Settled(template, first.sentinel), order[1..]);
      SettledJoins(template, sentinels, first.sentinel);
      FilledJoins(template, sentinels);
    }
  }

  lemma {:induction false} ReplaceSplit(s: string, a: seq<Replacement>, b: seq<Replacement>)
    ensures ReplaceInOrder(s, a + b) == ReplaceInOrder(ReplaceInOrder(s, a), b)
    decreases |a|
  {
    if a == [] {
      assert a + b == b;
    } else {
      assert (a + b)[1..] == a[1..] + b;
      ReplaceSplit(ReplaceAll(s, a[0].source, a[0].sentinel), a[1..], b);
    }
  }

  // ---- The order of the sources ----------------------------------------------------------------

  lemma LongestFirstOrder()
    ensures TotalOrder(LongestFirst)
  {
    hide LexLe;
    LexOrder();
  }

  lemma {:induction false} NonEmptyKeeps(sources: seq<string>, x: string)
    ensures x in NonEmpty(sources) <==> x in sources && x != ""
  {
    if sources != [] {
      NonEmptyKeeps(sources[1..], x);
      assert x in sources <==> x == sources[0] || x in sources[1..];
    }
  }

  /** Of texts in order, each stays once. */
  lemma {:induction false} DeduplicatedStrictly(sources: seq<string>)
    requires Ascending(sources, LongestFirst)
    ensures Ascending(Deduplicated(sources), LongestFirst) && Distinct(Deduplicated(sources))
    ensures forall x :: x in Deduplicated(sources) <==> x in sources
  {
    hide LongestFirst;
    LongestFirstOrder();
    if |sources| > 1 {
      var rest := sources[1..];
      DeduplicatedStrictly(rest);
      var kept := Deduplicated(rest);
      assert forall x :: x in sources <==> x == sources[0] || x in rest;
      if sources[0] != sources[1] {
        forall i | 0 <= i < |kept| ensures LongestFirst(sources[0], kept[i]) && sources[0] != kept[i] {
          assert kept[i] in rest;
          var j :| 0 <= j < |rest| && rest[j] == kept[i];
          assert LongestFirst(sources[0], sources[j + 1]) && LongestFirst(sources[1], sources[j + 1]) by {
            Ahead(sources, j + 1);
          }
        }
        AscendingCons(sources[0], kept, LongestFirst);
      }
    }
  }

  lemma Ahead(sources: seq<string>, j: nat)
    requires Ascending(sources, LongestFirst) && 1 <= j < |sources|
    ensures LongestFirst(sources[0], sources[j]) && LongestFirst(sources[1], sources[j])
    ensures LongestFirst(sources[0], sources[1])
  {
    LongestFirstOrder();
  }

  /** Each nonempty source of the kind is tried once, a longer one before a shorter one. */
  lemma SourcesInOrder(context: Context, kind: Kind)
    ensures var order := OrderedSources(context, kind);
            && (forall x :: x in order <==> x in Sources(context, kind) && x != "")
            && forall i, j | 0 <= i < j < |order| :: order[i] != order[j] && |order[i]| >= |order[j]|
  {
    hide Deduplicated, Arranged, NonEmpty, LexLe, Sources;
    LongestFirstOrder();
    var all := NonEmpty(Sources(context, kind));
    var arranged := Arranged(all, LongestFirst);
    ArrangedAscending(all, LongestFirst);
    DeduplicatedStrictly(arranged);
    forall x ensures x in OrderedSources(context, kind) <==> x in Sources(context, kind) && x != "" {
      NonEmptyKeeps(Sources(context, kind), x);
      InMultiset(all, x);
      InMultiset(arranged, x);
    }
  }

  // ---- What is replaced at a pointer -------------------------------------------------------------

  function Named(sources: seq<string>, sentinel: string): (order: seq<Replacement>)
    ensures |order| == |sources|
  {
    seq(|sources|, i requires 0 <= i < |sources| => Replacement(sources[i], sentinel))
  }

  /** All replacements at the pointer: kind by kind, and the sources of a kind in their order. */
  function Replacements(pointer: string, dialect: string, kinds: seq<Kind>, context: Context): seq<Replacement> {
    if kinds == [] then []
    else
      (if NormalizationAllowed(dialect, pointer, kinds[0]) then Named(OrderedSources(context, kinds[0]), Sentinel(kinds[0]))
       else [])
      + Replacements(pointer, dialect, kinds[1..], context)
  }

  lemma {:induction false} EachInOrder(s: string, sources: seq<string>, sentinel: string)
    ensures ReplaceEach(s, sources, sentinel) == ReplaceInOrder(s, Named(sources, sentinel))
    decreases |sources|
  {
    hide ReplaceAll;
    if sources != [] {
      assert Named(sources, sentinel)[1..] == Named(sources[1..], sentinel);
      EachInOrder(ReplaceAll(s, sources[0], sentinel), sources[1..], sentinel);
    }
  }

  /** A string is normalized by these replacements, one after the other. */
  lemma {:induction false} KindsInOrder(s: string, pointer: string, dialect: string, kinds: seq<Kind>, context: Context)
    ensures ReplaceKinds(s, pointer, dialect, kinds, context)
         == ReplaceInOrder(s, Replacements(pointer, dialect, kinds, context))
    decreases |kinds|
  {
    hide ReplaceEach, NormalizationAllowed, ReplaceAll, OrderedSources;
    if kinds != [] {
      var owned := ReplaceOwned(s, pointer, dialect, kinds[0], context);
      KindsInOrder(owned, pointer, dialect, kinds[1..], context);
      var here := if NormalizationAllowed(dialect, pointer, kinds[0])
                  then Named(OrderedSources(context, kinds[0]), Sentinel(kinds[0])) else [];
      if NormalizationAllowed(dialect, pointer, kinds[0]) {
        EachInOrder(s, OrderedSources(context, kinds[0]), Sentinel(kinds[0]));
      }
      ReplaceSplit(s, here, Replacements(pointer, dialect, kinds[1..], context));
    }
  }

  // ---- Which pointers are allowed ------------------------------------------------------------------

  /** Content, by keys. A pattern covers what is below it, so that the shorter one of two decides. */
  lemma ContentByKeys(keys: seq<string>)
    ensures ContentPointerAllowed("openai-chat-completions", Render(keys))
       <==> || Begins(keys, ["messages", "*", "content"])
            || Begins(keys, ["messages", "*", "tool_calls", "*", "function", "arguments"])
    ensures ContentPointerAllowed("openai-responses", Render(keys))
       <==> Begins(keys, ["instructions"]) || Begins(keys, ["input"])
    ensures ContentPointerAllowed("anthropic-messages", Render(keys))
       <==> Begins(keys, ["system"]) || Begins(keys, ["messages", "*", "content"])
  {
    hide Render;
    ChatContent(keys);
    ResponsesContent(keys);
    AnthropicContent(keys);
  }

  lemma ChatContent(keys: seq<string>)
    ensures ContentPointerAllowed("openai-chat-completions", Render(keys))
       <==> || Begins(keys, ["messages", "*", "content"])
            || Begins(keys, ["messages", "*", "tool_calls", "*", "function", "arguments"])
  {
    hide Render, PointerPatternMatches, Slashes, Begins;
    var table := [["messages", "*", "content"], ["messages", "*", "content", "*", "text"],
                  ["messages", "*", "tool_calls", "*", "function", "arguments"]];
    SomeSelects(keys, CHAT_CONTENT, table);
    assert ContentPatterns("openai-chat-completions") == CHAT_CONTENT;
    BeginsLonger(keys, table[0], ["*", "text"]);
    assert table[0] + ["*", "text"] == table[1];
    assert Begins(keys, table[0]) || Begins(keys, table[1]) || Begins(keys, table[2])
      <==> exists i | 0 <= i < |table| :: Begins(keys, table[i]);
  }

  lemma BeginsLonger(keys: seq<string>, parts: seq<string>, more: seq<string>)
    ensures Begins(keys, parts + more) ==> Begins(keys, parts)
  {
    assert forall i | 0 <= i < |parts| :: (parts + more)[i] == parts[i];
  }

  lemma ResponsesContent(keys: seq<string>)
    ensures ContentPointerAllowed("openai-responses", Render(keys)) <==> Begins(keys, ["instructions"]) || Begins(keys, ["input"])
  {
    hide Render, PointerPatternMatches, Slashes, Begins;
    var table := [["instructions"], ["input"], ["input", "*", "content"], ["input", "*", "content", "*", "text"],
                  ["input", "*", "arguments"]];
    SomeSelects(keys, RESPONSES_CONTENT, table);
    assert |"openai-responses"| != |"openai-chat-completions"|;
    assert ContentPatterns("openai-responses") == RESPONSES_CONTENT;
    BeginsLonger(keys, table[1], ["*", "content"]);
    BeginsLonger(keys, table[1], ["*", "content", "*", "text"]);
    BeginsLonger(keys, table[1], ["*", "arguments"]);
    assert table[1] + ["*", "content"] == table[2] && table[1] + ["*", "content", "*", "text"] == table[3]
        && table[1] + ["*", "arguments"] == table[4];
    assert Begins(keys, table[0]) || Begins(keys, table[1]) || Begins(keys, table[2]) || Begins(keys, table[3])
        || Begins(keys, table[4])
      <==> exists i | 0 <= i < |table| :: Begins(keys, table[i]);
  }

  lemma AnthropicContent(keys: seq<string>)
    ensures ContentPointerAllowed("anthropic-messages", Render(keys))
       <==> Begins(keys, ["system"]) || Begins(keys, ["messages", "*", "content"])
  {
    hide Render, PointerPatternMatches, Slashes, Begins;
    var table := [["system"], ["system", "*", "text"], ["messages", "*", "content"],
                  ["messages", "*", "content", "*", "text"], ["messages", "*", "content", "*", "input"]];
    SomeSelects(keys, ANTHROPIC_CONTENT, table);
    assert "anthropic-messages"[0] != 'o';
    assert ContentPatterns("anthropic-messages") == ANTHROPIC_CONTENT;
    BeginsLonger(keys, table[0], ["*", "text"]);
    BeginsLonger(keys, table[2], ["*", "text"]);
    BeginsLonger(keys, table[2], ["*", "input"]);
    assert table[0] + ["*", "text"] == table[1] && table[2] + ["*", "text"] == table[3]
        && table[2] + ["*", "input"] == table[4];
    assert Begins(keys, table[0]) || Begins(keys, table[1]) || Begins(keys, table[2]) || Begins(keys, table[3])
        || Begins(keys, table[4])
      <==> exists i | 0 <= i < |table| :: Begins(keys, table[i]);
  }
}
