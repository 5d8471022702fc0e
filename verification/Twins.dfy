/**
 Runs that differ only in what each run owns: their bodies normalize to the same
 requests, so that both determinism rows find them identical.
 */
module Twins {
  import opened Text
  import opened Json
  import opened Pointers
  import opened Comparison
  import opened Normalization
  import opened Templates
  import opened Streams
  import opened Rows

  /** Everything that is replaced in a string at this pointer, in order. */
  function AllReplacements(pointer: string, dialect: string, context: Context): seq<Replacement> {
    Replacements(pointer, dialect, REPLACEMENT_ORDER, context)
  }

  /**
   In content, paths and markers are replaced: first the workspace, then sockets,
   temporary paths, profile and run markers, each by its own sentinel. The
   credential and the execution id are left alone there.
   */
  lemma ContentReplacements(pointer: string, dialect: string, context: Context)
    requires ContentPointerAllowed(dialect, pointer)
    requires pointer != "/metadata/ahrb_credential" && pointer != "/metadata/ahrb_execution_id"
    ensures AllReplacements(pointer, dialect, context)
         == Named(OrderedSources(context, WorkspacePath), "<AHRB_WORKSPACE_PATH>")
            + (Named(OrderedSources(context, SocketPath), "<AHRB_SOCKET_PATH>")
               + (Named(OrderedSources(context, TemporaryPath), "<AHRB_TMP_PATH>")
                  + (Named(OrderedSources(context, ProfilePath), "<AHRB_PROFILE_PATH>")
                     + Named(OrderedSources(context, RunMarker), "<AHRB_RUN_MARKER>"))))
  {
    hide ContentPointerAllowed, OrderedSources, Named, Replacements;
    var last: seq<Kind> := [Credential, ExecutionId];
    NotReplaced(pointer, dialect, context);
    KindReplaced(pointer, dialect, RunMarker, last, context);
    KindReplaced(pointer, dialect, ProfilePath, [RunMarker] + last, context);
    KindReplaced(pointer, dialect, TemporaryPath, [ProfilePath] + ([RunMarker] + last), context);
    KindReplaced(pointer, dialect, SocketPath, [TemporaryPath] + ([ProfilePath] + ([RunMarker] + last)), context);
    KindReplaced(pointer, dialect, WorkspacePath,
                 [SocketPath] + ([TemporaryPath] + ([ProfilePath] + ([RunMarker] + last))), context);
    assert [WorkspacePath] + ([SocketPath] + ([TemporaryPath] + ([ProfilePath] + ([RunMarker] + last))))
        == REPLACEMENT_ORDER;
    var markers := Named(OrderedSources(context, RunMarker), "<AHRB_RUN_MARKER>");
    assert markers + [] == markers;
  }

  lemma KindReplaced(pointer: string, dialect: string, kind: Kind, rest: seq<Kind>, context: Context)
    requires ContentPointerAllowed(dialect, pointer) && kind != Credential && kind != ExecutionId
    ensures Replacements(pointer, dialect, [kind] + rest, context)
         == Named(OrderedSources(context, kind), Sentinel(kind)) + Replacements(pointer, dialect, rest, context)
  {
    hide ContentPointerAllowed, OrderedSources, Named, Sentinel;
    assert ([kind] + rest)[1..] == rest;
  }

  lemma NotReplaced(pointer: string, dialect: string, context: Context)
    requires pointer != "/metadata/ahrb_credential" && pointer != "/metadata/ahrb_execution_id"
    ensures Replacements(pointer, dialect, [Credential, ExecutionId], context) == []
  {
    var kinds: seq<Kind> := [Credential, ExecutionId];
    assert kinds[1..] == [ExecutionId] && kinds[1..][1..] == [];
    assert Replacements(pointer, dialect, [ExecutionId], context) == [] + [];
  }

  /** One template makes both texts out of the sources that come first; what comes after is the same on both sides. */
  predicate SharesTemplate(s: string, t: string, p: seq<Replacement>, q: seq<Replacement>, template: seq<Piece>, n: nat) {
    && n <= |p| && n <= |q| && p[n..] == q[n..] && SentinelsOf(p[..n]) == SentinelsOf(q[..n])
    && Separate(template, p[..n]) && s == Fill(template, SourcesOf(p[..n]))
    && Separate(template, q[..n]) && t == Fill(template, SourcesOf(q[..n]))
  }

  ghost predicate AlikeText(s: string, t: string, pointer: string, dialect: string, c: Context, d: Context) {
    exists template: seq<Piece>, n: nat ::
      SharesTemplate(s, t, AllReplacements(pointer, dialect, c), AllReplacements(pointer, dialect, d), template, n)
  }

  /** The bodies have the same shape, and their strings differ only in owned values, each at a pointer allowed for it. */
  ghost predicate Alike(a: Value, b: Value, pointer: string, dialect: string, c: Context, d: Context)
    decreases a
  {
    match (a, b)
    case (Array(xs), Array(ys)) =>
      |xs| == |ys| && forall i: nat | i < |xs| :: Alike(xs[i], ys[i], Down(pointer, Index(i)), dialect, c, d)
    case (Object(f), Object(g)) =>
      f.Keys == g.Keys && forall k | k in f :: Alike(f[k], g[k], Down(pointer, Key(k)), dialect, c, d)
    case (Str(s), Str(t)) => AlikeText(s, t, pointer, dialect, c, d)
    case (_, _) => a == b && !a.Str?
  }

  lemma AlikeTextNormalizes(s: string, t: string, pointer: string, dialect: string, c: Context, d: Context)
    requires AlikeText(s, t, pointer, dialect, c, d)
    ensures ReplaceKinds(s, pointer, dialect, REPLACEMENT_ORDER, c) == ReplaceKinds(t, pointer, dialect, REPLACEMENT_ORDER, d)
  {
    hide AllReplacements, Replacements, ReplaceKinds, Separate, Fill, ReplaceInOrder;
    var p, q := AllReplacements(pointer, dialect, c), AllReplacements(pointer, dialect, d);
    var template: seq<Piece>, n: nat :| SharesTemplate(s, t, p, q, template, n);
    FilledNormalizes(template, p[..n]);
    FilledNormalizes(template, q[..n]);
    ReplaceSplit(s, p[..n], p[n..]);
    ReplaceSplit(t, q[..n], q[n..]);
    assert p == p[..n] + p[n..] && q == q[..n] + q[n..];
    AllInOrder(s, pointer, dialect, c);
    AllInOrder(t, pointer, dialect, d);
  }

  lemma AllInOrder(s: string, pointer: string, dialect: string, c: Context)
    ensures ReplaceKinds(s, pointer, dialect, REPLACEMENT_ORDER, c) == ReplaceInOrder(s, AllReplacements(pointer, dialect, c))
  {
    KindsInOrder(s, pointer, dialect, REPLACEMENT_ORDER, c);
  }

  /** Alike bodies normalize to the same request. */
  lemma {:induction false} AlikeNormalizes(a: Value, b: Value, pointer: string, dialect: string, c: Context, d: Context)
    requires Alike(a, b, pointer, dialect, c, d)
    ensures NormalizeAtPointer(a, pointer, dialect, c) == NormalizeAtPointer(b, pointer, dialect, d)
    decreases a
  {
    hide AlikeText, ReplaceKinds, Down;
    match (a, b)
    case (Array(xs), Array(ys)) =>
      forall i: nat | i < |xs|
        ensures NormalizeItems(xs, 0, pointer, dialect, c)[i] == NormalizeItems(ys, 0, pointer, dialect, d)[i]
      {
        AlikeNormalizes(xs[i], ys[i], Down(pointer, Index(i)), dialect, c, d);
        NormalizeItemsAt(xs, 0, pointer, dialect, c, i);
        NormalizeItemsAt(ys, 0, pointer, dialect, d, i);
      }
    case (Object(f), Object(g)) =>
      forall k | k in f
        ensures NormalizeAtPointer(f[k], Down(pointer, Key(k)), dialect, c)
             == NormalizeAtPointer(g[k], Down(pointer, Key(k)), dialect, d)
      {
        AlikeNormalizes(f[k], g[k], Down(pointer, Key(k)), dialect, c, d);
      }
    case (Str(s), Str(t)) =>
      AlikeTextNormalizes(s, t, pointer, dialect, c, d);
    case (_, _) =>
  }

  // ---- One kind of owned value ---------------------------------------------------------------

  lemma {:induction false} ReplacementsSplit(pointer: string, dialect: string, a: seq<Kind>, b: seq<Kind>, context: Context)
    ensures Replacements(pointer, dialect, a + b, context)
         == Replacements(pointer, dialect, a, context) + Replacements(pointer, dialect, b, context)
  {
    hide NormalizationAllowed, OrderedSources;
    if a == [] {
      assert a + b == b;
    } else {
      assert (a + b)[0] == a[0] && (a + b)[1..] == a[1..] + b;
      ReplacementsSplit(pointer, dialect, a[1..], b, context);
    }
  }

  lemma {:induction false} SameReplacements(pointer: string, dialect: string, kinds: seq<Kind>, c: Context, d: Context)
    requires forall k | k in kinds :: Sources(c, k) == Sources(d, k)
    ensures Replacements(pointer, dialect, kinds, c) == Replacements(pointer, dialect, kinds, d)
  {
    hide NormalizationAllowed, Sources;
    if kinds != [] {
      assert kinds[0] in kinds;
      SameReplacements(pointer, dialect, kinds[1..], c, d);
    }
  }

  /** The parts, with the `n`-th value between them. */
  function Between(parts: seq<string>, n: nat): seq<Piece>
    requires parts != []
  {
    if |parts| == 1 then [Fixed(parts[0])] else [Fixed(parts[0]), Slot(n)] + Between(parts[1..], n)
  }

  lemma {:induction false} FillBetween(parts: seq<string>, n: nat, texts: seq<string>)
    requires parts != [] && n < |texts|
    ensures Fill(Between(parts, n), texts) == Joined(parts, texts[n])
  {
    var template := Between(parts, n);
    if |parts| == 1 {
      assert template[1..] == [] && parts[0] + "" == parts[0];
    } else {
      FillBetween(parts[1..], n, texts);
      assert template[1..][0] == Slot(n) && template[1..][1..] == Between(parts[1..], n);
    }
  }

  lemma {:induction false} SettledBetween(parts: seq<string>, n: nat, text: string)
    requires parts != [] && n > 0
    ensures Settled(Between(parts, n), text) == Between(parts, n - 1)
  {
    var template := Between(parts, n);
    if |parts| == 1 {
      assert template[1..] == [];
    } else {
      SettledBetween(parts[1..], n, text);
      assert template[1..][0] == Slot(n) && template[1..][1..] == Between(parts[1..], n);
      assert Settled(template[1..], text) == [Slot(n - 1)] + Settled(Between(parts[1..], n), text);
    }
  }

  /** Around the places of the only value stand the parts; with none of its places there is one part, the whole text. */
  lemma {:induction false} AroundBetween(parts: seq<string>, n: nat, texts: seq<string>)
    requires parts != [] && n < |texts|
    ensures Around(Between(parts, n), texts) == if n == 0 then parts else [Joined(parts, texts[n])]
  {
    var template := Between(parts, n);
    if |parts| == 1 {
      assert template[1..] == [] && Around([], texts) == [""] && parts[0] + "" == parts[0];
    } else {
      AroundBetween(parts[1..], n, texts);
      assert template[1..][0] == Slot(n) && template[1..][1..] == Between(parts[1..], n);
      var rest := Around(Between(parts[1..], n), texts);
      if n == 0 {
        assert Around(template[1..], texts) == [""] + rest;
        assert parts[0] + "" == parts[0] && parts == [parts[0]] + parts[1..];
      } else {
        assert Around(template[1..], texts) == [texts[n] + rest[0]] + rest[1..];
      }
    }
  }

  /** A value that comes after others is found in its places if none of the others occurs in the text. */
  lemma {:induction false} SeparateBetween(parts: seq<string>, before: seq<Replacement>, own: Replacement)
    requires Cuts(parts, own.source)
    requires forall r | r in before :: r.source != "" && !Occurs(r.source, Joined(parts, own.source))
    ensures Separate(Between(parts, |before|), before + [own])
    ensures Fill(Between(parts, |before|), SourcesOf(before + [own])) == Joined(parts, own.source)
    decreases |before|
  {
    hide Occurs;
    var order := before + [own];
    var n := |before|;
    FillBetween(parts, n, SourcesOf(order));
    AroundBetween(parts, n, SourcesOf(order));
    if before == [] {
      assert order[1..] == [];
    } else {
      assert before[0] in before && order[0] == before[0] && order[1..] == before[1..] + [own];
      SettledBetween(parts, n, order[0].sentinel);
      SeparateBetween(parts, before[1..], own);
    }
  }

  /**
   Texts that differ only in each run's own value of one kind are alike at a pointer
   allowed for it, provided the value cuts them into the same parts and nothing that
   is replaced before it occurs in them.
   */
  lemma OneKindAlike(parts: seq<string>, x: string, y: string, pointer: string, dialect: string, n: nat,
                     c: Context, d: Context)
    requires n < |REPLACEMENT_ORDER| && NormalizationAllowed(dialect, pointer, REPLACEMENT_ORDER[n])
    requires OrderedSources(c, REPLACEMENT_ORDER[n]) == [x] && OrderedSources(d, REPLACEMENT_ORDER[n]) == [y]
    requires forall k | k != REPLACEMENT_ORDER[n] :: Sources(c, k) == Sources(d, k)
    requires Cuts(parts, x) && Cuts(parts, y)
    requires forall r | r in Replacements(pointer, dialect, REPLACEMENT_ORDER[..n], c) ::
               r.source != "" && !Occurs(r.source, Joined(parts, x)) && !Occurs(r.source, Joined(parts, y))
    ensures AlikeText(Joined(parts, x), Joined(parts, y), pointer, dialect, c, d)
  {
    hide NormalizationAllowed, OrderedSources, Sources, Occurs, FirstAfter, Sentinel, Separate, Fill, Replacements;
    var kinds, kind := REPLACEMENT_ORDER, REPLACEMENT_ORDER[n];
    var before := Replacements(pointer, dialect, kinds[..n], c);
    var after := Replacements(pointer, dialect, kinds[n + 1..], c);
    var own, other := Replacement(x, Sentinel(kind)), Replacement(y, Sentinel(kind));
    OrderOnce();
    SameReplacements(pointer, dialect, kinds[..n], c, d);
    SameReplacements(pointer, dialect, kinds[n + 1..], c, d);
    SplitAtKind(pointer, dialect, n, c);
    SplitAtKind(pointer, dialect, n, d);
    OneNamed(x, Sentinel(kind));
    OneNamed(y, Sentinel(kind));
    SeparateBetween(parts, before, own);
    SeparateBetween(parts, before, other);
    var p, q := AllReplacements(pointer, dialect, c), AllReplacements(pointer, dialect, d);
    var m := |before| + 1;
    assert p == (before + [own]) + after && q == (before + [other]) + after;
    assert p[..m] == before + [own] && q[..m] == before + [other] && p[m..] == after == q[m..];
    SameSentinels(before, own, other);
    assert SharesTemplate(Joined(parts, x), Joined(parts, y), p, q, Between(parts, |before|), m);
  }

  lemma SameSentinels(before: seq<Replacement>, own: Replacement, other: Replacement)
    requires own.sentinel == other.sentinel
    ensures SentinelsOf(before + [own]) == SentinelsOf(before + [other])
  {}

  lemma OneNamed(x: string, sentinel: string)
    ensures Named([x], sentinel) == [Replacement(x, sentinel)]
  {}

  lemma OrderOnce()
    ensures forall i, j | 0 <= i < |REPLACEMENT_ORDER| && 0 <= j < |REPLACEMENT_ORDER| && i != j ::
              REPLACEMENT_ORDER[i] != REPLACEMENT_ORDER[j]
  {}

  lemma SplitAtKind(pointer: string, dialect: string, n: nat, context: Context)
    requires n < |REPLACEMENT_ORDER| && NormalizationAllowed(dialect, pointer, REPLACEMENT_ORDER[n])
    ensures AllReplacements(pointer, dialect, context)
         == Replacements(pointer, dialect, REPLACEMENT_ORDER[..n], context)
            + Named(OrderedSources(context, REPLACEMENT_ORDER[n]), Sentinel(REPLACEMENT_ORDER[n]))
            + Replacements(pointer, dialect, REPLACEMENT_ORDER[n + 1..], context)
  {
    hide NormalizationAllowed, OrderedSources, Sentinel;
    var kinds := REPLACEMENT_ORDER;
    assert kinds == kinds[..n] + kinds[n..] && kinds[n..][0] == kinds[n] && kinds[n..][1..] == kinds[n + 1..];
    ReplacementsSplit(pointer, dialect, kinds[..n], kinds[n..], context);
    AppendAssociative(Replacements(pointer, dialect, kinds[..n], context),
                      Named(OrderedSources(context, kinds[n]), Sentinel(kinds[n])),
                      Replacements(pointer, dialect, kinds[n + 1..], context));
  }

  const CONTENT_SENTINELS :=
    ["<AHRB_WORKSPACE_PATH>", "<AHRB_SOCKET_PATH>", "<AHRB_TMP_PATH>", "<AHRB_PROFILE_PATH>", "<AHRB_RUN_MARKER>"]

  /**
   The content of a chat request, built from a run's own workspace, socket,
   temporary and profile path and its marker, in any number and order: each is
   replaced by its own sentinel, and the rest of the text stays.
   */
  lemma ContentNormalized(keys: seq<string>, template: seq<Piece>, owned: seq<string>, context: Context)
    requires Begins(keys, ["messages", "*", "content"]) && |owned| == 5 && "" !in owned
    requires context.workspacePaths == [owned[0]] && context.socketPaths == [owned[1]]
    requires context.temporaryPaths == [owned[2]] && context.profilePaths == [owned[3]] && context.runMarkers == [owned[4]]
    requires Separate(template, seq(5, i requires 0 <= i < 5 => Replacement(owned[i], CONTENT_SENTINELS[i])))
    ensures NormalizeAtPointer(Str(Fill(template, owned)), Render(keys), "openai-chat-completions", context)
         == Str(Fill(template, CONTENT_SENTINELS))
  {
    hide Render, Separate, Fill, ReplaceKinds, Begins, ContentPointerAllowed, OrderedSources, AllReplacements;
    var pointer, dialect := Render(keys), "openai-chat-completions";
    var order := seq(5, i requires 0 <= i < 5 => Replacement(owned[i], CONTENT_SENTINELS[i]));
    ContentByKeys(keys);
    NotMetadata(keys);
    ContentReplacements(pointer, dialect, context);
    OneSource(context, WorkspacePath, owned[0]);
    OneSource(context, SocketPath, owned[1]);
    OneSource(context, TemporaryPath, owned[2]);
    OneSource(context, ProfilePath, owned[3]);
    OneSource(context, RunMarker, owned[4]);
    assert AllReplacements(pointer, dialect, context) == order by {
      OneNamed(owned[0], CONTENT_SENTINELS[0]);
      OneNamed(owned[1], CONTENT_SENTINELS[1]);
      OneNamed(owned[2], CONTENT_SENTINELS[2]);
      OneNamed(owned[3], CONTENT_SENTINELS[3]);
      OneNamed(owned[4], CONTENT_SENTINELS[4]);
    }
    AllInOrder(Fill(template, owned), pointer, dialect, context);
    assert SourcesOf(order) == owned && SentinelsOf(order) == CONTENT_SENTINELS;
    FilledNormalizes(template, order);
    NormalizeString(Fill(template, owned), pointer, dialect, context);
  }

  lemma NotMetadata(keys: seq<string>)
    requires Begins(keys, ["messages", "*", "content"])
    ensures Render(keys) != "/metadata/ahrb_credential" && Render(keys) != "/metadata/ahrb_execution_id"
  {
    hide EscapeKey, Render;
    assert keys[0] == "messages" && keys == ["messages"] + keys[1..];
    RenderFirst("messages", keys[1..]);
    PlainNames();
    PlainEscaped("messages");
    assert Render(keys)[3] == 's';
  }

  lemma OneSource(context: Context, kind: Kind, x: string)
    requires Sources(context, kind) == [x] && x != ""
    ensures OrderedSources(context, kind) == [x]
  {
    hide LongestFirst, Sources;
    assert [x][1..] == [] && NonEmpty([]) == [] && [x] + [] == [x];
    assert NonEmpty([x]) == [x];
  }

  lemma MetadataDiffers(kind: Kind, other: Kind)
    requires MetadataPointer(kind) == MetadataPointer(other)
    ensures kind == other
  {
    assert |MetadataPointer(kind)| == |MetadataPointer(other)| && MetadataPointer(kind)[15] == MetadataPointer(other)[15];
  }

  lemma {:induction false} OnlyKind(pointer: string, dialect: string, kind: Kind, kinds: seq<Kind>, context: Context)
    requires pointer == MetadataPointer(kind) && !ContentPointerAllowed(dialect, pointer)
    requires forall i, j | 0 <= i < j < |kinds| :: kinds[i] != kinds[j]
    ensures Replacements(pointer, dialect, kinds, context)
         == if kind in kinds then Named(OrderedSources(context, kind), Sentinel(kind)) else []
  {
    hide ContentPointerAllowed, OrderedSources, Named, MetadataPointer, Sentinel;
    if kinds != [] {
      OnlyKind(pointer, dialect, kind, kinds[1..], context);
      if MetadataPointer(kinds[0]) == pointer {
        MetadataDiffers(kinds[0], kind);
      }
      var named := Named(OrderedSources(context, kind), Sentinel(kind));
      assert named + [] == named;
      assert kind in kinds <==> kind == kinds[0] || kind in kinds[1..];
    }
  }

  /** A metadata field of the runner's own: its value alone is replaced there, by the sentinel of its kind. */
  lemma MetadataNormalized(kind: Kind, x: string, dialect: string, context: Context)
    requires Sources(context, kind) == [x] && x != "" && !ContentPointerAllowed(dialect, MetadataPointer(kind))
    ensures NormalizeAtPointer(Str(x), MetadataPointer(kind), dialect, context) == Str(Sentinel(kind))
  {
    hide ContentPointerAllowed, OrderedSources, MetadataPointer, Sentinel, ReplaceKinds;
    var pointer := MetadataPointer(kind);
    OrderOnce();
    OnlyKind(pointer, dialect, kind, REPLACEMENT_ORDER, context);
    EveryKind(kind);
    OneSource(context, kind, x);
    OneNamed(x, Sentinel(kind));
    AllInOrder(x, pointer, dialect, context);
    assert x + "" == x && [Replacement(x, Sentinel(kind))][1..] == [];
    ReplaceHere(x, "", Sentinel(kind));
    assert Sentinel(kind) + "" == Sentinel(kind);
    NormalizeString(x, pointer, dialect, context);
  }

  lemma EveryKind(kind: Kind)
    ensures kind in REPLACEMENT_ORDER
  {
    assert REPLACEMENT_ORDER[match kind
                             case WorkspacePath => 0 case SocketPath => 1 case TemporaryPath => 2 case ProfilePath => 3
                             case RunMarker => 4 case Credential => 5 case ExecutionId => 6] == kind;
  }

  /** The credential and the execution id have fields of their own. */
  lemma SecretsNormalized(dialect: string, context: Context)
    requires context.credential != "" && !ContentPointerAllowed(dialect, "/metadata/ahrb_credential")
    requires context.executionId != "" && !ContentPointerAllowed(dialect, "/metadata/ahrb_execution_id")
    ensures NormalizeAtPointer(Str(context.credential), "/metadata/ahrb_credential", dialect, context)
         == Str("<AHRB_CREDENTIAL>")
    ensures NormalizeAtPointer(Str(context.executionId), "/metadata/ahrb_execution_id", dialect, context)
         == Str("<AHRB_EXECUTION_ID>")
  {
    hide ContentPointerAllowed, NormalizeAtPointer;
    MetadataNormalized(Credential, context.credential, dialect, context);
    MetadataNormalized(ExecutionId, context.executionId, dialect, context);
  }

  // ---- Runs --------------------------------------------------------------------------------------

  /** The same request in two runs, up to what each run owns. */
  ghost predicate TwinRecords(a: Record, b: Record, c: Context, d: Context) {
    && a.key == b.key && a.dialect == b.dialect && a.attemptsTotal == b.attemptsTotal
    && Alike(a.canonical, b.canonical, "", a.dialect, c, d)
  }

  ghost predicate TwinRuns(a: Run, b: Run) {
    && |a.records| == |b.records|
    && forall i | 0 <= i < |a.records| :: TwinRecords(a.records[i], b.records[i], a.normalization, b.normalization)
  }

  lemma {:induction false} TwinStreams(a: Run, b: Run, n: nat)
    requires TwinRuns(a, b) && n <= |a.records|
    ensures StreamOf(a.records[..n], a.normalization) == StreamOf(b.records[..n], b.normalization)
  {
    hide Alike, NormalizeAtPointer;
    if n > 0 {
      TwinStreams(a, b, n - 1);
      assert a.records[..n][..n - 1] == a.records[..n - 1] && b.records[..n][..n - 1] == b.records[..n - 1];
      var x, y := a.records[n - 1], b.records[n - 1];
      assert TwinRecords(x, y, a.normalization, b.normalization);
      AlikeNormalizes(x.canonical, y.canonical, "", x.dialect, a.normalization, b.normalization);
    }
  }

  /**
   Runs that differ from run 1 only in what each run owns. Both rows agree on them:
   they are identical, and no field varies.
   */
  lemma TwinRunsIdentical(runs: seq<Run>, sha: string -> string)
    requires runs != [] && forall i | 1 <= i < |runs| :: TwinRuns(runs[0], runs[i])
    ensures Identical(runs, sha) && Varying(runs) == 0
  {
    hide TwinRuns, StreamBytes, SameStream, StreamOf;
    var streams := RunStreams(runs);
    forall i | 0 <= i < |runs| ensures streams[i] == streams[0] {
      if i > 0 {
        TwinStreams(runs[0], runs[i], |runs[0].records|);
        TwinLengths(runs[0], runs[i]);
        assert runs[0].records[..|runs[0].records|] == runs[0].records;
        assert runs[i].records[..|runs[0].records|] == runs[i].records;
      }
    }
    SameStreamReflexive(streams[0]);
    RunsVary(streams, |runs|);
  }

  lemma TwinLengths(a: Run, b: Run)
    requires TwinRuns(a, b)
    ensures |a.records| == |b.records|
  {}
}
