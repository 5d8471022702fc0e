/**
 Replacement of the exact values that the runner itself created (paths, markers,
 the credential) before bodies of different runs are compared.
 */
module Normalization {
  import opened Prelude
  import opened Sorting
  import opened Text
  import opened Json
  import opened Pointers
  import opened Comparison

  datatype Context = Context(
    credential: string,
    profilePaths: seq<string>,
    workspacePaths: seq<string>,
    temporaryPaths: seq<string>,
    socketPaths: seq<string>,
    runMarkers: seq<string>,
    executionId: string)

  datatype Kind =
    | Credential | ProfilePath | WorkspacePath | TemporaryPath | SocketPath | RunMarker | ExecutionId

  const CHAT_CONTENT :=
    [Slashes(["messages", "*", "content"]), Slashes(["messages", "*", "content", "*", "text"]),
     Slashes(["messages", "*", "tool_calls", "*", "function", "arguments"])]
  const RESPONSES_CONTENT :=
    [Slashes(["instructions"]), Slashes(["input"]), Slashes(["input", "*", "content"]),
     Slashes(["input", "*", "content", "*", "text"]), Slashes(["input", "*", "arguments"])]
  const ANTHROPIC_CONTENT :=
    [Slashes(["system"]), Slashes(["system", "*", "text"]), Slashes(["messages", "*", "content"]),
     Slashes(["messages", "*", "content", "*", "text"]), Slashes(["messages", "*", "content", "*", "input"])]

  function MetadataPointer(kind: Kind): string {
    match kind
    case Credential => "/metadata/ahrb_credential"
    case ProfilePath => "/metadata/ahrb_profile_path"
    case WorkspacePath => "/metadata/ahrb_workspace_path"
    case TemporaryPath => "/metadata/ahrb_tmp_path"
    case SocketPath => "/metadata/ahrb_socket_path"
    case RunMarker => "/metadata/ahrb_run_marker"
    case ExecutionId => "/metadata/ahrb_execution_id"
  }

  function Sentinel(kind: Kind): string {
    match kind
    case Credential => "<AHRB_CREDENTIAL>"
    case ProfilePath => "<AHRB_PROFILE_PATH>"
    case WorkspacePath => "<AHRB_WORKSPACE_PATH>"
    case TemporaryPath => "<AHRB_TMP_PATH>"
    case SocketPath => "<AHRB_SOCKET_PATH>"
    case RunMarker => "<AHRB_RUN_MARKER>"
    case ExecutionId => "<AHRB_EXECUTION_ID>"
  }

  function Sources(context: Context, kind: Kind): seq<string> {
    match kind
    case Credential => [context.credential]
    case ProfilePath => context.profilePaths
    case WorkspacePath => context.workspacePaths
    case TemporaryPath => context.temporaryPaths
    case SocketPath => context.socketPaths
    case RunMarker => context.runMarkers
    case ExecutionId => [context.executionId]
  }

  function ContentPatterns(dialect: string): seq<string> {
    if dialect == "openai-chat-completions" then CHAT_CONTENT
    else if dialect == "openai-responses" then RESPONSES_CONTENT
    else if dialect == "anthropic-messages" then ANTHROPIC_CONTENT
    else []
  }

  predicate ContentPointerAllowed(dialect: string, pointer: string) {
    exists i | 0 <= i < |ContentPatterns(dialect)| :: PointerPatternMatches(pointer, ContentPatterns(dialect)[i])
  }

  /** The credential and the execution id are replaced in their metadata fields only. */
  predicate NormalizationAllowed(dialect: string, pointer: string, kind: Kind) {
    || pointer == MetadataPointer(kind)
    || (kind != Credential && kind != ExecutionId && ContentPointerAllowed(dialect, pointer))
  }

  /** Longer sources first; sources of one length in byte order. */
  predicate LongestFirst(a: string, b: string) {
    |a| > |b| || (|a| == |b| && LexLe(a, b))
  }

  function NonEmpty(sources: seq<string>): seq<string> {
    if sources == [] then []
    else (if sources[0] == "" then [] else [sources[0]]) + NonEmpty(sources[1..])
  }

  function Deduplicated(sources: seq<string>): seq<string> {
    if |sources| <= 1 then sources
    else if sources[0] == sources[1] then Deduplicated(sources[1..])
    else [sources[0]] + Deduplicated(sources[1..])
  }

  /** `str::replace`: every occurrence, from the left, without overlap. */
  function ReplaceAll(s: string, source: string, sentinel: string): string {
    if source == "" || s == "" then s
    else if StartsWith(s, source) then sentinel + ReplaceAll(s[|source|..], source, sentinel)
    else [s[0]] + ReplaceAll(s[1..], source, sentinel)
  }

  function ReplaceEach(s: string, sources: seq<string>, sentinel: string): string
    decreases |sources|
  {
    if sources == [] then s
    else ReplaceEach(ReplaceAll(s, sources[0], sentinel), sources[1..], sentinel)
  }

  /** The sources of a kind in the order in which they are tried. */
  function OrderedSources(context: Context, kind: Kind): seq<string> {
    Deduplicated(Arranged(NonEmpty(Sources(context, kind)), LongestFirst))
  }

  function ReplaceOwned(s: string, pointer: string, dialect: string, kind: Kind, context: Context): string {
    if NormalizationAllowed(dialect, pointer, kind) then
      ReplaceEach(s, OrderedSources(context, kind), Sentinel(kind))
    else s
  }

  /** The order in which the kinds of owned value are replaced. */
  const REPLACEMENT_ORDER: seq<Kind> :=
    [WorkspacePath, SocketPath, TemporaryPath, ProfilePath, RunMarker, Credential, ExecutionId]

  function ReplaceKinds(s: string, pointer: string, dialect: string, kinds: seq<Kind>, context: Context): string
    decreases |kinds|
  {
    if kinds == [] then s
    else ReplaceKinds(ReplaceOwned(s, pointer, dialect, kinds[0], context), pointer, dialect, kinds[1..], context)
  }

  function NormalizeAtPointer(v: Value, pointer: string, dialect: string, context: Context): Value
    decreases v, 1, 0
  {
    match v
    case Array(items) => Array(NormalizeItems(items, 0, pointer, dialect, context))
    case Object(fields) =>
      Object(map k | k in fields :: NormalizeAtPointer(fields[k], Down(pointer, Key(k)), dialect, context))
    case Str(s) => Str(ReplaceKinds(s, pointer, dialect, REPLACEMENT_ORDER, context))
    case _ => v
  }

  function NormalizeItems(items: seq<Value>, from: nat, pointer: string, dialect: string, context: Context)
    : (r: seq<Value>)
    ensures |r| == |items|
    decreases items, 0, 0
  {
    if items == [] then []
    else [NormalizeAtPointer(items[0], Down(pointer, Index(from)), dialect, context)]
         + NormalizeItems(items[1..], from + 1, pointer, dialect, context)
  }

  lemma {:induction false} NormalizeItemsAt(items: seq<Value>, from: nat, pointer: string, dialect: string,
                                            context: Context, i: nat)
    requires i < |items|
    ensures NormalizeItems(items, from, pointer, dialect, context)[i]
         == NormalizeAtPointer(items[i], Down(pointer, Index(from + i)), dialect, context)
  {
    hide NormalizeAtPointer, Down;
    if i > 0 {
      NormalizeItemsAt(items[1..], from + 1, pointer, dialect, context, i - 1);
    }
  }

  function NormalizeOptional(v: Option<Value>, pointer: string, dialect: string, context: Context): Option<Value> {
    if v.None? then None else Some(NormalizeAtPointer(v.value, pointer, dialect, context))
  }

  lemma NormalizeChild(v: Option<Value>, step: Step, pointer: string, dialect: string, context: Context)
    ensures Child(NormalizeOptional(v, pointer, dialect, context), step)
         == NormalizeOptional(Child(v, step), Down(pointer, step), dialect, context)
  {
    hide NormalizeItems, Down, ReplaceKinds;
    if v.Some? && v.value.Array? && step.Index? && step.index < |v.value.items| {
      NormalizeItemsAt(v.value.items, 0, pointer, dialect, context, step.index);
    }
  }

  /**
   Normalization commutes with lookup: what it leaves at a path depends only on
   the value found there before and on the pointer of that path.
   */
  lemma {:induction false} NormalizationIsLocal(v: Option<Value>, path: seq<Step>, texts: seq<string>,
                                                dialect: string, context: Context)
    ensures Reach(NormalizeOptional(v, Render(texts), dialect, context), path)
         == NormalizeOptional(Reach(v, path), Render(texts + PathText(path)), dialect, context)
    decreases |path|
  {
    hide NormalizeOptional, Child, Render, Down;
    if path == [] {
      assert texts + PathText(path) == texts;
    } else {
      NormalizeChild(v, path[0], Render(texts), dialect, context);
      DownRenders(texts, path[0]);
      NormalizationIsLocal(Child(v, path[0]), path[1..], texts + [StepText(path[0])], dialect, context);
      assert PathText(path) == [StepText(path[0])] + PathText(path[1..]);
      assert texts + PathText(path) == texts + [StepText(path[0])] + PathText(path[1..]);
    }
  }

  lemma {:induction false} KindsKeep(s: string, pointer: string, dialect: string, kinds: seq<Kind>, context: Context)
    requires forall kind :: kind in kinds ==> !NormalizationAllowed(dialect, pointer, kind)
    ensures ReplaceKinds(s, pointer, dialect, kinds, context) == s
  {
    if kinds != [] {
      assert kinds[0] in kinds;
      KindsKeep(s, pointer, dialect, kinds[1..], context);
    }
  }

  /** A string at a pointer that no kind allows survives unchanged. */
  lemma OutsideAllowlistKept(body: Value, path: seq<Step>, s: string, dialect: string, context: Context)
    requires Reach(Some(body), path) == Some(Str(s))
    requires forall kind :: !NormalizationAllowed(dialect, Render(PathText(path)), kind)
    ensures Reach(Some(NormalizeAtPointer(body, "", dialect, context)), path) == Some(Str(s))
  {
    NormalizationIsLocal(Some(body), path, [], dialect, context);
    assert [] + PathText(path) == PathText(path);
    KindsKeep(s, Render(PathText(path)), dialect, REPLACEMENT_ORDER, context);
    NormalizeString(s, Render(PathText(path)), dialect, context);
  }

  lemma NormalizeString(s: string, pointer: string, dialect: string, context: Context)
    ensures NormalizeAtPointer(Str(s), pointer, dialect, context)
         == Str(ReplaceKinds(s, pointer, dialect, REPLACEMENT_ORDER, context))
  {}

  /** `normalize_canonical_request`; sorting object keys is the identity on this model of objects. */
  function NormalizeRequest(dialect: string, canonical: Value, context: Context): Value {
    NormalizeAtPointer(canonical, "", dialect, context)
  }
}
