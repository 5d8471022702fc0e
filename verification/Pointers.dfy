/**
 JSON pointers (sections 3 and 4 of RFC 6901) and the pointer patterns with which
 the cross-run comparison selects fields.
 */
module Pointers {
  import opened Prelude
  import opened Text

  datatype PointerError = NoLeadingSlash | InvalidEscape(escape: char) | TrailingTilde | LiteralStar

  datatype Segment = Wildcard | Literal(text: string)

  /** Put already decoded text before the result for the remaining text. */
  function Prefixed(decoded: string, rest: Result<string, PointerError>): Result<string, PointerError> {
    if rest.Ok? then Ok(decoded + rest.value) else rest
  }

  /** The text that one reference token stands for; in a pattern `~2` is a literal star. */
  function DecodeSegment(segment: string, pattern: bool): Result<string, PointerError> {
    if segment == "" then Ok("")
    else if segment[0] == '~' then
      if |segment| == 1 then Err(TrailingTilde)
      else if segment[1] == '0' then Prefixed("~", DecodeSegment(segment[2..], pattern))
      else if segment[1] == '1' then Prefixed("/", DecodeSegment(segment[2..], pattern))
      else if segment[1] == '2' && pattern then Prefixed("*", DecodeSegment(segment[2..], pattern))
      else Err(InvalidEscape(segment[1]))
    else if pattern && segment[0] == '*' then Err(LiteralStar)
    else Prefixed([segment[0]], DecodeSegment(segment[1..], pattern))
  }

  lemma PrefixedTwice(p: string, q: string, r: Result<string, PointerError>)
    ensures Prefixed(p, Prefixed(q, r)) == Prefixed(p + q, r)
  {
    if r.Ok? {
      assert p + (q + r.value) == (p + q) + r.value;
    }
  }

  lemma PrefixedNothing(r: Result<string, PointerError>)
    ensures Prefixed("", r) == r
  {
    if r.Ok? {
      assert "" + r.value == r.value;
    }
  }

  /** One left-to-right pass that stops at the first bad character. */
  method DecodePointerSegment(segment: string, pattern: bool) returns (r: Result<string, PointerError>)
    ensures r == DecodeSegment(segment, pattern)
  {
    var decoded := "";
    var i := 0;
    assert segment[0..] == segment;
    PrefixedNothing(DecodeSegment(segment, pattern));
    while i < |segment|
      invariant 0 <= i <= |segment|
      invariant DecodeSegment(segment, pattern) == Prefixed(decoded, DecodeSegment(segment[i..], pattern))
    {
      var character := segment[i];
      ghost var rest := segment[i..];
      i := i + 1;
      if character == '~' {
        if i == |segment| {
          return Err(TrailingTilde);
        }
        var escape := segment[i];
        i := i + 1;
        assert rest[2..] == segment[i..];
        if escape == '0' {
          character := '~';
        } else if escape == '1' {
          character := '/';
        } else if escape == '2' && pattern {
          character := '*';
        } else {
          return Err(InvalidEscape(escape));
        }
      } else if pattern && character == '*' {
        return Err(LiteralStar);
      } else {
        assert rest[1..] == segment[i..];
      }
      PrefixedTwice(decoded, [character], DecodeSegment(segment[i..], pattern));
      decoded := decoded + [character];
    }
    assert segment[i..] == "" && decoded + "" == decoded;
    r := Ok(decoded);
  }

  function DecodeAll(segments: seq<string>): Result<seq<string>, PointerError> {
    if segments == [] then Ok([])
    else
      match DecodeSegment(segments[0], false)
      case Err(e) => Err(e)
      case Ok(head) =>
        match DecodeAll(segments[1..])
        case Err(e) => Err(e)
        case Ok(tail) => Ok([head] + tail)
  }

  function ParseJsonPointer(pointer: string): Result<seq<string>, PointerError> {
    if pointer == "" then Ok([])
    else if pointer[0] != '/' then Err(NoLeadingSlash)
    else DecodeAll(Split(pointer[1..], '/'))
  }

  function DecodePattern(segments: seq<string>): Result<seq<Segment>, PointerError> {
    if segments == [] then Ok([])
    else
      var head := if segments[0] == "*" then Ok(Wildcard)
                  else match DecodeSegment(segments[0], true)
                       case Ok(text) => Ok(Literal(text))
                       case Err(e) => Err(e);
      match head
      case Err(e) => Err(e)
      case Ok(first) =>
        match DecodePattern(segments[1..])
        case Err(e) => Err(e)
        case Ok(tail) => Ok([first] + tail)
  }

  function ParsePointerPattern(pattern: string): Result<seq<Segment>, PointerError> {
    if pattern == "" then Ok([])
    else if pattern[0] != '/' then Err(NoLeadingSlash)
    else DecodePattern(Split(pattern[1..], '/'))
  }

  predicate SegmentsMatch(path: seq<string>, pattern: seq<Segment>) {
    && |path| >= |pattern|
    && forall i | 0 <= i < |pattern| :: pattern[i].Wildcard? || path[i] == pattern[i].text
  }

  predicate PointerPatternMatches(pointer: string, pattern: string) {
    var path, segments := ParseJsonPointer(pointer), ParsePointerPattern(pattern);
    path.Ok? && segments.Ok? && SegmentsMatch(path.value, segments.value)
  }

  // ---- Building pointers ------------------------------------------------------

  /** `key.replace('~', "~0").replace('/', "~1")` */
  function EscapeKey(key: string): string {
    ReplaceChar(ReplaceChar(key, '~', "~0"), '/', "~1")
  }

  /** The pointer `format!("{pointer}/{escaped}")` builds, one key at a time. */
  function Render(keys: seq<string>): string {
    if keys == [] then "" else "/" + EscapeKey(keys[0]) + Render(keys[1..])
  }

  lemma {:induction false} RenderAppend(a: seq<string>, b: seq<string>)
    ensures Render(a + b) == Render(a) + Render(b)
  {
    if a == [] {
      assert a + b == b;
    } else {
      assert (a + b)[1..] == a[1..] + b;
      RenderAppend(a[1..], b);
    }
  }

  /** A key without `~` and `/`, such as an array index, is its own escape. */
  lemma {:induction false} PlainKey(key: string)
    requires forall i :: 0 <= i < |key| ==> key[i] != '~' && key[i] != '/'
    ensures EscapeKey(key) == key
  {
    if key != "" {
      PlainKey(key[1..]);
      EscapeKeyStep(key);
      assert key == [key[0]] + key[1..];
    }
  }

  function EscapeOne(c: char): string {
    if c == '~' then "~0" else if c == '/' then "~1" else [c]
  }

  lemma EscapeKeyStep(key: string)
    requires key != ""
    ensures EscapeKey(key) == EscapeOne(key[0]) + EscapeKey(key[1..])
  {
    var head := if key[0] == '~' then "~0" else [key[0]];
    ReplaceCharAppend(head, ReplaceChar(key[1..], '~', "~0"), '/', "~1");
    assert ReplaceChar(key, '~', "~0") == head + ReplaceChar(key[1..], '~', "~0");
    if key[0] == '~' {
      assert head[1..] == "0" && head[1..][1..] == "";
      assert ReplaceChar(head, '/', "~1") == "~" + ReplaceChar("0", '/', "~1");
    } else {
      assert head[1..] == "";
    }
  }

  lemma {:induction false} DecodeEscaped(key: string)
    ensures '/' !in EscapeKey(key)
    ensures DecodeSegment(EscapeKey(key), false) == Ok(key)
  {
    if key != "" {
      EscapeKeyStep(key);
      DecodeEscaped(key[1..]);
      var one, rest := EscapeOne(key[0]), EscapeKey(key[1..]);
      assert (one + rest)[|one|..] == rest;
      assert key == [key[0]] + key[1..];
    }
  }

  lemma EscapeCons(c: char, key: string)
    ensures EscapeKey([c] + key) == EscapeOne(c) + EscapeKey(key)
  {
    EscapeKeyStep([c] + key);
    assert ([c] + key)[1..] == key;
  }

  /** Decoding is undone by escaping: no token has two spellings. */
  lemma {:induction false} EscapeDecoded(segment: string)
    requires '/' !in segment && DecodeSegment(segment, false).Ok?
    ensures EscapeKey(DecodeSegment(segment, false).value) == segment
  {
    hide EscapeKey;
    if segment == "" {
      PlainKey("");
    } else {
      var n := if segment[0] == '~' then 2 else 1;
      var c := if n == 1 then segment[0] else if segment[1] == '0' then '~' else '/';
      var rest := segment[n..];
      EscapeDecoded(rest);
      EscapeCons(c, DecodeSegment(rest, false).value);
      assert DecodeSegment(segment, false).value == [c] + DecodeSegment(rest, false).value;
      assert segment == EscapeOne(c) + rest;
    }
  }

  lemma DecodeAllCons(key: string, segments: seq<string>, keys: seq<string>)
    requires DecodeAll(segments) == Ok(keys)
    ensures DecodeAll([EscapeKey(key)] + segments) == Ok([key] + keys)
  {
    DecodeEscaped(key);
    assert ([EscapeKey(key)] + segments)[1..] == segments;
  }

  lemma {:induction false} ParseRenderTail(key: string, keys: seq<string>)
    ensures DecodeAll(Split(EscapeKey(key) + Render(keys), '/')) == Ok([key] + keys)
    decreases |keys|
  {
    hide Split, DecodeAll, EscapeKey, DecodeSegment;
    DecodeEscaped(key);
    NoneDecoded();
    var text := EscapeKey(key) + Render(keys);
    if keys == [] {
      SplitHead(EscapeKey(key), '/', "");
      assert text == EscapeKey(key);
      DecodeAllCons(key, [], []);
      assert [EscapeKey(key)] + [] == [EscapeKey(key)];
    } else {
      var rest := EscapeKey(keys[0]) + Render(keys[1..]);
      assert Render(keys) == "/" + rest by { AppendAssociative("/", EscapeKey(keys[0]), Render(keys[1..])); }
      assert text == EscapeKey(key) + ['/'] + rest;
      SplitHead(EscapeKey(key), '/', rest);
      ParseRenderTail(keys[0], keys[1..]);
      assert keys == [keys[0]] + keys[1..];
      DecodeAllCons(key, Split(rest, '/'), keys);
    }
  }

  lemma NoneDecoded()
    ensures DecodeAll([]) == Ok([])
  {}

  lemma {:induction false} RenderDecoded(segments: seq<string>)
    requires forall i :: 0 <= i < |segments| ==> '/' !in segments[i]
    requires DecodeAll(segments).Ok?
    ensures Render(DecodeAll(segments).value) == Slashed(segments)
  {
    if segments != [] {
      EscapeDecoded(segments[0]);
      RenderDecoded(segments[1..]);
      var keys := DecodeAll(segments).value;
      assert keys[1..] == DecodeAll(segments[1..]).value;
    }
  }

  function Slashed(segments: seq<string>): string {
    if segments == [] then "" else "/" + segments[0] + Slashed(segments[1..])
  }

  lemma {:induction false} SplitRejoined(s: string)
    ensures Split(s, '/')[0] + Slashed(Split(s, '/')[1..]) == s
    ensures forall i :: 0 <= i < |Split(s, '/')| ==> '/' !in Split(s, '/')[i]
  {
    if s != "" {
      var rest := Split(s[1..], '/');
      SplitRejoined(s[1..]);
      assert s == [s[0]] + s[1..];
      if s[0] == '/' {
        assert ([""] + rest)[1..] == rest;
        assert "/" + rest[0] + Slashed(rest[1..]) == "/" + (rest[0] + Slashed(rest[1..]));
      } else {
        var head := [s[0]] + rest[0];
        assert ([head] + rest[1..])[1..] == rest[1..];
        assert head + Slashed(rest[1..]) == [s[0]] + (rest[0] + Slashed(rest[1..]));
      }
    }
  }

  lemma AfterSlash(x: string, y: string)
    ensures ("/" + x + y)[0] == '/' && ("/" + x + y)[1..] == x + y
  {}

  lemma ParseRendered(keys: seq<string>)
    ensures ParseJsonPointer(Render(keys)) == Ok(keys)
  {
    if keys != [] {
      hide Split, DecodeAll, EscapeKey, DecodeSegment;
      ParseRenderTail(keys[0], keys[1..]);
      AfterSlash(EscapeKey(keys[0]), Render(keys[1..]));
      assert keys == [keys[0]] + keys[1..];
    }
  }

  lemma RenderParsed(pointer: string)
    requires ParseJsonPointer(pointer).Ok?
    ensures Render(ParseJsonPointer(pointer).value) == pointer
  {
    if pointer != "" {
      hide Split, DecodeAll, Render;
      var parts := Split(pointer[1..], '/');
      SplitRejoined(pointer[1..]);
      RenderDecoded(parts);
      assert pointer == "/" + pointer[1..];
      assert Slashed(parts) == "/" + (parts[0] + Slashed(parts[1..]));
    }
  }

  /**
   Parsing and rendering are inverse to each other: a pointer parses to a key list
   exactly when it is the rendering of that list.
   */
  lemma PointerRoundTrip(pointer: string, keys: seq<string>)
    ensures ParseJsonPointer(pointer) == Ok(keys) <==> pointer == Render(keys)
  {
    hide ParseJsonPointer, Render;
    ParseRendered(keys);
    if ParseJsonPointer(pointer) == Ok(keys) {
      RenderParsed(pointer);
    }
  }

  /** Two key lists with the same pointer are the same list. */
  lemma RenderInjective(a: seq<string>, b: seq<string>)
    requires Render(a) == Render(b)
    ensures a == b
  {
    PointerRoundTrip(Render(a), a);
    PointerRoundTrip(Render(a), b);
  }

  /** A pattern that selects a pointer selects everything below it. */
  lemma PatternCoversExtensions(pointer: string, pattern: string, below: seq<string>)
    requires PointerPatternMatches(pointer, pattern)
    ensures PointerPatternMatches(pointer + Render(below), pattern)
  {
    var path := ParseJsonPointer(pointer).value;
    PointerRoundTrip(pointer, path);
    RenderAppend(path, below);
    PointerRoundTrip(pointer + Render(below), path + below);
  }

  // ---- Patterns -----------------------------------------------------------------

  function LiteralOne(c: char): string {
    if c == '~' then "~0" else if c == '/' then "~1" else if c == '*' then "~2" else [c]
  }

  /** A literal as a pattern writes it. */
  function WrittenLiteral(text: string): string {
    if text == "" then "" else LiteralOne(text[0]) + WrittenLiteral(text[1..])
  }

  function WrittenSegment(segment: Segment): string {
    if segment.Wildcard? then "*" else WrittenLiteral(segment.text)
  }

  function WrittenPattern(segments: seq<Segment>): string {
    if segments == [] then "" else "/" + WrittenSegment(segments[0]) + WrittenPattern(segments[1..])
  }

  lemma {:induction false} LiteralDecoded(text: string)
    ensures '/' !in WrittenLiteral(text) && '*' !in WrittenLiteral(text)
    ensures DecodeSegment(WrittenLiteral(text), true) == Ok(text)
  {
    if text != "" {
      LiteralDecoded(text[1..]);
      var one, rest := LiteralOne(text[0]), WrittenLiteral(text[1..]);
      assert (one + rest)[|one|..] == rest && text == [text[0]] + text[1..];
    }
  }

  lemma SegmentDecoded(segment: Segment, segments: seq<string>, rest: seq<Segment>)
    requires DecodePattern(segments) == Ok(rest)
    ensures '/' !in WrittenSegment(segment)
    ensures DecodePattern([WrittenSegment(segment)] + segments) == Ok([segment] + rest)
  {
    assert ([WrittenSegment(segment)] + segments)[1..] == segments;
    if segment.Literal? {
      LiteralDecoded(segment.text);
      assert '*' in "*";
    }
  }

  lemma {:induction false} PatternTail(segment: Segment, rest: seq<Segment>)
    ensures DecodePattern(Split(WrittenSegment(segment) + WrittenPattern(rest), '/')) == Ok([segment] + rest)
    decreases |rest|
  {
    hide WrittenSegment, DecodePattern, Split;
    var head := WrittenSegment(segment);
    NothingDecoded();
    SegmentDecoded(segment, [], []);
    if rest == [] {
      SplitHead(head, '/', "");
      assert head + WrittenPattern(rest) == head;
      assert [head] + [] == [head];
    } else {
      var text := WrittenSegment(rest[0]) + WrittenPattern(rest[1..]);
      SplitHead(head, '/', text);
      SlashedPattern(rest[0], rest[1..]);
      assert head + ("/" + text) == head + ['/'] + text;
      PatternTail(rest[0], rest[1..]);
      assert rest == [rest[0]] + rest[1..];
      SegmentDecoded(segment, Split(text, '/'), rest);
    }
  }

  lemma SlashedPattern(segment: Segment, rest: seq<Segment>)
    ensures WrittenPattern([segment] + rest) == "/" + (WrittenSegment(segment) + WrittenPattern(rest))
  {
    hide WrittenSegment;
    assert ([segment] + rest)[1..] == rest;
  }

  lemma NothingDecoded()
    ensures DecodePattern([]) == Ok([])
  {}

  lemma PatternParsed(segments: seq<Segment>)
    ensures ParsePointerPattern(WrittenPattern(segments)) == Ok(segments)
  {
    hide WrittenSegment, DecodePattern;
    if segments != [] {
      PatternTail(segments[0], segments[1..]);
      var rest := WrittenSegment(segments[0]) + WrittenPattern(segments[1..]);
      assert WrittenPattern(segments) == "/" + rest && ("/" + rest)[1..] == rest;
      assert segments == [segments[0]] + segments[1..];
    }
  }

  /** What a pattern selects: the paths that begin with its literals, with any key at a wildcard. */
  lemma PatternSelects(keys: seq<string>, segments: seq<Segment>)
    ensures PointerPatternMatches(Render(keys), WrittenPattern(segments))
       <==> |keys| >= |segments| && forall i | 0 <= i < |segments| :: segments[i].Wildcard? || keys[i] == segments[i].text
  {
    hide ParseJsonPointer, ParsePointerPattern, Render;
    PointerRoundTrip(Render(keys), keys);
    PatternParsed(segments);
  }

  predicate Plain(text: string) { forall i | 0 <= i < |text| :: text[i] != '~' && text[i] != '/' && text[i] != '*' }

  lemma {:induction false} PlainLiteral(text: string)
    requires Plain(text)
    ensures WrittenLiteral(text) == text
  {
    if text != "" {
      assert text == [text[0]] + text[1..];
      PlainLiteral(text[1..]);
    }
  }

  /** A pattern of plain literals and wildcards. */
  function PlainPattern(parts: seq<string>): (segments: seq<Segment>)
    ensures |segments| == |parts|
    ensures forall i | 0 <= i < |parts| :: segments[i] == if parts[i] == "*" then Wildcard else Literal(parts[i])
  {
    seq(|parts|, i requires 0 <= i < |parts| => if parts[i] == "*" then Wildcard else Literal(parts[i]))
  }

  /** Such a pattern, written out: each part behind a slash. */
  function Slashes(parts: seq<string>): string {
    if parts == [] then "" else "/" + parts[0] + Slashes(parts[1..])
  }

  lemma {:induction false} PlainWritten(parts: seq<string>)
    requires forall i | 0 <= i < |parts| :: parts[i] == "*" || Plain(parts[i])
    ensures WrittenPattern(PlainPattern(parts)) == Slashes(parts)
  {
    if parts != [] {
      assert PlainPattern(parts)[1..] == PlainPattern(parts[1..]);
      PlainWritten(parts[1..]);
      if parts[0] != "*" {
        PlainLiteral(parts[0]);
      }
    }
  }

  /** Selection by a plain pattern. */
  lemma PlainSelects(keys: seq<string>, parts: seq<string>)
    requires forall i | 0 <= i < |parts| :: parts[i] == "*" || Plain(parts[i])
    ensures PointerPatternMatches(Render(keys), Slashes(parts))
       <==> |keys| >= |parts| && forall i | 0 <= i < |parts| :: parts[i] == "*" || keys[i] == parts[i]
  {
    hide PointerPatternMatches, Render, Slashes, WrittenPattern;
    PlainWritten(parts);
    PatternSelects(keys, PlainPattern(parts));
  }

  // ---- Critical fields ----------------------------------------------------------

  const CHAT_CRITICAL_IDS :=
    [Slashes(["messages", "*", "tool_calls", "*", "id"]), Slashes(["messages", "*", "tool_call_id"]),
     Slashes(["tool_calls", "*", "id"])]
  const RESPONSES_CRITICAL_IDS :=
    [Slashes(["input", "*", "call_id"]), Slashes(["input", "*", "id"]),
     Slashes(["output", "*", "call_id"]), Slashes(["output", "*", "id"])]
  const ANTHROPIC_CRITICAL_IDS :=
    [Slashes(["messages", "*", "content", "*", "id"]), Slashes(["messages", "*", "content", "*", "tool_use_id"])]
  const GENERAL_CRITICAL := ["/" + "model", "/" + "messages", "/" + "input", "/" + "tools", "/" + "tool_choice"]

  function CriticalPatterns(dialect: string): seq<string> {
    if dialect == "openai-chat-completions" then CHAT_CRITICAL_IDS
    else if dialect == "openai-responses" then RESPONSES_CRITICAL_IDS
    else if dialect == "anthropic-messages" then ANTHROPIC_CRITICAL_IDS
    else []
  }

  /** `starts_with` */
  predicate StartsWith(s: string, prefix: string) { prefix <= s }

  /** The run-level root pointer and everything at or below a routing field. */
  predicate CriticalAlways(pointer: string) {
    || pointer == ""
    || (exists i | 0 <= i < |GENERAL_CRITICAL| ::
          pointer == GENERAL_CRITICAL[i] || StartsWith(pointer, GENERAL_CRITICAL[i] + "/"))
  }

  predicate CriticalFor(dialect: string, pointer: string) {
    exists i | 0 <= i < |CriticalPatterns(dialect)| :: PointerPatternMatches(pointer, CriticalPatterns(dialect)[i])
  }

  predicate IsCriticalPointer(dialects: set<string>, pointer: string) {
    CriticalAlways(pointer) || exists d | d in dialects :: CriticalFor(d, pointer)
  }

  // ---- Critical fields, by keys -------------------------------------------------

  /** The path begins with these keys, where `*` is any key. */
  predicate Begins(keys: seq<string>, parts: seq<string>) {
    |keys| >= |parts| && forall i | 0 <= i < |parts| :: parts[i] == "*" || keys[i] == parts[i]
  }

  predicate AllPlain(parts: seq<string>) { forall i | 0 <= i < |parts| :: parts[i] == "*" || Plain(parts[i]) }

  /** A list of patterns, written out, selects what begins with one of them. */
  lemma SomeSelects(keys: seq<string>, patterns: seq<string>, table: seq<seq<string>>)
    requires |patterns| == |table|
    requires forall i | 0 <= i < |table| :: AllPlain(table[i]) && patterns[i] == Slashes(table[i])
    ensures (exists i | 0 <= i < |patterns| :: PointerPatternMatches(Render(keys), patterns[i]))
       <==> exists i | 0 <= i < |table| :: Begins(keys, table[i])
  {
    hide PointerPatternMatches, Render, Slashes;
    forall i | 0 <= i < |table| ensures PointerPatternMatches(Render(keys), patterns[i]) <==> Begins(keys, table[i]) {
      PlainSelects(keys, table[i]);
    }
  }

  lemma RenderFirst(key: string, rest: seq<string>)
    ensures Render([key] + rest) == "/" + (EscapeKey(key) + Render(rest))
  {
    assert ([key] + rest)[1..] == rest;
    AppendAssociative("/", EscapeKey(key), Render(rest));
  }

  lemma PlainEscaped(name: string)
    requires Plain(name)
    ensures EscapeKey(name) == name && '/' !in name
  {
    PlainKey(name);
  }

  /** A pointer is at or below a field exactly if its first key is that field. */
  lemma FirstKey(keys: seq<string>, name: string)
    requires Plain(name)
    ensures (Render(keys) == "/" + name || StartsWith(Render(keys), "/" + name + "/")) <==> keys != [] && keys[0] == name
  {
    hide Render, EscapeKey, ParseJsonPointer;
    PlainEscaped(name);
    RenderFirst(name, []);
    assert Render([]) == "" by { NothingRendered(); }
    assert [name] + [] == [name] && name + "" == name;
    if Render(keys) == "/" + name {
      RenderInjective(keys, [name]);
    }
    if StartsWith(Render(keys), "/" + name + "/") {
      BelowField(keys, name);
    }
    if keys != [] && keys[0] == name {
      assert keys == [name] + keys[1..];
      RenderFirst(name, keys[1..]);
      if keys[1..] == [] {
        NothingRendered();
      } else {
        assert keys[1..] == [keys[1]] + keys[2..];
        RenderFirst(keys[1], keys[2..]);
        assert Render(keys) == ("/" + name + "/") + (EscapeKey(keys[1]) + Render(keys[2..]));
      }
    }
  }

  lemma NothingRendered()
    ensures Render([]) == ""
  {}

  lemma BelowField(keys: seq<string>, name: string)
    requires Plain(name) && StartsWith(Render(keys), "/" + name + "/")
    ensures keys != [] && keys[0] == name
  {
    hide Render, Split, DecodeAll, ParseJsonPointer, EscapeKey;
    var pointer := Render(keys);
    var rest := pointer[|name| + 2..];
    assert pointer == "/" + name + "/" + rest;
    assert pointer[1..] == name + ['/'] + rest;
    PointerRoundTrip(pointer, keys);
    ParseRest(pointer);
    PlainEscaped(name);
    SplitHead(name, '/', rest);
    FirstDecoded(name, Split(rest, '/'));
  }

  lemma ParseRest(pointer: string)
    requires pointer != "" && pointer[0] == '/'
    ensures ParseJsonPointer(pointer) == DecodeAll(Split(pointer[1..], '/'))
  {
    hide Split, DecodeAll;
  }

  lemma FirstDecoded(name: string, segments: seq<string>)
    requires Plain(name)
    ensures DecodeAll([name] + segments).Ok? ==>
              DecodeAll([name] + segments).value != [] && DecodeAll([name] + segments).value[0] == name
  {
    PlainEscaped(name);
    DecodeEscaped(name);
    hide DecodeSegment;
    assert ([name] + segments)[1..] == segments;
  }

  /** The whole body, and what is below the routing fields, is critical in every dialect. */
  lemma CriticalEverywhere(keys: seq<string>)
    ensures CriticalAlways(Render(keys))
       <==> keys == [] || keys[0] in ["model", "messages", "input", "tools", "tool_choice"]
  {
    hide Render, StartsWith, Plain;
    var names := ["model", "messages", "input", "tools", "tool_choice"];
    assert GENERAL_CRITICAL == ["/" + names[0], "/" + names[1], "/" + names[2], "/" + names[3], "/" + names[4]];
    assert Render(keys) == "" <==> keys == [] by { NothingRendered(); EmptyPointer(keys); }
    forall i | 0 <= i < 5
      ensures (Render(keys) == GENERAL_CRITICAL[i] || StartsWith(Render(keys), GENERAL_CRITICAL[i] + "/"))
         <==> keys != [] && keys[0] == names[i]
    {
      PlainNames();
      FirstKey(keys, names[i]);
    }
  }

  lemma PlainNames()
    ensures forall name | name in ["model", "messages", "input", "tools", "tool_choice"] :: Plain(name)
  {
    assert Plain("model") && Plain("messages") && Plain("input") && Plain("tools") && Plain("tool_choice");
  }

  lemma EmptyPointer(keys: seq<string>)
    ensures Render(keys) == "" ==> keys == []
  {}

  /** Which ids are critical in a dialect. */
  lemma CriticalIds(keys: seq<string>)
    ensures CriticalFor("openai-chat-completions", Render(keys))
       <==> || Begins(keys, ["messages", "*", "tool_calls", "*", "id"]) || Begins(keys, ["messages", "*", "tool_call_id"])
            || Begins(keys, ["tool_calls", "*", "id"])
    ensures CriticalFor("openai-responses", Render(keys))
       <==> || Begins(keys, ["input", "*", "call_id"]) || Begins(keys, ["input", "*", "id"])
            || Begins(keys, ["output", "*", "call_id"]) || Begins(keys, ["output", "*", "id"])
    ensures CriticalFor("anthropic-messages", Render(keys))
       <==> Begins(keys, ["messages", "*", "content", "*", "id"]) || Begins(keys, ["messages", "*", "content", "*", "tool_use_id"])
  {
    hide Render, PointerPatternMatches, Begins;
    ChatIds(keys);
    ResponsesIds(keys);
    AnthropicIds(keys);
  }

  lemma ChatIds(keys: seq<string>)
    ensures CriticalFor("openai-chat-completions", Render(keys))
       <==> || Begins(keys, ["messages", "*", "tool_calls", "*", "id"]) || Begins(keys, ["messages", "*", "tool_call_id"])
            || Begins(keys, ["tool_calls", "*", "id"])
  {
    hide Render, PointerPatternMatches, Begins, Slashes;
    var table := [["messages", "*", "tool_calls", "*", "id"], ["messages", "*", "tool_call_id"], ["tool_calls", "*", "id"]];
    SomeSelects(keys, CHAT_CRITICAL_IDS, table);
    assert CriticalPatterns("openai-chat-completions") == CHAT_CRITICAL_IDS;
    assert Begins(keys, table[0]) || Begins(keys, table[1]) || Begins(keys, table[2])
      <==> exists i | 0 <= i < |table| :: Begins(keys, table[i]);
  }

  lemma ResponsesIds(keys: seq<string>)
    ensures CriticalFor("openai-responses", Render(keys))
       <==> || Begins(keys, ["input", "*", "call_id"]) || Begins(keys, ["input", "*", "id"])
            || Begins(keys, ["output", "*", "call_id"]) || Begins(keys, ["output", "*", "id"])
  {
    hide Render, PointerPatternMatches, Begins, Slashes;
    var table := [["input", "*", "call_id"], ["input", "*", "id"], ["output", "*", "call_id"], ["output", "*", "id"]];
    SomeSelects(keys, RESPONSES_CRITICAL_IDS, table);
    assert |"openai-responses"| != |"openai-chat-completions"|;
    assert CriticalPatterns("openai-responses") == RESPONSES_CRITICAL_IDS;
    assert Begins(keys, table[0]) || Begins(keys, table[1]) || Begins(keys, table[2]) || Begins(keys, table[3])
      <==> exists i | 0 <= i < |table| :: Begins(keys, table[i]);
  }

  lemma AnthropicIds(keys: seq<string>)
    ensures CriticalFor("anthropic-messages", Render(keys))
       <==> Begins(keys, ["messages", "*", "content", "*", "id"]) || Begins(keys, ["messages", "*", "content", "*", "tool_use_id"])
  {
    hide Render, PointerPatternMatches, Begins, Slashes;
    var table := [["messages", "*", "content", "*", "id"], ["messages", "*", "content", "*", "tool_use_id"]];
    SomeSelects(keys, ANTHROPIC_CRITICAL_IDS, table);
    assert "anthropic-messages"[0] != 'o';
    assert CriticalPatterns("anthropic-messages") == ANTHROPIC_CRITICAL_IDS;
    assert Begins(keys, table[0]) || Begins(keys, table[1]) <==> exists i | 0 <= i < |table| :: Begins(keys, table[i]);
  }
}
