/**
 Incremental framing of a growing event source: the cursor keeps the bytes after
 the last newline, the records it still holds, and the absolute index of the
 first of them.
 */
module Framing {
  import opened Prelude
  import opened Text
  import opened Json

  datatype Source = Stdout | JournalFile

  /** `jsonl` and `json-seq` are one format; `sse` carries records in `data:` lines. */
  datatype Format = JsonLines | ServerSent

  /** `parse` stands for `serde_json::from_slice`; a `maximum` of zero means unlimited. */
  datatype FrameConfig = FrameConfig(source: Source, format: Format, maximum: nat, parse: string -> Option<Value>)

  datatype FrameError = RecordTooLong | CorruptRecord | SourceTruncated

  /** The file a session's events come from: one stdout file per turn, or one journal. */
  datatype SourcePath = StdoutFile(session: string, turn: nat) | JournalAt(session: string)

  datatype SourceCursor = SourceCursor(
    path: SourcePath,
    offset: nat,
    pending: string,
    records: seq<Value>,
    recordBase: nat,
    turn: nat)

  // ---- Lines and records ---------------------------------------------------------

  predicate Whitespace(c: char) {
    c == ' ' || c == '\t' || c == '\n' || c == '\r' || c == 12 as char
  }

  function TrimAscii(s: string): string {
    if s == "" then ""
    else if Whitespace(s[0]) then TrimAscii(s[1..])
    else if Whitespace(s[|s| - 1]) then TrimAscii(s[..|s| - 1])
    else s
  }

  function Lines(bytes: string): (lines: seq<string>)
    ensures |lines| >= 1
  {
    Split(bytes, '\n')
  }

  /** The newline-terminated lines. */
  function CompleteLines(bytes: string): seq<string> { Lines(bytes)[..|Lines(bytes)| - 1] }

  /** The bytes after the last newline. */
  function Tail(bytes: string): string { Lines(bytes)[|Lines(bytes)| - 1] }

  /** The text of the record that a line carries, if it carries one. */
  function Carried(config: FrameConfig, line: string): Option<string> {
    var text := TrimAscii(line);
    match config.format
    case JsonLines => if text == "" then None else Some(text)
    case ServerSent =>
      if |text| < 5 || text[..5] != "data:" then None
      else
        var data := TrimAscii(text[5..]);
        if data == "[DONE]" || data == "" then None else Some(data)
  }

  /** Lines that do not parse are skipped. */
  function LineRecords(config: FrameConfig, line: string): seq<Value> {
    match Carried(config, line)
    case None => []
    case Some(text) => if config.parse(text).Some? then [config.parse(text).value] else []
  }

  function LinesRecords(config: FrameConfig, lines: seq<string>): seq<Value> {
    if lines == [] then [] else LinesRecords(config, lines[..|lines| - 1]) + LineRecords(config, lines[|lines| - 1])
  }

  /** A durable journal of JSON lines must not hold a complete line that does not parse. */
  predicate Strict(config: FrameConfig) { config.source == JournalFile && config.format == JsonLines }

  predicate CorruptLine(config: FrameConfig, line: string) {
    Carried(config, line).Some? && config.parse(Carried(config, line).value).None?
  }

  predicate Fits(config: FrameConfig, line: string) { config.maximum == 0 || |line| <= config.maximum }

  predicate AllFit(config: FrameConfig, lines: seq<string>) {
    forall i | 0 <= i < |lines| :: Fits(config, lines[i])
  }

  predicate NoneCorrupt(config: FrameConfig, lines: seq<string>) {
    Strict(config) ==> forall i | 0 <= i < |lines| :: !CorruptLine(config, lines[i])
  }

  /** The whole source obeys the record limit, and a strict one holds no corrupt complete line. */
  predicate WellFramed(config: FrameConfig, bytes: string) {
    AllFit(config, Lines(bytes)) && NoneCorrupt(config, CompleteLines(bytes))
  }

  /** One-shot parse of everything up to the last newline. */
  function Records(config: FrameConfig, bytes: string): seq<Value> {
    LinesRecords(config, CompleteLines(bytes))
  }

  /** What a poll sees: the end of a finished stdout also closes its last line. */
  function VisibleRecords(config: FrameConfig, bytes: string, finished: bool): seq<Value> {
    if finished && config.source == Stdout then LinesRecords(config, Lines(bytes)) else Records(config, bytes)
  }

  // ---- Algebra of lines -----------------------------------------------------------------

  lemma LinesCons(c: char, x: string)
    ensures c == '\n' ==> CompleteLines([c] + x) == [""] + CompleteLines(x) && Tail([c] + x) == Tail(x)
    ensures c != '\n' && |Lines(x)| > 1 ==>
              CompleteLines(x) != [] && CompleteLines([c] + x) == Grown(c, CompleteLines(x)) && Tail([c] + x) == Tail(x)
    ensures c != '\n' && |Lines(x)| == 1 ==>
              CompleteLines(x) == CompleteLines([c] + x) == [] && Tail([c] + x) == [c] + Tail(x)
  {
    SplitCons(c, x, '\n');
    hide Split;
    if c != '\n' && |Lines(x)| > 1 {
      GrownAppend(c, CompleteLines(x), [Tail(x)]);
      assert Lines(x) == CompleteLines(x) + [Tail(x)];
    }
  }

  lemma LinesFirst(c: char, x: string)
    ensures Lines([c] + x) == if c == '\n' then [""] + Lines(x) else Grown(c, Lines(x))
  {
    SplitCons(c, x, '\n');
  }

  lemma LinesAppendCons(c: char, x: string, y: string)
    requires Lines(x + y) == CompleteLines(x) + Lines(Tail(x) + y)
    ensures Lines([c] + (x + y)) == CompleteLines([c] + x) + Lines(Tail([c] + x) + y)
  {
    hide Lines, CompleteLines, Tail, Grown;
    LinesFirst(c, x + y);
    LinesCons(c, x);
    if c == '\n' {
      AppendAssociative([""], CompleteLines(x), Lines(Tail(x) + y));
    } else if |Lines(x)| == 1 {
      assert [c] + Tail(x) + y == [c] + (Tail(x) + y);
      LinesFirst(c, Tail(x) + y);
    } else {
      GrownAppend(c, CompleteLines(x), Lines(Tail(x) + y));
    }
  }

  /** Appending bytes continues the last line. */
  lemma {:induction false} LinesAppend(x: string, y: string)
    ensures Lines(x + y) == CompleteLines(x) + Lines(Tail(x) + y)
  {
    if x == "" {
      assert x + y == y && CompleteLines(x) == [] && Tail(x) == "";
      assert Tail(x) + y == y;
    } else {
      hide Lines, CompleteLines, Tail;
      LinesAppend(x[1..], y);
      LinesAppendCons(x[0], x[1..], y);
      assert x == [x[0]] + x[1..] && x + y == [x[0]] + (x[1..] + y);
    }
  }

  lemma LinesSplit(bytes: string)
    ensures Lines(bytes) == CompleteLines(bytes) + [Tail(bytes)]
  {}

  lemma {:induction false} PartsHaveNoNewline(bytes: string)
    ensures forall i | 0 <= i < |Lines(bytes)| :: '\n' !in Lines(bytes)[i]
  {
    if bytes != "" {
      var rest := Lines(bytes[1..]);
      PartsHaveNoNewline(bytes[1..]);
      if bytes[0] != '\n' {
        assert Lines(bytes)[1..] == rest[1..];
      }
    }
  }

  /** Text that ends with a newline consists of complete lines. */
  lemma LinesOfBlock(head: string, rest: string)
    requires '\n' !in rest
    ensures Lines(head + ['\n'] + rest) == Lines(head) + [rest]
    ensures CompleteLines(head + ['\n'] + rest) == Lines(head) && Tail(head + ['\n'] + rest) == rest
  {
    SplitAppend(head, '\n', rest);
    SplitHead(rest, '\n', "");
  }

  lemma {:induction false} LinesRecordsAppend(config: FrameConfig, a: seq<string>, b: seq<string>)
    ensures LinesRecords(config, a + b) == LinesRecords(config, a) + LinesRecords(config, b)
  {
    hide LineRecords;
    if b == [] {
      assert a + b == a;
    } else {
      var n := |b| - 1;
      assert (a + b)[..|a + b| - 1] == a + b[..n] && (a + b)[|a + b| - 1] == b[n];
      LinesRecordsAppend(config, a, b[..n]);
      AppendAssociative(LinesRecords(config, a), LinesRecords(config, b[..n]), LineRecords(config, b[n]));
    }
  }

  /** What is well framed stays a well framed, equally parsed beginning of what it grows into. */
  lemma FramingGrows(config: FrameConfig, x: string, y: string)
    ensures WellFramed(config, x + y) ==> WellFramed(config, x)
    ensures |Records(config, x)| <= |Records(config, x + y)|
    ensures Records(config, x) == Records(config, x + y)[..|Records(config, x)|]
  {
    hide Lines, LinesRecords, CorruptLine;
    LinesAppend(x, y);
    LinesSplit(x);
    LinesSplit(x + y);
    TailGrows(x, y);
    var more := CompleteLines(Tail(x) + y);
    LinesSplit(Tail(x) + y);
    assert CompleteLines(x + y) == CompleteLines(x) + more;
    LinesRecordsAppend(config, CompleteLines(x), more);
    if WellFramed(config, x + y) {
      forall i | 0 <= i < |CompleteLines(x)|
        ensures Fits(config, CompleteLines(x)[i])
        ensures Strict(config) ==> !CorruptLine(config, CompleteLines(x)[i])
      {
        assert Lines(x + y)[i] == CompleteLines(x)[i] == CompleteLines(x + y)[i];
      }
      assert Fits(config, Lines(x + y)[|CompleteLines(x)|]);
      assert Lines(x + y)[|CompleteLines(x)|] == Lines(Tail(x) + y)[0];
    }
  }

  lemma TailGrows(x: string, y: string)
    ensures |Tail(x)| <= |Lines(Tail(x) + y)[0]|
  {
    PartsHaveNoNewline(x);
    FirstPartGrows(Tail(x), y);
  }

  lemma {:induction false} FirstPartGrows(t: string, y: string)
    requires '\n' !in t
    ensures |t| <= |Lines(t + y)[0]|
  {
    if t != "" {
      FirstPartGrows(t[1..], y);
      assert t + y == [t[0]] + (t[1..] + y);
      SplitCons(t[0], t[1..] + y, '\n');
    }
  }

  // ---- Parsing one block -------------------------------------------------------------------

  /** `parse_event_records` for line formats: skip what is empty or does not parse. */
  method ParseEventRecords(config: FrameConfig, bytes: string) returns (records: seq<Value>)
    ensures records == LinesRecords(config, Lines(bytes))
  {
    var lines := Lines(bytes);
    records := [];
    for i := 0 to |lines|
      invariant records == LinesRecords(config, lines[..i])
    {
      assert lines[..i + 1][..i] == lines[..i];
      var carried := Carried(config, lines[i]);
      if carried.None? {
        continue;
      }
      var value := config.parse(carried.value);
      if value.Some? {
        records := records + [value.value];
      }
    }
    assert lines[..|lines|] == lines;
  }

  /** `parse_journal_records`: a complete line that does not parse is an error; a torn tail is not read. */
  method ParseJournalRecords(config: FrameConfig, bytes: string) returns (r: Result<seq<Value>, FrameError>)
    requires config.format == JsonLines
    ensures r.Ok? <==> forall i | 0 <= i < |CompleteLines(bytes)| :: !CorruptLine(config, CompleteLines(bytes)[i])
    ensures r.Ok? ==> r.value == Records(config, bytes)
    ensures r.Err? ==> r.error == CorruptRecord
  {
    hide Lines, TrimAscii;
    var lines := CompleteLines(bytes);
    var records := [];
    for i := 0 to |lines|
      invariant records == LinesRecords(config, lines[..i])
      invariant forall j | 0 <= j < i :: !CorruptLine(config, lines[j])
    {
      assert lines[..i + 1][..i] == lines[..i];
      var text := TrimAscii(lines[i]);
      if text == "" {
        continue;
      }
      var value := config.parse(text);
      if value.None? {
        assert CorruptLine(config, lines[i]);
        return Err(CorruptRecord);
      }
      records := records + [value.value];
    }
    assert lines[..|lines|] == lines;
    r := Ok(records);
  }

  /** The collector's `parse`: the record limit first, then the format's own parser. */
  method ParseBlock(config: FrameConfig, bytes: string) returns (r: Result<seq<Value>, FrameError>)
    ensures r.Ok? <==> AllFit(config, Lines(bytes)) && NoneCorrupt(config, CompleteLines(bytes))
    ensures r.Ok? ==> r.value == if Strict(config) then Records(config, bytes) else LinesRecords(config, Lines(bytes))
    ensures r.Err? ==> r.error == if AllFit(config, Lines(bytes)) then CorruptRecord else RecordTooLong
    ensures r.Err? && r.error == CorruptRecord ==> Strict(config)
  {
    hide Lines, CorruptLine;
    if !AllFit(config, Lines(bytes)) {
      return Err(RecordTooLong);
    }
    if Strict(config) {
      r := ParseJournalRecords(config, bytes);
    } else {
      var records := ParseEventRecords(config, bytes);
      r := Ok(records);
    }
  }

  // ---- Reading what is new ---------------------------------------------------------------------

  const CHUNK_SIZE: nat := 16384

  /** The cursor has read exactly `read`, without error, and holds the records from its base on. */
  predicate Tracks(config: FrameConfig, cursor: SourceCursor, read: string) {
    && cursor.offset == |read|
    && cursor.pending == Tail(read)
    && WellFramed(config, read)
    && cursor.recordBase <= |Records(config, read)|
    && cursor.records == Records(config, read)[cursor.recordBase..]
  }

  /** `rposition` of a newline, or -1. */
  function LastNewline(s: string): (i: int)
    ensures -1 <= i < |s|
    ensures i >= 0 ==> s[i] == '\n'
    ensures forall j :: i < j < |s| ==> s[j] != '\n'
  {
    if s == "" then -1 else if s[|s| - 1] == '\n' then |s| - 1 else LastNewline(s[..|s| - 1])
  }

  lemma {:induction false} NoNewline(s: string)
    requires '\n' !in s
    ensures Lines(s) == [s] && CompleteLines(s) == [] && Tail(s) == s
  {
    SplitHead(s, '\n', "");
  }

  /** What one chunk adds: with `pending` grown by the chunk, cut at its last newline. */
  lemma ChunkRead(config: FrameConfig, read: string, chunk: string, head: string, rest: string)
    requires Tail(read) + chunk == head + ['\n'] + rest && '\n' !in rest
    ensures Tail(read + chunk) == rest
    ensures CompleteLines(read + chunk) == CompleteLines(read) + Lines(head)
    ensures Records(config, read + chunk) == Records(config, read) + LinesRecords(config, Lines(head))
  {
    hide Lines, LinesRecords;
    LinesAppend(read, chunk);
    LinesOfBlock(head, rest);
    LinesSplit(read + chunk);
    AppendAssociative(CompleteLines(read), Lines(head), [rest]);
    LinesRecordsAppend(config, CompleteLines(read), Lines(head));
  }

  lemma ChunkWithoutNewline(config: FrameConfig, read: string, chunk: string)
    requires '\n' !in Tail(read) + chunk
    ensures Tail(read + chunk) == Tail(read) + chunk
    ensures CompleteLines(read + chunk) == CompleteLines(read)
    ensures Records(config, read + chunk) == Records(config, read)
  {
    hide Lines;
    LinesAppend(read, chunk);
    NoNewline(Tail(read) + chunk);
    LinesSplit(read + chunk);
  }

  lemma WellFramedAppend(config: FrameConfig, x: string, lines: seq<string>, y: string)
    requires WellFramed(config, x)
    requires CompleteLines(y) == CompleteLines(x) + lines
    ensures WellFramed(config, y) <==> AllFit(config, lines) && NoneCorrupt(config, lines) && Fits(config, Tail(y))
  {
    hide Lines, CorruptLine;
    LinesSplit(x);
    LinesSplit(y);
    var n := |CompleteLines(x)|;
    assert forall i | 0 <= i < n :: CompleteLines(y)[i] == CompleteLines(x)[i] == Lines(x)[i];
    assert forall i | 0 <= i < |lines| :: CompleteLines(y)[n + i] == lines[i] == Lines(y)[n + i];
    assert Lines(y)[|CompleteLines(y)|] == Tail(y);
  }

  lemma BlockLines(config: FrameConfig, head: string)
    ensures Lines(head + ['\n']) == Lines(head) + [""] && CompleteLines(head + ['\n']) == Lines(head)
    ensures AllFit(config, Lines(head + ['\n'])) <==> AllFit(config, Lines(head))
    ensures LinesRecords(config, Lines(head + ['\n'])) == LinesRecords(config, Lines(head))
    ensures Records(config, head + ['\n']) == LinesRecords(config, Lines(head))
  {
    hide Lines;
    LinesOfBlock(head, "");
    assert head + ['\n'] + "" == head + ['\n'];
    LinesRecordsAppend(config, Lines(head), [""]);
    assert LineRecords(config, "") == [];
    if AllFit(config, Lines(head + ['\n'])) {
      assert forall i | 0 <= i < |Lines(head)| :: Lines(head)[i] == Lines(head + ['\n'])[i];
    }
  }

  /** Taking a chunk whose arrival completes some lines: `block` ends at the last newline. */
  lemma BlockTaken(config: FrameConfig, read: string, chunk: string, end: int)
    requires 0 <= end < |Tail(read) + chunk| && (Tail(read) + chunk)[end] == '\n'
    requires forall j :: end < j < |Tail(read) + chunk| ==> (Tail(read) + chunk)[j] != '\n'
    requires WellFramed(config, read)
    ensures var block, rest := (Tail(read) + chunk)[..end + 1], (Tail(read) + chunk)[end + 1..];
            var clean := AllFit(config, Lines(block)) && NoneCorrupt(config, CompleteLines(block));
            && Tail(read + chunk) == rest
            && (WellFramed(config, read + chunk) <==> clean && Fits(config, rest))
            && Records(config, read + chunk) == Records(config, read) + Records(config, block)
            && LinesRecords(config, Lines(block)) == Records(config, block)
            && (!clean && !Strict(config) ==> !AllFit(config, Lines(read + chunk)))
  {
    hide Lines, CompleteLines, Tail, Records, LinesRecords, AllFit, WellFramed;
    var pending := Tail(read) + chunk;
    var head, rest := pending[..end], pending[end + 1..];
    assert pending == head + ['\n'] + rest && pending[..end + 1] == head + ['\n'];
    ChunkRead(config, read, chunk, head, rest);
    BlockLines(config, head);
    WellFramedAppend(config, read, Lines(head), read + chunk);
    if !AllFit(config, Lines(head)) || !NoneCorrupt(config, Lines(head)) {
      LongLine(config, read, read + chunk, Lines(head));
    }
  }

  /** Taking a chunk without a newline. */
  lemma ChunkHeld(config: FrameConfig, read: string, chunk: string)
    requires '\n' !in Tail(read) + chunk && WellFramed(config, read)
    ensures Tail(read + chunk) == Tail(read) + chunk
    ensures WellFramed(config, read + chunk) <==> Fits(config, Tail(read) + chunk)
    ensures Records(config, read + chunk) == Records(config, read)
  {
    hide Lines, CompleteLines, Tail, Records, WellFramed;
    ChunkWithoutNewline(config, read, chunk);
    assert CompleteLines(read) + [] == CompleteLines(read);
    WellFramedAppend(config, read, [], read + chunk);
    NothingCorrupt(config);
  }

  /** One read of the loop: take a chunk, parse up to its last newline, keep the rest pending. */
  method ReadChunk(config: FrameConfig, cursor: SourceCursor, chunk: string, ghost read: string)
    returns (r: Result<SourceCursor, FrameError>)
    requires Tracks(config, cursor, read)
    ensures r.Ok? <==> WellFramed(config, read + chunk)
    ensures r.Ok? ==> Tracks(config, r.value, read + chunk)
    ensures r.Ok? ==> r.value.recordBase == cursor.recordBase && r.value.path == cursor.path && r.value.turn == cursor.turn
    ensures r.Err? && r.error == CorruptRecord ==> Strict(config)
    ensures r.Err? && !Strict(config) ==> !AllFit(config, Lines(read + chunk))
    ensures r.Err? ==> r.error != SourceTruncated
  {
    hide Lines, CompleteLines, Tail, Records, LinesRecords, NoneCorrupt, AllFit, WellFramed;
    var next := cursor.(offset := cursor.offset + |chunk|, pending := cursor.pending + chunk);
    LongTail(config, read + chunk);
    var end := LastNewline(next.pending);
    if end >= 0 {
      BlockTaken(config, read, chunk, end);
      var parsed := ParseBlock(config, next.pending[..end + 1]);
      if parsed.Err? {
        return Err(parsed.error);
      }
      RecordsGrow(cursor.recordBase, Records(config, read), parsed.value);
      next := next.(pending := next.pending[end + 1..], records := next.records + parsed.value);
    } else {
      ChunkHeld(config, read, chunk);
    }
    if config.maximum > 0 && |next.pending| > config.maximum {
      return Err(RecordTooLong);
    }
    r := Ok(next);
  }

  lemma RecordsGrow(base: nat, held: seq<Value>, more: seq<Value>)
    requires base <= |held|
    ensures (held + more)[base..] == held[base..] + more
  {}

  lemma LongTail(config: FrameConfig, bytes: string)
    ensures !Fits(config, Tail(bytes)) ==> !AllFit(config, Lines(bytes))
  {
    hide Lines;
    LinesSplit(bytes);
    assert Lines(bytes)[|CompleteLines(bytes)|] == Tail(bytes);
  }

  lemma NothingCorrupt(config: FrameConfig)
    ensures NoneCorrupt(config, [])
  {}

  lemma LongLine(config: FrameConfig, x: string, y: string, lines: seq<string>)
    requires CompleteLines(y) == CompleteLines(x) + lines && (!AllFit(config, lines) || !NoneCorrupt(config, lines))
    ensures !Strict(config) ==> !AllFit(config, Lines(y))
  {
    hide Lines;
    LinesSplit(y);
    if !AllFit(config, lines) {
      var i :| 0 <= i < |lines| && !Fits(config, lines[i]);
      assert Lines(y)[|CompleteLines(x)| + i] == lines[i];
    }
  }

  /**
   The read loop of `source_records`: from the cursor's offset to the end of the
   file, in chunks of any size. It succeeds exactly when the whole file is well
   framed, however the bytes were cut.
   */
  method ReadSource(config: FrameConfig, start: SourceCursor, file: string, ghost read: string)
    returns (r: Result<SourceCursor, FrameError>)
    requires Tracks(config, start, read)
    requires |file| >= start.offset ==> read == file[..start.offset]
    ensures r.Ok? <==> |file| >= start.offset && WellFramed(config, file)
    ensures r.Ok? ==> Tracks(config, r.value, file)
    ensures r.Ok? ==> r.value.recordBase == start.recordBase && r.value.path == start.path && r.value.turn == start.turn
    ensures r.Err? ==> (r.error == SourceTruncated <==> |file| < start.offset)
    ensures r.Err? && |file| >= start.offset && !Strict(config) ==> !AllFit(config, Lines(file))
  {
    hide Lines, WellFramed, Tail, Records, AllFit;
    if |file| < start.offset {
      return Err(SourceTruncated);
    }
    var cursor := start;
    while cursor.offset < |file|
      invariant cursor.offset <= |file|
      invariant Tracks(config, cursor, file[..cursor.offset])
      invariant cursor.recordBase == start.recordBase && cursor.path == start.path && cursor.turn == start.turn
      decreases |file| - cursor.offset
    {
      var n :| 1 <= n <= CHUNK_SIZE && cursor.offset + n <= |file|;
      var chunk := file[cursor.offset..cursor.offset + n];
      ghost var before, rest := file[..cursor.offset], file[cursor.offset + n..];
      assert before + chunk == file[..cursor.offset + n];
      assert (before + chunk) + rest == file;
      var step := ReadChunk(config, cursor, chunk, before);
      FramingGrows(config, before + chunk, rest);
      if step.Err? {
        LongGrows(config, before + chunk, rest);
        return Err(step.error);
      }
      cursor := step.value;
    }
    assert file[..|file|] == file;
    r := Ok(cursor);
  }

  lemma LongGrows(config: FrameConfig, x: string, y: string)
    ensures AllFit(config, Lines(x + y)) ==> AllFit(config, Lines(x))
  {
    hide Lines;
    LinesAppend(x, y);
    LinesSplit(x);
    TailGrows(x, y);
    if AllFit(config, Lines(x + y)) {
      forall i | 0 <= i < |Lines(x)| ensures Fits(config, Lines(x)[i]) {
        if i < |CompleteLines(x)| {
          assert Lines(x + y)[i] == Lines(x)[i];
        } else {
          assert Lines(x + y)[i] == Lines(Tail(x) + y)[0];
        }
      }
    }
  }

  /**
   What a poll sees, in terms of complete lines alone: the end of a finished
   stdout ends its last line as a newline would, and anything else is read up to
   its last newline.
   */
  lemma VisibleIsParsed(config: FrameConfig, bytes: string, finished: bool)
    ensures VisibleRecords(config, bytes, finished)
         == Records(config, if finished && config.source == Stdout then bytes + "\n" else bytes)
  {
    hide Lines, LinesRecords;
    BlockLines(config, bytes);
    assert bytes + ['\n'] == bytes + "\n";
  }

  /** The end of a finished stdout: its unterminated last line is a record too, as if a newline ended it. */
  method FlushPending(config: FrameConfig, cursor: SourceCursor, ghost file: string) returns (r: SourceCursor)
    requires Tracks(config, cursor, file) && config.source == Stdout
    ensures cursor.recordBase <= |Records(config, file + "\n")|
    ensures r == cursor.(pending := "", records := Records(config, file + "\n")[cursor.recordBase..])
  {
    hide Lines, LinesRecords;
    VisibleIsParsed(config, file, true);
    LinesSplit(file);
    PartsHaveNoNewline(file);
    NoNewline(cursor.pending);
    LinesRecordsAppend(config, CompleteLines(file), [Tail(file)]);
    r := cursor;
    if cursor.pending != "" {
      var parsed := ParseBlock(config, cursor.pending);
      assert parsed.Ok? by {
        assert Lines(file)[|CompleteLines(file)|] == Tail(file);
        assert Fits(config, Tail(file));
      }
      r := cursor.(records := cursor.records + parsed.value, pending := "");
    } else {
      assert LinesRecords(config, [""]) == [] by { EmptyLine(config); }
    }
  }

  lemma EmptyLine(config: FrameConfig)
    ensures LinesRecords(config, [""]) == []
  {
    assert LineRecords(config, "") == [];
    assert LinesRecords(config, [""][..0]) == [];
  }
}
