/** Serialized objects as the lines of a source: what a writer appends is the record that a poll reads. */
module JsonLines {
  import opened Prelude
  import opened Text
  import opened Json
  import opened Carriers
  import opened Framing

  /** The compact text of a value is a single line. */
  lemma {:induction false} WriteOneLine(v: Value, rest: string)
    requires '\n' !in rest
    ensures '\n' !in Write(v, rest)
    decreases v, 1, 0
  {
    match v
    case Null =>
    case Bool(_) =>
    case Number(_) =>
    case Str(s) => StringOneLine(s, rest);
    case Array(items) => ItemsOneLine(items, true, [']'] + rest);
    case Object(fields) => FieldsOneLine(v, SortedStrings(fields.Keys), true, ['}'] + rest);
  }

  lemma {:induction false} TextOneLine(s: string, rest: string)
    requires '\n' !in rest
    ensures '\n' !in WriteText(s, rest)
  {
    if s != "" {
      TextOneLine(s[1..], rest);
      EscapeOneLine(s[0]);
    }
  }

  lemma EscapeOneLine(c: char)
    ensures '\n' !in EscapedChar(c)
  {}

  lemma StringOneLine(s: string, rest: string)
    requires '\n' !in rest
    ensures '\n' !in WriteString(s, rest)
  {
    TextOneLine(s, ['"'] + rest);
  }

  lemma {:induction false} ItemsOneLine(items: seq<Value>, first: bool, rest: string)
    requires '\n' !in rest
    ensures '\n' !in WriteItems(items, first, rest)
    decreases items, 0, 0
  {
    if items != [] {
      ItemsOneLine(items[1..], false, rest);
      WriteOneLine(items[0], WriteItems(items[1..], false, rest));
    }
  }

  lemma {:induction false} FieldsOneLine(v: Value, keys: seq<string>, first: bool, rest: string)
    requires v.Object? && (forall k :: k in keys ==> k in v.fields) && '\n' !in rest
    ensures '\n' !in WriteFields(v, keys, first, rest)
    decreases v, 0, |keys|
  {
    if keys != [] {
      var tail := WriteFields(v, keys[1..], false, rest);
      FieldsOneLine(v, keys[1..], false, rest);
      WriteOneLine(v.fields[keys[0]], tail);
      StringOneLine(keys[0], [':'] + Write(v.fields[keys[0]], tail));
    }
  }

  // ---- What trimming leaves -----------------------------------------------------------------

  /** Trimming leaves the middle between white space, which itself begins and ends otherwise. */
  lemma {:induction false} TrimmedMiddle(s: string) returns (i: nat, j: nat)
    ensures i <= j <= |s| && TrimAscii(s) == s[i..j]
    ensures forall k | 0 <= k < i || j <= k < |s| :: Whitespace(s[k])
    ensures i < j ==> !Whitespace(s[i]) && !Whitespace(s[j - 1])
    decreases |s|
  {
    hide Whitespace;
    if s == "" {
      i, j := 0, 0;
    } else if Whitespace(s[0]) {
      i, j := TrimmedMiddle(s[1..]);
      assert s[1..][i..j] == s[i + 1..j + 1];
      forall k | 0 <= k < i + 1 || j + 1 <= k < |s| ensures Whitespace(s[k]) {
        assert k > 0 ==> s[k] == s[1..][k - 1];
      }
      i, j := i + 1, j + 1;
    } else if Whitespace(s[|s| - 1]) {
      var n := |s| - 1;
      i, j := TrimmedMiddle(s[..n]);
      assert s[..n][i..j] == s[i..j];
      forall k | 0 <= k < i || j <= k < |s| ensures Whitespace(s[k]) {
        assert k < n ==> s[k] == s[..n][k];
      }
    } else {
      i, j := 0, |s|;
    }
  }

  /** White space at the end, such as the carriage return of a line, changes nothing. */
  lemma {:induction false} TrimmedEnd(s: string, c: char)
    requires Whitespace(c)
    ensures TrimAscii(s + [c]) == TrimAscii(s)
    decreases |s|
  {
    hide Whitespace;
    if s == "" {
      assert s + [c] == [c] && [c][1..] == "";
    } else if Whitespace(s[0]) {
      assert (s + [c])[1..] == s[1..] + [c];
      TrimmedEnd(s[1..], c);
    } else {
      assert (s + [c])[..|s|] == s;
    }
  }

  /** A line that ends in a carriage return carries what it carries without it. */
  lemma CarriageReturn(frame: FrameConfig, line: string)
    ensures Carried(frame, line + "\r") == Carried(frame, line)
  {
    hide TrimAscii;
    TrimmedEnd(line, '\r');
    assert line + ['\r'] == line + "\r";
  }

  // ---- Lines of objects ------------------------------------------------------------------------

  /** The line that carries a value: its compact text, in a stream of server-sent events as a data line. */
  function LineOf(frame: FrameConfig, v: Value): string {
    if frame.format == ServerSent then "data: " + Serialize(v) else Serialize(v)
  }

  function Written(frame: FrameConfig, vs: seq<Value>): string {
    if vs == [] then "" else Written(frame, vs[..|vs| - 1]) + (LineOf(frame, vs[|vs| - 1]) + "\n")
  }

  /** The reader parses what the writer wrote, and the line is not too long. */
  predicate Readable(frame: FrameConfig, v: Value) {
    v.Object? && frame.parse(Serialize(v)) == Some(v) && Fits(frame, LineOf(frame, v))
  }

  lemma LineIsOneLine(frame: FrameConfig, v: Value)
    ensures '\n' !in LineOf(frame, v)
  {
    hide Write;
    WriteOneLine(v, "");
    SerializeIsWrite(v);
  }

  lemma DataTrimmed(text: string)
    requires text != "" && !Whitespace(text[0]) && !Whitespace(text[|text| - 1])
    ensures TrimAscii("data: " + text) == "data: " + text && TrimAscii(text) == text && TrimAscii(" " + text) == text
  {
    hide Whitespace;
    var line := "data: " + text;
    assert line[0] == 'd' && line[|line| - 1] == text[|text| - 1];
    assert !Whitespace('d') && Whitespace(' ') by { SpaceOnly(); assert 'd' in "d{}[]"; }
    assert (" " + text)[1..] == text && (" " + text)[0] == ' ';
  }

  lemma SpaceOnly()
    ensures Whitespace(' ') && forall c | c in "d{}[]" :: !Whitespace(c)
  {}

  /** A line carries its value. */
  lemma LineCarries(frame: FrameConfig, v: Value)
    requires Readable(frame, v)
    ensures LineRecords(frame, LineOf(frame, v)) == [v] && !CorruptLine(frame, LineOf(frame, v))
  {
    hide Serialize, TrimAscii;
    var text := Serialize(v);
    ObjectText(v);
    SpaceOnly();
    DataTrimmed(text);
    var line := "data: " + text;
    assert line[..5] == "data:" && line[5..] == " " + text;
    assert text[0] != "[DONE]"[0];
  }

  lemma ObjectText(v: Value)
    requires v.Object?
    ensures Serialize(v) != "" && Serialize(v)[0] == '{' && Serialize(v)[|Serialize(v)| - 1] == '}'
  {
    hide WriteFields;
    var keys := SortedStrings(v.fields.Keys);
    FieldsAppend(v, keys, true, "", ['}'] + "");
    assert "" + (['}'] + "") == ['}'] + "";
    var text := WriteFields(v, keys, true, "");
    assert Serialize(v) == ['{'] + (text + ['}']);
  }

  /** Another complete line adds the records it carries. */
  lemma LineAppended(frame: FrameConfig, read: string, line: string)
    requires '\n' !in line && Tail(read) == ""
    ensures Tail(read + (line + "\n")) == ""
    ensures Records(frame, read + (line + "\n")) == Records(frame, read) + LineRecords(frame, line)
    ensures WellFramed(frame, read) ==>
              (WellFramed(frame, read + (line + "\n")) <==> Fits(frame, line) && (Strict(frame) ==> !CorruptLine(frame, line)))
  {
    hide Lines, CompleteLines, Tail, Records, LineRecords, AllFit, WellFramed, CorruptLine;
    assert "" + (line + "\n") == line + ['\n'] + "";
    ChunkRead(frame, read, line + "\n", line, "");
    NoNewline(line);
    OneLine(frame, line);
    if WellFramed(frame, read) {
      WellFramedAppend(frame, read, [line], read + (line + "\n"));
      FitsNothing(frame);
    }
  }

  lemma OneLine(frame: FrameConfig, line: string)
    ensures LinesRecords(frame, [line]) == LineRecords(frame, line)
    ensures AllFit(frame, [line]) <==> Fits(frame, line)
    ensures NoneCorrupt(frame, [line]) <==> (Strict(frame) ==> !CorruptLine(frame, line))
  {
    hide LineRecords, CorruptLine;
    assert [line][..0] == [] && LinesRecords(frame, []) == [];
    assert [] + LineRecords(frame, line) == LineRecords(frame, line);
    assert AllFit(frame, [line]) ==> Fits(frame, [line][0]);
    assert NoneCorrupt(frame, [line]) && Strict(frame) ==> !CorruptLine(frame, [line][0]);
  }

  lemma FitsNothing(frame: FrameConfig)
    ensures Fits(frame, "")
  {}

  lemma NothingRead(frame: FrameConfig)
    ensures Tail("") == "" && Records(frame, "") == [] && WellFramed(frame, "")
  {
    assert LinesRecords(frame, []) == [];
  }

  /** The source holds these objects, one on a line each, and nothing else. */
  lemma {:induction false} LinesReadBack(frame: FrameConfig, vs: seq<Value>)
    requires forall v | v in vs :: Readable(frame, v)
    ensures Tail(Written(frame, vs)) == "" && WellFramed(frame, Written(frame, vs))
    ensures Records(frame, Written(frame, vs)) == vs
  {
    hide Tail, Records, WellFramed, LineOf, Readable, LineRecords, CorruptLine, Fits;
    if vs == [] {
      NothingRead(frame);
    } else {
      var n := |vs| - 1;
      LinesReadBack(frame, vs[..n]);
      LineIsOneLine(frame, vs[n]);
      assert Readable(frame, vs[n]);
      LineCarries(frame, vs[n]);
      LineAppended(frame, Written(frame, vs[..n]), LineOf(frame, vs[n]));
      assert Fits(frame, LineOf(frame, vs[n])) by { ReadableFits(frame, vs[n]); }
      assert vs == vs[..n] + [vs[n]];
    }
  }

  lemma ReadableFits(frame: FrameConfig, v: Value)
    requires Readable(frame, v)
    ensures Fits(frame, LineOf(frame, v))
  {}

  /**
   What a writer appends is what a poll reads. Objects written one on a line are
   read back as they are; and an object on a last line without its newline is
   read once the stdout is finished, and not before.
   */
  lemma ObjectsReadBack(frame: FrameConfig, vs: seq<Value>, v: Value, finished: bool)
    requires forall x | x in vs + [v] :: Readable(frame, x)
    ensures var whole, torn := Written(frame, vs), Written(frame, vs) + LineOf(frame, v);
            && WellFramed(frame, whole) && WellFramed(frame, torn)
            && VisibleRecords(frame, whole, finished) == vs
            && VisibleRecords(frame, torn, finished) == vs + if finished && frame.source == Stdout then [v] else []
  {
    hide Tail, Records, WellFramed, LineOf, Readable, VisibleRecords;
    var whole, line := Written(frame, vs), LineOf(frame, v);
    forall x | x in vs ensures Readable(frame, x) { assert x in vs + [v]; }
    LinesReadBack(frame, vs);
    assert v in vs + [v];
    LinesReadBack(frame, vs + [v]);
    assert (vs + [v])[..|vs|] == vs;
    assert Written(frame, vs + [v]) == whole + (line + "\n");
    AppendAssociative(whole, line, "\n");
    FramingGrows(frame, whole + line, "\n");
    LineIsOneLine(frame, v);
    assert "" + line == line;
    ChunkWithoutNewline(frame, whole, line);
    VisibleIsParsed(frame, whole, finished);
    VisibleIsParsed(frame, whole + line, finished);
    assert whole + "\n" == whole + ("" + "\n");
    BlankLine(frame, whole);
  }

  /** A blank line carries nothing. */
  lemma BlankLine(frame: FrameConfig, read: string)
    requires Tail(read) == ""
    ensures Records(frame, read + "\n") == Records(frame, read)
  {
    hide Tail, Records;
    assert read + ("" + "\n") == read + "\n";
    LineAppended(frame, read, "");
  }

  /** A journal of JSON lines with a complete line that does not parse is not read at all; a torn last line is ignored. */
  lemma CorruptLineFails(frame: FrameConfig, read: string, line: string, rest: string)
    requires frame.source == JournalFile && frame.format == JsonLines
    requires '\n' !in line && TrimAscii(line) != "" && frame.parse(TrimAscii(line)).None?
    requires Tail(read) == "" && WellFramed(frame, read)
    ensures !WellFramed(frame, read + (line + "\n") + rest)
    ensures Fits(frame, line) ==>
              WellFramed(frame, read + line) && VisibleRecords(frame, read + line, true) == Records(frame, read)
  {
    hide Tail, Records, WellFramed, TrimAscii, LineRecords;
    LineAppended(frame, read, line);
    FramingGrows(frame, read + (line + "\n"), rest);
    assert "" + line == line;
    ChunkHeld(frame, read, line);
  }

  /** In a stream of server-sent events, only data lines carry something, and the end mark does not. */
  lemma NotData(frame: FrameConfig, line: string)
    requires frame.format == ServerSent && |line| >= 5 && !Whitespace(line[0]) && !Whitespace(line[|line| - 1])
    requires line[..5] != "data:" || line == "data: [DONE]"
    ensures LineRecords(frame, line) == []
  {
    hide Whitespace;
    if line == "data: [DONE]" {
      SpaceOnly();
      assert '[' in "d{}[]" && ']' in "d{}[]";
      DataTrimmed("[DONE]");
      assert line[5..] == " " + "[DONE]";
    }
  }

  // ---- The record limit --------------------------------------------------------------------------

  /** A stretch of the bytes without a newline. */
  predicate Stretch(bytes: string, i: nat, j: nat) { i <= j <= |bytes| && '\n' !in bytes[i..j] }

  /** Every line is such a stretch, and every such stretch lies within a line. */
  lemma {:induction false} LinesAreStretches(bytes: string, k: nat) returns (i: nat, j: nat)
    requires k < |Lines(bytes)|
    ensures Stretch(bytes, i, j) && bytes[i..j] == Lines(bytes)[k]
    ensures k == 0 ==> i == 0
  {
    if bytes == "" {
      i, j := 0, 0;
    } else {
      var rest := bytes[1..];
      assert bytes == [bytes[0]] + rest;
      LinesFirst(bytes[0], rest);
      if bytes[0] == '\n' && k == 0 {
        i, j := 0, 0;
      } else {
        i, j := LinesAreStretches(rest, if bytes[0] == '\n' then k - 1 else k);
        assert bytes[i + 1..j + 1] == rest[i..j];
        if bytes[0] != '\n' && k == 0 {
          assert bytes[0..j + 1] == [bytes[0]] + rest[0..j];
          i, j := 0, j + 1;
        } else {
          i, j := i + 1, j + 1;
        }
      }
    }
  }

  lemma {:induction false} StretchesAreInLines(bytes: string, i: nat, j: nat) returns (k: nat)
    requires Stretch(bytes, i, j)
    ensures k < |Lines(bytes)| && j - i <= |Lines(bytes)[k]|
    ensures i == 0 ==> k == 0
  {
    if i == 0 {
      assert bytes == bytes[..j] + bytes[j..];
      FirstPartGrows(bytes[..j], bytes[j..]);
      k := 0;
    } else {
      var rest := bytes[1..];
      assert rest[i - 1..j - 1] == bytes[i..j] && bytes == [bytes[0]] + rest;
      k := StretchesAreInLines(rest, i - 1, j - 1);
      LinesFirst(bytes[0], rest);
      k := if bytes[0] == '\n' then k + 1 else k;
    }
  }

  /** The record limit, without lines: no stretch without a newline is longer. */
  lemma LimitMeans(frame: FrameConfig, bytes: string)
    ensures AllFit(frame, Lines(bytes))
       <==> frame.maximum == 0 || forall i: nat, j: nat | Stretch(bytes, i, j) :: j - i <= frame.maximum
  {
    hide Lines;
    if frame.maximum != 0 {
      if AllFit(frame, Lines(bytes)) {
        forall i: nat, j: nat | Stretch(bytes, i, j) ensures j - i <= frame.maximum {
          var k := StretchesAreInLines(bytes, i, j);
          assert Fits(frame, Lines(bytes)[k]);
        }
      } else {
        var k :| 0 <= k < |Lines(bytes)| && !Fits(frame, Lines(bytes)[k]);
        var i, j := LinesAreStretches(bytes, k);
      }
    }
  }

  /** An object alone on its line. */
  lemma OneJsonLine(frame: FrameConfig, v: Value, finished: bool)
    requires v.Object? && frame.format == JsonLines && frame.parse(Serialize(v)) == Some(v)
    requires Fits(frame, Serialize(v))
    ensures WellFramed(frame, Serialize(v) + "\n")
    ensures VisibleRecords(frame, Serialize(v) + "\n", finished) == [v]
    ensures VisibleRecords(frame, Serialize(v), finished) == if finished && frame.source == Stdout then [v] else []
  {
    hide Serialize, WellFramed, VisibleRecords;
    var one := [v];
    assert one[..0] == [] && Written(frame, []) == "";
    assert Written(frame, one) == "" + (Serialize(v) + "\n") == Serialize(v) + "\n";
    ObjectsReadBack(frame, one, v, finished);
    ObjectsReadBack(frame, [], v, finished);
    assert [] + one == one && "" + Serialize(v) == Serialize(v);
  }

  lemma SerializeIsWrite(v: Value)
    ensures Serialize(v) == Write(v, "")
  {}
}
