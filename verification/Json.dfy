/**
 JSON values as `serde_json` holds them, with its equality, its compact
 serializer and its pointer lookup.
 */
module Json {
  import opened Prelude
  import opened Text

  predicate NumberChar(c: char) {
    IsDigit(c) || c == '+' || c == '-' || c == '.' || c == 'e' || c == 'E'
  }

  /** A number is its rendering, which names its kind (integer or float) and value. */
  type NumberText = s: string | s != "" && forall i :: 0 <= i < |s| ==> NumberChar(s[i]) witness "0"

  datatype Value =
    | Null
    | Bool(flag: bool)
    | Number(text: NumberText)
    | Str(chars: string)
    | Array(items: seq<Value>)
    | Object(fields: map<string, Value>)

  const POSITIVE_ZERO: NumberText := "0.0"
  const NEGATIVE_ZERO: NumberText := "-0.0"

  predicate FloatZero(text: NumberText) { text == POSITIVE_ZERO || text == NEGATIVE_ZERO }

  /** Equality of values. The two float zeros compare equal although they render differently. */
  predicate ValueEq(a: Value, b: Value)
    decreases a
  {
    match (a, b)
    case (Number(s), Number(t)) => s == t || (FloatZero(s) && FloatZero(t))
    case (Array(xs), Array(ys)) => |xs| == |ys| && forall i | 0 <= i < |xs| :: ValueEq(xs[i], ys[i])
    case (Object(f), Object(g)) => f.Keys == g.Keys && forall k | k in f :: ValueEq(f[k], g[k])
    case (_, _) => a == b
  }

  lemma {:induction false} ValueEqReflexive(a: Value)
    ensures ValueEq(a, a)
    decreases a
  {
    match a
    case Array(xs) => forall i | 0 <= i < |xs| { ValueEqReflexive(xs[i]); }
    case Object(f) => forall k | k in f { ValueEqReflexive(f[k]); }
    case _ =>
  }

  lemma {:induction false} ValueEqSymmetric(a: Value, b: Value)
    ensures ValueEq(a, b) == ValueEq(b, a)
    decreases a
  {
    match (a, b)
    case (Array(xs), Array(ys)) =>
      if |xs| == |ys| {
        forall i | 0 <= i < |xs| ensures ValueEq(xs[i], ys[i]) == ValueEq(ys[i], xs[i]) {
          ValueEqSymmetric(xs[i], ys[i]);
        }
      }
    case (Object(f), Object(g)) =>
      if f.Keys == g.Keys {
        forall k | k in f ensures ValueEq(f[k], g[k]) == ValueEq(g[k], f[k]) {
          ValueEqSymmetric(f[k], g[k]);
        }
      }
    case (_, _) =>
  }

  /** No number in the value renders as `-0.0`. */
  predicate NoNegativeZero(a: Value) {
    match a
    case Number(s) => s != NEGATIVE_ZERO
    case Array(xs) => forall i | 0 <= i < |xs| :: NoNegativeZero(xs[i])
    case Object(f) => forall k | k in f :: NoNegativeZero(f[k])
    case _ => true
  }

  /** Away from negative zero, values that compare equal are the same value. */
  lemma {:induction false} EqualWithoutNegativeZero(a: Value, b: Value)
    requires ValueEq(a, b) && NoNegativeZero(a) && NoNegativeZero(b)
    ensures a == b
    decreases a
  {
    match (a, b)
    case (Array(xs), Array(ys)) =>
      forall i | 0 <= i < |xs| ensures xs[i] == ys[i] { EqualWithoutNegativeZero(xs[i], ys[i]); }
    case (Object(f), Object(g)) =>
      forall k | k in f ensures f[k] == g[k] { EqualWithoutNegativeZero(f[k], g[k]); }
    case (_, _) =>
  }

  // ---- Compact serialization -------------------------------------------------

  const HEX_DIGITS := "0123456789abcdef"

  function HexValue(c: char): int {
    if IsDigit(c) then c as int - '0' as int else c as int - 'a' as int + 10
  }

  function ShortEscape(e: char): char {
    if e == 'b' then 8 as char
    else if e == 't' then '\t'
    else if e == 'n' then '\n'
    else if e == 'f' then 12 as char
    else if e == 'r' then '\r'
    else e
  }

  /** The escape of one byte inside a string; the postconditions say how to undo it. */
  function EscapedChar(c: char): (s: string)
    ensures |s| == 1 || |s| == 2 || |s| == 6
    ensures |s| == 1 ==> s[0] == c && c != '\\' && c != '"'
    ensures |s| != 1 ==> s[0] == '\\' && (|s| == 6 <==> s[1] == 'u')
    ensures |s| == 2 ==> c == ShortEscape(s[1])
    ensures |s| == 6 ==> c as int == 16 * HexValue(s[4]) + HexValue(s[5])
  {
    if c == '"' then "\\\""
    else if c == '\\' then "\\\\"
    else if c == 8 as char then "\\b"
    else if c == '\t' then "\\t"
    else if c == '\n' then "\\n"
    else if c == 12 as char then "\\f"
    else if c == '\r' then "\\r"
    else if c as int < 32 then ['\\', 'u', '0', '0', HEX_DIGITS[c as int / 16], HEX_DIGITS[c as int % 16]]
    else [c]
  }

  /** Each `Write` function gives the text of its argument followed by `rest`. */
  function WriteText(s: string, rest: string): string {
    if s == "" then rest else EscapedChar(s[0]) + WriteText(s[1..], rest)
  }

  function WriteString(s: string, rest: string): string {
    ['"'] + WriteText(s, ['"'] + rest)
  }

  function Write(v: Value, rest: string): string
    decreases v, 1, 0
  {
    match v
    case Null => "null" + rest
    case Bool(flag) => if flag then "true" + rest else "false" + rest
    case Number(text) => text + rest
    case Str(s) => WriteString(s, rest)
    case Array(items) => ['['] + WriteItems(items, true, [']'] + rest)
    case Object(fields) => ['{'] + WriteFields(v, SortedStrings(fields.Keys), true, ['}'] + rest)
  }

  function WriteItems(items: seq<Value>, first: bool, rest: string): string
    decreases items, 0, 0
  {
    if items == [] then rest
    else
      var tail := Write(items[0], WriteItems(items[1..], false, rest));
      if first then tail else [','] + tail
  }

  function WriteFields(v: Value, keys: seq<string>, first: bool, rest: string): string
    requires v.Object? && forall k :: k in keys ==> k in v.fields
    decreases v, 0, |keys|
  {
    if keys == [] then rest
    else
      var tail := WriteString(keys[0],
                              [':'] + Write(v.fields[keys[0]], WriteFields(v, keys[1..], false, rest)));
      if first then tail else [','] + tail
  }

  /** `serde_json::to_vec`. */
  function Serialize(v: Value): string { Write(v, "") }

  lemma Cancel(p: string, q: string, u: string, v: string)
    requires p + u == q + v && |p| == |q|
    ensures p == q && u == v
  {
    assert p == (p + u)[..|p|] == (q + v)[..|q|] == q;
    assert u == (p + u)[|p|..] == (q + v)[|q|..] == v;
  }

  // ---- Reading compact text: section 2 of RFC 8259, without white space -------------

  /** Reading a prefix of the text gives a result and what is left. */
  type Read<T> = Option<(T, string)>

  predicate HexDigit(c: char) { IsDigit(c) || 'a' <= c <= 'f' }

  /** The rest of a string, up to its closing quotation mark (section 7 of RFC 8259); one character is one byte. */
  function ReadText(s: string): (r: Read<string>)
    ensures r.Some? ==> |r.value.1| < |s|
    decreases |s|
  {
    if s == "" then None
    else if s[0] == '"' then Some(("", s[1..]))
    else if s[0] != '\\' then Continue([s[0]], ReadText(s[1..]))
    else if |s| < 2 then None
    else if s[1] != 'u' then Continue([ShortEscape(s[1])], ReadText(s[2..]))
    else if |s| >= 6 && s[2] == '0' && s[3] == '0' && HexDigit(s[4]) && HexDigit(s[5]) then
      Continue([(16 * HexValue(s[4]) + HexValue(s[5])) as char], ReadText(s[6..]))
    else None
  }

  function Continue(head: string, r: Read<string>): Read<string> {
    if r.Some? then Some((head + r.value.0, r.value.1)) else None
  }

  /** How many characters of a number the text begins with. */
  function NumberLength(s: string): (n: nat)
    ensures n <= |s| && forall i | 0 <= i < n :: NumberChar(s[i])
  {
    if s == "" || !NumberChar(s[0]) then 0 else 1 + NumberLength(s[1..])
  }

  /** A keyword, and what is left behind it. */
  function ReadWord(s: string, word: string, v: Value): (r: Read<Value>)
    requires word != ""
    ensures r.Some? ==> |r.value.1| < |s|
  {
    if word <= s then Some((v, s[|word|..])) else None
  }

  function ReadValue(s: string): (r: Read<Value>)
    ensures r.Some? ==> |r.value.1| < |s|
    decreases |s|, 0
  {
    if s == "" then None
    else if s[0] == 'n' then ReadWord(s, "null", Null)
    else if s[0] == 't' then ReadWord(s, "true", Bool(true))
    else if s[0] == 'f' then ReadWord(s, "false", Bool(false))
    else if s[0] == '"' then
      match ReadText(s[1..]) case None => None case Some((text, rest)) => Some((Str(text), rest))
    else if s[0] == '[' then
      match ReadItems(s[1..], true) case None => None case Some((items, rest)) => Some((Array(items), rest))
    else if s[0] == '{' then
      match ReadFields(s[1..], true) case None => None case Some((fields, rest)) => Some((Object(fields), rest))
    else if NumberChar(s[0]) then
      var n := NumberLength(s); Some((Number(s[..n]), s[n..]))
    else None
  }

  /** The elements up to the closing bracket; all but the first stand behind a comma. */
  function ReadItems(s: string, first: bool): (r: Read<seq<Value>>)
    ensures r.Some? ==> |r.value.1| < |s|
    decreases |s|, 1
  {
    if s == "" then None
    else if s[0] == ']' then Some(([], s[1..]))
    else if !first && s[0] != ',' then None
    else
      match ReadValue(if first then s else s[1..])
      case None => None
      case Some((item, rest)) =>
        match ReadItems(rest, false) case None => None case Some((items, left)) => Some(([item] + items, left))
  }

  /** The fields up to the closing brace; the last of a name stays. */
  function ReadFields(s: string, first: bool): (r: Read<map<string, Value>>)
    ensures r.Some? ==> |r.value.1| < |s|
    decreases |s|, 1
  {
    if s == "" then None
    else if s[0] == '}' then Some((map[], s[1..]))
    else if !first && s[0] != ',' then None
    else
      var text := if first then s else s[1..];
      if text == "" || text[0] != '"' then None
      else
        match ReadText(text[1..])
        case None => None
        case Some((name, behind)) =>
          if behind == "" || behind[0] != ':' then None
          else
            match ReadValue(behind[1..])
            case None => None
            case Some((v, rest)) =>
              match ReadFields(rest, false)
              case None => None
              case Some((fields, left)) => Some((map[name := v] + fields, left))
  }

  /** The value that a whole text stands for. */
  function Parse(s: string): Option<Value> {
    match ReadValue(s)
    case Some((v, "")) => Some(v)
    case _ => None
  }

  // ---- What is written is read back ---------------------------------------------------

  lemma HexDigits(c: char)
    requires |EscapedChar(c)| == 6
    ensures var s := EscapedChar(c); s[2] == '0' && s[3] == '0' && HexDigit(s[4]) && HexDigit(s[5])
  {
    assert forall i | 0 <= i < 16 :: HexDigit(HEX_DIGITS[i]);
  }

  lemma ReadEscaped(c: char, rest: string)
    ensures ReadText(EscapedChar(c) + rest) == Continue([c], ReadText(rest))
  {
    hide EscapedChar;
    var e := EscapedChar(c);
    assert (e + rest)[|e|..] == rest && forall i | 0 <= i < |e| :: (e + rest)[i] == e[i];
    if |e| == 6 {
      HexDigits(c);
    }
  }

  lemma {:induction false} TextReadBack(s: string, rest: string)
    ensures ReadText(WriteText(s, ['"'] + rest)) == Some((s, rest))
  {
    hide ReadText, EscapedChar;
    if s == "" {
      ClosingMark(rest);
    } else {
      TextReadBack(s[1..], rest);
      ReadEscaped(s[0], WriteText(s[1..], ['"'] + rest));
      assert s == [s[0]] + s[1..];
    }
  }

  lemma ClosingMark(rest: string)
    ensures ReadText(['"'] + rest) == Some(("", rest))
  {
    assert (['"'] + rest)[1..] == rest;
  }

  /** What may follow a value inside a document: nothing, or a delimiter. */
  predicate Delimited(x: string) { x == "" || x[0] == ',' || x[0] == ']' || x[0] == '}' }

  lemma {:induction false} NumberReadBack(text: string, rest: string)
    requires (forall i | 0 <= i < |text| :: NumberChar(text[i])) && Delimited(rest)
    ensures NumberLength(text + rest) == |text|
  {
    if text == "" {
      assert text + rest == rest;
    } else {
      assert (text + rest)[1..] == text[1..] + rest;
      NumberReadBack(text[1..], rest);
    }
  }

  /** The first character of a value's text, up to the choices inside one kind. */
  predicate StartsKind(v: Value, c: char) {
    match v
    case Null => c == 'n'
    case Bool(flag) => c == if flag then 't' else 'f'
    case Number(_) => NumberChar(c)
    case Str(_) => c == '"'
    case Array(_) => c == '['
    case Object(_) => c == '{'
  }

  lemma WriteStart(v: Value, rest: string)
    ensures Write(v, rest) != "" && StartsKind(v, Write(v, rest)[0])
  {}

  /** Whatever follows it, the text of a value is read as that value. */
  lemma {:induction false} ValueReadBack(v: Value, rest: string)
    requires Delimited(rest)
    ensures ReadValue(Write(v, rest)) == Some((v, rest))
    decreases v, 1, 0
  {
    match v
    case Null => WordReadBack("null", Null, rest);
    case Bool(flag) => WordReadBack(if flag then "true" else "false", v, rest);
    case Number(text) => NumberTextReadBack(text, rest);
    case Str(s) => StringReadBack(s, rest);
    case Array(items) =>
      ItemsReadBack(items, true, rest);
      ArrayReadBack(WriteItems(items, true, [']'] + rest));
    case Object(fields) =>
      var keys := SortedStrings(fields.Keys);
      FieldsReadBack(v, keys, true, rest);
      ObjectReadBack(WriteFields(v, keys, true, ['}'] + rest));
      assert Picked(v, keys) == fields;
  }

  lemma WordReadBack(word: string, v: Value, rest: string)
    requires (word == "null" && v == Null) || (word == "true" && v == Bool(true)) || (word == "false" && v == Bool(false))
    ensures ReadValue(word + rest) == Some((v, rest))
  {
    assert word <= word + rest && (word + rest)[|word|..] == rest;
  }

  lemma NumberTextReadBack(text: NumberText, rest: string)
    requires Delimited(rest)
    ensures ReadValue(text + rest) == Some((Number(text), rest))
  {
    hide NumberLength;
    NumberReadBack(text, rest);
    assert (text + rest)[..|text|] == text && (text + rest)[|text|..] == rest && NumberChar((text + rest)[0]);
  }

  lemma StringReadBack(s: string, rest: string)
    ensures ReadValue(WriteString(s, rest)) == Some((Str(s), rest))
  {
    hide WriteText, ReadText;
    TextReadBack(s, rest);
    assert WriteString(s, rest)[1..] == WriteText(s, ['"'] + rest);
  }

  lemma ArrayReadBack(text: string)
    ensures ReadValue(['['] + text)
         == match ReadItems(text, true) case None => None case Some((items, rest)) => Some((Array(items), rest))
  {
    hide ReadItems;
    assert (['['] + text)[1..] == text;
  }

  lemma ObjectReadBack(text: string)
    ensures ReadValue(['{'] + text)
         == match ReadFields(text, true) case None => None case Some((fields, rest)) => Some((Object(fields), rest))
  {
    hide ReadFields;
    assert (['{'] + text)[1..] == text;
  }

  lemma ItemsStart(items: seq<Value>, first: bool, x: string)
    ensures var s := WriteItems(items, first, [']'] + x);
            s != "" && (items == [] <==> s[0] == ']') && (!first ==> Delimited(s))
  {
    if items != [] {
      WriteStart(items[0], WriteItems(items[1..], false, [']'] + x));
    }
  }

  lemma {:induction false} ItemsReadBack(items: seq<Value>, first: bool, rest: string)
    ensures ReadItems(WriteItems(items, first, [']'] + rest), first) == Some((items, rest))
    decreases items, 0, 0
  {
    hide ReadValue, Write;
    var s := WriteItems(items, first, [']'] + rest);
    ItemsStart(items, first, rest);
    if items == [] {
      assert s[1..] == rest;
    } else {
      var tail := WriteItems(items[1..], false, [']'] + rest);
      ItemsStart(items[1..], false, rest);
      ValueReadBack(items[0], tail);
      ItemsReadBack(items[1..], false, rest);
      assert !first ==> s[1..] == Write(items[0], tail);
      assert items == [items[0]] + items[1..];
    }
  }

  predicate KeysOf(a: Value, keys: seq<string>) {
    a.Object? && forall k :: k in keys ==> k in a.fields
  }

  lemma FieldsStart(a: Value, keys: seq<string>, first: bool, x: string)
    requires KeysOf(a, keys)
    ensures var s := WriteFields(a, keys, first, ['}'] + x);
            s != "" && (keys == [] <==> s[0] == '}') && (!first ==> Delimited(s))
  {}

  /** One field, read. */
  lemma FieldReadBack(name: string, v: Value, tail: string, first: bool)
    requires ReadValue(Write(v, tail)) == Some((v, tail))
    ensures var text := WriteString(name, [':'] + Write(v, tail));
            ReadFields(if first then text else [','] + text, first)
            == match ReadFields(tail, false)
               case None => None
               case Some((fields, left)) => Some((map[name := v] + fields, left))
  {
    hide Write, ReadText, WriteText, ReadValue;
    var behind := [':'] + Write(v, tail);
    var text := WriteString(name, behind);
    TextReadBack(name, behind);
    assert text[1..] == WriteText(name, ['"'] + behind) && behind[1..] == Write(v, tail);
    assert ([','] + text)[1..] == text;
  }

  /** These fields of an object. */
  function Picked(v: Value, keys: seq<string>): map<string, Value>
    requires KeysOf(v, keys)
  {
    map k | k in keys :: v.fields[k]
  }

  lemma PickedFirst(v: Value, keys: seq<string>)
    requires KeysOf(v, keys) && keys != []
    ensures Picked(v, keys) == map[keys[0] := v.fields[keys[0]]] + Picked(v, keys[1..])
  {
    assert forall k :: k in keys <==> k == keys[0] || k in keys[1..];
  }

  lemma WrittenFirst(v: Value, keys: seq<string>, first: bool, rest: string)
    requires KeysOf(v, keys) && keys != []
    ensures var text := WriteString(keys[0], [':'] + Write(v.fields[keys[0]], WriteFields(v, keys[1..], false, rest)));
            WriteFields(v, keys, first, rest) == if first then text else [','] + text
  {
    hide WriteString;
  }

  lemma {:induction false} FieldsReadBack(v: Value, keys: seq<string>, first: bool, rest: string)
    requires KeysOf(v, keys)
    ensures ReadFields(WriteFields(v, keys, first, ['}'] + rest), first) == Some((Picked(v, keys), rest))
    decreases v, 0, |keys|
  {
    hide ReadValue, Write, WriteString, WriteFields, ReadFields, Picked;
    FieldsStart(v, keys, first, rest);
    if keys == [] {
      NoFields(v, first, rest);
    } else {
      var tail := WriteFields(v, keys[1..], false, ['}'] + rest);
      FieldsStart(v, keys[1..], false, rest);
      ValueReadBack(v.fields[keys[0]], tail);
      FieldsReadBack(v, keys[1..], false, rest);
      FieldReadBack(keys[0], v.fields[keys[0]], tail, first);
      WrittenFirst(v, keys, first, ['}'] + rest);
      PickedFirst(v, keys);
    }
  }

  lemma NoFields(v: Value, first: bool, rest: string)
    requires v.Object?
    ensures ReadFields(WriteFields(v, [], first, ['}'] + rest), first) == Some((Picked(v, []), rest))
  {
    assert (['}'] + rest)[1..] == rest && Picked(v, []) == map[];
  }

  /** The text of a value stands for it. */
  lemma SerializedParses(v: Value)
    ensures Parse(Serialize(v)) == Some(v)
  {
    ValueReadBack(v, "");
  }

  /** So two values with the same text are the same value. */
  lemma SerializeInjective(a: Value, b: Value)
    requires Serialize(a) == Serialize(b)
    ensures a == b
  {
    hide Parse, Serialize;
    SerializedParses(a);
    SerializedParses(b);
  }

  // ---- Pointer lookup ---------------------------------------------------------

  /** `~1` is `/` and `~0` is `~`; any other `~` stands for itself. */
  function UnescapeToken(s: string): string {
    if |s| >= 2 && s[0] == '~' && s[1] == '1' then "/" + UnescapeToken(s[2..])
    else if |s| >= 2 && s[0] == '~' && s[1] == '0' then "~" + UnescapeToken(s[2..])
    else if s == "" then ""
    else [s[0]] + UnescapeToken(s[1..])
  }

  function DigitsValue(s: string): nat
    requires forall i :: 0 <= i < |s| ==> IsDigit(s[i])
  {
    if s == "" then 0
    else
      var last := s[|s| - 1];
      assert IsDigit(last);
      DigitsValue(s[..|s| - 1]) * 10 + (last as int - '0' as int)
  }

  /** An array index has no sign and no leading zero. */
  function ParseIndex(s: string): Option<nat> {
    if s == "" || (s[0] == '0' && |s| != 1) then None
    else if forall i :: 0 <= i < |s| ==> IsDigit(s[i]) then Some(DigitsValue(s))
    else None
  }

  function Follow(v: Value, tokens: seq<string>): Option<Value>
    decreases |tokens|
  {
    if tokens == [] then Some(v)
    else
      var token := UnescapeToken(tokens[0]);
      match v
      case Object(fields) => if token in fields then Follow(fields[token], tokens[1..]) else None
      case Array(items) =>
        (match ParseIndex(token)
         case Some(i) => if i < |items| then Follow(items[i], tokens[1..]) else None
         case None => None)
      case _ => None
  }

  /** `Value::pointer`. */
  function Lookup(v: Value, pointer: string): Option<Value> {
    if pointer == "" then Some(v)
    else if pointer[0] != '/' then None
    else Follow(v, Split(pointer[1..], '/'))
  }

  /** `Value::get` with a string key. */
  function Get(v: Value, key: string): Option<Value> {
    if v.Object? && key in v.fields then Some(v.fields[key]) else None
  }

  /** `.and_then(Value::as_str)`. */
  function AsStr(v: Option<Value>): Option<string> {
    match v
    case Some(Str(s)) => Some(s)
    case _ => None
  }
}
