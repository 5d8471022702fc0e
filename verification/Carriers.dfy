/**
 Where the bytes of a tool result sit in a serialized request: the text of every
 part of a value is a contiguous piece of the text of the whole.
 */
module Carriers {
  import opened Prelude
  import opened Text
  import opened Json
  import opened Comparison

  // ---- Parts of a serialized value ----------------------------------------------------

  lemma {:induction false} WriteTextAppend(s: string, x: string, y: string)
    ensures WriteText(s, x) + y == WriteText(s, x + y)
  {
    if s != "" {
      WriteTextAppend(s[1..], x, y);
      AppendAssociative(EscapedChar(s[0]), WriteText(s[1..], x), y);
    }
  }

  lemma WriteStringAppend(s: string, x: string, y: string)
    ensures WriteString(s, x) + y == WriteString(s, x + y)
  {
    AppendAssociative(['"'], x, y);
    WriteTextAppend(s, ['"'] + x, y);
    AppendAssociative(['"'], WriteText(s, ['"'] + x), y);
  }

  /** What follows a value's text is simply appended to it. */
  lemma {:induction false} WriteAppend(v: Value, x: string, y: string)
    ensures Write(v, x) + y == Write(v, x + y)
    decreases v, 1, 0
  {
    match v
    case Null => AppendAssociative("null", x, y);
    case Bool(flag) => if flag { AppendAssociative("true", x, y); } else { AppendAssociative("false", x, y); }
    case Number(text) => AppendAssociative(text, x, y);
    case Str(s) => WriteStringAppend(s, x, y);
    case Array(items) =>
      ItemsAppend(items, true, [']'] + x, y);
      AppendAssociative([']'], x, y);
      AppendAssociative(['['], WriteItems(items, true, [']'] + x), y);
    case Object(fields) =>
      var keys := SortedStrings(fields.Keys);
      FieldsAppend(v, keys, true, ['}'] + x, y);
      AppendAssociative(['}'], x, y);
      AppendAssociative(['{'], WriteFields(v, keys, true, ['}'] + x), y);
  }

  lemma {:induction false} ItemsAppend(items: seq<Value>, first: bool, x: string, y: string)
    ensures WriteItems(items, first, x) + y == WriteItems(items, first, x + y)
    decreases items, 0, 0
  {
    if items != [] {
      ItemsAppend(items[1..], false, x, y);
      WriteAppend(items[0], WriteItems(items[1..], false, x), y);
      AppendAssociative([','], Write(items[0], WriteItems(items[1..], false, x)), y);
    }
  }

  lemma {:induction false} FieldsAppend(v: Value, keys: seq<string>, first: bool, x: string, y: string)
    requires v.Object? && forall k :: k in keys ==> k in v.fields
    ensures WriteFields(v, keys, first, x) + y == WriteFields(v, keys, first, x + y)
    decreases v, 0, |keys|
  {
    if keys != [] {
      var rest := WriteFields(v, keys[1..], false, x);
      var written := Write(v.fields[keys[0]], rest);
      FieldsAppend(v, keys[1..], false, x, y);
      WriteAppend(v.fields[keys[0]], rest, y);
      AppendAssociative([':'], written, y);
      WriteStringAppend(keys[0], [':'] + written, y);
      AppendAssociative([','], WriteString(keys[0], [':'] + written), y);
    }
  }

  lemma WriteIsText(v: Value, rest: string)
    ensures Write(v, rest) == Serialize(v) + rest
  {
    WriteAppend(v, "", rest);
    assert "" + rest == rest;
  }

  lemma OccursSelf(x: string)
    ensures Occurs(x, x)
  {
    assert OccursAt(x, x, 0);
  }

  lemma OccursLater(x: string, p: string, s: string)
    requires Occurs(x, s)
    ensures Occurs(x, p + s)
  {
    var i :| 0 <= i <= |s| && OccursAt(x, s, i);
    assert (p + s)[|p| + i..|p| + i + |x|] == s[i..i + |x|];
    assert OccursAt(x, p + s, |p| + i);
  }

  lemma OccursEarlier(x: string, p: string, s: string)
    requires Occurs(x, p)
    ensures Occurs(x, p + s)
  {
    var i :| 0 <= i <= |p| && OccursAt(x, p, i);
    assert (p + s)[i..i + |x|] == p[i..i + |x|];
    assert OccursAt(x, p + s, i);
  }

  lemma SliceOfSlice(z: string, a: nat, b: nat, i: nat, j: nat)
    requires a <= b <= |z| && i <= j <= b - a
    ensures z[a..b][i..j] == z[a + i..a + j]
  {
    forall k | 0 <= k < j - i ensures z[a..b][i..j][k] == z[a + i..a + j][k] {}
  }

  lemma OccursThrough(x: string, y: string, z: string)
    requires Occurs(x, y) && Occurs(y, z)
    ensures Occurs(x, z)
  {
    var i :| 0 <= i <= |y| && OccursAt(x, y, i);
    var j :| 0 <= j <= |z| && OccursAt(y, z, j);
    SliceOfSlice(z, j, j + |y|, i, i + |x|);
    assert OccursAt(x, z, j + i);
  }

  lemma {:induction false} ItemOccurs(items: seq<Value>, i: nat, first: bool, rest: string)
    requires i < |items|
    ensures Occurs(Serialize(items[i]), WriteItems(items, first, rest))
  {
    hide Occurs, Write, Serialize;
    var tail := WriteItems(items[1..], false, rest);
    WriteIsText(items[0], tail);
    var text := Serialize(items[i]);
    if i == 0 {
      OccursSelf(text);
      OccursEarlier(text, text, tail);
    } else {
      ItemOccurs(items[1..], i - 1, false, rest);
      OccursLater(text, Serialize(items[0]), tail);
    }
    OccursLater(text, [','], Write(items[0], tail));
  }

  lemma {:induction false} FieldOccurs(v: Value, keys: seq<string>, k: string, first: bool, rest: string)
    requires v.Object? && (forall j :: j in keys ==> j in v.fields) && k in keys
    ensures Occurs(Serialize(v.fields[k]), WriteFields(v, keys, first, rest))
    decreases |keys|
  {
    hide Occurs, Write, Serialize, WriteString;
    var tail := WriteFields(v, keys[1..], false, rest);
    var value := v.fields[keys[0]];
    WriteIsText(value, tail);
    var text := Serialize(v.fields[k]);
    if k == keys[0] {
      OccursSelf(text);
      OccursEarlier(text, text, tail);
    } else {
      FieldOccurs(v, keys[1..], k, false, rest);
      OccursLater(text, Serialize(value), tail);
    }
    OccursLater(text, [':'], Write(value, tail));
    StringThen(keys[0], [':'] + Write(value, tail));
    OccursLater(text, WriteString(keys[0], ""), [':'] + Write(value, tail));
    OccursLater(text, [','], WriteString(keys[0], [':'] + Write(value, tail)));
  }

  lemma StringThen(s: string, rest: string)
    ensures WriteString(s, rest) == WriteString(s, "") + rest
  {
    WriteStringAppend(s, "", rest);
    assert "" + rest == rest;
  }

  lemma ItemInside(items: seq<Value>, i: nat)
    requires i < |items|
    ensures Occurs(Serialize(items[i]), Serialize(Array(items)))
  {
    hide Occurs;
    ItemOccurs(items, i, true, [']'] + "");
    OccursLater(Serialize(items[i]), ['['], WriteItems(items, true, [']'] + ""));
  }

  lemma FieldInside(v: Value, k: string)
    requires v.Object? && k in v.fields
    ensures Occurs(Serialize(v.fields[k]), Serialize(v))
  {
    hide Occurs;
    var keys := SortedStrings(v.fields.Keys);
    FieldOccurs(v, keys, k, true, ['}'] + "");
    OccursLater(Serialize(v.fields[k]), ['{'], WriteFields(v, keys, true, ['}'] + ""));
  }

  // ---- Tool-result carriers ----------------------------------------------------------

  /** A tool result by its call id, and the bytes of the object that carries it. */
  datatype Carrier = Carrier(id: string, bytes: string)

  predicate IsCarrier(v: Value) {
    AsStr(Get(v, "role")) == Some("tool")
    || AsStr(Get(v, "type")) == Some("tool_result") || AsStr(Get(v, "type")) == Some("function_call_output")
  }

  function FirstString(v: Value, fields: seq<string>): Option<string> {
    if fields == [] then None
    else if AsStr(Get(v, fields[0])).Some? then AsStr(Get(v, fields[0]))
    else FirstString(v, fields[1..])
  }

  function CarrierId(v: Value): Option<string> { FirstString(v, ["tool_call_id", "tool_use_id", "call_id", "id"]) }

  /** All carriers in document order; nothing inside a carrier counts again. */
  function CarrierList(v: Value): seq<Carrier>
    decreases v, 1, 0
  {
    match v
    case Array(items) => CarrierItems(items)
    case Object(fields) =>
      if IsCarrier(v) then if CarrierId(v).Some? then [Carrier(CarrierId(v).value, Serialize(v))] else []
      else CarrierFields(v, SortedStrings(fields.Keys))
    case _ => []
  }

  function CarrierItems(items: seq<Value>): seq<Carrier>
    decreases items, 0, 0
  {
    if items == [] then [] else CarrierList(items[0]) + CarrierItems(items[1..])
  }

  function CarrierFields(v: Value, keys: seq<string>): seq<Carrier>
    requires v.Object? && forall k :: k in keys ==> k in v.fields
    decreases v, 0, |keys|
  {
    if keys == [] then [] else CarrierList(v.fields[keys[0]]) + CarrierFields(v, keys[1..])
  }

  /** Insert in order: the last carrier of an id stays. */
  function InsertAll(output: map<string, string>, list: seq<Carrier>): map<string, string>
    decreases |list|
  {
    if list == [] then output else InsertAll(output[list[0].id := list[0].bytes], list[1..])
  }

  function CarriersOf(v: Value): map<string, string> { InsertAll(map[], CarrierList(v)) }

  lemma {:induction false} InsertAllAppend(output: map<string, string>, a: seq<Carrier>, b: seq<Carrier>)
    ensures InsertAll(output, a + b) == InsertAll(InsertAll(output, a), b)
    decreases |a|
  {
    if a == [] {
      assert a + b == b;
    } else {
      assert (a + b)[0] == a[0] && (a + b)[1..] == a[1..] + b;
      InsertAllAppend(output[a[0].id := a[0].bytes], a[1..], b);
    }
  }

  /** The recursive walk of `tool_result_carriers`, filling one map. */
  method Visit(v: Value, output: map<string, string>) returns (filled: map<string, string>)
    ensures filled == InsertAll(output, CarrierList(v))
    decreases v
  {
    hide Serialize, InsertAll;
    filled := output;
    NothingInserted(output);
    match v {
      case Array(items) =>
        for i := 0 to |items|
          invariant InsertAll(output, CarrierItems(items)) == InsertAll(filled, CarrierItems(items[i..]))
        {
          assert items[i..][0] == items[i] && items[i..][1..] == items[i + 1..];
          InsertAllAppend(filled, CarrierList(items[i]), CarrierItems(items[i + 1..]));
          filled := Visit(items[i], filled);
        }
        NothingInserted(filled);
      case Object(fields) =>
        if IsCarrier(v) {
          var id := CarrierId(v);
          if id.Some? {
            OneInserted(output, Carrier(id.value, Serialize(v)));
            filled := filled[id.value := Serialize(v)];
          }
          return;
        }
        var keys := SortedStrings(fields.Keys);
        for i := 0 to |keys|
          invariant InsertAll(output, CarrierFields(v, keys)) == InsertAll(filled, CarrierFields(v, keys[i..]))
        {
          assert keys[i..][0] == keys[i] && keys[i..][1..] == keys[i + 1..];
          InsertAllAppend(filled, CarrierList(fields[keys[i]]), CarrierFields(v, keys[i + 1..]));
          filled := Visit(fields[keys[i]], filled);
        }
        NothingInserted(filled);
      case _ =>
    }
  }

  lemma NothingInserted(output: map<string, string>)
    ensures InsertAll(output, []) == output
  {}

  lemma OneInserted(output: map<string, string>, c: Carrier)
    ensures InsertAll(output, [c]) == output[c.id := c.bytes]
  {}

  /** `tool_result_carriers`. */
  method ToolResultCarriers(v: Value) returns (carriers: map<string, string>)
    ensures carriers == CarriersOf(v)
  {
    carriers := Visit(v, map[]);
  }

  /** Each entry is the last carrier of its id. */
  lemma {:induction false} LastCarrierStays(output: map<string, string>, list: seq<Carrier>, id: string)
    ensures id in InsertAll(output, list) <==> id in output || exists c :: c in list && c.id == id
    ensures id in InsertAll(output, list) ==>
              || (id in output && InsertAll(output, list)[id] == output[id] && forall c | c in list :: c.id != id)
              || exists n :: LastOf(list, id, n) && InsertAll(output, list)[id] == list[n].bytes
    decreases |list|
  {
    if list != [] {
      var output' := output[list[0].id := list[0].bytes];
      LastCarrierStays(output', list[1..], id);
      assert forall c :: c in list <==> c == list[0] || c in list[1..];
      if exists n :: LastOf(list[1..], id, n) && InsertAll(output', list[1..])[id] == list[1..][n].bytes {
        var n :| LastOf(list[1..], id, n) && InsertAll(output', list[1..])[id] == list[1..][n].bytes;
        assert LastOf(list, id, n + 1);
      } else if list[0].id == id {
        assert LastOf(list, id, 0);
      }
    }
  }

  predicate LastOf(list: seq<Carrier>, id: string, n: int) {
    0 <= n < |list| && list[n].id == id && forall j | n < j < |list| :: list[j].id != id
  }

  /** A carrier's bytes occur in the serialized request. */
  lemma {:induction false} CarrierOccurs(v: Value, c: Carrier)
    requires c in CarrierList(v)
    ensures Occurs(c.bytes, Serialize(v))
    decreases v, 1, 0
  {
    hide Occurs, Serialize;
    match v
    case Array(items) =>
      var i := ItemWith(items, c);
      CarrierOccurs(items[i], c);
      ItemInside(items, i);
      OccursThrough(c.bytes, Serialize(items[i]), Serialize(v));
    case Object(fields) =>
      if IsCarrier(v) {
        OccursSelf(Serialize(v));
      } else {
        var k := FieldWith(v, SortedStrings(fields.Keys), c);
        CarrierOccurs(fields[k], c);
        FieldInside(v, k);
        OccursThrough(c.bytes, Serialize(fields[k]), Serialize(v));
      }
  }

  lemma {:induction false} ItemWith(items: seq<Value>, c: Carrier) returns (i: nat)
    requires c in CarrierItems(items)
    ensures i < |items| && c in CarrierList(items[i])
  {
    if c in CarrierList(items[0]) {
      i := 0;
    } else {
      i := ItemWith(items[1..], c);
      i := i + 1;
    }
  }

  lemma {:induction false} FieldWith(v: Value, keys: seq<string>, c: Carrier) returns (k: string)
    requires v.Object? && (forall j :: j in keys ==> j in v.fields) && c in CarrierFields(v, keys)
    ensures k in keys && c in CarrierList(v.fields[k])
    decreases |keys|
  {
    if c in CarrierList(v.fields[keys[0]]) {
      k := keys[0];
    } else {
      k := FieldWith(v, keys[1..], c);
    }
  }

  /** Every tool result that a request carries is a contiguous part of the serialized request. */
  lemma CarriersInRequest(v: Value, id: string)
    requires id in CarriersOf(v)
    ensures Occurs(CarriersOf(v)[id], Serialize(v))
  {
    hide Occurs, Serialize, InsertAll, CarrierList;
    LastCarrierStays(map[], CarrierList(v), id);
    var n :| LastOf(CarrierList(v), id, n) && InsertAll(map[], CarrierList(v))[id] == CarrierList(v)[n].bytes;
    CarrierOccurs(v, CarrierList(v)[n]);
  }

  // ---- Where carriers are -------------------------------------------------------------

  /** The field holds this text. */
  predicate Holds(v: Value, field: string, text: string) { v.Object? && field in v.fields && v.fields[field] == Str(text) }

  predicate HoldsText(v: Value, field: string) { v.Object? && field in v.fields && v.fields[field].Str? }

  /** A tool result in any of the dialects, and nothing else. */
  lemma CarrierMeans(v: Value)
    ensures IsCarrier(v)
       <==> Holds(v, "role", "tool") || Holds(v, "type", "tool_result") || Holds(v, "type", "function_call_output")
  {}

  /** The fields that may name the call, the first that holds a text naming it. */
  lemma CarrierIdMeans(v: Value)
    ensures var fields := ["tool_call_id", "tool_use_id", "call_id", "id"];
            && (CarrierId(v).None? <==> forall i | 0 <= i < |fields| :: !HoldsText(v, fields[i]))
            && forall i | 0 <= i < |fields| && HoldsText(v, fields[i])
                       && (forall j | 0 <= j < i :: !HoldsText(v, fields[j])) ::
                 CarrierId(v) == Some(v.fields[fields[i]].chars)
  {
    FirstStringMeans(v, ["tool_call_id", "tool_use_id", "call_id", "id"]);
  }

  lemma {:induction false} FirstStringMeans(v: Value, fields: seq<string>)
    ensures FirstString(v, fields).None? <==> forall i | 0 <= i < |fields| :: !HoldsText(v, fields[i])
    ensures forall i | 0 <= i < |fields| && HoldsText(v, fields[i]) && (forall j | 0 <= j < i :: !HoldsText(v, fields[j])) ::
              FirstString(v, fields) == Some(v.fields[fields[i]].chars)
  {
    if fields != [] {
      var rest := fields[1..];
      FirstStringMeans(v, rest);
      assert HoldsText(v, fields[0]) <==> AsStr(Get(v, fields[0])).Some?;
      assert forall i | 0 <= i < |rest| :: rest[i] == fields[i + 1];
      assert forall i | 1 <= i < |fields| :: fields[i] == rest[i - 1];
      forall i | 0 <= i < |fields| && HoldsText(v, fields[i]) && (forall j | 0 <= j < i :: !HoldsText(v, fields[j]))
        ensures FirstString(v, fields) == Some(v.fields[fields[i]].chars)
      {
        if i > 0 {
          assert !HoldsText(v, fields[0]) && HoldsText(v, rest[i - 1]);
          assert forall j | 0 <= j < i - 1 :: !HoldsText(v, rest[j]) by {
            assert forall j | 0 <= j < i - 1 :: rest[j] == fields[j + 1];
          }
        }
      }
    }
  }

  predicate Carries(v: Value, c: Carrier) { IsCarrier(v) && CarrierId(v) == Some(c.id) && c.bytes == Serialize(v) }

  /** At this path stands the object that carries it, and no carrier stands above. */
  ghost predicate CarrierAt(v: Value, path: seq<Step>, c: Carrier) {
    && Reach(Some(v), path).Some? && Carries(Reach(Some(v), path).value, c)
    && forall k | 0 <= k < |path| :: Reach(Some(v), path[..k]).Some? && !IsCarrier(Reach(Some(v), path[..k]).value)
  }

  lemma CarrierBelow(v: Value, path: seq<Step>, c: Carrier)
    requires path != []
    ensures CarrierAt(v, path, c)
       <==> !IsCarrier(v) && Child(Some(v), path[0]).Some? && CarrierAt(Child(Some(v), path[0]).value, path[1..], c)
  {
    hide IsCarrier, CarrierId, Serialize, Child;
    var child, rest := Child(Some(v), path[0]), path[1..];
    ReachFirst(Some(v), path, 0);
    ReachNothing(rest);
    if CarrierAt(v, path, c) {
      assert Reach(Some(v), path[..0]).Some?;
      forall k | 0 <= k < |rest| ensures Reach(child, rest[..k]).Some? && !IsCarrier(Reach(child, rest[..k]).value) {
        ReachFirst(Some(v), path, k);
        assert Reach(Some(v), path[..k + 1]).Some? && !IsCarrier(Reach(Some(v), path[..k + 1]).value);
      }
    }
    if !IsCarrier(v) && child.Some? && CarrierAt(child.value, rest, c) {
      forall k | 0 <= k < |path| ensures Reach(Some(v), path[..k]).Some? && !IsCarrier(Reach(Some(v), path[..k]).value) {
        if k > 0 {
          ReachFirst(Some(v), path, k - 1);
          assert Reach(child, rest[..k - 1]).Some? && !IsCarrier(Reach(child, rest[..k - 1]).value);
        }
      }
    }
  }

  lemma {:induction false} ItemListed(items: seq<Value>, i: nat, c: Carrier)
    requires i < |items| && c in CarrierList(items[i])
    ensures c in CarrierItems(items)
  {
    hide CarrierList;
    if i > 0 {
      ItemListed(items[1..], i - 1, c);
    }
  }

  lemma {:induction false} FieldListed(v: Value, keys: seq<string>, k: string, c: Carrier)
    requires v.Object? && (forall j :: j in keys ==> j in v.fields) && k in keys && c in CarrierList(v.fields[k])
    ensures c in CarrierFields(v, keys)
    decreases |keys|
  {
    hide CarrierList;
    if k != keys[0] {
      FieldListed(v, keys[1..], k, c);
    }
  }

  /** The walk lists what stands there. */
  lemma {:induction false} CarrierListed(v: Value, path: seq<Step>, c: Carrier)
    requires CarrierAt(v, path, c)
    ensures c in CarrierList(v)
    decreases |path|
  {
    hide IsCarrier, CarrierId, Serialize, CarrierAt;
    if path == [] {
      assert IsCarrier(v) && CarrierId(v) == Some(c.id) && c.bytes == Serialize(v) && v.Object? by { HereOnly(v, c); }
    } else {
      CarrierBelow(v, path, c);
      CarrierListed(Child(Some(v), path[0]).value, path[1..], c);
      match path[0]
      case Index(i) => ItemListed(v.items, i, c);
      case Key(k) =>
        var keys := SortedStrings(v.fields.Keys);
        assert k in keys;
        FieldListed(v, keys, k, c);
    }
  }

  lemma HereOnly(v: Value, c: Carrier)
    ensures CarrierAt(v, [], c) <==> IsCarrier(v) && CarrierId(v) == Some(c.id) && c.bytes == Serialize(v)
    ensures IsCarrier(v) ==> v.Object?
  {
    hide CarrierId, Serialize;
  }

  /** And whatever it lists stands somewhere. */
  lemma {:induction false} ListedCarrier(v: Value, c: Carrier) returns (path: seq<Step>)
    requires c in CarrierList(v)
    ensures CarrierAt(v, path, c)
    decreases v
  {
    hide IsCarrier, CarrierId, Serialize, CarrierAt;
    HereOnly(v, c);
    match v
    case Array(items) =>
      var i := ItemWith(items, c);
      var rest := ListedCarrier(items[i], c);
      path := [Index(i)] + rest;
      assert path[1..] == rest;
      CarrierBelow(v, path, c);
    case Object(fields) =>
      if IsCarrier(v) {
        path := [];
      } else {
        var k := FieldWith(v, SortedStrings(fields.Keys), c);
        var rest := ListedCarrier(fields[k], c);
        path := [Key(k)] + rest;
        assert path[1..] == rest;
        CarrierBelow(v, path, c);
      }
  }

  /** The tool results of a request are exactly those that stand in it, outside of other tool results. */
  lemma CarriersByPath(v: Value, c: Carrier)
    ensures c in CarrierList(v) <==> exists path :: CarrierAt(v, path, c)
  {
    hide CarrierAt, CarrierList;
    if c in CarrierList(v) {
      var path := ListedCarrier(v, c);
    }
    if path :| CarrierAt(v, path, c) {
      CarrierListed(v, path, c);
    }
  }
}
