/**
 The recursive comparison of two canonical request bodies: which leaves were
 compared, where, and what each side held.
 */
module Comparison {
  import opened Prelude
  import opened Sorting
  import opened Text
  import opened Json
  import opened Pointers

  datatype Occurrence = Occurrence(pointer: string, before: Option<Value>, after: Option<Value>)

  /** `Option<&Value>` equality. */
  predicate OptEq(before: Option<Value>, after: Option<Value>) {
    match (before, after)
    case (Some(b), Some(a)) => ValueEq(b, a)
    case (None, None) => true
    case (_, _) => false
  }

  function Texts(items: seq<Value>): (texts: seq<string>)
    ensures |texts| == |items| && forall i :: 0 <= i < |items| ==> texts[i] == Serialize(items[i])
  {
    if items == [] then [] else [Serialize(items[0])] + Texts(items[1..])
  }

  /** Different arrays of one length whose sorted element texts agree. */
  predicate PureArrayReorder(before: seq<Value>, after: seq<Value>) {
    && !ValueEq(Array(before), Array(after))
    && |before| == |after|
    && Arranged(Texts(before), LexLe) == Arranged(Texts(after), LexLe)
  }

  /** How many elements of the list have the given text, or are the given value. */
  lemma {:induction false} TextMultiplicity(items: seq<Value>, v: Value)
    ensures multiset(Texts(items))[Serialize(v)] == multiset(items)[v]
  {
    hide Serialize;
    if items != [] {
      TextMultiplicity(items[1..], v);
      assert items == [items[0]] + items[1..];
      CountCons(items[0], items[1..], v);
      CountCons(Serialize(items[0]), Texts(items[1..]), Serialize(v));
      if Serialize(items[0]) == Serialize(v) {
        SerializeInjective(items[0], v);
      }
    }
  }

  lemma CountCons<T>(x: T, s: seq<T>, y: T)
    ensures multiset([x] + s)[y] == multiset(s)[y] + if x == y then 1 else 0
  {}

  lemma TextOfSome(items: seq<Value>, t: string)
    requires t in Texts(items)
    ensures exists v :: v in items && t == Serialize(v)
  {
    var i :| 0 <= i < |items| && Texts(items)[i] == t;
    assert items[i] in items;
  }

  lemma PermutedTexts(before: seq<Value>, after: seq<Value>)
    requires multiset(before) == multiset(after)
    ensures multiset(Texts(before)) == multiset(Texts(after))
  {
    hide Texts, Serialize;
    forall t ensures multiset(Texts(before))[t] == multiset(Texts(after))[t] {
      if t in Texts(before) || t in Texts(after) {
        TextOfSome(if t in Texts(before) then before else after, t);
        var v :| t == Serialize(v);
        TextMultiplicity(before, v);
        TextMultiplicity(after, v);
      }
    }
  }

  lemma PermutedValues(before: seq<Value>, after: seq<Value>)
    requires multiset(Texts(before)) == multiset(Texts(after))
    ensures multiset(before) == multiset(after)
  {
    forall v ensures multiset(before)[v] == multiset(after)[v] {
      TextMultiplicity(before, v);
      TextMultiplicity(after, v);
    }
  }

  /** Sorting the texts decides whether one array is a permutation of the other. */
  lemma ReorderIsPermutation(before: seq<Value>, after: seq<Value>)
    ensures PureArrayReorder(before, after)
       <==> multiset(before) == multiset(after) && !ValueEq(Array(before), Array(after))
  {
    LexOrder();
    SameArrangement(Texts(before), Texts(after), LexLe);
    if multiset(before) == multiset(after) {
      assert |before| == |multiset(before)| == |after|;
      PermutedTexts(before, after);
    }
    if multiset(Texts(before)) == multiset(Texts(after)) {
      PermutedValues(before, after);
    }
  }

  lemma ReorderSymmetric(before: seq<Value>, after: seq<Value>)
    ensures PureArrayReorder(before, after) == PureArrayReorder(after, before)
  {
    ValueEqSymmetric(Array(before), Array(after));
  }

  // ---- Specification: one step down, and the whole traversal -------------------

  datatype Step = Index(index: nat) | Key(key: string)

  function StepText(step: Step): string {
    match step
    case Index(i) => Decimal(i)
    case Key(k) => k
  }

  function Down(pointer: string, step: Step): string {
    match step
    case Index(i) => pointer + "/" + Decimal(i)
    case Key(k) => pointer + "/" + EscapeKey(k)
  }

  function Child(v: Option<Value>, step: Step): Option<Value> {
    match (v, step)
    case (Some(Array(items)), Index(i)) => if i < |items| then Some(items[i]) else None
    case (Some(Object(fields)), Key(k)) => if k in fields then Some(fields[k]) else None
    case (_, _) => None
  }

  function Indices(n: nat): (steps: seq<Step>)
    ensures |steps| == n && forall i :: 0 <= i < n ==> steps[i] == Index(i)
  {
    if n == 0 then [] else Indices(n - 1) + [Index(n - 1)]
  }

  function KeySteps(keys: seq<string>): (steps: seq<Step>)
    ensures |steps| == |keys| && forall i :: 0 <= i < |keys| ==> steps[i] == Key(keys[i])
  {
    if keys == [] then [] else [Key(keys[0])] + KeySteps(keys[1..])
  }

  function Max(m: nat, n: nat): nat { if m < n then n else m }

  function ArrayLength(v: Option<Value>): nat {
    if v.Some? && v.value.Array? then |v.value.items| else 0
  }

  function ObjectKeys(v: Option<Value>): set<string> {
    if v.Some? && v.value.Object? then v.value.fields.Keys else {}
  }

  predicate NoneOrArray(v: Option<Value>) { v.Some? ==> v.value.Array? }

  predicate NoneOrObject(v: Option<Value>) { v.Some? ==> v.value.Object? }

  /** The children that the traversal visits, in order: none when the kinds differ. */
  function Steps(before: Option<Value>, after: Option<Value>): seq<Step> {
    if NoneOrArray(before) && NoneOrArray(after) then
      Indices(Max(ArrayLength(before), ArrayLength(after)))
    else if NoneOrObject(before) && NoneOrObject(after) then
      KeySteps(SortedStrings(ObjectKeys(before) + ObjectKeys(after)))
    else []
  }

  predicate ReorderedArrays(before: Option<Value>, after: Option<Value>) {
    match (before, after)
    case (Some(Array(b)), Some(Array(a))) => PureArrayReorder(b, a)
    case (_, _) => false
  }

  predicate ValidSteps(before: Option<Value>, after: Option<Value>, steps: seq<Step>) {
    forall i | 0 <= i < |steps| :: Child(before, steps[i]).Some? || Child(after, steps[i]).Some?
  }

  lemma StepChild(v: Option<Value>, step: Step)
    ensures NoneOrArray(v) && step.Index? ==>
              Child(v, step) == if step.index < ArrayLength(v) then Some(v.value.items[step.index]) else None
    ensures NoneOrObject(v) && step.Key? ==>
              Child(v, step) == if step.key in ObjectKeys(v) then Some(v.value.fields[step.key]) else None
  {}

  lemma IndexStepsValid(before: Option<Value>, after: Option<Value>, n: nat)
    requires NoneOrArray(before) && NoneOrArray(after) && n <= Max(ArrayLength(before), ArrayLength(after))
    ensures ValidSteps(before, after, Indices(n)) && Distinct(Indices(n))
  {}

  lemma KeyStepsValid(before: Option<Value>, after: Option<Value>, keys: seq<string>)
    requires NoneOrObject(before) && NoneOrObject(after) && Distinct(keys)
    requires forall i :: 0 <= i < |keys| ==> keys[i] in ObjectKeys(before) || keys[i] in ObjectKeys(after)
    ensures ValidSteps(before, after, KeySteps(keys)) && Distinct(KeySteps(keys))
  {
    hide KeySteps;
    var steps := KeySteps(keys);
    forall i | 0 <= i < |steps| ensures Child(before, steps[i]).Some? || Child(after, steps[i]).Some? {
      StepChild(before, steps[i]);
      StepChild(after, steps[i]);
    }
  }

  lemma StepsValid(before: Option<Value>, after: Option<Value>)
    ensures ValidSteps(before, after, Steps(before, after)) && Distinct(Steps(before, after))
  {
    hide SortedStrings;
    if NoneOrArray(before) && NoneOrArray(after) {
      IndexStepsValid(before, after, Max(ArrayLength(before), ArrayLength(after)));
    } else if NoneOrObject(before) && NoneOrObject(after) {
      var keys := SortedStrings(ObjectKeys(before) + ObjectKeys(after));
      SortedStringsInOrder(ObjectKeys(before) + ObjectKeys(after));
      assert forall i :: 0 <= i < |keys| ==> keys[i] in keys;
      KeyStepsValid(before, after, keys);
    }
  }

  function Held(v: Option<Value>): Value { if v.Some? then v.value else Null }

  lemma ChildSmaller(v: Option<Value>, step: Step)
    ensures Child(v, step).Some? ==> v.Some? && Child(v, step).value < v.value
  {}

  /** The occurrences of comparing two optional values found at `pointer`. */
  function Visit(before: Option<Value>, after: Option<Value>, pointer: string): seq<Occurrence>
    decreases before.Some?, after.Some?, Held(before), Held(after), 1, 0
  {
    if before.None? && after.None? then []
    else if Steps(before, after) == [] || ReorderedArrays(before, after) then
      [Occurrence(pointer, before, after)]
    else
      StepsValid(before, after);
      VisitSteps(before, after, Steps(before, after), pointer)
  }

  function VisitSteps(before: Option<Value>, after: Option<Value>, steps: seq<Step>, pointer: string)
    : seq<Occurrence>
    requires ValidSteps(before, after, steps)
    decreases before.Some?, after.Some?, Held(before), Held(after), 0, |steps|
  {
    if steps == [] then []
    else
      ChildSmaller(before, steps[0]);
      ChildSmaller(after, steps[0]);
      Visit(Child(before, steps[0]), Child(after, steps[0]), Down(pointer, steps[0]))
      + VisitSteps(before, after, steps[1..], pointer)
  }

  /** `comparison_occurrences` */
  function ComparisonOccurrences(before: Value, after: Value): seq<Occurrence> {
    Visit(Some(before), Some(after), "")
  }

  // ---- The traversal as the source runs it ---------------------------------------

  lemma VisitStepsCons(before: Option<Value>, after: Option<Value>, steps: seq<Step>, pointer: string)
    requires steps != [] && ValidSteps(before, after, steps)
    ensures VisitSteps(before, after, steps, pointer)
         == VisitStep(before, after, steps[0], pointer) + VisitSteps(before, after, steps[1..], pointer)
  {}

  function VisitStep(before: Option<Value>, after: Option<Value>, step: Step, pointer: string): seq<Occurrence> {
    Visit(Child(before, step), Child(after, step), Down(pointer, step))
  }

  /** What is still to be pushed when the children before `n` have been visited. */
  ghost predicate Pending(before: Option<Value>, after: Option<Value>, steps: seq<Step>, n: nat, pointer: string,
                          out: seq<Occurrence>, goal: seq<Occurrence>)
    requires ValidSteps(before, after, steps) && n <= |steps|
  {
    out + VisitSteps(before, after, steps[n..], pointer) == goal
  }

  lemma PendingStep(before: Option<Value>, after: Option<Value>, steps: seq<Step>, n: nat, pointer: string,
                    out: seq<Occurrence>, goal: seq<Occurrence>)
    requires ValidSteps(before, after, steps) && n < |steps|
    requires Pending(before, after, steps, n, pointer, out, goal)
    ensures Pending(before, after, steps, n + 1, pointer, out + VisitStep(before, after, steps[n], pointer), goal)
  {
    assert steps[n..][1..] == steps[n + 1..];
    VisitStepsCons(before, after, steps[n..], pointer);
    AppendAssociative(out, VisitStep(before, after, steps[n], pointer),
                      VisitSteps(before, after, steps[n + 1..], pointer));
  }

  lemma PendingStart(before: Option<Value>, after: Option<Value>, steps: seq<Step>, pointer: string,
                     out: seq<Occurrence>)
    requires ValidSteps(before, after, steps)
    ensures Pending(before, after, steps, 0, pointer, out, out + VisitSteps(before, after, steps, pointer))
  {
    assert steps[0..] == steps;
  }

  lemma PendingDone(before: Option<Value>, after: Option<Value>, steps: seq<Step>, pointer: string,
                    out: seq<Occurrence>, goal: seq<Occurrence>)
    requires ValidSteps(before, after, steps) && Pending(before, after, steps, |steps|, pointer, out, goal)
    ensures out == goal
  {
    assert out + [] == out;
  }

  function OnSide(value: Value, isBefore: bool, side: bool): Option<Value> {
    if isBefore == side then Some(value) else None
  }

  /** Push every leaf of a subtree that only one side has. */
  method PushPresentSubtree(value: Value, pointer: string, isBefore: bool, occurrences: seq<Occurrence>)
    returns (out: seq<Occurrence>)
    ensures out == occurrences + Visit(OnSide(value, isBefore, true), OnSide(value, isBefore, false), pointer)
    decreases value, 1
  {
    if value.Array? && value.items != [] {
      out := PushElements(value, pointer, isBefore, occurrences);
    } else if value.Object? && value.fields != map[] {
      var keys := SortedStrings(value.fields.Keys);
      UnionNonEmpty(value.fields, map[]);
      assert ObjectKeys(OnSide(value, isBefore, true)) + ObjectKeys(OnSide(value, isBefore, false)) == value.fields.Keys;
      VisitObjects(OnSide(value, isBefore, true), OnSide(value, isBefore, false), keys, pointer);
      out := PushFields(value, keys, pointer, isBefore, occurrences);
    } else if isBefore {
      out := occurrences + [Occurrence(pointer, Some(value), None)];
    } else {
      out := occurrences + [Occurrence(pointer, None, Some(value))];
    }
  }

  method PushElements(value: Value, pointer: string, isBefore: bool, occurrences: seq<Occurrence>)
    returns (out: seq<Occurrence>)
    requires value.Array?
    ensures var b, a := OnSide(value, isBefore, true), OnSide(value, isBefore, false);
            var steps := Indices(|value.items|);
            ValidSteps(b, a, steps) && out == occurrences + VisitSteps(b, a, steps, pointer)
    decreases value, 0
  {
    hide Visit, VisitSteps;
    ghost var b, a := OnSide(value, isBefore, true), OnSide(value, isBefore, false);
    ghost var steps := Indices(|value.items|);
    IndexStepsValid(b, a, |value.items|);
    ghost var goal := occurrences + VisitSteps(b, a, steps, pointer);
    PendingStart(b, a, steps, pointer, occurrences);
    out := occurrences;
    for i := 0 to |value.items|
      invariant Pending(b, a, steps, i, pointer, out, goal)
    {
      PendingStep(b, a, steps, i, pointer, out, goal);
      out := PushPresentSubtree(value.items[i], pointer + "/" + Decimal(i), isBefore, out);
    }
    PendingDone(b, a, steps, pointer, out, goal);
  }

  method PushFields(value: Value, keys: seq<string>, pointer: string, isBefore: bool, occurrences: seq<Occurrence>)
    returns (out: seq<Occurrence>)
    requires value.Object? && forall i :: 0 <= i < |keys| ==> keys[i] in value.fields
    ensures var b, a := OnSide(value, isBefore, true), OnSide(value, isBefore, false);
            ValidSteps(b, a, KeySteps(keys)) && out == occurrences + VisitSteps(b, a, KeySteps(keys), pointer)
    decreases value, 0
  {
    hide Visit, VisitSteps;
    ghost var b, a := OnSide(value, isBefore, true), OnSide(value, isBefore, false);
    ghost var steps := KeySteps(keys);
    ghost var goal := occurrences + VisitSteps(b, a, steps, pointer);
    PendingStart(b, a, steps, pointer, occurrences);
    out := occurrences;
    for i := 0 to |keys|
      invariant Pending(b, a, steps, i, pointer, out, goal)
    {
      PendingStep(b, a, steps, i, pointer, out, goal);
      out := PushPresentSubtree(value.fields[keys[i]], pointer + "/" + EscapeKey(keys[i]), isBefore, out);
    }
    PendingDone(b, a, steps, pointer, out, goal);
  }

  lemma ObjectSteps(before: Option<Value>, after: Option<Value>)
    requires NoneOrObject(before) && NoneOrObject(after) && ObjectKeys(before) + ObjectKeys(after) != {}
    ensures Steps(before, after) == KeySteps(SortedStrings(ObjectKeys(before) + ObjectKeys(after)))
    ensures Steps(before, after) != [] && !ReorderedArrays(before, after) && (before.Some? || after.Some?)
  {
    var k :| k in ObjectKeys(before) + ObjectKeys(after);
    assert k in SortedStrings(ObjectKeys(before) + ObjectKeys(after));
  }

  /** Two object sides with some key are visited key by key. */
  lemma VisitObjects(before: Option<Value>, after: Option<Value>, keys: seq<string>, pointer: string)
    requires NoneOrObject(before) && NoneOrObject(after) && ObjectKeys(before) + ObjectKeys(after) != {}
    requires keys == SortedStrings(ObjectKeys(before) + ObjectKeys(after))
    ensures forall i :: 0 <= i < |keys| ==> keys[i] in ObjectKeys(before) + ObjectKeys(after)
    ensures ValidSteps(before, after, KeySteps(keys))
    ensures Visit(before, after, pointer) == VisitSteps(before, after, KeySteps(keys), pointer)
  {
    ObjectSteps(before, after);
    StepsValid(before, after);
    assert forall i :: 0 <= i < |keys| ==> keys[i] in keys;
  }

  /** Scalars, values of different kinds and two empty containers are one occurrence. */
  lemma VisitLeaf(before: Value, after: Value, pointer: string)
    requires before.Array? && after.Array? ==> before.items == after.items == []
    requires before.Object? && after.Object? ==> before.fields == after.fields == map[]
    ensures Visit(Some(before), Some(after), pointer) == [Occurrence(pointer, Some(before), Some(after))]
  {
    if before.Object? && after.Object? {
      assert ObjectKeys(Some(before)) + ObjectKeys(Some(after)) == {};
    }
  }

  lemma VisitReordered(before: seq<Value>, after: seq<Value>, pointer: string)
    requires PureArrayReorder(before, after)
    ensures Visit(Some(Array(before)), Some(Array(after)), pointer)
         == [Occurrence(pointer, Some(Array(before)), Some(Array(after)))]
  {}

  lemma VisitArrays(before: seq<Value>, after: seq<Value>, steps: seq<Step>, pointer: string)
    requires !PureArrayReorder(before, after) && (before != [] || after != [])
    requires steps == Indices(Max(|before|, |after|))
    ensures ValidSteps(Some(Array(before)), Some(Array(after)), steps)
    ensures Visit(Some(Array(before)), Some(Array(after)), pointer)
         == VisitSteps(Some(Array(before)), Some(Array(after)), steps, pointer)
  {
    IndexStepsValid(Some(Array(before)), Some(Array(after)), Max(|before|, |after|));
  }

  /** The recursive visitor: it appends to the shared vector of occurrences. */
  method VisitInto(before: Option<Value>, after: Option<Value>, pointer: string, occurrences: seq<Occurrence>)
    returns (out: seq<Occurrence>)
    ensures out == occurrences + Visit(before, after, pointer)
    decreases before.Some?, after.Some?, Held(before), Held(after), 1
  {
    match (before, after)
    case (Some(Array(b)), Some(Array(a))) =>
      hide Visit;
      if PureArrayReorder(b, a) {
        VisitReordered(b, a, pointer);
        out := occurrences + [Occurrence(pointer, Some(Array(b)), Some(Array(a)))];
      } else if b == [] && a == [] {
        VisitLeaf(Array(b), Array(a), pointer);
        out := occurrences + [Occurrence(pointer, Some(Array([])), Some(Array([])))];
      } else {
        VisitArrays(b, a, Indices(Max(|b|, |a|)), pointer);
        out := VisitElements(before, after, pointer, occurrences);
      }
    case (Some(Object(b)), Some(Object(a))) =>
      hide Visit;
      if b == map[] && a == map[] {
        VisitLeaf(Object(b), Object(a), pointer);
        out := occurrences + [Occurrence(pointer, Some(Object(map[])), Some(Object(map[])))];
      } else {
        UnionNonEmpty(b, a);
        var keys := SortedStrings(b.Keys + a.Keys);
        VisitObjects(before, after, keys, pointer);
        out := VisitFields(before, after, keys, pointer, occurrences);
      }
    case (Some(b), Some(a)) =>
      VisitLeaf(b, a, pointer);
      out := occurrences + [Occurrence(pointer, Some(b), Some(a))];
    case (Some(b), None) =>
      out := PushPresentSubtree(b, pointer, true, occurrences);
    case (None, Some(a)) =>
      out := PushPresentSubtree(a, pointer, false, occurrences);
    case (None, None) =>
      out := occurrences;
  }

  method VisitElements(before: Option<Value>, after: Option<Value>, pointer: string, occurrences: seq<Occurrence>)
    returns (out: seq<Occurrence>)
    requires before.Some? && before.value.Array? && after.Some? && after.value.Array?
    ensures var steps := Indices(Max(|before.value.items|, |after.value.items|));
            ValidSteps(before, after, steps) && out == occurrences + VisitSteps(before, after, steps, pointer)
    decreases before.Some?, after.Some?, Held(before), Held(after), 0
  {
    hide Visit, VisitSteps;
    var b, a := before.value.items, after.value.items;
    ghost var steps := Indices(Max(|b|, |a|));
    IndexStepsValid(before, after, Max(|b|, |a|));
    ghost var goal := occurrences + VisitSteps(before, after, steps, pointer);
    PendingStart(before, after, steps, pointer, occurrences);
    out := occurrences;
    for i := 0 to Max(|b|, |a|)
      invariant Pending(before, after, steps, i, pointer, out, goal)
    {
      var x := if i < |b| then Some(b[i]) else None;
      var y := if i < |a| then Some(a[i]) else None;
      ChildSmaller(before, steps[i]);
      ChildSmaller(after, steps[i]);
      PendingStep(before, after, steps, i, pointer, out, goal);
      out := VisitInto(x, y, pointer + "/" + Decimal(i), out);
    }
    PendingDone(before, after, steps, pointer, out, goal);
  }

  lemma UnionNonEmpty(b: map<string, Value>, a: map<string, Value>)
    requires b != map[] || a != map[]
    ensures b.Keys + a.Keys != {}
  {
    if b != map[] {
      var k :| k in b;
    } else {
      var k :| k in a;
    }
  }

  method VisitFields(before: Option<Value>, after: Option<Value>, keys: seq<string>, pointer: string,
                     occurrences: seq<Occurrence>)
    returns (out: seq<Occurrence>)
    requires before.Some? && before.value.Object? && after.Some? && after.value.Object?
    requires forall i :: 0 <= i < |keys| ==> keys[i] in before.value.fields || keys[i] in after.value.fields
    ensures ValidSteps(before, after, KeySteps(keys))
    ensures out == occurrences + VisitSteps(before, after, KeySteps(keys), pointer)
    decreases before.Some?, after.Some?, Held(before), Held(after), 0
  {
    hide Visit, VisitSteps;
    ghost var steps := KeySteps(keys);
    ghost var goal := occurrences + VisitSteps(before, after, steps, pointer);
    var b, a := before.value.fields, after.value.fields;
    PendingStart(before, after, steps, pointer, occurrences);
    out := occurrences;
    for i := 0 to |keys|
      invariant Pending(before, after, steps, i, pointer, out, goal)
    {
      var x := if keys[i] in b then Some(b[keys[i]]) else None;
      var y := if keys[i] in a then Some(a[keys[i]]) else None;
      ChildSmaller(before, steps[i]);
      ChildSmaller(after, steps[i]);
      PendingStep(before, after, steps, i, pointer, out, goal);
      out := VisitInto(x, y, pointer + "/" + EscapeKey(keys[i]), out);
    }
    PendingDone(before, after, steps, pointer, out, goal);
  }

  // ---- Soundness and completeness --------------------------------------------------

  predicate ChildrenEqual(before: Option<Value>, after: Option<Value>, steps: seq<Step>) {
    forall i | 0 <= i < |steps| :: OptEq(Child(before, steps[i]), Child(after, steps[i]))
  }

  lemma ChildrenEqualCons(before: Option<Value>, after: Option<Value>, steps: seq<Step>)
    requires steps != []
    ensures ChildrenEqual(before, after, steps) <==>
            OptEq(Child(before, steps[0]), Child(after, steps[0])) && ChildrenEqual(before, after, steps[1..])
  {
    assert forall i | 1 <= i < |steps| :: steps[i] == steps[1..][i - 1];
  }

  lemma ArrayChildrenDecide(b: seq<Value>, a: seq<Value>)
    ensures ChildrenEqual(Some(Array(b)), Some(Array(a)), Indices(Max(|b|, |a|))) <==> ValueEq(Array(b), Array(a))
  {
    var before, after, steps := Some(Array(b)), Some(Array(a)), Indices(Max(|b|, |a|));
    if |b| != |a| {
      var i := if |b| < |a| then |b| else |a|;
      assert !OptEq(Child(before, steps[i]), Child(after, steps[i]));
    } else if ChildrenEqual(before, after, steps) {
      forall i | 0 <= i < |b| ensures ValueEq(b[i], a[i]) {
        assert OptEq(Child(before, steps[i]), Child(after, steps[i]));
      }
    }
  }

  lemma ObjectChildrenDecide(b: map<string, Value>, a: map<string, Value>, keys: seq<string>)
    requires forall k :: k in keys <==> k in b.Keys + a.Keys
    ensures ChildrenEqual(Some(Object(b)), Some(Object(a)), KeySteps(keys)) <==> ValueEq(Object(b), Object(a))
  {
    var before, after, steps := Some(Object(b)), Some(Object(a)), KeySteps(keys);
    if ChildrenEqual(before, after, steps) {
      forall k | k in b.Keys + a.Keys ensures k in b && k in a && ValueEq(b[k], a[k]) {
        assert k in keys;
        var i :| 0 <= i < |keys| && keys[i] == k;
        assert OptEq(Child(before, steps[i]), Child(after, steps[i]));
      }
      assert b.Keys == a.Keys;
    }
    if ValueEq(Object(b), Object(a)) {
      forall i | 0 <= i < |steps| ensures OptEq(Child(before, steps[i]), Child(after, steps[i])) {
        assert keys[i] in keys;
      }
    }
  }

  /** A pair of containers is equal exactly when all visited children are. */
  lemma ChildrenDecide(before: Option<Value>, after: Option<Value>)
    requires before.Some? || after.Some?
    requires Steps(before, after) != []
    ensures OptEq(before, after) <==> ChildrenEqual(before, after, Steps(before, after))
  {
    var steps := Steps(before, after);
    StepsValid(before, after);
    if before.None? || after.None? {
      assert !OptEq(Child(before, steps[0]), Child(after, steps[0]));
    } else if before.value.Array? {
      ArrayChildrenDecide(before.value.items, after.value.items);
    } else {
      var b, a := before.value.fields, after.value.fields;
      ObjectChildrenDecide(b, a, SortedStrings(b.Keys + a.Keys));
    }
  }

  predicate AllEqual(occurrences: seq<Occurrence>) {
    forall i | 0 <= i < |occurrences| :: OptEq(occurrences[i].before, occurrences[i].after)
  }

  lemma AllEqualAppend(a: seq<Occurrence>, b: seq<Occurrence>)
    ensures AllEqual(a + b) <==> AllEqual(a) && AllEqual(b)
  {
    forall i | 0 <= i < |a| ensures (a + b)[i] == a[i] {}
    forall i | 0 <= i < |b| ensures (a + b)[|a| + i] == b[i] {}
    if AllEqual(a + b) {
      forall i | 0 <= i < |b| ensures OptEq(b[i].before, b[i].after) {
        assert (a + b)[|a| + i] == b[i];
      }
    }
  }

  lemma {:induction false} VisitSound(before: Option<Value>, after: Option<Value>, pointer: string)
    requires before.Some? || after.Some?
    ensures Visit(before, after, pointer) != []
    ensures AllEqual(Visit(before, after, pointer)) <==> OptEq(before, after)
    decreases before.Some?, after.Some?, Held(before), Held(after), 1, 0
  {
    var steps := Steps(before, after);
    if ReorderedArrays(before, after) {
      assert !OptEq(before, after);
      assert Visit(before, after, pointer)[0] == Occurrence(pointer, before, after);
    } else if steps == [] {
      assert Visit(before, after, pointer)[0] == Occurrence(pointer, before, after);
    } else {
      StepsValid(before, after);
      VisitStepsSound(before, after, steps, pointer);
      ChildrenDecide(before, after);
    }
  }

  lemma {:induction false} VisitStepsSound(before: Option<Value>, after: Option<Value>, steps: seq<Step>,
                                           pointer: string)
    requires ValidSteps(before, after, steps)
    ensures steps != [] ==> VisitSteps(before, after, steps, pointer) != []
    ensures AllEqual(VisitSteps(before, after, steps, pointer)) <==> ChildrenEqual(before, after, steps)
    decreases before.Some?, after.Some?, Held(before), Held(after), 0, |steps|
  {
    if steps == [] {
      assert VisitSteps(before, after, steps, pointer) == [];
    } else {
      hide Visit, VisitSteps;
      ChildSmaller(before, steps[0]);
      ChildSmaller(after, steps[0]);
      VisitStepsCons(before, after, steps, pointer);
      VisitSound(Child(before, steps[0]), Child(after, steps[0]), Down(pointer, steps[0]));
      VisitStepsSound(before, after, steps[1..], pointer);
      AllEqualAppend(VisitStep(before, after, steps[0], pointer), VisitSteps(before, after, steps[1..], pointer));
      ChildrenEqualCons(before, after, steps);
    }
  }

  /**
   The comparison is never empty, and all its occurrences agree exactly when the
   two bodies are equal.
   */
  lemma ComparisonSoundAndComplete(before: Value, after: Value)
    ensures ComparisonOccurrences(before, after) != []
    ensures AllEqual(ComparisonOccurrences(before, after)) <==> ValueEq(before, after)
  {
    VisitSound(Some(before), Some(after), "");
  }

  // ---- Pointers of occurrences -------------------------------------------------------

  function PathText(path: seq<Step>): seq<string> {
    seq(|path|, i requires 0 <= i < |path| => StepText(path[i]))
  }

  lemma DownRenders(texts: seq<string>, step: Step)
    ensures Down(Render(texts), step) == Render(texts + [StepText(step)])
  {
    RenderAppend(texts, [StepText(step)]);
    assert Render([StepText(step)]) == "/" + EscapeKey(StepText(step)) + Render([]);
    if step.Index? {
      var d := Decimal(step.index);
      forall i | 0 <= i < |d| ensures d[i] != '~' && d[i] != '/' { assert IsDigit(d[i]); }
      PlainKey(d);
    }
    assert Render(texts) + ("/" + EscapeKey(StepText(step))) == Render(texts) + "/" + EscapeKey(StepText(step));
  }

  /** What a body holds at a path, read with the pointer's own reference tokens. */
  function Reach(v: Option<Value>, path: seq<Step>): Option<Value>
    decreases |path|
  {
    if path == [] then v else Reach(Child(v, path[0]), path[1..])
  }

  /** The occurrence lies below `texts` and reports what both sides hold there. */
  ghost predicate Reports(o: Occurrence, texts: seq<string>, before: Option<Value>, after: Option<Value>) {
    exists path: seq<Step> ::
      && o.pointer == Render(texts + PathText(path))
      && o.before == Reach(before, path) && o.after == Reach(after, path)
  }

  ghost predicate Below(o: Occurrence, texts: seq<string>) {
    exists rest: seq<string> :: o.pointer == Render(texts + rest)
  }

  lemma BelowOneChild(o: Occurrence, texts: seq<string>, s: string, t: string)
    requires Below(o, texts + [s]) && Below(o, texts + [t])
    ensures s == t
  {
    var x: seq<string> :| o.pointer == Render(texts + [s] + x);
    var y: seq<string> :| o.pointer == Render(texts + [t] + y);
    RenderInjective(texts + [s] + x, texts + [t] + y);
    assert (texts + [s] + x)[|texts|] == s && (texts + [t] + y)[|texts|] == t;
  }

  lemma ReportsAtChild(o: Occurrence, texts: seq<string>, step: Step, before: Option<Value>, after: Option<Value>)
    requires Reports(o, texts + [StepText(step)], Child(before, step), Child(after, step))
    ensures Reports(o, texts, before, after) && Below(o, texts + [StepText(step)])
  {
    var path: seq<Step> :|
      && o.pointer == Render(texts + [StepText(step)] + PathText(path))
      && o.before == Reach(Child(before, step), path) && o.after == Reach(Child(after, step), path);
    var whole := [step] + path;
    assert whole[0] == step && whole[1..] == path;
    assert PathText(whole) == [StepText(step)] + PathText(path);
    assert texts + PathText(whole) == texts + [StepText(step)] + PathText(path);
  }

  lemma ReportsHere(texts: seq<string>, before: Option<Value>, after: Option<Value>)
    ensures Reports(Occurrence(Render(texts), before, after), texts, before, after)
  {
    var path: seq<Step> := [];
    assert PathText(path) == [] && texts + PathText(path) == texts;
    assert Reach(before, path) == before && Reach(after, path) == after;
  }

  predicate DistinctPointers(occurrences: seq<Occurrence>) {
    forall i, j | 0 <= i < j < |occurrences| :: occurrences[i].pointer != occurrences[j].pointer
  }

  lemma StepTextsDiffer(before: Option<Value>, after: Option<Value>, s: Step, t: Step)
    requires s in Steps(before, after) && t in Steps(before, after) && s != t
    ensures StepText(s) != StepText(t)
  {
    if s.Index? && t.Index? && Decimal(s.index) == Decimal(t.index) {
      DecimalInjective(s.index, t.index);
    }
  }

  lemma {:induction false} VisitPointers(before: Option<Value>, after: Option<Value>, texts: seq<string>)
    ensures DistinctPointers(Visit(before, after, Render(texts)))
    ensures forall o | o in Visit(before, after, Render(texts)) :: Reports(o, texts, before, after)
    decreases before.Some?, after.Some?, Held(before), Held(after), 1, 0
  {
    var steps := Steps(before, after);
    if before.None? && after.None? {
    } else if steps == [] || ReorderedArrays(before, after) {
      ReportsHere(texts, before, after);
    } else {
      StepsValid(before, after);
      VisitStepsPointers(before, after, steps, texts);
    }
  }

  lemma {:induction false} VisitStepsPointers(before: Option<Value>, after: Option<Value>, steps: seq<Step>,
                                              texts: seq<string>)
    requires ValidSteps(before, after, steps) && Distinct(steps)
    requires forall s | s in steps :: s in Steps(before, after)
    ensures DistinctPointers(VisitSteps(before, after, steps, Render(texts)))
    ensures forall o | o in VisitSteps(before, after, steps, Render(texts)) ::
              Reports(o, texts, before, after) && exists s | s in steps :: Below(o, texts + [StepText(s)])
    decreases before.Some?, after.Some?, Held(before), Held(after), 0, |steps|
  {
    if steps != [] {
      var s := steps[0];
      assert s in steps;
      ChildSmaller(before, s);
      ChildSmaller(after, s);
      DownRenders(texts, s);
      var below := texts + [StepText(s)];
      var head := Visit(Child(before, s), Child(after, s), Render(below));
      var tail := VisitSteps(before, after, steps[1..], Render(texts));
      VisitPointers(Child(before, s), Child(after, s), below);
      VisitStepsPointers(before, after, steps[1..], texts);
      forall o | o in head ensures Reports(o, texts, before, after) && Below(o, below) {
        ReportsAtChild(o, texts, s, before, after);
      }
      forall x, y | x in head && y in tail ensures x.pointer != y.pointer {
        var t :| t in steps[1..] && Below(y, texts + [StepText(t)]);
        StepTextsDiffer(before, after, s, t);
        if x.pointer == y.pointer {
          assert Below(y, below);
          BelowOneChild(y, texts, StepText(s), StepText(t));
        }
      }
      forall o | o in head + tail
        ensures Reports(o, texts, before, after) && exists s | s in steps :: Below(o, texts + [StepText(s)])
      {
        if o !in head {
          var t :| t in steps[1..] && Below(o, texts + [StepText(t)]);
          assert t in steps;
        }
      }
      assert VisitSteps(before, after, steps, Render(texts)) == head + tail;
    }
  }

  /**
   No two occurrences share a pointer, and each one reports what the two bodies
   hold at its own pointer.
   */
  lemma ComparisonPointers(before: Value, after: Value)
    ensures DistinctPointers(ComparisonOccurrences(before, after))
    ensures forall o | o in ComparisonOccurrences(before, after) :: Reports(o, [], Some(before), Some(after))
  {
    VisitPointers(Some(before), Some(after), []);
  }

  // ---- Swapping the two sides -----------------------------------------------------------

  function Swapped(occurrences: seq<Occurrence>): seq<Occurrence> {
    seq(|occurrences|, i requires 0 <= i < |occurrences| =>
      Occurrence(occurrences[i].pointer, occurrences[i].after, occurrences[i].before))
  }

  lemma SwappedAppend(a: seq<Occurrence>, b: seq<Occurrence>)
    ensures Swapped(a + b) == Swapped(a) + Swapped(b)
  {}

  lemma StepsSymmetric(before: Option<Value>, after: Option<Value>)
    ensures Steps(before, after) == Steps(after, before)
    ensures ReorderedArrays(before, after) == ReorderedArrays(after, before)
  {
    assert ObjectKeys(before) + ObjectKeys(after) == ObjectKeys(after) + ObjectKeys(before);
    match (before, after)
    case (Some(Array(b)), Some(Array(a))) => ReorderSymmetric(b, a);
    case (_, _) =>
  }

  lemma {:induction false} VisitSwapped(before: Option<Value>, after: Option<Value>, pointer: string)
    ensures Visit(after, before, pointer) == Swapped(Visit(before, after, pointer))
    decreases before.Some?, after.Some?, Held(before), Held(after), 1, 0
  {
    StepsSymmetric(before, after);
    var steps := Steps(before, after);
    StepsValid(before, after);
    StepsValid(after, before);
    if before.Some? || after.Some? {
      if steps != [] && !ReorderedArrays(before, after) {
        VisitStepsSwapped(before, after, steps, pointer);
      }
    }
  }

  lemma {:induction false} VisitStepsSwapped(before: Option<Value>, after: Option<Value>, steps: seq<Step>,
                                             pointer: string)
    requires ValidSteps(before, after, steps) && ValidSteps(after, before, steps)
    ensures VisitSteps(after, before, steps, pointer) == Swapped(VisitSteps(before, after, steps, pointer))
    decreases before.Some?, after.Some?, Held(before), Held(after), 0, |steps|
  {
    if steps != [] {
      var s := steps[0];
      ChildSmaller(before, s);
      ChildSmaller(after, s);
      VisitSwapped(Child(before, s), Child(after, s), Down(pointer, s));
      VisitStepsSwapped(before, after, steps[1..], pointer);
      VisitStepsCons(before, after, steps, pointer);
      VisitStepsCons(after, before, steps, pointer);
      SwappedAppend(VisitStep(before, after, s, pointer), VisitSteps(before, after, steps[1..], pointer));
    }
  }

  /** Comparing in the other direction swaps the two sides of every occurrence. */
  lemma ComparisonSwapped(before: Value, after: Value)
    ensures ComparisonOccurrences(after, before) == Swapped(ComparisonOccurrences(before, after))
  {
    VisitSwapped(Some(before), Some(after), "");
  }

  // ---- Which leaves are compared ---------------------------------------------------------

  predicate Empty(v: Option<Value>) {
    match v
    case Some(Array(items)) => items == []
    case Some(Object(fields)) => fields == map[]
    case _ => true
  }

  /** One array is the other in another order, and not the same. */
  predicate Reordered(before: Option<Value>, after: Option<Value>) {
    match (before, after)
    case (Some(Array(b)), Some(Array(a))) => multiset(b) == multiset(a) && !ValueEq(Array(b), Array(a))
    case (_, _) => false
  }

  /** Both sides hold arrays, or both objects, as far as they hold anything; one is not empty, and it is no mere reordering. */
  predicate Opens(before: Option<Value>, after: Option<Value>) {
    && ((NoneOrArray(before) && NoneOrArray(after)) || (NoneOrObject(before) && NoneOrObject(after)))
    && !(Empty(before) && Empty(after)) && !Reordered(before, after)
  }

  /** Something is held at the path that is not opened, and everything above it is. */
  ghost predicate LeafAt(before: Option<Value>, after: Option<Value>, path: seq<Step>) {
    && (Reach(before, path).Some? || Reach(after, path).Some?)
    && !Opens(Reach(before, path), Reach(after, path))
    && forall k | 0 <= k < |path| :: Opens(Reach(before, path[..k]), Reach(after, path[..k]))
  }

  /** There are children to visit if the kinds fit and one side is not empty. */
  lemma StepsNonEmpty(before: Option<Value>, after: Option<Value>)
    requires before.Some? || after.Some?
    ensures Steps(before, after) != []
       <==> ((NoneOrArray(before) && NoneOrArray(after)) || (NoneOrObject(before) && NoneOrObject(after)))
            && !(Empty(before) && Empty(after))
  {
    hide SortedStrings;
    if NoneOrObject(before) && NoneOrObject(after) {
      KeysListed(ObjectKeys(before) + ObjectKeys(after));
      SideKeys(before);
      SideKeys(after);
    }
  }

  lemma SideKeys(v: Option<Value>)
    requires NoneOrObject(v)
    ensures Empty(v) <==> ObjectKeys(v) == {}
  {
    if v.Some? && v.value.fields != map[] {
      var k :| k in v.value.fields;
    }
  }

  lemma ReorderedMeans(before: Option<Value>, after: Option<Value>)
    ensures Reordered(before, after) <==> ReorderedArrays(before, after)
  {
    hide PureArrayReorder;
    match (before, after)
    case (Some(Array(b)), Some(Array(a))) => ReorderIsPermutation(b, a);
    case (_, _) =>
  }

  lemma OpensSteps(before: Option<Value>, after: Option<Value>)
    requires before.Some? || after.Some?
    ensures Opens(before, after) <==> Steps(before, after) != [] && !ReorderedArrays(before, after)
  {
    hide Steps, Reordered, ReorderedArrays, Empty, NoneOrArray, NoneOrObject;
    StepsNonEmpty(before, after);
    ReorderedMeans(before, after);
  }

  lemma KeysListed(keys: set<string>)
    ensures SortedStrings(keys) == [] <==> keys == {}
  {
    SortedStringsInOrder(keys);
    assert |keys| == 0 <==> keys == {};
  }

  lemma {:induction false} ReachNothing(path: seq<Step>)
    ensures Reach(None, path) == None
    decreases |path|
  {
    if path != [] {
      ReachNothing(path[1..]);
    }
  }

  lemma ReachFirst(v: Option<Value>, path: seq<Step>, k: nat)
    requires path != [] && k < |path|
    ensures Reach(v, path[..k + 1]) == Reach(Child(v, path[0]), path[1..][..k])
    ensures Reach(v, path[..0]) == v && Reach(v, path) == Reach(Child(v, path[0]), path[1..])
  {
    assert path[..k + 1][0] == path[0] && path[..k + 1][1..] == path[1..][..k];
  }

  /** A leaf below a child is a leaf below its parent, if the parent is opened. */
  lemma LeafBelow(before: Option<Value>, after: Option<Value>, path: seq<Step>)
    requires path != []
    ensures LeafAt(before, after, path)
       <==> Opens(before, after) && LeafAt(Child(before, path[0]), Child(after, path[0]), path[1..])
  {
    hide Opens, Child;
    var b, a, rest := Child(before, path[0]), Child(after, path[0]), path[1..];
    ReachFirst(before, path, 0);
    ReachFirst(after, path, 0);
    if LeafAt(before, after, path) {
      assert Opens(Reach(before, path[..0]), Reach(after, path[..0]));
      forall k | 0 <= k < |rest| ensures Opens(Reach(b, rest[..k]), Reach(a, rest[..k])) {
        ReachFirst(before, path, k);
        ReachFirst(after, path, k);
        assert Opens(Reach(before, path[..k + 1]), Reach(after, path[..k + 1]));
      }
    }
    if Opens(before, after) && LeafAt(b, a, rest) {
      forall k | 0 <= k < |path| ensures Opens(Reach(before, path[..k]), Reach(after, path[..k])) {
        if k > 0 {
          ReachFirst(before, path, k - 1);
          ReachFirst(after, path, k - 1);
          assert Opens(Reach(b, rest[..k - 1]), Reach(a, rest[..k - 1]));
        }
      }
    }
  }

  lemma StepTaken(before: Option<Value>, after: Option<Value>, step: Step)
    requires Opens(before, after) && (Child(before, step).Some? || Child(after, step).Some?)
    ensures step in Steps(before, after)
  {
    hide SortedStrings, Reordered;
    var steps := Steps(before, after);
    if step.Index? {
      assert steps[step.index] == step;
    } else {
      var keys := SortedStrings(ObjectKeys(before) + ObjectKeys(after));
      assert step.key in keys;
      var i :| 0 <= i < |keys| && keys[i] == step.key;
      assert steps[i] == step;
    }
  }

  lemma {:induction false} VisitedStep(before: Option<Value>, after: Option<Value>, steps: seq<Step>, pointer: string,
                                       o: Occurrence)
    requires ValidSteps(before, after, steps)
    ensures o in VisitSteps(before, after, steps, pointer)
       <==> exists i | 0 <= i < |steps| :: o in VisitStep(before, after, steps[i], pointer)
    decreases |steps|
  {
    hide VisitSteps, VisitStep, Child;
    NothingVisited(before, after, pointer);
    if steps != [] {
      VisitStepsCons(before, after, steps, pointer);
      VisitedStep(before, after, steps[1..], pointer, o);
      if i :| 0 <= i < |steps[1..]| && o in VisitStep(before, after, steps[1..][i], pointer) {
        assert steps[i + 1] == steps[1..][i];
      }
      if i :| 1 <= i < |steps| && o in VisitStep(before, after, steps[i], pointer) {
        assert steps[1..][i - 1] == steps[i];
      }
    }
  }

  lemma NothingVisited(before: Option<Value>, after: Option<Value>, pointer: string)
    ensures VisitSteps(before, after, [], pointer) == []
  {}

  function ReportAt(before: Option<Value>, after: Option<Value>, texts: seq<string>, path: seq<Step>): Occurrence {
    Occurrence(Render(texts + PathText(path)), Reach(before, path), Reach(after, path))
  }

  lemma ReportBelow(before: Option<Value>, after: Option<Value>, texts: seq<string>, path: seq<Step>)
    requires path != []
    ensures ReportAt(before, after, texts, path)
         == ReportAt(Child(before, path[0]), Child(after, path[0]), texts + [StepText(path[0])], path[1..])
  {
    hide Render, Child;
    ReachFirst(before, path, 0);
    ReachFirst(after, path, 0);
    assert PathText(path) == [StepText(path[0])] + PathText(path[1..]);
    assert texts + PathText(path) == texts + [StepText(path[0])] + PathText(path[1..]);
  }

  lemma VisitLeafAt(before: Option<Value>, after: Option<Value>, texts: seq<string>)
    requires before.Some? || after.Some?
    ensures !Opens(before, after) ==> Visit(before, after, Render(texts)) == [ReportAt(before, after, texts, [])]
    ensures Opens(before, after) ==>
              && ValidSteps(before, after, Steps(before, after))
              && Visit(before, after, Render(texts)) == VisitSteps(before, after, Steps(before, after), Render(texts))
  {
    hide Opens, Steps, ReorderedArrays, VisitSteps;
    OpensSteps(before, after);
    StepsValid(before, after);
    assert texts + PathText([]) == texts;
  }

  /** Every leaf is compared. */
  lemma {:induction false} LeafReported(before: Option<Value>, after: Option<Value>, texts: seq<string>, path: seq<Step>)
    requires LeafAt(before, after, path)
    ensures ReportAt(before, after, texts, path) in Visit(before, after, Render(texts))
    decreases |path|
  {
    hide Opens, Visit, VisitSteps, Steps, Child;
    ReachNothing(path);
    VisitLeafAt(before, after, texts);
    if path != [] {
      LeafBelow(before, after, path);
      var s := path[0];
      ReachNothing(path[1..]);
      StepTaken(before, after, s);
      var steps := Steps(before, after);
      var i :| 0 <= i < |steps| && steps[i] == s;
      DownRenders(texts, s);
      LeafReported(Child(before, s), Child(after, s), texts + [StepText(s)], path[1..]);
      ReportBelow(before, after, texts, path);
      var o := ReportAt(before, after, texts, path);
      assert o in VisitStep(before, after, steps[i], Render(texts));
      VisitedStep(before, after, steps, Render(texts), o);
    }
  }

  /** And nothing else is. */
  lemma {:induction false} ReportedLeaf(before: Option<Value>, after: Option<Value>, texts: seq<string>, o: Occurrence)
    returns (path: seq<Step>)
    requires o in Visit(before, after, Render(texts))
    ensures LeafAt(before, after, path) && o == ReportAt(before, after, texts, path)
    decreases before.Some?, after.Some?, Held(before), Held(after)
  {
    hide Opens, VisitSteps, Steps, Child, ReorderedArrays;
    assert before.Some? || after.Some?;
    hide Visit;
    VisitLeafAt(before, after, texts);
    if !Opens(before, after) {
      path := [];
    } else {
      var steps := Steps(before, after);
      VisitedStep(before, after, steps, Render(texts), o);
      var i :| 0 <= i < |steps| && o in VisitStep(before, after, steps[i], Render(texts));
      var s := steps[i];
      DownRenders(texts, s);
      ChildSmaller(before, s);
      ChildSmaller(after, s);
      var rest := ReportedLeaf(Child(before, s), Child(after, s), texts + [StepText(s)], o);
      path := [s] + rest;
      assert path[0] == s && path[1..] == rest;
      LeafBelow(before, after, path);
      ReportBelow(before, after, texts, path);
    }
  }

  /**
   Which leaves the comparison reports: exactly the paths at which something is
   held that is not opened while everything above is. Arrays are opened with
   arrays and objects with objects, unless both are empty or one is merely a
   reordering of the other; what only one side holds is opened down to its leaves.
   */
  lemma ComparisonLeaves(before: Value, after: Value, o: Occurrence)
    ensures o in ComparisonOccurrences(before, after)
       <==> exists path :: LeafAt(Some(before), Some(after), path) && o == ReportAt(Some(before), Some(after), [], path)
  {
    hide Visit, LeafAt, ReportAt, Render;
    assert Render([]) == "" by { NothingRendered(); }
    if o in ComparisonOccurrences(before, after) {
      var path := ReportedLeaf(Some(before), Some(after), [], o);
    }
    if path :| LeafAt(Some(before), Some(after), path) && o == ReportAt(Some(before), Some(after), [], path) {
      LeafReported(Some(before), Some(after), [], path);
    }
  }

  // ---- Pointers find what they point to ---------------------------------------------------

  lemma {:induction false} UnescapeEscaped(key: string)
    ensures UnescapeToken(EscapeKey(key)) == key
  {
    if key != "" {
      hide EscapeKey;
      UnescapeEscaped(key[1..]);
      EscapeKeyStep(key);
      var one, rest := EscapeOne(key[0]), EscapeKey(key[1..]);
      UnescapeOne(key[0], rest);
      assert key == [key[0]] + key[1..];
    } else {
      PlainKey("");
    }
  }

  lemma UnescapeOne(c: char, rest: string)
    ensures UnescapeToken(EscapeOne(c) + rest) == [c] + UnescapeToken(rest)
  {
    var one := EscapeOne(c);
    assert (one + rest)[|one|..] == rest && forall i | 0 <= i < |one| :: (one + rest)[i] == one[i];
  }

  lemma {:induction false} DecimalValue(n: nat)
    ensures DigitsValue(Decimal(n)) == n && (Decimal(n)[0] == '0' ==> n == 0)
  {
    var s := Decimal(n);
    if n < 10 {
      assert s[..0] == "" && DigitsValue("") == 0 && |s| == 1;
      assert DigitsValue(s) == DigitsValue(s[..0]) * 10 + n;
    } else {
      DecimalValue(n / 10);
      assert s[..|s| - 1] == Decimal(n / 10);
    }
  }

  lemma DecimalIndex(n: nat)
    ensures ParseIndex(Decimal(n)) == Some(n) && UnescapeToken(EscapeKey(Decimal(n))) == Decimal(n)
  {
    DecimalValue(n);
    UnescapeEscaped(Decimal(n));
    if n == 0 {
      assert Decimal(0) == "0";
    }
  }

  function EscapedAll(keys: seq<string>): (tokens: seq<string>)
    ensures |tokens| == |keys|
  {
    if keys == [] then [] else [EscapeKey(keys[0])] + EscapedAll(keys[1..])
  }

  lemma {:induction false} RenderedTokens(key: string, keys: seq<string>)
    ensures Split(EscapeKey(key) + Render(keys), '/') == [EscapeKey(key)] + EscapedAll(keys)
    decreases |keys|
  {
    hide Split, EscapeKey, Render, DecodeSegment;
    DecodeEscaped(key);
    if keys == [] {
      NothingRendered();
      SplitHead(EscapeKey(key), '/', "");
      assert EscapeKey(key) + "" == EscapeKey(key) && [EscapeKey(key)] + [] == [EscapeKey(key)];
    } else {
      var rest := EscapeKey(keys[0]) + Render(keys[1..]);
      RenderFirst(keys[0], keys[1..]);
      assert keys == [keys[0]] + keys[1..];
      assert EscapeKey(key) + ("/" + rest) == EscapeKey(key) + ['/'] + rest;
      SplitHead(EscapeKey(key), '/', rest);
      RenderedTokens(keys[0], keys[1..]);
    }
  }

  lemma {:induction false} FollowReaches(v: Value, path: seq<Step>)
    requires Reach(Some(v), path).Some?
    ensures Follow(v, EscapedAll(PathText(path))) == Reach(Some(v), path)
    decreases |path|
  {
    hide EscapeKey, UnescapeToken, ParseIndex;
    if path != [] {
      var texts := PathText(path);
      assert texts == [StepText(path[0])] + PathText(path[1..]) && texts[1..] == PathText(path[1..]);
      ReachNothing(path[1..]);
      var tokens := EscapedAll(texts);
      assert tokens[0] == EscapeKey(StepText(path[0])) && tokens[1..] == EscapedAll(PathText(path[1..]));
      match path[0]
      case Index(i) =>
        DecimalIndex(i);
        FollowReaches(v.items[i], path[1..]);
      case Key(k) =>
        UnescapeEscaped(k);
        FollowReaches(v.fields[k], path[1..]);
    }
  }

  /** A pointer finds what is at the path that it renders (section 4 of RFC 6901). */
  lemma LookupReaches(v: Value, path: seq<Step>)
    requires Reach(Some(v), path).Some?
    ensures Lookup(v, Render(PathText(path))) == Reach(Some(v), path)
  {
    hide Split, EscapeKey, Follow, Render;
    var texts := PathText(path);
    FollowReaches(v, path);
    if path == [] {
      NothingRendered();
    } else {
      RenderFirst(texts[0], texts[1..]);
      RenderedTokens(texts[0], texts[1..]);
      assert texts == [texts[0]] + texts[1..];
      var rest := EscapeKey(texts[0]) + Render(texts[1..]);
      assert Render(texts)[0] == '/' && Render(texts)[1..] == rest;
      assert EscapedAll(texts) == [EscapeKey(texts[0])] + EscapedAll(texts[1..]);
    }
  }
}
