/**
 Total orders, least elements and stable sorting.
 */
module Sorting {

  ghost predicate TotalPreorder<T(!new)>(le: (T, T) -> bool) {
    && (forall x :: le(x, x))
    && (forall x, y :: le(x, y) || le(y, x))
    && (forall x, y, z :: le(x, y) && le(y, z) ==> le(x, z))
  }

  ghost predicate TotalOrder<T(!new)>(le: (T, T) -> bool) {
    TotalPreorder(le) && forall x, y :: le(x, y) && le(y, x) ==> x == y
  }

  ghost predicate Ascending<T>(s: seq<T>, le: (T, T) -> bool) {
    forall i, j :: 0 <= i < j < |s| ==> le(s[i], s[j])
  }

  ghost predicate Distinct<T>(s: seq<T>) {
    forall i, j :: 0 <= i < j < |s| ==> s[i] != s[j]
  }

  predicate IsLeast<T(==)>(x: T, s: set<T>, le: (T, T) -> bool) {
    x in s && forall y | y in s :: le(x, y)
  }

  lemma {:induction false} LeastExists<T(!new)>(s: set<T>, le: (T, T) -> bool)
    requires TotalOrder(le) && s != {}
    ensures exists x :: IsLeast(x, s, le)
  {
    var x :| x in s;
    var others := s - {x};
    assert forall y | y in s :: y == x || y in others;
    if others == {} {
      assert IsLeast(x, s, le);
    } else {
      LeastExists(others, le);
      var m :| IsLeast(m, others, le);
      if le(x, m) {
        forall y | y in s && y != x ensures le(x, y) {
          assert le(m, y);
        }
        assert IsLeast(x, s, le);
      } else {
        assert le(m, x);
        assert IsLeast(m, s, le);
      }
    }
  }

  /** Insert before the first element that is strictly greater: a stable step. */
  function Inserted<T>(x: T, s: seq<T>, le: (T, T) -> bool): (r: seq<T>)
    ensures multiset(r) == multiset{x} + multiset(s)
  {
    if s == [] then [x]
    else if le(x, s[0]) then [x] + s
    else
      assert s == [s[0]] + s[1..];
      [s[0]] + Inserted(x, s[1..], le)
  }

  /** A stable sort. */
  function Arranged<T>(s: seq<T>, le: (T, T) -> bool): (r: seq<T>)
    ensures multiset(r) == multiset(s)
  {
    if s == [] then []
    else
      assert s == [s[0]] + s[1..];
      Inserted(s[0], Arranged(s[1..], le), le)
  }

  lemma InMultiset<T>(s: seq<T>, x: T)
    ensures x in s <==> x in multiset(s)
  {}

  lemma {:induction false} InsertedAscending<T(!new)>(x: T, s: seq<T>, le: (T, T) -> bool)
    requires TotalPreorder(le) && Ascending(s, le)
    ensures Ascending(Inserted(x, s, le), le)
  {
    if s != [] && !le(x, s[0]) {
      var rest := Inserted(x, s[1..], le);
      InsertedAscending(x, s[1..], le);
      forall j | 0 <= j < |rest| ensures le(s[0], rest[j]) {
        assert rest[j] in multiset(rest);
        assert rest[j] == x || rest[j] in multiset(s[1..]);
        if rest[j] != x {
          InMultiset(s[1..], rest[j]);
          assert rest[j] in s[1..];
        }
      }
    } else if s != [] {
      forall j | 0 <= j < |s| ensures le(x, s[j]) {
        assert le(s[0], s[j]);
      }
    }
  }

  lemma {:induction false} ArrangedAscending<T(!new)>(s: seq<T>, le: (T, T) -> bool)
    requires TotalPreorder(le)
    ensures Ascending(Arranged(s, le), le)
  {
    if s != [] {
      ArrangedAscending(s[1..], le);
      InsertedAscending(s[0], Arranged(s[1..], le), le);
    }
  }

  lemma {:induction false} InsertedDistinct<T>(x: T, s: seq<T>, le: (T, T) -> bool)
    requires Distinct(s) && x !in s
    ensures Distinct(Inserted(x, s, le))
  {
    if s != [] && !le(x, s[0]) {
      var rest := Inserted(x, s[1..], le);
      InsertedDistinct(x, s[1..], le);
      forall j | 0 <= j < |rest| ensures s[0] != rest[j] {
        InMultiset(rest, rest[j]);
        InMultiset(s[1..], rest[j]);
      }
    }
  }

  /** Sorting keeps distinct elements distinct. */
  lemma {:induction false} ArrangedDistinct<T>(s: seq<T>, le: (T, T) -> bool)
    requires Distinct(s)
    ensures Distinct(Arranged(s, le))
  {
    if s != [] {
      ArrangedDistinct(s[1..], le);
      InMultiset(Arranged(s[1..], le), s[0]);
      InMultiset(s[1..], s[0]);
      InsertedDistinct(s[0], Arranged(s[1..], le), le);
    }
  }

  lemma LeastFirst<T(!new)>(a: seq<T>, b: seq<T>, le: (T, T) -> bool)
    requires TotalOrder(le) && Ascending(a, le) && multiset(a) == multiset(b) && a != [] && b != []
    ensures le(a[0], b[0])
  {
    InMultiset(b, b[0]);
    InMultiset(a, b[0]);
  }

  lemma MultisetTail<T>(a: seq<T>)
    requires a != []
    ensures a == [a[0]] + a[1..] && multiset(a[1..]) == multiset(a) - multiset{a[0]}
  {
    assert a == [a[0]] + a[1..];
  }

  /** An ascending sequence is determined by its multiset. */
  lemma {:induction false} AscendingUnique<T(!new)>(a: seq<T>, b: seq<T>, le: (T, T) -> bool)
    requires TotalOrder(le) && Ascending(a, le) && Ascending(b, le)
    requires multiset(a) == multiset(b)
    ensures a == b
  {
    assert |a| == |multiset(a)| && |b| == |multiset(b)|;
    if a != [] {
      LeastFirst(a, b, le);
      LeastFirst(b, a, le);
      MultisetTail(a);
      MultisetTail(b);
      AscendingUnique(a[1..], b[1..], le);
    }
  }

  /** Sorting two sequences gives the same result exactly when they are permutations. */
  lemma SameArrangement<T(!new)>(a: seq<T>, b: seq<T>, le: (T, T) -> bool)
    requires TotalOrder(le)
    ensures Arranged(a, le) == Arranged(b, le) <==> multiset(a) == multiset(b)
  {
    ArrangedAscending(a, le);
    ArrangedAscending(b, le);
    if multiset(a) == multiset(b) {
      AscendingUnique(Arranged(a, le), Arranged(b, le), le);
    }
  }

  // ---- Sets in order ------------------------------------------------------------

  function Least<T(==, !new)>(s: set<T>, le: (T, T) -> bool): (k: T)
    requires TotalOrder(le) && s != {}
    ensures IsLeast(k, s, le)
  {
    LeastExists(s, le);
    var k :| IsLeast(k, s, le);
    k
  }

  /** The elements of a `BTreeSet`, or the keys of a `BTreeMap`, in iteration order. */
  function Listed<T(==, !new)>(s: set<T>, le: (T, T) -> bool): (r: seq<T>)
    requires TotalOrder(le)
    ensures forall x :: x in r <==> x in s
  {
    if s == {} then [] else var k := Least(s, le); [k] + Listed(s - {k}, le)
  }

  /** Each element is listed once, and in order. */
  lemma {:induction false} ListedInOrder<T(!new)>(s: set<T>, le: (T, T) -> bool)
    requires TotalOrder(le)
    ensures Ascending(Listed(s, le), le) && Distinct(Listed(s, le)) && |Listed(s, le)| == |s|
  {
    hide Ascending, Distinct;
    if s != {} {
      var k := Least(s, le);
      var rest := Listed(s - {k}, le);
      ListedInOrder(s - {k}, le);
      forall i | 0 <= i < |rest| ensures le(k, rest[i]) && k != rest[i] {
        assert rest[i] in rest;
        assert rest[i] in s;
      }
      AscendingCons(k, rest, le);
    } else {
      NothingAscending(le);
    }
  }

  lemma NothingAscending<T>(le: (T, T) -> bool)
    ensures Ascending([], le) && Distinct<T>([])
  {}

  lemma AscendingCons<T>(k: T, rest: seq<T>, le: (T, T) -> bool)
    requires Ascending(rest, le) && Distinct(rest)
    requires forall i | 0 <= i < |rest| :: le(k, rest[i]) && k != rest[i]
    ensures Ascending([k] + rest, le) && Distinct([k] + rest)
  {}

  predicate NatLe(a: nat, b: nat) { a <= b }

  lemma NatOrder()
    ensures TotalOrder(NatLe)
  {}

  function LeastNat(s: set<nat>): (n: nat)
    requires s != {}
    ensures IsLeast(n, s, NatLe)
  {
    NatOrder();
    Least(s, NatLe)
  }

  function SortedNats(s: set<nat>): (r: seq<nat>)
    ensures forall n :: n in r <==> n in s
  {
    NatOrder();
    Listed(s, NatLe)
  }

  /** A contiguous range of keys is listed one by one. */
  lemma {:induction false} SortedRange(s: set<nat>, from: nat, limit: nat)
    requires from <= limit && forall n: nat :: n in s <==> from <= n < limit
    ensures |SortedNats(s)| == limit - from
    ensures forall i :: 0 <= i < limit - from ==> SortedNats(s)[i] == from + i
    decreases limit - from
  {
    if from < limit {
      assert from in s;
      assert LeastNat(s) == from;
      SortedRange(s - {from}, from + 1, limit);
    } else {
      assert s == {};
    }
  }
}
