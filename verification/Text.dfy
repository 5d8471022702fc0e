/**
 Strings and byte buffers. A Rust `String` or `Vec<u8>` is modelled as a Dafny
 `string` that holds one `char` for each UTF-8 byte, so lengths are byte lengths
 and the order below is the byte order that Rust uses.
 */
module Text {
  import opened Sorting

  predicate LexLe(a: string, b: string) {
    a == "" || (b != "" && (a[0] < b[0] || (a[0] == b[0] && LexLe(a[1..], b[1..]))))
  }

  lemma {:induction false} LexReflexive(a: string)
    ensures LexLe(a, a)
  {
    if a != "" {
      LexReflexive(a[1..]);
    }
  }

  lemma {:induction false} LexTotal(a: string, b: string)
    ensures LexLe(a, b) || LexLe(b, a)
  {
    if a != "" && b != "" {
      LexTotal(a[1..], b[1..]);
    }
  }

  lemma {:induction false} LexAntisymmetric(a: string, b: string)
    requires LexLe(a, b) && LexLe(b, a)
    ensures a == b
  {
    if a != "" && b != "" {
      LexAntisymmetric(a[1..], b[1..]);
      assert a == [a[0]] + a[1..] && b == [b[0]] + b[1..];
    }
  }

  lemma {:induction false} LexTransitive(a: string, b: string, c: string)
    requires LexLe(a, b) && LexLe(b, c)
    ensures LexLe(a, c)
  {
    if a != "" && b != "" && c != "" && a[0] == b[0] == c[0] {
      LexTransitive(a[1..], b[1..], c[1..]);
    }
  }

  lemma LexOrder()
    ensures TotalOrder(LexLe)
  {
    forall x, y | LexLe(x, y) && LexLe(y, x) ensures x == y { LexAntisymmetric(x, y); }
    forall x, y, z | LexLe(x, y) && LexLe(y, z) ensures LexLe(x, z) { LexTransitive(x, y, z); }
    forall x, y ensures LexLe(x, y) || LexLe(y, x) { LexTotal(x, y); }
    forall x ensures LexLe(x, x) { LexReflexive(x); }
  }

  function LeastString(s: set<string>): (k: string)
    requires s != {}
    ensures k in s
  {
    LexOrder();
    Least(s, LexLe)
  }

  /** The keys of a `BTreeSet<String>` or `serde_json::Map`, in iteration order. */
  function SortedStrings(s: set<string>): (r: seq<string>)
    ensures forall x :: x in r <==> x in s
  {
    LexOrder();
    Listed(s, LexLe)
  }

  lemma SortedStringsInOrder(s: set<string>)
    ensures Ascending(SortedStrings(s), LexLe) && Distinct(SortedStrings(s)) && |SortedStrings(s)| == |s|
  {
    LexOrder();
    ListedInOrder(s, LexLe);
  }

  /** Rust's `str::replace` of one character by a string. */
  function ReplaceChar(s: string, c: char, text: string): string {
    if s == "" then "" else (if s[0] == c then text else [s[0]]) + ReplaceChar(s[1..], c, text)
  }

  lemma {:induction false} ReplaceCharAppend(s: string, t: string, c: char, text: string)
    ensures ReplaceChar(s + t, c, text) == ReplaceChar(s, c, text) + ReplaceChar(t, c, text)
  {
    if s == "" {
      assert s + t == t;
    } else {
      assert (s + t)[1..] == s[1..] + t;
      ReplaceCharAppend(s[1..], t, c, text);
    }
  }

  /** Rust's `str::split` on one character: always at least one part. */
  function Split(s: string, c: char): (parts: seq<string>)
    ensures |parts| >= 1
  {
    if s == "" then [""]
    else if s[0] == c then [""] + Split(s[1..], c)
    else Grown(s[0], Split(s[1..], c))
  }

  /** The first part gains a character at its front. */
  function Grown(c: char, parts: seq<string>): (grown: seq<string>)
    requires |parts| >= 1
    ensures |grown| == |parts| && grown[0] == [c] + parts[0] && grown[1..] == parts[1..]
  {
    [[c] + parts[0]] + parts[1..]
  }

  lemma GrownAppend(c: char, parts: seq<string>, more: seq<string>)
    requires |parts| >= 1
    ensures Grown(c, parts + more) == Grown(c, parts) + more
  {
    assert (parts + more)[1..] == parts[1..] + more;
  }

  lemma AppendAssociative<T>(a: seq<T>, b: seq<T>, c: seq<T>)
    ensures a + (b + c) == (a + b) + c
  {}

  lemma SplitCons(x: char, s: string, c: char)
    ensures Split([x] + s, c) == if x == c then [""] + Split(s, c) else Grown(x, Split(s, c))
  {
    assert ([x] + s)[1..] == s;
  }

  /** A part without the separator is the first part of what it is joined to. */
  lemma {:induction false} SplitHead(part: string, c: char, rest: string)
    requires c !in part
    ensures Split(part, c) == [part]
    ensures Split(part + [c] + rest, c) == [part] + Split(rest, c)
  {
    if part == "" {
      assert part + [c] + rest == [c] + rest;
      SplitCons(c, rest, c);
    } else {
      SplitHead(part[1..], c, rest);
      assert part == [part[0]] + part[1..];
      assert part + [c] + rest == [part[0]] + (part[1..] + [c] + rest);
      SplitCons(part[0], part[1..] + [c] + rest, c);
    }
  }

  /** Cutting the text just after a separator cuts the list of parts there. */
  lemma {:induction false} SplitAppend(s: string, c: char, t: string)
    ensures Split(s + [c] + t, c) == Split(s, c) + Split(t, c)
  {
    if s == "" {
      assert s + [c] + t == [c] + t;
      SplitCons(c, t, c);
    } else {
      SplitAppend(s[1..], c, t);
      assert s + [c] + t == [s[0]] + (s[1..] + [c] + t);
      SplitCons(s[0], s[1..] + [c] + t, c);
      if s[0] == c {
        AppendAssociative([""], Split(s[1..], c), Split(t, c));
      } else {
        GrownAppend(s[0], Split(s[1..], c), Split(t, c));
      }
    }
  }

  predicate IsDigit(c: char) { '0' <= c <= '9' }

  /** The decimal rendering of an index. */
  function Decimal(n: nat): (s: string)
    ensures s != "" && forall i :: 0 <= i < |s| ==> IsDigit(s[i])
  {
    if n < 10 then [('0' as int + n) as char]
    else Decimal(n / 10) + [('0' as int + n % 10) as char]
  }

  lemma {:induction false} DecimalInjective(m: nat, n: nat)
    requires Decimal(m) == Decimal(n)
    ensures m == n
  {
    var s, t := Decimal(m), Decimal(n);
    assert s[|s| - 1] == t[|t| - 1];
    if m >= 10 && n >= 10 {
      assert s[..|s| - 1] == Decimal(m / 10) && t[..|t| - 1] == Decimal(n / 10);
      DecimalInjective(m / 10, n / 10);
    }
  }

  /** Rust's `str::contains`, and `[u8]::windows(..).any(..)` for a nonempty needle. */
  predicate Occurs(needle: string, hay: string) {
    exists i | 0 <= i <= |hay| :: OccursAt(needle, hay, i)
  }

  predicate OccursAt(needle: string, hay: string, i: int) {
    0 <= i <= |hay| - |needle| && hay[i..i + |needle|] == needle
  }
}
