/** Parts of a whole, and how many there are. */
module Fractions {

  function Share(part: nat, whole: nat): real { if whole == 0 then 0.0 else part as real / whole as real }

  /** A share of a whole makes up its part. */
  lemma ShareOfWhole(part: nat, whole: nat)
    requires part <= whole
    ensures Share(part, whole) * whole as real == part as real
  {
    if whole > 0 {
      Multiplied(part as real, whole as real);
    }
  }

  lemma ProductOrder(x: real, y: real, w: real)
    requires w > 0.0
    ensures x <= y <==> x * w <= y * w
  {
    assert x < y ==> (y - x) * w > 0.0;
    assert y < x ==> (x - y) * w > 0.0;
    assert (y - x) * w == y * w - x * w && (x - y) * w == x * w - y * w;
  }

  /** A share is at most a hundredth exactly if its part is. */
  lemma ShareHundredth(part: nat, whole: nat)
    requires part <= whole && whole > 0
    ensures Share(part, whole) <= 0.01 <==> 100 * part <= whole
  {
    hide Share;
    ShareOfWhole(part, whole);
    ProductOrder(Share(part, whole), 0.01, whole as real);
  }

  /** What a share leaves makes up the rest. */
  lemma ShareLeft(part: nat, whole: nat)
    requires part <= whole
    ensures (1.0 - Share(part, whole)) * whole as real == (whole - part) as real
  {
    hide Share;
    ShareOfWhole(part, whole);
    var s, w := Share(part, whole), whole as real;
    assert (1.0 - s) * w == w - s * w;
  }

  /** Shares are ordered as their parts are. */
  lemma ShareOrder(a: nat, b: nat, whole: nat)
    requires a <= b <= whole
    ensures 0.0 <= Share(a, whole) <= Share(b, whole) <= 1.0
    ensures Share(a, whole) == Share(b, whole) <==> a == b
  {
    if whole > 0 {
      var w := whole as real;
      Multiplied(a as real, w);
      Multiplied(b as real, w);
      Divided(a as real, b as real, w);
      Divided(0.0, a as real, w);
      Divided(b as real, w, w);
    }
  }

  lemma Multiplied(x: real, w: real)
    requires w > 0.0
    ensures x / w * w == x
  {}

  lemma Divided(x: real, y: real, w: real)
    requires x <= y && w > 0.0
    ensures x / w <= y / w && 0.0 / w == 0.0 && w / w == 1.0
  {
    assert (y - x) / w >= 0.0;
    assert y / w == x / w + (y - x) / w;
  }

  lemma NoShare(whole: nat)
    ensures Share(0, whole) == 0.0
  {
    if whole > 0 {
      Divided(0.0, 0.0, whole as real);
    }
  }

  /** A share is the whole exactly if its part is. */
  lemma ShareBounds(part: nat, whole: nat)
    requires part <= whole
    ensures 0.0 <= Share(part, whole) <= 1.0
    ensures whole > 0 ==> (Share(part, whole) == 1.0 <==> part == whole)
  {
    ShareOrder(part, whole, whole);
    if whole > 0 {
      Divided(0.0, 0.0, whole as real);
    }
  }

  // ---- Counting positions ---------------------------------------------------------------------

  ghost function Positions<T(!new)>(s: seq<T>, p: T -> bool): set<int> { set i | 0 <= i < |s| && p(s[i]) }

  lemma NoPositions<T(!new)>(s: seq<T>, p: T -> bool)
    requires s == []
    ensures Positions(s, p) == {}
  {}

  lemma PositionsSnoc<T(!new)>(s: seq<T>, p: T -> bool)
    requires s != []
    ensures |Positions(s, p)| == |Positions(s[..|s| - 1], p)| + if p(s[|s| - 1]) then 1 else 0
  {
    var n := |s| - 1;
    var before := Positions(s[..n], p);
    assert Positions(s, p) == if p(s[n]) then before + {n} else before;
  }
}
