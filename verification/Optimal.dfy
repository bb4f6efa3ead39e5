/** Weights, code lengths and the cost of merging: no prefix code is cheaper than the
    one obtained by merging the two least weights again and again. */
module Optimal {
  import opened Bits

  // ---------- multisets of weights ----------

  lemma LeastExists(w: multiset<nat>)
    requires |w| > 0
    ensures exists x :: x in w && forall y :: y in w ==> x <= y
  {
    var x :| x in w;
    while exists y :: y in w && y < x
      invariant x in w
      decreases x
    {
      var y :| y in w && y < x;
      x := y;
    }
  }

  ghost function Least(w: multiset<nat>): (x: nat)
    requires |w| > 0
    ensures x in w && forall y :: y in w ==> x <= y
  {
    LeastExists(w);
    var x :| x in w && forall y :: y in w ==> x <= y;
    x
  }

  ghost function Sum(w: multiset<nat>): nat
    decreases |w|
  {
    if |w| == 0 then 0 else Least(w) + Sum(w - multiset{Least(w)})
  }

  lemma LeastIs(w: multiset<nat>, a: nat)
    requires a in w && forall y :: y in w ==> a <= y
    ensures |w| > 0 && Least(w) == a
  {}

  lemma SumUnfold(w: multiset<nat>)
    requires |w| > 0
    ensures Sum(w) == Least(w) + Sum(w - multiset{Least(w)})
  {}

  lemma {:induction false} SumRemove(w: multiset<nat>, x: nat)
    requires x in w
    ensures Sum(w) == x + Sum(w - multiset{x})
    decreases |w|
  {
    hide Sum;
    var m := Least(w);
    SumUnfold(w);
    if x != m {
      SumRemove(w - multiset{m}, x);
      LeastIs(w - multiset{x}, m);
      SumUnfold(w - multiset{x});
      assert w - multiset{m} - multiset{x} == w - multiset{x} - multiset{m};
    }
  }

  lemma SumAdd(w: multiset<nat>, x: nat)
    ensures Sum(w + multiset{x}) == Sum(w) + x
  {
    SumRemove(w + multiset{x}, x);
    assert w + multiset{x} - multiset{x} == w;
  }

  /** The weights once the two least are merged. */
  ghost function LeastMerged(w: multiset<nat>): (m: multiset<nat>)
    requires |w| >= 2
    ensures |m| == |w| - 1
  {
    var a := Least(w);
    var b := Least(w - multiset{a});
    w - multiset{a} - multiset{b} + multiset{a + b}
  }

  /** What merging the two least weights until one is left costs in all. */
  ghost function MergeCost(w: multiset<nat>): nat
    decreases |w|
  {
    if |w| < 2 then 0
    else Least(w) + Least(w - multiset{Least(w)}) + MergeCost(LeastMerged(w))
  }

  lemma {:induction false} MergeCostUnfold(w: multiset<nat>)
    requires |w| >= 2
    ensures MergeCost(w) == Least(w) + Least(w - multiset{Least(w)}) + MergeCost(LeastMerged(w))
  {
    hide LeastMerged, Least, Sum;
  }

  lemma LeastMergedIs(w: multiset<nat>, a: nat, b: nat)
    requires |w| >= 2 && a == Least(w) && b == Least(w - multiset{a})
    ensures LeastMerged(w) == w - multiset{a} - multiset{b} + multiset{a + b}
  {
    hide Least, Sum, MergeCost;
  }

  lemma MergeCostDef(w: multiset<nat>, a: nat, b: nat)
    requires a in w && (forall y :: y in w ==> a <= y)
    requires b in w - multiset{a} && (forall y :: y in w - multiset{a} ==> b <= y)
    ensures MergeCost(w) == a + b + MergeCost(w - multiset{a} - multiset{b} + multiset{a + b})
  {
    hide Least, LeastMerged, Sum, MergeCost;
    LeastIs(w, a);
    LeastIs(w - multiset{a}, b);
    LeastMergedIs(w, a, b);
    MergeCostUnfold(w);
  }

  lemma TakeOut(r: multiset<nat>, a: nat, b: nat)
    ensures r + multiset{a} + multiset{b} - multiset{a} == r + multiset{b}
    ensures r + multiset{b} - multiset{b} == r
  {}

  /** The result does not depend on how ties are broken. */
  lemma MergeCostStep(r: multiset<nat>, a: nat, b: nat)
    requires forall y :: y in r ==> a <= y && b <= y
    requires a <= b
    ensures MergeCost(r + multiset{a} + multiset{b}) == a + b + MergeCost(r + multiset{a + b})
  {
    hide MergeCost;
    TakeOut(r, a, b);
    MergeCostDef(r + multiset{a} + multiset{b}, a, b);
  }

  // ---------- weights against code lengths ----------

  /** The sum of weight times length. */
  function Dot(w: seq<nat>, l: seq<nat>): nat
    requires |w| == |l|
  {
    if w == [] then 0 else w[0] * l[0] + Dot(w[1..], l[1..])
  }

  /** The Kraft sum of the lengths in units of 2^-m. */
  function Units(l: seq<nat>, m: nat): nat
  {
    if l == [] then 0 else (if l[0] <= m then Pow2(m - l[0]) else 0) + Units(l[1..], m)
  }

  function Unit(x: nat, m: nat): nat { if x <= m then Pow2(m - x) else 0 }

  lemma {:induction false} DotUpdate(w: seq<nat>, l: seq<nat>, i: nat, v: nat)
    requires |w| == |l| && i < |l|
    ensures Dot(w, l[i := v]) + w[i] * l[i] == Dot(w, l) + w[i] * v
    decreases |l|
  {
    if i == 0 {
      assert l[i := v][1..] == l[1..];
    } else {
      DotUpdate(w[1..], l[1..], i - 1, v);
      assert l[i := v][1..] == l[1..][i - 1 := v];
    }
  }

  lemma {:induction false} UnitsUpdate(l: seq<nat>, m: nat, i: nat, v: nat)
    requires i < |l|
    ensures Units(l[i := v], m) + Unit(l[i], m) == Units(l, m) + Unit(v, m)
    decreases |l|
  {
    if i == 0 {
      assert l[i := v][1..] == l[1..];
    } else {
      UnitsUpdate(l[1..], m, i - 1, v);
      assert l[i := v][1..] == l[1..][i - 1 := v];
    }
  }

  function Without(s: seq<nat>, i: nat): (r: seq<nat>)
    requires i < |s|
    ensures |r| == |s| - 1
  {
    s[..i] + s[i + 1..]
  }

  lemma {:induction false} DotWithout(w: seq<nat>, l: seq<nat>, i: nat)
    requires |w| == |l| && i < |l|
    ensures Dot(w, l) == Dot(Without(w, i), Without(l, i)) + w[i] * l[i]
    decreases |l|
  {
    if i == 0 {
      assert Without(w, i) == w[1..] && Without(l, i) == l[1..];
    } else {
      DotWithout(w[1..], l[1..], i - 1);
      assert Without(w, i)[1..] == Without(w[1..], i - 1) && Without(l, i)[1..] == Without(l[1..], i - 1);
    }
  }

  lemma {:induction false} UnitsWithout(l: seq<nat>, m: nat, i: nat)
    requires i < |l|
    ensures Units(l, m) == Units(Without(l, i), m) + Unit(l[i], m)
    decreases |l|
  {
    if i == 0 {
      assert Without(l, i) == l[1..];
    } else {
      UnitsWithout(l[1..], m, i - 1);
      assert Without(l, i)[1..] == Without(l[1..], i - 1);
    }
  }

  lemma MultisetWithout(s: seq<nat>, i: nat)
    requires i < |s|
    ensures multiset(s) == multiset(Without(s, i)) + multiset{s[i]}
  {
    assert s == s[..i] + [s[i]] + s[i + 1..];
  }

  predicate AtMost(l: seq<nat>, m: nat) {
    forall i :: 0 <= i < |l| ==> l[i] <= m
  }

  lemma {:induction false} UnitsDouble(l: seq<nat>, m: nat)
    requires AtMost(l, m)
    ensures Units(l, m + 1) == 2 * Units(l, m)
  {
    if l != [] {
      UnitsDouble(l[1..], m);
      assert Pow2(m + 1 - l[0]) == 2 * Pow2(m - l[0]);
    }
  }

  lemma {:induction false} UnitsAtLeast(l: seq<nat>, m: nat)
    requires AtMost(l, m)
    ensures Units(l, m) >= |l|
  {
    if l != [] { UnitsAtLeast(l[1..], m); }
  }

  /** Giving the longer code to the lighter symbol does not cost more. */
  lemma Exchange(w: seq<nat>, l: seq<nat>, m: nat, x: nat, i: nat)
    requires |w| == |l| && x < |l| && i < |l| && w[x] <= w[i] && l[x] <= l[i] && x != i
    ensures var l' := l[x := l[i]][i := l[x]];
      Dot(w, l') <= Dot(w, l) && Units(l', m) == Units(l, m)
  {
    DotUpdate(w, l, x, l[i]);
    DotUpdate(w, l[x := l[i]], i, l[x]);
    UnitsUpdate(l, m, x, l[i]);
    UnitsUpdate(l[x := l[i]], m, i, l[x]);
    CrossProducts(w[x], w[i], l[x], l[i]);
  }

  lemma CrossProducts(a: nat, b: nat, s: nat, t: nat)
    requires a <= b && s <= t
    ensures a * t + b * s <= a * s + b * t
  {
    assert (b - a) * (t - s) >= 0;
    assert (b - a) * (t - s) == b * t - b * s - a * t + a * s;
  }

  /** Merging two symbols of greatest length into one of a length less. */
  lemma MergePair(w: seq<nat>, l: seq<nat>, m: nat, x: nat, y: nat)
    requires |w| == |l| && x < |l| && y < |l| && x != y && m >= 1 && l[x] == l[y] == m
    ensures var w', l' := Without(w[x := w[x] + w[y]], y), Without(l[x := m - 1], y);
      && Dot(w', l') + w[x] + w[y] == Dot(w, l) && Units(l', m) == Units(l, m)
      && multiset(w') + multiset{w[x]} + multiset{w[y]} == multiset(w) + multiset{w[x] + w[y]}
  {
    hide *;
    MergePairDot(w, l, m, x, y);
    MergePairUnits(l, m, x, y);
    MergePairMultiset(w, x, y);
  }

  lemma MergePairDot(w: seq<nat>, l: seq<nat>, m: nat, x: nat, y: nat)
    requires |w| == |l| && x < |l| && y < |l| && x != y && m >= 1 && l[x] == l[y] == m
    ensures Dot(Without(w[x := w[x] + w[y]], y), Without(l[x := m - 1], y)) + w[x] + w[y] == Dot(w, l)
  {
    hide Dot, Without;
    var a, b := w[x], w[y];
    var w1, l1 := w[x := a + b], l[x := m - 1];
    DotUpdate(w, l, x, m - 1);
    DotWeight(w, l1, x, a + b);
    DotWithout(w1, l1, y);
    assert a * m == a * (m - 1) + a;
    assert b * m == b * (m - 1) + b;
    assert (a + b) * (m - 1) == a * (m - 1) + b * (m - 1);
  }

  lemma MergePairUnits(l: seq<nat>, m: nat, x: nat, y: nat)
    requires x < |l| && y < |l| && x != y && m >= 1 && l[x] == l[y] == m
    ensures Units(Without(l[x := m - 1], y), m) == Units(l, m)
  {
    hide Units, Without;
    UnitsUpdate(l, m, x, m - 1);
    UnitsWithout(l[x := m - 1], m, y);
    assert Pow2(1) == 2 && Pow2(0) == 1;
  }

  lemma MergePairMultiset(w: seq<nat>, x: nat, y: nat)
    requires x < |w| && y < |w| && x != y
    ensures var w' := Without(w[x := w[x] + w[y]], y);
      multiset(w') + multiset{w[x]} + multiset{w[y]} == multiset(w) + multiset{w[x] + w[y]}
  {
    hide Without;
    var w1 := w[x := w[x] + w[y]];
    MultisetWithout(w1, y);
    MultisetUpdate(w, x, w[x] + w[y]);
    Regroup(multiset(Without(w1, y)), w[x], w[y]);
  }

  lemma Regroup(m: multiset<nat>, a: nat, b: nat)
    ensures m + multiset{a} + multiset{b} == m + multiset{b} + multiset{a}
  {}

  lemma MultisetUpdate(s: seq<nat>, i: nat, v: nat)
    requires i < |s|
    ensures multiset(s[i := v]) + multiset{s[i]} == multiset(s) + multiset{v}
  {
    assert s == s[..i] + [s[i]] + s[i + 1..];
    assert s[i := v] == s[..i] + [v] + s[i + 1..];
  }

  lemma {:induction false} DotWeight(w: seq<nat>, l: seq<nat>, i: nat, v: nat)
    requires |w| == |l| && i < |l|
    ensures Dot(w[i := v], l) + w[i] * l[i] == Dot(w, l) + v * l[i]
    decreases |l|
  {
    if i == 0 {
      assert w[i := v][1..] == w[1..];
    } else {
      DotWeight(w[1..], l[1..], i - 1, v);
      assert w[i := v][1..] == w[1..][i - 1 := v];
    }
  }

  /** The indices of a least weight and of a least weight among the others. */
  lemma TwoLeast(w: seq<nat>) returns (x: nat, y: nat)
    requires |w| >= 2
    ensures x < |w| && y < |w| && x != y && w[x] <= w[y]
    ensures forall i :: 0 <= i < |w| && i != x ==> w[y] <= w[i]
  {
    x, y := if w[0] <= w[1] then 0 else 1, if w[0] <= w[1] then 1 else 0;
    for k := 2 to |w|
      invariant x < k && y < k && x != y && w[x] <= w[y]
      invariant forall i :: 0 <= i < k && i != x ==> w[y] <= w[i]
    {
      if w[k] < w[x] {
        x, y := k, x;
      } else if w[k] < w[y] {
        y := k;
      }
    }
  }

  /** Two symbols of greatest length can be made the two lightest at no extra cost. */
  lemma LightestDeepest(w: seq<nat>, l: seq<nat>, m: nat, x: nat, y: nat, i: nat, j: nat) returns (l': seq<nat>)
    requires |w| == |l| && AtMost(l, m)
    requires x < |w| && y < |w| && x != y && w[x] <= w[y]
    requires forall k :: 0 <= k < |w| && k != x ==> w[y] <= w[k]
    requires i < |w| && j < |w| && i != j && l[i] == l[j] == m
    ensures |l'| == |l| && AtMost(l', m) && l'[x] == l'[y] == m
    ensures Dot(w, l') <= Dot(w, l) && Units(l', m) == Units(l, m)
  {
    hide Dot, Units;
    l' := l;
    if x != i && x != j {
      Exchange(w, l', m, x, i);
      l' := l'[x := l'[i]][i := l'[x]];
    }
    var k := if x == j then i else j;
    if y != k {
      if l'[y] < m {
        Exchange(w, l', m, y, k);
        l' := l'[y := l'[k]][k := l'[y]];
      }
    }
  }

  /** No assignment of lengths that satisfies the Kraft inequality is cheaper than merging. */
  lemma {:induction false} MergingIsOptimal(w: seq<nat>, l: seq<nat>, m: nat)
    requires |w| == |l| && AtMost(l, m) && Units(l, m) <= Pow2(m)
    ensures MergeCost(multiset(w)) <= Dot(w, l)
    decreases |w|, m
  {
    hide Dot, Units;
    if |w| >= 2 {
      UnitsAtLeast(l, m);
      if AtMost(l, m - 1) {
        UnitsDouble(l, m - 1);
        MergingIsOptimal(w, l, m - 1);
      } else {
        var i :| 0 <= i < |l| && l[i] == m;
        if exists j :: 0 <= j < |l| && j != i && l[j] == m {
          var j :| 0 <= j < |l| && j != i && l[j] == m;
          DeepPair(w, l, m, i, j);
        } else {
          LoneDeepest(w, l, m, i);
          MergingIsOptimal(w, l[i := m - 1], m - 1);
        }
      }
    }
  }

  /** A single longest code can be shortened. */
  lemma LoneDeepest(w: seq<nat>, l: seq<nat>, m: nat, i: nat)
    requires |w| == |l| && AtMost(l, m) && Units(l, m) <= Pow2(m) && m >= 1
    requires i < |l| && l[i] == m && forall j :: 0 <= j < |l| && j != i ==> l[j] != m
    ensures AtMost(l[i := m - 1], m - 1) && Units(l[i := m - 1], m - 1) <= Pow2(m - 1)
    ensures Dot(w, l[i := m - 1]) <= Dot(w, l)
  {
    hide Dot, Units;
    var l' := l[i := m - 1];
    UnitsUpdate(l, m, i, m - 1);
    assert Pow2(1) == 2 && Pow2(0) == 1;
    UnitsDouble(l', m - 1);
    DotUpdate(w, l, i, m - 1);
    assert w[i] * m == w[i] * (m - 1) + w[i];
  }

  lemma {:induction false} DeepPair(w: seq<nat>, l: seq<nat>, m: nat, i: nat, j: nat)
    requires |w| == |l| >= 2 && AtMost(l, m) && Units(l, m) <= Pow2(m) && m >= 1
    requires i < |l| && j < |l| && i != j && l[i] == l[j] == m
    ensures MergeCost(multiset(w)) <= Dot(w, l)
    decreases |w|, m, 0
  {
    hide Dot, Units, MergeCost, Without;
    var x, y := TwoLeast(w);
    var l' := LightestDeepest(w, l, m, x, y, i, j);
    MergePair(w, l', m, x, y);
    var w1, l1 := Without(w[x := w[x] + w[y]], y), Without(l'[x := m - 1], y);
    WithoutAtMost(l'[x := m - 1], y, m);
    MergingIsOptimal(w1, l1, m);
    LeastPairRest(w, x, y);
    var rest := multiset(w) - multiset{w[x]} - multiset{w[y]};
    MergeCostStep(rest, w[x], w[y]);
    PutBack(multiset(w), multiset(w1), w[x], w[y]);
  }

  lemma WithoutAtMost(l: seq<nat>, y: nat, m: nat)
    requires y < |l| && AtMost(l, m)
    ensures AtMost(Without(l, y), m)
  {}

  lemma PutBack(w: multiset<nat>, w1: multiset<nat>, a: nat, b: nat)
    requires multiset{a} + multiset{b} <= w
    requires w1 + multiset{a} + multiset{b} == w + multiset{a + b}
    ensures w - multiset{a} - multiset{b} + multiset{a} + multiset{b} == w
    ensures w - multiset{a} - multiset{b} + multiset{a + b} == w1
  {
    var v := w - multiset{a} - multiset{b} + multiset{a + b};
    forall x: nat ensures v[x] == w1[x] {
      assert (w1 + multiset{a} + multiset{b})[x] == (w + multiset{a + b})[x];
      assert (multiset{a} + multiset{b})[x] <= w[x];
    }
  }

  lemma LeastPairRest(w: seq<nat>, x: nat, y: nat)
    requires x < |w| && y < |w| && x != y && w[x] <= w[y]
    requires forall k :: 0 <= k < |w| && k != x ==> w[y] <= w[k]
    ensures multiset{w[x]} + multiset{w[y]} <= multiset(w)
    ensures forall v :: v in multiset(w) - multiset{w[x]} - multiset{w[y]} ==> w[y] <= v
  {
    MultisetWithout(w, x);
    var r := Without(w, x);
    forall v | v in multiset(r) ensures w[y] <= v {
      assert v in r;
      var k :| 0 <= k < |r| && r[k] == v;
      assert r[k] == w[if k < x then k else k + 1];
    }
    var y' := if y < x then y else y - 1;
    assert r[y'] == w[y];
    MultisetWithout(r, y');
  }
}
