/** From the finished tree to code lengths: what the first pass of gen_bitlen computes,
    why the overflow repair restores a complete code, and why a tree without overflow
    is optimal. */
module BitLengths {
  import opened Bits
  import opened Canonical
  import opened Merging

  // ---------- the finished tree ----------

  /** nodes lists the tree from the root down; the pair behind place j belongs to
      internal node root - j. */
  datatype Tree = Tree(nodes: seq<nat>, dad: seq<nat>, elems: nat, leaves: set<nat>)
  {
    function N(): nat { |leaves| }

    function Root(): int { elems + |leaves| - 2 }
  }

  predicate PairOk(t: Tree, j: nat)
  {
    && 2 * j + 2 < |t.nodes|
    && t.nodes[2 * j + 1] < |t.dad| && t.dad[t.nodes[2 * j + 1]] == t.Root() - j
    && t.nodes[2 * j + 2] < |t.dad| && t.dad[t.nodes[2 * j + 2]] == t.Root() - j
  }

  predicate TreeOk(t: Tree)
  {
    && 2 <= t.N() <= t.elems && |t.nodes| == 2 * t.N() - 1 && t.elems + t.N() - 1 <= |t.dad|
    && (forall x :: x in t.leaves ==> x < t.elems)
    && multiset(t.nodes) == multiset(t.leaves) + multiset(Range(t.elems, t.Root() + 1))
    && t.nodes[0] == t.Root()
    && (forall j :: 0 <= j < t.N() - 1 ==> PairOk(t, j))
    && (forall q :: 0 <= q < |t.nodes| && t.nodes[q] >= t.elems ==> q <= 2 * (t.Root() - t.nodes[q]))
  }

  lemma NodeBound(t: Tree, q: nat)
    requires TreeOk(t) && q < |t.nodes|
    ensures t.nodes[q] <= t.Root() && (t.nodes[q] < t.elems <==> t.nodes[q] in t.leaves)
  {
    assert t.nodes[q] in multiset(t.nodes);
  }

  lemma NodesDistinct(t: Tree, p: nat, q: nat)
    requires TreeOk(t) && p < q < |t.nodes|
    ensures t.nodes[p] != t.nodes[q]
  {
    var x := t.nodes[p];
    assert (multiset(t.leaves) + multiset(Range(t.elems, t.Root() + 1)))[x] <= 1;
    if x == t.nodes[q] {
      TwiceThere(t.nodes, p, q);
    }
  }

  lemma TwiceThere(s: seq<nat>, p: nat, q: nat)
    requires p < q < |s| && s[p] == s[q]
    ensures multiset(s)[s[p]] >= 2
  {
    assert s == s[..q] + s[q..];
    assert s[p] in s[..q] && s[q] in s[q..];
    assert s[..q][p] == s[p] && s[q..][0] == s[q];
    assert multiset(s) == multiset(s[..q]) + multiset(s[q..]);
  }

  /** The place of internal node root - j lies in front of its pair. */
  lemma PlaceOf(t: Tree, j: nat) returns (q: nat)
    requires TreeOk(t) && j < t.N() - 1
    ensures q <= 2 * j && t.nodes[q] == t.Root() - j
  {
    var x: nat := t.Root() - j;
    assert x in multiset(t.nodes);
    assert x in t.nodes;
    q :| 0 <= q < |t.nodes| && t.nodes[q] == x;
  }

  /** What the first pass leaves: 0 for the root, one more than the father for the
      others, cut off at max. */
  predicate Lens(t: Tree, l: seq<nat>, max: nat)
    requires TreeOk(t)
  {
    && |l| == |t.dad| && l[t.Root()] == 0
    && forall i :: 1 <= i < |t.nodes| ==> LenOk(t, l, max, i)
  }

  predicate LenOk(t: Tree, l: seq<nat>, max: nat, i: nat)
    requires TreeOk(t) && 1 <= i < |t.nodes|
  {
    var x := t.nodes[i];
    x < |l| && x < |t.dad| && t.dad[x] < |l| && l[x] == Clamp(l[t.dad[x]] + 1, max)
  }

  function Clamp(x: nat, max: nat): nat { if x > max then max else x }

  lemma PairLens(t: Tree, l: seq<nat>, max: nat, j: nat)
    requires TreeOk(t) && Lens(t, l, max) && j < t.N() - 1
    ensures var p := t.Root() - j; var a, c := t.nodes[2 * j + 1], t.nodes[2 * j + 2];
      && 0 <= p < |l| && a < |l| && c < |l|
      && l[a] == l[c] == Clamp(l[p] + 1, max)
  {
    assert PairOk(t, j) && LenOk(t, l, max, 2 * j + 1) && LenOk(t, l, max, 2 * j + 2);
  }

  lemma LenBound(t: Tree, l: seq<nat>, max: nat, i: nat)
    requires TreeOk(t) && Lens(t, l, max) && i < |t.nodes|
    ensures t.nodes[i] < |l| && l[t.nodes[i]] <= max
    ensures i > 0 && max > 0 ==> l[t.nodes[i]] > 0
  {
    NodeBound(t, i);
    if i > 0 { assert LenOk(t, l, max, i); }
  }

  // ---------- sums over the frontier ----------

  /** The sum of val over the nodes before place q that are leaves or not yet expanded,
      that is, at most thr. */
  function Frontier(nodes: seq<nat>, elems: nat, val: seq<nat>, q: nat, thr: int): nat
    requires q <= |nodes| && forall i :: 0 <= i < |nodes| ==> nodes[i] < |val|
  {
    if q == 0 then 0
    else
      var x := nodes[q - 1];
      Frontier(nodes, elems, val, q - 1, thr) + (if x < elems || x <= thr then val[x] else 0)
  }

  /** Expanding node x takes exactly its own value out of the frontier. */
  lemma {:induction false} FrontierExpand(nodes: seq<nat>, elems: nat, val: seq<nat>, q: nat, x: nat, k: nat)
    requires q <= |nodes| && (forall i :: 0 <= i < |nodes| ==> nodes[i] < |val|)
    requires x >= elems && k < |nodes| && nodes[k] == x
    requires forall i :: 0 <= i < q && i != k ==> nodes[i] != x
    ensures Frontier(nodes, elems, val, q, x) ==
            Frontier(nodes, elems, val, q, x - 1) + (if k < q then val[x] else 0)
  {
    if q > 0 {
      FrontierExpand(nodes, elems, val, q - 1, x, k);
    }
  }

  predicate Vals(t: Tree, val: seq<nat>) {
    forall i :: 0 <= i < |t.nodes| ==> t.nodes[i] < |val|
  }

  /** One pair further: the father leaves the frontier, its two sons join it. */
  lemma FrontierStep(t: Tree, val: seq<nat>, j: nat)
    requires TreeOk(t) && Vals(t, val) && j < t.N() - 1
    ensures 0 <= t.Root() - j < |val|
    ensures Frontier(t.nodes, t.elems, val, 2 * (j + 1) + 1, t.Root() - (j + 1)) + val[t.Root() - j]
         == Frontier(t.nodes, t.elems, val, 2 * j + 1, t.Root() - j)
            + val[t.nodes[2 * j + 1]] + val[t.nodes[2 * j + 2]]
  {
    hide TreeOk, Frontier, Vals;
    TreeSizes(t);
    var x := t.Root() - j;
    var k := PlaceOf(t, j);
    ValsAt(t, val, k);
    forall i | 0 <= i < 2 * j + 1 && i != k ensures t.nodes[i] != x {
      if i < k { NodesDistinct(t, i, k); } else { NodesDistinct(t, k, i); }
    }
    FrontierExpand(t.nodes, t.elems, val, 2 * j + 1, x, k);
    BehindIsSmaller(t, j, 2 * j + 1);
    BehindIsSmaller(t, j, 2 * j + 2);
    FrontierUnfold(t.nodes, t.elems, val, 2 * j + 2, x - 1);
    FrontierUnfold(t.nodes, t.elems, val, 2 * j + 3, x - 1);
  }

  lemma TreeSizes(t: Tree)
    requires TreeOk(t)
    ensures t.N() >= 2 && |t.nodes| == 2 * t.N() - 1 && t.elems <= t.Root() < |t.dad|
  {}

  lemma ValsAt(t: Tree, val: seq<nat>, k: nat)
    requires Vals(t, val) && k < |t.nodes|
    ensures t.nodes[k] < |val| && forall i :: 0 <= i < |t.nodes| ==> t.nodes[i] < |val|
  {}

  lemma FrontierUnfold(nodes: seq<nat>, elems: nat, val: seq<nat>, q: nat, thr: int)
    requires 0 < q <= |nodes| && forall i :: 0 <= i < |nodes| ==> nodes[i] < |val|
    ensures Frontier(nodes, elems, val, q, thr) == Frontier(nodes, elems, val, q - 1, thr)
      + (if nodes[q - 1] < elems || nodes[q - 1] <= thr then val[nodes[q - 1]] else 0)
  {}

  lemma BehindIsSmaller(t: Tree, j: nat, q: nat)
    requires TreeOk(t) && 2 * j + 1 <= q < |t.nodes|
    ensures t.nodes[q] < t.elems || t.nodes[q] <= t.Root() - j - 1
  {}

  lemma FrontierStart(t: Tree, val: seq<nat>)
    requires TreeOk(t) && Vals(t, val)
    ensures t.Root() < |val| && Frontier(t.nodes, t.elems, val, 1, t.Root()) == val[t.Root()]
  {
    assert Frontier(t.nodes, t.elems, val, 0, t.Root()) == 0;
  }

  // ---------- the Kraft sum after the first pass ----------

  /** How many of the first j fathers already have the greatest length. */
  function Clamped(t: Tree, l: seq<nat>, max: nat, j: nat): nat
    requires t.Root() < |l| && j <= t.Root() + 1
  {
    if j == 0 then 0 else Clamped(t, l, max, j - 1) + (if l[t.Root() - (j - 1)] >= max then 1 else 0)
  }

  function KraftVal(l: seq<nat>, max: nat): (r: seq<nat>)
    ensures |r| == |l|
  {
    seq(|l|, i requires 0 <= i < |l| => if l[i] <= max then Pow2(max - l[i]) else 0)
  }

  function DeepVal(l: seq<nat>, max: nat): (r: seq<nat>)
    ensures |r| == |l|
  {
    seq(|l|, i requires 0 <= i < |l| => if l[i] == max then 1 else 0)
  }

  lemma ValsOfLens(t: Tree, l: seq<nat>, max: nat)
    requires TreeOk(t) && Lens(t, l, max)
    ensures forall v: seq<nat> :: |v| == |l| ==> Vals(t, v)
  {
    forall i | 0 <= i < |t.nodes| ensures t.nodes[i] < |l| { NodeBound(t, i); }
  }

  /** The Kraft sum of the frontier exceeds one by the number of clamped fathers, and more
      frontier nodes than that have the greatest length if there are any. */
  lemma {:induction false} FrontierKraft(t: Tree, l: seq<nat>, max: nat, j: nat)
    requires TreeOk(t) && Lens(t, l, max) && max >= 1 && j <= t.N() - 1
    ensures Vals(t, KraftVal(l, max)) && Vals(t, DeepVal(l, max))
    ensures Frontier(t.nodes, t.elems, KraftVal(l, max), 2 * j + 1, t.Root() - j) == Pow2(max) + Clamped(t, l, max, j)
    ensures Clamped(t, l, max, j) > 0 ==>
      Frontier(t.nodes, t.elems, DeepVal(l, max), 2 * j + 1, t.Root() - j) > Clamped(t, l, max, j)
  {
    hide TreeOk, Lens, Frontier, Vals;
    TreeSizes(t);
    LensSizes(t, l, max);
    ValsOfLens(t, l, max);
    var k, d := KraftVal(l, max), DeepVal(l, max);
    if j == 0 {
      FrontierStart(t, k);
      FrontierStart(t, d);
    } else {
      FrontierKraft(t, l, max, j - 1);
      FrontierStep(t, k, j - 1);
      FrontierStep(t, d, j - 1);
      PairLens(t, l, max, j - 1);
      var q := PlaceOf(t, j - 1);
      LenBound(t, l, max, q);
      var p := t.Root() - (j - 1);
      FrontierHas(t, d, j - 1, q);
      assert l[p] < max ==> Pow2(max - l[p]) == 2 * Pow2(max - (l[p] + 1));
      assert Pow2(0) == 1;
    }
  }

  /** The father about to be expanded is in the frontier. */
  lemma FrontierHas(t: Tree, val: seq<nat>, j: nat, k: nat)
    requires TreeOk(t) && Vals(t, val) && j < t.N() - 1 && k <= 2 * j && t.nodes[k] == t.Root() - j
    ensures 0 <= t.Root() - j < |val|
    ensures Frontier(t.nodes, t.elems, val, 2 * j + 1, t.Root() - j) >= val[t.Root() - j]
  {
    FrontierAtLeast(t.nodes, t.elems, val, 2 * j + 1, t.Root() - j, k);
  }

  lemma {:induction false} FrontierAtLeast(nodes: seq<nat>, elems: nat, val: seq<nat>, q: nat, thr: int, k: nat)
    requires k < q <= |nodes| && (forall i :: 0 <= i < |nodes| ==> nodes[i] < |val|) && nodes[k] <= thr
    ensures Frontier(nodes, elems, val, q, thr) >= val[nodes[k]]
  {
    if k < q - 1 { FrontierAtLeast(nodes, elems, val, q - 1, thr, k); }
  }

  lemma LensSizes(t: Tree, l: seq<nat>, max: nat)
    requires TreeOk(t) && Lens(t, l, max)
    ensures |l| == |t.dad| && l[t.Root()] == 0
  {}

  // ---------- the cost without overflow ----------

  function CostVal(f: seq<nat>, l: seq<nat>): (r: seq<nat>)
    requires |f| == |l|
    ensures |r| == |l|
  {
    seq(|l|, i requires 0 <= i < |l| => f[i] * l[i])
  }

  predicate Sums(t: Tree, f: seq<nat>)
    requires TreeOk(t)
  {
    && |f| == |t.dad|
    && forall j :: 0 <= j < t.N() - 1 ==> SumOk(t, f, j)
  }

  predicate SumOk(t: Tree, f: seq<nat>, j: nat)
    requires TreeOk(t) && j < t.N() - 1 && |f| == |t.dad|
  {
    && t.nodes[2 * j + 1] < |f| && t.nodes[2 * j + 2] < |f|
    && f[t.Root() - j] == f[t.nodes[2 * j + 1]] + f[t.nodes[2 * j + 2]]
  }

  /** Without clamping, frequency times length over the frontier adds up to the
      frequencies of the fathers expanded so far. */
  lemma {:induction false} FrontierCost(t: Tree, l: seq<nat>, max: nat, f: seq<nat>, j: nat)
    requires TreeOk(t) && Lens(t, l, max) && Sums(t, f) && j <= t.N() - 1
    requires Clamped(t, l, max, j) == 0
    ensures Vals(t, CostVal(f, l))
    ensures Frontier(t.nodes, t.elems, CostVal(f, l), 2 * j + 1, t.Root() - j)
         == SumRange(f, t.Root() + 1 - j, t.Root() + 1)
  {
    hide TreeOk, Lens, Frontier, Vals, Sums;
    TreeSizes(t);
    LensSizes(t, l, max);
    ValsOfLens(t, l, max);
    SumsSizes(t, f);
    var v := CostVal(f, l);
    if j == 0 {
      FrontierStart(t, v);
    } else {
      FrontierCost(t, l, max, f, j - 1);
      FrontierStep(t, v, j - 1);
      PairLens(t, l, max, j - 1);
      SumsAt(t, f, j - 1);
      var p := t.Root() - (j - 1);
      var a, c := t.nodes[2 * j - 1], t.nodes[2 * j];
      assert f[a] * (l[p] + 1) + f[c] * (l[p] + 1) == f[p] * l[p] + f[p];
      SumRangeFront(f, p, t.Root() + 1);
    }
  }

  lemma SumsSizes(t: Tree, f: seq<nat>)
    requires TreeOk(t) && Sums(t, f)
    ensures |f| == |t.dad|
  {}

  lemma SumsAt(t: Tree, f: seq<nat>, j: nat)
    requires TreeOk(t) && Sums(t, f) && j < t.N() - 1
    ensures SumOk(t, f, j)
  {}

  lemma {:induction false} SumRangeFront(f: seq<nat>, a: nat, b: nat)
    requires a < b <= |f|
    ensures SumRange(f, a, b) == f[a] + SumRange(f, a + 1, b)
    decreases b
  {
    if a + 1 < b { SumRangeFront(f, a, b - 1); }
  }

  // ---------- leaves ----------

  /** The leaves among the nodes, in the order of the list. */
  function LeafIds(nodes: seq<nat>, elems: nat): (r: seq<nat>)
    ensures forall i :: 0 <= i < |r| ==> r[i] < elems
  {
    if nodes == [] then []
    else
      var last := |nodes| - 1;
      LeafIds(nodes[..last], elems) + (if nodes[last] < elems then [nodes[last]] else [])
  }

  lemma {:induction false} LeafIdsConcat(a: seq<nat>, b: seq<nat>, elems: nat)
    ensures LeafIds(a + b, elems) == LeafIds(a, elems) + LeafIds(b, elems)
  {
    if b == [] {
      assert a + b == a;
    } else {
      var last := |b| - 1;
      assert (a + b)[..|a + b| - 1] == a + b[..last];
      LeafIdsConcat(a, b[..last], elems);
    }
  }

  lemma {:induction false} LeafIdsMembers(nodes: seq<nat>, elems: nat, x: nat)
    ensures multiset(LeafIds(nodes, elems))[x] == if x < elems then multiset(nodes)[x] else 0
  {
    if nodes != [] {
      hide LeafIds;
      var last := |nodes| - 1;
      LeafIdsMembers(nodes[..last], elems, x);
      LeafIdsLast(nodes, elems);
      assert nodes == nodes[..last] + [nodes[last]];
    }
  }

  /** The leaves of the tree are listed once each. */
  lemma LeafIdsAre(t: Tree)
    requires TreeOk(t)
    ensures multiset(LeafIds(t.nodes, t.elems)) == multiset(t.leaves)
  {
    var m := multiset(LeafIds(t.nodes, t.elems));
    forall x: nat ensures m[x] == multiset(t.leaves)[x] {
      LeafIdsMembers(t.nodes, t.elems, x);
      assert multiset(t.nodes)[x] == multiset(t.leaves)[x] + multiset(Range(t.elems, t.Root() + 1))[x];
    }
  }

  lemma LeafIdsLast(nodes: seq<nat>, elems: nat)
    requires nodes != []
    ensures var last := |nodes| - 1;
      LeafIds(nodes, elems) == LeafIds(nodes[..last], elems) + (if nodes[last] < elems then [nodes[last]] else [])
  {}

  lemma ValAt(l: seq<nat>, max: nat, x: nat)
    requires x < |l|
    ensures l[x] > 0 ==> KraftVal(l, max)[x] == Weight(l[x], max)
    ensures DeepVal(l, max)[x] == if l[x] == max then 1 else 0
  {}

  /** With every father expanded the frontier is the list of leaves. */
  lemma {:induction false} FrontierOfLeaves(nodes: seq<nat>, elems: nat, l: seq<nat>, max: nat)
    requires forall i :: 0 <= i < |nodes| ==> nodes[i] < |l|
    requires forall i :: 0 <= i < |nodes| && nodes[i] < elems ==> 0 < l[nodes[i]] <= max
    requires elems <= |l|
    ensures Frontier(nodes, elems, KraftVal(l, max), |nodes|, elems - 1) == Kraft(Values(l, LeafIds(nodes, elems)), max)
    ensures Frontier(nodes, elems, DeepVal(l, max), |nodes|, elems - 1) == Count(Values(l, LeafIds(nodes, elems)), max)
    decreases |nodes|
  {
    if nodes == [] {
    } else {
      hide Frontier, Kraft, Count, LeafIds, KraftVal, DeepVal, Values;
      var last := |nodes| - 1;
      var rest, x := nodes[..last], nodes[last];
      FrontierOfLeaves(rest, elems, l, max);
      FrontierPrefix(nodes, elems, KraftVal(l, max), last, elems - 1);
      FrontierPrefix(nodes, elems, DeepVal(l, max), last, elems - 1);
      FrontierUnfold(nodes, elems, KraftVal(l, max), |nodes|, elems - 1);
      FrontierUnfold(nodes, elems, DeepVal(l, max), |nodes|, elems - 1);
      var ids := LeafIds(rest, elems);
      LeafIdsLast(nodes, elems);
      ValAt(l, max, x);
      if x < elems {
        ValuesSnoc(l, ids, x);
        KraftSnoc(Values(l, ids), l[x], max);
        SnocCount(Values(l, ids), l[x], max);
      } else {
        assert ids + [] == ids;
      }
    }
  }

  lemma KraftSnoc(v: seq<nat>, x: nat, m: nat)
    ensures Kraft(v + [x], m) == Kraft(v, m) + Weight(x, m)
  {
    assert (v + [x])[..|v|] == v;
  }

  lemma ValuesSnoc(l: seq<nat>, ids: seq<nat>, x: nat)
    requires (forall i :: 0 <= i < |ids| ==> ids[i] < |l|) && x < |l|
    ensures Values(l, ids + [x]) == Values(l, ids) + [l[x]]
  {}

  lemma {:induction false} FrontierPrefix(nodes: seq<nat>, elems: nat, val: seq<nat>, q: nat, thr: int)
    requires q <= |nodes| && forall i :: 0 <= i < |nodes| ==> nodes[i] < |val|
    ensures Frontier(nodes[..q], elems, val, q, thr) == Frontier(nodes, elems, val, q, thr)
  {
    FrontierPrefixAt(nodes, nodes[..q], elems, val, q, thr);
  }

  lemma {:induction false} FrontierPrefixAt(nodes: seq<nat>, pre: seq<nat>, elems: nat, val: seq<nat>, q: nat, thr: int)
    requires q <= |pre| && pre <= nodes && forall i :: 0 <= i < |nodes| ==> nodes[i] < |val|
    ensures Frontier(pre, elems, val, q, thr) == Frontier(nodes, elems, val, q, thr)
  {
    if q > 0 { FrontierPrefixAt(nodes, pre, elems, val, q - 1, thr); }
  }

  /** After the first pass: the Kraft sum of the leaf lengths is one plus a unit for
      every clamped father, and more leaves than that have the greatest length. */
  lemma LeafKraft(t: Tree, l: seq<nat>, max: nat)
    requires TreeOk(t) && Lens(t, l, max) && max >= 1
    ensures forall i :: 0 <= i < |LeafIds(t.nodes, t.elems)| ==> LeafIds(t.nodes, t.elems)[i] < |l|
    ensures t.Root() < |l| && t.N() >= 1
    ensures var v := Values(l, LeafIds(t.nodes, t.elems)); var c := Clamped(t, l, max, t.N() - 1);
      Kraft(v, max) == Pow2(max) + c && (c > 0 ==> Count(v, max) > c)
  {
    hide TreeOk, Lens, Frontier, Kraft, Count, LeafIds;
    TreeSizes(t);
    LensSizes(t, l, max);
    FrontierKraft(t, l, max, t.N() - 1);
    LeavesInside(t, l, max);
    FrontierOfLeaves(t.nodes, t.elems, l, max);
  }

  lemma LeavesInside(t: Tree, l: seq<nat>, max: nat)
    requires TreeOk(t) && Lens(t, l, max) && max >= 1
    ensures forall i :: 0 <= i < |t.nodes| ==> t.nodes[i] < |l|
    ensures forall i :: 0 <= i < |t.nodes| && t.nodes[i] < t.elems ==> 0 < l[t.nodes[i]] <= max
  {
    forall i | 0 <= i < |t.nodes| ensures t.nodes[i] < |l| && (t.nodes[i] < t.elems ==> 0 < l[t.nodes[i]] <= max) {
      NodeBound(t, i);
      LenBound(t, l, max, i);
    }
  }

  /** The frontier of leaves weighs what the leaves cost. */
  lemma {:induction false} FrontierWeighs(nodes: seq<nat>, elems: nat, f: seq<nat>, l: seq<nat>)
    requires |f| == |l| && forall i :: 0 <= i < |nodes| ==> nodes[i] < |l|
    requires elems <= |l|
    ensures Frontier(nodes, elems, CostVal(f, l), |nodes|, elems - 1) == Weighed(f, l, LeafIds(nodes, elems))
    decreases |nodes|
  {
    if nodes != [] {
      hide Frontier, LeafIds, CostVal, Weighed;
      var last := |nodes| - 1;
      var rest, x := nodes[..last], nodes[last];
      FrontierWeighs(rest, elems, f, l);
      FrontierPrefix(nodes, elems, CostVal(f, l), last, elems - 1);
      FrontierUnfold(nodes, elems, CostVal(f, l), |nodes|, elems - 1);
      LeafIdsLast(nodes, elems);
      CostValAt(f, l, x);
      if x < elems {
        WeighedSnoc(f, l, LeafIds(rest, elems), x);
      } else {
        assert LeafIds(rest, elems) + [] == LeafIds(rest, elems);
      }
    }
  }

  lemma CostValAt(f: seq<nat>, l: seq<nat>, x: nat)
    requires |f| == |l| && x < |l|
    ensures CostVal(f, l)[x] == f[x] * l[x]
  {}

  /** The sum of frequency times length. */
  function Weighed(f: seq<nat>, l: seq<nat>, ids: seq<nat>): nat
    requires |f| == |l| && forall i :: 0 <= i < |ids| ==> ids[i] < |l|
  {
    if ids == [] then 0
    else
      var last := |ids| - 1;
      Weighed(f, l, ids[..last]) + f[ids[last]] * l[ids[last]]
  }

  lemma WeighedSnoc(f: seq<nat>, l: seq<nat>, ids: seq<nat>, x: nat)
    requires |f| == |l| && (forall i :: 0 <= i < |ids| ==> ids[i] < |l|) && x < |l|
    ensures Weighed(f, l, ids + [x]) == Weighed(f, l, ids) + f[x] * l[x]
  {
    assert (ids + [x])[..|ids|] == ids;
  }

  /** A tree without clamped fathers costs its leaves the sum of its internal nodes. */
  lemma LeafCost(t: Tree, l: seq<nat>, max: nat, f: seq<nat>)
    requires TreeOk(t) && Lens(t, l, max) && max >= 1 && Sums(t, f)
    requires t.N() >= 1 && t.Root() < |l| && Clamped(t, l, max, t.N() - 1) == 0
    ensures |f| == |l| && t.elems <= t.Root() < |f|
    ensures forall i :: 0 <= i < |LeafIds(t.nodes, t.elems)| ==> LeafIds(t.nodes, t.elems)[i] < |l|
    ensures Weighed(f, l, LeafIds(t.nodes, t.elems)) == SumRange(f, t.elems, t.Root() + 1)
  {
    hide TreeOk, Lens, Frontier, Weighed, LeafIds, Sums, Clamped;
    TreeSizes(t);
    LensSizes(t, l, max);
    SumsSizes(t, f);
    FrontierCost(t, l, max, f, t.N() - 1);
    LeavesInside(t, l, max);
    FrontierWeighs(t.nodes, t.elems, f, l);
  }

  // ---------- counts of lengths ----------

  /** The end of the codes of length b, from the counts alone. */
  function EndOf(bl: seq<nat>, b: nat): nat
    requires b < |bl|
  {
    if b == 0 then 0 else 2 * EndOf(bl, b - 1) + bl[b]
  }

  /** bl is the histogram of the lengths 1 to max of v. */
  predicate Histogram(bl: seq<nat>, v: seq<nat>, max: nat) {
    max < |bl| && forall b :: 1 <= b <= max ==> bl[b] == Count(v, b)
  }

  lemma {:induction false} EndOfCounts(bl: seq<nat>, v: seq<nat>, max: nat, b: nat)
    requires Histogram(bl, v, max) && 1 <= b <= max
    ensures EndOf(bl, b) == CodeEnd(v, b)
  {
    if b == 1 {
      assert FirstCode(v, 0) == 0 && EndOf(bl, 0) == 0;
      assert FirstCode(v, 1) == 2 * FirstCode(v, 0);
    } else {
      EndOfCounts(bl, v, max, b - 1);
    }
  }

  lemma {:induction false} EndOfUpdate(bl: seq<nat>, i: nat, x: nat, b: nat)
    requires 1 <= i <= b < |bl|
    ensures EndOf(bl[i := x], b) + bl[i] * Pow2(b - i) == EndOf(bl, b) + x * Pow2(b - i)
    decreases b
  {
    if i == b {
      EndOfFrame(bl, i, x, b - 1);
    } else {
      EndOfUpdate(bl, i, x, b - 1);
      assert Pow2(b - i) == 2 * Pow2(b - 1 - i);
      assert bl[i] * Pow2(b - i) == 2 * (bl[i] * Pow2(b - 1 - i));
      assert x * Pow2(b - i) == 2 * (x * Pow2(b - 1 - i));
    }
  }

  lemma {:induction false} EndOfFrame(bl: seq<nat>, i: nat, x: nat, b: nat)
    requires b < i < |bl|
    ensures EndOf(bl[i := x], b) == EndOf(bl, b)
  {
    if b > 0 { EndOfFrame(bl, i, x, b - 1); }
  }

  lemma {:induction false} EndOfZeros(bl: seq<nat>, b: nat)
    requires b < |bl| && forall i :: 1 <= i <= b ==> bl[i] == 0
    ensures EndOf(bl, b) == 0
  {
    if b > 0 { EndOfZeros(bl, b - 1); }
  }

  /** How many codes there are of lengths 1 to b. */
  function Total(bl: seq<nat>, b: nat): nat
    requires b < |bl|
  {
    if b == 0 then 0 else Total(bl, b - 1) + bl[b]
  }

  lemma {:induction false} TotalUpdate(bl: seq<nat>, i: nat, x: nat, b: nat)
    requires 1 <= i < |bl| && b < |bl|
    ensures Total(bl[i := x], b) + (if i <= b then bl[i] else 0) == Total(bl, b) + (if i <= b then x else 0)
  {
    if b > 0 { TotalUpdate(bl, i, x, b - 1); }
  }

  lemma {:induction false} TotalZeros(bl: seq<nat>, b: nat)
    requires b < |bl| && forall i :: 1 <= i <= b ==> bl[i] == 0
    ensures Total(bl, b) == 0
  {
    if b > 0 { TotalZeros(bl, b - 1); }
  }

  lemma {:induction false} TotalCounts(bl: seq<nat>, v: seq<nat>, max: nat)
    requires Histogram(bl, v, max) && forall i :: 0 <= i < |v| ==> 1 <= v[i] <= max
    ensures Total(bl, max) == |v|
    decreases |v|
  {
    if v == [] {
      TotalZeros(bl, max);
    } else {
      var last := |v| - 1;
      var x := v[last];
      var bl' := bl[x := Count(v[..last], x)];
      assert Count(v, x) == Count(v[..last], x) + 1;
      TotalCounts(bl', v[..last], max);
      TotalUpdate(bl, x, bl'[x], max);
    }
  }

  // ---------- the repair ----------

  /** The state of the repair loop: the counts still describe n codes, whose Kraft sum is
      too large by extra units, and more codes than that have the greatest length. */
  predicate Repairing(bl: seq<nat>, max: nat, n: nat, extra: nat)
  {
    && 1 <= max < |bl| && n <= Pow2(max)
    && EndOf(bl, max) == Pow2(max) + extra
    && Total(bl, max) == n && bl[max] > extra
  }

  /** While the Kraft sum is too large some code is shorter than max. */
  lemma ShorterExists(bl: seq<nat>, max: nat, n: nat, extra: nat)
    requires Repairing(bl, max, n, extra) && extra > 0
    ensures exists b :: 1 <= b < max && bl[b] != 0
  {
    var m := max - 1;
    if forall b :: 1 <= b <= m ==> bl[b] == 0 {
      TotalZeros(bl, m);
      EndOfZeros(bl, m);
    }
  }

  /** One leaf moves down a level and takes an overflowing leaf as its brother. */
  function MoveDown(bl: seq<nat>, bits: nat, max: nat): (r: seq<nat>)
    requires 1 <= bits < max < |bl| && bl[bits] > 0 && bl[max] > 0
    ensures |r| == |bl|
  {
    var b1 := bl[bits := bl[bits] - 1];
    var b2 := b1[bits + 1 := b1[bits + 1] + 2];
    b2[max := b2[max] - 1]
  }

  /** Each step of the repair takes one unit off the Kraft sum and keeps the number of codes. */
  lemma MoveDownRepairs(bl: seq<nat>, bits: nat, max: nat, n: nat, extra: nat)
    requires Repairing(bl, max, n, extra) && extra > 0 && 1 <= bits < max && bl[bits] > 0
    ensures Repairing(MoveDown(bl, bits, max), max, n, extra - 1)
  {
    hide EndOf, Total;
    var b1 := bl[bits := bl[bits] - 1];
    var b2 := b1[bits + 1 := b1[bits + 1] + 2];
    EndOfUpdate(bl, bits, bl[bits] - 1, max);
    EndOfUpdate(b1, bits + 1, b1[bits + 1] + 2, max);
    EndOfUpdate(b2, max, b2[max] - 1, max);
    TotalUpdate(bl, bits, bl[bits] - 1, max);
    TotalUpdate(b1, bits + 1, b1[bits + 1] + 2, max);
    TotalUpdate(b2, max, b2[max] - 1, max);
    var p := Pow2(max - (bits + 1));
    assert Pow2(max - bits) == 2 * p && Pow2(0) == 1;
    Spread(bl[bits], 2 * p);
    Spread(b1[bits + 1] + 1, p);
    Spread(b1[bits + 1] + 2, p);
  }

  lemma Spread(x: int, p: int)
    ensures (x - 1) * p == x * p - p
  {}
}
