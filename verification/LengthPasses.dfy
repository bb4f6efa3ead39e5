/** The two passes of gen_bitlen over the finished tree, step by step. */
module LengthPasses {
  import opened Bits
  import opened Canonical
  import opened Optimal
  import opened Heap
  import opened Merging
  import opened BitLengths

  const ULONG := 0x1_0000_0000

  function Wrap(x: int): (r: nat)
    ensures r < ULONG
  {
    x % ULONG
  }

  lemma WrapAdd(a: int, b: int)
    ensures Wrap(Wrap(a) + b) == Wrap(a + b)
  {}

  lemma WrapSub(a: int, b: int)
    ensures Wrap(Wrap(a) - b) == Wrap(a - b)
  {}

  lemma WrapSmall(a: int)
    requires 0 <= a < ULONG
    ensures Wrap(a) == a
  {}

  // ---------- from the merging loop to the tree ----------

  /** The tree that the last state of the merging loop describes. */
  function TreeOf(s: State, elems: nat, leaves: set<nat>): Tree
    requires s.max <= |s.h| && |s.h| > 1
  {
    Tree([s.h[1]] + s.h[s.max..], s.dad, elems, leaves)
  }

  lemma LastIsRoot(s: State, elems: nat, leaves: set<nat>, n: nat)
    requires Inv(s, elems, leaves, n) && s.len == 1 && n == |leaves| >= 2
    ensures s.h[1] == elems + n - 2
  {
    var root := elems + n - 2;
    var tail := s.h[s.max..];
    assert root in multiset(leaves) + multiset(Range(elems, s.node));
    assert root in Ids(s);
    forall k | 0 <= k < |tail| ensures tail[k] != root {
      assert tail[k] == s.h[s.max + k];
    }
    assert root !in multiset(tail);
    assert root in s.h[1..2];
  }

  lemma TreeFromInv(s: State, elems: nat, leaves: set<nat>, n: nat)
    requires Inv(s, elems, leaves, n) && s.len == 1 && n == |leaves| >= 2
    ensures TreeOk(TreeOf(s, elems, leaves))
    ensures Sums(TreeOf(s, elems, leaves), s.f)
  {
    hide Ids, Members, SonsOf, Ordered, Nodes, Late, Range;
    LastIsRoot(s, elems, leaves, n);
    TreeMembers(s, elems, leaves, n);
    TreePairs(s, elems, leaves, n);
    TreePlaces(s, elems, leaves, n);
    var t := TreeOf(s, elems, leaves);
    forall j | 0 <= j < n - 1 ensures PairOk(t, j) {
      assert PairHolds(s, elems, leaves, n, j);
    }
    assert TreeOk(t);
    forall j | 0 <= j < n - 1 ensures SumOk(t, s.f, j) {
      assert PairHolds(s, elems, leaves, n, j);
    }
  }

  lemma TreeMembers(s: State, elems: nat, leaves: set<nat>, n: nat)
    requires Inv(s, elems, leaves, n) && s.len == 1 && n == |leaves| >= 2
    ensures multiset(TreeOf(s, elems, leaves).nodes) == multiset(leaves) + multiset(Range(elems, elems + n - 1))
  {
    assert s.h[1..2] == [s.h[1]];
  }

  predicate PairHolds(s: State, elems: nat, leaves: set<nat>, n: nat, j: nat)
    requires s.max <= |s.h| && |s.h| > 1 && n == |leaves| && |s.dad| == |s.f| && j + 1 < n
  {
    var t := TreeOf(s, elems, leaves);
    && PairOk(t, j) && t.nodes[2 * j + 1] < |s.f| && t.nodes[2 * j + 2] < |s.f| && 0 <= t.Root() - j < |s.f|
    && s.f[t.Root() - j] == s.f[t.nodes[2 * j + 1]] + s.f[t.nodes[2 * j + 2]]
  }

  lemma TreePairs(s: State, elems: nat, leaves: set<nat>, n: nat)
    requires Inv(s, elems, leaves, n) && s.len == 1 && n == |leaves| >= 2
    ensures forall j :: 0 <= j < n - 1 ==> PairHolds(s, elems, leaves, n, j)
  {
    hide Ids, Members, Ordered, Nodes, Late;
    var t := TreeOf(s, elems, leaves);
    forall j | 0 <= j < n - 1 ensures PairHolds(s, elems, leaves, n, j) {
      var x := t.Root() - j;
      assert SonsOf(s, elems, x);
      var q := SonPlace(elems, x);
      assert t.nodes[2 * j + 2] == s.h[q] && t.nodes[2 * j + 1] == s.h[q - 1];
    }
  }

  lemma TreePlaces(s: State, elems: nat, leaves: set<nat>, n: nat)
    requires Inv(s, elems, leaves, n) && s.len == 1 && n == |leaves| >= 2 && s.h[1] == elems + n - 2
    ensures var t := TreeOf(s, elems, leaves);
      forall q :: 0 <= q < |t.nodes| && t.nodes[q] >= elems ==> q <= 2 * (t.Root() - t.nodes[q])
  {
    hide Ids, Members, Ordered, Nodes, SonsOf;
    var t := TreeOf(s, elems, leaves);
    forall q | 0 <= q < |t.nodes| && t.nodes[q] >= elems ensures q <= 2 * (t.Root() - t.nodes[q]) {
      if q > 0 { assert t.nodes[q] == s.h[s.max + q - 1]; }
    }
  }

  // ---------- the first pass ----------

  /** The first q nodes have their length, the others still their father. */
  predicate PartLens(t: Tree, l: seq<nat>, max: nat, q: nat)
    requires TreeOk(t)
  {
    && 1 <= q <= |t.nodes| && |l| == |t.dad| && l[t.Root()] == 0
    && (forall i :: 0 <= i < |t.nodes| ==> t.nodes[i] < |l|)
    && (forall i :: 1 <= i < q ==> LenOk(t, l, max, i))
    && (forall i :: q <= i < |t.nodes| ==> l[t.nodes[i]] == t.dad[t.nodes[i]])
  }

  /** The place of a node's father. */
  lemma FatherPlace(t: Tree, i: nat) returns (k: nat)
    requires TreeOk(t) && 1 <= i < |t.nodes|
    ensures t.nodes[i] < |t.dad| && t.elems <= t.dad[t.nodes[i]] <= t.Root()
    ensures k < i && t.nodes[k] == t.dad[t.nodes[i]]
  {
    var j := (i - 1) / 2;
    assert PairOk(t, j);
    k := PlaceOf(t, j);
  }

  lemma PartLensStep(t: Tree, l: seq<nat>, max: nat, q: nat)
    requires TreeOk(t) && PartLens(t, l, max, q) && q < |t.nodes|
    ensures var n := t.nodes[q];
      && n < |l| && l[n] < |l| && PartLens(t, l[n := Clamp(l[l[n]] + 1, max)], max, q + 1)
      && l[n] == t.dad[n] && l[l[n]] <= MaxOf(max, 0)
  {
    hide TreeOk;
    var n := t.nodes[q];
    var k := FatherPlace(t, q);
    NodeBound(t, q);
    var l' := l[n := Clamp(l[l[n]] + 1, max)];
    TreeSizes(t);
    NodesInside(t);
    NodesDistinct(t, k, q);
    if k > 0 { assert LenOk(t, l, max, k); }
    forall i | 1 <= i < q + 1 ensures LenOk(t, l', max, i) {
      var m := FatherPlace(t, i);
      NodesDistinct(t, m, i);
      if m < q { NodesDistinct(t, m, q); }
      if i < q {
        assert LenOk(t, l, max, i);
        NodesDistinct(t, i, q);
      }
    }
    forall i | q + 1 <= i < |t.nodes| ensures l'[t.nodes[i]] == t.dad[t.nodes[i]] {
      NodesDistinct(t, q, i);
    }
    RootFirst(t);
    NodesDistinct(t, 0, q);
  }

  lemma NodesInside(t: Tree)
    requires TreeOk(t)
    ensures forall i :: 0 <= i < |t.nodes| ==> t.nodes[i] < |t.dad|
  {
    forall i | 0 <= i < |t.nodes| ensures t.nodes[i] < |t.dad| { NodeBound(t, i); }
  }

  lemma RootFirst(t: Tree)
    requires TreeOk(t)
    ensures t.nodes != [] && t.nodes[0] == t.Root()
  {}

  lemma PartLensDone(t: Tree, l: seq<nat>, max: nat)
    requires TreeOk(t) && PartLens(t, l, max, |t.nodes|)
    ensures Lens(t, l, max)
  {}

  /** How many of the nodes 1 to q - 1 overflow. */
  function Overflows(t: Tree, l: seq<nat>, max: nat, q: nat): nat
    requires TreeOk(t) && 1 <= q <= |t.nodes|
  {
    if q == 1 then 0
    else
      var x := t.nodes[q - 2 + 1];
      Overflows(t, l, max, q - 1)
        + (if x < |t.dad| && t.dad[x] < |l| && l[t.dad[x]] + 1 > max then 1 else 0)
  }

  lemma {:induction false} OverflowsFrame(t: Tree, l: seq<nat>, max: nat, q: nat, r: nat, v: nat)
    requires TreeOk(t) && 1 <= q <= r < |t.nodes| && t.nodes[r] < |l|
    ensures Overflows(t, l[t.nodes[r] := v], max, q) == Overflows(t, l, max, q)
    decreases q
  {
    if q > 1 {
      OverflowsFrame(t, l, max, q - 1, r, v);
      var k := FatherPlace(t, q - 1);
      NodesDistinct(t, k, r);
    }
  }

  lemma {:induction false} OverflowsArePairs(t: Tree, l: seq<nat>, max: nat, j: nat)
    requires TreeOk(t) && |l| == |t.dad| && j <= t.N() - 1
    ensures Overflows(t, l, max, 2 * j + 1) == 2 * Clamped(t, l, max, j)
  {
    if j > 0 {
      OverflowsArePairs(t, l, max, j - 1);
      assert PairOk(t, j - 1);
      hide TreeOk;
      assert Overflows(t, l, max, 2 * j + 1) == Overflows(t, l, max, 2 * j)
        + (if l[t.Root() - (j - 1)] + 1 > max then 1 else 0);
    }
  }

  // ---------- sums over lists of leaves ----------

  /** Extra bits of code n. */
  function XBits(extra: seq<nat>, base: nat, n: nat): nat {
    if n >= base && n - base < |extra| then extra[n - base] else 0
  }

  /** The bits that the leaves ids take: frequency times length plus extra bits. */
  function CostOf(f: seq<nat>, l: seq<nat>, extra: seq<nat>, base: nat, ids: seq<nat>): nat
    requires forall i :: 0 <= i < |ids| ==> ids[i] < |f| && ids[i] < |l|
  {
    if ids == [] then 0
    else
      var last := |ids| - 1;
      var x := ids[last];
      CostOf(f, l, extra, base, ids[..last]) + ItemCost(f, l, extra, base, x)
  }

  function ItemCost(f: seq<nat>, l: seq<nat>, extra: seq<nat>, base: nat, x: nat): nat
    requires x < |f| && x < |l|
  {
    f[x] * (l[x] + XBits(extra, base, x))
  }

  lemma CostOfSnoc(f: seq<nat>, l: seq<nat>, extra: seq<nat>, base: nat, ids: seq<nat>, x: nat)
    requires (forall i :: 0 <= i < |ids| ==> ids[i] < |f| && ids[i] < |l|) && x < |f| && x < |l|
    ensures CostOf(f, l, extra, base, ids + [x]) == CostOf(f, l, extra, base, ids) + ItemCost(f, l, extra, base, x)
  {
    hide ItemCost;
    assert (ids + [x])[..|ids|] == ids;
  }

  lemma {:induction false} CostOfFrame(f: seq<nat>, l: seq<nat>, l': seq<nat>, extra: seq<nat>, base: nat,
      ids: seq<nat>)
    requires |l'| == |l| && forall i :: 0 <= i < |ids| ==> ids[i] < |f| && ids[i] < |l| && l[ids[i]] == l'[ids[i]]
    ensures CostOf(f, l', extra, base, ids) == CostOf(f, l, extra, base, ids)
    decreases |ids|
  {
    if ids != [] { CostOfFrame(f, l, l', extra, base, ids[..|ids| - 1]); }
  }

  /** Changing the length of the leaf at place k. */
  lemma {:induction false} CostOfUpdate(f: seq<nat>, l: seq<nat>, extra: seq<nat>, base: nat, ids: seq<nat>, k: nat,
      v: nat)
    requires forall i :: 0 <= i < |ids| ==> ids[i] < |f| && ids[i] < |l|
    requires k < |ids| && forall i :: 0 <= i < |ids| && i != k ==> ids[i] != ids[k]
    ensures CostOf(f, l[ids[k] := v], extra, base, ids) + f[ids[k]] * l[ids[k]]
         == CostOf(f, l, extra, base, ids) + f[ids[k]] * v
    decreases |ids|
  {
    var last := |ids| - 1;
    var x, e := ids[k], XBits(extra, base, ids[k]);
    if k == last {
      CostOfFrame(f, l, l[x := v], extra, base, ids[..last]);
      assert f[x] * (v + e) == f[x] * v + f[x] * e;
      assert f[x] * (l[x] + e) == f[x] * l[x] + f[x] * e;
    } else {
      CostOfUpdate(f, l, extra, base, ids[..last], k, v);
    }
  }

  function CostSeq(f: seq<nat>, l: seq<nat>, extra: seq<nat>, base: nat): (r: seq<nat>)
    requires |f| == |l|
    ensures |r| == |l|
  {
    seq(|l|, i requires 0 <= i < |l| => ItemCost(f, l, extra, base, i))
  }

  lemma {:induction false} CostOfIsSum(f: seq<nat>, l: seq<nat>, extra: seq<nat>, base: nat, ids: seq<nat>)
    requires |f| == |l| && forall i :: 0 <= i < |ids| ==> ids[i] < |l|
    ensures CostOf(f, l, extra, base, ids) == Sum(multiset(Values(CostSeq(f, l, extra, base), ids)))
    decreases |ids|
  {
    hide ItemCost, Sum;
    var c := CostSeq(f, l, extra, base);
    if ids == [] {
      SumOfNone();
      assert Values(c, ids) == [];
    } else {
      var last := |ids| - 1;
      CostOfIsSum(f, l, extra, base, ids[..last]);
      ValuesSnoc(c, ids[..last], ids[last]);
      assert ids[..last] + [ids[last]] == ids;
      SumAdd(multiset(Values(c, ids[..last])), c[ids[last]]);
      MultisetSnoc(Values(c, ids[..last]), c[ids[last]]);
    }
  }

  lemma SumOfNone()
    ensures Sum(multiset{}) == 0
  {}

  lemma MultisetSnoc(s: seq<nat>, x: nat)
    ensures multiset(s + [x]) == multiset(s) + multiset{x}
  {}

  /** The cost does not depend on the order of the leaves. */
  lemma CostOfPermute(f: seq<nat>, l: seq<nat>, extra: seq<nat>, base: nat, a: seq<nat>, b: seq<nat>)
    requires |f| == |l| && (forall i :: 0 <= i < |a| ==> a[i] < |l|) && multiset(a) == multiset(b)
    ensures forall i :: 0 <= i < |b| ==> b[i] < |l|
    ensures CostOf(f, l, extra, base, a) == CostOf(f, l, extra, base, b)
  {
    hide Values, CostSeq, CostOf;
    var c := CostSeq(f, l, extra, base);
    ValuesPermute(c, a, b);
    CostOfIsSum(f, l, extra, base, a);
    CostOfIsSum(f, l, extra, base, b);
  }

  // ---------- the first pass as a loop ----------

  /** bl counts the lengths v. */
  predicate Tallied(bl: seq<nat>, v: seq<nat>) {
    |bl| == 16 && forall b :: 0 <= b < 16 ==> bl[b] == Count(v, b)
  }

  lemma TallyOne(bl: seq<nat>, v: seq<nat>, x: nat)
    requires Tallied(bl, v) && x < 16
    ensures Tallied(bl[x := bl[x] + 1], v + [x])
  {
    forall b | 0 <= b < 16 ensures bl[x := bl[x] + 1][b] == Count(v + [x], b) { SnocCount(v, x, b); }
  }

  /** The leaves among the first q nodes. */
  function LeavesTo(t: Tree, q: nat): seq<nat>
    requires q <= |t.nodes|
  {
    LeafIds(t.nodes[..q], t.elems)
  }

  /** Two lists agree on the symbols that are not in use. */
  predicate SameOutside(l: seq<nat>, m: seq<nat>, k: nat, leaves: set<nat>) {
    k <= |l| == |m| && forall i :: 0 <= i < k && i !in leaves ==> l[i] == m[i]
  }

  lemma SameOutsideStep(l: seq<nat>, m: seq<nat>, k: nat, leaves: set<nat>, n: nat, v: nat)
    requires SameOutside(l, m, k, leaves) && n < |l| && (n < k ==> n in leaves)
    ensures SameOutside(l[n := v], m, k, leaves)
  {}

  lemma SameOutsideTells(l: seq<nat>, m: seq<nat>, k: nat, leaves: set<nat>)
    requires SameOutside(l, m, k, leaves)
    ensures k <= |l| == |m| && forall i :: 0 <= i < k && i !in leaves ==> l[i] == m[i]
  {}

  lemma RootOutside(t: Tree, l: seq<nat>)
    requires TreeOk(t) && t.Root() < |t.dad| && l == t.dad[t.Root() := 0]
    ensures SameOutside(l, t.dad, t.elems, t.leaves)
  {}

  predicate InBounds(ids: seq<nat>, n: nat) {
    forall i :: 0 <= i < |ids| ==> ids[i] < n
  }

  lemma LeavesToStep(t: Tree, q: nat)
    requires q < |t.nodes|
    ensures LeavesTo(t, q + 1) == if t.nodes[q] < t.elems then LeavesTo(t, q) + [t.nodes[q]] else LeavesTo(t, q)
    ensures InBounds(LeavesTo(t, q), t.elems)
  {
    assert t.nodes[..q + 1][..q] == t.nodes[..q];
    LeafIdsLast(t.nodes[..q + 1], t.elems);
    assert LeavesTo(t, q) + [] == LeavesTo(t, q);
  }

  lemma LeavesToAll(t: Tree)
    ensures LeavesTo(t, |t.nodes|) == LeafIds(t.nodes, t.elems)
    ensures InBounds(LeafIds(t.nodes, t.elems), t.elems)
  {
    assert t.nodes[..|t.nodes|] == t.nodes;
  }

  /** A node further on is not among the first leaves. */
  lemma NotYet(t: Tree, q: nat)
    requires TreeOk(t) && q < |t.nodes|
    ensures forall i :: 0 <= i < |LeavesTo(t, q)| ==> LeavesTo(t, q)[i] != t.nodes[q]
  {
    var ids := LeavesTo(t, q);
    forall i | 0 <= i < |ids| ensures ids[i] != t.nodes[q] {
      LeafIdsMembers(t.nodes[..q], t.elems, ids[i]);
      assert ids[i] in multiset(ids);
      assert ids[i] in t.nodes[..q];
      var k :| 0 <= k < q && t.nodes[k] == ids[i];
      NodesDistinct(t, k, q);
    }
  }

  /** Setting the length of node q keeps what was counted before and adds the node if it
      is a leaf. */
  lemma PassStep(t: Tree, l: seq<nat>, q: nat, v: nat, f: seq<nat>, sl: seq<nat>, extra: seq<nat>, base: nat)
    requires TreeOk(t) && q < |t.nodes| && t.nodes[q] < |l| == |f| == |t.dad| && t.elems <= |sl|
    ensures t.elems <= |f| && InBounds(LeavesTo(t, q), t.elems) && InBounds(LeavesTo(t, q + 1), t.elems)
    ensures var n := t.nodes[q]; var l' := l[n := v]; var ids, ids' := LeavesTo(t, q), LeavesTo(t, q + 1);
      if n < t.elems then
        && Values(l', ids') == Values(l, ids) + [v]
        && CostOf(f, l', extra, base, ids') == CostOf(f, l, extra, base, ids) + ItemCost(f, l', extra, base, n)
        && CostOf(f, sl, extra, base, ids') == CostOf(f, sl, extra, base, ids) + ItemCost(f, sl, extra, base, n)
      else
        && Values(l', ids') == Values(l, ids) && ids' == ids
        && CostOf(f, l', extra, base, ids') == CostOf(f, l, extra, base, ids)
  {
    hide TreeOk, LeavesTo, CostOf, ItemCost, Values;
    TreeSizes(t);
    LeavesToStep(t, q);
    NotYet(t, q);
    var n := t.nodes[q];
    var l', ids := l[n := v], LeavesTo(t, q);
    ValuesFrame(l, l', ids, n);
    CostOfFrame(f, l, l', extra, base, ids);
    if n < t.elems {
      ValuesSnoc(l', ids, n);
      CostOfSnoc(f, l', extra, base, ids, n);
      CostOfSnoc(f, sl, extra, base, ids, n);
    }
  }

  lemma FirstNode(t: Tree, max: nat)
    requires TreeOk(t)
    ensures |t.nodes| > 0 && t.nodes[0] == t.Root() && 0 <= t.Root() < |t.dad|
    ensures t.elems <= t.Root() && PartLens(t, t.dad[t.Root() := 0], max, 1)
    ensures Overflows(t, t.dad[t.Root() := 0], max, 1) == 0
  {
    NodesInside(t);
    forall i | 1 <= i < |t.nodes| ensures t.nodes[i] != t.Root() { NodesDistinct(t, 0, i); }
  }

  lemma PassStart(t: Tree, f: seq<nat>, l: seq<nat>, sl: seq<nat>, extra: seq<nat>, base: nat)
    requires TreeOk(t)
    ensures LeavesTo(t, 1) == [] && InBounds([], t.elems)
    ensures Values(l, []) == [] && CostOf(f, l, extra, base, []) == 0 && CostOf(f, sl, extra, base, []) == 0
  {
    assert t.nodes[..1] == [t.nodes[0]];
    LeafIdsOne(t.nodes[0], t.elems);
  }

  lemma OverflowsStep(t: Tree, l: seq<nat>, max: nat, q: nat, v: nat)
    requires TreeOk(t) && 1 <= q < |t.nodes| && t.nodes[q] < |l| == |t.dad|
    requires l[t.nodes[q]] == t.dad[t.nodes[q]] < |l|
    ensures Overflows(t, l[t.nodes[q] := v], max, q + 1)
         == Overflows(t, l, max, q) + (if l[l[t.nodes[q]]] + 1 > max then 1 else 0)
  {
    OverflowsFrame(t, l, max, q, q, v);
    var k := FatherPlace(t, q);
    NodesDistinct(t, k, q);
  }

  lemma OverflowsDone(t: Tree, l: seq<nat>, max: nat)
    requires TreeOk(t) && |l| == |t.dad|
    ensures t.N() >= 1 && t.Root() < |l| && Overflows(t, l, max, |t.nodes|) == 2 * Clamped(t, l, max, t.N() - 1)
  {
    OverflowsArePairs(t, l, max, t.N() - 1);
  }

  // ---------- the second pass ----------

  /** The leaves from place h on have been given their final lengths: the counts of
      longer lengths are used up, rest codes of length bits are still to come. */
  predicate Handed(t: Tree, l: seq<nat>, bl: seq<nat>, max: nat, h: nat, bits: nat, rest: nat)
    requires TreeOk(t) && h <= |t.nodes| && |l| == |t.dad|
  {
    && max < |bl| && bits <= max
    && (forall i :: 0 <= i < |LeafIds(t.nodes[h..], t.elems)| ==> LeafIds(t.nodes[h..], t.elems)[i] < |l|)
    && var v := Values(l, LeafIds(t.nodes[h..], t.elems));
      && (forall i :: 0 <= i < |v| ==> bits <= v[i] <= max)
      && (forall b :: bits < b <= max ==> Count(v, b) == bl[b])
      && Count(v, bits) + rest == bl[bits]
  }

  lemma {:induction false} CountAbove(v: seq<nat>, b: nat)
    requires forall i :: 0 <= i < |v| ==> b < v[i]
    ensures Count(v, b) == 0
    decreases |v|
  {
    if v != [] { CountAbove(v[..|v| - 1], b); }
  }

  /** Going on to the next shorter length. */
  lemma HandedNext(t: Tree, l: seq<nat>, bl: seq<nat>, max: nat, h: nat, bits: nat)
    requires TreeOk(t) && h <= |t.nodes| && |l| == |t.dad| && bits >= 1
    requires Handed(t, l, bl, max, h, bits, 0)
    ensures Handed(t, l, bl, max, h, bits - 1, bl[bits - 1])
  {
    CountAbove(Values(l, LeafIds(t.nodes[h..], t.elems)), bits - 1);
  }

  lemma HandedStart(t: Tree, l: seq<nat>, bl: seq<nat>, max: nat)
    requires TreeOk(t) && |l| == |t.dad| && max < |bl|
    ensures Handed(t, l, bl, max, |t.nodes|, max, bl[max])
  {
    assert t.nodes[|t.nodes|..] == [];
    assert LeafIds([], t.elems) == [];
  }

  lemma ConsSplit(nodes: seq<nat>, h: nat)
    requires 0 < h <= |nodes|
    ensures nodes[h - 1..] == [nodes[h - 1]] + nodes[h..]
  {}

  lemma LeafIdsOne(x: nat, elems: nat)
    ensures LeafIds([x], elems) == if x < elems then [x] else []
  {
    assert [x][..0] == [];
    assert LeafIds([], elems) == [];
  }

  lemma {:induction false} CountConcat(a: seq<nat>, b: seq<nat>, x: nat)
    ensures Count(a + b, x) == Count(a, x) + Count(b, x)
    decreases |b|
  {
    if b == [] {
      assert a + b == a;
    } else {
      var last := |b| - 1;
      assert (a + b)[..|a + b| - 1] == a + b[..last];
      CountConcat(a, b[..last], x);
    }
  }

  /** Passing an internal node. */
  lemma HandedSkip(t: Tree, l: seq<nat>, bl: seq<nat>, max: nat, h: nat, bits: nat, rest: nat)
    requires TreeOk(t) && 0 < h <= |t.nodes| && |l| == |t.dad| && t.nodes[h - 1] >= t.elems
    requires Handed(t, l, bl, max, h, bits, rest)
    ensures Handed(t, l, bl, max, h - 1, bits, rest)
  {
    ConsSplit(t.nodes, h);
    LeafIdsConcat([t.nodes[h - 1]], t.nodes[h..], t.elems);
    LeafIdsOne(t.nodes[h - 1], t.elems);
    assert [] + LeafIds(t.nodes[h..], t.elems) == LeafIds(t.nodes[h..], t.elems);
  }

  /** Giving a leaf its length. */
  lemma HandedGive(t: Tree, l: seq<nat>, bl: seq<nat>, max: nat, h: nat, bits: nat, rest: nat)
    requires TreeOk(t) && 0 < h <= |t.nodes| && |l| == |t.dad| && t.nodes[h - 1] < t.elems
    requires Handed(t, l, bl, max, h, bits, rest) && rest > 0
    ensures t.nodes[h - 1] < |l| && Handed(t, l[t.nodes[h - 1] := bits], bl, max, h - 1, bits, rest - 1)
  {
    hide TreeOk, LeafIds, Count, Values;
    var x := t.nodes[h - 1];
    NodeBound(t, h - 1);
    TreeSizes(t);
    var old_ids := LeafIds(t.nodes[h..], t.elems);
    var l' := l[x := bits];
    LeafsBehind(t, h);
    ConsSplit(t.nodes, h);
    LeafIdsConcat([x], t.nodes[h..], t.elems);
    LeafIdsOne(x, t.elems);
    ValuesFrame(l, l', old_ids, x);
    ValuesCons(l', x, old_ids);
    var v := Values(l, old_ids);
    CountsCons(bits, v);
  }

  lemma ValuesCons(l: seq<nat>, x: nat, ids: seq<nat>)
    requires x < |l| && forall i :: 0 <= i < |ids| ==> ids[i] < |l|
    ensures Values(l, [x] + ids) == [l[x]] + Values(l, ids)
  {}

  lemma CountsCons(x: nat, v: seq<nat>)
    ensures forall b: nat :: Count([x] + v, b) == Count(v, b) + (if b == x then 1 else 0)
  {
    forall b: nat ensures Count([x] + v, b) == Count(v, b) + (if b == x then 1 else 0) {
      CountConcat([x], v, b);
      assert [x][..0] == [] && Count([], b) == 0;
    }
  }

  lemma LeafsBehind(t: Tree, h: nat)
    requires TreeOk(t) && 0 < h <= |t.nodes|
    ensures forall i :: 0 <= i < |LeafIds(t.nodes[h..], t.elems)| ==>
        LeafIds(t.nodes[h..], t.elems)[i] != t.nodes[h - 1]
  {
    var ids := LeafIds(t.nodes[h..], t.elems);
    forall i | 0 <= i < |ids| ensures ids[i] != t.nodes[h - 1] {
      LeafIdsMembers(t.nodes[h..], t.elems, ids[i]);
      assert ids[i] in multiset(ids);
      assert ids[i] in t.nodes[h..];
      var k :| 0 <= k < |t.nodes[h..]| && t.nodes[h..][k] == ids[i];
      NodesDistinct(t, h - 1, h + k);
    }
  }

  lemma {:induction false} TotalOfCounts(bl: seq<nat>, v: seq<nat>, lo: nat, max: nat)
    requires lo <= max < |bl| && (forall i :: 0 <= i < |v| ==> lo < v[i] <= max)
    requires forall b :: lo < b <= max ==> Count(v, b) == bl[b]
    ensures Total(bl, max) == Total(bl, lo) + |v|
    decreases |v|
  {
    if v == [] {
      TotalSame(bl, lo, max);
    } else {
      var last := |v| - 1;
      var x := v[last];
      var bl' := bl[x := Count(v[..last], x)];
      assert Count(v, x) == Count(v[..last], x) + 1;
      TotalOfCounts(bl', v[..last], lo, max);
      TotalUpdate(bl, x, bl'[x], max);
      TotalUpdate(bl, x, bl'[x], lo);
    }
  }

  lemma {:induction false} TotalSame(bl: seq<nat>, lo: nat, hi: nat)
    requires lo <= hi < |bl| && forall b :: lo < b <= hi ==> bl[b] == 0
    ensures Total(bl, hi) == Total(bl, lo)
  {
    if lo < hi { TotalSame(bl, lo, hi - 1); }
  }

  /** While codes are still to be handed out some leaf has not been given its length. */
  lemma HandedLeft(t: Tree, l: seq<nat>, bl: seq<nat>, max: nat, h: nat, bits: nat, rest: nat)
    requires TreeOk(t) && h <= |t.nodes| && |l| == |t.dad| && bits >= 1
    requires Handed(t, l, bl, max, h, bits, rest) && rest > 0 && Total(bl, max) == t.N()
    ensures h > 0
  {
    if h == 0 {
      var ids := LeafIds(t.nodes[0..], t.elems);
      assert t.nodes[0..] == t.nodes;
      var v := Values(l, ids);
      LeafNumber(t);
      var bl' := bl[bits := bl[bits] - rest];
      TotalOfCounts(bl', v, bits - 1, max);
      TotalUpdate(bl, bits, bl'[bits], max);
    }
  }

  lemma LeafNumber(t: Tree)
    requires TreeOk(t)
    ensures |LeafIds(t.nodes, t.elems)| == t.N()
  {
    LeafIdsAre(t);
    assert |multiset(LeafIds(t.nodes, t.elems))| == |LeafIds(t.nodes, t.elems)|;
    assert |multiset(t.leaves)| == |t.leaves|;
  }

  /** When all codes are handed out every leaf has its length. */
  lemma HandedAll(t: Tree, l: seq<nat>, bl: seq<nat>, max: nat, h: nat, rest: nat)
    requires TreeOk(t) && h <= |t.nodes| && |l| == |t.dad|
    requires Handed(t, l, bl, max, h, 0, rest) && Total(bl, max) == t.N() && bl[0] == 0
    ensures forall i :: 0 <= i < |LeafIds(t.nodes, t.elems)| ==> LeafIds(t.nodes, t.elems)[i] < |l|
    ensures var v := Values(l, LeafIds(t.nodes, t.elems));
      Histogram(bl, v, max) && forall i :: 0 <= i < |v| ==> 1 <= v[i] <= max
  {
    var ids := LeafIds(t.nodes[h..], t.elems);
    var v := Values(l, ids);
    NoneCounted(v);
    TotalOfCounts(bl, v, 0, max);
    LeafNumber(t);
    LeafIdsConcat(t.nodes[..h], t.nodes[h..], t.elems);
    assert t.nodes[..h] + t.nodes[h..] == t.nodes;
    assert |LeafIds(t.nodes[..h], t.elems)| == 0;
    assert LeafIds(t.nodes, t.elems) == ids;
  }

  lemma {:induction false} NoneCounted(v: seq<nat>)
    requires Count(v, 0) == 0
    ensures forall i :: 0 <= i < |v| ==> v[i] > 0
    decreases |v|
  {
    if v != [] {
      NoneCounted(v[..|v| - 1]);
    }
  }

  // ---------- the passes together ----------

  lemma LeafAt(t: Tree, q: nat) returns (k: nat)
    requires TreeOk(t) && q < |t.nodes| && t.nodes[q] < t.elems
    ensures k < |LeafIds(t.nodes, t.elems)| && LeafIds(t.nodes, t.elems)[k] == t.nodes[q]
    ensures forall i :: 0 <= i < |LeafIds(t.nodes, t.elems)| && i != k ==> LeafIds(t.nodes, t.elems)[i] != t.nodes[q]
  {
    var ids, x := LeafIds(t.nodes, t.elems), t.nodes[q];
    LeafIdsAre(t);
    NodeBound(t, q);
    assert x in multiset(ids);
    k :| 0 <= k < |ids| && ids[k] == x;
    forall i | 0 <= i < |ids| && i != k ensures ids[i] != x {
      assert multiset(ids)[x] <= 1;
      if ids[i] == x {
        if i < k { TwiceThere(ids, i, k); } else { TwiceThere(ids, k, i); }
      }
    }
  }

  /** Changing the length of one leaf changes the cost accordingly. */
  lemma CostChange(t: Tree, f: seq<nat>, l: seq<nat>, extra: seq<nat>, base: nat, q: nat, v: nat)
    requires TreeOk(t) && q < |t.nodes| && t.nodes[q] < t.elems && |f| == |l| == |t.dad|
    requires InBounds(LeafIds(t.nodes, t.elems), t.elems)
    ensures t.elems <= |l|
    ensures CostOf(f, l[t.nodes[q] := v], extra, base, LeafIds(t.nodes, t.elems))
         == CostOf(f, l, extra, base, LeafIds(t.nodes, t.elems)) + (v - l[t.nodes[q]]) * f[t.nodes[q]]
  {
    hide TreeOk, CostOf, LeafIds;
    TreeSizes(t);
    var k := LeafAt(t, q);
    CostOfUpdate(f, l, extra, base, LeafIds(t.nodes, t.elems), k, v);
    var x := t.nodes[q];
    assert (v - l[x]) * f[x] == f[x] * v - f[x] * l[x];
  }

  lemma {:induction false} CountBelow(v: seq<nat>, b: nat)
    requires forall i :: 0 <= i < |v| ==> v[i] < b
    ensures Count(v, b) == 0
    decreases |v|
  {
    if v != [] { CountBelow(v[..|v| - 1], b); }
  }

  predicate Within(v: seq<nat>, max: nat) {
    forall i :: 0 <= i < |v| ==> 1 <= v[i] <= max
  }

  lemma TalliedWithin(t: Tree, l: seq<nat>, max: nat, bl: seq<nat>)
    requires TreeOk(t) && Lens(t, l, max) && 1 <= max <= 15
    requires InBounds(LeafIds(t.nodes, t.elems), t.elems) && t.elems <= |l|
    requires Tallied(bl, Values(l, LeafIds(t.nodes, t.elems)))
    ensures var v := Values(l, LeafIds(t.nodes, t.elems));
      Within(v, max) && Histogram(bl, v, max) && bl[0] == 0 && (forall b :: max < b < 16 ==> bl[b] == 0)
  {
    hide TreeOk, Count, Lens;
    var ids := LeafIds(t.nodes, t.elems);
    var v := Values(l, ids);
    LeavesInside(t, l, max);
    forall i | 0 <= i < |v| ensures 1 <= v[i] <= max {
      LeafIsNode(t, i);
    }
    CountAbove(v, 0);
    forall b | max < b < 16 ensures bl[b] == 0 { CountBelow(v, b); }
  }

  lemma LeafIsNode(t: Tree, i: nat)
    requires i < |LeafIds(t.nodes, t.elems)|
    ensures LeafIds(t.nodes, t.elems)[i] in t.nodes
  {
    var x := LeafIds(t.nodes, t.elems)[i];
    LeafIdsMembers(t.nodes, t.elems, x);
    assert x in multiset(LeafIds(t.nodes, t.elems));
    assert x in multiset(t.nodes);
  }

  /** The counts after the first pass, seen by the repair loop. */
  lemma RepairStart(t: Tree, l: seq<nat>, max: nat, bl: seq<nat>)
    requires TreeOk(t) && Lens(t, l, max) && 1 <= max <= 15 && t.N() <= Pow2(max)
    requires InBounds(LeafIds(t.nodes, t.elems), t.elems) && t.elems <= |l|
    requires Tallied(bl, Values(l, LeafIds(t.nodes, t.elems)))
    ensures t.N() >= 1 && t.Root() < |l|
    ensures var c := Clamped(t, l, max, t.N() - 1);
      && EndOf(bl, max) == Pow2(max) + c && Total(bl, max) == t.N()
      && (c > 0 ==> Repairing(bl, max, t.N(), c))
  {
    hide TreeOk, Lens, Count, Kraft, Clamped, LeafIds, Values, EndOf, Total;
    TreeSizes(t);
    LensSizes(t, l, max);
    var v := Values(l, LeafIds(t.nodes, t.elems));
    LeafKraft(t, l, max);
    TalliedWithin(t, l, max, bl);
    EndOfCounts(bl, v, max, max);
    CodeEndIsKraft(v, max);
    TotalCounts(bl, v, max);
    LeafNumber(t);
  }

  /** The counts after the repair describe the lengths handed out. */
  lemma TalliedAgain(bl: seq<nat>, v: seq<nat>, max: nat)
    requires |bl| == 16 && max <= 15 && Histogram(bl, v, max) && Within(v, max) && bl[0] == 0
    requires forall b :: max < b < 16 ==> bl[b] == 0
    ensures Tallied(bl, v)
  {
    hide Count;
    CountAbove(v, 0);
    forall b | max < b < 16 ensures Count(v, b) == 0 { CountBelow(v, b); }
  }

  lemma KraftFromEnd(bl: seq<nat>, v: seq<nat>, max: nat)
    requires 1 <= max <= 15 && Tallied(bl, v) && EndOf(bl, max) == Pow2(max)
    ensures Kraft(v, max) == Pow2(max)
  {
    EndOfCounts(bl, v, max, max);
    CodeEndIsKraft(v, max);
  }
}
