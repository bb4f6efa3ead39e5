/** How deep the tree of build_tree is: the lengths that the first pass of gen_bitlen gives
    are the depths cut off at max_length, it overflows exactly when a leaf lies deeper, and
    a leaf can lie that deep only when the frequencies add up to a Fibonacci number. */
module Depths {
  import opened Heap
  import opened Optimal
  import opened Merging
  import opened BitLengths
  import opened LengthPasses

  /** How many fathers stand above node x. */
  function Depth(dad: seq<nat>, root: int, x: nat): nat
    decreases root - x
  {
    if x < root && x < |dad| && x < dad[x] <= root then 1 + Depth(dad, root, dad[x]) else 0
  }

  /** Some leaf lies deeper than max. */
  ghost predicate Deep(t: Tree, max: nat) {
    exists x :: x in t.leaves && Depth(t.dad, t.Root(), x) > max
  }

  /** Fathers come after their sons. */
  lemma FatherAbove(t: Tree, q: nat) returns (k: nat)
    requires TreeOk(t) && 1 <= q < |t.nodes|
    ensures var x := t.nodes[q];
      && x < |t.dad| && x < t.dad[x] <= t.Root()
      && t.dad[x] == t.Root() - (q - 1) / 2
      && k < q && k <= 2 * ((q - 1) / 2) && t.nodes[k] == t.dad[x]
  {
    var j := (q - 1) / 2;
    assert PairOk(t, j);
    k := PlaceOf(t, j);
    NodeBound(t, q);
  }

  lemma DepthStep(t: Tree, q: nat)
    requires TreeOk(t) && 1 <= q < |t.nodes|
    ensures t.nodes[q] < |t.dad| && t.elems <= t.dad[t.nodes[q]] <= t.Root()
    ensures Depth(t.dad, t.Root(), t.nodes[q]) == 1 + Depth(t.dad, t.Root(), t.dad[t.nodes[q]])
  {
    var k := FatherAbove(t, q);
    var k' := FatherPlace(t, q);
  }

  /** The first pass gives every node its depth, cut off at max. */
  lemma {:induction false} LensAreDepths(t: Tree, l: seq<nat>, max: nat, q: nat)
    requires TreeOk(t) && Lens(t, l, max) && q < |t.nodes|
    ensures t.nodes[q] < |l| && l[t.nodes[q]] == Clamp(Depth(t.dad, t.Root(), t.nodes[q]), max)
    decreases q
  {
    hide TreeOk;
    NodeBound(t, q);
    TreeSizes(t);
    if q == 0 {
      RootFirst(t);
    } else {
      var k := FatherPlace(t, q);
      DepthStep(t, q);
      LensAreDepths(t, l, max, k);
      assert LenOk(t, l, max, q);
    }
  }

  /** Under every node there is a leaf that is at least as deep. */
  lemma {:induction false} LeafBelow(t: Tree, q: nat) returns (x: nat)
    requires TreeOk(t) && q < |t.nodes|
    ensures x in t.leaves && Depth(t.dad, t.Root(), x) >= Depth(t.dad, t.Root(), t.nodes[q])
    decreases |t.nodes| - q
  {
    NodeBound(t, q);
    if t.nodes[q] < t.elems {
      x := t.nodes[q];
    } else {
      var j := t.Root() - t.nodes[q];
      SonBehind(t, q);
      DepthStep(t, 2 * j + 1);
      x := LeafBelow(t, 2 * j + 1);
    }
  }

  lemma SonBehind(t: Tree, q: nat)
    requires TreeOk(t) && q < |t.nodes| && t.nodes[q] >= t.elems
    ensures var j := t.Root() - t.nodes[q];
      0 <= j < t.N() - 1 && q < 2 * j + 1 && 2 * j + 2 < |t.nodes| && t.dad[t.nodes[2 * j + 1]] == t.nodes[q]
  {
    NodeBound(t, q);
    var j := t.Root() - t.nodes[q];
    assert PairOk(t, j);
  }

  lemma {:induction false} ClampedSome(t: Tree, l: seq<nat>, max: nat, n: nat)
    requires t.Root() < |l| && n <= t.Root() + 1
    ensures Clamped(t, l, max, n) > 0 <==> exists x: nat :: t.Root() - n < x <= t.Root() && l[x] >= max
  {
    if n > 0 { ClampedSome(t, l, max, n - 1); }
  }

  /** The first pass overflows exactly when a leaf lies deeper than max. */
  lemma OverflowIsDeep(t: Tree, l: seq<nat>, max: nat)
    requires TreeOk(t) && Lens(t, l, max)
    ensures Clamped(t, l, max, t.N() - 1) > 0 <==> Deep(t, max)
  {
    hide TreeOk, Lens, Clamped, Depth;
    TreeSizes(t);
    LensSizes(t, l, max);
    ClampedSome(t, l, max, t.N() - 1);
    if Clamped(t, l, max, t.N() - 1) > 0 {
      var x: nat :| t.Root() - (t.N() - 1) < x <= t.Root() && l[x] >= max;
      DeepFather(t, l, max, t.Root() - x);
    }
    if Deep(t, max) {
      var x :| x in t.leaves && Depth(t.dad, t.Root(), x) > max;
      ClampedFather(t, l, max, x);
    }
  }

  lemma DeepFather(t: Tree, l: seq<nat>, max: nat, j: nat)
    requires TreeOk(t) && Lens(t, l, max) && j < t.N() - 1 && 0 <= t.Root() - j < |l| && l[t.Root() - j] >= max
    ensures Deep(t, max)
  {
    hide Lens;
    var q := PlaceOf(t, j);
    LensAreDepths(t, l, max, q);
    SonBehind(t, q);
    DepthStep(t, 2 * j + 1);
    var x := LeafBelow(t, 2 * j + 1);
  }

  lemma LeafPlace(t: Tree, x: nat) returns (q: nat)
    requires TreeOk(t) && x in t.leaves
    ensures 1 <= q < |t.nodes| && t.nodes[q] == x
  {
    assert x in multiset(t.nodes);
    assert x in t.nodes;
    q :| 0 <= q < |t.nodes| && t.nodes[q] == x;
  }

  lemma ClampedFather(t: Tree, l: seq<nat>, max: nat, x: nat)
    requires TreeOk(t) && Lens(t, l, max) && x in t.leaves && Depth(t.dad, t.Root(), x) > max
    ensures |l| > t.Root() && exists y: nat :: t.Root() - (t.N() - 1) < y <= t.Root() && l[y] >= max
  {
    hide TreeOk, Lens, Depth;
    TreeSizes(t);
    var q := LeafPlace(t, x);
    var k := FatherAbove(t, q);
    DepthStep(t, q);
    LensAreDepths(t, l, max, k);
    LensSizes(t, l, max);
    assert l[t.dad[x]] >= max;
  }

  /** Without overflow every leaf gets its depth as its length. */
  lemma LeafDepth(t: Tree, l: seq<nat>, max: nat, x: nat)
    requires TreeOk(t) && Lens(t, l, max) && x in t.leaves && !Deep(t, max)
    ensures x < |l| && l[x] == Depth(t.dad, t.Root(), x)
  {
    hide TreeOk, Lens, Depth;
    var q := LeafPlace(t, x);
    LensAreDepths(t, l, max, q);
  }

  // ---------- how deep a tree can be ----------

  function Fib(n: nat): nat {
    if n < 2 then n else Fib(n - 1) + Fib(n - 2)
  }

  /** From the root down the frequencies never grow. */
  predicate Falling(nodes: seq<nat>, f: seq<nat>) {
    && (forall q :: 0 <= q < |nodes| ==> nodes[q] < |f|)
    && forall p, q :: 0 <= p <= q < |nodes| ==> f[nodes[q]] <= f[nodes[p]]
  }

  predicate AllUsed(t: Tree, f: seq<nat>) {
    forall x :: x in t.leaves ==> x < |f| && f[x] > 0
  }

  /** The last node is a leaf, so no node has frequency 0. */
  lemma NoneZero(t: Tree, f: seq<nat>, q: nat)
    requires TreeOk(t) && Falling(t.nodes, f) && AllUsed(t, f) && q < |t.nodes|
    ensures f[t.nodes[q]] > 0
  {
    var last := |t.nodes| - 1;
    NodeBound(t, last);
    if t.nodes[last] >= t.elems { SonBehind(t, last); }
    assert f[t.nodes[last]] <= f[t.nodes[q]];
  }

  /** Climbing to the root: a node with at least Fib(i + 2) and a sibling with at least
      Fib(i + 1) make a father with Fib(i + 3), whose sibling is no lighter than the node. */
  lemma {:induction false} Climb(t: Tree, f: seq<nat>, q: nat, i: nat)
    requires TreeOk(t) && Sums(t, f) && Falling(t.nodes, f) && 1 <= q < |t.nodes|
    requires f[t.nodes[q]] >= Fib(i + 2)
    requires var s := if q % 2 == 1 then q + 1 else q - 1; s < |t.nodes| && f[t.nodes[s]] >= Fib(i + 1)
    ensures t.Root() < |f| && f[t.Root()] >= Fib(i + 2 + Depth(t.dad, t.Root(), t.nodes[q]))
    decreases q
  {
    hide Falling, Depth, Fib;
    TreeSizes(t);
    SumsSizes(t, f);
    var j := (q - 1) / 2;
    var k := FatherAbove(t, q);
    DepthStep(t, q);
    assert SumOk(t, f, j);
    FibStep(i + 1);
    if k == 0 {
      RootDepth(t);
    } else {
      var s := if k % 2 == 1 then k + 1 else k - 1;
      FallingAt(t.nodes, f, s, q);
      Climb(t, f, k, i + 1);
    }
  }

  lemma FibStep(n: nat)
    ensures Fib(n + 2) == Fib(n + 1) + Fib(n)
  {}

  lemma FallingAt(nodes: seq<nat>, f: seq<nat>, p: nat, q: nat)
    requires Falling(nodes, f) && p <= q < |nodes|
    ensures nodes[p] < |f| && nodes[q] < |f| && f[nodes[q]] <= f[nodes[p]]
  {}

  lemma RootDepth(t: Tree)
    requires TreeOk(t)
    ensures t.nodes[0] == t.Root() && Depth(t.dad, t.Root(), t.Root()) == 0
  {}

  lemma {:induction false} FibMono(m: nat, n: nat)
    requires m <= n
    ensures Fib(m) <= Fib(n)
  {
    if m < n { FibMono(m, n - 1); }
  }

  /** A leaf deeper than max takes frequencies that add up to Fib(max + 3) at least. */
  lemma DeepIsHeavy(t: Tree, f: seq<nat>, max: nat)
    requires TreeOk(t) && Sums(t, f) && Falling(t.nodes, f) && AllUsed(t, f) && Deep(t, max)
    ensures t.Root() < |f| && f[t.Root()] >= Fib(max + 3)
  {
    hide Falling, Depth;
    var x :| x in t.leaves && Depth(t.dad, t.Root(), x) > max;
    var q := LeafPlace(t, x);
    var s := if q % 2 == 1 then q + 1 else q - 1;
    NoneZero(t, f, q);
    NoneZero(t, f, s);
    Climb(t, f, q, 0);
    FibMono(max + 3, 2 + Depth(t.dad, t.Root(), x));
  }

  // ---------- the merging loop removes the lightest nodes first ----------

  /** What has been set aside falls in frequency upwards, and is no heavier than what is
      still in the heap. */
  ghost predicate Lightest(s: State)
    requires Nodes(s.f, s.d, s.h, s.len) && s.max <= |s.h|
  {
    && Falling(s.h[s.max..], s.f)
    && (s.max < |s.h| ==> forall w :: w in Weights(s) ==> w >= s.f[s.h[s.max]])
  }

  lemma LightestStart(s: State)
    requires Nodes(s.f, s.d, s.h, s.len) && s.max == |s.h|
    ensures Lightest(s)
  {}

  lemma FallingTwo(f: seq<nat>, g: seq<nat>, m: nat, n: nat, tail: seq<nat>, x: nat)
    requires Falling(tail, f) && |g| == |f| && m < |f| && n < |f| && f[n] <= f[m] && m != x && n != x
    requires forall i :: 0 <= i < |tail| ==> tail[i] != x && f[tail[i]] <= f[n]
    requires forall i :: 0 <= i < |f| && i != x ==> g[i] == f[i]
    ensures Falling([m, n] + tail, g)
  {
    var all := [m, n] + tail;
    assert forall i :: 0 <= i < |all| ==> all[i] == if i == 0 then m else if i == 1 then n else tail[i - 2];
  }

  /** What has been set aside is no heavier than the node that is removed next. */
  lemma TailLight(s: State, w: nat)
    requires Nodes(s.f, s.d, s.h, s.len) && s.max <= |s.h| && Lightest(s) && w in Weights(s)
    ensures var tail := s.h[s.max..];
      forall i :: 0 <= i < |tail| ==> tail[i] < |s.f| && s.f[tail[i]] <= w
  {
    hide Weights;
    var tail := s.h[s.max..];
    forall i | 0 <= i < |tail| ensures tail[i] < |s.f| && s.f[tail[i]] <= w {
      FallingAt(tail, s.f, 0, i);
      assert tail[0] == s.h[s.max];
    }
  }

  lemma TailNotNew(s: State, elems: nat, leaves: set<nat>, n: nat)
    requires Inv(s, elems, leaves, n)
    ensures s.max <= |s.h| && forall i :: 0 <= i < |s.h[s.max..]| ==> s.h[s.max..][i] != s.node
  {
    forall i | 0 <= i < |s.h[s.max..]| ensures s.h[s.max..][i] != s.node {
      IdsBound(s, elems, leaves, n, s.max + i);
    }
  }

  /** One round of the loop removes the two lightest nodes. */
  lemma MergeKeepsLightest(s: State, elems: nat, leaves: set<nat>, n: nat)
    requires Inv(s, elems, leaves, n) && s.len >= 2 && Ready(s) && Lightest(s)
    requires s.f[s.h[1]] + s.f[StepOf(s).m] < USHORT
    ensures var r := Merge(s); Nodes(r.f, r.d, r.h, r.len) && r.max <= |r.h| && Lightest(r)
  {
    hide Inv, Weights, Falling, RemoveTop, ReplaceTop, Members, Ordered;
    var rest := StepWeights(s, elems, leaves, n);
    StepHeap(s, elems, leaves, n);
    TailNotNew(s, elems, leaves, n);
    var t, r := StepOf(s), Merge(s);
    TailLight(s, s.f[t.n]);
    FallingTwo(s.f, r.f, t.m, t.n, s.h[s.max..], s.node);
    assert r.h[r.max..] == [t.m, t.n] + s.h[s.max..];
    assert r.h[r.max] == r.h[r.max..][0];
  }

  lemma SizedMax(s: State, elems: nat, leaves: set<nat>, n: nat)
    requires Inv(s, elems, leaves, n)
    ensures s.max <= |s.h| && |s.h| > 1
  {}

  /** In the end the nodes fall in frequency from the root on. */
  lemma TreeFalls(s: State, elems: nat, leaves: set<nat>, n: nat)
    requires Inv(s, elems, leaves, n) && s.len == 1 && s.max <= |s.h| && |s.h| > 1 && Lightest(s)
    ensures Falling([s.h[1]] + s.h[s.max..], s.f)
  {
    hide Inv;
    InvNodes(s, elems, leaves, n);
    SizedMax(s, elems, leaves, n);
    var w := s.f[s.h[1]];
    assert s.h[1..2] == [s.h[1]];
    ValuesOfOne(s.f, s.h[1]);
    assert w in Weights(s);
    TailLight(s, w);
    FallingOne(s.f, s.h[1], s.h[s.max..]);
  }

  lemma FallingOne(f: seq<nat>, m: nat, tail: seq<nat>)
    requires Falling(tail, f) && m < |f| && forall i :: 0 <= i < |tail| ==> f[tail[i]] <= f[m]
    ensures Falling([m] + tail, f)
  {
    var all := [m] + tail;
    assert forall i :: 0 <= i < |all| ==> all[i] == if i == 0 then m else tail[i - 1];
  }
}
