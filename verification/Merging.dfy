/** The merging loop of build_tree as a function on its state, and what every state
    of the loop satisfies. */
module Merging {
  import opened Heap
  import opened Optimal

  const HEAP_SIZE := 573
  const L_CODES := 286
  const USHORT := 0x1_0000

  /** The arrays and counters of the loop: Freq, depth, Dad, heap, heap_len, heap_max
      and the next internal node. */
  datatype State = State(f: seq<nat>, d: seq<nat>, dad: seq<nat>, h: seq<nat>, len: nat, max: nat, node: nat)

  predicate Ready(s: State)
  {
    && Nodes(s.f, s.d, s.h, s.len) && 2 <= s.len && s.len + 2 <= s.max <= |s.h|
    && s.node < |s.f| && s.node < |s.d| && |s.dad| == |s.f|
  }

  function MaxOf(a: nat, b: nat): nat { if a > b then a else b }

  /** Merging the nodes n and m: their sum, the depth of the new subtree, its sons. */
  function JoinFreq(s: State, n: nat, m: nat): (r: seq<nat>)
    requires n < |s.f| && m < |s.f| && s.node < |s.f|
    ensures |r| == |s.f|
  {
    s.f[s.node := (s.f[n] + s.f[m]) % USHORT]
  }

  function JoinDepth(s: State, n: nat, m: nat): (r: seq<nat>)
    requires n < |s.d| && m < |s.d| && s.node < |s.d|
    ensures |r| == |s.d|
  {
    s.d[s.node := (MaxOf(s.d[n], s.d[m]) + 1) % 0x100]
  }

  /** One round of the loop: the two least nodes are removed from the heap, kept above
      heap_max, and replaced by their father. */
  function Merge(s: State): (r: State)
    requires Ready(s)
    ensures |r.h| == |s.h| && r.len == s.len - 1 && Nodes(r.f, r.d, r.h, r.len)
  {
    var n := s.h[1];
    var h1 := RemoveTop(s.f, s.d, s.h, s.len);
    var m := h1[1];
    var h2 := h1[s.max - 1 := n][s.max - 2 := m];
    var f', d' := JoinFreq(s, n, m), JoinDepth(s, n, m);
    State(f', d', s.dad[n := s.node][m := s.node],
          ReplaceTop(f', d', h2, s.len - 1, s.node), s.len - 1, s.max - 2, s.node + 1)
  }

  // ---------- the invariant ----------

  function Range(a: nat, b: nat): (r: set<nat>)
    ensures forall x :: x in r <==> a <= x < b
  {
    if a >= b then {} else Range(a, b - 1) + {b - 1}
  }

  /** The nodes in the heap and the nodes set aside above heap_max. */
  function Ids(s: State): multiset<nat>
    requires s.len < |s.h| && s.max <= |s.h|
  {
    Members(s.h, s.len) + multiset(s.h[s.max..])
  }

  /** The place in the heap array of the first son of internal node x; the second son
      is one place below. */
  function SonPlace(elems: nat, x: nat): int { HEAP_SIZE - 1 - 2 * (x - elems) }

  predicate SonsOf(s: State, elems: nat, x: nat)
    requires |s.h| == HEAP_SIZE && |s.dad| == |s.f|
  {
    var q := SonPlace(elems, x);
    && 1 <= q < HEAP_SIZE && s.h[q] < |s.f| && s.h[q - 1] < |s.f| && x < |s.f|
    && s.dad[s.h[q]] == x && s.dad[s.h[q - 1]] == x
    && s.f[x] == s.f[s.h[q]] + s.f[s.h[q - 1]]
  }

  /** An internal node is set aside below its sons. */
  predicate Late(s: State, elems: nat)
    requires |s.h| == HEAP_SIZE
  {
    forall q :: s.max <= q < HEAP_SIZE && s.h[q] >= elems ==> q < SonPlace(elems, s.h[q]) - 1
  }

  predicate Sized(s: State, elems: nat, n: nat)
  {
    && 1 <= s.len <= n <= elems <= L_CODES
    && s.node == elems + (n - s.len) && s.max == HEAP_SIZE - 2 * (n - s.len)
    && |s.h| == HEAP_SIZE && |s.dad| == |s.f| >= 2 * elems && |s.d| >= 2 * elems
  }

  predicate Inv(s: State, elems: nat, leaves: set<nat>, n: nat)
  {
    && Sized(s, elems, n)
    && Nodes(s.f, s.d, s.h, s.len) && Ordered(s.f, s.d, s.h, s.len, 1)
    && (forall x :: x in leaves ==> x < elems)
    && Ids(s) == multiset(leaves) + multiset(Range(elems, s.node))
    && (forall x :: elems <= x < s.node ==> SonsOf(s, elems, x))
    && Late(s, elems)
  }

  function Values(f: seq<nat>, ids: seq<nat>): (r: seq<nat>)
    requires forall i :: 0 <= i < |ids| ==> ids[i] < |f|
    ensures |r| == |ids|
  {
    seq(|ids|, i requires 0 <= i < |ids| => f[ids[i]])
  }

  /** The frequencies of the nodes in the heap. */
  function Weights(s: State): multiset<nat>
    requires Nodes(s.f, s.d, s.h, s.len)
  {
    multiset(Values(s.f, s.h[1..s.len + 1]))
  }

  function SumRange(f: seq<nat>, a: nat, b: nat): nat
    requires a <= b <= |f|
    decreases b
  {
    if a == b then 0 else SumRange(f, a, b - 1) + f[b - 1]
  }

  predicate AccountsReady(s: State, elems: nat) {
    Nodes(s.f, s.d, s.h, s.len) && elems <= s.node <= |s.f|
  }

  lemma InvSizes(s: State, elems: nat, leaves: set<nat>, n: nat)
    requires Inv(s, elems, leaves, n)
    ensures 1 <= s.len && elems <= |s.f| == |s.dad| && AccountsReady(s, elems)
    ensures s.len >= 2 ==> Ready(s)
  {}

  /** The merging cost still to come and the internal nodes made so far add up to cost;
      the frequencies in the heap add up to total. */
  ghost predicate Accounts(s: State, elems: nat, cost: nat, total: nat)
    requires AccountsReady(s, elems)
  {
    && MergeCost(Weights(s)) + SumRange(s.f, elems, s.node) == cost
    && Sum(Weights(s)) == total
  }

  // ---------- the loop keeps the invariant ----------

  lemma InvReady(s: State, elems: nat, leaves: set<nat>, n: nat)
    requires Inv(s, elems, leaves, n) && s.len >= 2
    ensures Ready(s)
  {}

  lemma IdsBound(s: State, elems: nat, leaves: set<nat>, n: nat, i: nat)
    requires Inv(s, elems, leaves, n)
    requires 1 <= i <= s.len || s.max <= i < HEAP_SIZE
    ensures s.h[i] < s.node && (s.h[i] < elems ==> s.h[i] in leaves)
  {
    if i <= s.len {
      assert s.h[i] == s.h[1..s.len + 1][i - 1];
    } else {
      assert s.h[i] == s.h[s.max..][i - s.max];
    }
    assert s.h[i] in Ids(s);
  }

  /** The parts of a merging step by name. */
  datatype Step = Step(n: nat, m: nat, h1: seq<nat>, h2: seq<nat>, f: seq<nat>, d: seq<nat>, h3: seq<nat>)

  function StepOf(s: State): Step
    requires Ready(s)
  {
    var n := s.h[1];
    var h1 := RemoveTop(s.f, s.d, s.h, s.len);
    var m := h1[1];
    var h2 := h1[s.max - 1 := n][s.max - 2 := m];
    var f', d' := JoinFreq(s, n, m), JoinDepth(s, n, m);
    Step(n, m, h1, h2, f', d', ReplaceTop(f', d', h2, s.len - 1, s.node))
  }

  predicate SameHeap(h: seq<nat>, g: seq<nat>, len: nat) {
    len < |h| && |h| == |g| && forall i :: 1 <= i <= len ==> h[i] == g[i]
  }

  /** Order depends only on the entries of the nodes in the heap. */
  lemma OrderedFrame(f: seq<nat>, d: seq<nat>, h: seq<nat>, f': seq<nat>, d': seq<nat>, g: seq<nat>, len: nat, x: nat)
    requires Nodes(f, d, h, len) && Ordered(f, d, h, len, 1) && SameHeap(h, g, len)
    requires |f'| == |f| && |d'| == |d|
    requires forall i :: 1 <= i <= len ==> h[i] != x
    requires forall i :: 0 <= i < |f| && i != x ==> f'[i] == f[i]
    requires forall i :: 0 <= i < |d| && i != x ==> d'[i] == d[i]
    ensures Nodes(f', d', g, len) && Ordered(f', d', g, len, 1)
  {
    forall c | 2 <= c <= len && c / 2 >= 1 ensures Smaller(f', d', g[c / 2], g[c]) {
      assert Smaller(f, d, h[c / 2], h[c]);
      assert h[c / 2] != x && h[c] != x;
    }
  }

  lemma MembersFrame(h: seq<nat>, g: seq<nat>, len: nat)
    requires SameHeap(h, g, len)
    ensures Members(g, len) == Members(h, len)
  {
    assert h[1..len + 1] == g[1..len + 1];
  }

  lemma MemberBound(h: seq<nat>, len: nat, i: nat)
    requires 1 <= i <= len < |h|
    ensures h[i] in Members(h, len)
  {
    assert h[i] == h[1..len + 1][i - 1];
  }

  /** The heap after its least node is removed. */
  lemma StepRemoves(s: State, elems: nat, leaves: set<nat>, n: nat)
    requires Inv(s, elems, leaves, n) && s.len >= 2
    ensures Ready(s)
    ensures var t := StepOf(s);
      && Nodes(s.f, s.d, t.h1, s.len - 1) && Ordered(s.f, s.d, t.h1, s.len - 1, 1)
      && Members(t.h1, s.len - 1) + multiset{t.n} == Members(s.h, s.len)
      && (forall i :: s.len <= i < |s.h| ==> t.h1[i] == s.h[i])
      && (forall i :: 1 <= i <= s.len - 1 ==> t.h1[i] < s.node)
      && t.n < s.node && t.m < s.node
  {
    hide Ordered, Ids, Late, SonsOf, RemoveTop, ReplaceTop, Members;
    InvReady(s, elems, leaves, n);
    var t := StepOf(s);
    RemoveTopOk(s.f, s.d, s.h, s.len);
    forall i | 1 <= i <= s.len - 1 ensures t.h1[i] < s.node {
      MemberBound(t.h1, s.len - 1, i);
      MemberOfIds(s, elems, leaves, n, t.h1[i]);
    }
    IdsBound(s, elems, leaves, n, 1);
  }

  /** The heap after the father of the two nodes removed is put in. */
  lemma StepInserts(s: State, t: Step)
    requires Ready(s) && t == StepOf(s)
    requires Ordered(s.f, s.d, t.h1, s.len - 1, 1)
    requires forall i :: 1 <= i <= s.len - 1 ==> t.h1[i] < s.node
    requires forall i :: s.len <= i < |s.h| ==> t.h1[i] == s.h[i]
    ensures Nodes(t.f, t.d, t.h3, s.len - 1) && Ordered(t.f, t.d, t.h3, s.len - 1, 1)
    ensures Members(t.h3, s.len - 1) + multiset{t.m} == Members(t.h1, s.len - 1) + multiset{s.node}
    ensures t.h3[s.max - 2..] == [t.m, t.n] + s.h[s.max..]
  {
    hide Ordered, RemoveTop, ReplaceTop, Members;
    OrderedFrame(s.f, s.d, t.h1, t.f, t.d, t.h2, s.len - 1, s.node);
    MembersFrame(t.h1, t.h2, s.len - 1);
    ReplaceTopOk(t.f, t.d, t.h2, s.len - 1, s.node);
  }

  /** Order, members and places after a step. */
  lemma StepHeap(s: State, elems: nat, leaves: set<nat>, n: nat)
    requires Inv(s, elems, leaves, n) && s.len >= 2
    ensures Ready(s)
    ensures var t := StepOf(s);
      && Ordered(t.f, t.d, t.h3, s.len - 1, 1)
      && Nodes(s.f, s.d, t.h1, s.len - 1) && Ordered(s.f, s.d, t.h1, s.len - 1, 1)
      && Members(t.h1, s.len - 1) + multiset{t.n} == Members(s.h, s.len)
      && Members(t.h3, s.len - 1) + multiset{t.m} == Members(t.h1, s.len - 1) + multiset{s.node}
      && t.h3[s.max - 2..] == [t.m, t.n] + s.h[s.max..]
      && t.n < s.node && t.m < s.node
  {
    hide Inv, StepOf, Ready, Ordered, Members, Nodes;
    StepRemoves(s, elems, leaves, n);
    StepInserts(s, StepOf(s));
  }

  lemma MemberOfIds(s: State, elems: nat, leaves: set<nat>, n: nat, x: nat)
    requires Inv(s, elems, leaves, n) && x in Members(s.h, s.len)
    ensures x < s.node
  {
    assert x in Ids(s);
  }

  lemma RangeGrows(a: nat, b: nat)
    requires a <= b
    ensures multiset(Range(a, b + 1)) == multiset(Range(a, b)) + multiset{b}
  {
    assert Range(a, b + 1) == Range(a, b) + {b};
  }

  lemma StepIds(a: multiset<nat>, b: multiset<nat>, c: multiset<nat>, o: multiset<nat>, n: nat, m: nat, x: nat)
    requires b + multiset{n} == a && c + multiset{m} == b + multiset{x}
    ensures c + (multiset{m, n} + o) == a + o + multiset{x}
  {
    forall v: nat ensures (c + (multiset{m, n} + o))[v] == (a + o + multiset{x})[v] {
      assert (b + multiset{n})[v] == a[v];
      assert (c + multiset{m})[v] == (b + multiset{x})[v];
    }
  }

  /** Each node occurs once, so the sons of older nodes are not touched. */
  lemma SonsKept(s: State, elems: nat, leaves: set<nat>, n: nat, x: nat)
    requires Inv(s, elems, leaves, n) && s.len >= 2 && elems <= x < s.node && Ready(s)
    ensures SonsOf(Merge(s), elems, x)
  {
    hide Ordered, Late, RemoveTop, ReplaceTop, Members, Ids, SonsOf, StepOf;
    StepHeap(s, elems, leaves, n);
    var t := StepOf(s);
    var q := SonPlace(elems, x);
    MemberStays(s, t);
    assert SonsOf(s, elems, x);
    TailApart(s, elems, leaves, n, t.n, q);
    TailApart(s, elems, leaves, n, t.n, q - 1);
    TailApart(s, elems, leaves, n, t.m, q);
    TailApart(s, elems, leaves, n, t.m, q - 1);
    SonsCarried(s, elems, x, t);
  }

  lemma TailKept(s: State, t: Step, q: nat)
    requires 2 <= s.max <= q < |s.h| == |t.h3|
    requires t.h3[s.max - 2..] == [t.m, t.n] + s.h[s.max..]
    ensures t.h3[q] == s.h[q]
  {
    assert t.h3[q] == t.h3[s.max - 2..][q - s.max + 2];
    assert s.h[q] == s.h[s.max..][q - s.max];
  }

  lemma SonsCarried(s: State, elems: nat, x: nat, t: Step)
    requires Ready(s) && t == StepOf(s) && |s.h| == HEAP_SIZE && SonsOf(s, elems, x) && x < s.node
    requires t.h3[s.max - 2..] == [t.m, t.n] + s.h[s.max..]
    requires var q := SonPlace(elems, x);
      && s.max <= q - 1 && s.h[q] !in {t.n, t.m, s.node} && s.h[q - 1] !in {t.n, t.m, s.node}
    ensures SonsOf(Merge(s), elems, x)
  {
    hide RemoveTop, ReplaceTop;
    TailKept(s, t, SonPlace(elems, x));
    TailKept(s, t, SonPlace(elems, x) - 1);
  }

  lemma MemberStays(s: State, t: Step)
    requires Ready(s) && t == StepOf(s)
    requires Members(t.h1, s.len - 1) + multiset{t.n} == Members(s.h, s.len)
    ensures t.n in Members(s.h, s.len) && t.m in Members(s.h, s.len)
  {
    MemberBound(s.h, s.len, 1);
    MemberBound(t.h1, s.len - 1, 1);
    assert t.m in Members(t.h1, s.len - 1) + multiset{t.n};
  }

  /** A node in the heap is not among those set aside. */
  lemma TailApart(s: State, elems: nat, leaves: set<nat>, n: nat, v: nat, q: nat)
    requires Inv(s, elems, leaves, n) && s.max <= q < HEAP_SIZE
    requires v in Members(s.h, s.len)
    ensures s.h[q] != v && s.h[q] < s.node
  {
    IdsBound(s, elems, leaves, n, q);
    var tail := s.h[s.max..];
    assert s.h[q] in multiset(tail) by { assert s.h[q] == tail[q - s.max]; }
    assert (multiset(leaves) + multiset(Range(elems, s.node)))[v] <= 1 by {
      assert v in leaves ==> v !in Range(elems, s.node);
    }
    assert Ids(s)[v] == Members(s.h, s.len)[v] + multiset(tail)[v];
  }

  lemma StepSons(s: State, elems: nat, leaves: set<nat>, n: nat)
    requires Inv(s, elems, leaves, n) && s.len >= 2 && Ready(s)
    requires s.f[s.h[1]] + s.f[StepOf(s).m] < USHORT
    ensures SonsOf(Merge(s), elems, s.node)
  {
    hide Ordered, Late, RemoveTop, ReplaceTop, Members, Ids, SonsOf;
    StepHeap(s, elems, leaves, n);
    NewSons(s, elems, StepOf(s));
  }

  lemma NewSons(s: State, elems: nat, t: Step)
    requires Ready(s) && t == StepOf(s) && |s.h| == HEAP_SIZE && SonPlace(elems, s.node) == s.max - 1
    requires t.h3[s.max - 2..] == [t.m, t.n] + s.h[s.max..] && t.n < s.node && t.m < s.node
    requires s.f[t.n] + s.f[t.m] < USHORT
    ensures SonsOf(Merge(s), elems, s.node)
  {
    hide RemoveTop, ReplaceTop, Nodes;
    var tail := t.h3[s.max - 2..];
    assert t.h3[s.max - 1] == tail[1] && t.h3[s.max - 2] == tail[0];
  }

  lemma StepLate(s: State, elems: nat, leaves: set<nat>, n: nat)
    requires Inv(s, elems, leaves, n) && s.len >= 2 && Ready(s)
    ensures Late(Merge(s), elems)
  {
    hide Ordered, RemoveTop, ReplaceTop, Nodes, Members, Ids, SonsOf, Late;
    StepHeap(s, elems, leaves, n);
    var t := StepOf(s);
    LateCarried(s, elems, Merge(s), t.m, t.n);
  }

  lemma LateCarried(s: State, elems: nat, r: State, m: nat, n: nat)
    requires |s.h| == |r.h| == HEAP_SIZE && 2 <= s.max <= HEAP_SIZE && r.max == s.max - 2 && Late(s, elems)
    requires r.h[s.max - 2..] == [m, n] + s.h[s.max..]
    requires m < s.node && n < s.node && s.max == HEAP_SIZE - 2 * (s.node - elems)
    ensures Late(r, elems)
  {
    var tail := [m, n] + s.h[s.max..];
    forall q | r.max <= q < HEAP_SIZE && r.h[q] >= elems ensures q < SonPlace(elems, r.h[q]) - 1 {
      assert r.h[q] == tail[q - r.max];
      if q >= s.max {
        assert tail[q - r.max] == s.h[q];
      }
    }
  }

  lemma StepKeepsIds(s: State, elems: nat, leaves: set<nat>, n: nat)
    requires Inv(s, elems, leaves, n) && s.len >= 2 && Ready(s)
    ensures Ids(Merge(s)) == multiset(leaves) + multiset(Range(elems, s.node + 1))
  {
    hide Ordered, Late, RemoveTop, ReplaceTop, Members, SonsOf, Nodes;
    StepHeap(s, elems, leaves, n);
    var t := StepOf(s);
    StepIds(Members(s.h, s.len), Members(t.h1, s.len - 1), Members(t.h3, s.len - 1),
            multiset(s.h[s.max..]), t.n, t.m, s.node);
    RangeGrows(elems, s.node);
    assert multiset([t.m, t.n] + s.h[s.max..]) == multiset{t.m, t.n} + multiset(s.h[s.max..]);
  }

  lemma StepSized(s: State, elems: nat, n: nat)
    requires Sized(s, elems, n) && Ready(s)
    ensures Sized(Merge(s), elems, n)
  {
    hide RemoveTop, ReplaceTop;
  }

  /** One round of the loop keeps the invariant. */
  lemma MergeKeepsInv(s: State, elems: nat, leaves: set<nat>, n: nat)
    requires Inv(s, elems, leaves, n) && s.len >= 2 && Ready(s)
    requires s.f[s.h[1]] + s.f[StepOf(s).m] < USHORT
    ensures Inv(Merge(s), elems, leaves, n)
  {
    hide Ordered, Late, RemoveTop, ReplaceTop, Members, SonsOf, Ids, Nodes, Range;
    StepHeap(s, elems, leaves, n);
    StepKeepsIds(s, elems, leaves, n);
    StepSized(s, elems, n);
    StepLate(s, elems, leaves, n);
    forall x | elems <= x < s.node + 1 ensures SonsOf(Merge(s), elems, x) {
      if x < s.node { SonsKept(s, elems, leaves, n, x); } else { StepSons(s, elems, leaves, n); }
    }
  }

  // ---------- the accounts ----------

  lemma ValuesWithout(f: seq<nat>, a: seq<nat>, k: nat)
    requires k < |a| && forall i :: 0 <= i < |a| ==> a[i] < |f|
    ensures multiset(Values(f, a)) == multiset(Values(f, Without(a, k))) + multiset{f[a[k]]}
  {
    MultisetWithout(Values(f, a), k);
    assert Without(Values(f, a), k) == Values(f, Without(a, k));
  }

  lemma CancelSame(x: multiset<nat>, y: multiset<nat>, v: nat)
    requires x + multiset{v} == y + multiset{v}
    ensures x == y
  {
    assert x == x + multiset{v} - multiset{v};
    assert y == y + multiset{v} - multiset{v};
  }

  lemma SameBound(f: seq<nat>, a: seq<nat>, b: seq<nat>)
    requires (forall i :: 0 <= i < |a| ==> a[i] < |f|) && multiset(a) == multiset(b)
    ensures forall i :: 0 <= i < |b| ==> b[i] < |f|
  {
    forall i | 0 <= i < |b| ensures b[i] < |f| {
      assert b[i] in multiset(a);
    }
  }

  /** A rearrangement of the nodes rearranges their frequencies. */
  lemma {:induction false} ValuesPermute(f: seq<nat>, a: seq<nat>, b: seq<nat>)
    requires forall i :: 0 <= i < |a| ==> a[i] < |f|
    requires multiset(a) == multiset(b)
    ensures forall i :: 0 <= i < |b| ==> b[i] < |f|
    ensures multiset(Values(f, a)) == multiset(Values(f, b))
    decreases |a|
  {
    hide Values, Without;
    SameBound(f, a, b);
    if a == [] {
      assert |multiset(b)| == 0;
    } else {
      assert a[0] in multiset(b);
      var k :| 0 <= k < |b| && b[k] == a[0];
      MultisetWithout(b, k);
      MultisetWithout(a, 0);
      var a', b' := Without(a, 0), Without(b, k);
      CancelSame(multiset(a'), multiset(b'), a[0]);
      WithoutBound(f, a, 0);
      WithoutBound(f, b, k);
      ValuesPermute(f, a', b');
      ValuesWithout(f, a, 0);
      ValuesWithout(f, b, k);
    }
  }

  lemma WithoutBound(f: seq<nat>, a: seq<nat>, k: nat)
    requires k < |a| && forall i :: 0 <= i < |a| ==> a[i] < |f|
    ensures forall i :: 0 <= i < |Without(a, k)| ==> Without(a, k)[i] < |f|
  {}

  lemma ValuesConcat(f: seq<nat>, a: seq<nat>, b: seq<nat>)
    requires (forall i :: 0 <= i < |a| ==> a[i] < |f|) && (forall i :: 0 <= i < |b| ==> b[i] < |f|)
    ensures Values(f, a + b) == Values(f, a) + Values(f, b)
  {}

  /** The nodes of the heap before a step: the two merged ones and the rest. */
  lemma StepRoots(s: State, t: Step, rest: seq<nat>)
    requires Ready(s) && t == StepOf(s) && rest == t.h1[2..s.len]
    requires Members(t.h1, s.len - 1) + multiset{t.n} == Members(s.h, s.len)
    requires Members(t.h3, s.len - 1) + multiset{t.m} == Members(t.h1, s.len - 1) + multiset{s.node}
    ensures multiset(s.h[1..s.len + 1]) == multiset(rest) + multiset{t.m} + multiset{t.n}
    ensures multiset(t.h3[1..s.len]) == multiset(rest) + multiset{s.node}
  {
    hide RemoveTop, ReplaceTop;
    assert t.h1[1..s.len] == [t.m] + rest;
    assert multiset([t.m] + rest) == multiset{t.m} + multiset(rest);
    assert s.len - 1 + 1 == s.len;
    assert Members(t.h3, s.len - 1) == multiset(t.h3[1..s.len]);
    assert Members(t.h1, s.len - 1) == multiset{t.m} + multiset(rest);
    CancelOne(multiset(t.h3[1..s.len]), multiset(rest), t.m, s.node);
  }

  lemma RestBound(s: State, t: Step, elems: nat, leaves: set<nat>, n: nat, rest: seq<nat>)
    requires Inv(s, elems, leaves, n) && s.len >= 2 && Ready(s) && t == StepOf(s) && rest == t.h1[2..s.len]
    requires Members(t.h1, s.len - 1) + multiset{t.n} == Members(s.h, s.len)
    requires Ordered(s.f, s.d, t.h1, s.len - 1, 1)
    ensures forall i :: 0 <= i < |rest| ==>
      rest[i] < |s.f| && rest[i] != s.node && s.f[t.n] <= s.f[rest[i]] && s.f[t.m] <= s.f[rest[i]]
    ensures s.f[t.n] <= s.f[t.m]
  {
    hide Late, RemoveTop, ReplaceTop, SonsOf, Ids, Members;
    forall i | 0 <= i < |rest|
      ensures rest[i] < |s.f| && rest[i] != s.node && s.f[t.n] <= s.f[rest[i]] && s.f[t.m] <= s.f[rest[i]]
    {
      TopIsLeast(s, t, i + 2);
      RootSmallest(s.f, s.d, t.h1, s.len - 1, i + 2);
      MemberBound(t.h1, s.len - 1, i + 2);
      assert rest[i] in Members(t.h1, s.len - 1) + multiset{t.n};
      MemberOfIds(s, elems, leaves, n, rest[i]);
    }
    TopIsLeast(s, t, 1);
  }

  lemma TopIsLeast(s: State, t: Step, i: nat)
    requires Ready(s) && t == StepOf(s) && Ordered(s.f, s.d, s.h, s.len, 1) && 1 <= i <= s.len - 1
    requires Members(t.h1, s.len - 1) + multiset{t.n} == Members(s.h, s.len)
    ensures t.h1[i] < |s.f| && s.f[t.n] <= s.f[t.h1[i]]
  {
    hide RemoveTop, ReplaceTop, Ordered;
    MemberBound(t.h1, s.len - 1, i);
    assert t.h1[i] in Members(t.h1, s.len - 1) + multiset{t.n};
    var roots := s.h[1..s.len + 1];
    assert t.h1[i] in roots;
    var k :| 0 <= k < |roots| && roots[k] == t.h1[i];
    RootSmallest(s.f, s.d, s.h, s.len, k + 1);
  }

  /** The frequencies before a step, split at the two nodes merged. */
  lemma OldWeights(s: State, t: Step, r: seq<nat>, rest: multiset<nat>)
    requires Ready(s) && t == StepOf(s) && t.n < |s.f| && t.m < |s.f|
    requires forall i :: 0 <= i < |r| ==> r[i] < |s.f|
    requires multiset(s.h[1..s.len + 1]) == multiset(r) + multiset{t.m} + multiset{t.n}
    requires rest == multiset(Values(s.f, r))
    ensures Weights(s) == rest + multiset{s.f[t.m]} + multiset{s.f[t.n]}
  {
    hide Values, RemoveTop, ReplaceTop;
    TwoMembers(multiset(r), t.m, t.n);
    TwoMembers(rest, s.f[t.m], s.f[t.n]);
    WeightsOf(s.f, s.h[1..s.len + 1], r, [t.m, t.n]);
    ValuesOfTwo(s.f, t.m, t.n);
  }

  lemma TwoMembers(r: multiset<nat>, a: nat, b: nat)
    ensures r + multiset{a} + multiset{b} == r + multiset([a, b])
  {}

  lemma ValuesOfTwo(f: seq<nat>, a: nat, b: nat)
    requires a < |f| && b < |f|
    ensures Values(f, [a, b]) == [f[a], f[b]]
  {}

  lemma ValuesOfOne(f: seq<nat>, a: nat)
    requires a < |f|
    ensures multiset(Values(f, [a])) == multiset{f[a]}
  {
    assert Values(f, [a]) == [f[a]];
  }

  lemma ValuesFrame(f: seq<nat>, g: seq<nat>, r: seq<nat>, x: nat)
    requires |g| == |f| && (forall i :: 0 <= i < |r| ==> r[i] < |f| && r[i] != x)
    requires forall i :: 0 <= i < |f| && i != x ==> g[i] == f[i]
    ensures Values(g, r) == Values(f, r)
  {}

  /** The frequencies after a step. */
  lemma NewWeights(s: State, t: Step, r: seq<nat>)
    requires Ready(s) && t == StepOf(s) && s.f[t.n] + s.f[t.m] < USHORT
    requires forall i :: 0 <= i < |r| ==> r[i] < |s.f| && r[i] != s.node
    requires multiset(t.h3[1..s.len]) == multiset(r) + multiset{s.node}
    ensures Weights(Merge(s)) == multiset(Values(s.f, r)) + multiset{s.f[t.n] + s.f[t.m]}
  {
    hide RemoveTop, ReplaceTop, Values;
    forall i | 0 <= i < |t.h3[1..s.len]| ensures t.h3[1..s.len][i] < |t.f| {
      assert t.h3[1..s.len][i] == t.h3[i + 1];
    }
    assert multiset{s.node} == multiset([s.node]);
    WeightsOf(t.f, t.h3[1..s.len], r, [s.node]);
    ValuesOfOne(t.f, s.node);
    ValuesFrame(s.f, t.f, r, s.node);
  }

  /** The frequencies before and after a step. */
  lemma StepWeights(s: State, elems: nat, leaves: set<nat>, n: nat) returns (rest: multiset<nat>)
    requires Inv(s, elems, leaves, n) && s.len >= 2 && Ready(s)
    ensures var t := StepOf(s); var a, b := s.f[t.n], s.f[t.m];
      && Weights(s) == rest + multiset{b} + multiset{a}
      && (a + b < USHORT ==> Weights(Merge(s)) == rest + multiset{a + b})
      && a <= b && forall y :: y in rest ==> a <= y && b <= y
  {
    hide Ordered, Late, RemoveTop, ReplaceTop, Ids, SonsOf, Members, Inv, Values, Weights;
    StepHeap(s, elems, leaves, n);
    InvNodes(s, elems, leaves, n);
    var t := StepOf(s);
    var r := t.h1[2..s.len];
    StepRoots(s, t, r);
    RestBound(s, t, elems, leaves, n, r);
    rest := multiset(Values(s.f, r));
    ValuesAtLeast(s.f, r, s.f[t.n]);
    ValuesAtLeast(s.f, r, s.f[t.m]);
    OldWeights(s, t, r, rest);
    if s.f[t.n] + s.f[t.m] < USHORT {
      NewWeights(s, t, r);
    }
  }

  lemma ValuesAtLeast(f: seq<nat>, r: seq<nat>, v: nat)
    requires forall i :: 0 <= i < |r| ==> r[i] < |f| && v <= f[r[i]]
    ensures forall y :: y in multiset(Values(f, r)) ==> v <= y
  {
    forall y | y in multiset(Values(f, r)) ensures v <= y {
      assert y in Values(f, r);
    }
  }

  lemma InvNodes(s: State, elems: nat, leaves: set<nat>, n: nat)
    requires Inv(s, elems, leaves, n)
    ensures Nodes(s.f, s.d, s.h, s.len)
  {}

  lemma WeightsOf(f: seq<nat>, roots: seq<nat>, rest: seq<nat>, top: seq<nat>)
    requires (forall i :: 0 <= i < |roots| ==> roots[i] < |f|) && multiset(roots) == multiset(rest) + multiset(top)
    requires (forall i :: 0 <= i < |rest| ==> rest[i] < |f|) && (forall i :: 0 <= i < |top| ==> top[i] < |f|)
    ensures multiset(Values(f, roots)) == multiset(Values(f, rest)) + multiset(Values(f, top))
  {
    hide Values;
    ValuesPermute(f, roots, rest + top);
    ValuesConcat(f, rest, top);
  }

  lemma CancelOne(a: multiset<nat>, b: multiset<nat>, m: nat, x: nat)
    requires a + multiset{m} == multiset{m} + b + multiset{x}
    ensures a == multiset{x} + b
  {
    forall v: nat ensures a[v] == (multiset{x} + b)[v] {
      assert (a + multiset{m})[v] == (multiset{m} + b + multiset{x})[v];
    }
  }

  lemma {:induction false} SumRangeFrame(f: seq<nat>, g: seq<nat>, a: nat, b: nat)
    requires a <= b <= |f| && |g| == |f| && forall i :: a <= i < b ==> f[i] == g[i]
    ensures SumRange(f, a, b) == SumRange(g, a, b)
    decreases b
  {
    if a < b { SumRangeFrame(f, g, a, b - 1); }
  }

  lemma SwapLast(r: multiset<nat>, a: nat, b: nat)
    ensures r + multiset{b} + multiset{a} == r + multiset{a} + multiset{b}
  {}

  /** One round of the loop keeps the accounts, and no sum is truncated. */
  lemma MergeKeepsAccounts(s: State, elems: nat, leaves: set<nat>, n: nat, cost: nat, total: nat)
    requires Inv(s, elems, leaves, n) && s.len >= 2 && Ready(s)
    requires Accounts(s, elems, cost, total) && total < USHORT
    ensures s.f[s.h[1]] + s.f[StepOf(s).m] < USHORT
    ensures Accounts(Merge(s), elems, cost, total)
  {
    hide Ordered, Late, RemoveTop, ReplaceTop, SonsOf, Ids, Weights, Sum, MergeCost, Members;
    var rest := StepWeights(s, elems, leaves, n);
    var t := StepOf(s);
    var a, b := s.f[t.n], s.f[t.m];
    SumAdd(rest, b);
    SumAdd(rest + multiset{b}, a);
    SwapLast(rest, a, b);
    SumAdd(rest, a + b);
    MergeCostStep(rest, a, b);
    SumRangeFrame(s.f, t.f, elems, s.node);
  }

  /** A step changes neither the frequencies of the leaves nor the entries of unused codes. */
  lemma MergeLeavesAlone(s: State, elems: nat, leaves: set<nat>, n: nat)
    requires Inv(s, elems, leaves, n) && s.len >= 2 && Ready(s)
    ensures |Merge(s).f| == |Merge(s).dad| == |s.f| && elems <= |s.f|
    ensures forall i :: 0 <= i < elems ==> Merge(s).f[i] == s.f[i]
    ensures forall i :: 0 <= i < elems && i !in leaves ==> Merge(s).dad[i] == s.dad[i]
  {
    hide Ordered, Late, RemoveTop, ReplaceTop, SonsOf, Ids, Members;
    StepHeap(s, elems, leaves, n);
    var t := StepOf(s);
    MemberStays(s, t);
    MemberIsLeaf(s, elems, leaves, n, t.n);
    MemberIsLeaf(s, elems, leaves, n, t.m);
  }

  lemma MemberIsLeaf(s: State, elems: nat, leaves: set<nat>, n: nat, x: nat)
    requires Inv(s, elems, leaves, n) && x in Members(s.h, s.len)
    ensures x < elems ==> x in leaves
  {
    assert x in Ids(s);
  }
}
