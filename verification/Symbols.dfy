/** Sets and sums over the symbols of a tree in symbol order. */
module Symbols {
  import opened Bits
  import opened Canonical
  import opened Optimal
  import opened Heap
  import opened Merging
  import opened BitLengths
  import opened LengthPasses

  /** The codes below n with nonzero frequency, in order. */
  function Used(f: seq<nat>, n: nat): (r: seq<nat>)
    requires n <= |f|
    ensures |r| <= n && forall i :: 0 <= i < |r| ==> r[i] < n && f[r[i]] != 0
  {
    if n == 0 then [] else Used(f, n - 1) + (if f[n - 1] != 0 then [n - 1] else [])
  }

  function UsedSet(f: seq<nat>, n: nat): set<nat>
    requires n <= |f|
  {
    set i: nat | i < n && f[i] != 0
  }

  lemma UsedSetStep(f: seq<nat>, n: nat)
    requires 0 < n <= |f|
    ensures n - 1 !in UsedSet(f, n - 1)
    ensures UsedSet(f, n) == if f[n - 1] != 0 then UsedSet(f, n - 1) + {n - 1} else UsedSet(f, n - 1)
  {
    if f[n - 1] != 0 {
      assert UsedSet(f, n) == UsedSet(f, n - 1) + {n - 1};
    } else {
      assert UsedSet(f, n) == UsedSet(f, n - 1);
    }
  }

  lemma NoneUsed(f: seq<nat>)
    ensures UsedSet(f, 0) == {} && Used(f, 0) == []
  {}

  lemma UsedStep(f: seq<nat>, n: nat)
    requires 0 < n <= |f|
    ensures Used(f, n) == if f[n - 1] != 0 then Used(f, n - 1) + [n - 1] else Used(f, n - 1)
  {
    assert Used(f, n - 1) + [] == Used(f, n - 1);
  }

  lemma SliceGrows(h: seq<nat>, len: nat, x: nat)
    requires len + 1 < |h|
    ensures h[len + 1 := x][1..len + 2] == h[1..len + 1] + [x]
  {}

  lemma SetGrows(s: set<nat>, x: nat)
    requires x !in s
    ensures multiset(s + {x}) == multiset(s) + multiset{x} && |s + {x}| == |s| + 1
  {}

  lemma ListGrows(u: seq<nat>, s: set<nat>, x: nat)
    requires multiset(u) == multiset(s) && |u| == |s| && x !in s
    ensures multiset(u + [x]) == multiset(s + {x}) && |u + [x]| == |s + {x}|
  {
    SetGrows(s, x);
    MultisetSnoc(u, x);
  }

  lemma {:induction false} UsedMembers(f: seq<nat>, n: nat)
    requires n <= |f|
    ensures multiset(Used(f, n)) == multiset(UsedSet(f, n)) && |Used(f, n)| == |UsedSet(f, n)|
  {
    hide UsedSet, Used;
    if n == 0 {
      NoneUsed(f);
    } else {
      UsedMembers(f, n - 1);
      UsedStep(f, n);
      UsedSetStep(f, n);
      if f[n - 1] != 0 {
        ListGrows(Used(f, n - 1), UsedSet(f, n - 1), n - 1);
      }
    }
  }

  /** The last code in use is the greatest. */
  lemma {:induction false} UsedLast(f: seq<nat>, n: nat)
    requires n <= |f|
    ensures Used(f, n) == [] ==> UsedSet(f, n) == {}
    ensures Used(f, n) != [] ==> var m := Used(f, n)[|Used(f, n)| - 1];
      && m in UsedSet(f, n) && (forall x :: x in UsedSet(f, n) ==> x <= m)
      && (|Used(f, n)| == 1 ==> UsedSet(f, n) == {m}) && m + 1 >= |Used(f, n)|
  {
    hide Used, UsedSet;
    NoneUsed(f);
    if n > 0 {
      UsedLast(f, n - 1);
      UsedStep(f, n);
      UsedSetStep(f, n);
    }
  }

  /** The first n codes have been looked at: those in use are in the heap, the others have
      length 0, and code is the last one in use. */
  predicate Filling(f: seq<nat>, h: seq<nat>, len: nat, l: seq<nat>, code: int, n: nat)
  {
    && n <= |f| && n <= |l| && len <= n && len < |h|
    && h[1..len + 1] == Used(f, n)
    && code == (if len == 0 then -1 else h[len])
    && forall i :: 0 <= i < n && f[i] == 0 ==> l[i] == 0
  }

  lemma FillingStart(f: seq<nat>, h: seq<nat>, l: seq<nat>)
    requires |h| > 0
    ensures Filling(f, h, 0, l, -1, 0)
  {
    NoneUsed(f);
  }

  lemma FillingSizes(f: seq<nat>, h: seq<nat>, len: nat, l: seq<nat>, code: int, n: nat)
    requires Filling(f, h, len, l, code, n)
    ensures len <= n
  {}

  lemma FillingUsed(f: seq<nat>, h: seq<nat>, len: nat, l: seq<nat>, code: int, n: nat)
    requires Filling(f, h, len, l, code, n) && n < |f| && n < |l| && len + 1 < |h| && f[n] != 0
    ensures Filling(f, h[len + 1 := n], len + 1, l, n, n + 1)
  {
    hide Used;
    UsedStep(f, n + 1);
    SliceGrows(h, len, n);
    var u := Used(f, n + 1);
    assert h[len + 1 := n][1..len + 2] == u;
  }

  lemma FillingUnused(f: seq<nat>, h: seq<nat>, len: nat, l: seq<nat>, code: int, n: nat)
    requires Filling(f, h, len, l, code, n) && n < |f| && n < |l| && f[n] == 0
    ensures Filling(f, h, len, l[n := 0], code, n + 1)
  {
    hide Used;
    UsedStep(f, n + 1);
    var l' := l[n := 0];
    assert forall i :: 0 <= i < n ==> l'[i] == l[i];
  }

  lemma FillingEnd(f: seq<nat>, h: seq<nat>, len: nat, l: seq<nat>, code: int, n: nat)
    requires Filling(f, h, len, l, code, n)
    ensures len <= n && n <= |f| && n <= |l| && len < |h| && h[1..len + 1] == Used(f, n)
    ensures code == (if len == 0 then -1 else h[len]) && forall i :: 0 <= i < n && f[i] == 0 ==> l[i] == 0
  {}

  /** f' is f with some unused codes among the first k given frequency 1. */
  predicate Forced(f: seq<nat>, f': seq<nat>, k: nat)
  {
    && k <= |f| == |f'|
    && (forall i :: 0 <= i < |f| ==> f'[i] == f[i] || (i <= 2 && i < k && f[i] == 0 && f'[i] == 1))
  }

  function Ones(k: nat): (r: seq<nat>)
    ensures |r| == k
  {
    seq(k, _ => 1)
  }

  /** What the frequencies added take with the lengths l. */
  function Added(f: seq<nat>, f': seq<nat>, l: seq<nat>, n: nat): nat
    requires n <= |f| == |f'| && n <= |l|
  {
    if n == 0 then 0
    else Added(f, f', l, n - 1) + (if f'[n - 1] != f[n - 1] then l[n - 1] else 0)
  }

  lemma {:induction false} AddedNothing(f: seq<nat>, l: seq<nat>, n: nat)
    requires n <= |f| && n <= |l|
    ensures Added(f, f, l, n) == 0
  {
    if n > 0 { AddedNothing(f, l, n - 1); }
  }

  lemma ForcedStart(f: seq<nat>, k: nat, l: seq<nat>)
    requires k <= |f| && k <= |l|
    ensures Forced(f, f, k) && Added(f, f, l, k) == 0
  {
    AddedNothing(f, l, k);
  }

  lemma {:induction false} AddedCode(f: seq<nat>, f1: seq<nat>, code: nat, l: seq<nat>, n: nat)
    requires n <= |f| == |f1| && n <= |l| && code < |f| && f1[code] == f[code] == 0
    ensures Added(f, f1[code := 1], l, n) == Added(f, f1, l, n) + (if code < n then l[code] else 0)
  {
    if n > 0 { AddedCode(f, f1, code, l, n - 1); }
  }

  lemma ForceCode(f: seq<nat>, f1: seq<nat>, code: nat, k: nat)
    requires Forced(f, f1, k) && code < k && code <= 2 && code !in UsedSet(f1, k)
    ensures Forced(f, f1[code := 1], k) && f1[code] == f[code] == 0
    ensures UsedSet(f1[code := 1], k) == UsedSet(f1, k) + {code}
  {}

  /** The state of the loop that forces two codes to be in use. */
  predicate Forcing(f: seq<nat>, f1: seq<nat>, h: seq<nat>, len: nat, maxCode: int, k: nat)
  {
    && Forced(f, f1, k) && len <= k && len < |h|
    && Members(h, len) == multiset(UsedSet(f1, k))
    && (f1 != f ==> len <= 2)
    && (if len == 0 then maxCode == -1 else 0 <= maxCode < k && maxCode in UsedSet(f1, k))
    && (forall x :: x in UsedSet(f1, k) ==> x <= maxCode)
    && (len == 1 ==> UsedSet(f1, k) == {maxCode})
    && (len >= 2 ==> maxCode >= 1)
  }

  lemma ForcingStart(f: seq<nat>, h: seq<nat>, len: nat, maxCode: int, k: nat)
    requires k <= |f| && len <= k && len < |h| && h[1..len + 1] == Used(f, k)
    requires maxCode == if len == 0 then -1 else h[len]
    ensures Forcing(f, f, h, len, maxCode, k)
  {
    UsedMembers(f, k);
    UsedLast(f, k);
    if len > 0 { assert h[len] == h[1..len + 1][len - 1]; }
  }

  lemma ForcingStep(f: seq<nat>, f1: seq<nat>, h: seq<nat>, len: nat, maxCode: int, k: nat)
    requires Forcing(f, f1, h, len, maxCode, k) && len < 2 && 3 <= k && len + 1 < |h|
    ensures maxCode >= -1
    ensures var code := if maxCode < 2 then maxCode + 1 else 0;
      && 0 <= code <= 2 && f1[code] == f[code] == 0
      && Forcing(f, f1[code := 1], h[len + 1 := code], len + 1, if maxCode < 2 then code else maxCode, k)
  {
    hide Members;
    var code := if maxCode < 2 then maxCode + 1 else 0;
    assert code !in UsedSet(f1, k);
    ForceCode(f, f1, code, k);
    MembersGrow(h, len, code);
    SetGrows(UsedSet(f1, k), code);
  }

  lemma ForcingEnd(f: seq<nat>, f1: seq<nat>, h: seq<nat>, len: nat, maxCode: int, k: nat)
    requires Forcing(f, f1, h, len, maxCode, k) && len >= 2
    ensures Forced(f, f1, k) && 2 <= len <= k && len < |h| && Members(h, len) == multiset(UsedSet(f1, k))
    ensures f1 != f ==> len == 2
    ensures 1 <= maxCode < k && maxCode in UsedSet(f1, k) && (forall x :: x in UsedSet(f1, k) ==> x <= maxCode)
  {}

  lemma OnesAt(k: nat, i: nat)
    requires i < k
    ensures Ones(k)[i] == 1
  {}

  lemma MembersGrow(h: seq<nat>, len: nat, x: nat)
    requires len + 1 < |h|
    ensures Members(h[len + 1 := x], len + 1) == Members(h, len) + multiset{x}
  {
    var g := h[len + 1 := x];
    assert g[1..len + 2] == h[1..len + 1] + [x];
  }

  // ---------- the start of the merging loop ----------

  lemma InvStart(s: State, elems: nat, leaves: set<nat>)
    requires Sized(s, elems, s.len) && s.max == HEAP_SIZE && s.node == elems
    requires Nodes(s.f, s.d, s.h, s.len) && Ordered(s.f, s.d, s.h, s.len, 1)
    requires Members(s.h, s.len) == multiset(leaves) && (forall x :: x in leaves ==> x < elems)
    ensures Inv(s, elems, leaves, s.len)
  {
    assert s.h[s.max..] == [];
    assert Range(elems, elems) == {};
    assert Ids(s) == multiset(leaves) + multiset(Range(elems, s.node));
  }

  lemma SumSnoc(v: seq<nat>, x: nat)
    ensures Sum(multiset(v + [x])) == Sum(multiset(v)) + x
  {
    hide Sum;
    MultisetSnoc(v, x);
    SumAdd(multiset(v), x);
  }

  lemma NoWeights(f: seq<nat>)
    ensures Sum(multiset(Values(f, Used(f, 0)))) == 0
  {
    hide Sum;
    assert Values(f, Used(f, 0)) == [];
    SumOfNone();
  }

  lemma {:induction false} UsedSum(f: seq<nat>, n: nat)
    requires n <= |f|
    ensures forall i :: 0 <= i < |Used(f, n)| ==> Used(f, n)[i] < |f|
    ensures Sum(multiset(Values(f, Used(f, n)))) == SumRange(f, 0, n)
  {
    hide Sum, Values, Used;
    if n == 0 {
      NoWeights(f);
    } else {
      UsedSum(f, n - 1);
      UsedStep(f, n);
      if f[n - 1] != 0 {
        ValuesSnoc(f, Used(f, n - 1), n - 1);
        SumSnoc(Values(f, Used(f, n - 1)), f[n - 1]);
      }
    }
  }

  /** The weights in the first heap are the frequencies in use. */
  lemma FirstWeights(s: State, elems: nat)
    requires Nodes(s.f, s.d, s.h, s.len) && elems <= |s.f|
    requires Members(s.h, s.len) == multiset(UsedSet(s.f, elems))
    ensures forall i :: 0 <= i < |Used(s.f, elems)| ==> Used(s.f, elems)[i] < |s.f|
    ensures Weights(s) == multiset(Values(s.f, Used(s.f, elems)))
    ensures Sum(Weights(s)) == SumRange(s.f, 0, elems)
  {
    hide Sum, Values, SumRange, Used, UsedSet;
    UsedMembers(s.f, elems);
    ValuesPermute(s.f, Used(s.f, elems), s.h[1..s.len + 1]);
    UsedSum(s.f, elems);
  }

  lemma AccountsStart(s: State, elems: nat)
    requires Nodes(s.f, s.d, s.h, s.len) && elems == s.node <= |s.f|
    ensures Accounts(s, elems, MergeCost(Weights(s)), Sum(Weights(s)))
  {}

  /** At the end of the merging loop only the internal nodes account for the cost. */
  lemma AccountsEnd(s: State, elems: nat, cost: nat, total: nat)
    requires s.len == 1 && AccountsReady(s, elems)
    requires Accounts(s, elems, cost, total)
    ensures SumRange(s.f, elems, s.node) == cost
    ensures s.f[s.h[1]] == total
  {
    var w := Values(s.f, s.h[1..2]);
    assert |multiset(w)| == |w| == 1;
    assert s.h[1..2] == [s.h[1]];
    ValuesOfOne(s.f, s.h[1]);
    SumAdd(multiset{}, s.f[s.h[1]]);
    assert multiset{} + multiset{s.f[s.h[1]]} == multiset{s.f[s.h[1]]};
  }

  // ---------- from the order of the tree to the order of the symbols ----------

  /** The bits taken by the first n symbols. */
  function SymCost(f: seq<nat>, l: seq<nat>, extra: seq<nat>, base: nat, n: nat): nat
    requires n <= |f| && n <= |l|
  {
    if n == 0 then 0 else SymCost(f, l, extra, base, n - 1) + ItemCost(f, l, extra, base, n - 1)
  }

  lemma {:induction false} CostBySymbol(f: seq<nat>, l: seq<nat>, extra: seq<nat>, base: nat, n: nat)
    requires n <= |f| && n <= |l|
    ensures CostOf(f, l, extra, base, Used(f, n)) == SymCost(f, l, extra, base, n)
  {
    hide Used, CostOf, ItemCost;
    if n == 0 {
      NoneUsed(f);
      NoneCost(f, l, extra, base);
    } else {
      CostBySymbol(f, l, extra, base, n - 1);
      UsedStep(f, n);
      if f[n - 1] != 0 {
        CostOfSnoc(f, l, extra, base, Used(f, n - 1), n - 1);
      } else {
        NoCost(f, l, extra, base, n - 1);
      }
    }
  }

  lemma NoneCost(f: seq<nat>, l: seq<nat>, extra: seq<nat>, base: nat)
    ensures CostOf(f, l, extra, base, []) == 0
  {}

  lemma NoCost(f: seq<nat>, l: seq<nat>, extra: seq<nat>, base: nat, x: nat)
    requires x < |f| && x < |l| && f[x] == 0
    ensures ItemCost(f, l, extra, base, x) == 0
  {}

  lemma {:induction false} CountIsMultiplicity(v: seq<nat>, b: nat)
    ensures Count(v, b) == multiset(v)[b]
    decreases |v|
  {
    if v != [] {
      var last := |v| - 1;
      CountIsMultiplicity(v[..last], b);
      assert v == v[..last] + [v[last]];
    }
  }

  lemma {:induction false} CountBySymbol(f: seq<nat>, l: seq<nat>, n: nat, b: nat)
    requires n <= |f| && n <= |l| && b >= 1
    requires forall i :: 0 <= i < n && f[i] == 0 ==> l[i] == 0
    ensures Count(l[..n], b) == Count(Values(l, Used(f, n)), b)
  {
    if n == 0 {
      NoneUsed(f);
      assert l[..0] == [] && Values(l, Used(f, 0)) == [];
    } else {
      hide Used, Count, Values;
      CountBySymbol(f, l, n - 1, b);
      UsedStep(f, n);
      assert l[..n] == l[..n - 1] + [l[n - 1]];
      SnocCount(l[..n - 1], l[n - 1], b);
      if f[n - 1] != 0 {
        ValuesSnoc(l, Used(f, n - 1), n - 1);
        SnocCount(Values(l, Used(f, n - 1)), l[n - 1], b);
      }
    }
  }

  lemma {:induction false} UsedTail(f: seq<nat>, n: nat, k: nat)
    requires n <= k <= |f| && forall i :: n <= i < k ==> f[i] == 0
    ensures Used(f, k) == Used(f, n)
  {
    if n < k {
      UsedTail(f, n, k - 1);
      UsedStep(f, k);
    }
  }

  lemma {:induction false} SymCostForced(f: seq<nat>, f': seq<nat>, l: seq<nat>, extra: seq<nat>, base: nat, k: nat,
      n: nat)
    requires Forced(f, f', k) && n <= k <= |l|
    requires forall i :: 0 <= i <= 2 ==> XBits(extra, base, i) == 0
    ensures SymCost(f', l, extra, base, n) == SymCost(f, l, extra, base, n) + Added(f, f', l, n)
  {
    if n > 0 { SymCostForced(f, f', l, extra, base, k, n - 1); }
  }

  lemma {:induction false} AddedOnes(f: seq<nat>, f': seq<nat>, l: seq<nat>, k: nat, n: nat)
    requires n <= k <= |f| == |f'| && k <= |l|
    requires forall i :: 0 <= i < n && f'[i] != f[i] ==> l[i] == 1
    ensures Added(f, f', l, n) == Added(f, f', Ones(k), n)
  {
    if n > 0 { AddedOnes(f, f', l, k, n - 1); }
  }

  /** Two codes that make a complete code have one bit each. */
  lemma TwoCodes(v: seq<nat>, max: nat)
    requires |v| == 2 && 1 <= max && Within(v, max) && Kraft(v, max) == Pow2(max)
    ensures v[0] == v[1] == 1
  {
    hide Kraft;
    assert v == [] + [v[0]] + [v[1]];
    KraftSnoc([], v[0], max);
    KraftSnoc([] + [v[0]], v[1], max);
    KraftOfNone(max);
    assert Pow2(max) == 2 * Pow2(max - 1);
    Pow2Mono(max - v[0], max - 1);
    Pow2Mono(max - v[1], max - 1);
    if v[0] > 1 { Pow2Strict(max - v[0], max - 1); }
    if v[1] > 1 { Pow2Strict(max - v[1], max - 1); }
  }

  lemma KraftOfNone(max: nat)
    ensures Kraft([], max) == 0
  {}

  lemma Pow2Strict(a: nat, b: nat)
    requires a < b
    ensures Pow2(a) < Pow2(b)
  {
    Pow2Mono(a, b - 1);
  }

  /** What the tree order says about the lengths, said in symbol order. */
  lemma InSymbolOrder(f: seq<nat>, l: seq<nat>, k: nat, maxCode: nat, ids: seq<nat>, bl: seq<nat>, max: nat)
    requires k <= |f| == |l| && maxCode < k && InBounds(ids, k) && 1 <= max <= 15
    requires multiset(ids) == multiset(UsedSet(f, k)) && (forall x :: x in UsedSet(f, k) ==> x <= maxCode)
    requires forall i :: 0 <= i < k && f[i] == 0 ==> l[i] == 0
    requires Tallied(bl, Values(l, ids)) && Within(Values(l, ids), max) && EndOf(bl, max) == Pow2(max)
    ensures Complete(l[..maxCode + 1], max)
    ensures bl[0] == 0 && forall b :: 1 <= b < 16 ==> bl[b] == Count(l[..maxCode + 1], b)
    ensures forall i :: 0 <= i < k && f[i] != 0 ==> 1 <= l[i] <= max
  {
    hide Count, Kraft, EndOf, Values, Used, Pow2;
    UsedMembers(f, k);
    AboveUnused(f, k, maxCode);
    UsedTail(f, maxCode + 1, k);
    ValuesPermute(l, Used(f, k), ids);
    var lens := l[..maxCode + 1];
    forall b | 1 <= b < 16 ensures bl[b] == Count(lens, b) {
      CountBySymbol(f, l, maxCode + 1, b);
      CountIsMultiplicity(Values(l, Used(f, k)), b);
      CountIsMultiplicity(Values(l, ids), b);
    }
    CountAbove(Values(l, ids), 0);
    forall i | 0 <= i < k && f[i] != 0 ensures 1 <= l[i] <= max {
      UsedLength(f, l, k, ids, max, i);
    }
    EndOfCounts(bl, lens, max, max);
    CodeEndIsKraft(lens, max);
  }

  lemma AboveUnused(f: seq<nat>, k: nat, maxCode: nat)
    requires k <= |f| && forall x :: x in UsedSet(f, k) ==> x <= maxCode
    ensures forall i :: maxCode < i < k ==> f[i] == 0
  {
    forall i | maxCode < i < k ensures f[i] == 0 {
      assert i in UsedSet(f, k) <==> f[i] != 0;
    }
  }

  lemma UsedLength(f: seq<nat>, l: seq<nat>, k: nat, ids: seq<nat>, max: nat, i: nat)
    requires k <= |f| == |l| && InBounds(ids, k) && i < k && f[i] != 0
    requires multiset(ids) == multiset(UsedSet(f, k)) && Within(Values(l, ids), max)
    ensures 1 <= l[i] <= max
  {
    assert i in multiset(ids);
    var j :| 0 <= j < |ids| && ids[j] == i;
    assert Values(l, ids)[j] == l[i];
  }

  // ---------- optimality ----------

  /** No lengths that satisfy the Kraft inequality give the codes ids a smaller sum of
      frequency times length. */
  ghost predicate Cheapest(f: seq<nat>, l: seq<nat>, ids: seq<nat>)
    requires |f| == |l| && forall i :: 0 <= i < |ids| ==> ids[i] < |l|
  {
    forall m: seq<nat>, w: nat :: |m| == |ids| && AtMost(m, w) && Units(m, w) <= Pow2(w) ==>
      Weighed(f, l, ids) <= Dot(Values(f, ids), m)
  }

  lemma MergedIsCheapest(f: seq<nat>, l: seq<nat>, ids: seq<nat>)
    requires |f| == |l| && forall i :: 0 <= i < |ids| ==> ids[i] < |l|
    requires Weighed(f, l, ids) <= MergeCost(multiset(Values(f, ids)))
    ensures Cheapest(f, l, ids)
  {
    hide Weighed, Dot, MergeCost, Values, Units;
    forall m: seq<nat>, w: nat | |m| == |ids| && AtMost(m, w) && Units(m, w) <= Pow2(w)
      ensures Weighed(f, l, ids) <= Dot(Values(f, ids), m)
    {
      MergingIsOptimal(Values(f, ids), m, w);
    }
  }

  lemma {:induction false} WeighedIsCost(f: seq<nat>, l: seq<nat>, ids: seq<nat>)
    requires |f| == |l| && forall i :: 0 <= i < |ids| ==> ids[i] < |l|
    ensures Weighed(f, l, ids) == CostOf(f, l, [], 0, ids)
    decreases |ids|
  {
    if ids != [] { WeighedIsCost(f, l, ids[..|ids| - 1]); }
  }

  lemma WeighedPermute(f: seq<nat>, l: seq<nat>, a: seq<nat>, b: seq<nat>)
    requires |f| == |l| && (forall i :: 0 <= i < |a| ==> a[i] < |l|) && multiset(a) == multiset(b)
    ensures forall i :: 0 <= i < |b| ==> b[i] < |l|
    ensures Weighed(f, l, a) == Weighed(f, l, b)
  {
    CostOfPermute(f, l, [], 0, a, b);
    WeighedIsCost(f, l, a);
    WeighedIsCost(f, l, b);
  }
}
