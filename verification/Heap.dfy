/** The heap of gzip.c: pqdownheap as a function on the heap array, and what it keeps. */
module Heap {

  /** The order of SMALLER: by frequency, then by depth of the subtree. */
  predicate Smaller(f: seq<nat>, d: seq<nat>, n: nat, m: nat)
    requires n < |f| && m < |f| && n < |d| && m < |d|
  {
    f[n] < f[m] || (f[n] == f[m] && d[n] <= d[m])
  }

  /** heap[1..len] holds node numbers. */
  predicate Nodes(f: seq<nat>, d: seq<nat>, h: seq<nat>, len: nat)
  {
    len < |h| && forall i :: 1 <= i <= len ==> h[i] < |f| && h[i] < |d|
  }

  function SmallerSon(f: seq<nat>, d: seq<nat>, h: seq<nat>, len: nat, j: nat): (r: nat)
    requires Nodes(f, d, h, len) && 1 <= j <= len
    ensures r <= len && (r == j || r == j + 1)
  {
    if j < len && Smaller(f, d, h[j + 1], h[j]) then j + 1 else j
  }

  /** Moves the hole at k down until v fits into it. */
  function Sift(f: seq<nat>, d: seq<nat>, h: seq<nat>, len: nat, k: nat, v: nat): (r: seq<nat>)
    requires Nodes(f, d, h, len) && 1 <= k <= len && v < |f| && v < |d|
    ensures |r| == |h| && Nodes(f, d, r, len)
    ensures forall i :: 0 <= i < |h| && !(1 <= i <= len) ==> r[i] == h[i]
    decreases len - k
  {
    if 2 * k > len then h[k := v]
    else
      var j := SmallerSon(f, d, h, len, 2 * k);
      if Smaller(f, d, v, h[j]) then h[k := v]
      else Sift(f, d, h[k := h[j]], len, j, v)
  }

  lemma SiftStep(f: seq<nat>, d: seq<nat>, h: seq<nat>, len: nat, k: nat, v: nat)
    requires Nodes(f, d, h, len) && 1 <= k <= len && v < |f| && v < |d|
    ensures 2 * k > len ==> Sift(f, d, h, len, k, v) == h[k := v]
    ensures 2 * k <= len ==>
      var j := SmallerSon(f, d, h, len, 2 * k);
      Sift(f, d, h, len, k, v) == if Smaller(f, d, v, h[j]) then h[k := v] else Sift(f, d, h[k := h[j]], len, j, v)
  {}

  /** pqdownheap(tree, k) */
  function PqDown(f: seq<nat>, d: seq<nat>, h: seq<nat>, len: nat, k: nat): (r: seq<nat>)
    requires Nodes(f, d, h, len) && 1 <= k <= len
    ensures |r| == |h| && Nodes(f, d, r, len)
  {
    Sift(f, d, h, len, k, h[k])
  }

  // ---------- the same nodes ----------

  lemma SwapKeepsMultiset(s: seq<nat>, i: nat, j: nat)
    requires i < |s| && j < |s|
    ensures multiset(s[i := s[j]][j := s[i]]) == multiset(s)
  {}

  function Members(h: seq<nat>, len: nat): multiset<nat>
    requires len < |h|
  {
    multiset(h[1..len + 1])
  }

  lemma {:induction false} SiftKeepsMembers(f: seq<nat>, d: seq<nat>, h: seq<nat>, len: nat, k: nat, v: nat)
    requires Nodes(f, d, h, len) && 1 <= k <= len && v < |f| && v < |d|
    ensures Members(Sift(f, d, h, len, k, v), len) == Members(h[k := v], len)
    decreases len - k
  {
    if 2 * k <= len {
      var j := SmallerSon(f, d, h, len, 2 * k);
      if !Smaller(f, d, v, h[j]) {
        SiftKeepsMembers(f, d, h[k := h[j]], len, j, v);
        MembersSwap(h[k := v], len, k, j);
        assert h[k := h[j]][j := v] == h[k := v][k := h[j]][j := v];
      }
    }
  }

  lemma MembersSwap(h: seq<nat>, len: nat, k: nat, j: nat)
    requires len < |h| && 1 <= k <= len && 1 <= j <= len && k != j
    ensures Members(h[k := h[j]][j := h[k]], len) == Members(h, len)
  {
    var s := h[1..len + 1];
    SwapKeepsMultiset(s, k - 1, j - 1);
    assert h[k := h[j]][j := h[k]][1..len + 1] == s[k - 1 := s[j - 1]][j - 1 := s[k - 1]];
  }

  // ---------- heap order ----------

  /** Every father from a on is not larger than its sons. */
  predicate Ordered(f: seq<nat>, d: seq<nat>, h: seq<nat>, len: nat, a: nat)
    requires Nodes(f, d, h, len) && a >= 1
  {
    forall c :: 2 <= c <= len && c / 2 >= a ==> Smaller(f, d, h[c / 2], h[c])
  }

  /** Order holds from a on except below the hole k, whose father bounds the sons of the hole. */
  predicate OrderedBut(f: seq<nat>, d: seq<nat>, h: seq<nat>, len: nat, a: nat, k: nat)
    requires Nodes(f, d, h, len) && a >= 1
  {
    && (forall c :: 2 <= c <= len && c / 2 >= a && c / 2 != k ==> Smaller(f, d, h[c / 2], h[c]))
    && (forall c :: 2 <= c <= len && c / 2 == k && k / 2 >= a ==> Smaller(f, d, h[k / 2], h[c]))
  }

  lemma {:induction false} SiftOrders(f: seq<nat>, d: seq<nat>, h: seq<nat>, len: nat, a: nat, k: nat, v: nat)
    requires Nodes(f, d, h, len) && 1 <= a <= k <= len && v < |f| && v < |d|
    requires OrderedBut(f, d, h[k := v], len, a, k)
    ensures Ordered(f, d, Sift(f, d, h, len, k, v), len, a)
    decreases len - k
  {
    if 2 * k <= len {
      var j := SmallerSon(f, d, h, len, 2 * k);
      if Smaller(f, d, v, h[j]) {
        HoleFits(f, d, h, len, a, k, v, j);
      } else {
        HoleMoves(f, d, h, len, a, k, v, j);
        SiftOrders(f, d, h[k := h[j]], len, a, j, v);
      }
    } else {
      var g := h[k := v];
      assert forall c :: 2 <= c <= len ==> c / 2 != k;
    }
  }

  lemma HoleFits(f: seq<nat>, d: seq<nat>, h: seq<nat>, len: nat, a: nat, k: nat, v: nat, j: nat)
    requires Nodes(f, d, h, len) && 1 <= a <= k && 2 * k <= len && v < |f| && v < |d|
    requires OrderedBut(f, d, h[k := v], len, a, k)
    requires j == SmallerSon(f, d, h, len, 2 * k) && Smaller(f, d, v, h[j])
    ensures Ordered(f, d, h[k := v], len, a)
  {
    var g := h[k := v];
    forall c | 2 <= c <= len && c / 2 >= a ensures Smaller(f, d, g[c / 2], g[c]) {
      if c / 2 == k {
        assert c == 2 * k || c == 2 * k + 1;
      }
    }
  }

  lemma HoleMoves(f: seq<nat>, d: seq<nat>, h: seq<nat>, len: nat, a: nat, k: nat, v: nat, j: nat)
    requires Nodes(f, d, h, len) && 1 <= a <= k && 2 * k <= len && v < |f| && v < |d|
    requires OrderedBut(f, d, h[k := v], len, a, k)
    requires j == SmallerSon(f, d, h, len, 2 * k) && !Smaller(f, d, v, h[j])
    ensures OrderedBut(f, d, h[k := h[j]][j := v], len, a, j)
  {
    var g, g' := h[k := v], h[k := h[j]][j := v];
    assert j / 2 == k;
    forall c | 2 <= c <= len && c / 2 >= a && c / 2 != j ensures Smaller(f, d, g'[c / 2], g'[c]) {
      if c / 2 == k {
        assert c == 2 * k || c == 2 * k + 1;
      } else if c == k {
        assert Smaller(f, d, g[k / 2], g[j]);
      } else {
        assert Smaller(f, d, g[c / 2], g[c]);
      }
    }
    forall c | 2 <= c <= len && c / 2 == j && j / 2 >= a ensures Smaller(f, d, g'[j / 2], g'[c]) {
      assert Smaller(f, d, g[c / 2], g[c]);
    }
  }

  /** pqdownheap extends the ordered part of the heap by one father. */
  lemma PqDownOrders(f: seq<nat>, d: seq<nat>, h: seq<nat>, len: nat, k: nat)
    requires Nodes(f, d, h, len) && 1 <= k <= len && Ordered(f, d, h, len, k + 1)
    ensures Ordered(f, d, PqDown(f, d, h, len, k), len, k)
    ensures Members(PqDown(f, d, h, len, k), len) == Members(h, len)
  {
    assert h[k := h[k]] == h;
    SiftOrders(f, d, h, len, k, k, h[k]);
    SiftKeepsMembers(f, d, h, len, k, h[k]);
  }

  /** The root of an ordered heap is a least frequent node, and among these one of least depth. */
  lemma {:induction false} RootSmallest(f: seq<nat>, d: seq<nat>, h: seq<nat>, len: nat, i: nat)
    requires Nodes(f, d, h, len) && Ordered(f, d, h, len, 1) && 1 <= i <= len
    ensures f[h[1]] < f[h[i]] || (f[h[1]] == f[h[i]] && d[h[1]] <= d[h[i]])
    decreases i
  {
    if i > 1 {
      RootSmallest(f, d, h, len, i / 2);
      assert Smaller(f, d, h[i / 2], h[i]);
    }
  }

  // ---------- the two operations of build_tree ----------

  /** PQREMOVE: the last node is moved into the root and sifted down. */
  function RemoveTop(f: seq<nat>, d: seq<nat>, h: seq<nat>, len: nat): (r: seq<nat>)
    requires Nodes(f, d, h, len) && 2 <= len
    ensures |r| == |h| && Nodes(f, d, r, len - 1)
  {
    PqDown(f, d, h[1 := h[len]], len - 1, 1)
  }

  lemma RemoveTopOk(f: seq<nat>, d: seq<nat>, h: seq<nat>, len: nat)
    requires Nodes(f, d, h, len) && 2 <= len && Ordered(f, d, h, len, 1)
    ensures Ordered(f, d, RemoveTop(f, d, h, len), len - 1, 1)
    ensures Members(RemoveTop(f, d, h, len), len - 1) + multiset{h[1]} == Members(h, len)
    ensures forall i :: len <= i < |h| ==> RemoveTop(f, d, h, len)[i] == h[i]
  {
    var g := h[1 := h[len]];
    PqDownOrders(f, d, g, len - 1, 1);
    assert h[1..len + 1] == [h[1]] + h[2..len] + [h[len]];
    assert g[1..len] == [h[len]] + h[2..len];
  }

  /** The root is replaced by v, which is sifted down. */
  function ReplaceTop(f: seq<nat>, d: seq<nat>, h: seq<nat>, len: nat, v: nat): (r: seq<nat>)
    requires Nodes(f, d, h, len) && 1 <= len && v < |f| && v < |d|
    ensures |r| == |h| && Nodes(f, d, r, len)
  {
    PqDown(f, d, h[1 := v], len, 1)
  }

  lemma ReplaceTopOk(f: seq<nat>, d: seq<nat>, h: seq<nat>, len: nat, v: nat)
    requires Nodes(f, d, h, len) && 1 <= len && v < |f| && v < |d| && Ordered(f, d, h, len, 1)
    ensures Ordered(f, d, ReplaceTop(f, d, h, len, v), len, 1)
    ensures Members(ReplaceTop(f, d, h, len, v), len) + multiset{h[1]} == Members(h, len) + multiset{v}
    ensures forall i :: len < i < |h| ==> ReplaceTop(f, d, h, len, v)[i] == h[i]
  {
    var g := h[1 := v];
    PqDownOrders(f, d, g, len, 1);
    assert h[1..len + 1] == [h[1]] + h[2..len + 1];
    assert g[1..len + 1] == [v] + h[2..len + 1];
  }
}
