/** build_tree and its helpers on the arrays of gzip.c. Freq and Code share one array,
    Dad and Len another, as in the unions of struct ct_data. */
module TreeBuilder {
  import opened Bits
  import opened Canonical
  import opened Optimal
  import opened Heap
  import opened Merging
  import opened BitLengths
  import opened LengthPasses
  import opened Depths
  import opened Symbols

  /** A tree: one entry per code and per internal node. */
  class CtTree {
    const fc: array<nat>  // Freq, later Code
    const dl: array<nat>  // Dad, later Len

    constructor (size: nat)
      ensures fresh(fc) && fresh(dl) && fc != dl && fc.Length == dl.Length == size
      ensures forall i :: 0 <= i < size ==> fc[i] == 0 && dl[i] == 0
    {
      fc := new nat[size](_ => 0);
      dl := new nat[size](_ => 0);
    }
  }

  /** struct tree_desc, except for max_code, which build_tree returns. */
  class TreeDesc {
    const tree: CtTree
    const stree: CtTree?
    const extraBits: seq<nat>
    const extraBase: nat
    const elems: nat
    const maxLength: nat

    constructor (tree: CtTree, stree: CtTree?, extraBits: seq<nat>, extraBase: nat, elems: nat, maxLength: nat)
      ensures this.tree == tree && this.stree == stree && this.extraBits == extraBits
      ensures this.extraBase == extraBase && this.elems == elems && this.maxLength == maxLength
    {
      this.tree, this.stree, this.extraBits := tree, stree, extraBits;
      this.extraBase, this.elems, this.maxLength := extraBase, elems, maxLength;
    }

    /** The sizes the rest of the program relies on. */
    predicate Fits()
    {
      && 3 <= elems <= L_CODES && 2 * elems <= tree.fc.Length == tree.dl.Length <= HEAP_SIZE
      && 1 <= maxLength <= 15 && elems <= Pow2(maxLength)
      && tree.fc != tree.dl && extraBase + |extraBits| >= elems
      && (stree != null ==> stree.dl.Length >= elems && stree.dl != tree.dl && stree.dl != tree.fc)
      && (forall n :: 0 <= n <= 2 ==> XBits(extraBits, extraBase, n) == 0)
    }
  }

  /** What build_tree promises about a tree: f are the frequencies it started from, fc
      and l the Code and Len entries it leaves for the first k codes. */
  ghost predicate Built(f: seq<nat>, fc: seq<nat>, l: seq<nat>, k: nat, maxCode: nat, max: nat)
  {
    && 1 <= maxCode < k <= |f| == |fc| == |l|
    && Complete(l[..maxCode + 1], max) && l[maxCode] > 0
    && (forall i :: maxCode < i < k ==> f[i] == 0 && l[i] == 0)
    && (forall i :: 0 <= i < k && f[i] > 0 ==> l[i] > 0)
    && (forall i :: 0 <= i <= maxCode && l[i] > 0 ==>
          fc[i] == Value(CodeBits(l[..maxCode + 1], i)) && fc[i] < Pow2(l[i]))
  }

  /** The tree is what merging the two lightest nodes makes of the frequencies f of k codes;
      w are the frequencies of its nodes. Only when fewer than two codes are in use are others
      forced in, and then the tree has two leaves. */
  ghost predicate MadeFrom(tree: Tree, w: seq<nat>, f: seq<nat>, k: nat)
  {
    && TreeOk(tree) && Sums(tree, w) && Falling(tree.nodes, w) && tree.elems == k <= |f| == |w|
    && tree.leaves == UsedSet(w, k)
    && if |Used(f, k)| >= 2 then (forall i :: 0 <= i < k ==> w[i] == f[i]) && w[tree.Root()] == SumRange(f, 0, k)
       else tree.N() == 2
  }

  /** Every leaf has its depth as its length. */
  ghost predicate LensAreDeep(t: Tree, l: seq<nat>) {
    forall x :: x in t.leaves ==> x < |l| && l[x] == Depth(t.dad, t.Root(), x)
  }

  /** Unless a leaf lies deeper than max, its depth is the length of every leaf and no prefix
      code is cheaper; and no leaf does when the frequencies add up to less than Fib(max + 3). */
  ghost predicate Shortest(tree: Tree, f: seq<nat>, l: seq<nat>, k: nat, max: nat)
  {
    && k <= |f| == |l|
    && (!Deep(tree, max) ==> LensAreDeep(tree, l) && (|Used(f, k)| >= 2 ==> Cheapest(f, l, Used(f, k))))
    && (SumRange(f, 0, k) < Fib(max + 3) ==> !Deep(tree, max))
  }

  class Builder {
    const heap: array<nat>
    const depth: array<nat>
    const blCount: array<nat>
    var heapLen: nat
    var heapMax: nat
    var optLen: nat
    var staticLen: nat

    predicate Sizes()
    {
      && heap.Length == depth.Length == HEAP_SIZE && blCount.Length == 16
      && heap != depth && heap != blCount && depth != blCount
    }

    predicate Apart(t: CtTree)
    {
      && t.fc != t.dl && t.fc != heap && t.fc != depth && t.fc != blCount
      && t.dl != heap && t.dl != depth && t.dl != blCount
    }

    predicate StaticApart(t: CtTree?)
    {
      t != null ==> t.dl != heap && t.dl != depth && t.dl != blCount
    }

    constructor ()
      ensures Sizes() && fresh(heap) && fresh(depth) && fresh(blCount)
      ensures optLen == 0 && staticLen == 0
      ensures forall i :: 0 <= i < 16 ==> blCount[i] == 0
    {
      heap := new nat[HEAP_SIZE](_ => 0);
      depth := new nat[HEAP_SIZE](_ => 0);
      blCount := new nat[16](_ => 0);
      heapLen, heapMax, optLen, staticLen := 0, 0, 0, 0;
    }

    // ---------- the heap ----------

    /** SMALLER(tree, n, m) */
    predicate IsSmaller(t: CtTree, n: nat, m: nat)
      reads this, t.fc, depth
      requires n < t.fc.Length && m < t.fc.Length && n < depth.Length && m < depth.Length
      ensures IsSmaller(t, n, m) == Smaller(t.fc[..], depth[..], n, m)
    {
      t.fc[n] < t.fc[m] || (t.fc[n] == t.fc[m] && depth[n] <= depth[m])
    }

    method PqDownHeap(t: CtTree, start: nat)
      requires Sizes() && Apart(t)
      requires Nodes(t.fc[..], depth[..], heap[..], heapLen) && 1 <= start <= heapLen
      modifies heap
      ensures heap[..] == PqDown(t.fc[..], depth[..], old(heap[..]), heapLen, start)
    {
      hide Sift;
      var k := start;
      var v: nat := heap[k];
      var j := 2 * k;
      ghost var f, d, h0: seq<nat> := t.fc[..], depth[..], heap[..];
      while j <= heapLen
        invariant 1 <= k <= heapLen && j == 2 * k && v < |f| && v < |d|
        invariant Nodes(f, d, heap[..], heapLen)
        invariant Sift(f, d, heap[..], heapLen, k, v) == Sift(f, d, h0, heapLen, start, v)
        decreases heapLen - k
      {
        ghost var h: seq<nat> := heap[..];
        SiftStep(f, d, h, heapLen, k, v);
        if j < heapLen && IsSmaller(t, heap[j + 1], heap[j]) {
          j := j + 1;
        }
        if IsSmaller(t, v, heap[j]) {
          break;
        }
        heap[k] := heap[j];
        assert heap[..] == h[k := h[j]];
        k := j;
        j := 2 * j;
      }
      ghost var h: seq<nat> := heap[..];
      SiftStep(f, d, h, heapLen, k, v);
      heap[k] := v;
      assert heap[..] == h[k := v];
    }

    /** The codes in use are put into the heap, the others get length 0. */
    method FillHeap(desc: TreeDesc) returns (maxCode: int)
      requires Sizes() && Apart(desc.tree) && desc.Fits()
      modifies this`heapLen, heap, depth, desc.tree.dl
      ensures heapLen <= desc.elems
      ensures heap[..][1..heapLen + 1] == Used(desc.tree.fc[..], desc.elems)
      ensures maxCode == if heapLen == 0 then -1 else heap[heapLen]
      ensures forall n :: 0 <= n < desc.elems && desc.tree.fc[n] == 0 ==> desc.tree.dl[n] == 0
    {
      hide Used, Filling;
      var t := desc.tree;
      ghost var f: seq<nat> := t.fc[..];
      maxCode := -1;
      heapLen := 0;
      FillingStart(f, heap[..], t.dl[..]);
      var n := 0;
      while n < desc.elems
        invariant n <= desc.elems && t.fc[..] == f
        invariant Filling(f, heap[..], heapLen, t.dl[..], maxCode, n)
      {
        FillingSizes(f, heap[..], heapLen, t.dl[..], maxCode, n);
        maxCode := FillOne(t, n, maxCode);
        n := n + 1;
      }
      FillingEnd(f, heap[..], heapLen, t.dl[..], maxCode, n);
    }

    method FillOne(t: CtTree, n: nat, code: int) returns (maxCode: int)
      requires Sizes() && Apart(t) && heapLen + 1 < HEAP_SIZE
      requires n < depth.Length && n < t.fc.Length && n < t.dl.Length
      requires Filling(t.fc[..], heap[..], heapLen, t.dl[..], code, n)
      modifies this`heapLen, heap, depth, t.dl
      ensures Filling(t.fc[..], heap[..], heapLen, t.dl[..], maxCode, n + 1)
    {
      hide Used, Filling;
      ghost var f: seq<nat>, h: seq<nat>, l: seq<nat> := t.fc[..], heap[..], t.dl[..];
      maxCode := code;
      if t.fc[n] != 0 {
        FillingUsed(f, h, heapLen, l, code, n);
        heapLen := heapLen + 1;
        maxCode := n;
        heap[heapLen] := n;
        assert heap[..] == h[heapLen := n];
        depth[n] := 0;
      } else {
        FillingUnused(f, h, heapLen, l, code, n);
        t.dl[n] := 0;
        assert t.dl[..] == l[n := 0];
      }
    }

    /** Another code is forced to be in use. */
    method ForceOne(desc: TreeDesc, code: int) returns (maxCode: int, ghost x: nat)
      requires Sizes() && Apart(desc.tree) && desc.Fits() && StaticApart(desc.stree)
      requires code >= -1 && heapLen < 2
      modifies this`heapLen, this`optLen, this`staticLen, heap, depth, desc.tree.fc
      ensures x == (if code < 2 then code + 1 else 0) && maxCode == if code < 2 then x else code
      ensures heapLen == old(heapLen) + 1 && heap[..] == old(heap[..])[heapLen := x]
      ensures desc.tree.fc[..] == old(desc.tree.fc[..])[x := 1]
      ensures optLen == Wrap(old(optLen) - 1)
      ensures staticLen == if desc.stree == null then old(staticLen) else Wrap(old(staticLen) - desc.stree.dl[x])
    {
      var t := desc.tree;
      maxCode := code;
      heapLen := heapLen + 1;
      var c: nat;
      if maxCode < 2 {
        maxCode := maxCode + 1;
        c := maxCode;
      } else {
        c := 0;
      }
      x := c;
      heap[heapLen] := c;
      t.fc[c] := 1;
      depth[c] := 0;
      optLen := Wrap(optLen - 1);
      if desc.stree != null {
        staticLen := Wrap(staticLen - desc.stree.dl[c]);
      }
    }

    /** One more code in use, with its bits taken off from both block lengths in advance. */
    method ForceNext(desc: TreeDesc, code: int, ghost f: seq<nat>, ghost ones: seq<nat>, ghost sl: seq<nat>,
          ghost opt0: nat, ghost static0: nat)
      returns (maxCode: int)
      requires Sizes() && Apart(desc.tree) && desc.Fits() && StaticApart(desc.stree) && heapLen < 2
      requires ones == Ones(desc.elems) && |f| == |desc.tree.fc[..]| && desc.elems <= |sl|
      requires desc.stree != null ==> desc.stree.dl[..] == sl
      requires Forcing(f, desc.tree.fc[..], heap[..], heapLen, code, desc.elems)
      requires optLen == Wrap(opt0 - Added(f, desc.tree.fc[..], ones, desc.elems))
      requires staticLen == (if desc.stree == null then static0
                             else Wrap(static0 - Added(f, desc.tree.fc[..], sl, desc.elems)))
      modifies this`heapLen, this`optLen, this`staticLen, heap, depth, desc.tree.fc
      ensures heapLen == old(heapLen) + 1
      ensures Forcing(f, desc.tree.fc[..], heap[..], heapLen, maxCode, desc.elems)
      ensures optLen == Wrap(opt0 - Added(f, desc.tree.fc[..], ones, desc.elems))
      ensures staticLen == (if desc.stree == null then static0
                            else Wrap(static0 - Added(f, desc.tree.fc[..], sl, desc.elems)))
    {
      hide Forcing, Forced, Added, UsedSet, Members, Wrap, Ones;
      ghost var f1, h: seq<nat> := desc.tree.fc[..], heap[..];
      ghost var k := desc.elems;
      ForcingStep(f, f1, h, heapLen, code, k);
      ghost var x: nat;
      maxCode, x := ForceOne(desc, code);
      AddedCode(f, f1, x, ones, k);
      AddedCode(f, f1, x, sl, k);
      OnesAt(k, x);
      WrapSub(opt0 - Added(f, f1, ones, k), 1);
      WrapSub(static0 - Added(f, f1, sl, k), sl[x]);
    }

    /** At least two codes are forced to be in use; what they will add to the lengths is
        taken off in advance. */
    method ForceTwo(desc: TreeDesc, code: int) returns (maxCode: int)
      requires Sizes() && Apart(desc.tree) && desc.Fits() && StaticApart(desc.stree)
      requires heapLen <= desc.elems && heap[..][1..heapLen + 1] == Used(desc.tree.fc[..], desc.elems)
      requires code == if heapLen == 0 then -1 else heap[heapLen]
      requires optLen < ULONG && staticLen < ULONG
      modifies this`heapLen, this`optLen, this`staticLen, heap, depth, desc.tree.fc
      ensures var f, f' := old(desc.tree.fc[..]), desc.tree.fc[..]; var k := desc.elems;
        && Forced(f, f', k) && 2 <= heapLen <= k
        && Members(heap[..], heapLen) == multiset(UsedSet(f', k))
        && (f' != f ==> heapLen == 2)
        && 1 <= maxCode < k && maxCode in UsedSet(f', k) && (forall x :: x in UsedSet(f', k) ==> x <= maxCode)
        && optLen == Wrap(old(optLen) - Added(f, f', Ones(k), k))
        && staticLen == (if desc.stree == null then old(staticLen)
                         else Wrap(old(staticLen) - Added(f, f', desc.stree.dl[..], k)))
    {
      hide Forcing, Forced, Added, UsedSet, Members, Wrap, Ones;
      var t := desc.tree;
      ghost var f, k := t.fc[..], desc.elems;
      ghost var ones := Ones(k);
      ghost var sl: seq<nat> := if desc.stree == null then ones else desc.stree.dl[..];
      maxCode := code;
      ForcingStart(f, heap[..], heapLen, maxCode, k);
      ForcedStart(f, k, ones);
      ForcedStart(f, k, sl);
      WrapSmall(optLen);
      WrapSmall(staticLen);
      while heapLen < 2
        invariant |f| == |t.fc[..]| && Forcing(f, t.fc[..], heap[..], heapLen, maxCode, k)
        invariant optLen == Wrap(old(optLen) - Added(f, t.fc[..], ones, k))
        invariant staticLen == (if desc.stree == null then old(staticLen)
                                else Wrap(old(staticLen) - Added(f, t.fc[..], sl, k)))
        invariant desc.stree != null ==> desc.stree.dl[..] == sl
        decreases 2 - heapLen
      {
        maxCode := ForceNext(desc, maxCode, f, ones, sl, old(optLen), old(staticLen));
      }
      ForcingEnd(f, t.fc[..], heap[..], heapLen, maxCode, k);
    }

    /** The elements heap[heapLen/2 + 1 .. heapLen] are leaves of the heap; the others are
        sifted down from the last to the first. */
    method Heapify(t: CtTree)
      requires Sizes() && Apart(t) && Nodes(t.fc[..], depth[..], heap[..], heapLen)
      modifies heap
      ensures Nodes(t.fc[..], depth[..], heap[..], heapLen)
      ensures Ordered(t.fc[..], depth[..], heap[..], heapLen, 1)
      ensures Members(heap[..], heapLen) == old(Members(heap[..], heapLen))
    {
      hide PqDown, Members, Smaller;
      ghost var f, d: seq<nat> := t.fc[..], depth[..];
      var n := heapLen / 2;
      while n >= 1
        invariant 0 <= n <= heapLen / 2
        invariant t.fc[..] == f && depth[..] == d && Nodes(f, d, heap[..], heapLen)
        invariant Ordered(f, d, heap[..], heapLen, n + 1)
        invariant Members(heap[..], heapLen) == old(Members(heap[..], heapLen))
      {
        PqDownOrders(f, d, heap[..], heapLen, n);
        PqDownHeap(t, n);
        n := n - 1;
      }
    }

    /** The state of the merging loop, with node the next internal node. */
    ghost function StateOf(t: CtTree, node: nat): State
      reads this, t, t.fc, t.dl, heap, depth
    {
      State(t.fc[..], depth[..], t.dl[..], heap[..], heapLen, heapMax, node)
    }

    /** PQREMOVE(tree, top) */
    method PqRemove(t: CtTree) returns (top: nat)
      requires Sizes() && Apart(t) && Nodes(t.fc[..], depth[..], heap[..], heapLen) && 2 <= heapLen
      modifies this`heapLen, heap
      ensures heapLen == old(heapLen) - 1 && top == old(heap[1])
      ensures heap[..] == RemoveTop(t.fc[..], depth[..], old(heap[..]), old(heapLen))
    {
      hide PqDown;
      ghost var h: seq<nat> := heap[..];
      top := heap[1];
      heap[1] := heap[heapLen];
      heapLen := heapLen - 1;
      assert heap[..] == h[1 := h[heapLen + 1]];
      PqDownHeap(t, 1);
    }

    /** One round of the loop that combines the least two nodes. */
    method MergeStep(t: CtTree, node: nat)
      requires Sizes() && Apart(t) && Ready(StateOf(t, node))
      modifies this`heapLen, this`heapMax, heap, depth, t.fc, t.dl
      ensures StateOf(t, node + 1) == old(Merge(StateOf(t, node)))
    {
      hide PqDown, RemoveTop, Smaller;
      ghost var s := StateOf(t, node);
      var n := PqRemove(t);
      var m := heap[1];
      ghost var h1: seq<nat> := heap[..];
      heapMax := heapMax - 1;
      heap[heapMax] := n;
      heapMax := heapMax - 1;
      heap[heapMax] := m;
      t.fc[node] := (t.fc[n] + t.fc[m]) % USHORT;
      depth[node] := (MaxOf(depth[n], depth[m]) + 1) % 0x100;
      t.dl[n] := node;
      t.dl[m] := node;
      ghost var h2: seq<nat> := heap[..];
      assert h2 == h1[s.max - 1 := n][s.max - 2 := m];
      assert t.fc[..] == JoinFreq(s, n, m) && depth[..] == JoinDepth(s, n, m);
      assert t.dl[..] == s.dad[n := node][m := node];
      heap[1] := node;
      assert heap[..] == h2[1 := node];
      PqDownHeap(t, 1);
    }

    /** The loop that combines nodes until one is left. */
    method MergeAll(t: CtTree, elems: nat, ghost leaves: set<nat>, ghost n: nat, ghost cost: nat, ghost total: nat)
        returns (node: nat)
      requires Sizes() && Apart(t) && Inv(StateOf(t, elems), elems, leaves, n) && heapLen == n >= 2
      requires AccountsReady(StateOf(t, elems), elems)
      requires Accounts(StateOf(t, elems), elems, cost, total) && total < USHORT
      requires heapMax <= HEAP_SIZE && Lightest(StateOf(t, elems))
      modifies this`heapLen, this`heapMax, heap, depth, t.fc, t.dl
      ensures heapLen == 1 && Inv(StateOf(t, node), elems, leaves, n)
      ensures AccountsReady(StateOf(t, node), elems) && Accounts(StateOf(t, node), elems, cost, total)
      ensures heapMax <= HEAP_SIZE && Lightest(StateOf(t, node))
      ensures forall i :: 0 <= i < elems ==> t.fc[i] == old(t.fc[i])
      ensures forall i :: 0 <= i < elems && i !in leaves ==> t.dl[i] == old(t.dl[i])
    {
      hide Inv, Accounts, Merge, Ready, Lightest;
      node := elems;
      InvSizes(StateOf(t, node), elems, leaves, n);
      while heapLen >= 2
        invariant 1 <= heapLen && elems <= t.fc.Length == t.dl.Length && Inv(StateOf(t, node), elems, leaves, n)
        invariant AccountsReady(StateOf(t, node), elems)
        invariant Accounts(StateOf(t, node), elems, cost, total)
        invariant heapMax <= HEAP_SIZE && Lightest(StateOf(t, node))
        invariant forall i :: 0 <= i < elems ==> t.fc[i] == old(t.fc[i])
        invariant forall i :: 0 <= i < elems && i !in leaves ==> t.dl[i] == old(t.dl[i])
        decreases heapLen
      {
        ghost var s := StateOf(t, node);
        InvReady(s, elems, leaves, n);
        MergeKeepsAccounts(s, elems, leaves, n, cost, total);
        MergeKeepsInv(s, elems, leaves, n);
        MergeKeepsLightest(s, elems, leaves, n);
        MergeLeavesAlone(s, elems, leaves, n);
        MergeStep(t, node);
        SameEntries(t, s, Merge(s), elems, leaves, node + 1);
        node := node + 1;
        InvSizes(StateOf(t, node), elems, leaves, n);
      }
    }

    lemma SameEntries(t: CtTree, s: State, r: State, elems: nat, leaves: set<nat>, node: nat)
      requires StateOf(t, node) == r && |s.f| == |r.f| >= elems && |s.dad| == |r.dad| >= elems
      requires forall i :: 0 <= i < elems ==> r.f[i] == s.f[i]
      requires forall i :: 0 <= i < elems && i !in leaves ==> r.dad[i] == s.dad[i]
      ensures forall i :: 0 <= i < elems ==> t.fc[i] == s.f[i]
      ensures forall i :: 0 <= i < elems && i !in leaves ==> t.dl[i] == s.dad[i]
    {}

    // ---------- gen_bitlen ----------

    /** The finished tree: heap[heap_max] and above, with the fathers in Dad. */
    ghost function TreeNow(t: CtTree, elems: nat, leaves: set<nat>): Tree
      reads this, t, t.dl, heap
      requires heapMax <= heap.Length
    {
      Tree(heap[heapMax..], t.dl[..], elems, leaves)
    }

    /** The lengths the static tree gives, or any lengths if there is none. */
    ghost function StaticLens(desc: TreeDesc): (r: seq<nat>)
      reads desc, desc.stree, if desc.stree == null then {} else {desc.stree.dl}
    {
      if desc.stree == null then Ones(desc.elems) else desc.stree.dl[..]
    }

    ghost predicate StaticAdded(desc: TreeDesc, before: nat, cost: nat)
      reads this
    {
      staticLen == if desc.stree == null then before else Wrap(before + cost)
    }

    lemma StaticEnough(desc: TreeDesc)
      requires desc.Fits()
      ensures desc.elems <= |StaticLens(desc)|
    {}

    method ZeroCounts()
      requires Sizes()
      modifies blCount
      ensures Tallied(blCount[..], [])
    {
      for b := 0 to 16
        invariant forall i :: 0 <= i < b ==> blCount[i] == 0
      {
        blCount[b] := 0;
      }
    }

    /** A leaf of length bits adds to the counts and to both block lengths. */
    method CountLeaf(desc: TreeDesc, n: nat, bits: nat, ghost cost: nat, ghost scost: nat, ghost opt0: nat,
        ghost static0: nat)
      requires Sizes() && Apart(desc.tree) && desc.Fits() && StaticApart(desc.stree)
      requires n < desc.elems && bits < 16 && desc.tree.dl[n] == bits
      requires optLen == Wrap(opt0 + cost) && StaticAdded(desc, static0, scost)
      modifies this`optLen, this`staticLen, blCount
      ensures blCount[..] == old(blCount[..])[bits := old(blCount[bits]) + 1]
      ensures var f, l := desc.tree.fc[..], desc.tree.dl[..]; var extra, base := desc.extraBits, desc.extraBase;
        && optLen == Wrap(opt0 + (cost + ItemCost(f, l, extra, base, n)))
        && n < |StaticLens(desc)|
        && StaticAdded(desc, static0, scost + ItemCost(f, StaticLens(desc), extra, base, n))
    {
      hide Wrap;
      var f, xbits: nat := desc.tree.fc[n], 0;
      blCount[bits] := blCount[bits] + 1;
      if n >= desc.extraBase {
        xbits := desc.extraBits[n - desc.extraBase];
      }
      WrapAdd(opt0 + cost, f * (bits + xbits));
      optLen := Wrap(optLen + f * (bits + xbits));
      if desc.stree != null {
        WrapAdd(static0 + scost, f * (desc.stree.dl[n] + xbits));
        staticLen := Wrap(staticLen + f * (desc.stree.dl[n] + xbits));
      }
    }

    /** The first pass: lengths from the tree, cut off at max_length, with their counts
        and costs. */
    method FirstPass(desc: TreeDesc, maxCode: nat, ghost leaves: set<nat>) returns (overflow: nat)
      requires Sizes() && Apart(desc.tree) && desc.Fits() && StaticApart(desc.stree) && heapMax < HEAP_SIZE
      requires TreeOk(TreeNow(desc.tree, desc.elems, leaves)) && desc.tree.fc.Length == desc.tree.dl.Length
      requires maxCode < desc.elems && forall x :: x in leaves ==> x <= maxCode
      requires optLen < ULONG && staticLen < ULONG
      modifies this`optLen, this`staticLen, blCount, desc.tree.dl
      ensures var t := old(TreeNow(desc.tree, desc.elems, leaves)); var l := desc.tree.dl[..];
        var ids := LeafIds(t.nodes, t.elems);
        && Lens(t, l, desc.maxLength) && overflow == 2 * Clamped(t, l, desc.maxLength, t.N() - 1)
        && InBounds(ids, desc.elems) && Tallied(blCount[..], Values(l, ids))
        && optLen == Wrap(old(optLen) + CostOf(desc.tree.fc[..], l, desc.extraBits, desc.extraBase, ids))
        && desc.elems <= |StaticLens(desc)|
        && StaticAdded(desc, old(staticLen), CostOf(desc.tree.fc[..], StaticLens(desc), desc.extraBits, desc.extraBase,
            ids))
      ensures forall i :: 0 <= i < desc.elems && i !in leaves ==> desc.tree.dl[i] == old(desc.tree.dl[i])
    {
      hide TreeOk, PartLens, LenOk, Overflows, Tallied, CostOf, ItemCost, Values, LeavesTo, LeafIds, Wrap, XBits,
          StaticLens, SameOutside, Clamped, Lens;
      var t := desc.tree;
      ghost var T, f, max := TreeNow(t, desc.elems, leaves), t.fc[..], desc.maxLength;
      ghost var sl, extra, base := StaticLens(desc), desc.extraBits, desc.extraBase;
      ghost var opt0, static0 := optLen, staticLen;
      StaticEnough(desc);
      ZeroCounts();
      FirstNode(T, max);
      t.dl[heap[heapMax]] := 0;
      assert t.dl[..] == T.dad[T.Root() := 0];
      RootOutside(T, t.dl[..]);
      PassStart(T, f, t.dl[..], sl, extra, base);
      WrapSmall(optLen);
      WrapSmall(staticLen);
      overflow := 0;
      var h := heapMax + 1;
      ghost var q := 1;
      while h < HEAP_SIZE
        invariant heapMax < h <= HEAP_SIZE && q == h - heapMax && |T.nodes| == HEAP_SIZE - heapMax
        invariant PartLens(T, t.dl[..], max, q)
        invariant overflow == Overflows(T, t.dl[..], max, q)
        invariant InBounds(LeavesTo(T, q), desc.elems) && Tallied(blCount[..], Values(t.dl[..], LeavesTo(T, q)))
        invariant optLen == Wrap(opt0 + CostOf(f, t.dl[..], extra, base, LeavesTo(T, q)))
        invariant StaticAdded(desc, static0, CostOf(f, sl, extra, base, LeavesTo(T, q)))
        invariant SameOutside(t.dl[..], T.dad, desc.elems, leaves)
      {
        ghost var l: seq<nat> := t.dl[..];
        PartLensStep(T, l, max, q);
        NodeBound(T, q);
        var n := heap[h];
        assert n == T.nodes[q];
        var bits := t.dl[t.dl[n]] + 1;
        ghost var over := bits > max;
        if bits > desc.maxLength {
          bits := desc.maxLength;
          overflow := overflow + 1;
        }
        OverflowsStep(T, l, max, q, bits);
        PassStep(T, l, q, bits, f, sl, extra, base);
        t.dl[n] := bits;
        assert t.dl[..] == l[n := bits];
        SameOutsideStep(l, T.dad, desc.elems, leaves, n, bits);
        h, q := h + 1, q + 1;
        if n <= maxCode {  // a leaf node
          TallyOne(blCount[..], Values(l, LeavesTo(T, q - 1)), bits);
          CountLeaf(desc, n, bits, CostOf(f, l, extra, base, LeavesTo(T, q - 1)),
                    CostOf(f, sl, extra, base, LeavesTo(T, q - 1)), opt0, static0);
        }
      }
      PartLensDone(T, t.dl[..], max);
      LeavesToAll(T);
      OverflowsDone(T, t.dl[..], max);
      SameOutsideTells(t.dl[..], T.dad, desc.elems, leaves);
    }

    /** Moves leaves down until the overflowing ones have found a place. */
    method RepairCounts(max: nat, over: nat, ghost n: nat)
      requires Sizes() && max <= 15 && over > 0 && over % 2 == 0
      requires Repairing(blCount[..], max, n, over / 2)
      modifies blCount
      ensures Repairing(blCount[..], max, n, 0)
      ensures forall b :: b == 0 || max < b < 16 ==> blCount[b] == old(blCount[b])
    {
      hide EndOf, Total, Pow2;
      var overflow: int := over;
      while overflow > 0
        invariant 0 <= overflow && overflow % 2 == 0 && Repairing(blCount[..], max, n, overflow / 2)
        invariant forall b :: b == 0 || max < b < 16 ==> blCount[b] == old(blCount[b])
        decreases overflow
      {
        ghost var bl: seq<nat> := blCount[..];
        ShorterExists(bl, max, n, overflow / 2);
        var bits := max - 1;
        while blCount[bits] == 0
          invariant 1 <= bits < max && exists b :: 1 <= b <= bits && bl[b] != 0
          invariant blCount[..] == bl
          decreases bits
        {
          bits := bits - 1;
        }
        MoveDownRepairs(bl, bits, max, n, overflow / 2);
        blCount[bits] := blCount[bits] - 1;
        blCount[bits + 1] := blCount[bits + 1] + 2;
        blCount[max] := blCount[max] - 1;
        assert blCount[..] == MoveDown(bl, bits, max);
        overflow := overflow - 2;
      }
    }

    /** A leaf is given a new length. */
    method ChangeLen(desc: TreeDesc, m: nat, bits: nat, ghost opt0: nat, ghost cost: nat)
      requires Sizes() && Apart(desc.tree) && desc.Fits() && m < desc.elems
      requires optLen == Wrap(opt0 + cost)
      modifies this`optLen, desc.tree.dl
      ensures desc.tree.dl[..] == old(desc.tree.dl[..])[m := bits]
      ensures optLen == Wrap(opt0 + (cost + (bits - old(desc.tree.dl[m])) * desc.tree.fc[m]))
    {
      var t := desc.tree;
      ghost var l: seq<nat> := t.dl[..];
      if t.dl[m] != bits {
        WrapAdd(opt0 + cost, (bits - t.dl[m]) * t.fc[m]);
        optLen := Wrap(optLen + (bits - t.dl[m]) * t.fc[m]);
        t.dl[m] := bits;
      }
      assert t.dl[..] == l[m := bits];
    }

    /** What holds while lengths are handed out from place h on. */
    ghost predicate HandingOut(desc: TreeDesc, maxCode: nat, T: Tree, opt0: nat, h: nat, bits: nat, n: nat)
      reads this, desc, desc.tree, desc.tree.fc, desc.tree.dl, heap, blCount
    {
      && Sizes() && Apart(desc.tree) && desc.Fits() && desc.tree.fc.Length == desc.tree.dl.Length
      && TreeOk(T) && T.elems == desc.elems && heapMax <= h <= HEAP_SIZE && heapMax < HEAP_SIZE
      && heap[heapMax..] == T.nodes && |T.dad| == desc.tree.dl.Length
      && maxCode < desc.elems && (forall x :: x in T.leaves ==> x <= maxCode)
      && Total(blCount[..], desc.maxLength) == T.N()
      && InBounds(LeafIds(T.nodes, T.elems), T.elems) && T.elems <= |T.dad|
      && Handed(T, desc.tree.dl[..], blCount[..], desc.maxLength, h - heapMax, bits, n)
      && optLen == Wrap(opt0 + CostOf(desc.tree.fc[..], desc.tree.dl[..], desc.extraBits, desc.extraBase,
                                      LeafIds(T.nodes, T.elems)))
    }

    /** The next node towards the root: a leaf gets the length bits. */
    method HandOne(desc: TreeDesc, maxCode: nat, ghost T: Tree, ghost opt0: nat, h: nat, bits: nat, n: nat)
        returns (h': nat, n': nat)
      requires HandingOut(desc, maxCode, T, opt0, h, bits, n) && n > 0 && bits >= 1
      modifies this`optLen, desc.tree.dl
      ensures h' == h - 1 && HandingOut(desc, maxCode, T, opt0, h', bits, n')
      ensures forall i :: 0 <= i < desc.elems && i !in T.leaves ==> desc.tree.dl[i] == old(desc.tree.dl[i])
    {
      hide TreeOk, Handed, CostOf, Values, LeafIds, Total, Wrap, Count;
      ghost var l: seq<nat> := desc.tree.dl[..];
      ghost var bl: seq<nat> := blCount[..];
      ghost var q := h - heapMax;
      TreeSizes(T);
      HandedLeft(T, l, bl, desc.maxLength, q, bits, n);
      NodeBound(T, q - 1);
      h', n' := h - 1, n;
      var m := heap[h'];
      assert m == T.nodes[q - 1];
      if m > maxCode {
        HandedSkip(T, l, bl, desc.maxLength, q, bits, n);
        return;
      }
      HandedGive(T, l, bl, desc.maxLength, q, bits, n);
      CostChange(T, desc.tree.fc[..], l, desc.extraBits, desc.extraBase, q - 1, bits);
      ChangeLen(desc, m, bits, opt0, CostOf(desc.tree.fc[..], l, desc.extraBits, desc.extraBase,
                                            LeafIds(T.nodes, T.elems)));
      n' := n - 1;
    }

    /** Hands the lengths out again, the longest to the least frequent leaves. */
    method SecondPass(desc: TreeDesc, maxCode: nat, ghost T: Tree, ghost opt0: nat)
      requires Sizes() && Apart(desc.tree) && desc.Fits() && desc.tree.fc.Length == desc.tree.dl.Length
      requires TreeOk(T) && T.elems == desc.elems && heapMax < HEAP_SIZE && heap[heapMax..] == T.nodes
      requires |T.dad| == desc.tree.dl.Length
      requires maxCode < desc.elems && (forall x :: x in T.leaves ==> x <= maxCode)
      requires blCount[0] == 0 && Total(blCount[..], desc.maxLength) == T.N()
      requires InBounds(LeafIds(T.nodes, T.elems), T.elems)
      requires optLen == Wrap(opt0 + CostOf(desc.tree.fc[..], desc.tree.dl[..], desc.extraBits, desc.extraBase,
                                            LeafIds(T.nodes, T.elems)))
      modifies this`optLen, desc.tree.dl
      ensures var l, ids := desc.tree.dl[..], LeafIds(T.nodes, T.elems);
        && Histogram(blCount[..], Values(l, ids), desc.maxLength) && Within(Values(l, ids), desc.maxLength)
        && optLen == Wrap(opt0 + CostOf(desc.tree.fc[..], l, desc.extraBits, desc.extraBase, ids))
      ensures forall i :: 0 <= i < desc.elems && i !in T.leaves ==> desc.tree.dl[i] == old(desc.tree.dl[i])
    {
      hide TreeOk, Handed, CostOf, Values, LeafIds, Total, Wrap, Count, Within, Histogram, InBounds;
      var t := desc.tree;
      ghost var bl: seq<nat> := blCount[..];
      TreeSizes(T);
      HandedStart(T, t.dl[..], bl, desc.maxLength);
      var h: nat := HEAP_SIZE;
      var bits: nat := desc.maxLength;
      while bits != 0
        invariant bits <= desc.maxLength && blCount[..] == bl
        invariant HandingOut(desc, maxCode, T, opt0, h, bits, bl[bits])
        invariant forall i :: 0 <= i < desc.elems && i !in T.leaves ==> t.dl[i] == old(t.dl[i])
      {
        var n := blCount[bits];
        while n != 0
          invariant blCount[..] == bl && HandingOut(desc, maxCode, T, opt0, h, bits, n)
          invariant forall i :: 0 <= i < desc.elems && i !in T.leaves ==> t.dl[i] == old(t.dl[i])
          decreases h
        {
          h, n := HandOne(desc, maxCode, T, opt0, h, bits, n);
        }
        assert heapMax <= h;
        HandedNext(T, t.dl[..], bl, desc.maxLength, h - heapMax, bits);
        bits := bits - 1;
      }
      HandedAll(T, t.dl[..], bl, desc.maxLength, h - heapMax, bl[0]);
      WithinIs(Values(t.dl[..], LeafIds(T.nodes, T.elems)), desc.maxLength);
    }

    /** gen_bitlen: the lengths of the codes and their counts. Unless a leaf lies deeper than
        max_length the lengths are the depths of the leaves. */
    method GenBitlen(desc: TreeDesc, maxCode: nat, ghost leaves: set<nat>)
      requires Sizes() && Apart(desc.tree) && desc.Fits() && StaticApart(desc.stree) && heapMax < HEAP_SIZE
      requires TreeOk(TreeNow(desc.tree, desc.elems, leaves)) && desc.tree.fc.Length == desc.tree.dl.Length
      requires Sums(TreeNow(desc.tree, desc.elems, leaves), desc.tree.fc[..])
      requires maxCode < desc.elems && forall x :: x in leaves ==> x <= maxCode
      requires optLen < ULONG && staticLen < ULONG
      modifies this`optLen, this`staticLen, blCount, desc.tree.dl
      ensures var t := old(TreeNow(desc.tree, desc.elems, leaves)); var l := desc.tree.dl[..];
        var ids := LeafIds(t.nodes, t.elems); var f := desc.tree.fc[..];
        && InBounds(ids, desc.elems) && Tallied(blCount[..], Values(l, ids)) && Within(Values(l, ids), desc.maxLength)
        && EndOf(blCount[..], desc.maxLength) == Pow2(desc.maxLength)
        && optLen == Wrap(old(optLen) + CostOf(f, l, desc.extraBits, desc.extraBase, ids))
        && desc.elems <= |StaticLens(desc)|
        && StaticAdded(desc, old(staticLen), CostOf(f, StaticLens(desc), desc.extraBits, desc.extraBase, ids))
        && t.elems <= t.Root() + 1 <= |f| == |l|
        && (!Deep(t, desc.maxLength) ==> Weighed(f, l, ids) == SumRange(f, t.elems, t.Root() + 1))
        && (!Deep(t, desc.maxLength) ==> LensAreDeep(t, l))
        && (Deep(t, desc.maxLength) ==> blCount[desc.maxLength] > 0)
      ensures forall i :: 0 <= i < desc.elems && i !in leaves ==> desc.tree.dl[i] == old(desc.tree.dl[i])
    {
      hide TreeOk, Lens, Tallied, Count, LeafIds, Values, CostOf, Wrap, Total, EndOf, Within, Histogram, Clamped,
          Sums, StaticLens, Pow2;
      hide Weighed, Deep, LensAreDeep;
      ghost var T, max := TreeNow(desc.tree, desc.elems, leaves), desc.maxLength;
      ghost var ids := LeafIds(T.nodes, T.elems);
      var overflow := FirstPass(desc, maxCode, leaves);
      LeavesFew(T, max);
      TreeSizes(T);
      RepairStart(T, desc.tree.dl[..], max, blCount[..]);
      TalliedWithin(T, desc.tree.dl[..], max, blCount[..]);
      OverflowIsDeep(T, desc.tree.dl[..], max);
      if overflow == 0 {
        LeavesAreDeep(T, desc.tree.dl[..], max);
        LeafCost(T, desc.tree.dl[..], max, desc.tree.fc[..]);
        return;
      }
      RepairCounts(desc.maxLength, overflow, T.N());
      SecondPass(desc, maxCode, T, old(optLen));
      TalliedAgain(blCount[..], Values(desc.tree.dl[..], ids), max);
    }

    lemma LeavesFew(t: Tree, max: nat)
      requires TreeOk(t) && t.elems <= Pow2(max)
      ensures t.N() <= Pow2(max) && t.N() >= 1
    {}

    // ---------- gen_codes ----------

    /** The first len bits of code in reverse order. */
    method BiReverse(code: nat, len: nat) returns (r: nat)
      requires 1 <= len <= 15
      ensures r == Value(Msb(code, len)) && r < Pow2(len)
    {
      var c, n := code, len;
      r := 0;
      ghost var k := 0;
      ReverseNone(code);
      while true
        invariant 0 <= k < len && n == len - k && c == code / Pow2(k)
        invariant r == 2 * Value(Msb(code, k))
        decreases n
      {
        ReverseStep(code, k, c, r);
        r := Or(r, c % 2);
        n, k := n - 1, k + 1;
        if n <= 0 {
          ValueBound(Msb(code, len));
          return;
        }
        c := c / 2;
        r := 2 * r;
      }
    }

    /** gen_codes: each code of nonzero length gets the number that the lengths determine,
        with its bits reversed for the bit writer. */
    method GenCodes(t: CtTree, maxCode: nat, ghost max: nat)
      requires Sizes() && Apart(t) && maxCode < t.dl.Length == t.fc.Length && 1 <= max <= 15
      requires Bounded(t.dl[..maxCode + 1], max) && Kraft(t.dl[..maxCode + 1], max) <= Pow2(max)
      requires blCount[0] == 0 && forall b :: 1 <= b < 16 ==> blCount[b] == Count(t.dl[..maxCode + 1], b)
      modifies t.fc
      ensures forall n :: 0 <= n <= maxCode && t.dl[n] > 0 ==>
        t.fc[n] == Value(CodeBits(t.dl[..maxCode + 1], n)) && t.fc[n] < Pow2(t.dl[n])
      ensures forall n :: maxCode < n < t.fc.Length ==> t.fc[n] == old(t.fc[n])
    {
      hide Kraft, Count, Msb, Pow2, Value, FirstCode;
      ghost var lens: seq<nat> := t.dl[..maxCode + 1];
      var nextCode := new nat[16](_ => 0);
      var code: nat := 0;
      var bits := 1;
      FirstCodes(lens);
      while bits <= 15
        invariant 1 <= bits <= 16 && code == FirstCode(lens, bits - 1) && t.fc[..] == old(t.fc[..])
        invariant forall b :: 1 <= b < bits ==> nextCode[b] == FirstCode(lens, b)
      {
        NextFirstCode(lens, bits);
        code := (code + blCount[bits - 1]) * 2;
        nextCode[bits] := code;
        bits := bits + 1;
      }
      var n := 0;
      NoneCodedYet(lens, n);
      while n <= maxCode
        invariant n <= maxCode + 1 && t.dl[..maxCode + 1] == lens
        invariant forall b :: 1 <= b < 16 ==> nextCode[b] == FirstCode(lens, b) + Count(lens[..n], b)
        invariant forall i :: 0 <= i < n && lens[i] > 0 ==>
          t.fc[i] == Value(CodeBits(lens, i)) && t.fc[i] < Pow2(lens[i])
        invariant forall i :: maxCode < i < t.fc.Length ==> t.fc[i] == old(t.fc[i])
      {
        var len := t.dl[n];
        assert len == lens[n];
        CountsStep(lens, n);
        if len != 0 {
          t.fc[n] := BiReverse(nextCode[len], len);
          nextCode[len] := nextCode[len] + 1;
        }
        n := n + 1;
      }
    }

    // ---------- build_tree ----------

    /** What is known when the merging loop is done: f are the frequencies before the
        loop, after codes have been forced to be in use. */
    ghost predicate Grown(t: CtTree, k: nat, f: seq<nat>, leaves: set<nat>, maxCode: nat)
      reads this, t, t.fc, t.dl, heap
    {
      && heapMax < HEAP_SIZE && heapMax <= heap.Length && k <= |f| == t.fc.Length == t.dl.Length
      && leaves == UsedSet(f, k) && |leaves| >= 2
      && TreeOk(TreeNow(t, k, leaves)) && Sums(TreeNow(t, k, leaves), t.fc[..])
      && Falling(TreeNow(t, k, leaves).nodes, t.fc[..])
      && t.fc[TreeNow(t, k, leaves).Root()] == SumRange(f, 0, k)
      && 1 <= maxCode < k && maxCode in leaves && (forall x :: x in leaves ==> x <= maxCode)
      && (forall i :: 0 <= i < k ==> t.fc[i] == f[i])
      && (forall i :: 0 <= i < k && f[i] == 0 ==> t.dl[i] == 0)
      && k + |leaves| - 1 <= t.fc.Length
      && SumRange(t.fc[..], k, k + |leaves| - 1) == MergeCost(multiset(Values(f, Used(f, k))))
    }

    /** The heap in order before the first two nodes are combined. */
    method StartHeap(desc: TreeDesc) returns (maxCode: nat, ghost f: seq<nat>)
      requires Sizes() && Apart(desc.tree) && desc.Fits() && StaticApart(desc.stree)
      requires optLen < ULONG && staticLen < ULONG
      modifies this`heapLen, this`heapMax, this`optLen, this`staticLen, heap, depth, desc.tree.fc, desc.tree.dl
      ensures f == desc.tree.fc[..] && heapMax == HEAP_SIZE
      ensures var f0, k, leaves := old(desc.tree.fc[..]), desc.elems, UsedSet(f, desc.elems);
        && Forced(f0, f, k) && (f != f0 ==> |leaves| == 2) && heapLen == |leaves| >= 2
        && Inv(StateOf(desc.tree, k), k, leaves, heapLen)
        && Members(heap[..], heapLen) == multiset(leaves)
        && 1 <= maxCode < k && maxCode in leaves && (forall x :: x in leaves ==> x <= maxCode)
        && (forall i :: 0 <= i < k && f[i] == 0 ==> desc.tree.dl[i] == 0)
        && optLen == Wrap(old(optLen) - Added(f0, f, Ones(k), k))
        && k <= |StaticLens(desc)|
        && staticLen == (if desc.stree == null then old(staticLen)
                         else Wrap(old(staticLen) - Added(f0, f, StaticLens(desc), k)))
    {
      hide Members, Ordered, Forced, Added, Used, UsedSet, Smaller, Inv, Ones, Wrap;
      heapMax := HEAP_SIZE;
      var code := FillHeap(desc);
      maxCode := ForceTwo(desc, code);
      f := desc.tree.fc[..];
      ghost var k := desc.elems;
      CardOfMembers(heap[..], heapLen, UsedSet(f, k));
      UsedAreNodes(f, depth[..], heap[..], heapLen, k);
      Heapify(desc.tree);
      UsedBound(f, k);
      InvStart(StateOf(desc.tree, k), k, UsedSet(f, k));
      ForcedKeepsZeros(old(desc.tree.fc[..]), f, k);
    }

    method GrowTree(desc: TreeDesc) returns (maxCode: nat, ghost f: seq<nat>)
      requires Sizes() && Apart(desc.tree) && desc.Fits() && StaticApart(desc.stree)
      requires optLen < ULONG && staticLen < ULONG
      requires SumRange(desc.tree.fc[..], 0, desc.elems) + 3 < USHORT
      modifies this`heapLen, this`heapMax, this`optLen, this`staticLen, heap, depth, desc.tree.fc, desc.tree.dl
      ensures var f0, k := old(desc.tree.fc[..]), desc.elems;
        && k <= |f| && Grown(desc.tree, k, f, UsedSet(f, k), maxCode)
        && Forced(f0, f, k) && (f != f0 ==> |UsedSet(f, k)| == 2)
        && optLen == Wrap(old(optLen) - Added(f0, f, Ones(k), k))
        && k <= |StaticLens(desc)|
        && staticLen == (if desc.stree == null then old(staticLen)
                         else Wrap(old(staticLen) - Added(f0, f, StaticLens(desc), k)))
    {
      hide Members, Forced, Added, Used, UsedSet, Inv, Accounts, Weights, Sum, MergeCost, Ones, Wrap, SumRange, Nodes,
          TreeOk, Sums, StaticLens, Values, Lightest, Falling;
      maxCode, f := StartHeap(desc);
      ghost var k, leaves, n := desc.elems, UsedSet(f, desc.elems), heapLen;
      ghost var s := StateOf(desc.tree, k);
      InvSizes(s, k, leaves, n);
      FirstWeights(s, k);
      ForcedSum(old(desc.tree.fc[..]), f, k, k);
      AccountsStart(s, k);
      LightestStart(s);
      var node := MergeAll(desc.tree, desc.elems, leaves, n, MergeCost(Weights(s)), Sum(Weights(s)));
      ghost var r := StateOf(desc.tree, node);
      InvSizes(r, k, leaves, n);
      AccountsEnd(r, k, MergeCost(Weights(s)), Sum(Weights(s)));
      TreeFromInv(r, k, leaves, n);
      LastIsRoot(r, k, leaves, n);
      TreeFalls(r, k, leaves, n);
      FinalSizes(r, k, leaves, n);
      PutRoot();
      UnusedNotIn(f, k);
    }

    /** The last node joins the others behind the heap. */
    method PutRoot()
      requires Sizes() && 2 <= heapMax <= HEAP_SIZE
      modifies this`heapMax, heap
      ensures heapMax == old(heapMax) - 1 && heap[heapMax..] == [old(heap[1])] + old(heap[heapMax..])
    {
      heapMax := heapMax - 1;
      heap[heapMax] := heap[1];
    }

    /** build_tree: from the frequencies of the codes to their lengths and bit strings.
        The lengths make a complete code within max_length, the bit strings are those a
        decoder rebuilds from the lengths, and both block lengths grow by exactly what the
        codes in use will take. The tree is made from the frequencies by merging, and unless
        a leaf of it lies deeper than max_length, no prefix code for the same frequencies is
        cheaper; it never does when the frequencies add up to less than Fib(max_length + 3). */
    method BuildTree(desc: TreeDesc) returns (maxCode: nat, ghost tree: Tree, ghost w: seq<nat>)
      requires Sizes() && Apart(desc.tree) && desc.Fits() && StaticApart(desc.stree)
      requires optLen < ULONG && staticLen < ULONG
      requires SumRange(desc.tree.fc[..], 0, desc.elems) + 3 < USHORT
      modifies this`heapLen, this`heapMax, this`optLen, this`staticLen, heap, depth, blCount, desc.tree.fc, desc.tree.dl
      ensures Built(old(desc.tree.fc[..]), desc.tree.fc[..], desc.tree.dl[..], desc.elems, maxCode, desc.maxLength)
      ensures var f, l, k := old(desc.tree.fc[..]), desc.tree.dl[..], desc.elems;
        && optLen == Wrap(old(optLen) + SymCost(f, l, desc.extraBits, desc.extraBase, k))
        && k <= |StaticLens(desc)|
        && StaticAdded(desc, old(staticLen), SymCost(f, StaticLens(desc), desc.extraBits, desc.extraBase, k))
        && MadeFrom(tree, w, f, k) && Shortest(tree, f, l, k, desc.maxLength)
        && (Deep(tree, desc.maxLength) ==> blCount[desc.maxLength] > 0)
    {
      hide Members, Forced, Added, Used, UsedSet, MergeCost, Ones, Wrap, SumRange, TreeOk, Sums, Tallied, Within,
          EndOf, CostOf, Weighed, Values, Complete, Count, Cheapest, Built, SymCost, LeafIds, StaticLens, Pow2, Kraft,
          Deep, LensAreDeep, MadeFrom, Falling, Fib, Shortest;
      ghost var f0, k := desc.tree.fc[..], desc.elems;
      ghost var f;
      maxCode, f := GrowTree(desc);
      ghost var leaves := UsedSet(f, k);
      ghost var T, fc := TreeNow(desc.tree, k, leaves), desc.tree.fc[..];
      tree, w := T, fc;
      MadeByMerging(T, fc, f0, f, k);
      LightIsShallow(T, fc, f0, k, desc.maxLength);
      GenBitlen(desc, maxCode, leaves);
      ghost var l: seq<nat>, ids := desc.tree.dl[..], LeafIds(T.nodes, T.elems);
      LeafIdsAre(T);
      UnusedNotIn(f, k);
      InSymbolOrder(f, l, k, maxCode, ids, blCount[..], desc.maxLength);
      CompleteParts(l[..maxCode + 1], desc.maxLength);
      GenCodes(desc.tree, maxCode, desc.maxLength);
      BuiltFrom(f0, f, desc.tree.fc[..], l, k, maxCode, desc.maxLength);
      KraftFromEnd(blCount[..], Values(l, ids), desc.maxLength);
      SymbolCosts(f0, f, fc, l, StaticLens(desc), desc.extraBits, desc.extraBase, k, ids, desc.maxLength);
      WrapCancel(old(optLen), Added(f0, f, Ones(k), k), SymCost(f0, l, desc.extraBits, desc.extraBase, k));
      if desc.stree != null {
        WrapCancel(old(staticLen), Added(f0, f, StaticLens(desc), k),
                   SymCost(f0, StaticLens(desc), desc.extraBits, desc.extraBase, k));
      }
      if !Deep(T, desc.maxLength) && |Used(f0, k)| >= 2 {
        NothingForced(f0, f, k);
        CheapestFrom(f, fc, l, k, ids);
      }
      ShortestIs(T, f0, l, k, desc.maxLength);
    }
  }

  lemma WithinIs(v: seq<nat>, max: nat)
    requires forall i :: 0 <= i < |v| ==> 1 <= v[i] <= max
    ensures Within(v, max)
  {}

  lemma ReverseNone(code: nat)
    ensures code / Pow2(0) == code && Value(Msb(code, 0)) == 0
  {}

  lemma {:induction false} MsbCons(v: nat, k: nat, c: nat)
    requires c == v / Pow2(k)
    ensures Msb(v, k + 1) == [c % 2 == 1] + Msb(v, k)
    decreases k
  {
    if k == 0 {
      assert Msb(v, 1) == Msb(v / 2, 0) + [v % 2 == 1];
      assert Pow2(0) == 1;
    } else {
      DivTwice(v, Pow2(k - 1));
      MsbCons(v / 2, k - 1, c);
      var x, y := [c % 2 == 1], Msb(v / 2, k - 1);
      assert Msb(v, k + 1) == (x + y) + [v % 2 == 1];
      assert (x + y) + [v % 2 == 1] == x + (y + [v % 2 == 1]);
    }
  }

  lemma HalfQuotient(v: nat, k: nat, c: nat)
    requires c == v / Pow2(k)
    ensures c / 2 == v / Pow2(k + 1)
  {
    var p := Pow2(k);
    DivMod(v, p);
    var q, r := c / 2, c % 2;
    assert v == q * (2 * p) + (r * p + v % p);
    DivUnique(v, 2 * p, q, r * p + v % p);
  }

  lemma ReverseStep(code: nat, k: nat, c: nat, r: nat)
    requires c == code / Pow2(k) && r == 2 * Value(Msb(code, k))
    ensures Or(r, c % 2) == Value(Msb(code, k + 1)) && c / 2 == code / Pow2(k + 1)
  {
    MsbCons(code, k, c);
    HalfQuotient(code, k, c);
    hide Or, Pow2, Msb;
    OrStep(r, c % 2);
    OrNothing(r / 2);
    assert ([c % 2 == 1] + Msb(code, k))[1..] == Msb(code, k);
  }

  lemma FirstCodes(lens: seq<nat>)
    ensures FirstCode(lens, 0) == 0
  {}

  lemma NextFirstCode(lens: seq<nat>, b: nat)
    requires b >= 1
    ensures FirstCode(lens, b) == 2 * (FirstCode(lens, b - 1) + (if b == 1 then 0 else Count(lens, b - 1)))
  {}

  lemma NoneCodedYet(lens: seq<nat>, n: nat)
    requires n == 0
    ensures forall b: nat :: Count(lens[..n], b) == 0
  {
    assert lens[..n] == [];
  }

  lemma CountsStep(lens: seq<nat>, n: nat)
    requires n < |lens|
    ensures forall b: nat :: Count(lens[..n + 1], b) == Count(lens[..n], b) + (if b == lens[n] then 1 else 0)
  {
    forall b: nat ensures Count(lens[..n + 1], b) == Count(lens[..n], b) + (if b == lens[n] then 1 else 0) {
      SnocCount(lens[..n], lens[n], b);
      assert lens[..n + 1] == lens[..n] + [lens[n]];
    }
  }

  // ---------- lemmas about build_tree ----------

  lemma CardOfMembers(h: seq<nat>, len: nat, s: set<nat>)
    requires len < |h| && Members(h, len) == multiset(s)
    ensures |s| == len
  {
    assert |multiset(s)| == |s|;
    assert |multiset(h[1..len + 1])| == len;
  }

  lemma UsedBound(f: seq<nat>, k: nat)
    requires k <= |f|
    ensures forall x :: x in UsedSet(f, k) ==> x < k
  {}

  lemma UnusedNotIn(f: seq<nat>, k: nat)
    requires k <= |f|
    ensures forall i :: 0 <= i < k ==> (i !in UsedSet(f, k) <==> f[i] == 0)
  {}

  lemma UsedAreNodes(f: seq<nat>, d: seq<nat>, h: seq<nat>, len: nat, k: nat)
    requires len < |h| && k <= |f| && k <= |d| && Members(h, len) == multiset(UsedSet(f, k))
    ensures Nodes(f, d, h, len)
  {
    forall i | 1 <= i <= len ensures h[i] < |f| && h[i] < |d| {
      MemberBound(h, len, i);
      assert h[i] in multiset(UsedSet(f, k));
    }
  }

  lemma ForcedKeepsZeros(f: seq<nat>, f': seq<nat>, k: nat)
    requires Forced(f, f', k)
    ensures k <= |f| == |f'| && forall i :: 0 <= i < k && f'[i] == 0 ==> f[i] == 0
  {}

  lemma {:induction false} ForcedSum(f: seq<nat>, f': seq<nat>, k: nat, n: nat)
    requires Forced(f, f', k) && n <= k
    ensures |f| == |f'| && k <= |f|
    ensures SumRange(f', 0, n) <= SumRange(f, 0, n) + (if n <= 3 then n else 3)
    decreases n
  {
    if n > 0 { ForcedSum(f, f', k, n - 1); }
  }

  lemma FinalSizes(r: State, k: nat, leaves: set<nat>, n: nat)
    requires Inv(r, k, leaves, n) && r.len == 1 && n >= 2
    ensures 2 <= r.max <= HEAP_SIZE && r.node == k + n - 1 <= |r.f|
  {}

  lemma CompleteParts(lens: seq<nat>, max: nat)
    requires Complete(lens, max)
    ensures Bounded(lens, max) && Kraft(lens, max) == Pow2(max)
  {}

  lemma BuiltFrom(f0: seq<nat>, f: seq<nat>, fc: seq<nat>, l: seq<nat>, k: nat, maxCode: nat, max: nat)
    requires 1 <= maxCode < k <= |f0| == |f| == |fc| == |l| && Forced(f0, f, k)
    requires maxCode in UsedSet(f, k) && (forall x :: x in UsedSet(f, k) ==> x <= maxCode)
    requires Complete(l[..maxCode + 1], max)
    requires forall i :: 0 <= i < k && f[i] != 0 ==> 1 <= l[i] <= max
    requires forall i :: 0 <= i < k && f[i] == 0 ==> l[i] == 0
    requires forall n :: 0 <= n <= maxCode && l[n] > 0 ==>
      fc[n] == Value(CodeBits(l[..maxCode + 1], n)) && fc[n] < Pow2(l[n])
    ensures Built(f0, fc, l, k, maxCode, max)
  {
    hide Complete, CodeBits, Value, Pow2;
    AboveUnused(f, k, maxCode);
  }

  lemma {:induction false} CostOfFreq(f: seq<nat>, g: seq<nat>, l: seq<nat>, extra: seq<nat>, base: nat, ids: seq<nat>,
      k: nat)
    requires InBounds(ids, k) && k <= |f| && k <= |g| && k <= |l|
    requires forall i :: 0 <= i < k ==> f[i] == g[i]
    ensures CostOf(f, l, extra, base, ids) == CostOf(g, l, extra, base, ids)
    decreases |ids|
  {
    if ids != [] { CostOfFreq(f, g, l, extra, base, ids[..|ids| - 1], k); }
  }

  /** A code with only two symbols spends one bit on each. */
  lemma ForcedLengths(f0: seq<nat>, f: seq<nat>, l: seq<nat>, k: nat, ids: seq<nat>, max: nat)
    requires Forced(f0, f, k) && |f| == |l| && InBounds(ids, k) && 1 <= max
    requires f != f0 ==> |UsedSet(f, k)| == 2
    requires multiset(ids) == multiset(UsedSet(f, k))
    requires Within(Values(l, ids), max) && Kraft(Values(l, ids), max) == Pow2(max)
    ensures forall i :: 0 <= i < k && f[i] != f0[i] ==> l[i] == 1
  {
    hide Kraft, Pow2;
    if f != f0 {
      assert |ids| == |multiset(ids)| == |multiset(UsedSet(f, k))| == 2;
      TwoCodes(Values(l, ids), max);
      forall i | 0 <= i < k && f[i] != f0[i] ensures l[i] == 1 {
        assert i in multiset(ids);
        var j :| 0 <= j < |ids| && ids[j] == i;
        assert Values(l, ids)[j] == l[i];
      }
    }
  }

  /** The costs of the leaves are those of the symbols plus what was taken off in advance. */
  lemma SymbolCosts(f0: seq<nat>, f: seq<nat>, fc: seq<nat>, l: seq<nat>, sl: seq<nat>, extra: seq<nat>, base: nat,
                    k: nat, ids: seq<nat>, max: nat)
    requires Forced(f0, f, k) && |f| == |l| == |fc| && k <= |sl| && InBounds(ids, k) && 1 <= max
    requires f != f0 ==> |UsedSet(f, k)| == 2
    requires multiset(ids) == multiset(UsedSet(f, k)) && (forall i :: 0 <= i < k ==> fc[i] == f[i])
    requires Within(Values(l, ids), max) && Kraft(Values(l, ids), max) == Pow2(max)
    requires forall i :: 0 <= i <= 2 ==> XBits(extra, base, i) == 0
    ensures |f0| == |f|
    ensures CostOf(fc, l, extra, base, ids) == SymCost(f0, l, extra, base, k) + Added(f0, f, Ones(k), k)
    ensures CostOf(fc, sl, extra, base, ids) == SymCost(f0, sl, extra, base, k) + Added(f0, f, sl, k)
  {
    hide Kraft, Pow2, Values, CostOf, SymCost, Added, Used, UsedSet, XBits, Ones;
    ForcedLengths(f0, f, l, k, ids, max);
    UsedMembers(f, k);
    CostOfFreq(fc, f, l, extra, base, ids, k);
    CostOfPermute(f, l, extra, base, ids, Used(f, k));
    CostBySymbol(f, l, extra, base, k);
    SymCostForced(f0, f, l, extra, base, k, k);
    AddedOnes(f0, f, l, k, k);
    StaticCosts(f0, f, fc, sl, extra, base, k, ids);
  }

  lemma StaticCosts(f0: seq<nat>, f: seq<nat>, fc: seq<nat>, sl: seq<nat>, extra: seq<nat>, base: nat,
                    k: nat, ids: seq<nat>)
    requires Forced(f0, f, k) && |f| == |fc| && k <= |sl| && InBounds(ids, k)
    requires multiset(ids) == multiset(UsedSet(f, k)) && (forall i :: 0 <= i < k ==> fc[i] == f[i])
    requires forall i :: 0 <= i <= 2 ==> XBits(extra, base, i) == 0
    ensures |f0| == |f| && CostOf(fc, sl, extra, base, ids) == SymCost(f0, sl, extra, base, k) + Added(f0, f, sl, k)
  {
    hide Values, CostOf, SymCost, Added, Used, UsedSet, XBits;
    var f2, sl2 := f[..k], sl[..k];
    UsedMembers(f, k);
    CostOfFreq(fc, f2, sl, extra, base, ids, k);
    CostOfLens(f2, sl, sl2, extra, base, ids, k);
    CostOfPermute(f2, sl2, extra, base, ids, Used(f, k));
    CostOfLens(f2, sl, sl2, extra, base, Used(f, k), k);
    CostOfFreq(f, f2, sl, extra, base, Used(f, k), k);
    CostBySymbol(f, sl, extra, base, k);
    SymCostForced(f0, f, sl, extra, base, k, k);
  }

  lemma {:induction false} CostOfLens(f: seq<nat>, l: seq<nat>, m: seq<nat>, extra: seq<nat>, base: nat, ids: seq<nat>,
      k: nat)
    requires InBounds(ids, k) && k <= |f| && k <= |l| && k <= |m|
    requires forall i :: 0 <= i < k ==> l[i] == m[i]
    ensures CostOf(f, l, extra, base, ids) == CostOf(f, m, extra, base, ids)
    decreases |ids|
  {
    if ids != [] { CostOfLens(f, l, m, extra, base, ids[..|ids| - 1], k); }
  }

  lemma WrapCancel(a: int, x: int, s: int)
    ensures Wrap(Wrap(a - x) + (s + x)) == Wrap(a + s)
  {
    WrapAdd(a - x, s + x);
  }

  lemma LeavesAreDeep(t: Tree, l: seq<nat>, max: nat)
    requires TreeOk(t) && Lens(t, l, max) && !Deep(t, max)
    ensures LensAreDeep(t, l)
  {
    hide TreeOk, Lens, Deep;
    forall x | x in t.leaves ensures x < |l| && l[x] == Depth(t.dad, t.Root(), x) { LeafDepth(t, l, max, x); }
  }

  lemma MadeByMerging(t: Tree, w: seq<nat>, f0: seq<nat>, f: seq<nat>, k: nat)
    requires TreeOk(t) && Sums(t, w) && Falling(t.nodes, w) && t.elems == k && |f0| == |f| == |w| >= k
    requires t.leaves == UsedSet(f, k) && forall i :: 0 <= i < k ==> w[i] == f[i]
    requires Forced(f0, f, k) && (f != f0 ==> |UsedSet(f, k)| == 2)
    requires t.Root() < |w| && w[t.Root()] == SumRange(f, 0, k)
    ensures MadeFrom(t, w, f0, k)
  {
    hide Falling, Sums, Used, Forced, SumRange;
    TreeSizes(t);
    if |Used(f0, k)| >= 2 {
      NothingForced(f0, f, k);
    } else if f == f0 {
      UsedMembers(f0, k);
    }
  }

  /** Frequencies that add up to less than Fib(max + 3) make no leaf deeper than max. */
  lemma LightIsShallow(t: Tree, w: seq<nat>, f: seq<nat>, k: nat, max: nat)
    requires MadeFrom(t, w, f, k) && max >= 1
    ensures SumRange(f, 0, k) < Fib(max + 3) ==> !Deep(t, max)
  {
    hide TreeOk, Falling, Sums, Used, SumRange, Fib, Deep;
    if Deep(t, max) {
      if t.N() == 2 {
        TwoLeavesShallow(t, max);
      } else {
        DeepIsHeavy(t, w, max);
      }
    }
  }

  lemma TwoLeavesShallow(t: Tree, max: nat)
    requires TreeOk(t) && t.N() == 2 && max >= 1
    ensures !Deep(t, max)
  {
    forall x | x in t.leaves ensures Depth(t.dad, t.Root(), x) <= max {
      var q := LeafPlace(t, x);
      var k := FatherAbove(t, q);
      DepthStep(t, q);
      RootDepth(t);
    }
  }

  lemma ShortestIs(t: Tree, f: seq<nat>, l: seq<nat>, k: nat, max: nat)
    requires k <= |f| == |l|
    requires !Deep(t, max) ==> LensAreDeep(t, l) && (|Used(f, k)| >= 2 ==> Cheapest(f, l, Used(f, k)))
    requires SumRange(f, 0, k) < Fib(max + 3) ==> !Deep(t, max)
    ensures Shortest(t, f, l, k, max)
  {}

  lemma NothingForced(f0: seq<nat>, f: seq<nat>, k: nat)
    requires Forced(f0, f, k) && (f != f0 ==> |UsedSet(f, k)| == 2)
    requires k <= |f0| && |Used(f0, k)| >= 2
    ensures f == f0
  {
    UsedMembers(f0, k);
    if f != f0 {
      var i :| 0 <= i < |f| && f[i] != f0[i];
      var a, b := UsedSet(f0, k), UsedSet(f, k);
      assert a + {i} <= b && i !in a;
      SubsetCard(a + {i}, b);
    }
  }

  lemma SubsetCard(a: set<nat>, b: set<nat>)
    requires a <= b
    ensures |a| <= |b|
  {
    assert b == a + (b - a);
  }

  /** The merging cost is the cost of the codes, which nothing undercuts. */
  lemma CheapestFrom(f: seq<nat>, fc: seq<nat>, l: seq<nat>, k: nat, ids: seq<nat>)
    requires k <= |f| == |fc| == |l| && InBounds(ids, k) && multiset(ids) == multiset(UsedSet(f, k))
    requires forall i :: 0 <= i < k ==> fc[i] == f[i]
    requires Weighed(fc, l, ids) == MergeCost(multiset(Values(f, Used(f, k))))
    ensures Cheapest(f, l, Used(f, k))
  {
    hide Values, Used, UsedSet, MergeCost, Weighed, CostOf, Cheapest;
    UsedMembers(f, k);
    WeighedIsCost(fc, l, ids);
    CostOfFreq(fc, f, l, [], 0, ids, k);
    WeighedIsCost(f, l, ids);
    WeighedPermute(f, l, ids, Used(f, k));
    MergedIsCheapest(f, l, Used(f, k));
  }
}
