/** The linked list of coremark: comparators that write to what they compare, and the
    mergesort that relinks the list in place. */
module ListSort {

  type u16 = x: int | 0 <= x < 0x1_0000

  class ListData {
    var data16: u16  // ee_s16, as a bit pattern
    var idx: int

    constructor (data16: u16, idx: int)
      ensures this.data16 == data16 && this.idx == idx
    {
      this.data16, this.idx := data16, idx;
    }
  }

  class ListHead {
    var next: ListHead?
    var info: ListData

    constructor (next: ListHead?, info: ListData)
      ensures this.next == next && this.info == info
    {
      this.next, this.info := next, info;
    }
  }

  // ---------- the comparators ----------

  /** cmp_complex, or cmp_idx, which regenerates the data if its last argument is NULL. */
  datatype Cmp = Complex | Index(regen: bool)

  /** What a comparison leaves behind: a cached value, or data equal to its backup. */
  predicate Settled(c: Cmp, data16: u16) {
    match c
    case Complex => data16 / 0x80 % 2 == 1
    case Index(regen) => regen ==> data16 % 0x100 == data16 / 0x100
  }

  /** The next comparison calls a benchmark for the value: it is not cached, and the low three
      bits of the data ask for core_bench_state or core_bench_matrix. */
  predicate Open(c: Cmp, data16: u16) {
    c.Complex? && data16 / 0x80 % 2 == 0 && data16 % 8 <= 1
  }

  function Rank(c: Cmp, data16: u16, idx: int): int {
    if c.Complex? then data16 % 0x80 else idx
  }

  /** calc_func: the seven-bit value of the data, computed once and cached in it. Data that
      do not ask for a benchmark are their own value; what a benchmark computes is not
      modelled. */
  method CalcFunc(d: ListData) returns (r: int)
    modifies d`data16
    ensures d.data16 / 0x80 % 2 == 1 && r == d.data16 % 0x80
    ensures old(d.data16 / 0x80 % 2 == 1) ==> d.data16 == old(d.data16)
    ensures old(d.data16 / 0x80 % 2 == 1 || d.data16 % 8 >= 2) ==> r == old(d.data16) % 0x80
    ensures d.data16 / 0x100 == old(d.data16) / 0x100
  {
    var data := d.data16;
    if data / 0x80 % 2 == 1 {
      return data % 0x80;
    }
    var flag := data % 8;
    var retval: nat := data;
    if flag <= 1 {
      retval :| 0 <= retval < 0x1_0000;  // core_bench_state or core_bench_matrix
    }
    retval := retval % 0x80;
    d.data16 := data / 0x100 * 0x100 + 0x80 + retval;
    return retval;
  }

  /** The low byte is replaced by the high byte. */
  method Regenerate(d: ListData)
    modifies d`data16
    ensures Settled(Index(true), d.data16)
    ensures d.data16 / 0x100 == old(d.data16) / 0x100
    ensures old(Settled(Index(true), d.data16)) ==> d.data16 == old(d.data16)
  {
    d.data16 := d.data16 / 0x100 * 0x100 + d.data16 / 0x100;
  }

  /** One call of the comparator. */
  method Compare(c: Cmp, a: ListData, b: ListData) returns (r: int)
    modifies a`data16, b`data16
    ensures Settled(c, a.data16) && Settled(c, b.data16)
    ensures old(Settled(c, a.data16)) ==> a.data16 == old(a.data16)
    ensures old(Settled(c, b.data16)) ==> b.data16 == old(b.data16)
    ensures a.data16 / 0x100 == old(a.data16) / 0x100 && b.data16 / 0x100 == old(b.data16) / 0x100
    ensures old(!Open(c, a.data16)) && c.Complex? ==> a.data16 % 0x80 == old(a.data16) % 0x80
    ensures old(!Open(c, b.data16)) && c.Complex? ==> b.data16 % 0x80 == old(b.data16) % 0x80
    ensures c.Complex? ==> r == a.data16 % 0x80 - b.data16 % 0x80
    ensures c.Index? ==> r == a.idx - b.idx
  {
    match c
    case Complex =>
      var val1 := CalcFunc(a);
      var val2 := CalcFunc(b);
      r := val1 - val2;
    case Index(regen) =>
      if regen {
        Regenerate(a);
        Regenerate(b);
      }
      r := a.idx - b.idx;
  }

  // ---------- lists ----------

  predicate Linked(s: seq<ListHead>)
    reads s
  {
    forall i :: 0 <= i < |s| - 1 ==> s[i].next == s[i + 1]
  }

  /** The list that starts at p consists of the nodes s. */
  predicate ListFrom(p: ListHead?, s: seq<ListHead>)
    reads s
  {
    if s == [] then p == null else p == s[0] && Linked(s) && s[|s| - 1].next == null
  }

  predicate NoDup(s: seq<ListHead>) {
    forall i, j :: 0 <= i < j < |s| ==> s[i] != s[j]
  }

  // ---------- what is sorted ----------

  /** An item as the comparisons see it: whether it has been compared, whether a benchmark
      will choose its key, its key, the upper byte of its data, and its place in the list
      before sorting. */
  datatype Item = Item(touched: bool, open: bool, key: int, backup: nat, pos: nat)

  ghost function ItemOf(c: Cmp, pos: map<ListHead, nat>, n: ListHead): Item
    requires n in pos
    reads n`info, n.info
  {
    Item(Settled(c, n.info.data16), Open(c, n.info.data16), Rank(c, n.info.data16, n.info.idx),
      n.info.data16 / 0x100, pos[n])
  }

  /** All the items; pos tells where the nodes stood. */
  ghost function Snap(c: Cmp, pos: map<ListHead, nat>): map<ListHead, Item>
    reads pos.Keys`info, set n <- pos.Keys :: n.info
  {
    map n | n in pos :: ItemOf(c, pos, n)
  }

  function Items(m: map<ListHead, Item>, s: seq<ListHead>): (r: seq<Item>)
    requires forall n <- s :: n in m
    ensures |r| == |s|
  {
    seq(|s|, i requires 0 <= i < |s| => m[s[i]])
  }

  /** Smaller key, or the same key and earlier in the list. */
  predicate Less(a: Item, b: Item) {
    a.key < b.key || (a.key == b.key && a.pos < b.pos)
  }

  predicate AllTouched(v: seq<Item>) {
    forall i :: 0 <= i < |v| ==> v[i].touched
  }

  predicate InOrder(v: seq<Item>) {
    forall i, j :: 0 <= i < j < |v| ==> Less(v[i], v[j])
  }

  /** A sorted run; the item of a run of one need not have been compared yet. */
  predicate RunOk(v: seq<Item>) {
    |v| >= 2 ==> AllTouched(v) && InOrder(v)
  }

  /** Items that had been compared are as they were, only a benchmark has changed a key, and
      no upper byte has changed. */
  predicate Kept(m: map<ListHead, Item>, m': map<ListHead, Item>) {
    && m.Keys == m'.Keys
    && forall n <- m :: m'[n].pos == m[n].pos && m'[n].backup == m[n].backup && (m[n].touched ==> m'[n] == m[n])
        && (!m[n].open ==> m'[n].key == m[n].key && !m'[n].open)
  }

  lemma RunKept(m: map<ListHead, Item>, m': map<ListHead, Item>, s: seq<ListHead>)
    requires Kept(m, m') && (forall n <- s :: n in m) && RunOk(Items(m, s))
    ensures RunOk(Items(m', s))
  {
    if |s| >= 2 {
      forall i | 0 <= i < |s| ensures Items(m', s)[i] == Items(m, s)[i] { assert Items(m, s)[i].touched; }
    }
  }

  // ---------- merging two runs ----------

  predicate AllBelow(a: seq<Item>, b: seq<Item>) {
    forall i, j :: 0 <= i < |a| && 0 <= j < |b| ==> Less(a[i], b[j])
  }

  predicate Earlier(a: seq<Item>, b: seq<Item>) {
    forall i, j :: 0 <= i < |a| && 0 <= j < |b| ==> a[i].pos < b[j].pos
  }

  /** d has been merged, p and q are what is left of the two runs. */
  predicate Merging(d: seq<Item>, p: seq<Item>, q: seq<Item>) {
    && AllTouched(d) && AllTouched(p) && AllTouched(q)
    && InOrder(d) && InOrder(p) && InOrder(q) && Earlier(p, q)
    && AllBelow(d, p) && AllBelow(d, q)
  }

  lemma TakeP(d: seq<Item>, p: seq<Item>, q: seq<Item>)
    requires Merging(d, p, q) && p != [] && (q == [] || p[0].key <= q[0].key)
    ensures Merging(d + [p[0]], p[1..], q)
  {
    forall j | 0 <= j < |q| ensures Less(p[0], q[j]) {
      if j > 0 { assert Less(q[0], q[j]); }
    }
  }

  lemma TakeQ(d: seq<Item>, p: seq<Item>, q: seq<Item>)
    requires Merging(d, p, q) && q != [] && (p == [] || q[0].key < p[0].key)
    ensures Merging(d + [q[0]], p, q[1..])
  {
    forall j | 0 <= j < |p| ensures Less(q[0], p[j]) {
      if j > 0 { assert Less(p[0], p[j]); }
    }
  }

  /** Two runs, the first items of which have been compared, are ready to be merged. */
  lemma MergeStarts(p: seq<Item>, q: seq<Item>)
    requires RunOk(p) && RunOk(q) && p != [] && q != [] && p[0].touched && q[0].touched && Earlier(p, q)
    ensures Merging([], p, q)
  {}

  // ---------- nodes and multisets ----------

  lemma {:induction false} NoDupCount(s: seq<ListHead>, x: ListHead)
    requires NoDup(s)
    ensures multiset(s)[x] <= 1
    decreases |s|
  {
    if s != [] {
      var t := s[..|s| - 1];
      NoDupCount(t, x);
      assert s == t + [s[|s| - 1]];
    }
  }

  lemma TwiceCounts(s: seq<ListHead>, i: nat, j: nat)
    requires i < j < |s| && s[i] == s[j]
    ensures multiset(s)[s[i]] >= 2
  {
    var a, b := s[..j], s[j..];
    assert s == a + b && a[i] in a && b[0] == s[i];
    assert multiset(a)[s[i]] >= 1 && multiset(b)[s[i]] >= 1;
  }

  /** The nodes of a list without repetition, dealt out to three lists, are apart. */
  lemma PartsApart(all: seq<ListHead>, a: seq<ListHead>, b: seq<ListHead>, c: seq<ListHead>)
    requires NoDup(all) && multiset(a) + multiset(b) + multiset(c) == multiset(all)
    ensures NoDup(a) && NoDup(b) && NoDup(c)
    ensures forall x :: x in a ==> x !in b && x !in c && x in all
    ensures forall x :: x in b ==> x !in c && x in all
    ensures forall x :: x in c ==> x in all
  {
    forall x ensures multiset(a)[x] + multiset(b)[x] + multiset(c)[x] <= 1 {
      NoDupCount(all, x);
      assert (multiset(a) + multiset(b) + multiset(c))[x] == multiset(all)[x];
    }
    if i, j :| 0 <= i < j < |a| && a[i] == a[j] { TwiceCounts(a, i, j); }
    if i, j :| 0 <= i < j < |b| && b[i] == b[j] { TwiceCounts(b, i, j); }
    if i, j :| 0 <= i < j < |c| && c[i] == c[j] { TwiceCounts(c, i, j); }
    forall x | x in a ensures x !in b && x !in c && x in all { assert x in multiset(a); assert x in multiset(all); }
    forall x | x in b ensures x !in c && x in all { assert x in multiset(b); assert x in multiset(all); }
    forall x | x in c ensures x in all { assert x in multiset(c); assert x in multiset(all); }
  }

  /** The merged part of the list: head, last node, nodes; the last link is not set yet. */
  predicate OutOk(list: ListHead?, tail: ListHead?, s: seq<ListHead>)
    reads s
  {
    if s == [] then list == null && tail == null else list == s[0] && tail == s[|s| - 1] && Linked(s)
  }

  /** Adds the next element to the merged list. */
  method Append(list: ListHead?, tail: ListHead?, e: ListHead, ghost s: seq<ListHead>) returns (list': ListHead)
    requires OutOk(list, tail, s) && NoDup(s) && e !in s
    modifies (if tail == null then {} else {tail})`next
    ensures OutOk(list', e, s + [e])
  {
    if tail != null {
      tail.next := e;
      list' := list;
    } else {
      list' := e;
    }
  }

  /** One comparison of two nodes. */
  method CompareNodes(c: Cmp, a: ListHead, b: ListHead, ghost pos: map<ListHead, nat>) returns (r: int)
    requires a in pos && b in pos
    modifies a.info`data16, b.info`data16
    ensures Kept(old(Snap(c, pos)), Snap(c, pos))
    ensures var m := Snap(c, pos); m[a].touched && m[b].touched && r == m[a].key - m[b].key
  {
    r := Compare(c, a.info, b.info);
  }

  /** What the inner loop keeps: d has been merged, p and q are left of the runs p0 and q0. */
  predicate Progress(m: map<ListHead, Item>, d: seq<ListHead>, p: seq<ListHead>, q: seq<ListHead>, p0: seq<ListHead>,
      q0: seq<ListHead>)
  {
    && (forall n <- p0 :: n in m) && (forall n <- q0 :: n in m) && (forall n <- d :: n in m)
    && (forall n <- p :: n in m) && (forall n <- q :: n in m)
    && RunOk(Items(m, p0)) && RunOk(Items(m, q0)) && Earlier(Items(m, p0), Items(m, q0)) && p0 != []
    && if q0 == [] then q == [] && d + p == p0
       else if d == [] then p == p0 && q == q0
       else Merging(Items(m, d), Items(m, p), Items(m, q))
  }

  lemma ItemsSplit(m: map<ListHead, Item>, s: seq<ListHead>)
    requires (forall n <- s :: n in m) && s != []
    ensures Items(m, s)[1..] == Items(m, s[1..]) && Items(m, s)[0] == m[s[0]]
  {}

  lemma ItemsSnoc(m: map<ListHead, Item>, s: seq<ListHead>, n: ListHead)
    requires (forall n <- s :: n in m) && n in m
    ensures forall n' <- s + [n] :: n' in m
    ensures Items(m, s + [n]) == Items(m, s) + [m[n]]
  {}

  lemma StepP(m: map<ListHead, Item>, d: seq<ListHead>, p: seq<ListHead>, q: seq<ListHead>, p0: seq<ListHead>,
      q0: seq<ListHead>)
    requires Progress(m, d, p, q, p0, q0) && p != []
    requires q == [] || (q0 != [] && Merging(Items(m, d), Items(m, p), Items(m, q)) && m[p[0]].key <= m[q[0]].key)
    ensures Progress(m, d + [p[0]], p[1..], q, p0, q0)
  {
    hide Merging, RunOk, Earlier;
    ItemsSplit(m, p);
    ItemsSnoc(m, d, p[0]);
    if q0 == [] {
      assert d + [p[0]] + p[1..] == d + p;
    } else {
      if q != [] { ItemsSplit(m, q); }
      TakeP(Items(m, d), Items(m, p), Items(m, q));
    }
  }

  lemma StepQ(m: map<ListHead, Item>, d: seq<ListHead>, p: seq<ListHead>, q: seq<ListHead>, p0: seq<ListHead>,
      q0: seq<ListHead>)
    requires Progress(m, d, p, q, p0, q0) && q != []
    requires p == [] || (Merging(Items(m, d), Items(m, p), Items(m, q)) && m[q[0]].key < m[p[0]].key)
    ensures Progress(m, d + [q[0]], p, q[1..], p0, q0)
  {
    hide Merging, RunOk, Earlier;
    ItemsSplit(m, q);
    ItemsSnoc(m, d, q[0]);
    if p != [] { ItemsSplit(m, p); }
    TakeQ(Items(m, d), Items(m, p), Items(m, q));
  }

  /** A comparison of the first items changes nothing that has been compared before, and
      from the first one on all items of both runs have been compared. */
  lemma AfterCompare(m: map<ListHead, Item>, m': map<ListHead, Item>, d: seq<ListHead>, p: seq<ListHead>,
      q: seq<ListHead>, p0: seq<ListHead>, q0: seq<ListHead>)
    requires Progress(m, d, p, q, p0, q0) && p != [] && q != [] && Kept(m, m')
    requires m'[p[0]].touched && m'[q[0]].touched
    ensures Progress(m', d, p, q, p0, q0) && Merging(Items(m', d), Items(m', p), Items(m', q))
  {
    hide Merging, RunOk;
    RunKept(m, m', p0);
    RunKept(m, m', q0);
    EarlierKept(m, m', p0, q0);
    if d == [] {
      MergeStarts(Items(m', p), Items(m', q));
      assert Items(m', d) == [];
    } else {
      MergingTouched(Items(m, d), Items(m, p), Items(m, q));
      SameItems(m, m', d);
      SameItems(m, m', p);
      SameItems(m, m', q);
    }
  }

  lemma EarlierKept(m: map<ListHead, Item>, m': map<ListHead, Item>, a: seq<ListHead>, b: seq<ListHead>)
    requires (forall n <- a :: n in m) && (forall n <- b :: n in m) && Kept(m, m') && Earlier(Items(m, a), Items(m, b))
    ensures Earlier(Items(m', a), Items(m', b))
  {
    forall i, j | 0 <= i < |a| && 0 <= j < |b| ensures Items(m', a)[i].pos < Items(m', b)[j].pos {
      assert Items(m, a)[i].pos < Items(m, b)[j].pos;
    }
  }

  lemma MergingTouched(d: seq<Item>, p: seq<Item>, q: seq<Item>)
    requires Merging(d, p, q)
    ensures AllTouched(d) && AllTouched(p) && AllTouched(q)
  {}

  lemma SameItems(m: map<ListHead, Item>, m': map<ListHead, Item>, s: seq<ListHead>)
    requires (forall n <- s :: n in m) && Kept(m, m') && AllTouched(Items(m, s))
    ensures Items(m', s) == Items(m, s)
  {
    forall i | 0 <= i < |s| ensures Items(m', s)[i] == Items(m, s)[i] { assert Items(m, s)[i].touched; }
  }

  lemma AllMerged(m: map<ListHead, Item>, d: seq<ListHead>, p0: seq<ListHead>, q0: seq<ListHead>)
    requires Progress(m, d, [], [], p0, q0)
    ensures (forall n <- d :: n in m) && RunOk(Items(m, d))
  {
    if q0 == [] { assert d + [] == d; }
  }

  /** The nodes left of the two runs, where p and q point. */
  predicate Left(p: ListHead?, q: ListHead?, psize: nat, qsize: nat, pr: seq<ListHead>, qr: seq<ListHead>,
      rest: seq<ListHead>)
    reads pr, qr + rest
  {
    && psize == |pr| && (pr != [] ==> p == pr[0]) && Linked(pr)
    && ListFrom(q, qr + rest) && (|qr| == qsize || (rest == [] && |qr| <= qsize))
  }

  lemma NextOfP(p: ListHead, q: ListHead?, psize: nat, qsize: nat, pr: seq<ListHead>, qr: seq<ListHead>,
      rest: seq<ListHead>)
    requires Left(p, q, psize, qsize, pr, qr, rest) && psize > 0
    ensures Left(p.next, q, psize - 1, qsize, pr[1..], qr, rest) && pr[0] == p
    ensures multiset(pr) == multiset{p} + multiset(pr[1..])
  {
    assert pr == [p] + pr[1..];
  }

  lemma NextOfQ(p: ListHead?, q: ListHead, psize: nat, qsize: nat, pr: seq<ListHead>, qr: seq<ListHead>,
      rest: seq<ListHead>)
    requires Left(p, q, psize, qsize, pr, qr, rest) && qsize > 0
    ensures qr != [] && qr[0] == q && Left(p, q.next, psize, qsize - 1, pr, qr[1..], rest)
    ensures multiset(qr) == multiset{q} + multiset(qr[1..])
  {
    assert qr != [];
    assert (qr + rest)[1..] == qr[1..] + rest;
    assert qr == [q] + qr[1..];
  }

  /** Decides whether the next element of the merge comes from p or q. */
  method Choose(c: Cmp, p: ListHead?, q: ListHead?, psize: nat, qsize: nat, ghost pos: map<ListHead, nat>,
      ghost infos: set<ListData>, ghost d: seq<ListHead>, ghost pr: seq<ListHead>, ghost qr: seq<ListHead>,
      ghost p0: seq<ListHead>, ghost q0: seq<ListHead>, ghost rest: seq<ListHead>)
      returns (e: ListHead, p': ListHead?, q': ListHead?, psize': nat, qsize': nat,
               ghost pr': seq<ListHead>, ghost qr': seq<ListHead>)
    requires Left(p, q, psize, qsize, pr, qr, rest) && Progress(Snap(c, pos), d, pr, qr, p0, q0)
    requires psize > 0 || (qsize > 0 && q != null)
    requires forall n <- pos.Keys :: n.info in infos
    modifies infos`data16
    ensures Left(p', q', psize', qsize', pr', qr', rest) && Progress(Snap(c, pos), d + [e], pr', qr', p0, q0)
    ensures Takes(pr, qr, e, pr', qr')
    ensures psize' + qsize' < psize + qsize && Kept(old(Snap(c, pos)), Snap(c, pos))
  {
    hide RunOk, Merging, Kept, Earlier, Left, Snap;
    ghost var m := Snap(c, pos);
    KeptSelf(m);
    p', q', psize', qsize', pr', qr' := p, q, psize, qsize, pr, qr;
    LeftIs(p, q, psize, qsize, pr, qr, rest);
    if psize == 0 {
      e := q;
      NextOfQ(p, q, psize, qsize, pr, qr, rest);
      StepQ(m, d, pr, qr, p0, q0);
      q', qsize', qr' := q.next, qsize - 1, qr[1..];
    } else if qsize == 0 || q == null {
      e := p;
      NextOfP(p, q, psize, qsize, pr, qr, rest);
      StepP(m, d, pr, qr, p0, q0);
      p', psize', pr' := p.next, psize - 1, pr[1..];
    } else {
      NextOfQ(p, q, psize, qsize, pr, qr, rest);
      InSnap(c, pos, p, q, m, pr, qr);
      var r := CompareNodes(c, p, q, pos);
      AfterCompare(m, Snap(c, pos), d, pr, qr, p0, q0);
      if r <= 0 {
        e := p;
        NextOfP(p, q, psize, qsize, pr, qr, rest);
        StepP(Snap(c, pos), d, pr, qr, p0, q0);
        p', psize', pr' := p.next, psize - 1, pr[1..];
      } else {
        e := q;
        NextOfQ(p, q, psize, qsize, pr, qr, rest);
        StepQ(Snap(c, pos), d, pr, qr, p0, q0);
        q', qsize', qr' := q.next, qsize - 1, qr[1..];
      }
    }
  }

  lemma LeftIs(p: ListHead?, q: ListHead?, psize: nat, qsize: nat, pr: seq<ListHead>, qr: seq<ListHead>,
      rest: seq<ListHead>)
    requires Left(p, q, psize, qsize, pr, qr, rest)
    ensures psize == |pr| && |qr| <= qsize && (pr != [] ==> p == pr[0]) && (q == null ==> qr == [])
  {}

  lemma InSnap(c: Cmp, pos: map<ListHead, nat>, p: ListHead, q: ListHead, m: map<ListHead, Item>, pr: seq<ListHead>,
      qr: seq<ListHead>)
    requires m == Snap(c, pos) && (forall n <- pr :: n in m) && (forall n <- qr :: n in m)
    requires pr != [] && p == pr[0] && qr != [] && q == qr[0]
    ensures p in pos && q in pos
  {
    assert p in pr && q in qr;
  }

  /** All nodes are merged, in one of the runs at hand, or still to come. */
  ghost predicate InHand(all: seq<ListHead>, done: seq<ListHead>, d: seq<ListHead>, pr: seq<ListHead>,
      qr: seq<ListHead>, rest: seq<ListHead>) {
    multiset(done + d) + multiset(pr) + multiset(qr + rest) == multiset(all)
  }

  /** The merged nodes came from the two runs. */
  ghost predicate Moved(d: seq<ListHead>, pr: seq<ListHead>, qr: seq<ListHead>, p0: seq<ListHead>, q0: seq<ListHead>) {
    multiset(d) + multiset(pr) + multiset(qr) == multiset(p0) + multiset(q0)
  }

  /** A node leaves one of the runs. */
  ghost predicate Takes(pr: seq<ListHead>, qr: seq<ListHead>, e: ListHead, pr': seq<ListHead>, qr': seq<ListHead>) {
    multiset(pr) + multiset(qr) == multiset{e} + multiset(pr') + multiset(qr')
  }

  /** One more node of the runs goes to the merged list. */
  lemma Dealt(all: seq<ListHead>, p0: seq<ListHead>, q0: seq<ListHead>, done: seq<ListHead>, d: seq<ListHead>,
      e: ListHead, pr: seq<ListHead>, qr: seq<ListHead>, pr': seq<ListHead>, qr': seq<ListHead>, rest: seq<ListHead>)
    requires Takes(pr, qr, e, pr', qr')
    ensures InHand(all, done, d, pr, qr, rest) ==> InHand(all, done, d + [e], pr', qr', rest)
    ensures Moved(d, pr, qr, p0, q0) ==> Moved(d + [e], pr', qr', p0, q0)
    ensures done + (d + [e]) == (done + d) + [e]
  {
    assert done + (d + [e]) == (done + d) + [e];
    assert multiset(done + d + [e]) == multiset(done + d) + multiset{e};
    assert multiset(d + [e]) == multiset(d) + multiset{e};
    assert multiset(qr + rest) == multiset(qr) + multiset(rest);
    assert multiset(qr' + rest) == multiset(qr') + multiset(rest);
    MoveOne(multiset(done + d), multiset(pr), multiset(qr), multiset{e}, multiset(pr'), multiset(qr'), multiset(rest));
    MoveOne(multiset(d), multiset(pr), multiset(qr), multiset{e}, multiset(pr'), multiset(qr'), multiset{});
  }

  lemma MoveOne(d: multiset<ListHead>, p: multiset<ListHead>, q: multiset<ListHead>, e: multiset<ListHead>,
      p': multiset<ListHead>, q': multiset<ListHead>, r: multiset<ListHead>)
    requires p + q == e + p' + q'
    ensures d + p + (q + r) == (d + e) + p' + (q' + r)
    ensures d + p + q == (d + e) + p' + q'
  {
    forall x: ListHead ensures p[x] + q[x] == e[x] + p'[x] + q'[x] {
      assert (p + q)[x] == (e + p' + q')[x];
    }
  }

  lemma DealtApart(all: seq<ListHead>, out: seq<ListHead>, e: ListHead, pr: seq<ListHead>, qr: seq<ListHead>)
    requires NoDup(all) && multiset(out + [e]) + multiset(pr) + multiset(qr) == multiset(all)
    ensures NoDup(out) && e !in out
    ensures forall x <- out :: x !in pr && x !in qr
    ensures forall x <- out + [e] :: x in all
  {
    PartsApart(all, out + [e], pr, qr);
    forall i, j | 0 <= i < j < |out| ensures out[i] != out[j] { assert (out + [e])[i] != (out + [e])[j]; }
    forall i | 0 <= i < |out| ensures out[i] != e { assert (out + [e])[i] != (out + [e])[|out|]; }
    forall x <- out ensures x !in pr && x !in qr { assert x in out + [e]; }
  }

  lemma InHandApart(all: seq<ListHead>, done: seq<ListHead>, d: seq<ListHead>, e: ListHead, pr: seq<ListHead>,
      qr: seq<ListHead>, rest: seq<ListHead>)
    requires NoDup(all) && InHand(all, done, d + [e], pr, qr, rest)
    ensures NoDup(done + d) && e !in done + d
    ensures forall x <- done + d :: x !in pr && x !in qr + rest
    ensures forall x <- done + d + [e] :: x in all
  {
    hide NoDup;
    assert done + (d + [e]) == done + d + [e];
    DealtApart(all, done + d, e, pr, qr + rest);
  }

  /** The element goes to the end of the merged list; what is left of the runs stays. */
  method Move(list: ListHead?, tail: ListHead?, e: ListHead, p: ListHead?, q: ListHead?, psize: nat, qsize: nat,
      ghost all: seq<ListHead>, ghost done: seq<ListHead>, ghost d: seq<ListHead>, ghost pr: seq<ListHead>,
      ghost qr: seq<ListHead>, ghost rest: seq<ListHead>, ghost pos: map<ListHead, nat>)
      returns (list': ListHead)
    requires OutOk(list, tail, done + d) && Left(p, q, psize, qsize, pr, qr, rest)
    requires NoDup(all) && InHand(all, done, d + [e], pr, qr, rest)
    requires forall n <- all :: n in pos
    modifies (set n <- pos.Keys)`next
    ensures OutOk(list', e, done + d + [e]) && Left(p, q, psize, qsize, pr, qr, rest)
  {
    hide NoDup, InHand;
    ghost var out := done + d;
    InHandApart(all, done, d, e, pr, qr, rest);
    TailInside(list, tail, out);
    list' := Append(list, tail, e, out);
  }

  lemma TailInside(list: ListHead?, tail: ListHead?, out: seq<ListHead>)
    requires OutOk(list, tail, out)
    ensures tail != null ==> out != [] && tail in out
  {}

  /** Merges the run of psize nodes from p and the run of at most qsize nodes from q. */
  method MergeRuns(c: Cmp, p: ListHead, q: ListHead?, psize: nat, qsize: nat, list: ListHead?, tail: ListHead?,
      ghost pos: map<ListHead, nat>, ghost infos: set<ListData>, ghost all: seq<ListHead>, ghost done: seq<ListHead>,
      ghost p0: seq<ListHead>, ghost q0: seq<ListHead>, ghost rest: seq<ListHead>)
      returns (list': ListHead?, tail': ListHead?, q': ListHead?, ghost d: seq<ListHead>)
    requires NoDup(all) && multiset(done) + multiset(p0) + multiset(q0 + rest) == multiset(all)
    requires forall n <- all :: n in pos
    requires psize > 0 && Left(p, q, psize, qsize, p0, q0, rest)
    requires OutOk(list, tail, done) && Progress(Snap(c, pos), [], p0, q0, p0, q0)
    requires forall n <- pos.Keys :: n.info in infos
    modifies (set n <- pos.Keys)`next, infos`data16
    ensures OutOk(list', tail', done + d) && ListFrom(q', rest)
    ensures multiset(d) == multiset(p0) + multiset(q0)
    ensures Kept(old(Snap(c, pos)), Snap(c, pos))
    ensures (forall n <- d :: n in pos) && RunOk(Items(Snap(c, pos), d))
  {
    hide *;
    var pp: ListHead? := p;
    q' := q;
    var ps, qs := psize, qsize;
    list', tail' := list, tail;
    d := [];
    ghost var pr, qr := p0, q0;
    ghost var m0 := Snap(c, pos);
    assert done + [] == done;
    KeptSelf(m0);
    NothingMoved(all, done, p0, q0, rest);
    while ps > 0 || (qs > 0 && q' != null)
      invariant Left(pp, q', ps, qs, pr, qr, rest) && OutOk(list', tail', done + d)
      invariant InHand(all, done, d, pr, qr, rest) && Moved(d, pr, qr, p0, q0)
      invariant Kept(m0, Snap(c, pos)) && Progress(Snap(c, pos), d, pr, qr, p0, q0)
      decreases ps + qs
    {
      ghost var m, pr0, qr0 := Snap(c, pos), pr, qr;
      var e;
      e, pp, q', ps, qs, pr, qr := Choose(c, pp, q', ps, qs, pos, infos, d, pr, qr, p0, q0, rest);
      KeptTwice(m0, m, Snap(c, pos));
      Dealt(all, p0, q0, done, d, e, pr0, qr0, pr, qr, rest);
      list' := Move(list', tail', e, pp, q', ps, qs, all, done, d, pr, qr, rest, pos);
      tail' := e;
      d := d + [e];
    }
    NothingLeft(pp, q', ps, qs, pr, qr, rest);
    AllMoved(d, p0, q0);
    AllMerged(Snap(c, pos), d, p0, q0);
    SnapKeys(c, pos);
  }

  lemma NothingMoved(all: seq<ListHead>, done: seq<ListHead>, p0: seq<ListHead>, q0: seq<ListHead>, rest: seq<ListHead>)
    requires multiset(done) + multiset(p0) + multiset(q0 + rest) == multiset(all)
    ensures InHand(all, done, [], p0, q0, rest) && Moved([], p0, q0, p0, q0)
  {
    assert done + [] == done;
  }

  lemma AllMoved(d: seq<ListHead>, p0: seq<ListHead>, q0: seq<ListHead>)
    requires Moved(d, [], [], p0, q0)
    ensures multiset(d) == multiset(p0) + multiset(q0)
  {}

  lemma NothingLeft(p: ListHead?, q: ListHead?, psize: nat, qsize: nat, pr: seq<ListHead>, qr: seq<ListHead>,
      rest: seq<ListHead>)
    requires Left(p, q, psize, qsize, pr, qr, rest) && psize == 0 && (qsize == 0 || q == null)
    ensures pr == [] && qr == [] && ListFrom(q, rest)
  {
    assert [] + rest == rest;
  }

  lemma SnapKeys(c: Cmp, pos: map<ListHead, nat>)
    ensures Snap(c, pos).Keys == pos.Keys
  {}

  lemma KeptSelf(m: map<ListHead, Item>)
    ensures Kept(m, m)
  {}

  lemma KeptTwice(m: map<ListHead, Item>, m': map<ListHead, Item>, m'': map<ListHead, Item>)
    requires Kept(m, m') && Kept(m', m'')
    ensures Kept(m, m'')
  {}

  // ---------- lists of runs ----------

  function Flat(rs: seq<seq<ListHead>>): seq<ListHead> {
    if rs == [] then [] else rs[0] + Flat(rs[1..])
  }

  lemma {:induction false} FlatConcat(a: seq<seq<ListHead>>, b: seq<seq<ListHead>>)
    ensures Flat(a + b) == Flat(a) + Flat(b)
  {
    if a == [] {
      assert a + b == b;
    } else {
      assert (a + b)[1..] == a[1..] + b;
      FlatConcat(a[1..], b);
    }
  }

  lemma FlatOne(r: seq<ListHead>)
    ensures Flat([r]) == r
  {
    assert [r][1..] == [];
    assert Flat([]) == [];
  }

  predicate Known(m: map<ListHead, Item>, s: seq<ListHead>) {
    forall n <- s :: n in m
  }

  /** Runs of k nodes, the last one maybe shorter; the nodes of each run stood before those
      of the next ones. */
  predicate RunsOk(m: map<ListHead, Item>, rs: seq<seq<ListHead>>, k: nat)
  {
    && (forall i :: 0 <= i < |rs| ==> 0 < |rs[i]| <= k && Known(m, rs[i]) && RunOk(Items(m, rs[i])))
    && (forall i :: 0 <= i < |rs| - 1 ==> |rs[i]| == k)
  }

  predicate Ordered(m: map<ListHead, Item>, rs: seq<seq<ListHead>>)
  {
    && (forall i :: 0 <= i < |rs| ==> Known(m, rs[i]))
    && (forall i, j :: 0 <= i < j < |rs| ==> Earlier(Items(m, rs[i]), Items(m, rs[j])))
  }

  lemma RunsKept(m: map<ListHead, Item>, m': map<ListHead, Item>, rs: seq<seq<ListHead>>, k: nat)
    requires Kept(m, m') && RunsOk(m, rs, k)
    ensures RunsOk(m', rs, k)
  {
    hide RunOk;
    forall i | 0 <= i < |rs| ensures RunOk(Items(m', rs[i])) { RunKept(m, m', rs[i]); }
  }

  lemma OrderedKept(m: map<ListHead, Item>, m': map<ListHead, Item>, rs: seq<seq<ListHead>>)
    requires Kept(m, m') && Ordered(m, rs)
    ensures Ordered(m', rs)
  {
    hide Earlier;
    forall i, j | 0 <= i < j < |rs| ensures Earlier(Items(m', rs[i]), Items(m', rs[j])) {
      EarlierKept(m, m', rs[i], rs[j]);
    }
  }

  /** The state between two merges of a pass: out has been merged into runs of 2 * k, rest
      is to be merged; both together are all nodes. */
  predicate InPass(m: map<ListHead, Item>, all: seq<ListHead>, out: seq<seq<ListHead>>, rest: seq<seq<ListHead>>,
      k: nat)
  {
    && RunsOk(m, out, 2 * k) && RunsOk(m, rest, k) && Ordered(m, out + rest)
    && (rest != [] ==> forall i :: 0 <= i < |out| ==> |out[i]| == 2 * k)
    && multiset(Flat(out)) + multiset(Flat(rest)) == multiset(all)
  }

  /** The next run to merge, and the one to merge it with, if there is one. */
  function SecondRun(rest: seq<seq<ListHead>>): seq<ListHead> {
    if |rest| >= 2 then rest[1] else []
  }

  function OtherRuns(rest: seq<seq<ListHead>>): seq<seq<ListHead>> {
    if |rest| >= 2 then rest[2..] else []
  }

  lemma FlatTwo(rest: seq<seq<ListHead>>)
    requires rest != []
    ensures Flat(rest) == rest[0] + (SecondRun(rest) + Flat(OtherRuns(rest)))
  {
    if |rest| >= 2 {
      assert rest[1..][1..] == rest[2..];
      assert Flat(rest[1..]) == rest[1] + Flat(rest[2..]);
    } else {
      assert rest[1..] == [];
      assert [] + Flat([]) == [];
    }
  }

  lemma NextSizes(m: map<ListHead, Item>, rest: seq<seq<ListHead>>, k: nat)
    requires RunsOk(m, rest, k) && rest != []
    ensures var p0, q0, r := rest[0], SecondRun(rest), Flat(OtherRuns(rest));
      && 0 < |p0| <= k && (|p0| == k || q0 + r == []) && (|q0| == k || (r == [] && |q0| <= k))
  {
    hide RunOk, Items;
    if |rest| < 2 {
      assert Flat(OtherRuns(rest)) == [];
    } else if |rest| == 2 {
      assert rest[2..] == [];
      assert Flat(OtherRuns(rest)) == [];
    }
  }

  lemma NextProgress(m: map<ListHead, Item>, out: seq<seq<ListHead>>, rest: seq<seq<ListHead>>, k: nat)
    requires RunsOk(m, rest, k) && Ordered(m, out + rest) && rest != []
    ensures var p0, q0 := rest[0], SecondRun(rest); Progress(m, [], p0, q0, p0, q0)
  {
    hide RunOk, Earlier;
    var p0, q0 := rest[0], SecondRun(rest);
    assert [] + p0 == p0;
    if |rest| >= 2 {
      assert (out + rest)[|out|] == rest[0] && (out + rest)[|out| + 1] == rest[1];
    } else {
      EmptyRun(Items(m, p0));
      assert Items(m, q0) == [];
    }
  }

  lemma EmptyRun(v: seq<Item>)
    ensures RunOk([]) && Earlier(v, [])
  {}

  /** Nodes of merged runs stand where the nodes of the runs stood. */
  lemma EarlierMerged(m: map<ListHead, Item>, x: seq<ListHead>, p: seq<ListHead>, q: seq<ListHead>, d: seq<ListHead>)
    requires Known(m, x) && Known(m, p) && Known(m, q) && multiset(d) == multiset(p) + multiset(q)
    ensures Known(m, d)
    ensures Earlier(Items(m, x), Items(m, p)) && Earlier(Items(m, x), Items(m, q)) ==> Earlier(Items(m, x), Items(m, d))
    ensures Earlier(Items(m, p), Items(m, x)) && Earlier(Items(m, q), Items(m, x)) ==> Earlier(Items(m, d), Items(m, x))
  {
    forall n | n in d ensures n in p || n in q { assert n in multiset(d); }
    forall j | 0 <= j < |d|
      ensures (exists i :: 0 <= i < |p| && Items(m, p)[i] == Items(m, d)[j])
          || (exists i :: 0 <= i < |q| && Items(m, q)[i] == Items(m, d)[j])
    {
      assert d[j] in d;
      if d[j] in p {
        var i :| 0 <= i < |p| && p[i] == d[j];
        assert Items(m, p)[i] == Items(m, d)[j];
      } else {
        var i :| 0 <= i < |q| && q[i] == d[j];
        assert Items(m, q)[i] == Items(m, d)[j];
      }
    }
  }

  lemma EmptyEarlier(v: seq<Item>)
    ensures Earlier(v, []) && Earlier([], v)
  {}

  lemma OrderedAfter(m: map<ListHead, Item>, out: seq<seq<ListHead>>, rest: seq<seq<ListHead>>, d: seq<ListHead>)
    requires Ordered(m, out + rest) && rest != [] && multiset(d) == multiset(rest[0]) + multiset(SecondRun(rest))
    ensures Ordered(m, out + [d] + OtherRuns(rest))
  {
    hide Earlier;
    var rs, p0, q0 := out + rest, rest[0], SecondRun(rest);
    var rs' := out + [d] + OtherRuns(rest);
    var n := |out|;
    assert rs[n] == p0 && (|rest| >= 2 ==> rs[n + 1] == q0);
    assert Known(m, p0) && Known(m, q0);
    assert Items(m, []) == [];
    EarlierMerged(m, p0, p0, q0, d);
    forall i | 0 <= i < |rs'| ensures Known(m, rs'[i]) {
      if i < n { assert rs'[i] == rs[i]; } else if i > n { assert rs'[i] == rs[i + 1]; }
    }
    forall i, j | 0 <= i < j < |rs'| ensures Earlier(Items(m, rs'[i]), Items(m, rs'[j])) {
      var x := rs'[i];
      var y := rs'[j];
      assert i < n ==> x == rs[i];
      assert i > n ==> x == rs[i + 1];
      assert j < n ==> y == rs[j];
      assert j > n ==> y == rs[j + 1];
      EmptyEarlier(Items(m, x));
      EmptyEarlier(Items(m, y));
      EarlierMerged(m, x, p0, q0, d);
      EarlierMerged(m, y, p0, q0, d);
    }
  }

  /** After a merge. */
  lemma AfterMerge(m: map<ListHead, Item>, m': map<ListHead, Item>, all: seq<ListHead>, out: seq<seq<ListHead>>,
      rest: seq<seq<ListHead>>, k: nat, d: seq<ListHead>)
    requires InPass(m, all, out, rest, k) && rest != [] && Kept(m, m')
    requires multiset(d) == multiset(rest[0]) + multiset(SecondRun(rest)) && Known(m', d) && RunOk(Items(m', d))
    ensures InPass(m', all, out + [d], OtherRuns(rest), k)
    ensures Flat(out + [d]) == Flat(out) + d
  {
    hide RunOk, Ordered, Kept, Known, Items, Flat, RunsOk;
    RunsKept(m, m', out, 2 * k);
    RunsKept(m, m', rest, k);
    OrderedKept(m, m', out + rest);
    OrderedAfter(m', out, rest, d);
    FlatConcat(out, [d]);
    FlatOne(d);
    FlatTwo(rest);
    RunsAfter(m', out, rest, k, d);
    AllAfter(all, Flat(out), Flat(rest), rest[0], SecondRun(rest), Flat(OtherRuns(rest)), d);
  }

  lemma RunsAfter(m: map<ListHead, Item>, out: seq<seq<ListHead>>, rest: seq<seq<ListHead>>, k: nat, d: seq<ListHead>)
    requires RunsOk(m, out, 2 * k) && RunsOk(m, rest, k) && rest != []
    requires forall i :: 0 <= i < |out| ==> |out[i]| == 2 * k
    requires multiset(d) == multiset(rest[0]) + multiset(SecondRun(rest)) && Known(m, d) && RunOk(Items(m, d))
    ensures RunsOk(m, out + [d], 2 * k) && RunsOk(m, OtherRuns(rest), k)
    ensures OtherRuns(rest) != [] ==> forall i :: 0 <= i < |out + [d]| ==> |(out + [d])[i]| == 2 * k
  {
    hide RunOk, Items, Known;
    assert |d| == |multiset(d)| == |rest[0]| + |SecondRun(rest)|;
  }

  lemma AllAfter(all: seq<ListHead>, out: seq<ListHead>, flat: seq<ListHead>, p: seq<ListHead>, q: seq<ListHead>,
      r: seq<ListHead>, d: seq<ListHead>)
    requires multiset(out) + multiset(flat) == multiset(all) && flat == p + (q + r)
    requires multiset(d) == multiset(p) + multiset(q)
    ensures multiset(out + d) + multiset(r) == multiset(all)
  {
    assert multiset(flat) == multiset(p) + (multiset(q) + multiset(r));
    assert multiset(out + d) == multiset(out) + multiset(d);
  }

  // ---------- the sort ----------

  /** Steps insize places along from p. */
  method StepAlong(p: ListHead, insize: nat, ghost s: seq<ListHead>) returns (q: ListHead?, psize: nat)
    requires ListFrom(p, s) && s != [] && insize > 0
    ensures psize == (if insize <= |s| then insize else |s|) > 0
    ensures ListFrom(q, s[psize..]) && Linked(s[..psize])
  {
    q := p;
    psize := 0;
    var i := 0;
    while i < insize
      invariant i == psize <= insize && psize < |s| && ListFrom(q, s[psize..]) && q == s[psize]
    {
      psize := psize + 1;
      q := q.next;
      assert psize < |s| ==> q == s[psize..][0];
      if q == null { return; }
      i := i + 1;
    }
  }

  lemma RestEmpty(m: map<ListHead, Item>, rest: seq<seq<ListHead>>, k: nat, p: ListHead?)
    requires RunsOk(m, rest, k) && ListFrom(p, Flat(rest))
    ensures p == null <==> rest == []
  {
    hide RunOk;
    if rest != [] { assert |rest[0]| > 0; }
  }

  /** Both runs are where the pointers are. */
  lemma AtRuns(p: ListHead, q: ListHead?, psize: nat, insize: nat, p0: seq<ListHead>, q0: seq<ListHead>,
      r: seq<ListHead>)
    requires 0 < |p0| <= insize && (|p0| == insize || q0 + r == []) && (|q0| == insize || (r == [] && |q0| <= insize))
    requires psize == (if insize <= |p0 + (q0 + r)| then insize else |p0 + (q0 + r)|)
    requires p == (p0 + (q0 + r))[0] && Linked((p0 + (q0 + r))[..psize]) && ListFrom(q, (p0 + (q0 + r))[psize..])
    ensures psize == |p0| && Left(p, q, psize, insize, p0, q0, r)
  {
    var s := p0 + (q0 + r);
    assert psize == |p0|;
    assert s[..psize] == p0 && s[psize..] == q0 + r;
  }

  /** The last link of the merged list is set. */
  method Finish(list: ListHead?, tail: ListHead, ghost s: seq<ListHead>)
    requires OutOk(list, tail, s) && NoDup(s)
    modifies {tail}`next
    ensures ListFrom(list, s)
  {
    tail.next := null;
  }

  /** The next two runs, or the last one, become one run of the merged list. */
  method MergeNext(c: Cmp, p: ListHead, insize: nat, list: ListHead?, tail: ListHead?, ghost pos: map<ListHead, nat>,
      ghost infos: set<ListData>, ghost all: seq<ListHead>, ghost out: seq<seq<ListHead>>,
      ghost rest: seq<seq<ListHead>>, ghost done: seq<ListHead>, ghost left: seq<ListHead>)
      returns (list': ListHead?, tail': ListHead?, p': ListHead?, ghost d: seq<ListHead>)
    requires done == Flat(out) && left == Flat(rest)
    requires insize > 0 && NoDup(all) && (forall n <- all :: n in pos) && rest != [] && ListFrom(p, Flat(rest))
    requires InPass(Snap(c, pos), all, out, rest, insize) && OutOk(list, tail, Flat(out))
    requires forall n <- pos.Keys :: n.info in infos
    modifies (set n <- pos.Keys)`next, infos`data16
    ensures InPass(Snap(c, pos), all, out + [d], OtherRuns(rest), insize) && Kept(old(Snap(c, pos)), Snap(c, pos))
    ensures ListFrom(p', Flat(OtherRuns(rest))) && OutOk(list', tail', Flat(out + [d]))
  {
    hide RunOk, Kept, NoDup, Ordered, Known, Snap, OutOk, Left, InPass, ListFrom, Linked, Flat, RunsOk, Progress,
        SecondRun, OtherRuns;
    ghost var m := Snap(c, pos);
    ghost var p0, q0, r := rest[0], SecondRun(rest), Flat(OtherRuns(rest));
    PassIs(m, all, out, rest, insize);
    FlatTwo(rest);
    NextSizes(m, rest, insize);
    NextProgress(m, out, rest, insize);
    var q, psize := StepAlong(p, insize, left);
    StartIs(p, left);
    AtRuns(p, q, psize, insize, p0, q0, r);
    RestOfAll(all, done, p0, q0, r, left);
    list', tail', p', d := MergeRuns(c, p, q, psize, insize, list, tail, pos, infos, all, done, p0, q0, r);
    KnownIs(c, pos, d);
    AfterMerge(m, Snap(c, pos), all, out, rest, insize, d);
  }

  lemma StartIs(p: ListHead, s: seq<ListHead>)
    requires ListFrom(p, s) && s != []
    ensures p == s[0]
  {}

  /** One pass: merges the runs of insize nodes two by two. Without a run there is no tail
      whose link could be cleared at the end: the program dies. */
  method Pass(c: Cmp, list: ListHead?, insize: nat, ghost pos: map<ListHead, nat>, ghost infos: set<ListData>,
      ghost all: seq<ListHead>, ghost rs: seq<seq<ListHead>>)
      returns (died: bool, list': ListHead?, nmerges: nat, ghost rs': seq<seq<ListHead>>)
    requires insize > 0 && NoDup(all) && (forall n <- all :: n in pos) && ListFrom(list, Flat(rs))
    requires InPass(Snap(c, pos), all, [], rs, insize)
    requires forall n <- pos.Keys :: n.info in infos
    modifies (set n <- pos.Keys)`next, infos`data16
    ensures died <==> rs == []
    ensures !died ==> ListFrom(list', Flat(rs')) && InPass(Snap(c, pos), all, [], rs', 2 * insize)
    ensures !died ==> nmerges == |rs'| > 0 && 2 * |rs'| <= |rs| + 1
    ensures Kept(old(Snap(c, pos)), Snap(c, pos))
  {
    hide RunOk, Kept, NoDup, Ordered, Known, Snap, OutOk, Left, InPass, ListFrom, Linked, Flat, RunsOk, Progress;
    var p := list;
    list' := null;
    var tail: ListHead? := null;
    nmerges := 0;
    ghost var m0 := Snap(c, pos);
    ghost var out: seq<seq<ListHead>>, rest := [], rs;
    KeptSelf(m0);
    NoOutput(list', tail);
    PassIs(m0, all, out, rest, insize);
    RestEmpty(m0, rest, insize, p);
    while p != null
      invariant InPass(Snap(c, pos), all, out, rest, insize) && Kept(m0, Snap(c, pos))
      invariant ListFrom(p, Flat(rest)) && OutOk(list', tail, Flat(out)) && nmerges == |out|
      invariant 2 * |out| + |rest| <= |rs| + 1 && (rest != [] ==> 2 * |out| + |rest| == |rs|)
      invariant (p == null <==> rest == []) && (out == [] ==> rest == rs)
      decreases |rest|
    {
      nmerges := nmerges + 1;
      ghost var m := Snap(c, pos);
      ghost var d;
      list', tail, p, d := MergeNext(c, p, insize, list', tail, pos, infos, all, out, rest, Flat(out), Flat(rest));
      KeptTwice(m0, m, Snap(c, pos));
      out, rest := out + [d], OtherRuns(rest);
      PassIs(Snap(c, pos), all, out, rest, insize);
      RestEmpty(Snap(c, pos), rest, insize, p);
    }
    rs' := out;
    TailWhen(list', tail, out, Snap(c, pos), all, rest, insize);
    died := tail == null;
    if died {
      return;
    }
    PassDone(Snap(c, pos), all, out, insize);
    TailIs(list', tail, Flat(out), all, pos);
    Finish(list', tail, Flat(out));
  }

  lemma TailWhen(list: ListHead?, tail: ListHead?, out: seq<seq<ListHead>>, m: map<ListHead, Item>,
      all: seq<ListHead>, rest: seq<seq<ListHead>>, k: nat)
    requires OutOk(list, tail, Flat(out)) && InPass(m, all, out, rest, k)
    ensures tail == null <==> out == []
  {
    hide RunOk, Ordered;
    if out != [] { assert |out[0]| > 0; }
  }

  lemma NoOutput(list: ListHead?, tail: ListHead?)
    requires list == null && tail == null
    ensures OutOk(list, tail, Flat([]))
  {}

  lemma PassIs(m: map<ListHead, Item>, all: seq<ListHead>, out: seq<seq<ListHead>>, rest: seq<seq<ListHead>>, k: nat)
    requires InPass(m, all, out, rest, k)
    ensures RunsOk(m, rest, k) && Ordered(m, out + rest) && multiset(Flat(out)) + multiset(Flat(rest)) == multiset(all)
  {
    hide RunsOk, Ordered, Flat;
  }

  lemma RestOfAll(all: seq<ListHead>, out: seq<ListHead>, p0: seq<ListHead>, q0: seq<ListHead>, r: seq<ListHead>,
      flat: seq<ListHead>)
    requires flat == p0 + (q0 + r) && multiset(out) + multiset(flat) == multiset(all)
    ensures multiset(out) + multiset(p0) + multiset(q0 + r) == multiset(all)
  {
    assert multiset(flat) == multiset(p0) + multiset(q0 + r);
  }

  lemma KnownIs(c: Cmp, pos: map<ListHead, nat>, d: seq<ListHead>)
    requires forall n <- d :: n in pos
    ensures Known(Snap(c, pos), d)
  {}

  lemma PassDone(m: map<ListHead, Item>, all: seq<ListHead>, out: seq<seq<ListHead>>, k: nat)
    requires InPass(m, all, out, [], k) && out != []
    ensures InPass(m, all, [], out, 2 * k) && multiset(Flat(out)) == multiset(all)
    ensures Flat(out) != []
  {
    hide RunOk, Ordered;
    assert out + [] == out && [] + out == out;
    assert |out[0]| > 0;
  }

  lemma TailIs(list: ListHead?, tail: ListHead?, s: seq<ListHead>, all: seq<ListHead>, pos: map<ListHead, nat>)
    requires OutOk(list, tail, s) && s != [] && NoDup(all) && multiset(s) == multiset(all)
        && forall n <- all :: n in pos
    ensures tail != null && tail in pos && NoDup(s)
  {
    PartsApart(all, s, [], []);
    assert tail in s;
  }

  /** Where the nodes stand before sorting. */
  ghost function Positions(s: seq<ListHead>): (r: map<ListHead, nat>)
    requires NoDup(s)
    ensures r.Keys == (set n | n in s) && forall i :: 0 <= i < |s| ==> r[s[i]] == i
  {
    map n | n in s :: PlaceOf(s, n)
  }

  function PlaceOf(s: seq<ListHead>, n: ListHead): (i: nat)
    requires n in s
    ensures i < |s| && s[i] == n
  {
    if s[0] == n then 0 else 1 + PlaceOf(s[1..], n)
  }

  function Singles(s: seq<ListHead>): (r: seq<seq<ListHead>>)
    ensures |r| == |s|
  {
    seq(|s|, i requires 0 <= i < |s| => [s[i]])
  }

  lemma {:induction false} FlatSingles(s: seq<ListHead>)
    ensures Flat(Singles(s)) == s
    decreases |s|
  {
    if s == [] {
      assert Singles(s) == [];
    } else {
      FlatSingles(s[1..]);
      assert Singles(s)[1..] == Singles(s[1..]);
      assert s == [s[0]] + s[1..];
    }
  }

  lemma SnapPos(c: Cmp, pos: map<ListHead, nat>)
    ensures Snap(c, pos).Keys == pos.Keys && forall n <- pos :: Snap(c, pos)[n].pos == pos[n]
  {}

  lemma StartOrdered(m: map<ListHead, Item>, s: seq<ListHead>)
    requires Known(m, s) && forall i :: 0 <= i < |s| ==> m[s[i]].pos == i
    ensures Ordered(m, [] + Singles(s)) && RunsOk(m, Singles(s), 1)
  {
    hide Ordered, RunsOk, Singles;
    assert [] + Singles(s) == Singles(s);
    SinglesInOrder(m, s);
    SinglesOk(m, s);
  }

  lemma SinglesOk(m: map<ListHead, Item>, s: seq<ListHead>)
    requires Known(m, s)
    ensures RunsOk(m, Singles(s), 1)
  {
    hide RunOk, Items, Singles;
    forall i | 0 <= i < |s| ensures Known(m, Singles(s)[i]) { SingleRun(m, s, i); }
    forall i | 0 <= i < |s| ensures |Singles(s)[i]| == 1 && RunOk(Items(m, Singles(s)[i])) { SingleRun(m, s, i); }
  }

  lemma SinglesInOrder(m: map<ListHead, Item>, s: seq<ListHead>)
    requires Known(m, s) && forall i :: 0 <= i < |s| ==> m[s[i]].pos == i
    ensures Ordered(m, Singles(s))
  {
    hide Earlier, Items, Singles;
    forall i | 0 <= i < |s| ensures Known(m, Singles(s)[i]) { SingleRun(m, s, i); }
    forall i, j | 0 <= i < j < |s| ensures Earlier(Items(m, Singles(s)[i]), Items(m, Singles(s)[j])) {
      assert s[i] in s && s[j] in s;
      SinglesOrdered(m, s, i, j);
    }
  }

  lemma SingleRun(m: map<ListHead, Item>, s: seq<ListHead>, i: nat)
    requires Known(m, s) && i < |s|
    ensures var r := Singles(s)[i]; |r| == 1 && Known(m, r) && RunOk(Items(m, r))
  {
    assert s[i] in s;
  }

  lemma SinglesOrdered(m: map<ListHead, Item>, s: seq<ListHead>, i: nat, j: nat)
    requires Known(m, s) && i < j < |s| && m[s[i]].pos == i && m[s[j]].pos == j
    ensures Known(m, Singles(s)[i]) && Known(m, Singles(s)[j])
        && Earlier(Items(m, Singles(s)[i]), Items(m, Singles(s)[j]))
  {
    assert s[i] in s && s[j] in s;
  }

  lemma StartRuns(c: Cmp, pos: map<ListHead, nat>, s: seq<ListHead>)
    requires NoDup(s) && pos == Positions(s)
    ensures InPass(Snap(c, pos), s, [], Singles(s), 1) && Flat(Singles(s)) == s
  {
    hide Ordered, RunsOk, Snap, NoDup;
    FlatSingles(s);
    SnapPos(c, pos);
    StartOrdered(Snap(c, pos), s);
    NothingYet(Snap(c, pos), s);
  }

  lemma NothingYet(m: map<ListHead, Item>, s: seq<ListHead>)
    ensures RunsOk(m, [], 2) && multiset(Flat([])) + multiset(s) == multiset(s)
  {}

  lemma FirstRunFits(m: map<ListHead, Item>, all: seq<ListHead>, rs: seq<seq<ListHead>>, k: nat)
    requires InPass(m, all, [], rs, k) && |rs| >= 2
    ensures k <= |all|
  {
    hide RunOk, Ordered;
    assert Flat(rs) == rs[0] + Flat(rs[1..]);
    assert multiset(Flat([])) == multiset{};
    assert |multiset(Flat(rs))| == |multiset(all)|;
  }

  lemma OneRunLeft(m: map<ListHead, Item>, all: seq<ListHead>, rs: seq<seq<ListHead>>, k: nat)
    requires InPass(m, all, [], rs, k) && |rs| == 1
    ensures Known(m, Flat(rs)) && RunOk(Items(m, Flat(rs))) && multiset(Flat(rs)) == multiset(all)
  {
    hide RunOk, Ordered;
    FlatOne(rs[0]);
    assert rs == [rs[0]];
    assert multiset(Flat([])) == multiset{};
  }

  /** The data of the nodes. */
  ghost function DataOf(pos: map<ListHead, nat>): map<ListHead, u16>
    reads pos.Keys`info, set n <- pos.Keys :: n.info
  {
    map n | n in pos :: n.info.data16
  }

  lemma SnapOfData(c: Cmp, pos: map<ListHead, nat>, n: ListHead)
    requires n in pos
    ensures n in Snap(c, pos) && n in DataOf(pos) && DataOf(pos)[n] == n.info.data16
    ensures Snap(c, pos)[n].open == Open(c, n.info.data16) && Snap(c, pos)[n].backup == n.info.data16 / 0x100
    ensures c.Complex? ==> Snap(c, pos)[n].key == n.info.data16 % 0x80
  {}

  /** What has changed in the data of a node: a key that no benchmark chooses has not. */
  lemma KeyStays(c: Cmp, m: map<ListHead, Item>, m': map<ListHead, Item>, n: ListHead, data: u16, data': u16)
    requires n in m && n in m' && Kept(m, m')
    requires m[n].open == Open(c, data) && m[n].backup == data / 0x100 && m'[n].backup == data' / 0x100
    requires c.Complex? ==> m[n].key == data % 0x80 && m'[n].key == data' % 0x80
    ensures c.Complex? && (data / 0x80 % 2 == 1 || data % 8 >= 2) ==> data' % 0x80 == data % 0x80
    ensures data' / 0x100 == data / 0x100
  {}

  /** a comes before b: by the cached values or by idx, and otherwise by where they stood. */
  ghost predicate Ahead(c: Cmp, orig: seq<ListHead>, a: ListHead, b: ListHead)
    requires a in orig && b in orig
    reads a`info, b`info, a.info, b.info
  {
    match c
    case Complex =>
      a.info.data16 % 0x80 < b.info.data16 % 0x80
      || (a.info.data16 % 0x80 == b.info.data16 % 0x80 && PlaceOf(orig, a) < PlaceOf(orig, b))
    case Index(_) =>
      a.info.idx < b.info.idx || (a.info.idx == b.info.idx && PlaceOf(orig, a) < PlaceOf(orig, b))
  }

  /** What the comparisons leave in the data. */
  predicate Marked(c: Cmp, data16: u16) {
    (c.Complex? ==> data16 / 0x80 % 2 == 1) && (c == Index(true) ==> data16 % 0x100 == data16 / 0x100)
  }

  lemma SameMembers(a: seq<ListHead>, b: seq<ListHead>)
    requires multiset(a) == multiset(b)
    ensures |a| == |b| && forall n :: n in a <==> n in b
  {
    assert |multiset(a)| == |multiset(b)|;
    forall n ensures n in a <==> n in b { assert n in multiset(a) <==> n in multiset(b); }
  }

  lemma PairInOrder(c: Cmp, pos: map<ListHead, nat>, orig: seq<ListHead>, s: seq<ListHead>, i: nat, j: nat)
    requires NoDup(orig) && pos == Positions(orig) && i < j < |s| && s[i] in orig && s[j] in orig
    requires Known(Snap(c, pos), s) && RunOk(Items(Snap(c, pos), s))
    ensures Ahead(c, orig, s[i], s[j])
  {
    hide PlaceOf, NoDup;
    var v := Items(Snap(c, pos), s);
    assert Less(v[i], v[j]);
    PlaceIs(orig, pos, s[i]);
    PlaceIs(orig, pos, s[j]);
  }

  lemma PlaceIs(orig: seq<ListHead>, pos: map<ListHead, nat>, n: ListHead)
    requires NoDup(orig) && pos == Positions(orig) && n in orig
    ensures n in pos && pos[n] == PlaceOf(orig, n)
  {
    hide NoDup;
    var i := PlaceOf(orig, n);
    assert pos[orig[i]] == i;
  }

  lemma TouchedIsMarked(c: Cmp, pos: map<ListHead, nat>, s: seq<ListHead>, n: ListHead)
    requires Known(Snap(c, pos), s) && RunOk(Items(Snap(c, pos), s)) && |s| >= 2 && n in s
    ensures Marked(c, n.info.data16)
  {
    var i :| 0 <= i < |s| && s[i] == n;
    assert Items(Snap(c, pos), s)[i].touched;
  }

  /** A sorted run, in terms of the data of its nodes. */
  lemma SortedInOrder(c: Cmp, pos: map<ListHead, nat>, orig: seq<ListHead>, sorted: seq<ListHead>)
    requires NoDup(orig) && pos == Positions(orig) && multiset(sorted) == multiset(orig)
    requires Known(Snap(c, pos), sorted) && RunOk(Items(Snap(c, pos), sorted))
    ensures forall n <- sorted :: n in orig
    ensures forall i, j :: 0 <= i < j < |sorted| ==> Ahead(c, orig, sorted[i], sorted[j])
    ensures |orig| >= 2 ==> forall n <- orig :: Marked(c, n.info.data16)
  {
    hide PlaceOf, NoDup, Positions, Snap, Items, RunOk, Known, Ahead, Marked;
    SameMembers(sorted, orig);
    forall i, j | 0 <= i < j < |sorted| ensures Ahead(c, orig, sorted[i], sorted[j]) {
      PairInOrder(c, pos, orig, sorted, i, j);
    }
    if |orig| >= 2 {
      forall n | n in orig ensures Marked(c, n.info.data16) { TouchedIsMarked(c, pos, sorted, n); }
    }
  }

  /** The passes, with runs of doubled length each time, until one merge is enough. */
  method SortRuns(c: Cmp, list: ListHead?, ghost orig: seq<ListHead>)
      returns (died: bool, result: ListHead?, ghost sorted: seq<ListHead>)
    requires NoDup(orig) && ListFrom(list, orig) && |orig| < 0x8000_0000
    modifies (set n <- orig)`next, (set n <- orig :: n.info)`data16
    ensures died <==> orig == []
    ensures !died ==> ListFrom(result, sorted) && multiset(sorted) == multiset(orig)
    ensures !died ==> var m := Snap(c, Positions(orig)); Known(m, sorted) && RunOk(Items(m, sorted))
    ensures Kept(old(Snap(c, Positions(orig))), Snap(c, Positions(orig)))
  {
    hide RunOk, Kept, Ordered, Known, Snap, InPass, ListFrom, Flat, Positions;
    ghost var pos := Positions(orig);
    ghost var infos := set n <- orig :: n.info;
    ghost var rs := Singles(orig);
    ghost var m0 := Snap(c, pos);
    StartRuns(c, pos, orig);
    KeptSelf(m0);
    result := list;
    var insize: nat := 1;
    while true
      invariant 1 <= insize < 0x8000_0000 && ListFrom(result, Flat(rs)) && (rs == [] <==> orig == [])
      invariant InPass(Snap(c, pos), orig, [], rs, insize) && Kept(m0, Snap(c, pos))
      decreases |rs|
    {
      ghost var m, rs0 := Snap(c, pos), rs;
      var nmerges;
      died, result, nmerges, rs := Pass(c, result, insize, pos, infos, orig, rs);
      KeptTwice(m0, m, Snap(c, pos));
      if died {
        sorted := [];
        return;
      }
      if nmerges <= 1 {
        OneRunLeft(Snap(c, pos), orig, rs, 2 * insize);
        sorted := Flat(rs);
        return;
      }
      FirstRunFits(Snap(c, pos), orig, rs, 2 * insize);
      insize := insize * 2;
    }
  }

  /** core_list_mergesort: the same nodes, relinked in the order of their final keys; nodes
      with the same key keep their order. On two or more nodes every item has been compared.
      On the empty list the program dies. */
  method Mergesort(c: Cmp, list: ListHead?, ghost orig: seq<ListHead>)
      returns (died: bool, result: ListHead?, ghost sorted: seq<ListHead>)
    requires NoDup(orig) && ListFrom(list, orig) && |orig| < 0x8000_0000
    modifies (set n <- orig)`next, (set n <- orig :: n.info)`data16
    ensures died <==> orig == []
    ensures !died ==> ListFrom(result, sorted) && multiset(sorted) == multiset(orig)
    ensures !died ==> forall n <- sorted :: n in orig
    ensures !died ==> forall i, j :: 0 <= i < j < |sorted| ==> Ahead(c, orig, sorted[i], sorted[j])
    ensures !died && |orig| >= 2 ==> forall n <- orig :: Marked(c, n.info.data16)
    ensures c.Complex? ==> forall n <- orig :: old(n.info.data16) / 0x80 % 2 == 1 || old(n.info.data16) % 8 >= 2 ==>
      n.info.data16 % 0x80 == old(n.info.data16) % 0x80
    ensures forall n <- orig :: n.info.data16 / 0x100 == old(n.info.data16) / 0x100
  {
    hide *;
    ghost var pos := Positions(orig);
    ghost var m, data := Snap(c, pos), DataOf(pos);
    forall n | n in orig ensures n in pos { PlaceIs(orig, pos, n); }
    forall n | n in orig
      ensures n in m && n in data && data[n] == n.info.data16 && m[n].open == Open(c, data[n])
      ensures m[n].backup == data[n] / 0x100 && (c.Complex? ==> m[n].key == data[n] % 0x80)
    {
      SnapOfData(c, pos, n);
    }
    died, result, sorted := SortRuns(c, list, orig);
    forall n | n in orig
      ensures c.Complex? && (data[n] / 0x80 % 2 == 1 || data[n] % 8 >= 2) ==>
        n.info.data16 % 0x80 == data[n] % 0x80
      ensures n.info.data16 / 0x100 == data[n] / 0x100
    {
      SnapOfData(c, pos, n);
      KeyStays(c, m, Snap(c, pos), n, data[n], n.info.data16);
    }
    if !died {
      SortedInOrder(c, pos, orig, sorted);
    }
  }
}
