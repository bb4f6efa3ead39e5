/** scan_tree and send_tree on the arrays of gzip.c: one walk over the code lengths
    counts the symbols of their run-length form, the other sends them. */
module TreeCoding {
  import opened Bits
  import opened BitWriter
  import opened Canonical
  import opened RunLength
  import opened Blocks
  import opened TreeBuilder
  import opened Merging

  // ---------- sending one code ----------

  /** The tree holds the codes that the lengths determine, as far as it goes. */
  ghost predicate Coded(t: CtTree, lens: seq<nat>)
    reads t.fc, t.dl
  {
    && t.fc.Length == t.dl.Length && Bounded(lens, 15)
    && forall n :: 0 <= n < |lens| && n < t.dl.Length ==>
         && t.dl[n] == lens[n]
         && (lens[n] > 0 ==> t.fc[n] == Value(CodeBits(lens, n)) && t.fc[n] < Pow2(lens[n]))
  }

  /** SEND_CODE(c, tree) */
  method SendCode(w: Writer, t: CtTree, c: nat, ghost lens: seq<nat>)
    requires w.Valid() && Coded(t, lens) && c < |lens| && c < t.dl.Length && lens[c] > 0
    modifies w, w.outbuf
    ensures w.Valid() && w.Sent() == old(w.Sent()) + CodeBits(lens, c)
  {
    hide Lsb, Value, CodeBits, Pow2;
    LsbOfValue(CodeBits(lens, c));
    w.SendBits(t.fc[c], t.dl[c]);
  }

  // ---------- counting the symbols ----------

  /** How often a run uses symbol s. */
  lemma RunCount(cur: nat, count: nat, prev: int, minCount: nat, s: nat)
    requires cur <= 15 && count > 0 && minCount >= 3
    ensures SymCount(Run(cur, count, prev, minCount), s) ==
      if count < minCount then (if s == cur then count else 0)
      else if cur != 0 then (if s == cur && cur != prev then 1 else 0) + (if s == REP_3_6 then 1 else 0)
      else if count <= 10 then (if s == REPZ_3_10 then 1 else 0)
      else (if s == REPZ_11_138 then 1 else 0)
  {
    var run := Run(cur, count, prev, minCount);
    if count < minCount {
      SymCountRepeat(cur, count, s);
    } else {
      OneSymbol(run[|run| - 1], s);
      if |run| == 2 { assert run[1..] == [run[1]]; }
    }
  }

  lemma OneSymbol(i: Item, s: nat)
    ensures SymCount([i], s) == if i.sym == s then 1 else 0
  {}

  /** Room for more in every counter. */
  predicate Room(f: seq<nat>, items: seq<Item>)
  {
    |f| >= 19 && forall s :: 0 <= s < 19 ==> f[s] + SymCount(items, s) < USHORT
  }

  /** g counts what f counts and the symbols of the items. */
  predicate Counts(f: seq<nat>, g: seq<nat>, items: seq<Item>)
  {
    && |f| == |g| >= 19
    && (forall s :: 0 <= s < 19 ==> g[s] == f[s] + SymCount(items, s))
    && (forall s :: 19 <= s < |f| ==> g[s] == f[s])
  }

  method CountRun(bl: CtTree, cur: nat, count: nat, prev: int, minCount: nat)
    requires cur <= 15 && count > 0 && minCount >= 3
    requires Room(bl.fc[..], Run(cur, count, prev, minCount))
    modifies bl.fc
    ensures Counts(old(bl.fc[..]), bl.fc[..], Run(cur, count, prev, minCount))
  {
    hide Run, SymCount;
    ghost var run := Run(cur, count, prev, minCount);
    forall s: nat ensures SymCount(run, s) ==
      if count < minCount then (if s == cur then count else 0)
      else if cur != 0 then (if s == cur && cur != prev then 1 else 0) + (if s == REP_3_6 then 1 else 0)
      else if count <= 10 then (if s == REPZ_3_10 then 1 else 0)
      else (if s == REPZ_11_138 then 1 else 0)
    {
      RunCount(cur, count, prev, minCount, s);
    }
    if count < minCount {
      bl.fc[cur] := (bl.fc[cur] + count) % USHORT;
    } else if cur != 0 {
      if cur != prev { bl.fc[cur] := (bl.fc[cur] + 1) % USHORT; }
      bl.fc[REP_3_6] := (bl.fc[REP_3_6] + 1) % USHORT;
    } else if count <= 10 {
      bl.fc[REPZ_3_10] := (bl.fc[REPZ_3_10] + 1) % USHORT;
    } else {
      bl.fc[REPZ_11_138] := (bl.fc[REPZ_11_138] + 1) % USHORT;
    }
  }

  lemma RoomSplit(f: seq<nat>, a: seq<Item>, b: seq<Item>)
    requires Room(f, a + b)
    ensures Room(f, a)
    ensures forall g :: Counts(f, g, a) ==> Room(g, b)
  {
    forall s: nat ensures SymCount(a + b, s) == SymCount(a, s) + SymCount(b, s) {
      SymCountConcat(a, b, s);
    }
  }

  lemma CountsJoin(f: seq<nat>, g: seq<nat>, h: seq<nat>, a: seq<Item>, b: seq<Item>)
    requires Counts(f, g, a) && Counts(g, h, b)
    ensures Counts(f, h, a + b)
  {
    forall s: nat ensures SymCount(a + b, s) == SymCount(a, s) + SymCount(b, s) {
      SymCountConcat(a, b, s);
    }
  }

  lemma CountsNothing(f: seq<nat>)
    requires |f| >= 19
    ensures Counts(f, f, [])
  {}

  /** The items already passed before position n of the walk, and those still to come. */
  predicate Passed(lens: seq<nat>, n: nat, count: nat, prev: int, done: seq<Item>)
  {
    n <= |lens| && done + Walk(lens, n, count, prev) == Items(lens)
  }

  lemma PassedStart(lens: seq<nat>)
    ensures Passed(lens, 0, 0, -1, [])
  {}

  lemma PassedOn(lens: seq<nat>, n: nat, count: nat, prev: int, done: seq<Item>)
    requires n < |lens| && Passed(lens, n, count, prev, done)
    requires count + 1 < MaxCount(prev, lens[n]) && lens[n] == LenAt(lens, n + 1)
    ensures Passed(lens, n + 1, count + 1, prev, done)
  {}

  lemma PassedRun(lens: seq<nat>, n: nat, count: nat, prev: int, done: seq<Item>)
    requires n < |lens| && Passed(lens, n, count, prev, done)
    requires !(count + 1 < MaxCount(prev, lens[n]) && lens[n] == LenAt(lens, n + 1))
    ensures var run := Run(lens[n], count + 1, prev, MinCount(prev, lens[n]));
      Passed(lens, n + 1, 0, lens[n], done + run) && run + Walk(lens, n + 1, 0, lens[n]) == Walk(lens, n, count, prev)
  {
    var run, rest := Run(lens[n], count + 1, prev, MinCount(prev, lens[n])), Walk(lens, n + 1, 0, lens[n]);
    assert done + (run + rest) == (done + run) + rest;
  }

  lemma PassedAll(lens: seq<nat>, count: nat, prev: int, done: seq<Item>)
    requires Passed(lens, |lens|, count, prev, done)
    ensures done == Items(lens)
  {
    assert done + [] == done;
  }

  /** The limits that the loops keep for the next run. */
  predicate Limits(maxCount: nat, minCount: nat, prev: int, lens: seq<nat>, n: nat)
  {
    minCount >= 3 && (n < |lens| ==> maxCount == MaxCount(prev, lens[n]) && minCount == MinCount(prev, lens[n]))
  }

  lemma LengthsAt(lens: seq<nat>, n: nat)
    requires n <= |lens|
    ensures n < |lens| && Lengths(lens) ==> LenAt(lens, n) == lens[n] <= 15
    ensures n == |lens| ==> LenAt(lens, n) == GUARD
  {}

  /** scan_tree: adds the uses of every bit-length symbol to its frequency. */
  method ScanTree(t: CtTree, maxCode: nat, bl: CtTree)
    requires t.dl != bl.fc && maxCode + 1 < t.dl.Length && Lengths(t.dl[..maxCode + 1])
    requires Room(bl.fc[..], Items(t.dl[..maxCode + 1]))
    modifies t.dl, bl.fc
    ensures t.dl[..] == old(t.dl[..])[maxCode + 1 := GUARD]
    ensures Counts(old(bl.fc[..]), bl.fc[..], Items(old(t.dl[..maxCode + 1])))
  {
    hide Walk, Items, Run, Room, Counts, MaxCount, MinCount, Passed, Lengths, Limits;
    ghost var lens: seq<nat>, f0: seq<nat> := t.dl[..maxCode + 1], bl.fc[..];
    var prevlen: int := -1;
    var nextlen: nat := t.dl[0];
    var n, count, maxCount: nat, minCount: nat := 0, 0, 7, 4;
    if nextlen == 0 { maxCount, minCount := 138, 3; }
    t.dl[maxCode + 1] := GUARD;
    ghost var d: seq<nat> := t.dl[..];
    assert d == old(t.dl[..])[maxCode + 1 := GUARD];
    ghost var done: seq<Item> := [];
    PassedStart(lens);
    RoomSize(f0, Items(lens));
    CountsNothing(f0);
    FirstLimits(lens, maxCount, minCount);
    while n <= maxCode
      invariant n <= |lens| == maxCode + 1 && t.dl[..] == d
      invariant nextlen == LenAt(lens, n) && Limits(maxCount, minCount, prevlen, lens, n)
      invariant Passed(lens, n, count, prevlen, done) && Counts(f0, bl.fc[..], done)
    {
      var curlen := nextlen;
      LengthsAt(lens, n);
      LengthsAt(lens, n + 1);
      nextlen := t.dl[n + 1];
      assert nextlen == d[n + 1] == LenAt(lens, n + 1);
      LimitsAre(maxCount, minCount, prevlen, lens, n);
      count, n := count + 1, n + 1;
      if count < maxCount && curlen == nextlen {
        PassedOn(lens, n - 1, count - 1, prevlen, done);
        LimitsGoOn(maxCount, minCount, prevlen, lens, n);
        continue;
      }
      PassedRun(lens, n - 1, count - 1, prevlen, done);
      ghost var run := Run(curlen, count, prevlen, minCount);
      ghost var g: seq<nat> := bl.fc[..];
      RoomForRun(f0, g, done, run, Walk(lens, n, 0, curlen), Items(lens));
      CountRun(bl, curlen, count, prevlen, minCount);
      CountsJoin(f0, g, bl.fc[..], done, run);
      done := done + run;
      count, prevlen := 0, curlen;
      maxCount, minCount := 7, 4;
      if nextlen == 0 {
        maxCount, minCount := 138, 3;
      } else if curlen == nextlen {
        maxCount, minCount := 6, 3;
      }
      NextLimits(maxCount, minCount, curlen, lens, n);
    }
    PassedAll(lens, count, prevlen, done);
  }

  lemma RoomSize(f: seq<nat>, items: seq<Item>)
    requires Room(f, items)
    ensures |f| >= 19
  {}

  lemma RoomForRun(f: seq<nat>, g: seq<nat>, done: seq<Item>, run: seq<Item>, rest: seq<Item>, all: seq<Item>)
    requires Room(f, all) && Counts(f, g, done) && (done + run) + rest == all
    ensures Room(g, run)
  {
    assert done + (run + rest) == all;
    RoomSplit(f, done, run + rest);
    RoomSplit(g, run, rest);
  }

  lemma FirstLimits(lens: seq<nat>, maxCount: nat, minCount: nat)
    requires |lens| > 0 && maxCount == (if lens[0] == 0 then 138 else 7) && minCount == (if lens[0] == 0 then 3 else 4)
    ensures Limits(maxCount, minCount, -1, lens, 0)
  {}

  lemma LimitsAre(maxCount: nat, minCount: nat, prev: int, lens: seq<nat>, n: nat)
    requires n < |lens| && Limits(maxCount, minCount, prev, lens, n)
    ensures minCount >= 3 && maxCount == MaxCount(prev, lens[n]) && minCount == MinCount(prev, lens[n])
  {}

  lemma LimitsGoOn(maxCount: nat, minCount: nat, prev: int, lens: seq<nat>, n: nat)
    requires 0 < n <= |lens| && Limits(maxCount, minCount, prev, lens, n - 1)
    requires lens[n - 1] == LenAt(lens, n)
    ensures Limits(maxCount, minCount, prev, lens, n)
  {}

  lemma NextLimits(maxCount: nat, minCount: nat, cur: nat, lens: seq<nat>, n: nat)
    requires n <= |lens|
    requires maxCount == if LenAt(lens, n) == 0 then 138 else if cur == LenAt(lens, n) then 6 else 7
    requires minCount == if LenAt(lens, n) == 0 then 3 else if cur == LenAt(lens, n) then 3 else 4
    ensures Limits(maxCount, minCount, cur, lens, n)
  {}

  // ---------- sending the symbols ----------

  lemma PlainItemBits(bl: seq<nat>, i: Item)
    requires ItemCodable(bl, i) && i.sym < 16
    ensures ItemBits(bl, i) == CodeBits(bl, i.sym)
  {
    hide CodeBits;
    assert Lsb(i.extra, 0) == [];
    assert CodeBits(bl, i.sym) + [] == CodeBits(bl, i.sym);
  }

  lemma OneItemBits(bl: seq<nat>, i: Item)
    requires ItemCodable(bl, i)
    ensures ItemsCodable(bl, [i]) && ItemsBits(bl, [i]) == ItemBits(bl, i)
  {
    hide ItemBits;
    assert [i][1..] == [];
    assert ItemsBits(bl, []) == [];
    assert ItemBits(bl, i) + [] == ItemBits(bl, i);
  }

  lemma RepeatBits(bl: seq<nat>, i: Item, n: nat)
    requires ItemCodable(bl, i) && i.sym < 16
    ensures ItemsCodable(bl, Repeat(i, n + 1)) && ItemsCodable(bl, Repeat(i, n))
    ensures ItemsBits(bl, Repeat(i, n + 1)) == CodeBits(bl, i.sym) + ItemsBits(bl, Repeat(i, n))
  {
    hide ItemBits, CodeBits, ItemCodable;
    PlainItemBits(bl, i);
    assert Repeat(i, n + 1)[1..] == Repeat(i, n);
  }

  lemma CodableSplit(bl: seq<nat>, a: seq<Item>, b: seq<Item>)
    requires ItemsCodable(bl, a + b)
    ensures ItemsCodable(bl, a) && ItemsCodable(bl, b) && ItemsBits(bl, a + b) == ItemsBits(bl, a) + ItemsBits(bl, b)
  {
    hide ItemsBits;
    forall i | 0 <= i < |b| ensures ItemCodable(bl, b[i]) { assert b[i] == (a + b)[|a| + i]; }
    forall i | 0 <= i < |a| ensures ItemCodable(bl, a[i]) { assert a[i] == (a + b)[i]; }
    ItemsBitsConcat(bl, a, b);
  }

  lemma NoItemBits(bl: seq<nat>)
    ensures ItemsCodable(bl, []) && ItemsBits(bl, []) == []
  {}

  /** The code of an item and its extra bits. */
  method SendItem(w: Writer, t: CtTree, sym: nat, extra: nat, width: nat, ghost bl: seq<nat>)
    requires w.Valid() && Coded(t, bl) && |bl| <= t.dl.Length && ItemCodable(bl, Item(sym, extra)) && sym >= 16
        && width == ExtraWidth(sym)
    modifies w, w.outbuf
    ensures w.Valid() && w.Sent() == old(w.Sent()) + ItemsBits(bl, [Item(sym, extra)])
  {
    hide Lsb, CodeBits, Pow2;
    OneItemBits(bl, Item(sym, extra));
    Pow2Table();
    SendCode(w, t, sym, bl);
    w.SendBits(extra, width);
    assert old(w.Sent()) + CodeBits(bl, sym) + Lsb(extra, width) == old(w.Sent()) + ItemBits(bl, Item(sym, extra));
  }

  method SendLiterals(w: Writer, t: CtTree, cur: nat, count: nat, ghost bl: seq<nat>)
    requires w.Valid() && Coded(t, bl) && |bl| <= t.dl.Length && ItemsCodable(bl, Repeat(Item(cur, 0), count))
        && cur <= 15 && count > 0
    modifies w, w.outbuf
    ensures w.Valid() && w.Sent() == old(w.Sent()) + ItemsBits(bl, Repeat(Item(cur, 0), count))
  {
    hide *;
    ghost var i := Item(cur, 0);
    LiteralCodable(bl, i, count);
    ghost var goal := w.Sent() + ItemsBits(bl, Repeat(i, count));
    var n := count;
    while n != 0
      invariant 0 <= n <= count && w.Valid() && ItemsCodable(bl, Repeat(i, n))
      invariant w.Sent() + ItemsBits(bl, Repeat(i, n)) == goal
      decreases n
    {
      RepeatBits(bl, i, n - 1);
      ghost var before := w.Sent();
      SendCode(w, t, cur, bl);
      n := n - 1;
      assert before + (CodeBits(bl, cur) + ItemsBits(bl, Repeat(i, n))) == w.Sent() + ItemsBits(bl, Repeat(i, n));
    }
    NoRepeats(i);
    NoItemBits(bl);
    assert w.Sent() + [] == w.Sent();
  }

  lemma NoRepeats(i: Item)
    ensures Repeat(i, 0) == []
  {}

  lemma LiteralCodable(bl: seq<nat>, i: Item, n: nat)
    requires ItemsCodable(bl, Repeat(i, n)) && n > 0
    ensures ItemCodable(bl, i) && i.sym < |bl| && bl[i.sym] > 0
  {
    assert ItemCodable(bl, Repeat(i, n)[0]);
  }

  lemma SingleCodable(bl: seq<nat>, i: Item)
    requires ItemsCodable(bl, [i])
    ensures ItemCodable(bl, i)
  {
    assert ItemCodable(bl, [i][0]);
  }

  lemma PairBits(bl: seq<nat>, i: Item, j: Item)
    requires ItemsCodable(bl, [i, j]) && i.sym < 16
    ensures ItemCodable(bl, i) && ItemCodable(bl, j) && i.sym < |bl| && bl[i.sym] > 0
    ensures ItemsCodable(bl, [j]) && ItemsBits(bl, [i, j]) == CodeBits(bl, i.sym) + ItemsBits(bl, [j])
  {
    hide ItemsBits, CodeBits;
    assert [i, j] == [i] + [j];
    CodableSplit(bl, [i], [j]);
    SingleCodable(bl, i);
    SingleCodable(bl, j);
    OneItemBits(bl, i);
    PlainItemBits(bl, i);
  }

  /** The four forms of a run. */
  lemma RunForms(cur: nat, n: nat, prev: int, minCount: nat)
    requires cur <= 15 && n > 0 && minCount == MinCount(prev, cur)
    ensures Run(cur, n, prev, minCount) ==
      if n < minCount then Repeat(Item(cur, 0), n)
      else if cur != 0 then
        if cur != prev && n >= 4 then [Item(cur, 0), Item(REP_3_6, n - 4)] else [Item(REP_3_6, n - 3)]
      else if n <= 10 then [Item(REPZ_3_10, n - 3)]
      else [Item(REPZ_11_138, n - 11)]
    ensures minCount >= 3 && (cur != 0 && cur != prev ==> minCount == 4)
  {}

  lemma RepeatWidths()
    ensures ExtraWidth(REP_3_6) == 2 && ExtraWidth(REPZ_3_10) == 3 && ExtraWidth(REPZ_11_138) == 7
    ensures REP_3_6 >= 16 && REPZ_3_10 >= 16 && REPZ_11_138 >= 16
  {}

  method SendRun(w: Writer, t: CtTree, cur: nat, n: nat, prev: int, minCount: nat, ghost bl: seq<nat>)
    requires w.Valid() && Coded(t, bl) && |bl| <= t.dl.Length && cur <= 15 && n > 0 && minCount == MinCount(prev, cur)
    requires ItemsCodable(bl, Run(cur, n, prev, minCount))
    modifies w, w.outbuf
    ensures w.Valid() && w.Sent() == old(w.Sent()) + ItemsBits(bl, Run(cur, n, prev, minCount))
  {
    hide *;
    var count := n;
    RunForms(cur, n, prev, minCount);
    RepeatWidths();
    if count < minCount {
      SendLiterals(w, t, cur, count, bl);
      return;
    }
    if cur != 0 {
      if cur != prev {
        PairBits(bl, Item(cur, 0), Item(REP_3_6, n - 4));
        SendCode(w, t, cur, bl);
        count := count - 1;
      }
      SingleCodable(bl, Item(REP_3_6, count - 3));
      ghost var sent := w.Sent();
      SendItem(w, t, REP_3_6, count - 3, 2, bl);
      if cur != prev {
        ghost var a, b := CodeBits(bl, cur), ItemsBits(bl, [Item(REP_3_6, n - 4)]);
        assert (old(w.Sent()) + a) + b == old(w.Sent()) + (a + b);
      }
    } else if count <= 10 {
      SingleCodable(bl, Item(REPZ_3_10, count - 3));
      SendItem(w, t, REPZ_3_10, count - 3, 3, bl);
    } else {
      SingleCodable(bl, Item(REPZ_11_138, count - 11));
      SendItem(w, t, REPZ_11_138, count - 11, 7, bl);
    }
  }

  /** send_tree: sends the run-length form of the code lengths; the guard is already set. */
  method SendTree(w: Writer, t: CtTree, maxCode: nat, bt: CtTree, ghost bl: seq<nat>)
    requires w.Valid() && Coded(bt, bl) && |bl| <= bt.dl.Length
    requires maxCode + 1 < t.dl.Length && t.dl[maxCode + 1] == GUARD && Lengths(t.dl[..maxCode + 1])
    requires ItemsCodable(bl, Items(t.dl[..maxCode + 1]))
    modifies w, w.outbuf
    ensures w.Valid() && w.Sent() == old(w.Sent()) + ItemsBits(bl, Items(t.dl[..maxCode + 1]))
  {
    hide *;
    ghost var lens: seq<nat> := t.dl[..maxCode + 1];
    ghost var sent0 := w.Sent();
    var prevlen: int := -1;
    var nextlen: nat := t.dl[0];
    var n, count, maxCount: nat, minCount: nat := 0, 0, 7, 4;
    if nextlen == 0 { maxCount, minCount := 138, 3; }
    ghost var done: seq<Item> := [];
    LengthsAt(lens, 0);
    PassedStart(lens);
    NoItemBits(bl);
    FirstLimits(lens, maxCount, minCount);
    while n <= maxCode
      invariant n <= |lens| == maxCode + 1 && w.Valid()
      invariant nextlen == LenAt(lens, n) && Limits(maxCount, minCount, prevlen, lens, n)
      invariant Passed(lens, n, count, prevlen, done) && ItemsCodable(bl, done)
      invariant w.Sent() == sent0 + ItemsBits(bl, done)
    {
      var curlen := nextlen;
      LengthsAt(lens, n);
      LengthsAt(lens, n + 1);
      nextlen := t.dl[n + 1];
      assert nextlen == LenAt(lens, n + 1);
      LimitsAre(maxCount, minCount, prevlen, lens, n);
      count, n := count + 1, n + 1;
      if count < maxCount && curlen == nextlen {
        PassedOn(lens, n - 1, count - 1, prevlen, done);
        LimitsGoOn(maxCount, minCount, prevlen, lens, n);
        continue;
      }
      PassedRun(lens, n - 1, count - 1, prevlen, done);
      ghost var run := Run(curlen, count, prevlen, minCount);
      CodableRun(bl, done, run, Walk(lens, n, 0, curlen), Items(lens));
      SendRun(w, bt, curlen, count, prevlen, minCount, bl);
      assert (sent0 + ItemsBits(bl, done)) + ItemsBits(bl, run) == sent0 + (ItemsBits(bl, done) + ItemsBits(bl, run));
      done := done + run;
      count, prevlen := 0, curlen;
      if nextlen == 0 {
        maxCount, minCount := 138, 3;
      } else if curlen == nextlen {
        maxCount, minCount := 6, 3;
      } else {
        maxCount, minCount := 7, 4;
      }
      NextLimits(maxCount, minCount, curlen, lens, n);
    }
    PassedAll(lens, count, prevlen, done);
  }

  lemma CodableRun(bl: seq<nat>, done: seq<Item>, run: seq<Item>, rest: seq<Item>, all: seq<Item>)
    requires ItemsCodable(bl, all) && (done + run) + rest == all
    ensures ItemsCodable(bl, done) && ItemsCodable(bl, run) && ItemsCodable(bl, done + run)
    ensures ItemsBits(bl, done + run) == ItemsBits(bl, done) + ItemsBits(bl, run)
  {
    CodableSplit(bl, done + run, rest);
    CodableSplit(bl, done, run);
  }
}
