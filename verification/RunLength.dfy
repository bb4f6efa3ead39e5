/** The run-length form in which the code lengths of a dynamic block are sent:
    the decoder of section 3.2.7 of RFC 1951, and the walk over the lengths that
    both scan_tree and send_tree make. */
module RunLength {

  const REP_3_6 := 16      // repeat the previous length 3 to 6 times, 2 extra bits
  const REPZ_3_10 := 17    // repeat a zero length 3 to 10 times, 3 extra bits
  const REPZ_11_138 := 18  // repeat a zero length 11 to 138 times, 7 extra bits
  const GUARD := 0xffff    // what tree[max_code + 1].Len is set to

  datatype Item = Item(sym: nat, extra: nat)

  function ExtraWidth(sym: nat): nat {
    if sym == REP_3_6 then 2 else if sym == REPZ_3_10 then 3 else if sym == REPZ_11_138 then 7 else 0
  }

  predicate ItemOk(i: Item) {
    && i.sym <= 18
    && (i.sym == REP_3_6 ==> i.extra < 4)
    && (i.sym == REPZ_3_10 ==> i.extra < 8)
    && (i.sym == REPZ_11_138 ==> i.extra < 128)
    && (i.sym < 16 ==> i.extra == 0)
  }

  function Repeat<T>(x: T, n: nat): (r: seq<T>)
    ensures |r| == n
  {
    seq(n, _ => x)
  }

  // ---------- decoding ----------

  /** One item applied to the lengths read so far; a repeat needs a previous length. */
  function Apply(i: Item, acc: seq<nat>): (r: seq<nat>)
    requires ItemOk(i) && (i.sym == REP_3_6 ==> acc != [])
    ensures acc < r
  {
    if i.sym == REP_3_6 then acc + Repeat(acc[|acc| - 1], 3 + i.extra)
    else if i.sym == REPZ_3_10 then acc + Repeat(0, 3 + i.extra)
    else if i.sym == REPZ_11_138 then acc + Repeat(0, 11 + i.extra)
    else acc + [i.sym]
  }

  /** items, read after acc, spell out the lengths all. */
  predicate Spells(items: seq<Item>, acc: seq<nat>, all: seq<nat>)
  {
    if items == [] then acc == all
    else
      && ItemOk(items[0]) && (items[0].sym == REP_3_6 ==> acc != [])
      && Spells(items[1..], Apply(items[0], acc), all)
  }

  lemma {:induction false} SpellsConcat(a: seq<Item>, b: seq<Item>, acc: seq<nat>, mid: seq<nat>, all: seq<nat>)
    requires Spells(a, acc, mid) && Spells(b, mid, all)
    ensures Spells(a + b, acc, all)
  {
    if a == [] {
      assert a + b == b;
    } else {
      assert (a + b)[1..] == a[1..] + b;
      SpellsConcat(a[1..], b, Apply(a[0], acc), mid, all);
    }
  }

  // ---------- encoding ----------

  /** What is sent for a run of count equal lengths cur that follows the length prev. */
  function Run(cur: nat, count: nat, prev: int, minCount: nat): (r: seq<Item>)
    requires count > 0 && minCount >= 3
  {
    if count < minCount then Repeat(Item(cur, 0), count)
    else if cur != 0 then
      if cur != prev then [Item(cur, 0), Item(REP_3_6, if count >= 4 then count - 4 else 0)]
      else [Item(REP_3_6, count - 3)]
    else if count <= 10 then [Item(REPZ_3_10, count - 3)]
    else [Item(REPZ_11_138, if count >= 11 then count - 11 else 0)]
  }

  /** The limits that apply to the run that starts with next after a run of cur. */
  function MaxCount(cur: int, next: nat): nat {
    if next == 0 then 138 else if cur == next then 6 else 7
  }

  function MinCount(cur: int, next: nat): (r: nat)
    ensures 3 <= r
  {
    if next == 0 then 3 else if cur == next then 3 else 4
  }

  function LenAt(lens: seq<nat>, n: nat): nat {
    if n < |lens| then lens[n] else GUARD
  }

  /** The loop of scan_tree and send_tree from position n on, with count lengths
      of the current run already passed and prev the last length sent. */
  function Walk(lens: seq<nat>, n: nat, count: nat, prev: int): seq<Item>
    requires n <= |lens|
    decreases |lens| - n
  {
    if n == |lens| then []
    else
      var cur, next := lens[n], LenAt(lens, n + 1);
      if count + 1 < MaxCount(prev, cur) && cur == next then Walk(lens, n + 1, count + 1, prev)
      else Run(cur, count + 1, prev, MinCount(prev, cur)) + Walk(lens, n + 1, 0, cur)
  }

  /** Everything send_tree sends for an array of code lengths. */
  function Items(lens: seq<nat>): seq<Item> { Walk(lens, 0, 0, -1) }

  // ---------- the walk spells the lengths ----------

  predicate Lengths(lens: seq<nat>) {
    forall i :: 0 <= i < |lens| ==> lens[i] <= 15
  }

  lemma {:induction false} SpellsLiterals(cur: nat, count: nat, acc: seq<nat>)
    requires cur <= 15
    ensures Spells(Repeat(Item(cur, 0), count), acc, acc + Repeat(cur, count))
  {
    if count == 0 {
      assert acc + Repeat(cur, 0) == acc;
    } else {
      SpellsLiterals(cur, count - 1, acc + [cur]);
      assert Repeat(Item(cur, 0), count)[1..] == Repeat(Item(cur, 0), count - 1);
      assert acc + [cur] + Repeat(cur, count - 1) == acc + Repeat(cur, count);
    }
  }

  lemma SpellsOne(i: Item, acc: seq<nat>)
    requires ItemOk(i) && (i.sym == REP_3_6 ==> acc != [])
    ensures Spells([i], acc, Apply(i, acc))
  {
    assert [i][1..] == [];
  }

  /** A run within its limits spells exactly count copies of its length. */
  lemma RunSpells(cur: nat, count: nat, prev: int, acc: seq<nat>)
    requires cur <= 15 && 0 < count <= MaxCount(prev, cur)
    requires prev >= 0 ==> acc != [] && acc[|acc| - 1] == prev
    ensures Spells(Run(cur, count, prev, MinCount(prev, cur)), acc, acc + Repeat(cur, count))
  {
    if count < MinCount(prev, cur) {
      SpellsLiterals(cur, count, acc);
    } else if cur != 0 && cur != prev {
      SpellsPair(cur, count, acc);
    } else {
      hide Spells, Repeat;
      SpellsOne(Run(cur, count, prev, MinCount(prev, cur))[0], acc);
    }
  }

  lemma SpellsPair(cur: nat, count: nat, acc: seq<nat>)
    requires cur <= 15 && 4 <= count <= 7
    ensures Spells([Item(cur, 0), Item(REP_3_6, count - 4)], acc, acc + Repeat(cur, count))
  {
    var one, two := Item(cur, 0), Item(REP_3_6, count - 4);
    SpellsOne(two, acc + [cur]);
    assert acc + [cur] + Repeat(cur, count - 1) == acc + Repeat(cur, count);
    assert [one, two][1..] == [two];
  }

  predicate InRun(lens: seq<nat>, n: nat, count: nat, prev: int, acc: seq<nat>)
  {
    && n <= |lens| && count <= n
    && (n == |lens| ==> count == 0)
    && (n < |lens| ==> count < MaxCount(prev, lens[n]))
    && (forall i :: n - count <= i < n ==> lens[i] == lens[n])
    && (prev >= 0 ==> acc != [] && acc[|acc| - 1] == prev)
  }

  lemma {:induction false} WalkSpells(lens: seq<nat>, n: nat, count: nat, prev: int, acc: seq<nat>)
    requires count <= n <= |lens| && Lengths(lens) && InRun(lens, n, count, prev, acc)
    ensures Spells(Walk(lens, n, count, prev), acc, acc + lens[n - count..])
    decreases |lens| - n
  {
    hide *;
    if n == |lens| {
      WalkEnds(lens, count, prev, acc);
    } else {
      var cur := lens[n];
      WalkStep(lens, n, count, prev);
      LengthAt(lens, n);
      if count + 1 < MaxCount(prev, cur) && cur == LenAt(lens, n + 1) {
        RunGoesOn(lens, n, count, prev, acc);
        assert n + 1 - (count + 1) == n - count;
        WalkSpells(lens, n + 1, count + 1, prev, acc);
      } else {
        var run := Repeat(cur, count + 1);
        RunEnds(lens, n, count, prev, acc);
        WalkSpells(lens, n + 1, 0, cur, acc + run);
        RunSpells(cur, count + 1, prev, acc);
        var tail := lens[n + 1..];
        assert n + 1 - 0 == n + 1;
        assert (acc + run) + tail == acc + (run + tail);
        SpellsConcat(Run(cur, count + 1, prev, MinCount(prev, cur)), Walk(lens, n + 1, 0, cur),
                     acc, acc + run, acc + run + tail);
      }
    }
  }

  lemma WalkEnds(lens: seq<nat>, count: nat, prev: int, acc: seq<nat>)
    requires InRun(lens, |lens|, count, prev, acc)
    ensures count == 0 && Spells(Walk(lens, |lens|, count, prev), acc, acc + lens[|lens| - count..])
  {
    assert acc + lens[|lens|..] == acc;
  }

  lemma WalkStep(lens: seq<nat>, n: nat, count: nat, prev: int)
    requires n < |lens|
    ensures var cur := lens[n];
      Walk(lens, n, count, prev) ==
      if count + 1 < MaxCount(prev, cur) && cur == LenAt(lens, n + 1) then Walk(lens, n + 1, count + 1, prev)
      else Run(cur, count + 1, prev, MinCount(prev, cur)) + Walk(lens, n + 1, 0, cur)
  {}

  lemma LengthAt(lens: seq<nat>, n: nat)
    requires Lengths(lens) && n < |lens|
    ensures lens[n] <= 15
  {}

  lemma RunGoesOn(lens: seq<nat>, n: nat, count: nat, prev: int, acc: seq<nat>)
    requires Lengths(lens) && n < |lens| && InRun(lens, n, count, prev, acc)
    requires count + 1 < MaxCount(prev, lens[n]) && lens[n] == LenAt(lens, n + 1)
    ensures InRun(lens, n + 1, count + 1, prev, acc)
  {}

  lemma RunEnds(lens: seq<nat>, n: nat, count: nat, prev: int, acc: seq<nat>)
    requires n < |lens| && InRun(lens, n, count, prev, acc)
    requires !(count + 1 < MaxCount(prev, lens[n]) && lens[n] == LenAt(lens, n + 1))
    ensures count + 1 <= MaxCount(prev, lens[n]) && (prev >= 0 ==> acc != [] && acc[|acc| - 1] == prev)
    ensures InRun(lens, n + 1, 0, lens[n], acc + Repeat(lens[n], count + 1)) && n - count >= 0
    ensures lens[n - count..] == Repeat(lens[n], count + 1) + lens[n + 1..]
  {
    var run := Repeat(lens[n], count + 1);
    assert (acc + run)[|acc + run| - 1] == run[count];
  }

  /** The decoder, started after any lengths before, gets the lengths back exactly. */
  lemma ItemsSpell(lens: seq<nat>, before: seq<nat>)
    requires Lengths(lens)
    ensures Spells(Items(lens), before, before + lens)
  {
    WalkSpells(lens, 0, 0, -1, before);
    assert lens[0..] == lens;
  }

  /** Symbols used, with multiplicity. */
  function SymCount(items: seq<Item>, sym: nat): nat
  {
    if items == [] then 0
    else (if items[0].sym == sym then 1 else 0) + SymCount(items[1..], sym)
  }

  lemma {:induction false} SymCountConcat(a: seq<Item>, b: seq<Item>, sym: nat)
    ensures SymCount(a + b, sym) == SymCount(a, sym) + SymCount(b, sym)
  {
    if a == [] {
      assert a + b == b;
    } else {
      assert (a + b)[1..] == a[1..] + b;
      SymCountConcat(a[1..], b, sym);
    }
  }

  lemma {:induction false} SymCountRepeat(cur: nat, n: nat, sym: nat)
    ensures SymCount(Repeat(Item(cur, 0), n), sym) == if sym == cur then n else 0
  {
    if n > 0 {
      SymCountRepeat(cur, n - 1, sym);
      assert Repeat(Item(cur, 0), n)[1..] == Repeat(Item(cur, 0), n - 1);
    }
  }

  /** Every symbol sent is a bit-length symbol with an extra field that fits. */
  lemma {:induction false} SpelledItemsOk(items: seq<Item>, acc: seq<nat>, all: seq<nat>)
    requires Spells(items, acc, all)
    ensures forall i :: 0 <= i < |items| ==> ItemOk(items[i])
  {
    if items != [] {
      SpelledItemsOk(items[1..], Apply(items[0], acc), all);
      forall i | 0 <= i < |items| ensures ItemOk(items[i]) {
        if i > 0 { assert items[i] == items[1..][i - 1]; }
      }
    }
  }
}
