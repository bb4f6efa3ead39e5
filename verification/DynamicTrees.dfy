/** What flush_block knows about its trees: the trees built from the frequencies of a
    block code all of its symbols, and opt_len and static_len are exact. */
module DynamicTrees {
  import opened Bits
  import opened Canonical
  import opened RunLength
  import opened Inflater
  import opened EncoderTables
  import opened Blocks
  import opened Merging
  import opened LengthPasses
  import opened Symbols
  import opened TreeBuilder
  import opened TreeCoding
  import opened Costs

  // ---------- unused codes behind the last used one change nothing ----------

  predicate ZerosFrom(lens: seq<nat>, n: nat) {
    n <= |lens| && forall i :: n <= i < |lens| ==> lens[i] == 0
  }

  lemma {:induction false} CountPadded(lens: seq<nat>, n: nat, b: nat)
    requires ZerosFrom(lens, n) && b >= 1
    ensures Count(lens, b) == Count(lens[..n], b)
    decreases |lens|
  {
    if n == |lens| {
      assert lens[..n] == lens;
    } else {
      CountPadded(lens[..|lens| - 1], n, b);
      assert lens[..|lens| - 1][..n] == lens[..n];
    }
  }

  lemma {:induction false} KraftPadded(lens: seq<nat>, n: nat, m: nat)
    requires ZerosFrom(lens, n)
    ensures Kraft(lens, m) == Kraft(lens[..n], m)
    decreases |lens|
  {
    if n == |lens| {
      assert lens[..n] == lens;
    } else {
      KraftPadded(lens[..|lens| - 1], n, m);
      assert lens[..|lens| - 1][..n] == lens[..n];
    }
  }

  lemma {:induction false} FirstCodePadded(lens: seq<nat>, n: nat, b: nat)
    requires ZerosFrom(lens, n)
    ensures FirstCode(lens, b) == FirstCode(lens[..n], b)
  {
    hide Count;
    if b > 0 {
      FirstCodePadded(lens, n, b - 1);
      if b > 1 { CountPadded(lens, n, b - 1); }
    }
  }

  lemma CodeBitsPadded(lens: seq<nat>, n: nat, i: nat)
    requires ZerosFrom(lens, n) && i < n
    ensures CodeBits(lens, i) == CodeBits(lens[..n], i)
  {
    hide Count, FirstCode, Msb;
    FirstCodePadded(lens, n, lens[i]);
    assert lens[..n][..i] == lens[..i];
  }

  lemma CompletePadded(lens: seq<nat>, n: nat, m: nat)
    requires ZerosFrom(lens, n) && Complete(lens[..n], m)
    ensures Complete(lens, m)
  {
    hide Kraft, Pow2;
    KraftPadded(lens, n, m);
    forall i | 0 <= i < |lens| ensures lens[i] <= m {
      if i < n { assert lens[..n][i] <= m; }
    }
  }

  // ---------- a tree that build_tree has built ----------

  lemma BuiltParts(f: seq<nat>, fc: seq<nat>, l: seq<nat>, k: nat, maxCode: nat, max: nat)
    requires Built(f, fc, l, k, maxCode, max)
    ensures 1 <= maxCode < k <= |f| == |fc| == |l|
    ensures Complete(l[..maxCode + 1], max) && l[maxCode] > 0
    ensures ZerosFrom(l[..k], maxCode + 1)
    ensures forall i :: 0 <= i < k && f[i] > 0 ==> i <= maxCode && l[i] > 0
  {
    hide Complete, CodeBits, Value, Pow2;
  }

  lemma BuiltCoded(t: CtTree, f: seq<nat>, k: nat, maxCode: nat, max: nat)
    requires Built(f, t.fc[..], t.dl[..], k, maxCode, max) && max <= 15
    ensures maxCode + 1 <= t.dl.Length && Coded(t, t.dl[..maxCode + 1])
  {
    hide Kraft, CodeBits, Value, Pow2;
    var lens: seq<nat> := t.dl[..maxCode + 1];
    assert Bounded(lens, max);
    forall n | 0 <= n < |lens|
      ensures t.dl[n] == lens[n] && (lens[n] > 0 ==> t.fc[n] == Value(CodeBits(lens, n)) && t.fc[n] < Pow2(lens[n]))
    {
      assert t.fc[..][n] == t.fc[n] && t.dl[..][n] == t.dl[n];
    }
  }

  lemma CodedPadded(t: CtTree, n: nat, k: nat)
    requires n <= k <= t.dl.Length && Coded(t, t.dl[..n]) && ZerosFrom(t.dl[..k], n)
    ensures Coded(t, t.dl[..k])
  {
    hide CodeBits, Value, Pow2;
    var lens: seq<nat> := t.dl[..k];
    assert lens[..n] == t.dl[..n];
    forall i | 0 <= i < k
      ensures t.dl[i] == lens[i] <= 15
      ensures lens[i] > 0 ==> t.fc[i] == Value(CodeBits(lens, i)) && t.fc[i] < Pow2(lens[i])
    {
      assert t.dl[i] == lens[i];
      if i < n {
        assert t.dl[..n][i] <= 15;
        CodeBitsPadded(lens, n, i);
      }
    }
  }

  /** Coded, on the contents of the arrays. */
  predicate CodedSeq(fc: seq<nat>, dl: seq<nat>, lens: seq<nat>)
  {
    && |fc| == |dl| && Bounded(lens, 15)
    && forall n :: 0 <= n < |lens| && n < |dl| ==>
         && dl[n] == lens[n]
         && (lens[n] > 0 ==> fc[n] == Value(CodeBits(lens, n)) && fc[n] < Pow2(lens[n]))
  }

  lemma CodedContents(t: CtTree, lens: seq<nat>)
    ensures Coded(t, lens) <==> CodedSeq(t.fc[..], t.dl[..], lens)
  {
    hide CodeBits, Value, Pow2;
  }

  /** The codes stay when an entry behind them changes. */
  lemma CodedBehind(fc: seq<nat>, dl: seq<nat>, lens: seq<nat>, k: nat, v: nat)
    requires CodedSeq(fc, dl, lens) && |lens| <= k < |dl|
    ensures CodedSeq(fc, dl[k := v], lens)
  {
    hide CodeBits, Value, Pow2;
  }

  lemma {:induction false} CountPositive(syms: seq<nat>, i: nat)
    requires i < |syms|
    ensures Count(syms, syms[i]) > 0
    decreases |syms|
  {
    if i < |syms| - 1 { CountPositive(syms[..|syms| - 1], i); }
  }

  /** Every symbol that was counted has got a code. */
  lemma BuiltCodes(f: seq<nat>, fc: seq<nat>, l: seq<nat>, k: nat, maxCode: nat, max: nat, syms: seq<nat>)
    requires Built(f, fc, l, k, maxCode, max) && TallyOf(f, syms, k) && AllBelow(syms, k)
    ensures k <= |l| && forall i :: 0 <= i < |syms| ==> syms[i] <= maxCode && l[syms[i]] > 0
  {
    hide Count;
    BuiltParts(f, fc, l, k, maxCode, max);
    forall i | 0 <= i < |syms| ensures syms[i] <= maxCode && l[syms[i]] > 0 {
      CountPositive(syms, i);
    }
  }

  // ---------- every token of the block has codes ----------

  predicate AllCoded(lens: seq<nat>, syms: seq<nat>) {
    forall i :: 0 <= i < |syms| ==> syms[i] < |lens| && lens[syms[i]] > 0
  }

  lemma {:induction false} MatchPlace(ts: seq<Token>, i: nat)
    requires i < |ts| && ts[i].Match?
    ensures exists j :: 0 <= j < |Matches(ts)| && Matches(ts)[j] == ts[i]
  {
    if i == 0 {
      assert Matches(ts)[0] == ts[0];
    } else {
      MatchPlace(ts[1..], i - 1);
      var j :| 0 <= j < |Matches(ts[1..])| && Matches(ts[1..])[j] == ts[1..][i - 1];
      assert Matches(ts)[if ts[0].Match? then j + 1 else j] == ts[i];
    }
  }

  lemma TokensCodable(ll: seq<nat>, dl: seq<nat>, ts: seq<Token>)
    requires AllCoded(ll, LitSyms(ts) + [END_BLOCK]) && AllCoded(dl, DistSyms(ts))
    requires forall i :: 0 <= i < |ts| ==> TokenOk(ts[i])
    ensures AllCodable(ll, dl, ts)
  {
    hide LengthCode, DistCode, Matches, TokenOk;
    var s := LitSyms(ts) + [END_BLOCK];
    forall i | 0 <= i < |ts| ensures Codable(ll, dl, ts[i]) {
      assert s[i] == LitSym(ts[i]);
      if ts[i].Match? {
        MatchPlace(ts, i);
        var j :| 0 <= j < |Matches(ts)| && Matches(ts)[j] == ts[i];
        assert DistSyms(ts)[j] == DistCode(ts[i].dist);
      }
    }
    assert s[|ts|] == END_BLOCK;
  }

  /** The fixed codes serve every token. */
  lemma FixedCodable(ts: seq<Token>)
    requires forall i :: 0 <= i < |ts| ==> TokenOk(ts[i])
    ensures AllCodable(FixedLit(), FixedDist(), ts)
  {
    hide LengthCode, DistCode, Matches, TokenOk, LitSym;
  var s, d := LitSyms(ts) + [END_BLOCK], DistSyms(ts);
    forall i | 0 <= i < |s| ensures s[i] < |FixedLit()| && FixedLit()[s[i]] > 0 {}
    forall i | 0 <= i < |d| ensures d[i] < |FixedDist()| && FixedDist()[d[i]] > 0 {}
    TokensCodable(FixedLit(), FixedDist(), ts);
  }

  lemma CodedItems(bl: seq<nat>, items: seq<Item>)
    requires AllCoded(bl, ItemSyms(items)) && forall i :: 0 <= i < |items| ==> ItemOk(items[i])
    ensures ItemsCodable(bl, items)
  {
    hide ItemOk;
    forall i | 0 <= i < |items| ensures ItemCodable(bl, items[i]) {
      assert ItemSyms(items)[i] == items[i].sym;
    }
  }

  lemma AllCodedSplit(lens: seq<nat>, a: seq<nat>, b: seq<nat>)
    requires AllCoded(lens, a + b)
    ensures AllCoded(lens, a) && AllCoded(lens, b)
  {
    forall i | 0 <= i < |a| ensures a[i] < |lens| && lens[a[i]] > 0 { assert a[i] == (a + b)[i]; }
    forall i | 0 <= i < |b| ensures b[i] < |lens| && lens[b[i]] > 0 { assert b[i] == (a + b)[|a| + i]; }
  }

  // ---------- exact block lengths ----------

  /** The bits of the tokens with given code lengths, from the frequencies. */
  lemma TokensExact(fl: seq<nat>, l: seq<nat>, fd: seq<nat>, d: seq<nat>, ll: seq<nat>, dl: seq<nat>, ts: seq<Token>)
    requires AllCodable(ll, dl, ts) && ll <= l && dl <= d && 286 <= |l| && 30 <= |d|
    requires TallyOf(fl, LitSyms(ts) + [END_BLOCK], 286) && TallyOf(fd, DistSyms(ts), 30)
    ensures |TokensBits(ll, dl, ts)| == SymCost(fl, l, EXTRA_LBITS, 257, 286) + SymCost(fd, d, EXTRA_DBITS, 0, 30)
  {
    hide SymsCost, SymCost, SumRange, TallyOf, LitSyms, DistSyms, TokensBits, AllCodable, XBits;
    var s := LitSyms(ts) + [END_BLOCK];
    EndBlockBelow(ll, dl, ts);
    TokensWidth(ll, dl, ts);
    CostFromTally(fl, l, EXTRA_LBITS, 257, 286, s);
    CostFromTally(fd, d, EXTRA_DBITS, 0, 30, DistSyms(ts));
    SymsCostPrefix(ll, l, EXTRA_LBITS, 257, s);
    SymsCostPrefix(dl, d, EXTRA_DBITS, 0, DistSyms(ts));
    SymsCostConcat(ll, EXTRA_LBITS, 257, LitSyms(ts), [END_BLOCK]);
    OneSymCost(ll, EXTRA_LBITS, 257, END_BLOCK);
    ExtraOfLiteral(END_BLOCK);
  }

  lemma EndBlockBelow(ll: seq<nat>, dl: seq<nat>, ts: seq<Token>)
    requires AllCodable(ll, dl, ts)
    ensures END_BLOCK < |ll| && AllBelow(LitSyms(ts) + [END_BLOCK], |ll|) && AllBelow(DistSyms(ts), |dl|)
    ensures AllBelow(LitSyms(ts) + [END_BLOCK], 286) && AllBelow(DistSyms(ts), 30)
  {
    hide Codable, LitSym;
    CodableBelow(ll, dl, ts);
  }

  /** The run-length forms of two sets of code lengths, from the frequencies. */
  lemma ItemsExact(fb: seq<nat>, l: seq<nat>, bl: seq<nat>, a: seq<Item>, b: seq<Item>)
    requires ItemsCodable(bl, a) && ItemsCodable(bl, b) && |bl| == 19 && bl <= l
    requires TallyOf(fb, ItemSyms(a) + ItemSyms(b), 19)
    ensures |ItemsBits(bl, a)| + |ItemsBits(bl, b)| == SymCost(fb, l, EXTRA_BLBITS, 0, 19)
  {
    hide SymsCost, SymCost, SumRange, TallyOf, ItemSyms, ItemsBits, ItemsCodable, XBits;
    ItemsWidth(bl, a);
    ItemsWidth(bl, b);
    SymsCostConcat(bl, EXTRA_BLBITS, 0, ItemSyms(a), ItemSyms(b));
    SymsCostPrefix(bl, l, EXTRA_BLBITS, 0, ItemSyms(a) + ItemSyms(b));
    CostFromTally(fb, l, EXTRA_BLBITS, 0, 19, ItemSyms(a) + ItemSyms(b));
  }

  lemma HeaderWidth(ll: seq<nat>, dl: seq<nat>, bl: seq<nat>, n: nat)
    requires HeaderOk(ll, dl, bl, n)
    ensures |HeaderBits(ll, dl, bl, n)| == 14 + 3 * n + |ItemsBits(bl, Items(ll))| + |ItemsBits(bl, Items(dl))|
  {
    hide Complete, Lsb, ItemsBits, Items, BlLensBits, ItemsCodable;
    BlLensWidth(bl, n, 0);
  }

  /** No wrap-around: the codes have at most 15 bits and the extra fields at most 13. */
  lemma CostBelow(f: seq<nat>, l: seq<nat>, extra: seq<nat>, base: nat, n: nat, syms: seq<nat>)
    requires n <= |l| && AllBelow(syms, n) && TallyOf(f, syms, n)
    requires (forall i :: 0 <= i < n ==> l[i] <= 15) && (forall i :: 0 <= i < |extra| ==> extra[i] <= 13)
    ensures SymCost(f, l, extra, base, n) <= 28 * |syms|
  {
    hide SymsCost, SymCost, SumRange, TallyOf;
    CostFromTally(f, l, extra, base, n, syms);
    SymsCostBound(l[..n], extra, base, syms, 28);
    SymsCostPrefix(l[..n], l, extra, base, syms);
  }

  lemma {:induction false} SymCostPrefix(f: seq<nat>, l: seq<nat>, m: seq<nat>, extra: seq<nat>, base: nat, n: nat)
    requires n <= |f| && n <= |l| && l <= m
    ensures SymCost(f, l, extra, base, n) == SymCost(f, m, extra, base, n)
  {
    if n > 0 { SymCostPrefix(f, l, m, extra, base, n - 1); }
  }

  lemma SymsBelow(ts: seq<Token>)
    ensures AllBelow(LitSyms(ts) + [END_BLOCK], 286) && AllBelow(DistSyms(ts), 30)
    ensures (LitSyms(ts) + [END_BLOCK])[|ts|] == 256
  {
    hide LitSym;
  }

  lemma ExtraWidths()
    ensures forall i :: 0 <= i < |EXTRA_LBITS| ==> EXTRA_LBITS[i] <= 13
    ensures forall i :: 0 <= i < |EXTRA_DBITS| ==> EXTRA_DBITS[i] <= 13
    ensures forall i :: 0 <= i < |EXTRA_BLBITS| ==> EXTRA_BLBITS[i] <= 13
  {}

  lemma BuiltBounded(f: seq<nat>, fc: seq<nat>, l: seq<nat>, k: nat, maxCode: nat, max: nat)
    requires Built(f, fc, l, k, maxCode, max) && max <= 15
    ensures k <= |l| && forall i :: 0 <= i < k ==> l[i] <= 15
  {
    hide Kraft, CodeBits, Value, Pow2;
    forall i | 0 <= i < k ensures l[i] <= 15 {
      if i <= maxCode { assert l[i] == l[..maxCode + 1][i]; }
    }
  }

  /** The trees built from the frequencies of tokens code all of them, in exactly the
      number of bits that the frequencies tell. */
  lemma TokenTrees(fl: seq<nat>, lfc: seq<nat>, l: seq<nat>, fd: seq<nat>, dfc: seq<nat>, d: seq<nat>,
                   maxL: nat, maxD: nat, ts: seq<Token>)
    requires TallyOf(fl, LitSyms(ts) + [END_BLOCK], 286) && TallyOf(fd, DistSyms(ts), 30) && |ts| < 0x8000
    requires forall i :: 0 <= i < |ts| ==> TokenOk(ts[i])
    requires Built(fl, lfc, l, 286, maxL, 15) && Built(fd, dfc, d, 30, maxD, 15)
    ensures 286 <= |fl| && 30 <= |fd| && 256 <= maxL < 286 <= |l| && maxD < 30 <= |d|
    ensures var ll, dl := l[..maxL + 1], d[..maxD + 1];
      && Complete(ll, 15) && Complete(dl, 15) && AllCodable(ll, dl, ts)
      && |TokensBits(ll, dl, ts)| == SymCost(fl, l, EXTRA_LBITS, 257, 286) + SymCost(fd, d, EXTRA_DBITS, 0, 30)
      && |TokensBits(ll, dl, ts)| <= 0x20_0000
  {
    hide TallyOf, Built, SymCost, SumRange, Complete, AllCodable, TokensBits, LitSyms, DistSyms, TokenOk, XBits,
        EXTRA_LBITS, EXTRA_DBITS, AllBelow, AllCoded;
    var s, t := LitSyms(ts) + [END_BLOCK], DistSyms(ts);
    BuiltParts(fl, lfc, l, 286, maxL, 15);
    BuiltParts(fd, dfc, d, 30, maxD, 15);
    SymsBelow(ts);
    BuiltCodes(fl, lfc, l, 286, maxL, 15, s);
    BuiltCodes(fd, dfc, d, 30, maxD, 15, t);
    var ll, dl := l[..maxL + 1], d[..maxD + 1];
    AllCodedPrefix(l, maxL + 1, s);
    AllCodedPrefix(d, maxD + 1, t);
    TokensCodable(ll, dl, ts);
    TokensExact(fl, l, fd, d, ll, dl, ts);
    ExtraWidths();
    BuiltBounded(fl, lfc, l, 286, maxL, 15);
    BuiltBounded(fd, dfc, d, 30, maxD, 15);
    CostBelow(fl, l, EXTRA_LBITS, 257, 286, s);
    CostBelow(fd, d, EXTRA_DBITS, 0, 30, t);
  }

  lemma AllCodedPrefix(l: seq<nat>, n: nat, s: seq<nat>)
    requires n <= |l| && forall i :: 0 <= i < |s| ==> s[i] < n && l[s[i]] > 0
    ensures AllCoded(l[..n], s)
  {}

  lemma FixedPrefix()
    ensures FixedDist()[..30] <= FixedDist() && |FixedDist()| == 32 && |FixedLit()| == 288
    ensures forall i :: 0 <= i < 288 ==> FixedLit()[i] <= 15
    ensures forall i :: 0 <= i < 32 ==> FixedDist()[i] <= 15
  {}

  /** The same for the fixed codes. */
  lemma FixedTokens(fl: seq<nat>, fd: seq<nat>, ts: seq<Token>)
    requires TallyOf(fl, LitSyms(ts) + [END_BLOCK], 286) && TallyOf(fd, DistSyms(ts), 30) && |ts| < 0x8000
    requires forall i :: 0 <= i < |ts| ==> TokenOk(ts[i])
    ensures 286 <= |fl| && 30 <= |fd| && AllCodable(FixedLit(), FixedDist(), ts)
    ensures |TokensBits(FixedLit(), FixedDist(), ts)|
      == SymCost(fl, FixedLit(), EXTRA_LBITS, 257, 286) + SymCost(fd, FixedDist()[..30], EXTRA_DBITS, 0, 30)
    ensures |TokensBits(FixedLit(), FixedDist(), ts)| <= 0x20_0000
  {
    hide SymCost, SumRange, AllCodable, TokensBits, LitSyms, DistSyms, TokenOk, XBits, EXTRA_LBITS, EXTRA_DBITS,
        AllBelow, FixedLit, FixedDist, Count;
    FixedCodable(ts);
    FixedPrefix();
    SymsBelow(ts);
    TokensExact(fl, FixedLit(), fd, FixedDist(), FixedLit(), FixedDist(), ts);
    SymCostPrefix(fd, FixedDist()[..30], FixedDist(), EXTRA_DBITS, 0, 30);
    ExtraWidths();
    CostBelow(fl, FixedLit(), EXTRA_LBITS, 257, 286, LitSyms(ts) + [END_BLOCK]);
    CostBelow(fd, FixedDist(), EXTRA_DBITS, 0, 30, DistSyms(ts));
  }

  // ---------- the bit-length tree ----------

  predicate AllZero(s: seq<nat>) {
    forall i :: 0 <= i < |s| ==> s[i] == 0
  }

  /** Repeats alone spell only zeros. */
  lemma {:induction false} RepeatsSpellZeros(items: seq<Item>, acc: seq<nat>, all: seq<nat>)
    requires Spells(items, acc, all) && AllZero(acc)
    requires forall i :: 0 <= i < |items| ==> items[i].sym >= 16
    ensures AllZero(all)
  {
    if items != [] {
      assert items[0].sym >= 16;
      RepeatsSpellZeros(items[1..], Apply(items[0], acc), all);
    }
  }

  /** The lengths of a literal tree always send a length itself. */
  lemma SomeLiteral(lens: seq<nat>, k: nat)
    requires Lengths(lens) && k < |lens| && lens[k] > 0
    ensures exists i :: 0 <= i < |Items(lens)| && Items(lens)[i].sym < 16
  {
    hide Items, Spells;
    ItemsSpell(lens, []);
    assert [] + lens == lens;
    if forall i :: 0 <= i < |Items(lens)| ==> Items(lens)[i].sym >= 16 {
      RepeatsSpellZeros(Items(lens), [], lens);
    }
  }

  lemma WalkItems(lens: seq<nat>)
    requires Lengths(lens)
    ensures |Items(lens)| <= |lens| && AllBelow(ItemSyms(Items(lens)), 19)
    ensures forall i :: 0 <= i < |Items(lens)| ==> ItemOk(Items(lens)[i])
  {
    hide Items, Spells;
    ItemsSpell(lens, []);
    ItemsFew(Items(lens), [], [] + lens);
    SpelledItemsOk(Items(lens), [], [] + lens);
  }

  /** The frequencies that the two scans leave. */
  lemma ScansTally(f0: seq<nat>, f1: seq<nat>, f2: seq<nat>, a: seq<Item>, b: seq<Item>)
    requires TallyOf(f0, [], 19) && Counts(f0, f1, a) && Counts(f1, f2, b)
    ensures TallyOf(f2, ItemSyms(a) + ItemSyms(b), 19)
  {
    hide SymCount, Count, ItemSyms;
    NoneCount();
    forall c | 0 <= c < 19 ensures f2[c] == Count(ItemSyms(a) + ItemSyms(b), c) {
      SymCountIsCount(a, c);
      SymCountIsCount(b, c);
      CountConcat(ItemSyms(a), ItemSyms(b), c);
    }
  }

  lemma NoneCount()
    ensures forall c: nat :: Count([], c) == 0
  {}

  lemma ScanRoom(f0: seq<nat>, f1: seq<nat>, a: seq<Item>, b: seq<Item>)
    requires TallyOf(f0, [], 19) && |a| <= 286 && |b| <= 286
    ensures Room(f0, a)
    ensures Counts(f0, f1, a) ==> Room(f1, b)
  {
    hide SymCount, Count, ItemSyms;
    NoneCount();
    forall c: nat ensures SymCount(a, c) <= |a| && SymCount(b, c) <= |b| {
      SymCountIsCount(a, c);
      SymCountIsCount(b, c);
      CountAtMost(ItemSyms(a), c);
      CountAtMost(ItemSyms(b), c);
    }
  }

  lemma {:induction false} CountAtMost(s: seq<nat>, b: nat)
    ensures Count(s, b) <= |s|
    decreases |s|
  {
    if s != [] { CountAtMost(s[..|s| - 1], b); }
  }

  /** The bit-length tree codes everything that send_tree sends for both trees, in the
      number of bits that the frequencies tell. */
  lemma BlTree(fb: seq<nat>, fc: seq<nat>, l: seq<nat>, maxB: nat, ll: seq<nat>, dl: seq<nat>)
    requires Lengths(ll) && Lengths(dl) && |ll| <= 286 && |dl| <= 30
    requires TallyOf(fb, ItemSyms(Items(ll)) + ItemSyms(Items(dl)), 19) && Built(fb, fc, l, 19, maxB, 7)
    requires 256 < |ll| && ll[256] > 0
    ensures 19 <= |l| && 19 <= |fb| && Complete(l[..19], 7)
    ensures ItemsCodable(l[..19], Items(ll)) && ItemsCodable(l[..19], Items(dl))
    ensures |ItemsBits(l[..19], Items(ll))| + |ItemsBits(l[..19], Items(dl))|
        == SymCost(fb, l, EXTRA_BLBITS, 0, 19) <= 0x4000
    ensures exists c :: 0 <= c < 16 && l[c] > 0
  {
    hide TallyOf, Built, SymCost, SumRange, Complete, XBits, Items, ItemSyms, ItemsBits, EXTRA_BLBITS, AllBelow,
        ItemsCodable;
    var a, b := Items(ll), Items(dl);
    WalkItems(ll);
    WalkItems(dl);
    BuiltParts(fb, fc, l, 19, maxB, 7);
    CompleteShort(l, maxB, 7);
    BelowJoin(ItemSyms(a), ItemSyms(b), 19);
    BuiltCodes(fb, fc, l, 19, maxB, 7, ItemSyms(a) + ItemSyms(b));
    AllCodedPrefix(l, 19, ItemSyms(a) + ItemSyms(b));
    AllCodedSplit(l[..19], ItemSyms(a), ItemSyms(b));
    CodedItems(l[..19], a);
    CodedItems(l[..19], b);
    ItemsExact(fb, l, l[..19], a, b);
    ExtraWidths();
    BuiltBounded(fb, fc, l, 19, maxB, 7);
    CostBelow(fb, l, EXTRA_BLBITS, 0, 19, ItemSyms(a) + ItemSyms(b));
    SomeLiteral(ll, 256);
    var i :| 0 <= i < |a| && a[i].sym < 16;
    SymOfItem(a, i);
    assert l[ItemSyms(a)[i]] > 0;
  }

  lemma CompleteShort(l: seq<nat>, maxB: nat, max: nat)
    requires maxB < 19 <= |l| && ZerosFrom(l[..19], maxB + 1) && Complete(l[..maxB + 1], max)
    ensures Complete(l[..19], max)
  {
    hide Complete;
    assert l[..19][..maxB + 1] == l[..maxB + 1];
    CompletePadded(l[..19], maxB + 1, max);
  }

  lemma BelowJoin(a: seq<nat>, b: seq<nat>, n: nat)
    requires AllBelow(a, n) && AllBelow(b, n)
    ensures AllBelow(a + b, n)
  {}

  lemma SymOfItem(items: seq<Item>, i: nat)
    requires i < |items|
    ensures ItemSyms(items)[i] == items[i].sym
  {}

  /** Lengths themselves stand behind the first three places of the order. */
  lemma RankOfLength(c: nat)
    requires c < 16
    ensures 3 <= Rank(c) < 19 && Order(Rank(c)) == c
  {}
}
