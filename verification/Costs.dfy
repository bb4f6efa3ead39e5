/** The exact price of a block: the bits of tokens and of run-length items, counted
    from the frequencies of their symbols. */
module Costs {
  import opened Canonical
  import opened RunLength
  import opened Inflater
  import opened Blocks
  import opened EncoderTables
  import opened Merging
  import opened LengthPasses
  import opened Symbols

  // ---------- symbols in any order, and their frequencies ----------

  predicate AllBelow(syms: seq<nat>, n: nat) {
    forall i :: 0 <= i < |syms| ==> syms[i] < n
  }

  /** The bits that the symbols take with their extra bits. */
  function SymsCost(l: seq<nat>, extra: seq<nat>, base: nat, syms: seq<nat>): nat
    requires AllBelow(syms, |l|)
  {
    if syms == [] then 0
    else
      var c := syms[|syms| - 1];
      SymsCost(l, extra, base, syms[..|syms| - 1]) + (l[c] + XBits(extra, base, c))
  }

  /** f counts the symbols. */
  predicate TallyOf(f: seq<nat>, syms: seq<nat>, n: nat)
  {
    n <= |f| && forall c :: 0 <= c < n ==> f[c] == Count(syms, c)
  }

  lemma TallySnoc(f: seq<nat>, syms: seq<nat>, n: nat, c: nat)
    requires TallyOf(f, syms, n) && c < |f|
    ensures TallyOf(f[c := f[c] + 1], syms + [c], n)
  {
    hide Count;
    forall x | 0 <= x < n ensures f[c := f[c] + 1][x] == Count(syms + [c], x) {
      SnocCount(syms, c, x);
    }
  }

  lemma TallyLast(f: seq<nat>, syms: seq<nat>, n: nat)
    requires TallyOf(f, syms, n) && syms != [] && AllBelow(syms, n)
    ensures var c := syms[|syms| - 1]; f[c] > 0 && TallyOf(f[c := f[c] - 1], syms[..|syms| - 1], n)
  {
    hide Count;
    var c, rest := syms[|syms| - 1], syms[..|syms| - 1];
    assert rest + [c] == syms;
    forall x: nat ensures Count(syms, x) == Count(rest, x) + (if x == c then 1 else 0) { SnocCount(rest, c, x); }
  }

  lemma {:induction false} OneMore(f: seq<nat>, l: seq<nat>, extra: seq<nat>, base: nat, n: nat, c: nat)
    requires n <= |f| && n <= |l| && c < |f|
    ensures SymCost(f[c := f[c] + 1], l, extra, base, n)
      == SymCost(f, l, extra, base, n) + (if c < n then l[c] + XBits(extra, base, c) else 0)
    ensures SumRange(f[c := f[c] + 1], 0, n) == SumRange(f, 0, n) + (if c < n then 1 else 0)
  {
    hide XBits;
    if n > 0 {
      OneMore(f, l, extra, base, n - 1, c);
      if c == n - 1 {
        var x := l[c] + XBits(extra, base, c);
        assert (f[c] + 1) * x == f[c] * x + x;
      }
    }
  }

  lemma {:induction false} NoneTallied(f: seq<nat>, l: seq<nat>, extra: seq<nat>, base: nat, n: nat)
    requires n <= |f| && n <= |l| && forall c :: 0 <= c < n ==> f[c] == 0
    ensures SymCost(f, l, extra, base, n) == 0 && SumRange(f, 0, n) == 0
  {
    if n > 0 { NoneTallied(f, l, extra, base, n - 1); }
  }

  /** The sum over the frequencies is the sum over the symbols themselves. */
  lemma {:induction false} CostFromTally(f: seq<nat>, l: seq<nat>, extra: seq<nat>, base: nat, n: nat, syms: seq<nat>)
    requires n <= |l| && AllBelow(syms, n) && TallyOf(f, syms, n)
    ensures SymCost(f, l, extra, base, n) == SymsCost(l, extra, base, syms)
    ensures SumRange(f, 0, n) == |syms|
    decreases |syms|
  {
    hide SymCost, SumRange, XBits;
    if syms == [] {
      NoneTallied(f, l, extra, base, n);
    } else {
      var c := syms[|syms| - 1];
      TallyLast(f, syms, n);
      var g: seq<nat> := f[c := f[c] - 1];
      CostFromTally(g, l, extra, base, n, syms[..|syms| - 1]);
      OneMore(g, l, extra, base, n, c);
      assert g[c := g[c] + 1] == f;
    }
  }

  lemma {:induction false} SymsCostConcat(l: seq<nat>, extra: seq<nat>, base: nat, a: seq<nat>, b: seq<nat>)
    requires AllBelow(a, |l|) && AllBelow(b, |l|)
    ensures AllBelow(a + b, |l|)
    ensures SymsCost(l, extra, base, a + b) == SymsCost(l, extra, base, a) + SymsCost(l, extra, base, b)
    decreases |b|
  {
    hide XBits;
    if b == [] {
      assert a + b == a;
    } else {
      SymsCostConcat(l, extra, base, a, b[..|b| - 1]);
      assert (a + b)[..|a + b| - 1] == a + b[..|b| - 1];
    }
  }

  lemma OneSymCost(l: seq<nat>, extra: seq<nat>, base: nat, c: nat)
    requires c < |l|
    ensures SymsCost(l, extra, base, [c]) == l[c] + XBits(extra, base, c)
  {
    assert [c][..0] == [];
    assert SymsCost(l, extra, base, []) == 0;
  }

  lemma NoSymCost(l: seq<nat>, extra: seq<nat>, base: nat)
    ensures SymsCost(l, extra, base, []) == 0
  {}

  /** Lengths of symbols that do not occur do not matter. */
  lemma {:induction false} SymsCostPrefix(l: seq<nat>, m: seq<nat>, extra: seq<nat>, base: nat, syms: seq<nat>)
    requires l <= m && AllBelow(syms, |l|)
    ensures SymsCost(l, extra, base, syms) == SymsCost(m, extra, base, syms)
    decreases |syms|
  {
    if syms != [] { SymsCostPrefix(l, m, extra, base, syms[..|syms| - 1]); }
  }

  lemma {:induction false} SymsCostBound(l: seq<nat>, extra: seq<nat>, base: nat, syms: seq<nat>, k: nat)
    requires AllBelow(syms, |l|) && forall c :: 0 <= c < |l| ==> l[c] + XBits(extra, base, c) <= k
    ensures SymsCost(l, extra, base, syms) <= k * |syms|
    decreases |syms|
  {
    hide XBits;
    if syms != [] {
      SymsCostBound(l, extra, base, syms[..|syms| - 1], k);
      assert k * |syms| == k * (|syms| - 1) + k;
    }
  }

  // ---------- the symbols of tokens ----------

  /** The literal or length symbol of a token. */
  function LitSym(t: Token): nat {
    match t
    case Literal(b) => b
    case Match(len, dist) => 257 + LengthCode(len)
  }

  function LitSyms(ts: seq<Token>): (r: seq<nat>)
    ensures |r| == |ts| && AllBelow(r, 286)
  {
    seq(|ts|, i requires 0 <= i < |ts| => LitSym(ts[i]))
  }

  /** The matches among the tokens. */
  function Matches(ts: seq<Token>): (r: seq<Token>)
    ensures |r| <= |ts| && forall i :: 0 <= i < |r| ==> r[i].Match?
  {
    if ts == [] then [] else (if ts[0].Match? then [ts[0]] else []) + Matches(ts[1..])
  }

  lemma {:induction false} MatchesConcat(a: seq<Token>, b: seq<Token>)
    ensures Matches(a + b) == Matches(a) + Matches(b)
  {
    if a == [] {
      assert a + b == b;
    } else {
      assert (a + b)[1..] == a[1..] + b;
      MatchesConcat(a[1..], b);
    }
  }

  function DistSyms(ts: seq<Token>): (r: seq<nat>)
    ensures |r| <= |ts| && AllBelow(r, 30)
  {
    var m := Matches(ts);
    seq(|m|, i requires 0 <= i < |m| => DistCode(m[i].dist))
  }

  lemma DistSymsConcat(a: seq<Token>, b: seq<Token>)
    ensures DistSyms(a + b) == DistSyms(a) + DistSyms(b)
  {
    hide DistCode;
    MatchesConcat(a, b);
  }

  lemma MatchOf(t: Token)
    ensures Matches([t]) == if t.Match? then [t] else []
    ensures DistSyms([t]) == if t.Match? then [DistCode(t.dist)] else []
  {
    hide DistCode;
    assert [t][1..] == [];
    assert Matches([]) == [];
  }

  lemma ExtraOfLength(c: nat)
    requires c < 29
    ensures XBits(EXTRA_LBITS, 257, 257 + c) == LengthExtra(c)
  {}

  lemma ExtraOfLiteral(c: nat)
    requires c <= 256
    ensures XBits(EXTRA_LBITS, 257, c) == 0
  {}

  lemma ExtraOfDist(c: nat)
    requires c < 30
    ensures XBits(EXTRA_DBITS, 0, c) == DistExtra(c)
  {}

  lemma CodableBelow(ll: seq<nat>, dl: seq<nat>, ts: seq<Token>)
    requires AllCodable(ll, dl, ts)
    ensures AllBelow(LitSyms(ts), |ll|) && AllBelow(DistSyms(ts), |dl|) && 256 < |ll|
  {
    MatchesAmong(ts);
  }

  lemma {:induction false} MatchesAmong(ts: seq<Token>)
    ensures forall i :: 0 <= i < |Matches(ts)| ==> Matches(ts)[i] in ts
  {
    if ts != [] { MatchesAmong(ts[1..]); }
  }

  lemma TokenWidth(ll: seq<nat>, dl: seq<nat>, t: Token)
    requires Codable(ll, dl, t)
    ensures AllBelow([LitSym(t)], |ll|) && AllBelow(DistSyms([t]), |dl|)
    ensures |TokenBits(ll, dl, t)|
      == SymsCost(ll, EXTRA_LBITS, 257, [LitSym(t)]) + SymsCost(dl, EXTRA_DBITS, 0, DistSyms([t]))
  {
    hide LengthCode, DistCode, CodeBits, SymsCost, XBits, LengthExtra, DistExtra, TokenOk, LengthBits, DistBits,
        Matches;
    MatchOf(t);
    OneSymCost(ll, EXTRA_LBITS, 257, LitSym(t));
    match t
    case Literal(b) =>
      ExtraOfLiteral(b);
      NoSymCost(dl, EXTRA_DBITS, 0);
    case Match(len, dist) =>
      ExtraOfLength(LengthCode(len));
      ExtraOfDist(DistCode(dist));
      LengthWidth(ll, len);
      DistWidth(dl, dist);
      OneSymCost(dl, EXTRA_DBITS, 0, DistCode(dist));
  }

  lemma LengthWidth(ll: seq<nat>, len: nat)
    requires 257 + LengthCode(len) < |ll|
    ensures |LengthBits(ll, len)| == ll[257 + LengthCode(len)] + LengthExtra(LengthCode(len))
  {
    hide LengthCode, CodeBits, LengthExtra, LengthBase;
  }

  lemma DistWidth(dl: seq<nat>, dist: nat)
    requires DistCode(dist) < |dl|
    ensures |DistBits(dl, dist)| == dl[DistCode(dist)] + DistExtra(DistCode(dist))
  {
    hide DistCode, CodeBits, DistExtra, DistBase;
  }

  /** The bits of tokens and the end-of-block symbol. */
  lemma {:induction false} TokensWidth(ll: seq<nat>, dl: seq<nat>, ts: seq<Token>)
    requires AllCodable(ll, dl, ts)
    ensures AllBelow(LitSyms(ts), |ll|) && AllBelow(DistSyms(ts), |dl|)
    ensures |TokensBits(ll, dl, ts)|
      == SymsCost(ll, EXTRA_LBITS, 257, LitSyms(ts)) + ll[END_BLOCK] + SymsCost(dl, EXTRA_DBITS, 0, DistSyms(ts))
    decreases |ts|
  {
    hide CodeBits, SymsCost, TokenBits, DistSyms, LitSym;
    CodableBelow(ll, dl, ts);
    if ts == [] {
      NoSymCost(ll, EXTRA_LBITS, 257);
      NoSymCost(dl, EXTRA_DBITS, 0);
      assert LitSyms(ts) == [];
      NoDistSyms();
    } else {
      var rest := ts[1..];
      AllCodableRest(ll, dl, ts);
      TokensWidth(ll, dl, rest);
      TokenWidth(ll, dl, ts[0]);
      assert ts == [ts[0]] + rest;
      DistSymsConcat([ts[0]], rest);
      assert LitSyms(ts) == [LitSym(ts[0])] + LitSyms(rest);
      SymsCostConcat(ll, EXTRA_LBITS, 257, [LitSym(ts[0])], LitSyms(rest));
      SymsCostConcat(dl, EXTRA_DBITS, 0, DistSyms([ts[0]]), DistSyms(rest));
    }
  }

  lemma NoDistSyms()
    ensures DistSyms([]) == []
  {}

  /** The upper bound of ct_tally for the compressed bits: eight for every token, and five and
      the extra bits for every distance. */
  function Estimate(ts: seq<Token>): nat {
    if ts == [] then 0
    else
      var t := ts[|ts| - 1];
      Estimate(ts[..|ts| - 1]) + 8 + (if t.Match? then 5 + DistExtra(DistCode(t.dist)) else 0)
  }

  lemma {:induction false} EstimateOfSyms(ts: seq<Token>)
    ensures 8 * |ts| + SymsCost(FixedDist(), EXTRA_DBITS, 0, DistSyms(ts)) == Estimate(ts) <= 26 * |ts|
    decreases |ts|
  {
    hide SymsCost, DistSyms, DistCode, FixedDist, EXTRA_DBITS, XBits, DistExtra;
    if ts == [] {
      NoDistSyms();
      NoSymCost(FixedDist(), EXTRA_DBITS, 0);
    } else {
      var t, rest := ts[|ts| - 1], ts[..|ts| - 1];
      EstimateOfSyms(rest);
      assert rest + [t] == ts;
      DistSymsConcat(rest, [t]);
      SymsCostConcat(FixedDist(), EXTRA_DBITS, 0, DistSyms(rest), DistSyms([t]));
      OneDistance(t);
    }
  }

  lemma OneDistance(t: Token)
    ensures SymsCost(FixedDist(), EXTRA_DBITS, 0, DistSyms([t]))
      == if t.Match? then 5 + DistExtra(DistCode(t.dist)) else 0
  {
    hide SymsCost, DistCode, EXTRA_DBITS, XBits, DistExtra;
    MatchOf(t);
    if t.Match? {
      var c := DistCode(t.dist);
      assert DistSyms([t]) == [c];
      OneSymCost(FixedDist(), EXTRA_DBITS, 0, c);
      ExtraOfDist(c);
    } else {
      assert DistSyms([t]) == [];
      NoSymCost(FixedDist(), EXTRA_DBITS, 0);
    }
  }

  lemma EstimateFromTally(fd: seq<nat>, ts: seq<Token>)
    requires TallyOf(fd, DistSyms(ts), 30)
    ensures 30 <= |fd| && 8 * |ts| + SymCost(fd, FixedDist(), EXTRA_DBITS, 0, 30) == Estimate(ts) <= 26 * |ts|
  {
    hide SymsCost, SymCost, DistSyms, EXTRA_DBITS, Estimate, FixedDist;
    CostFromTally(fd, FixedDist(), EXTRA_DBITS, 0, 30, DistSyms(ts));
    EstimateOfSyms(ts);
  }

  lemma AllCodableRest(ll: seq<nat>, dl: seq<nat>, ts: seq<Token>)
    requires AllCodable(ll, dl, ts) && ts != []
    ensures Codable(ll, dl, ts[0]) && AllCodable(ll, dl, ts[1..])
  {
    hide Codable;
  }

  // ---------- the symbols of items ----------

  function ItemSyms(items: seq<Item>): (r: seq<nat>)
    ensures |r| == |items|
  {
    seq(|items|, i requires 0 <= i < |items| => items[i].sym)
  }

  lemma {:induction false} SymCountIsCount(items: seq<Item>, s: nat)
    ensures SymCount(items, s) == Count(ItemSyms(items), s)
  {
    if items != [] {
      SymCountIsCount(items[1..], s);
      CountConcat([items[0].sym], ItemSyms(items[1..]), s);
      assert [items[0].sym] + ItemSyms(items[1..]) == ItemSyms(items);
      assert [items[0].sym][..0] == [];
      assert Count([], s) == 0;
    }
  }

  lemma ExtraOfItem(c: nat)
    requires c <= 18
    ensures XBits(EXTRA_BLBITS, 0, c) == ExtraWidth(c)
  {}

  lemma {:induction false} ItemsWidth(bl: seq<nat>, items: seq<Item>)
    requires ItemsCodable(bl, items)
    ensures AllBelow(ItemSyms(items), |bl|)
    ensures |ItemsBits(bl, items)| == SymsCost(bl, EXTRA_BLBITS, 0, ItemSyms(items))
    decreases |items|
  {
    hide CodeBits, SymsCost, XBits, ExtraWidth;
    if items == [] {
      NoSymCost(bl, EXTRA_BLBITS, 0);
    } else {
      var i, rest := items[0], items[1..];
      ItemsWidth(bl, rest);
      ExtraOfItem(i.sym);
      OneSymCost(bl, EXTRA_BLBITS, 0, i.sym);
      SymsCostConcat(bl, EXTRA_BLBITS, 0, [i.sym], ItemSyms(rest));
      assert ItemSyms(items) == [i.sym] + ItemSyms(rest);
    }
  }

  /** A walk never sends more symbols than there are lengths. */
  lemma {:induction false} ItemsFew(items: seq<Item>, acc: seq<nat>, all: seq<nat>)
    requires Spells(items, acc, all)
    ensures |acc| + |items| <= |all|
  {
    if items != [] { ItemsFew(items[1..], Apply(items[0], acc), all); }
  }
}
