/** The bits of a DEFLATE block, and the proof that the reference decoder reads every
    well-formed block back. */
module Blocks {
  import opened Bits
  import opened Canonical
  import opened RunLength
  import opened Inflater

  // ---------- tokens ----------

  /** Every symbol the token needs has a code. */
  predicate Codable(ll: seq<nat>, dl: seq<nat>, t: Token)
  {
    match t
    case Literal(b) => b < |ll| && ll[b] > 0
    case Match(len, dist) =>
      && TokenOk(t)
      && 257 + LengthCode(len) < |ll| && ll[257 + LengthCode(len)] > 0
      && DistCode(dist) < |dl| && dl[DistCode(dist)] > 0
  }

  function LengthBits(ll: seq<nat>, len: nat): seq<bool>
    requires 257 + LengthCode(len) < |ll|
  {
    var c := LengthCode(len);
    CodeBits(ll, 257 + c) + Lsb(if len >= LengthBase(c) then len - LengthBase(c) else 0, LengthExtra(c))
  }

  function DistBits(dl: seq<nat>, dist: nat): seq<bool>
    requires DistCode(dist) < |dl|
  {
    var c := DistCode(dist);
    CodeBits(dl, c) + Lsb(if dist >= DistBase(c) then dist - DistBase(c) else 0, DistExtra(c))
  }

  function TokenBits(ll: seq<nat>, dl: seq<nat>, t: Token): seq<bool>
    requires Codable(ll, dl, t)
  {
    match t
    case Literal(b) => CodeBits(ll, b)
    case Match(len, dist) => LengthBits(ll, len) + DistBits(dl, dist)
  }

  predicate AllCodable(ll: seq<nat>, dl: seq<nat>, ts: seq<Token>)
  {
    && (forall i :: 0 <= i < |ts| ==> Codable(ll, dl, ts[i]))
    && END_BLOCK < |ll| && ll[END_BLOCK] > 0
  }

  /** The tokens followed by the end-of-block symbol. */
  function TokensBits(ll: seq<nat>, dl: seq<nat>, ts: seq<Token>): seq<bool>
    requires AllCodable(ll, dl, ts)
  {
    if ts == [] then CodeBits(ll, END_BLOCK)
    else TokenBits(ll, dl, ts[0]) + TokensBits(ll, dl, ts[1..])
  }

  lemma ReadsField(s: seq<bool>, p: nat, v: nat, n: nat)
    requires v < Pow2(n) && At(s, p, Lsb(v, n))
    ensures ReadBits(s, p, n) == Some((v, p + n))
  {
    ValueOfLsb(v, n);
  }

  lemma ReadsLength(ll: seq<nat>, s: seq<bool>, p: nat, len: nat)
    requires Complete(ll, 15) && MIN_MATCH <= len <= MAX_MATCH
    requires 257 + LengthCode(len) < |ll| && ll[257 + LengthCode(len)] > 0
    requires At(s, p, LengthBits(ll, len))
    ensures var c := LengthCode(len); var q := p + ll[257 + c];
      && DecodeSymbol(ll, s, p) == Some((257 + c, q))
      && ReadLength(s, q, c) == Some((len, p + |LengthBits(ll, len)|))
  {
    hide Lsb, Value, Pow2, At, ReadBits, LengthCode, LengthBase, LengthExtra, CodeBits, Complete, DecodeSymbol;
    MatchFits(len, 1);
    var c := LengthCode(len);
    var x, w := len - LengthBase(c), LengthExtra(c);
    AtSplit(s, p, CodeBits(ll, 257 + c), Lsb(x, w));
    DecodesSymbol(ll, 15, s, p, 257 + c);
    ReadsField(s, p + ll[257 + c], x, w);
  }

  lemma ReadsDistance(dl: seq<nat>, s: seq<bool>, p: nat, dist: nat)
    requires Complete(dl, 15) && 1 <= dist <= 0x8000
    requires DistCode(dist) < |dl| && dl[DistCode(dist)] > 0
    requires At(s, p, DistBits(dl, dist))
    ensures ReadDistance(dl, s, p) == Some((dist, p + |DistBits(dl, dist)|))
  {
    hide Lsb, Value, Pow2, At, ReadBits, DistCode, DistBase, DistExtra, CodeBits, Complete, DecodeSymbol;
    MatchFits(3, dist);
    var d := DistCode(dist);
    var y, w := dist - DistBase(d), DistExtra(d);
    AtSplit(s, p, CodeBits(dl, d), Lsb(y, w));
    DecodesSymbol(dl, 15, s, p, d);
    ReadsField(s, p + dl[d], y, w);
  }

  /** The two codes of a match and their extra bits are read back as its length and distance. */
  lemma ReadsMatch(ll: seq<nat>, dl: seq<nat>, s: seq<bool>, p: nat, len: nat, dist: nat, hist: seq<byte>)
    requires Complete(ll, 15) && Complete(dl, 15) && p <= |s|
    requires Codable(ll, dl, Match(len, dist)) && 1 <= dist <= |hist|
    requires At(s, p, TokenBits(ll, dl, Match(len, dist)))
    ensures var q := p + |TokenBits(ll, dl, Match(len, dist))|;
      q <= |s| && ReadTokens(ll, dl, s, p, hist) == ReadTokens(ll, dl, s, q, CopyBack(hist, dist, len))
  {
    hide LengthBits, DistBits, LengthCode, DistCode, Complete, DecodeSymbol, ReadLength, ReadDistance, CopyBack;
    AtSplit(s, p, LengthBits(ll, len), DistBits(dl, dist));
    ReadsLength(ll, s, p, len);
    ReadsDistance(dl, s, p + |LengthBits(ll, len)|, dist);
  }

  lemma MatchFits(len: nat, dist: nat)
    requires TokenOk(Match(len, dist))
    ensures LengthFits(len, LengthCode(len)) && DistFits(dist, DistCode(dist))
  {
    Pow2Table();
    LengthCodeFits(len, LENGTH_CODES - 1);
    DistCodeFits(dist, D_CODES - 1);
  }

  lemma AtEnd(s: seq<bool>, p: nat, e: seq<bool>)
    requires At(s, p, e)
    ensures p + |e| <= |s|
  {}

  lemma ReadsToken(ll: seq<nat>, dl: seq<nat>, s: seq<bool>, p: nat, t: Token, hist: seq<byte>)
    requires Complete(ll, 15) && Complete(dl, 15) && p <= |s|
    requires Codable(ll, dl, t) && Reaches(t, hist)
    requires At(s, p, TokenBits(ll, dl, t))
    ensures var q := p + |TokenBits(ll, dl, t)|;
      q <= |s| && ReadTokens(ll, dl, s, p, hist) == ReadTokens(ll, dl, s, q, ExpandToken(t, hist))
  {
    hide At, CodeBits, Complete, DecodeSymbol, LengthBits, DistBits, LengthCode, DistCode, ReadLength, ReadDistance,
        CopyBack;
    match t
    case Literal(b) =>
      DecodesSymbol(ll, 15, s, p, b);
      AtEnd(s, p, CodeBits(ll, b));
    case Match(len, dist) => ReadsMatch(ll, dl, s, p, len, dist, hist);
  }

  /** The decoder turns the bits of the tokens into the output they produce. */
  lemma {:induction false} ReadsTokens(ll: seq<nat>, dl: seq<nat>, s: seq<bool>, p: nat, ts: seq<Token>,
                                       hist: seq<byte>, all: seq<byte>)
    requires Complete(ll, 15) && Complete(dl, 15) && AllCodable(ll, dl, ts) && p <= |s|
    requires Produces(ts, hist, all)
    requires At(s, p, TokensBits(ll, dl, ts))
    ensures ReadTokens(ll, dl, s, p, hist) == Some((all, p + |TokensBits(ll, dl, ts)|))
    decreases |ts|
  {
    hide TokenBits, CodeBits, Complete, At, Codable, ExpandToken, DecodeSymbol, ReadLength, ReadDistance, CopyBack,
        TokenOk, Reaches;
    if ts == [] {
      DecodesSymbol(ll, 15, s, p, END_BLOCK);
    } else {
      hide ReadTokens;
      var a := TokenBits(ll, dl, ts[0]);
      AtSplit(s, p, a, TokensBits(ll, dl, ts[1..]));
      ReadsToken(ll, dl, s, p, ts[0], hist);
      ReadsTokens(ll, dl, s, p + |a|, ts[1..], ExpandToken(ts[0], hist), all);
    }
  }

  // ---------- the header of a dynamic block ----------

  predicate ItemCodable(bl: seq<nat>, i: Item)
  {
    ItemOk(i) && i.sym < |bl| && bl[i.sym] > 0
  }

  function ItemBits(bl: seq<nat>, i: Item): seq<bool>
    requires ItemCodable(bl, i)
  {
    CodeBits(bl, i.sym) + Lsb(i.extra, ExtraWidth(i.sym))
  }

  predicate ItemsCodable(bl: seq<nat>, items: seq<Item>)
  {
    forall i :: 0 <= i < |items| ==> ItemCodable(bl, items[i])
  }

  function ItemsBits(bl: seq<nat>, items: seq<Item>): seq<bool>
    requires ItemsCodable(bl, items)
  {
    if items == [] then [] else ItemBits(bl, items[0]) + ItemsBits(bl, items[1..])
  }

  lemma {:induction false} ItemsBitsConcat(bl: seq<nat>, a: seq<Item>, b: seq<Item>)
    requires ItemsCodable(bl, a) && ItemsCodable(bl, b)
    ensures ItemsCodable(bl, a + b)
    ensures ItemsBits(bl, a + b) == ItemsBits(bl, a) + ItemsBits(bl, b)
    decreases |a|
  {
    if a == [] {
      assert a + b == b;
    } else {
      assert (a + b)[1..] == a[1..] + b;
      ItemsBitsConcat(bl, a[1..], b);
      hide ItemBits;
      var x := ItemBits(bl, a[0]);
      assert x + (ItemsBits(bl, a[1..]) + ItemsBits(bl, b)) == x + ItemsBits(bl, a[1..]) + ItemsBits(bl, b);
    }
  }

  lemma {:induction false} SpellingGrows(items: seq<Item>, acc: seq<nat>, all: seq<nat>)
    requires Spells(items, acc, all)
    ensures acc <= all && (items != [] ==> |acc| < |all|)
  {
    if items != [] {
      SpellingGrows(items[1..], Apply(items[0], acc), all);
    }
  }

  /** The decoder gets back the code lengths the items spell. */
  lemma {:induction false} ReadsLens(bl: seq<nat>, s: seq<bool>, p: nat, items: seq<Item>, acc: seq<nat>, all: seq<nat>)
    requires Complete(bl, 7) && ItemsCodable(bl, items) && p <= |s|
    requires Spells(items, acc, all) && At(s, p, ItemsBits(bl, items))
    ensures ReadLens(bl, s, p, |all|, acc) == Some((all, p + |ItemsBits(bl, items)|))
    decreases |items|
  {
    hide At, Complete, CodeBits, DecodeSymbol, Apply, ReadBits, Lsb, Pow2, Value;
    SpellingGrows(items, acc, all);
    if items != [] {
      var i := items[0];
      var w := ExtraWidth(i.sym);
      AtSplit(s, p, ItemBits(bl, i), ItemsBits(bl, items[1..]));
      AtSplit(s, p, CodeBits(bl, i.sym), Lsb(i.extra, w));
      DecodesSymbol(bl, 7, s, p, i.sym);
      Pow2Table();
      ReadsField(s, p + bl[i.sym], i.extra, w);
      AtEnd(s, p, ItemBits(bl, i));
      ReadsLens(bl, s, p + bl[i.sym] + w, items[1..], Apply(i, acc), all);
    }
  }

  function BlLensBits(bl: seq<nat>, n: nat, rank: nat): seq<bool>
    requires rank <= n <= 19 && |bl| == 19
    decreases n - rank
  {
    if rank == n then [] else Lsb(bl[Order(rank)], 3) + BlLensBits(bl, n, rank + 1)
  }

  /** lens agrees with bl on the symbols of the first rank places of the order and is 0 elsewhere. */
  predicate PartOf(lens: seq<nat>, bl: seq<nat>, rank: nat)
    requires |lens| == |bl| == 19 && rank <= 19
  {
    && (forall i :: 0 <= i < rank ==> lens[Order(i)] == bl[Order(i)])
    && (forall i :: rank <= i < 19 ==> lens[Order(i)] == 0)
  }

  /** The place of symbol v in the order. */
  function Rank(v: nat): nat
    requires v < 19
  {
    [3, 17, 15, 13, 11, 9, 7, 5, 4, 6, 8, 10, 12, 14, 16, 18, 0, 1, 2][v]
  }

  lemma OrderIsPermutation()
    ensures forall i, j :: 0 <= i < j < 19 ==> Order(i) != Order(j)
    ensures forall v :: 0 <= v < 19 ==> Rank(v) < 19 && Order(Rank(v)) == v
  {}

  lemma {:induction false} ReadsBlLens(s: seq<bool>, p: nat, bl: seq<nat>, n: nat, rank: nat, lens: seq<nat>)
    requires rank <= n <= 19 && |lens| == |bl| == 19 && Bounded(bl, 7) && p <= |s|
    requires PartOf(lens, bl, rank) && At(s, p, BlLensBits(bl, n, rank))
    requires forall i :: n <= i < 19 ==> bl[Order(i)] == 0
    ensures ReadBlLens(s, p, n, rank, lens) == Some((bl, p + 3 * (n - rank)))
    decreases n - rank
  {
    hide Order, Rank, Lsb, Pow2, At, Value, ReadBits;
    OrderIsPermutation();
    if rank == n {
      forall v | 0 <= v < 19 ensures lens[v] == bl[v] {
        var i := Rank(v);
        assert lens[Order(i)] == bl[Order(i)];
      }
      assert lens == bl;
    } else {
      var v := bl[Order(rank)];
      AtSplit(s, p, Lsb(v, 3), BlLensBits(bl, n, rank + 1));
      AtEnd(s, p, Lsb(v, 3));
      assert v < Pow2(3) by { Pow2Table(); }
      ReadsField(s, p, v, 3);
      ReadsBlLens(s, p + 3, bl, n, rank + 1, lens[Order(rank) := v]);
    }
  }

  // ---------- blocks ----------

  datatype Block =
    | Stored(data: seq<byte>)
    | Fixed(tokens: seq<Token>)
    | Dynamic(ll: seq<nat>, dl: seq<nat>, bl: seq<nat>, blCodes: nat, tokens: seq<Token>)

  predicate HeaderOk(ll: seq<nat>, dl: seq<nat>, bl: seq<nat>, blCodes: nat)
  {
    && 257 <= |ll| <= 286 && 1 <= |dl| <= 30 && |bl| == 19 && 4 <= blCodes <= 19
    && Complete(ll, 15) && Complete(dl, 15) && Complete(bl, 7) && ll[END_BLOCK] > 0
    && ItemsCodable(bl, Items(ll)) && ItemsCodable(bl, Items(dl))
    && (forall i :: blCodes <= i < 19 ==> bl[Order(i)] == 0)
  }

  function HeaderBits(ll: seq<nat>, dl: seq<nat>, bl: seq<nat>, blCodes: nat): seq<bool>
    requires HeaderOk(ll, dl, bl, blCodes)
  {
    Lsb(|ll| - 257, 5) + (Lsb(|dl| - 1, 5) + (Lsb(blCodes - 4, 4)
      + (BlLensBits(bl, blCodes, 0) + (ItemsBits(bl, Items(ll)) + ItemsBits(bl, Items(dl))))))
  }

  /** The code lengths a decoder needs are all in the header. */
  lemma ReadsCodes(s: seq<bool>, p: nat, ll: seq<nat>, dl: seq<nat>, bl: seq<nat>, blCodes: nat)
    requires HeaderOk(ll, dl, bl, blCodes) && p <= |s|
    requires At(s, p, HeaderBits(ll, dl, bl, blCodes))
    ensures ReadCodes(s, p) == Some((Codes(ll, dl), p + |HeaderBits(ll, dl, bl, blCodes)|))
  {
    hide Lsb, Items, Spells, Complete, ItemsCodable, ItemsBits, BlLensBits, Pow2, At, ReadBits, ReadLens, ReadBlLens,
        Order, PartOf, Lengths, Bounded;
    Pow2Table();
    var t5, t6 := ItemsBits(bl, Items(ll)), ItemsBits(bl, Items(dl));
    var t4 := BlLensBits(bl, blCodes, 0) + (t5 + t6);
    var t3 := Lsb(blCodes - 4, 4) + t4;
    AtSplit(s, p, Lsb(|ll| - 257, 5), Lsb(|dl| - 1, 5) + t3);
    ReadsField(s, p, |ll| - 257, 5);
    AtSplit(s, p + 5, Lsb(|dl| - 1, 5), t3);
    ReadsField(s, p + 5, |dl| - 1, 5);
    AtSplit(s, p + 10, Lsb(blCodes - 4, 4), t4);
    ReadsField(s, p + 10, blCodes - 4, 4);
    AtSplit(s, p + 14, BlLensBits(bl, blCodes, 0), t5 + t6);
    CompleteBounded(bl, 7);
    NothingReadYet(bl);
    ReadsBlLens(s, p + 14, bl, blCodes, 0, Repeat(0, 19));
    BlLensWidth(bl, blCodes, 0);
    var p4 := p + 14 + 3 * blCodes;
    ItemsBitsConcat(bl, Items(ll), Items(dl));
    LengthsOfComplete(ll);
    LengthsOfComplete(dl);
    ItemsSpell(ll, []);
    ItemsSpell(dl, [] + ll);
    SpellsConcat(Items(ll), Items(dl), [], [] + ll, [] + ll + dl);
    ReadsLens(bl, s, p4, Items(ll) + Items(dl), [], [] + ll + dl);
    assert ([] + ll + dl)[..|ll|] == ll && ([] + ll + dl)[|ll|..] == dl;
  }

  lemma NothingReadYet(bl: seq<nat>)
    requires |bl| == 19
    ensures PartOf(Repeat(0, 19), bl, 0)
  {
    OrderIsPermutation();
  }

  lemma CompleteBounded(lens: seq<nat>, m: nat)
    requires Complete(lens, m)
    ensures Bounded(lens, m)
  {}

  lemma LengthsOfComplete(lens: seq<nat>)
    requires Complete(lens, 15)
    ensures Lengths(lens)
  {}

  lemma {:induction false} BlLensWidth(bl: seq<nat>, n: nat, rank: nat)
    requires rank <= n <= 19 && |bl| == 19
    ensures |BlLensBits(bl, n, rank)| == 3 * (n - rank)
    decreases n - rank
  {
    if rank < n { BlLensWidth(bl, n, rank + 1); }
  }

  /** The output of the block, read after hist, is all. */
  predicate BlockOk(b: Block, hist: seq<byte>, all: seq<byte>)
  {
    match b
    case Stored(data) => |data| < 0x1_0000 && all == hist + data
    case Fixed(ts) => AllCodable(FixedLit(), FixedDist(), ts) && Produces(ts, hist, all)
    case Dynamic(ll, dl, bl, n, ts) => HeaderOk(ll, dl, bl, n) && AllCodable(ll, dl, ts) && Produces(ts, hist, all)
  }

  predicate Encodable(b: Block)
  {
    match b
    case Stored(data) => |data| < 0x1_0000
    case Fixed(ts) => AllCodable(FixedLit(), FixedDist(), ts)
    case Dynamic(ll, dl, bl, n, ts) => HeaderOk(ll, dl, bl, n) && AllCodable(ll, dl, ts)
  }

  function TypeOf(b: Block): nat {
    if b.Stored? then 0 else if b.Fixed? then 1 else 2
  }

  /** What follows the three header bits of a block whose body starts at position p. */
  function BodyBits(b: Block, p: nat): seq<bool>
    requires Encodable(b)
  {
    match b
    case Stored(data) =>
      Lsb(0, Padding(p)) + (Lsb(|data|, 16) + Lsb(0xffff - |data|, 16) + BitsOf(data))
    case Fixed(ts) => TokensBits(FixedLit(), FixedDist(), ts)
    case Dynamic(ll, dl, bl, n, ts) => HeaderBits(ll, dl, bl, n) + TokensBits(ll, dl, ts)
  }

  function BlockBits(b: Block, final: bool, p: nat): seq<bool>
    requires Encodable(b)
  {
    Lsb(2 * TypeOf(b) + (if final then 1 else 0), 3) + BodyBits(b, p + 3)
  }

  lemma NoBytes()
    ensures BitsOf([]) == []
  {}

  lemma {:induction false} ReadsRaw(s: seq<bool>, p: nat, data: seq<byte>, hist: seq<byte>)
    requires p <= |s| && At(s, p, BitsOf(data))
    ensures ReadRaw(s, p, |data|, hist) == Some((hist + data, p + 8 * |data|))
    decreases |data|
  {
    hide Lsb, Value, At, ReadBits, Pow2;
    if data == [] {
      assert hist + data == hist;
    } else {
      hide BitsOf;
      var rest := data[1..];
      assert data == [data[0]] + rest;
      BitsOfConcat([data[0]], rest);
      BitsOfSnoc([], data[0]);
      assert BitsOf([]) == [] by { NoBytes(); }
      assert [] + [data[0]] == [data[0]] && BitsOf([]) + Lsb(data[0], 8) == Lsb(data[0], 8);
      AtSplit(s, p, Lsb(data[0], 8), BitsOf(rest));
      assert data[0] < Pow2(8) by { Pow2Table(); }
      ReadsField(s, p, data[0], 8);
      AtEnd(s, p, Lsb(data[0], 8));
      ReadsRaw(s, p + 8, rest, hist + [data[0]]);
      assert hist + [data[0]] + rest == hist + data;
    }
  }

  lemma ReadsStored(s: seq<bool>, p: nat, data: seq<byte>, hist: seq<byte>)
    requires p <= |s| && |data| < 0x1_0000 && At(s, p, BodyBits(Stored(data), p))
    ensures ReadStored(s, p, hist) == Some((hist + data, p + |BodyBits(Stored(data), p)|))
  {
    hide Lsb, Pow2, BitsOf, ReadRaw, At, ReadBits, Value;
    Pow2Table();
    var len := |data|;
    var t2 := Lsb(len, 16) + Lsb(0xffff - len, 16);
    AtSplit(s, p, Lsb(0, Padding(p)), t2 + BitsOf(data));
    var p0 := p + Padding(p);
    AtSplit(s, p0, t2, BitsOf(data));
    AtSplit(s, p0, Lsb(len, 16), Lsb(0xffff - len, 16));
    ReadsField(s, p0, len, 16);
    ReadsField(s, p0 + 16, 0xffff - len, 16);
    ReadsRaw(s, p0 + 32, data, hist);
  }

  lemma FixedComplete()
    ensures Complete(FixedLit(), 15) && Complete(FixedDist(), 15)
  {
    FixedLitComplete();
    FixedDistComplete();
  }

  lemma FixedLitComplete()
    ensures Complete(FixedLit(), 15)
  {
    hide Kraft, Pow2;
    SmallPowers();
    Pow2Table();
    var l := FixedLit();
    KraftSegment(l, 0, 144, 8);
    KraftSegment(l, 144, 256, 9);
    KraftSegment(l, 256, 280, 7);
    KraftSegment(l, 280, 288, 8);
    assert l[..288] == l && l[..0] == [];
    KraftEmpty(15);
  }

  lemma FixedDistComplete()
    ensures Complete(FixedDist(), 15)
  {
    hide Kraft, Pow2;
    SmallPowers();
    Pow2Table();
    var d := FixedDist();
    KraftSegment(d, 0, 32, 5);
    assert d[..32] == d && d[..0] == [];
    KraftEmpty(15);
  }

  lemma KraftEmpty(m: nat)
    ensures Kraft([], m) == 0
  {}

  lemma {:induction false} KraftSegment(l: seq<nat>, a: nat, b: nat, v: nat)
    requires a <= b <= |l| && 0 < v <= 15
    requires forall i :: a <= i < b ==> l[i] == v
    ensures Kraft(l[..b], 15) == Kraft(l[..a], 15) + (b - a) * Pow2(15 - v)
    decreases b - a
  {
    if a < b {
      KraftSegment(l, a, b - 1, v);
      assert l[..b][..b - 1] == l[..b - 1];
      assert (b - a) * Pow2(15 - v) == (b - 1 - a) * Pow2(15 - v) + Pow2(15 - v);
    }
  }

  lemma ReadsBody(s: seq<bool>, p: nat, b: Block, hist: seq<byte>, all: seq<byte>)
    requires p <= |s| && BlockOk(b, hist, all) && At(s, p, BodyBits(b, p))
    ensures ReadBody(s, p, TypeOf(b), hist) == Some((all, p + |BodyBits(b, p)|))
  {
    hide Lsb, Pow2, At, ReadBits, Value, ReadTokens, ReadStored, ReadCodes, TokensBits, HeaderBits, HeaderOk;
    hide AllCodable, Produces, FixedLit, FixedDist, Complete;
    match b
    case Stored(data) => ReadsStored(s, p, data, hist);
    case Fixed(ts) =>
      FixedComplete();
      ReadsTokens(FixedLit(), FixedDist(), s, p, ts, hist, all);
    case Dynamic(ll, dl, bl, n, ts) =>
      AtSplit(s, p, HeaderBits(ll, dl, bl, n), TokensBits(ll, dl, ts));
      AtEnd(s, p, HeaderBits(ll, dl, bl, n));
      ReadsCodes(s, p, ll, dl, bl, n);
      HeaderComplete(ll, dl, bl, n);
      ReadsTokens(ll, dl, s, p + |HeaderBits(ll, dl, bl, n)|, ts, hist, all);
  }

  /** Reading a block whose bits stand at p: the decoder delivers its output and, unless
      the block is final, goes on behind it. */
  lemma ReadsBlock(s: seq<bool>, p: nat, b: Block, final: bool, hist: seq<byte>, all: seq<byte>)
    requires p <= |s| && BlockOk(b, hist, all) && At(s, p, BlockBits(b, final, p))
    ensures var q := p + |BlockBits(b, final, p)|;
      q <= |s| && Inflate(s, p, hist) == if final then Some((all, q)) else Inflate(s, q, all)
  {
    hide Lsb, Pow2, At, ReadBits, Value, ReadBody, BodyBits, BlockOk;
    var h := 2 * TypeOf(b) + (if final then 1 else 0);
    OkEncodable(b, hist, all);
    AtSplit(s, p, Lsb(h, 3), BodyBits(b, p + 3));
    AtEnd(s, p, Lsb(h, 3));
    assert h < Pow2(3) by { Pow2Table(); }
    ReadsField(s, p, h, 3);
    ReadsBody(s, p + 3, b, hist, all);
    AtEnd(s, p, BlockBits(b, final, p));
  }

  lemma OkEncodable(b: Block, hist: seq<byte>, all: seq<byte>)
    requires BlockOk(b, hist, all)
    ensures Encodable(b)
  {}

  lemma HeaderComplete(ll: seq<nat>, dl: seq<nat>, bl: seq<nat>, n: nat)
    requires HeaderOk(ll, dl, bl, n)
    ensures Complete(ll, 15) && Complete(dl, 15)
  {}

  // ---------- streams ----------

  /** However the stream continues after the bits sent, a decoder that started at
      position start has produced out and is about to read a block. */
  ghost predicate Decodes(sent: seq<bool>, start: nat, out: seq<byte>)
  {
    start <= |sent| && forall s :: sent <= s ==> Inflate(s, start, []) == Inflate(s, |sent|, out)
  }

  lemma DecodesStart(sent: seq<bool>)
    ensures Decodes(sent, |sent|, [])
  {}

  lemma DecodesAt(sent: seq<bool>, start: nat, out: seq<byte>, s: seq<bool>)
    requires Decodes(sent, start, out) && sent <= s
    ensures start <= |sent| && Inflate(s, start, []) == Inflate(s, |sent|, out)
  {
    hide Inflate;
  }

  /** A block takes the decoder from the output hist to the output all. */
  lemma DecodesBlock(sent: seq<bool>, start: nat, b: Block, hist: seq<byte>, all: seq<byte>)
    requires Decodes(sent, start, hist) && BlockOk(b, hist, all)
    ensures Encodable(b) && Decodes(sent + BlockBits(b, false, |sent|), start, all)
  {
    hide Inflate, BlockBits, BlockOk, Encodable;
    OkEncodable(b, hist, all);
    var e := BlockBits(b, false, |sent|);
    forall s | sent + e <= s ensures Inflate(s, start, []) == Inflate(s, |sent + e|, all) {
      DecodesNext(sent, start, b, e, hist, all, s);
    }
  }

  lemma DecodesNext(sent: seq<bool>, start: nat, b: Block, e: seq<bool>, hist: seq<byte>, all: seq<byte>, s: seq<bool>)
    requires Decodes(sent, start, hist) && BlockOk(b, hist, all) && Encodable(b)
    requires e == BlockBits(b, false, |sent|) && sent + e <= s
    ensures start <= |sent| && Inflate(s, start, []) == Inflate(s, |sent + e|, all)
  {
    hide *;
    AfterPrefix(sent, e, s);
    DecodesAt(sent, start, hist, s);
    ReadsBlock(s, |sent|, b, false, hist, all);
  }

  lemma AfterPrefix(sent: seq<bool>, e: seq<bool>, s: seq<bool>)
    requires sent + e <= s
    ensures sent <= s && At(s, |sent|, e)
  {
    assert s[..|sent|] == (sent + e)[..|sent|];
    assert s[|sent|..|sent| + |e|] == (sent + e)[|sent|..];
  }

  /** The final block: the decoder stops right behind it with the whole output. */
  lemma DecodesFinal(sent: seq<bool>, start: nat, b: Block, hist: seq<byte>, all: seq<byte>, s: seq<bool>)
    requires Decodes(sent, start, hist) && BlockOk(b, hist, all)
    requires sent + BlockBits(b, true, |sent|) <= s
    ensures Inflate(s, start, []) == Some((all, |sent| + |BlockBits(b, true, |sent|)|))
  {
    hide *;
    OkEncodable(b, hist, all);
    var e := BlockBits(b, true, |sent|);
    AfterPrefix(sent, e, s);
    DecodesAt(sent, start, hist, s);
    ReadsBlock(s, |sent|, b, true, hist, all);
  }
}
