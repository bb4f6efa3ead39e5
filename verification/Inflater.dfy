/** The compressed data format of RFC 1951 and a reference decoder for it. The decoder
    is strict: it accepts a code only when its lengths make a complete prefix code. */
module Inflater {
  import opened Bits
  import opened Canonical
  import opened RunLength

  // ---------- section 3.2.5: length and distance codes ----------

  const LENGTH_BASE: seq<nat> := [
    3, 4, 5, 6, 7, 8, 9, 10, 11, 13, 15, 17, 19, 23, 27, 31, 35, 43, 51, 59,
    67, 83, 99, 115, 131, 163, 195, 227, 258]
  const LENGTH_EXTRA: seq<nat> := [
    0, 0, 0, 0, 0, 0, 0, 0, 1, 1, 1, 1, 2, 2, 2, 2, 3, 3, 3, 3, 4, 4, 4, 4, 5, 5, 5, 5, 0]
  const DIST_BASE: seq<nat> := [
    1, 2, 3, 4, 5, 7, 9, 13, 17, 25, 33, 49, 65, 97, 129, 193, 257, 385, 513, 769,
    1025, 1537, 2049, 3073, 4097, 6145, 8193, 12289, 16385, 24577]
  const DIST_EXTRA: seq<nat> := [
    0, 0, 0, 0, 1, 1, 2, 2, 3, 3, 4, 4, 5, 5, 6, 6, 7, 7, 8, 8, 9, 9,
    10, 10, 11, 11, 12, 12, 13, 13]
  const CODE_LENGTH_ORDER: seq<nat> := [16, 17, 18, 0, 8, 7, 9, 6, 10, 5, 11, 4, 12, 3, 13, 2, 14, 1, 15]

  /** The order in which the code-length code lengths are sent. */
  function Order(i: nat): (r: nat)
    requires i < 19
    ensures r < 19
  { CODE_LENGTH_ORDER[i] }

  const END_BLOCK := 256
  const LENGTH_CODES := 29
  const D_CODES := 30
  const MIN_MATCH := 3
  const MAX_MATCH := 258

  function LengthBase(c: nat): (r: nat)
    requires c < LENGTH_CODES
    ensures MIN_MATCH <= r <= MAX_MATCH
  { LENGTH_BASE[c] }

  function LengthExtra(c: nat): (r: nat)
    requires c < LENGTH_CODES
    ensures r <= 5
  { LENGTH_EXTRA[c] }

  function DistBase(c: nat): (r: nat)
    requires c < D_CODES
    ensures 1 <= r
  { DIST_BASE[c] }

  function DistExtra(c: nat): (r: nat)
    requires c < D_CODES
    ensures r <= 13
  { DIST_EXTRA[c] }

  /** The largest code, from c down, whose base does not exceed the match length. */
  function LengthCodeFrom(len: nat, c: nat): (r: nat)
    requires c < LENGTH_CODES
    ensures r <= c
  {
    if c == 0 || LengthBase(c) <= len then c else LengthCodeFrom(len, c - 1)
  }

  function DistCodeFrom(dist: nat, c: nat): (r: nat)
    requires c < D_CODES
    ensures r <= c
  {
    if c == 0 || DistBase(c) <= dist then c else DistCodeFrom(dist, c - 1)
  }

  function LengthCode(len: nat): (r: nat)
    ensures r < LENGTH_CODES
  { LengthCodeFrom(len, LENGTH_CODES - 1) }

  function DistCode(dist: nat): (r: nat)
    ensures r < D_CODES
  { DistCodeFrom(dist, D_CODES - 1) }

  predicate LengthFits(len: nat, c: nat)
    requires c < LENGTH_CODES
  { LengthBase(c) <= len < LengthBase(c) + Pow2(LengthExtra(c)) }

  predicate DistFits(dist: nat, c: nat)
    requires c < D_CODES
  { DistBase(c) <= dist < DistBase(c) + Pow2(DistExtra(c)) }

  lemma LengthSteps(c: nat)
    requires c < LENGTH_CODES - 1
    ensures LengthBase(c + 1) <= LengthBase(c) + Pow2(LengthExtra(c))
    ensures c < LENGTH_CODES - 2 ==> LengthBase(c + 1) == LengthBase(c) + Pow2(LengthExtra(c))
  {
    hide Pow2;
    Pow2Table();
  }

  lemma DistSteps(c: nat)
    requires c < D_CODES - 1
    ensures DistBase(c + 1) == DistBase(c) + Pow2(DistExtra(c))
  {
    hide Pow2;
    SmallPowers();
  }

  lemma SmallPowers()
    ensures Pow2(0) == 1 && Pow2(1) == 2 && Pow2(2) == 4 && Pow2(3) == 8 && Pow2(4) == 16 && Pow2(5) == 32
    ensures Pow2(6) == 64 && Pow2(7) == 128 && Pow2(8) == 256 && Pow2(9) == 512 && Pow2(10) == 1024
    ensures Pow2(11) == 2048 && Pow2(12) == 4096 && Pow2(13) == 8192
  {}

  lemma {:induction false} LengthCodeFits(len: nat, c: nat)
    requires c < LENGTH_CODES && MIN_MATCH <= len
    requires len < LengthBase(c) + Pow2(LengthExtra(c))
    ensures LengthFits(len, LengthCodeFrom(len, c))
  {
    if c == 0 {
      Pow2Table();
    } else if len < LengthBase(c) {
      LengthSteps(c - 1);
      LengthCodeFits(len, c - 1);
    }
  }

  lemma {:induction false} DistCodeFits(dist: nat, c: nat)
    requires c < D_CODES && 1 <= dist
    requires dist < DistBase(c) + Pow2(DistExtra(c))
    ensures DistFits(dist, DistCodeFrom(dist, c))
  {
    if c == 0 {
      Pow2Table();
    } else if dist < DistBase(c) {
      DistSteps(c - 1);
      DistCodeFits(dist, c - 1);
    }
  }

  // ---------- tokens ----------

  /** A literal byte, or a copy of len bytes from dist bytes back. */
  datatype Token = Literal(b: byte) | Match(len: nat, dist: nat)

  predicate TokenOk(t: Token) {
    t.Match? ==> MIN_MATCH <= t.len <= MAX_MATCH && 1 <= t.dist <= 0x8000
  }

  function CopyBack(hist: seq<byte>, dist: nat, len: nat): (r: seq<byte>)
    requires 1 <= dist <= |hist|
    ensures hist <= r && |r| == |hist| + len
    decreases len
  {
    if len == 0 then hist else CopyBack(hist + [hist[|hist| - dist]], dist, len - 1)
  }

  predicate Reaches(t: Token, hist: seq<byte>) {
    t.Match? ==> 1 <= t.dist <= |hist|
  }

  function ExpandToken(t: Token, hist: seq<byte>): (r: seq<byte>)
    requires Reaches(t, hist)
    ensures hist <= r
  {
    match t
    case Literal(b) => hist + [b]
    case Match(len, dist) => CopyBack(hist, dist, len)
  }

  /** The tokens, read after the output hist, produce the output all. */
  predicate Produces(ts: seq<Token>, hist: seq<byte>, all: seq<byte>)
  {
    if ts == [] then hist == all
    else
      && TokenOk(ts[0]) && Reaches(ts[0], hist)
      && Produces(ts[1..], ExpandToken(ts[0], hist), all)
  }

  // ---------- sections 3.2.3 to 3.2.7: reading a compressed stream ----------

  function ReadBits(s: seq<bool>, p: nat, n: nat): (r: Option<(nat, nat)>)
    ensures r.Some? ==> p <= r.value.1 <= |s|
  {
    if p + n <= |s| then Some((Value(s[p..p + n]), p + n)) else None
  }

  /** Literal, length and distance symbols up to the end-of-block symbol. */
  function ReadTokens(ll: seq<nat>, dl: seq<nat>, s: seq<bool>, p: nat, hist: seq<byte>)
    : (r: Option<(seq<byte>, nat)>)
    requires p <= |s|
    ensures r.Some? ==> p < r.value.1 <= |s|
    decreases |s| - p
  {
    match DecodeSymbol(ll, s, p)
    case None => None
    case Some((c, q)) =>
      if c < END_BLOCK then ReadTokens(ll, dl, s, q, hist + [c])
      else if c == END_BLOCK then Some((hist, q))
      else
        match ReadLength(s, q, c - 257)
        case None => None
        case Some((len, q1)) =>
          match ReadDistance(dl, s, q1)
          case None => None
          case Some((dist, q2)) =>
            if dist > |hist| then None
            else ReadTokens(ll, dl, s, q2, CopyBack(hist, dist, len))
  }

  /** The match length that length code c and the extra bits at p stand for. */
  function ReadLength(s: seq<bool>, p: nat, c: nat): (r: Option<(nat, nat)>)
    ensures r.Some? ==> p <= r.value.1 <= |s|
  {
    if c >= LENGTH_CODES then None
    else
      match ReadBits(s, p, LengthExtra(c))
      case None => None
      case Some((x, q)) => Some((LengthBase(c) + x, q))
  }

  /** A distance symbol and its extra bits. */
  function ReadDistance(dl: seq<nat>, s: seq<bool>, p: nat): (r: Option<(nat, nat)>)
    ensures r.Some? ==> p < r.value.1 <= |s| && 1 <= r.value.0
  {
    match DecodeSymbol(dl, s, p)
    case None => None
    case Some((d, q)) =>
      if d >= D_CODES then None
      else
        match ReadBits(s, q, DistExtra(d))
        case None => None
        case Some((y, q1)) => Some((DistBase(d) + y, q1))
  }

  /** Section 3.2.6: the code lengths of a block with fixed codes. */
  function FixedLit(): (r: seq<nat>)
    ensures |r| == 288
  {
    seq(288, i => if i <= 143 then 8 else if i <= 255 then 9 else if i <= 279 then 7 else 8)
  }

  function FixedDist(): (r: seq<nat>)
    ensures |r| == 32
  {
    seq(32, i => 5)
  }

  /** Section 3.2.7: n code-length code lengths of 3 bits each, in the given order. */
  function ReadBlLens(s: seq<bool>, p: nat, n: nat, rank: nat, lens: seq<nat>): (r: Option<(seq<nat>, nat)>)
    requires rank <= n <= 19 && |lens| == 19
    ensures r.Some? ==> |r.value.0| == 19 && p <= r.value.1
    ensures r.Some? && p <= |s| ==> r.value.1 <= |s|
    decreases n - rank
  {
    if rank == n then Some((lens, p))
    else
      match ReadBits(s, p, 3)
      case None => None
      case Some((v, q)) => ReadBlLens(s, q, n, rank + 1, lens[Order(rank) := v])
  }

  /** Exactly total code lengths in run-length form, after those in acc. */
  function ReadLens(bl: seq<nat>, s: seq<bool>, p: nat, total: nat, acc: seq<nat>): (r: Option<(seq<nat>, nat)>)
    requires p <= |s|
    ensures r.Some? ==> p <= r.value.1 <= |s| && |r.value.0| == total
    decreases |s| - p
  {
    if |acc| == total then Some((acc, p))
    else if |acc| > total then None
    else
      match DecodeSymbol(bl, s, p)
      case None => None
      case Some((c, q)) =>
        match ReadBits(s, q, ExtraWidth(c))
        case None => None
        case Some((x, q1)) =>
          var i := Item(c, x);
          if !ItemOk(i) || (c == REP_3_6 && acc == []) then None
          else ReadLens(bl, s, q1, total, Apply(i, acc))
  }

  datatype Codes = Codes(ll: seq<nat>, dl: seq<nat>)

  function ReadCodes(s: seq<bool>, p: nat): (r: Option<(Codes, nat)>)
    requires p <= |s|
    ensures r.Some? ==> p <= r.value.1 <= |s|
  {
    match ReadBits(s, p, 5)
    case None => None
    case Some((hlit, p1)) =>
      match ReadBits(s, p1, 5)
      case None => None
      case Some((hdist, p2)) =>
        match ReadBits(s, p2, 4)
        case None => None
        case Some((hclen, p3)) =>
          if hlit + 257 > 286 || hdist + 1 > 30 || hclen + 4 > 19 then None
          else
            match ReadBlLens(s, p3, hclen + 4, 0, Repeat(0, 19))
            case None => None
            case Some((bl, p4)) =>
              if !Complete(bl, 7) then None
              else
                match ReadLens(bl, s, p4, hlit + 257 + hdist + 1, [])
                case None => None
                case Some((all, p5)) =>
                  var ll, dl := all[..hlit + 257], all[hlit + 257..];
                  if Complete(ll, 15) && Complete(dl, 15) && ll[END_BLOCK] > 0
                  then Some((Codes(ll, dl), p5)) else None
  }

  /** Section 3.2.4: the rest of the current byte is skipped, then LEN, its complement
      and LEN bytes follow. */
  function ReadStored(s: seq<bool>, p: nat, hist: seq<byte>): (r: Option<(seq<byte>, nat)>)
    requires p <= |s|
    ensures r.Some? ==> p < r.value.1 <= |s|
  {
    var p0 := p + Padding(p);
    match ReadBits(s, p0, 16)
    case None => None
    case Some((len, p1)) =>
      match ReadBits(s, p1, 16)
      case None => None
      case Some((nlen, p2)) =>
        if nlen != 0xffff - len then None
        else ReadRaw(s, p2, len, hist)
  }

  function ReadRaw(s: seq<bool>, p: nat, len: nat, hist: seq<byte>): (r: Option<(seq<byte>, nat)>)
    requires p <= |s|
    ensures r.Some? ==> p <= r.value.1 <= |s|
    decreases len
  {
    if len == 0 then Some((hist, p))
    else
      match ReadBits(s, p, 8)
      case None => None
      case Some((b, q)) =>
        ValueBound(s[p..p + 8]);
        Pow2Table();
        ReadRaw(s, q, len - 1, hist + [b])
  }

  /** What follows the header bits of a block of the given type. */
  function ReadBody(s: seq<bool>, p: nat, kind: nat, hist: seq<byte>): (r: Option<(seq<byte>, nat)>)
    requires p <= |s|
    ensures r.Some? ==> p < r.value.1 <= |s|
  {
    if kind == 0 then ReadStored(s, p, hist)
    else if kind == 1 then ReadTokens(FixedLit(), FixedDist(), s, p, hist)
    else if kind == 2 then
      match ReadCodes(s, p)
      case None => None
      case Some((codes, q)) => ReadTokens(codes.ll, codes.dl, s, q, hist)
    else None
  }

  /** Blocks up to and including the one marked final. */
  function Inflate(s: seq<bool>, p: nat, hist: seq<byte>): (r: Option<(seq<byte>, nat)>)
    requires p <= |s|
    ensures r.Some? ==> p < r.value.1 <= |s|
    decreases |s| - p
  {
    match ReadBits(s, p, 3)
    case None => None
    case Some((h, q)) =>
      var r := ReadBody(s, q, h / 2, hist);
      if r.None? || h % 2 == 1 then r else Inflate(s, r.value.1, r.value.0)
  }
}
