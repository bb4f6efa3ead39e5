/** A whole stream of RFC 1951, byte by byte, and the text the reference decoder makes of
    it: a stored block, a block with fixed codes and a block with codes of its own, whose
    header uses all kinds of run-length symbols. */
module SampleStream {
  import opened Bits
  import opened Canonical
  import opened RunLength
  import opened EncoderTables
  import opened Inflater
  import opened Blocks
  import opened Matching
  import opened StaticTrees

  const STREAM: seq<byte> := [
    0, 2, 0, 253, 255, 104, 105, 58, 145, 143, 12, 1, 77, 198, 55, 13, 0, 0, 0, 195, 48, 172,
    157, 252, 33, 244, 109, 148, 195, 160, 254, 158, 6]

  const TEXT: seq<byte> := [
    104, 105, 200, 111, 200, 111, 200, 111, 200, 111, 200, 111, 200, 111, 200, 111, 97, 98, 99, 97, 98, 99,
    97, 98, 99, 97, 98, 99, 97, 98, 99, 102, 97, 98, 99, 97, 98, 99, 97, 98, 99, 102, 97]

  // ---------- a stream as a number ----------

  /** From p on the stream holds the k bits of r, least significant first. */
  predicate Left(s: seq<bool>, p: nat, r: nat, k: nat) {
    p + k == |s| && s[p..] == Lsb(r, k)
  }

  /** The number with the given bytes, from place i on, least significant first. */
  function NumberFrom(s: seq<byte>, i: nat): nat
    requires i <= |s|
    decreases |s| - i
  {
    if i == |s| then 0 else s[i] + NumberFrom(s, i + 1) * 0x100
  }

  lemma {:induction false} BytesLeft(s: seq<byte>, i: nat)
    requires i <= |s|
    ensures Left(BitsOf(s), 8 * i, NumberFrom(s, i), 8 * (|s| - i))
    decreases |s| - i
  {
    hide Lsb, BitsOf;
    if i == |s| {
      LsbNone(NumberFrom(s, i));
    } else {
      BytesLeft(s, i + 1);
      var n := 8 * (|s| - i - 1);
      Pow2Table();
      LsbConcat(s[i], NumberFrom(s, i + 1), 8, n);
      assert 8 + n == 8 * (|s| - i);
      ByteAt(s, i);
      var b := BitsOf(s);
      assert b[8 * i..] == b[8 * i..8 * i + 8] + b[8 * (i + 1)..];
    }
  }

  lemma LsbNone(v: nat)
    ensures Lsb(v, 0) == []
  {}

  lemma ByteAt(s: seq<byte>, i: nat)
    requires i < |s|
    ensures BitsOf(s)[8 * i..8 * i + 8] == Lsb(s[i], 8)
  {
    hide Lsb, BitsOf;
    BitsOfSnoc(s[..i], s[i]);
    BitsOfConcat(s[..i + 1], s[i + 1..]);
    assert s[..i] + [s[i]] == s[..i + 1] && s[..i + 1] + s[i + 1..] == s;
    var a, x, c := BitsOf(s[..i]), Lsb(s[i], 8), BitsOf(s[i + 1..]);
    assert (a + x + c)[8 * i..8 * i + 8] == x;
  }

  lemma Field(s: seq<bool>, p: nat, r: nat, k: nat, n: nat, v: nat, rest: nat)
    requires Left(s, p, r, k) && n <= k && v < Pow2(n) && r == v + rest * Pow2(n)
    ensures At(s, p, Lsb(v, n)) && ReadBits(s, p, n) == Some((v, p + n)) && Left(s, p + n, rest, k - n)
  {
    hide Lsb, Pow2, Value, ReadBits;
    LsbConcat(v, rest, n, k - n);
    assert n + (k - n) == k;
    assert s[p..p + n] == s[p..][..n] && s[p + n..] == s[p..][n..];
    ReadsField(s, p, v, n);
  }

  /** The code of symbol c stands at p, read as the number w. */
  lemma Symbol(s: seq<bool>, p: nat, r: nat, k: nat, lens: seq<nat>, m: nat, c: nat, n: nat, w: nat, rest: nat)
    requires Left(s, p, r, k) && Complete(lens, m) && c < |lens| && lens[c] == n && 0 < n <= k
    requires CodeBits(lens, c) == Lsb(w, n) && w < Pow2(n) && r == w + rest * Pow2(n)
    ensures DecodeSymbol(lens, s, p) == Some((c, p + n)) && Left(s, p + n, rest, k - n)
  {
    hide Lsb, Pow2, Complete, CodeBits, DecodeSymbol, Left;
    Field(s, p, r, k, n, w, rest);
    DecodesSymbol(lens, m, s, p, c);
  }

  /** The number whose n bits stand the other way round. */
  function Mirrored(v: nat, n: nat): (w: nat)
    ensures w < Pow2(n)
  {
    if n == 0 then 0 else Mirrored(v / 2, n - 1) + v % 2 * Pow2(n - 1)
  }

  lemma {:induction false} MsbIsLsb(v: nat, n: nat)
    ensures Msb(v, n) == Lsb(Mirrored(v, n), n)
    decreases n
  {
    if n > 0 {
      MsbIsLsb(v / 2, n - 1);
      LsbConcat(Mirrored(v / 2, n - 1), v % 2, n - 1, 1);
      assert n - 1 + 1 == n;
      assert Lsb(v % 2, 1) == [v % 2 == 1];
    }
  }

  // ---------- steps of the decoder ----------

  /** A literal. */
  lemma LiteralStep(ll: seq<nat>, dl: seq<nat>, s: seq<bool>, p: nat, r: nat, k: nat, c: nat, n: nat, w: nat,
      rest: nat, hist: seq<byte>)
    requires Left(s, p, r, k) && Complete(ll, 15) && c < END_BLOCK && c < |ll| && ll[c] == n && 0 < n <= k
    requires CodeBits(ll, c) == Lsb(w, n) && w < Pow2(n) && r == w + rest * Pow2(n)
    ensures Left(s, p + n, rest, k - n) && p + n <= |s|
    ensures ReadTokens(ll, dl, s, p, hist) == ReadTokens(ll, dl, s, p + n, hist + [c])
  {
    hide Lsb, Pow2, Complete, CodeBits, DecodeSymbol;
    Symbol(s, p, r, k, ll, 15, c, n, w, rest);
  }

  /** A match: the code of its length, x in xw extra bits, the code of its distance, y in yw
      extra bits. */
  lemma MatchStep(ll: seq<nat>, dl: seq<nat>, s: seq<bool>, p: nat, r: nat, k: nat, c: nat, n: nat, w: nat,
      x: nat, xw: nat, d: nat, dn: nat, dw: nat, y: nat, yw: nat, rest: nat, hist: seq<byte>)
    requires Left(s, p, r, k) && Complete(ll, 15) && Complete(dl, 15) && n + xw + dn + yw <= k
    requires 257 <= c < 286 && c < |ll| && ll[c] == n > 0 && d < 30 && d < |dl| && dl[d] == dn > 0
    requires CodeBits(ll, c) == Lsb(w, n) && CodeBits(dl, d) == Lsb(dw, dn)
    requires w < Pow2(n) && dw < Pow2(dn) && LengthExtra(c - 257) == xw && DistExtra(d) == yw
    requires x < Pow2(xw) && y < Pow2(yw) && DistBase(d) + y <= |hist|
    requires r == w + (x + (dw + (y + rest * Pow2(yw)) * Pow2(dn)) * Pow2(xw)) * Pow2(n)
    ensures var q := p + (n + xw + dn + yw);
      && Left(s, q, rest, k - (n + xw + dn + yw)) && q <= |s|
      && ReadTokens(ll, dl, s, p, hist)
        == ReadTokens(ll, dl, s, q, CopyBack(hist, DistBase(d) + y, LengthBase(c - 257) + x))
  {
    hide Lsb, Pow2, Complete, CodeBits, DecodeSymbol, CopyBack, LengthExtra, DistExtra, LengthBase, DistBase, Left,
        ReadBits;
    var r3 := y + rest * Pow2(yw);
    var r2 := dw + r3 * Pow2(dn);
    var r1 := x + r2 * Pow2(xw);
    Symbol(s, p, r, k, ll, 15, c, n, w, r1);
    Field(s, p + n, r1, k - n, xw, x, r2);
    Symbol(s, p + n + xw, r2, k - n - xw, dl, 15, d, dn, dw, r3);
    Field(s, p + n + xw + dn, r3, k - n - xw - dn, yw, y, rest);
    LeftFits(s, p + n + xw + dn + yw, rest, k - n - xw - dn - yw);
  }

  lemma LeftFits(s: seq<bool>, p: nat, r: nat, k: nat)
    requires Left(s, p, r, k)
    ensures p + k == |s|
  {}

  lemma EndStep(ll: seq<nat>, dl: seq<nat>, s: seq<bool>, p: nat, r: nat, k: nat, n: nat, w: nat, rest: nat,
      hist: seq<byte>)
    requires Left(s, p, r, k) && Complete(ll, 15) && END_BLOCK < |ll| && ll[END_BLOCK] == n && 0 < n <= k
    requires CodeBits(ll, END_BLOCK) == Lsb(w, n) && w < Pow2(n) && r == w + rest * Pow2(n)
    ensures Left(s, p + n, rest, k - n) && ReadTokens(ll, dl, s, p, hist) == Some((hist, p + n))
  {
    hide Lsb, Pow2, Complete, CodeBits, DecodeSymbol;
    Symbol(s, p, r, k, ll, 15, END_BLOCK, n, w, rest);
  }

  /** A run-length symbol with x in xw extra bits. */
  lemma LensStep(bl: seq<nat>, s: seq<bool>, p: nat, r: nat, k: nat, total: nat, c: nat, n: nat, w: nat, x: nat,
      xw: nat, rest: nat, acc: seq<nat>)
    requires Left(s, p, r, k) && Complete(bl, 7) && c < |bl| && bl[c] == n > 0 && n + xw <= k
    requires CodeBits(bl, c) == Lsb(w, n) && w < Pow2(n) && ExtraWidth(c) == xw && x < Pow2(xw)
    requires r == w + (x + rest * Pow2(xw)) * Pow2(n)
    requires |acc| < total && ItemOk(Item(c, x)) && (c == REP_3_6 ==> acc != [])
    ensures Left(s, p + (n + xw), rest, k - (n + xw)) && p + (n + xw) <= |s|
    ensures ReadLens(bl, s, p, total, acc) == ReadLens(bl, s, p + (n + xw), total, Apply(Item(c, x), acc))
  {
    hide Lsb, Pow2, Complete, CodeBits, DecodeSymbol, Apply, Left, ReadBits, ItemOk, ExtraWidth;
    Symbol(s, p, r, k, bl, 7, c, n, w, x + rest * Pow2(xw));
    Field(s, p + n, x + rest * Pow2(xw), k - n, xw, x, rest);
    LeftFits(s, p + n + xw, rest, k - n - xw);
  }

  /** The header bits of a block that is not the last, and its body. */
  lemma BlockStep(s: seq<bool>, p: nat, kind: nat, hist: seq<byte>, all: seq<byte>, q: nat)
    requires p + 3 <= |s| && ReadBits(s, p, 3) == Some((2 * kind, p + 3))
    requires ReadBody(s, p + 3, kind, hist) == Some((all, q))
    ensures q <= |s| && Inflate(s, p, hist) == Inflate(s, q, all)
  {
    hide ReadBits, ReadBody;
  }

  lemma LastStep(s: seq<bool>, p: nat, kind: nat, hist: seq<byte>, all: seq<byte>, q: nat)
    requires p + 3 <= |s| && ReadBits(s, p, 3) == Some((2 * kind + 1, p + 3))
    requires ReadBody(s, p + 3, kind, hist) == Some((all, q))
    ensures Inflate(s, p, hist) == Some((all, q))
  {
    hide ReadBits, ReadBody;
  }

  lemma StoredStep(s: seq<bool>, p: nat, len: nat, hist: seq<byte>)
    requires p <= |s| && p % 8 == 0 && len <= 0xffff
    requires ReadBits(s, p, 16) == Some((len, p + 16)) && ReadBits(s, p + 16, 16) == Some((0xffff - len, p + 32))
    requires p >= 5
    ensures p + 32 <= |s| && ReadStored(s, p - 5, hist) == ReadRaw(s, p + 32, len, hist)
  {
    hide ReadRaw;
  }

  lemma RawStep(s: seq<bool>, p: nat, len: nat, b: byte, hist: seq<byte>)
    requires len > 0 && p <= |s| && ReadBits(s, p, 8) == Some((b, p + 8))
    ensures p + 8 <= |s| && ReadRaw(s, p, len, hist) == ReadRaw(s, p + 8, len - 1, hist + [b])
  {}

  lemma RawEnd(s: seq<bool>, p: nat, hist: seq<byte>)
    requires p <= |s|
    ensures ReadRaw(s, p, 0, hist) == Some((hist, p))
  {}

  // ---------- the stream ----------

  lemma StreamFrom22()
    ensures NumberFrom(STREAM, 22) == 0x69efea0c3946df421fc9d
  {
    hide STREAM;
    StreamBytes();
    assert NumberFrom(STREAM, 33) == 0;
    assert NumberFrom(STREAM, 32) == 6;
    assert NumberFrom(STREAM, 31) == 0x69e;
    assert NumberFrom(STREAM, 30) == 0x69efe;
    assert NumberFrom(STREAM, 29) == 0x69efea0;
    assert NumberFrom(STREAM, 28) == 0x69efea0c3;
    assert NumberFrom(STREAM, 27) == 0x69efea0c394;
    assert NumberFrom(STREAM, 26) == 0x69efea0c3946d;
    assert NumberFrom(STREAM, 25) == 0x69efea0c3946df4;
    assert NumberFrom(STREAM, 24) == 0x69efea0c3946df421;
    assert NumberFrom(STREAM, 23) == 0x69efea0c3946df421fc;
    assert NumberFrom(STREAM, 22) == 0x69efea0c3946df421fc9d;
  }

  lemma StreamFrom11()
    ensures NumberFrom(STREAM, 11) == 0x69efea0c3946df421fc9dac30c30000000d37c64d01
  {
    hide STREAM;
    StreamBytes();
    StreamFrom22();
    assert NumberFrom(STREAM, 21) == 0x69efea0c3946df421fc9dac;
    assert NumberFrom(STREAM, 20) == 0x69efea0c3946df421fc9dac30;
    assert NumberFrom(STREAM, 19) == 0x69efea0c3946df421fc9dac30c3;
    assert NumberFrom(STREAM, 18) == 0x69efea0c3946df421fc9dac30c300;
    assert NumberFrom(STREAM, 17) == 0x69efea0c3946df421fc9dac30c30000;
    assert NumberFrom(STREAM, 16) == 0x69efea0c3946df421fc9dac30c3000000;
    assert NumberFrom(STREAM, 15) == 0x69efea0c3946df421fc9dac30c30000000d;
    assert NumberFrom(STREAM, 14) == 0x69efea0c3946df421fc9dac30c30000000d37;
    assert NumberFrom(STREAM, 13) == 0x69efea0c3946df421fc9dac30c30000000d37c6;
    assert NumberFrom(STREAM, 12) == 0x69efea0c3946df421fc9dac30c30000000d37c64d;
    assert NumberFrom(STREAM, 11) == 0x69efea0c3946df421fc9dac30c30000000d37c64d01;
  }

  lemma StreamFrom0()
    ensures NumberFrom(STREAM, 0) == 0x69efea0c3946df421fc9dac30c30000000d37c64d010c8f913a6968fffd000200
  {
    hide STREAM;
    StreamBytes();
    StreamFrom11();
    assert NumberFrom(STREAM, 10) == 0x69efea0c3946df421fc9dac30c30000000d37c64d010c;
    assert NumberFrom(STREAM, 9) == 0x69efea0c3946df421fc9dac30c30000000d37c64d010c8f;
    assert NumberFrom(STREAM, 8) == 0x69efea0c3946df421fc9dac30c30000000d37c64d010c8f91;
    assert NumberFrom(STREAM, 7) == 0x69efea0c3946df421fc9dac30c30000000d37c64d010c8f913a;
    assert NumberFrom(STREAM, 6) == 0x69efea0c3946df421fc9dac30c30000000d37c64d010c8f913a69;
    assert NumberFrom(STREAM, 5) == 0x69efea0c3946df421fc9dac30c30000000d37c64d010c8f913a6968;
    assert NumberFrom(STREAM, 4) == 0x69efea0c3946df421fc9dac30c30000000d37c64d010c8f913a6968ff;
    assert NumberFrom(STREAM, 3) == 0x69efea0c3946df421fc9dac30c30000000d37c64d010c8f913a6968fffd;
    assert NumberFrom(STREAM, 2) == 0x69efea0c3946df421fc9dac30c30000000d37c64d010c8f913a6968fffd00;
    assert NumberFrom(STREAM, 1) == 0x69efea0c3946df421fc9dac30c30000000d37c64d010c8f913a6968fffd0002;
    assert NumberFrom(STREAM, 0) == 0x69efea0c3946df421fc9dac30c30000000d37c64d010c8f913a6968fffd000200;
  }

  lemma StreamBytes()
    ensures |STREAM| == 33
    ensures STREAM[0] == 0 && STREAM[1] == 2 && STREAM[2] == 0 && STREAM[3] == 253 && STREAM[4] == 255
    ensures STREAM[5] == 104 && STREAM[6] == 105 && STREAM[7] == 58 && STREAM[8] == 145 && STREAM[9] == 143
    ensures STREAM[10] == 12 && STREAM[11] == 1 && STREAM[12] == 77 && STREAM[13] == 198 && STREAM[14] == 55
    ensures STREAM[15] == 13 && STREAM[16] == 0 && STREAM[17] == 0 && STREAM[18] == 0 && STREAM[19] == 195
    ensures STREAM[20] == 48 && STREAM[21] == 172 && STREAM[22] == 157 && STREAM[23] == 252 && STREAM[24] == 33
    ensures STREAM[25] == 244 && STREAM[26] == 109 && STREAM[27] == 148 && STREAM[28] == 195 && STREAM[29] == 160
    ensures STREAM[30] == 254 && STREAM[31] == 158 && STREAM[32] == 6
  {}

  lemma StreamLeft()
    ensures Left(BitsOf(STREAM), 0, 0x69efea0c3946df421fc9dac30c30000000d37c64d010c8f913a6968fffd000200, 264)
  {
    hide Left, NumberFrom, STREAM;
    BytesLeft(STREAM, 0);
    StreamFrom0();
    StreamBytes();
  }

  lemma StoredFields(s: seq<bool>)
    requires Left(s, 0, 0x69efea0c3946df421fc9dac30c30000000d37c64d010c8f913a6968fffd000200, 264)
    ensures |s| == 264 && ReadBits(s, 0, 3) == Some((0, 3)) && Left(s, 56,
      0x69efea0c3946df421fc9dac30c30000000d37c64d010c8f913a, 208)
    ensures ReadBits(s, 8, 16) == Some((2, 24)) && ReadBits(s, 24, 16) == Some((0xfffd, 40))
    ensures ReadBits(s, 40, 8) == Some((104, 48)) && ReadBits(s, 48, 8) == Some((105, 56))
  {
    hide Left, ReadBits, Lsb, Pow2, Value;
    Pow2Table();
    LeftFits(s, 0, 0x69efea0c3946df421fc9dac30c30000000d37c64d010c8f913a6968fffd000200, 264);
    Field(s, 0, 0x69efea0c3946df421fc9dac30c30000000d37c64d010c8f913a6968fffd000200, 264, 3, 0,
      0xd3dfd418728dbe843f93b5861860000001a6f8c9a02191f2274d2d1fffa00040);
    Field(s, 3, 0xd3dfd418728dbe843f93b5861860000001a6f8c9a02191f2274d2d1fffa00040, 261, 5, 0,
      0x69efea0c3946df421fc9dac30c30000000d37c64d010c8f913a6968fffd0002);
    Field(s, 8, 0x69efea0c3946df421fc9dac30c30000000d37c64d010c8f913a6968fffd0002, 256, 16, 2,
      0x69efea0c3946df421fc9dac30c30000000d37c64d010c8f913a6968fffd);
    Field(s, 24, 0x69efea0c3946df421fc9dac30c30000000d37c64d010c8f913a6968fffd, 240, 16, 0xfffd,
      0x69efea0c3946df421fc9dac30c30000000d37c64d010c8f913a6968);
    Field(s, 40, 0x69efea0c3946df421fc9dac30c30000000d37c64d010c8f913a6968, 224, 8, 104,
      0x69efea0c3946df421fc9dac30c30000000d37c64d010c8f913a69);
    Field(s, 48, 0x69efea0c3946df421fc9dac30c30000000d37c64d010c8f913a69, 216, 8, 105,
      0x69efea0c3946df421fc9dac30c30000000d37c64d010c8f913a);
  }

  /** The stored block: "hi". */
  lemma StoredBlock(s: seq<bool>)
    requires Left(s, 0, 0x69efea0c3946df421fc9dac30c30000000d37c64d010c8f913a6968fffd000200, 264)
    ensures |s| == 264 && Left(s, 56, 0x69efea0c3946df421fc9dac30c30000000d37c64d010c8f913a, 208)
    ensures Inflate(s, 0, []) == Inflate(s, 56, TEXT[..2])
  {
    hide *;
    StoredFields(s);
    TextStart();
    StoredStep(s, 8, 2, []);
    RawStep(s, 40, 2, 104, []);
    RawStep(s, 48, 1, 105, [104]);
    RawEnd(s, 56, [104, 105]);
    assert [] + [104] == [104] && [104] + [105] == [104, 105];
    StoredBody(s, 3, []);
    BlockStep(s, 0, 0, [], TEXT[..2], 56);
  }

  lemma StoredBody(s: seq<bool>, p: nat, hist: seq<byte>)
    requires p <= |s|
    ensures ReadBody(s, p, 0, hist) == ReadStored(s, p, hist)
  {}

  lemma TextStart()
    ensures |TEXT| == 43 && [104, 105] == TEXT[..2]
  {
    assert TEXT[0] == 104 && TEXT[1] == 105;
  }

  // ---------- the block with fixed codes ----------

  lemma FixedCodes()
    ensures |FixedLit()| == 288 && |FixedDist()| == 32 && FixedDist()[1] == 5
    ensures FixedLit()[200] == 9 && CodeBits(FixedLit(), 200) == Lsb(39, 9)
    ensures FixedLit()[111] == 8 && CodeBits(FixedLit(), 111) == Lsb(249, 8)
    ensures FixedLit()[265] == 7 && CodeBits(FixedLit(), 265) == Lsb(72, 7)
    ensures FixedLit()[256] == 7 && CodeBits(FixedLit(), 256) == Lsb(0, 7)
    ensures CodeBits(FixedDist(), 1) == Lsb(16, 5)
  {
    hide CodeBits, Msb, Lsb;
    FixedLitCode(200);
    FixedLitCode(111);
    FixedLitCode(265);
    FixedLitCode(256);
    FixedDistCode(1);
    FixedMirrors();
  }

  lemma FixedMirrors()
    ensures Msb(0x1c8, 9) == Lsb(39, 9)
    ensures Msb(0x9f, 8) == Lsb(249, 8)
    ensures Msb(9, 7) == Lsb(72, 7)
    ensures Msb(0, 7) == Lsb(0, 7)
    ensures Msb(1, 5) == Lsb(16, 5)
  {
    hide Msb, Lsb;
    SmallPowers();
    assert Mirrored(0x1c8, 9) == 39;
    MsbIsLsb(0x1c8, 9);
    assert Mirrored(0x9f, 8) == 249;
    MsbIsLsb(0x9f, 8);
    assert Mirrored(9, 7) == 72;
    MsbIsLsb(9, 7);
    assert Mirrored(0, 7) == 0;
    MsbIsLsb(0, 7);
    assert Mirrored(1, 5) == 16;
    MsbIsLsb(1, 5);
  }

  /** The block with fixed codes: two literals, and twelve bytes from two bytes back. */
  lemma FixedTokens(s: seq<bool>)
    requires Left(s, 59, 0xd3dfd418728dbe843f93b5861860000001a6f8c9a02191f227, 205)
    ensures 59 <= |s| && Left(s, 96, 0x69efea0c3946df421fc9dac30c30000000d37c64d, 168)
    ensures ReadTokens(FixedLit(), FixedDist(), s, 59, TEXT[..2]) == Some((TEXT[..16], 96))
  {
    hide *;
    Symbols();
    LeftFits(s, 59, 0xd3dfd418728dbe843f93b5861860000001a6f8c9a02191f227, 205);
    FixedComplete();
    FixedCodes();
    SmallPowers();
    FixedText();
    MatchWidths();
    LiteralStep(FixedLit(), FixedDist(), s, 59, 0xd3dfd418728dbe843f93b5861860000001a6f8c9a02191f227, 205, 200, 9,
      39, 0x69efea0c3946df421fc9dac30c30000000d37c64d010c8f9, TEXT[..2]);
    LiteralStep(FixedLit(), FixedDist(), s, 68, 0x69efea0c3946df421fc9dac30c30000000d37c64d010c8f9, 196, 111, 8, 249,
      0x69efea0c3946df421fc9dac30c30000000d37c64d010c8, TEXT[..3]);
    MatchStep(FixedLit(), FixedDist(), s, 76, 0x69efea0c3946df421fc9dac30c30000000d37c64d010c8, 188, 265, 7, 72, 1,
      1, 1, 5, 16, 0, 0, 0x34f7f5061ca36fa10fe4ed61861800000069be32680, TEXT[..4]);
    EndStep(FixedLit(), FixedDist(), s, 89, 0x34f7f5061ca36fa10fe4ed61861800000069be32680, 175, 7, 0,
      0x69efea0c3946df421fc9dac30c30000000d37c64d, TEXT[..16]);
  }

  lemma Symbols()
    ensures END_BLOCK == 256 && REP_3_6 == 16
  {}

  lemma MatchWidths()
    ensures LengthExtra(8) == 1 && LengthBase(8) == 11
    ensures DistExtra(1) == 0 && DistBase(1) == 2
    ensures DistExtra(2) == 0 && DistBase(2) == 3
    ensures DistExtra(6) == 2 && DistBase(6) == 9
  {}

  lemma FixedText()
    ensures |TEXT| == 43 && TEXT[..2] + [200] == TEXT[..3] && TEXT[..3] + [111] == TEXT[..4]
    ensures |TEXT[..4]| == 4 && CopyBack(TEXT[..4], 2, 12) == TEXT[..16]
  {
    hide CopyBack;
    assert TEXT[2] == 200 && TEXT[3] == 111;
    TextRepeats(4, 2, 12);
    CopiesInput(TEXT, 4, 2, 12);
  }

  lemma TextRepeats(p: nat, dist: nat, len: nat)
    requires (p, dist, len) in [(4, 2, 12), (19, 3, 12), (32, 10, 11)]
    ensures Repeats(TEXT, p, dist, len)
  {
    var a, b := TEXT[p - dist..p - dist + len], TEXT[p..p + len];
    assert |TEXT| == 43 && |a| == |b| == len;
    assert forall i :: 0 <= i < len ==> a[i] == TEXT[p - dist + i] && b[i] == TEXT[p + i];
  }

  lemma FixedBlock(s: seq<bool>)
    requires Left(s, 56, 0x69efea0c3946df421fc9dac30c30000000d37c64d010c8f913a, 208)
    ensures |s| == 264 && Left(s, 96, 0x69efea0c3946df421fc9dac30c30000000d37c64d, 168) && Inflate(s, 56,
      TEXT[..2]) == Inflate(s, 96, TEXT[..16])
  {
    hide *;
    SmallPowers();
    TextStart();
    LeftFits(s, 56, 0x69efea0c3946df421fc9dac30c30000000d37c64d010c8f913a, 208);
    Field(s, 56, 0x69efea0c3946df421fc9dac30c30000000d37c64d010c8f913a, 208, 3, 2,
      0xd3dfd418728dbe843f93b5861860000001a6f8c9a02191f227);
    FixedTokens(s);
    FixedBody(s, 59, TEXT[..2]);
    BlockStep(s, 56, 1, TEXT[..2], TEXT[..16], 96);
  }

  lemma FixedBody(s: seq<bool>, p: nat, hist: seq<byte>)
    requires p <= |s|
    ensures ReadBody(s, p, 1, hist) == ReadTokens(FixedLit(), FixedDist(), s, p, hist)
  {}

  // ---------- the block with codes of its own ----------

  const CODE_LENS: seq<nat> := [3, 3, 3, 3, 0, 0, 0, 0, 0, 0, 0, 0, 0, 0, 0, 0, 3, 3, 2]
  const DIST_LENS: seq<nat> := [2, 0, 2, 0, 0, 0, 1]

  function LitLens(): (r: seq<nat>)
    ensures |r| == 266
  {
    seq(266, i => if 97 <= i <= 102 || i == 256 || i == 265 then 3 else 0)
  }

  lemma {:induction false} KraftRun(l: seq<nat>, a: nat, b: nat, v: nat, m: nat)
    requires a <= b <= |l| && forall i :: a <= i < b ==> l[i] == v
    ensures Kraft(l[..b], m) == Kraft(l[..a], m) + (b - a) * (if 0 < v <= m then Pow2(m - v) else 0)
    decreases b - a
  {
    if a < b {
      KraftRun(l, a, b - 1, v, m);
      assert l[..b][..b - 1] == l[..b - 1];
      var u := if 0 < v <= m then Pow2(m - v) else 0;
      assert (b - a) * u == (b - 1 - a) * u + u;
    }
  }

  lemma CodeLensComplete()
    ensures Complete(CODE_LENS, 7)
  {
    hide Kraft, Pow2;
    SmallPowers();
    var l := CODE_LENS;
    KraftRun(l, 0, 4, 3, 7);
    KraftRun(l, 4, 16, 0, 7);
    KraftRun(l, 16, 18, 3, 7);
    KraftRun(l, 18, 19, 2, 7);
    assert l[..19] == l && l[..0] == [];
    KraftEmpty(7);
    Pow2Table();
  }

  lemma LitLensComplete()
    ensures Complete(LitLens(), 15)
  {
    hide Kraft, Pow2;
    SmallPowers();
    var l := LitLens();
    KraftRun(l, 0, 97, 0, 15);
    KraftRun(l, 97, 103, 3, 15);
    KraftRun(l, 103, 256, 0, 15);
    KraftRun(l, 256, 257, 3, 15);
    KraftRun(l, 257, 265, 0, 15);
    KraftRun(l, 265, 266, 3, 15);
    assert l[..266] == l && l[..0] == [];
    KraftEmpty(15);
    Pow2Table();
  }

  lemma DistLensComplete()
    ensures Complete(DIST_LENS, 15)
  {
    hide Kraft, Pow2;
    SmallPowers();
    var l := DIST_LENS;
    KraftRun(l, 0, 1, 2, 15);
    KraftRun(l, 1, 2, 0, 15);
    KraftRun(l, 2, 3, 2, 15);
    KraftRun(l, 3, 6, 0, 15);
    KraftRun(l, 6, 7, 1, 15);
    assert l[..7] == l && l[..0] == [];
    KraftEmpty(15);
    Pow2Table();
  }

  /** How often x stands among the first n code-length code lengths. */
  lemma CodeLensCount(n: nat, x: nat)
    requires n <= 19
    ensures Count(CODE_LENS[..n], x) ==
      (if x == 3 then (if n <= 4 then n else if n <= 16 then 4 else if n <= 18 then n - 12 else 6) else 0)
      + (if x == 2 && n == 19 then 1 else 0)
      + (if x == 0 && n > 4 then if n <= 16 then n - 4 else 12 else 0)
  {
    hide Count;
    var l := CODE_LENS;
    assert l[..0] == [];
    NoCount(x);
    CountSegment(l, 0, if n <= 4 then n else 4, 3, x);
    if n > 4 { CountSegment(l, 4, if n <= 16 then n else 16, 0, x); }
    if n > 16 { CountSegment(l, 16, if n <= 18 then n else 18, 3, x); }
    if n > 18 { CountSegment(l, 18, 19, 2, x); }
  }

  lemma CodeLensCodes()
    ensures CODE_LENS[0] == 3 && CodeBits(CODE_LENS, 0) == Lsb(2, 3)
    ensures CODE_LENS[1] == 3 && CodeBits(CODE_LENS, 1) == Lsb(6, 3)
    ensures CODE_LENS[2] == 3 && CodeBits(CODE_LENS, 2) == Lsb(1, 3)
    ensures CODE_LENS[3] == 3 && CodeBits(CODE_LENS, 3) == Lsb(5, 3)
    ensures CODE_LENS[16] == 3 && CodeBits(CODE_LENS, 16) == Lsb(3, 3)
    ensures CODE_LENS[17] == 3 && CodeBits(CODE_LENS, 17) == Lsb(7, 3)
    ensures CODE_LENS[18] == 2 && CodeBits(CODE_LENS, 18) == Lsb(0, 2)
  {
    hide Count, Msb, Lsb;
    var l := CODE_LENS;
    assert l[..19] == l;
    CodeLensCount(19, 1);
    CodeLensCount(19, 2);
    assert FirstCode(l, 1) == 0 && FirstCode(l, 2) == 0 && FirstCode(l, 3) == 2;
    ThreeBits();
    CodeLensCount(0, 3);
    CodeLensCount(1, 3);
    CodeLensCount(2, 3);
    CodeLensCount(3, 3);
    CodeLensCount(16, 3);
    CodeLensCount(17, 3);
    CodeLensCount(18, 2);
  }

  /** The codes of up to three bits, first bit first and last bit first. */
  lemma ThreeBits()
    ensures Msb(0, 1) == Lsb(0, 1)
    ensures Msb(0, 2) == Lsb(0, 2) && Msb(2, 2) == Lsb(1, 2) && Msb(3, 2) == Lsb(3, 2)
    ensures Msb(0, 3) == Lsb(0, 3) && Msb(1, 3) == Lsb(4, 3) && Msb(2, 3) == Lsb(2, 3) && Msb(3, 3) == Lsb(6, 3)
    ensures Msb(4, 3) == Lsb(1, 3) && Msb(5, 3) == Lsb(5, 3) && Msb(6, 3) == Lsb(3, 3) && Msb(7, 3) == Lsb(7, 3)
  {
    hide Msb, Lsb;
    SmallPowers();
    MsbIsLsb(0, 1);
    MsbIsLsb(0, 2);
    MsbIsLsb(2, 2);
    MsbIsLsb(3, 2);
    MsbIsLsb(0, 3);
    MsbIsLsb(1, 3);
    MsbIsLsb(2, 3);
    MsbIsLsb(3, 3);
    MsbIsLsb(4, 3);
    MsbIsLsb(5, 3);
    MsbIsLsb(6, 3);
    MsbIsLsb(7, 3);
    Mirrors();
  }

  lemma Mirrors()
    ensures Mirrored(0, 1) == 0 && Mirrored(0, 2) == 0 && Mirrored(2, 2) == 1 && Mirrored(3, 2) == 3
    ensures Mirrored(0, 3) == 0 && Mirrored(1, 3) == 4 && Mirrored(2, 3) == 2 && Mirrored(3, 3) == 6
    ensures Mirrored(4, 3) == 1 && Mirrored(5, 3) == 5 && Mirrored(6, 3) == 3 && Mirrored(7, 3) == 7
  {}

  lemma LitCount(n: nat, x: nat)
    requires n <= 266 && 1 <= x
    ensures Count(LitLens()[..n], x) == if x != 3 then 0 else
      if n <= 97 then 0 else if n <= 103 then n - 97 else if n <= 256 then 6 else if n <= 265 then 7 else 8
  {
    hide Count;
    var l := LitLens();
    assert l[..0] == [];
    NoCount(x);
    CountSegment(l, 0, if n <= 97 then n else 97, 0, x);
    if n > 97 { CountSegment(l, 97, if n <= 103 then n else 103, 3, x); }
    if n > 103 { CountSegment(l, 103, if n <= 256 then n else 256, 0, x); }
    if n > 256 { CountSegment(l, 256, 257, 3, x); }
    if n > 257 { CountSegment(l, 257, if n <= 265 then n else 265, 0, x); }
    if n > 265 { CountSegment(l, 265, 266, 3, x); }
  }

  lemma LitCodes()
    ensures LitLens()[97] == 3 && CodeBits(LitLens(), 97) == Lsb(0, 3)
    ensures LitLens()[98] == 3 && CodeBits(LitLens(), 98) == Lsb(4, 3)
    ensures LitLens()[99] == 3 && CodeBits(LitLens(), 99) == Lsb(2, 3)
    ensures LitLens()[102] == 3 && CodeBits(LitLens(), 102) == Lsb(5, 3)
    ensures LitLens()[256] == 3 && CodeBits(LitLens(), 256) == Lsb(3, 3)
    ensures LitLens()[265] == 3 && CodeBits(LitLens(), 265) == Lsb(7, 3)
  {
    hide Count, Msb, Lsb;
    var l := LitLens();
    assert l[..266] == l;
    LitCount(266, 1);
    LitCount(266, 2);
    assert FirstCode(l, 1) == 0 && FirstCode(l, 2) == 0 && FirstCode(l, 3) == 0;
    ThreeBits();
    LitCount(97, 3);
    LitCount(98, 3);
    LitCount(99, 3);
    LitCount(102, 3);
    LitCount(256, 3);
    LitCount(265, 3);
  }

  lemma DistCodes()
    ensures |DIST_LENS| == 7 && DIST_LENS[2] == 2 && DIST_LENS[6] == 1
    ensures CodeBits(DIST_LENS, 2) == Lsb(3, 2) && CodeBits(DIST_LENS, 6) == Lsb(0, 1)
  {
    hide Count, Msb, Lsb;
    var l := DIST_LENS;
    assert l[..0] == [] && l[..7] == l;
    NoCount(1);
    NoCount(2);
    forall x: nat | 1 <= x <= 2
      ensures Count(l[..2], x) == (if x == 2 then 1 else 0) && Count(l[..6], x) == (if x == 2 then 2 else 0)
      ensures Count(l, x) == if x == 2 then 2 else 1
    {
      NoCount(x);
      CountSegment(l, 0, 1, 2, x);
      CountSegment(l, 1, 2, 0, x);
      CountSegment(l, 2, 3, 2, x);
      CountSegment(l, 3, 6, 0, x);
      CountSegment(l, 6, 7, 1, x);
    }
    assert FirstCode(l, 1) == 0 && FirstCode(l, 2) == 2;
    ThreeBits();
  }

  /** The code-length code lengths while the first r of the order have been read. */
  function ReadSoFar(r: nat): (lens: seq<nat>)
    ensures |lens| == 19
  {
    seq(19, v requires 0 <= v < 19 => if Rank(v) < r then CODE_LENS[v] else 0)
  }

  lemma ReadSoFarStep(r: nat)
    requires r < 19
    ensures ReadSoFar(r)[Order(r) := CODE_LENS[Order(r)]] == ReadSoFar(r + 1)
  {
    hide Order, Rank, CODE_LENS;
    OrderIsPermutation();
    RanksApart(r);
  }

  lemma RanksApart(r: nat)
    requires r < 19
    ensures |CODE_LENS| == 19 && Rank(Order(r)) == r
    ensures forall v :: 0 <= v < 19 && v != Order(r) ==> Rank(v) != r
  {
    hide Order, Rank;
    OrderIsPermutation();
    assert |CODE_LENS| == 19;
    assert Order(Rank(Order(r))) == Order(r);
    assert Rank(Order(r)) == r;
  }

  lemma ReadSoFarEnds()
    ensures ReadSoFar(0) == Repeat<nat>(0, 19) && ReadSoFar(18) == CODE_LENS
  {
    assert |CODE_LENS| == 19;
    forall v | 0 <= v < 19 ensures ReadSoFar(18)[v] == CODE_LENS[v] {
      if v == 15 { assert CODE_LENS[15] == 0; }
    }
  }

  lemma BlLenStep(s: seq<bool>, p: nat, r: nat, k: nat, rank: nat, v: nat, rest: nat)
    requires Left(s, p, r, k) && k >= 3 && rank < 18 && v < 8 && r == v + rest * 8
    requires |CODE_LENS| == 19 && CODE_LENS[Order(rank)] == v
    ensures ReadBlLens(s, p, 18, rank, ReadSoFar(rank)) == ReadBlLens(s, p + 3, 18, rank + 1, ReadSoFar(rank + 1))
    ensures Left(s, p + 3, rest, k - 3)
  {
    hide Left, ReadBits, Order, CODE_LENS, ReadSoFar, Lsb, Pow2;
    Pow2Table();
    Field(s, p, r, k, 3, v, rest);
    ReadSoFarStep(rank);
  }

  lemma OrderValues0()
    ensures |CODE_LENS| == 19
    ensures CODE_LENS[Order(0)] == 3 && CODE_LENS[Order(1)] == 3 && CODE_LENS[Order(2)] == 2
    ensures CODE_LENS[Order(3)] == 3 && CODE_LENS[Order(4)] == 0 && CODE_LENS[Order(5)] == 0
    ensures CODE_LENS[Order(6)] == 0 && CODE_LENS[Order(7)] == 0 && CODE_LENS[Order(8)] == 0
  {
    hide Order;
    OrderIs(0);
    OrderIs(1);
    OrderIs(2);
    OrderIs(3);
    OrderIs(4);
    OrderIs(5);
    OrderIs(6);
    OrderIs(7);
    OrderIs(8);
  }

  lemma BlLens0(s: seq<bool>)
    requires Left(s, 113, 0x34f7f5061ca36fa10fe4ed61861800000069b, 151)
    ensures ReadBlLens(s, 113, 18, 0, ReadSoFar(0)) == ReadBlLens(s, 140, 18, 9, ReadSoFar(9))
    ensures Left(s, 140, 0x69efea0c3946df421fc9dac30c3000, 124)
  {
    hide *;
    OrderValues0();
    BlLenStep(s, 113, 0x34f7f5061ca36fa10fe4ed61861800000069b, 151, 0, 3, 0x69efea0c3946df421fc9dac30c30000000d3);
    BlLenStep(s, 116, 0x69efea0c3946df421fc9dac30c30000000d3, 148, 1, 3, 0xd3dfd418728dbe843f93b5861860000001a);
    BlLenStep(s, 119, 0xd3dfd418728dbe843f93b5861860000001a, 145, 2, 2, 0x1a7bfa830e51b7d087f276b0c30c0000003);
    BlLenStep(s, 122, 0x1a7bfa830e51b7d087f276b0c30c0000003, 142, 3, 3, 0x34f7f5061ca36fa10fe4ed618618000000);
    BlLenStep(s, 125, 0x34f7f5061ca36fa10fe4ed618618000000, 139, 4, 0, 0x69efea0c3946df421fc9dac30c3000000);
    BlLenStep(s, 128, 0x69efea0c3946df421fc9dac30c3000000, 136, 5, 0, 0xd3dfd418728dbe843f93b58618600000);
    BlLenStep(s, 131, 0xd3dfd418728dbe843f93b58618600000, 133, 6, 0, 0x1a7bfa830e51b7d087f276b0c30c0000);
    BlLenStep(s, 134, 0x1a7bfa830e51b7d087f276b0c30c0000, 130, 7, 0, 0x34f7f5061ca36fa10fe4ed618618000);
    BlLenStep(s, 137, 0x34f7f5061ca36fa10fe4ed618618000, 127, 8, 0, 0x69efea0c3946df421fc9dac30c3000);
  }

  lemma OrderValues1()
    ensures |CODE_LENS| == 19
    ensures CODE_LENS[Order(9)] == 0 && CODE_LENS[Order(10)] == 0 && CODE_LENS[Order(11)] == 0
    ensures CODE_LENS[Order(12)] == 0 && CODE_LENS[Order(13)] == 3 && CODE_LENS[Order(14)] == 0
    ensures CODE_LENS[Order(15)] == 3 && CODE_LENS[Order(16)] == 0 && CODE_LENS[Order(17)] == 3
  {
    hide Order;
    OrderIs(9);
    OrderIs(10);
    OrderIs(11);
    OrderIs(12);
    OrderIs(13);
    OrderIs(14);
    OrderIs(15);
    OrderIs(16);
    OrderIs(17);
  }

  lemma BlLens1(s: seq<bool>)
    requires Left(s, 140, 0x69efea0c3946df421fc9dac30c3000, 124)
    ensures ReadBlLens(s, 140, 18, 9, ReadSoFar(9)) == ReadBlLens(s, 167, 18, 18, ReadSoFar(18))
    ensures Left(s, 167, 0xd3dfd418728dbe843f93b58, 97)
  {
    hide *;
    OrderValues1();
    BlLenStep(s, 140, 0x69efea0c3946df421fc9dac30c3000, 124, 9, 0, 0xd3dfd418728dbe843f93b58618600);
    BlLenStep(s, 143, 0xd3dfd418728dbe843f93b58618600, 121, 10, 0, 0x1a7bfa830e51b7d087f276b0c30c0);
    BlLenStep(s, 146, 0x1a7bfa830e51b7d087f276b0c30c0, 118, 11, 0, 0x34f7f5061ca36fa10fe4ed618618);
    BlLenStep(s, 149, 0x34f7f5061ca36fa10fe4ed618618, 115, 12, 0, 0x69efea0c3946df421fc9dac30c3);
    BlLenStep(s, 152, 0x69efea0c3946df421fc9dac30c3, 112, 13, 3, 0xd3dfd418728dbe843f93b58618);
    BlLenStep(s, 155, 0xd3dfd418728dbe843f93b58618, 109, 14, 0, 0x1a7bfa830e51b7d087f276b0c3);
    BlLenStep(s, 158, 0x1a7bfa830e51b7d087f276b0c3, 106, 15, 3, 0x34f7f5061ca36fa10fe4ed618);
    BlLenStep(s, 161, 0x34f7f5061ca36fa10fe4ed618, 103, 16, 0, 0x69efea0c3946df421fc9dac3);
    BlLenStep(s, 164, 0x69efea0c3946df421fc9dac3, 100, 17, 3, 0xd3dfd418728dbe843f93b58);
  }

  lemma BlLensRead(s: seq<bool>, p: nat, lens: seq<nat>)
    requires |lens| == 19
    ensures ReadBlLens(s, p, 18, 18, lens) == Some((lens, p))
  {}

  // ---------- the code lengths ----------

  function AllLens(): (r: seq<nat>)
    ensures |r| == 273
  {
    assert |DIST_LENS| == 7;
    LitLens() + DIST_LENS
  }

  lemma RunRead(n: nat, c: nat, x: nat, m: nat)
    requires c <= 18 && (c == 16 ==> 0 < n) && n <= m <= 273
    requires x < (if c < 16 then 1 else if c == 16 then 4 else if c == 17 then 8 else 128)
    requires m == n + (if c < 16 then 1 else if c < 18 then 3 + x else 11 + x)
    requires forall i :: n <= i < m ==> AllLens()[i] == if c < 16 then c else if c == 16 then AllLens()[n - 1] else 0
    ensures ItemOk(Item(c, x)) && Apply(Item(c, x), AllLens()[..n]) == AllLens()[..m]
  {
    hide AllLens;
    ApplyIs(c, x, AllLens()[..n]);
  }

  lemma LensValues()
    ensures |AllLens()| == 273 && |CODE_LENS| == 19
    ensures forall i :: 0 <= i < 97 ==> AllLens()[i] == 0
    ensures AllLens()[97] == 3
    ensures forall i :: 98 <= i < 103 ==> AllLens()[i] == 3
    ensures forall i :: 103 <= i < 241 ==> AllLens()[i] == 0
    ensures forall i :: 241 <= i < 256 ==> AllLens()[i] == 0
    ensures AllLens()[256] == 3
    ensures forall i :: 257 <= i < 265 ==> AllLens()[i] == 0
    ensures AllLens()[265] == 3
    ensures AllLens()[266] == 2
    ensures AllLens()[267] == 0
    ensures AllLens()[268] == 2
    ensures forall i :: 269 <= i < 272 ==> AllLens()[i] == 0
    ensures AllLens()[272] == 1
  {
    assert |DIST_LENS| == 7;
  }

  lemma ExtraWidths()
    ensures forall c :: 0 <= c < 16 ==> ExtraWidth(c) == 0
    ensures ExtraWidth(16) == 2 && ExtraWidth(17) == 3 && ExtraWidth(18) == 7
    ensures REP_3_6 == 16
  {}

  lemma Lens0(s: seq<bool>)
    requires Left(s, 167, 0xd3dfd418728dbe843f93b58, 97)
    ensures |s| == 264 && Left(s, 202, 0x1a7bfa830e51b7d, 62) && |AllLens()| == 273
    ensures ReadLens(CODE_LENS, s, 167, 273, AllLens()[..0])
      == ReadLens(CODE_LENS, s, 202, 273, AllLens()[..256])
  {
    hide *;
    LeftFits(s, 167, 0xd3dfd418728dbe843f93b58, 97);
    LensValues();
    ExtraWidths();
    SmallPowers();
    CodeLensComplete();
    CodeLensCodes();
    RunRead(0, 18, 86, 97);
    LensStep(CODE_LENS, s, 167, 0xd3dfd418728dbe843f93b58, 97, 273, 18, 2, 0, 86, 7, 0x69efea0c3946df421fc9d,
      AllLens()[..0]);
    RunRead(97, 3, 0, 98);
    LensStep(CODE_LENS, s, 176, 0x69efea0c3946df421fc9d, 88, 273, 3, 3, 5, 0, 0, 0xd3dfd418728dbe843f93,
      AllLens()[..97]);
    RunRead(98, 16, 2, 103);
    LensStep(CODE_LENS, s, 179, 0xd3dfd418728dbe843f93, 85, 273, 16, 3, 3, 2, 2, 0x69efea0c3946df421fc,
      AllLens()[..98]);
    RunRead(103, 18, 127, 241);
    LensStep(CODE_LENS, s, 184, 0x69efea0c3946df421fc, 80, 273, 18, 2, 0, 127, 7, 0x34f7f5061ca36fa10,
      AllLens()[..103]);
    RunRead(241, 18, 4, 256);
    LensStep(CODE_LENS, s, 193, 0x34f7f5061ca36fa10, 71, 273, 18, 2, 0, 4, 7, 0x1a7bfa830e51b7d,
      AllLens()[..241]);
  }

  lemma Lens1(s: seq<bool>)
    requires Left(s, 202, 0x1a7bfa830e51b7d, 62)
    ensures |s| == 264 && Left(s, 217, 0x34f7f5061ca, 47) && |AllLens()| == 273
    ensures ReadLens(CODE_LENS, s, 202, 273, AllLens()[..256])
      == ReadLens(CODE_LENS, s, 217, 273, AllLens()[..267])
  {
    hide *;
    LeftFits(s, 202, 0x1a7bfa830e51b7d, 62);
    LensValues();
    ExtraWidths();
    SmallPowers();
    CodeLensComplete();
    CodeLensCodes();
    RunRead(256, 3, 0, 257);
    LensStep(CODE_LENS, s, 202, 0x1a7bfa830e51b7d, 62, 273, 3, 3, 5, 0, 0, 0x34f7f5061ca36f,
      AllLens()[..256]);
    RunRead(257, 17, 5, 265);
    LensStep(CODE_LENS, s, 205, 0x34f7f5061ca36f, 59, 273, 17, 3, 7, 5, 3, 0xd3dfd418728d,
      AllLens()[..257]);
    RunRead(265, 3, 0, 266);
    LensStep(CODE_LENS, s, 211, 0xd3dfd418728d, 53, 273, 3, 3, 5, 0, 0, 0x1a7bfa830e51,
      AllLens()[..265]);
    RunRead(266, 2, 0, 267);
    LensStep(CODE_LENS, s, 214, 0x1a7bfa830e51, 50, 273, 2, 3, 1, 0, 0, 0x34f7f5061ca,
      AllLens()[..266]);
  }

  lemma Lens2(s: seq<bool>)
    requires Left(s, 217, 0x34f7f5061ca, 47)
    ensures |s| == 264 && Left(s, 232, 0x69efea0, 32) && |AllLens()| == 273
    ensures ReadLens(CODE_LENS, s, 217, 273, AllLens()[..267])
      == ReadLens(CODE_LENS, s, 232, 273, AllLens()[..273])
  {
    hide *;
    LeftFits(s, 217, 0x34f7f5061ca, 47);
    LensValues();
    ExtraWidths();
    SmallPowers();
    CodeLensComplete();
    CodeLensCodes();
    RunRead(267, 0, 0, 268);
    LensStep(CODE_LENS, s, 217, 0x34f7f5061ca, 47, 273, 0, 3, 2, 0, 0, 0x69efea0c39,
      AllLens()[..267]);
    RunRead(268, 2, 0, 269);
    LensStep(CODE_LENS, s, 220, 0x69efea0c39, 44, 273, 2, 3, 1, 0, 0, 0xd3dfd4187,
      AllLens()[..268]);
    RunRead(269, 17, 0, 272);
    LensStep(CODE_LENS, s, 223, 0xd3dfd4187, 41, 273, 17, 3, 7, 0, 3, 0x34f7f506,
      AllLens()[..269]);
    RunRead(272, 1, 0, 273);
    LensStep(CODE_LENS, s, 229, 0x34f7f506, 35, 273, 1, 3, 6, 0, 0, 0x69efea0,
      AllLens()[..272]);
  }

  lemma HeaderFields(s: seq<bool>)
    requires Left(s, 96, 0x69efea0c3946df421fc9dac30c30000000d37c64d, 168)
    ensures |s| == 264 && ReadBits(s, 96, 3) == Some((5, 99)) && ReadBits(s, 99, 5) == Some((9, 104))
    ensures ReadBits(s, 104, 5) == Some((6, 109)) && ReadBits(s, 109, 4) == Some((14, 113))
    ensures Left(s, 113, 0x34f7f5061ca36fa10fe4ed61861800000069b, 151)
  {
    hide *;
    SmallPowers();
    LeftFits(s, 96, 0x69efea0c3946df421fc9dac30c30000000d37c64d, 168);
    Field(s, 96, 0x69efea0c3946df421fc9dac30c30000000d37c64d, 168, 3, 5, 0xd3dfd418728dbe843f93b5861860000001a6f8c9);
    Field(s, 99, 0xd3dfd418728dbe843f93b5861860000001a6f8c9, 165, 5, 9, 0x69efea0c3946df421fc9dac30c30000000d37c6);
    Field(s, 104, 0x69efea0c3946df421fc9dac30c30000000d37c6, 160, 5, 6, 0x34f7f5061ca36fa10fe4ed61861800000069be);
    Field(s, 109, 0x34f7f5061ca36fa10fe4ed61861800000069be, 155, 4, 14, 0x34f7f5061ca36fa10fe4ed61861800000069b);
  }

  lemma CodesRead(s: seq<bool>)
    requires |s| == 264 && ReadBits(s, 99, 5) == Some((9, 104)) && ReadBits(s, 104, 5) == Some((6, 109))
    requires ReadBits(s, 109, 4) == Some((14, 113))
    requires ReadBlLens(s, 113, 18, 0, Repeat(0, 19)) == Some((CODE_LENS, 167))
    requires Complete(CODE_LENS, 7) && ReadLens(CODE_LENS, s, 167, 273, []) == Some((AllLens(), 232))
    requires Complete(LitLens(), 15) && Complete(DIST_LENS, 15) && LitLens()[256] == 3
    ensures ReadCodes(s, 99) == Some((Codes(LitLens(), DIST_LENS), 232))
  {
    hide ReadBits, ReadBlLens, ReadLens, Complete, LitLens;
    assert |DIST_LENS| == 7;
    assert AllLens()[..266] == LitLens() && AllLens()[266..] == DIST_LENS;
  }

  lemma LensEnd(s: seq<bool>, bl: seq<nat>, p: nat, acc: seq<nat>)
    requires p <= |s|
    ensures ReadLens(bl, s, p, |acc|, acc) == Some((acc, p))
  {}

  /** The header: the code lengths of the block. */
  lemma DynamicCodes(s: seq<bool>)
    requires Left(s, 96, 0x69efea0c3946df421fc9dac30c30000000d37c64d, 168)
    ensures |s| == 264 && ReadBits(s, 96, 3) == Some((5, 99)) && Left(s, 232, 0x69efea0, 32)
    ensures ReadCodes(s, 99) == Some((Codes(LitLens(), DIST_LENS), 232))
  {
    hide *;
    HeaderFields(s);
    ReadSoFarEnds();
    BlLens0(s);
    BlLens1(s);
    BlLensRead(s, 167, ReadSoFar(18));
    Lens0(s);
    Lens1(s);
    Lens2(s);
    assert AllLens()[..0] == [] && AllLens()[..273] == AllLens();
    LensEnd(s, CODE_LENS, 232, AllLens());
    CodeLensComplete();
    LitLensComplete();
    DistLensComplete();
    LitCodes();
    CodesRead(s);
  }

  lemma DynamicText()
    ensures |TEXT| == 43 && TEXT[..16] + [97] == TEXT[..17] && TEXT[..17] + [98] == TEXT[..18]
    ensures TEXT[..18] + [99] == TEXT[..19] && CopyBack(TEXT[..19], 3, 12) == TEXT[..31]
    ensures TEXT[..31] + [102] == TEXT[..32] && CopyBack(TEXT[..32], 10, 11) == TEXT[..43] && TEXT[..43] == TEXT
  {
    hide CopyBack;
    assert TEXT[16] == 97 && TEXT[17] == 98 && TEXT[18] == 99 && TEXT[31] == 102;
    TextRepeats(19, 3, 12);
    TextRepeats(32, 10, 11);
    CopiesInput(TEXT, 19, 3, 12);
    CopiesInput(TEXT, 32, 10, 11);
  }

  lemma DynamicTokens(s: seq<bool>)
    requires Left(s, 232, 0x69efea0, 32)
    ensures 232 <= |s| && ReadTokens(LitLens(), DIST_LENS, s, 232, TEXT[..16]) == Some((TEXT, 260))
  {
    hide *;
    Symbols();
    LeftFits(s, 232, 0x69efea0, 32);
    LitLensComplete();
    DistLensComplete();
    LitCodes();
    DistCodes();
    SmallPowers();
    DynamicText();
    MatchWidths();
    LiteralStep(LitLens(), DIST_LENS, s, 232, 0x69efea0, 32, 97, 3, 0, 0xd3dfd4, TEXT[..16]);
    LiteralStep(LitLens(), DIST_LENS, s, 235, 0xd3dfd4, 29, 98, 3, 4, 0x1a7bfa, TEXT[..17]);
    LiteralStep(LitLens(), DIST_LENS, s, 238, 0x1a7bfa, 26, 99, 3, 2, 0x34f7f, TEXT[..18]);
    MatchStep(LitLens(), DIST_LENS, s, 241, 0x34f7f, 23, 265, 3, 7, 1, 1, 2, 2, 3, 0, 0, 0xd3d, TEXT[..19]);
    LiteralStep(LitLens(), DIST_LENS, s, 247, 0xd3d, 17, 102, 3, 5, 0x1a7, TEXT[..31]);
    MatchStep(LitLens(), DIST_LENS, s, 250, 0x1a7, 14, 265, 3, 7, 0, 1, 6, 1, 0, 1, 2, 3, TEXT[..32]);
    EndStep(LitLens(), DIST_LENS, s, 257, 3, 7, 3, 3, 0, TEXT);
  }

  lemma DynamicBody(s: seq<bool>, p: nat, hist: seq<byte>, ll: seq<nat>, dl: seq<nat>, q: nat)
    requires p <= |s| && ReadCodes(s, p) == Some((Codes(ll, dl), q))
    ensures q <= |s| && ReadBody(s, p, 2, hist) == ReadTokens(ll, dl, s, q, hist)
  {
    hide ReadCodes, ReadTokens;
  }

  /** The last block: literals, and two matches with extra bits. */
  lemma DynamicBlock(s: seq<bool>)
    requires Left(s, 96, 0x69efea0c3946df421fc9dac30c30000000d37c64d, 168)
    ensures 96 <= |s| && Inflate(s, 96, TEXT[..16]) == Some((TEXT, 260))
  {
    hide *;
    TextStart();
    DynamicCodes(s);
    DynamicTokens(s);
    DynamicBody(s, 99, TEXT[..16], LitLens(), DIST_LENS, 232);
    LastStep(s, 96, 2, TEXT[..16], TEXT, 260);
  }

  /** The decoder reads the stream to its last block and returns the text. */
  lemma StreamDecodes()
    ensures Inflate(BitsOf([
      0, 2, 0, 253, 255, 104, 105, 58, 145, 143, 12, 1, 77, 198, 55, 13, 0, 0, 0, 195, 48, 172,
      157, 252, 33, 244, 109, 148, 195, 160, 254, 158, 6]), 0, []) == Some(([
      104, 105, 200, 111, 200, 111, 200, 111, 200, 111, 200, 111, 200, 111, 200, 111, 97, 98, 99, 97, 98, 99,
      97, 98, 99, 97, 98, 99, 97, 98, 99, 102, 97, 98, 99, 97, 98, 99, 97, 98, 99, 102, 97], 260))
  {
    hide *;
    StreamIs();
    StreamLeft();
    var s := BitsOf(STREAM);
    StoredBlock(s);
    FixedBlock(s);
    DynamicBlock(s);
  }

  lemma StreamIs()
    ensures STREAM == [
      0, 2, 0, 253, 255, 104, 105, 58, 145, 143, 12, 1, 77, 198, 55, 13, 0, 0, 0, 195, 48, 172,
      157, 252, 33, 244, 109, 148, 195, 160, 254, 158, 6]
    ensures TEXT == [
      104, 105, 200, 111, 200, 111, 200, 111, 200, 111, 200, 111, 200, 111, 200, 111, 97, 98, 99, 97, 98, 99,
      97, 98, 99, 97, 98, 99, 97, 98, 99, 102, 97, 98, 99, 97, 98, 99, 97, 98, 99, 102, 97]
  {}
}
