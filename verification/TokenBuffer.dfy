/** The buffer of literals and matches: l_buf and d_buf with a bit array that tells
    them apart, and compress_block, which sends what the buffer holds. */
module TokenBuffer {
  import opened Bits
  import opened BitWriter
  import opened Canonical
  import opened Inflater
  import opened EncoderTables
  import opened Blocks
  import opened TreeBuilder
  import opened TreeCoding
  import opened CodeTables
  import opened Costs

  // ---------- what the arrays hold for given tokens ----------

  function LcOf(t: Token): nat {
    match t
    case Literal(b) => b
    case Match(len, dist) => if len >= 3 then len - 3 else 0
  }

  function LcSeq(ts: seq<Token>): (r: seq<nat>)
    ensures |r| == |ts|
  {
    seq(|ts|, i requires 0 <= i < |ts| => LcOf(ts[i]))
  }

  function DistSeq(ts: seq<Token>): (r: seq<nat>)
    ensures |r| == |Matches(ts)|
  {
    var m := Matches(ts);
    seq(|m|, i requires 0 <= i < |m| => if m[i].dist >= 1 then m[i].dist - 1 else 0)
  }

  function Kinds(ts: seq<Token>): (r: seq<bool>)
    ensures |r| == |ts|
  {
    seq(|ts|, i requires 0 <= i < |ts| => ts[i].Match?)
  }

  /** The flags of the tokens from place 8 * k on, at most eight of them. */
  function FlagsAt(ts: seq<Token>, k: nat): (r: seq<bool>)
    requires 8 * k <= |ts|
  {
    Kinds(ts)[8 * k..if 8 * k + 8 <= |ts| then 8 * k + 8 else |ts|]
  }

  lemma {:induction false} ValueSnoc(s: seq<bool>, b: bool)
    ensures Value(s + [b]) == Value(s) + (if b then Pow2(|s|) else 0)
  {
    if s == [] {
      assert [b][1..] == [];
    } else {
      ValueSnoc(s[1..], b);
      assert (s + [b])[1..] == s[1..] + [b];
    }
  }

  /** The state of the flags after the tokens. */
  predicate FlagsOk(buf: seq<nat>, last: nat, flags: nat, bit: nat, ts: seq<Token>)
  {
    && last == |ts| / 8 <= |buf|
    && (forall k :: 0 <= k < last ==> buf[k] == Value(FlagsAt(ts, k)))
    && flags == Value(FlagsAt(ts, last)) && bit == Pow2(|ts| % 8)
  }

  lemma NoFlags(buf: seq<nat>)
    ensures FlagsOk(buf, 0, 0, 1, [])
  {
    assert FlagsAt([], 0) == [];
  }

  lemma FlagsAtSnoc(ts: seq<Token>, t: Token, k: nat)
    requires 8 * k <= |ts|
    ensures 8 * k + 8 <= |ts| ==> FlagsAt(ts + [t], k) == FlagsAt(ts, k)
    ensures |ts| < 8 * k + 8 ==> FlagsAt(ts + [t], k) == FlagsAt(ts, k) + [t.Match?] && |FlagsAt(ts, k)| == |ts| - 8 * k
  {}

  /** Or-ing in the current bit for a match; a full byte goes into the buffer. */
  lemma FlagsStep(buf: seq<nat>, last: nat, flags: nat, bit: nat, ts: seq<Token>, t: Token)
    requires FlagsOk(buf, last, flags, bit, ts) && last < |buf|
    ensures var ts1, n := ts + [t], |ts| + 1; var flags1 := if t.Match? then Or(flags, bit) else flags;
      && (n % 8 != 0 ==> FlagsOk(buf, last, flags1, 2 * bit % 0x100, ts1))
      && (n % 8 == 0 ==> FlagsOk(buf[last := flags1], last + 1, 0, 1, ts1))
  {
    hide FlagsAt, Value, Or, Pow2;
    Pow2Table();
    var ts1, n := ts + [t], |ts| + 1;
    var flags1 := if t.Match? then Or(flags, bit) else flags;
    var cur := FlagsAt(ts, last);
    FlagsAtSnoc(ts, t, last);
    assert |cur| == |ts| % 8;
    ValueSnoc(cur, t.Match?);
    ValueBound(cur);
    OrShifted(flags, 1, |cur|);
    assert 1 * Pow2(|cur|) == bit;
    assert flags1 == Value(FlagsAt(ts1, last));
    forall k | 0 <= k < last ensures FlagsAt(ts1, k) == FlagsAt(ts, k) { FlagsAtSnoc(ts, t, k); }
    if n % 8 == 0 {
      NewByte(ts1, last + 1);
    } else {
      NextBit(|ts|, n);
    }
  }

  lemma NewByte(ts: seq<Token>, k: nat)
    requires |ts| == 8 * k
    ensures Value(FlagsAt(ts, k)) == 0 && Pow2(0) == 1
  {
    assert FlagsAt(ts, k) == [];
  }

  lemma NextBit(m: nat, n: nat)
    requires n == m + 1 && n % 8 != 0
    ensures 2 * Pow2(m % 8) % 0x100 == Pow2(n % 8) && n / 8 == m / 8
  {
    hide Pow2;
    Pow2Table();
  }

  /** Every byte of flags is in the buffer. */
  predicate FlagsSaved(buf: seq<nat>, ts: seq<Token>)
  {
    |ts| <= 8 * |buf| && forall k :: 0 <= k < |buf| && 8 * k < |ts| ==> buf[k] == Value(FlagsAt(ts, k))
  }

  lemma SavesFlags(buf: seq<nat>, last: nat, flags: nat, bit: nat, ts: seq<Token>)
    requires FlagsOk(buf, last, flags, bit, ts) && last < |buf|
    ensures FlagsSaved(buf[last := flags], ts)
  {
    hide FlagsAt, Value;
  }

  lemma TokensGrow(ts: seq<Token>, t: Token)
    ensures LcSeq(ts + [t]) == LcSeq(ts) + [LcOf(t)]
    ensures DistSeq(ts + [t]) == DistSeq(ts) + (if t.Match? then [if t.dist >= 1 then t.dist - 1 else 0] else [])
    ensures |Matches(ts + [t])| == |Matches(ts)| + (if t.Match? then 1 else 0)
  {
    hide Matches;
    MatchesConcat(ts, [t]);
    MatchOf(t);
  }

  /** The next distance of the block, when the first lx tokens are done. */
  lemma NextDist(ts: seq<Token>, lx: nat)
    requires lx < |ts|
    ensures |Matches(ts[..lx + 1])| == |Matches(ts[..lx])| + (if ts[lx].Match? then 1 else 0)
    ensures ts[lx].Match? ==> var dx := |Matches(ts[..lx])|; dx < |DistSeq(ts)| && Matches(ts)[dx] == ts[lx]
  {
    assert ts[..lx + 1] == ts[..lx] + [ts[lx]];
    MatchesConcat(ts[..lx], [ts[lx]]);
    MatchOf(ts[lx]);
    assert ts == ts[..lx + 1] + ts[lx + 1..];
    MatchesConcat(ts[..lx + 1], ts[lx + 1..]);
  }

  lemma DistSeqAt(ts: seq<Token>, dx: nat)
    requires dx < |DistSeq(ts)| && Matches(ts)[dx].dist >= 1
    ensures DistSeq(ts)[dx] == Matches(ts)[dx].dist - 1
  {}

  // ---------- the buffer ----------

  class TokenBuf {
    const litBufsize: nat   // LIT_BUFSIZE
    const distBufsize: nat  // DIST_BUFSIZE
    const lBuf: array<nat>
    const dBuf: array<nat>
    const flagBuf: array<nat>
    var lastLit: nat
    var lastDist: nat
    var lastFlags: nat
    var flags: nat
    var flagBit: nat

    predicate Sizes()
    {
      && 8 <= litBufsize <= 0x8000 && litBufsize % 8 == 0 && 1 <= distBufsize
      && lBuf.Length >= litBufsize && dBuf.Length == distBufsize && flagBuf.Length == litBufsize / 8
      && lBuf != dBuf && lBuf != flagBuf && dBuf != flagBuf
    }

    /** The buffer holds exactly the tokens. */
    ghost predicate Holds(ts: seq<Token>)
      reads this, lBuf, dBuf, flagBuf
    {
      && Sizes() && |ts| < litBufsize
      && lastLit == |ts| && lastDist == |Matches(ts)| <= distBufsize
      && lBuf[..lastLit] == LcSeq(ts) && dBuf[..lastDist] == DistSeq(ts)
      && FlagsOk(flagBuf[..], lastFlags, flags, flagBit, ts)
    }

    constructor (inbufsiz: nat, litBufsize: nat, distBufsize: nat)
      requires 8 <= litBufsize <= 0x8000 && litBufsize % 8 == 0 && 1 <= distBufsize && litBufsize <= inbufsiz
      ensures Holds([]) && fresh(lBuf) && fresh(dBuf) && fresh(flagBuf)
      ensures this.litBufsize == litBufsize && this.distBufsize == distBufsize
    {
      this.litBufsize, this.distBufsize := litBufsize, distBufsize;
      lBuf := new nat[inbufsiz](_ => 0);
      dBuf := new nat[distBufsize](_ => 0);
      flagBuf := new nat[litBufsize / 8](_ => 0);
      lastLit, lastDist, lastFlags, flags, flagBit := 0, 0, 0, 0, 1;
      new;
      NoFlags(flagBuf[..]);
    }

    /** The buffer part of init_block. */
    method Clear()
      requires Sizes()
      modifies this
      ensures Holds([])
    {
      lastLit, lastDist, lastFlags := 0, 0, 0;
      flags := 0;
      flagBit := 1;
      NoFlags(flagBuf[..]);
    }

    /** The buffer part of ct_tally; dist is 0 for the literal lc, otherwise lc is the
        match length less 3. */
    method Add(lc: nat, dist: nat, ghost ts: seq<Token>, ghost t: Token)
      requires Holds(ts) && |ts| + 1 < litBufsize && (dist != 0 ==> |Matches(ts)| < distBufsize)
      requires lc == LcOf(t) && (t.Match? <==> dist != 0) && (t.Match? ==> t.dist == dist)
      modifies this, lBuf, dBuf, flagBuf
      ensures Holds(ts + [t])
    {
      hide FlagsOk, LcSeq, DistSeq, Matches, Or;
      ghost var l0: seq<nat>, d0: seq<nat>, f0: seq<nat> := lBuf[..], dBuf[..], flagBuf[..];
      TokensGrow(ts, t);
      FlagsSize(f0, lastFlags, flags, flagBit, ts);
      FlagsStep(f0, lastFlags, flags, flagBit, ts, t);
      lBuf[lastLit] := lc;
      lastLit := lastLit + 1;
      assert lBuf[..lastLit] == l0[..|ts|] + [lc];
      if dist != 0 {
        dBuf[lastDist] := dist - 1;
        lastDist := lastDist + 1;
        assert dBuf[..lastDist] == d0[..lastDist - 1] + [dist - 1];
        flags := Or(flags, flagBit);
      }
      flagBit := 2 * flagBit % 0x100;
      if lastLit % 8 == 0 {
        flagBuf[lastFlags] := flags;
        assert flagBuf[..] == f0[lastFlags := flags];
        lastFlags := lastFlags + 1;
        flags := 0;
        flagBit := 1;
      } else {
        assert flagBuf[..] == f0;
      }
    }

    /** Saves the flags of the last tokens. */
    method SaveFlags(ghost ts: seq<Token>)
      requires Holds(ts)
      modifies flagBuf
      ensures Ready(ts)
    {
      hide FlagsOk, FlagsSaved, LcSeq, DistSeq, Matches;
      ghost var f0: seq<nat> := flagBuf[..];
      FlagsSize(f0, lastFlags, flags, flagBit, ts);
      SavesFlags(f0, lastFlags, flags, flagBit, ts);
      flagBuf[lastFlags] := flags;
      assert flagBuf[..] == f0[lastFlags := flags];
    }

    /** All of the tokens can be read back from the arrays. */
    ghost predicate Ready(ts: seq<Token>)
      reads this, lBuf, dBuf, flagBuf
    {
      && Sizes() && |ts| < litBufsize
      && lastLit == |ts| && lastDist == |Matches(ts)| <= distBufsize
      && lBuf[..lastLit] == LcSeq(ts) && dBuf[..lastDist] == DistSeq(ts) && FlagsSaved(flagBuf[..], ts)
    }
  }

  lemma FlagsSize(buf: seq<nat>, last: nat, flags: nat, bit: nat, ts: seq<Token>)
    requires FlagsOk(buf, last, flags, bit, ts)
    ensures last == |ts| / 8
  {}

  // ---------- sending the tokens ----------

  /** A length or distance code and its extra bits, if it has any. */
  method SendWithExtra(w: Writer, t: CtTree, c: nat, rest: nat, extra: nat, ghost lens: seq<nat>)
    requires w.Valid() && Coded(t, lens) && c < |lens| && c < t.dl.Length && lens[c] > 0
    requires extra <= 13 && rest < Pow2(extra)
    modifies w, w.outbuf
    ensures w.Valid() && w.Sent() == old(w.Sent()) + (CodeBits(lens, c) + Lsb(rest, extra))
  {
    hide *;
    SendCode(w, t, c, lens);
    AppendTwo(old(w.Sent()), CodeBits(lens, c), Lsb(rest, extra));
    if extra != 0 {
      w.SendBits(rest, extra);
    } else {
      NoBits(rest);
      AppendNothing(w.Sent());
    }
  }

  lemma MatchParts(ll: seq<nat>, dl: seq<nat>, len: nat, dist: nat)
    requires Codable(ll, dl, Match(len, dist))
    ensures var c, d := LengthCode(len), DistCode(dist);
      && 257 + c < |ll| && ll[257 + c] > 0 && d < |dl| && dl[d] > 0 && 3 <= len <= 258 && 1 <= dist <= 0x8000
      && LengthExtra(c) <= 13 && DistExtra(d) <= 13
      && LengthBase(c) <= len && len - LengthBase(c) < Pow2(LengthExtra(c))
      && DistBase(d) <= dist && dist - DistBase(d) < Pow2(DistExtra(d))
      && LengthBits(ll, len) == CodeBits(ll, 257 + c) + Lsb(len - LengthBase(c), LengthExtra(c))
      && DistBits(dl, dist) == CodeBits(dl, d) + Lsb(dist - DistBase(d), DistExtra(d))
      && TokenBits(ll, dl, Match(len, dist)) == LengthBits(ll, len) + DistBits(dl, dist)
  {
    hide Pow2, LengthCode, DistCode, LengthBase, DistBase, CodeBits, Lsb, LengthExtra, DistExtra;
    MatchFits(len, dist);
  }

  lemma TableEntries(tb: Tables, lc: nat, dist: nat)
    requires tb.Valid() && lc < 256 && dist < 0x8000
    ensures |tb.lengthCode| == 256 && |tb.distCode| == 512 && |tb.baseLength| == 29 && |tb.baseDist| == 30
    ensures tb.lengthCode[lc] == LengthCode(lc + 3) && tb.DCode(dist) == DistCode(dist + 1)
    ensures var c := LengthCode(lc + 3); c != 28 ==> tb.baseLength[c] == LengthBase(c) - 3
    ensures tb.baseDist[DistCode(dist + 1)] == DistBase(DistCode(dist + 1)) - 1
  {
    hide LengthCode, DistCode, LengthBase, DistBase;
  }

  lemma ExtraTables(c: nat, d: nat)
    requires c < LENGTH_CODES && d < D_CODES
    ensures c < |EXTRA_LBITS| && EXTRA_LBITS[c] == LengthExtra(c)
    ensures d < |EXTRA_DBITS| && EXTRA_DBITS[d] == DistExtra(d)
    ensures c < 29 && d < 30 && (c == 28 ==> LengthExtra(c) == 0)
  {}

  /** The codes of a match, where lc is its length less 3 and dist its distance less 1. */
  method SendMatch(w: Writer, lt: CtTree, dt: CtTree, tb: Tables, lc: nat, dist: nat,
                   ghost ll: seq<nat>, ghost dl: seq<nat>)
    requires w.Valid() && Coded(lt, ll) && Coded(dt, dl) && lt.dl.Length >= 286 && dt.dl.Length >= 30 && tb.Valid()
    requires lc < 256 && dist < 0x8000 && Codable(ll, dl, Match(lc + 3, dist + 1))
    modifies w, w.outbuf
    ensures w.Valid() && w.Sent() == old(w.Sent()) + TokenBits(ll, dl, Match(lc + 3, dist + 1))
  {
    hide *;
    MatchParts(ll, dl, lc + 3, dist + 1);
    TableEntries(tb, lc, dist);
    ghost var a, b := LengthBits(ll, lc + 3), DistBits(dl, dist + 1);
    var code := tb.lengthCode[lc];
    ExtraTables(code, DistCode(dist + 1));
    var extra := EXTRA_LBITS[code];
    NoExtraRest(lc + 3 - LengthBase(code), extra);
    SendWithExtra(w, lt, code + 257, if extra != 0 then lc - tb.baseLength[code] else 0, extra, ll);
    code := tb.DCode(dist);
    extra := EXTRA_DBITS[code];
    NoExtraRest(dist + 1 - DistBase(code), extra);
    SendWithExtra(w, dt, code, if extra != 0 then dist - tb.baseDist[code] else 0, extra, dl);
    AppendTwo(old(w.Sent()), a, b);
  }

  lemma NoExtraRest(rest: nat, extra: nat)
    requires rest < Pow2(extra)
    ensures extra == 0 ==> rest == 0
  {}

  /** What the arrays give for the token at place lx. */
  lemma TokenAt(ts: seq<Token>, lx: nat)
    requires lx < |ts| && TokenOk(ts[lx])
    ensures LcSeq(ts)[lx] == LcOf(ts[lx])
    ensures ts[lx].Match? ==> LcOf(ts[lx]) < 256 && ts[lx] == Match(LcOf(ts[lx]) + 3, ts[lx].dist)
    ensures ts[lx].Match? ==> 1 <= ts[lx].dist <= 0x8000
    ensures ts[lx].Literal? ==> ts[lx] == Literal(LcOf(ts[lx]))
  {}

  /** The flags not yet shifted out of the current byte. */
  function FlagsLeft(ts: seq<Token>, lx: nat): seq<bool>
    requires lx <= |ts|
  {
    var end := 8 * ((lx + 7) / 8);
    Kinds(ts)[lx..if end <= |ts| then end else |ts|]
  }

  lemma FlagByte(ts: seq<Token>, lx: nat)
    requires lx < |ts|
    ensures lx % 8 == 0 ==> FlagsAt(ts, lx / 8) == Kinds(ts)[lx..if lx + 8 <= |ts| then lx + 8 else |ts|]
    ensures var s := if lx % 8 == 0 then FlagsAt(ts, lx / 8) else FlagsLeft(ts, lx);
      s != [] && s[0] == ts[lx].Match? && s[1..] == FlagsLeft(ts, lx + 1)
  {
    if lx % 8 == 0 { assert 8 * (lx / 8) == lx && (lx + 8) / 8 == lx / 8 + 1; }
  }

  lemma ValueTail(s: seq<bool>)
    requires s != []
    ensures Value(s) % 2 == (if s[0] then 1 else 0) && Value(s) / 2 == Value(s[1..])
  {}

  lemma TokensBitsStep(ll: seq<nat>, dl: seq<nat>, ts: seq<Token>, lx: nat)
    requires lx < |ts| && AllCodable(ll, dl, ts)
    ensures AllCodable(ll, dl, ts[lx..]) && AllCodable(ll, dl, ts[lx + 1..]) && Codable(ll, dl, ts[lx])
    ensures TokensBits(ll, dl, ts[lx..]) == TokenBits(ll, dl, ts[lx]) + TokensBits(ll, dl, ts[lx + 1..])
  {
    hide Codable, TokenBits;
    assert ts[lx..][1..] == ts[lx + 1..];
  }

  lemma CodableParts(ll: seq<nat>, dl: seq<nat>, t: Token)
    requires Codable(ll, dl, t)
    ensures TokenOk(t)
    ensures t.Literal? ==> t.b < |ll| && ll[t.b] > 0 && t.b < 286 && TokenBits(ll, dl, t) == CodeBits(ll, t.b)
  {
    hide CodeBits, LengthCode, DistCode;
  }

  lemma EndBits(ll: seq<nat>, dl: seq<nat>, ts: seq<Token>)
    requires AllCodable(ll, dl, ts)
    ensures END_BLOCK < |ll| && ll[END_BLOCK] > 0 && END_BLOCK == 256
    ensures AllCodable(ll, dl, []) && TokensBits(ll, dl, []) == CodeBits(ll, END_BLOCK)
  {}

  lemma NextByteIndex(lx: nat, n: nat)
    requires lx < n
    ensures lx % 8 == 0 ==> (lx + 7) / 8 == lx / 8 && (lx + 8) / 8 == lx / 8 + 1
    ensures lx % 8 != 0 ==> (lx + 8) / 8 == (lx + 7) / 8
    ensures 8 * (lx / 8) < n
  {}

  lemma FlagAtIs(buf: seq<nat>, ts: seq<Token>, k: nat)
    requires FlagsSaved(buf, ts) && 8 * k < |ts|
    ensures k < |buf| && buf[k] == Value(FlagsAt(ts, k))
  {}

  /** compress_block: sends the tokens in the buffer and the end-of-block code. */
  method CompressBlock(b: TokenBuf, w: Writer, lt: CtTree, dt: CtTree, tb: Tables,
                       ghost ll: seq<nat>, ghost dl: seq<nat>, ghost ts: seq<Token>)
    requires b.Ready(ts) && w.Valid() && tb.Valid()
    requires Coded(lt, ll) && Coded(dt, dl) && lt.dl.Length >= 286 && dt.dl.Length >= 30 && AllCodable(ll, dl, ts)
    modifies w, w.outbuf
    ensures w.Valid() && w.Sent() == old(w.Sent()) + TokensBits(ll, dl, ts)
  {
    hide *;
    var lx, dx, fx, flag := 0, 0, 0, 0;
    ghost var goal := w.Sent() + TokensBits(ll, dl, ts);
    ReadyParts(b, ts);
    StartFacts(ts);
    while lx < b.lastLit
      invariant lx <= |ts| && w.Valid() && fx == (lx + 7) / 8 && dx == |Matches(ts[..lx])|
      invariant AllCodable(ll, dl, ts[lx..]) && w.Sent() + TokensBits(ll, dl, ts[lx..]) == goal
      invariant lx % 8 != 0 ==> flag == Value(FlagsLeft(ts, lx))
    {
      TokensBitsStep(ll, dl, ts, lx);
      CodableParts(ll, dl, ts[lx]);
      TokenAt(ts, lx);
      NextDist(ts, lx);
      NextByteIndex(lx, |ts|);
      FlagByte(ts, lx);
      ghost var t, sent, rest := ts[lx], w.Sent(), TokensBits(ll, dl, ts[lx + 1..]);
      if lx % 8 == 0 {
        FlagAtIs(b.flagBuf[..], ts, fx);
        flag := b.flagBuf[fx];
        fx := fx + 1;
      }
      ValueTail(if lx % 8 == 0 then FlagsAt(ts, lx / 8) else FlagsLeft(ts, lx));
      var lc := b.lBuf[lx];
      assert lc == b.lBuf[..b.lastLit][lx];
      lx := lx + 1;
      if flag % 2 == 0 {
        SendCode(w, lt, lc, ll);
      } else {
        var dist := b.dBuf[dx];
        DistSeqAt(ts, dx);
        assert dist == b.dBuf[..b.lastDist][dx] == t.dist - 1;
        dx := dx + 1;
        SendMatch(w, lt, dt, tb, lc, dist, ll, dl);
      }
      flag := flag / 2;
      AppendTwo(sent, TokenBits(ll, dl, t), rest);
    }
    assert ts[lx..] == [];
    EndBits(ll, dl, ts);
    SendCode(w, lt, END_BLOCK, ll);
  }

  lemma ReadyParts(b: TokenBuf, ts: seq<Token>)
    requires b.Ready(ts)
    ensures b.lastLit == |ts| <= b.lBuf.Length && b.lastDist == |Matches(ts)| <= b.dBuf.Length
    ensures b.lBuf[..b.lastLit] == LcSeq(ts) && b.dBuf[..b.lastDist] == DistSeq(ts) && FlagsSaved(b.flagBuf[..], ts)
  {}

  lemma StartFacts(ts: seq<Token>)
    ensures ts[..0] == [] && ts[0..] == ts && Matches([]) == []
  {}
}
