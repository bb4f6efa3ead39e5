/** deflate() of gzip.c: LZ77 with lazy matching over a sliding window with hash chains. */
module Deflate {
  import opened Bits
  import opened BitWriter
  import opened Inflater
  import opened Blocks
  import opened LengthPasses
  import opened Costs
  import opened TokenBuffer
  import opened BlockEncoder
  import opened Hashing
  import opened HashChains
  import opened Matching
  import opened Input

  const MIN_LOOKAHEAD := 262  // MAX_MATCH + MIN_MATCH + 1

  datatype Config = Config(wsize: nat, hashBits: nat, tooFar: nat,
                           maxChain: nat, maxLazy: nat, goodMatch: nat, niceMatch: nat)
  {
    predicate Ok() {
      MIN_LOOKAHEAD < wsize <= 0x8000 && 8 <= hashBits <= 15 && maxChain < ULONG
    }

    function MaxDist(): nat
      requires Ok()
    {
      wsize - MIN_LOOKAHEAD
    }
  }

  /** The head of the hash chain for the string at place x. */
  function HeadFor(head: seq<nat>, win: seq<byte>, x: nat, n: nat): nat {
    if x + 2 < |win| && H3(win, x, n) < |head| then head[H3(win, x, n)] else 0
  }

  /** What the search at a place gives, given the length of the match found in the step
      before: the longest match that longest_match finds, as far as there is input, or 2
      where it does not search. */
  function SearchAt(cfg: Config, win: seq<byte>, prev: seq<nat>, at: nat, hashHead: nat, length: nat, ahead: nat): nat
    requires cfg.Ok()
  {
    if hashHead == 0 || hashHead >= at || length >= cfg.maxLazy || at - hashHead > cfg.MaxDist() then 2
    else if |prev| == 0 || at + MAX_MATCH > |win| || length > MAX_MATCH then 2
    else
      var limit := if at > cfg.MaxDist() then at - cfg.MaxDist() else 0;
      var chain := if length >= cfg.goodMatch then cfg.maxChain / 4 else cfg.maxChain;
      var l := Longest(win, prev, at, hashHead, limit, chain, length, cfg.niceMatch);
      if l > ahead then ahead else l
  }

  /** The token goes to the others of the block, which may end with it. */
  predicate Added(ts: seq<Token>, t: Token, ts': seq<Token>) {
    ts' == ts + [t] || ts' == []
  }

  class Deflater {
    const cfg: Config
    const e: Encoder
    const src: Source
    const window: array<byte>  // two halves of WSIZE bytes, and bytes behind them that matches may be compared with
    const prev: array<nat>
    const head: array<nat>
    var strstart: nat
    var lookahead: nat
    var blockStart: int
    var insH: nat
    var prevLength: nat
    var matchStart: nat
    var eofile: bool
    ghost var base: nat        // the input position of window index 0

    constructor (cfg: Config, e: Encoder, src: Source)
      requires cfg.Ok()
      ensures Shape() && this.cfg == cfg && this.e == e && this.src == src
      ensures fresh(window) && fresh(prev) && fresh(head)
      ensures strstart == lookahead == insH == prevLength == matchStart == base == 0 && blockStart == 0 && !eofile
    {
      hide Pow2, Encoder.Own;
      OwnAlone(e, src);
      this.cfg, this.e, this.src := cfg, e, src;
      window := new byte[2 * cfg.wsize + MAX_MATCH](_ => 0);
      prev := new nat[cfg.wsize](_ => 0);
      head := new nat[Pow2(cfg.hashBits)](_ => 0);
      strstart, lookahead, blockStart, insH, prevLength, matchStart, eofile, base := 0, 0, 0, 0, 0, 0, false, 0;
    }

    ghost predicate Shape() {
      && cfg.Ok() && window.Length == 2 * cfg.wsize + MAX_MATCH && prev.Length == cfg.wsize
      && head.Length == Pow2(cfg.hashBits) && prev != head && window != e.w.outbuf
      && prev !in e.Own() && head !in e.Own() && window !in e.Own() && this !in e.Own() && src !in e.Own()
      && e.w !in e.Own() && e.w.outbuf !in e.Own()
    }

    /** The window holds the input from base to the read position. */
    ghost predicate Window()
      reads this, src, window
    {
      && strstart + lookahead <= 2 * cfg.wsize <= window.Length
      && src.pos == base + strstart + lookahead <= |src.data|
      && window[..strstart + lookahead] == src.data[base..src.pos]
      && 0 <= base + blockStart && blockStart <= strstart
      && (eofile ==> strstart + lookahead <= 2 * cfg.wsize - 2)
    }

    /** The input position of strstart. */
    ghost function Cur(): nat
      reads this
    {
      base + strstart
    }

    /** The chains of the positions below next. */
    ghost predicate Chains(next: nat)
      reads window, prev, head
    {
      HeadOk(window[..], head[..], next, cfg.hashBits) && PrevOk(window[..], prev[..], next, cfg.hashBits)
    }

    // ---------- fill_window ----------

    method RebaseAll(a: array<nat>)
      modifies a
      ensures a[..] == Rebase(old(a[..]), cfg.wsize)
    {
      ghost var s: seq<nat> := a[..];
      var n := 0;
      while n < a.Length
        invariant n <= a.Length
        invariant forall i :: 0 <= i < a.Length ==>
          a[i] == if i < n then (if s[i] >= cfg.wsize then s[i] - cfg.wsize else 0) else s[i]
      {
        var m := a[n];
        a[n] := if m >= cfg.wsize then m - cfg.wsize else 0;
        n := n + 1;
      }
    }

    method CopyUpperHalf()
      requires cfg.Ok() && window.Length == 2 * cfg.wsize + MAX_MATCH
      modifies window
      ensures Slid(old(window[..]), window[..], cfg.wsize)
    {
      ghost var win: seq<byte> := window[..];
      var i := 0;
      while i < cfg.wsize
        invariant i <= cfg.wsize && forall j :: 0 <= j < i ==> window[j] == win[j + cfg.wsize]
        invariant forall j :: cfg.wsize <= j < window.Length ==> window[j] == win[j]
      {
        window[i] := window[cfg.wsize + i];
        i := i + 1;
      }
    }

    /** The upper half of the window moves down, and every position with it. */
    method Slide()
      requires Shape() && Window() && Chains(strstart) && strstart >= cfg.wsize + cfg.MaxDist() && lookahead >= 2
      modifies this, window, prev, head
      ensures Window() && Chains(strstart)
      ensures base == old(base) + cfg.wsize && strstart == old(strstart) - cfg.wsize
      ensures blockStart == old(blockStart) - cfg.wsize && matchStart == Wrap(old(matchStart) - cfg.wsize)
      ensures lookahead == old(lookahead) && eofile == old(eofile) && insH == old(insH) && prevLength == old(prevLength)
    {
      hide Pow2, HeadOk, PrevOk, Rebase, Encoder.Own, Slid;
      ghost var win: seq<byte>, h: seq<nat>, p: seq<nat> := window[..], head[..], prev[..];
      ghost var total := strstart + lookahead;
      CopyUpperHalf();
      matchStart := Wrap(matchStart - cfg.wsize);
      strstart := strstart - cfg.wsize;
      blockStart := blockStart - cfg.wsize;
      RebaseAll(head);
      RebaseAll(prev);
      base := base + cfg.wsize;
      SlideKeeps(win, window[..], h, p, strstart + cfg.wsize, cfg.hashBits);
      SlideData(win, window[..], cfg.wsize, total, src.data, base - cfg.wsize);
    }

    /** What a step of the window leaves as it is: the input position of strstart and of the
        block, the pending match, the hash, and all the input that has been read. */
    twostate predicate Moved()
      reads this, src
    {
      && Cur() == old(Cur()) && base + blockStart == old(base + blockStart) && base >= old(base)
      && (old(strstart) > 0 ==> strstart > 0)
      && matchStart == Wrap(old(matchStart) - (base - old(base)))
      && insH == old(insH) && prevLength == old(prevLength) && src.pos >= old(src.pos)
    }

    /** Reads behind the bytes in the window. */
    method ReadMore(more: nat)
      requires Shape() && src.Valid() && Window() && Chains(strstart) && !eofile
      requires 2 <= more == 2 * cfg.wsize - lookahead - strstart && (strstart == 0 || lookahead >= 2)
      modifies this`lookahead, this`eofile, src, window
      ensures src.Valid() && Window() && Chains(strstart) && src.pos >= old(src.pos) && lookahead >= old(lookahead)
      ensures eofile || src.pos > old(src.pos)
      ensures eofile && !src.failed ==> src.pos == |src.data|
    {
      hide Pow2, HeadOk, PrevOk, Encoder.Own, Crc;
      ghost var win: seq<byte>, total, pos0 := window[..], strstart + lookahead, src.pos;
      var n := src.FileRead(window, strstart + lookahead, more);
      if n == 0 || n == -1 {
        eofile := true;
        return;
      }
      ReadData(win, window[..], total, n, src.data, base, pos0);
      lookahead := lookahead + n;
      ReadKeeps(win, window[..], head[..], prev[..], strstart, cfg.hashBits);
    }

    /** fill_window: makes room, then reads as much as there is room for. */
    method FillWindow()
      requires Shape() && src.Valid() && Window() && Chains(strstart) && matchStart < ULONG
      requires lookahead < MIN_LOOKAHEAD && !eofile && (strstart == 0 || lookahead >= 2)
      modifies this, src, window, prev, head
      ensures src.Valid() && Window() && Chains(strstart) && Moved() && lookahead >= old(lookahead)
      ensures eofile || src.pos > old(src.pos)
      ensures eofile && !src.failed ==> src.pos == |src.data|
    {
      hide Pow2, HeadOk, PrevOk, Encoder.Own, Source.Valid, Chains;
      WrapSmall(matchStart);
      var more := Wrap(2 * cfg.wsize - lookahead - strstart);
      if more == ULONG - 1 {
        more := more - 1;
      } else if strstart >= cfg.wsize + cfg.MaxDist() {
        Slide();
        more := more + cfg.wsize;
      }
      if !eofile {
        ReadMore(more);
      }
    }

    /** fill_window_if_needed */
    method FillWindowIfNeeded()
      requires Shape() && src.Valid() && Window() && Chains(strstart) && matchStart < ULONG
      requires !eofile ==> strstart == 0 || lookahead >= 2
      requires eofile && !src.failed ==> src.pos == |src.data|
      modifies this, src, window, prev, head
      ensures src.Valid() && Window() && Chains(strstart) && Moved() && lookahead >= old(lookahead)
      ensures eofile || lookahead >= MIN_LOOKAHEAD
      ensures eofile && !src.failed ==> src.pos == |src.data|
      ensures old(eofile) ==> eofile && strstart == old(strstart) && lookahead == old(lookahead)
      ensures old(eofile) ==> window[..] == old(window[..])
    {
      hide Pow2, HeadOk, PrevOk, Encoder.Own, Crc, Shape, Chains;
      WrapSmall(matchStart);
      while lookahead < MIN_LOOKAHEAD && !eofile
        invariant src.Valid() && Window() && Chains(strstart) && Moved() && lookahead >= old(lookahead)
        invariant matchStart < ULONG && (!eofile ==> strstart == 0 || lookahead >= 2)
        invariant eofile && !src.failed ==> src.pos == |src.data|
        invariant old(eofile) ==> eofile && strstart == old(strstart) && lookahead == old(lookahead)
                                  && window[..] == old(window[..])
        decreases |src.data| - src.pos, !eofile
      {
        ghost var b1 := base;
        FillWindow();
        WrapSub(old(matchStart) - (b1 - old(base)), base - b1);
      }
    }

    // ---------- INSERT_STRING ----------

    /** INSERT_STRING(s, match_head) */
    method InsertString(s: nat) returns (matchHead: nat)
      requires Shape() && Chains(s) && s + 2 < window.Length && Rolled(insH, window[s], window[s + 1], cfg.hashBits)
      modifies this`insH, prev, head
      ensures Chains(s + 1) && Rolled(insH, window[s + 1], window[s + 2], cfg.hashBits)
      ensures matchHead == 0 || (matchHead < s && H3(window[..], matchHead, cfg.hashBits)
          == H3(window[..], s, cfg.hashBits))
      ensures matchHead == HeadFor(old(head[..]), window[..], s, cfg.hashBits)
      ensures prev[..] == old(prev[..])[s % cfg.wsize := matchHead]
      ensures var h := H3(window[..], s, cfg.hashBits);
        h < head.Length && head[..] == old(head[..])[h := s]
    {
      hide Pow2, HeadOk, PrevOk, Encoder.Own, Hash3, Rolled, Update, HShift;
      ghost var win: seq<byte>, h: seq<nat>, p: seq<nat> := window[..], head[..], prev[..];
      RolledNext(insH, window[s], window[s + 1], window[s + 2], cfg.hashBits);
      insH := Update(insH, window[s + 2], HShift(cfg.hashBits), cfg.hashBits);
      assert insH == H3(win, s, cfg.hashBits);
      InsertKeeps(win, h, p, s, cfg.hashBits);
      matchHead := head[insH];
      prev[s % cfg.wsize] := matchHead;
      head[insH] := s;
      assert prev[..] == p[s % cfg.wsize := matchHead] && head[..] == h[insH := s];
    }

    // ---------- longest_match ----------

    /** The comparison at the heart of longest_match: the first two bytes are known to
        agree, the third agrees because the hashes do, and the end is checked for only
        after every eighth byte. */
    method Compare(cur: nat) returns (len: nat)
      requires Shape() && cur < strstart < 2 * cfg.wsize && Agree(window[..], cur, strstart, 3)
      ensures len == MatchLen(window[..], cur, strstart)
    {
      hide Pow2, Encoder.Own, Agree, MatchLen;
      ghost var win: seq<byte> := window[..];
      var scan, equal := 2, true;
      while equal && scan < MAX_MATCH
        invariant 2 <= scan <= MAX_MATCH && (equal ==> (scan - 2) % 8 == 0)
        invariant if equal then Agree(win, cur, strstart, scan + 1)
                  else Agree(win, cur, strstart, scan) && win[cur + scan] != win[strstart + scan]
        decreases MAX_MATCH - scan, equal
      {
        var k := 0;
        ghost var scan0 := scan;
        while equal && k < 8
          invariant k <= 8 && scan == scan0 + k <= MAX_MATCH
          invariant if equal then Agree(win, cur, strstart, scan + 1)
                    else Agree(win, cur, strstart, scan) && win[cur + scan] != win[strstart + scan] && k > 0
          decreases 8 - k, equal
        {
          scan, k := scan + 1, k + 1;
          equal := window[strstart + scan] == window[cur + scan];
          if equal { AgreeMore(win, cur, strstart, scan); }
        }
      }
      if equal { AgreeLess(win, cur, strstart, scan); }
      MatchLenIs(win, cur, strstart, scan);
      len := MAX_MATCH - (MAX_MATCH - scan);
    }

    /** How far a match may reach back from strstart. */
    function Limit(): nat
      reads this
      requires cfg.Ok()
    {
      if strstart > cfg.MaxDist() then strstart - cfg.MaxDist() else 0
    }

    /** How many positions of the chain are looked at. */
    function ChainLength(): nat
      reads this
    {
      if prevLength >= cfg.goodMatch then cfg.maxChain / 4 else cfg.maxChain
    }

    /** A position on the chain of strstart, near enough for a match. */
    ghost predicate Candidate(cur: nat)
      reads this, window
    {
      && strstart < 2 * cfg.wsize && window.Length == 2 * cfg.wsize + MAX_MATCH
      && 0 < cur < strstart && cfg.Ok() && strstart - cur <= cfg.MaxDist()
      && H3(window[..], cur, cfg.hashBits) == H3(window[..], strstart, cfg.hashBits)
    }

    /** A match of length len that longest_match has found. */
    ghost predicate Found(len: nat)
      reads this, window
    {
      && 0 < matchStart < strstart && cfg.Ok() && strstart - matchStart <= cfg.MaxDist()
      && Agree(window[..], matchStart, strstart, len)
    }

    /** One position of the chain: the length of the match with it, or 0 if the bytes looked
        at first show that it cannot be longer than the best so far. */
    method Examine(cur: nat, bestLen: nat, scanEnd1: byte, scanEnd: byte) returns (len: nat)
      requires Shape() && Candidate(cur) && 1 <= bestLen <= MAX_MATCH
      requires scanEnd1 == window[strstart + bestLen - 1] && scanEnd == window[strstart + bestLen]
      ensures len == MatchLen(window[..], cur, strstart) || (len == 0 && MatchLen(window[..], cur, strstart) <= bestLen)
    {
      hide Pow2, Encoder.Own, Agree, MatchLen, H3;
      if window[cur + bestLen] != scanEnd || window[cur + bestLen - 1] != scanEnd1
         || window[cur] != window[strstart] || window[cur + 1] != window[strstart + 1] {
        NoLonger(window[..], cur, strstart, bestLen);
        return 0;
      }
      ThirdAgrees(window[..], cur, strstart, cfg.hashBits);
      len := Compare(cur);
    }

    /** The position that the chain leads to; it has the same hash, if there is one. */
    method NextOnChain(cur: nat) returns (next: nat)
      requires Shape() && Chains(strstart + 1) && Candidate(cur)
      ensures next == Link(prev[..], cur) && (next == 0 || next < cur)
      ensures next > 0 ==> H3(window[..], next, cfg.hashBits) == H3(window[..], cur, cfg.hashBits)
    {
      hide Pow2, Encoder.Own, HeadOk, PrevOk, H3;
      LinkHolds(window[..], prev[..], strstart + 1, cur, cfg.hashBits);
      next := prev[cur % cfg.wsize];
    }

    lemma FoundAt(cur: nat)
      requires Shape() && Candidate(cur) && matchStart == cur
      ensures Found(MatchLen(window[..], cur, strstart))
    {
      hide Pow2, Encoder.Own, Agree, MatchLen, H3;
      MatchLenAgrees(window[..], cur, strstart);
    }

    /** longest_match */
    method LongestMatch(hashHead: nat) returns (bestLen: nat)
      requires Shape() && Chains(strstart + 1) && Candidate(hashHead) && 1 <= prevLength <= MAX_MATCH
      modifies this`matchStart
      ensures bestLen == Longest(window[..], prev[..], strstart, hashHead, Limit(), ChainLength(), prevLength,
          cfg.niceMatch)
      ensures if bestLen > prevLength then Found(bestLen) else matchStart == old(matchStart)
    {
      hide Pow2, Encoder.Own, Agree, MatchLen, HeadOk, PrevOk, H3, Longest, Chains, Link, Found;
      ghost var win: seq<byte>, p: seq<nat> := window[..], prev[..];
      var curMatch: nat, chainLength: nat := hashHead, cfg.maxChain;
      bestLen := prevLength;
      var limit := if strstart > cfg.MaxDist() then strstart - cfg.MaxDist() else 0;
      var scanEnd1, scanEnd := window[strstart + bestLen - 1], window[strstart + bestLen];
      if prevLength >= cfg.goodMatch {
        chainLength := chainLength / 4;
      }
      ghost var goal := Longest(win, p, strstart, curMatch, limit, chainLength, bestLen, cfg.niceMatch);
      while true
        invariant Candidate(curMatch) && prevLength <= bestLen <= MAX_MATCH && 1 <= bestLen
        invariant scanEnd1 == window[strstart + bestLen - 1] && scanEnd == window[strstart + bestLen]
        invariant if bestLen > prevLength then Found(bestLen) else matchStart == old(matchStart)
        invariant goal == Longest(win, p, strstart, curMatch, limit, chainLength, bestLen, cfg.niceMatch)
        decreases curMatch
      {
        LongestStep(win, p, strstart, curMatch, limit, chainLength, bestLen, cfg.niceMatch);
        var len := Examine(curMatch, bestLen, scanEnd1, scanEnd);
        if len > bestLen {
          matchStart := curMatch;
          bestLen := len;
          FoundAt(curMatch);
          if len >= cfg.niceMatch { break; }
          scanEnd1, scanEnd := window[strstart + bestLen - 1], window[strstart + bestLen];
        }
        curMatch := NextOnChain(curMatch);
        if curMatch <= limit { break; }
        chainLength := Wrap(chainLength - 1);
        if chainLength == 0 { break; }
      }
    }

    // ---------- tokens and blocks ----------

    /** The input position of block_start. */
    ghost function Block(): int
      reads this
    {
      base + blockStart
    }

    /** The tokens of the block begun, which starts at input position from, reproduce the
        input up to position upto; what has been sent reproduces the input before the block. */
    ghost predicate Coding(ts: seq<Token>, before: seq<bool>, from: int, upto: nat)
      reads e.w, e.w.outbuf, e.Own()
    {
      && e.Valid(ts) && 0 <= from <= upto <= |src.data|
      && Produces(ts, src.data[..from], src.data[..upto])
      && Follows(e.w.Sent(), before, src.data[..from])
    }

    /** Another token may follow. */
    ghost predicate Roomy(ts: seq<Token>) {
      |ts| + 1 < e.buf.litBufsize && |Matches(ts)| < e.buf.distBufsize
    }

    /** ct_tally for a token that continues the input from upto to next. */
    method Tally(dist: nat, lc: nat, ghost ts: seq<Token>, ghost t: Token, ghost before: seq<bool>, ghost upto: nat,
        ghost next: nat)
        returns (flush: bool)
      requires Shape() && Coding(ts, before, Block(), upto) && Roomy(ts)
      requires TokenOk(t) && lc == LcOf(t) && (t.Match? <==> dist != 0) && (t.Match? ==> t.dist == dist)
      requires upto <= next <= |src.data| && Reaches(t, src.data[..upto])
      requires ExpandToken(t, src.data[..upto]) == src.data[..next]
      modifies e.Own()
      ensures Coding(ts + [t], before, Block(), next) && (!flush ==> Roomy(ts + [t]))
    {
      hide Pow2, HeadOk, PrevOk, Produces, Follows, TokenOk, Reaches, ExpandToken, Encoder.Valid, Writer.Sent, LcOf,
          Matches;
      ProducesSnoc(ts, t, src.data[..base + blockStart], src.data[..upto]);
      EncoderWrites();
      flush := e.CtTally(dist, lc, Wrap(strstart - blockStart), ts, t);
    }

    lemma EncoderWrites()
      ensures e.lt.fc in e.Own() && e.dt.fc in e.Own() && e.buf in e.Own()
      ensures e.buf.lBuf in e.Own() && e.buf.dBuf in e.Own() && e.buf.flagBuf in e.Own()
    {}

    /** FLUSH_BLOCK(0): what has been sent now reproduces the input up to strstart. */
    method Flush(ghost ts: seq<Token>, ghost before: seq<bool>)
      requires Shape() && Window() && Coding(ts, before, Block(), Cur()) && strstart < 2 * cfg.wsize
      modifies e.w, e.w.outbuf, e.Own()
      ensures e.Valid([]) && Follows(e.w.Sent(), before, src.data[..Cur()])
    {
      hide Pow2, HeadOk, PrevOk, Produces, Follows, TokenOk, Encoder.Valid, Writer.Sent, Encodable, BlockBits, Pick,
          BlockOk;
      EncoderFlushes();
      EncoderParts(ts);
      ghost var hist, sent := src.data[..base + blockStart], e.w.Sent();
      BlockLength(ts, hist, src.data[..Cur()], strstart, blockStart);
      ghost var blk, dyn := e.FlushBlock(window, blockStart, Wrap(strstart - blockStart), false, ts);
      BlockData(src.data, window[..], base, blockStart, strstart, strstart + lookahead);
      PickOk(blockStart >= 0, if blockStart >= 0 then window[blockStart..strstart] else [], strstart - blockStart,
             Fixed(ts), dyn, ts, hist, src.data[..Cur()]);
      FollowsBlock(sent, before, blk, hist, src.data[..Cur()]);
    }

    /** FLUSH_BLOCK(1): the decoder stops within the last byte, with the whole input. */
    method FlushLast(ghost ts: seq<Token>, ghost before: seq<bool>)
      requires Shape() && Window() && Coding(ts, before, Block(), Cur()) && strstart < 2 * cfg.wsize
      modifies e.w, e.w.outbuf, e.Own()
      ensures e.Valid([]) && Finished(before, src.data[..Cur()])
    {
      hide Pow2, HeadOk, PrevOk, Produces, Follows, TokenOk, Encoder.Valid, Writer.Sent, Encodable, BlockBits, Pick,
          BlockOk, Inflate, BitsOf, Lsb, Writer.Output;
      EncoderFlushes();
      EncoderParts(ts);
      ghost var hist, sent := src.data[..base + blockStart], e.w.Sent();
      BlockLength(ts, hist, src.data[..Cur()], strstart, blockStart);
      ghost var blk, dyn := e.FlushBlock(window, blockStart, Wrap(strstart - blockStart), true, ts);
      BlockData(src.data, window[..], base, blockStart, strstart, strstart + lookahead);
      PickOk(blockStart >= 0, if blockStart >= 0 then window[blockStart..strstart] else [], strstart - blockStart,
             Fixed(ts), dyn, ts, hist, src.data[..Cur()]);
      EncoderParts([]);
      BlockEnds(sent, before, blk, hist, src.data[..Cur()], e.w.Sent());
    }

    /** The bits sent are whole bytes, and whatever follows them a decoder that starts after
        the bits before produces out and stops within the last byte. */
    ghost predicate Finished(before: seq<bool>, out: seq<byte>)
      reads e.w, e.w.outbuf
    {
      && e.w.Valid() && e.w.Sent() == BitsOf(e.w.Output())
      && exists end: nat :: Ends(e.w.Sent(), before, out, end)
    }

    lemma EncoderParts(ts: seq<Token>)
      requires e.Valid(ts)
      ensures e.w.Valid() && |ts| < 0x8000
    {
      hide Encoder.Counted, Encoder.Statics, Encoder.Separate, Encoder.Descs, Pow2, FlagsOk, LcSeq, DistSeq, Matches;
    }

    lemma EncoderFlushes()
      ensures e.b in e.Own() && e.b.heap in e.Own() && e.b.depth in e.Own() && e.b.blCount in e.Own()
      ensures e.lt.fc in e.Own() && e.lt.dl in e.Own() && e.dt.fc in e.Own() && e.dt.dl in e.Own()
      ensures e.bt.fc in e.Own() && e.bt.dl in e.Own() && e.buf in e.Own() && e.buf.flagBuf in e.Own()
    {}

    // ---------- the main loop ----------

    /** A match of length len at the place before strstart, found in the step before: it
        starts at input position mpos, which may lie before the window. */
    ghost predicate Pending(mpos: int, len: nat)
      reads this, src
    {
      && cfg.Ok() && 0 <= mpos && 1 <= Cur() && 1 <= Cur() - 1 - mpos <= cfg.MaxDist()
      && Repeats(src.data, Cur() - 1, Cur() - 1 - mpos, len) && Cur() - 1 + len <= src.pos
      && matchStart == Wrap(mpos - base)
    }

    /** The search for a match at strstart, lazily: not if the one before is long enough. */
    method FindMatch(hashHead: nat) returns (matchLength: nat)
      requires Shape() && Window() && Chains(strstart + 1) && lookahead > 0 && 1 <= prevLength <= MAX_MATCH
      requires matchStart < ULONG
      requires hashHead == 0
               || (hashHead < strstart && H3(window[..], hashHead, cfg.hashBits)
                   == H3(window[..], strstart, cfg.hashBits))
      modifies this`matchStart
      ensures 1 <= matchLength <= MAX_MATCH && matchStart < ULONG
      ensures matchLength > prevLength && matchLength >= 3 ==> Found(matchLength) && matchLength <= lookahead
      ensures var l := SearchAt(cfg, window[..], prev[..], strstart, hashHead, prevLength, lookahead);
        matchLength == if l == 3 && Wrap(strstart - matchStart) > cfg.tooFar then 2 else l
    {
      hide Pow2, Encoder.Own, Agree, HeadOk, PrevOk, H3, Longest, Chains;
      matchLength := MIN_MATCH - 1;
      if hashHead != 0 && prevLength < cfg.maxLazy && strstart - hashHead <= cfg.MaxDist() {
        matchLength := LongestMatch(hashHead);
        if matchLength > lookahead {
          if matchLength > prevLength { AgreeUpTo(window[..], matchStart, strstart, matchLength, lookahead); }
          matchLength := lookahead;
        }
        // ignore a length 3 match if it is too distant
        if matchLength == MIN_MATCH && Wrap(strstart - matchStart) > cfg.tooFar {
          matchLength := matchLength - 1;
        }
      }
    }

    /** INSERT_STRING for the rest of a match, of which n more places are to be inserted. */
    method InsertRest(n: nat)
      requires Shape() && Chains(strstart + 1) && n > 0 && strstart + n + 2 < window.Length
      requires Rolled(insH, window[strstart + 1], window[strstart + 2], cfg.hashBits)
      modifies this`strstart, this`insH, this`prevLength, prev, head
      ensures strstart == old(strstart) + n && prevLength == 0
      ensures Chains(strstart + 1) && Rolled(insH, window[strstart + 1], window[strstart + 2], cfg.hashBits)
    {
      hide Pow2, Encoder.Own, HeadOk, PrevOk, Rolled, H3, Chains;
      prevLength := n;
      while prevLength != 0
        invariant prevLength <= n && strstart == old(strstart) + (n - prevLength)
        invariant Chains(strstart + 1) && Rolled(insH, window[strstart + 1], window[strstart + 2], cfg.hashBits)
        decreases prevLength
      {
        strstart := strstart + 1;
        var hashHead := InsertString(strstart);
        prevLength := prevLength - 1;
      }
    }

    /** After a flush the next block starts at strstart. */
    lemma BlockBegins(before: seq<bool>)
      requires Shape() && Window() && e.Valid([]) && Follows(e.w.Sent(), before, src.data[..Cur()])
          && blockStart == strstart
      ensures Coding([], before, Block(), Cur()) && Roomy([])
    {
      hide Pow2, Follows, HeadOk, Inflate, FlagsOk, Encoder.Counted, Encoder.Statics, Encoder.Separate, Encoder.Descs;
    }

    /** FLUSH_BLOCK(0); block_start = strstart */
    method EndBlock(ghost ts: seq<Token>, ghost before: seq<bool>)
      requires Shape() && Window() && Coding(ts, before, Block(), Cur()) && strstart < 2 * cfg.wsize
      modifies this`blockStart, e.w, e.w.outbuf, e.Own()
      ensures Window() && Coding([], before, Block(), Cur()) && Roomy([])
    {
      hide Pow2, Encoder.Own, Coding, Encoder.Valid, Follows, Writer.Sent, Roomy;
      CodingBounds(ts, before, Block(), Cur());
      Flush(ts, before);
      blockStart := strstart;
      BlockBegins(before);
    }

    lemma CodingBounds(ts: seq<Token>, before: seq<bool>, from: int, upto: nat)
      requires Coding(ts, before, from, upto)
      ensures 0 <= from <= upto <= |src.data|
    {
      hide Encoder.Valid, Follows;
    }

    /** The token of the match found in the step before. */
    method TallyMatch(prevMatch: nat, ghost mpos: int, ghost ts: seq<Token>, ghost before: seq<bool>)
        returns (flush: bool, ghost ts': seq<Token>)
      requires Shape() && Window() && 0 < strstart
      requires Coding(ts, before, Block(), Cur() - 1) && Roomy(ts) && MIN_MATCH <= prevLength <= MAX_MATCH
      requires 0 <= mpos && 1 <= Cur() - 1 - mpos <= cfg.MaxDist() && prevMatch == Wrap(mpos - base)
      requires Repeats(src.data, Cur() - 1, Cur() - 1 - mpos, prevLength) && Cur() - 1 + prevLength <= src.pos
      modifies e.Own()
      ensures Coding(ts', before, Block(), Cur() - 1 + prevLength) && (!flush ==> Roomy(ts'))
      ensures ts' == ts + [Match(prevLength, Cur() - 1 - mpos)]
    {
      hide Pow2, Encoder.Own, Coding, Repeats, Encoder.Valid, Follows, Writer.Sent, Matches, Roomy, CopyBack;
      ghost var p, dist := Cur() - 1, Cur() - 1 - mpos;
      CopiesInput(src.data, p, dist, prevLength);
      DistanceIs(strstart - 1, mpos - base, dist);
      ghost var t := Match(prevLength, dist);
      ts' := ts + [t];
      flush := Tally(Wrap(strstart - 1 - prevMatch), prevLength - MIN_MATCH, ts, t, before, p, p + prevLength);
    }

    /** The match found in the step before is output: its token, then its strings go into
        the hash chains. */
    method OutputMatch(prevMatch: nat, ghost mpos: int, ghost ts: seq<Token>, ghost before: seq<bool>)
        returns (ghost ts': seq<Token>)
      requires Shape() && Window() && Chains(strstart + 1) && 0 < strstart && 0 < lookahead
      requires Rolled(insH, window[strstart + 1], window[strstart + 2], cfg.hashBits)
      requires Coding(ts, before, Block(), Cur() - 1) && Roomy(ts) && MIN_MATCH <= prevLength <= MAX_MATCH
      requires 0 <= mpos && 1 <= Cur() - 1 - mpos <= cfg.MaxDist() && prevMatch == Wrap(mpos - base)
      requires Repeats(src.data, Cur() - 1, Cur() - 1 - mpos, prevLength) && Cur() - 1 + prevLength <= src.pos
      requires !eofile ==> lookahead >= MIN_LOOKAHEAD
      modifies this`strstart, this`lookahead, this`blockStart, this`insH, this`prevLength, prev, head, e.w, e.w.outbuf,
          e.Own()
      ensures Window() && Chains(strstart)
      ensures Rolled(insH, window[strstart], window[strstart + 1], cfg.hashBits)
      ensures Coding(ts', before, Block(), Cur()) && Roomy(ts') && Cur() == old(Cur()) - 1 + old(prevLength)
      ensures Added(ts, Match(old(prevLength), old(Cur()) - 1 - mpos), ts')
      ensures eofile || lookahead >= 2
    {
      hide Pow2, Encoder.Own, HeadOk, PrevOk, Rolled, H3, Chains, Coding, Repeats, Encoder.Valid, Follows,
          Writer.Sent, Roomy;
      var flush;
      flush, ts' := TallyMatch(prevMatch, mpos, ts, before);
      CodingBounds(ts', before, Block(), Cur() - 1 + prevLength);
      lookahead := lookahead - (prevLength - 1);
      OwnAlone(e, src);
      InsertRest(prevLength - 2);
      strstart := strstart + 1;
      if flush {
        EndBlock(ts', before);
        ts' := [];
      }
    }

    /** The byte before strstart is output as a literal. */
    method OutputLiteral(ghost ts: seq<Token>, ghost before: seq<bool>) returns (ghost ts': seq<Token>)
      requires Shape() && Window() && Chains(strstart + 1) && 0 < strstart && 0 < lookahead
      requires Coding(ts, before, Block(), Cur() - 1) && Roomy(ts)
      modifies this`strstart, this`lookahead, this`blockStart, e.w, e.w.outbuf, e.Own()
      ensures Window() && Chains(strstart) && Cur() == old(Cur()) + 1 && lookahead == old(lookahead) - 1
      ensures Coding(ts', before, Block(), Cur() - 1) && Roomy(ts')
      ensures old(0 < Cur() <= |src.data|) && Added(ts, Literal(src.data[old(Cur()) - 1]), ts')
    {
      hide Pow2, Encoder.Own, HeadOk, PrevOk, Rolled, H3, Chains, Coding, Encoder.Valid, Follows, Writer.Sent, Roomy;
      OwnAlone(e, src);
      LastByte();
      LiteralInput(src.data, Cur() - 1);
      ghost var t := Literal(window[strstart - 1]);
      var flush := Tally(0, window[strstart - 1] as nat, ts, t, before, Cur() - 1, Cur());
      ts' := ts + [t];
      if flush {
        EndBlock(ts', before);
        ts' := [];
      }
      strstart := strstart + 1;
      lookahead := lookahead - 1;
    }

    /** The byte before strstart in the window is the byte before it in the input. */
    lemma LastByte()
      requires Window() && 0 < strstart
      ensures Cur() <= src.pos <= |src.data| && window[strstart - 1] == src.data[Cur() - 1]
    {
      assert window[..strstart + lookahead][strstart - 1] == src.data[base..src.pos][strstart - 1];
    }

    /** Between two steps: avail says that the byte before strstart is still to be output,
        as a literal or, if matchLength is at least 3, with the match found for it. */
    ghost predicate Between(ts: seq<Token>, before: seq<bool>, avail: bool, matchLength: nat, mpos: int, least: nat)
      reads this, src, window, prev, head, e.w, e.w.outbuf, e.Own()
    {
      && Shape() && src.Valid() && Window() && Chains(strstart) && matchStart < ULONG
      && (eofile || lookahead >= least) && (eofile && !src.failed ==> src.pos == |src.data|)
      && (lookahead > 0 ==> Rolled(insH, window[strstart], window[strstart + 1], cfg.hashBits))
      && 1 <= matchLength <= MAX_MATCH && (matchLength >= MIN_MATCH ==> avail && Pending(mpos, matchLength))
      && (avail ==> strstart >= 1)
      && Roomy(ts) && Coding(ts, before, Block(), Cur() - (if avail then 1 else 0))
    }

    /** The rest of a step: more input, if there is not enough for the next match. */
    method Refill(ghost ts: seq<Token>, ghost before: seq<bool>, ghost avail: bool, ghost matchLength: nat,
        ghost mpos: int)
      requires Between(ts, before, avail, matchLength, mpos, 2)
      modifies this, src, window, prev, head
      ensures Between(ts, before, avail, matchLength, mpos, MIN_LOOKAHEAD) && Cur() == old(Cur())
    {
      hide Pow2, Encoder.Own, HeadOk, PrevOk, Rolled, H3, Chains, Coding, Encoder.Valid, Follows, Writer.Sent, Roomy,
          Repeats, Crc;
      OwnAlone(e, src);
      ghost var base0, a, b := base, window[strstart], window[strstart + 1];
      NextBytes();
      FillWindowIfNeeded();
      NextBytes();
      WrapSub(mpos - base0, base - base0);
    }

    /** The next two bytes of the window are the next two of the input. */
    lemma NextBytes()
      requires Window()
      ensures lookahead >= 2 ==> Cur() + 1 < src.pos <= |src.data| && window[strstart] == src.data[Cur()]
                                 && window[strstart + 1] == src.data[Cur() + 1]
    {
      if lookahead >= 2 {
        assert window[..strstart + lookahead][strstart] == src.data[base..src.pos][strstart];
        assert window[..strstart + lookahead][strstart + 1] == src.data[base..src.pos][strstart + 1];
      }
    }

    /** A match found at strstart is the pending one in the next step. */
    lemma FoundRepeats(len: nat)
      requires Window() && Found(len) && len <= lookahead
      ensures Repeats(src.data, Cur(), strstart - matchStart, len) && Cur() + len <= src.pos
      ensures Wrap(matchStart) == matchStart && Cur() - (strstart - matchStart) == base + matchStart
      ensures 1 <= strstart - matchStart <= cfg.MaxDist()
    {
      WrapSmall(matchStart);
      WindowSlice(window[..], src.data, base, strstart + lookahead, matchStart, len);
      WindowSlice(window[..], src.data, base, strstart + lookahead, strstart, len);
    }

    /** The byte before strstart is output as a literal, if there is one, and the match found
        at strstart waits for the next step. */
    method Defer(avail: bool, matchLength: nat, ghost ts: seq<Token>, ghost before: seq<bool>)
        returns (ghost mpos: int, ghost ts': seq<Token>)
      requires Shape() && src.Valid() && Window() && Chains(strstart + 1) && 0 < lookahead && matchStart < ULONG
      requires Rolled(insH, window[strstart + 1], window[strstart + 2], cfg.hashBits)
      requires (avail ==> 0 < strstart) && (eofile || lookahead >= MIN_LOOKAHEAD)
      requires eofile && !src.failed ==> src.pos == |src.data|
      requires 1 <= matchLength <= MAX_MATCH && (matchLength >= MIN_MATCH ==>
          Found(matchLength) && matchLength <= lookahead)
      requires Coding(ts, before, Block(), Cur() - (if avail then 1 else 0)) && Roomy(ts)
      modifies this`strstart, this`lookahead, this`blockStart, e.w, e.w.outbuf, e.Own()
      ensures Between(ts', before, true, matchLength, mpos, 2) && Cur() == old(Cur()) + 1
      ensures if avail
        then old(0 < Cur() <= |src.data|) && Added(ts, Literal(src.data[old(Cur()) - 1]), ts')
        else ts' == ts
    {
      hide Pow2, Encoder.Own, HeadOk, PrevOk, Rolled, H3, Chains, Coding, Encoder.Valid, Follows, Writer.Sent, Roomy,
          Repeats, Found, Crc, Added;
      OwnAlone(e, src);
      if matchLength >= MIN_MATCH { FoundRepeats(matchLength); }
      mpos := base + matchStart;
      if avail {
        ts' := OutputLiteral(ts, before);
      } else {
        ts' := ts;
        strstart := strstart + 1;
        lookahead := lookahead - 1;
      }
    }

    /** The first half of a round: the string at strstart goes into its chain, and a match is
        searched for along it. */
    method Look(length: nat) returns (prevMatch: nat, matchLength: nat)
      requires Shape() && Window() && Chains(strstart) && matchStart < ULONG && lookahead > 0
      requires Rolled(insH, window[strstart], window[strstart + 1], cfg.hashBits) && 1 <= length <= MAX_MATCH
      modifies this`insH, this`prevLength, this`matchStart, prev, head
      ensures prevLength == length && prevMatch == old(matchStart) && matchStart < ULONG
      ensures Chains(strstart + 1) && Rolled(insH, window[strstart + 1], window[strstart + 2], cfg.hashBits)
      ensures 1 <= matchLength <= MAX_MATCH
      ensures matchLength > length && matchLength >= 3 ==> Found(matchLength) && matchLength <= lookahead
      ensures var hashHead := HeadFor(old(head[..]), window[..], strstart, cfg.hashBits);
        var l := SearchAt(cfg, window[..], old(prev[..])[strstart % cfg.wsize := hashHead], strstart, hashHead, length,
          lookahead);
        matchLength == l || (matchLength == 2 && l == 3)
    {
      hide Pow2, Encoder.Own, HeadOk, PrevOk, Rolled, H3, Chains, Found, Crc, SearchAt, HeadFor;
      var hashHead := InsertString(strstart);
      prevLength := length;
      prevMatch := matchStart;
      matchLength := FindMatch(hashHead);
    }

    /** One round of the loop of deflate(): a match is searched for at strstart. The match
        pending from the round before is sent if the one found is not longer; otherwise the
        byte before strstart is sent as a literal, if it has not been sent, and the match
        found is pending. A match of length 3 that is too far away does not count as one. */
    method Step(avail: bool, length: nat, ghost mpos: int, ghost ts: seq<Token>, ghost before: seq<bool>)
        returns (matchAvailable: bool, matchLength: nat, ghost mpos': int, ghost ts': seq<Token>, ghost found: nat)
      requires Between(ts, before, avail, length, mpos, MIN_LOOKAHEAD) && lookahead != 0
      modifies this, src, window, prev, head, e.w, e.w.outbuf, e.Own()
      ensures Between(ts', before, matchAvailable, matchLength, mpos', MIN_LOOKAHEAD) && Cur() > old(Cur())
      ensures var hashHead := HeadFor(old(head[..]), old(window[..]), old(strstart), cfg.hashBits);
        var l := SearchAt(cfg, old(window[..]), old(prev[..])[old(strstart) % cfg.wsize := hashHead], old(strstart),
          hashHead, length, old(lookahead));
        found == l || (found == 2 && l == 3)
      ensures if length >= 3 && found <= length then
          !matchAvailable && Added(ts, Match(length, old(Cur()) - 1 - mpos), ts') && Cur() == old(Cur()) - 1 + length
        else
          && matchAvailable && matchLength == found && Cur() == old(Cur()) + 1
          && if avail
             then old(0 < Cur() <= |src.data|) && Added(ts, Literal(src.data[old(Cur()) - 1]), ts')
             else ts' == ts
    {
      hide Pow2, Encoder.Own, HeadOk, PrevOk, Rolled, H3, Chains, Coding, Encoder.Valid, Follows, Writer.Sent, Roomy,
          Repeats, Found, Crc, SearchAt, HeadFor, Added;
      OwnAlone(e, src);
      mpos' := mpos;
      var prevMatch;
      prevMatch, matchLength := Look(length);
      found := matchLength;
      if prevLength >= MIN_MATCH && matchLength <= prevLength {
        // the match of the step before is not worse than the one found now
        ts' := OutputMatch(prevMatch, mpos, ts, before);
        matchAvailable := false;
        matchLength := MIN_MATCH - 1;
      } else {
        mpos', ts' := Defer(avail, matchLength, ts, before);
        matchAvailable := true;
      }
      Refill(ts', before, matchAvailable, matchLength, mpos');
    }

    /** The window at the start of the loop: nothing has been output. */
    ghost predicate Started()
      reads this, src, window, prev, head
    {
      && Shape() && src.Valid() && Window() && Chains(strstart) && matchStart < ULONG
      && (eofile || lookahead >= MIN_LOOKAHEAD) && (eofile && !src.failed ==> src.pos == |src.data|)
      && (lookahead > 0 ==> Rolled(insH, window[strstart], window[strstart + 1], cfg.hashBits))
      && Cur() == 0 && Block() == 0
    }

    /** Empty hash chains. */
    method ClearHead()
      requires Shape()
      modifies head
      ensures forall h :: 0 <= h < head.Length ==> head[h] == 0
    {
      hide Pow2, Encoder.Own;
      var j := 0;
      while j < head.Length
        invariant 0 <= j <= head.Length && forall h :: 0 <= h < j ==> head[h] == 0
      {
        head[j] := 0;
        j := j + 1;
      }
    }

    /** The first read of lm_init(). */
    method FirstRead()
      requires Shape() && src.Valid() && src.pos == 0 && !src.failed
      requires strstart == lookahead == insH == matchStart == base == 0 && blockStart == 0 && !eofile
      modifies this`lookahead, this`eofile, src, window, prev, head
      ensures src.Valid() && Window() && Chains(0)
      ensures eofile ==> lookahead == 0 && (!src.failed ==> src.pos == |src.data|)
    {
      hide Pow2, Encoder.Own, HeadOk, PrevOk;
      ClearHead();
      NoChains(window[..], head[..], prev[..], cfg.hashBits);
      ghost var win: seq<byte> := window[..];
      var n := src.FileRead(window, 0, 2 * cfg.wsize);
      ReadKeeps(win, window[..], head[..], prev[..], 0, cfg.hashBits);
      if n == 0 || n == -1 {
        eofile := true;
        lookahead := 0;
        return;
      }
      lookahead := n;
      assert window[..n] == window[0..0 + n];
    }

    /** lm_init: the first input and the hash of its first two bytes. */
    method LmInit()
      requires Shape() && src.Valid() && src.pos == 0 && !src.failed
      requires strstart == lookahead == insH == matchStart == base == 0 && blockStart == 0 && !eofile
      modifies this, src, window, prev, head
      ensures Started()
    {
      hide Pow2, Encoder.Own, HeadOk, PrevOk, Rolled, H3, Crc, Update, HShift;
      FirstRead();
      if eofile {
        return;
      }
      FillWindowIfNeeded();
      insH := 0;
      insH := Update(insH, window[0], HShift(cfg.hashBits), cfg.hashBits);
      insH := Update(insH, window[1], HShift(cfg.hashBits), cfg.hashBits);
      RolledStart(0, window[0], window[1], cfg.hashBits);
    }

    /** deflate(): however the input is read, a decoder gets exactly the input back from
        what is sent after the bits before. */
    method Deflate(ghost before: seq<bool>)
      requires Started() && e.Valid([]) && before == e.w.Sent()
      modifies this, src, window, prev, head, e.w, e.w.outbuf, e.Own()
      ensures src.Valid() && Finished(before, src.data[..src.pos])
      ensures !src.failed ==> src.pos == |src.data|
    {
      hide Pow2, Encoder.Own, HeadOk, PrevOk, Rolled, Encoder.Valid, Follows, Writer.Sent, Coding, Finished, Crc,
          Inflate;
      OwnAlone(e, src);
      NothingSent(before);
      var matchAvailable, matchLength: nat := false, MIN_MATCH - 1;
      ghost var mpos: int, ts: seq<Token> := 0, [];
      while lookahead != 0
        invariant Between(ts, before, matchAvailable, matchLength, mpos, MIN_LOOKAHEAD)
        decreases |src.data| - Cur()
      {
        ghost var found;
        matchAvailable, matchLength, mpos, ts, found := Step(matchAvailable, matchLength, mpos, ts, before);
      }
      if matchAvailable {
        LastByte();
        LiteralInput(src.data, Cur() - 1);
        ghost var t := Literal(window[strstart - 1]);
        var flush := Tally(0, window[strstart - 1] as nat, ts, t, before, Cur() - 1, Cur());
        ts := ts + [t];
      }
      FlushLast(ts, before);
    }

    lemma NothingSent(before: seq<bool>)
      requires Started() && e.Valid([]) && before == e.w.Sent()
      ensures Between([], before, false, MIN_MATCH - 1, 0, MIN_LOOKAHEAD)
    {
      hide Pow2, Encoder.Own, HeadOk, PrevOk, Rolled, Inflate, FlagsOk, Encoder.Counted, Encoder.Statics,
          Encoder.Separate, Encoder.Descs, Writer.Sent, Crc;
      DecodesStart(e.w.Sent());
    }
  }

  // ---------- lemmas about the methods above ----------

  lemma OwnAlone(e: Encoder, src: Source)
    ensures forall o :: o in e.Own() ==> allocated(o)
    ensures src !in e.Own() && e.w !in e.Own() && e.w.outbuf !in e.Own()
  {}

  lemma LongestStep(win: seq<byte>, prev: seq<nat>, s: nat, cur: nat, limit: nat, chain: nat, best: nat, nice: nat)
    requires |prev| > 0 && s + MAX_MATCH <= |win| && cur < s && best <= MAX_MATCH
    ensures var len := MatchLen(win, cur, s); var best' := if len > best then len else best;
      var next := Link(prev, cur);
      Longest(win, prev, s, cur, limit, chain, best, nice) ==
      if (len > best && len >= nice) || next <= limit || next >= cur || Wrap(chain - 1) == 0 then best'
      else Longest(win, prev, s, next, limit, Wrap(chain - 1), best', nice)
  {
    hide MatchLen, Link, Wrap;
  }

  lemma AgreeLess(win: seq<byte>, a: nat, b: nat, len: nat)
    requires Agree(win, a, b, len + 1)
    ensures Agree(win, a, b, len)
  {
    assert win[a..a + len] == win[a..a + len + 1][..len];
    assert win[b..b + len] == win[b..b + len + 1][..len];
  }

  /** Why a position may be skipped: a match that is longer than best agrees at these places. */
  lemma NoLonger(win: seq<byte>, a: nat, b: nat, best: nat)
    requires 1 <= best <= MAX_MATCH && a < b && b + MAX_MATCH < |win|
    requires win[a + best] != win[b + best] || win[a + best - 1] != win[b + best - 1]
             || win[a] != win[b] || win[a + 1] != win[b + 1]
    ensures MatchLen(win, a, b) <= best
  {
    hide MatchLen;
    if win[a + best] != win[b + best] {
      MatchLenBelow(win, a, b, best);
    } else if win[a + best - 1] != win[b + best - 1] {
      MatchLenBelow(win, a, b, best - 1);
    } else if win[a] != win[b] {
      MatchLenBelow(win, a, b, 0);
    } else {
      MatchLenBelow(win, a, b, 1);
    }
  }

  lemma ThirdAgrees(win: seq<byte>, a: nat, b: nat, n: nat)
    requires n >= 8 && a < b && b + 2 < |win| && H3(win, a, n) == H3(win, b, n)
    requires win[a] == win[b] && win[a + 1] == win[b + 1]
    ensures Agree(win, a, b, 3)
  {
    hide Hash3;
    HashTellsThird(win[a], win[a + 1], win[a + 2], win[b + 2], n);
    assert win[a..a + 3] == [win[a], win[a + 1], win[a + 2]];
    assert win[b..b + 3] == [win[b], win[b + 1], win[b + 2]];
  }

  lemma LinkHolds(win: seq<byte>, prev: seq<nat>, next: nat, x: nat, n: nat)
    requires PrevOk(win, prev, next, n) && x < next && next <= x + |prev|
    ensures |prev| > 0 && x + 2 < |win| && LinkAt(win, prev, x, n)
  {}

  /** A read continues the input behind the bytes in the window. */
  lemma ReadData(win: seq<byte>, win': seq<byte>, total: nat, n: nat, data: seq<byte>, base: nat, pos: nat)
    requires |win'| == |win| && total + n <= |win| && base + total == pos && pos + n <= |data|
    requires win[..total] == data[base..pos] && win'[total..total + n] == data[pos..pos + n]
    requires forall i :: 0 <= i < |win| && !(total <= i < total + n) ==> win'[i] == win[i]
    ensures win'[..total + n] == data[base..pos + n]
    ensures forall k :: 0 <= k <= total ==> win'[..k] == win[..k]
  {
    assert win'[..total] == win[..total];
    assert win'[..total + n] == win'[..total] + win'[total..total + n];
    assert data[base..pos + n] == data[base..pos] + data[pos..pos + n];
  }

  lemma SlideData(win: seq<byte>, win': seq<byte>, w: nat, total: nat, data: seq<byte>, base: nat)
    requires Slid(win, win', w) && w <= total <= 2 * w && base + total <= |data|
        && win[..total] == data[base..base + total]
    ensures |win'| == |win| >= 2 * w && win'[..total - w] == data[base + w..base + total]
  {
    forall i | 0 <= i < total - w ensures win'[i] == data[base + w + i] {
      assert win[..total][i + w] == data[base..base + total][i + w];
    }
  }

  /** The block length fits its 32-bit variable. */
  lemma BlockLength(ts: seq<Token>, hist: seq<byte>, all: seq<byte>, strstart: nat, blockStart: int)
    requires Produces(ts, hist, all) && |ts| < 0x8000 && |all| - |hist| == strstart - blockStart
    ensures 0 <= strstart - blockStart && Wrap(strstart - blockStart) == strstart - blockStart
  {
    ProducedLength(ts, hist, all);
  }

  lemma SliceOfSlice(s: seq<byte>, a: nat, b: nat, i: nat, j: nat)
    requires a <= b <= |s| && i <= j <= b - a
    ensures s[a..b][i..j] == s[a + i..a + j]
  {
    forall k | 0 <= k < j - i ensures s[a..b][i..j][k] == s[a + i..a + j][k] {
      assert s[a..b][i + k] == s[a + (i + k)];
    }
  }

  lemma WindowSlice(win: seq<byte>, data: seq<byte>, base: nat, total: nat, a: nat, len: nat)
    requires total <= |win| && base + total <= |data| && win[..total] == data[base..base + total] && a + len <= total
    ensures win[a..a + len] == data[base + a..base + a + len]
  {
    SliceOfSlice(win, 0, total, a, a + len);
    SliceOfSlice(data, base, base + total, a, a + len);
  }

  /** The bytes of the block in the window are its part of the input. */
  lemma BlockData(data: seq<byte>, win: seq<byte>, base: nat, blockStart: int, strstart: nat, total: nat)
    requires blockStart <= strstart <= total <= |win| && base + total <= |data| && 0 <= base + blockStart
    requires win[..total] == data[base..base + total]
    ensures blockStart >= 0 ==> data[..base + strstart] == data[..base + blockStart] + win[blockStart..strstart]
  {
    if blockStart >= 0 {
      assert win[blockStart..strstart] == win[..total][blockStart..strstart];
      SliceOfSlice(data, base, base + total, blockStart, strstart);
    }
  }

  /** The bits sent begin with the bits before, and a decoder that starts behind those has
      produced out at their end. */
  ghost predicate Follows(sent: seq<bool>, before: seq<bool>, out: seq<byte>)
  {
    before <= sent && Decodes(sent, |before|, out)
  }

  lemma FollowsBlock(sent: seq<bool>, before: seq<bool>, blk: Block, hist: seq<byte>, all: seq<byte>)
    requires Follows(sent, before, hist) && BlockOk(blk, hist, all)
    ensures Encodable(blk) && Follows(sent + BlockBits(blk, false, |sent|), before, all)
  {
    hide Decodes, BlockOk, Encodable, BlockBits;
    DecodesBlock(sent, |before|, blk, hist, all);
  }

  /** A decoder that starts behind the bits before in any continuation of sent produces out
      and stops at end, less than a byte before the end of sent. */
  ghost predicate Ends(sent: seq<bool>, before: seq<bool>, out: seq<byte>, end: nat)
  {
    before <= sent && end <= |sent| < end + 8
    && forall s: seq<bool> :: sent <= s ==> Inflate(s, |before|, []) == Some((out, end))
  }

  lemma BlockEnds(sent: seq<bool>, before: seq<bool>, blk: Block, hist: seq<byte>, all: seq<byte>, sent': seq<bool>)
    requires Follows(sent, before, hist) && BlockOk(blk, hist, all) && Encodable(blk)
    requires var e := sent + BlockBits(blk, true, |sent|); sent' == e + Lsb(0, Padding(|e|))
    ensures Ends(sent', before, all, |sent| + |BlockBits(blk, true, |sent|)|)
  {
    hide Decodes, BlockOk, Encodable, BlockBits, Inflate, Lsb;
    var e := sent + BlockBits(blk, true, |sent|);
    forall s: seq<bool> | sent' <= s
      ensures Inflate(s, |before|, []) == Some((all, |sent| + |BlockBits(blk, true, |sent|)|))
    {
      assert e <= s;
      DecodesFinal(sent, |before|, blk, hist, all, s);
    }
  }

  /** Whatever kind of block is picked, a decoder gets the same output from it. */
  lemma PickOk(atHand: bool, data: seq<byte>, len: nat, fixed: Block, dyn: Block, ts: seq<Token>, hist: seq<byte>,
      all: seq<byte>)
    requires fixed == Fixed(ts) && dyn.Dynamic? && dyn.tokens == ts && Encodable(fixed) && Encodable(dyn)
    requires Produces(ts, hist, all) && (atHand ==> all == hist + data && |data| < 0x1_0000)
    ensures BlockOk(Pick(atHand, data, len, fixed, dyn), hist, all)
  {
    hide Produces, AllCodable, HeaderOk, FixedLit, FixedDist, ByteLen;
  }

  lemma AgreeUpTo(win: seq<byte>, a: nat, b: nat, len: nat, k: nat)
    requires Agree(win, a, b, len) && k <= len
    ensures Agree(win, a, b, k)
  {
    assert win[a..a + k] == win[a..a + len][..k];
    assert win[b..b + k] == win[b..b + len][..k];
  }

  /** The unsigned difference is the distance, even when the match starts before the window. */
  lemma DistanceIs(s: int, m: int, dist: nat)
    requires s - m == dist < ULONG
    ensures Wrap(s - Wrap(m)) == dist
  {}
}
