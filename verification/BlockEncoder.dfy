/** The blocks of gzip.c: ct_tally collects tokens and frequencies, flush_block builds
    the trees, picks the cheapest of the three kinds of block and sends it. */
module BlockEncoder {
  import opened Bits
  import opened BitWriter
  import opened Canonical
  import opened RunLength
  import opened Inflater
  import opened EncoderTables
  import opened Blocks
  import opened Merging
  import opened LengthPasses
  import opened Symbols
  import opened TreeBuilder
  import opened TreeCoding
  import opened CodeTables
  import opened StaticTrees
  import opened Costs
  import opened DynamicTrees
  import opened TokenBuffer

  predicate Apart(x: CtTree, y: CtTree) {
    x.fc != y.fc && x.fc != y.dl && x.dl != y.fc && x.dl != y.dl
  }

  predicate AllApart(lt: CtTree, dt: CtTree, bt: CtTree, slt: CtTree, sdt: CtTree) {
    && lt.fc != lt.dl && dt.fc != dt.dl && bt.fc != bt.dl && slt.fc != slt.dl && sdt.fc != sdt.dl
    && Apart(lt, dt) && Apart(lt, bt) && Apart(lt, slt) && Apart(lt, sdt)
    && Apart(dt, bt) && Apart(dt, slt) && Apart(dt, sdt)
    && Apart(bt, slt) && Apart(bt, sdt) && Apart(slt, sdt)
  }

  class Encoder {
    const w: Writer
    const b: Builder
    const tb: Tables
    const buf: TokenBuf
    const lt: CtTree   // dyn_ltree
    const dt: CtTree   // dyn_dtree
    const bt: CtTree   // bl_tree
    const slt: CtTree  // static_ltree
    const sdt: CtTree  // static_dtree
    const lDesc: TreeDesc
    const dDesc: TreeDesc
    const blDesc: TreeDesc

    predicate BufApart(x: CtTree) {
      && x.fc != buf.lBuf && x.fc != buf.dBuf && x.fc != buf.flagBuf
      && x.dl != buf.lBuf && x.dl != buf.dBuf && x.dl != buf.flagBuf
    }

    predicate BuilderApart(a: array<nat>) {
      a != b.heap && a != b.depth && a != b.blCount
    }

    /** No two of the arrays are the same. */
    predicate Separate() {
      && b.Apart(lt) && b.Apart(dt) && b.Apart(bt) && b.Apart(slt) && b.Apart(sdt)
      && AllApart(lt, dt, bt, slt, sdt)
      && BufApart(lt) && BufApart(dt) && BufApart(bt) && BufApart(slt) && BufApart(sdt)
      && BuilderApart(buf.lBuf) && BuilderApart(buf.dBuf) && BuilderApart(buf.flagBuf)
    }

    predicate Descs() {
      && lDesc.tree == lt && lDesc.stree == slt && lDesc.extraBits == EXTRA_LBITS && lDesc.extraBase == 257
      && lDesc.elems == 286 && lDesc.maxLength == 15 && lDesc.Fits()
      && dDesc.tree == dt && dDesc.stree == sdt && dDesc.extraBits == EXTRA_DBITS && dDesc.extraBase == 0
      && dDesc.elems == 30 && dDesc.maxLength == 15 && dDesc.Fits()
      && blDesc.tree == bt && blDesc.stree == null && blDesc.extraBits == EXTRA_BLBITS && blDesc.extraBase == 0
      && blDesc.elems == 19 && blDesc.maxLength == 7 && blDesc.Fits()
    }

    ghost predicate Shape() {
      && b.Sizes() && buf.Sizes() && tb.Valid() && Separate() && Descs()
      && lt.fc.Length == lt.dl.Length == HEAP_SIZE && dt.fc.Length == dt.dl.Length == 61
      && bt.fc.Length == bt.dl.Length == 39
      && slt.fc.Length == slt.dl.Length == 288 && sdt.fc.Length == sdt.dl.Length == 30
    }

    /** The static trees hold the fixed codes. */
    ghost predicate Statics()
      reads slt.fc, slt.dl, sdt.fc, sdt.dl
    {
      && slt.dl[..] == FixedLit() && Coded(slt, FixedLit())
      && sdt.dl[..] == FixedDist()[..30] && Coded(sdt, FixedDist())
    }

    /** The frequencies are those of the tokens. */
    ghost predicate Counted(ts: seq<Token>)
      reads lt.fc, dt.fc, bt.fc, b
    {
      && TallyOf(lt.fc[..], LitSyms(ts) + [END_BLOCK], 286)
      && TallyOf(dt.fc[..], DistSyms(ts), 30)
      && TallyOf(bt.fc[..], [], 19)
      && b.optLen == 0 && b.staticLen == 0
    }

    /** Everything between two blocks: the tokens of the block begun are ts. */
    ghost predicate Valid(ts: seq<Token>)
      reads w, w.outbuf, b, buf, buf.lBuf, buf.dBuf, buf.flagBuf, lt.fc, dt.fc, bt.fc, slt.fc, slt.dl, sdt.fc, sdt.dl
    {
      && Shape() && Statics() && Counted(ts) && buf.Holds(ts) && w.Valid()
      && forall i :: 0 <= i < |ts| ==> TokenOk(ts[i])
    }

    /** Puts the parts together; the descriptions of the trees are those of pack_gzip. */
    constructor (w: Writer, b: Builder, tb: Tables, buf: TokenBuf,
                 lt: CtTree, dt: CtTree, bt: CtTree, slt: CtTree, sdt: CtTree)
      ensures this.w == w && this.b == b && this.tb == tb && this.buf == buf
      ensures this.lt == lt && this.dt == dt && this.bt == bt && this.slt == slt && this.sdt == sdt
      ensures fresh(lDesc) && fresh(dDesc) && fresh(blDesc)
      ensures lDesc.tree == lt && lDesc.stree == slt && lDesc.extraBits == EXTRA_LBITS && lDesc.extraBase == 257
      ensures lDesc.elems == 286 && lDesc.maxLength == 15
      ensures dDesc.tree == dt && dDesc.stree == sdt && dDesc.extraBits == EXTRA_DBITS && dDesc.extraBase == 0
      ensures dDesc.elems == 30 && dDesc.maxLength == 15
      ensures blDesc.tree == bt && blDesc.stree == null && blDesc.extraBits == EXTRA_BLBITS && blDesc.extraBase == 0
      ensures blDesc.elems == 19 && blDesc.maxLength == 7
    {
      hide *;
      this.w, this.b, this.tb, this.buf := w, b, tb, buf;
      this.lt, this.dt, this.bt, this.slt, this.sdt := lt, dt, bt, slt, sdt;
      lDesc := new TreeDesc(lt, slt, EXTRA_LBITS, 257, 286, 15);
      dDesc := new TreeDesc(dt, sdt, EXTRA_DBITS, 0, 30, 15);
      blDesc := new TreeDesc(bt, null, EXTRA_BLBITS, 0, 19, 7);
    }

    /** Everything that belongs to the encoder alone. */
    ghost function Own(): set<object> {
      {this, b, buf, b.heap, b.depth, b.blCount, buf.lBuf, buf.dBuf, buf.flagBuf,
       lt.fc, lt.dl, dt.fc, dt.dl, bt.fc, bt.dl, slt.fc, slt.dl, sdt.fc, sdt.dl}
    }

    /** Sets the first n frequencies to 0. */
    method ZeroFreqs(t: CtTree, n: nat)
      requires n <= t.fc.Length
      modifies t.fc
      ensures forall i :: 0 <= i < n ==> t.fc[i] == 0
    {
      for k := 0 to n
        invariant forall i :: 0 <= i < k ==> t.fc[i] == 0
      {
        t.fc[k] := 0;
      }
    }

    /** init_block */
    method InitBlock()
      requires Shape()
      modifies lt.fc, dt.fc, bt.fc, b`optLen, b`staticLen, buf
      ensures Counted([]) && buf.Holds([])
    {
      hide TallyOf, FlagsOk, Pow2;
      ZeroFreqs(lt, 286);
      ZeroFreqs(dt, 30);
      ZeroFreqs(bt, 19);
      ghost var f: seq<nat> := lt.fc[..];
      lt.fc[END_BLOCK] := 1;
      assert lt.fc[..] == f[END_BLOCK := 1];
      b.optLen, b.staticLen := 0, 0;
      buf.Clear();
      FirstFreqs(f);
      NoFreqs(dt.fc[..], 30);
      NoFreqs(bt.fc[..], 19);
    }

    /** The frequency part of ct_tally. */
    method CountToken(dist: nat, lc: nat, ghost ts: seq<Token>, ghost t: Token)
      requires Shape() && Counted(ts) && |ts| < 0x8000 && TokenOk(t)
      requires lc == LcOf(t) && (t.Match? <==> dist != 0) && (t.Match? ==> t.dist == dist)
      modifies lt.fc, dt.fc
      ensures Counted(ts + [t])
    {
      hide TallyOf, LengthCode, DistCode, LitSyms, DistSyms, Pow2, XBits, EXTRA_LBITS, EXTRA_DBITS, EXTRA_BLBITS;
      ghost var lf: seq<nat>, df: seq<nat> := lt.fc[..], dt.fc[..];
      TalliesGrow(lf, df, ts, t);
      if dist == 0 {
        lt.fc[lc] := (lt.fc[lc] + 1) % USHORT;
      } else {
        TableEntries(tb, lc, dist - 1);
        var c := tb.lengthCode[lc] + 256 + 1;
        lt.fc[c] := (lt.fc[c] + 1) % USHORT;
        var d := tb.DCode(dist - 1);
        dt.fc[d] := (dt.fc[d] + 1) % USHORT;
      }
      assert lt.fc[..] == lf[LitSym(t) := lf[LitSym(t)] + 1];
      assert dt.fc[..] == if t.Match? then df[DistCode(t.dist) := df[DistCode(t.dist)] + 1] else df;
    }

    /** ct_tally: one more token for the block; the result says that the block must be
        flushed before the next one. */
    method CtTally(dist: nat, lc: nat, inLength: nat, ghost ts: seq<Token>, ghost t: Token) returns (flush: bool)
      requires Valid(ts) && |ts| + 1 < buf.litBufsize && |Matches(ts)| < buf.distBufsize
      requires TokenOk(t) && lc == LcOf(t) && (t.Match? <==> dist != 0) && (t.Match? ==> t.dist == dist)
      modifies lt.fc, dt.fc, buf, buf.lBuf, buf.dBuf, buf.flagBuf
      ensures Valid(ts + [t])
      ensures !flush ==> |ts| + 2 < buf.litBufsize && |Matches(ts + [t])| < buf.distBufsize
      ensures flush <==> |ts| + 2 == buf.litBufsize || |Matches(ts + [t])| == buf.distBufsize
                         || ((|ts| + 1) % 0x1000 == 0 && |Matches(ts + [t])| < (|ts| + 1) / 2
                             && Estimate(ts + [t]) / 8 < inLength / 2)
    {
      hide TallyOf, FlagsOk, LengthCode, DistCode, LitSyms, DistSyms, LcSeq, DistSeq, Matches, Pow2, XBits,
          EXTRA_LBITS, EXTRA_BLBITS, FixedLit, FixedDist, Coded, TokenOk, Estimate;
      CountToken(dist, lc, ts, t);
      buf.Add(lc, dist, ts, t);
      if buf.lastLit % 0x1000 == 0 {
        var outLength := OutLength(ts + [t]);
        outLength := outLength / 8;
        if buf.lastDist < buf.lastLit / 2 && outLength < inLength / 2 { return true; }
      }
      flush := buf.lastLit == buf.litBufsize - 1 || buf.lastDist == buf.distBufsize;
    }

    /** An upper bound for the compressed length, in bits. */
    method OutLength(ghost ts: seq<Token>) returns (outLength: nat)
      requires dt.fc.Length >= 30 && TallyOf(dt.fc[..], DistSyms(ts), 30) && buf.lastLit == |ts| < 0x8000
      ensures outLength == Estimate(ts)
    {
      hide TallyOf, DistSyms, DistCode, XBits, EXTRA_DBITS, FixedDist, Estimate, Wrap, SymCost;
      ExtraBitsAgree();
      ghost var f: seq<nat>, fives := dt.fc[..], FixedDist();
      var dcode := 0;
      outLength := buf.lastLit * 8;
      NothingCosts(f, fives, EXTRA_DBITS);
      WrapSmall(outLength);
      while dcode < D_CODES
        invariant 0 <= dcode <= 30 && outLength == Wrap(8 * |ts| + SymCost(f, fives, EXTRA_DBITS, 0, dcode))
      {
        FiveAndExtra(f, dcode);
        WrapAdd(8 * |ts| + SymCost(f, fives, EXTRA_DBITS, 0, dcode), dt.fc[dcode] * (5 + EXTRA_DBITS[dcode]));
        outLength := Wrap(outLength + dt.fc[dcode] * (5 + EXTRA_DBITS[dcode]));
        dcode := dcode + 1;
      }
      EstimateFromTally(f, ts);
      WrapSmall(Estimate(ts));
    }

    // ---------- flush_block ----------

    /** The literal and distance trees of the block are built; opt_len and static_len are
        the exact numbers of bits that the tokens take with these and with the static trees. */
    ghost predicate TreesReady(ts: seq<Token>, maxL: nat, maxD: nat)
      reads lt.fc, lt.dl, dt.fc, dt.dl, bt.fc, b
    {
      && 256 <= maxL < 286 <= lt.dl.Length && maxD < 30 <= dt.dl.Length
      && Coded(lt, lt.dl[..maxL + 1]) && Coded(dt, dt.dl[..maxD + 1])
      && Complete(lt.dl[..maxL + 1], 15) && Complete(dt.dl[..maxD + 1], 15)
      && AllCodable(lt.dl[..maxL + 1], dt.dl[..maxD + 1], ts)
      && AllCodable(FixedLit(), FixedDist(), ts)
      && b.optLen == |TokensBits(lt.dl[..maxL + 1], dt.dl[..maxD + 1], ts)| <= 0x20_0000
      && b.staticLen == |TokensBits(FixedLit(), FixedDist(), ts)| <= 0x20_0000
      && TallyOf(bt.fc[..], [], 19)
    }

    method BuildTrees(ghost ts: seq<Token>) returns (maxL: nat, maxD: nat)
      requires Shape() && Statics() && Counted(ts) && |ts| < 0x8000
      requires forall i :: 0 <= i < |ts| ==> TokenOk(ts[i])
      modifies b, b.heap, b.depth, b.blCount, lt.fc, lt.dl, dt.fc, dt.dl
      ensures TreesReady(ts, maxL, maxD)
    {
      hide TallyOf, Built, SymCost, SumRange, Coded, Complete, AllCodable, TokensBits, LitSyms, DistSyms, TokenOk,
          Wrap, MadeFrom, Shortest, Used, FixedLit, FixedDist, Builder.StaticLens, Pow2, XBits, EXTRA_LBITS,
          EXTRA_DBITS, EXTRA_BLBITS, TreeDesc.Fits, Tables.Valid;
      ghost var fl: seq<nat>, fd: seq<nat> := lt.fc[..], dt.fc[..];
      FreqSums(fl, lt.dl[..], fd, dt.dl[..], ts);
      ghost var c, w;
      maxL, c, w := b.BuildTree(lDesc);
      ghost var lfc: seq<nat>, l: seq<nat> := lt.fc[..], lt.dl[..];
      StaticLensAre();
      maxD, c, w := b.BuildTree(dDesc);
      StaticLensAre();
      TreesFrom(fl, fd, maxL, maxD, ts);
    }

    lemma StaticLensAre()
      requires Shape() && Statics()
      ensures b.StaticLens(lDesc) == FixedLit() && b.StaticLens(dDesc) == FixedDist()[..30]
    {
      hide FixedLit, FixedDist, Coded, Separate, TreeDesc.Fits, Tables.Valid;
    }

    lemma TreesFrom(fl: seq<nat>, fd: seq<nat>, maxL: nat, maxD: nat, ts: seq<Token>)
      requires TallyOf(fl, LitSyms(ts) + [END_BLOCK], 286) && TallyOf(fd, DistSyms(ts), 30) && |ts| < 0x8000
      requires forall i :: 0 <= i < |ts| ==> TokenOk(ts[i])
      requires Built(fl, lt.fc[..], lt.dl[..], 286, maxL, 15) && Built(fd, dt.fc[..], dt.dl[..], 30, maxD, 15)
      requires TallyOf(bt.fc[..], [], 19) && 286 <= lt.dl.Length && 30 <= dt.dl.Length
      requires b.optLen == Wrap(Wrap(SymCost(fl, lt.dl[..], EXTRA_LBITS, 257, 286))
                                + SymCost(fd, dt.dl[..], EXTRA_DBITS, 0, 30))
      requires b.staticLen == Wrap(Wrap(SymCost(fl, FixedLit(), EXTRA_LBITS, 257, 286))
                                   + SymCost(fd, FixedDist()[..30], EXTRA_DBITS, 0, 30))
      ensures TreesReady(ts, maxL, maxD)
    {
      hide TallyOf, Built, SymCost, SumRange, Coded, Complete, AllCodable, TokensBits, LitSyms, DistSyms, TokenOk,
          Wrap, FixedLit, FixedDist, Pow2, XBits, EXTRA_LBITS, EXTRA_DBITS, EXTRA_BLBITS, AllCoded;
      FreqSums(fl, lt.dl[..], fd, dt.dl[..], ts);
      TokenTrees(fl, lt.fc[..], lt.dl[..], fd, dt.fc[..], dt.dl[..], maxL, maxD, ts);
      BuiltCoded(lt, fl, 286, maxL, 15);
      BuiltCoded(dt, fd, 30, maxD, 15);
      FixedTokens(fl, fd, ts);
      WrapSums(SymCost(fl, lt.dl[..], EXTRA_LBITS, 257, 286), SymCost(fd, dt.dl[..], EXTRA_DBITS, 0, 30));
      WrapSums(SymCost(fl, FixedLit(), EXTRA_LBITS, 257, 286), SymCost(fd, FixedDist()[..30], EXTRA_DBITS, 0, 30));
    }

    /** The bit-length tree is built as well: opt_len is the exact length of the body of a
        dynamic block with n bit-length code lengths in its header. */
    ghost predicate HeaderReady(ts: seq<Token>, maxL: nat, maxD: nat, n: nat)
      reads lt.fc, lt.dl, dt.fc, dt.dl, bt.fc, bt.dl, b
    {
      && 256 <= maxL < 286 < lt.dl.Length && maxD < 30 < dt.dl.Length && 19 <= bt.dl.Length
      && var ll, dl, bl := lt.dl[..maxL + 1], dt.dl[..maxD + 1], bt.dl[..19];
      && HeaderOk(ll, dl, bl, n) && AllCodable(ll, dl, ts) && AllCodable(FixedLit(), FixedDist(), ts)
      && Coded(lt, ll) && Coded(dt, dl) && Coded(bt, bl)
      && lt.dl[maxL + 1] == GUARD && dt.dl[maxD + 1] == GUARD
      && b.optLen == |HeaderBits(ll, dl, bl, n)| + |TokensBits(ll, dl, ts)| <= 0x40_0000
      && b.staticLen == |TokensBits(FixedLit(), FixedDist(), ts)| <= 0x20_0000
    }

    /** Scans a tree, which leaves its codes as they are. */
    method Scan(t: CtTree, maxCode: nat, ghost lens: seq<nat>)
      requires t.dl != bt.fc && t.fc != bt.fc && t.fc != t.dl && maxCode + 1 < t.dl.Length
      requires lens == t.dl[..maxCode + 1] && Lengths(lens) && Coded(t, lens) && Room(bt.fc[..], Items(lens))
      modifies t.dl, bt.fc
      ensures Coded(t, lens) && t.dl[..maxCode + 1] == lens && t.dl[maxCode + 1] == GUARD
      ensures Counts(old(bt.fc[..]), bt.fc[..], Items(lens))
    {
      hide Coded, CodedSeq, Counts, Room, Items, Lengths;
      ghost var fc: seq<nat>, dl: seq<nat> := t.fc[..], t.dl[..];
      CodedContents(t, lens);
      ScanTree(t, maxCode, bt);
      CodedBehind(fc, dl, lens, maxCode + 1, GUARD);
      CodedContents(t, lens);
    }

    /** The index in the order of the last bit-length code in use. */
    method LastInOrder(ghost bl: seq<nat>) returns (maxBlindex: nat)
      requires 19 <= bt.dl.Length && bl == bt.dl[..19] && exists c :: 0 <= c < 16 && bl[c] > 0
      ensures 3 <= maxBlindex < 19 && forall i :: maxBlindex < i < 19 ==> bl[Order(i)] == 0
    {
      hide Order, Rank, BL_ORDER;
      OrderAgrees();
      ghost var c :| 0 <= c < 16 && bl[c] > 0;
      RankOfLength(c);
      maxBlindex := 18;
      while maxBlindex >= 3
        invariant Rank(c) <= maxBlindex < 19
        invariant forall i :: maxBlindex < i < 19 ==> bl[Order(i)] == 0
      {
        if bt.dl[BL_ORDER[maxBlindex]] != 0 { break; }
        assert bl[Order(maxBlindex)] == 0;
        maxBlindex := maxBlindex - 1;
      }
    }

    /** The frequencies of the bit-length symbols for both trees. */
    method ScanTrees(maxL: nat, maxD: nat, ghost ll: seq<nat>, ghost dl: seq<nat>)
      requires Shape() && maxL < 286 && maxD < 30 && TallyOf(bt.fc[..], [], 19)
      requires ll == lt.dl[..maxL + 1] && Lengths(ll) && Coded(lt, ll)
      requires dl == dt.dl[..maxD + 1] && Lengths(dl) && Coded(dt, dl)
      modifies lt.dl, dt.dl, bt.fc
      ensures Coded(lt, ll) && lt.dl[..maxL + 1] == ll && lt.dl[maxL + 1] == GUARD
      ensures Coded(dt, dl) && dt.dl[..maxD + 1] == dl && dt.dl[maxD + 1] == GUARD
      ensures TallyOf(bt.fc[..], ItemSyms(Items(ll)) + ItemSyms(Items(dl)), 19)
      ensures SumRange(bt.fc[..], 0, 19) <= 316
    {
      hide TallyOf, SumRange, Coded, Pow2, XBits, EXTRA_LBITS, EXTRA_DBITS, EXTRA_BLBITS, TreeDesc.Fits, Tables.Valid,
          Items, Counts, Room, Lengths, ItemSyms, AllBelow;
      ghost var f0: seq<nat> := bt.fc[..];
      WalkItems(ll);
      WalkItems(dl);
      ScanRoom(f0, f0, Items(ll), Items(dl));
      Scan(lt, maxL, ll);
      ghost var f1: seq<nat> := bt.fc[..];
      ScanRoom(f0, f1, Items(ll), Items(dl));
      Scan(dt, maxD, dl);
      ScansTally(f0, f1, bt.fc[..], Items(ll), Items(dl));
      ScanSum(bt.fc[..], bt.dl[..], Items(ll), Items(dl));
    }

    /** build_bl_tree */
    method BuildBlTree(maxL: nat, maxD: nat, ghost ts: seq<Token>) returns (maxBlindex: nat)
      requires Shape() && TreesReady(ts, maxL, maxD)
      modifies b, b.heap, b.depth, b.blCount, lt.dl, dt.dl, bt.fc, bt.dl
      ensures HeaderReady(ts, maxL, maxD, maxBlindex + 1)
    {
      hide TallyOf, Built, SymCost, SumRange, Coded, Complete, AllCodable, TokensBits, TokenOk, Wrap, MadeFrom,
          Shortest, Used, FixedLit, FixedDist, Builder.StaticLens, Pow2, XBits, EXTRA_LBITS, EXTRA_DBITS, EXTRA_BLBITS,
          TreeDesc.Fits, Tables.Valid, Items, Counts, Room, Lengths, HeaderBits, HeaderOk, Order, ItemsCodable,
          ItemsBits, ItemSyms, AllBelow;
      ghost var ll: seq<nat>, dl: seq<nat> := lt.dl[..maxL + 1], dt.dl[..maxD + 1];
      LengthsOfComplete(ll);
      LengthsOfComplete(dl);
      ScanTrees(maxL, maxD, ll, dl);
      ghost var f2: seq<nat> := bt.fc[..];
      ghost var opt0 := b.optLen;
      ghost var c, w, maxB;
      maxB, c, w := b.BuildTree(blDesc);
      EndHasCode(ll, dl, ts);
      BlTree(f2, bt.fc[..], bt.dl[..], maxB, ll, dl);
      BlCoded(bt, f2, maxB);
      ghost var bl: seq<nat> := bt.dl[..19];
      BlFits(bl, bt.dl[..]);
      maxBlindex := LastInOrder(bl);
      b.optLen := Wrap(b.optLen + (3 * (maxBlindex + 1) + 5 + 5 + 4));
      HeaderFits(ll, dl, bl, maxBlindex + 1);
      WrapTwice(opt0, SymCost(f2, bt.dl[..], EXTRA_BLBITS, 0, 19), 3 * (maxBlindex + 1) + 14);
    }

    /** The code lengths of the bit-length code, in the fixed order. */
    method SendBlLens(n: nat, ghost bl: seq<nat>)
      requires w.Valid() && 4 <= n <= 19 <= bt.dl.Length && bl == bt.dl[..19] && Bounded(bl, 7)
      modifies w, w.outbuf
      ensures w.Valid() && w.Sent() == old(w.Sent()) + BlLensBits(bl, n, 0)
    {
      hide Lsb, Pow2, BitsOf, Order, BL_ORDER, Writer.Sent, Writer.Valid, BlLensBits;
      OrderAgrees();
      ghost var goal := w.Sent() + BlLensBits(bl, n, 0);
      var rank := 0;
      while rank < n
        invariant rank <= n && w.Valid() && w.Sent() + BlLensBits(bl, n, rank) == goal
      {
        BlLensStep(bl, n, rank);
        ghost var sent := w.Sent();
        assert bt.dl[Order(rank)] == bl[Order(rank)];
        w.SendBits(bt.dl[BL_ORDER[rank]], 3);
        AppendTwo(sent, Lsb(bl[Order(rank)], 3), BlLensBits(bl, n, rank + 1));
        rank := rank + 1;
      }
      BlLensEnd(bl, n);
      AppendNothing(w.Sent());
    }

    /** send_all_trees */
    method SendAllTrees(lcodes: nat, dcodes: nat, blcodes: nat, ghost ll: seq<nat>, ghost dl: seq<nat>,
        ghost bl: seq<nat>)
      requires w.Valid() && 257 <= lcodes < lt.dl.Length && 1 <= dcodes < dt.dl.Length && 19 <= bt.dl.Length
      requires ll == lt.dl[..lcodes] && dl == dt.dl[..dcodes] && bl == bt.dl[..19] && Coded(bt, bl)
      requires HeaderOk(ll, dl, bl, blcodes) && lt.dl[lcodes] == GUARD && dt.dl[dcodes] == GUARD
      modifies w, w.outbuf
      ensures w.Valid() && w.Sent() == old(w.Sent()) + HeaderBits(ll, dl, bl, blcodes)
    {
      hide Lsb, Pow2, BitsOf, Order, Writer.Sent, Writer.Valid, BlLensBits, HeaderOk, HeaderBits, Items, ItemsBits,
          ItemsCodable, Coded, Lengths, Complete;
      HeaderParts(ll, dl, bl, blcodes);
      ghost var sent := w.Sent();
      w.SendBits(lcodes - 257, 5);
      w.SendBits(dcodes - 1, 5);
      w.SendBits(blcodes - 4, 4);
      SendBlLens(blcodes, bl);
      SendTree(w, lt, lcodes - 1, bt, bl);
      SendTree(w, dt, dcodes - 1, bt, bl);
      SixParts(sent, Lsb(lcodes - 257, 5), Lsb(dcodes - 1, 5), Lsb(blcodes - 4, 4), BlLensBits(bl, blcodes, 0),
               ItemsBits(bl, Items(ll)), ItemsBits(bl, Items(dl)));
    }

    /** The block as it stands in the window. */
    method SendStored(window: array<byte>, start: nat, len: nat, eof: bool)
      requires w.Valid() && window != w.outbuf && start + len <= window.Length && len < 0x1_0000
      modifies w, w.outbuf
      ensures w.Valid()
      ensures w.Sent() == old(w.Sent()) + BlockBits(Stored(window[start..start + len]), eof, |old(w.Sent())|)
    {
      hide Lsb, Pow2, BitsOf, Writer.Sent, Writer.Valid, Padding;
      BlockHeader(0, eof);
      ghost var sent := w.Sent();
      w.SendBits(0 * 2 + (if eof then 1 else 0), 3);
      w.CopyBlock(window, start, len);
      AppendTwo(sent + Lsb(if eof then 1 else 0, 3), Lsb(0, Padding(|sent| + 3)),
                Lsb(len, 16) + Lsb(0xffff - len, 16) + BitsOf(window[start..start + len]));
      AppendTwo(sent, Lsb(if eof then 1 else 0, 3), BodyBits(Stored(window[start..start + len]), |sent| + 3));
    }

    /** The block with the static trees. */
    method SendFixed(eof: bool, ghost ts: seq<Token>)
      requires Shape() && Statics() && w.Valid() && buf.Ready(ts) && AllCodable(FixedLit(), FixedDist(), ts)
      modifies w, w.outbuf
      ensures w.Valid() && w.Sent() == old(w.Sent()) + BlockBits(Fixed(ts), eof, |old(w.Sent())|)
    {
      hide Lsb, Pow2, BitsOf, Writer.Sent, Writer.Valid, TokensBits, AllCodable, FixedLit, FixedDist, Coded,
          TokenBuf.Ready, Tables.Valid, TreeDesc.Fits, XBits, EXTRA_LBITS, EXTRA_DBITS, EXTRA_BLBITS;
      BlockHeader(1, eof);
      ghost var sent := w.Sent();
      w.SendBits(1 * 2 + (if eof then 1 else 0), 3);
      CompressBlock(buf, w, slt, sdt, tb, FixedLit(), FixedDist(), ts);
      AppendTwo(sent, Lsb(1 * 2 + (if eof then 1 else 0), 3), TokensBits(FixedLit(), FixedDist(), ts));
    }

    /** The block with its own trees. */
    method SendDynamic(eof: bool, maxL: nat, maxD: nat, n: nat, ghost ts: seq<Token>)
      requires Shape() && w.Valid() && buf.Ready(ts) && HeaderReady(ts, maxL, maxD, n)
      modifies w, w.outbuf
      ensures var blk := Dynamic(lt.dl[..maxL + 1], dt.dl[..maxD + 1], bt.dl[..19], n, ts);
        && Encodable(blk) && w.Valid()
        && w.Sent() == old(w.Sent()) + BlockBits(blk, eof, |old(w.Sent())|)
    {
      hide Lsb, Pow2, BitsOf, Writer.Sent, Writer.Valid, TokensBits, AllCodable, FixedLit, FixedDist, Coded,
          TokenBuf.Ready, Tables.Valid, TreeDesc.Fits, XBits, EXTRA_LBITS, EXTRA_DBITS, EXTRA_BLBITS, HeaderOk,
          HeaderBits;
      BlockHeader(2, eof);
      ghost var ll: seq<nat>, dl: seq<nat>, bl: seq<nat> := lt.dl[..maxL + 1], dt.dl[..maxD + 1], bt.dl[..19];
      ghost var sent := w.Sent();
      w.SendBits(2 * 2 + (if eof then 1 else 0), 3);
      SendAllTrees(maxL + 1, maxD + 1, n, ll, dl, bl);
      CompressBlock(buf, w, lt, dt, tb, ll, dl, ts);
      AppendTwo(sent + Lsb(4 + (if eof then 1 else 0), 3), HeaderBits(ll, dl, bl, n), TokensBits(ll, dl, ts));
      AppendTwo(sent, Lsb(4 + (if eof then 1 else 0), 3), HeaderBits(ll, dl, bl, n) + TokensBits(ll, dl, ts));
    }

    /** The three trees of the block. */
    method Prepare(ghost ts: seq<Token>) returns (maxL: nat, maxD: nat, n: nat)
      requires Valid(ts)
      modifies b, b.heap, b.depth, b.blCount, lt.fc, lt.dl, dt.fc, dt.dl, bt.fc, bt.dl, buf.flagBuf
      ensures Statics() && w.Valid() && buf.Ready(ts) && HeaderReady(ts, maxL, maxD, n)
    {
      hide Lsb, Pow2, BitsOf, TokensBits, AllCodable, FixedLit, FixedDist, Coded, TallyOf, LitSyms, DistSyms, Matches,
          FlagsOk, LcSeq, DistSeq, FlagsSaved, TokenOk, Tables.Valid, TreeDesc.Fits, Descs, HeaderReady, TreesReady,
          Counted;
      buf.SaveFlags(ts);
      maxL, maxD := BuildTrees(ts);
      var maxBlindex := BuildBlTree(maxL, maxD, ts);
      n := maxBlindex + 1;
    }

    /** What the trees of the block make of it. */
    ghost function DynBlock(ts: seq<Token>, maxL: nat, maxD: nat, n: nat): Block
      requires maxL < lt.dl.Length && maxD < dt.dl.Length && 19 <= bt.dl.Length
      reads lt.dl, dt.dl, bt.dl
    {
      Dynamic(lt.dl[..maxL + 1], dt.dl[..maxD + 1], bt.dl[..19], n, ts)
    }

    /** The choice between the three kinds of block. */
    method SendBlock(window: array<byte>, blockStart: int, storedLen: nat, eof: bool,
                     maxL: nat, maxD: nat, n: nat, ghost ts: seq<Token>) returns (ghost blk: Block, ghost dyn: Block)
      requires Shape() && Statics() && w.Valid() && buf.Ready(ts) && HeaderReady(ts, maxL, maxD, n)
      requires window != w.outbuf && (blockStart >= 0 ==>
          blockStart + storedLen <= window.Length && storedLen < 0x1_0000)
      modifies w, w.outbuf
      ensures dyn.Dynamic? && dyn.tokens == ts && Encodable(dyn) && Encodable(Fixed(ts))
      ensures blk == Pick(blockStart >= 0, if blockStart >= 0 then window[blockStart..blockStart + storedLen] else [],
                          storedLen, Fixed(ts), dyn)
      ensures Encodable(blk) && w.Valid()
      ensures w.Sent() == old(w.Sent()) + BlockBits(blk, eof, |old(w.Sent())|)
    {
      hide Lsb, Pow2, BitsOf, Writer.Sent, Writer.Valid, TokensBits, AllCodable, FixedLit, FixedDist, Coded, TallyOf,
          LitSyms, DistSyms, Matches, LcSeq, DistSeq, FlagsSaved, BlockBits, Padding, HeaderBits, HeaderOk,
          Tables.Valid, TreeDesc.Fits, XBits, EXTRA_LBITS, EXTRA_DBITS, EXTRA_BLBITS, Descs, Separate, TokenBuf.Ready,
          Coded, Statics;
      dyn := DynBlock(ts, maxL, maxD, n);
      blk := Pick(blockStart >= 0, if blockStart >= 0 then window[blockStart..blockStart + storedLen] else [],
                  storedLen, Fixed(ts), dyn);
      // the block lengths in bytes
      var optLenb, staticLenb := (b.optLen + 3 + 7) / 8, (b.staticLen + 3 + 7) / 8;
      if staticLenb <= optLenb { optLenb := staticLenb; }
      if storedLen + 4 <= optLenb && blockStart >= 0 {
        SendStored(window, blockStart, storedLen, eof);
      } else if staticLenb == optLenb {
        SendFixed(eof, ts);
      } else {
        SendDynamic(eof, maxL, maxD, n, ts);
      }
    }

    /** The next block, or the end of the last byte. */
    method NextBlock(eof: bool)
      requires Shape() && Statics() && w.Valid()
      modifies w, w.outbuf, lt.fc, dt.fc, bt.fc, b`optLen, b`staticLen, buf
      ensures Valid([])
      ensures w.Sent() == if eof then old(w.Sent()) + Lsb(0, Padding(|old(w.Sent())|)) else old(w.Sent())
      ensures eof ==> w.Sent() == BitsOf(w.Output())
    {
      hide Lsb, Pow2, BitsOf, Writer.Sent, Writer.Valid, FixedLit, FixedDist, Coded, Padding, Tables.Valid,
          TreeDesc.Fits, Descs, Counted, TokenBuf.Holds, TokenOk;
      InitBlock();
      if eof {
        w.BiWindup();
      }
    }

    /** flush_block: the block of the tokens ts is sent as the kind that takes the fewest
        bytes, and the next block begins without tokens. The data is at hand only if
        blockStart is not negative. */
    method FlushBlock(window: array<byte>, blockStart: int, storedLen: nat, eof: bool, ghost ts: seq<Token>)
        returns (ghost blk: Block, ghost dyn: Block)
      requires Valid(ts) && window != w.outbuf
      requires blockStart >= 0 ==> blockStart + storedLen <= window.Length && storedLen < 0x1_0000
      modifies w, w.outbuf, b, b.heap, b.depth, b.blCount, lt.fc, lt.dl, dt.fc, dt.dl, bt.fc, bt.dl, buf, buf.flagBuf
      ensures Valid([])
      ensures dyn.Dynamic? && dyn.tokens == ts && Encodable(dyn) && Encodable(Fixed(ts))
      ensures blk == Pick(blockStart >= 0, if blockStart >= 0 then window[blockStart..blockStart + storedLen] else [],
                          storedLen, Fixed(ts), dyn)
      ensures Encodable(blk)
      ensures var sent := old(w.Sent()) + BlockBits(blk, eof, |old(w.Sent())|);
        w.Sent() == if eof then sent + Lsb(0, Padding(|sent|)) else sent
      ensures eof ==> w.Sent() == BitsOf(w.Output())
    {
      hide Lsb, Pow2, BitsOf, Writer.Sent, Writer.Valid, TokensBits, AllCodable, FixedLit, FixedDist, Coded, Matches,
          FlagsOk, LcSeq, DistSeq, FlagsSaved, TokenOk, BlockBits, Padding, Tables.Valid, TreeDesc.Fits, Descs,
          HeaderReady, TokenBuf.Ready, Counted, Pick, TokenBuf.Holds, Encodable, Separate, Statics, Builder.Sizes,
          TokenBuf.Sizes;
      var maxL, maxD, n := Prepare(ts);
      blk, dyn := SendBlock(window, blockStart, storedLen, eof, maxL, maxD, n, ts);
      NextBlock(eof);
    }
  }

  /** The bytes that the bits of a compressed block fill, header bits included. */
  function ByteLen(b: Block): nat
    requires Encodable(b)
  {
    (3 + |BodyBits(b, 0)| + 7) / 8
  }

  /** The block that flush_block sends: the data as it is if that is at hand and takes no
      more bytes, else the shorter of the block with fixed codes and the one with its own. */
  function Pick(atHand: bool, data: seq<byte>, len: nat, fixed: Block, dyn: Block): Block
    requires Encodable(fixed) && Encodable(dyn)
  {
    var best := if ByteLen(fixed) <= ByteLen(dyn) then ByteLen(fixed) else ByteLen(dyn);
    if len + 4 <= best && atHand then Stored(data)
    else if ByteLen(fixed) <= ByteLen(dyn) then fixed else dyn
  }

  /** The data are stored exactly if they are at hand and take, with their lengths, no more
      bytes than either block with codes; otherwise the block with codes is sent that takes
      fewer bytes, its three header bits among them, or the fixed one if they take the same. */
  lemma PickMeans(atHand: bool, data: seq<byte>, len: nat, fixed: Block, dyn: Block)
    requires Encodable(fixed) && Encodable(dyn) && fixed.Fixed? && dyn.Dynamic?
    ensures var f, d := (3 + |BodyBits(fixed, 0)| + 7) / 8, (3 + |BodyBits(dyn, 0)| + 7) / 8;
      var b := Pick(atHand, data, len, fixed, dyn);
      && (b.Stored? <==> atHand && len + 4 <= f && len + 4 <= d)
      && (b.Stored? ==> b.data == data)
      && (!b.Stored? ==> b == if f <= d then fixed else dyn)
  {}

  lemma NothingCosts(f: seq<nat>, l: seq<nat>, extra: seq<nat>)
    ensures SymCost(f, l, extra, 0, 0) == 0
  {}

  lemma FiveAndExtra(f: seq<nat>, d: nat)
    requires d < 30 <= |f|
    ensures |EXTRA_DBITS| == 30 && |FixedDist()| == 32
    ensures SymCost(f, FixedDist(), EXTRA_DBITS, 0, d + 1)
      == SymCost(f, FixedDist(), EXTRA_DBITS, 0, d) + f[d] * (5 + EXTRA_DBITS[d])
  {}

  lemma BlockHeader(kind: nat, eof: bool)
    requires kind <= 2
    ensures 2 * kind + (if eof then 1 else 0) < Pow2(3)
    ensures 0 * 2 + (if eof then 1 else 0) == (if eof then 1 else 0)
  {
    Pow2Table();
  }

  lemma BlLensStep(bl: seq<nat>, n: nat, rank: nat)
    requires rank < n <= 19 && |bl| == 19 && Bounded(bl, 7)
    ensures BlLensBits(bl, n, rank) == Lsb(bl[Order(rank)], 3) + BlLensBits(bl, n, rank + 1)
    ensures bl[Order(rank)] < Pow2(3)
  {
    hide Order, Lsb;
    Pow2Table();
  }

  lemma BlLensEnd(bl: seq<nat>, n: nat)
    requires n <= 19 && |bl| == 19
    ensures BlLensBits(bl, n, n) == []
  {}

  lemma SixParts(s: seq<bool>, a: seq<bool>, b: seq<bool>, c: seq<bool>, d: seq<bool>, e: seq<bool>, f: seq<bool>)
    ensures s + a + b + c + d + e + f == s + (a + (b + (c + (d + (e + f)))))
  {}

  lemma HeaderParts(ll: seq<nat>, dl: seq<nat>, bl: seq<nat>, n: nat)
    requires HeaderOk(ll, dl, bl, n)
    ensures 257 <= |ll| <= 286 && 1 <= |dl| <= 30 && |bl| == 19 && 4 <= n <= 19 && Bounded(bl, 7)
    ensures |ll| - 257 < Pow2(5) && |dl| - 1 < Pow2(5) && n - 4 < Pow2(4)
    ensures Lengths(ll) && Lengths(dl) && ItemsCodable(bl, Items(ll)) && ItemsCodable(bl, Items(dl))
    ensures HeaderBits(ll, dl, bl, n) ==
      Lsb(|ll| - 257, 5) + (Lsb(|dl| - 1, 5) + (Lsb(n - 4, 4)
        + (BlLensBits(bl, n, 0) + (ItemsBits(bl, Items(ll)) + ItemsBits(bl, Items(dl))))))
  {
    hide Complete, ItemsCodable, ItemsBits, Items, Order, Lsb, BlLensBits, Pow2;
    Pow2Table();
    LengthsOfComplete(ll);
    LengthsOfComplete(dl);
    CompleteBounded(bl, 7);
  }

  lemma BlFits(bl: seq<nat>, l: seq<nat>)
    requires 19 <= |l| && bl == l[..19] && exists c :: 0 <= c < 16 && l[c] > 0
    ensures exists c :: 0 <= c < 16 && bl[c] > 0
  {
    var c :| 0 <= c < 16 && l[c] > 0;
    assert bl[c] > 0;
  }

  lemma WrapTwice(a: nat, b: nat, c: nat)
    requires a <= 0x20_0000 && b <= 0x4000 && c <= 0x100
    ensures Wrap(Wrap(a + b) + c) == a + b + c <= 0x40_0000
  {}

  lemma EndHasCode(ll: seq<nat>, dl: seq<nat>, ts: seq<Token>)
    requires AllCodable(ll, dl, ts)
    ensures 256 < |ll| && ll[256] > 0 && END_BLOCK == 256
  {}

  lemma ScanSum(f: seq<nat>, l: seq<nat>, a: seq<Item>, b: seq<Item>)
    requires TallyOf(f, ItemSyms(a) + ItemSyms(b), 19) && 19 <= |l|
    requires AllBelow(ItemSyms(a), 19) && AllBelow(ItemSyms(b), 19) && |a| <= 286 && |b| <= 30
    ensures 19 <= |f| && SumRange(f, 0, 19) <= 316
  {
    hide SymCost, SumRange, SymsCost, ItemSyms;
    BelowJoin(ItemSyms(a), ItemSyms(b), 19);
    CostFromTally(f, l, [], 0, 19, ItemSyms(a) + ItemSyms(b));
  }

  lemma BlCoded(t: CtTree, f: seq<nat>, maxB: nat)
    requires Built(f, t.fc[..], t.dl[..], 19, maxB, 7)
    ensures 19 <= t.dl.Length && Coded(t, t.dl[..19])
  {
    hide Built, Coded;
    BuiltParts(f, t.fc[..], t.dl[..], 19, maxB, 7);
    BuiltCoded(t, f, 19, maxB, 7);
    assert t.dl[..19] == t.dl[..][..19];
    CodedPadded(t, maxB + 1, 19);
  }

  lemma HeaderFits(ll: seq<nat>, dl: seq<nat>, bl: seq<nat>, n: nat)
    requires 257 <= |ll| <= 286 && 1 <= |dl| <= 30 && |bl| == 19 && 4 <= n <= 19
    requires Complete(ll, 15) && Complete(dl, 15) && Complete(bl, 7) && ll[256] > 0
    requires ItemsCodable(bl, Items(ll)) && ItemsCodable(bl, Items(dl))
    requires forall i :: n <= i < 19 ==> bl[Order(i)] == 0
    ensures HeaderOk(ll, dl, bl, n)
    ensures |HeaderBits(ll, dl, bl, n)| == 14 + 3 * n + |ItemsBits(bl, Items(ll))| + |ItemsBits(bl, Items(dl))|
  {
    hide Complete, ItemsCodable, ItemsBits, Items, Order, HeaderBits;
    HeaderWidth(ll, dl, bl, n);
  }

  lemma WrapSums(a: nat, b: nat)
    requires a + b <= 0x20_0000
    ensures Wrap(Wrap(a) + b) == a + b
  {}

  lemma FreqSums(fl: seq<nat>, l: seq<nat>, fd: seq<nat>, d: seq<nat>, ts: seq<Token>)
    requires TallyOf(fl, LitSyms(ts) + [END_BLOCK], 286) && TallyOf(fd, DistSyms(ts), 30) && 286 <= |l| && 30 <= |d|
    ensures 286 <= |fl| && 30 <= |fd|
    ensures SumRange(fl, 0, 286) == |ts| + 1 && SumRange(fd, 0, 30) <= |ts|
  {
    hide SymCost, SumRange, LitSyms, DistSyms, SymsCost;
    CostFromTally(fl, l, [], 0, 286, LitSyms(ts) + [END_BLOCK]);
    CostFromTally(fd, d, [], 0, 30, DistSyms(ts));
  }

  lemma TalliesGrow(lf: seq<nat>, df: seq<nat>, ts: seq<Token>, t: Token)
    requires TallyOf(lf, LitSyms(ts) + [END_BLOCK], 286) && TallyOf(df, DistSyms(ts), 30) && |ts| < 0x8000 && TokenOk(t)
    ensures LitSym(t) < 286 <= |lf| && lf[LitSym(t)] + 1 < USHORT
    ensures TallyOf(lf[LitSym(t) := lf[LitSym(t)] + 1], LitSyms(ts + [t]) + [END_BLOCK], 286)
    ensures t.Match? ==> DistCode(t.dist) < 30 <= |df| && df[DistCode(t.dist)] + 1 < USHORT
    ensures TallyOf(if t.Match? then df[DistCode(t.dist) := df[DistCode(t.dist)] + 1] else df, DistSyms(ts + [t]), 30)
  {
    hide LengthCode, DistCode, Matches, Count, DistSyms, LitSyms;
    var c, s := LitSym(t), LitSyms(ts);
    CountAtMost(s + [END_BLOCK], c);
    TallySnoc(lf, s + [END_BLOCK], 286, c);
    SwapLast(lf[c := lf[c] + 1], s, END_BLOCK, c, 286);
    LitSymsSnoc(ts, t);
    DistSymsConcat(ts, [t]);
    MatchOf(t);
    if t.Match? {
      CountAtMost(DistSyms(ts), DistCode(t.dist));
      TallySnoc(df, DistSyms(ts), 30, DistCode(t.dist));
    } else {
      assert DistSyms(ts) + [] == DistSyms(ts);
    }
  }

  lemma LitSymsSnoc(ts: seq<Token>, t: Token)
    ensures LitSyms(ts + [t]) == LitSyms(ts) + [LitSym(t)]
  {}

  lemma SwapLast(f: seq<nat>, s: seq<nat>, a: nat, b: nat, n: nat)
    requires TallyOf(f, s + [a] + [b], n)
    ensures TallyOf(f, s + [b] + [a], n)
  {
    hide Count;
    forall x | 0 <= x < n ensures Count(s + [b] + [a], x) == Count(s + [a] + [b], x) {
      SnocCount(s, a, x);
      SnocCount(s + [a], b, x);
      SnocCount(s, b, x);
      SnocCount(s + [b], a, x);
    }
  }

  method NewTrees(b: Builder) returns (l: CtTree, d: CtTree, bl: CtTree, sl: CtTree, sd: CtTree)
    requires b.Sizes() && forall i :: 0 <= i < 16 ==> b.blCount[i] == 0
    modifies b.blCount
    ensures AllApart(l, d, bl, sl, sd)
    ensures l.fc.Length == l.dl.Length == HEAP_SIZE && d.fc.Length == d.dl.Length == 61
    ensures bl.fc.Length == bl.dl.Length == 39
    ensures sl.fc.Length == sl.dl.Length == 288 && sd.fc.Length == sd.dl.Length == 30
    ensures fresh({l.fc, l.dl, d.fc, d.dl, bl.fc, bl.dl, sl.fc, sl.dl, sd.fc, sd.dl})
    ensures sl.dl[..] == FixedLit() && Coded(sl, FixedLit())
    ensures sd.dl[..] == FixedDist()[..30] && Coded(sd, FixedDist())
  {
    hide Builder.Sizes, FixedLit, FixedDist, Coded;
    l := new CtTree(HEAP_SIZE);
    d := new CtTree(61);
    bl := new CtTree(39);
    sl := StaticLitTree(b);
    sd := StaticDistTree(b);
  }

  method NewEncoder(w: Writer, inbufsiz: nat, litBufsize: nat, distBufsize: nat) returns (e: Encoder)
    requires w.Valid()
    requires 8 <= litBufsize <= 0x8000 && litBufsize % 8 == 0 && 1 <= distBufsize && litBufsize <= inbufsiz
    ensures e.Shape() && e.Statics() && e.w == w && fresh(e.Own())
    ensures e.buf.litBufsize == litBufsize && e.buf.distBufsize == distBufsize
  {
    hide TallyOf, FixedLit, FixedDist, Coded, Pow2, XBits, EXTRA_LBITS, EXTRA_DBITS, EXTRA_BLBITS, FlagsOk, LcSeq,
        DistSeq, Matches, LengthCode, DistCode, LengthBase, DistBase, BitsOf, Lsb, Value, Tables.Valid;
    var b := new Builder();
    var tb := new Tables();
    var buf := new TokenBuf(inbufsiz, litBufsize, distBufsize);
    var l, d, bl, sl, sd := NewTrees(b);
    e := new Encoder(w, b, tb, buf, l, d, bl, sl, sd);
    DescWidths();
  }

  /** ct_init: the tables, the static trees and the first block. */
  method CtInit(w: Writer, inbufsiz: nat, litBufsize: nat, distBufsize: nat) returns (e: Encoder)
    requires w.Valid()
    requires 8 <= litBufsize <= 0x8000 && litBufsize % 8 == 0 && 1 <= distBufsize && litBufsize <= inbufsiz
    ensures e.Valid([]) && e.w == w && fresh(e.Own())
    ensures w.Sent() == old(w.Sent())
    ensures e.buf.litBufsize == litBufsize && e.buf.distBufsize == distBufsize
  {
    hide TallyOf, FixedLit, FixedDist, Coded, Pow2, XBits, EXTRA_LBITS, EXTRA_DBITS, EXTRA_BLBITS, FlagsOk, LcSeq,
        DistSeq, Matches, LengthCode, DistCode, LengthBase, DistBase, BitsOf, Lsb, Value, Tables.Valid;
    e := NewEncoder(w, inbufsiz, litBufsize, distBufsize);
    e.InitBlock();
  }

  lemma NoFreqs(f: seq<nat>, n: nat)
    requires n <= |f| && forall i :: 0 <= i < n ==> f[i] == 0
    ensures TallyOf(f, [], n)
  {}

  lemma FirstFreqs(f: seq<nat>)
    requires 286 <= |f| && forall i :: 0 <= i < 286 ==> f[i] == 0
    ensures TallyOf(f[END_BLOCK := 1], LitSyms([]) + [END_BLOCK], 286) && DistSyms([]) == []
  {
    NoFreqs(f, 286);
    TallySnoc(f, [], 286, END_BLOCK);
    assert LitSyms([]) == [];
    NoDistSyms();
  }

  lemma DescWidths()
    ensures |EXTRA_LBITS| == 29 && |EXTRA_DBITS| == 30 && |EXTRA_BLBITS| == 19
    ensures 286 <= Pow2(15) && 30 <= Pow2(15) && 19 <= Pow2(7)
    ensures forall n :: 0 <= n <= 2 ==> XBits(EXTRA_LBITS, 257, n) == 0
    ensures forall n :: 0 <= n <= 2 ==> XBits(EXTRA_DBITS, 0, n) == 0
    ensures forall n :: 0 <= n <= 2 ==> XBits(EXTRA_BLBITS, 0, n) == 0
  {
    hide Pow2;
    Pow2Table();
  }
}
