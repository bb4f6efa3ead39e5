/** zip() of gzip.c: header, compressed data and trailer of a gzip member. */
module Gzip {
  import opened Bits
  import opened BitWriter
  import opened Inflater
  import opened LengthPasses
  import opened BlockEncoder
  import opened Input
  import opened Deflate
  import HashChains
  import TokenBuffer

  datatype Sizes = Sizes(inbufsiz: nat, outbufsiz: nat, litBufsize: nat, distBufsize: nat, optimizedPut32: bool)
  {
    predicate Ok() {
      && 8 <= litBufsize <= 0x8000 && litBufsize % 8 == 0 && 1 <= distBufsize && litBufsize <= inbufsiz
      && 8 <= outbufsiz
    }
  }

  const ALL_ONES := 0xffff_ffff

  /** The ten bytes before the compressed data. */
  function Header(slow: bool): (r: seq<byte>)
    ensures |r| == 10
  {
    [0x1f, 0x8b, 8, 0, 0, 0, 0, 0, if slow then 2 else 0, 3]
  }

  /** Creates the writer and sends the first eight bytes of the header. */
  method Begin(sizes: Sizes) returns (w: Writer)
    requires sizes.Ok()
    ensures fresh(w) && fresh(w.outbuf) && w.Valid() && w.biValid == 0
    ensures w.Output() == [0x1f, 0x8b, 8, 0, 0, 0, 0, 0]
  {
    hide Pow2, BitsOf, Lsb;
    w := new Writer(sizes.outbufsiz, sizes.optimizedPut32);
    w.Put32bit(0x00088b1f);
    w.Put32bit(0);
    FourBytes(0x00088b1f);
    FourBytes(0);
  }

  /** The rest of the header; the encoder is not affected. */
  method EndHeader(e: Encoder, slow: bool)
    requires e.Valid([]) && e.w.biValid == 0 && e.w.Output() == [0x1f, 0x8b, 8, 0, 0, 0, 0, 0]
    modifies e.w`outcnt, e.w`flushed, e.w.outbuf
    ensures e.Valid([]) && e.w.Valid() && e.w.biValid == 0 && e.w.Output() == Header(slow)
  {
    hide Pow2, BitsOf, Lsb, Encoder.Shape, Encoder.Statics, Encoder.Counted, TokenBuffer.TokenBuf.Holds;
    var deflateFlags := 0x300;  // OS id = 3 (Unix)
    if slow { deflateFlags := deflateFlags + 0x02; }
    e.w.Put16bit(deflateFlags);
    e.w.FlushOutbufIf32bitOptimized();
  }

  /** Checksum and length of the input, and everything is written. */
  method Trailer(w: Writer, src: Source)
    requires w.Valid() && w.biValid == 0 && src.crc <= ALL_ONES && src.isize <= ALL_ONES
    modifies w`outcnt, w`flushed, w.outbuf
    ensures w.outcnt == 0
    ensures w.flushed == old(w.Output()) + Bytes(ALL_ONES - src.crc, 4) + Bytes(src.isize, 4)
  {
    hide Pow2, BitsOf, Lsb, Bytes;
    w.Put32bit(ALL_ONES - src.crc);
    w.Put32bit(src.isize);
    w.FlushOutbuf();
  }

  lemma WholeBytes(w: Writer)
    requires w.Valid()
    ensures w.biValid == 0 <==> w.Sent() == BitsOf(w.Output())
  {
    hide BitsOf;
    if w.biValid == 0 { assert BitsOf(w.Output()) + [] == BitsOf(w.Output()); }
  }

  lemma {:induction false} CrcBound(step: (nat, byte) -> nat, start: nat, s: seq<byte>)
    requires start <= ALL_ONES && forall c: nat, b: byte :: step(c, b) <= ALL_ONES
    ensures Crc(step, start, s) <= ALL_ONES
    decreases |s|
  {
    if s != [] { CrcBound(step, start, s[..|s| - 1]); }
  }

  /** The output of a gzip run: header, compressed data, trailer. A decoder that starts
      behind the header gets the input back and stops right before the trailer, within the
      last byte of the data. */
  ghost predicate Member(out: seq<byte>, slow: bool, input: seq<byte>, crc: nat)
  {
    var n := |out|;
    && n >= 18 && out[..10] == Header(slow) && crc <= ALL_ONES
    && (exists end: nat :: end <= 8 * (n - 8) < end + 8 && Inflate(BitsOf(out), 80, []) == Some((input, end)))
    && out[n - 8..n - 4] == Bytes(ALL_ONES - crc, 4) && out[n - 4..] == Bytes(|input| % 0x1_0000_0000, 4)
  }

  lemma MemberIs(body: seq<byte>, slow: bool, input: seq<byte>, crc: nat, out: seq<byte>)
    requires crc <= ALL_ONES && out == body + Bytes(ALL_ONES - crc, 4) + Bytes(Wrap(|input|), 4)
    requires exists end: nat :: Ends(BitsOf(body), BitsOf(Header(slow)), input, end)
    ensures Member(out, slow, input, crc)
  {
    hide BitsOf, Inflate, Header, Bytes;
    var end: nat :| Ends(BitsOf(body), BitsOf(Header(slow)), input, end);
    var a, b := Bytes(ALL_ONES - crc, 4), Bytes(Wrap(|input|), 4);
    PrefixBytes(body, Header(slow));
    assert out == body + (a + b);
    BitsOfConcat(body, a + b);
    assert BitsOf(body) <= BitsOf(out);
    assert out[..10] == body[..10];
    assert out[|out| - 8..|out| - 4] == a && out[|out| - 4..] == b;
    assert Inflate(BitsOf(out), 80, []) == Some((input, end));
  }

  lemma SameByte(x: byte, y: byte, s: seq<bool>)
    requires s + Lsb(x, 8) == s + Lsb(y, 8)
    ensures x == y
  {
    hide Lsb, Pow2, Value;
    assert (s + Lsb(x, 8))[|s|..] == Lsb(x, 8) && (s + Lsb(y, 8))[|s|..] == Lsb(y, 8);
    Pow2Table();
    ValueOfLsb(x, 8);
    ValueOfLsb(y, 8);
  }

  lemma BitsOfLast(s: seq<byte>)
    requires s != []
    ensures BitsOf(s) == BitsOf(s[..|s| - 1]) + Lsb(s[|s| - 1], 8)
  {}

  /** Bytes whose bits begin with those of other bytes begin with them. */
  lemma {:induction false} PrefixBytes(a: seq<byte>, b: seq<byte>)
    requires BitsOf(b) <= BitsOf(a)
    ensures b <= a
    decreases |b|
  {
    hide BitsOf, Lsb;
    if b != [] {
      var n := |b| - 1;
      BitsOfLast(b);
      PrefixBytes(a, b[..n]);
      var a1 := a[..n + 1];
      assert a == a1 + a[n + 1..];
      BitsOfConcat(a1, a[n + 1..]);
      BitsOfLast(a1);
      assert a1[..n] == b[..n];
      assert BitsOf(a1) == BitsOf(a)[..8 * (n + 1)] == BitsOf(b);
      SameByte(a[n], b[n], BitsOf(b[..n]));
    }
  }

  /** ct_init and lm_init */
  method Init(w: Writer, src: Source, cfg: Config, sizes: Sizes) returns (d: Deflater)
    requires w.Valid() && src.Valid() && src.pos == 0 && !src.failed && cfg.Ok() && sizes.Ok()
    modifies src
    ensures fresh(d) && fresh(d.window) && fresh(d.prev) && fresh(d.head) && fresh(d.e.Own())
    ensures d.Started() && d.e.Valid([]) && d.e.w == w && d.src == src
  {
    hide Pow2, BitsOf, Lsb, Crc, Encoder.Valid, Encoder.Own, Deflater.Window, Deflater.Chains, HashChains.Rolled,
        Writer.Sent;
    var e := CtInit(w, sizes.inbufsiz, sizes.litBufsize, sizes.distBufsize);
    d := new Deflater(cfg, e, src);
    OwnAlone(e, src);
    d.LmInit();
  }

  /** Four bytes from place i on as a number, the low byte first. */
  function Little(s: seq<byte>, i: nat): nat
    requires i + 4 <= |s|
  {
    var a: nat, b: nat, c: nat, d: nat := s[i], s[i + 1], s[i + 2], s[i + 3];
    a + 0x100 * b + 0x1_0000 * c + 0x100_0000 * d
  }

  lemma LittleIs(n: nat)
    requires n <= ALL_ONES
    ensures Little(Bytes(n, 4), 0) == n
  {
    hide Bytes;
    FourBytes(n);
    var a, b, c := n / 0x100, n / U16, n / U16 / 0x100;
    assert b == a / 0x100 && c == b / 0x100;
    assert n == 0x100 * a + n % 0x100 && a == 0x100 * b + a % 0x100 && b == 0x100 * c + b % 0x100;
  }

  /** What a member is, byte for byte. */
  lemma MemberMeans(out: seq<byte>, slow: bool, input: seq<byte>, crc: nat)
    requires Member(out, slow, input, crc)
    ensures |out| >= 18 && out[..10] == [0x1f, 0x8b, 8, 0, 0, 0, 0, 0, if slow then 2 else 0, 3]
    ensures exists end: nat ::
      Inflate(BitsOf(out), 80, []) == Some((input, end)) && end <= 8 * (|out| - 8) < end + 8
    ensures Little(out[|out| - 8..], 0) == 0xffff_ffff - crc
    ensures Little(out[|out| - 8..], 4) == |input| % 0x1_0000_0000
  {
    hide BitsOf, Inflate, Bytes;
    var n, m := |out|, |input| % 0x1_0000_0000;
    var t := out[n - 8..];
    assert t[..4] == out[n - 8..n - 4] && t[4..] == out[n - 4..];
    LittleIs(ALL_ONES - crc);
    LittleIs(m);
    assert Little(t, 0) == Little(t[..4], 0) && Little(t, 4) == Little(t[4..], 0);
  }

  /** zip(): compresses what the reader delivers, in whatever chunks, until it says that
      the input is at its end or fails. */
  method Zip(data: seq<byte>, step: (nat, byte) -> nat, cfg: Config, sizes: Sizes, slow: bool)
      returns (w: Writer, src: Source)
    requires cfg.Ok() && sizes.Ok() && forall c: nat, b: byte :: step(c, b) <= ALL_ONES
    ensures w.outcnt == 0 && src.data == data && src.pos <= |data| && (!src.failed ==> src.pos == |data|)
    ensures Member(w.flushed, slow, data[..src.pos], Crc(step, ALL_ONES, data[..src.pos]))
    ensures |w.flushed| >= 18 && w.flushed[..10] == [0x1f, 0x8b, 8, 0, 0, 0, 0, 0, if slow then 2 else 0, 3]
    ensures exists end: nat ::
      Inflate(BitsOf(w.flushed), 80, []) == Some((data[..src.pos], end)) && end <= 8 * (|w.flushed| - 8) < end + 8
    ensures Little(w.flushed[|w.flushed| - 8..], 0) == 0xffff_ffff - Crc(step, 0xffff_ffff, data[..src.pos])
    ensures Little(w.flushed[|w.flushed| - 8..], 4) == src.pos % 0x1_0000_0000
  {
    hide Pow2, BitsOf, Lsb, Bytes, Crc, Encoder.Valid, Encoder.Own, Deflater.Window, Deflater.Chains, Inflate, Ends,
        HashChains.Rolled, Member, Header, Writer.Sent;
    w := Begin(sizes);
    src := new Source(data, step, ALL_ONES);
    var d := Init(w, src, cfg, sizes);
    EndHeader(d.e, slow);
    WholeBytes(w);
    d.Deflate(w.Sent());
    WholeBytes(w);
    CrcBound(step, ALL_ONES, data[..src.pos]);
    ghost var body := w.Output();
    Trailer(w, src);
    MemberIs(body, slow, data[..src.pos], src.crc, w.flushed);
    MemberMeans(w.flushed, slow, data[..src.pos], src.crc);
  }
}
