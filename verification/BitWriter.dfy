/** The "bit string" routines and the output buffer of gzip.c: a 32-bit accumulator
    in front of a byte buffer that is flushed whenever it is full. */
module BitWriter {
  import opened Bits

  const U16 := 0x1_0000
  const U32 := 0x1_0000_0000

  /** The n low bytes of v, least significant first. */
  function Bytes(v: nat, n: nat): (r: seq<byte>)
    ensures |r| == n
    decreases n
  {
    if n == 0 then [] else [v % 0x100] + Bytes(v / 0x100, n - 1)
  }

  lemma LowByte(v: nat, hi: nat, n: nat)
    requires hi == v / 0x100
    ensures Lsb(v, 8 + n) == Lsb(v % 0x100, 8) + Lsb(hi, n)
  {
    Pow2Table();
    LsbSplit(v, 8, n, v % 0x100, hi);
  }

  lemma {:induction false} BitsOfBytes(v: nat, n: nat)
    ensures BitsOf(Bytes(v, n)) == Lsb(v, 8 * n)
    decreases n
  {
    if n == 0 {
    } else {
      var b: byte, hi := v % 0x100, v / 0x100;
      BitsOfBytes(hi, n - 1);
      LowByte(v, hi, 8 * (n - 1));
      assert 8 + 8 * (n - 1) == 8 * n;
      BitsOfConcat([b], Bytes(hi, n - 1));
      BitsOfSnoc([], b);
      hide Lsb;
      assert [] + [b] == [b] && BitsOf([]) == [];
      assert [] + Lsb(b, 8) == Lsb(b, 8);
    }
  }

  /** A left shift that drops the bits above the 32nd keeps the low bits of the value. */
  lemma TruncatedShift(value: nat, valid: nat, lo: nat)
    requires valid <= 32 && lo == value % Pow2(32 - valid)
    ensures value * Pow2(valid) % U32 == lo * Pow2(valid)
  {
    hide Pow2;
    var p, q := Pow2(valid), Pow2(32 - valid);
    Pow2Add(32 - valid, valid);
    Pow2Table();
    assert 32 - valid + valid == 32;
    DivMod(value, q);
    var h: nat := value / q;
    Distribute(value, h, q, lo, p, U32);
    BelowProduct(lo, q, p, U32);
    DivUnique(value * p, U32, h, lo * p);
  }

  lemma BelowProduct(lo: int, q: int, p: int, u: int)
    requires 0 <= lo < q && p > 0 && u == q * p
    ensures 0 <= lo * p < u
  {
    MulMono(lo + 1, q, p);
    assert (lo + 1) * p == lo * p + p;
    MulMono(0, lo, p);
  }

  lemma Distribute(v: int, h: int, q: int, lo: int, p: int, u: int)
    requires v == h * q + lo && u == q * p
    ensures v * p == h * u + lo * p
  {
    assert (h * q) * p == h * (q * p);
  }

  /** What a quotient by a power of two is bounded by. */
  lemma QuotientBound(v: nat, a: nat, b: nat, q: nat)
    requires v < Pow2(a + b) && q == v / Pow2(a)
    ensures q < Pow2(b)
  {
    Pow2Add(b, a);
    assert b + a == a + b;
    DivMod(v, Pow2(a));
    if q >= Pow2(b) { MulMono(Pow2(b), q, Pow2(a)); }
  }

  class Writer {
    const outbufsiz: nat
    const outbuf: array<byte>
    const optimizedPut32: bool  // OPTIMIZED_PUT_32BIT
    var outcnt: nat
    var biBuf: nat
    var biValid: nat
    ghost var flushed: seq<byte>  // everything handed to the file descriptor so far

    ghost predicate Valid()
      reads this, outbuf
    {
      && outbuf.Length == outbufsiz >= 8
      && outcnt < outbufsiz
      && biValid < 32
      && biBuf < Pow2(biValid)
    }

    /** The bytes produced so far. */
    ghost function Output(): seq<byte>
      reads this, outbuf
      requires Valid()
    {
      flushed + outbuf[..outcnt]
    }

    /** The bits produced so far: the bytes, then what is left in the accumulator. */
    ghost function Sent(): seq<bool>
      reads this, outbuf
      requires Valid()
    {
      BitsOf(Output()) + Lsb(biBuf, biValid)
    }

    constructor (size: nat, optimized: bool)
      requires size >= 8
      ensures Valid() && Sent() == [] && fresh(outbuf) && Output() == []
      ensures biValid == 0
      ensures outbufsiz == size && optimizedPut32 == optimized
    {
      outbufsiz := size;
      outbuf := new byte[size];
      optimizedPut32 := optimized;
      outcnt, biBuf, biValid, flushed := 0, 0, 0, [];
    }

    method FlushOutbuf()
      requires outcnt <= outbufsiz == outbuf.Length
      modifies this`outcnt, this`flushed
      ensures outcnt == 0
      ensures flushed == old(flushed + outbuf[..outcnt])
    {
      if outcnt == 0 { return; }
      flushed := flushed + outbuf[..outcnt];
      outcnt := 0;
    }

    method Put8bit(c: nat)
      requires Valid()
      modifies this`outcnt, this`flushed, outbuf
      ensures Valid()
      ensures Output() == old(Output()) + [c % 0x100]
    {
      outbuf[outcnt] := c % 0x100;
      outcnt := outcnt + 1;
      assert outbuf[..outcnt] == old(outbuf[..outcnt]) + [c % 0x100];
      if outcnt == outbufsiz {
        FlushOutbuf();
      }
    }

    method Put16bit(n: nat)
      requires Valid()
      modifies this`outcnt, this`flushed, outbuf
      ensures Valid()
      ensures Output() == old(Output()) + [n % 0x100, n / 0x100 % 0x100]
    {
      var w := n % U16;
      assert w % 0x100 == n % 0x100 && w / 0x100 == n / 0x100 % 0x100;
      outbuf[outcnt] := w % 0x100;
      w := w / 0x100;
      if outcnt < outbufsiz - 2 {
        outbuf[outcnt + 1] := w;
        outcnt := outcnt + 2;
        assert outbuf[..outcnt] == old(outbuf[..outcnt]) + [n % 0x100, w];
        return;
      }
      outcnt := outcnt + 1;
      assert outbuf[..outcnt] == old(outbuf[..outcnt]) + [n % 0x100];
      if outcnt == outbufsiz {
        FlushOutbuf();
      }
      Put8bit(w);
    }

    method Put32bit(n: nat)
      requires Valid() && n < U32
      modifies this`outcnt, this`flushed, outbuf
      ensures Valid()
      ensures Output() == old(Output()) + Bytes(n, 4)
    {
      FourBytes(n);
      if optimizedPut32 && outcnt < outbufsiz - 4 {
        // one unaligned little-endian store
        outbuf[outcnt], outbuf[outcnt + 1] := n % 0x100, n / 0x100 % 0x100;
        outbuf[outcnt + 2], outbuf[outcnt + 3] := n / U16 % 0x100, n / U16 / 0x100 % 0x100;
        outcnt := outcnt + 4;
        assert outbuf[..outcnt] == old(outbuf[..outcnt]) + Bytes(n, 4);
        return;
      }
      Put16bit(n);
      Put16bit(n / U16);
    }

    method FlushOutbufIf32bitOptimized()
      requires Valid()
      modifies this`outcnt, this`flushed
      ensures Valid() && Output() == old(Output())
    {
      if optimizedPut32 {
        FlushOutbuf();
      }
    }

    method SendBits(v: nat, n: nat)
      requires Valid()
      requires n <= 16 && v < Pow2(n)
      modifies this, outbuf
      ensures Valid()
      ensures Sent() == old(Sent()) + Lsb(v, n)
    {
      hide Lsb, Or, Bytes, BitsOf, Pow2;
      var value, length := v, n;
      ghost var bits0, valid, width: nat := BitsOf(Output()), biValid, 32 - biValid;
      DivMod(value, Pow2(width));
      ghost var lo: nat := value % Pow2(width);
      TruncatedShift(value, valid, lo);
      OrShifted(biBuf, lo, valid);
      var newBuf := Or(biBuf, value * Pow2(biValid) % U32);
      length := length + biValid;
      if length >= 32 {
        ghost var hi: nat := value / Pow2(width);
        FullAccumulator(biBuf, valid, v, n, lo, hi);
        value := value / Pow2(32 - biValid);
        ghost var out := Output();
        Put32bit(newBuf);
        BitsOfConcat(out, Bytes(newBuf, 4));
        BitsOfBytes(newBuf, 4);
        newBuf := value;
        length := length - 32;
        AppendThree(bits0, Lsb(biBuf, valid), Lsb(v, n), Lsb(lo, width), Lsb(hi, length));
      } else {
        RoomLeft(biBuf, valid, v, n, lo);
        AppendTwo(bits0, Lsb(biBuf, valid), Lsb(v, n));
      }
      biBuf := newBuf;
      biValid := length;
    }

    method BiWindup()
      requires Valid()
      modifies this, outbuf
      ensures Valid() && biValid == 0
      ensures Sent() == old(Sent()) + Lsb(0, Padding(|old(Sent())|))
      ensures Sent() == BitsOf(Output())
    {
      hide Lsb, BitsOf, Pow2, Padding;
      NoBits(biBuf);
      NoBits(0);
      var bits := biBuf;
      var cnt: int := biValid;
      ghost var sent := Sent();
      while cnt > 0
        invariant Valid() && cnt <= 32 && biBuf == old(biBuf) && biValid == old(biValid)
        invariant cnt > 0 ==> 0 <= bits < Pow2(cnt) && BitsOf(Output()) + Lsb(bits, cnt) == sent
        invariant cnt <= 0 ==> BitsOf(Output()) == sent + Lsb(0, -cnt) && -8 < cnt
        invariant (-cnt + biValid) % 8 == 0
      {
        ghost var out := Output();
        Put8bit(bits);
        BitsOfSnoc(out, bits % 0x100);
        WindupStep(BitsOf(out), sent, bits, cnt);
        bits := bits / 0x100;
        cnt := cnt - 8;
      }
      PaddingIs(|sent|, biValid, -cnt);
      biBuf := 0;
      biValid := 0;
      OneBelowPow2(0);
      AppendNothing(BitsOf(Output()));
    }

    /** A stored block: aligned, its length and the complement of its length, then
        its bytes unchanged. */
    method CopyBlock(buf: array<byte>, start: nat, len: nat)
      requires Valid() && buf != outbuf
      requires start + len <= buf.Length && len < U16
      modifies this, outbuf
      ensures Valid()
      ensures Sent() == old(Sent()) + Lsb(0, Padding(|old(Sent())|))
                        + (Lsb(len, 16) + Lsb(U16 - 1 - len, 16) + BitsOf(buf[start..start + len]))
    {
      hide Lsb, Or, Bytes, BitsOf;
      BiWindup();
      ghost var sent1, out1 := Sent(), Output();
      // ((uint16_t)len) | ((~len) << 16), with ~len == 2^32 - 1 - len
      var v := Or(len % U16, (U32 - 1 - len) * U16 % U32);
      HeaderWord(len);
      Put32bit(v);
      ghost var out2 := Output();
      BitsOfConcat(out1, Bytes(v, 4));
      BitsOfBytes(v, 4);
      var i := 0;
      while i < len
        invariant i <= len && Valid() && biValid == 0
        invariant Output() == out2 + buf[start..start + i]
      {
        Put8bit(buf[start + i]);
        assert buf[start..start + i + 1] == buf[start..start + i] + [buf[start + i]];
        i := i + 1;
      }
      BitsOfConcat(out2, buf[start..start + len]);
      if outcnt % 4 != 0 {
        FlushOutbufIf32bitOptimized();
      }
      NoBits(biBuf);
      ghost var h, b := Lsb(len, 16) + Lsb(U16 - 1 - len, 16), BitsOf(buf[start..start + len]);
      assert (BitsOf(out1) + h) + b == BitsOf(out1) + (h + b);
      assert Sent() == (BitsOf(out1) + h) + b + [];
    }
  }

  // ---------- lemmas about the methods above ----------

  lemma FourBytes(n: nat)
    requires n < U32
    ensures Bytes(n, 4) == [n % 0x100, n / 0x100 % 0x100, n / U16 % 0x100, n / U16 / 0x100 % 0x100]
  {
    assert Bytes(n / U16 / 0x100, 1) == [n / U16 / 0x100 % 0x100];
    assert Bytes(n / U16, 2) == [n / U16 % 0x100] + Bytes(n / U16 / 0x100, 1);
    assert n / 0x100 / 0x100 == n / U16;
    assert Bytes(n / 0x100, 3) == [n / 0x100 % 0x100] + Bytes(n / U16, 2);
  }

  lemma NoBits(v: nat)
    ensures Lsb(v, 0) == []
  {}

  lemma AppendNothing(s: seq<bool>)
    ensures s + [] == s
  {}

  lemma PaddingIs(sent: nat, valid: nat, pad: int)
    requires sent % 8 == valid % 8 && 0 <= pad < 8 && (pad + valid) % 8 == 0
    ensures Padding(sent) == pad
  {}

  lemma OneBelowPow2(n: nat)
    ensures 0 < Pow2(n)
  {}

  lemma AppendTwo(s: seq<bool>, a: seq<bool>, b: seq<bool>)
    ensures s + (a + b) == s + a + b
  {}

  lemma AppendThree(s: seq<bool>, a: seq<bool>, b: seq<bool>, b1: seq<bool>, b2: seq<bool>)
    requires b == b1 + b2
    ensures s + (a + b1) + b2 == s + a + b
  {}

  lemma RoomLeft(buf: nat, valid: nat, v: nat, n: nat, lo: nat)
    requires buf < Pow2(valid) && v < Pow2(n) && valid + n < 32 && lo == v % Pow2(32 - valid)
    ensures lo == v && buf + lo * Pow2(valid) < Pow2(valid + n)
    ensures Lsb(buf + lo * Pow2(valid), valid + n) == Lsb(buf, valid) + Lsb(v, n)
  {
    hide Lsb, Pow2;
    Pow2Mono(n, 32 - valid);
    ModSmall(v, Pow2(32 - valid));
    LsbConcat(buf, v, valid, n);
    JoinedBound(buf, v, valid, n);
  }

  /** Two adjacent bit fields fit in their joint width. */
  lemma JoinedBound(lo: nat, hi: nat, a: nat, b: nat)
    requires lo < Pow2(a) && hi < Pow2(b)
    ensures lo + hi * Pow2(a) < Pow2(a + b)
  {
    hide Pow2;
    MulMono(hi + 1, Pow2(b), Pow2(a));
    Pow2Add(b, a);
    assert b + a == a + b;
    assert (hi + 1) * Pow2(a) == hi * Pow2(a) + Pow2(a);
  }

  lemma ModSmall(v: nat, d: nat)
    requires v < d
    ensures v % d == v
  {}

  lemma FullAccumulator(buf: nat, valid: nat, v: nat, n: nat, lo: nat, hi: nat)
    requires valid < 32 && buf < Pow2(valid) && v < Pow2(n) && n <= 16 && valid + n >= 32
    requires lo == v % Pow2(32 - valid) && hi == v / Pow2(32 - valid)
    ensures buf + lo * Pow2(valid) < U32 && hi < Pow2(valid + n - 32)
    ensures Lsb(buf + lo * Pow2(valid), 32) == Lsb(buf, valid) + Lsb(lo, 32 - valid)
    ensures Lsb(v, n) == Lsb(lo, 32 - valid) + Lsb(hi, valid + n - 32)
  {
    hide Lsb, Pow2;
    var width := 32 - valid;
    DivMod(v, Pow2(width));
    Pow2Table();
    LsbConcat(buf, lo, valid, width);
    LsbSplit(v, width, valid + n - 32, lo, hi);
    assert width + (valid + n - 32) == n && valid + width == 32;
    QuotientBound(v, width, valid + n - 32, hi);
    JoinedBound(buf, lo, valid, width);
  }

  lemma WindupStep(out: seq<bool>, sent: seq<bool>, bits: nat, cnt: int)
    requires 0 < cnt <= 32 && bits < Pow2(cnt) && out + Lsb(bits, cnt) == sent
    ensures cnt > 8 ==> bits / 0x100 < Pow2(cnt - 8)
    ensures cnt > 8 ==> out + Lsb(bits % 0x100, 8) + Lsb(bits / 0x100, cnt - 8) == sent
    ensures cnt <= 8 ==> out + Lsb(bits % 0x100, 8) == sent + Lsb(0, 8 - cnt)
  {
    hide Lsb;
    Pow2Table();
    if cnt > 8 {
      LowByte(bits, bits / 0x100, cnt - 8);
      assert 8 + (cnt - 8) == cnt;
      QuotientBound(bits, 8, cnt - 8, bits / 0x100);
      AppendTwo(out, Lsb(bits % 0x100, 8), Lsb(bits / 0x100, cnt - 8));
    } else {
      Pow2Mono(cnt, 8);
      LsbConcat(bits, 0, cnt, 8 - cnt);
      assert cnt + (8 - cnt) == 8 && bits + 0 * Pow2(cnt) == bits;
      assert bits % 0x100 == bits;
      AppendTwo(out, Lsb(bits, cnt), Lsb(0, 8 - cnt));
    }
  }

  /** The header word of a stored block holds LEN in its low half and the
      complement of LEN in its high half. */
  lemma HeaderWord(len: nat)
    requires len < U16
    ensures Or(len % U16, (U32 - 1 - len) * U16 % U32) == len + (U16 - 1 - len) * U16 < U32
    ensures Lsb(len + (U16 - 1 - len) * U16, 32) == Lsb(len, 16) + Lsb(U16 - 1 - len, 16)
  {
    hide Lsb, Or, Pow2;
    Pow2Table();
    OrShifted(len, U16 - 1 - len, 16);
    LsbConcat(len, U16 - 1 - len, 16, 16);
    assert (U32 - 1 - len) * U16 == (U16 - 1) * U32 + (U16 - 1 - len) * U16;
  }
}
