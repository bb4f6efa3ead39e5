/** lzo_adler32 of lzop.c: Adler-32 (section 2.2 of RFC 1950) with the reductions put off
    for up to 5552 bytes. */
module Adler {
  import opened Bits

  const BASE := 65521
  const NMAX := 5552
  const U32 := 0x1_0000_0000

  datatype Sums = Sums(s1: nat, s2: nat)

  /** One byte, reduced at once, as RFC 1950 defines it. */
  function Step(s: Sums, b: byte): Sums {
    var t := (s.s1 + b) % BASE;
    Sums(t, (s.s2 + t) % BASE)
  }

  function Fold(s: Sums, data: seq<byte>): Sums {
    if data == [] then s else Step(Fold(s, data[..|data| - 1]), data[|data| - 1])
  }

  /** The same without any reduction. */
  function Raw(s: Sums, data: seq<byte>): Sums {
    if data == [] then s
    else
      var r := Raw(s, data[..|data| - 1]);
      Sums(r.s1 + data[|data| - 1], r.s2 + (r.s1 + data[|data| - 1]))
  }

  function Split(adler: nat): Sums { Sums(adler % 0x1_0000, adler / 0x1_0000 % 0x1_0000) }

  function Join(s: Sums): nat { s.s2 * 0x1_0000 + s.s1 }

  /** 1 + 2 + ... + n */
  function Triangle(n: nat): nat { if n == 0 then 0 else Triangle(n - 1) + n }

  lemma {:induction false} TriangleIs(n: nat)
    ensures 2 * Triangle(n) == n * (n + 1)
  {
    if n > 0 { TriangleIs(n - 1); }
  }

  lemma {:induction false} TriangleMono(m: nat, n: nat)
    requires m <= n
    ensures Triangle(m) <= Triangle(n)
  {
    if m < n { TriangleMono(m, n - 1); }
  }

  /** How large the sums get within n bytes. */
  lemma {:induction false} RawBound(s: Sums, data: seq<byte>)
    ensures Raw(s, data).s1 <= s.s1 + 255 * |data|
    ensures Raw(s, data).s2 <= s.s2 + |data| * s.s1 + 255 * Triangle(|data|)
    decreases |data|
  {
    if data != [] {
      RawBound(s, data[..|data| - 1]);
      assert |data| * s.s1 == (|data| - 1) * s.s1 + s.s1;
    }
  }

  /** 5552 bytes never overflow 32 bits, whatever 16-bit halves they start from. */
  lemma NoOverflow(s: Sums, data: seq<byte>)
    requires s.s1 < 0x1_0000 && s.s2 < 0x1_0000 && |data| <= NMAX
    ensures Raw(s, data).s1 < U32 && Raw(s, data).s2 < U32
  {
    hide Raw, Triangle;
    RawBound(s, data);
    TriangleIs(NMAX);
    TriangleMono(|data|, NMAX);
    MulMono(|data|, NMAX, s.s1);
    MulMono(s.s1, 0xffff, NMAX);
    assert |data| * s.s1 <= NMAX * 0xffff;
  }

  /** The comment in lzop.c: NMAX is the largest number of bytes for which the bound holds. */
  lemma NmaxIsLargest(n: nat)
    ensures 255 * Triangle(n) + (n + 1) * (BASE - 1) < U32 <==> n <= NMAX
  {
    hide Triangle;
    TriangleIs(NMAX);
    TriangleIs(NMAX + 1);
    if n <= NMAX {
      TriangleMono(n, NMAX);
      MulMono(n + 1, NMAX + 1, BASE - 1);
    } else {
      TriangleMono(NMAX + 1, n);
      MulMono(NMAX + 2, n + 1, BASE - 1);
    }
  }

  lemma ModAdd(a: nat, b: nat)
    ensures (a % BASE + b) % BASE == (a + b) % BASE
  {}

  lemma StepReduces(r: Sums, f: Sums, b: byte)
    requires f == r || f == Sums(r.s1 % BASE, r.s2 % BASE)
    ensures Step(f, b) == Sums((r.s1 + b) % BASE, (r.s2 + (r.s1 + b)) % BASE)
  {
    ModAdd(r.s1, b);
    ModAdd(r.s2, (r.s1 + b) % BASE);
    ModAdd(r.s1 + b, r.s2);
  }

  /** The reductions may be put off to the end. */
  lemma {:induction false} RawReduces(s: Sums, data: seq<byte>)
    requires data != []
    ensures Fold(s, data) == Sums(Raw(s, data).s1 % BASE, Raw(s, data).s2 % BASE)
    decreases |data|
  {
    hide Step;
    var last, rest := data[|data| - 1], data[..|data| - 1];
    if rest != [] { RawReduces(s, rest); }
    StepReduces(Raw(s, rest), Fold(s, rest), last);
  }

  lemma {:induction false} FoldConcat(s: Sums, a: seq<byte>, b: seq<byte>)
    ensures Fold(s, a + b) == Fold(Fold(s, a), b)
    decreases |b|
  {
    hide Step;
    if b == [] {
      assert a + b == a;
    } else {
      FoldConcat(s, a, b[..|b| - 1]);
      assert (a + b)[..|a + b| - 1] == a + b[..|b| - 1];
    }
  }

  lemma FoldHalves(s: Sums, data: seq<byte>)
    requires s.s1 < 0x1_0000 && s.s2 < 0x1_0000
    ensures Fold(s, data).s1 < 0x1_0000 && Fold(s, data).s2 < 0x1_0000
  {}

  /** Up to NMAX bytes on 32-bit variables. */
  method Chunk(s1: nat, s2: nat, buf: array<byte>, at: nat, k: nat) returns (t1: nat, t2: nat)
    requires s1 < 0x1_0000 && s2 < 0x1_0000 && k <= NMAX && at + k <= buf.Length
    ensures Sums(t1, t2) == Raw(Sums(s1, s2), buf[at..at + k])
  {
    t1, t2 := s1, s2;
    var i := 0;
    while i < k
      invariant i <= k && Sums(t1, t2) == Raw(Sums(s1, s2), buf[at..at + i])
    {
      assert buf[at..at + i + 1][..i] == buf[at..at + i];
      NoOverflow(Sums(s1, s2), buf[at..at + i + 1]);
      t1 := (t1 + buf[at + i]) % U32;
      t2 := (t2 + t1) % U32;
      i := i + 1;
    }
  }

  // ---------- closed form ----------

  function SumOf(data: seq<byte>): nat {
    if data == [] then 0 else data[0] + SumOf(data[1..])
  }

  /** Every byte counts as often as bytes are left from it on: the first |data| times, the
      last once. */
  function Weighted(data: seq<byte>): nat {
    if data == [] then 0 else |data| * data[0] + Weighted(data[1..])
  }

  lemma {:induction false} OneByteMore(data: seq<byte>, b: byte)
    ensures SumOf(data + [b]) == SumOf(data) + b
    ensures Weighted(data + [b]) == Weighted(data) + SumOf(data) + b
    decreases |data|
  {
    if data == [] {
      assert (data + [b])[1..] == [];
    } else {
      OneByteMore(data[1..], b);
      assert (data + [b])[1..] == data[1..] + [b];
      assert (|data| + 1) * data[0] == |data| * data[0] + data[0];
    }
  }

  /** The sums of section 9 of RFC 1950: the first is that of all bytes, the second that of
      all first sums on the way. */
  lemma {:induction false} RawIs(s: Sums, data: seq<byte>)
    ensures Raw(s, data) == Sums(s.s1 + SumOf(data), s.s2 + |data| * s.s1 + Weighted(data))
    decreases |data|
  {
    hide SumOf, Weighted;
    NoBytes();
    if data != [] {
      var last, rest := data[|data| - 1], data[..|data| - 1];
      RawIs(s, rest);
      OneByteMore(rest, last);
      assert rest + [last] == data;
      OneMoreTime(|rest|, s.s1);
    }
  }

  lemma NoBytes()
    ensures SumOf([]) == 0 && Weighted([]) == 0
  {}

  lemma OneMoreTime(n: nat, x: nat)
    ensures (n + 1) * x == n * x + x
  {}

  /** The checksum in closed form, modulo 65521; without data it is left as it is. */
  predicate IsAdler(adler: nat, data: seq<byte>, r: nat) {
    if data == [] then r == adler
    else
      && r % 0x1_0000 == (adler % 0x1_0000 + SumOf(data)) % 65521
      && r / 0x1_0000 == (adler / 0x1_0000 + |data| * (adler % 0x1_0000) + Weighted(data)) % 65521
  }

  lemma ClosedForm(adler: nat, data: seq<byte>, r: nat)
    requires adler < U32 && r == Join(Fold(Split(adler), data))
    ensures IsAdler(adler, data, r)
  {
    hide Fold, Raw, SumOf, Weighted;
    if data == [] {
      FoldNothing(Split(adler));
    } else {
      RawReduces(Split(adler), data);
      RawIs(Split(adler), data);
      Halves(Fold(Split(adler), data));
    }
  }

  lemma Halves(s: Sums)
    requires s.s1 < 0x1_0000
    ensures Join(s) % 0x1_0000 == s.s1 && Join(s) / 0x1_0000 == s.s2
  {}

  /** lzo_adler32; null stands for a NULL buffer. */
  method Adler32(adler: nat, buf: array?<byte>, start: nat, len: nat) returns (r: nat)
    requires adler < U32 && (buf != null ==> start + len <= buf.Length)
    ensures r < U32
    ensures r == if buf == null then 1 else Join(Fold(Split(adler), buf[start..start + len]))
    ensures buf != null ==> IsAdler(adler, buf[start..start + len], r)
  {
    hide Raw, Fold, IsAdler;
    var s1: nat, s2: nat := adler % 0x1_0000, adler / 0x1_0000 % 0x1_0000;
    if buf == null { return 1; }
    ghost var s := Split(adler);
    var at: nat, left: nat := start, len;
    FoldNothing(s);
    assert buf[start..start] == [];
    while left > 0
      invariant start <= at && at + left == start + len
      invariant s1 < 0x1_0000 && s2 < 0x1_0000 && Sums(s1, s2) == Fold(s, buf[start..at])
    {
      var k := if left < NMAX then left else NMAX;
      left := left - k;
      ghost var a, b := buf[start..at], buf[at..at + k];
      RawReduces(Sums(s1, s2), b);
      FoldConcat(s, a, b);
      assert a + b == buf[start..at + k];
      s1, s2 := Chunk(s1, s2, buf, at, k);
      at := at + k;
      s1 := s1 % BASE;
      s2 := s2 % BASE;
    }
    r := s2 * 0x1_0000 % U32 + s1;
    ClosedForm(adler, buf[start..start + len], r);
  }

  lemma FoldNothing(s: Sums)
    ensures Fold(s, []) == s
  {}

  lemma SplitJoin(s: Sums)
    requires s.s1 < 0x1_0000 && s.s2 < 0x1_0000
    ensures Split(Join(s)) == s
  {}

  /** Checksumming a concatenation is checksumming the parts in turn. */
  lemma AdlerConcat(adler: nat, a: seq<byte>, b: seq<byte>)
    ensures Join(Fold(Split(adler), a + b)) == Join(Fold(Split(Join(Fold(Split(adler), a))), b))
  {
    hide Fold;
    FoldConcat(Split(adler), a, b);
    FoldHalves(Split(adler), a);
    SplitJoin(Fold(Split(adler), a));
  }
}
