/** Bit strings: the least-significant-first order in which DEFLATE packs numbers
    into bytes, and the most-significant-first order of Huffman codes
    (RFC 1951, section 3.1.1). */
module Bits {

  type byte = x: int | 0 <= x < 0x100

  datatype Option<+T> = None | Some(value: T)

  function Pow2(n: nat): (r: nat)
    ensures r > 0
  {
    if n == 0 then 1 else 2 * Pow2(n - 1)
  }

  lemma {:induction false} Pow2Add(a: nat, b: nat)
    ensures Pow2(a + b) == Pow2(a) * Pow2(b)
  {
    if a == 0 {
    } else {
      Pow2Add(a - 1, b);
      assert a + b - 1 == a - 1 + b;
      assert 2 * (Pow2(a - 1) * Pow2(b)) == (2 * Pow2(a - 1)) * Pow2(b);
    }
  }

  lemma {:induction false} Pow2Mono(a: nat, b: nat)
    requires a <= b
    ensures Pow2(a) <= Pow2(b)
  {
    if a < b {
      Pow2Mono(a, b - 1);
    }
  }

  lemma Pow2Table()
    ensures Pow2(0) == 1 && Pow2(1) == 2 && Pow2(2) == 4 && Pow2(3) == 8 && Pow2(4) == 16
    ensures Pow2(5) == 32 && Pow2(6) == 64 && Pow2(7) == 128 && Pow2(8) == 256
    ensures Pow2(13) == 0x2000 && Pow2(14) == 0x4000
    ensures Pow2(15) == 0x8000 && Pow2(16) == 0x1_0000 && Pow2(32) == 0x1_0000_0000
  {
    assert Pow2(8) == 256;
    Pow2Add(8, 8);
    assert Pow2(16) == 0x1_0000;
    assert Pow2(16) == 2 * Pow2(15) && Pow2(15) == 2 * Pow2(14) && Pow2(14) == 2 * Pow2(13);
    Pow2Add(16, 16);
  }

  // ---------- numbers as bit strings ----------

  /** The low n bits of v, least significant first. */
  function Lsb(v: nat, n: nat): (r: seq<bool>)
    ensures |r| == n
    decreases n
  {
    if n == 0 then [] else [v % 2 == 1] + Lsb(v / 2, n - 1)
  }

  /** The low n bits of v, most significant first. */
  function Msb(v: nat, n: nat): (r: seq<bool>)
    ensures |r| == n
    decreases n
  {
    if n == 0 then [] else Msb(v / 2, n - 1) + [v % 2 == 1]
  }

  /** The number whose least-significant-first bits are s. */
  function Value(s: seq<bool>): nat
  {
    if s == [] then 0 else (if s[0] then 1 else 0) + 2 * Value(s[1..])
  }

  lemma {:induction false} ValueBound(s: seq<bool>)
    ensures Value(s) < Pow2(|s|)
  {
    if s != [] {
      ValueBound(s[1..]);
    }
  }

  lemma {:induction false} ValueOfLsb(v: nat, n: nat)
    requires v < Pow2(n)
    ensures Value(Lsb(v, n)) == v
    decreases n
  {
    if n != 0 {
      ValueOfLsb(v / 2, n - 1);
      assert Lsb(v, n)[1..] == Lsb(v / 2, n - 1);
    }
  }

  lemma {:induction false} LsbOfValue(s: seq<bool>)
    ensures Lsb(Value(s), |s|) == s
  {
    if s != [] {
      LsbOfValue(s[1..]);
      var r := Value(s[1..]);
      assert Value(s) / 2 == r && (Value(s) % 2 == 1) == s[0];
      assert s == [s[0]] + s[1..];
    }
  }

  lemma DivUnique(v: int, d: int, q: int, r: int)
    requires d > 0 && 0 <= r < d && v == q * d + r
    ensures v / d == q && v % d == r
  {
    var q', r' := v / d, v % d;
    assert v == q' * d + r';
    assert (q' - q) * d == r - r';
    if q' - q >= 1 {
      MulMono(1, q' - q, d);
    } else if q - q' >= 1 {
      MulMono(1, q - q', d);
    }
  }

  lemma MulMono(a: int, b: int, c: int)
    requires a <= b && 0 <= c
    ensures a * c <= b * c
  {
    assert (b - a) * c >= 0;
    assert (b - a) * c == b * c - a * c;
  }

  /** Placing hi above the a bits of lo. */
  lemma {:induction false} LsbConcat(lo: nat, hi: nat, a: nat, b: nat)
    requires lo < Pow2(a)
    ensures Lsb(lo + hi * Pow2(a), a + b) == Lsb(lo, a) + Lsb(hi, b)
    decreases a
  {
    if a == 0 {
      assert Lsb(lo, a) == [];
    } else {
      var p := hi * Pow2(a - 1);
      assert hi * Pow2(a) == 2 * p;
      LsbConcat(lo / 2, hi, a - 1, b);
      HalfOfSum(lo, p);
      JoinStep(lo + 2 * p, lo, hi, a - 1, b);
    }
  }

  lemma HalfOfSum(lo: nat, p: nat)
    ensures (lo + 2 * p) / 2 == lo / 2 + p && (lo + 2 * p) % 2 == lo % 2
  {}

  lemma JoinStep(x: nat, lo: nat, hi: nat, k: nat, b: nat)
    requires x % 2 == lo % 2 && Lsb(x / 2, k + b) == Lsb(lo / 2, k) + Lsb(hi, b)
    ensures Lsb(x, k + 1 + b) == Lsb(lo, k + 1) + Lsb(hi, b)
  {
    hide Lsb;
    LsbStep(x, k + b);
    LsbStep(lo, k);
    assert k + 1 + b == k + b + 1;
    var c, d, e := [lo % 2 == 1], Lsb(lo / 2, k), Lsb(hi, b);
    assert c + (d + e) == (c + d) + e;
  }

  lemma LsbStep(v: nat, n: nat)
    ensures Lsb(v, n + 1) == [v % 2 == 1] + Lsb(v / 2, n)
  {}

  /** The first a bits of v and the bits above them. */
  lemma LsbSplit(v: nat, a: nat, b: nat, lo: nat, hi: nat)
    requires lo == v % Pow2(a) && hi == v / Pow2(a)
    ensures Lsb(v, a + b) == Lsb(lo, a) + Lsb(hi, b)
  {
    hide Pow2, Lsb;
    DivMod(v, Pow2(a));
    LsbConcat(lo, hi, a, b);
  }

  lemma DivMod(v: nat, d: int)
    requires d > 0
    ensures 0 <= v / d && 0 <= v % d < d && v == v % d + v / d * d
  {}

  // ---------- bitwise or ----------

  /** The C operator | on unsigned numbers. */
  function Or(a: nat, b: nat): nat
    decreases a + b
  {
    if a == 0 && b == 0 then 0
    else (if a % 2 == 1 || b % 2 == 1 then 1 else 0) + 2 * Or(a / 2, b / 2)
  }

  lemma {:induction false} OrZero(b: nat)
    ensures Or(0, b) == b
    decreases b
  {
    if b != 0 { OrZero(b / 2); }
  }

  lemma {:induction false} OrNothing(a: nat)
    ensures Or(a, 0) == a
    decreases a
  {
    if a != 0 { OrNothing(a / 2); }
  }

  lemma OrStep(a: nat, b: nat)
    ensures Or(a, b) == (if a % 2 == 1 || b % 2 == 1 then 1 else 0) + 2 * Or(a / 2, b / 2)
  {
    if a == 0 && b == 0 { assert Or(0, 0) == 0; }
  }

  /** Or-ing in a number shifted above the bits in use is an addition. */
  lemma {:induction false} OrShifted(lo: nat, v: nat, n: nat)
    requires lo < Pow2(n)
    ensures Or(lo, v * Pow2(n)) == lo + v * Pow2(n)
    decreases n
  {
    hide Or;
    if n == 0 {
      OrZero(v);
    } else {
      var p := v * Pow2(n - 1);
      assert v * Pow2(n) == 2 * p;
      OrShifted(lo / 2, v, n - 1);
      OrStep(lo, 2 * p);
    }
  }

  // ---------- bytes ----------

  /** The bits of a byte string in the order a DEFLATE decoder reads them. */
  function BitsOf(s: seq<byte>): (r: seq<bool>)
    ensures |r| == 8 * |s|
  {
    if s == [] then [] else BitsOf(s[..|s| - 1]) + Lsb(s[|s| - 1], 8)
  }

  lemma BitsOfSnoc(s: seq<byte>, b: byte)
    ensures BitsOf(s + [b]) == BitsOf(s) + Lsb(b, 8)
  {
    assert (s + [b])[..|s|] == s;
  }

  lemma {:induction false} BitsOfConcat(s: seq<byte>, t: seq<byte>)
    ensures BitsOf(s + t) == BitsOf(s) + BitsOf(t)
  {
    hide Lsb;
    if t == [] {
      assert s + t == s;
    } else {
      var n := |t| - 1;
      var t', x := t[..n], Lsb(t[n], 8);
      BitsOfConcat(s, t');
      assert (s + t)[..|s + t| - 1] == s + t';
      assert BitsOf(s + t) == BitsOf(s + t') + x;
      assert (BitsOf(s) + BitsOf(t')) + x == BitsOf(s) + (BitsOf(t') + x);
    }
  }

  /** The number of bits up to the next byte boundary. */
  function Padding(p: nat): nat { (8 - p % 8) % 8 }

  // ---------- a bit string inside a stream ----------

  /** The bits e stand in s at position p. */
  predicate At(s: seq<bool>, p: nat, e: seq<bool>)
  {
    p + |e| <= |s| && s[p..p + |e|] == e
  }

  lemma AtSplit(s: seq<bool>, p: nat, a: seq<bool>, b: seq<bool>)
    ensures At(s, p, a + b) <==> At(s, p, a) && At(s, p + |a|, b)
  {
    if At(s, p, a + b) {
      var w := s[p..p + |a + b|];
      assert w[..|a|] == a && w[|a|..] == b;
      assert s[p..p + |a|] == w[..|a|];
      assert s[p + |a|..p + |a| + |b|] == w[|a|..];
    }
    if At(s, p, a) && At(s, p + |a|, b) {
      assert s[p..p + |a + b|] == s[p..p + |a|] + s[p + |a|..p + |a| + |b|];
    }
  }
}
