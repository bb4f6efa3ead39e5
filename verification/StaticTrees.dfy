/** The static trees that ct_init builds: the fixed codes of section 3.2.6 of RFC 1951. */
module StaticTrees {
  import opened Bits
  import opened Canonical
  import opened Inflater
  import opened Blocks
  import opened TreeBuilder
  import opened TreeCoding

  lemma {:induction false} CountSegment(l: seq<nat>, a: nat, b: nat, v: nat, x: nat)
    requires a <= b <= |l|
    requires forall i :: a <= i < b ==> l[i] == v
    ensures Count(l[..b], x) == Count(l[..a], x) + (if v == x then b - a else 0)
    decreases b - a
  {
    if a < b {
      CountSegment(l, a, b - 1, v, x);
      assert l[..b][..b - 1] == l[..b - 1];
    }
  }

  lemma FixedLitCounts(x: nat)
    ensures Count(FixedLit(), x) == if x == 7 then 24 else if x == 8 then 152 else if x == 9 then 112 else 0
  {
    hide Count;
    var l := FixedLit();
    CountSegment(l, 0, 144, 8, x);
    CountSegment(l, 144, 256, 9, x);
    CountSegment(l, 256, 280, 7, x);
    CountSegment(l, 280, 288, 8, x);
    assert l[..288] == l && l[..0] == [];
    NoCount(x);
  }

  lemma NoCount(x: nat)
    ensures Count([], x) == 0
  {}

  lemma FixedDistPrefix(n: nat, x: nat)
    requires n <= 32
    ensures Count(FixedDist()[..n], x) == if x == 5 then n else 0
  {
    hide Count;
    var d := FixedDist();
    CountSegment(d, 0, n, 5, x);
    assert d[..0] == [];
    NoCount(x);
  }

  lemma {:induction false} NoShorterCodes(lens: seq<nat>, b: nat)
    requires forall x :: 1 <= x < b ==> Count(lens, x) == 0
    ensures FirstCode(lens, b) == 0
  {
    if b > 0 { NoShorterCodes(lens, b - 1); }
  }

  /** A fixed distance code is its symbol in five bits. */
  lemma FixedDistCode(n: nat)
    requires n < 32
    ensures FixedDist()[n] == 5 && CodeBits(FixedDist(), n) == Msb(n, 5)
  {
    hide Count, FirstCode, Msb;
    var d := FixedDist();
    forall x: nat | 1 <= x < 5 ensures Count(d, x) == 0 {
      FixedDistPrefix(32, x);
      assert d[..32] == d;
    }
    NoShorterCodes(d, 5);
    FixedDistPrefix(n, 5);
  }

  /** The fixed literal and length codes as section 3.2.6 lists them: 00110000 up for the
      literals 0 to 143, 110010000 up for 144 to 255, 0000000 up for 256 to 279 and
      11000000 up for the rest. */
  lemma FixedLitCode(n: nat)
    requires n < 288
    ensures CodeBits(FixedLit(), n) ==
      if n <= 143 then Msb(0x30 + n, 8)
      else if n <= 255 then Msb(0x190 + (n - 144), 9)
      else if n <= 279 then Msb(n - 256, 7)
      else Msb(0xc0 + (n - 280), 8)
  {
    hide Count, Msb;
    var l := FixedLit();
    FixedFirstCodes();
    FixedLitBefore(n);
  }

  lemma FixedFirstCodes()
    ensures FirstCode(FixedLit(), 7) == 0 && FirstCode(FixedLit(), 8) == 0x30 && FirstCode(FixedLit(), 9) == 0x190
  {
    hide Count;
    var l := FixedLit();
    forall x: nat | 1 <= x < 7 ensures Count(l, x) == 0 { FixedLitCounts(x); }
    NoShorterCodes(l, 7);
    FixedLitCounts(7);
    FixedLitCounts(8);
  }

  lemma FixedLitBefore(n: nat)
    requires n < 288
    ensures Count(FixedLit()[..n], FixedLit()[n]) ==
      if n <= 143 then n else if n <= 255 then n - 144 else if n <= 279 then n - 256 else n - 280 + 144
  {
    hide Count;
    var l := FixedLit();
    var x := l[n];
    assert l[..0] == [];
    NoCount(x);
    if n <= 143 {
      CountSegment(l, 0, n, 8, x);
    } else {
      CountSegment(l, 0, 144, 8, x);
      if n <= 255 {
        CountSegment(l, 144, n, 9, x);
      } else {
        CountSegment(l, 144, 256, 9, x);
        if n <= 279 {
          CountSegment(l, 256, n, 7, x);
        } else {
          CountSegment(l, 256, 280, 7, x);
          CountSegment(l, 280, n, 8, x);
        }
      }
    }
  }

  /** Codes from n up to last get length len. */
  method FillLens(t: CtTree, from: nat, last: nat, len: nat) returns (n: nat)
    requires from <= last < t.dl.Length
    modifies t.dl
    ensures n == last + 1
    ensures forall i :: 0 <= i < t.dl.Length ==> t.dl[i] == if from <= i <= last then len else old(t.dl[i])
  {
    n := from;
    while n <= last
      invariant from <= n <= last + 1
      invariant forall i :: 0 <= i < t.dl.Length ==> t.dl[i] == if from <= i < n then len else old(t.dl[i])
    {
      t.dl[n] := len;
      n := n + 1;
    }
  }

  /** The static literal and length tree. */
  method StaticLitTree(b: Builder) returns (t: CtTree)
    requires b.Sizes() && forall i :: 0 <= i < 16 ==> b.blCount[i] == 0
    modifies b.blCount
    ensures fresh(t) && fresh(t.fc) && fresh(t.dl) && t.fc != t.dl && t.fc.Length == t.dl.Length == 288
    ensures t.dl[..] == FixedLit() && Coded(t, FixedLit())
  {
    hide Count, Kraft, Pow2, Value, Msb, Complete, CodeBits;
    t := new CtTree(288);
    ghost var l := FixedLit();
    var n := 0;
    n := FillLens(t, n, 143, 8);
    n := FillLens(t, n, 255, 9);
    n := FillLens(t, n, 279, 7);
    n := FillLens(t, n, 287, 8);
    b.blCount[7] := 279 - 255;
    b.blCount[8] := 144 + (287 - 279);
    b.blCount[9] := 255 - 143;
    assert t.dl[..] == l && t.dl[..288] == t.dl[..];
    FixedComplete();
    CompleteParts(l, 15);
    forall x: nat ensures Count(l, x) == if x == 7 then 24 else if x == 8 then 152 else if x == 9 then 112 else 0 {
      FixedLitCounts(x);
    }
    b.GenCodes(t, 287, 15);
  }

  /** The static distance tree. */
  method StaticDistTree(b: Builder) returns (t: CtTree)
    ensures fresh(t) && fresh(t.fc) && fresh(t.dl) && t.fc != t.dl && t.fc.Length == t.dl.Length == 30
    ensures t.dl[..] == FixedDist()[..30] && Coded(t, FixedDist())
  {
    hide CodeBits, Pow2, Value, Msb;
    t := new CtTree(D_CODES);
    ghost var d := FixedDist();
    var n := 0;
    while n < D_CODES
      invariant n <= D_CODES && t.dl[..n] == d[..n]
      invariant forall i :: 0 <= i < n ==> t.fc[i] == Value(CodeBits(d, i)) && t.fc[i] < Pow2(5)
    {
      FixedDistCode(n);
      t.dl[n] := 5;
      t.fc[n] := b.BiReverse(n, 5);
      n := n + 1;
    }
  }
}
