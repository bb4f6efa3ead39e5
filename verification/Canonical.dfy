/** Canonical prefix codes: the codes that code lengths determine by section 3.2.2
    of RFC 1951, their prefix freedom, and the decoder that reads them. */
module Canonical {
  import opened Bits

  /** How many symbols have code length b. */
  function Count(lens: seq<nat>, b: nat): nat
  {
    if lens == [] then 0
    else Count(lens[..|lens| - 1], b) + (if lens[|lens| - 1] == b then 1 else 0)
  }

  /** The smallest code of length b. */
  function FirstCode(lens: seq<nat>, b: nat): nat
  {
    if b == 0 then 0
    else 2 * (FirstCode(lens, b - 1) + (if b == 1 then 0 else Count(lens, b - 1)))
  }

  /** One more than the largest code of length b. */
  function CodeEnd(lens: seq<nat>, b: nat): nat
    requires b > 0
  {
    FirstCode(lens, b) + Count(lens, b)
  }

  /** The code of symbol n: codes of one length are consecutive in symbol order. */
  function CodeNum(lens: seq<nat>, n: nat): nat
    requires n < |lens|
  {
    FirstCode(lens, lens[n]) + Count(lens[..n], lens[n])
  }

  /** The code of symbol n as it stands in the stream, most significant bit first. */
  function CodeBits(lens: seq<nat>, n: nat): (r: seq<bool>)
    requires n < |lens|
    ensures |r| == lens[n]
  {
    Msb(CodeNum(lens, n), lens[n])
  }

  /** The Kraft sum in units of 2^-m. */
  function Kraft(lens: seq<nat>, m: nat): nat
  {
    if lens == [] then 0
    else
      var l := lens[|lens| - 1];
      Kraft(lens[..|lens| - 1], m) + (if 0 < l <= m then Pow2(m - l) else 0)
  }

  predicate Bounded(lens: seq<nat>, m: nat)
  {
    forall i :: 0 <= i < |lens| ==> lens[i] <= m
  }

  /** The lengths make a complete prefix code: every bit string starts with a code. */
  predicate Complete(lens: seq<nat>, m: nat)
  {
    Bounded(lens, m) && Kraft(lens, m) == Pow2(m)
  }

  // ---------- code ranges and the Kraft sum ----------

  lemma {:induction false} CountPrefix(lens: seq<nat>, n: nat, b: nat)
    requires n < |lens| && lens[n] == b
    ensures Count(lens[..n], b) < Count(lens, b)
    decreases |lens|
  {
    var last := |lens| - 1;
    if n < last {
      CountPrefix(lens[..last], n, b);
      assert lens[..last][..n] == lens[..n];
    }
  }

  lemma {:induction false} CountStrict(lens: seq<nat>, i: nat, j: nat, b: nat)
    requires i < j < |lens| && lens[i] == b
    ensures Count(lens[..i], b) < Count(lens[..j], b)
  {
    CountPrefix(lens[..j], i, b);
    assert lens[..j][..i] == lens[..i];
  }

  function Weight(l: nat, m: nat): nat { if 0 < l <= m then Pow2(m - l) else 0 }

  lemma {:induction false} SnocFirstCode(lens: seq<nat>, l: nat, b: nat)
    requires b > 0
    ensures CodeEnd(lens + [l], b) == CodeEnd(lens, b) + Weight(l, b)
  {
    SnocCount(lens, l, b);
    if b == 1 {
      assert FirstCode(lens + [l], 1) == FirstCode(lens, 1) == 0;
      assert 0 < l <= 1 ==> Pow2(1 - l) == 1;
    } else {
      SnocFirstCode(lens, l, b - 1);
      SnocCount(lens, l, b - 1);
      assert l == b ==> Pow2(b - l) == 1;
      assert 0 < l < b ==> Pow2(b - l) == 2 * Pow2(b - 1 - l);
    }
  }

  lemma SnocCount(lens: seq<nat>, l: nat, b: nat)
    ensures Count(lens + [l], b) == Count(lens, b) + (if l == b then 1 else 0)
  {
    assert (lens + [l])[..|lens|] == lens;
  }

  lemma {:induction false} EmptyCodes(b: nat)
    requires b > 0
    ensures CodeEnd([], b) == 0
  {
    if b > 1 { EmptyCodes(b - 1); }
  }

  /** The code numbers of length m end exactly at the Kraft sum. */
  lemma {:induction false} CodeEndIsKraft(lens: seq<nat>, m: nat)
    requires m > 0
    ensures CodeEnd(lens, m) == Kraft(lens, m)
    decreases |lens|
  {
    if lens == [] {
      EmptyCodes(m);
    } else {
      var last := |lens| - 1;
      CodeEndIsKraft(lens[..last], m);
      SnocFirstCode(lens[..last], lens[last], m);
      assert lens[..last] + [lens[last]] == lens;
    }
  }

  /** Longer codes start above every extension of the shorter ones. */
  lemma {:induction false} RangesAscend(lens: seq<nat>, a: nat, b: nat)
    requires 0 < a < b
    ensures FirstCode(lens, b) >= CodeEnd(lens, a) * Pow2(b - a)
    decreases b
  {
    if b == a + 1 {
      assert Pow2(1) == 2;
    } else {
      RangesAscend(lens, a, b - 1);
      assert Pow2(b - a) == 2 * Pow2(b - 1 - a);
      assert CodeEnd(lens, a) * Pow2(b - a) == 2 * (CodeEnd(lens, a) * Pow2(b - 1 - a));
    }
  }

  /** With a Kraft sum of at most one every code fits its length. */
  lemma CodesFit(lens: seq<nat>, m: nat, b: nat)
    requires 0 < b <= m && Kraft(lens, m) <= Pow2(m)
    ensures CodeEnd(lens, b) <= Pow2(b)
  {
    CodeEndIsKraft(lens, m);
    if b < m {
      RangesAscend(lens, b, m);
      Pow2Add(b, m - b);
      assert b + (m - b) == m;
      hide Pow2, CodeEnd, Kraft;
      assert CodeEnd(lens, m) >= FirstCode(lens, m) by { FirstBelowEnd(lens, m); }
      MulCancel(CodeEnd(lens, b), Pow2(b), Pow2(m - b));
    }
  }

  lemma FirstBelowEnd(lens: seq<nat>, b: nat)
    requires b > 0
    ensures FirstCode(lens, b) <= CodeEnd(lens, b)
  {}

  lemma MulCancel(a: nat, b: nat, p: nat)
    requires p > 0 && a * p <= b * p
    ensures a <= b
  {
    if a > b { MulMono(b + 1, a, p); }
  }

  lemma CodeNumFits(lens: seq<nat>, m: nat, n: nat)
    requires n < |lens| && 0 < lens[n] <= m && Kraft(lens, m) <= Pow2(m)
    ensures CodeNum(lens, n) < Pow2(lens[n])
  {
    CountPrefix(lens, n, lens[n]);
    CodesFit(lens, m, lens[n]);
  }

  // ---------- prefix freedom ----------

  /** The leading bits of a most-significant-first string. */
  lemma {:induction false} MsbPrefix(v: nat, a: nat, k: nat, hi: nat)
    requires hi == v / Pow2(k)
    ensures Msb(v, a + k)[..a] == Msb(hi, a)
    decreases k
  {
    if k == 0 {
      assert a + k == a;
      assert Msb(v, a)[..a] == Msb(v, a);
    } else {
      DivTwice(v, Pow2(k - 1));
      MsbPrefix(v / 2, a, k - 1, hi);
      assert Msb(v, a + k) == Msb(v / 2, a + (k - 1)) + [v % 2 == 1];
    }
  }

  lemma DivTwice(v: nat, d: nat)
    requires d > 0
    ensures v / (2 * d) == v / 2 / d
  {
    var q, r := v / 2 / d, v / 2 % d;
    DivMod(v / 2, d);
    DivUnique(v, 2 * d, q, 2 * r + v % 2);
  }

  lemma {:induction false} MsbInjective(v: nat, w: nat, n: nat)
    requires v < Pow2(n) && w < Pow2(n) && Msb(v, n) == Msb(w, n)
    ensures v == w
    decreases n
  {
    if n != 0 {
      var s, t := Msb(v, n), Msb(w, n);
      assert s[..n - 1] == Msb(v / 2, n - 1) && t[..n - 1] == Msb(w / 2, n - 1);
      assert s[n - 1] == (v % 2 == 1) && t[n - 1] == (w % 2 == 1);
      MsbInjective(v / 2, w / 2, n - 1);
    }
  }

  /** No code is a prefix of the code of another symbol. */
  lemma PrefixFree(lens: seq<nat>, m: nat, i: nat, j: nat)
    requires Kraft(lens, m) <= Pow2(m)
    requires i < |lens| && j < |lens| && i != j
    requires 0 < lens[i] <= lens[j] <= m
    ensures CodeBits(lens, j)[..lens[i]] != CodeBits(lens, i)
  {
    hide Kraft, Count, FirstCode, Msb, Pow2;
    var a, b := lens[i], lens[j];
    var v, w := CodeNum(lens, i), CodeNum(lens, j);
    CodeNumFits(lens, m, i);
    CodeNumFits(lens, m, j);
    if a == b {
      assert CodeBits(lens, j)[..a] == CodeBits(lens, j);
      if i < j { CountStrict(lens, i, j, a); } else { CountStrict(lens, j, i, a); }
      if Msb(v, a) == Msb(w, a) { MsbInjective(v, w, a); }
    } else {
      CountPrefix(lens, i, a);
      RangesAscend(lens, a, b);
      LongerCodeDiffers(v, a, w, b - a, CodeEnd(lens, a));
      assert a + (b - a) == b;
    }
  }

  /** A number past all extensions of the codes below e does not extend such a code. */
  lemma LongerCodeDiffers(v: nat, a: nat, w: nat, k: nat, e: nat)
    requires v < e && v < Pow2(a) && e * Pow2(k) <= w < Pow2(a + k)
    ensures Msb(w, a + k)[..a] != Msb(v, a)
  {
    hide *;
    var p := Pow2(k);
    DivMod(w, p);
    var hi: nat := w / p;
    MsbPrefix(w, a, k, hi);
    QuotientAtLeast(w, p, v + 1, e);
    QuotientBelow(w, a, k, hi);
    if Msb(v, a) == Msb(hi, a) { MsbInjective(v, hi, a); }
  }

  lemma QuotientAtLeast(w: nat, p: nat, x: nat, e: nat)
    requires p > 0 && x <= e && w >= e * p
    ensures w / p >= x
  {
    DivMod(w, p);
    var q := w / p;
    MulMono(x, e, p);
    assert (q + 1) * p > x * p by { assert (q + 1) * p == q * p + p; }
    if q < x { MulMono(q + 1, x, p); }
  }

  lemma QuotientBelow(w: nat, a: nat, k: nat, q: nat)
    requires w < Pow2(a + k) && q == w / Pow2(k)
    ensures q < Pow2(a)
  {
    Pow2Add(a, k);
    DivMod(w, Pow2(k));
    if q >= Pow2(a) { MulMono(Pow2(a), q, Pow2(k)); }
  }

  // ---------- decoding ----------

  /** The first symbol from c on whose code stands in s at p, and where it ends. */
  function DecodeFrom(lens: seq<nat>, s: seq<bool>, p: nat, c: nat): (r: Option<(nat, nat)>)
    requires c <= |lens|
    ensures r.Some? ==> c <= r.value.0 < |lens| && p < r.value.1 <= |s|
    decreases |lens| - c
  {
    if c == |lens| then None
    else if lens[c] > 0 && At(s, p, CodeBits(lens, c)) then Some((c, p + lens[c]))
    else DecodeFrom(lens, s, p, c + 1)
  }

  /** Reads one symbol with the code the lengths determine. */
  function DecodeSymbol(lens: seq<nat>, s: seq<bool>, p: nat): (r: Option<(nat, nat)>)
    ensures r.Some? ==> r.value.0 < |lens| && p < r.value.1 <= |s|
  {
    DecodeFrom(lens, s, p, 0)
  }

  lemma PrefixAt(s: seq<bool>, p: nat, e: seq<bool>, k: nat)
    requires At(s, p, e) && k <= |e|
    ensures At(s, p, e[..k])
  {
    assert s[p..p + k] == s[p..p + |e|][..k];
  }

  /** Where one code stands no other code can be read. */
  lemma OneCodeAt(lens: seq<nat>, m: nat, s: seq<bool>, p: nat, c: nat, n: nat)
    requires Kraft(lens, m) <= Pow2(m) && Bounded(lens, m)
    requires c < |lens| && n < |lens| && c != n && lens[c] > 0 && lens[n] > 0
    requires At(s, p, CodeBits(lens, n))
    ensures !At(s, p, CodeBits(lens, c))
  {
    if lens[c] <= lens[n] {
      PrefixFree(lens, m, c, n);
      PrefixAt(s, p, CodeBits(lens, n), lens[c]);
    } else {
      if At(s, p, CodeBits(lens, c)) {
        PrefixAt(s, p, CodeBits(lens, c), lens[n]);
        PrefixFree(lens, m, n, c);
      }
    }
  }

  lemma {:induction false} DecodeFromFinds(lens: seq<nat>, m: nat, s: seq<bool>, p: nat, c: nat, n: nat)
    requires Kraft(lens, m) <= Pow2(m) && Bounded(lens, m)
    requires c <= n < |lens| && lens[n] > 0 && At(s, p, CodeBits(lens, n))
    ensures DecodeFrom(lens, s, p, c) == Some((n, p + lens[n]))
    decreases n - c
  {
    if c < n {
      if lens[c] > 0 { OneCodeAt(lens, m, s, p, c, n); }
      DecodeFromFinds(lens, m, s, p, c + 1, n);
    }
  }

  /** Reading back what the encoder wrote for a symbol, whatever follows it. */
  lemma DecodesSymbol(lens: seq<nat>, m: nat, s: seq<bool>, p: nat, n: nat)
    requires Complete(lens, m)
    requires n < |lens| && lens[n] > 0 && At(s, p, CodeBits(lens, n))
    ensures DecodeSymbol(lens, s, p) == Some((n, p + lens[n]))
  {
    DecodeFromFinds(lens, m, s, p, 0, n);
  }
}
