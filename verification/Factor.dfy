/** factorize() of factor.c: trial division over the wheel, with a shortcut for squares. */
module Factor {
  import opened Bits
  import opened Wheel

  const HALF := 0x1_0000_0000
  const WIDE := 0x1_0000_0000_0000_0000

  // ---------- primes and divisors ----------

  predicate Divides(d: nat, n: nat) {
    d > 0 && n % d == 0
  }

  predicate Prime(p: nat) {
    p >= 2 && forall d :: 2 <= d < p ==> !Divides(d, p)
  }

  /** Nothing from 2 up to f divides n. */
  predicate NoneUpTo(f: nat, n: nat) {
    forall d :: 2 <= d <= f ==> !Divides(d, n)
  }

  function Product(fs: seq<nat>): nat {
    if fs == [] then 1 else Product(fs[..|fs| - 1]) * fs[|fs| - 1]
  }

  predicate Ascending(fs: seq<nat>) {
    forall i, j :: 0 <= i <= j < |fs| ==> fs[i] <= fs[j]
  }

  /** The complete factorization of n: primes in order, with product n. */
  predicate Factors(fs: seq<nat>, n: nat) {
    && (forall i :: 0 <= i < |fs| ==> Prime(fs[i]))
    && Ascending(fs) && Product(fs) == n
  }

  /** Every number k times in a row. */
  function Times(fs: seq<nat>, k: nat): seq<nat> {
    if fs == [] then [] else Times(fs[..|fs| - 1], k) + Copies(fs[|fs| - 1], k)
  }

  function Copies(x: nat, k: nat): (r: seq<nat>)
    ensures |r| == k && forall i :: 0 <= i < k ==> r[i] == x
  {
    seq(k, _ => x)
  }

  lemma DividesMultiple(d: nat, m: nat)
    requires d > 0
    ensures Divides(d, d * m)
  {
    DivUnique(d * m, d, m, 0);
  }

  lemma DividesAll(a: nat, b: nat, n: nat)
    requires Divides(a, b) && Divides(b, n)
    ensures Divides(a, n)
  {
    DivMod(b, a);
    DivMod(n, b);
    var x, y: nat := b / a, n / b;
    assert n == a * (x * y);
    DividesMultiple(a, x * y);
  }

  /** A divisor that no smaller one divides n before is prime. */
  lemma LeastIsPrime(f: nat, n: nat)
    requires f >= 2 && Divides(f, n) && NoneUpTo(f - 1, n)
    ensures Prime(f)
  {
    hide Divides;
    forall d | 2 <= d < f ensures !Divides(d, f) {
      if Divides(d, f) { DividesAll(d, f, n); }
    }
  }

  /** A number without a divisor up to its square root is prime. */
  lemma PrimeBySquare(n: nat, s: nat)
    requires n >= 2 && NoneUpTo(s, n) && n < (s + 1) * (s + 1)
    ensures Prime(n)
  {
    hide Divides;
    forall d | 2 <= d < n ensures !Divides(d, n) {
      if Divides(d, n) { SmallerDivisor(d, n, s); }
    }
  }

  /** Of a divisor and its cofactor one does not exceed the square root. */
  lemma SmallerDivisor(d: nat, n: nat, s: nat)
    requires 2 <= d < n && Divides(d, n) && n < (s + 1) * (s + 1)
    ensures exists e :: 2 <= e <= s && Divides(e, n)
  {
    DivMod(n, d);
    var q: nat := n / d;
    assert n == q * d;
    if q <= 1 { MulMono(q, 1, d); }
    DividesMultiple(q, d);
    if d > s {
      if q > s {
        MulMono(s + 1, q, d);
        MulMono(s + 1, d, s + 1);
      }
      assert Divides(q, n);
    }
  }

  // ---------- square roots ----------

  /** isqrt(): the floor of the square root. */
  function Isqrt(n: nat): (s: nat)
    ensures s * s <= n < (s + 1) * (s + 1)
  {
    if n == 0 then 0
    else
      var s := Isqrt(n - 1);
      assert n <= (s + 1) * (s + 1) && (s + 1) * (s + 1) < (s + 2) * (s + 2);
      if (s + 1) * (s + 1) <= n then s + 1 else s
  }

  lemma RootFits(n: nat)
    requires n < WIDE
    ensures Isqrt(n) < HALF
  {
    var s := Isqrt(n);
    if s >= HALF {
      MulMono(HALF, s, s);
      MulMono(HALF, s, HALF);
    }
  }

  /** The product of copies, and what the printed list means. */
  lemma {:induction false} ProductConcat(a: seq<nat>, b: seq<nat>)
    ensures Product(a + b) == Product(a) * Product(b)
    decreases |b|
  {
    if b == [] {
      assert a + b == a;
    } else {
      var c, x := b[..|b| - 1], b[|b| - 1];
      ProductConcat(a, c);
      assert (a + b)[..|a + b| - 1] == a + c;
      assert (Product(a) * Product(c)) * x == Product(a) * (Product(c) * x);
    }
  }

  lemma {:induction false} TimesConcat(a: seq<nat>, b: seq<nat>, k: nat)
    ensures Times(a + b, k) == Times(a, k) + Times(b, k)
    decreases |b|
  {
    hide Copies;
    if b == [] {
      assert a + b == a;
    } else {
      var c, x := b[..|b| - 1], b[|b| - 1];
      TimesConcat(a, c, k);
      assert (a + b)[..|a + b| - 1] == a + c;
      assert (Times(a, k) + Times(c, k)) + Copies(x, k) == Times(a, k) + (Times(c, k) + Copies(x, k));
    }
  }

  /** Every number once: printed with square_count 1, the list itself comes out. */
  lemma OnceEach()
    ensures forall fs: seq<nat> :: Times(fs, 1) == fs
  {
    forall fs: seq<nat> ensures Times(fs, 1) == fs { OnceIsSame(fs); }
  }

  lemma {:induction false} OnceIsSame(fs: seq<nat>)
    ensures Times(fs, 1) == fs
  {
    if fs != [] {
      OnceIsSame(fs[..|fs| - 1]);
      assert Copies(fs[|fs| - 1], 1) == [fs[|fs| - 1]];
    }
  }

  lemma OneTimes(x: nat, k: nat)
    ensures Times([x], k) == Copies(x, k)
  {
    assert [x][..0] == [];
    assert Times([], k) == [];
    assert [] + Copies(x, k) == Copies(x, k);
  }

  lemma {:induction false} TimesCopies(x: nat, m: nat, k: nat)
    ensures Times(Copies(x, m), k) == Copies(x, m * k)
    decreases m
  {
    if m == 0 {
      assert Copies(x, 0) == [];
      assert Copies(x, m * k) == [];
    } else {
      TimesCopies(x, m - 1, k);
      assert Copies(x, m)[..m - 1] == Copies(x, m - 1);
      assert m * k == (m - 1) * k + k;
      assert Copies(x, (m - 1) * k) + Copies(x, k) == Copies(x, m * k);
    }
  }

  /** Doubling the count is repeating twice. */
  lemma {:induction false} TimesTimes(fs: seq<nat>, m: nat, k: nat)
    ensures Times(Times(fs, m), k) == Times(fs, m * k)
    decreases |fs|
  {
    hide Copies;
    if fs != [] {
      var c, x := fs[..|fs| - 1], fs[|fs| - 1];
      TimesTimes(c, m, k);
      TimesConcat(Times(c, m), Copies(x, m), k);
      TimesCopies(x, m, k);
    }
  }

  lemma {:induction false} TimesMembers(fs: seq<nat>, k: nat)
    ensures forall x :: x in Times(fs, k) ==> x in fs
    decreases |fs|
  {
    if fs != [] { TimesMembers(fs[..|fs| - 1], k); }
  }

  lemma {:induction false} TwiceProduct(fs: seq<nat>)
    ensures Product(Times(fs, 2)) == Product(fs) * Product(fs)
    decreases |fs|
  {
    if fs != [] {
      var c, x := fs[..|fs| - 1], fs[|fs| - 1];
      TwiceProduct(c);
      assert Copies(x, 2) == [x] + [x];
      ProductConcat(Times(c, 2), Copies(x, 2));
      ProductConcat([x], [x]);
      assert [x][..0] == [] && Product([x]) == x;
      Square(Product(c), x);
    }
  }

  lemma Square(a: nat, x: nat)
    ensures (a * a) * (x * x) == (a * x) * (a * x)
  {
    assert (a * a) * (x * x) == a * (a * (x * x)) == a * ((a * x) * x) == (a * x) * (a * x);
  }

  lemma {:induction false} TwiceAscends(fs: seq<nat>)
    requires Ascending(fs)
    ensures Ascending(Times(fs, 2))
    decreases |fs|
  {
    if fs != [] {
      var c, x := fs[..|fs| - 1], fs[|fs| - 1];
      TwiceAscends(c);
      TimesMembers(c, 2);
      AscendingConcat(Times(c, 2), Copies(x, 2));
    }
  }

  lemma AscendingConcat(a: seq<nat>, b: seq<nat>)
    requires Ascending(a) && Ascending(b) && forall x, y :: x in a && y in b ==> x <= y
    ensures Ascending(a + b)
  {
    var c := a + b;
    forall i, j | 0 <= i <= j < |c| ensures c[i] <= c[j] {
      if i < |a| <= j { assert a[i] in a && b[j - |a|] in b; }
    }
  }

  /** The square shortcut: the factors of the root, each printed twice. */
  lemma SquareFactors(fs: seq<nat>, s: nat)
    requires Factors(fs, s)
    ensures Factors(Times(fs, 2), s * s)
  {
    hide Prime;
    TwiceProduct(fs);
    TwiceAscends(fs);
    TimesMembers(fs, 2);
    var l := Times(fs, 2);
    forall i | 0 <= i < |l| ensures Prime(l[i]) { assert l[i] in l; }
  }

  lemma {:induction false} FactorDivides(fs: seq<nat>, i: nat)
    requires i < |fs| && fs[i] > 0
    ensures Divides(fs[i], Product(fs))
    decreases |fs|
  {
    var c, x := fs[..|fs| - 1], fs[|fs| - 1];
    if i == |fs| - 1 {
      assert Product(c) * x == x * Product(c);
      DividesMultiple(x, Product(c));
    } else {
      FactorDivides(c, i);
      DivMod(Product(c), fs[i]);
      var q: nat := Product(c) / fs[i];
      assert Product(c) * x == fs[i] * (q * x);
      DividesMultiple(fs[i], q * x);
    }
  }

  /** The factors found so far, followed by those of the rest. */
  lemma JoinFactors(done: seq<nat>, rest: seq<nat>, n: nat, m: nat, f: nat)
    requires Product(done) * m == n && Ascending(done) && Factors(rest, m)
    requires forall i :: 0 <= i < |done| ==> Prime(done[i]) && done[i] <= f
    requires f >= 2 && NoneUpTo(f - 1, m)
    ensures Factors(done + rest, n)
  {
    hide Prime, Divides;
    ProductConcat(done, rest);
    forall i | 0 <= i < |rest| ensures rest[i] >= f {
      PrimeSize(rest[i]);
      FactorDivides(rest, i);
    }
    forall x, y | x in done && y in rest ensures x <= y {
      var i :| 0 <= i < |done| && done[i] == x;
      var j :| 0 <= j < |rest| && rest[j] == y;
    }
    AscendingConcat(done, rest);
  }

  lemma PrimeSize(p: nat)
    requires Prime(p)
    ensures p >= 2
  {}

  // ---------- the count of repetitions ----------

  function Power(n: nat, k: nat): nat { if k == 0 then 1 else Power(n, k - 1) * n }

  lemma {:induction false} PowerMono(m: nat, n: nat, k: nat)
    requires m <= n
    ensures Power(m, k) <= Power(n, k)
  {
    if k > 0 {
      PowerMono(m, n, k - 1);
      MulMono(Power(m, k - 1), Power(n, k - 1), m);
      MulMono(m, n, Power(n, k - 1));
      assert Power(n, k - 1) * m == m * Power(n, k - 1) && Power(n, k - 1) * n == n * Power(n, k - 1);
    }
  }

  lemma {:induction false} PowerOfSquare(s: nat, k: nat)
    ensures Power(s * s, k) == Power(s, 2 * k)
  {
    if k > 0 {
      PowerOfSquare(s, k - 1);
      assert Power(s, 2 * k) == Power(s, 2 * k - 1) * s && Power(s, 2 * k - 1) == Power(s, 2 * (k - 1)) * s;
      assert (Power(s, 2 * (k - 1)) * s) * s == Power(s, 2 * (k - 1)) * (s * s);
    }
  }

  lemma {:induction false} TwoPower(k: nat)
    ensures Power(2, k) == Pow2(k)
  {
    if k > 0 { TwoPower(k - 1); }
  }

  /** A number of which the k-th power fits 64 bits is repeated at most 63 times. */
  lemma CountSmall(n: nat, k: nat)
    requires n >= 2 && Power(n, k) < WIDE
    ensures k < 64
  {
    hide Power, Pow2;
    PowerMono(2, n, k);
    TwoPower(k);
    Pow2Add(32, 32);
    Pow2Table();
    if k >= 64 { Pow2Mono(64, k); }
  }

  /** What the 64-bit range leaves to the count of repetitions. */
  predicate Small(n: nat, count: nat) {
    1 <= count && if n >= 2 then Power(n, count) < WIDE else count < 64
  }

  lemma SmallCount(n: nat, count: nat)
    requires n >= 1 && Small(n, count)
    ensures 1 <= count < 64
  {
    if n >= 2 { CountSmall(n, count); }
  }

  lemma SmallRoot(s: nat, count: nat)
    requires s >= 2 && Small(s * s, count)
    ensures Small(s, 2 * count) && s < s * s
  {
    PowerOfSquare(s, count);
    MulMono(2, s, s);
  }

  lemma SmallQuotient(n: nat, m: nat, count: nat)
    requires 1 <= m <= n && Small(n, count)
    ensures Small(m, count)
  {
    PowerMono(m, n, count);
    SmallCount(n, count);
  }

  // ---------- the program ----------

  /** The largest odd trial divisor that may be needed: the root, or one less if it is even. */
  function OddRoot(n: nat): nat {
    var s := Isqrt(n);
    if s % 2 == 0 then (if s == 0 then 0 else s - 1) else s
  }

  predicate IsSquare(n: nat) { Isqrt(n) * Isqrt(n) == n }

  class Factorizer {
    const wheelTab: array<nat>
    var squareCount: nat  // an 8-bit variable
    var out: seq<nat>     // the numbers printed

    ghost predicate Valid()
      reads this, wheelTab
    {
      wheelTab.Length == WHEEL_SIZE && forall w :: 0 <= w < WHEEL_SIZE ==> wheelTab[w] == Tab(w)
    }

    constructor ()
      ensures Valid() && squareCount == 1 && out == []
    {
      var tab := UnpackWheel();
      wheelTab := tab;
      squareCount := 1;
      out := [];
    }

    /** print_w */
    method PrintW(n: nat)
      requires squareCount >= 1
      modifies this`out
      ensures out == old(out) + Copies(n, squareCount)
    {
      var rep := squareCount;
      ghost var k := 0;
      assert Copies(n, 0) == [];
      while rep != 0
        invariant rep + k == squareCount && out == old(out) + Copies(n, k)
      {
        out := out + [n];
        rep, k := rep - 1, k + 1;
        assert Copies(n, k) == Copies(n, k - 1) + [n];
      }
    }

    /** isqrt_odd: the bound for trial division, or 0 if n is a square, which then has been
        factored. */
    method IsqrtOdd(n: nat) returns (r: nat, ghost fs: seq<nat>)
      requires Valid() && 1 <= n < WIDE && Small(n, squareCount)
      modifies this`squareCount, this`out
      ensures r == 0 <==> IsSquare(n)
      ensures r == 0 ==> Factors(fs, n) && out == old(out) + Times(fs, old(squareCount))
      ensures r != 0 ==> r == OddRoot(n) && out == old(out) && squareCount == old(squareCount)
      decreases n, 0
    {
      hide Power, Prime, Times, Product, Isqrt, Tab;
      var s := Isqrt(n);
      fs := [];
      SmallCount(n, squareCount);
      RootPositive(n);
      if s * s == n {
        ghost var count := squareCount;
        if s >= 2 { SmallRoot(s, squareCount); }
        squareCount := squareCount * 2 % 0x100;
        fs := Factorize(s);
        SquareFactors(fs, s);
        TimesTimes(fs, 2, count);
        fs := Times(fs, 2);
        return 0, fs;
      }
      SubtractFromEven(s);
      r := Or(s - 1, 1);
    }

    /** What is known in the loop of factorize: done are the factors of n0 already found,
        n is what is left, and no number below factor divides it. */
    ghost predicate Dividing(n0: nat, n: nat, factor: nat, done: seq<nat>, out0: seq<nat>, count: nat)
      reads this
    {
      && 1 <= n <= n0 && Small(n, squareCount) && squareCount == count && 2 <= factor < HALF
      && Product(done) * n == n0 && Ascending(done)
      && (forall i :: 0 <= i < |done| ==> Prime(done[i]) && done[i] <= factor)
      && NoneUpTo(factor - 1, n) && out == out0 + Times(done, count)
    }

    /** One more factor: the divisor found is prime. */
    method FoundFactor(n0: nat, n: nat, factor: nat, ghost done: seq<nat>, ghost out0: seq<nat>, ghost count: nat)
        returns (m: nat, ghost done': seq<nat>)
      requires Valid() && n0 < WIDE && Dividing(n0, n, factor, done, out0, count) && n % factor == 0
      modifies this`out
      ensures m == n / factor < n && Dividing(n0, m, factor, done', out0, count)
    {
      hide Power, Prime, Times, Product, Tab, Small, Ascending, NoneUpTo;
      QuotientFacts(n, factor);
      SmallCount(n, squareCount);
      m := n / factor;
      PrintW(factor);
      LeastIsPrime(factor, n);
      OneTimes(factor, count);
      TimesConcat(done, [factor], count);
      SmallQuotient(n, m, count);
      MoreProduct(done, factor, m, n);
      MoreAscending(done, factor);
      FewerDivisors(factor - 1, m, n);
      done' := done + [factor];
      assert out0 + Times(done, count) + Copies(factor, count) == out0 + (Times(done, count) + Copies(factor, count));
    }

    /** The divisor is taken out as often as it divides; fin says that the rest was a square. */
    method TakeOut(n0: nat, n: nat, factor: nat, max: nat, ghost done: seq<nat>, ghost out0: seq<nat>, ghost count: nat)
        returns (m: nat, maxFactor: nat, fin: bool, ghost done': seq<nat>)
      requires Valid() && 4 <= n0 < WIDE && Dividing(n0, n, factor, done, out0, count)
      requires !IsSquare(n) && max == OddRoot(n)
      modifies this`squareCount, this`out
      ensures fin ==> Factors(done', n0) && out == out0 + Times(done', count)
      ensures !fin ==> Dividing(n0, m, factor, done', out0, count) && !Divides(factor, m)
                       && !IsSquare(m) && maxFactor == OddRoot(m)
      decreases n0, 0, n
    {
      hide Power, Prime, Times, Product, Tab, Small, Ascending, NoneUpTo, OddRoot, IsSquare;
      m, maxFactor, fin, done' := n, max, false, done;
      while m % factor == 0
        invariant !fin && m <= n && Dividing(n0, m, factor, done', out0, count)
        invariant !IsSquare(m) && maxFactor == OddRoot(m)
        decreases m
      {
        m, done' := FoundFactor(n0, m, factor, done', out0, count);
        ghost var rest;
        ghost var out1 := out;
        maxFactor, rest := IsqrtOdd(m);
        if maxFactor == 0 {
          JoinFactors(done', rest, n0, m, factor);
          TimesConcat(done', rest, count);
          assert out0 + Times(done', count) + Times(rest, count) == out0 + (Times(done', count) + Times(rest, count));
          done', fin := done' + rest, true;
          return;
        }
      }
    }

    /** The next divisor of the wheel, if it fits 32 bits; otherwise what is left is prime. */
    method NextFactor(factor0: nat, w0: nat, ghost t0: nat, ghost m: nat, ghost n: nat)
        returns (last: bool, factor: nat, w: nat, ghost t: nat)
      requires Valid() && 2 <= factor0 < HALF && AtPlace(factor0, w0, t0) && NoneUpTo(factor0, m)
      requires 1 <= m <= n < WIDE && !IsSquare(m)
      ensures last ==> Prime(m)
      ensures !last ==> factor0 < factor < HALF && AtPlace(factor, w, t) && NoneUpTo(factor - 1, m)
    {
      hide Tab, NoneUpTo, IsSquare, Prime;
      factor, w, t := factor0, w0, t0;
      Advances(factor, w, t);
      var fw := (factor + wheelTab[w]) % HALF;
      if fw < factor {
        NoRoomLeft(factor, w, t, m, n);
        return true, factor, w, t;  // overflow
      }
      NextDivisor(factor, w, t, m, fw);
      last, factor, t := false, fw, NextTurn(w, t);
      w := w + 1;
      if w < WHEEL_SIZE { return; }
      w := WHEEL_START;
    }

    lemma StillDividing(n0: nat, n: nat, factor: nat, next: nat, done: seq<nat>, out0: seq<nat>, count: nat)
      requires Dividing(n0, n, factor, done, out0, count) && factor <= next < HALF && NoneUpTo(next - 1, n)
      ensures Dividing(n0, n, next, done, out0, count)
    {
      hide Power, Prime, Product, Small, Ascending, NoneUpTo, Times;
    }

    /** factorize: the complete factorization, each factor as often as squareCount says. */
    method Factorize(n: nat) returns (ghost fs: seq<nat>)
      requires Valid() && n < WIDE && 1 <= squareCount < 0x100 && (n >= 2 ==> Small(n, squareCount))
      modifies this`squareCount, this`out
      ensures n >= 1 ==> Factors(fs, n)
      ensures out == old(out) + Times(fs, old(squareCount))
      ensures old(squareCount) == 1 ==> out == old(out) + fs
      decreases if n < 4 then 0 else n, 1
    {
      hide Power, Prime, Times, Product, Tab, Small, Ascending, NoneUpTo, OddRoot, IsSquare, Factors, Pos;
      NoFactors(squareCount);
      ghost var count := squareCount;
      OnceEach();
      if n < 4 {
        if n > 1 { PrintW(n); }
        SmallPrimes(n, count);
        fs := if n > 1 then [n] else [];
        return;
      }
      var maxFactor;
      maxFactor, fs := IsqrtOdd(n);
      if maxFactor == 0 { return; }
      var m, factor: nat, w: nat := n, 2, 0;
      ghost var t, done: seq<nat>, out0 := 0, [], old(out);
      NothingDone(n, count);
      while true
        invariant Dividing(n, m, factor, done, out0, count) && AtPlace(factor, w, t)
        invariant !IsSquare(m) && maxFactor == OddRoot(m)
        decreases HALF - factor
      {
        var fin;
        m, maxFactor, fin, done := TakeOut(n, m, factor, maxFactor, done, out0, count);
        if fin {
          fs := done;
          return;
        }
        AlsoNot(factor, m);
        if factor >= maxFactor {
          PastTheRoot(factor, m);
          break;
        }
        var last, next;
        last, next, w, t := NextFactor(factor, w, t, m, n);
        if last { break; }
        StillDividing(n, m, factor, next, done, out0, count);
        factor := next;
      }
      SmallCount(m, squareCount);
      if m > 1 { PrintW(m); }
      LastPrime(done, m, n, factor, out0, count);
      fs := done + [m];
    }
  }

  lemma RootPositive(n: nat)
    requires n >= 1
    ensures Isqrt(n) >= 1
  {}

  /** (s - 1) | 1 */
  lemma SubtractFromEven(s: nat)
    requires s >= 1
    ensures Or(s - 1, 1) == (if s % 2 == 0 then s - 1 else s) >= 1
  {
    hide Or;
    OrStep(s - 1, 1);
    OrNothing((s - 1) / 2);
  }

  lemma QuotientFacts(n: nat, f: nat)
    requires f >= 2 && n >= 1 && n % f == 0
    ensures 1 <= n / f < n && n == n / f * f && Divides(f, n) && Divides(n / f, n)
  {
    DivMod(n, f);
    var q: nat := n / f;
    MulMono(2, f, q);
    DividesMultiple(q, f);
  }

  lemma MoreProduct(done: seq<nat>, f: nat, m: nat, n: nat)
    requires n == m * f
    ensures Product(done + [f]) * m == Product(done) * n
  {
    assert (done + [f])[..|done|] == done;
    var p := Product(done);
    assert (p * f) * m == p * (m * f);
  }

  lemma MoreAscending(done: seq<nat>, f: nat)
    requires Ascending(done) && forall i :: 0 <= i < |done| ==> done[i] <= f
    ensures Ascending(done + [f])
  {}

  lemma FewerDivisors(f: nat, m: nat, n: nat)
    requires NoneUpTo(f, n) && Divides(m, n)
    ensures NoneUpTo(f, m)
  {
    hide Divides;
    forall d | 2 <= d <= f ensures !Divides(d, m) {
      if Divides(d, m) { DividesAll(d, m, n); }
    }
  }

  lemma NoFactors(count: nat)
    ensures Times([], count) == []
  {}

  lemma SmallPrimes(n: nat, count: nat)
    requires n < 4
    ensures n > 1 ==> Factors([n], n) && Times([n], count) == Copies(n, count)
    ensures n == 1 ==> Factors([], n)
  {
    OneTimes(n, count);
    assert [n][..0] == [];
    assert Product([n]) == n;
  }

  lemma NothingDone(n: nat, count: nat)
    ensures Product([]) * n == n && Ascending([]) && NoneUpTo(1, n) && Times([], count) == []
  {}

  lemma AlsoNot(factor: nat, m: nat)
    requires factor >= 1 && NoneUpTo(factor - 1, m) && !Divides(factor, m)
    ensures NoneUpTo(factor, m)
  {
    hide Divides;
  }

  lemma RootOfOne()
    ensures IsSquare(1)
  {}

  lemma RootAtLeast(m: nat)
    requires m >= 1 && !IsSquare(m)
    ensures m >= 2
  {
    RootOfOne();
  }

  /** The bound is sound: with no divisor up to it, what is left is prime. */
  lemma PastTheRoot(factor: nat, m: nat)
    requires factor >= 2 && NoneUpTo(factor, m) && factor >= OddRoot(m) && m >= 1 && !IsSquare(m)
    ensures Prime(m)
  {
    hide Divides, Prime;
    var s := Isqrt(m);
    RootAtLeast(m);
    forall d | 2 <= d <= s ensures !Divides(d, m) {
      if d > factor {
        assert d == s && s % 2 == 0;
        EvenDivides(d);
        if Divides(d, m) { DividesAll(2, d, m); }
      }
    }
    PrimeBySquare(m, s);
  }

  lemma EvenDivides(d: nat)
    requires d % 2 == 0
    ensures Divides(2, d)
  {}

  /** The divisors the wheel passes over need not be tried. */
  lemma NotPassedOver(factor: nat, w: nat, t: nat, m: nat, d: nat)
    requires AtPlace(factor, w, t) && NoneUpTo(factor, m) && factor < d < factor + Tab(w)
    ensures !Divides(d, m)
  {
    hide Tab, AtPlace, Divides;
    PassedOver(factor, w, t, d);
    var p :| 2 <= p <= factor && p < d && d % p == 0;
    IsDivisor(p, d);
    if Divides(d, m) { DividesAll(p, d, m); }
  }

  lemma IsDivisor(p: nat, d: nat)
    requires p > 0 && d % p == 0
    ensures Divides(p, d)
  {}

  lemma NextDivisor(factor: nat, w: nat, t: nat, m: nat, next: nat)
    requires AtPlace(factor, w, t) && NoneUpTo(factor, m) && next == factor + Tab(w) && next > factor
    ensures NoneUpTo(next - 1, m)
  {
    hide Tab, AtPlace, Divides;
    forall d | 2 <= d <= next - 1 ensures !Divides(d, m) {
      if d > factor { NotPassedOver(factor, w, t, m, d); }
    }
  }

  /** When the next divisor does not fit 32 bits none is left below the root. */
  lemma NoRoomLeft(factor: nat, w: nat, t: nat, m: nat, n: nat)
    requires w < WHEEL_SIZE && AtPlace(factor, w, t) && NoneUpTo(factor, m) && factor < HALF && factor + Tab(w) >= HALF
    requires 1 <= m <= n < WIDE && !IsSquare(m)
    ensures Prime(m)
  {
    hide Tab, AtPlace, Prime, Divides;
    Advances(factor, w, t);
    NextDivisor(factor, w, t, m, factor + Tab(w));
    RootFits(m);
    RootAtLeast(m);
    PrimeBySquare(m, Isqrt(m));
  }

  lemma SingleFactor(m: nat)
    requires Prime(m)
    ensures m > 1 && Factors([m], m)
  {
    hide Prime;
    PrimeSize(m);
    assert [m][..0] == [];
    assert Product([m]) == m;
  }

  /** The last factor is what is left. */
  lemma LastPrime(done: seq<nat>, m: nat, n: nat, factor: nat, out0: seq<nat>, count: nat)
    requires Product(done) * m == n && Ascending(done) && Prime(m) && NoneUpTo(factor, m) && factor >= 2
    requires forall i :: 0 <= i < |done| ==> Prime(done[i]) && done[i] <= factor
    ensures m > 1 && Factors(done + [m], n)
    ensures out0 + Times(done, count) + Copies(m, count) == out0 + Times(done + [m], count)
  {
    hide Prime, Divides, Times, Product, Ascending, Factors, Copies;
    SingleFactor(m);
    JoinFactors(done, [m], n, m, factor);
    OneTimes(m, count);
    TimesConcat(done, [m], count);
    assert out0 + Times(done, count) + Copies(m, count) == out0 + (Times(done, count) + Copies(m, count));
  }
}
