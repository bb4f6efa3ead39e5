/** Double hashing as dpkg.c does it: make_hash() and the walk of probe_address through a
    table whose size is prime. */
module Probing {
  import opened Bits
  import opened Factor
  import opened CStrings
  import opened Versions

  const NAME_PRIME := 16381
  const PACKAGE_PRIME := 10007
  const STATUS_PRIME := 8191

  // ---------- the table sizes are primes ----------

  /** How many numbers from 2 to k + 1 divide n. */
  function Divisors(n: nat, k: nat): nat {
    if k == 0 then 0 else Divisors(n, k - 1) + (if n % (k + 1) == 0 then 1 else 0)
  }

  lemma {:induction false} NoDivisors(n: nat, k: nat)
    requires Divisors(n, k) == 0
    ensures NoneUpTo(k + 1, n)
  {
    if k > 0 { NoDivisors(n, k - 1); }
  }

  // Literal calls are unfolded only some ten deep.
  lemma NameTrials()
    ensures Divisors(16381, 126) == 0
  {
    NameTrialsBegin();
    assert Divisors(16381, 70) == 0; assert Divisors(16381, 80) == 0; assert Divisors(16381, 90) == 0;
    assert Divisors(16381, 100) == 0; assert Divisors(16381, 110) == 0; assert Divisors(16381, 120) == 0;
  }

  lemma NameTrialsBegin()
    ensures Divisors(16381, 60) == 0
  {
    assert Divisors(16381, 10) == 0; assert Divisors(16381, 20) == 0; assert Divisors(16381, 30) == 0;
    assert Divisors(16381, 40) == 0; assert Divisors(16381, 50) == 0;
  }

  lemma PackageTrials()
    ensures Divisors(10007, 99) == 0
  {
    PackageTrialsBegin();
    assert Divisors(10007, 70) == 0; assert Divisors(10007, 80) == 0; assert Divisors(10007, 90) == 0;
  }

  lemma PackageTrialsBegin()
    ensures Divisors(10007, 60) == 0
  {
    assert Divisors(10007, 10) == 0; assert Divisors(10007, 20) == 0; assert Divisors(10007, 30) == 0;
    assert Divisors(10007, 40) == 0; assert Divisors(10007, 50) == 0;
  }

  lemma StatusTrials()
    ensures Divisors(8191, 89) == 0
  {
    StatusTrialsBegin();
    assert Divisors(8191, 70) == 0; assert Divisors(8191, 80) == 0;
  }

  lemma StatusTrialsBegin()
    ensures Divisors(8191, 60) == 0
  {
    assert Divisors(8191, 10) == 0; assert Divisors(8191, 20) == 0; assert Divisors(8191, 30) == 0;
    assert Divisors(8191, 40) == 0; assert Divisors(8191, 50) == 0;
  }

  lemma SizesArePrime()
    ensures Prime(NAME_PRIME) && Prime(PACKAGE_PRIME) && Prime(STATUS_PRIME)
  {
    hide Prime, Divisors;
    NameTrials();
    PackageTrials();
    StatusTrials();
    NoDivisors(16381, 126);
    NoDivisors(10007, 99);
    NoDivisors(8191, 89);
    PrimeBySquare(16381, 127);
    PrimeBySquare(10007, 100);
    PrimeBySquare(8191, 90);
  }

  // ---------- the walk visits every slot ----------

  datatype Probe = Probe(start: nat, decrement: nat)

  /** The k-th address that the walk visits. */
  function Slot(h: Probe, k: nat, p: nat): (q: nat)
    requires p > 0
    ensures q < p
  {
    (h.start - k * h.decrement) % p
  }

  predicate Walks(h: Probe, p: nat) {
    h.start < p && 0 < h.decrement < p
  }

  /** A number below a prime has an inverse modulo that prime: a * x is 1 + p * z. */
  lemma {:induction false} Inverse(a: nat, p: nat) returns (x: int, z: int)
    requires Prime(p) && 0 < a < p
    ensures a * x == 1 + p * z
    decreases a
  {
    if a == 1 {
      return 1, 0;
    }
    assert !Divides(a, p);
    DivMod(p, a);
    var q, r: nat := p / a, p % a;
    var y, m := Inverse(r, p);
    x, z := -q * y, m - y;
    calc {
      a * x;
    ==
      -(a * q) * y;
    ==
      (r - p) * y;
    ==
      r * y - p * y;
    ==
      1 + p * m - p * y;
    ==
      1 + p * z;
    }
  }

  /** The walk meets every slot of the table within p steps. */
  lemma Reaches(h: Probe, p: nat, q: nat) returns (k: nat)
    requires Prime(p) && Walks(h, p) && q < p
    ensures k < p && Slot(h, k, p) == q
  {
    var x, z := Inverse(h.decrement, p);
    var d := h.start - q;
    k := (d * x) % p;
    var t := (d * x) / p;
    calc {
      h.start - k * h.decrement;
    ==  { assert k == d * x - p * t; }
      h.start - (d * x - p * t) * h.decrement;
    ==
      h.start - d * (h.decrement * x) + p * (t * h.decrement);
    ==
      h.start - d * (1 + p * z) + p * (t * h.decrement);
    ==  { Distribute(d, p, z, t * h.decrement); }
      q + p * (t * h.decrement - d * z);
    }
    DivUnique(h.start - k * h.decrement, p, t * h.decrement - d * z, q);
  }

  lemma Distribute(d: int, p: int, z: int, w: int)
    ensures d * (1 + p * z) - p * w == d + p * (d * z - w)
  {
    assert d * (p * z) == p * (d * z);
  }

  /** One step of the walk in 32-bit arithmetic: subtract, and add the size of the table
      when the sign bit shows. */
  lemma OneStep(h: Probe, k: nat, p: nat)
    requires Walks(h, p) && p < 0x8000_0000
    ensures Slot(h, k + 1, p) ==
      var a := (Slot(h, k, p) - h.decrement) % 0x1_0000_0000;
      if a >= 0x8000_0000 then (a + p) % 0x1_0000_0000 else a
  {
    assert (k + 1) * h.decrement == k * h.decrement + h.decrement;
    LessModulo(h.start - k * h.decrement, h.decrement, p);
    Wraps(Slot(h, k, p), h.decrement, p);
  }

  lemma Wraps(q: nat, d: nat, p: nat)
    requires q < p < 0x8000_0000 && 0 < d < p
    ensures var a := (q - d) % 0x1_0000_0000;
      (if a >= 0x8000_0000 then (a + p) % 0x1_0000_0000 else a) == if q >= d then q - d else q - d + p
  {}

  lemma LessModulo(v: int, d: nat, p: nat)
    requires 0 < d < p
    ensures (v - d) % p == if v % p >= d then v % p - d else v % p - d + p
  {
    var n, q := v / p, v % p;
    assert v == n * p + q;
    if q >= d {
      DivUnique(v - d, p, n, q - d);
    } else {
      assert (n - 1) * p == n * p - p;
      DivUnique(v - d, p, n - 1, q - d + p);
    }
  }

  // ---------- make_hash() ----------

  /** A key that make_hash() takes without overflow: a C string of ASCII characters. */
  predicate Ascii(key: Text) {
    forall i :: 0 <= i < |key| ==> 0 < key[i] < 128
  }

  /** What character i adds. */
  function Mixed(key: Text, i: nat): (r: nat)
    requires 0 < i < |key|
  {
    (key[i] + key[i - 1]) * Pow2((key[i] * i) % 24)
  }

  /** The shifted sum stays within a 32-bit int. */
  lemma MixedFits(key: Text, i: nat)
    requires 0 < i < |key| && Ascii(key)
    ensures Mixed(key, i) < 0x8000_0000
  {
    var s := (key[i] * i) % 24;
    Pow2Mono(s, 23);
    Pow2Table();
    Pow2Add(8, 15);
    MulMono(key[i] + key[i - 1], 254, Pow2(s));
    MulMono(Pow2(s), Pow2(23), 254);
  }

  /** hash_num after the first i characters, in an unsigned long of 64 bits. */
  function HashNum(key: Text, i: nat): nat
    requires i <= |key|
  {
    if i == 0 then 0
    else if i == 1 then key[0]
    else (HashNum(key, i - 1) + Mixed(key, i - 1)) % 0x1_0000_0000_0000_0000
  }

  /** Where the walk of a key begins, and by how much it steps. */
  function Home(key: Text, p: nat): (h: Probe)
    requires p > 1
    ensures Walks(h, p)
  {
    var n := HashNum(key, |key|);
    Probe(n % 0x1_0000_0000 % p, 1 + n % (p - 1))
  }

  /** The walks of "ab" and "ba": the second character is shifted by its code modulo 24. */
  lemma HashOfTwo()
    ensures Home(Chars("ab"), 16381) == Probe(877, 878)
    ensures Home(Chars("ba"), 16381) == Probe(488, 489)
  {
    hide HashNum;
    assert Chars("ab") == [97, 98] && Chars("ba") == [98, 97];
    Pow2Table();
    HashOfPair(97, 98);
    HashOfPair(98, 97);
  }

  lemma HashOfPair(a: byte, b: byte)
    requires Ascii([a, b])
    ensures HashNum([a, b], 2) == a + (b + a) * Pow2(b % 24)
  {
    hide Pow2;
    var key := [a, b];
    assert HashNum(key, 1) == a;
    assert key[1] * 1 == b;
    MixedFits(key, 1);
    assert Mixed(key, 1) == (b + a) * Pow2(b % 24);
  }

  method MakeHash(key: Text, p: nat) returns (start: nat, decrement: nat)
    requires p > 1 && Ascii(key)
    ensures Probe(start, decrement) == Home(key, p)
  {
    var hash_num: nat := if |key| > 0 then key[0] else 0;
    var len := |key|;
    var i := 1;
    while i < len
      invariant 1 <= i && (i <= len || len == 0)
      invariant hash_num == HashNum(key, if len == 0 then 0 else i)
    {
      MixedFits(key, i);
      hash_num := (hash_num + Mixed(key, i)) % 0x1_0000_0000_0000_0000;
      i := i + 1;
    }
    start := hash_num % 0x1_0000_0000 % p;
    decrement := 1 + hash_num % (p - 1);
  }

  // ---------- tables ----------

  /** The walk's first k slots are taken. */
  ghost predicate Taken<T>(t: seq<Option<T>>, h: Probe, k: nat, p: nat)
    requires 0 < p <= |t|
  {
    forall j :: 0 <= j < k ==> t[Slot(h, j, p)].Some?
  }

  /** The walk finds slot q before any free slot. */
  ghost predicate Reached<T>(t: seq<Option<T>>, q: nat, h: Probe, p: nat)
    requires 0 < p <= |t|
  {
    exists k :: Slot(h, k, p) == q && Taken(t, h, k, p)
  }

  /** Taken slots keep what they hold. */
  ghost predicate Extends<T>(t: seq<Option<T>>, u: seq<Option<T>>) {
    |t| == |u| && forall q :: 0 <= q < |t| && t[q].Some? ==> u[q] == t[q]
  }

  lemma ReachedStays<T>(t: seq<Option<T>>, u: seq<Option<T>>, q: nat, h: Probe, p: nat)
    requires 0 < p <= |t| == |u|
    requires forall i :: 0 <= i < |t| && t[i].Some? ==> u[i].Some?
    requires Reached(t, q, h, p)
    ensures Reached(u, q, h, p)
  {
    hide Slot;
    var k :| Slot(h, k, p) == q && Taken(t, h, k, p);
    assert Taken(u, h, k, p);
  }

  /** A walk that stops at a free slot has met every slot that it can reach. */
  lemma FreeEndsWalk<T>(t: seq<Option<T>>, q: nat, h: Probe, p: nat, k: nat)
    requires 0 < p <= |t| && Reached(t, q, h, p) && q < p
    requires t[Slot(h, k, p)].None? && t[q].Some?
    ensures exists j :: 0 <= j < k && Slot(h, j, p) == q
  {
    hide Slot;
    var j :| Slot(h, j, p) == q && Taken(t, h, j, p);
  }
}
