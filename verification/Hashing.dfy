/** UPDATE_HASH: the rolling hash of three bytes that heads the chains of deflate. */
module Hashing {
  import opened Bits

  /** The C operator ^ on unsigned numbers. */
  function Xor(a: nat, b: nat): nat
    decreases a + b
  {
    if a == 0 && b == 0 then 0
    else (if a % 2 != b % 2 then 1 else 0) + 2 * Xor(a / 2, b / 2)
  }

  /** Bit i of v. */
  predicate Bit(v: nat, i: nat)
    decreases i
  {
    if i == 0 then v % 2 == 1 else Bit(v / 2, i - 1)
  }

  lemma {:induction false} XorBit(a: nat, b: nat, i: nat)
    ensures Bit(Xor(a, b), i) == (Bit(a, i) != Bit(b, i))
    decreases i
  {
    XorStep(a, b);
    if i > 0 { XorBit(a / 2, b / 2, i - 1); }
  }

  lemma XorStep(a: nat, b: nat)
    ensures Xor(a, b) % 2 == (if a % 2 != b % 2 then 1 else 0) && Xor(a, b) / 2 == Xor(a / 2, b / 2)
  {
    hide Xor;
    XorUnfold(a, b);
    HalfOfSum(if a % 2 != b % 2 then 1 else 0, Xor(a / 2, b / 2));
  }

  lemma XorUnfold(a: nat, b: nat)
    ensures Xor(a, b) == (if a % 2 != b % 2 then 1 else 0) + 2 * Xor(a / 2, b / 2)
  {
    if a == 0 && b == 0 { assert Xor(0, 0) == 0; }
  }

  lemma {:induction false} ShiftBit(a: nat, s: nat, i: nat)
    ensures Bit(a * Pow2(s), i) == (i >= s && Bit(a, i - s))
    decreases s
  {
    if s > 0 {
      var p := a * Pow2(s - 1);
      assert a * Pow2(s) == 2 * p;
      if i > 0 {
        ShiftBit(a, s - 1, i - 1);
        assert 2 * p / 2 == p;
      }
    }
  }

  lemma HalfOfRest(a: nat, n: nat)
    requires n > 0
    ensures a % Pow2(n) / 2 == a / 2 % Pow2(n - 1) && a % Pow2(n) % 2 == a % 2
  {
    var p := Pow2(n - 1);
    DivMod(a, Pow2(n));
    var q, r := a / Pow2(n), a % Pow2(n);
    assert a == 2 * (q * p) + r;
    HalfOfSum(r, q * p);
    assert (r + 2 * (q * p)) / 2 == r / 2 + q * p;
    DivUnique(a / 2, p, q, r / 2);
  }

  lemma {:induction false} RestBit(a: nat, n: nat, i: nat)
    requires i < n
    ensures Bit(a % Pow2(n), i) == Bit(a, i)
    decreases i
  {
    HalfOfRest(a, n);
    if i > 0 { RestBit(a / 2, n - 1, i - 1); }
  }

  lemma {:induction false} SameBits(a: nat, b: nat, n: nat)
    requires a < Pow2(n) && b < Pow2(n) && forall i: nat :: i < n ==> Bit(a, i) == Bit(b, i)
    ensures a == b
  {
    if n > 0 {
      forall i: nat | i < n - 1 ensures Bit(a / 2, i) == Bit(b / 2, i) {
        assert Bit(a, i + 1) == Bit(b, i + 1);
      }
      SameBits(a / 2, b / 2, n - 1);
      assert Bit(a, 0) == Bit(b, 0);
    }
  }

  /** UPDATE_HASH(h, c) with H_SHIFT s and HASH_BITS n. */
  function Update(h: nat, c: nat, s: nat, n: nat): (r: nat)
    ensures r < Pow2(n)
  {
    Xor(h * Pow2(s), c) % Pow2(n)
  }

  function HShift(n: nat): nat { (n + 3 - 1) / 3 }

  lemma UpdateBit(h: nat, c: nat, s: nat, n: nat, i: nat)
    requires i < n
    ensures Bit(Update(h, c, s, n), i) == ((i >= s && Bit(h, i - s)) != Bit(c, i))
  {
    hide Bit, Xor, Pow2;
    RestBit(Xor(h * Pow2(s), c), n, i);
    XorBit(h * Pow2(s), c, i);
    ShiftBit(h, s, i);
  }

  /** The hash of three consecutive bytes. */
  function Hash3(a: nat, b: nat, c: nat, n: nat): (r: nat)
    ensures r < Pow2(n)
  {
    var s := HShift(n);
    Update(Update(Update(0, a, s, n), b, s, n), c, s, n)
  }

  /** Bit i of three updates. */
  lemma ThreeBit(h: nat, a: nat, b: nat, c: nat, n: nat, i: nat)
    requires i < n
    ensures var s := HShift(n);
      Bit(Update(Update(Update(h, a, s, n), b, s, n), c, s, n), i)
      == ((i >= s && ((i >= 2 * s && Bit(a, i - 2 * s)) != Bit(b, i - s))) != Bit(c, i))
  {
    hide Bit, Update, Pow2;
    var s := HShift(n);
    UpdateBit(Update(Update(h, a, s, n), b, s, n), c, s, n, i);
    if i >= s { UpdateBit(Update(h, a, s, n), b, s, n, i - s); }
    if i >= 2 * s { UpdateBit(h, a, s, n, i - 2 * s); }
  }

  /** After three updates nothing of the older bytes is left in the hash. */
  lemma HashForgets(h: nat, a: nat, b: nat, c: nat, n: nat)
    ensures var s := HShift(n); Update(Update(Update(h, a, s, n), b, s, n), c, s, n) == Hash3(a, b, c, n)
  {
    hide Bit, Update, Pow2, HShift;
    var s := HShift(n);
    var x, y := Update(Update(Update(h, a, s, n), b, s, n), c, s, n), Hash3(a, b, c, n);
    forall i: nat | i < n ensures Bit(x, i) == Bit(y, i) {
      ThreeBit(h, a, b, c, n, i);
      ThreeBit(0, a, b, c, n, i);
    }
    SameBits(x, y, n);
  }

  /** Why longest_match need not compare the third byte: equal hashes and equal first two
      bytes leave no choice for it, given at least 8 hash bits. */
  lemma HashTellsThird(a: nat, b: nat, c: nat, d: nat, n: nat)
    requires n >= 8 && c < 256 && d < 256 && Hash3(a, b, c, n) == Hash3(a, b, d, n)
    ensures c == d
  {
    hide Bit, Update, Pow2, Hash3;
    Pow2Table();
    forall i: nat | i < 8 ensures Bit(c, i) == Bit(d, i) {
      HashBit(a, b, c, n, i);
      HashBit(a, b, d, n, i);
    }
    SameBits(c, d, 8);
  }

  lemma HashBit(a: nat, b: nat, c: nat, n: nat, i: nat)
    requires i < n
    ensures var s := HShift(n);
      Bit(Hash3(a, b, c, n), i) == ((i >= s && ((i >= 2 * s && Bit(a, i - 2 * s)) != Bit(b, i - s))) != Bit(c, i))
  {
    hide Bit, Update, Pow2;
    ThreeBit(0, a, b, c, n, i);
  }
}
