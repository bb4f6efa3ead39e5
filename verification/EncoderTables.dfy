/** The constant tables of gzip.c, and the tables of RFC 1951 in closed form: the lists of
    the encoder and of the decoder are the ones that the formulas give. */
module EncoderTables {
  import opened Bits
  import opened RunLength
  import opened Inflater

  const EXTRA_LBITS: seq<nat> := [
    0, 0, 0, 0, 0, 0, 0, 0, 1, 1, 1, 1, 2, 2, 2, 2, 3, 3, 3, 3, 4, 4, 4, 4, 5, 5, 5, 5, 0]
  const EXTRA_DBITS: seq<nat> := [
    0, 0, 0, 0, 1, 1, 2, 2, 3, 3, 4, 4, 5, 5, 6, 6, 7, 7, 8, 8, 9, 9, 10, 10, 11, 11, 12, 12, 13, 13]
  const EXTRA_BLBITS: seq<nat> := [0, 0, 0, 0, 0, 0, 0, 0, 0, 0, 0, 0, 0, 0, 0, 0, 2, 3, 7]
  const BL_ORDER: seq<nat> := [16, 17, 18, 0, 8, 7, 9, 6, 10, 5, 11, 4, 12, 3, 13, 2, 14, 1, 15]

  /** extra_lbits, extra_dbits and extra_blbits are the widths that the decoder reads. */
  lemma ExtraBitsAgree()
    ensures |EXTRA_LBITS| == 29 && |EXTRA_DBITS| == 30 && |EXTRA_BLBITS| == 19
    ensures forall c :: 0 <= c < 29 ==> EXTRA_LBITS[c] == LengthExtra(c)
    ensures forall c :: 0 <= c < 30 ==> EXTRA_DBITS[c] == DistExtra(c)
    ensures forall c :: 0 <= c < 19 ==> EXTRA_BLBITS[c] == ExtraWidth(c)
  {}

  /** bl_order is the order in which the decoder reads the code-length code lengths. */
  lemma OrderAgrees()
    ensures |BL_ORDER| == 19 && forall i :: 0 <= i < 19 ==> BL_ORDER[i] == Order(i)
  {}

  // ---------- closed forms ----------

  lemma OrderIs(i: nat)
    requires i < 19
    ensures Order(i) == if i < 3 then 16 + i else if i == 3 then 0 else if i % 2 == 0 then 6 + i / 2 else (19 - i) / 2
  {}

  lemma LengthExtraIs(c: nat)
    requires c < 29
    ensures LengthExtra(c) == if c < 4 || c == 28 then 0 else (c - 4) / 4
  {}

  lemma DistExtraIs(c: nat)
    requires c < 30
    ensures DistExtra(c) == if c < 2 then 0 else (c - 2) / 2
  {}

  /** The first length of every length code; the last code stands for length 258 alone. */
  lemma LengthBaseIs(c: nat)
    requires c < 29
    ensures LengthBase(c) == if c < 4 then 3 + c else if c == 28 then 258 else 3 + (4 + c % 4) * Pow2((c - 4) / 4)
  {
    hide Pow2;
    SmallPowers();
  }

  lemma DistBaseIs(c: nat)
    requires c < 30
    ensures DistBase(c) == if c < 2 then 1 + c else 1 + (2 + c % 2) * Pow2((c - 2) / 2)
  {
    hide Pow2;
    SmallPowers();
  }

  lemma FixedLitIs(n: nat)
    requires n < 288
    ensures FixedLit()[n] ==
      if 144 <= n <= 255 then 9 else if 256 <= n <= 279 then 7 else 8
  {}

  lemma FixedDistIs(n: nat)
    requires n < 32
    ensures FixedDist()[n] == 5
  {}

  /** What a code-length symbol with its extra bits adds to the lengths read so far: itself
      once, 3 to 6 copies of the last length, 3 to 10 zeros, or 11 to 138 zeros. */
  lemma ApplyIs(sym: nat, x: nat, acc: seq<nat>)
    requires sym <= 18 && (sym == 16 ==> acc != [])
    requires x < (if sym < 16 then 1 else if sym == 16 then 4 else if sym == 17 then 8 else 128)
    ensures ExtraWidth(sym) == if sym < 16 then 0 else if sym == 16 then 2 else if sym == 17 then 3 else 7
    ensures ItemOk(Item(sym, x))
    ensures Apply(Item(sym, x), acc) == acc +
      (if sym < 16 then [sym]
       else if sym == 16 then seq(3 + x, _ => acc[|acc| - 1])
       else if sym == 17 then seq(3 + x, _ => 0)
       else seq(11 + x, _ => 0))
  {}
}
