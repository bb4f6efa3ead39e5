/** The tables ct_init builds: match lengths and distances to their codes and back. */
module CodeTables {
  import opened Bits
  import opened Inflater
  import opened EncoderTables

  // ---------- the code of a length or distance is determined by its range ----------

  lemma {:induction false} LengthBaseGrows(a: nat, b: nat)
    requires a < b < LENGTH_CODES
    ensures LengthBase(a) < LengthBase(b)
  {
    hide Pow2;
    assert LengthBase(b - 1) < LengthBase(b);
    if a < b - 1 { LengthBaseGrows(a, b - 1); }
  }

  lemma {:induction false} DistBaseGrows(a: nat, b: nat)
    requires a < b < D_CODES
    ensures DistBase(a) < DistBase(b)
  {
    assert DistBase(b - 1) < DistBase(b);
    if a < b - 1 { DistBaseGrows(a, b - 1); }
  }

  lemma {:induction false} LengthCodeFromIs(len: nat, c: nat, top: nat)
    requires c <= top < LENGTH_CODES && LengthBase(c) <= len
    requires forall j :: c < j <= top ==> LengthBase(j) > len
    ensures LengthCodeFrom(len, top) == c
    decreases top
  {
    hide LengthBase;
    if c < top { LengthCodeFromIs(len, c, top - 1); }
  }

  lemma {:induction false} DistCodeFromIs(dist: nat, c: nat, top: nat)
    requires c <= top < D_CODES && DistBase(c) <= dist
    requires forall j :: c < j <= top ==> DistBase(j) > dist
    ensures DistCodeFrom(dist, top) == c
    decreases top
  {
    hide DistBase;
    if c < top { DistCodeFromIs(dist, c, top - 1); }
  }

  lemma LengthCodeIs(len: nat, c: nat)
    requires c < LENGTH_CODES && LengthBase(c) <= len && (c + 1 < LENGTH_CODES ==> len < LengthBase(c + 1))
    ensures LengthCode(len) == c
  {
    hide LengthBase, LengthCodeFrom;
    forall j | c < j < LENGTH_CODES ensures LengthBase(j) > len {
      if c + 1 < j { LengthBaseGrows(c + 1, j); }
    }
    LengthCodeFromIs(len, c, LENGTH_CODES - 1);
  }

  lemma DistCodeIs(dist: nat, c: nat)
    requires c < D_CODES && DistBase(c) <= dist && (c + 1 < D_CODES ==> dist < DistBase(c + 1))
    ensures DistCode(dist) == c
  {
    hide DistBase, DistCodeFrom;
    forall j | c < j < D_CODES ensures DistBase(j) > dist {
      if c + 1 < j { DistBaseGrows(c + 1, j); }
    }
    DistCodeFromIs(dist, c, D_CODES - 1);
  }

  /** Where the codes after c start; the last length code would start at 259 if length 258
      had not got a code of its own. */
  function LengthEnd(c: nat): nat
    requires c <= 28
  {
    if c == 28 then 259 else LengthBase(c)
  }

  function DistEnd(c: nat): nat
    requires c <= D_CODES
  {
    if c == D_CODES then 0x8001 else DistBase(c)
  }

  lemma LengthEndStep(c: nat)
    requires c < 28
    ensures LengthEnd(c + 1) == LengthEnd(c) + Pow2(LengthExtra(c))
  {
    hide Pow2;
    SmallPowers();
  }

  lemma DistEndStep(c: nat)
    requires c < D_CODES
    ensures DistEnd(c + 1) == DistEnd(c) + Pow2(DistExtra(c))
  {
    hide Pow2;
    SmallPowers();
    if c < D_CODES - 1 { DistSteps(c); }
  }

  lemma BigExtra(c: nat)
    requires 16 <= c < D_CODES
    ensures DistExtra(c) >= 7 && Pow2(DistExtra(c)) == 128 * Pow2(DistExtra(c) - 7)
  {
    hide Pow2;
    SmallPowers();
    BigExtraWidth(c);
    Pow2Add(7, DistExtra(c) - 7);
    assert 7 + (DistExtra(c) - 7) == DistExtra(c);
  }

  lemma BigExtraWidth(c: nat)
    requires 16 <= c < D_CODES
    ensures DistExtra(c) >= 7
  {}

  lemma LengthInRange(len: nat, c: nat)
    requires c < 28 && LengthBase(c) <= len < LengthEnd(c + 1) && len != 258
    ensures LengthCode(len) == c
  {
    LengthEndBase(c);
    LengthCodeIs(len, c);
  }

  lemma LengthEndBase(c: nat)
    requires c < 28
    ensures c < 27 ==> LengthEnd(c + 1) == LengthBase(c + 1)
    ensures c == 27 ==> LengthBase(28) == 258 && LengthEnd(28) == 259
  {}

  lemma DistInRange(dist: nat, c: nat)
    requires c < D_CODES && DistBase(c) <= dist < DistEnd(c + 1)
    ensures DistCode(dist) == c
  {
    hide DistBase, DistCode;
    DistCodeIs(dist, c);
  }

  // ---------- the tables ----------

  class Tables {
    const lengthCode: seq<nat>
    const distCode: seq<nat>
    const baseLength: seq<nat>
    const baseDist: seq<nat>

    /** D_CODE(dist) */
    function DCode(dist: nat): nat
      requires |distCode| == 512 && dist < 0x8000
    {
      if dist < 256 then distCode[dist] else distCode[256 + dist / 128]
    }

    /** The tables give every match length and distance its code and base. */
    ghost predicate Valid()
    {
      && |lengthCode| == 256 && |distCode| == 512 && |baseLength| == LENGTH_CODES && |baseDist| == D_CODES
      && (forall lc :: 0 <= lc < 256 ==> lengthCode[lc] == LengthCode(lc + 3))
      && (forall c :: 0 <= c < 28 ==> baseLength[c] == LengthBase(c) - 3) && baseLength[28] == 0
      && (forall d :: 0 <= d < 0x8000 ==> DCode(d) == DistCode(d + 1))
      && (forall c :: 0 <= c < D_CODES ==> baseDist[c] == DistBase(c) - 1)
    }

    constructor ()
      ensures Valid()
    {
      var lc, bl := LengthTables();
      var dc, bd := DistTables();
      lengthCode, distCode, baseLength, baseDist := lc[..], dc[..], bl[..], bd[..];
    }
  }

  method LengthTables() returns (lengthCode: array<nat>, baseLength: array<nat>)
    ensures fresh(lengthCode) && fresh(baseLength) && lengthCode.Length == 256 && baseLength.Length == LENGTH_CODES
    ensures forall lc :: 0 <= lc < 256 ==> lengthCode[lc] == LengthCode(lc + 3)
    ensures forall c :: 0 <= c < 28 ==> baseLength[c] == LengthBase(c) - 3
    ensures baseLength[28] == 0
  {
    hide LengthCode, LengthBase, LengthExtra, LengthEnd, EXTRA_LBITS, Pow2;
    ExtraBitsAgree();
    lengthCode := new nat[256](_ => 0);
    baseLength := new nat[LENGTH_CODES](_ => 0);
    LengthEnds();
    var length, code := 0, 0;
    while code < LENGTH_CODES - 1
      invariant code <= 28 && length + 3 == LengthEnd(code) <= 259
      invariant forall i :: 0 <= i < length && i < 255 ==> lengthCode[i] == LengthCode(i + 3)
      invariant forall c :: 0 <= c < code ==> baseLength[c] == LengthBase(c) - 3
      invariant baseLength[28] == 0
    {
      LengthEndStep(code);
      LengthEndIsBase(code);
      LengthEndsBelow(code + 1);
      baseLength[code] := length;
      var n := 0;
      while n < Pow2(EXTRA_LBITS[code])
        invariant n <= Pow2(LengthExtra(code)) && length + 3 == LengthBase(code) + n
        invariant forall i :: 0 <= i < length && i < 255 ==> lengthCode[i] == LengthCode(i + 3)
        invariant forall c :: 0 <= c <= code ==> baseLength[c] == LengthBase(c) - 3
        invariant baseLength[28] == 0
      {
        if length != 255 { LengthInRange(length + 3, code); }
        lengthCode[length] := code;
        length, n := length + 1, n + 1;
      }
      code := code + 1;
    }
    LengthLast();
    lengthCode[length - 1] := code;
  }

  lemma LengthEnds()
    ensures LengthEnd(0) == 3
  {}

  lemma LengthEndIsBase(c: nat)
    requires c < 28
    ensures LengthEnd(c) == LengthBase(c)
  {}

  lemma LengthEndsBelow(c: nat)
    requires c <= 28
    ensures LengthEnd(c) <= 259
  {}

  lemma LengthLast()
    ensures LengthEnd(28) == 259 && LengthCode(258) == 28
  {
    assert LengthBase(28) == 258;
    LengthCodeIs(258, 28);
  }

  method DistTables() returns (distCode: array<nat>, baseDist: array<nat>)
    ensures fresh(distCode) && fresh(baseDist) && distCode.Length == 512 && baseDist.Length == D_CODES
    ensures forall d :: 0 <= d < 256 ==> distCode[d] == DistCode(d + 1)
    ensures forall d :: 256 <= d < 0x8000 ==> distCode[256 + d / 128] == DistCode(d + 1)
    ensures forall c :: 0 <= c < D_CODES ==> baseDist[c] == DistBase(c) - 1
  {
    hide DistCode, DistBase, DistExtra, DistEnd, EXTRA_DBITS, Pow2;
    ExtraBitsAgree();
    distCode := new nat[512](_ => 0);
    baseDist := new nat[D_CODES](_ => 0);
    DistEnds();
    var dist, code := 0, 0;
    while code < 16
      invariant code <= 16 && dist + 1 == DistEnd(code) <= 257
      invariant forall d :: 0 <= d < dist ==> distCode[d] == DistCode(d + 1)
      invariant forall c :: 0 <= c < code ==> baseDist[c] == DistBase(c) - 1
    {
      DistEndStep(code);
      DistEndIsBase(code);
      DistEndsBelow(code + 1);
      baseDist[code] := dist;
      var n := 0;
      while n < Pow2(EXTRA_DBITS[code])
        invariant n <= Pow2(DistExtra(code)) && dist + 1 == DistBase(code) + n
        invariant forall d :: 0 <= d < dist ==> distCode[d] == DistCode(d + 1)
        invariant forall c :: 0 <= c <= code ==> baseDist[c] == DistBase(c) - 1
      {
        DistInRange(dist + 1, code);
        distCode[dist] := code;
        dist, n := dist + 1, n + 1;
      }
      code := code + 1;
    }
    dist := dist / 128;  // from now on, all distances are divided by 128
    while code < D_CODES
      invariant 16 <= code <= D_CODES && 128 * dist + 1 == DistEnd(code) <= 0x8001
      invariant forall d :: 0 <= d < 256 ==> distCode[d] == DistCode(d + 1)
      invariant forall d :: 256 <= d < 128 * dist ==> distCode[256 + d / 128] == DistCode(d + 1)
      invariant forall c :: 0 <= c < code ==> baseDist[c] == DistBase(c) - 1
    {
      DistEndStep(code);
      BigExtra(code);
      DistEndIsBase(code);
      DistEndsBelow(code + 1);
      baseDist[code] := dist * 128;
      var n := 0;
      while n < Pow2(EXTRA_DBITS[code] - 7)
        invariant n <= Pow2(DistExtra(code) - 7) && 128 * dist + 1 == DistBase(code) + 128 * n
        invariant forall d :: 0 <= d < 256 ==> distCode[d] == DistCode(d + 1)
        invariant forall d :: 256 <= d < 128 * dist ==> distCode[256 + d / 128] == DistCode(d + 1)
        invariant forall c :: 0 <= c <= code ==> baseDist[c] == DistBase(c) - 1
      {
        ghost var before: seq<nat> := distCode[..];
        distCode[256 + dist] := code;
        forall d | 256 <= d < 128 * (dist + 1) ensures distCode[256 + d / 128] == DistCode(d + 1) {
          if d >= 128 * dist {
            DistInRange(d + 1, code);
            assert d / 128 == dist;
          } else {
            assert d / 128 < dist;
            assert before[256 + d / 128] == DistCode(d + 1);
          }
        }
        dist, n := dist + 1, n + 1;
      }
      code := code + 1;
    }
    DistLast();
  }

  lemma DistEnds()
    ensures DistEnd(0) == 1 && DistEnd(16) == 257
  {}

  lemma DistEndIsBase(c: nat)
    requires c < D_CODES
    ensures DistEnd(c) == DistBase(c)
  {}

  lemma DistEndsBelow(c: nat)
    requires c <= D_CODES
    ensures DistEnd(c) <= 0x8001 && (c <= 16 ==> DistEnd(c) <= 257)
  {}

  lemma DistLast()
    ensures DistEnd(D_CODES) == 0x8001
  {}
}
