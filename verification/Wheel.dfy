/** The wheel of factor.c: the packed table of trial divisor increments, its unpacking,
    and the proof that the wheel passes over no divisor but multiples of 2, 3, 5, 7 and 11. */
module Wheel {
  import opened Bits

  const ROW := 21
  const ROWS := 23
  const WHEEL_START := 5
  const WHEEL_SIZE := 485
  const TURN := 2310  // 2 * 3 * 5 * 7 * 11

  /** The arguments of the P() macro of factor.c. */
  datatype Word = P(a: nat, b: nat, c: nat, d: nat, e: nat, f: nat, g: nat, h: nat, i: nat, j: nat, A: nat, B: nat,
      C: nat, D: nat, E: nat, F: nat, G: nat, H: nat, I: nat, J: nat, x: nat)

  /** The steps of a word, in order. */
  function Steps(w: Word): (r: seq<nat>)
    ensures |r| == ROW
  {
    [w.a, w.b, w.c, w.d, w.e, w.f, w.g, w.h, w.i, w.j, w.A, w.B, w.C, w.D, w.E, w.F, w.G, w.H, w.I, w.J, w.x]
  }

  /** The divisor at which a row starts in the first turn of the wheel. */
  function RowStart(k: nat): nat
    requires k <= ROWS
  {
    match k
    case 0 => 5
    case 1 => 89
    case 2 => 193
    case 3 => 293
    case 4 => 397
    case 5 => 499
    case 6 => 601
    case 7 => 701
    case 8 => 809
    case 9 => 901
    case 10 => 1007
    case 11 => 1097
    case 12 => 1213
    case 13 => 1303
    case 14 => 1409
    case 15 => 1501
    case 16 => 1609
    case 17 => 1709
    case 18 => 1811
    case 19 => 1913
    case 20 => 2017
    case 21 => 2117
    case 22 => 2221
    case _ => 2323
  }

  // ---------- which divisors are passed over ----------

  predicate Hit(c: nat) { c % 3 == 0 || c % 5 == 0 || c % 7 == 0 || c % 11 == 0 }

  /** A step from an odd divisor r: the even numbers passed over are left to 2, the odd
      ones are multiples of 3, 5, 7 or 11. */
  predicate Gap(r: nat, d: nat) {
    d == 2 || (Hit(r + 2) && (d == 4 || (Hit(r + 4) && (d == 6 || (Hit(r + 6) && (d == 8 || (Hit(r + 8)
    && (d == 10 || (Hit(r + 10) && (d == 12 || (Hit(r + 12) && d == 14)))))))))))
  }

  /** Seven steps from divisor r, and where they lead. */
  predicate Seven(r: nat, s0: nat, s1: nat, s2: nat, s3: nat, s4: nat, s5: nat, s6: nat, end: nat) {
    && Gap(r, s0) && Gap(r + s0, s1) && Gap(r + s0 + s1, s2) && Gap(r + s0 + s1 + s2, s3)
    && Gap(r + s0 + s1 + s2 + s3, s4) && Gap(r + s0 + s1 + s2 + s3 + s4, s5)
    && Gap(r + s0 + s1 + s2 + s3 + s4 + s5, s6) && end == r + s0 + s1 + s2 + s3 + s4 + s5 + s6
  }

  predicate WordGood(w: Word, r: nat, end: nat) {
    var m := r + w.a + w.b + w.c + w.d + w.e + w.f + w.g;
    var n := m + w.h + w.i + w.j + w.A + w.B + w.C + w.D;
    && Seven(r, w.a, w.b, w.c, w.d, w.e, w.f, w.g, m)
    && Seven(m, w.h, w.i, w.j, w.A, w.B, w.C, w.D, n)
    && Seven(n, w.E, w.F, w.G, w.H, w.I, w.J, w.x, end)
  }

  // packed_wheel, word by word

  function Word0(): (w: Word)
    ensures WordGood(w, 5, 89)
  {
    assert Seven(5, 2, 4, 2, 4, 2, 4, 6, 29);
    assert Seven(29, 2, 6, 4, 2, 4, 6, 6, 59);
    assert Seven(59, 2, 6, 4, 2, 6, 4, 6, 89);
    P(2, 4, 2, 4, 2, 4, 6, 2, 6, 4, 2, 4, 6, 6, 2, 6, 4, 2, 6, 4, 6)
  }

  function Word1(): (w: Word)
    ensures WordGood(w, 89, 193)
  {
    assert Seven(89, 8, 4, 2, 4, 2, 4, 14, 127);
    assert Seven(127, 4, 6, 2, 10, 2, 6, 6, 163);
    assert Seven(163, 4, 2, 4, 6, 2, 10, 2, 193);
    P(8, 4, 2, 4, 2, 4, 14, 4, 6, 2, 10, 2, 6, 6, 4, 2, 4, 6, 2, 10, 2)
  }

  function Word2(): (w: Word)
    ensures WordGood(w, 193, 293)
  {
    assert Seven(193, 4, 2, 12, 10, 2, 4, 2, 229);
    assert Seven(229, 4, 6, 2, 6, 4, 6, 6, 263);
    assert Seven(263, 6, 2, 6, 4, 2, 6, 4, 293);
    P(4, 2, 12, 10, 2, 4, 2, 4, 6, 2, 6, 4, 6, 6, 6, 2, 6, 4, 2, 6, 4)
  }

  function Word3(): (w: Word)
    ensures WordGood(w, 293, 397)
  {
    assert Seven(293, 6, 8, 4, 2, 4, 6, 8, 331);
    assert Seven(331, 6, 10, 2, 4, 6, 2, 6, 367);
    assert Seven(367, 6, 4, 2, 4, 6, 2, 6, 397);
    P(6, 8, 4, 2, 4, 6, 8, 6, 10, 2, 4, 6, 2, 6, 6, 4, 2, 4, 6, 2, 6)
  }

  function Word4(): (w: Word)
    ensures WordGood(w, 397, 499)
  {
    assert Seven(397, 4, 2, 6, 10, 2, 10, 2, 433);
    assert Seven(433, 4, 2, 4, 6, 8, 4, 2, 463);
    assert Seven(463, 4, 12, 2, 6, 4, 2, 6, 499);
    P(4, 2, 6, 10, 2, 10, 2, 4, 2, 4, 6, 8, 4, 2, 4, 12, 2, 6, 4, 2, 6)
  }

  function Word5(): (w: Word)
    ensures WordGood(w, 499, 601)
  {
    assert Seven(499, 4, 6, 12, 2, 4, 2, 4, 533);
    assert Seven(533, 8, 6, 4, 6, 2, 4, 6, 569);
    assert Seven(569, 2, 6, 10, 2, 4, 6, 2, 601);
    P(4, 6, 12, 2, 4, 2, 4, 8, 6, 4, 6, 2, 4, 6, 2, 6, 10, 2, 4, 6, 2)
  }

  function Word6(): (w: Word)
    ensures WordGood(w, 601, 701)
  {
    assert Seven(601, 6, 4, 2, 4, 2, 10, 2, 631);
    assert Seven(631, 10, 2, 4, 6, 6, 2, 6, 667);
    assert Seven(667, 6, 4, 6, 6, 2, 6, 4, 701);
    P(6, 4, 2, 4, 2, 10, 2, 10, 2, 4, 6, 6, 2, 6, 6, 4, 6, 6, 2, 6, 4)
  }

  function Word7(): (w: Word)
    ensures WordGood(w, 701, 809)
  {
    assert Seven(701, 2, 6, 4, 6, 8, 4, 2, 733);
    assert Seven(733, 6, 4, 8, 6, 4, 6, 2, 769);
    assert Seven(769, 4, 6, 8, 6, 4, 2, 10, 809);
    P(2, 6, 4, 6, 8, 4, 2, 6, 4, 8, 6, 4, 6, 2, 4, 6, 8, 6, 4, 2, 10)
  }

  function Word8(): (w: Word)
    ensures WordGood(w, 809, 901)
  {
    assert Seven(809, 2, 6, 4, 2, 4, 2, 10, 839);
    assert Seven(839, 2, 10, 2, 4, 2, 4, 8, 871);
    assert Seven(871, 6, 4, 2, 4, 6, 6, 2, 901);
    P(2, 6, 4, 2, 4, 2, 10, 2, 10, 2, 4, 2, 4, 8, 6, 4, 2, 4, 6, 6, 2)
  }

  function Word9(): (w: Word)
    ensures WordGood(w, 901, 1007)
  {
    assert Seven(901, 6, 4, 8, 4, 6, 8, 4, 941);
    assert Seven(941, 2, 4, 2, 4, 8, 6, 4, 971);
    assert Seven(971, 6, 6, 6, 2, 6, 6, 4, 1007);
    P(6, 4, 8, 4, 6, 8, 4, 2, 4, 2, 4, 8, 6, 4, 6, 6, 6, 2, 6, 6, 4)
  }

  function Word10(): (w: Word)
    ensures WordGood(w, 1007, 1097)
  {
    assert Seven(1007, 2, 4, 6, 2, 6, 4, 2, 1033);
    assert Seven(1033, 4, 2, 10, 2, 10, 2, 6, 1069);
    assert Seven(1069, 4, 6, 2, 6, 4, 2, 4, 1097);
    P(2, 4, 6, 2, 6, 4, 2, 4, 2, 10, 2, 10, 2, 6, 4, 6, 2, 6, 4, 2, 4)
  }

  function Word11(): (w: Word)
    ensures WordGood(w, 1097, 1213)
  {
    assert Seven(1097, 6, 6, 8, 4, 2, 6, 10, 1139);
    assert Seven(1139, 8, 4, 2, 4, 2, 4, 8, 1171);
    assert Seven(1171, 10, 6, 2, 4, 8, 6, 6, 1213);
    P(6, 6, 8, 4, 2, 6, 10, 8, 4, 2, 4, 2, 4, 8, 10, 6, 2, 4, 8, 6, 6)
  }

  function Word12(): (w: Word)
    ensures WordGood(w, 1213, 1303)
  {
    assert Seven(1213, 4, 2, 4, 6, 2, 6, 4, 1241);
    assert Seven(1241, 6, 2, 10, 2, 10, 2, 4, 1277);
    assert Seven(1277, 2, 4, 6, 2, 6, 4, 2, 1303);
    P(4, 2, 4, 6, 2, 6, 4, 6, 2, 10, 2, 10, 2, 4, 2, 4, 6, 2, 6, 4, 2)
  }

  function Word13(): (w: Word)
    ensures WordGood(w, 1303, 1409)
  {
    assert Seven(1303, 4, 6, 6, 2, 6, 6, 6, 1339);
    assert Seven(1339, 4, 6, 8, 4, 2, 4, 2, 1369);
    assert Seven(1369, 4, 8, 6, 4, 8, 4, 6, 1409);
    P(4, 6, 6, 2, 6, 6, 6, 4, 6, 8, 4, 2, 4, 2, 4, 8, 6, 4, 8, 4, 6)
  }

  function Word14(): (w: Word)
    ensures WordGood(w, 1409, 1501)
  {
    assert Seven(1409, 2, 6, 6, 4, 2, 4, 6, 1439);
    assert Seven(1439, 8, 4, 2, 4, 2, 10, 2, 1471);
    assert Seven(1471, 10, 2, 4, 2, 4, 6, 2, 1501);
    P(2, 6, 6, 4, 2, 4, 6, 8, 4, 2, 4, 2, 10, 2, 10, 2, 4, 2, 4, 6, 2)
  }

  function Word15(): (w: Word)
    ensures WordGood(w, 1501, 1609)
  {
    assert Seven(1501, 10, 2, 4, 6, 8, 6, 4, 1541);
    assert Seven(1541, 2, 6, 4, 6, 8, 4, 6, 1577);
    assert Seven(1577, 2, 4, 8, 6, 4, 6, 2, 1609);
    P(10, 2, 4, 6, 8, 6, 4, 2, 6, 4, 6, 8, 4, 6, 2, 4, 8, 6, 4, 6, 2)
  }

  function Word16(): (w: Word)
    ensures WordGood(w, 1609, 1709)
  {
    assert Seven(1609, 4, 6, 2, 6, 6, 4, 6, 1643);
    assert Seven(1643, 6, 2, 6, 6, 4, 2, 10, 1679);
    assert Seven(1679, 2, 10, 2, 4, 2, 4, 6, 1709);
    P(4, 6, 2, 6, 6, 4, 6, 6, 2, 6, 6, 4, 2, 10, 2, 10, 2, 4, 2, 4, 6)
  }

  function Word17(): (w: Word)
    ensures WordGood(w, 1709, 1811)
  {
    assert Seven(1709, 2, 6, 4, 2, 10, 6, 2, 1741);
    assert Seven(1741, 6, 4, 2, 6, 4, 6, 8, 1777);
    assert Seven(1777, 4, 2, 4, 2, 12, 6, 4, 1811);
    P(2, 6, 4, 2, 10, 6, 2, 6, 4, 2, 6, 4, 6, 8, 4, 2, 4, 2, 12, 6, 4)
  }

  function Word18(): (w: Word)
    ensures WordGood(w, 1811, 1913)
  {
    assert Seven(1811, 6, 2, 4, 6, 2, 12, 4, 1847);
    assert Seven(1847, 2, 4, 8, 6, 4, 2, 4, 1877);
    assert Seven(1877, 2, 10, 2, 10, 6, 2, 4, 1913);
    P(6, 2, 4, 6, 2, 12, 4, 2, 4, 8, 6, 4, 2, 4, 2, 10, 2, 10, 6, 2, 4)
  }

  function Word19(): (w: Word)
    ensures WordGood(w, 1913, 2017)
  {
    assert Seven(1913, 6, 2, 6, 4, 2, 4, 6, 1943);
    assert Seven(1943, 6, 2, 6, 4, 2, 10, 6, 1979);
    assert Seven(1979, 8, 6, 4, 2, 4, 8, 6, 2017);
    P(6, 2, 6, 4, 2, 4, 6, 6, 2, 6, 4, 2, 10, 6, 8, 6, 4, 2, 4, 8, 6)
  }

  function Word20(): (w: Word)
    ensures WordGood(w, 2017, 2117)
  {
    assert Seven(2017, 4, 6, 2, 4, 6, 2, 6, 2047);
    assert Seven(2047, 6, 6, 4, 6, 2, 6, 4, 2081);
    assert Seven(2081, 2, 4, 2, 10, 12, 2, 4, 2117);
    P(4, 6, 2, 4, 6, 2, 6, 6, 6, 4, 6, 2, 6, 4, 2, 4, 2, 10, 12, 2, 4)
  }

  function Word21(): (w: Word)
    ensures WordGood(w, 2117, 2221)
  {
    assert Seven(2117, 2, 10, 2, 6, 4, 2, 4, 2147);
    assert Seven(2147, 6, 6, 2, 10, 2, 6, 4, 2183);
    assert Seven(2183, 14, 4, 2, 4, 2, 4, 8, 2221);
    P(2, 10, 2, 6, 4, 2, 4, 6, 6, 2, 10, 2, 6, 4, 14, 4, 2, 4, 2, 4, 8)
  }

  function Word22(): (w: Word)
    ensures WordGood(w, 2221, 2323)
  {
    assert Seven(2221, 6, 4, 6, 2, 4, 6, 2, 2251);
    assert Seven(2251, 6, 6, 4, 2, 4, 6, 2, 2281);
    assert Seven(2281, 6, 4, 2, 4, 12, 2, 12, 2323);
    P(6, 4, 6, 2, 4, 6, 2, 6, 6, 4, 2, 4, 6, 2, 6, 4, 2, 4, 12, 2, 12)
  }


  function PackedWheel(k: nat): (w: Word)
    requires k < ROWS
    ensures WordGood(w, RowStart(k), RowStart(k + 1))
  {
    hide WordGood;
    match k
    case 0 => Word0()
    case 1 => Word1()
    case 2 => Word2()
    case 3 => Word3()
    case 4 => Word4()
    case 5 => Word5()
    case 6 => Word6()
    case 7 => Word7()
    case 8 => Word8()
    case 9 => Word9()
    case 10 => Word10()
    case 11 => Word11()
    case 12 => Word12()
    case 13 => Word13()
    case 14 => Word14()
    case 15 => Word15()
    case 16 => Word16()
    case 17 => Word17()
    case 18 => Word18()
    case 19 => Word19()
    case 20 => Word20()
    case 21 => Word21()
    case _ => Word22()
  }

  // ---------- the unpacked wheel ----------

  /** wheel_tab[w] */
  function Tab(w: nat): nat
    requires w < WHEEL_SIZE
  {
    if w == 0 then 1 else if w == 1 then 2 else Steps(PackedWheel((w - 2) / 21))[(w - 2) % 21]
  }

  /** The divisor at place w of the wheel in the first turn. */
  function Pos(w: nat): nat
    requires 2 <= w <= WHEEL_SIZE
  {
    if w == 2 then 5 else Pos(w - 1) + Tab(w - 1)
  }

  function Prefix(s: seq<nat>, i: nat): nat
    requires i <= |s|
  {
    if i == 0 then 0 else Prefix(s, i - 1) + s[i - 1]
  }

  lemma SevenGaps(s: seq<nat>, i: nat, r: nat, end: nat)
    requires i + 7 <= |s| && Seven(r + Prefix(s, i), s[i], s[i + 1], s[i + 2], s[i + 3], s[i + 4], s[i + 5], s[i + 6],
        end)
    ensures forall j :: i <= j < i + 7 ==> Gap(r + Prefix(s, j), s[j])
    ensures end == r + Prefix(s, i + 7)
  {
    hide Gap;
    assert Prefix(s, i + 1) == Prefix(s, i) + s[i] && Prefix(s, i + 2) == Prefix(s, i + 1) + s[i + 1];
    assert Prefix(s, i + 3) == Prefix(s, i + 2) + s[i + 2] && Prefix(s, i + 4) == Prefix(s, i + 3) + s[i + 3];
    assert Prefix(s, i + 5) == Prefix(s, i + 4) + s[i + 4] && Prefix(s, i + 6) == Prefix(s, i + 5) + s[i + 5];
    forall j | i <= j < i + 7 ensures Gap(r + Prefix(s, j), s[j]) {
      assert j == i || j == i + 1 || j == i + 2 || j == i + 3 || j == i + 4 || j == i + 5 || j == i + 6;
    }
  }

  lemma WordGaps(w: Word, r: nat, end: nat)
    requires WordGood(w, r, end)
    ensures forall i :: 0 <= i < ROW ==> Gap(r + Prefix(Steps(w), i), Steps(w)[i])
    ensures end == r + Prefix(Steps(w), ROW)
  {
    hide Seven, Gap, Prefix;
    var s := Steps(w);
    var m := r + w.a + w.b + w.c + w.d + w.e + w.f + w.g;
    var n := m + w.h + w.i + w.j + w.A + w.B + w.C + w.D;
    PrefixNone(s);
    SevenGaps(s, 0, r, m);
    SevenGaps(s, 7, r, n);
    SevenGaps(s, 14, r, end);
  }

  lemma PrefixNone(s: seq<nat>)
    ensures Prefix(s, 0) == 0
  {}

  lemma PlaceInRow(k: nat, i: nat)
    requires i < ROW
    ensures (21 * k + i) / 21 == k && (21 * k + i) % 21 == i
  {
    DivUnique(21 * k + i, 21, k, i);
  }

  lemma PosUnfolds(k: nat, i: nat)
    requires k < ROWS && i <= ROW
    ensures i > 0 ==> Pos(2 + 21 * k + i) == Pos(2 + 21 * k + (i - 1)) + Tab(2 + 21 * k + (i - 1))
    ensures i > 0 ==>
      Prefix(Steps(PackedWheel(k)), i) == Prefix(Steps(PackedWheel(k)), i - 1) + Steps(PackedWheel(k))[i - 1]
    ensures Prefix(Steps(PackedWheel(k)), 0) == 0 && Pos(2) == 5 == RowStart(0)
  {
    hide WordGood, PackedWheel, Steps, Tab;
  }

  /** The divisor at place i of row k. */
  lemma {:induction false} PosInRow(k: nat, i: nat)
    requires k < ROWS && i <= ROW
    ensures Pos(2 + 21 * k + i) == RowStart(k) + Prefix(Steps(PackedWheel(k)), i)
    decreases k, i
  {
    hide WordGood, PackedWheel, Steps, Prefix, RowStart;
    PosUnfolds(k, i);
    if i == 0 {
      if k > 0 {
        PosInRow(k - 1, ROW);
        WordGaps(PackedWheel(k - 1), RowStart(k - 1), RowStart(k));
        assert 2 + 21 * (k - 1) + ROW == 2 + 21 * k + 0;
      }
    } else {
      PosInRow(k, i - 1);
      PlaceInRow(k, i - 1);
    }
  }

  /** Every step of the wheel, from the divisor where it is taken. */
  lemma GapAt(w: nat)
    requires 2 <= w < WHEEL_SIZE
    ensures Gap(Pos(w), Tab(w)) && Pos(w) + Tab(w) == Pos(w + 1)
  {
    hide Gap, WordGood, PackedWheel, Steps, Prefix, RowStart;
    var k, i := (w - 2) / 21, (w - 2) % 21;
    PosInRow(k, i);
    WordGaps(PackedWheel(k), RowStart(k), RowStart(k + 1));
    assert w == 2 + 21 * k + i;
  }

  /** One turn of the wheel is 2310. */
  lemma FullTurn()
    ensures Pos(WHEEL_START) == 13 && Pos(WHEEL_SIZE) == 13 + TURN
  {
    hide WordGood, PackedWheel, Steps, Prefix;
    PosInRow(0, 3);
    PosInRow(ROWS - 1, ROW);
    WordGaps(PackedWheel(ROWS - 1), RowStart(ROWS - 1), RowStart(ROWS));
    FirstSteps();
  }

  lemma FirstSteps()
    ensures Prefix(Steps(PackedWheel(0)), 3) == 8
    ensures Tab(2) == 2 && Tab(3) == 4 && Tab(4) == 2 && Pos(2) == 5 && Pos(3) == 7 && Pos(4) == 11
  {
    var s := Steps(PackedWheel(0));
    assert Prefix(s, 1) == 2 && Prefix(s, 2) == 6;
    assert Tab(2) == s[0] && Tab(3) == s[1] && Tab(4) == s[2];
    assert Pos(3) == Pos(2) + Tab(2) && Pos(4) == Pos(3) + Tab(3);
  }

  lemma {:induction false} PosOdd(w: nat)
    requires 2 <= w <= WHEEL_SIZE
    ensures Pos(w) % 2 == 1
  {
    hide Tab, Pos, Gap;
    SmallTab();
    if w > 2 {
      PosOdd(w - 1);
      GapAt(w - 1);
      GapEven(Pos(w - 1), Tab(w - 1));
    }
  }

  lemma GapEven(r: nat, d: nat)
    requires Gap(r, d)
    ensures d % 2 == 0 && 2 <= d <= 14
  {
    hide Hit;
  }

  // ---------- the wheel rolls over all possible prime divisors ----------

  /** f is a divisor that is tried at place w of the wheel, after t full turns. */
  predicate AtPlace(f: nat, w: nat, t: nat)
  {
    && w < WHEEL_SIZE && (w < WHEEL_START ==> t == 0)
    && if w < 2 then f == w + 2 else f == Pos(w) + 2310 * t
  }

  /** The place after w. */
  function NextPlace(w: nat): nat { if w + 1 < WHEEL_SIZE then w + 1 else WHEEL_START }

  function NextTurn(w: nat, t: nat): nat { if w + 1 < WHEEL_SIZE then t else t + 1 }

  lemma Advances(f: nat, w: nat, t: nat)
    requires AtPlace(f, w, t)
    ensures AtPlace(f + Tab(w), NextPlace(w), NextTurn(w, t)) && Tab(w) <= 14 && Tab(w) >= 1
  {
    hide Tab, Pos;
    SmallTab();
    FullTurn();
    FirstSteps();
    if w >= 2 {
      GapAt(w);
      GapEven(Pos(w), Tab(w));
    }
  }

  lemma SmallTab()
    ensures Tab(0) == 1 && Tab(1) == 2 && Pos(2) == 5
  {}

  lemma AddMultiple(c: nat, p: nat, m: nat)
    requires p > 0
    ensures (c + p * m) % p == c % p
  {
    DivMod(c, p);
    var q, r := c / p, c % p;
    assert c + p * m == (q + m) * p + r;
    DivUnique(c + p * m, p, q + m, r);
  }

  lemma HitAgain(c: nat, t: nat)
    requires Hit(c)
    ensures Hit(c + 2310 * t)
  {
    AddMultiple(c, 3, 770 * t);
    AddMultiple(c, 5, 462 * t);
    AddMultiple(c, 7, 330 * t);
    AddMultiple(c, 11, 210 * t);
  }

  lemma OddHit(f: nat, w: nat, t: nat, c: nat)
    requires AtPlace(f, w, t) && 2 <= w && f < c < f + Tab(w) && c % 2 == 1
    ensures Hit(c) && (f >= 11 || (f == 7 && c < 11))
  {
    hide Tab, Pos, Gap, Hit;
    PosOdd(w);
    GapAt(w);
    TurnOdd(Pos(w), t);
    OddGap(Pos(w), Tab(w), c - f);
    HitAgain(Pos(w) + (c - f), t);
    assert Pos(w) + (c - f) + 2310 * t == c;
    FirstSteps();
    PosGrows(w);
  }

  /** No divisor passed over is needed: it is a multiple of a smaller one that was tried. */
  lemma PassedOver(f: nat, w: nat, t: nat, c: nat)
    requires AtPlace(f, w, t) && f < c < f + Tab(w)
    ensures exists p :: 2 <= p <= f && p < c && c % p == 0
  {
    hide Tab, Pos, Gap, Hit;
    SmallTab();
    PosAtLeast(w);
    if c % 2 == 0 {
      assert 2 <= 2 <= f && c % 2 == 0;
    } else {
      OddHit(f, w, t, c);
      HitBelow(c, f);
    }
  }

  lemma {:induction false} PosAtLeast(w: nat)
    ensures 2 <= w <= WHEEL_SIZE ==> Pos(w) >= 5
  {
    hide Tab, Pos;
    SmallTab();
    if 2 < w <= WHEEL_SIZE {
      PosAtLeast(w - 1);
      GapAt(w - 1);
    }
  }

  lemma TurnOdd(a: nat, t: nat)
    requires a % 2 == 1
    ensures (a + 2310 * t) % 2 == 1
  {
    assert a + 2310 * t == a + 2 * (1155 * t);
  }

  lemma OddGap(r: nat, d: nat, j: nat)
    requires Gap(r, d) && 0 < j < d && j % 2 == 0
    ensures Hit(r + j)
  {
    hide Hit;
  }

  lemma {:induction false} PosGrows(w: nat)
    requires 2 <= w <= WHEEL_SIZE
    ensures w >= WHEEL_START ==> Pos(w) >= 13
  {
    hide Tab, Pos;
    if w > WHEEL_START {
      PosGrows(w - 1);
      GapAt(w - 1);
    } else if w == WHEEL_START {
      FullTurn();
    }
  }

  /** One of the primes of the wheel divides c and is not above f. */
  lemma HitBelow(c: nat, f: nat)
    requires Hit(c) && f < c && (f >= 11 || (f == 7 && c < 11))
    ensures exists p :: 2 <= p <= f && p < c && c % p == 0
  {
    if c % 3 == 0 { assert 3 <= f && 3 < c; }
    else if c % 5 == 0 { assert 5 <= f; }
    else if c % 7 == 0 { assert 7 <= f; }
    else { assert c % 11 == 0 && 11 <= f; }
  }

  // ---------- unpacking ----------

  /** Three bits for half of each step, the first step lowest. */
  function Packed(s: seq<nat>): nat {
    if s == [] then 0 else s[0] / 2 + 8 * Packed(s[1..])
  }

  /** (s[0]/2) << 0 | (s[1]/2) << 3 | (s[2]/2) << 6 and so on. */
  function OrFields(s: seq<nat>): nat {
    if s == [] then 0 else Or(OrFields(s[..|s| - 1]), s[|s| - 1] / 2 * Pow2(3 * (|s| - 1)))
  }

  /** The 64-bit word that the macros P() and R() make of the steps: ten fields shifted by 1,
      ten more shifted by 31, and the last one shifted by 61. */
  function WordValue(w: Word): nat {
    var s := Steps(w);
    Or(Or(OrFields(s[..10]) * Pow2(1), OrFields(s[10..20]) * Pow2(31)), s[20] / 2 * Pow2(61))
  }

  lemma {:induction false} PackedConcat(a: seq<nat>, b: seq<nat>)
    ensures Packed(a + b) == Packed(a) + Packed(b) * Pow2(3 * |a|)
  {
    hide Pow2, Packed;
    if a == [] {
      assert [] + b == b;
      OneIsPow();
      NonePacked();
    } else {
      var r := a[1..];
      PackedStep(a);
      PackedStep(a + b);
      assert (a + b)[1..] == r + b;
      PackedConcat(r, b);
      EightTimes(|r|, Packed(b));
    }
  }

  lemma NonePacked()
    ensures Packed([]) == 0
  {}

  lemma PackedStep(s: seq<nat>)
    requires s != []
    ensures Packed(s) == s[0] / 2 + 8 * Packed(s[1..])
  {}

  lemma EightTimes(n: nat, x: nat)
    ensures 8 * (x * Pow2(3 * n)) == x * Pow2(3 * (n + 1))
  {
    hide Pow2;
    Pow2Add(3, 3 * n);
    Pow2Table();
    assert 3 + 3 * n == 3 * (n + 1);
  }

  /** The fields do not overlap. */
  lemma {:induction false} FieldsArePacked(s: seq<nat>)
    requires AllSteps(s)
    ensures OrFields(s) == Packed(s)
    decreases |s|
  {
    hide Pow2, Or;
    if s != [] {
      var n := |s| - 1;
      FieldsArePacked(s[..n]);
      PackedBound(s[..n]);
      OrShifted(Packed(s[..n]), s[n] / 2, 3 * n);
      PackedConcat(s[..n], [s[n]]);
      assert s[..n] + [s[n]] == s;
      assert [s[n]][1..] == [];
      assert Packed([s[n]]) == s[n] / 2;
    }
  }

  /** The or of all the shifted fields packs the steps above a zero bit. */
  lemma WordIsPacked(w: Word)
    requires AllSteps(Steps(w))
    ensures WordValue(w) == 2 * Packed(Steps(w))
  {
    hide Pow2, Or, Packed, OrFields, Steps;
    var s := Steps(w);
    var a, b, c := s[..10], s[10..20], s[20..];
    assert c == [s[20]] && s == (a + b) + c && a + b == s[..20];
    FieldsArePacked(a);
    FieldsArePacked(b);
    PackedBound(a);
    PackedBound(s[..20]);
    PackedConcat(a, b);
    PackedConcat(a + b, c);
    OnePacked(s[20]);
    WordShifts();
    OrShifted(2 * Packed(a), Packed(b), 31);
    OrShifted(2 * Packed(s[..20]), s[20] / 2, 61);
    WordSum(Packed(a), Packed(b), s[20] / 2);
  }

  lemma OnePacked(x: nat)
    ensures Packed([x]) == x / 2
  {
    assert [x][1..] == [];
  }

  lemma WordShifts()
    ensures Pow2(1) == 2 && Pow2(31) == 2 * Pow2(30) && Pow2(61) == 2 * Pow2(60)
    ensures 3 * 10 == 30 && 3 * 20 == 60
  {}

  lemma WordSum(a: nat, b: nat, c: nat)
    ensures 2 * a + b * (2 * Pow2(30)) == 2 * (a + b * Pow2(30))
    ensures 2 * (a + b * Pow2(30)) + c * (2 * Pow2(60)) == 2 * ((a + b * Pow2(30)) + c * Pow2(60))
  {
    hide Pow2;
    var p, q := Pow2(30), Pow2(60);
    assert b * (2 * p) == 2 * (b * p) && c * (2 * q) == 2 * (c * q);
  }

  predicate AllSteps(s: seq<nat>) {
    forall i :: 0 <= i < |s| ==> s[i] % 2 == 0 && 2 <= s[i] <= 14
  }

  lemma {:induction false} PackedBound(s: seq<nat>)
    requires AllSteps(s)
    ensures Packed(s) < Pow2(3 * |s|)
  {
    hide Pow2;
    if s == [] {
      OneIsPow();
    } else {
      PackedBound(s[1..]);
      Pow2Add(3, 3 * (|s| - 1));
      assert 3 + 3 * (|s| - 1) == 3 * |s|;
      Pow2Table();
    }
  }

  lemma OneIsPow()
    ensures Pow2(0) == 1
  {}

  /** 21 steps fill a 64-bit word. */
  lemma WordFits(w: Word)
    requires AllSteps(Steps(w))
    ensures WordValue(w) < 0x1_0000_0000_0000_0000
  {
    hide Pow2, Packed, Steps, WordValue;
    WordIsPacked(w);
    PackedBound(Steps(w));
    Pow2Add(32, 31);
    Pow2Add(16, 15);
    Pow2Table();
  }

  lemma RowSteps(k: nat)
    requires k < ROWS
    ensures AllSteps(Steps(PackedWheel(k)))
  {
    hide WordGood, PackedWheel, Steps, Gap, Prefix, RowStart;
    WordGaps(PackedWheel(k), RowStart(k), RowStart(k + 1));
    var s := Steps(PackedWheel(k));
    forall i | 0 <= i < |s| ensures s[i] % 2 == 0 && 2 <= s[i] <= 14 {
      GapEven(RowStart(k) + Prefix(s, i), s[i]);
    }
  }

  /** v & 0xe */
  function Low(v: nat): nat { v / 2 % 8 * 2 }

  /** What is left of a word when j steps have been shifted out; the lowest bit does not matter. */
  predicate Shows(s: seq<nat>, j: nat, v: nat)
    requires j <= |s|
  {
    AllSteps(s) && v / 2 == Packed(s[j..])
  }

  /** Shifted by three bits at a time, the word shows one step after the other. */
  lemma Digit(s: seq<nat>, j: nat, v: nat)
    requires j <= |s| && Shows(s, j, v)
    ensures if j == |s| then Low(v) == 0 else Low(v) == s[j] != 0 && Shows(s, j + 1, v / 8)
  {
    if j < |s| {
      assert s[j..][1..] == s[j + 1..];
      assert v / 8 / 2 == v / 2 / 8;
    }
  }

  lemma FirstDigit(s: seq<nat>, v: nat)
    requires AllSteps(s) && v == 2 * Packed(s)
    ensures Shows(s, 0, v)
  {
    assert s[0..] == s;
  }

  /** The steps of one word, as long as there are any. */
  method UnpackWord(tab: array<nat>, start: nat, k: nat) returns (p: nat)
    requires tab.Length == WHEEL_SIZE && k < ROWS && start == 2 + 21 * k
    requires forall w :: 0 <= w < start ==> tab[w] == Tab(w)
    modifies tab
    ensures p == start + 21 && forall w :: 0 <= w < p ==> tab[w] == Tab(w)
  {
    hide WordGood, PackedWheel, Steps, Packed, AllSteps, Tab, Low, Shows, WordValue;
    ghost var s := Steps(PackedWheel(k));
    RowSteps(k);
    p := start;
    WordIsPacked(PackedWheel(k));
    var v := WordValue(PackedWheel(k));
    ghost var j := 0;
    FirstDigit(s, v);
    while Low(v) != 0
      invariant j <= 21 && p == start + j && Shows(s, j, v) && (j == 21 ==> Low(v) == 0)
      invariant forall w :: 0 <= w < p ==> tab[w] == Tab(w)
      decreases 21 - j
    {
      Digit(s, j, v);
      TabIs(k, j);
      tab[p] := Low(v);
      v := v / 8;
      p, j := p + 1, j + 1;
      Digit(s, j, v);
    }
    Digit(s, j, v);
  }

  /** unpack_wheel: fills wheel_tab from the packed words. */
  method UnpackWheel() returns (tab: array<nat>)
    ensures fresh(tab) && tab.Length == WHEEL_SIZE && forall w :: 0 <= w < WHEEL_SIZE ==> tab[w] == Tab(w)
  {
    hide Tab;
    tab := new nat[WHEEL_SIZE](_ => 0);
    tab[0] := 1;
    tab[1] := 2;
    SmallTab();
    var p, i := 2, 0;
    while i < ROWS
      invariant i <= ROWS && p == 2 + 21 * i && forall w :: 0 <= w < p ==> tab[w] == Tab(w)
    {
      p := UnpackWord(tab, p, i);
      i := i + 1;
    }
  }

  lemma TabIs(k: nat, i: nat)
    requires k < ROWS && i < ROW
    ensures 2 + 21 * k + i < WHEEL_SIZE && Tab(2 + 21 * k + i) == Steps(PackedWheel(k))[i]
  {
    hide WordGood, PackedWheel, Steps;
    PlaceInRow(k, i);
  }
}
