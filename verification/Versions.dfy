/** The version order of dpkg.c: version_compare_part walks two strings in step, and what
    it computes is the lexicographic order of keys that alternate between the non-digit
    and the numeric parts of a version (Debian Policy, section 5.6.12). */
module Versions {
  import opened Bits
  import opened CStrings

  const COLON: byte := 58
  const DASH: byte := 45

  /** order() */
  function Order(c: byte): int {
    if c == '~' as int then -1
    else if c == 0 then 0
    else if IsDigit(c) then 0
    else if IsAlpha(c) then c
    else c + 256
  }

  predicate NonDigit(c: byte) { c != 0 && !IsDigit(c) }

  // ---------- the key of a version ----------

  /** The key from place i on, within a non-digit part: the order of every character, a 0 for
      the end of the part, the number that follows, and so on. */
  function Key(s: Text, i: nat): seq<int>
    requires i <= |s|
    decreases |s| - i, 1
  {
    if i < |s| && NonDigit(s[i]) then [Order(s[i])] + Key(s, i + 1)
    else [0] + NumberKey(s, i)
  }

  function NumberKey(s: Text, i: nat): seq<int>
    requires i <= |s|
    decreases |s| - i, 0
  {
    var j := DigitsEnd(s, i);
    [Number(s, i, 0)] + (if i < j < |s| then Key(s, j) else [])
  }

  /** The sign of the first difference; a key that ends goes on with zeros. */
  function Lex(a: seq<int>, b: seq<int>): int
    decreases |a| + |b|
  {
    if a == [] && b == [] then 0
    else
      var x, y := if a == [] then 0 else a[0], if b == [] then 0 else b[0];
      if x < y then -1 else if x > y then 1
      else Lex(if a == [] then [] else a[1..], if b == [] then [] else b[1..])
  }

  function Sign(x: int): int { if x < 0 then -1 else if x > 0 then 1 else 0 }

  // ---------- the order of keys is total ----------

  lemma {:induction false} LexSame(a: seq<int>)
    ensures Lex(a, a) == 0
    decreases |a|
  {
    if a != [] { LexSame(a[1..]); }
  }

  lemma {:induction false} LexSwaps(a: seq<int>, b: seq<int>)
    ensures Lex(a, b) == -Lex(b, a)
    decreases |a| + |b|
  {
    if a != [] || b != [] {
      LexSwaps(if a == [] then [] else a[1..], if b == [] then [] else b[1..]);
    }
  }

  lemma {:induction false} LexTransitive(a: seq<int>, b: seq<int>, c: seq<int>)
    requires Lex(a, b) <= 0 && Lex(b, c) <= 0
    ensures Lex(a, c) <= 0
    ensures Lex(a, b) < 0 || Lex(b, c) < 0 ==> Lex(a, c) < 0
    decreases |a| + |b| + |c|
  {
    var a', b', c' := if a == [] then [] else a[1..], if b == [] then [] else b[1..], if c == [] then [] else c[1..];
    if a != [] || b != [] || c != [] {
      var x, y, z := if a == [] then 0 else a[0], if b == [] then 0 else b[0], if c == [] then 0 else c[0];
      if x == y == z {
        LexStep(a, b);
        LexStep(b, c);
        LexStep(a, c);
        LexTransitive(a', b', c');
      } else {
        LexStep(a, b);
        LexStep(b, c);
        LexStep(a, c);
      }
    }
  }

  lemma LexStep(a: seq<int>, b: seq<int>)
    ensures var x, y := if a == [] then 0 else a[0], if b == [] then 0 else b[0];
      Lex(a, b) == if x < y then -1 else if x > y then 1
                   else Lex(if a == [] then [] else a[1..], if b == [] then [] else b[1..])
  {}

  /** Zeros at the end of a key change nothing. */
  lemma LexZeros(b: seq<int>)
    ensures Lex([0, 0], b) == Lex([], b)
  {
    LexStep([0, 0], b);
    LexStep([], b);
    var b' := if b == [] then [] else b[1..];
    LexStep([0], b');
    LexStep([], b');
    assert [0, 0][1..] == [0] && [0][1..] == [];
  }

  // ---------- steps along the keys ----------

  lemma KeyAtLetter(s: Text, i: nat)
    requires i < |s| && NonDigit(s[i])
    ensures Key(s, i) == [Order(s[i])] + Key(s, i + 1)
    ensures Order(s[i]) != 0
  {}

  /** Different characters of a non-digit part have different orders. */
  lemma OrderTells(c: byte, d: byte)
    requires NonDigit(c) || NonDigit(d)
    requires Order(c) == Order(d)
    ensures c == d
  {}

  lemma KeyElsewhere(s: Text, i: nat)
    requires i <= |s| && !NonDigit(CharAt(s, i))
    ensures Order(CharAt(s, i)) == 0
    ensures Key(s, i) == [0, Number(s, i, 0)] + Rest(s, i)
  {
    assert [0] + NumberKey(s, i) == [0, Number(s, i, 0)] + Rest(s, i);
  }

  /** The key behind the digits that begin at place i. */
  function Rest(s: Text, i: nat): seq<int>
    requires i <= |s|
  {
    var j := DigitsEnd(s, i);
    if i < j < |s| then Key(s, j) else []
  }

  lemma AtTheEnd(s: Text, i: nat)
    requires i <= |s| && CharAt(s, i) == 0
    ensures Key(s, i) == [0, 0]
  {}

  /** Up to trailing zeros, the key behind the digits is the key of the place behind them. */
  lemma RestIsKey(s: Text, i: nat, b: seq<int>)
    requires i <= |s| && !NonDigit(CharAt(s, i))
    ensures Lex(Rest(s, i), b) == Lex(Key(s, DigitsEnd(s, i)), b)
  {
    var j := DigitsEnd(s, i);
    if !(i < j < |s|) {
      AtTheEnd(s, j);
      LexZeros(b);
    }
  }

  lemma {:induction false} NumberAtLeast(s: Text, i: nat, acc: nat)
    requires i <= |s|
    ensures Number(s, i, acc) >= acc
    decreases |s| - i
  {
    if i < |s| && IsDigit(s[i]) { NumberAtLeast(s, i + 1, 10 * acc + (s[i] - '0' as int)); }
  }

  lemma ComparesHeads(a: int, b: int, x: seq<int>, y: seq<int>)
    ensures Lex([a] + x, [b] + y) == if a == b then Lex(x, y) else Sign(a - b)
  {
    LexStep([a] + x, [b] + y);
    assert ([a] + x)[1..] == x && ([b] + y)[1..] == y;
  }

  /** Two numbers decide, or else what follows them does. */
  lemma ComparesNumbers(s: Text, i: nat, t: Text, j: nat)
    requires i <= |s| && !NonDigit(CharAt(s, i))
    requires j <= |t| && !NonDigit(CharAt(t, j))
    ensures var m, n := Number(s, i, 0), Number(t, j, 0);
      Lex(Key(s, i), Key(t, j)) ==
      if m == n then Lex(Key(s, DigitsEnd(s, i)), Key(t, DigitsEnd(t, j))) else Sign(m - n)
  {
    hide Key, Lex, Rest;
    var m, n := Number(s, i, 0), Number(t, j, 0);
    KeyElsewhere(s, i);
    KeyElsewhere(t, j);
    assert Key(s, i) == [0] + ([m] + Rest(s, i)) && Key(t, j) == [0] + ([n] + Rest(t, j));
    ComparesHeads(0, 0, [m] + Rest(s, i), [n] + Rest(t, j));
    ComparesHeads(m, n, Rest(s, i), Rest(t, j));
    var a, b := Key(s, DigitsEnd(s, i)), Key(t, DigitsEnd(t, j));
    RestIsKey(s, i, Rest(t, j));
    RestIsKey(t, j, a);
    LexSwaps(a, Rest(t, j));
    LexSwaps(a, b);
  }

  // ---------- version_compare_part() ----------

  /** Skips what two versions share of a non-digit part. */
  method SkipLetters(val: Text, ref: Text, i0: nat, j0: nat) returns (i: nat, j: nat, r: int)
    requires i0 <= |val| && j0 <= |ref|
    ensures i0 <= i <= |val| && j0 <= j <= |ref|
    ensures r != 0 ==> Sign(r) == Lex(Key(val, i0), Key(ref, j0))
    ensures r == 0 ==> !NonDigit(CharAt(val, i)) && !NonDigit(CharAt(ref, j))
    ensures r == 0 ==> Lex(Key(val, i), Key(ref, j)) == Lex(Key(val, i0), Key(ref, j0))
    ensures NonDigit(CharAt(val, i0)) || NonDigit(CharAt(ref, j0)) ==> r != 0 || i > i0
  {
    hide Lex, Key;
    i, j := i0, j0;
    while NonDigit(CharAt(val, i)) || NonDigit(CharAt(ref, j))
      invariant i0 <= i <= |val| && j0 <= j <= |ref|
      invariant Lex(Key(val, i), Key(ref, j)) == Lex(Key(val, i0), Key(ref, j0))
      invariant NonDigit(CharAt(val, i0)) || NonDigit(CharAt(ref, j0)) ==> i > i0 || (i == i0 && j == j0)
      decreases |val| - i
    {
      var vc, rc := Order(CharAt(val, i)), Order(CharAt(ref, j));
      KeyHead(val, i);
      KeyHead(ref, j);
      ComparesHeads(vc, rc, Key(val, i)[1..], Key(ref, j)[1..]);
      if vc != rc {
        return i, j, vc - rc;
      }
      OrderTells(CharAt(val, i), CharAt(ref, j));
      KeyAtLetter(val, i);
      KeyAtLetter(ref, j);
      i, j := i + 1, j + 1;
    }
    r := 0;
  }

  lemma KeyHead(s: Text, i: nat)
    requires i <= |s|
    ensures Key(s, i) != [] && Key(s, i) == [Order(CharAt(s, i))] + Key(s, i)[1..]
    ensures NonDigit(CharAt(s, i)) ==> Key(s, i)[1..] == Key(s, i + 1)
  {}

  /** Skips the zeros that lead a number. */
  method SkipZeros(s: Text, i0: nat) returns (i: nat)
    requires i0 <= |s|
    ensures i0 <= i <= |s| && CharAt(s, i) != '0' as int
    ensures Number(s, i, 0) == Number(s, i0, 0) && DigitsEnd(s, i) == DigitsEnd(s, i0)
    ensures CharAt(s, i0) == '0' as int ==> i > i0
  {
    i := i0;
    while CharAt(s, i) == '0' as int
      invariant i0 <= i <= |s|
      invariant Number(s, i, 0) == Number(s, i0, 0) && DigitsEnd(s, i) == DigitsEnd(s, i0)
      invariant i == i0 || i > i0
      decreases |s| - i
    {
      i := i + 1;
    }
  }

  /** Compares two numbers without leading zeros: the longer one is larger, and of two
      that are equally long the first different digit decides. */
  method CompareDigits(val: Text, ref: Text, i0: nat, j0: nat) returns (i: nat, j: nat, r: int)
    requires i0 <= |val| && j0 <= |ref|
    requires CharAt(val, i0) != '0' as int && CharAt(ref, j0) != '0' as int
    ensures Sign(r) == Sign(Number(val, i0, 0) - Number(ref, j0, 0))
    ensures r == 0 ==> i == DigitsEnd(val, i0) && j == DigitsEnd(ref, j0)
  {
    hide DigitsEnd;
    var first_diff := 0;
    i, j := i0, j0;
    ghost var m: nat, n: nat, p: nat := 0, 0, 1;
    while IsDigit(CharAt(val, i)) && IsDigit(CharAt(ref, j))
      invariant i0 <= i <= |val| && j0 <= j <= |ref|
      invariant Number(val, i, m) == Number(val, i0, 0) && DigitsEnd(val, i) == DigitsEnd(val, i0)
      invariant Number(ref, j, n) == Number(ref, j0, 0) && DigitsEnd(ref, j) == DigitsEnd(ref, j0)
      invariant Sign(first_diff) == Sign(m - n)
      invariant m < p && n < p
      invariant if i == i0 then j == j0 && p == 1 else 10 * m >= p && 10 * n >= p
      decreases |val| - i
    {
      if first_diff == 0 {
        first_diff := CharAt(val, i) - CharAt(ref, j);
      }
      DigitStep(val, i, m);
      DigitStep(ref, j, n);
      m, n := 10 * m + (val[i] - '0' as int), 10 * n + (ref[j] - '0' as int);
      p := 10 * p;
      i, j := i + 1, j + 1;
    }
    DigitStop(val, i, m);
    DigitStop(ref, j, n);
    if IsDigit(CharAt(val, i)) {
      return i, j, 1;
    }
    if IsDigit(CharAt(ref, j)) {
      return i, j, -1;
    }
    r := first_diff;
  }

  lemma DigitStep(s: Text, i: nat, acc: nat)
    requires i < |s| && IsDigit(s[i])
    ensures Number(s, i, acc) == Number(s, i + 1, 10 * acc + (s[i] - '0' as int))
    ensures DigitsEnd(s, i) == DigitsEnd(s, i + 1)
  {}

  lemma DigitStop(s: Text, i: nat, acc: nat)
    requires i <= |s|
    ensures !IsDigit(CharAt(s, i)) ==> Number(s, i, acc) == acc && DigitsEnd(s, i) == i
    ensures IsDigit(CharAt(s, i)) ==> Number(s, i, acc) >= 10 * acc + (s[i] - '0' as int)
  {
    if IsDigit(CharAt(s, i)) { NumberAtLeast(s, i + 1, 10 * acc + (s[i] - '0' as int)); }
  }

  /** version_compare_part(): the sign of the result is the lexicographic order of the keys.
      A missing part is empty. */
  method VersionComparePart(val0: Option<Text>, ref0: Option<Text>) returns (r: int)
    ensures Sign(r) == PartOrder(val0, ref0)
  {
    hide Lex, Key, Number, DigitsEnd;
    var val, ref := OrEmpty(val0), OrEmpty(ref0);
    var i: nat, j: nat := 0, 0;
    while CharAt(val, i) != 0 || CharAt(ref, j) != 0
      invariant i <= |val| && j <= |ref|
      invariant Lex(Key(val, i), Key(ref, j)) == Lex(Key(val, 0), Key(ref, 0))
      decreases |val| - i + |ref| - j
    {
      var i1, j1, d := SkipLetters(val, ref, i, j);
      if d != 0 {
        return d;
      }
      ComparesNumbers(val, i1, ref, j1);
      var i2 := SkipZeros(val, i1);
      var j2 := SkipZeros(ref, j1);
      var i3, j3, e := CompareDigits(val, ref, i2, j2);
      if e != 0 {
        return e;
      }
      DigitsMoveOn(val, i1);
      DigitsMoveOn(ref, j1);
      i, j := i3, j3;
    }
    AtTheEnd(val, i);
    AtTheEnd(ref, j);
    LexSame([0, 0]);
    r := 0;
  }

  lemma DigitsMoveOn(s: Text, i: nat)
    requires i <= |s|
    ensures IsDigit(CharAt(s, i)) ==> DigitsEnd(s, i) > i
  {}

  function OrEmpty(s: Option<Text>): Text {
    match s
    case None => []
    case Some(t) => t
  }

  /** The order that version_compare_part() decides. */
  function PartOrder(a: Option<Text>, b: Option<Text>): int {
    Lex(Key(OrEmpty(a), 0), Key(OrEmpty(b), 0))
  }

  // ---------- version_compare() ----------

  /** The three parts of a version. */
  datatype Version = Version(epoch: nat, upstream: Text, debian: Option<Text>)

  /** What a text says about a version: the epoch stands before the first colon, the Debian
      revision behind the last dash. */
  function Parts(s: Text, atoi: Text -> int): Version {
    var (epoch, rest) := match FirstOf(s, COLON)
      case None => (0, s)
      case Some(i) => (atoi(s) % 0x1_0000_0000, s[i + 1..]);
    AfterEpoch(epoch, rest)
  }

  function AfterEpoch(epoch: nat, rest: Text): Version {
    match LastOf(rest, DASH)
    case None => Version(epoch, rest, None)
    case Some(i) => Version(epoch, rest[..i], Some(rest[i + 1..]))
  }

  /** version_compare() reads back what a version was put together from. */
  lemma PartsOfWhole(epoch: Text, upstream: Text, debian: Text, atoi: Text -> int)
    requires COLON !in epoch && DASH !in debian
    ensures var s := epoch + [COLON] + upstream + [DASH] + debian;
      Parts(s, atoi) == Version(atoi(s) % 0x1_0000_0000, upstream, Some(debian))
  {
    var rest := upstream + [DASH] + debian;
    var s := epoch + [COLON] + upstream + [DASH] + debian;
    assert s == epoch + ([COLON] + rest);
    assert s[|epoch|] == COLON;
    assert s[..|epoch|] == epoch;
    FirstIs(s, COLON, |epoch|);
    assert s[|epoch| + 1..] == rest;
    assert rest[|upstream|] == DASH;
    assert rest[..|upstream|] == upstream && rest[|upstream| + 1..] == debian;
    LastIs(rest, DASH, |upstream|);
  }

  /** Epochs first, then upstream versions, then Debian revisions. */
  function VersionOrder(a: Version, b: Version): int {
    if a.epoch != b.epoch then Sign(a.epoch - b.epoch)
    else if PartOrder(Some(a.upstream), Some(b.upstream)) != 0
    then PartOrder(Some(a.upstream), Some(b.upstream))
    else PartOrder(a.debian, b.debian)
  }

  /** The epoch, and what stands behind it. */
  method CutEpoch(ver: Text, atoi: Text -> int) returns (epoch: nat, rest: Text)
    ensures epoch == Parts(ver, atoi).epoch
    ensures Parts(ver, atoi) == AfterEpoch(epoch, rest)
  {
    epoch, rest := 0, ver;
    var colon := FirstOf(ver, COLON);
    if colon.Some? {
      epoch := atoi(ver) % 0x1_0000_0000;
      rest := ver[colon.value + 1..];
    }
  }

  /** version_compare() */
  method VersionCompare(ver1: Text, ver2: Text, atoi: Text -> int) returns (result: int)
    ensures Sign(result) == VersionOrder(Parts(ver1, atoi), Parts(ver2, atoi))
  {
    hide Lex, Key, PartOrder, Parts;
    var epoch1, ch_ver1 := CutEpoch(ver1, atoi);
    var epoch2, ch_ver2 := CutEpoch(ver2, atoi);
    if epoch1 < epoch2 {
      return -1;
    }
    if epoch1 > epoch2 {
      return 1;
    }
    var upstream1, upstream2 := ch_ver1, ch_ver2;
    var deb1: Option<Text>, deb2: Option<Text> := None, None;
    var dash := LastOf(upstream1, DASH);
    if dash.Some? {
      upstream1, deb1 := upstream1[..dash.value], Some(upstream1[dash.value + 1..]);
    }
    dash := LastOf(upstream2, DASH);
    if dash.Some? {
      upstream2, deb2 := upstream2[..dash.value], Some(upstream2[dash.value + 1..]);
    }
    result := VersionComparePart(Some(upstream1), Some(upstream2));
    if result == 0 {
      result := VersionComparePart(deb1, deb2);
    }
  }

  /** The order of versions is a total preorder: it swaps its sign with its arguments, and
      both its sides compose. */
  lemma VersionsOrdered(a: Version, b: Version, c: Version)
    ensures VersionOrder(a, a) == 0
    ensures VersionOrder(a, b) == -VersionOrder(b, a)
    ensures VersionOrder(a, b) <= 0 && VersionOrder(b, c) <= 0 ==> VersionOrder(a, c) <= 0
    ensures VersionOrder(a, b) < 0 && VersionOrder(b, c) <= 0 ==> VersionOrder(a, c) < 0
    ensures VersionOrder(a, b) <= 0 && VersionOrder(b, c) < 0 ==> VersionOrder(a, c) < 0
  {
    hide PartOrder;
    var x, y, z := Some(a.upstream), Some(b.upstream), Some(c.upstream);
    PartsOrdered(x, y, z);
    PartsOrdered(a.debian, b.debian, c.debian);
  }

  lemma PartsOrdered(a: Option<Text>, b: Option<Text>, c: Option<Text>)
    ensures PartOrder(a, a) == 0
    ensures PartOrder(a, b) == -PartOrder(b, a)
    ensures PartOrder(b, c) == -PartOrder(c, b)
    ensures PartOrder(a, b) <= 0 && PartOrder(b, c) <= 0 ==> PartOrder(a, c) <= 0
    ensures PartOrder(a, b) <= 0 && PartOrder(b, c) <= 0 && PartOrder(a, b) + PartOrder(b, c) < 0 ==>
        PartOrder(a, c) < 0
    ensures PartOrder(a, b) >= 0 && PartOrder(b, c) >= 0 ==> PartOrder(a, c) >= 0
  {
    hide Lex, Key;
    var x, y, z := Key(OrEmpty(a), 0), Key(OrEmpty(b), 0), Key(OrEmpty(c), 0);
    LexSame(x);
    LexSwaps(x, y);
    LexSwaps(y, z);
    LexSwaps(x, z);
    if Lex(x, y) <= 0 && Lex(y, z) <= 0 { LexTransitive(x, y, z); }
    if Lex(z, y) <= 0 && Lex(y, x) <= 0 { LexTransitive(z, y, x); }
  }

  // ---------- the tilde ----------

  const TILDE: byte := 126

  lemma {:induction false} DigitsIgnoreRest(s: Text, t: Text, i: nat, acc: nat)
    requires i <= |s| && (t == [] || !IsDigit(t[0]))
    ensures DigitsEnd(s + t, i) == DigitsEnd(s, i)
    ensures Number(s + t, i, acc) == Number(s, i, acc)
    decreases |s| - i
  {
    if i < |s| {
      assert (s + t)[i] == s[i];
      if IsDigit(s[i]) { DigitsIgnoreRest(s, t, i + 1, 10 * acc + (s[i] - '0' as int)); }
    } else if t != [] {
      assert (s + t)[i] == t[0];
    }
  }

  /** Behind what two texts share, the first characters decide, if no digit is one of them. */
  lemma {:induction false} BehindCommon(s: Text, x: Text, y: Text, i: nat)
    requires i <= |s| && 0 !in s
    requires (x != [] ==> !IsDigit(x[0])) && (y != [] ==> !IsDigit(y[0]))
    ensures Lex(Key(s + x, i), Key(s + y, i)) == Lex(Key(s + x, |s|), Key(s + y, |s|))
    decreases |s| - i
  {
    hide Lex, Key, DigitsEnd, Number;
    var v, w := s + x, s + y;
    if i < |s| {
      assert v[i] == w[i] == s[i];
      KeyHead(v, i);
      KeyHead(w, i);
      ComparesHeads(Order(s[i]), Order(s[i]), Key(v, i)[1..], Key(w, i)[1..]);
      if NonDigit(s[i]) {
        BehindCommon(s, x, y, i + 1);
      } else {
        DigitsIgnoreRest(s, x, i, 0);
        DigitsIgnoreRest(s, y, i, 0);
        DigitsMoveOn(s, i);
        ComparesNumbers(v, i, w, i);
        BehindCommon(s, x, y, DigitsEnd(s, i));
      }
    }
  }

  lemma FirstDecides(s: Text, x: Text, y: Text)
    requires 0 !in s && (x != [] ==> NonDigit(x[0])) && (y != [] ==> NonDigit(y[0]))
    requires Order(CharAt(x, 0)) != Order(CharAt(y, 0))
    ensures PartOrder(Some(s + x), Some(s + y)) == Sign(Order(CharAt(x, 0)) - Order(CharAt(y, 0)))
  {
    hide Lex, Key;
    BehindCommon(s, x, y, 0);
    var v, w := s + x, s + y;
    assert CharAt(v, |s|) == CharAt(x, 0) && CharAt(w, |s|) == CharAt(y, 0);
    KeyHead(v, |s|);
    KeyHead(w, |s|);
    ComparesHeads(Order(CharAt(v, |s|)), Order(CharAt(w, |s|)), Key(v, |s|)[1..], Key(w, |s|)[1..]);
  }

  /** A tilde sorts before everything, even before the end of the text. */
  lemma TildeFirst(s: Text, t: Text, u: Text)
    requires 0 !in s && (u != [] ==> u[0] != 0 && u[0] != TILDE && !IsDigit(u[0]))
    ensures PartOrder(Some(s + ([TILDE] + t)), Some(s + u)) == -1
  {
    hide PartOrder;
    FirstDecides(s, [TILDE] + t, u);
  }

  /** A to Z and a to z. */
  predicate Letter(c: byte) { 65 <= c <= 90 || 97 <= c <= 122 }

  /** Neither a letter nor a digit nor a tilde. */
  predicate Mark(c: byte) { c != 0 && !Letter(c) && !(48 <= c <= 57) && c != 126 }

  /** Behind what two texts share, the end sorts before a letter, and a letter before any
      other character that is no digit and no tilde; letters sort by their codes, and so do
      the other characters. */
  lemma CharactersOrdered(s: Text, c: byte, t: Text, d: byte, u: Text)
    requires 0 !in s
    ensures Letter(c) || Mark(c) ==> PartOrder(Some(s), Some(s + ([c] + t))) == -1
    ensures Letter(c) && Mark(d) ==> PartOrder(Some(s + ([c] + t)), Some(s + ([d] + u))) == -1
    ensures (Letter(c) && Letter(d)) || (Mark(c) && Mark(d)) ==>
      (c < d ==> PartOrder(Some(s + ([c] + t)), Some(s + ([d] + u))) == -1)
  {
    hide PartOrder;
    assert s + [] == s;
    if Letter(c) || Mark(c) {
      FirstDecides(s, [], [c] + t);
      if (Letter(c) && Mark(d)) || (((Letter(c) && Letter(d)) || (Mark(c) && Mark(d))) && c < d) {
        FirstDecides(s, [c] + t, [d] + u);
      }
    }
  }

  /** What version_compare() makes of two whole versions: the epochs decide, as atoi() reads
      them, then the upstream versions, then the Debian revisions. */
  lemma WholeDecides(epoch1: Text, upstream1: Text, debian1: Text, epoch2: Text, upstream2: Text, debian2: Text,
      atoi: Text -> int)
    requires COLON !in epoch1 && DASH !in debian1 && COLON !in epoch2 && DASH !in debian2
    ensures var v := epoch1 + [COLON] + upstream1 + [DASH] + debian1;
      var w := epoch2 + [COLON] + upstream2 + [DASH] + debian2;
      var m, n := atoi(v) % 0x1_0000_0000, atoi(w) % 0x1_0000_0000;
      var o := VersionOrder(Parts(v, atoi), Parts(w, atoi));
      && (m < n ==> o == -1) && (m > n ==> o == 1)
      && (m == n && PartOrder(Some(upstream1), Some(upstream2)) != 0 ==>
          o == PartOrder(Some(upstream1), Some(upstream2)))
      && (m == n && PartOrder(Some(upstream1), Some(upstream2)) == 0 ==>
          o == PartOrder(Some(debian1), Some(debian2)))
  {
    hide PartOrder, Parts;
    PartsOfWhole(epoch1, upstream1, debian1, atoi);
    PartsOfWhole(epoch2, upstream2, debian2, atoi);
  }

  /** A version without a colon has epoch 0, and one without a dash an empty revision. */
  lemma PartsMissing(upstream: Text, debian: Text, atoi: Text -> int)
    requires COLON !in upstream && COLON !in debian && DASH !in debian
    ensures Parts(upstream + [DASH] + debian, atoi) == Version(0, upstream, Some(debian))
    ensures DASH !in upstream ==> Parts(upstream, atoi) == Version(0, upstream, None)
    ensures forall t: Option<Text> :: PartOrder(None, t) == PartOrder(Some([]), t)
  {
    var s := upstream + [DASH] + debian;
    assert COLON !in s;
    assert FirstOf(s, COLON) == None && FirstOf(upstream, COLON) == None;
    assert s[|upstream|] == DASH && s[..|upstream|] == upstream && s[|upstream| + 1..] == debian;
    LastIs(s, DASH, |upstream|);
  }

  // ---------- test_version() ----------

  const VER_NULL := 0
  const VER_EQUAL := 1
  const VER_LESS := 2
  const VER_LESS_EQUAL := 3
  const VER_MORE := 4
  const VER_MORE_EQUAL := 5
  const VER_ANY := 6

  /** What an operator asks of two versions; one that the enumeration does not name asks for
      the impossible. */
  predicate Related(operator: nat, a: Version, b: Version) {
    || operator == VER_ANY
    || (operator == VER_EQUAL && VersionOrder(a, b) == 0)
    || (operator == VER_LESS && VersionOrder(a, b) < 0)
    || (operator == VER_LESS_EQUAL && VersionOrder(b, a) >= 0)
    || (operator == VER_MORE && VersionOrder(b, a) < 0)
    || (operator == VER_MORE_EQUAL && VersionOrder(b, a) <= 0)
  }

  /** The operators of the enumeration by their numbers, on the sign of the order. */
  lemma OperatorsMean(a: Version, b: Version)
    ensures Related(1, a, b) <==> VersionOrder(a, b) == 0
    ensures Related(2, a, b) <==> VersionOrder(a, b) < 0
    ensures Related(3, a, b) <==> VersionOrder(a, b) <= 0
    ensures Related(4, a, b) <==> VersionOrder(a, b) > 0
    ensures Related(5, a, b) <==> VersionOrder(a, b) >= 0
    ensures Related(6, a, b)
    ensures forall op: nat :: op == 0 || op > 6 ==> !Related(op, a, b)
  {
    hide VersionOrder;
    VersionsOrdered(a, b, a);
  }

  /** test_version() */
  method TestVersion(version1: Text, version2: Text, operator: nat, atoi: Text -> int) returns (r: bool)
    ensures r == Related(operator, Parts(version1, atoi), Parts(version2, atoi))
  {
    hide VersionOrder;
    var version_result := VersionCompare(version1, version2, atoi);
    VersionsOrdered(Parts(version1, atoi), Parts(version2, atoi), Parts(version1, atoi));
    match operator
    case 6 => r := true;
    case 1 => r := version_result == 0;
    case 2 => r := version_result < 0;
    case 3 => r := version_result <= 0;
    case 4 => r := version_result > 0;
    case 5 => r := version_result >= 0;
    case _ => r := false;
  }
}
