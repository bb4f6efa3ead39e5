/** What the operators and keywords of expr.c compute, said on the tokens of a command line
    and on plain numbers and characters. */
module ExprMeaning {
  import opened Bits
  import opened CStrings
  import opened ExprValues
  import opened Expr

  // ---------- numbers ----------

  predicate ReadsAs(s: Text, n: int) {
    Strtoll(s).Some? && Strtoll(s).value == n
  }

  /** How strtoll() reads decimal digits that 64 bits hold. */
  lemma DigitsReadAs(s: Text, d: byte, n: int)
    requires s != [] && AllDigits(s) && '0' as int <= d <= '9' as int && ReadsAs(s, n)
    requires n < 0x7fff_ffff_ffff_ffff && 10 * n + (d - 48) < 0x8000_0000_0000_0000
    ensures ReadsAs([d], d - 48)
    ensures ReadsAs(s + [d], 10 * n + (d - 48))
  {
    hide Number;
    PlainDigits(s);
    PlainDigits([d]);
    PlainDigits(s + [d]);
    NumberSnoc(s, d, 0, 0);
    OneDigit(d);
  }

  /** A sign before the digits, and a space before all. */
  lemma SignsReadAs(s: Text, n: int)
    requires s != [] && AllDigits(s) && ReadsAs(s, n) && n < 0x7fff_ffff_ffff_ffff
    ensures ReadsAs([45] + s, -n) && ReadsAs([43] + s, n) && ReadsAs([32] + s, n)
  {
    hide Number, Strtoll, AllDigits;
    PlainDigits(s);
    SignedDigits(s, 45);
    SignedDigits(s, 43);
    SpacedDigits(s);
  }

  lemma OneDigit(d: byte)
    requires IsDigit(d)
    ensures Number([d], 0, 0) == d - 48
  {
    assert Number([d], 1, d - 48) == d - 48;
  }

  lemma PlainDigits(s: Text)
    requires s != [] && AllDigits(s)
    ensures ReadsAs(s, if Number(s, 0, 0) >= -LEAST then -LEAST - 1 else Number(s, 0, 0))
  {
    hide Number;
    assert IsDigit(s[0]);
    SpanIs(s, {9, 10, 11, 12, 13, SPACE}, 0);
    assert s[0..] == s;
  }

  lemma SignedDigits(s: Text, sign: byte)
    requires s != [] && AllDigits(s) && (sign == 45 || sign == 43) && Number(s, 0, 0) < -LEAST
    ensures var n: int := Number(s, 0, 0); ReadsAs([sign] + s, if sign == 45 then -n else n)
  {
    hide Number;
    var t := [sign] + s;
    SpanIs(t, {9, 10, 11, 12, 13, SPACE}, 0);
    assert t[0..] == t && t[1..] == s;
  }

  lemma SpacedDigits(s: Text)
    requires s != [] && AllDigits(s)
    ensures Strtoll([32] + s) == Strtoll(s)
  {
    hide Number;
    var t := [32] + s;
    assert IsDigit(s[0]) && t[1] == s[0];
    SpanIs(t, {9, 10, 11, 12, 13, SPACE}, 1);
    SpanIs(s, {9, 10, 11, 12, 13, SPACE}, 0);
    assert t[1..] == s && s[0..] == s;
  }

  // ---------- one operator between two tokens ----------

  /** A token that is read as a value. */
  predicate Operand(t: Text) {
    && t != Chars("(") && t != Chars(")")
    && t != Chars("quote") && t != Chars("length") && t != Chars("match") && t != Chars("index")
    && t != Chars("substr")
  }

  lemma TokenTexts()
    ensures OPEN == Chars("(") && CLOSE == Chars(")")
    ensures QUOTE == Chars("quote") && LENGTH == Chars("length") && MATCH == Chars("match")
    ensures INDEX == Chars("index") && SUBSTR == Chars("substr")
    ensures BAR == Chars("|") && AND == Chars("&") && COLON == Chars(":")
    ensures LESS == Chars("<") && LESS_EQUAL == Chars("<=") && EQUAL == Chars("=") && EQUAL_EQUAL == Chars("==")
    ensures NOT_EQUAL == Chars("!=") && MORE_EQUAL == Chars(">=") && MORE == Chars(">")
    ensures ADD == Chars("+") && SUBTRACT == Chars("-") && TIMES == Chars("*") && DIVIDE == Chars("/")
    ensures REMAINDER == Chars("%")
  {}

  /** How tightly the operators bind. */
  lemma LevelsAre(t: Text)
    ensures LevelOf(t) ==
      if t == Chars("|") then 0
      else if t == Chars("&") then 1
      else if t == Chars("<") || t == Chars("<=") || t == Chars("=") || t == Chars("==") || t == Chars("!=")
        || t == Chars(">=") || t == Chars(">") then 2
      else if t == Chars("+") || t == Chars("-") then 3
      else if t == Chars("*") || t == Chars("/") || t == Chars("%") then 4
      else if t == Chars(":") then 5
      else 6
  {
    hide Chars;
    TokenTexts();
  }

  lemma BinaryReads(colon: Matcher, x: Text, op: Operator, y: Text)
    requires Operand(x) && Operand(y)
    ensures Parse(colon, 0, [x, op, y]) == Give(Apply(colon, op, String(x), String(y)), [])
  {
    hide Parse, Chars, Apply, LevelOf;
    TokenTexts();
    var e := Binary(op, Atom(x), Atom(y));
    PrintedTreeEvaluates(colon, e);
    PrintBinary(op, x, y);
  }

  lemma PrintBinary(op: Operator, x: Text, y: Text)
    ensures Print(Binary(op, Atom(x), Atom(y)), 0) == [x, op, y]
  {
    hide LevelOf;
    assert Print(Atom(x), LevelOf(op)) == [x] && Print(Atom(y), LevelOf(op) + 1) == [y];
  }

  /** The number that a program ends with. */
  predicate Ends(out: Out, n: int) {
    out.Got? && out.rest == [] && out.value.Integer? && out.value.i == n
  }

  /** +, - and *: the exact result where 64 bits hold it, and otherwise one that differs from
      it by a multiple of 2^64. */
  lemma SumsAndProducts(colon: Matcher, x: Text, y: Text, a: i64, b: i64)
    requires Operand(x) && Operand(y) && Strtoll(x) == Some(a) && Strtoll(y) == Some(b)
    ensures Computes(Parse(colon, 0, [x, Chars("+"), y]), a + b)
    ensures Computes(Parse(colon, 0, [x, Chars("-"), y]), a - b)
    ensures Computes(Parse(colon, 0, [x, Chars("*"), y]), a * b)
  {
    hide Parse, Chars, Strtoll, Wrap;
    TokenTexts();
    LevelsAre(ADD);
    LevelsAre(SUBTRACT);
    LevelsAre(TIMES);
    BinaryReads(colon, x, ADD, y);
    BinaryReads(colon, x, SUBTRACT, y);
    BinaryReads(colon, x, TIMES, y);
    WrapMeans(a + b);
    WrapMeans(a - b);
    WrapMeans(a * b);
  }

  predicate Computes(out: Out, n: int) {
    && out.Got? && out.rest == [] && out.value.Integer?
    && (-0x8000_0000_0000_0000 <= n < 0x8000_0000_0000_0000 ==> out.value.i == n)
    && (out.value.i - n) % 0x1_0000_0000_0000_0000 == 0
  }

  lemma WrapMeans(n: int)
    ensures LEAST <= n < -LEAST ==> Wrap(n) == n
    ensures (Wrap(n) - n) % 0x1_0000_0000_0000_0000 == 0
  {
    var m := 0x1_0000_0000_0000_0000;
    var q := (n - LEAST) / m;
    assert n - LEAST == q * m + (n - LEAST) % m;
    assert Wrap(n) - n == (-q) * m;
  }

  /** / and %: the quotient q and the remainder r fit together, r is smaller than the divisor
      and has the sign of the number; a divisor of 0 is an error, and the one quotient that
      64 bits do not hold traps. */
  lemma Quotients(colon: Matcher, x: Text, y: Text, a: i64, b: i64)
    requires Operand(x) && Operand(y) && Strtoll(x) == Some(a) && Strtoll(y) == Some(b)
    ensures var d, m := Parse(colon, 0, [x, Chars("/"), y]), Parse(colon, 0, [x, Chars("%"), y]);
      if b == 0 then d == Dead(DivisionByZero) && m == Dead(DivisionByZero)
      else if a == -0x8000_0000_0000_0000 && b == -1 then d == Dead(Trap) && m == Dead(Trap)
      else exists q: int, r: int ::
        Ends(d, q) && Ends(m, r) && a == b * q + r && Abs(r) < Abs(b) && (a >= 0 ==> r >= 0) && (a <= 0 ==> r <= 0)
  {
    hide Parse, Chars, Strtoll, Quotient;
    TokenTexts();
    LevelsAre(DIVIDE);
    LevelsAre(REMAINDER);
    BinaryReads(colon, x, DIVIDE, y);
    BinaryReads(colon, x, REMAINDER, y);
    if b != 0 && !(a == LEAST && b == -1) {
      DivisionTruncates(a, b);
      QuotientFits(a, b);
      var q := Quotient(a, b);
      assert Ends(Parse(colon, 0, [x, DIVIDE, y]), q);
      assert Ends(Parse(colon, 0, [x, REMAINDER, y]), a - b * q);
    }
  }

  /** What is no number cannot be calculated with. */
  lemma NoNumbers(colon: Matcher, x: Text, op: Text, y: Text)
    requires Operand(x) && Operand(y) && (Strtoll(x) == None || Strtoll(y) == None)
    requires op == Chars("+") || op == Chars("-") || op == Chars("*") || op == Chars("/") || op == Chars("%")
    ensures Parse(colon, 0, [x, op, y]) == Dead(NonNumeric)
  {
    hide Parse, Chars, Strtoll;
    TokenTexts();
    LevelsAre(op);
    BinaryReads(colon, x, op, y);
  }

  // ---------- comparisons ----------

  /** The program ends with 1 if the comparison holds, and with 0 otherwise. */
  predicate Answers(colon: Matcher, x: Text, op: Text, y: Text, holds: bool) {
    Ends(Parse(colon, 0, [x, op, y]), if holds then 1 else 0)
  }

  /** The seven comparisons of two numbers. */
  lemma NumbersCompare(colon: Matcher, x: Text, y: Text, a: i64, b: i64)
    requires Operand(x) && Operand(y) && Strtoll(x) == Some(a) && Strtoll(y) == Some(b)
    ensures Answers(colon, x, Chars("<"), y, a < b)
    ensures Answers(colon, x, Chars("<="), y, a <= b)
    ensures Answers(colon, x, Chars("="), y, a == b)
    ensures Answers(colon, x, Chars("=="), y, a == b)
    ensures Answers(colon, x, Chars("!="), y, a != b)
    ensures Answers(colon, x, Chars(">="), y, a >= b)
    ensures Answers(colon, x, Chars(">"), y, a > b)
  {
    hide Answers, Chars, Strtoll, Operand, Compares, Parse;
    TokenTexts();
    SevenComparisons();
    forall op | IsComparison(op) ensures Answers(colon, x, op, y, Compares(op, a, b)) {
      CompareOne(colon, x, op, y, a, b);
    }
  }

  lemma SevenComparisons()
    ensures IsComparison(LESS) && IsComparison(LESS_EQUAL) && IsComparison(EQUAL) && IsComparison(EQUAL_EQUAL)
    ensures IsComparison(NOT_EQUAL) && IsComparison(MORE_EQUAL) && IsComparison(MORE)
    ensures forall a, b :: Compares(LESS, a, b) == (a < b) && Compares(LESS_EQUAL, a, b) == (a <= b)
    ensures forall a, b :: Compares(EQUAL, a, b) == (a == b) && Compares(EQUAL_EQUAL, a, b) == (a == b)
    ensures forall a, b :: Compares(NOT_EQUAL, a, b) == (a != b) && Compares(MORE_EQUAL, a, b) == (a >= b)
    ensures forall a, b :: Compares(MORE, a, b) == (a > b)
  {}

  lemma CompareOne(colon: Matcher, x: Text, op: Text, y: Text, a: int, b: int)
    requires Operand(x) && Operand(y) && IsComparison(op)
    requires var l, r := Numeric(String(x)), Numeric(String(y));
      if l.Integer? && r.Integer? then a == l.i && b == r.i else a == Strcmp(ToText(l), ToText(r)) && b == 0
    ensures Answers(colon, x, op, y, Compares(op, a, b))
  {
    hide Parse, Chars, Operand, Strtoll, ToText, Strcmp, Numeric, Compares;
    assert LevelOf(op) == 2;
    BinaryReads(colon, x, op, y);
  }

  /** The first difference decides; the end comes before every character. */
  predicate Before(s: Text, t: Text) {
    exists k: nat :: k <= |s| && k < |t| && s[..k] == t[..k] && (k == |s| || s[k] < t[k])
  }

  lemma {:induction false} StrcmpMeans(s: Text, t: Text)
    ensures Strcmp(s, t) == 0 <==> s == t
    ensures Strcmp(s, t) < 0 <==> Before(s, t)
    ensures Strcmp(s, t) > 0 <==> Before(t, s)
    decreases |s|
  {
    if s != [] && t != [] && s[0] == t[0] {
      StrcmpMeans(s[1..], t[1..]);
      BeforeBehind(s, t);
      BeforeBehind(t, s);
      assert s == [s[0]] + s[1..] && t == [t[0]] + t[1..];
    } else {
      BeforeAtOnce(s, t);
      BeforeAtOnce(t, s);
    }
  }

  lemma BeforeBehind(s: Text, t: Text)
    requires s != [] && t != [] && s[0] == t[0]
    ensures Before(s, t) <==> Before(s[1..], t[1..])
  {
    var u, v := s[1..], t[1..];
    if Before(s, t) {
      var k: nat :| k <= |s| && k < |t| && s[..k] == t[..k] && (k == |s| || s[k] < t[k]);
      assert k > 0;
      assert u[..k - 1] == s[..k][1..] && v[..k - 1] == t[..k][1..];
    }
    if Before(u, v) {
      var k: nat :| k <= |u| && k < |v| && u[..k] == v[..k] && (k == |u| || u[k] < v[k]);
      assert s[..k + 1] == [s[0]] + u[..k] && t[..k + 1] == [t[0]] + v[..k];
    }
  }

  lemma BeforeAtOnce(s: Text, t: Text)
    requires s == [] || t == [] || s[0] != t[0]
    ensures Before(s, t) <==> t != [] && (s == [] || s[0] < t[0])
  {
    if t != [] && (s == [] || s[0] < t[0]) { assert s[..0] == t[..0]; }
    forall k | 0 < k <= |s| && k <= |t| ensures s[..k] != t[..k] {
      assert s[..k][0] != t[..k][0];
    }
  }

  /** Texts, or a text and a number in its canonical form, by their first difference. */
  lemma TextsCompare(colon: Matcher, x: Text, y: Text)
    requires Operand(x) && Operand(y) && (Strtoll(x) == None || Strtoll(y) == None)
    ensures var s := if Strtoll(x) == None then x else Decimal(Strtoll(x).value);
      var t := if Strtoll(y) == None then y else Decimal(Strtoll(y).value);
      && Answers(colon, x, Chars("<"), y, Before(s, t))
      && Answers(colon, x, Chars("<="), y, !Before(t, s))
      && Answers(colon, x, Chars("="), y, s == t)
      && Answers(colon, x, Chars("=="), y, s == t)
      && Answers(colon, x, Chars("!="), y, s != t)
      && Answers(colon, x, Chars(">="), y, !Before(s, t))
      && Answers(colon, x, Chars(">"), y, Before(t, s))
  {
    hide Parse, Chars, Strtoll, Strcmp, Before, Decimal, Answers, Operand, Compares;
    var s := if Strtoll(x) == None then x else Decimal(Strtoll(x).value);
    var t := if Strtoll(y) == None then y else Decimal(Strtoll(y).value);
    StrcmpMeans(s, t);
    TokenTexts();
    SevenComparisons();
    forall op | IsComparison(op) ensures Answers(colon, x, op, y, Compares(op, Strcmp(s, t), 0)) {
      CompareOne(colon, x, op, y, Strcmp(s, t), 0);
    }
  }

  // ---------- | and & ----------

  /** | gives the first value unless it is null, & the first value unless one is null; null
      are the number 0, the empty text and the text "0". */
  lemma NullsDecide(colon: Matcher, l: Value, r: Value)
    ensures var nulls := {Integer(0), String([]), String(Chars("0"))};
      && Apply(colon, Chars("|"), l, r) == Ok(if l in nulls then r else l)
      && Apply(colon, Chars("&"), l, r) == Ok(if l in nulls || r in nulls then Integer(0) else l)
  {
    TokenTexts();
    assert Chars("0") == ['0' as int];
  }

  lemma OrAndRead(colon: Matcher, x: Text, y: Text)
    requires Operand(x) && Operand(y)
    ensures var nulls := {[], Chars("0")};
      && Parse(colon, 0, [x, Chars("|"), y]) == Got(String(if x in nulls then y else x), [])
      && Parse(colon, 0, [x, Chars("&"), y])
        == Got(if x in nulls || y in nulls then Integer(0) else String(x), [])
  {
    hide Parse, Chars, Apply;
    TokenTexts();
    LevelsAre(BAR);
    LevelsAre(AND);
    BinaryReads(colon, x, BAR, y);
    BinaryReads(colon, x, AND, y);
    NullsDecide(colon, String(x), String(y));
  }

  // ---------- keywords ----------

  /** What fits the 64 bits of a number of characters. */
  predicate Countable(s: Text) { |s| < 0x7fff_ffff_ffff_ffff }

  lemma LengthReads(colon: Matcher, x: Text)
    requires Operand(x) && Countable(x)
    ensures Ends(Parse(colon, 0, [Chars("length"), x]), |x|)
  {
    hide Parse, Chars, Wrap;
    TokenTexts();
    PrintedTreeEvaluates(colon, Length(Atom(x)));
    assert Print(Atom(x), 6) == [x] && Print(Length(Atom(x)), 0) == [LENGTH] + Print(Atom(x), 6) == [LENGTH, x];
    WrapMeans(|x|);
  }

  /** The place, counted from 1, of the first character of x that stands in y, or 0. */
  predicate FirstPlace(x: Text, y: Text, n: nat) {
    if n == 0 then forall i :: 0 <= i < |x| ==> x[i] !in y
    else n <= |x| && x[n - 1] in y && forall i :: 0 <= i < n - 1 ==> x[i] !in y
  }

  lemma IndexReads(colon: Matcher, x: Text, y: Text)
    requires Operand(x) && Operand(y) && Countable(x)
    ensures exists n: nat :: FirstPlace(x, y, n) && Ends(Parse(colon, 0, [Chars("index"), x, y]), n)
  {
    hide Parse, Chars, Wrap, IndexOf, FirstPlace;
    TokenTexts();
    PrintedTreeEvaluates(colon, Index(Atom(x), Atom(y)));
    assert Print(Atom(x), 6) == [x] && Print(Atom(y), 6) == [y];
    assert Print(Index(Atom(x), Atom(y)), 0) == [INDEX] + Print(Atom(x), 6) + Print(Atom(y), 6) == [INDEX, x, y];
    var n := IndexOf(x, y);
    FirstPlaceIs(x, y);
    WrapMeans(n);
    assert Ends(Parse(colon, 0, [INDEX, x, y]), n);
  }

  lemma FirstPlaceIs(x: Text, y: Text)
    ensures FirstPlace(x, y, IndexOf(x, y)) && IndexOf(x, y) <= |x|
  {}

  /** The characters of x from place i on, counted from 1, and at most n of them; nothing if
      the place is none of the text, if n is not positive, or if one of them is no number. */
  predicate Cut(x: Text, i: Option<i64>, n: Option<i64>, s: Text) {
    if i.Some? && n.Some? && 1 <= i.value <= |x| && n.value >= 1 then
      && |s| == (if n.value <= |x| - i.value + 1 then n.value else |x| - i.value + 1)
      && forall k :: 0 <= k < |s| ==> s[k] == x[i.value - 1 + k]
    else s == []
  }

  lemma SubstrReads(colon: Matcher, x: Text, p: Text, q: Text)
    requires Operand(x) && Operand(p) && Operand(q)
    ensures exists s: Text ::
      Cut(x, Strtoll(p), Strtoll(q), s) && Parse(colon, 0, [Chars("substr"), x, p, q]) == Got(String(s), [])
  {
    hide Parse, Chars, Strtoll;
    TokenTexts();
    var e := Substr(Atom(x), Atom(p), Atom(q));
    PrintedTreeEvaluates(colon, e);
    assert Print(Atom(x), 6) == [x] && Print(Atom(p), 6) == [p] && Print(Atom(q), 6) == [q];
    assert Print(e, 0) == [SUBSTR] + Print(Atom(x), 6) + Print(Atom(p), 6) + Print(Atom(q), 6) == [SUBSTR, x, p, q];
    assert Parse(colon, 0, [SUBSTR, x, p, q]) == Got(String(Substring(x, String(p), String(q))), []);
  }

  /** quote takes any token for a text; : and match ask the matcher. */
  lemma QuoteAndMatchRead(colon: Matcher, x: Text, y: Text, z: Text)
    requires Operand(x) && Operand(y)
    ensures Parse(colon, 0, [Chars("quote"), z]) == Got(String(z), [])
    ensures Parse(colon, 0, [Chars("match"), x, y]) == Parse(colon, 0, [x, Chars(":"), y])
    ensures Parse(colon, 0, [x, Chars(":"), y]) ==
      if colon(x, y).Some? then Got(colon(x, y).value, []) else Dead(BadPattern)
  {
    hide Parse, Chars;
    TokenTexts();
    LevelsAre(Expr.COLON);
    BinaryReads(colon, x, Expr.COLON, y);
    PrintedTreeEvaluates(colon, Quoted(z));
    PrintedTreeEvaluates(colon, Match(Atom(x), Atom(y)));
    assert Print(Quoted(z), 0) == [QUOTE, z];
    assert Print(Atom(x), 6) == [x] && Print(Atom(y), 6) == [y];
    assert Print(Match(Atom(x), Atom(y)), 0) == [MATCH] + Print(Atom(x), 6) + Print(Atom(y), 6) == [MATCH, x, y];
  }

  // ---------- grouping ----------

  /** Of two operators in a row the tighter one takes its operands first, and of two that bind
      alike the left one. */
  lemma TwoOperators(colon: Matcher, x: Text, p: Operator, y: Text, q: Operator, z: Text)
    requires Operand(x) && Operand(y) && Operand(z)
    ensures Parse(colon, 0, [x, p, y, q, z]) == Give(
      if LevelOf(p) >= LevelOf(q)
      then Then(Apply(colon, p, String(x), String(y)), v => Apply(colon, q, v, String(z)))
      else Then(Apply(colon, q, String(y), String(z)), v => Apply(colon, p, String(x), v)), [])
  {
    hide Parse, Chars, Apply, LevelOf;
    TokenTexts();
    assert Proper(Atom(x)) && Proper(Atom(y)) && Proper(Atom(z));
    if LevelOf(p) >= LevelOf(q) {
      var l := Binary(p, Atom(x), Atom(y));
      assert Proper(l) && Evaluate(colon, l) == Apply(colon, p, String(x), String(y));
      PrintedTreeEvaluates(colon, Binary(q, l, Atom(z)));
      PrintLeft(x, p, y, q, z);
    } else {
      var r := Binary(q, Atom(y), Atom(z));
      assert Proper(r) && Evaluate(colon, r) == Apply(colon, q, String(y), String(z));
      PrintedTreeEvaluates(colon, Binary(p, Atom(x), r));
      PrintRight(x, p, y, q, z);
    }
  }

  lemma PrintLeft(x: Text, p: Operator, y: Text, q: Operator, z: Text)
    requires LevelOf(p) >= LevelOf(q)
    ensures Print(Binary(q, Binary(p, Atom(x), Atom(y)), Atom(z)), 0) == [x, p, y, q, z]
  {
    hide LevelOf;
    var e := Binary(p, Atom(x), Atom(y));
    assert Print(Atom(x), LevelOf(p)) == [x] && Print(Atom(y), LevelOf(p) + 1) == [y];
    assert Print(Atom(z), LevelOf(q) + 1) == [z];
    assert Print(e, LevelOf(q)) == [x] + [p] + [y];
    assert Print(Binary(q, e, Atom(z)), 0) == Print(e, LevelOf(q)) + [q] + Print(Atom(z), LevelOf(q) + 1);
  }

  lemma PrintRight(x: Text, p: Operator, y: Text, q: Operator, z: Text)
    requires LevelOf(p) < LevelOf(q)
    ensures Print(Binary(p, Atom(x), Binary(q, Atom(y), Atom(z))), 0) == [x, p, y, q, z]
  {
    hide LevelOf;
    var e := Binary(q, Atom(y), Atom(z));
    assert Print(Atom(y), LevelOf(q)) == [y] && Print(Atom(z), LevelOf(q) + 1) == [z];
    assert Print(Atom(x), LevelOf(p)) == [x];
    assert Print(e, LevelOf(p) + 1) == [y] + [q] + [z];
    assert Print(Binary(p, Atom(x), e), 0) == Print(Atom(x), LevelOf(p)) + [p] + Print(e, LevelOf(p) + 1);
  }
}
