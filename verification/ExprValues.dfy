/** The values of expr.c: 64-bit numbers and texts, which turn into one another in place,
    and the operators on them. */
module ExprValues {
  import opened Bits
  import opened CStrings

  const LEAST := -0x8000_0000_0000_0000

  /** arith_t */
  type i64 = x: int | LEAST <= x < -LEAST

  datatype Value = Integer(i: i64) | String(s: Text)

  datatype Error = SyntaxError | NonNumeric | DivisionByZero | BadPattern | Trap

  datatype Result<+T> = Ok(value: T) | Died(error: Error)

  // ---------- numbers as texts ----------

  const MINUS: byte := 45
  const PLUS: byte := 43

  function Digits(n: nat): Text {
    if n < 10 then ['0' as int + n] else Digits(n / 10) + ['0' as int + n % 10]
  }

  function Abs(x: int): nat { if x < 0 then -x else x }

  /** What printf writes for %lld. */
  function Decimal(i: i64): Text {
    if i < 0 then [MINUS] + Digits(Abs(i)) else Digits(i)
  }

  predicate AllDigits(s: Text) {
    forall k :: 0 <= k < |s| ==> IsDigit(s[k])
  }

  /** strtoll() on all of a text: spaces, a sign, digits to the very end. It stops at the
      bounds of 64 bits. */
  function Strtoll(s: Text): Option<i64> {
    var t := s[Span(s, {9, 10, 11, 12, 13, SPACE})..];
    var u := if t != [] && (t[0] == MINUS || t[0] == PLUS) then t[1..] else t;
    if u == [] || !AllDigits(u) then None
    else
      var n: int := Number(u, 0, 0);
      Some(if t[0] == MINUS then (if n > -LEAST then LEAST else -n) else if n >= -LEAST then -LEAST - 1 else n)
  }

  lemma {:induction false} NumberSnoc(s: Text, d: byte, i: nat, acc: nat)
    requires AllDigits(s) && IsDigit(d) && i <= |s|
    ensures Number(s + [d], i, acc) == 10 * Number(s, i, acc) + (d - '0' as int)
    decreases |s| - i
  {
    if i < |s| {
      NumberSnoc(s, d, i + 1, 10 * acc + (s[i] - '0' as int));
    } else {
      assert (s + [d])[i] == d;
    }
  }

  lemma {:induction false} DigitsRead(n: nat)
    ensures Digits(n) != [] && AllDigits(Digits(n)) && Number(Digits(n), 0, 0) == n
  {
    if n >= 10 {
      DigitsRead(n / 10);
      NumberSnoc(Digits(n / 10), '0' as int + n % 10, 0, 0);
    }
  }

  /** Every number survives the way to a text and back. */
  lemma DecimalReads(i: i64)
    ensures Strtoll(Decimal(i)) == Some(i)
  {
    var n := Abs(i);
    DigitsRead(n);
    var s := Decimal(i);
    SpanIs(s, {9, 10, 11, 12, 13, SPACE}, 0);
    assert s[0..] == s;
    if i < 0 { assert s[1..] == Digits(n); } else { assert s[0] != MINUS && s[0] != PLUS; }
  }

  // ---------- coercion ----------

  function ToText(v: Value): Text {
    match v
    case Integer(i) => Decimal(i)
    case String(s) => s
  }

  function ToNumber(v: Value): Option<i64> {
    match v
    case Integer(i) => Some(i)
    case String(s) => Strtoll(s)
  }

  /** toarith() leaves a value alone that is no number. */
  function Numeric(v: Value): Value {
    match ToNumber(v)
    case Some(i) => Integer(i)
    case None => v
  }

  predicate Null(v: Value) {
    match v
    case Integer(i) => i == 0
    case String(s) => s == [] || s == ['0' as int]
  }

  /** A VALUE on the heap, which toarith() and tostring() change in place. */
  class Val {
    var value: Value

    constructor (v: Value)
      ensures value == v
    {
      value := v;
    }

    /** tostring() */
    method ToString()
      modifies this
      ensures value == String(ToText(old(value)))
    {
      if value.Integer? {
        value := String(Decimal(value.i));
      }
    }

    /** toarith() */
    method ToArith() returns (ok: bool)
      modifies this
      ensures value == Numeric(old(value)) && ok == ToNumber(old(value)).Some?
      ensures ok ==> value.Integer?
    {
      if value.String? {
        var i := Strtoll(value.s);
        if i.None? {
          return false;
        }
        value := Integer(i.value);
      }
      ok := true;
    }
  }

  // ---------- comparison ----------

  /** strcmp(): the sign of the first difference. */
  function Strcmp(a: Text, b: Text): int {
    if a == [] then (if b == [] then 0 else -1)
    else if b == [] then 1
    else if a[0] != b[0] then (if a[0] < b[0] then -1 else 1)
    else Strcmp(a[1..], b[1..])
  }

  /** An operator token, by its characters. */
  const LESS: Text := [60]
  const LESS_EQUAL: Text := [60, 61]
  const EQUAL: Text := [61]
  const EQUAL_EQUAL: Text := [61, 61]
  const NOT_EQUAL: Text := [33, 61]
  const MORE_EQUAL: Text := [62, 61]
  const MORE: Text := [62]

  predicate IsComparison(op: Text) {
    op == LESS || op == LESS_EQUAL || op == EQUAL || op == EQUAL_EQUAL || op == NOT_EQUAL || op == MORE_EQUAL
        || op == MORE
  }

  predicate Compares(op: Text, a: int, b: int)
    requires IsComparison(op)
  {
    && (op == LESS ==> a < b)
    && (op == LESS_EQUAL ==> a <= b)
    && (op == EQUAL || op == EQUAL_EQUAL ==> a == b)
    && (op == NOT_EQUAL ==> a != b)
    && (op == MORE_EQUAL ==> a >= b)
    && (op == MORE ==> a > b)
  }

  /** Two numbers compare as numbers; otherwise both compare as texts, a number in its
      canonical form. */
  function Comparison(op: Text, l: Value, r: Value): Value
    requires IsComparison(op)
  {
    var a, b := Numeric(l), Numeric(r);
    Integer(if (if a.Integer? && b.Integer? then Compares(op, a.i, b.i) else Compares(op, Strcmp(ToText(a), ToText(b)),
        0)) then 1 else 0)
  }

  /** What nextarg() returns for a token: the sum of its first two characters. */
  function Code(op: Text): nat
    requires |op| > 0
  {
    op[0] + CharAt(op, 1)
  }

  /** cmp_common(), where operators are told apart by their codes. */
  method CmpCommon(l: Val, r: Val, op: nat, ghost token: Text) returns (val: i64)
    requires IsComparison(token) && op == Code(token) && l != r
    requires l.value == Numeric(l.value) && r.value == Numeric(r.value)
    modifies l, r
    ensures Integer(val) == Comparison(token, old(l.value), old(r.value))
  {
    var ll, rr := 0, 0;
    if l.value.String? || r.value.String? {
      l.ToString();
      r.ToString();
      ll := Strcmp(l.value.s, r.value.s);
    } else {
      ll, rr := l.value.i, r.value.i;
    }
    var holds;
    if op == 60 {
      holds := ll < rr;
    } else if op == 60 + 61 {
      holds := ll <= rr;
    } else if op == 61 || op == 61 + 61 {
      holds := ll == rr;
    } else if op == 33 + 61 {
      holds := ll != rr;
    } else if op == 62 {
      holds := ll > rr;
    } else {
      holds := ll >= rr;
    }
    val := if holds then 1 else 0;
  }

  lemma NumericTwice(v: Value)
    ensures Numeric(Numeric(v)) == Numeric(v)
  {}

  // ---------- arithmetic ----------

  const TIMES: Text := [42]
  const DIVIDE: Text := [47]
  const REMAINDER: Text := [37]
  const ADD: Text := [43]
  const SUBTRACT: Text := [45]

  predicate IsArithmetic(op: Text) {
    op == TIMES || op == DIVIDE || op == REMAINDER || op == ADD || op == SUBTRACT
  }

  /** Two's complement. */
  function Wrap(x: int): i64 {
    (x - LEAST) % 0x1_0000_0000_0000_0000 + LEAST
  }

  /** Division as C has it: towards zero. */
  function Quotient(a: int, b: int): int
    requires b != 0
  {
    var q := Abs(a) / Abs(b);
    if (a < 0) == (b < 0) then q else -q
  }

  /** The remainder has the sign of the number and is smaller than the divisor. */
  lemma DivisionTruncates(a: int, b: int)
    requires b != 0
    ensures var r := a - b * Quotient(a, b);
      (a >= 0 ==> 0 <= r) && (a <= 0 ==> r <= 0) && Abs(r) < Abs(b)
  {
    var m: int, n: int := Abs(a), Abs(b);
    var q := m / n;
    assert m == n * q + m % n;
    assert (-n) * (-q) == n * q && (-n) * q == -(n * q) && n * (-q) == -(n * q);
  }

  lemma QuotientSmall(m: nat, n: nat)
    requires n > 0
    ensures m / n <= m && (n > 1 ==> 2 * (m / n) <= m)
  {
    var q := m / n;
    assert m == n * q + m % n;
    if n > 1 { MulMono(2, n, q); } else { assert n * q == q; }
  }

  /** The one quotient of 64-bit numbers that 64 bits do not hold. */
  lemma QuotientFits(a: i64, b: i64)
    requires b != 0
    ensures LEAST <= Quotient(a, b) < -LEAST <==> !(a == LEAST && b == -1)
    ensures LEAST <= a - b * Quotient(a, b) < -LEAST
  {
    DivisionTruncates(a, b);
    QuotientSmall(Abs(a), Abs(b));
    if Abs(b) == 1 { assert Abs(a) / 1 == Abs(a); }
  }

  /** Sums, differences and products wrap; the quotient that does not fit traps. */
  function Arithmetic(op: Text, l: Value, r: Value): Result<Value>
    requires IsArithmetic(op)
  {
    match (ToNumber(l), ToNumber(r))
    case (Some(a), Some(b)) =>
      if op == ADD then Ok(Integer(Wrap(a + b)))
      else if op == SUBTRACT then Ok(Integer(Wrap(a - b)))
      else if op == TIMES then Ok(Integer(Wrap(a * b)))
      else if b == 0 then Died(DivisionByZero)
      else if a == LEAST && b == -1 then Died(Trap)
      else
        QuotientFits(a, b);
        if op == DIVIDE then Ok(Integer(Quotient(a, b))) else Ok(Integer(a - b * Quotient(a, b)))
    case _ => Died(NonNumeric)
  }

  /** arithmetic_common() */
  method ArithmeticCommon(l: Val, r: Val, op: nat, ghost token: Text) returns (val: Result<i64>)
    requires IsArithmetic(token) && op == Code(token) && l != r
    modifies l, r
    ensures match Arithmetic(token, old(l.value), old(r.value))
      case Ok(v) => val.Ok? && v == Integer(val.value)
      case Died(e) => val == Died(e)
  {
    var ok := l.ToArith();
    if ok {
      ok := r.ToArith();
    }
    if !ok {
      return Died(NonNumeric);
    }
    var li, ri := l.value.i, r.value.i;
    if op == 43 {
      return Ok(Wrap(li + ri));
    }
    if op == 45 {
      return Ok(Wrap(li - ri));
    }
    if op == 42 {
      return Ok(Wrap(li * ri));
    }
    if ri == 0 {
      return Died(DivisionByZero);
    }
    // C leaves this case undefined; the processor traps.
    if li == LEAST && ri == -1 {
      return Died(Trap);
    }
    QuotientFits(li, ri);
    if op == 47 {
      return Ok(Quotient(li, ri));
    }
    val := Ok(li - ri * Quotient(li, ri));
  }
}
