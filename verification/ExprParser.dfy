/** eval() to eval7() of expr.c, with the token cursor that they share and values on the
    heap: every level computes what the parser of that level is specified to compute. */
module ExprParser {
  import opened Bits
  import opened CStrings
  import opened ExprValues
  import opened Expr

  class Evaluator {
    const args: Tokens
    const colon: Matcher
    var next: nat

    constructor (args: Tokens, colon: Matcher)
      ensures Valid() && this.args == args && this.colon == colon && Rest() == args
    {
      this.args := args;
      this.colon := colon;
      next := 0;
    }

    ghost predicate Valid()
      reads this
    {
      next <= |args|
    }

    /** What G.args points to. */
    ghost function Rest(): Tokens
      reads this
      requires Valid()
    {
      args[next..]
    }

    /** A result is what was expected: a value that no one else holds, or a death. */
    ghost predicate Is(out: Out, r: Result<Val>)
      reads this, if r.Ok? then {r.value} else {}
      requires Valid()
    {
      match r
      case Ok(v) => out == Got(v.value, Rest())
      case Died(e) => out == Dead(e)
    }

    /** nextarg(): 0, or a code that tells the operators of a level apart. */
    method NextArg(str: Text) returns (op: nat)
      requires Valid() && str != [] && str[0] > 0
      ensures op > 0 <==> Rest() != [] && Rest()[0] == str
      ensures op > 0 ==> op == Code(str)
    {
      if next == |args| || args[next] != str {
        return 0;
      }
      op := Code(str);
    }

    /** Past the token. */
    method Advance()
      requires Valid() && Rest() != []
      modifies this
      ensures Valid() && Rest() == old(Rest())[1..]
      ensures next == old(next) + 1
    {
      next := next + 1;
    }

    // ---------- parentheses and atoms ----------

    method Eval7() returns (r: Result<Val>)
      requires Valid()
      modifies this
      ensures Valid() && old(next) <= next
      ensures r.Ok? ==> fresh(r.value)
      ensures Is(Parse(colon, 7, old(Rest())), r)
      decreases |args| - next, 2
    {
      hide Continue;
      if next == |args| {
        return Died(SyntaxError);
      }
      var op := NextArg(OPEN);
      if op > 0 {
        Advance();
        r := Eval();
        if r.Died? {
          return;
        }
        op := NextArg(CLOSE);
        if op == 0 {
          return Died(SyntaxError);
        }
        Advance();
        return;
      }
      op := NextArg(CLOSE);
      if op > 0 {
        return Died(SyntaxError);
      }
      var v := new Val(String(args[next]));
      Advance();
      r := Ok(v);
    }

    // ---------- keywords ----------

    method Eval6() returns (r: Result<Val>)
      requires Valid()
      modifies this
      ensures Valid() && old(next) <= next
      ensures r.Ok? ==> fresh(r.value)
      ensures Is(Parse(colon, 6, old(Rest())), r)
      decreases |args| - next, 3
    {
      hide Continue, FirstArgument;
      var ts := args[next..];
      if next == |args| || !IsKeyword(args[next]) {
        ParsesAtom(colon, ts);
        r := Eval7();
        return;
      }
      var key := args[next];
      Advance();
      if key == QUOTE {
        if next == |args| {
          return Died(SyntaxError);
        }
        var v := new Val(String(args[next]));
        Advance();
        return Ok(v);
      }
      ParsesKeyword(colon, ts);
      var l := Eval6();
      if l.Died? {
        return Died(l.error);
      }
      r := Arguments(key, l.value);
    }

    /** The rest of a keyword, once its first argument is there. */
    method Arguments(key: Text, l: Val) returns (r: Result<Val>)
      requires Valid() && IsKeyword(key) && key != QUOTE
      modifies this, l
      ensures Valid() && old(next) <= next
      ensures r.Ok? ==> fresh(r.value)
      ensures Is(FirstArgument(colon, key, old(l.value), old(Rest())), r)
      decreases |args| - next, 4
    {
      hide Parse, Continue, ToText, IndexOf, Substring, SecondArgument, ToNumber, Colon;
      if key == LENGTH {
        l.ToString();
        var v := new Val(Integer(Wrap(|l.value.s|)));
        return Ok(v);
      }
      var second := Eval6();
      if second.Died? {
        return Died(second.error);
      }
      r := MoreArguments(key, l, second.value);
    }

    method MoreArguments(key: Text, l: Val, i1: Val) returns (r: Result<Val>)
      requires Valid() && (key == MATCH || key == INDEX || key == SUBSTR) && l != i1
      modifies this, l, i1
      ensures Valid() && old(next) <= next
      ensures r.Ok? ==> fresh(r.value)
      ensures Is(SecondArgument(colon, key, old(l.value), old(i1.value), old(Rest())), r)
      decreases |args| - next, 4
    {
      hide Parse, Continue, ToText, IndexOf, Substring, ToNumber, Colon;
      if key == MATCH {
        r := DoColon(l, i1);
        return;
      }
      if key == INDEX {
        l.ToString();
        i1.ToString();
        var v := new Val(Integer(Wrap(IndexOf(l.value.s, i1.value.s))));
        return Ok(v);
      }
      var third := Eval6();
      if third.Died? {
        return Died(third.error);
      }
      var s := DoSubstr(l, i1, third.value);
      var v := new Val(String(s));
      r := Ok(v);
    }

    method DoSubstr(l: Val, i1: Val, i2: Val) returns (s: Text)
      requires l != i1 && l != i2 && i1 != i2
      modifies l, i1, i2
      ensures s == Substring(ToText(old(l.value)), old(i1.value), old(i2.value))
    {
      l.ToString();
      var text := l.value.s;
      var ok := i1.ToArith();
      if ok {
        ok := i2.ToArith();
      }
      if !ok || i1.value.i > |text| || i1.value.i <= 0 || i2.value.i <= 0 {
        return [];
      }
      var from := text[i1.value.i - 1..];
      s := from[..if i2.value.i <= |from| then i2.value.i else |from|];
    }

    /** docolon() */
    method DoColon(sv: Val, pv: Val) returns (r: Result<Val>)
      requires Valid() && sv != pv
      modifies sv, pv
      ensures r.Ok? ==> fresh(r.value)
      ensures Is(Give(Colon(colon, old(sv.value), old(pv.value)), Rest()), r)
    {
      sv.ToString();
      pv.ToString();
      var m := colon(sv.value.s, pv.value.s);
      if m.None? {
        return Died(BadPattern);
      }
      var v := new Val(m.value);
      r := Ok(v);
    }

    // ---------- the loops ----------

    method Eval5() returns (r: Result<Val>)
      requires Valid()
      modifies this
      ensures Valid() && old(next) <= next
      ensures r.Ok? ==> fresh(r.value)
      ensures Is(Parse(colon, 5, old(Rest())), r)
      decreases |args| - next, 5
    {
      hide Parse, Continue, Apply, LevelOf;
      ghost var ts := Rest();
      Descends(colon, 5, ts);
      r := Eval6();
      if r.Died? {
        return;
      }
      var l := r.value;
      OnlyColon(Rest());
      var op := NextArg(COLON);
      while op > 0
        invariant Valid() && old(next) <= next && fresh(l)
        invariant Parse(colon, 5, ts) == Continue(colon, 5, l.value, Rest())
        invariant op > 0 <==> Rest() != [] && LevelOf(Rest()[0]) == 5
        invariant op > 0 ==> Rest()[0] == COLON
        decreases |args| - next
      {
        LoopStep(colon, 5, l.value, Rest());
        ghost var a := l.value;
        Advance();
        var operand := Eval6();
        if operand.Died? {
          return Died(operand.error);
        }
        AppliesColon(colon, a, operand.value.value);
        var v := DoColon(l, operand.value);
        if v.Died? {
          return Died(v.error);
        }
        l := v.value;
        OnlyColon(Rest());
        op := NextArg(COLON);
      }
      LoopOver(colon, 5, l.value, Rest());
      r := Ok(l);
    }

    /** The operator of level 4 that comes next, or 0. */
    method NextFactor() returns (op: nat)
      requires Valid()
      ensures op > 0 <==> Rest() != [] && (Rest()[0] == TIMES || Rest()[0] == DIVIDE || Rest()[0] == REMAINDER)
      ensures op > 0 ==> Rest()[0] != [] && op == Code(Rest()[0])
    {
      op := NextArg(TIMES);
      if op == 0 { op := NextArg(DIVIDE); }
      if op == 0 { op := NextArg(REMAINDER); }
    }

    /** Handles *, / and %. */
    method Eval4() returns (r: Result<Val>)
      requires Valid()
      modifies this
      ensures Valid() && old(next) <= next
      ensures r.Ok? ==> fresh(r.value)
      ensures Is(Parse(colon, 4, old(Rest())), r)
      decreases |args| - next, 6
    {
      hide Parse, Continue, Apply, LevelOf, Arithmetic, IsArithmetic;
      ghost var ts := Rest();
      Descends(colon, 4, ts);
      r := Eval5();
      if r.Died? {
        return;
      }
      var l := r.value;
      OnlyArithmetic(Rest());
      var op := NextFactor();
      while op > 0
        invariant Valid() && old(next) <= next && fresh(l)
        invariant Parse(colon, 4, ts) == Continue(colon, 4, l.value, Rest())
        invariant op > 0 <==> Rest() != [] && LevelOf(Rest()[0]) == 4
        invariant op > 0 ==> IsArithmetic(Rest()[0]) && Rest()[0] != [] && op == Code(Rest()[0])
        decreases |args| - next
      {
        LoopStep(colon, 4, l.value, Rest());
        ghost var a, token := l.value, Rest()[0];
        Advance();
        var operand := Eval5();
        if operand.Died? {
          return Died(operand.error);
        }
        AppliesArithmetic(colon, token, a, operand.value.value);
        var val := ArithmeticCommon(l, operand.value, op, token);
        if val.Died? {
          return Died(val.error);
        }
        l := new Val(Integer(val.value));
        OnlyArithmetic(Rest());
        op := NextFactor();
      }
      LoopOver(colon, 4, l.value, Rest());
      r := Ok(l);
    }

    /** The operator of level 3 that comes next, or 0. */
    method NextTerm() returns (op: nat)
      requires Valid()
      ensures op > 0 <==> Rest() != [] && (Rest()[0] == ADD || Rest()[0] == SUBTRACT)
      ensures op > 0 ==> Rest()[0] != [] && op == Code(Rest()[0])
    {
      op := NextArg(ADD);
      if op == 0 { op := NextArg(SUBTRACT); }
    }

    /** Handles + and -. */
    method Eval3() returns (r: Result<Val>)
      requires Valid()
      modifies this
      ensures Valid() && old(next) <= next
      ensures r.Ok? ==> fresh(r.value)
      ensures Is(Parse(colon, 3, old(Rest())), r)
      decreases |args| - next, 7
    {
      hide Parse, Continue, Apply, LevelOf, Arithmetic, IsArithmetic;
      ghost var ts := Rest();
      Descends(colon, 3, ts);
      r := Eval4();
      if r.Died? {
        return;
      }
      var l := r.value;
      OnlyArithmetic(Rest());
      var op := NextTerm();
      while op > 0
        invariant Valid() && old(next) <= next && fresh(l)
        invariant Parse(colon, 3, ts) == Continue(colon, 3, l.value, Rest())
        invariant op > 0 <==> Rest() != [] && LevelOf(Rest()[0]) == 3
        invariant op > 0 ==> IsArithmetic(Rest()[0]) && Rest()[0] != [] && op == Code(Rest()[0])
        decreases |args| - next
      {
        LoopStep(colon, 3, l.value, Rest());
        ghost var a, token := l.value, Rest()[0];
        Advance();
        var operand := Eval4();
        if operand.Died? {
          return Died(operand.error);
        }
        AppliesArithmetic(colon, token, a, operand.value.value);
        var val := ArithmeticCommon(l, operand.value, op, token);
        if val.Died? {
          return Died(val.error);
        }
        l := new Val(Integer(val.value));
        OnlyArithmetic(Rest());
        op := NextTerm();
      }
      LoopOver(colon, 3, l.value, Rest());
      r := Ok(l);
    }

    /** The operator of a comparison that comes next, or 0. */
    method NextComparison() returns (op: nat)
      requires Valid()
      ensures op > 0 <==> Rest() != [] && IsComparison(Rest()[0])
      ensures op > 0 ==> Rest()[0] != [] && op == Code(Rest()[0])
    {
      op := NextArg(LESS);
      if op == 0 { op := NextArg(LESS_EQUAL); }
      if op == 0 { op := NextArg(EQUAL); }
      if op == 0 { op := NextArg(EQUAL_EQUAL); }
      if op == 0 { op := NextArg(NOT_EQUAL); }
      if op == 0 { op := NextArg(MORE_EQUAL); }
      if op == 0 { op := NextArg(MORE); }
    }

    /** Handles comparisons. */
    method Eval2() returns (r: Result<Val>)
      requires Valid()
      modifies this
      ensures Valid() && old(next) <= next
      ensures r.Ok? ==> fresh(r.value)
      ensures Is(Parse(colon, 2, old(Rest())), r)
      decreases |args| - next, 8
    {
      hide Parse, Continue, Apply, LevelOf, IsComparison, Comparison;
      ghost var ts := Rest();
      Descends(colon, 2, ts);
      r := Eval3();
      if r.Died? {
        return;
      }
      var l := r.value;
      OnlyComparison(Rest());
      var op := NextComparison();
      while op > 0
        invariant Valid() && old(next) <= next && fresh(l)
        invariant Parse(colon, 2, ts) == Continue(colon, 2, l.value, Rest())
        invariant op > 0 <==> Rest() != [] && LevelOf(Rest()[0]) == 2
        invariant op > 0 ==> IsComparison(Rest()[0]) && Rest()[0] != [] && op == Code(Rest()[0])
        decreases |args| - next
      {
        LoopStep(colon, 2, l.value, Rest());
        ghost var a, token := l.value, Rest()[0];
        Advance();
        var operand := Eval3();
        if operand.Died? {
          return Died(operand.error);
        }
        AppliesComparison(colon, token, a, operand.value.value);
        var _ := l.ToArith();
        var _ := operand.value.ToArith();
        var val := CmpCommon(l, operand.value, op, token);
        l := new Val(Integer(val));
        OnlyComparison(Rest());
        op := NextComparison();
      }
      LoopOver(colon, 2, l.value, Rest());
      r := Ok(l);
    }

    /** Handles &. */
    method Eval1() returns (r: Result<Val>)
      requires Valid()
      modifies this
      ensures Valid() && old(next) <= next
      ensures r.Ok? ==> fresh(r.value)
      ensures Is(Parse(colon, 1, old(Rest())), r)
      decreases |args| - next, 9
    {
      hide Parse, Continue, Apply, LevelOf, Null;
      ghost var ts := Rest();
      Descends(colon, 1, ts);
      r := Eval2();
      if r.Died? {
        return;
      }
      var l := r.value;
      OnlyAnd(Rest());
      var op := NextArg(AND);
      while op > 0
        invariant Valid() && old(next) <= next && fresh(l)
        invariant Parse(colon, 1, ts) == Continue(colon, 1, l.value, Rest())
        invariant op > 0 <==> Rest() != [] && LevelOf(Rest()[0]) == 1
        invariant op > 0 ==> Rest()[0] == AND
        decreases |args| - next
      {
        LoopStep(colon, 1, l.value, Rest());
        Advance();
        var operand := Eval2();
        if operand.Died? {
          return Died(operand.error);
        }
        AppliesAnd(colon, l.value, operand.value.value);
        if Null(l.value) || Null(operand.value.value) {
          l := new Val(Integer(0));
        }
        OnlyAnd(Rest());
        op := NextArg(AND);
      }
      LoopOver(colon, 1, l.value, Rest());
      r := Ok(l);
    }

    /** Handles |. */
    method Eval() returns (r: Result<Val>)
      requires Valid()
      modifies this
      ensures Valid() && old(next) <= next
      ensures r.Ok? ==> fresh(r.value)
      ensures Is(Parse(colon, 0, old(Rest())), r)
      decreases |args| - next, 10
    {
      hide Parse, Continue, Apply, LevelOf, Null;
      ghost var ts := Rest();
      Descends(colon, 0, ts);
      r := Eval1();
      if r.Died? {
        return;
      }
      var l := r.value;
      OnlyBar(Rest());
      var op := NextArg(BAR);
      while op > 0
        invariant Valid() && old(next) <= next && fresh(l)
        invariant Parse(colon, 0, ts) == Continue(colon, 0, l.value, Rest())
        invariant op > 0 <==> Rest() != [] && LevelOf(Rest()[0]) == 0
        invariant op > 0 ==> Rest()[0] == BAR
        decreases |args| - next
      {
        LoopStep(colon, 0, l.value, Rest());
        Advance();
        var operand := Eval1();
        if operand.Died? {
          return Died(operand.error);
        }
        AppliesBar(colon, l.value, operand.value.value);
        if Null(l.value) {
          l := operand.value;
        }
        OnlyBar(Rest());
        op := NextArg(BAR);
      }
      LoopOver(colon, 0, l.value, Rest());
      r := Ok(l);
    }

    /** What expr_main() does with its arguments: there must be some, and all of them must
        belong to the expression. */
    method ExprMain() returns (r: Result<Val>)
      requires Valid() && next == 0
      modifies this
      ensures match Parse(colon, 0, args)
        case Got(v, rest) => if rest == [] then r.Ok? && r.value.value == v else r == Died(SyntaxError)
        case Dead(e) => r == Died(e)
    {
      hide Parse;
      NeedsTokens(colon);
      if args == [] {
        return Died(SyntaxError);
      }
      r := Eval();
      if r.Ok? && next < |args| {
        r := Died(SyntaxError);
      }
    }
  }

  // ---------- steps of the specification ----------

  lemma ParsesAtom(colon: Matcher, ts: Tokens)
    requires ts == [] || !IsKeyword(ts[0])
    ensures Parse(colon, 6, ts) == Parse(colon, 7, ts)
  {}

  lemma ParsesKeyword(colon: Matcher, ts: Tokens)
    requires ts != [] && IsKeyword(ts[0]) && ts[0] != QUOTE
    ensures Parse(colon, 6, ts) ==
      match Parse(colon, 6, ts[1..])
      case Dead(e) => Dead(e)
      case Got(a, rest) => FirstArgument(colon, ts[0], a, rest)
  {}

  lemma LoopOver(colon: Matcher, level: nat, l: Value, ts: Tokens)
    requires level <= 5 && (ts == [] || LevelOf(ts[0]) != level)
    ensures Continue(colon, level, l, ts) == Got(l, ts)
  {}

  lemma OnlyColon(ts: Tokens)
    ensures ts != [] ==> (LevelOf(ts[0]) == 5 <==> ts[0] == COLON)
  {}

  lemma AppliesColon(colon: Matcher, l: Value, r: Value)
    ensures LevelOf(COLON) == 5 && Apply(colon, COLON, l, r) == Colon(colon, l, r)
  {}

  lemma OnlyArithmetic(ts: Tokens)
    ensures ts != [] ==> (LevelOf(ts[0]) == 4 <==> ts[0] == TIMES || ts[0] == DIVIDE || ts[0] == REMAINDER)
    ensures ts != [] ==> (LevelOf(ts[0]) == 3 <==> ts[0] == ADD || ts[0] == SUBTRACT)
    ensures ts != [] && (LevelOf(ts[0]) == 4 || LevelOf(ts[0]) == 3) ==> IsArithmetic(ts[0])
  {}

  lemma AppliesArithmetic(colon: Matcher, op: Text, l: Value, r: Value)
    requires IsArithmetic(op)
    ensures LevelOf(op) < 6 && Apply(colon, op, l, r) == Arithmetic(op, l, r)
  {}

  lemma OnlyComparison(ts: Tokens)
    ensures ts != [] ==> (LevelOf(ts[0]) == 2 <==> IsComparison(ts[0]))
  {}

  lemma AppliesComparison(colon: Matcher, op: Text, l: Value, r: Value)
    requires IsComparison(op)
    ensures LevelOf(op) < 6 && Apply(colon, op, l, r) == Ok(Comparison(op, l, r))
    ensures Comparison(op, Numeric(l), Numeric(r)) == Comparison(op, l, r)
  {
    NumericTwice(l);
    NumericTwice(r);
  }

  lemma OnlyAnd(ts: Tokens)
    ensures ts != [] ==> (LevelOf(ts[0]) == 1 <==> ts[0] == AND)
  {}

  lemma AppliesAnd(colon: Matcher, l: Value, r: Value)
    ensures LevelOf(AND) == 1 && Apply(colon, AND, l, r) == Ok(if Null(l) || Null(r) then Integer(0) else l)
  {}

  lemma OnlyBar(ts: Tokens)
    ensures ts != [] ==> (LevelOf(ts[0]) == 0 <==> ts[0] == BAR)
  {}

  lemma AppliesBar(colon: Matcher, l: Value, r: Value)
    ensures LevelOf(BAR) == 0 && Apply(colon, BAR, l, r) == Ok(if Null(l) then r else l)
  {}

  lemma NeedsTokens(colon: Matcher)
    ensures Parse(colon, 0, []) == Dead(SyntaxError)
  {
    assert Parse(colon, 7, []) == Dead(SyntaxError);
    assert Parse(colon, 6, []) == Dead(SyntaxError);
    assert Parse(colon, 5, []) == Dead(SyntaxError);
    assert Parse(colon, 4, []) == Dead(SyntaxError);
    assert Parse(colon, 3, []) == Dead(SyntaxError);
    assert Parse(colon, 2, []) == Dead(SyntaxError);
    assert Parse(colon, 1, []) == Dead(SyntaxError);
  }
}
