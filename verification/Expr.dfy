/** The precedence parser of expr.c, which evaluates while it reads: what it computes from
    the tokens of an expression tree is the value of the tree. */
module Expr {
  import opened Bits
  import opened CStrings
  import opened ExprValues

  type Tokens = seq<Text>

  /** The matcher of regular expressions: None when the pattern is malformed. */
  type Matcher = (Text, Text) -> Option<Value>

  const BAR: Text := [124]
  const AND: Text := [38]
  const COLON: Text := [58]
  const OPEN: Text := [40]
  const CLOSE: Text := [41]
  const QUOTE: Text := [113, 117, 111, 116, 101]
  const LENGTH: Text := [108, 101, 110, 103, 116, 104]
  const MATCH: Text := [109, 97, 116, 99, 104]
  const INDEX: Text := [105, 110, 100, 101, 120]
  const SUBSTR: Text := [115, 117, 98, 115, 116, 114]

  predicate IsKeyword(t: Text) {
    t == QUOTE || t == LENGTH || t == MATCH || t == INDEX || t == SUBSTR
  }

  /** How tightly an operator binds: 0 for | up to 5 for the colon, and 6 for what is no
      operator. */
  function LevelOf(t: Text): nat {
    if t == BAR then 0
    else if t == AND then 1
    else if IsComparison(t) then 2
    else if t == ADD || t == SUBTRACT then 3
    else if t == TIMES || t == DIVIDE || t == REMAINDER then 4
    else if t == COLON then 5
    else 6
  }

  /** A token that is an operator. */
  type Operator = t: Text | LevelOf(t) < 6 witness BAR

  // ---------- operators and keywords on values ----------

  function Colon(colon: Matcher, l: Value, r: Value): Result<Value> {
    match colon(ToText(l), ToText(r))
    case Some(v) => Ok(v)
    case None => Died(BadPattern)
  }

  function Apply(colon: Matcher, op: Text, l: Value, r: Value): Result<Value>
    requires LevelOf(op) < 6
  {
    if op == BAR then Ok(if Null(l) then r else l)
    else if op == AND then Ok(if Null(l) || Null(r) then Integer(0) else l)
    else if op == COLON then Colon(colon, l, r)
    else if IsComparison(op) then Ok(Comparison(op, l, r))
    else Arithmetic(op, l, r)
  }

  /** Where the first of the characters stands, counted from 1, or 0. */
  function IndexOf(s: Text, chars: Text): nat {
    var n := Until(s, set c | c in chars);
    if n == |s| then 0 else n + 1
  }

  function Substring(s: Text, position: Value, length: Value): Text {
    match (ToNumber(position), ToNumber(length))
    case (Some(i), Some(n)) =>
      if i > |s| || i <= 0 || n <= 0 then []
      else s[i - 1..if i - 1 + n <= |s| then i - 1 + n else |s|]
    case _ => []
  }

  // ---------- trees ----------

  datatype Tree =
    | Atom(token: Text)
    | Quoted(token: Text)
    | Binary(op: Operator, left: Tree, right: Tree)
    | Length(arg: Tree)
    | Match(subject: Tree, pattern: Tree)
    | Index(text: Tree, chars: Tree)
    | Substr(text: Tree, position: Tree, length: Tree)

  /** Atoms are no parentheses and no keywords; anything else may be one, even an operator. */
  predicate Proper(e: Tree) {
    match e
    case Atom(t) => t != OPEN && t != CLOSE && !IsKeyword(t)
    case Quoted(_) => true
    case Binary(_, l, r) => Proper(l) && Proper(r)
    case Length(a) => Proper(a)
    case Match(s, p) => Proper(s) && Proper(p)
    case Index(t, c) => Proper(t) && Proper(c)
    case Substr(t, p, n) => Proper(t) && Proper(p) && Proper(n)
  }

  /** The value of a tree, from left to right; the first failure is the tree's failure. */
  function Evaluate(colon: Matcher, e: Tree): Result<Value> {
    match e
    case Atom(t) => Ok(String(t))
    case Quoted(t) => Ok(String(t))
    case Binary(op, l, r) =>
      Then(Evaluate(colon, l), a => Then(Evaluate(colon, r), b => Apply(colon, op, a, b)))
    case Length(a) =>
      Then(Evaluate(colon, a), v => Ok(Integer(Wrap(|ToText(v)|))))
    case Match(s, p) =>
      Then(Evaluate(colon, s), a => Then(Evaluate(colon, p), b => Colon(colon, a, b)))
    case Index(t, c) =>
      Then(Evaluate(colon, t), a => Then(Evaluate(colon, c), b => Ok(Integer(Wrap(IndexOf(ToText(a), ToText(b)))))))
    case Substr(t, p, n) =>
      Then(Evaluate(colon, t), a => Then(Evaluate(colon, p), b => Then(Evaluate(colon, n), c =>
        Ok(String(Substring(ToText(a), b, c))))))
  }

  function Then(r: Result<Value>, f: Value -> Result<Value>): Result<Value> {
    match r
    case Ok(v) => f(v)
    case Died(e) => Died(e)
  }

  // ---------- printing ----------

  /** How tightly a tree holds together by itself. */
  function TreeLevel(e: Tree): nat {
    match e
    case Atom(_) => 7
    case Binary(op, _, _) => LevelOf(op)
    case _ => 6
  }

  /** The tokens of a tree where something of at least this level is expected: parentheses
      only where precedence needs them, and none for operators that follow each other from
      left to right. */
  function Print(e: Tree, level: nat): Tokens
    decreases e, if TreeLevel(e) < level then 1 else 0
  {
    if TreeLevel(e) < level then [OPEN] + Print(e, 0) + [CLOSE]
    else
      match e
      case Atom(t) => [t]
      case Quoted(t) => [QUOTE, t]
      case Binary(op, l, r) => Print(l, LevelOf(op)) + [op] + Print(r, LevelOf(op) + 1)
      case Length(a) => [LENGTH] + Print(a, 6)
      case Match(t, q) => [MATCH] + Print(t, 6) + Print(q, 6)
      case Index(t, c) => [INDEX] + Print(t, 6) + Print(c, 6)
      case Substr(t, q, n) => [SUBSTR] + Print(t, 6) + Print(q, 6) + Print(n, 6)
  }

  // ---------- what the parser computes ----------

  /** The program died, or there is a value and tokens are left. */
  datatype Out = Dead(error: Error) | Got(value: Value, rest: Tokens)

  function Give(r: Result<Value>, rest: Tokens): Out {
    match r
    case Ok(v) => Got(v, rest)
    case Died(e) => Dead(e)
  }

  /** The parser that expects something of at least this level. */
  function Parse(colon: Matcher, level: nat, ts: Tokens): (out: Out)
    requires level <= 7
    ensures out.Got? ==> |out.rest| < |ts|
    decreases |ts|, 9 - level
  {
    if level == 7 then
      if ts == [] then Dead(SyntaxError)
      else if ts[0] == OPEN then
        match Parse(colon, 0, ts[1..])
        case Dead(e) => Dead(e)
        case Got(v, rest) => if rest != [] && rest[0] == CLOSE then Got(v, rest[1..]) else Dead(SyntaxError)
      else if ts[0] == CLOSE then Dead(SyntaxError)
      else Got(String(ts[0]), ts[1..])
    else if level == 6 then
      if ts == [] || !IsKeyword(ts[0]) then Parse(colon, 7, ts)
      else if ts[0] == QUOTE then
        if |ts| == 1 then Dead(SyntaxError) else Got(String(ts[1]), ts[2..])
      else
        match Parse(colon, 6, ts[1..])
        case Dead(e) => Dead(e)
        case Got(a, rest) => FirstArgument(colon, ts[0], a, rest)
    else
      match Parse(colon, level + 1, ts)
      case Dead(e) => Dead(e)
      case Got(v, rest) => Continue(colon, level, v, rest)
  }

  /** A keyword with its first argument. */
  function FirstArgument(colon: Matcher, key: Text, a: Value, ts: Tokens): (out: Out)
    ensures out.Got? ==> |out.rest| <= |ts|
    decreases |ts|, 10
  {
    if key == LENGTH then Got(Integer(Wrap(|ToText(a)|)), ts)
    else
      match Parse(colon, 6, ts)
      case Dead(e) => Dead(e)
      case Got(b, rest) => SecondArgument(colon, key, a, b, rest)
  }

  function SecondArgument(colon: Matcher, key: Text, a: Value, b: Value, ts: Tokens): (out: Out)
    ensures out.Got? ==> |out.rest| <= |ts|
    decreases |ts|, 10
  {
    if key == MATCH then Give(Colon(colon, a, b), ts)
    else if key == INDEX then Got(Integer(Wrap(IndexOf(ToText(a), ToText(b)))), ts)
    else
      match Parse(colon, 6, ts)
      case Dead(e) => Dead(e)
      case Got(c, rest) => Got(String(Substring(ToText(a), b, c)), rest)
  }

  /** The loop of a level: operators of that level, and what they join, from left to right. */
  function Continue(colon: Matcher, level: nat, l: Value, ts: Tokens): (out: Out)
    requires level <= 5
    ensures out.Got? ==> |out.rest| <= |ts|
    decreases |ts|, 0
  {
    if ts == [] || LevelOf(ts[0]) != level then Got(l, ts)
    else
      match Parse(colon, level + 1, ts[1..])
      case Dead(e) => Dead(e)
      case Got(r, rest) =>
        match Apply(colon, ts[0], l, r)
        case Died(e) => Dead(e)
        case Ok(v) => Continue(colon, level, v, rest)
  }

  // ---------- reading back ----------

  /** No operator of this level or a tighter one comes next. */
  predicate Stops(ts: Tokens, level: nat) {
    ts == [] || LevelOf(ts[0]) < level || LevelOf(ts[0]) == 6
  }

  /** After a value the loop of the level goes on, where the level has a loop. */
  function After(colon: Matcher, level: nat, r: Result<Value>, ts: Tokens): Out
    requires level <= 6
  {
    match r
    case Died(e) => Dead(e)
    case Ok(v) => if level == 6 then Got(v, ts) else Continue(colon, level, v, ts)
  }

  /** The parser reads a printed tree as a whole, and goes on with its value. */
  lemma {:induction false} Reads(colon: Matcher, e: Tree, level: nat, after: Tokens)
    requires Proper(e) && level <= 6 && Stops(after, level + 1)
    ensures Parse(colon, level, Print(e, level) + after) == After(colon, level, Evaluate(colon, e), after)
    decreases e, if TreeLevel(e) < level then 20 - level else 8 - level
  {
    if level < 6 && TreeLevel(e) != level {
      ReadsTighter(colon, e, level, after);
    } else if level < 6 {
      ReadsBinary(colon, e, after);
    } else if TreeLevel(e) < 6 {
      ReadsParens(colon, e, after);
    } else {
      ReadsTight(colon, e, after);
    }
  }

  lemma ReadsTighter(colon: Matcher, e: Tree, level: nat, after: Tokens)
    requires Proper(e) && level < 6 && TreeLevel(e) != level && Stops(after, level + 1)
    ensures Parse(colon, level, Print(e, level) + after) == After(colon, level, Evaluate(colon, e), after)
    decreases e, if TreeLevel(e) < level then 20 - level else 8 - level, 0
  {
    hide Parse, Print, Continue, Evaluate, TreeLevel;
    PrintsTheSame(e, level);
    Descends(colon, level, Print(e, level) + after);
    Reads(colon, e, level + 1, after);
    match Evaluate(colon, e)
    case Died(_) =>
    case Ok(v) => if level < 5 { LoopEnds(colon, level + 1, v, after); }
  }

  lemma PrintsTheSame(e: Tree, level: nat)
    requires level < 6 && TreeLevel(e) != level
    ensures Print(e, level) == Print(e, level + 1)
  {}

  lemma Descends(colon: Matcher, level: nat, ts: Tokens)
    requires level <= 5
    ensures Parse(colon, level, ts) ==
      match Parse(colon, level + 1, ts)
      case Dead(e) => Dead(e)
      case Got(v, rest) => Continue(colon, level, v, rest)
  {}

  lemma LoopEnds(colon: Matcher, level: nat, l: Value, ts: Tokens)
    requires level <= 5 && Stops(ts, level)
    ensures Continue(colon, level, l, ts) == Got(l, ts)
  {}

  /** What the loop does with the outcome of the right operand. */
  function WithOperand(colon: Matcher, op: Text, l: Value, operand: Out): Out
    requires LevelOf(op) <= 5
  {
    match operand
    case Dead(e) => Dead(e)
    case Got(r, rest) => After(colon, LevelOf(op), Apply(colon, op, l, r), rest)
  }

  lemma LoopStep(colon: Matcher, level: nat, l: Value, ts: Tokens)
    requires level <= 5 && ts != [] && LevelOf(ts[0]) == level
    ensures Continue(colon, level, l, ts) == WithOperand(colon, ts[0], l, Parse(colon, level + 1, ts[1..]))
  {}

  lemma ReadsParens(colon: Matcher, e: Tree, after: Tokens)
    requires Proper(e) && TreeLevel(e) < 6
    ensures Parse(colon, 6, Print(e, 6) + after) == Give(Evaluate(colon, e), after)
    decreases e, 14, 0
  {
    var ts := Print(e, 6) + after;
    assert ts[0] == OPEN && ts[1..] == Print(e, 0) + ([CLOSE] + after);
    Reads(colon, e, 0, [CLOSE] + after);
    assert ([CLOSE] + after)[1..] == after;
  }

  lemma ReadsBinary(colon: Matcher, e: Tree, after: Tokens)
    requires Proper(e) && e.Binary? && Stops(after, LevelOf(e.op) + 1)
    ensures Parse(colon, LevelOf(e.op), Print(e, LevelOf(e.op)) + after)
        == After(colon, LevelOf(e.op), Evaluate(colon, e), after)
    decreases e, 8 - LevelOf(e.op), 0
  {
    var level := LevelOf(e.op);
    var rest := Print(e.right, level + 1) + after;
    Joins(Print(e.left, level), [e.op], Print(e.right, level + 1), after);
    assert Print(e, level) == Print(e.left, level) + [e.op] + Print(e.right, level + 1);
    hide Parse, Print, Continue, Apply, LevelOf;
    Reads(colon, e.left, level, [e.op] + rest);
    Reads(colon, e.right, level + 1, after);
    match Evaluate(colon, e.left)
    case Died(_) =>
    case Ok(a) =>
      assert ([e.op] + rest)[1..] == rest;
      LoopStep(colon, level, a, [e.op] + rest);
      match Evaluate(colon, e.right)
      case Died(_) =>
      case Ok(b) => if level < 5 { LoopEnds(colon, level + 1, b, after); }
  }

  /** Atoms and keywords. */
  lemma ReadsTight(colon: Matcher, e: Tree, after: Tokens)
    requires Proper(e) && TreeLevel(e) >= 6
    ensures Parse(colon, 6, Print(e, 6) + after) == Give(Evaluate(colon, e), after)
    decreases e, 2, 0
  {
    hide Parse, Print, Evaluate;
    match e
    case Atom(t) => ReadsAtom(colon, t, after);
    case Quoted(t) => ReadsQuoted(colon, t, after);
    case Length(a) => ReadsLength(colon, e, after);
    case Match(a, b) => ReadsMatch(colon, e, after);
    case Index(a, b) => ReadsIndex(colon, e, after);
    case Substr(a, b, c) => ReadsSubstr(colon, e, after);
  }

  lemma ReadsAtom(colon: Matcher, t: Text, after: Tokens)
    requires Proper(Atom(t))
    ensures Parse(colon, 6, Print(Atom(t), 6) + after) == Give(Evaluate(colon, Atom(t)), after)
  {
    assert ([t] + after)[1..] == after;
  }

  lemma ReadsQuoted(colon: Matcher, t: Text, after: Tokens)
    ensures Parse(colon, 6, Print(Quoted(t), 6) + after) == Give(Evaluate(colon, Quoted(t)), after)
  {
    assert ([QUOTE, t] + after)[2..] == after;
  }

  lemma ReadsLength(colon: Matcher, e: Tree, after: Tokens)
    requires Proper(e) && e.Length?
    ensures Parse(colon, 6, Print(e, 6) + after) == Give(Evaluate(colon, e), after)
    decreases e, 1, 0
  {
    assert Print(e, 6) + after == [LENGTH] + (Print(e.arg, 6) + after);
    hide Parse, Print, ToText;
    KeywordStarts(colon, LENGTH, Print(e.arg, 6) + after);
    Reads(colon, e.arg, 6, after);
  }

  lemma ReadsMatch(colon: Matcher, e: Tree, after: Tokens)
    requires Proper(e) && e.Match?
    ensures Parse(colon, 6, Print(e, 6) + after) == Give(Evaluate(colon, e), after)
    decreases e, 1, 0
  {
    hide Parse, Print, Colon;
    var more := Print(e.pattern, 6) + after;
    PrintsTwo(e, MATCH, e.subject, e.pattern, after);
    KeywordStarts(colon, MATCH, Print(e.subject, 6) + more);
    Reads(colon, e.subject, 6, more);
    Reads(colon, e.pattern, 6, after);
  }

  lemma ReadsIndex(colon: Matcher, e: Tree, after: Tokens)
    requires Proper(e) && e.Index?
    ensures Parse(colon, 6, Print(e, 6) + after) == Give(Evaluate(colon, e), after)
    decreases e, 1, 0
  {
    hide Parse, Print, ToText, IndexOf;
    var more := Print(e.chars, 6) + after;
    PrintsTwo(e, INDEX, e.text, e.chars, after);
    KeywordStarts(colon, INDEX, Print(e.text, 6) + more);
    Reads(colon, e.text, 6, more);
    Reads(colon, e.chars, 6, after);
  }

  lemma PrintsTwo(e: Tree, key: Text, a: Tree, b: Tree, after: Tokens)
    requires (e == Match(a, b) && key == MATCH) || (e == Index(a, b) && key == INDEX)
    ensures Print(e, 6) + after == [key] + (Print(a, 6) + (Print(b, 6) + after))
  {
    Joins([key], Print(a, 6), Print(b, 6), after);
  }

  lemma Joins(k: Tokens, a: Tokens, b: Tokens, after: Tokens)
    ensures k + a + b + after == k + (a + (b + after))
  {}

  lemma ReadsSubstr(colon: Matcher, e: Tree, after: Tokens)
    requires Proper(e) && e.Substr?
    ensures Parse(colon, 6, Print(e, 6) + after) == Give(Evaluate(colon, e), after)
    decreases e, 1, 0
  {
    hide Parse, Print, ToText, Substring;
    var rest := Print(e.length, 6) + after;
    var more := Print(e.position, 6) + rest;
    PrintsThree(e, after);
    KeywordStarts(colon, SUBSTR, Print(e.text, 6) + more);
    Reads(colon, e.text, 6, more);
    Reads(colon, e.position, 6, rest);
    Reads(colon, e.length, 6, after);
  }

  lemma PrintsThree(e: Tree, after: Tokens)
    requires e.Substr?
    ensures Print(e, 6) + after == [SUBSTR] + (Print(e.text, 6) + (Print(e.position, 6) + (Print(e.length, 6) + after)))
  {
    Joins([SUBSTR], Print(e.text, 6), Print(e.position, 6), Print(e.length, 6));
    Joins([SUBSTR], Print(e.text, 6), Print(e.position, 6) + Print(e.length, 6), after);
    var p, n := Print(e.position, 6), Print(e.length, 6);
    assert p + n + after == p + (n + after);
  }

  lemma KeywordStarts(colon: Matcher, key: Text, ts: Tokens)
    requires IsKeyword(key) && key != QUOTE
    ensures Parse(colon, 6, [key] + ts) ==
      match Parse(colon, 6, ts)
      case Dead(e) => Dead(e)
      case Got(a, rest) => FirstArgument(colon, key, a, rest)
  {
    assert ([key] + ts)[1..] == ts;
  }

  /** For every tree, expr reads exactly the tokens that the tree is printed as, and ends with
      the value of the tree, or dies as the evaluation of the tree does. */
  lemma PrintedTreeEvaluates(colon: Matcher, e: Tree)
    requires Proper(e)
    ensures Parse(colon, 0, Print(e, 0)) == Give(Evaluate(colon, e), [])
  {
    hide Parse, Print, Evaluate, Continue;
    Reads(colon, e, 0, []);
    assert Print(e, 0) + [] == Print(e, 0);
    match Evaluate(colon, e)
    case Died(_) =>
    case Ok(v) => LoopEnds(colon, 0, v, []);
  }

  // ---------- any tokens at all ----------

  /** The tree that the tokens spell, by the grammar alone. */
  function Build(level: nat, ts: Tokens): (r: Option<(Tree, Tokens)>)
    requires level <= 7
    ensures r.Some? ==> |r.value.1| < |ts|
    decreases |ts|, 9 - level
  {
    if level == 7 then
      if ts == [] || ts[0] == CLOSE then None
      else if ts[0] == OPEN then
        match Build(0, ts[1..])
        case None => None
        case Some((e, rest)) => if rest != [] && rest[0] == CLOSE then Some((e, rest[1..])) else None
      else Some((Atom(ts[0]), ts[1..]))
    else if level == 6 then
      if ts == [] || !IsKeyword(ts[0]) then Build(7, ts)
      else if ts[0] == QUOTE then (if |ts| == 1 then None else Some((Quoted(ts[1]), ts[2..])))
      else
        match Build(6, ts[1..])
        case None => None
        case Some((a, rest)) => BuildFirst(ts[0], a, rest)
    else
      match Build(level + 1, ts)
      case None => None
      case Some((e, rest)) => BuildLoop(level, e, rest)
  }

  function BuildFirst(key: Text, a: Tree, ts: Tokens): (r: Option<(Tree, Tokens)>)
    ensures r.Some? ==> |r.value.1| <= |ts|
    decreases |ts|, 10
  {
    if key == LENGTH then Some((Length(a), ts))
    else
      match Build(6, ts)
      case None => None
      case Some((b, rest)) => BuildSecond(key, a, b, rest)
  }

  function BuildSecond(key: Text, a: Tree, b: Tree, ts: Tokens): (r: Option<(Tree, Tokens)>)
    ensures r.Some? ==> |r.value.1| <= |ts|
    decreases |ts|, 10
  {
    if key == MATCH then Some((Match(a, b), ts))
    else if key == INDEX then Some((Index(a, b), ts))
    else
      match Build(6, ts)
      case None => None
      case Some((c, rest)) => Some((Substr(a, b, c), rest))
  }

  function BuildLoop(level: nat, l: Tree, ts: Tokens): (r: Option<(Tree, Tokens)>)
    requires level <= 5
    ensures r.Some? ==> |r.value.1| <= |ts|
    decreases |ts|, 0
  {
    if ts == [] || LevelOf(ts[0]) != level then Some((l, ts))
    else
      match Build(level + 1, ts[1..])
      case None => None
      case Some((r, rest)) => BuildLoop(level, Binary(ts[0], l, r), rest)
  }

  /** An outcome agrees with a tree when it is the outcome of evaluating the tree; where the
      grammar finds no tree the program dies. */
  predicate Agrees(colon: Matcher, out: Out, tree: Option<(Tree, Tokens)>) {
    match tree
    case Some((e, rest)) => out == Give(Evaluate(colon, e), rest)
    case None => out.Dead?
  }

  /** Evaluating while reading computes what building the tree first and evaluating it then
      computes, whatever the tokens are. */
  lemma {:induction false} Fused(colon: Matcher, level: nat, ts: Tokens)
    requires level <= 7
    ensures Agrees(colon, Parse(colon, level, ts), Build(level, ts))
    decreases |ts|, 9 - level
  {
    if level == 7 {
      if ts != [] && ts[0] == OPEN { Fused(colon, 0, ts[1..]); }
    } else if level == 6 {
      if ts == [] || !IsKeyword(ts[0]) {
        Fused(colon, 7, ts);
      } else if ts[0] != QUOTE {
        Fused(colon, 6, ts[1..]);
        match Build(6, ts[1..])
        case None =>
        case Some((a, rest)) => FusedFirst(colon, ts[0], a, rest);
      }
    } else {
      Fused(colon, level + 1, ts);
      match Build(level + 1, ts)
      case None =>
      case Some((e, rest)) => FusedLoop(colon, level, e, rest);
    }
  }

  /** What comes of a keyword whose first argument came to r. */
  function WithFirst(colon: Matcher, key: Text, r: Result<Value>, ts: Tokens): Out {
    match r
    case Died(e) => Dead(e)
    case Ok(a) => FirstArgument(colon, key, a, ts)
  }

  function WithSecond(colon: Matcher, key: Text, a: Result<Value>, b: Result<Value>, ts: Tokens): Out {
    match (a, b)
    case (Died(e), _) => Dead(e)
    case (Ok(_), Died(e)) => Dead(e)
    case (Ok(v), Ok(w)) => SecondArgument(colon, key, v, w, ts)
  }

  lemma {:induction false} FusedFirst(colon: Matcher, key: Text, a: Tree, ts: Tokens)
    requires IsKeyword(key) && key != QUOTE
    ensures Agrees(colon, WithFirst(colon, key, Evaluate(colon, a), ts), BuildFirst(key, a, ts))
    decreases |ts|, 10
  {
    if key != LENGTH {
      Fused(colon, 6, ts);
      match Build(6, ts)
      case None =>
      case Some((b, rest)) => FusedSecond(colon, key, a, b, rest);
    }
  }

  lemma {:induction false} FusedSecond(colon: Matcher, key: Text, a: Tree, b: Tree, ts: Tokens)
    requires key == MATCH || key == INDEX || key == SUBSTR
    ensures Agrees(colon, WithSecond(colon, key, Evaluate(colon, a), Evaluate(colon, b), ts),
        BuildSecond(key, a, b, ts))
    decreases |ts|, 10
  {
    hide Colon, IndexOf, ToText, Substring;
    if key == SUBSTR { Fused(colon, 6, ts); }
  }

  lemma {:induction false} FusedLoop(colon: Matcher, level: nat, l: Tree, ts: Tokens)
    requires level <= 5
    ensures Agrees(colon, After(colon, level, Evaluate(colon, l), ts), BuildLoop(level, l, ts))
    decreases |ts|, 0
  {
    hide Apply, Parse, Build, BuildLoop, Continue, Evaluate, LevelOf;
    if ts == [] || LevelOf(ts[0]) != level {
      LoopStops(colon, level, l, ts);
    } else {
      Fused(colon, level + 1, ts[1..]);
      LoopBuilds(level, l, ts);
      if Evaluate(colon, l).Ok? { LoopStep(colon, level, Evaluate(colon, l).value, ts); }
      match Build(level + 1, ts[1..])
      case None =>
      case Some((r, rest)) =>
        BinaryEvaluates(colon, ts[0], l, r);
        FusedLoop(colon, level, Binary(ts[0], l, r), rest);
    }
  }

  lemma LoopStops(colon: Matcher, level: nat, l: Tree, ts: Tokens)
    requires level <= 5 && (ts == [] || LevelOf(ts[0]) != level)
    ensures Agrees(colon, After(colon, level, Evaluate(colon, l), ts), BuildLoop(level, l, ts))
  {}

  lemma LoopBuilds(level: nat, l: Tree, ts: Tokens)
    requires level <= 5 && ts != [] && LevelOf(ts[0]) == level
    ensures BuildLoop(level, l, ts) ==
      match Build(level + 1, ts[1..])
      case None => None
      case Some(p) => BuildLoop(level, Binary(ts[0], l, p.0), p.1)
  {}

  lemma BinaryEvaluates(colon: Matcher, op: Operator, l: Tree, r: Tree)
    ensures Evaluate(colon, Binary(op, l, r)) ==
      match (Evaluate(colon, l), Evaluate(colon, r))
      case (Ok(a), Ok(b)) => Apply(colon, op, a, b)
      case (Ok(_), Died(e)) => Died(e)
      case (Died(e), _) => Died(e)
  {}
}
