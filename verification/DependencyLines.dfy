/** add_split_dependencies() of dpkg.c: from the text of a dependency field to edges, and
    back: what a field says is what is read from it. */
module DependencyLines {
  import opened Bits
  import opened CStrings
  import opened Versions
  import opened Probing
  import opened NameTable
  import opened PackageTables
  import opened DependencyCheck

  const COMMA: byte := 44
  const BAR: byte := 124
  const OPEN: byte := 40
  const CLOSE: byte := 41
  const LT: byte := 60
  const EQ: byte := 61
  const GT: byte := 62

  /** "ANY" */
  const ANY: Text := [65, 78, 89]

  // ---------- what a field says ----------

  /** An operator that the source leaves unset stands before no characters at all; one that it
      does not know ends the program. */
  datatype Operator = Known(code: nat) | Unset | Illegal

  datatype Dep = Dep(name: Text, operator: Operator, version: Text)

  datatype Clause = One(dep: Dep) | Or(text: Text, deps: seq<Dep>)

  /** strtok_r(): a token and what its saved pointer points to. */
  function NextToken(s: Text, sep: byte): (r: Option<(Text, Text)>)
    ensures r.Some? ==> r.value.0 != [] && |r.value.0| + |r.value.1| <= |s|
  {
    var a := Span(s, {sep});
    if a == |s| then None
    else
      var n := Until(s[a..], {sep});
      Some((s[a..a + n], if a + n < |s| then s[a + n + 1..] else []))
  }

  function Tokens(s: Text, sep: byte): seq<Text>
    decreases |s|
  {
    match NextToken(s, sep)
    case None => []
    case Some((w, rest)) => [w] + Tokens(rest, sep)
  }

  function Strip(s: Text): Text { s[Span(s, {SPACE})..] }

  /** The operator that a run of the characters <=> spells: strncmp() accepts a prefix. */
  function OperatorOf(run: Text): (r: Operator)
    ensures r != Unset
  {
    if run <= [EQ] then Known(VER_EQUAL)
    else if run <= [LT, LT] then Known(VER_LESS)
    else if run <= [LT, EQ] then Known(VER_LESS_EQUAL)
    else if run <= [GT, GT] then Known(VER_MORE)
    else if run <= [GT, EQ] then Known(VER_MORE_EQUAL)
    else Illegal
  }

  /** The operator and the version in the parentheses, where there are any. */
  function ReadVersion(f: Text): (Operator, Text) {
    match FirstOf(f, OPEN)
    case None => (Known(VER_ANY), ANY)
    case Some(i) =>
      var v := f[i..][Span(f[i..], {SPACE, OPEN})..];
      var n := Span(v, {LT, EQ, GT});
      var w := Strip(v[n..]);
      (if n > 0 then OperatorOf(v[..n]) else Unset, w[..Until(w, {SPACE, CLOSE})])
  }

  /** One alternative: a name, and in parentheses an operator and a version. */
  function ReadDep(token: Text): Dep {
    var f := Strip(token);
    Dep(f[..Until(f, {SPACE, OPEN})], ReadVersion(f).0, ReadVersion(f).1)
  }

  function ReadDeps(tokens: seq<Text>): (ds: seq<Dep>)
    ensures |ds| == |tokens|
  {
    if tokens == [] then [] else [ReadDep(tokens[0])] + ReadDeps(tokens[1..])
  }

  predicate HasClauses(kind: nat) { kind == EDGE_DEPENDS || kind == EDGE_PRE_DEPENDS }

  function Singles(ds: seq<Dep>): (cs: seq<Clause>)
    ensures |cs| == |ds| && forall k :: 0 <= k < |ds| ==> cs[k] == One(ds[k])
  {
    if ds == [] then [] else [One(ds[0])] + Singles(ds[1..])
  }

  /** The clauses of one field between commas. */
  function ReadField(field: Text, kind: nat): seq<Clause> {
    var tokens := Tokens(field, BAR);
    if HasClauses(kind) && tokens != [] && field != tokens[0] then [Or(field, ReadDeps(tokens))]
    else Singles(ReadDeps(tokens))
  }

  function ReadFields(fields: seq<Text>, kind: nat): seq<Clause> {
    if fields == [] then [] else ReadField(Strip(fields[0]), kind) + ReadFields(fields[1..], kind)
  }

  function ReadLine(line: Text, kind: nat): seq<Clause> {
    ReadFields(Tokens(line, COMMA), kind)
  }

  /** What becomes of a line: its edges are added, or the program ends at an operator that it
      does not know, or it follows the null pointer that strtok_r() returns when the line or
      a field of it has no token. */
  datatype Outcome = Added | IllegalOperator | NullToken

  /** The first thing that goes wrong in the fields decides. */
  function FieldsOutcome(fields: seq<Text>, kind: nat): Outcome {
    if fields == [] then Added
    else if Tokens(Strip(fields[0]), BAR) == [] then NullToken
    else if !AllLegal(ReadField(Strip(fields[0]), kind)) then IllegalOperator
    else FieldsOutcome(fields[1..], kind)
  }

  function LineOutcome(line: Text, kind: nat): Outcome {
    if Tokens(line, COMMA) == [] then NullToken else FieldsOutcome(Tokens(line, COMMA), kind)
  }

  /** Every field between commas has a token, and so has the line. */
  predicate Sound(line: Text) {
    Tokens(line, COMMA) != [] && forall f :: f in Tokens(line, COMMA) ==> Tokens(Strip(f), BAR) != []
  }

  predicate Legal(c: Clause) {
    match c
    case One(d) => d.operator != Illegal
    case Or(_, ds) => forall k :: 0 <= k < |ds| ==> ds[k].operator != Illegal
  }

  // ---------- the whole token is the whole field when no bar stands in it ----------

  lemma WholeToken(s: Text, sep: byte)
    requires Tokens(s, sep) != []
    ensures s == Tokens(s, sep)[0] <==> sep !in s
  {
    var a := Span(s, {sep});
    var n := Until(s[a..], {sep});
    if sep !in s {
      assert a == 0 && n == |s|;
      assert s[0..|s|] == s;
    } else {
      var k :| 0 <= k < |s| && s[k] == sep;
      assert s[0..] == s;
    }
  }

  // ---------- writing a field ----------

  /** Characters that mean nothing special. */
  predicate Plain(s: Text) {
    s != [] && forall i :: 0 <= i < |s| ==> s[i] !in {SPACE, OPEN, CLOSE, COMMA, BAR, LT, EQ, GT}
  }

  function OperatorText(code: nat): Text {
    if code == VER_EQUAL then [EQ]
    else if code == VER_LESS then [LT, LT]
    else if code == VER_LESS_EQUAL then [LT, EQ]
    else if code == VER_MORE then [GT, GT]
    else [GT, EQ]
  }

  predicate Writable(d: Dep) {
    && Plain(d.name) && d.operator.Known?
    && (if d.operator.code == VER_ANY then d.version == ANY
        else VER_EQUAL <= d.operator.code <= VER_MORE_EQUAL && Plain(d.version))
  }

  /** name (>= version) */
  function WriteDep(d: Dep): Text
    requires Writable(d)
  {
    if d.operator.code == VER_ANY then d.name
    else d.name + [SPACE, OPEN] + OperatorText(d.operator.code) + [SPACE] + d.version + [CLOSE]
  }

  /** The alternatives of a clause, with bars between them. */
  function WriteClause(ds: seq<Dep>): Text
    requires ds != [] && forall k :: 0 <= k < |ds| ==> Writable(ds[k])
  {
    if |ds| == 1 then WriteDep(ds[0]) else WriteDep(ds[0]) + [SPACE, BAR, SPACE] + WriteClause(ds[1..])
  }

  predicate AllWritable(dss: seq<seq<Dep>>) {
    forall k :: 0 <= k < |dss| ==> dss[k] != [] && forall i :: 0 <= i < |dss[k]| ==> Writable(dss[k][i])
  }

  /** The clauses of a line, with commas between them. */
  function WriteLine(dss: seq<seq<Dep>>): Text
    requires dss != [] && AllWritable(dss)
  {
    if |dss| == 1 then WriteClause(dss[0]) else WriteClause(dss[0]) + [COMMA, SPACE] + WriteLine(dss[1..])
  }

  // ---------- reading it back ----------

  /** The token before the first separator, and all that stands behind it. */
  lemma FirstToken(w: Text, sep: byte, rest: Text)
    requires w != [] && sep !in w
    ensures NextToken(w + [sep] + rest, sep) == Some((w, rest))
    ensures NextToken(w, sep) == Some((w, []))
  {
    hide Span, Until;
    var s := w + [sep] + rest;
    assert s[0] == w[0] && s[|w|] == sep;
    SpanIs(s, {sep}, 0);
    SpanIs(w, {sep}, 0);
    assert s[0..] == s && w[0..] == w;
    UntilIs(s, {sep}, |w|);
    UntilIs(w, {sep}, |w|);
    assert s[0..|w|] == w && s[|w| + 1..] == rest && w[0..|w|] == w;
  }

  lemma StripSpace(s: Text)
    requires s != [] && s[0] != SPACE
    ensures Strip([SPACE] + s) == s && Strip(s) == s
  {
    SpanIs([SPACE] + s, {SPACE}, 1);
    SpanIs(s, {SPACE}, 0);
  }

  /** A text as WriteDep() writes it: it begins with the name, and holds no comma or bar. */
  lemma DepText(d: Dep)
    requires Writable(d)
    ensures var s := WriteDep(d); s != [] && s[0] == d.name[0] && s[0] != SPACE && COMMA !in s && BAR !in s
  {}

  lemma OperatorReads(code: nat)
    requires VER_EQUAL <= code <= VER_MORE_EQUAL
    ensures OperatorOf(OperatorText(code)) == Known(code)
    ensures OperatorText(code) != [] && forall i :: 0 <= i < |OperatorText(code)| ==>
        OperatorText(code)[i] in {LT, EQ, GT}
  {
    var t := OperatorText(code);
    assert t[0] == if code == VER_EQUAL then EQ else if code <= VER_LESS_EQUAL then LT else GT;
    assert |t| == 2 ==> t[1] == if code == VER_LESS then LT else if code == VER_MORE then GT else EQ;
    assert forall u: Text :: t <= u && |u| == |t| ==> u == t;
  }

  /** What the source takes a run of the characters <, = and > for: a single < is <<, a single
      > is >>, and everything but these seven runs is illegal. */
  lemma OperatorRuns(run: Text)
    requires run != []
    ensures OperatorOf(run) ==
      if run == Chars("=") then Known(1)
      else if run == Chars("<<") || run == Chars("<") then Known(2)
      else if run == Chars("<=") then Known(3)
      else if run == Chars(">>") || run == Chars(">") then Known(4)
      else if run == Chars(">=") then Known(5)
      else Illegal
  {
    assert Chars("=") == [EQ] && Chars("<") == [LT] && Chars(">") == [GT];
    assert Chars("<<") == [LT, LT] && Chars("<=") == [LT, EQ];
    assert Chars(">>") == [GT, GT] && Chars(">=") == [GT, EQ];
    if |run| == 1 {
      assert run == [run[0]];
    } else if |run| == 2 {
      assert run == [run[0], run[1]];
    }
    assert forall c: byte, d: byte :: run <= [c, d] <==> run == [c] || run == [c, d] by {
      forall c: byte, d: byte ensures run <= [c, d] <==> run == [c] || run == [c, d] { ShortPrefix(run, c, d); }
    }
  }

  lemma ShortPrefix(run: Text, c: byte, d: byte)
    requires run != []
    ensures run <= [c, d] <==> run == [c] || run == [c, d]
  {
    if run <= [c, d] {
      assert run == [c, d][..|run|];
    }
  }

  predicate Spaces(s: Text) { forall i :: 0 <= i < |s| ==> s[i] == SPACE }

  /** A dependency with a version reads the same with any spaces, or none, before the name,
      around the parenthesis and behind the operator, with or without what follows the
      version. */
  lemma SpacedReads(name: Text, op: Text, version: Text, s0: Text, s1: Text, s2: Text, s3: Text, rest: Text)
    requires Plain(name) && Plain(version) && op != [] && forall i :: 0 <= i < |op| ==> op[i] in {LT, EQ, GT}
    requires Spaces(s0) && Spaces(s1) && Spaces(s2) && Spaces(s3) && (rest != [] ==> rest[0] in {SPACE, CLOSE})
    ensures ReadDep(s0 + (name + (s1 + ([OPEN] + (s2 + (op + (s3 + (version + rest))))))))
      == Dep(name, OperatorOf(op), version)
  {
    hide OperatorOf, ReadVersion, Strip, Until, Span, FirstOf, Plain, Spaces;
    var v := s3 + (version + rest);
    var y := [OPEN] + (s2 + (op + v));
    var f := name + (s1 + y);
    PlainMeans(name);
    SpacesHead(s1, y);
    StripSpaces(s0, f);
    NameEnds(name, s1, y, {SPACE, OPEN});
    OpenBehind(name, s1, y);
    VersionParts(s2, op, s3, version, rest);
    BehindBoth(name, s1, y);
    VersionAt(f, |name| + |s1|, op, v, version);
  }

  lemma PlainMeans(s: Text)
    requires Plain(s)
    ensures s != [] && s[0] != SPACE && forall i :: 0 <= i < |s| ==> s[i] !in {SPACE, OPEN}
  {}

  lemma SpacesHead(s: Text, y: Text)
    requires Spaces(s) && y != []
    ensures (s + y)[0] == if s != [] then SPACE else y[0]
  {}

  lemma BehindBoth(a: Text, b: Text, c: Text)
    ensures (a + (b + c))[|a| + |b|..] == c
  {}

  lemma StripSpaces(s: Text, f: Text)
    requires Spaces(s) && (f == [] || f[0] != SPACE)
    ensures Strip(s + f) == f
  {
    SpanIs(s + f, {SPACE}, |s|);
    assert (s + f)[|s|..] == f;
  }

  lemma NameEnds(w: Text, s: Text, rest: Text, stop: set<byte>)
    requires (forall i :: 0 <= i < |w| ==> w[i] !in stop) && Spaces(s) && SPACE in stop
    requires s + rest == [] || (s + rest)[0] in stop
    ensures var f := w + (s + rest); f[..Until(f, stop)] == w
  {
    var f := w + (s + rest);
    UntilIs(f, stop, |w|);
    assert f[..|w|] == w;
  }

  lemma OpenBehind(name: Text, s: Text, y: Text)
    requires Plain(name) && Spaces(s) && y != [] && y[0] == OPEN
    ensures FirstOf(name + (s + y), OPEN) == Some(|name| + |s|)
  {
    var f := name + (s + y);
    var n := |name| + |s|;
    assert f[n] == OPEN && f[..n] == name + s;
    FirstIs(f, OPEN, n);
  }

  /** From the parenthesis on. */
  lemma VersionParts(s2: Text, op: Text, s3: Text, version: Text, rest: Text)
    requires Plain(version) && op != [] && forall i :: 0 <= i < |op| ==> op[i] in {LT, EQ, GT}
    requires Spaces(s2) && Spaces(s3) && (rest != [] ==> rest[0] in {SPACE, CLOSE})
    ensures var y := [OPEN] + (s2 + (op + (s3 + (version + rest))));
      y[Span(y, {SPACE, OPEN})..] == op + (s3 + (version + rest))
    ensures var x := op + (s3 + (version + rest));
      Span(x, {LT, EQ, GT}) == |op| && x[..|op|] == op && x[|op|..] == s3 + (version + rest)
    ensures var w := Strip(s3 + (version + rest)); w[..Until(w, {SPACE, CLOSE})] == version
  {
    var x := op + (s3 + (version + rest));
    var y := [OPEN] + (s2 + x);
    assert y[1 + |s2|] == op[0];
    SpanIs(y, {SPACE, OPEN}, 1 + |s2|);
    assert y[1 + |s2|..] == x;
    if s3 != [] { assert x[|op|] == s3[0]; } else { assert x[|op|] == version[0]; }
    SpanIs(x, {LT, EQ, GT}, |op|);
    StripSpaces(s3, version + rest);
    NameEnds(version, [], rest, {SPACE, CLOSE});
    assert [] + rest == rest;
  }

  lemma VersionAt(f: Text, i: nat, op: Text, v: Text, version: Text)
    requires FirstOf(f, OPEN) == Some(i) && i < |f| && op != []
    requires var y := f[i..]; y[Span(y, {SPACE, OPEN})..] == op + v
    requires Span(op + v, {LT, EQ, GT}) == |op| && (op + v)[..|op|] == op && (op + v)[|op|..] == v
    requires var w := Strip(v); w[..Until(w, {SPACE, CLOSE})] == version
    ensures ReadVersion(f) == (OperatorOf(op), version)
  {
    hide OperatorOf, FirstOf, Span, Until, Strip;
  }

  /** A dependency reads back as it was written, with or without a space before or behind. */
  lemma DepReads(d: Dep, before: Text, behind: Text)
    requires Writable(d) && before in {[], [SPACE]} && behind in {[], [SPACE]}
    ensures ReadDep(before + WriteDep(d) + behind) == d
  {
    hide OperatorOf, OperatorText, Span, Until, Strip, ReadVersion;
    var t := WriteDep(d) + behind;
    DepText(d);
    StripSpace(t);
    assert before + WriteDep(d) + behind == if before == [] then t else [SPACE] + t;
    assert Strip(before + WriteDep(d) + behind) == t;
    assert forall i :: 0 <= i < |d.name| ==> t[i] == d.name[i];
    UntilIs(t, {SPACE, OPEN}, |d.name|);
    assert t[..|d.name|] == d.name;
    VersionReads(d, behind);
  }

  lemma VersionReads(d: Dep, behind: Text)
    requires Writable(d) && behind in {[], [SPACE]}
    ensures ReadVersion(WriteDep(d) + behind) == (d.operator, d.version)
  {
    hide OperatorOf, OperatorText, Span, Until, Strip;
    var t := WriteDep(d) + behind;
    if d.operator.code == VER_ANY {
      NoOpen(d.name, behind);
    } else {
      var v := OperatorText(d.operator.code) + [SPACE] + d.version + [CLOSE];
      assert t == d.name + [SPACE, OPEN] + v + behind;
      VersionBehind(d.name, v, behind);
      VersionThere(d, v, behind);
    }
  }

  lemma NoOpen(name: Text, behind: Text)
    requires Plain(name) && behind in {[], [SPACE]}
    ensures FirstOf(name + behind, OPEN) == None
  {
    var t := name + behind;
    assert OPEN !in name && OPEN !in behind && OPEN !in t;
  }

  lemma VersionBehind(name: Text, v: Text, behind: Text)
    requires Plain(name)
    ensures var t := name + [SPACE, OPEN] + v + behind;
      FirstOf(t, OPEN) == Some(|name| + 1) && t[|name| + 1..] == [OPEN] + v + behind
  {
    var t := name + [SPACE, OPEN] + v + behind;
    assert t[|name| + 1] == OPEN;
    assert t[..|name| + 1] == name + [SPACE];
    FirstIs(t, OPEN, |name| + 1);
  }

  lemma VersionThere(d: Dep, v: Text, behind: Text)
    requires Writable(d) && d.operator.code != VER_ANY && behind in {[], [SPACE]}
    requires v == OperatorText(d.operator.code) + [SPACE] + d.version + [CLOSE]
    ensures var r := [OPEN] + v + behind;
      var x := r[Span(r, {SPACE, OPEN})..];
      var n := Span(x, {LT, EQ, GT});
      var w := Strip(x[n..]);
      n > 0 && OperatorOf(x[..n]) == d.operator && w[..Until(w, {SPACE, CLOSE})] == d.version
  {
    hide OperatorOf, OperatorText, Span, Until, Strip;
    var op := OperatorText(d.operator.code);
    OperatorReads(d.operator.code);
    var r := [OPEN] + v + behind;
    assert r[1] == op[0];
    SpanIs(r, {SPACE, OPEN}, 1);
    var x := r[1..];
    assert x == op + ([SPACE] + (d.version + [CLOSE] + behind));
    SpanIs(x, {LT, EQ, GT}, |op|);
    assert x[..|op|] == op;
    var w := d.version + [CLOSE] + behind;
    assert x[|op|..] == [SPACE] + w && w[0] == d.version[0];
    StripSpace(w);
    UntilIs(w, {SPACE, CLOSE}, |d.version|);
    assert w[..|d.version|] == d.version;
  }

  lemma {:induction false} ClauseText(ds: seq<Dep>)
    requires ds != [] && forall k :: 0 <= k < |ds| ==> Writable(ds[k])
    ensures var s := WriteClause(ds); s != [] && s[0] != SPACE && COMMA !in s && (BAR in s <==> |ds| > 1)
  {
    DepText(ds[0]);
    hide Writable, WriteDep;
    if |ds| > 1 {
      ClauseText(ds[1..]);
      assert WriteClause(ds)[|WriteDep(ds[0])| + 1] == BAR;
    }
  }

  lemma {:induction false} AlternativesRead(ds: seq<Dep>, before: Text)
    requires ds != [] && (forall k :: 0 <= k < |ds| ==> Writable(ds[k])) && before in {[], [SPACE]}
    ensures ReadDeps(Tokens(before + WriteClause(ds), BAR)) == ds
  {
    hide ReadDep, Writable, WriteDep, NextToken;
    var w := before + WriteDep(ds[0]);
    DepText(ds[0]);
    if |ds| == 1 {
      FirstToken(w, BAR, []);
      TokensNone(BAR);
      DepReads(ds[0], before, []);
      assert w + [] == w;
      OneDep(w, ds[0]);
    } else {
      var rest := [SPACE] + WriteClause(ds[1..]);
      assert before + WriteClause(ds) == (w + [SPACE]) + [BAR] + rest;
      FirstToken(w + [SPACE], BAR, rest);
      DepReads(ds[0], before, [SPACE]);
      AlternativesRead(ds[1..], [SPACE]);
      MoreDeps(w + [SPACE], Tokens(rest, BAR));
    }
  }

  lemma TokensNone(sep: byte)
    ensures Tokens([], sep) == []
  {}

  lemma OneDep(w: Text, d: Dep)
    requires ReadDep(w) == d
    ensures ReadDeps([w]) == [d]
  {
    assert [w][1..] == [];
  }

  lemma MoreDeps(w: Text, ws: seq<Text>)
    ensures ReadDeps([w] + ws) == [ReadDep(w)] + ReadDeps(ws)
  {
    assert ([w] + ws)[1..] == ws;
  }

  /** The clauses that a line stands for: in the dependency fields alternatives belong
      together. */
  function ClausesOf(dss: seq<seq<Dep>>, kind: nat): seq<Clause>
    requires AllWritable(dss)
  {
    if dss == [] then []
    else
      (if HasClauses(kind) && |dss[0]| > 1 then [Or(WriteClause(dss[0]), dss[0])] else Singles(dss[0]))
      + ClausesOf(dss[1..], kind)
  }

  lemma FieldReads(ds: seq<Dep>, kind: nat)
    requires ds != [] && forall k :: 0 <= k < |ds| ==> Writable(ds[k])
    ensures ReadField(WriteClause(ds), kind) ==
      if HasClauses(kind) && |ds| > 1 then [Or(WriteClause(ds), ds)] else Singles(ds)
  {
    hide Tokens, WriteClause, Writable;
    var s := WriteClause(ds);
    AlternativesRead(ds, []);
    assert [] + s == s;
    ClauseText(ds);
    WholeToken(s, BAR);
  }

  /** Whatever clauses a field is written from, add_split_dependencies() reads just those. */
  lemma LineReads(dss: seq<seq<Dep>>, kind: nat)
    requires dss != [] && AllWritable(dss)
    ensures ReadLine(WriteLine(dss), kind) == ClausesOf(dss, kind)
  {
    FieldsRead(dss, [], kind);
    assert [] + WriteLine(dss) == WriteLine(dss);
  }

  lemma {:induction false} FieldsRead(dss: seq<seq<Dep>>, before: Text, kind: nat)
    requires dss != [] && AllWritable(dss) && before in {[], [SPACE]}
    ensures ReadFields(Tokens(before + WriteLine(dss), COMMA), kind) == ClausesOf(dss, kind)
  {
    hide ReadField, Writable, WriteClause, NextToken, Strip, Singles, HasClauses;
    var s := WriteClause(dss[0]);
    var w := before + s;
    ClauseText(dss[0]);
    StripSpace(s);
    FieldReads(dss[0], kind);
    assert Strip(w) == s by { assert [] + s == s; }
    if |dss| == 1 {
      FirstToken(w, COMMA, []);
      TokensNone(COMMA);
      MoreFields(w, [], kind);
      assert [w] + [] == [w];
      assert ClausesOf(dss[1..], kind) == [];
    } else {
      var rest := [SPACE] + WriteLine(dss[1..]);
      assert before + WriteLine(dss) == w + [COMMA] + rest;
      FirstToken(w, COMMA, rest);
      FieldsRead(dss[1..], [SPACE], kind);
      MoreFields(w, Tokens(rest, COMMA), kind);
    }
  }

  lemma MoreFields(w: Text, ws: seq<Text>, kind: nat)
    ensures ReadFields([w] + ws, kind) == ReadField(Strip(w), kind) + ReadFields(ws, kind)
  {
    assert ([w] + ws)[1..] == ws;
  }

  // ---------- the edges of a field ----------

  /** A package that is being put together. */
  class Node {
    var edges: seq<Edge>

    constructor ()
      ensures edges == []
    {
      edges := [];
    }

    /** add_edge_to_node() */
    method AddEdge(edge: Edge)
      modifies this
      ensures edges == old(edges) + [edge]
    {
      edges := edges + [edge];
    }

    /** An alternative comes behind the others, and the OR edge, where there is one, counts it. */
    method AddAlternative(or_edge: Option<nat>, edge: Edge, ghost edges0: seq<Edge>, ghost root: Option<Edge>,
        ghost es: seq<Edge>)
      requires or_edge == if root.Some? then Some(|edges0|) else None
      requires edges == edges0 + Counted(root, |es|) + es
      modifies this
      ensures edges == edges0 + Counted(root, |es| + 1) + (es + [edge])
    {
      if or_edge.Some? {
        var e := edges[or_edge.value];
        assert e == Counted(root, |es|)[0];
        edges := edges[or_edge.value := e.(version := (e.version + 1) % 0x1_0000)];
        assert edges == edges0 + Counted(root, |es| + 1) + es;
      }
      AddEdge(edge);
    }
  }

  /** An OR edge that has counted n alternatives, in 16 bits. */
  function Counted(root: Option<Edge>, n: nat): seq<Edge> {
    match root
    case None => []
    case Some(e) => [e.(version := n % 0x1_0000)]
  }

  /** Texts that have their place among the numbered ones. */
  predicate DepIn(d: Dep, words: set<Text>) { d.name in words && d.version in words }

  predicate ClauseIn(c: Clause, words: set<Text>) {
    match c
    case One(d) => DepIn(d, words)
    case Or(text, ds) => text in words && forall k :: 0 <= k < |ds| ==> DepIn(ds[k], words)
  }

  predicate Numbers(t: Slots, n: nat, text: Text) {
    Named(t, n) && t[n] == Some(text)
  }

  predicate ShowsDep(t: Slots, e: Edge, d: Dep, kind: nat) {
    && Numbers(t, e.name, d.name) && Numbers(t, e.version, d.version) && e.kind == kind
    && (d.operator.Known? ==> e.operator == d.operator.code)
    && d.operator != Illegal
  }

  /** The edges of a group stand for a clause. */
  predicate Shows(t: Slots, g: Group, c: Clause, kind: nat) {
    match c
    case One(d) => g.Single? && ShowsDep(t, g.edge, d, kind)
    case Or(text, ds) =>
      && g.Alternatives? && g.root.kind == kind + 1 && Numbers(t, g.root.name, text)
      && |g.others| == |ds| && g.root.version == |ds| % 0x1_0000
      && forall k :: 0 <= k < |ds| ==> ShowsDep(t, g.others[k], ds[k], kind)
  }

  predicate ShowsAll(t: Slots, gs: seq<Group>, cs: seq<Clause>, kind: nat) {
    |gs| == |cs| && forall k :: 0 <= k < |cs| ==> Shows(t, gs[k], cs[k], kind)
  }

  lemma ShowsDepStays(t: Slots, u: Slots, e: Edge, d: Dep, kind: nat)
    requires ShowsDep(t, e, d, kind) && Extends(t, u)
    ensures ShowsDep(u, e, d, kind)
  {}

  lemma ShowsStays(t: Slots, u: Slots, gs: seq<Group>, cs: seq<Clause>, kind: nat)
    requires ShowsAll(t, gs, cs, kind) && Extends(t, u)
    ensures ShowsAll(u, gs, cs, kind)
  {
    hide Extends, ShowsDep;
    forall k | 0 <= k < |cs| ensures Shows(u, gs[k], cs[k], kind) {
      assert Shows(t, gs[k], cs[k], kind);
      match cs[k]
      case One(d) => ShowsDepStays(t, u, gs[k].edge, d, kind);
      case Or(text, ds) =>
        StillNumbers(t, u, gs[k].root.name, text);
        forall i | 0 <= i < |ds| ensures ShowsDep(u, gs[k].others[i], ds[i], kind) {
          ShowsDepStays(t, u, gs[k].others[i], ds[i], kind);
        }
    }
  }

  lemma StillNumbers(t: Slots, u: Slots, n: nat, text: Text)
    requires Numbers(t, n, text) && Extends(t, u)
    ensures Numbers(u, n, text)
  {}

  lemma ExtendsTransitive(t: Slots, u: Slots, v: Slots)
    requires Extends(t, u) && Extends(u, v)
    ensures Extends(t, v)
  {}

  /** search_name_hashtable() for a text that there is room for. */
  method NumberText(names: Names, key: Text, ghost words: set<Text>) returns (r: nat)
    requires names.Valid() && RoomFor(names.slots[..], words) && key in words && Ascii(key)
    modifies names.slots
    ensures names.Valid() && RoomFor(names.slots[..], words)
    ensures Extends(old(names.slots[..]), names.slots[..]) && Numbers(names.slots[..], r, key)
  {
    hide Placed, RoomFor;
    ghost var u := names.slots[..];
    RoomMeansFree(u, words, key);
    r := names.Search(key);
    CallKeepsRoom(u, words, key, r, names.slots[..]);
    CallKeepsPlaced(u, key, r, names.slots[..]);
    OneCallExtends(u, key, r, names.slots[..]);
  }

  /** The part of the inner loop that deals with the parentheses. */
  method VersionFor(names: Names, field2: Text, ghost words: set<Text>)
      returns (operator: nat, version_num: nat, legal: bool)
    requires names.Valid() && RoomFor(names.slots[..], words) && Ascii(field2) && ReadVersion(field2).1 in words
    modifies names.slots
    ensures names.Valid() && RoomFor(names.slots[..], words)
    ensures Extends(old(names.slots[..]), names.slots[..])
    ensures legal <==> ReadVersion(field2).0 != Illegal
    ensures legal ==> Numbers(names.slots[..], version_num, ReadVersion(field2).1)
    ensures legal && ReadVersion(field2).0.Known? ==> operator == ReadVersion(field2).0.code
  {
    hide Placed, RoomFor, Extends, Ascii, Names.Valid, Numbers, Span, Until, OperatorOf;
    VersionIsAscii(field2);
    Unchanged(names.slots[..]);
    // xmalloc() leaves the operator at whatever stood in memory.
    operator := *;
    legal, version_num := true, 0;
    var paren := FirstOf(field2, OPEN);
    if paren.None? {
      operator := VER_ANY;
      version_num := NumberText(names, ANY, words);
    } else {
      var version := field2[paren.value..];
      version := version[Span(version, {SPACE, OPEN})..];
      var offset_ch := Span(version, {LT, EQ, GT});
      if offset_ch > 0 {
        match OperatorOf(version[..offset_ch])
        case Known(code) => operator := code;
        case _ => legal := false; return;
      }
      version := version[offset_ch..];
      version := version[Span(version, {SPACE})..];
      version := version[..Until(version, {SPACE, CLOSE})];
      version_num := NumberText(names, version, words);
    }
  }

  lemma Unchanged(t: Slots)
    ensures Extends(t, t)
  {}

  /** The inner loop's step: one alternative becomes an edge, unless its operator is illegal. */
  method EdgeFor(names: Names, token: Text, kind: nat, ghost words: set<Text>) returns (r: Option<Edge>)
    requires names.Valid() && RoomFor(names.slots[..], words) && Ascii(token) && DepIn(ReadDep(token), words)
    modifies names.slots
    ensures names.Valid() && RoomFor(names.slots[..], words)
    ensures Extends(old(names.slots[..]), names.slots[..])
    ensures r.None? <==> ReadDep(token).operator == Illegal
    ensures r.Some? ==> ShowsDep(names.slots[..], r.value, ReadDep(token), kind)
  {
    hide Placed, RoomFor, Extends, Ascii, Names.Valid, ReadVersion, Numbers;
    ghost var t := names.slots[..];
    var field2 := token[Span(token, {SPACE})..];
    StripIsAscii(token);
    var operator, version_num, legal := VersionFor(names, field2, words);
    if !legal {
      return None;
    }
    ghost var u := names.slots[..];
    NameIsAscii(field2);
    field2 := field2[..Until(field2, {SPACE, OPEN})];
    var name_num := NumberText(names, field2, words);
    StillNumbers(u, names.slots[..], version_num, ReadDep(token).version);
    ExtendsTransitive(t, u, names.slots[..]);
    r := Some(Edge(operator, kind, name_num, version_num));
  }

  lemma StripIsAscii(s: Text)
    requires Ascii(s)
    ensures Ascii(Strip(s))
  {
    hide Ascii, Span;
    assert s[Span(s, {SPACE})..] == s[Span(s, {SPACE})..|s|];
    SliceIsAscii(s, Span(s, {SPACE}), |s|);
  }

  lemma NameIsAscii(s: Text)
    requires Ascii(s)
    ensures Ascii(s[..Until(s, {SPACE, OPEN})])
  {
    hide Ascii, Until;
    SliceIsAscii(s, 0, Until(s, {SPACE, OPEN}));
  }

  /** The version is a piece of the text. */
  lemma VersionIsAscii(f: Text)
    requires Ascii(f)
    ensures Ascii(ReadVersion(f).1)
  {
    hide Ascii, Span, Until, Strip;
    match FirstOf(f, OPEN)
    case None =>
      AnyIsAscii();
    case Some(i) =>
      var r := f[i..];
      var a := Span(r, {SPACE, OPEN});
      var v := r[a..];
      var n := Span(v, {LT, EQ, GT});
      assert v[n..] == f[i + a + n..|f|];
      SliceIsAscii(f, i + a + n, |f|);
      StripIsAscii(v[n..]);
      var w := Strip(v[n..]);
      SliceIsAscii(w, 0, Until(w, {SPACE, CLOSE}));
  }

  lemma AnyIsAscii()
    ensures Ascii(ANY)
  {}

  /** The tokens from a token on. */
  function TokensFrom(token: Option<(Text, Text)>, sep: byte): seq<Text> {
    match token
    case None => []
    case Some((w, rest)) => [w] + Tokens(rest, sep)
  }

  lemma TokensStep(s: Text, sep: byte)
    requires Ascii(s)
    ensures Tokens(s, sep) == TokensFrom(NextToken(s, sep), sep)
    ensures var r := NextToken(s, sep); r.Some? ==> Ascii(r.value.0) && Ascii(r.value.1)
  {}

  lemma NextDep(ws: seq<Text>)
    requires ws != []
    ensures ReadDeps(ws) == [ReadDep(ws[0])] + ReadDeps(ws[1..])
  {}

  function SingleGroups(es: seq<Edge>): (gs: seq<Group>)
    ensures |gs| == |es| && forall k :: 0 <= k < |es| ==> gs[k] == Single(es[k])
  {
    seq(|es|, k requires 0 <= k < |es| => Single(es[k]))
  }

  lemma {:induction false} FlattenSingles(es: seq<Edge>)
    ensures Flatten(SingleGroups(es)) == es
  {
    if es != [] {
      var n := |es| - 1;
      FlattenSingles(es[..n]);
      assert SingleGroups(es)[..n] == SingleGroups(es[..n]);
      assert es == es[..n] + [es[n]];
    }
  }

  lemma FlattenOne(g: Group)
    ensures Flatten([g]) == EdgesOf(g)
  {
    assert [g][..0] == [];
  }

  /** Edges that show dependencies one by one. */
  predicate ShowsDeps(t: Slots, es: seq<Edge>, ds: seq<Dep>, kind: nat) {
    |es| == |ds| && forall k :: 0 <= k < |ds| ==> ShowsDep(t, es[k], ds[k], kind)
  }

  lemma ShowsDepsStay(t: Slots, u: Slots, es: seq<Edge>, ds: seq<Dep>, kind: nat, e: Edge, d: Dep)
    requires ShowsDeps(t, es, ds, kind) && Extends(t, u) && ShowsDep(u, e, d, kind)
    ensures ShowsDeps(u, es + [e], ds + [d], kind)
  {
    hide ShowsDep, Extends;
    forall k | 0 <= k < |ds| ensures ShowsDep(u, es[k], ds[k], kind) {
      ShowsDepStays(t, u, es[k], ds[k], kind);
    }
  }

  predicate AllIn(cs: seq<Clause>, words: set<Text>) {
    forall k :: 0 <= k < |cs| ==> ClauseIn(cs[k], words)
  }

  predicate AllLegal(cs: seq<Clause>) {
    forall k :: 0 <= k < |cs| ==> Legal(cs[k])
  }

  /** What a field's clauses say about its dependencies. */
  lemma FieldParts(field: Text, kind: nat, words: set<Text>)
    requires Tokens(field, BAR) != []
    ensures var ds := ReadDeps(Tokens(field, BAR)); var cs := ReadField(field, kind);
      && (AllIn(cs, words) ==> forall d :: d in ds ==> DepIn(d, words))
      && (AllLegal(cs) <==> forall d :: d in ds ==> d.operator != Illegal)
      && (HasClauses(kind) && field != Tokens(field, BAR)[0] ==>
          cs == [Or(field, ds)] && (AllIn(cs, words) ==> field in words))
      && (!(HasClauses(kind) && field != Tokens(field, BAR)[0]) ==> cs == Singles(ds))
  {
    hide Tokens, ReadDeps, DepIn;
    var ds := ReadDeps(Tokens(field, BAR));
    var cs := ReadField(field, kind);
    if HasClauses(kind) && field != Tokens(field, BAR)[0] {
      assert cs[0] == Or(field, ds);
      assert forall d :: d in ds ==> exists k :: 0 <= k < |ds| && d == ds[k];
    } else {
      forall d | d in ds ensures exists k :: 0 <= k < |cs| && cs[k] == One(d) {
        var k :| 0 <= k < |ds| && ds[k] == d;
        assert cs[k] == One(d);
      }
      assert forall k :: 0 <= k < |cs| ==> cs[k].dep in ds;
    }
  }

  lemma OneDepPerToken(field: Text)
    ensures |ReadDeps(Tokens(field, BAR))| == |Tokens(field, BAR)|
  {}

  lemma ShownCount(t: Slots, es: seq<Edge>, field: Text, kind: nat)
    requires ShowsDeps(t, es, ReadDeps(Tokens(field, BAR)), kind)
    ensures |es| == |Tokens(field, BAR)|
  {}

  lemma ShownEdges(t: Slots, es: seq<Edge>, ds: seq<Dep>, kind: nat)
    requires ShowsDeps(t, es, ds, kind)
    ensures forall k :: 0 <= k < |es| ==> es[k].kind == kind && EdgeOk(t, es[k])
  {
    forall k | 0 <= k < |es| ensures es[k].kind == kind && EdgeOk(t, es[k]) {
      assert ShowsDep(t, es[k], ds[k], kind);
    }
  }

  /** The field gets an OR edge. */
  predicate NeedsRoot(field: Text, kind: nat)
    requires Tokens(field, BAR) != []
  {
    HasClauses(kind) && field != Tokens(field, BAR)[0]
  }

  /** The groups that the edges of a field form. */
  lemma FieldGroups(t: Slots, field: Text, kind: nat, root: Option<Edge>, es: seq<Edge>) returns (gs: seq<Group>)
    requires Tokens(field, BAR) != [] && ShowsDeps(t, es, ReadDeps(Tokens(field, BAR)), kind)
    requires root.Some? <==> NeedsRoot(field, kind)
    requires root.Some? ==> root.value.kind == kind + 1 && Numbers(t, root.value.name, field)
    requires kind % 2 == 1
    ensures forall k :: 0 <= k < |gs| ==> AllEdgesOk(t, gs[k]) && (|es| < 0x1_0000 ==> GroupOk(gs[k]))
    ensures ShowsAll(t, gs, ReadField(field, kind), kind)
    ensures Flatten(gs) == Counted(root, |es|) + es
  {
    hide Tokens, ReadDeps, ShowsDep, Flatten, SingleGroups, Singles, ReadField, EdgeOk, Numbers;
    FieldParts(field, kind, {});
    ShownEdges(t, es, ReadDeps(Tokens(field, BAR)), kind);
    if root.Some? {
      gs := [Alternatives(root.value.(version := |es| % 0x1_0000), es)];
      FlattenOne(gs[0]);
      assert es != [] by { OneDepPerToken(field); }
    } else {
      gs := SingleGroups(es);
      FlattenSingles(es);
    }
  }

  /** The loop over the alternatives of a field. */
  method AddAlternatives(node: Node, names: Names, field: Text, kind: nat, or_edge: Option<nat>,
      ghost root: Option<Edge>, ghost words: set<Text>)
    returns (ok: bool, ghost es: seq<Edge>)
    requires names.Valid() && RoomFor(names.slots[..], words)
    requires Ascii(field) && forall d :: d in ReadDeps(Tokens(field, BAR)) ==> DepIn(d, words)
    requires |Counted(root, 0)| <= |node.edges| && node.edges[|node.edges| - |Counted(root, 0)|..] == Counted(root, 0)
    requires or_edge == if root.Some? then Some(|node.edges| - 1) else None
    modifies names.slots, node
    ensures names.Valid() && RoomFor(names.slots[..], words)
    ensures Extends(old(names.slots[..]), names.slots[..])
    ensures ok <==> forall d :: d in ReadDeps(Tokens(field, BAR)) ==> d.operator != Illegal
    ensures ok ==> ShowsDeps(names.slots[..], es, ReadDeps(Tokens(field, BAR)), kind)
    ensures ok ==> node.edges == old(node.edges[..|node.edges| - |Counted(root, 0)|]) + Counted(root, |es|) + es
  {
    hide Placed, RoomFor, Extends, Ascii, Names.Valid, Tokens, ReadDep, ReadDeps, ShowsDep, NextToken;
    ghost var t0 := names.slots[..];
    ghost var edges0 := node.edges[..|node.edges| - |Counted(root, 0)|];
    ghost var deps := ReadDeps(Tokens(field, BAR));
    TokensStep(field, BAR);
    Unchanged(t0);
    var field2 := NextToken(field, BAR);
    ghost var ds: seq<Dep> := [];
    es := [];
    while field2.Some?
      invariant names.Valid() && RoomFor(names.slots[..], words)
      invariant Extends(t0, names.slots[..])
      invariant deps == ds + ReadDeps(TokensFrom(field2, BAR))
      invariant field2.Some? ==> Ascii(field2.value.0) && Ascii(field2.value.1)
      invariant ShowsDeps(names.slots[..], es, ds, kind)
      invariant forall d :: d in ds ==> d.operator != Illegal
      invariant node.edges == edges0 + Counted(root, |es|) + es
      decreases |TokensFrom(field2, BAR)|
    {
      ghost var t := names.slots[..];
      ghost var dep := ReadDep(field2.value.0);
      NextDep(TokensFrom(field2, BAR));
      assert TokensFrom(field2, BAR)[1..] == Tokens(field2.value.1, BAR);
      assert deps[|ds|] == dep;
      var edge := EdgeFor(names, field2.value.0, kind, words);
      ExtendsTransitive(t0, t, names.slots[..]);
      if edge.None? {
        return false, [];
      }
      ShowsDepsStay(t, names.slots[..], es, ds, kind, edge.value, dep);
      node.AddAlternative(or_edge, edge.value, edges0, root, es);
      ds, es := ds + [dep], es + [edge.value];
      TokensStep(field2.value.1, BAR);
      field2 := NextToken(field2.value.1, BAR);
    }
    NoMoreDeps();
    assert ds == deps;
    ok := true;
  }

  /** One field between commas: an OR edge that counts the alternatives, when there is more
      than a single one, and an edge for every alternative. */
  method AddField(node: Node, names: Names, field: Text, kind: nat, ghost words: set<Text>)
      returns (ok: bool, ghost gs: seq<Group>)
    requires names.Valid() && RoomFor(names.slots[..], words)
    requires kind % 2 == 1 && Ascii(field) && AllIn(ReadField(field, kind), words)
    requires Tokens(field, BAR) != []
    modifies names.slots, node
    ensures names.Valid() && RoomFor(names.slots[..], words)
    ensures Extends(old(names.slots[..]), names.slots[..])
    ensures ok <==> AllLegal(ReadField(field, kind))
    ensures ok ==> ShowsAll(names.slots[..], gs, ReadField(field, kind), kind)
    ensures ok ==> node.edges == old(node.edges) + Flatten(gs)
    ensures ok ==> forall k :: 0 <= k < |gs| ==> AllEdgesOk(names.slots[..], gs[k])
    ensures ok && |Tokens(field, BAR)| < 0x1_0000 ==> forall k :: 0 <= k < |gs| ==> GroupOk(gs[k])
  {
    hide Placed, RoomFor, Extends, Ascii, Names.Valid, ReadField, Tokens, ReadDeps, ShowsDeps, AllIn, AllLegal,
        Flatten, Numbers, NextToken, ShowsAll;
    gs := [];
    ghost var t0 := names.slots[..];
    ghost var edges0 := node.edges;
    FieldParts(field, kind, words);
    TokensStep(field, BAR);
    Unchanged(t0);
    var first := NextToken(field, BAR).value.0;
    var or_edge: Option<nat> := None;
    ghost var root: Option<Edge> := None;
    if HasClauses(kind) && field != first {
      var n := NumberText(names, field, words);
      var e := Edge(VER_NULL, kind + 1, n, 0);
      root, or_edge := Some(e), Some(|node.edges|);
      node.AddEdge(e);
    }
    ghost var t1 := names.slots[..];
    ghost var es: seq<Edge>;
    ok, es := AddAlternatives(node, names, field, kind, or_edge, root, words);
    ExtendsTransitive(t0, t1, names.slots[..]);
    if ok {
      if root.Some? { StillNumbers(t1, names.slots[..], root.value.name, field); }
      ShownCount(names.slots[..], es, field, kind);
      gs := FieldGroups(names.slots[..], field, kind, root, es);
    }
  }

  lemma NoMoreDeps()
    ensures ReadDeps([]) == []
  {}

  // ---------- a whole line ----------

  /** The 16 bits in which an OR edge counts its alternatives suffice. */
  predicate Countable(line: Text) {
    forall f :: f in Tokens(line, COMMA) ==> |Tokens(Strip(f), BAR)| < 0x1_0000
  }

  lemma {:induction false} FlattenConcat(a: seq<Group>, b: seq<Group>)
    ensures Flatten(a + b) == Flatten(a) + Flatten(b)
  {
    hide Flatten;
    FlattenEmpty();
    if b == [] {
      assert a + b == a;
    } else {
      var n := |b| - 1;
      FlattenConcat(a, b[..n]);
      FlattenSnoc(a + b[..n], b[n]);
      FlattenSnoc(b[..n], b[n]);
      assert b == b[..n] + [b[n]] && a + b == a + b[..n] + [b[n]];
    }
  }

  lemma FlattenEmpty()
    ensures Flatten([]) == []
  {}

  lemma FlattenSnoc(gs: seq<Group>, g: Group)
    ensures Flatten(gs + [g]) == Flatten(gs) + EdgesOf(g)
  {
    assert (gs + [g])[..|gs|] == gs;
  }

  lemma ShowsConcat(t: Slots, gs: seq<Group>, cs: seq<Clause>, hs: seq<Group>, ds: seq<Clause>, kind: nat)
    requires ShowsAll(t, gs, cs, kind) && ShowsAll(t, hs, ds, kind)
    ensures ShowsAll(t, gs + hs, cs + ds, kind)
  {
    hide Shows;
  }

  lemma NextField(ws: seq<Text>, kind: nat)
    requires ws != []
    ensures ReadFields(ws, kind) == ReadField(Strip(ws[0]), kind) + ReadFields(ws[1..], kind)
  {}

  lemma GroupsStay(t: Slots, u: Slots, gs: seq<Group>)
    requires Extends(t, u) && forall k :: 0 <= k < |gs| ==> AllEdgesOk(t, gs[k])
    ensures forall k :: 0 <= k < |gs| ==> AllEdgesOk(u, gs[k])
  {
    forall k | 0 <= k < |gs| ensures AllEdgesOk(u, gs[k]) {
      assert AllEdgesOk(t, gs[k]);
    }
  }

  lemma SplitClauses(a: seq<Clause>, b: seq<Clause>, words: set<Text>)
    ensures AllIn(a + b, words) <==> AllIn(a, words) && AllIn(b, words)
    ensures AllLegal(a + b) <==> AllLegal(a) && AllLegal(b)
  {
    hide ClauseIn, Legal;
    assert forall k :: 0 <= k < |b| ==> b[k] == (a + b)[|a| + k];
    assert forall k :: 0 <= k < |a| ==> a[k] == (a + b)[k];
  }

  /** add_split_dependencies(): unless the line ends the program, it adds edges that show the
      clauses of the line one after the other. */
  method AddSplitDependencies(node: Node, names: Names, whole_line: Text, edge_type: nat, ghost words: set<Text>)
    returns (outcome: Outcome, ghost gs: seq<Group>)
    requires names.Valid() && RoomFor(names.slots[..], words)
    requires edge_type % 2 == 1 && Ascii(whole_line) && AllIn(ReadLine(whole_line, edge_type), words)
    modifies names.slots, node
    ensures names.Valid() && RoomFor(names.slots[..], words)
    ensures Extends(old(names.slots[..]), names.slots[..])
    ensures outcome == LineOutcome(whole_line, edge_type)
    ensures outcome.Added? ==> ShowsAll(names.slots[..], gs, ReadLine(whole_line, edge_type), edge_type)
    ensures outcome.Added? ==> node.edges == old(node.edges) + Flatten(gs)
    ensures outcome.Added? ==> forall k :: 0 <= k < |gs| ==> AllEdgesOk(names.slots[..], gs[k])
    ensures outcome.Added? && Countable(whole_line) ==> forall k :: 0 <= k < |gs| ==> GroupOk(gs[k])
  {
    hide Placed, RoomFor, Extends, Ascii, Names.Valid, ReadField, ReadFields, Tokens, AllIn, AllLegal, Flatten,
        NextToken, ShowsAll, GroupOk, AllEdgesOk, Strip, FieldsOutcome;
    ghost var t0 := names.slots[..];
    ghost var edges0 := node.edges;
    ghost var all := ReadLine(whole_line, edge_type);
    TokensStep(whole_line, COMMA);
    Unchanged(t0);
    NothingShown(names.slots[..], edge_type);
    var field := NextToken(whole_line, COMMA);
    ghost var cs: seq<Clause> := [];
    gs := [];
    if field.None? {
      return NullToken, [];
    }
    while field.Some?
      invariant names.Valid() && RoomFor(names.slots[..], words)
      invariant Extends(t0, names.slots[..])
      invariant all == cs + ReadFields(TokensFrom(field, COMMA), edge_type)
      invariant LineOutcome(whole_line, edge_type) == FieldsOutcome(TokensFrom(field, COMMA), edge_type)
      invariant forall f :: f in TokensFrom(field, COMMA) ==> f in Tokens(whole_line, COMMA)
      invariant field.Some? ==> Ascii(field.value.0) && Ascii(field.value.1)
      invariant ShowsAll(names.slots[..], gs, cs, edge_type)
      invariant forall k :: 0 <= k < |gs| ==> AllEdgesOk(names.slots[..], gs[k])
      invariant Countable(whole_line) ==> forall k :: 0 <= k < |gs| ==> GroupOk(gs[k])
      invariant node.edges == edges0 + Flatten(gs)
      decreases |TokensFrom(field, COMMA)|
    {
      ghost var t := names.slots[..];
      ghost var rest := Tokens(field.value.1, COMMA);
      NextField(TokensFrom(field, COMMA), edge_type);
      OutcomeStep(TokensFrom(field, COMMA), edge_type);
      assert TokensFrom(field, COMMA)[1..] == rest;
      assert TokensFrom(field, COMMA)[0] == field.value.0;
      var stripped := Strip(field.value.0);
      StripIsAscii(field.value.0);
      TokensStep(stripped, BAR);
      if NextToken(stripped, BAR).None? {
        return NullToken, [];
      }
      ghost var some, later := ReadField(stripped, edge_type), ReadFields(rest, edge_type);
      SplitClauses(cs, some + later, words);
      SplitClauses(some, later, words);
      ghost var hs: seq<Group>;
      var ok;
      ok, hs := AddField(node, names, stripped, edge_type, words);
      ExtendsTransitive(t0, t, names.slots[..]);
      if !ok {
        return IllegalOperator, [];
      }
      ShowsStays(t, names.slots[..], gs, cs, edge_type);
      ShowsConcat(names.slots[..], gs, cs, hs, some, edge_type);
      GroupsStay(t, names.slots[..], gs);
      FlattenConcat(gs, hs);
      gs, cs := gs + hs, cs + some;
      TokensStep(field.value.1, COMMA);
      field := NextToken(field.value.1, COMMA);
    }
    NoMoreFields(edge_type);
    OutcomeEnd(edge_type);
    assert cs == all;
    outcome := Added;
  }

  lemma OutcomeStep(fields: seq<Text>, kind: nat)
    requires fields != []
    ensures FieldsOutcome(fields, kind) ==
      if Tokens(Strip(fields[0]), BAR) == [] then NullToken
      else if !AllLegal(ReadField(Strip(fields[0]), kind)) then IllegalOperator
      else FieldsOutcome(fields[1..], kind)
  {}

  lemma OutcomeEnd(kind: nat)
    ensures FieldsOutcome([], kind) == Added
  {}

  /** The edges are added exactly when every field has a token and every operator is known. */
  lemma AddedWhen(line: Text, kind: nat)
    ensures LineOutcome(line, kind).Added? <==> Sound(line) && AllLegal(ReadLine(line, kind))
  {
    hide Tokens, AllLegal, ReadField, Strip;
    AddedWhenFrom(Tokens(line, COMMA), kind);
  }

  lemma {:induction false} AddedWhenFrom(fields: seq<Text>, kind: nat)
    ensures FieldsOutcome(fields, kind).Added? <==>
      (forall f :: f in fields ==> Tokens(Strip(f), BAR) != []) && AllLegal(ReadFields(fields, kind))
  {
    hide Tokens, AllLegal, ReadField, Strip, ReadFields;
    if fields == [] {
      NoMoreFields(kind);
      NothingShown([], kind);
    } else {
      AddedWhenFrom(fields[1..], kind);
      NextField(fields, kind);
      SplitClauses(ReadField(Strip(fields[0]), kind), ReadFields(fields[1..], kind), {});
      assert fields == [fields[0]] + fields[1..];
    }
  }

  /** The null pointer is followed exactly at a field without a token that has only legal
      fields before it. */
  lemma {:induction false} NullTokenWhen(fields: seq<Text>, kind: nat)
    ensures FieldsOutcome(fields, kind).NullToken? <==>
      exists i :: 0 <= i < |fields| && Tokens(Strip(fields[i]), BAR) == [] && FieldsOutcome(fields[..i], kind).Added?
  {
    hide Tokens, AllLegal, ReadField, Strip;
    if fields != [] {
      var rest := fields[1..];
      NullTokenWhen(rest, kind);
      assert fields[..0] == [];
      forall i | 0 < i < |fields| ensures fields[..i] == [fields[0]] + rest[..i - 1] {}
      forall i | 0 < i < |fields|
        ensures FieldsOutcome(fields[..i], kind).Added? <==>
          (Tokens(Strip(fields[0]), BAR) != [] && AllLegal(ReadField(Strip(fields[0]), kind))
           && FieldsOutcome(rest[..i - 1], kind).Added?)
      {
        assert fields[..i][1..] == rest[..i - 1];
      }
      if Tokens(Strip(fields[0]), BAR) == [] {
        assert FieldsOutcome(fields[..0], kind).Added?;
      } else if AllLegal(ReadField(Strip(fields[0]), kind)) {
        if FieldsOutcome(rest, kind).NullToken? {
          var j :| 0 <= j < |rest| && Tokens(Strip(rest[j]), BAR) == [] && FieldsOutcome(rest[..j], kind).Added?;
          assert fields[j + 1] == rest[j];
          assert FieldsOutcome(fields[..j + 1], kind).Added?;
        }
        if i :| 0 <= i < |fields| && Tokens(Strip(fields[i]), BAR) == [] && FieldsOutcome(fields[..i], kind).Added? {
          assert fields[i] == rest[i - 1];
        }
      }
    }
  }

  /** Such a line: "a, ,b". */
  lemma BlankFieldIsNull(kind: nat)
    ensures LineOutcome([97, COMMA, SPACE, COMMA, 98], kind) == NullToken
  {
    hide Tokens, AllLegal, ReadField, Strip, FieldsOutcome, NextToken;
    var line: Text := [97, COMMA, SPACE, COMMA, 98];
    assert line == [97] + [COMMA] + [SPACE, COMMA, 98] && [SPACE, COMMA, 98] == [SPACE] + [COMMA] + [98];
    FirstToken([97], COMMA, [SPACE, COMMA, 98]);
    FirstToken([SPACE], COMMA, [98]);
    TokensUnfold(line, COMMA);
    TokensUnfold([SPACE, COMMA, 98], COMMA);
    PlainField(kind);
    BlankField();
    var fields := Tokens(line, COMMA);
    assert fields[1..] == Tokens([SPACE, COMMA, 98], COMMA);
    OutcomeStep(fields, kind);
    OutcomeStep(fields[1..], kind);
  }

  lemma TokensUnfold(s: Text, sep: byte)
    ensures Tokens(s, sep) == TokensFrom(NextToken(s, sep), sep)
  {}

  lemma BlankField()
    ensures Tokens(Strip([SPACE]), BAR) == []
  {
    SpanIs([SPACE], {SPACE}, 1);
    TokensNone(BAR);
  }

  lemma PlainField(kind: nat)
    ensures Tokens(Strip([97]), BAR) != [] && AllLegal(ReadField(Strip([97]), kind))
  {
    hide Tokens, ReadField, Strip, NextToken, Writable, WriteDep, WriteClause;
    var d := Dep([97], Known(VER_ANY), ANY);
    LetterWritable(d);
    StripSpace([97]);
    FirstToken([97], BAR, []);
    TokensUnfold([97], BAR);
    FieldReads([d], kind);
    assert Singles([d]) == [One(d)];
  }

  lemma LetterWritable(d: Dep)
    requires d == Dep([97], Known(VER_ANY), ANY)
    ensures Writable(d) && WriteClause([d]) == [97]
  {
    assert Writable(d) && WriteDep(d) == [97];
  }

  lemma NoMoreFields(kind: nat)
    ensures ReadFields([], kind) == []
  {}

  lemma NothingShown(t: Slots, kind: nat)
    ensures ShowsAll(t, [], [], kind) && AllLegal([]) && Flatten([]) == []
  {}
}
