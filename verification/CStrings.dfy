/** Texts as C keeps them, and the functions of the C library that search them. */
module CStrings {
  import opened Bits

  /** The characters of a C string, without the terminating NUL. */
  type Text = seq<byte>

  /** The text that a literal of ASCII characters stands for. */
  function Chars(s: string): (t: Text)
    requires forall i :: 0 <= i < |s| ==> s[i] as int < 0x80
    ensures |t| == |s| && forall i :: 0 <= i < |s| ==> t[i] == s[i] as int
  {
    seq(|s|, i requires 0 <= i < |s| => s[i] as int)
  }

  /** What a pointer to place i of the string points to. */
  function CharAt(s: Text, i: nat): byte
    requires i <= |s|
  {
    if i < |s| then s[i] else 0
  }

  predicate IsDigit(c: byte) { '0' as int <= c <= '9' as int }

  predicate IsAlpha(c: byte) { 'A' as int <= c <= 'Z' as int || 'a' as int <= c <= 'z' as int }

  const SPACE: byte := 32
  const NEWLINE: byte := 10

  /** The value of the digits from place i on, after acc. */
  function Number(s: Text, i: nat, acc: nat): nat
    requires i <= |s|
    decreases |s| - i
  {
    if i < |s| && IsDigit(s[i]) then Number(s, i + 1, 10 * acc + (s[i] - '0' as int)) else acc
  }

  /** The place behind the digits from place i on. */
  function DigitsEnd(s: Text, i: nat): (r: nat)
    requires i <= |s|
    ensures i <= r <= |s|
    decreases |s| - i
  {
    if i < |s| && IsDigit(s[i]) then DigitsEnd(s, i + 1) else i
  }

  /** strchr() */
  function FirstOf(s: Text, c: byte): (r: Option<nat>)
    ensures r.None? ==> c !in s
    ensures r.Some? ==> r.value < |s| && s[r.value] == c && c !in s[..r.value]
  {
    if s == [] then None
    else if s[0] == c then Some(0)
    else
      match FirstOf(s[1..], c)
      case None => assert s == [s[0]] + s[1..]; None
      case Some(i) => assert s[..i + 1] == [s[0]] + s[1..][..i]; Some(i + 1)
  }

  /** strrchr() */
  function LastOf(s: Text, c: byte): (r: Option<nat>)
    ensures r.None? ==> c !in s
    ensures r.Some? ==> r.value < |s| && s[r.value] == c && c !in s[r.value + 1..]
  {
    if s == [] then None
    else
      var n := |s| - 1;
      if s[n] == c then Some(n)
      else
        assert s == s[..n] + [s[n]];
        match LastOf(s[..n], c)
        case None => None
        case Some(i) => assert s[i + 1..] == s[..n][i + 1..] + [s[n]]; Some(i)
  }

  lemma {:induction false} FirstIs(s: Text, c: byte, i: nat)
    requires i < |s| && s[i] == c && c !in s[..i]
    ensures FirstOf(s, c) == Some(i)
  {
    if i > 0 {
      assert s[..i][0] == s[0];
      assert s[..i] == [s[0]] + s[1..][..i - 1];
      FirstIs(s[1..], c, i - 1);
    }
  }

  lemma {:induction false} LastIs(s: Text, c: byte, i: nat)
    requires i < |s| && s[i] == c && c !in s[i + 1..]
    ensures LastOf(s, c) == Some(i)
  {
    var n := |s| - 1;
    if i < n {
      assert s[i + 1..][n - i - 1] == s[n];
      assert s[i + 1..] == s[..n][i + 1..] + [s[n]];
      LastIs(s[..n], c, i);
    }
  }

  /** strspn() and strcspn() */
  function Span(s: Text, accept: set<byte>): (n: nat)
    ensures n <= |s| && (forall i :: 0 <= i < n ==> s[i] in accept) && (n < |s| ==> s[n] !in accept)
  {
    if s == [] || s[0] !in accept then 0 else 1 + Span(s[1..], accept)
  }

  function Until(s: Text, reject: set<byte>): (n: nat)
    ensures n <= |s| && (forall i :: 0 <= i < n ==> s[i] !in reject) && (n < |s| ==> s[n] in reject)
  {
    if s == [] || s[0] in reject then 0 else 1 + Until(s[1..], reject)
  }

  lemma {:induction false} SpanIs(s: Text, accept: set<byte>, n: nat)
    requires n <= |s| && (forall i :: 0 <= i < n ==> s[i] in accept) && (n < |s| ==> s[n] !in accept)
    ensures Span(s, accept) == n
  {
    if n > 0 { SpanIs(s[1..], accept, n - 1); }
  }

  lemma {:induction false} UntilIs(s: Text, reject: set<byte>, n: nat)
    requires n <= |s| && (forall i :: 0 <= i < n ==> s[i] !in reject) && (n < |s| ==> s[n] in reject)
    ensures Until(s, reject) == n
  {
    if n > 0 { UntilIs(s[1..], reject, n - 1); }
  }
}
