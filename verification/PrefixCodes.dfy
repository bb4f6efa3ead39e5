/** Any prefix code satisfies the Kraft inequality, so lengths that are the cheapest among
    those that satisfy it are cheaper than any other prefix code. */
module PrefixCodes {
  import opened Bits
  import opened Optimal
  import opened Merging
  import opened BitLengths
  import opened Symbols

  type Code = seq<seq<bool>>

  /** No code word begins with another. */
  predicate IsPrefixCode(cs: Code) {
    forall i, j :: 0 <= i < |cs| && 0 <= j < |cs| && cs[i] <= cs[j] ==> i == j
  }

  function Lengths(cs: Code): (r: seq<nat>)
    ensures |r| == |cs|
  {
    if cs == [] then [] else [|cs[0]|] + Lengths(cs[1..])
  }

  lemma {:induction false} LengthAt(cs: Code, i: nat)
    requires i < |cs|
    ensures Lengths(cs)[i] == |cs[i]|
  {
    if i > 0 { LengthAt(cs[1..], i - 1); }
  }

  /** The code words that begin with b, without their first bit. */
  function Behind(cs: Code, b: bool): Code {
    if cs == [] then []
    else (if cs[0] != [] && cs[0][0] == b then [cs[0][1..]] else []) + Behind(cs[1..], b)
  }

  lemma {:induction false} BehindFrom(cs: Code, b: bool, k: nat) returns (i: nat)
    requires k < |Behind(cs, b)|
    ensures i < |cs| && cs[i] == [b] + Behind(cs, b)[k]
    decreases |cs|
  {
    if cs[0] != [] && cs[0][0] == b {
      if k == 0 {
        i := 0;
      } else {
        var j := BehindFrom(cs[1..], b, k - 1);
        i := j + 1;
      }
    } else {
      var j := BehindFrom(cs[1..], b, k);
      i := j + 1;
    }
  }

  /** Different code words stay different words. */
  lemma {:induction false} BehindIsPrefix(cs: Code, b: bool)
    requires IsPrefixCode(cs)
    ensures IsPrefixCode(Behind(cs, b))
    decreases |cs|
  {
    if cs != [] {
      RestIsPrefix(cs);
      BehindIsPrefix(cs[1..], b);
      var c, d := Behind(cs, b), Behind(cs[1..], b);
      if cs[0] != [] && cs[0][0] == b {
        forall k | 0 <= k < |d| ensures !(cs[0][1..] <= d[k]) && !(d[k] <= cs[0][1..]) {
          var i := BehindFrom(cs[1..], b, k);
          assert cs[i + 1] == [b] + d[k];
          assert cs[0] == [b] + cs[0][1..];
          PrefixBehind(b, cs[0][1..], d[k]);
        }
        assert c == [cs[0][1..]] + d;
      }
    }
  }

  lemma PrefixBehind(b: bool, x: seq<bool>, y: seq<bool>)
    ensures [b] + x <= [b] + y <==> x <= y
    ensures [b] + y <= [b] + x <==> y <= x
  {
    assert ([b] + x)[1..] == x && ([b] + y)[1..] == y;
  }

  lemma RestIsPrefix(cs: Code)
    requires IsPrefixCode(cs) && cs != []
    ensures IsPrefixCode(cs[1..])
  {
    forall i, j | 0 <= i < |cs| - 1 && 0 <= j < |cs| - 1 && cs[1..][i] <= cs[1..][j] ensures i == j {
      assert cs[i + 1] <= cs[j + 1];
    }
  }

  /** The two halves of a code without an empty word share its Kraft sum. */
  lemma {:induction false} UnitsSplit(cs: Code, w: nat)
    requires w > 0 && AtMost(Lengths(cs), w) && forall i :: 0 <= i < |cs| ==> cs[i] != []
    ensures AtMost(Lengths(Behind(cs, false)), w - 1) && AtMost(Lengths(Behind(cs, true)), w - 1)
    ensures Units(Lengths(cs), w) == Units(Lengths(Behind(cs, false)), w - 1) + Units(Lengths(Behind(cs, true)), w - 1)
    decreases |cs|
  {
    if cs != [] {
      var c := cs[0];
      AtMostRest(cs, w);
      UnitsSplit(cs[1..], w);
      ConsUnits(c, cs[1..], w);
      ConsUnits(c[1..], Behind(cs[1..], c[0]), w - 1);
      assert cs == [c] + cs[1..];
      assert Behind(cs, c[0]) == [c[1..]] + Behind(cs[1..], c[0]);
      assert Behind(cs, !c[0]) == Behind(cs[1..], !c[0]);
    }
  }

  lemma AtMostRest(cs: Code, w: nat)
    requires cs != [] && AtMost(Lengths(cs), w)
    ensures |cs[0]| <= w && AtMost(Lengths(cs[1..]), w)
  {
    assert Lengths(cs)[1..] == Lengths(cs[1..]);
  }

  lemma ConsUnits(c: seq<bool>, cs: Code, w: nat)
    requires |c| <= w && AtMost(Lengths(cs), w)
    ensures Units(Lengths([c] + cs), w) == Pow2(w - |c|) + Units(Lengths(cs), w)
    ensures AtMost(Lengths([c] + cs), w)
  {
    assert ([c] + cs)[1..] == cs;
    assert Lengths([c] + cs) == [|c|] + Lengths(cs);
    assert ([|c|] + Lengths(cs))[1..] == Lengths(cs);
  }

  lemma FirstShort(cs: Code, w: nat)
    requires AtMost(Lengths(cs), w)
    ensures cs != [] ==> |cs[0]| <= w
  {
    if cs != [] { LengthAt(cs, 0); }
  }

  /** The empty word is a prefix of every other one. */
  lemma EmptyIsAlone(cs: Code, i: nat)
    requires IsPrefixCode(cs) && i < |cs| && cs[i] == []
    ensures cs == [[]]
  {
    BeginsWithEmpty(cs, i, 0);
    BeginsWithEmpty(cs, i, |cs| - 1);
  }

  lemma BeginsWithEmpty(cs: Code, i: nat, j: nat)
    requires IsPrefixCode(cs) && i < |cs| && j < |cs| && cs[i] == []
    ensures i == j
  {
    assert cs[i] <= cs[j];
  }

  /** The Kraft inequality. */
  lemma {:induction false} KraftInequality(cs: Code, w: nat)
    requires IsPrefixCode(cs) && AtMost(Lengths(cs), w)
    ensures Units(Lengths(cs), w) <= Pow2(w)
    decreases w
  {
    if i: nat :| i < |cs| && cs[i] == [] {
      EmptyIsAlone(cs, i);
      var none: Code := [];
      ConsUnits([], none, w);
      assert [[]] + none == cs;
    } else if w == 0 {
      FirstShort(cs, w);
    } else {
      UnitsSplit(cs, w);
      BehindIsPrefix(cs, false);
      BehindIsPrefix(cs, true);
      KraftInequality(Behind(cs, false), w - 1);
      KraftInequality(Behind(cs, true), w - 1);
    }
  }

  function Longest(l: seq<nat>): (m: nat)
    ensures AtMost(l, m)
  {
    if l == [] then 0
    else
      var m := Longest(l[1..]);
      assert forall i :: 0 < i < |l| ==> l[i] == l[1..][i - 1];
      if l[0] > m then l[0] else m
  }

  /** No prefix code whatever gives the symbols a smaller sum of frequency times length than
      lengths that are Cheapest. */
  lemma NoPrefixCodeCheaper(f: seq<nat>, l: seq<nat>, ids: seq<nat>, cs: Code)
    requires |f| == |l| && forall i :: 0 <= i < |ids| ==> ids[i] < |l|
    requires Cheapest(f, l, ids) && IsPrefixCode(cs) && |cs| == |ids|
    ensures Weighed(f, l, ids) <= Dot(Values(f, ids), Lengths(cs))
  {
    hide Dot, Weighed, Values, Units, IsPrefixCode;
    KraftInequality(cs, Longest(Lengths(cs)));
  }
}
