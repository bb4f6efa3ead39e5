/** Matches over the input: what a pending match means, how far two places of the window
    agree, and what longest_match finds along a hash chain. */
module Matching {
  import opened Bits
  import opened HashChains
  import opened Inflater
  import opened LengthPasses

  // ---------- tokens over the input ----------

  /** The len bytes at p stand dist bytes earlier as well; p and dist are input positions. */
  predicate Repeats(data: seq<byte>, p: nat, dist: nat, len: nat)
  {
    1 <= dist <= p && p + len <= |data| && data[p - dist..p - dist + len] == data[p..p + len]
  }

  /** Copying from dist bytes back extends the input by the repeated bytes, overlapping or not. */
  lemma {:induction false} CopiesInput(data: seq<byte>, p: nat, dist: nat, len: nat)
    requires Repeats(data, p, dist, len)
    ensures CopyBack(data[..p], dist, len) == data[..p + len]
    decreases len
  {
    if len > 0 {
      var a, b := data[p - dist..p - dist + len], data[p..p + len];
      assert a[0] == data[p - dist] && b[0] == data[p];
      assert data[..p] + [data[p]] == data[..p + 1];
      assert data[p + 1 - dist..p - dist + len] == a[1..] && data[p + 1..p + len] == b[1..];
      CopiesInput(data, p + 1, dist, len - 1);
    }
  }

  lemma LiteralInput(data: seq<byte>, p: nat)
    requires p < |data|
    ensures ExpandToken(Literal(data[p]), data[..p]) == data[..p + 1]
  {}

  lemma {:induction false} ProducesSnoc(ts: seq<Token>, t: Token, hist: seq<byte>, mid: seq<byte>)
    requires Produces(ts, hist, mid) && TokenOk(t) && Reaches(t, mid)
    ensures Produces(ts + [t], hist, ExpandToken(t, mid))
  {
    hide ExpandToken, TokenOk, Reaches;
    if ts == [] {
      assert [t][1..] == [];
      assert ts + [t] == [t];
      assert Produces([], ExpandToken(t, hist), ExpandToken(t, mid));
    } else {
      ProducesSnoc(ts[1..], t, ExpandToken(ts[0], hist), mid);
      assert (ts + [t])[1..] == ts[1..] + [t];
    }
  }

  /** Tokens add at most 258 bytes each. */
  lemma {:induction false} ProducedLength(ts: seq<Token>, hist: seq<byte>, all: seq<byte>)
    requires Produces(ts, hist, all)
    ensures |hist| <= |all| <= |hist| + 258 * |ts|
  {
    hide CopyBack;
    if ts != [] { ProducedLength(ts[1..], ExpandToken(ts[0], hist), all); }
  }

  // ---------- how far two places agree ----------

  predicate Agree(win: seq<byte>, a: nat, b: nat, len: nat)
  {
    a + len <= |win| && b + len <= |win| && win[a..a + len] == win[b..b + len]
  }

  lemma AgreeMore(win: seq<byte>, a: nat, b: nat, len: nat)
    requires a + len < |win| && b + len < |win| && Agree(win, a, b, len) && win[a + len] == win[b + len]
    ensures Agree(win, a, b, len + 1)
  {
    assert win[a..a + len + 1] == win[a..a + len] + [win[a + len]];
    assert win[b..b + len + 1] == win[b..b + len] + [win[b + len]];
  }

  lemma AgreeAt(win: seq<byte>, a: nat, b: nat, len: nat, i: nat)
    requires Agree(win, a, b, len) && i < len
    ensures win[a + i] == win[b + i]
  {
    assert win[a..a + len][i] == win[b..b + len][i];
  }

  /** How many bytes from place m on agree, up to MAX_MATCH in all. */
  function MatchFrom(win: seq<byte>, a: nat, b: nat, m: nat): (r: nat)
    requires m <= MAX_MATCH && a + MAX_MATCH <= |win| && b + MAX_MATCH <= |win|
    ensures m <= r <= MAX_MATCH
    decreases MAX_MATCH - m
  {
    if m == MAX_MATCH || win[a + m] != win[b + m] then m else MatchFrom(win, a, b, m + 1)
  }

  /** The length of the match between two places. */
  function MatchLen(win: seq<byte>, a: nat, b: nat): (r: nat)
    requires a + MAX_MATCH <= |win| && b + MAX_MATCH <= |win|
    ensures r <= MAX_MATCH
  {
    MatchFrom(win, a, b, 0)
  }

  lemma {:induction false} MatchFromAgrees(win: seq<byte>, a: nat, b: nat, m: nat)
    requires m <= MAX_MATCH && a + MAX_MATCH <= |win| && b + MAX_MATCH <= |win| && Agree(win, a, b, m)
    ensures Agree(win, a, b, MatchFrom(win, a, b, m))
    decreases MAX_MATCH - m
  {
    if m < MAX_MATCH && win[a + m] == win[b + m] {
      AgreeMore(win, a, b, m);
      MatchFromAgrees(win, a, b, m + 1);
    }
  }

  /** The match ends at the first difference. */
  lemma {:induction false} MatchFromIs(win: seq<byte>, a: nat, b: nat, k: nat, m: nat)
    requires k <= m <= MAX_MATCH && a + MAX_MATCH <= |win| && b + MAX_MATCH <= |win| && Agree(win, a, b, m)
    ensures MatchFrom(win, a, b, k) == MatchFrom(win, a, b, m)
    decreases m - k
  {
    if k < m {
      AgreeAt(win, a, b, m, k);
      MatchFromIs(win, a, b, k + 1, m);
    }
  }

  lemma MatchLenIs(win: seq<byte>, a: nat, b: nat, m: nat)
    requires m <= MAX_MATCH && a + MAX_MATCH <= |win| && b + MAX_MATCH <= |win| && Agree(win, a, b, m)
    ensures MatchLen(win, a, b) == MatchFrom(win, a, b, m)
    ensures m == MAX_MATCH || win[a + m] != win[b + m] ==> MatchLen(win, a, b) == m
  {
    MatchFromIs(win, a, b, 0, m);
  }

  lemma MatchLenAgrees(win: seq<byte>, a: nat, b: nat)
    requires a + MAX_MATCH <= |win| && b + MAX_MATCH <= |win|
    ensures Agree(win, a, b, MatchLen(win, a, b))
  {
    MatchFromAgrees(win, a, b, 0);
  }

  /** A difference at place k bounds the match. */
  lemma MatchLenBelow(win: seq<byte>, a: nat, b: nat, k: nat)
    requires a + MAX_MATCH < |win| && b + MAX_MATCH < |win| && k <= MAX_MATCH && win[a + k] != win[b + k]
    ensures MatchLen(win, a, b) <= k
  {
    MatchLenAgrees(win, a, b);
    if MatchLen(win, a, b) > k { AgreeAt(win, a, b, MatchLen(win, a, b), k); }
  }

  // ---------- the search along a chain ----------

  /** The longest match on the chain from cur on: at most chain positions above limit are
      looked at, and a match of length nice ends the search. */
  function Longest(win: seq<byte>, prev: seq<nat>, s: nat, cur: nat, limit: nat, chain: nat, best: nat,
      nice: nat): (r: nat)
    requires |prev| > 0 && s + MAX_MATCH <= |win| && cur < s && best <= MAX_MATCH
    ensures best <= r <= MAX_MATCH
    decreases cur
  {
    var len := MatchLen(win, cur, s);
    var best' := if len > best then len else best;
    var next := Link(prev, cur);
    if (len > best && len >= nice) || next <= limit || next >= cur || Wrap(chain - 1) == 0 then best'
    else Longest(win, prev, s, next, limit, Wrap(chain - 1), best', nice)
  }

  /** The positions of the chain that are looked at unless a match is long enough to stop. */
  function Looked(prev: seq<nat>, cur: nat, limit: nat, chain: nat): (r: seq<nat>)
    requires |prev| > 0
    ensures r != []
    decreases cur
  {
    var next := Link(prev, cur);
    if next <= limit || next >= cur || Wrap(chain - 1) == 0 then [cur]
    else [cur] + Looked(prev, next, limit, Wrap(chain - 1))
  }

  /** The search finds the longest match among the positions looked at, or one that is long
      enough. */
  lemma {:induction false} LongestIsLongest(win: seq<byte>, prev: seq<nat>, s: nat, cur: nat, limit: nat, chain: nat,
      best: nat, nice: nat)
    requires |prev| > 0 && s + MAX_MATCH <= |win| && cur < s && best <= MAX_MATCH
    ensures var r := Longest(win, prev, s, cur, limit, chain, best, nice); var l := Looked(prev, cur, limit, chain);
      && (forall c :: c in l ==> c < s)
      && (r == best || exists c :: c in l && r == MatchLen(win, c, s))
      && (r >= nice || forall c :: c in l ==> MatchLen(win, c, s) <= r)
    decreases cur
  {
    hide MatchLen, Wrap, Link;
    var l, next := Looked(prev, cur, limit, chain), Link(prev, cur);
    var len := MatchLen(win, cur, s);
    var best' := if len > best then len else best;
    LookedBelow(prev, cur, limit, chain);
    assert cur in l;
    if !((len > best && len >= nice) || next <= limit || next >= cur || Wrap(chain - 1) == 0) {
      LongestIsLongest(win, prev, s, next, limit, Wrap(chain - 1), best', nice);
      assert l == [cur] + Looked(prev, next, limit, Wrap(chain - 1));
    }
  }

  lemma {:induction false} LookedBelow(prev: seq<nat>, cur: nat, limit: nat, chain: nat)
    requires |prev| > 0
    ensures Looked(prev, cur, limit, chain)[0] == cur
    ensures forall c :: c in Looked(prev, cur, limit, chain) ==> c <= cur
    decreases cur
  {
    hide Wrap, Link;
    var next := Link(prev, cur);
    if !(next <= limit || next >= cur || Wrap(chain - 1) == 0) {
      LookedBelow(prev, next, limit, Wrap(chain - 1));
      assert Looked(prev, cur, limit, chain) == [cur] + Looked(prev, next, limit, Wrap(chain - 1));
    }
  }
}
