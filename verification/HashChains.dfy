/** The hash chains over the sliding window: head and prev as INSERT_STRING, fill_window
    and longest_match of gzip.c use them. Window positions are those of the array; a
    position is 0 for "none". */
module HashChains {
  import opened Bits
  import opened Hashing

  /** The hash of the three bytes at x. */
  function H3(win: seq<byte>, x: nat, n: nat): nat
    requires x + 2 < |win|
  {
    Hash3(win[x], win[x + 1], win[x + 2], n)
  }

  /** prev[x & WMASK] */
  function Link(prev: seq<nat>, x: nat): nat
    requires |prev| > 0
  {
    prev[x % |prev|]
  }

  predicate HeadAt(win: seq<byte>, head: seq<nat>, next: nat, n: nat, h: nat)
    requires h < |head| && next + 2 <= |win|
  {
    head[h] == 0 || (head[h] < next && H3(win, head[h], n) == h)
  }

  /** Every chain starts at a position with its hash, if it is not empty; the positions
      below next have been inserted. */
  predicate HeadOk(win: seq<byte>, head: seq<nat>, next: nat, n: nat)
  {
    |head| == Pow2(n) && next + 2 <= |win| && forall h :: 0 <= h < |head| ==> HeadAt(win, head, next, n, h)
  }

  predicate LinkAt(win: seq<byte>, prev: seq<nat>, x: nat, n: nat)
    requires x + 2 < |win| && |prev| > 0
  {
    var y := Link(prev, x);
    y == 0 || (y < x && H3(win, y, n) == H3(win, x, n))
  }

  /** The link of a position that has not been overwritten leads back to a position with
      the same hash, or nowhere. */
  predicate PrevOk(win: seq<byte>, prev: seq<nat>, next: nat, n: nat)
  {
    |prev| > 0 && next + 2 <= |win| && forall x: nat :: x < next && next <= x + |prev| ==> LinkAt(win, prev, x, n)
  }

  lemma SamePlace(x: nat, y: nat, w: nat)
    requires w > 0 && x < y < x + w
    ensures x % w != y % w
  {
    DivMod(x, w);
    DivMod(y, w);
    if x % w == y % w {
      var d := y / w - x / w;
      assert y - x == d * w;
      if d >= 1 { MulMono(1, d, w); }
    }
  }

  /** INSERT_STRING keeps the chains. */
  lemma InsertKeeps(win: seq<byte>, head: seq<nat>, prev: seq<nat>, x: nat, n: nat)
    requires HeadOk(win, head, x, n) && PrevOk(win, prev, x, n) && x + 3 <= |win|
    ensures var h := H3(win, x, n);
      && h < |head| && (head[h] == 0 || (head[h] < x && H3(win, head[h], n) == h))
      && HeadOk(win, head[h := x], x + 1, n)
      && PrevOk(win, prev[x % |prev| := head[h]], x + 1, n)
  {
    hide Hash3, Pow2;
    var h, w := H3(win, x, n), |prev|;
    var prev': seq<nat>, head': seq<nat> := prev[x % w := head[h]], head[h := x];
    var next := x + 1;
    assert HeadAt(win, head, x, n, h);
    forall k | 0 <= k < |head| ensures HeadAt(win, head', next, n, k) {
      assert HeadAt(win, head, x, n, k);
    }
    forall y: nat | y < x + 1 && x + 1 <= y + w ensures LinkAt(win, prev', y, n) {
      if y < x {
        SamePlace(y, x, w);
        assert LinkAt(win, prev, y, n);
      }
    }
  }

  /** What fill_window does to the entries when the upper half moves down. */
  function Rebase(s: seq<nat>, w: nat): (r: seq<nat>)
    ensures |r| == |s|
  {
    seq(|s|, i requires 0 <= i < |s| => if s[i] >= w then s[i] - w else 0)
  }

  predicate Slid(win: seq<byte>, win': seq<byte>, w: nat) {
    |win'| == |win| >= 2 * w && forall i :: 0 <= i < w ==> win'[i] == win[i + w]
  }

  lemma SlideHash(win: seq<byte>, win': seq<byte>, w: nat, y: nat, n: nat)
    requires Slid(win, win', w) && w <= y && y + 2 < 2 * w
    ensures H3(win', y - w, n) == H3(win, y, n)
  {
    hide Hash3;
    assert win'[y - w] == win[y - w + w] && win'[y - w + 1] == win[y - w + 1 + w]
        && win'[y - w + 2] == win[y - w + 2 + w];
  }

  lemma SlideHead(win: seq<byte>, win': seq<byte>, head: seq<nat>, w: nat, next: nat, n: nat, h: nat)
    requires h < |head| && w <= next && next + 2 <= 2 * w && Slid(win, win', w) && HeadAt(win, head, next, n, h)
    ensures HeadAt(win', Rebase(head, w), next - w, n, h)
  {
    hide H3;
    if head[h] > w { SlideHash(win, win', w, head[h], n); }
  }

  lemma SlideLink(win: seq<byte>, win': seq<byte>, prev: seq<nat>, next: nat, n: nat, x: nat)
    requires |prev| > 0 && x + |prev| < next && next + 2 <= 2 * |prev| && Slid(win, win', |prev|)
    requires LinkAt(win, prev, x + |prev|, n)
    ensures LinkAt(win', Rebase(prev, |prev|), x, n)
  {
    hide H3;
    var w := |prev|;
    WholeTurn(x, w);
    var y := Link(prev, x + w);
    SlideHash(win, win', w, x + w, n);
    if y > w { SlideHash(win, win', w, y, n); }
  }

  lemma WholeTurn(x: nat, w: nat)
    requires w > 0
    ensures (x + w) % w == x % w
  {
    DivMod(x, w);
    DivUnique(x + w, w, x / w + 1, x % w);
  }

  /** The chains survive the slide. */
  lemma SlideKeeps(win: seq<byte>, win': seq<byte>, head: seq<nat>, prev: seq<nat>, next: nat, n: nat)
    requires HeadOk(win, head, next, n) && PrevOk(win, prev, next, n)
    requires Slid(win, win', |prev|) && |prev| <= next && next + 2 <= 2 * |prev|
    ensures HeadOk(win', Rebase(head, |prev|), next - |prev|, n)
    ensures PrevOk(win', Rebase(prev, |prev|), next - |prev|, n)
  {
    hide Pow2, HeadAt, LinkAt, Rebase, Slid;
    SlidSizes(win, win', |prev|);
    var w := |prev|;
    var head', prev', next' := Rebase(head, w), Rebase(prev, w), next - w;
    forall h | 0 <= h < |head'| ensures HeadAt(win', head', next', n, h) {
      assert HeadAt(win, head, next, n, h);
      SlideHead(win, win', head, w, next, n, h);
    }
    forall x: nat | x < next - w && next - w <= x + w ensures LinkAt(win', prev', x, n) {
      assert LinkAt(win, prev, x + w, n);
      SlideLink(win, win', prev, next, n, x);
    }
  }

  lemma SlidSizes(win: seq<byte>, win': seq<byte>, w: nat)
    requires Slid(win, win', w)
    ensures |win'| == |win| >= 2 * w
  {}

  /** The chains survive a read behind the bytes they are about. */
  lemma ReadKeeps(win: seq<byte>, win': seq<byte>, head: seq<nat>, prev: seq<nat>, next: nat, n: nat)
    requires HeadOk(win, head, next, n) && PrevOk(win, prev, next, n) && |win'| == |win|
    requires next > 0 ==> win'[..next + 2] == win[..next + 2]
    ensures HeadOk(win', head, next, n) && PrevOk(win', prev, next, n)
  {
    hide Hash3, Pow2;
    forall i | 0 <= i < next + 2 && next > 0 ensures win'[i] == win[i] {
      assert win'[..next + 2][i] == win[..next + 2][i];
    }
    forall h | 0 <= h < |head| ensures HeadAt(win', head, next, n, h) {
      assert HeadAt(win, head, next, n, h);
    }
    forall x: nat | x < next && next <= x + |prev| ensures LinkAt(win', prev, x, n) {
      assert LinkAt(win, prev, x, n);
    }
  }

  lemma NoChains(win: seq<byte>, head: seq<nat>, prev: seq<nat>, n: nat)
    requires |win| >= 2 && |prev| > 0 && |head| == Pow2(n) && forall h :: 0 <= h < |head| ==> head[h] == 0
    ensures HeadOk(win, head, 0, n) && PrevOk(win, prev, 0, n)
  {}

  /** ins_h when the two bytes before the next one have gone into it. */
  ghost predicate Rolled(insH: nat, a: nat, b: nat, n: nat)
  {
    exists h0: nat :: insH == Update(Update(h0, a, HShift(n), n), b, HShift(n), n)
  }

  lemma RolledNext(insH: nat, a: nat, b: nat, c: nat, n: nat)
    requires Rolled(insH, a, b, n)
    ensures Update(insH, c, HShift(n), n) == Hash3(a, b, c, n)
    ensures Rolled(Update(insH, c, HShift(n), n), b, c, n)
  {
    hide Update, Hash3, HShift;
    var h0: nat :| insH == Update(Update(h0, a, HShift(n), n), b, HShift(n), n);
    HashForgets(h0, a, b, c, n);
  }

  lemma RolledStart(h0: nat, a: nat, b: nat, n: nat)
    ensures Rolled(Update(Update(h0, a, HShift(n), n), b, HShift(n), n), a, b, n)
  {
    hide Update, HShift;
  }
}
