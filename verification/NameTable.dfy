/** The table of names of dpkg.c: search_name_hashtable() gives equal texts equal numbers and
    different texts different numbers, over any run of calls. */
module NameTable {
  import opened Bits
  import opened Factor
  import opened CStrings
  import opened Versions
  import opened Probing

  /** The contents of name_hashtable. */
  type Slots = seq<Option<Text>>

  predicate Holds(t: Slots, key: Text) {
    Some(key) in t
  }

  ghost predicate HasFree(t: Slots)
    requires |t| == NAME_PRIME + 1
  {
    exists q :: 0 <= q < NAME_PRIME && t[q].None?
  }

  /** Every name stands where its walk finds it, and stands there only once. The last slot of
      the array is never used. */
  ghost predicate Placed(t: Slots) {
    && |t| == NAME_PRIME + 1
    && t[NAME_PRIME].None?
    && (forall q :: 0 <= q < NAME_PRIME && t[q].Some? ==>
        Ascii(t[q].value) && Reached(t, q, Home(t[q].value, NAME_PRIME), NAME_PRIME))
    && (forall q, r :: 0 <= q < NAME_PRIME && 0 <= r < NAME_PRIME && t[q].Some? && t[q] == t[r] ==> q == r)
  }

  lemma EmptyIsPlaced(t: Slots)
    requires |t| == NAME_PRIME + 1 && forall q :: 0 <= q < |t| ==> t[q].None?
    ensures Placed(t)
  {}

  /** What one call of search_name_hashtable() does: the key stands at the number returned,
      where it stood before or in a slot that was free. */
  ghost predicate Interned(t: Slots, key: Text, r: nat, u: Slots) {
    && |t| == |u| && r < |t|
    && (t[r].None? || t[r] == Some(key))
    && u == t[r := Some(key)]
    && Placed(u)
  }

  lemma StoreIsPlaced(t: Slots, key: Text, k: nat)
    requires Placed(t) && Ascii(key) && !Holds(t, key)
    requires var h := Home(key, NAME_PRIME);
      Taken(t, h, k, NAME_PRIME) && t[Slot(h, k, NAME_PRIME)].None?
    ensures Placed(t[Slot(Home(key, NAME_PRIME), k, NAME_PRIME) := Some(key)])
  {
    hide Home, Slot, Reached;
    var h := Home(key, NAME_PRIME);
    var r := Slot(h, k, NAME_PRIME);
    var u := t[r := Some(key)];
    NowReached(u, h, k, r);
    forall q | 0 <= q < NAME_PRIME && u[q].Some?
      ensures Reached(u, q, Home(u[q].value, NAME_PRIME), NAME_PRIME)
    {
      if q != r { ReachedStays(t, u, q, Home(t[q].value, NAME_PRIME), NAME_PRIME); }
    }
  }

  lemma NowReached(u: Slots, h: Probe, k: nat, r: nat)
    requires |u| == NAME_PRIME + 1 && r == Slot(h, k, NAME_PRIME) && Taken(u, h, k, NAME_PRIME)
    ensures Reached(u, r, h, NAME_PRIME)
  {
    hide Slot, Taken;
  }

  /** A free slot on its walk, with other names before it, shows that the key is not stored. */
  lemma NotStored(t: Slots, key: Text, k: nat)
    requires Placed(t)
    requires var h := Home(key, NAME_PRIME);
      && t[Slot(h, k, NAME_PRIME)].None?
      && forall j :: 0 <= j < k ==> t[Slot(h, j, NAME_PRIME)] != Some(key)
    ensures !Holds(t, key)
  {
    hide Home, Slot, Reached;
    if Holds(t, key) {
      var q :| 0 <= q < |t| && t[q] == Some(key);
      FreeEndsWalk(t, q, Home(key, NAME_PRIME), NAME_PRIME, k);
    }
  }

  class Names {
    const slots: array<Option<Text>>

    ghost predicate Valid()
      reads slots
    {
      Placed(slots[..])
    }

    /** INIT_G() clears the table. */
    constructor ()
      ensures Valid() && fresh(slots) && forall q :: 0 <= q < slots.Length ==> slots[q].None?
    {
      slots := new Option<Text>[NAME_PRIME + 1](_ => None);
      new;
      EmptyIsPlaced(slots[..]);
    }

    /** search_name_hashtable(): it adds the key to the table. When all slots are taken by
        other names, the program searches forever. */
    method Search(key: Text) returns (probe_address: nat)
      requires Valid() && Ascii(key)
      requires Holds(slots[..], key) || HasFree(slots[..])
      modifies slots
      ensures Valid()
      ensures Interned(old(slots[..]), key, probe_address, slots[..])
    {
      hide Home, Slot, Placed, Walks, Prime;
      ghost var t := slots[..];
      var h := Home(key, NAME_PRIME);
      ghost var last := StopsAt(t, key);
      var probe_decrement: nat;
      probe_address, probe_decrement := MakeHash(key, NAME_PRIME);
      PlacedLength(t);
      FirstSlot(h, NAME_PRIME);
      ghost var k: nat := 0;
      while slots[probe_address].Some?
        invariant k <= last && slots[..] == t
        invariant probe_address == Slot(h, k, NAME_PRIME)
        invariant forall j :: 0 <= j < k ==> t[Slot(h, j, NAME_PRIME)].Some? && t[Slot(h, j, NAME_PRIME)] != Some(key)
        decreases last - k
      {
        if slots[probe_address].value == key {
          AlreadyThere(t, key, probe_address);
          return;
        }
        OneStep(h, k, NAME_PRIME);
        probe_address := (probe_address - probe_decrement) % 0x1_0000_0000;
        if probe_address >= 0x8000_0000 {
          probe_address := (probe_address + NAME_PRIME) % 0x1_0000_0000;
        }
        k := k + 1;
      }
      NotStored(t, key, k);
      StoreIsPlaced(t, key, k);
      slots[probe_address] := Some(key);
      assert slots[..] == t[probe_address := Some(key)];
    }
  }

  lemma PlacedLength(t: Slots)
    requires Placed(t)
    ensures |t| == NAME_PRIME + 1
  {}

  lemma AlreadyThere(t: Slots, key: Text, r: nat)
    requires Placed(t) && r < |t| && t[r] == Some(key)
    ensures Interned(t, key, r, t)
  {
    assert t == t[r := Some(key)];
  }

  lemma FirstSlot(h: Probe, p: nat)
    requires Walks(h, p)
    ensures Slot(h, 0, p) == h.start
  {
    assert 0 * h.decrement == 0;
  }

  /** The walk stops somewhere. */
  lemma StopsAt(t: Slots, key: Text) returns (k: nat)
    requires Placed(t) && (Holds(t, key) || HasFree(t))
    ensures var q := Slot(Home(key, NAME_PRIME), k, NAME_PRIME); t[q].None? || t[q] == Some(key)
  {
    SizesArePrime();
    hide Home, Slot, Prime, Reached;
    var q :| 0 <= q < NAME_PRIME && (t[q].None? || t[q] == Some(key));
    k := Reaches(Home(key, NAME_PRIME), NAME_PRIME, q);
  }

  // ---------- any run of calls ----------

  /** Call i looks up keys[i] in ts[i], returns rs[i] and leaves ts[i + 1]. */
  ghost predicate Run(ts: seq<Slots>, keys: seq<Text>, rs: seq<nat>) {
    && |ts| == |keys| + 1 && |rs| == |keys|
    && Placed(ts[0])
    && forall i :: 0 <= i < |keys| ==> Interned(ts[i], keys[i], rs[i], ts[i + 1])
  }

  lemma OneCallExtends(t: Slots, key: Text, r: nat, u: Slots)
    requires Interned(t, key, r, u)
    ensures Extends(t, u) && r < |u| && u[r] == Some(key)
  {}

  lemma {:induction false} LaterTables(ts: seq<Slots>, keys: seq<Text>, rs: seq<nat>, i: nat, j: nat)
    requires Run(ts, keys, rs) && i <= j < |ts|
    ensures Placed(ts[j]) && Extends(ts[i], ts[j])
    decreases j
  {
    hide Interned, Placed;
    if i < j {
      LaterTables(ts, keys, rs, i, j - 1);
      OneCallExtends(ts[j - 1], keys[j - 1], rs[j - 1], ts[j]);
      CallKeepsPlaced(ts[j - 1], keys[j - 1], rs[j - 1], ts[j]);
    } else if j > 0 {
      CallKeepsPlaced(ts[j - 1], keys[j - 1], rs[j - 1], ts[j]);
    }
  }

  lemma CallKeepsPlaced(t: Slots, key: Text, r: nat, u: Slots)
    requires Interned(t, key, r, u)
    ensures Placed(u) && r < NAME_PRIME
  {}

  /** Over any run of calls the number of a name stays what it was, and two names get the
      same number exactly when they are equal. */
  lemma Interning(ts: seq<Slots>, keys: seq<Text>, rs: seq<nat>, i: nat, j: nat)
    requires Run(ts, keys, rs) && i <= j < |keys|
    ensures rs[i] < |ts[j]| && ts[j + 1][rs[i]] == Some(keys[i])
    ensures rs[i] == rs[j] <==> keys[i] == keys[j]
  {
    hide Interned, Placed;
    OneCallExtends(ts[i], keys[i], rs[i], ts[i + 1]);
    OneCallExtends(ts[j], keys[j], rs[j], ts[j + 1]);
    LaterTables(ts, keys, rs, i + 1, j + 1);
    LaterTables(ts, keys, rs, j, j + 1);
    CallKeepsPlaced(ts[i], keys[i], rs[i], ts[i + 1]);
    CallKeepsPlaced(ts[j], keys[j], rs[j], ts[j + 1]);
    OnePlace(ts[j + 1], rs[i], rs[j]);
  }

  lemma OnePlace(t: Slots, q: nat, r: nat)
    requires Placed(t) && q < NAME_PRIME && r < NAME_PRIME && t[q].Some? && t[r].Some?
    ensures t[q] == t[r] <==> q == r
  {}

  // ---------- room ----------

  function Stored(t: Slots): set<Text> {
    set q | 0 <= q < |t| && t[q].Some? :: t[q].value
  }

  /** All names there are or will be, and no more of them than the table holds. */
  ghost predicate RoomFor(t: Slots, words: set<Text>) {
    Stored(t) <= words && |words| <= NAME_PRIME
  }

  lemma {:induction false} TakenCount(t: Slots, n: nat)
    requires n <= |t| && forall q :: 0 <= q < n ==> t[q].Some?
    requires forall q, r :: 0 <= q < n && 0 <= r < n && t[q] == t[r] ==> q == r
    ensures |Stored(t[..n])| == n
  {
    if n > 0 {
      TakenCount(t, n - 1);
      var last := t[n - 1].value;
      assert Stored(t[..n]) == Stored(t[..n - 1]) + {last} by {
        forall x | x in Stored(t[..n]) ensures x in Stored(t[..n - 1]) + {last} {
          var q :| 0 <= q < n && t[..n][q].Some? && t[..n][q].value == x;
          if q < n - 1 { assert t[..n - 1][q] == t[q]; }
        }
        forall x | x in Stored(t[..n - 1]) ensures x in Stored(t[..n]) {
          var q :| 0 <= q < n - 1 && t[..n - 1][q].Some? && t[..n - 1][q].value == x;
          assert t[..n][q] == t[q];
        }
        assert t[..n][n - 1] == t[n - 1];
      }
      assert last !in Stored(t[..n - 1]);
    }
  }

  lemma Smaller<T>(a: set<T>, b: set<T>)
    requires a <= b
    ensures |a| <= |b|
  {
    assert b == a + (b - a);
  }

  lemma StoredPrefix(t: Slots, n: nat)
    requires n <= |t|
    ensures Stored(t[..n]) <= Stored(t)
    ensures forall x :: x in Stored(t) ==> Holds(t, x)
  {
    forall x | x in Stored(t[..n]) ensures x in Stored(t) {
      var q :| 0 <= q < n && t[..n][q].Some? && t[..n][q].value == x;
      assert t[q].value == x;
    }
    forall x | x in Stored(t) ensures Holds(t, x) {
      var q :| 0 <= q < |t| && t[q].Some? && t[q].value == x;
    }
  }

  /** While no more than 16381 names are in use, every search ends. */
  lemma RoomMeansFree(t: Slots, words: set<Text>, key: Text)
    requires Placed(t) && RoomFor(t, words) && key in words
    ensures Holds(t, key) || HasFree(t)
  {
    hide Reached, Home;
    if !HasFree(t) && !Holds(t, key) {
      TakenCount(t, NAME_PRIME);
      StoredPrefix(t, NAME_PRIME);
      var s := Stored(t[..NAME_PRIME]);
      Smaller(s + {key}, words);
      assert false;
    }
  }

  lemma CallKeepsRoom(t: Slots, words: set<Text>, key: Text, r: nat, u: Slots)
    requires Interned(t, key, r, u) && RoomFor(t, words) && key in words
    ensures RoomFor(u, words)
  {
    forall x | x in Stored(u) ensures x in words {
      var q :| 0 <= q < |u| && u[q].Some? && u[q].value == x;
      if q != r { assert t[q].value == x && x in Stored(t); }
    }
  }
}
