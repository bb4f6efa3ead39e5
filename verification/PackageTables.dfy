/** The tables of packages and of their states in dpkg.c, the searches through them, and
    what it means that a package satisfies a dependency. */
module PackageTables {
  import opened Bits
  import opened Factor
  import opened CStrings
  import opened Versions
  import opened Probing
  import opened NameTable

  const EDGE_PRE_DEPENDS := 1
  const EDGE_OR_PRE_DEPENDS := 2
  const EDGE_DEPENDS := 3
  const EDGE_OR_DEPENDS := 4
  const EDGE_PROVIDES := 7

  /** Names and versions are numbers of the name table. */
  datatype Edge = Edge(operator: nat, kind: nat, name: nat, version: nat)

  datatype Package = Package(name: nat, version: nat, edges: seq<Edge>)

  datatype StatusNode = StatusNode(package: nat, status: nat)

  type Packages = seq<Option<Package>>
  type Statuses = seq<Option<StatusNode>>

  // ---------- what the tables hold ----------

  predicate Named(t: Slots, n: nat) {
    n < NAME_PRIME && n < |t| && t[n].Some?
  }

  predicate EdgeOk(t: Slots, e: Edge) {
    Named(t, e.name) && Named(t, e.version)
  }

  predicate PackageOk(t: Slots, p: Package) {
    Named(t, p.name) && Named(t, p.version) && forall e :: e in p.edges ==> Named(t, e.name)
  }

  /** Every package stands where the walk of its name finds it. */
  ghost predicate PackagesOk(t: Slots, ps: Packages) {
    && |ps| == PACKAGE_PRIME + 1
    && forall q :: 0 <= q < PACKAGE_PRIME && ps[q].Some? ==>
      PackageOk(t, ps[q].value) && Reached(ps, q, Home(t[ps[q].value.name].value, PACKAGE_PRIME), PACKAGE_PRIME)
  }

  predicate StatusOk(t: Slots, ps: Packages, s: StatusNode) {
    s.package < PACKAGE_PRIME && s.package < |ps| && ps[s.package].Some? && Named(t, ps[s.package].value.name)
        && Named(t, s.status)
  }

  /** The number of the name of the package that a state belongs to. */
  function NameOf(ps: Packages, s: StatusNode): nat
    requires s.package < |ps| && ps[s.package].Some?
  {
    ps[s.package].value.name
  }

  /** Every state stands where the walk of its package's name finds it, and a name has one
      state. */
  ghost predicate StatusesOk(t: Slots, ps: Packages, ss: Statuses) {
    && |ss| == STATUS_PRIME + 1
    && (forall q :: 0 <= q < STATUS_PRIME && ss[q].Some? ==>
        StatusOk(t, ps, ss[q].value) && Reached(ss, q, Home(t[NameOf(ps, ss[q].value)].value, STATUS_PRIME),
            STATUS_PRIME))
    && (forall q, r :: 0 <= q < r < STATUS_PRIME && ss[q].Some? && ss[r].Some? ==>
        NameOf(ps, ss[q].value) != NameOf(ps, ss[r].value))
  }

  ghost predicate SomeFree<T>(t: seq<Option<T>>, p: nat)
    requires p <= |t|
  {
    exists q :: 0 <= q < p && t[q].None?
  }

  // ---------- when a dependency is satisfied ----------

  /** What search_package_hashtable() looks for. */
  predicate Matches(t: Slots, p: Package, name: nat, version: nat, operator: nat, atoi: Text -> int)
    requires Named(t, p.version) && Named(t, version)
  {
    p.name == name &&
    (operator == VER_ANY || Related(operator, Parts(t[p.version].value, atoi), Parts(t[version].value, atoi)))
  }

  predicate Provides(p: Package, name: nat) {
    exists j :: 0 <= j < |p.edges| && p.edges[j].kind == EDGE_PROVIDES && p.edges[j].name == name
  }

  /** What stands behind the first n words. */
  function Behind(s: Text, n: nat): Text {
    if n == 0 then s else NextWord(Behind(s, n - 1))
  }

  /** Skips past a word and past the spaces behind it. */
  function NextWord(s: Text): Text {
    var b := s[Until(s, {SPACE})..];
    b[Span(b, {SPACE})..]
  }

  /** The word number num of a state, counted from 1. */
  function Word(s: Text, num: nat): Text
    requires num > 0
  {
    var b := Behind(s, num - 1);
    b[..Until(b, {SPACE, NEWLINE})]
  }

  const INSTALL: Text := [105, 110, 115, 116, 97, 108, 108]
  const INSTALLED: Text := INSTALL + [101, 100]

  /** A pre-dependency asks for an installed package, a dependency for one that is wanted. */
  predicate StateSatisfies(state: Text, kind: nat) {
    || (kind == EDGE_PRE_DEPENDS && Word(state, 3) == INSTALLED)
    || (kind == EDGE_DEPENDS && Word(state, 1) == INSTALL)
  }

  /** A word of a state. */
  predicate StateWord(w: Text) { SPACE !in w && NEWLINE !in w }

  /** The first word, and what stands behind it, of a state of several words. */
  lemma WordSplit(w: Text, rest: Text)
    requires StateWord(w) && (rest == [] || rest[0] != SPACE)
    ensures Word(w + [SPACE] + rest, 1) == w && NextWord(w + [SPACE] + rest) == rest
  {
    var s := w + [SPACE] + rest;
    assert s[|w|] == SPACE && forall i :: 0 <= i < |w| ==> s[i] == w[i] && s[i] in w;
    UntilIs(s, {SPACE}, |w|);
    UntilIs(s, {SPACE, NEWLINE}, |w|);
    assert s[..|w|] == w && s[|w|..] == [SPACE] + rest;
    SpanIs([SPACE] + rest, {SPACE}, 1);
    assert Behind(s, 0) == s;
  }

  /** What a state of three words, as "install ok installed", satisfies: a pre-dependency
      exactly if the third word is "installed", a dependency exactly if the first is
      "install". */
  lemma StateOfThree(want: Text, flag: Text, status: Text, kind: nat)
    requires StateWord(want) && StateWord(flag) && StateWord(status) && flag != []
    ensures var state := want + Chars(" ") + flag + Chars(" ") + status;
      StateSatisfies(state, kind) <==>
        ((kind == 1 && status == Chars("installed")) || (kind == 3 && want == Chars("install")))
  {
    hide Until, Span;
    var rest := flag + [SPACE] + status;
    var state := want + Chars(" ") + flag + Chars(" ") + status;
    assert Chars(" ") == [SPACE];
    assert state == want + [SPACE] + rest;
    HeadOfWord(flag);
    WordSplit(want, rest);
    LastWord(want, flag, status, state);
    InstallTexts();
  }

  lemma LastWord(want: Text, flag: Text, status: Text, state: Text)
    requires StateWord(want) && StateWord(flag) && StateWord(status) && flag != []
    requires state == want + [SPACE] + (flag + [SPACE] + status)
    ensures Word(state, 3) == status
  {
    hide Span, Until, NextWord, Behind;
    HeadOfWord(flag);
    HeadOfWord(status);
    WordSplit(want, flag + [SPACE] + status);
    WordSplit(flag, status);
    BehindTwo(state);
    SingleWord(status);
  }

  lemma HeadOfWord(w: Text)
    requires StateWord(w)
    ensures w == [] || w[0] != SPACE
  {}

  lemma BehindTwo(state: Text)
    ensures Behind(state, 2) == NextWord(NextWord(state))
  {
    hide NextWord;
    assert Behind(state, 0) == state && Behind(state, 1) == NextWord(state);
  }

  lemma SingleWord(w: Text)
    requires StateWord(w)
    ensures w[..Until(w, {SPACE, NEWLINE})] == w
  {
    UntilIs(w, {SPACE, NEWLINE}, |w|);
  }

  lemma InstallTexts()
    ensures INSTALL == Chars("install") && INSTALLED == Chars("installed")
  {}

  /** The package of that name has a state that satisfies a dependency of that kind. */
  ghost predicate NameSatisfies(t: Slots, ps: Packages, ss: Statuses, name: nat, kind: nat)
    requires StatusesOk(t, ps, ss)
  {
    exists q :: 0 <= q < STATUS_PRIME && ss[q].Some? && NameOf(ps, ss[q].value) == name
      && StateSatisfies(t[ss[q].value.status].value, kind)
  }

  /** A package that matches the edge, or one that provides its name, is in the right state. */
  ghost predicate Satisfied(t: Slots, ps: Packages, ss: Statuses, e: Edge, atoi: Text -> int)
    requires PackagesOk(t, ps) && StatusesOk(t, ps, ss) && EdgeOk(t, e)
  {
    exists q :: 0 <= q < PACKAGE_PRIME && ps[q].Some?
      && (Matches(t, ps[q].value, e.name, e.version, e.operator, atoi) || Provides(ps[q].value, e.name))
      && NameSatisfies(t, ps, ss, ps[q].value.name, e.kind)
  }

  // ---------- the walks stop at a free slot only when nothing matches ----------

  lemma NoPackageBehind(t: Slots, ps: Packages, name: nat, k: nat, q: nat)
    requires PackagesOk(t, ps) && Named(t, name)
    requires ps[Slot(Home(t[name].value, PACKAGE_PRIME), k, PACKAGE_PRIME)].None?
    requires q < PACKAGE_PRIME && ps[q].Some? && ps[q].value.name == name
    ensures exists j :: 0 <= j < k && Slot(Home(t[name].value, PACKAGE_PRIME), j, PACKAGE_PRIME) == q
  {
    hide Home, Slot, Reached;
    FreeEndsWalk(ps, q, Home(t[name].value, PACKAGE_PRIME), PACKAGE_PRIME, k);
  }

  lemma NoStatusBehind(t: Slots, ps: Packages, ss: Statuses, name: nat, k: nat, q: nat)
    requires StatusesOk(t, ps, ss) && Named(t, name)
    requires ss[Slot(Home(t[name].value, STATUS_PRIME), k, STATUS_PRIME)].None?
    requires q < STATUS_PRIME && ss[q].Some? && NameOf(ps, ss[q].value) == name
    ensures exists j :: 0 <= j < k && Slot(Home(t[name].value, STATUS_PRIME), j, STATUS_PRIME) == q
  {
    hide Home, Slot, Reached;
    FreeEndsWalk(ss, q, Home(t[name].value, STATUS_PRIME), STATUS_PRIME, k);
  }

  lemma FreeOnWalk<T>(t: seq<Option<T>>, h: Probe, p: nat) returns (k: nat)
    requires Prime(p) && Walks(h, p) && p <= |t| && SomeFree(t, p)
    ensures t[Slot(h, k, p)].None?
  {
    hide Prime, Slot;
    var q :| 0 <= q < p && t[q].None?;
    k := Reaches(h, p, q);
  }

  lemma StandsThere<T>(t: seq<Option<T>>, q: nat, h: Probe, p: nat, k: nat)
    requires 0 < p <= |t| && q == Slot(h, k, p) && Taken(t, h, k, p)
    ensures Reached(t, q, h, p)
  {
    hide Slot, Taken;
  }

  lemma WordIsAscii(s: Text, num: nat)
    requires Ascii(s) && num > 0
    ensures Ascii(Word(s, num))
  {
    hide Ascii, Until, Span, Behind;
    BehindIsAscii(s, num - 1);
    var b := Behind(s, num - 1);
    SliceIsAscii(b, 0, Until(b, {SPACE, NEWLINE}));
  }

  lemma SliceIsAscii(s: Text, i: nat, j: nat)
    requires i <= j <= |s| && Ascii(s)
    ensures Ascii(s[i..j])
  {}

  lemma {:induction false} BehindIsAscii(s: Text, n: nat)
    requires Ascii(s)
    ensures Ascii(Behind(s, n))
  {
    hide Ascii, NextWord;
    if n > 0 {
      BehindIsAscii(s, n - 1);
      NextIsAscii(Behind(s, n - 1));
    }
  }

  lemma NextIsAscii(s: Text)
    requires Ascii(s)
    ensures Ascii(NextWord(s))
  {
    hide Ascii, Until, Span;
    var b := s[Until(s, {SPACE})..];
    assert b == s[Until(s, {SPACE})..|s|];
    SliceIsAscii(s, Until(s, {SPACE}), |s|);
    assert b[Span(b, {SPACE})..] == b[Span(b, {SPACE})..|b|];
    SliceIsAscii(b, Span(b, {SPACE}), |b|);
  }

  /** A name keeps its text when the table grows. */
  lemma StillNamed(t: Slots, u: Slots, n: nat)
    requires Extends(t, u) && Named(t, n)
    ensures Named(u, n) && u[n] == t[n]
  {}

  lemma SameNumber(t: Slots, a: Text, r: nat, u: Slots, b: Text, s: nat, v: Slots)
    requires Interned(t, a, r, u) && Interned(u, b, s, v)
    ensures r == s <==> a == b
  {
    hide Placed;
    OneCallExtends(t, a, r, u);
    OneCallExtends(u, b, s, v);
    CallKeepsPlaced(t, a, r, u);
    CallKeepsPlaced(u, b, s, v);
    OnePlace(v, r, s);
  }

  /** Storing a package in the slot that the search found keeps both tables in order. */
  lemma StoredPackages(t: Slots, ps: Packages, ss: Statuses, num: nat, node: Package)
    requires PackagesOk(t, ps) && StatusesOk(t, ps, ss) && PackageOk(t, node) && num < PACKAGE_PRIME
    requires Reached(ps, num, Home(t[node.name].value, PACKAGE_PRIME), PACKAGE_PRIME)
    requires ps[num].Some? ==> ps[num].value.name == node.name
    ensures var ps' := ps[num := Some(node)]; PackagesOk(t, ps') && StatusesOk(t, ps', ss)
  {
    hide Reached, Home, PackageOk;
    var ps' := ps[num := Some(node)];
    forall q | 0 <= q < PACKAGE_PRIME && ps'[q].Some?
      ensures PackageOk(t, ps'[q].value) && Named(t, ps'[q].value.name)
      ensures Reached(ps', q, Home(t[ps'[q].value.name].value, PACKAGE_PRIME), PACKAGE_PRIME)
    {
      NameNamed(t, ps'[q].value);
      ReachedStays(ps, ps', q, Home(t[ps'[q].value.name].value, PACKAGE_PRIME), PACKAGE_PRIME);
    }
  }

  lemma NameNamed(t: Slots, p: Package)
    requires PackageOk(t, p)
    ensures Named(t, p.name)
  {}

  lemma StoredStatuses(t: Slots, ps: Packages, ss: Statuses, num: nat, node: StatusNode)
    requires StatusesOk(t, ps, ss) && StatusOk(t, ps, node) && num < STATUS_PRIME
    requires Reached(ss, num, Home(t[NameOf(ps, node)].value, STATUS_PRIME), STATUS_PRIME)
    requires ss[num].Some? ==> NameOf(ps, ss[num].value) == NameOf(ps, node)
    requires ss[num].None? ==> forall q :: 0 <= q < STATUS_PRIME && ss[q].Some? ==>
        NameOf(ps, ss[q].value) != NameOf(ps, node)
    ensures StatusesOk(t, ps, ss[num := Some(node)])
  {
    hide Reached, Home;
    var ss' := ss[num := Some(node)];
    forall q | 0 <= q < STATUS_PRIME && ss'[q].Some?
      ensures Reached(ss', q, Home(t[NameOf(ps, ss'[q].value)].value, STATUS_PRIME), STATUS_PRIME)
    {
      ReachedStays(ss, ss', q, Home(t[NameOf(ps, ss'[q].value)].value, STATUS_PRIME), STATUS_PRIME);
    }
  }

  // ---------- the tables of the program ----------

  class Dpkg {
    const names: Names
    const packages: array<Option<Package>>
    const statuses: array<Option<StatusNode>>
    const atoi: Text -> int

    /** The tables are in order for the names that t holds; more names may have come since. */
    ghost predicate Valid(t: Slots)
      reads names.slots, packages, statuses
    {
      && (names.slots as object) != packages && (names.slots as object) != statuses
      && names.Valid()
      && Extends(t, names.slots[..])
      && PackagesOk(t, packages[..])
      && StatusesOk(t, packages[..], statuses[..])
      && SomeFree(packages[..], PACKAGE_PRIME)
      && SomeFree(statuses[..], STATUS_PRIME)
    }

    /** INIT_G() clears all three tables. */
    constructor (atoi: Text -> int)
      ensures Valid(names.slots[..]) && fresh(names.slots) && fresh(packages) && fresh(statuses)
      ensures this.atoi == atoi && (forall q :: 0 <= q < names.slots.Length ==> names.slots[q].None?)
    {
      this.atoi := atoi;
      names := new Names();
      packages := new Option<Package>[PACKAGE_PRIME + 1](_ => None);
      statuses := new Option<StatusNode>[STATUS_PRIME + 1](_ => None);
      new;
      assert packages[0].None? && statuses[0].None?;
    }

    /** Texts that the program may still have to number while it checks dependencies. */
    ghost predicate Roomy(t: Slots, words: set<Text>)
      reads names.slots, packages, statuses
      requires Valid(t)
    {
      && RoomFor(names.slots[..], words)
      && INSTALL in words && INSTALLED in words
      && forall q :: 0 <= q < STATUS_PRIME && statuses[q].Some? ==>
        Word(t[statuses[q].value.status].value, 1) in words && Word(t[statuses[q].value.status].value, 3) in words
    }

    /** search_package_hashtable(): the slot of a package that matches, or else a free slot. */
    method SearchPackage(ghost t: Slots, name: nat, version: nat, operator: nat) returns (probe_address: nat)
      requires Valid(t) && Named(t, name) && Named(t, version)
      ensures probe_address < PACKAGE_PRIME
      ensures packages[probe_address].Some? ==> Matches(t, packages[probe_address].value, name, version, operator, atoi)
      ensures packages[probe_address].None? ==>
        forall q :: 0 <= q < PACKAGE_PRIME && packages[q].Some? ==>
            !Matches(t, packages[q].value, name, version, operator, atoi)
      ensures Reached(packages[..], probe_address, Home(t[name].value, PACKAGE_PRIME), PACKAGE_PRIME)
    {
      hide Home, Slot, Walks, Prime, Reached, Related, Parts, Names.Valid, SomeFree, StatusesOk;
      ghost var ps := packages[..];
      StillNamed(t, names.slots[..], name);
      StillNamed(t, names.slots[..], version);
      ghost var h := Home(t[name].value, PACKAGE_PRIME);
      SizesArePrime();
      ghost var last := FreeOnWalk(ps, h, PACKAGE_PRIME);
      AsciiName(name);
      var probe_decrement: nat;
      probe_address, probe_decrement := MakeHash(names.slots[name].value, PACKAGE_PRIME);
      FirstSlot(h, PACKAGE_PRIME);
      ghost var k: nat := 0;
      while packages[probe_address].Some?
        invariant k <= last && probe_address == Slot(h, k, PACKAGE_PRIME)
        invariant forall j :: 0 <= j < k ==>
          var q := Slot(h, j, PACKAGE_PRIME); ps[q].Some? && !Matches(t, ps[q].value, name, version, operator, atoi)
        decreases last - k
      {
        var p := packages[probe_address].value;
        if p.name == name {
          if operator == VER_ANY {
            StandsThere(ps, probe_address, h, PACKAGE_PRIME, k);
            return;
          }
          StillNamed(t, names.slots[..], p.version);
          var fits := TestVersion(names.slots[p.version].value, names.slots[version].value, operator, atoi);
          if fits {
            StandsThere(ps, probe_address, h, PACKAGE_PRIME, k);
            return;
          }
        }
        OneStep(h, k, PACKAGE_PRIME);
        probe_address := (probe_address - probe_decrement) % 0x1_0000_0000;
        if probe_address >= 0x8000_0000 {
          probe_address := (probe_address + PACKAGE_PRIME) % 0x1_0000_0000;
        }
        k := k + 1;
      }
      StandsThere(ps, probe_address, h, PACKAGE_PRIME, k);
      forall q | 0 <= q < PACKAGE_PRIME && packages[q].Some?
        ensures !Matches(t, packages[q].value, name, version, operator, atoi)
      {
        if packages[q].value.name == name { NoPackageBehind(t, ps, name, k, q); }
      }
    }

    lemma AsciiName(n: nat)
      requires names.Valid() && Named(names.slots[..], n)
      ensures Ascii(names.slots[n].value)
    {}

    /** search_status_hashtable() for the name of a package: the slot of its state, or else a
        free slot. */
    method SearchStatus(ghost t: Slots, name: nat) returns (probe_address: nat)
      requires Valid(t) && Named(t, name)
      ensures probe_address < STATUS_PRIME
      ensures statuses[probe_address].Some? ==> NameOf(packages[..], statuses[probe_address].value) == name
      ensures statuses[probe_address].None? ==>
        forall q :: 0 <= q < STATUS_PRIME && statuses[q].Some? ==> NameOf(packages[..], statuses[q].value) != name
      ensures Reached(statuses[..], probe_address, Home(t[name].value, STATUS_PRIME), STATUS_PRIME)
    {
      hide Home, Slot, Walks, Prime, Reached, SomeFree, PackagesOk, Names.Valid;
      ghost var ss, ps := statuses[..], packages[..];
      StillNamed(t, names.slots[..], name);
      var key := names.slots[name].value;
      ghost var h := Home(key, STATUS_PRIME);
      SizesArePrime();
      ghost var last := FreeOnWalk(ss, h, STATUS_PRIME);
      AsciiName(name);
      var probe_decrement: nat;
      probe_address, probe_decrement := MakeHash(key, STATUS_PRIME);
      FirstSlot(h, STATUS_PRIME);
      PackagesLength(t);
      ghost var k: nat := 0;
      while statuses[probe_address].Some?
        invariant k <= last && probe_address == Slot(h, k, STATUS_PRIME)
        invariant forall j :: 0 <= j < k ==>
          var q := Slot(h, j, STATUS_PRIME); ss[q].Some? && NameOf(ps, ss[q].value) != name
        decreases last - k
      {
        var other := packages[statuses[probe_address].value.package].value.name;
        StillNamed(t, names.slots[..], other);
        OneName(other, name);
        if names.slots[other].value == key {
          break;
        }
        OneStep(h, k, STATUS_PRIME);
        probe_address := (probe_address - probe_decrement) % 0x1_0000_0000;
        if probe_address >= 0x8000_0000 {
          probe_address := (probe_address + STATUS_PRIME) % 0x1_0000_0000;
        }
        k := k + 1;
      }
      StandsThere(ss, probe_address, h, STATUS_PRIME, k);
      if statuses[probe_address].None? {
        forall q | 0 <= q < STATUS_PRIME && statuses[q].Some? ensures NameOf(ps, statuses[q].value) != name {
          if NameOf(ps, ss[q].value) == name { NoStatusBehind(t, ps, ss, name, k, q); }
        }
      }
    }

    /** The end of fill_package_struct(): the package takes the place of one with the same name
        and an equal version, or else a free slot. */
    method StorePackage(ghost t: Slots, node: Package) returns (num: nat)
      requires Valid(t) && PackageOk(t, node)
      requires exists q, r :: 0 <= q < r < PACKAGE_PRIME && packages[q].None? && packages[r].None?
      modifies packages
      ensures Valid(t)
      ensures num < PACKAGE_PRIME && packages[..] == old(packages[..])[num := Some(node)]
      ensures if old(packages[num]).Some? then Matches(t, old(packages[num]).value, node.name, node.version, VER_EQUAL,
          atoi)
        else forall q :: 0 <= q < PACKAGE_PRIME && old(packages[q]).Some? ==>
          !Matches(t, old(packages[q]).value, node.name, node.version, VER_EQUAL, atoi)
    {
      hide Placed, Reached, Home, Related, Parts, PackagesOk, StatusesOk, PackageOk;
      ghost var ps := packages[..];
      PackagesLength(t);
      ghost var q, r :| 0 <= q < r < PACKAGE_PRIME && packages[q].None? && packages[r].None?;
      NodeIsNamed(t, node);
      num := SearchPackage(t, node.name, node.version, VER_EQUAL);
      StoredPackages(t, ps, statuses[..], num, node);
      packages[num] := Some(node);
      assert packages[..] == ps[num := Some(node)];
      assert packages[q].None? || packages[r].None?;
    }

    /** What index_status_file() does with the state of a package. */
    method StoreStatus(ghost t: Slots, node: StatusNode) returns (status_num: nat)
      requires Valid(t) && StatusOk(t, packages[..], node)
      requires exists q, r :: 0 <= q < r < STATUS_PRIME && statuses[q].None? && statuses[r].None?
      modifies statuses
      ensures Valid(t)
      ensures status_num < STATUS_PRIME && statuses[..] == old(statuses[..])[status_num := Some(node)]
      ensures if old(statuses[status_num]).Some? then NameOf(packages[..], old(statuses[status_num]).value)
          == NameOf(packages[..], node)
        else forall q :: 0 <= q < STATUS_PRIME && old(statuses[q]).Some? ==>
          NameOf(packages[..], old(statuses[q]).value) != NameOf(packages[..], node)
    {
      hide Placed, Reached, Home, PackagesOk, StatusesOk;
      ghost var ss := statuses[..];
      PackagesLength(t);
      StatusesLength(t);
      ghost var q, r :| 0 <= q < r < STATUS_PRIME && statuses[q].None? && statuses[r].None?;
      status_num := SearchStatus(t, packages[node.package].value.name);
      StoredStatuses(t, packages[..], ss, status_num, node);
      statuses[status_num] := Some(node);
      assert statuses[..] == ss[status_num := Some(node)];
      assert statuses[q].None? || statuses[r].None?;
    }

    lemma NodeIsNamed(t: Slots, p: Package)
      requires PackageOk(t, p)
      ensures Named(t, p.name) && Named(t, p.version)
    {}

    lemma StatusesLength(t: Slots)
      requires StatusesOk(t, packages[..], statuses[..])
      ensures statuses.Length == STATUS_PRIME + 1
    {}

    lemma PackagesLength(t: Slots)
      requires PackagesOk(t, packages[..])
      ensures packages.Length == PACKAGE_PRIME + 1
    {}

    /** Different numbers stand for different texts. */
    lemma OneName(m: nat, n: nat)
      requires names.Valid() && Named(names.slots[..], m) && Named(names.slots[..], n)
      ensures names.slots[m].value == names.slots[n].value <==> m == n
    {
      OnePlace(names.slots[..], m, n);
    }
  }
}
