/** The dependency loop of check_deps() in dpkg.c, over edges that stand in a row: single
    ones, and an OR edge with its alternatives behind it. */
module DependencyCheck {
  import opened Bits
  import opened CStrings
  import opened Versions
  import opened Probing
  import opened NameTable
  import opened PackageTables

  // ---------- one package ----------

  /** search_name_hashtable() for a text that there is room for. */
  method NumberOf(d: Dpkg, ghost t: Slots, key: Text, ghost words: set<Text>) returns (r: nat)
    requires d.Valid(t) && d.Roomy(t, words) && key in words && Ascii(key)
    modifies d.names.slots
    ensures d.Valid(t) && d.Roomy(t, words)
    ensures Interned(old(d.names.slots[..]), key, r, d.names.slots[..])
  {
    hide Placed, PackagesOk, StatusesOk, SomeFree, Interned, Word;
    ghost var u := d.names.slots[..];
    RoomMeansFree(u, words, key);
    r := d.names.Search(key);
    CallKeepsRoom(u, words, key, r, d.names.slots[..]);
    OneCallExtends(u, key, r, d.names.slots[..]);
  }

  /** get_status() */
  method GetStatus(d: Dpkg, ghost t: Slots, status_node: nat, num: nat, ghost words: set<Text>) returns (r: nat)
    requires d.Valid(t) && d.Roomy(t, words)
    requires status_node < STATUS_PRIME && d.statuses[status_node].Some? && (num == 1 || num == 3)
    modifies d.names.slots
    ensures d.Valid(t) && d.Roomy(t, words)
    ensures Interned(old(d.names.slots[..]), Word(t[d.statuses[status_node].value.status].value, num), r,
        d.names.slots[..])
  {
    hide Interned, PackagesOk, Placed, SomeFree, Ascii;
    ghost var state := t[d.statuses[status_node].value.status].value;
    StateIsAscii(d, t, status_node);
    var status_string := d.names.slots[d.statuses[status_node].value.status].value;
    var i: nat := 1;
    while i < num
      invariant 1 <= i <= num
      invariant status_string == Behind(state, i - 1)
    {
      status_string := status_string[Until(status_string, {SPACE})..];
      status_string := status_string[Span(status_string, {SPACE})..];
      i := i + 1;
    }
    var len := Until(status_string, {SPACE, NEWLINE});
    WordIsAscii(state, num);
    r := NumberOf(d, t, status_string[..len], words);
  }

  lemma StateIsAscii(d: Dpkg, t: Slots, q: nat)
    requires d.Valid(t) && q < STATUS_PRIME && d.statuses[q].Some?
    ensures var n := d.statuses[q].value.status;
      Named(t, n) && d.names.slots[n] == t[n] && Ascii(t[n].value)
  {}

  /** package_satisfies_dependency() */
  method PackageSatisfies(d: Dpkg, ghost t: Slots, package: nat, depend_type: nat, ghost words: set<Text>)
      returns (r: bool)
    requires d.Valid(t) && d.Roomy(t, words)
    requires package < PACKAGE_PRIME && d.packages[package].Some?
    modifies d.names.slots
    ensures d.Valid(t) && d.Roomy(t, words)
    ensures r == NameSatisfies(t, d.packages[..], d.statuses[..], d.packages[package].value.name, depend_type)
  {
    hide Placed, PackagesOk, StatusesOk, SomeFree, Interned, Word, Ascii;
    Lengths(d, t);
    ghost var ps, ss := d.packages[..], d.statuses[..];
    var name := d.packages[package].value.name;
    PackageIsNamed(d, t, package);
    var status_num := d.SearchStatus(t, name);
    if d.statuses[status_num].None? {
      NoState(t, ps, ss, name, depend_type);
      return false;
    }
    OneState(t, ps, ss, name, depend_type, status_num);
    ghost var u := d.names.slots[..];
    KnownWords();
    match depend_type {
      case 1 =>
        var a := GetStatus(d, t, status_num, 3, words);
        ghost var v := d.names.slots[..];
        var b := NumberOf(d, t, INSTALLED, words);
        SameNumber(u, Word(t[ss[status_num].value.status].value, 3), a, v, INSTALLED, b, d.names.slots[..]);
        return a == b;
      case 3 =>
        var a := GetStatus(d, t, status_num, 1, words);
        ghost var v := d.names.slots[..];
        var b := NumberOf(d, t, INSTALL, words);
        SameNumber(u, Word(t[ss[status_num].value.status].value, 1), a, v, INSTALL, b, d.names.slots[..]);
        return a == b;
      case _ =>
        return false;
    }
  }

  lemma Lengths(d: Dpkg, t: Slots)
    requires d.Valid(t)
    ensures d.packages.Length == PACKAGE_PRIME + 1 && d.statuses.Length == STATUS_PRIME + 1
  {}

  lemma PackageIsNamed(d: Dpkg, t: Slots, q: nat)
    requires d.Valid(t) && q < PACKAGE_PRIME && d.packages[q].Some?
    ensures PackageOk(t, d.packages[q].value)
  {}

  lemma KnownWords()
    ensures Ascii(INSTALL) && Ascii(INSTALLED)
  {}

  lemma NoState(t: Slots, ps: Packages, ss: Statuses, name: nat, kind: nat)
    requires StatusesOk(t, ps, ss)
    requires forall q :: 0 <= q < STATUS_PRIME && ss[q].Some? ==> NameOf(ps, ss[q].value) != name
    ensures !NameSatisfies(t, ps, ss, name, kind)
  {}

  lemma OneState(t: Slots, ps: Packages, ss: Statuses, name: nat, kind: nat, q: nat)
    requires StatusesOk(t, ps, ss) && q < STATUS_PRIME && ss[q].Some? && NameOf(ps, ss[q].value) == name
    ensures Named(t, ss[q].value.status)
    ensures NameSatisfies(t, ps, ss, name, kind) == StateSatisfies(t[ss[q].value.status].value, kind)
  {}

  // ---------- one edge ----------

  /** search_for_provides(): the first package behind start_at that provides the name. */
  method SearchForProvides(d: Dpkg, ghost t: Slots, needle: nat, start_at: int) returns (r: int)
    requires d.Valid(t) && -1 <= start_at
    ensures r == -1 || start_at < r < PACKAGE_PRIME
    ensures r >= 0 ==> d.packages[r].Some? && Provides(d.packages[r].value, needle)
    ensures forall q :: start_at < q < (if r < 0 then PACKAGE_PRIME else r) && d.packages[q].Some? ==>
      !Provides(d.packages[q].value, needle)
  {
    hide Placed, StatusesOk, SomeFree;
    var i := start_at + 1;
    while i < PACKAGE_PRIME
      invariant start_at < i
      invariant forall q :: start_at < q < i && q < PACKAGE_PRIME && d.packages[q].Some? ==>
          !Provides(d.packages[q].value, needle)
    {
      if d.packages[i].Some? {
        var p := d.packages[i].value;
        var j := 0;
        while j < |p.edges|
          invariant 0 <= j <= |p.edges|
          invariant forall k :: 0 <= k < j ==> !(p.edges[k].kind == EDGE_PROVIDES && p.edges[k].name == needle)
        {
          if p.edges[j].kind == EDGE_PROVIDES && p.edges[j].name == needle {
            return i;
          }
          j := j + 1;
        }
      }
      i := i + 1;
    }
    r := -1;
  }

  /** Looks for a package in the right state, first among those that match the edge and then
      among those that provide its name. */
  method SatisfiedBy(d: Dpkg, ghost t: Slots, edge: Edge, package_num: nat, ghost words: set<Text>)
      returns (unmet: bool)
    requires d.Valid(t) && d.Roomy(t, words) && EdgeOk(t, edge)
    requires package_num < PACKAGE_PRIME
    requires d.packages[package_num].Some? ==>
      Matches(t, d.packages[package_num].value, edge.name, edge.version, edge.operator, d.atoi)
    requires d.packages[package_num].None? ==> forall q :: 0 <= q < PACKAGE_PRIME && d.packages[q].Some? ==>
      !Matches(t, d.packages[q].value, edge.name, edge.version, edge.operator, d.atoi)
    modifies d.names.slots
    ensures d.Valid(t) && d.Roomy(t, words)
    ensures unmet == !Satisfied(t, d.packages[..], d.statuses[..], edge, d.atoi)
  {
    hide Placed, StatusesOk, SomeFree, NameSatisfies, Provides, Word, Parts, Related, PackagesOk, Satisfied;
    Lengths(d, t);
    ghost var ps, ss := d.packages[..], d.statuses[..];
    unmet := true;
    if d.packages[package_num].Some? {
      var r := PackageSatisfies(d, t, package_num, edge.kind, words);
      unmet := !r;
    }
    ghost var direct := unmet;
    if unmet {
      // A provider is always a package, so the source's test for an empty slot never shows one.
      var provider := SearchForProvides(d, t, edge.name, -1);
      while provider > -1
        invariant d.Valid(t) && d.Roomy(t, words)
        invariant provider == -1 || 0 <= provider < PACKAGE_PRIME
        invariant unmet
        invariant provider >= 0 ==> ps[provider].Some? && Provides(ps[provider].value, edge.name)
        invariant NoProviderUpTo(t, ps, ss, edge, if provider < 0 then PACKAGE_PRIME else provider)
        decreases if provider < 0 then 0 else PACKAGE_PRIME - provider
      {
        var r := PackageSatisfies(d, t, provider, edge.kind, words);
        unmet := !r;
        if !unmet {
          break;
        }
        ghost var last := provider;
        provider := SearchForProvides(d, t, edge.name, provider);
        NoneBetween(t, ps, ss, edge, last, if provider < 0 then PACKAGE_PRIME else provider);
      }
      if !unmet {
        FoundProvider(t, ps, ss, edge, provider, d.atoi);
      } else {
        NothingSatisfies(t, ps, ss, edge, package_num, d.atoi);
      }
    } else {
      PackageIsNamed(d, t, package_num);
      FoundMatch(t, ps, ss, edge, package_num, d.atoi);
    }
  }

  /** No package before place n provides what the edge asks for in the right state. */
  ghost predicate NoProviderUpTo(t: Slots, ps: Packages, ss: Statuses, e: Edge, n: nat)
    requires StatusesOk(t, ps, ss) && n <= |ps|
  {
    forall q :: 0 <= q < n && ps[q].Some? && Provides(ps[q].value, e.name) ==>
        !NameSatisfies(t, ps, ss, ps[q].value.name, e.kind)
  }

  lemma NoneBetween(t: Slots, ps: Packages, ss: Statuses, e: Edge, m: nat, n: nat)
    requires StatusesOk(t, ps, ss) && m < n <= |ps|
    requires NoProviderUpTo(t, ps, ss, e, m)
    requires ps[m].Some? && !NameSatisfies(t, ps, ss, ps[m].value.name, e.kind)
    requires forall q :: m < q < n && ps[q].Some? ==> !Provides(ps[q].value, e.name)
    ensures NoProviderUpTo(t, ps, ss, e, n)
  {
    hide StatusesOk, Provides, NameSatisfies;
  }

  lemma FoundProvider(t: Slots, ps: Packages, ss: Statuses, e: Edge, q: nat, atoi: Text -> int)
    requires PackagesOk(t, ps) && StatusesOk(t, ps, ss) && EdgeOk(t, e)
    requires q < PACKAGE_PRIME && ps[q].Some? && Provides(ps[q].value, e.name)
    requires NameSatisfies(t, ps, ss, ps[q].value.name, e.kind)
    ensures Satisfied(t, ps, ss, e, atoi)
  {
    hide StatusesOk, Provides, NameSatisfies, Parts, Related;
  }

  lemma FoundMatch(t: Slots, ps: Packages, ss: Statuses, e: Edge, q: nat, atoi: Text -> int)
    requires PackagesOk(t, ps) && StatusesOk(t, ps, ss) && EdgeOk(t, e)
    requires q < PACKAGE_PRIME && ps[q].Some? && PackageOk(t, ps[q].value)
        && Matches(t, ps[q].value, e.name, e.version, e.operator, atoi)
    requires NameSatisfies(t, ps, ss, ps[q].value.name, e.kind)
    ensures Satisfied(t, ps, ss, e, atoi)
  {
    hide StatusesOk, Provides, NameSatisfies, Matches;
  }

  lemma NothingSatisfies(t: Slots, ps: Packages, ss: Statuses, e: Edge, q: nat, atoi: Text -> int)
    requires PackagesOk(t, ps) && StatusesOk(t, ps, ss) && EdgeOk(t, e) && q < PACKAGE_PRIME
    requires ps[q].Some? ==> ps[q].value.name == e.name && !NameSatisfies(t, ps, ss, e.name, e.kind)
    requires ps[q].None? ==> forall r :: 0 <= r < PACKAGE_PRIME && ps[r].Some? ==>
      !Matches(t, ps[r].value, e.name, e.version, e.operator, atoi)
    requires NoProviderUpTo(t, ps, ss, e, PACKAGE_PRIME)
    ensures !Satisfied(t, ps, ss, e, atoi)
  {
    hide StatusesOk, Provides, NameSatisfies, Parts, Related, Reached;
  }

  // ---------- the edges of one package ----------

  /** One clause of the dependency fields: a single edge, or an OR edge followed by its
      alternatives. */
  datatype Group = Single(edge: Edge) | Alternatives(root: Edge, others: seq<Edge>)

  function EdgesOf(g: Group): (es: seq<Edge>)
    ensures es != []
  {
    match g
    case Single(e) => [e]
    case Alternatives(root, others) => [root] + others
  }

  function Flatten(gs: seq<Group>): seq<Edge> {
    if gs == [] then [] else Flatten(gs[..|gs| - 1]) + EdgesOf(gs[|gs| - 1])
  }

  /** The version field of an OR edge counts the alternatives, and its kind is one more than
      theirs; the kinds of single edges are odd. */
  predicate GroupOk(g: Group) {
    match g
    case Single(e) => e.kind % 2 == 1
    case Alternatives(root, others) =>
      && (root.kind == EDGE_OR_PRE_DEPENDS || root.kind == EDGE_OR_DEPENDS)
      && others != [] && root.version == |others|
      && forall k :: 0 <= k < |others| ==> others[k].kind == root.kind - 1
  }

  predicate IsDependency(e: Edge) {
    e.kind == EDGE_PRE_DEPENDS || e.kind == EDGE_DEPENDS
  }

  ghost predicate AllEdgesOk(t: Slots, g: Group) {
    match g
    case Single(e) => EdgeOk(t, e)
    case Alternatives(_, others) => forall k :: 0 <= k < |others| ==> EdgeOk(t, others[k])
  }

  /** The clause is satisfied: one of its alternatives is. */
  ghost predicate Met(t: Slots, ps: Packages, ss: Statuses, g: Group, atoi: Text -> int)
    requires PackagesOk(t, ps) && StatusesOk(t, ps, ss) && AllEdgesOk(t, g)
  {
    match g
    case Single(e) => IsDependency(e) ==> Satisfied(t, ps, ss, e, atoi)
    case Alternatives(_, others) => exists k :: 0 <= k < |others| && Satisfied(t, ps, ss, others[k], atoi)
  }

  /** Where the loop stands: before group g, or behind the first off edges of it. */
  predicate Standing(gs: seq<Group>, g: nat, off: nat, j: int, number: int, root: Option<Edge>) {
    && g <= |gs|
    && if off == 0 then
      j == |Flatten(gs[..g])| && (number == 0 || (number == 1 && root.None?))
    else
      && g < |gs| && gs[g].Alternatives? && off <= |gs[g].others|
      && j == |Flatten(gs[..g])| + off
      && number == |gs[g].others| - off + 1
      && root == Some(gs[g].root)
  }

  lemma {:induction false} FlattenPrefix(gs: seq<Group>, g: nat)
    requires g <= |gs|
    ensures |Flatten(gs[..g])| <= |Flatten(gs)|
    ensures Flatten(gs)[..|Flatten(gs[..g])|] == Flatten(gs[..g])
    ensures g < |gs| ==> |Flatten(gs[..g])| < |Flatten(gs)|
    decreases |gs|
  {
    if g < |gs| {
      assert gs[..|gs| - 1][..g] == gs[..g];
      FlattenPrefix(gs[..|gs| - 1], g);
    } else {
      assert gs[..g] == gs;
    }
  }

  /** The edges of group g stand in a row. */
  lemma GroupInPlace(gs: seq<Group>, g: nat)
    requires g < |gs|
    ensures var a, b := |Flatten(gs[..g])|, |Flatten(gs[..g + 1])|;
      a < b <= |Flatten(gs)| && Flatten(gs)[a..b] == EdgesOf(gs[g]) && b == a + |EdgesOf(gs[g])|
  {
    FlattenPrefix(gs, g + 1);
    assert gs[..g + 1][..g] == gs[..g];
    var a, b := |Flatten(gs[..g])|, |Flatten(gs[..g + 1])|;
    assert Flatten(gs[..g + 1]) == Flatten(gs[..g]) + EdgesOf(gs[g]);
    assert Flatten(gs)[a..b] == Flatten(gs)[..b][a..];
  }

  /** The edge under the loop, in a state that is before a group or inside of one. */
  lemma EdgeUnder(gs: seq<Group>, g: nat, off: nat, j: int, number: int, root: Option<Edge>)
    requires Standing(gs, g, off, j, number, root) && 0 <= j < |Flatten(gs)|
    requires forall k :: 0 <= k < |gs| ==> GroupOk(gs[k])
    ensures g < |gs|
    ensures var e := Flatten(gs)[j];
      if off > 0 then e == gs[g].others[off - 1] && e.kind == gs[g].root.kind - 1 && IsDependency(e)
      else if gs[g].Single? then e == gs[g].edge && e.kind % 2 == 1
      else e == gs[g].root && e.kind % 2 == 0 && e.version == |gs[g].others|
  {
    hide Flatten, EdgesOf, GroupOk;
    assert gs[..|gs|] == gs;
    assert GroupOk(gs[g]);
    OffInside(gs[g], off);
    EdgeInPlace(gs, g, off);
  }

  /** The edge number off of a group. */
  predicate EdgeAt(g: Group, off: nat, e: Edge) {
    if off > 0 then
      g.Alternatives? && off <= |g.others| && e == g.others[off - 1] && e.kind == g.root.kind - 1 && IsDependency(e)
    else if g.Single? then e == g.edge && e.kind % 2 == 1
    else e == g.root && e.kind % 2 == 0 && e.version == |g.others|
  }

  lemma OffInside(g: Group, off: nat)
    requires GroupOk(g) && (off > 0 ==> g.Alternatives? && off <= |g.others|)
    ensures off < |EdgesOf(g)| && EdgeAt(g, off, EdgesOf(g)[off])
  {}

  lemma EdgeInPlace(gs: seq<Group>, g: nat, off: nat)
    requires g < |gs| && off < |EdgesOf(gs[g])|
    ensures |Flatten(gs[..g])| + off < |Flatten(gs)|
    ensures Flatten(gs)[|Flatten(gs[..g])| + off] == EdgesOf(gs[g])[off]
  {
    hide Flatten, EdgesOf;
    GroupInPlace(gs, g);
    var a, b := |Flatten(gs[..g])|, |Flatten(gs[..g + 1])|;
    assert Flatten(gs)[a..b][off] == Flatten(gs)[a + off];
  }

  lemma NextGroup(gs: seq<Group>, g: nat)
    requires g < |gs|
    ensures |Flatten(gs[..g + 1])| == |Flatten(gs[..g])| + (if gs[g].Single? then 1 else 1 + |gs[g].others|)
    ensures |Flatten(gs[..g + 1])| <= |Flatten(gs)|
  {
    GroupInPlace(gs, g);
  }

  lemma AtTheLast(gs: seq<Group>, g: nat, off: nat, j: int, number: int, root: Option<Edge>)
    requires Standing(gs, g, off, j, number, root) && j >= |Flatten(gs)|
    ensures g == |gs|
  {
    if g < |gs| { NextGroup(gs, g); }
  }

  ghost predicate MetUpTo(t: Slots, ps: Packages, ss: Statuses, gs: seq<Group>, n: nat, atoi: Text -> int)
    requires PackagesOk(t, ps) && StatusesOk(t, ps, ss) && n <= |gs|
    requires forall k :: 0 <= k < |gs| ==> AllEdgesOk(t, gs[k])
  {
    forall k :: 0 <= k < n ==> Met(t, ps, ss, gs[k], atoi)
  }

  /** None of the first n alternatives of the group is satisfied. */
  ghost predicate UnmetSoFar(t: Slots, ps: Packages, ss: Statuses, g: Group, n: int, atoi: Text -> int)
    requires PackagesOk(t, ps) && StatusesOk(t, ps, ss) && AllEdgesOk(t, g)
  {
    g.Alternatives? && n <= |g.others| && forall k :: 0 <= k < n ==> !Satisfied(t, ps, ss, g.others[k], atoi)
  }

  /** The loop over the edges of one package. It gives up exactly when one of the clauses is
      not satisfied; the complaint about corrupt dependencies never comes. */
  method CheckEdges(d: Dpkg, ghost t: Slots, edges: seq<Edge>, ghost gs: seq<Group>, ghost words: set<Text>)
      returns (ok: bool)
    requires d.Valid(t) && d.Roomy(t, words)
    requires edges == Flatten(gs)
    requires forall k :: 0 <= k < |gs| ==> GroupOk(gs[k]) && AllEdgesOk(t, gs[k])
    modifies d.names.slots
    ensures d.Valid(t) && d.Roomy(t, words)
    ensures ok == MetUpTo(t, d.packages[..], d.statuses[..], gs, |gs|, d.atoi)
  {
    hide Satisfied, PackagesOk, StatusesOk, SomeFree, Placed, Word, Flatten, Dpkg.Roomy, Matches, Related, Parts;
    ghost var ps, ss := d.packages[..], d.statuses[..];
    var number_of_alternatives: int, root_of_alternatives: Option<Edge> := 0, None;
    var j := 0;
    ghost var g: nat, off: nat := 0, 0;
    FlattenNothing(gs);
    while j < |edges|
      invariant d.Valid(t) && d.Roomy(t, words)
      invariant 0 <= j && Standing(gs, g, off, j, number_of_alternatives, root_of_alternatives)
      invariant MetUpTo(t, ps, ss, gs, g, d.atoi)
      invariant off > 0 ==> UnmetSoFar(t, ps, ss, gs[g], off - 1, d.atoi)
      decreases |edges| - j
    {
      EdgeUnder(gs, g, off, j, number_of_alternatives, root_of_alternatives);
      NextGroup(gs, g);
      var package_edge := edges[j];
      if package_edge.kind == EDGE_OR_PRE_DEPENDS || package_edge.kind == EDGE_OR_DEPENDS {
        number_of_alternatives := package_edge.version;
        root_of_alternatives := Some(package_edge);
        off := 1;
      } else {
        if number_of_alternatives == 0 {
          number_of_alternatives := 1;
          root_of_alternatives := None;
        }
        var package_num := d.SearchPackage(t, package_edge.name, package_edge.version, package_edge.operator);
        if package_edge.kind == EDGE_PRE_DEPENDS || package_edge.kind == EDGE_DEPENDS {
          if root_of_alternatives.Some? && package_edge.kind != root_of_alternatives.value.kind - 1 {
            assert false;
          }
          var result := SatisfiedBy(d, t, package_edge, package_num, words);
          number_of_alternatives := number_of_alternatives - 1;
          if result && number_of_alternatives == 0 {
            NotMet(t, ps, ss, gs, g, d.atoi);
            return false;
          }
          if !result && number_of_alternatives != 0 {
            j := j + number_of_alternatives;
            number_of_alternatives := 0;
          }
          if result {
            off := off + 1;
          } else {
            OneMoreMet(t, ps, ss, gs, g, off, d.atoi);
            g, off := g + 1, 0;
          }
        } else {
          OneMoreMet(t, ps, ss, gs, g, off, d.atoi);
          g := g + 1;
        }
      }
      j := j + 1;
    }
    AtTheLast(gs, g, off, j, number_of_alternatives, root_of_alternatives);
    ok := true;
  }

  lemma FlattenNothing(gs: seq<Group>)
    ensures Flatten(gs[..0]) == []
  {}

  lemma OneMoreMet(t: Slots, ps: Packages, ss: Statuses, gs: seq<Group>, g: nat, off: nat, atoi: Text -> int)
    requires PackagesOk(t, ps) && StatusesOk(t, ps, ss) && g < |gs|
    requires forall k :: 0 <= k < |gs| ==> AllEdgesOk(t, gs[k])
    requires MetUpTo(t, ps, ss, gs, g, atoi)
    requires match gs[g]
      case Single(e) => IsDependency(e) ==> Satisfied(t, ps, ss, e, atoi)
      case Alternatives(_, others) => 0 < off <= |others| && Satisfied(t, ps, ss, others[off - 1], atoi)
    ensures MetUpTo(t, ps, ss, gs, g + 1, atoi)
  {
    hide Satisfied, PackagesOk, StatusesOk;
  }

  lemma NotMet(t: Slots, ps: Packages, ss: Statuses, gs: seq<Group>, g: nat, atoi: Text -> int)
    requires PackagesOk(t, ps) && StatusesOk(t, ps, ss) && g < |gs|
    requires AllEdgesOk(t, gs[g]) && forall k :: 0 <= k < |gs| ==> AllEdgesOk(t, gs[k])
    requires match gs[g]
      case Single(e) => IsDependency(e) && !Satisfied(t, ps, ss, e, atoi)
      case Alternatives(_, others) => forall k :: 0 <= k < |others| ==> !Satisfied(t, ps, ss, others[k], atoi)
    ensures !MetUpTo(t, ps, ss, gs, |gs|, atoi)
  {
    hide Satisfied, PackagesOk, StatusesOk;
    assert !Met(t, ps, ss, gs[g], atoi);
  }

  // ---------- all packages ----------

  /** The package in slot q is wanted for install. */
  ghost predicate Wanted(t: Slots, ps: Packages, ss: Statuses, q: nat)
    requires StatusesOk(t, ps, ss) && q < |ps|
  {
    ps[q].Some? && NameSatisfies(t, ps, ss, ps[q].value.name, EDGE_DEPENDS)
  }

  /** The edges of every package are clauses in a row. */
  ghost predicate Grouped(t: Slots, ps: Packages, gss: seq<seq<Group>>) {
    && |gss| == |ps|
    && forall q :: 0 <= q < |ps| && ps[q].Some? ==>
      ps[q].value.edges == Flatten(gss[q]) && forall k :: 0 <= k < |gss[q]| ==>
          GroupOk(gss[q][k]) && AllEdgesOk(t, gss[q][k])
  }

  ghost predicate PackageMet(t: Slots, ps: Packages, ss: Statuses, gss: seq<seq<Group>>, q: nat, atoi: Text -> int)
    requires PackagesOk(t, ps) && StatusesOk(t, ps, ss) && Grouped(t, ps, gss) && q < |ps|
  {
    Wanted(t, ps, ss, q) ==> MetUpTo(t, ps, ss, gss[q], |gss[q]|, atoi)
  }

  /** The dependency loop of check_deps(). It finishes without dying exactly when every clause
      of every package that is wanted for install has an alternative that is satisfied, by a
      matching package or by one that provides its name. */
  method CheckDependencies(d: Dpkg, ghost t: Slots, ghost gss: seq<seq<Group>>, ghost words: set<Text>)
      returns (ok: bool)
    requires d.Valid(t) && d.Roomy(t, words) && Grouped(t, d.packages[..], gss)
    modifies d.names.slots
    ensures d.Valid(t) && d.Roomy(t, words)
    ensures ok <==> forall q :: 0 <= q < PACKAGE_PRIME ==> PackageMet(t, d.packages[..], d.statuses[..], gss, q, d.atoi)
  {
    hide Satisfied, PackagesOk, StatusesOk, SomeFree, Placed, Word, Flatten, Dpkg.Roomy, Interned, MetUpTo,
        NameSatisfies, Grouped, AllEdgesOk, GroupOk;
    ghost var ps, ss := d.packages[..], d.statuses[..];
    Lengths(d, t);
    for i := 0 to PACKAGE_PRIME
      invariant d.Valid(t) && d.Roomy(t, words)
      invariant forall q :: 0 <= q < i ==> PackageMet(t, ps, ss, gss, q, d.atoi)
    {
      if d.packages[i].None? {
        continue;
      }
      var package_node := d.packages[i].value;
      PackageIsNamed(d, t, i);
      var status_num := d.SearchStatus(t, package_node.name);
      if d.statuses[status_num].None? {
        NoState(t, ps, ss, package_node.name, EDGE_DEPENDS);
        continue;
      }
      OneState(t, ps, ss, package_node.name, EDGE_DEPENDS, status_num);
      ghost var u := d.names.slots[..];
      var a := GetStatus(d, t, status_num, 1, words);
      ghost var v := d.names.slots[..];
      KnownWords();
      InstallIsAWord(d, t, words);
      var b := NumberOf(d, t, INSTALL, words);
      SameNumber(u, Word(t[ss[status_num].value.status].value, 1), a, v, INSTALL, b, d.names.slots[..]);
      if a != b {
        continue;
      }
      GroupsOf(t, ps, gss, i);
      var met := CheckEdges(d, t, package_node.edges, gss[i], words);
      if !met {
        assert !PackageMet(t, ps, ss, gss, i, d.atoi);
        return false;
      }
    }
    ok := true;
  }

  lemma InstallIsAWord(d: Dpkg, t: Slots, words: set<Text>)
    requires d.Valid(t) && d.Roomy(t, words)
    ensures INSTALL in words
  {}

  lemma GroupsOf(t: Slots, ps: Packages, gss: seq<seq<Group>>, q: nat)
    requires Grouped(t, ps, gss) && q < |ps| && ps[q].Some?
    ensures |gss| == |ps|
    ensures ps[q].value.edges == Flatten(gss[q])
    ensures forall k :: 0 <= k < |gss[q]| ==> GroupOk(gss[q][k]) && AllEdgesOk(t, gss[q][k])
  {}
}
