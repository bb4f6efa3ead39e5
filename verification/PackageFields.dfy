/** From the text of a control record to the verdict on dependencies: fill_package_struct() of
    dpkg.c over all fields of a package, and check_deps() as a statement about the texts. */
module PackageFields {
  import opened Bits
  import opened CStrings
  import opened Versions
  import opened Probing
  import opened NameTable
  import opened PackageTables
  import opened DependencyCheck
  import opened DependencyLines

  // ---------- what the fields of a package say ----------

  /** A field of a control record, as read_package_field() cuts it out. */
  datatype Control = Control(name: Text, value: Text)

  /** The fields that fill_package_struct() looks at; the kind is the edge type of the eight
      that list other packages. */
  datatype Field = PackageName(name: Text) | PackageVersion(version: Text) | Others(kind: nat, line: Text) | Ignored

  /** field_names */
  const FIELD_NAMES: seq<Text> := [
    Chars("Package"), Chars("Version"), Chars("Pre-Depends"), Chars("Depends"), Chars("Replaces"), Chars("Provides"),
    Chars("Conflicts"), Chars("Suggests"), Chars("Recommends"), Chars("Enhances")]

  /** index_in_strings(): the first place from i on where the name stands. */
  function IndexInStrings(names: seq<Text>, name: Text, i: nat): (r: Option<nat>)
    requires i <= |names|
    ensures r.Some? ==> i <= r.value < |names| && names[r.value] == name
    ensures r.None? ==> name !in names[i..]
    decreases |names| - i
  {
    if i == |names| then None
    else if names[i] == name then Some(i)
    else IndexInStrings(names, name, i + 1)
  }

  /** What fill_package_struct() takes a field for. */
  function FieldOf(c: Control): Field {
    match IndexInStrings(FIELD_NAMES, c.name, 0)
    case Some(0) => PackageName(c.value)
    case Some(1) => PackageVersion(c.value)
    case Some(2) => Others(EDGE_PRE_DEPENDS, c.value)
    case Some(3) => Others(EDGE_DEPENDS, c.value)
    case Some(4) => Others(5, c.value)
    case Some(5) => Others(EDGE_PROVIDES, c.value)
    case Some(6) => Others(9, c.value)
    case Some(7) => Others(11, c.value)
    case Some(8) => Others(13, c.value)
    case Some(9) => Others(15, c.value)
    case _ => Ignored
  }

  function FieldsOf(cs: seq<Control>): (fields: seq<Field>)
    ensures |fields| == |cs| && forall i :: 0 <= i < |cs| ==> fields[i] == FieldOf(cs[i])
  {
    seq(|cs|, i requires 0 <= i < |cs| => FieldOf(cs[i]))
  }

  /** What every name of a field means. */
  lemma FieldMeans(c: Control)
    ensures FieldOf(c) ==
      if c.name == Chars("Package") then PackageName(c.value)
      else if c.name == Chars("Version") then PackageVersion(c.value)
      else if c.name == Chars("Pre-Depends") then Others(1, c.value)
      else if c.name == Chars("Depends") then Others(3, c.value)
      else if c.name == Chars("Replaces") then Others(5, c.value)
      else if c.name == Chars("Provides") then Others(7, c.value)
      else if c.name == Chars("Conflicts") then Others(9, c.value)
      else if c.name == Chars("Suggests") then Others(11, c.value)
      else if c.name == Chars("Recommends") then Others(13, c.value)
      else if c.name == Chars("Enhances") then Others(15, c.value)
      else Ignored
  {
    var i := IndexInStrings(FIELD_NAMES, c.name, 0);
    assert FIELD_NAMES[0..] == FIELD_NAMES;
    FieldNamesAre();
    FieldNamesApart();
  }

  lemma FieldNamesAre()
    ensures |FIELD_NAMES| == 10
    ensures FIELD_NAMES[0] == Chars("Package") && FIELD_NAMES[1] == Chars("Version")
    ensures FIELD_NAMES[2] == Chars("Pre-Depends") && FIELD_NAMES[3] == Chars("Depends")
    ensures FIELD_NAMES[4] == Chars("Replaces") && FIELD_NAMES[5] == Chars("Provides")
    ensures FIELD_NAMES[6] == Chars("Conflicts") && FIELD_NAMES[7] == Chars("Suggests")
    ensures FIELD_NAMES[8] == Chars("Recommends") && FIELD_NAMES[9] == Chars("Enhances")
  {}

  /** The names differ in their lengths or in their first characters. */
  lemma FieldNamesApart()
    ensures |FIELD_NAMES| == 10
    ensures forall i, j :: 0 <= i < j < 10 ==> FIELD_NAMES[i] != FIELD_NAMES[j]
  {
    FieldNamesAre();
    forall i, j | 0 <= i < j < 10
      ensures |FIELD_NAMES[i]| != |FIELD_NAMES[j]| || FIELD_NAMES[i][0] != FIELD_NAMES[j][0]
    {}
  }

  /** A clause, and the kind of the field that it stands in. */
  datatype KindClause = KindClause(kind: nat, clause: Clause)

  function OfKind(cs: seq<Clause>, kind: nat): (r: seq<KindClause>)
    ensures |r| == |cs| && forall k :: 0 <= k < |cs| ==> r[k] == KindClause(kind, cs[k])
  {
    seq(|cs|, k requires 0 <= k < |cs| => KindClause(kind, cs[k]))
  }

  function FieldClauses(f: Field): seq<KindClause> {
    match f
    case Others(kind, line) => OfKind(ReadLine(line, kind), kind)
    case _ => []
  }

  /** All clauses of a package, field after field. */
  function Clauses(fields: seq<Field>): seq<KindClause> {
    if fields == [] then [] else Clauses(fields[..|fields| - 1]) + FieldClauses(fields[|fields| - 1])
  }

  /** "unknown" */
  const UNKNOWN: Text := [117, 110, 107, 110, 111, 119, 110]

  /** The version is that of the last field that gives one. */
  function VersionOf(fields: seq<Field>): Text {
    if fields == [] then UNKNOWN
    else
      match fields[|fields| - 1]
      case PackageVersion(v) => v
      case _ => VersionOf(fields[..|fields| - 1])
  }

  function NameOfFields(fields: seq<Field>): Option<Text> {
    if fields == [] then None
    else
      match fields[|fields| - 1]
      case PackageName(n) => Some(n)
      case _ => NameOfFields(fields[..|fields| - 1])
  }

  /** Where the fields end the program, the first of them that does decides. */
  function FieldsEnd(fields: seq<Field>): Outcome {
    if fields == [] then Added
    else
      var before := FieldsEnd(fields[..|fields| - 1]);
      if !before.Added? then before
      else
        match fields[|fields| - 1]
        case Others(kind, line) => LineOutcome(line, kind)
        case _ => Added
  }

  predicate FieldOk(f: Field, words: set<Text>) {
    match f
    case PackageName(n) => Ascii(n) && n in words
    case PackageVersion(v) => Ascii(v) && v in words
    case Others(kind, line) => kind % 2 == 1 && Ascii(line) && Countable(line) && AllIn(ReadLine(line, kind), words)
    case Ignored => true
  }

  // ---------- packages made of fields ----------

  predicate ShowsKinds(t: Slots, gs: seq<Group>, kcs: seq<KindClause>) {
    |gs| == |kcs| && forall k :: 0 <= k < |kcs| ==> Shows(t, gs[k], kcs[k].clause, kcs[k].kind)
  }

  ghost predicate GroupsOk(t: Slots, gs: seq<Group>) {
    forall k :: 0 <= k < |gs| ==> GroupOk(gs[k]) && AllEdgesOk(t, gs[k])
  }

  /** The edges are the clauses, one after the other. */
  ghost predicate EdgesShow(t: Slots, es: seq<Edge>, gs: seq<Group>, kcs: seq<KindClause>) {
    es == Flatten(gs) && ShowsKinds(t, gs, kcs) && GroupsOk(t, gs)
  }

  lemma EdgesStay(t: Slots, u: Slots, es: seq<Edge>, gs: seq<Group>, kcs: seq<KindClause>)
    requires EdgesShow(t, es, gs, kcs) && Extends(t, u)
    ensures EdgesShow(u, es, gs, kcs)
  {
    hide Extends, Shows, Flatten, GroupOk, AllEdgesOk;
    GroupsStay(t, u, gs);
    forall k | 0 <= k < |kcs| ensures Shows(u, gs[k], kcs[k].clause, kcs[k].kind) {
      OneStays(t, u, gs[k], kcs[k].clause, kcs[k].kind);
    }
  }

  lemma OneStays(t: Slots, u: Slots, g: Group, c: Clause, kind: nat)
    requires Shows(t, g, c, kind) && Extends(t, u)
    ensures Shows(u, g, c, kind)
  {
    hide Extends, Shows;
    assert ShowsAll(t, [g], [c], kind);
    ShowsStays(t, u, [g], [c], kind);
    assert Shows(u, [g][0], [c][0], kind);
  }

  lemma GroupsConcat(t: Slots, gs: seq<Group>, hs: seq<Group>)
    requires GroupsOk(t, gs) && GroupsOk(t, hs)
    ensures GroupsOk(t, gs + hs)
  {
    hide GroupOk, AllEdgesOk;
  }

  lemma KindsConcat(t: Slots, gs: seq<Group>, kcs: seq<KindClause>, hs: seq<Group>, cs: seq<Clause>, kind: nat)
    requires ShowsKinds(t, gs, kcs) && ShowsAll(t, hs, cs, kind)
    ensures ShowsKinds(t, gs + hs, kcs + OfKind(cs, kind))
  {
    hide Shows;
    var a, b := gs + hs, kcs + OfKind(cs, kind);
    forall k | 0 <= k < |b| ensures Shows(t, a[k], b[k].clause, b[k].kind) {
      if k >= |gs| { assert Shows(t, hs[k - |gs|], cs[k - |gs|], kind); }
    }
  }

  lemma EdgesGrow(t: Slots, es: seq<Edge>, gs: seq<Group>, kcs: seq<KindClause>, hs: seq<Group>, cs: seq<Clause>,
      kind: nat)
    requires EdgesShow(t, es, gs, kcs) && ShowsAll(t, hs, cs, kind)
    requires forall k :: 0 <= k < |hs| ==> GroupOk(hs[k]) && AllEdgesOk(t, hs[k])
    ensures EdgesShow(t, es + Flatten(hs), gs + hs, kcs + OfKind(cs, kind))
  {
    hide Flatten, GroupOk, AllEdgesOk, ShowsKinds, ShowsAll, GroupsOk, OfKind;
    FlattenConcat(gs, hs);
    OkGroups(t, hs);
    GroupsConcat(t, gs, hs);
    KindsConcat(t, gs, kcs, hs, cs, kind);
  }

  lemma OkGroups(t: Slots, hs: seq<Group>)
    requires forall k :: 0 <= k < |hs| ==> GroupOk(hs[k]) && AllEdgesOk(t, hs[k])
    ensures GroupsOk(t, hs)
  {}

  // ---------- fill_package_struct() ----------

  lemma FieldStep(fields: seq<Field>, i: nat)
    requires i < |fields|
    ensures Clauses(fields[..i + 1]) ==
      if fields[i].Others? then Clauses(fields[..i]) + OfKind(ReadLine(fields[i].line, fields[i].kind), fields[i].kind)
      else Clauses(fields[..i])
    ensures VersionOf(fields[..i + 1]) ==
      if fields[i].PackageVersion? then fields[i].version else VersionOf(fields[..i])
    ensures NameOfFields(fields[..i + 1]) ==
      if fields[i].PackageName? then Some(fields[i].name) else NameOfFields(fields[..i])
    ensures FieldsEnd(fields[..i + 1]) ==
      if !FieldsEnd(fields[..i]).Added? then FieldsEnd(fields[..i])
      else if fields[i].Others? then LineOutcome(fields[i].line, fields[i].kind) else Added
  {
    assert fields[..i + 1][..i] == fields[..i];
    assert Clauses(fields[..i]) + [] == Clauses(fields[..i]);
  }

  lemma {:induction false} EndsEarly(fields: seq<Field>, i: nat)
    requires i <= |fields| && !FieldsEnd(fields[..i]).Added?
    ensures FieldsEnd(fields) == FieldsEnd(fields[..i])
    decreases |fields|
  {
    if i < |fields| {
      assert fields[..|fields| - 1][..i] == fields[..i];
      EndsEarly(fields[..|fields| - 1], i);
    } else {
      assert fields[..i] == fields;
    }
  }

  /** The loop of fill_package_struct(): the name, the version and the edges of the package.
      A package without a name keeps number 0. */
  method FillFields(names: Names, controls: seq<Control>, ghost words: set<Text>)
    returns (outcome: Outcome, name: nat, version: nat, edges: seq<Edge>, ghost gs: seq<Group>)
    requires names.Valid() && RoomFor(names.slots[..], words) && UNKNOWN in words
    requires forall i :: 0 <= i < |controls| ==> FieldOk(FieldOf(controls[i]), words)
    modifies names.slots
    ensures names.Valid() && RoomFor(names.slots[..], words) && Extends(old(names.slots[..]), names.slots[..])
    ensures outcome == FieldsEnd(FieldsOf(controls))
    ensures outcome.Added? ==> Numbers(names.slots[..], version, VersionOf(FieldsOf(controls)))
    ensures outcome.Added? ==> match NameOfFields(FieldsOf(controls))
      case Some(n) => Numbers(names.slots[..], name, n)
      case None => name == 0
    ensures outcome.Added? ==> EdgesShow(names.slots[..], edges, gs, Clauses(FieldsOf(controls)))
  {
    hide Placed, RoomFor, Extends, Names.Valid, EdgesShow, Clauses, VersionOf, NameOfFields, FieldsEnd, LineOutcome,
        FieldOf, ReadLine, Flatten, Numbers, AllIn, Ascii, Countable, ShowsAll, GroupOk, AllEdgesOk;
    ghost var fields := FieldsOf(controls);
    ghost var t0 := names.slots[..];
    Unchanged(t0);
    UnknownIsAscii();
    name := 0;
    version := NumberText(names, UNKNOWN, words);
    var node := new Node();
    gs := [];
    NoFields(names.slots[..]);
    assert fields[..0] == [];
    var i := 0;
    while i < |controls|
      invariant 0 <= i <= |fields|
      invariant names.Valid() && RoomFor(names.slots[..], words) && Extends(t0, names.slots[..])
      invariant FieldsEnd(fields[..i]).Added?
      invariant Numbers(names.slots[..], version, VersionOf(fields[..i]))
      invariant match NameOfFields(fields[..i])
        case Some(n) => Numbers(names.slots[..], name, n)
        case None => name == 0
      invariant EdgesShow(names.slots[..], node.edges, gs, Clauses(fields[..i]))
    {
      ghost var t, es := names.slots[..], node.edges;
      assert FieldOk(fields[i], words);
      FieldStep(fields, i);
      match FieldOf(controls[i]) {
        case PackageName(n) =>
          name := NumberText(names, n, words);
        case PackageVersion(v) =>
          version := NumberText(names, v, words);
        case Others(kind, line) =>
          ghost var hs: seq<Group>;
          outcome, hs := AddSplitDependencies(node, names, line, kind, words);
          ExtendsTransitive(t0, t, names.slots[..]);
          if !outcome.Added? {
            EndsEarly(fields, i + 1);
            edges := [];
            return;
          }
          EdgesStay(t, names.slots[..], es, gs, Clauses(fields[..i]));
          EdgesGrow(names.slots[..], es, gs, Clauses(fields[..i]), hs, ReadLine(line, kind), kind);
          gs := gs + hs;
        case Ignored =>
          Unchanged(t);
      }
      Later(t0, t, names.slots[..], fields, i, name, version, node.edges, gs);
      i := i + 1;
    }
    assert fields[..i] == fields;
    return Added, name, version, node.edges, gs;
  }

  /** What the numbers stood for before the field they stand for behind it. */
  lemma Later(t0: Slots, t: Slots, u: Slots, fields: seq<Field>, i: nat, name: nat, version: nat, es: seq<Edge>,
      gs: seq<Group>)
    requires i < |fields| && Extends(t0, t) && Extends(t, u)
    requires fields[i].PackageName? || match NameOfFields(fields[..i])
      case Some(n) => Numbers(t, name, n)
      case None => name == 0
    requires fields[i].PackageVersion? || Numbers(t, version, VersionOf(fields[..i]))
    requires fields[i].Others? || EdgesShow(t, es, gs, Clauses(fields[..i]))
    ensures Extends(t0, u)
    ensures fields[i].PackageName? || match NameOfFields(fields[..i])
      case Some(n) => Numbers(u, name, n)
      case None => name == 0
    ensures fields[i].PackageVersion? || Numbers(u, version, VersionOf(fields[..i]))
    ensures fields[i].Others? || EdgesShow(u, es, gs, Clauses(fields[..i]))
  {
    hide Extends, Numbers, EdgesShow;
    ExtendsTransitive(t0, t, u);
    if !fields[i].PackageName? {
      match NameOfFields(fields[..i])
      case Some(n) => StillNumbers(t, u, name, n);
      case None =>
    }
    if !fields[i].PackageVersion? { StillNumbers(t, u, version, VersionOf(fields[..i])); }
    if !fields[i].Others? { EdgesStay(t, u, es, gs, Clauses(fields[..i])); }
  }

  lemma UnknownIsAscii()
    ensures Ascii(UNKNOWN)
  {}

  lemma NoFields(t: Slots)
    ensures FieldsEnd([]).Added? && VersionOf([]) == UNKNOWN && NameOfFields([]) == None
    ensures EdgesShow(t, [], [], Clauses([]))
  {}

  // ---------- what a clause asks for ----------

  /** A package of that name with a fitting version, or one that provides the name, is in the
      state that the kind asks for. */
  ghost predicate DepMet(t: Slots, ps: Packages, ss: Statuses, d: Dep, kind: nat, atoi: Text -> int)
    requires PackagesOk(t, ps) && StatusesOk(t, ps, ss) && d.operator.Known?
  {
    exists q :: 0 <= q < PACKAGE_PRIME && ps[q].Some?
      && (Fits(t, ps[q].value, d, atoi) || Offers(t, ps[q].value, d.name))
      && NameSatisfies(t, ps, ss, ps[q].value.name, kind)
  }

  predicate Fits(t: Slots, p: Package, d: Dep, atoi: Text -> int)
    requires PackageOk(t, p) && d.operator.Known?
  {
    t[p.name].value == d.name
    && (d.operator.code == VER_ANY || Related(d.operator.code, Parts(t[p.version].value, atoi), Parts(d.version, atoi)))
  }

  predicate Offers(t: Slots, p: Package, name: Text)
  {
    exists j :: 0 <= j < |p.edges| && p.edges[j].kind == EDGE_PROVIDES && Numbers(t, p.edges[j].name, name)
  }

  /** A state of the package of that name: the third word is "installed" for a
      pre-dependency, and the first is "install" for a dependency. */
  predicate InState(t: Slots, ps: Packages, s: StatusNode, name: nat, kind: nat)
    requires StatusOk(t, ps, s)
  {
    && NameOf(ps, s) == name
    && ((kind == 1 && Word(t[s.status].value, 3) == Chars("installed"))
        || (kind == 3 && Word(t[s.status].value, 1) == Chars("install")))
  }

  /** When a package meets a dependency as it stands in a control file: it has the name and
      its version stands in the relation that the operator names, or it provides the name. */
  predicate Serves(t: Slots, p: Package, d: Dep, atoi: Text -> int)
    requires PackageOk(t, p) && d.operator.Known?
  {
    var o := VersionOrder(Parts(t[p.version].value, atoi), Parts(d.version, atoi));
    var c := d.operator.code;
    || (t[p.name].value == d.name
        && (c == 6 || (c == 1 && o == 0) || (c == 2 && o < 0) || (c == 3 && o <= 0) || (c == 4 && o > 0)
            || (c == 5 && o >= 0)))
    || exists j :: 0 <= j < |p.edges| && p.edges[j].kind == 7 && Numbers(t, p.edges[j].name, d.name)
  }

  lemma ServesIs(t: Slots, p: Package, d: Dep, atoi: Text -> int)
    requires PackageOk(t, p) && d.operator.Known?
    ensures (Fits(t, p, d, atoi) || Offers(t, p, d.name)) == Serves(t, p, d, atoi)
  {
    hide VersionOrder, Related, Parts, Numbers;
    OperatorsMean(Parts(t[p.version].value, atoi), Parts(d.version, atoi));
  }

  lemma InStateIs(t: Slots, ps: Packages, ss: Statuses, name: nat, kind: nat)
    requires StatusesOk(t, ps, ss)
    ensures NameSatisfies(t, ps, ss, name, kind) <==>
      exists r :: 0 <= r < STATUS_PRIME && ss[r].Some? && InState(t, ps, ss[r].value, name, kind)
  {
    hide Word, Reached, Home, INSTALL, INSTALLED;
    InstallTexts();
  }

  /** What meets a dependency: a package that serves, with a state that the kind asks for. */
  lemma DepMetMeans(t: Slots, ps: Packages, ss: Statuses, d: Dep, kind: nat, atoi: Text -> int)
    requires PackagesOk(t, ps) && StatusesOk(t, ps, ss) && d.operator.Known?
    ensures DepMet(t, ps, ss, d, kind, atoi) <==> exists q, r ::
      0 <= q < PACKAGE_PRIME && ps[q].Some? && Serves(t, ps[q].value, d, atoi)
      && 0 <= r < STATUS_PRIME && ss[r].Some? && InState(t, ps, ss[r].value, ps[q].value.name, kind)
  {
    hide Serves, InState, Fits, Offers, NameSatisfies, PackageOk, StatusOk, Reached, Home;
    forall q | 0 <= q < PACKAGE_PRIME && ps[q].Some?
      ensures (Fits(t, ps[q].value, d, atoi) || Offers(t, ps[q].value, d.name)) == Serves(t, ps[q].value, d, atoi)
      ensures NameSatisfies(t, ps, ss, ps[q].value.name, kind) <==>
        exists r :: 0 <= r < STATUS_PRIME && ss[r].Some? && InState(t, ps, ss[r].value, ps[q].value.name, kind)
    {
      ServesIs(t, ps[q].value, d, atoi);
      InStateIs(t, ps, ss, ps[q].value.name, kind);
    }
  }

  /** A package is wanted for install if the first word of its state says so. */
  lemma WantedMeans(t: Slots, ps: Packages, ss: Statuses, q: nat)
    requires StatusesOk(t, ps, ss) && q < |ps|
    ensures Wanted(t, ps, ss, q) <==>
      (ps[q].Some? &&
       exists r :: 0 <= r < STATUS_PRIME && ss[r].Some? && InState(t, ps, ss[r].value, ps[q].value.name, 3))
  {
    hide NameSatisfies, Word, Reached, Home;
    if ps[q].Some? { InStateIs(t, ps, ss, ps[q].value.name, 3); }
  }

  predicate AllKnown(c: Clause) {
    match c
    case One(d) => d.operator.Known?
    case Or(_, ds) => forall k :: 0 <= k < |ds| ==> ds[k].operator.Known?
  }

  /** One of the alternatives of a dependency is met. */
  ghost predicate ClauseMet(t: Slots, ps: Packages, ss: Statuses, kc: KindClause, atoi: Text -> int)
    requires PackagesOk(t, ps) && StatusesOk(t, ps, ss) && AllKnown(kc.clause)
  {
    match kc.clause
    case One(d) => HasClauses(kc.kind) ==> DepMet(t, ps, ss, d, kc.kind, atoi)
    case Or(_, ds) => exists k :: 0 <= k < |ds| && DepMet(t, ps, ss, ds[k], kc.kind, atoi)
  }

  /** Equal numbers are equal texts. */
  lemma SameText(t: Slots, m: nat, n: nat, text: Text)
    requires Placed(t) && Named(t, m) && Numbers(t, n, text)
    ensures m == n <==> t[m].value == text
  {
    hide Placed;
    OnePlace(t, m, n);
  }

  lemma FitsIsMatches(t: Slots, p: Package, e: Edge, d: Dep, kind: nat, atoi: Text -> int)
    requires Placed(t) && PackageOk(t, p) && ShowsDep(t, e, d, kind) && d.operator.Known?
    ensures Matches(t, p, e.name, e.version, e.operator, atoi) == Fits(t, p, d, atoi)
    ensures Provides(p, e.name) == Offers(t, p, d.name)
  {
    hide Placed, Related, Parts;
    SameText(t, p.name, e.name, d.name);
    forall j | 0 <= j < |p.edges| ensures p.edges[j].name == e.name <==> Numbers(t, p.edges[j].name, d.name) {
      assert Named(t, p.edges[j].name);
      SameText(t, p.edges[j].name, e.name, d.name);
    }
  }

  lemma PackageAt(t: Slots, ps: Packages, q: nat)
    requires PackagesOk(t, ps) && q < PACKAGE_PRIME && ps[q].Some?
    ensures PackageOk(t, ps[q].value)
  {}

  lemma DepMetIs(t: Slots, ps: Packages, ss: Statuses, e: Edge, d: Dep, kind: nat, atoi: Text -> int)
    requires Placed(t) && PackagesOk(t, ps) && StatusesOk(t, ps, ss)
    requires ShowsDep(t, e, d, kind) && d.operator.Known?
    ensures EdgeOk(t, e) && Satisfied(t, ps, ss, e, atoi) == DepMet(t, ps, ss, d, kind, atoi)
  {
    hide Placed, StatusesOk, NameSatisfies, Matches, Fits, Provides, Offers, Reached;
    forall q | 0 <= q < PACKAGE_PRIME && ps[q].Some?
      ensures Matches(t, ps[q].value, e.name, e.version, e.operator, atoi) == Fits(t, ps[q].value, d, atoi)
      ensures Provides(ps[q].value, e.name) == Offers(t, ps[q].value, d.name)
    {
      PackageAt(t, ps, q);
      FitsIsMatches(t, ps[q].value, e, d, kind, atoi);
    }
  }

  /** What the check asks of a group of edges is what the clause asks for. */
  lemma MetIsClauseMet(t: Slots, ps: Packages, ss: Statuses, g: Group, kc: KindClause, atoi: Text -> int)
    requires Placed(t) && PackagesOk(t, ps) && StatusesOk(t, ps, ss)
    requires Shows(t, g, kc.clause, kc.kind) && AllEdgesOk(t, g) && AllKnown(kc.clause)
    ensures Met(t, ps, ss, g, atoi) == ClauseMet(t, ps, ss, kc, atoi)
  {
    hide Placed, PackagesOk, StatusesOk, Satisfied, DepMet, ShowsDep;
    match kc.clause
    case One(d) =>
      DepMetIs(t, ps, ss, g.edge, d, kc.kind, atoi);
      KindShown(t, g.edge, d, kc.kind);
    case Or(_, ds) =>
      forall k | 0 <= k < |ds| ensures Satisfied(t, ps, ss, g.others[k], atoi)
          == DepMet(t, ps, ss, ds[k], kc.kind, atoi) {
        DepMetIs(t, ps, ss, g.others[k], ds[k], kc.kind, atoi);
      }
  }

  lemma KindShown(t: Slots, e: Edge, d: Dep, kind: nat)
    requires ShowsDep(t, e, d, kind)
    ensures e.kind == kind
  {}

  // ---------- the verdict ----------

  /** The package has the clauses of the fields for its edges. */
  ghost predicate FilledFrom(t: Slots, p: Package, fields: seq<Field>) {
    exists gs :: EdgesShow(t, p.edges, gs, Clauses(fields))
  }

  ghost function GroupsFor(t: Slots, p: Option<Package>, fields: seq<Field>): (gs: seq<Group>)
    requires p.Some? ==> FilledFrom(t, p.value, fields)
    ensures p.Some? ==> EdgesShow(t, p.value.edges, gs, Clauses(fields))
  {
    if p.None? then []
    else
      var gs :| EdgesShow(t, p.value.edges, gs, Clauses(fields));
      gs
  }

  /** Every package in the table was filled from its fields, and their operators are known. */
  ghost predicate AllFilled(t: Slots, ps: Packages, fieldss: seq<seq<Field>>) {
    && |fieldss| == |ps|
    && forall q :: 0 <= q < |ps| && ps[q].Some? ==> FilledFrom(t, ps[q].value, fieldss[q]) && KnownFields(fieldss[q])
  }

  predicate KnownFields(fields: seq<Field>) {
    forall k :: 0 <= k < |Clauses(fields)| ==> AllKnown(Clauses(fields)[k].clause)
  }

  /** All clauses of the fields are met. */
  ghost predicate FieldsMet(t: Slots, ps: Packages, ss: Statuses, fields: seq<Field>, atoi: Text -> int)
    requires PackagesOk(t, ps) && StatusesOk(t, ps, ss) && KnownFields(fields)
  {
    forall k :: 0 <= k < |Clauses(fields)| ==> ClauseMet(t, ps, ss, Clauses(fields)[k], atoi)
  }

  lemma MetIsFieldsMet(t: Slots, ps: Packages, ss: Statuses, es: seq<Edge>, gs: seq<Group>, fields: seq<Field>,
      atoi: Text -> int)
    requires Placed(t) && PackagesOk(t, ps) && StatusesOk(t, ps, ss)
    requires EdgesShow(t, es, gs, Clauses(fields)) && KnownFields(fields)
    requires forall k :: 0 <= k < |gs| ==> AllEdgesOk(t, gs[k])
    ensures MetUpTo(t, ps, ss, gs, |gs|, atoi) == FieldsMet(t, ps, ss, fields, atoi)
  {
    hide Placed, PackagesOk, StatusesOk, Met, ClauseMet, AllKnown, Clauses, Shows, AllEdgesOk, GroupOk, Flatten;
    forall k | 0 <= k < |gs| ensures Met(t, ps, ss, gs[k], atoi) == ClauseMet(t, ps, ss, Clauses(fields)[k], atoi) {
      MetIsClauseMet(t, ps, ss, gs[k], Clauses(fields)[k], atoi);
    }
  }

  /** For every package that is wanted for install, every clause of its dependency fields has
      an alternative that is met. */
  ghost predicate AllMet(t: Slots, ps: Packages, ss: Statuses, fieldss: seq<seq<Field>>, atoi: Text -> int)
    requires PackagesOk(t, ps) && StatusesOk(t, ps, ss) && AllFilled(t, ps, fieldss)
  {
    forall q :: 0 <= q < PACKAGE_PRIME && Wanted(t, ps, ss, q) ==> FieldsMet(t, ps, ss, fieldss[q], atoi)
  }

  /** Groups of edges for all packages. */
  lemma GroupsForAll(t: Slots, ps: Packages, fieldss: seq<seq<Field>>) returns (gss: seq<seq<Group>>)
    requires AllFilled(t, ps, fieldss)
    ensures Grouped(t, ps, gss)
    ensures forall q :: 0 <= q < |ps| && ps[q].Some? ==> EdgesShow(t, ps[q].value.edges, gss[q], Clauses(fieldss[q]))
  {
    hide EdgesShow, FilledFrom, Clauses, KnownFields, Flatten, GroupOk, AllEdgesOk;
    gss := seq(|ps|, q requires 0 <= q < |ps| => GroupsFor(t, ps[q], fieldss[q]));
    forall q | 0 <= q < |ps| && ps[q].Some?
      ensures ps[q].value.edges == Flatten(gss[q])
      ensures forall k :: 0 <= k < |gss[q]| ==> GroupOk(gss[q][k]) && AllEdgesOk(t, gss[q][k])
    {
      ShownGroups(t, ps[q].value.edges, gss[q], Clauses(fieldss[q]));
    }
  }

  lemma OneVerdict(t: Slots, ps: Packages, ss: Statuses, gss: seq<seq<Group>>, fieldss: seq<seq<Field>>, q: nat,
      atoi: Text -> int)
    requires Placed(t) && PackagesOk(t, ps) && StatusesOk(t, ps, ss) && AllFilled(t, ps, fieldss) && Grouped(t, ps, gss)
    requires q < PACKAGE_PRIME && (ps[q].Some? ==> EdgesShow(t, ps[q].value.edges, gss[q], Clauses(fieldss[q])))
    ensures PackageMet(t, ps, ss, gss, q, atoi) <==> (Wanted(t, ps, ss, q) ==> FieldsMet(t, ps, ss, fieldss[q], atoi))
  {
    hide Placed, Reached, PackageOk, StatusesOk, EdgesShow, FieldsMet, MetUpTo, FilledFrom, KnownFields, NameSatisfies;
    if ps[q].Some? {
      MetIsFieldsMet(t, ps, ss, ps[q].value.edges, gss[q], fieldss[q], atoi);
    }
  }

  lemma Verdict(t: Slots, ps: Packages, ss: Statuses, gss: seq<seq<Group>>, fieldss: seq<seq<Field>>, atoi: Text -> int)
    requires Placed(t) && PackagesOk(t, ps) && StatusesOk(t, ps, ss) && AllFilled(t, ps, fieldss) && Grouped(t, ps, gss)
    requires forall q :: 0 <= q < |ps| && ps[q].Some? ==> EdgesShow(t, ps[q].value.edges, gss[q], Clauses(fieldss[q]))
    ensures (forall q :: 0 <= q < PACKAGE_PRIME ==> PackageMet(t, ps, ss, gss, q, atoi)) <==>
        AllMet(t, ps, ss, fieldss, atoi)
  {
    hide Placed, StatusesOk, EdgesShow, FieldsMet, PackageMet, FilledFrom, KnownFields, NameSatisfies, Grouped,
        Reached, PackageOk;
    forall q | 0 <= q < PACKAGE_PRIME
      ensures PackageMet(t, ps, ss, gss, q, atoi) <==> (Wanted(t, ps, ss, q) ==> FieldsMet(t, ps, ss, fieldss[q], atoi))
    {
      OneVerdict(t, ps, ss, gss, fieldss, q, atoi);
    }
  }

  /** check_deps(), in terms of the texts of the packages: it finishes without dying exactly
      when all clauses of all packages wanted for install are met. */
  method CheckDeps(d: Dpkg, ghost t: Slots, ghost fieldss: seq<seq<Field>>, ghost words: set<Text>) returns (ok: bool)
    requires Placed(t) && d.Valid(t) && d.Roomy(t, words) && AllFilled(t, d.packages[..], fieldss)
    modifies d.names.slots
    ensures d.Valid(t) && d.Roomy(t, words)
    ensures ok <==> AllMet(t, d.packages[..], d.statuses[..], fieldss, d.atoi)
  {
    hide Placed, PackagesOk, StatusesOk, SomeFree, Dpkg.Roomy, EdgesShow, AllMet, AllFilled, Grouped, PackageMet;
    Lengths(d, t);
    ghost var gss := GroupsForAll(t, d.packages[..], fieldss);
    Verdict(t, d.packages[..], d.statuses[..], gss, fieldss, d.atoi);
    ok := CheckDependencies(d, t, gss, words);
  }

  lemma ShownGroups(t: Slots, es: seq<Edge>, gs: seq<Group>, kcs: seq<KindClause>)
    requires EdgesShow(t, es, gs, kcs)
    ensures es == Flatten(gs) && forall k :: 0 <= k < |gs| ==> GroupOk(gs[k]) && AllEdgesOk(t, gs[k])
  {}

  // ---------- the whole of fill_package_struct() ----------

  /** Texts keep their numbers, so whatever was in order stays in order. */
  lemma TablesLater(t: Slots, u: Slots, ps: Packages, ss: Statuses)
    requires Extends(t, u) && PackagesOk(t, ps) && StatusesOk(t, ps, ss)
    ensures PackagesOk(u, ps) && StatusesOk(u, ps, ss)
  {
    hide Reached, Home;
  }

  lemma FilledLater(t: Slots, u: Slots, ps: Packages, fieldss: seq<seq<Field>>)
    requires Extends(t, u) && AllFilled(t, ps, fieldss)
    ensures AllFilled(u, ps, fieldss)
  {
    hide Extends, EdgesShow, Clauses, KnownFields;
    forall q | 0 <= q < |ps| && ps[q].Some? ensures FilledFrom(u, ps[q].value, fieldss[q]) {
      var gs :| EdgesShow(t, ps[q].value.edges, gs, Clauses(fieldss[q]));
      EdgesStay(t, u, ps[q].value.edges, gs, Clauses(fieldss[q]));
    }
  }

  lemma {:induction false} GroupNames(t: Slots, gs: seq<Group>, kcs: seq<KindClause>)
    requires ShowsKinds(t, gs, kcs) && GroupsOk(t, gs)
    ensures forall e :: e in Flatten(gs) ==> Named(t, e.name)
    decreases |gs|
  {
    if gs != [] {
      var n := |gs| - 1;
      assert Shows(t, gs[n], kcs[n].clause, kcs[n].kind) && AllEdgesOk(t, gs[n]);
      forall e | e in EdgesOf(gs[n]) ensures Named(t, e.name) {}
      GroupNames(t, gs[..n], kcs[..n]);
    }
  }

  lemma FilledIsNamed(t: Slots, p: Package, gs: seq<Group>, kcs: seq<KindClause>)
    requires Named(t, p.name) && Named(t, p.version) && EdgesShow(t, p.edges, gs, kcs)
    ensures PackageOk(t, p)
  {
    GroupNames(t, gs, kcs);
  }

  lemma OneMoreFilled(t: Slots, ps: Packages, fieldss: seq<seq<Field>>, q: nat, p: Package, fields: seq<Field>,
      gs: seq<Group>)
    requires AllFilled(t, ps, fieldss) && q < |ps| && EdgesShow(t, p.edges, gs, Clauses(fields)) && KnownFields(fields)
    ensures AllFilled(t, ps[q := Some(p)], fieldss[q := fields])
  {
    hide EdgesShow, KnownFields, Clauses;
    assert FilledFrom(t, p, fields);
  }

  /** What becomes of a control record: a package in the table, nothing without a version, or
      the end of the program at a field or for want of a name. */
  datatype Result = Stored(num: nat) | NoVersion | Ended(outcome: Outcome) | NoName

  /** fill_package_struct(): the package takes the place of one with the same name and an equal
      version, or a free slot, and all the packages in the table remain filled from fields. */
  method FillPackageStruct(d: Dpkg, ghost t: Slots, controls: seq<Control>, ghost fieldss: seq<seq<Field>>,
      ghost words: set<Text>)
    returns (r: Result)
    requires d.Valid(t) && RoomFor(d.names.slots[..], words) && UNKNOWN in words
    requires forall i :: 0 <= i < |controls| ==> FieldOk(FieldOf(controls[i]), words)
    requires AllFilled(t, d.packages[..], fieldss) && KnownFields(FieldsOf(controls))
    requires exists q, r ::
      0 <= q < r < PACKAGE_PRIME && r < d.packages.Length && d.packages[q].None? && d.packages[r].None?
    modifies d.names.slots, d.packages
    ensures Extends(old(d.names.slots[..]), d.names.slots[..]) && d.Valid(d.names.slots[..])
    ensures RoomFor(d.names.slots[..], words)
    ensures r.Ended? <==> !FieldsEnd(FieldsOf(controls)).Added?
    ensures r.Ended? ==> r.outcome == FieldsEnd(FieldsOf(controls))
    ensures r.NoVersion? <==> FieldsEnd(FieldsOf(controls)).Added? && VersionOf(FieldsOf(controls)) == UNKNOWN
    ensures r.NoName? <==>
      (FieldsEnd(FieldsOf(controls)).Added? && VersionOf(FieldsOf(controls)) != UNKNOWN
       && NameOfFields(FieldsOf(controls)).None? && !Named(d.names.slots[..], 0))
    ensures !r.Stored? ==> d.packages[..] == old(d.packages[..])
    ensures r.Stored? ==> r.num < PACKAGE_PRIME && d.packages[r.num].Some?
    ensures r.Stored? ==> d.packages[..] == old(d.packages[..])[r.num := d.packages[r.num]]
    ensures r.Stored? ==> AllFilled(d.names.slots[..], d.packages[..], fieldss[r.num := FieldsOf(controls)])
    ensures r.Stored? ==> Numbers(d.names.slots[..], d.packages[r.num].value.version, VersionOf(FieldsOf(controls)))
    ensures r.Stored? && NameOfFields(FieldsOf(controls)).Some? ==>
      Numbers(d.names.slots[..], d.packages[r.num].value.name, NameOfFields(FieldsOf(controls)).value)
  {
    hide Placed, RoomFor, Extends, PackagesOk, StatusesOk, SomeFree, EdgesShow, AllFilled, VersionOf, NameOfFields,
        FieldsEnd, Clauses, KnownFields, FieldOk, Numbers, PackageOk, Named, Matches;
    Lengths(d, t);
    ghost var fields := FieldsOf(controls);
    ghost var t1, ps := d.names.slots[..], d.packages[..];
    var outcome, name, version, edges;
    ghost var gs;
    outcome, name, version, edges, gs := FillFields(d.names, controls, words);
    ghost var u1 := d.names.slots[..];
    ExtendsTransitive(t, t1, u1);
    TablesLater(t, u1, ps, d.statuses[..]);
    FilledLater(t, u1, ps, fieldss);
    Unchanged(u1);
    if !outcome.Added? {
      return Ended(outcome);
    }
    UnknownIsAscii();
    var unknown := NumberText(d.names, UNKNOWN, words);
    ghost var u := d.names.slots[..];
    ExtendsTransitive(t1, u1, u);
    TablesLater(u1, u, ps, d.statuses[..]);
    FilledLater(u1, u, ps, fieldss);
    Unchanged(u);
    StillNumbers(u1, u, version, VersionOf(fields));
    NumbersTell(u, version, unknown, VersionOf(fields), UNKNOWN);
    EdgesStay(u1, u, edges, gs, Clauses(fields));
    if version == unknown {
      return NoVersion;
    }
    NamesHaveSlots(u);
    match NameOfFields(fields) {
      case Some(n) => StillNumbers(u1, u, name, n); NumbersNamed(u, name, n);
      case None => NamedFirst(u);
    }
    if d.names.slots[name].None? {
      return NoName;
    }
    NumbersNamed(u, version, VersionOf(fields));
    var node := Package(name, version, edges);
    FilledIsNamed(u, node, gs, Clauses(fields));
    var num := d.StorePackage(u, node);
    OneMoreFilled(u, ps, fieldss, num, node, fields, gs);
    r := Stored(num);
  }

  lemma NamesHaveSlots(t: Slots)
    requires Placed(t)
    ensures |t| == NAME_PRIME + 1
  {}

  lemma NamedFirst(t: Slots)
    requires |t| == NAME_PRIME + 1
    ensures Named(t, 0) <==> t[0].Some?
  {}

  lemma NumbersNamed(t: Slots, n: nat, text: Text)
    requires Numbers(t, n, text)
    ensures Named(t, n) && n < |t| && t[n].Some?
  {}

  lemma NumbersTell(t: Slots, m: nat, n: nat, a: Text, b: Text)
    requires Placed(t) && Numbers(t, m, a) && Numbers(t, n, b)
    ensures m == n <==> a == b
  {
    hide Placed;
    OnePlace(t, m, n);
  }
}
