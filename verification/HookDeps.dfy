/**
 The dependency contract of hook packages. `migrateHookDependencyContract` rewrites a manifest so that
 it meets the contract, and `findForbiddenHookDeps` checks a manifest against it; the two are written
 separately, and what one establishes is what the other tests, up to versions that are null.
 */
module HookDeps {
  import opened Wrappers
  import opened OrderedSet

  datatype Section = Dependencies | DevDependencies | PeerDependencies

  /** A version as the manifest has it; JSON allows a null there. */
  datatype Version = Null | Range(text: string)

  type Deps = map<string, Version>

  /** The dependency sections of a package manifest; one may be missing, or null. */
  datatype Manifest = Manifest(
    dependencies: Option<Deps>, devDependencies: Option<Deps>, peerDependencies: Option<Deps>)

  const SECTIONS := [Dependencies, DevDependencies, PeerDependencies]
  const FORBIDDEN := ["axios", "rxjs", "lodash", "mocha", "chai", "ts-node", "typescript"]
  const SCOPE := "@researchdatabox/"
  const CORE := "@researchdatabox/redbox-core"
  const TOOLS := "@researchdatabox/redbox-dev-tools"
  const ANY := Range("*")

  function AllowedShared(section: Section): set<string> {
    match section
    case Dependencies => {}
    case DevDependencies => {CORE, TOOLS}
    case PeerDependencies => {CORE}
  }

  predicate IsForbiddenShared(section: Section, name: string) {
    SCOPE <= name && name !in AllowedShared(section)
  }

  function DepsOf(pkg: Manifest, section: Section): Deps {
    var deps := match section
      case Dependencies => pkg.dependencies
      case DevDependencies => pkg.devDependencies
      case PeerDependencies => pkg.peerDependencies;
    if deps.Some? then deps.value else map[]
  }

  /** `deps[name] ?? fallback`. */
  function OrElse(deps: Deps, name: string, fallback: Version): Version {
    if name in deps && deps[name] != Null then deps[name] else fallback
  }

  // ---------- The migration ----------

  /** The entries of a section that stay. */
  function Kept(pkg: Manifest, section: Section): Deps {
    map name | name in DepsOf(pkg, section) && !IsForbiddenShared(section, name) && name !in FORBIDDEN
      :: DepsOf(pkg, section)[name]
  }

  function Migrated(pkg: Manifest): Manifest {
    var peer := Kept(pkg, PeerDependencies);
    var peer' := peer[CORE := OrElse(peer, CORE, ANY)];
    var dev := Kept(pkg, DevDependencies);
    var dev' := dev[CORE := OrElse(dev, CORE, peer'[CORE])];
    Manifest(Some(Kept(pkg, Dependencies)), Some(dev'[TOOLS := OrElse(dev', TOOLS, ANY)]), Some(peer'))
  }

  ghost predicate IsWithout(rest: Deps, deps: Deps, names: seq<string>) {
    && (forall name :: name in rest <==> name in deps && name !in names)
    && (forall name :: name in rest ==> rest[name] == deps[name])
  }

  ghost predicate IsUnshared(section: Section, rest: Deps, deps: Deps) {
    && (forall name :: name in rest <==> name in deps && !IsForbiddenShared(section, name))
    && (forall name :: name in rest ==> rest[name] == deps[name])
  }

  method DropForbiddenShared(section: Section, deps: Deps) returns (rest: Deps)
    ensures IsUnshared(section, rest, deps)
  {
    rest := deps;
    var names := deps.Keys;
    while names != {}
      invariant names <= deps.Keys
      invariant rest == map name | name in deps && (name in names || !IsForbiddenShared(section, name)) :: deps[name]
      decreases |names|
    {
      var name :| name in names;
      if IsForbiddenShared(section, name) {
        rest := rest - {name};
      }
      names := names - {name};
    }
  }

  method DeleteForbidden(sections: map<Section, Deps>) returns (next: map<Section, Deps>)
    requires sections.Keys == {Dependencies, DevDependencies, PeerDependencies}
    ensures next.Keys == sections.Keys
    ensures forall section :: section in sections ==> IsWithout(next[section], sections[section], FORBIDDEN)
  {
    hide FORBIDDEN;
    next := sections;
    for i := 0 to |FORBIDDEN|
      invariant next.Keys == sections.Keys
      invariant forall section :: section in sections ==> IsWithout(next[section], sections[section], FORBIDDEN[..i])
    {
      assert FORBIDDEN[..i + 1] == FORBIDDEN[..i] + [FORBIDDEN[i]];
      next := next[Dependencies := next[Dependencies] - {FORBIDDEN[i]}];
      next := next[DevDependencies := next[DevDependencies] - {FORBIDDEN[i]}];
      next := next[PeerDependencies := next[PeerDependencies] - {FORBIDDEN[i]}];
    }
    assert FORBIDDEN[..|FORBIDDEN|] == FORBIDDEN;
  }

  method DropShared(pkg: Manifest) returns (next: map<Section, Deps>)
    ensures next.Keys == {Dependencies, DevDependencies, PeerDependencies}
    ensures forall section :: section in next ==> IsUnshared(section, next[section], DepsOf(pkg, section))
  {
    hide IsForbiddenShared;
    next := map[
      Dependencies := DepsOf(pkg, Dependencies),
      DevDependencies := DepsOf(pkg, DevDependencies),
      PeerDependencies := DepsOf(pkg, PeerDependencies)
    ];
    for s := 0 to |SECTIONS|
      invariant next.Keys == {Dependencies, DevDependencies, PeerDependencies}
      invariant forall t :: 0 <= t < s ==> IsUnshared(SECTIONS[t], next[SECTIONS[t]], DepsOf(pkg, SECTIONS[t]))
      invariant forall t :: s <= t < |SECTIONS| ==> next[SECTIONS[t]] == DepsOf(pkg, SECTIONS[t])
    {
      var rest := DropForbiddenShared(SECTIONS[s], next[SECTIONS[s]]);
      next := next[SECTIONS[s] := rest];
    }
    assert SECTIONS[0] == Dependencies && SECTIONS[1] == DevDependencies && SECTIONS[2] == PeerDependencies;
  }

  method MigrateHookDependencyContract(pkg: Manifest) returns (next: Manifest)
    ensures next == Migrated(pkg)
  {
    hide FORBIDDEN, IsForbiddenShared, CORE, TOOLS;
    var unshared := DropShared(pkg);
    var sections := DeleteForbidden(unshared);
    assert forall section :: section in sections ==> sections[section] == Kept(pkg, section);
    var dev, peer := sections[DevDependencies], sections[PeerDependencies];
    peer := peer[CORE := OrElse(peer, CORE, ANY)];
    dev := dev[CORE := OrElse(dev, CORE, peer[CORE])];
    dev := dev[TOOLS := OrElse(dev, TOOLS, ANY)];
    next := Manifest(Some(sections[Dependencies]), Some(dev), Some(peer));
  }

  // ---------- The checker ----------

  datatype Finding = Finding(section: Section, name: string)

  predicate FlaggedIn(section: Section, deps: Deps, name: string, forbidden: seq<string>) {
    name in deps && (IsForbiddenShared(section, name) || (name in forbidden && deps[name] != Null))
  }

  predicate Flagged(pkg: Manifest, section: Section, name: string) {
    FlaggedIn(section, DepsOf(pkg, section), name, FORBIDDEN)
  }

  /** The names that are forbidden as shared ones, in the order of the section's keys. */
  function SharedFindings(section: Section, names: seq<string>): seq<Finding> {
    if names == [] then [] else
      var before, last := SharedFindings(section, names[..|names| - 1]), names[|names| - 1];
      if IsForbiddenShared(section, last) then before + [Finding(section, last)] else before
  }

  /** The listed names that the section has with a version, in the order of the list. */
  function ListedFindings(section: Section, deps: Deps, names: seq<string>): seq<Finding> {
    if names == [] then [] else
      var before, last := ListedFindings(section, deps, names[..|names| - 1]), names[|names| - 1];
      if last in deps && deps[last] != Null then before + [Finding(section, last)] else before
  }

  /** The findings of the given sections; `keys` is the order in which each section lists its names. */
  function FindingsOf(pkg: Manifest, keys: map<Section, seq<string>>, sections: seq<Section>): seq<Finding>
    requires forall section :: section in keys
  {
    if sections == [] then [] else
      var before, last := FindingsOf(pkg, keys, sections[..|sections| - 1]), sections[|sections| - 1];
      before + SharedFindings(last, keys[last]) + ListedFindings(last, DepsOf(pkg, last), FORBIDDEN)
  }

  ghost predicate ListsKeys(pkg: Manifest, keys: map<Section, seq<string>>) {
    && (forall section :: section in keys)
    && (forall section :: NoRepeats(keys[section]))
    && (forall section, name :: name in keys[section] <==> name in DepsOf(pkg, section))
  }

  method FindForbiddenHookDeps(pkg: Manifest, keys: map<Section, seq<string>>) returns (findings: seq<Finding>)
    requires ListsKeys(pkg, keys)
    ensures findings == FindingsOf(pkg, keys, SECTIONS)
  {
    hide FORBIDDEN, IsForbiddenShared;
    findings := [];
    for s := 0 to |SECTIONS|
      invariant findings == FindingsOf(pkg, keys, SECTIONS[..s])
    {
      var section, deps := SECTIONS[s], DepsOf(pkg, SECTIONS[s]);
      ghost var earlier := findings;
      for k := 0 to |keys[section]|
        invariant findings == earlier + SharedFindings(section, keys[section][..k])
      {
        assert keys[section][..k + 1][..k] == keys[section][..k];
        if IsForbiddenShared(section, keys[section][k]) {
          findings := findings + [Finding(section, keys[section][k])];
        }
      }
      assert keys[section][..|keys[section]|] == keys[section];
      ghost var shared := findings;
      for i := 0 to |FORBIDDEN|
        invariant findings == shared + ListedFindings(section, deps, FORBIDDEN[..i])
      {
        assert FORBIDDEN[..i + 1][..i] == FORBIDDEN[..i];
        if FORBIDDEN[i] in deps && deps[FORBIDDEN[i]] != Null {
          findings := findings + [Finding(section, FORBIDDEN[i])];
        }
      }
      assert FORBIDDEN[..|FORBIDDEN|] == FORBIDDEN;
      assert SECTIONS[..s + 1][..s] == SECTIONS[..s];
    }
    assert SECTIONS[..|SECTIONS|] == SECTIONS;
  }

  // ---------- What the findings are ----------

  lemma {:induction false} SharedAre(section: Section, names: seq<string>)
    requires NoRepeats(names)
    ensures forall f :: f in SharedFindings(section, names) <==>
      f.section == section && f.name in names && IsForbiddenShared(section, f.name)
    ensures NoRepeats(SharedFindings(section, names))
  {
    hide IsForbiddenShared;
    if names != [] {
      var before, last := names[..|names| - 1], names[|names| - 1];
      SharedAre(section, before);
      assert names == before + [last] && last !in before;
    }
  }

  lemma {:induction false} ListedAre(section: Section, deps: Deps, names: seq<string>)
    requires NoRepeats(names)
    ensures forall f :: f in ListedFindings(section, deps, names) <==>
      f.section == section && f.name in names && f.name in deps && deps[f.name] != Null
    ensures NoRepeats(ListedFindings(section, deps, names))
  {
    if names != [] {
      var before, last := names[..|names| - 1], names[|names| - 1];
      ListedAre(section, deps, before);
      assert names == before + [last] && last !in before;
    }
  }

  lemma {:induction false} SectionFindingsAre(pkg: Manifest, keys: map<Section, seq<string>>, section: Section)
    requires ListsKeys(pkg, keys)
    ensures var shared, deps := SharedFindings(section, keys[section]), DepsOf(pkg, section);
      var found := shared + ListedFindings(section, deps, FORBIDDEN);
      && (forall f :: f in found <==> f.section == section && Flagged(pkg, section, f.name))
      && NoRepeats(found)
  {
    ForbiddenAreUnscoped();
    hide FORBIDDEN, IsForbiddenShared;
    SharedAre(section, keys[section]);
    ListedAre(section, DepsOf(pkg, section), FORBIDDEN);
    NoRepeatsBoth(SharedFindings(section, keys[section]), ListedFindings(section, DepsOf(pkg, section), FORBIDDEN));
  }

  lemma {:induction false} FindingsAre(pkg: Manifest, keys: map<Section, seq<string>>, sections: seq<Section>)
    requires ListsKeys(pkg, keys) && NoRepeats(sections)
    ensures forall f ::
      f in FindingsOf(pkg, keys, sections) <==> f.section in sections && Flagged(pkg, f.section, f.name)
    ensures NoRepeats(FindingsOf(pkg, keys, sections))
  {
    hide Flagged, SharedFindings, ListedFindings, FORBIDDEN;
    if sections != [] {
      var before, last := sections[..|sections| - 1], sections[|sections| - 1];
      FindingsAre(pkg, keys, before);
      SectionFindingsAre(pkg, keys, last);
      assert sections == before + [last] && last !in before;
      var found := SharedFindings(last, keys[last]) + ListedFindings(last, DepsOf(pkg, last), FORBIDDEN);
      NoRepeatsBoth(FindingsOf(pkg, keys, before), found);
      assert FindingsOf(pkg, keys, sections) == FindingsOf(pkg, keys, before) + found;
    }
  }

  /** Shared names are found in the order of the keys. */
  lemma {:induction false} SharedInOrder(section: Section, a: seq<string>, b: seq<string>)
    ensures SharedFindings(section, a + b) == SharedFindings(section, a) + SharedFindings(section, b)
    decreases |b|
  {
    hide IsForbiddenShared;
    if b == [] {
      assert a + b == a;
    } else {
      var n := |b| - 1;
      SharedInOrder(section, a, b[..n]);
      assert (a + b)[..|a| + n] == a + b[..n];
    }
  }

  /** The findings are exactly the flagged dependencies, each once. */
  lemma {:induction false} FindingsExactly(pkg: Manifest, keys: map<Section, seq<string>>, finding: Finding)
    requires ListsKeys(pkg, keys)
    ensures finding in FindingsOf(pkg, keys, SECTIONS) <==> Flagged(pkg, finding.section, finding.name)
    ensures NoRepeats(FindingsOf(pkg, keys, SECTIONS))
  {
    assert SECTIONS[0] == Dependencies && SECTIONS[1] == DevDependencies && SECTIONS[2] == PeerDependencies;
    var section := finding.section;
    assert section == Dependencies || section == DevDependencies || section == PeerDependencies;
    assert section in SECTIONS;
    hide FindingsOf, Flagged;
    FindingsAre(pkg, keys, SECTIONS);
  }

  /** The forbidden names are distinct, and none of them is in the shared scope. */
  lemma {:induction false} ForbiddenAreUnscoped()
    ensures NoRepeats(FORBIDDEN)
    ensures forall i :: 0 <= i < |FORBIDDEN| ==> !(SCOPE <= FORBIDDEN[i])
    ensures forall section, i :: 0 <= i < |FORBIDDEN| ==> !IsForbiddenShared(section, FORBIDDEN[i])
  {
    assert SCOPE[0] == '@';
    assert FORBIDDEN[0][0] == 'a' && FORBIDDEN[1][0] == 'r' && FORBIDDEN[2][0] == 'l' && FORBIDDEN[3][0] == 'm'
        && FORBIDDEN[4][0] == 'c' && FORBIDDEN[5][0] == 't' && FORBIDDEN[6][0] == 't';
    assert FORBIDDEN[5][1] == 's' && FORBIDDEN[6][1] == 'y';
  }

  lemma {:induction false} CoreIsScoped()
    ensures SCOPE <= CORE && SCOPE <= TOOLS && CORE != TOOLS
    ensures CORE !in FORBIDDEN && TOOLS !in FORBIDDEN
  {
    ForbiddenAreUnscoped();
    assert |CORE| != |TOOLS|;
  }

  // ---------- The contract ----------

  /** The entries that the migration fills in when they are missing. */
  predicate Supplied(section: Section, name: string) {
    (section == PeerDependencies && name == CORE) || (section == DevDependencies && (name == CORE || name == TOOLS))
  }

  lemma {:induction false} SuppliedAreAllowed(section: Section, name: string)
    requires Supplied(section, name)
    ensures !IsForbiddenShared(section, name) && name !in FORBIDDEN
  {
    CoreIsScoped();
  }

  lemma {:induction false} MigratedEntry(pkg: Manifest, section: Section, name: string)
    ensures name in DepsOf(Migrated(pkg), section) <==> name in Kept(pkg, section) || Supplied(section, name)
    ensures name in DepsOf(Migrated(pkg), section) && !Supplied(section, name) ==>
      DepsOf(Migrated(pkg), section)[name] == DepsOf(pkg, section)[name]
    ensures Supplied(section, name) ==>
      DepsOf(Migrated(pkg), section)[name] != Null
      && (name in DepsOf(pkg, section) && DepsOf(pkg, section)[name] != Null
          ==> DepsOf(Migrated(pkg), section)[name] == DepsOf(pkg, section)[name])
  {
    CoreIsScoped();
    if Supplied(section, name) {
      SuppliedAreAllowed(section, name);
    }
    hide FORBIDDEN, CORE, TOOLS, IsForbiddenShared;
  }

  /** After migrating, the checker finds nothing. */
  lemma {:induction false} MigratedIsClean(pkg: Manifest, section: Section, name: string)
    ensures !Flagged(Migrated(pkg), section, name)
  {
    MigratedEntry(pkg, section, name);
    if Supplied(section, name) {
      SuppliedAreAllowed(section, name);
    }
    hide FORBIDDEN, CORE, TOOLS, IsForbiddenShared;
  }

  /** Migrating twice is migrating once. */
  lemma {:induction false} MigrateTwice(pkg: Manifest)
    ensures Migrated(Migrated(pkg)) == Migrated(pkg)
  {
    hide FORBIDDEN, CORE, TOOLS, IsForbiddenShared;
    var once := Migrated(pkg);
    forall section ensures DepsOf(Migrated(once), section) == DepsOf(once, section) {
      forall name
        ensures name in DepsOf(Migrated(once), section) <==> name in DepsOf(once, section)
        ensures name in DepsOf(once, section) ==> DepsOf(Migrated(once), section)[name] == DepsOf(once, section)[name]
      {
        MigratedEntry(pkg, section, name);
        MigratedEntry(once, section, name);
        MigratedIsClean(pkg, section, name);
        if Supplied(section, name) {
          SuppliedAreAllowed(section, name);
        }
      }
    }
  }

  /** The dependency is in the migrated manifest under the same section with the same version. */
  ghost predicate Survives(pkg: Manifest, section: Section, name: string)
    requires name in DepsOf(pkg, section)
  {
    name in DepsOf(Migrated(pkg), section) && DepsOf(Migrated(pkg), section)[name] == DepsOf(pkg, section)[name]
  }

  /**
   A dependency keeps its section and version exactly when the checker would not flag it and it is not
   a null at a forbidden name or at one of the supplied entries.
   */
  lemma {:induction false} SurvivesExactly(pkg: Manifest, section: Section, name: string)
    requires name in DepsOf(pkg, section)
    ensures Survives(pkg, section, name) <==>
      !Flagged(pkg, section, name)
      && !(DepsOf(pkg, section)[name] == Null && (name in FORBIDDEN || Supplied(section, name)))
  {
    MigratedEntry(pkg, section, name);
    if Supplied(section, name) {
      SuppliedAreAllowed(section, name);
    }
    hide FORBIDDEN, CORE, TOOLS, IsForbiddenShared;
  }

  /** The checker reads a null version of a forbidden name as absent; the migration removes the entry all the same. */
  lemma {:induction false} NullVersionIsDropped()
    ensures var pkg := Manifest(Some(map["lodash" := Null]), None, None);
      !Flagged(pkg, Dependencies, "lodash") && "lodash" !in DepsOf(Migrated(pkg), Dependencies)
  {
    var pkg := Manifest(Some(map["lodash" := Null]), None, None);
    assert FORBIDDEN[2] == "lodash";
    ForbiddenAreUnscoped();
    MigratedEntry(pkg, Dependencies, "lodash");
  }

  /** Shared packages are forbidden, but for core as a development or peer dependency and the tools for development. */
  lemma {:induction false} SharedForbiddenExactly(section: Section, name: string)
    ensures IsForbiddenShared(section, name) <==>
      && "@researchdatabox/" <= name
      && !(name == "@researchdatabox/redbox-core" && section != Dependencies)
      && !(name == "@researchdatabox/redbox-dev-tools" && section == DevDependencies)
  {
  }

  function VersionOf(pkg: Manifest, section: Section, name: string): Version {
    if name in DepsOf(pkg, section) then DepsOf(pkg, section)[name] else Null
  }

  /** The supplied versions: what is there, else any for the peer core and tools, and the peer's for the dev core. */
  lemma {:induction false} SuppliedVersions(pkg: Manifest)
    ensures var next := Migrated(pkg);
      var peer, dev, tools := VersionOf(pkg, PeerDependencies, CORE), VersionOf(pkg, DevDependencies, CORE),
                              VersionOf(pkg, DevDependencies, TOOLS);
      && VersionOf(next, PeerDependencies, CORE) == (if peer != Null then peer else Range("*"))
      && VersionOf(next, DevDependencies, CORE) ==
           (if dev != Null then dev else if peer != Null then peer else Range("*"))
      && VersionOf(next, DevDependencies, TOOLS) == (if tools != Null then tools else Range("*"))
  {
    CoreIsScoped();
    SuppliedAreAllowed(PeerDependencies, CORE);
    SuppliedAreAllowed(DevDependencies, CORE);
    SuppliedAreAllowed(DevDependencies, TOOLS);
    hide FORBIDDEN, CORE, TOOLS, IsForbiddenShared;
  }
}
