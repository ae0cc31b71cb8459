/** When a release has a publication plan, said in terms of its records and the publish configuration alone. */
module PlanConditions {
  import opened Common
  import opened PublicationPlan
  import opened TopoSort
  import opened Finite
  import Versions

  /** Every directory and every name is defined once. */
  ghost predicate DefinedOnce(defs: seq<Definition>) {
    DistinctDirs(defs) && forall i, j :: 0 <= i < j < |defs| ==> defs[i].name != defs[j].name
  }

  ghost predicate DistinctDirs(defs: seq<Definition>) {
    forall i, j :: 0 <= i < j < |defs| ==> defs[i].dir != defs[j].dir
  }

  ghost predicate IsRecordOf(d: Definition, r: Record) {
    r.dir == d.dir && r.name == d.name
  }

  /** There is one record for each definition, and no other. */
  ghost predicate OneEach(defs: seq<Definition>, records: seq<Record>) {
    && DistinctNames(records)
    && (forall d :: d in defs ==> exists r :: r in records && IsRecordOf(d, r))
    && (forall r :: r in records ==> exists d :: d in defs && IsRecordOf(d, r))
  }

  /** All records have that version, and depend on each other at that version. */
  ghost predicate IsRelease(records: seq<Record>, version: string) {
    && Versions.IsReleaseVersion(version)
    && (forall r :: r in records ==> r.version == version)
    && (forall r, d :: r in records && d in r.internalDependencies ==> r.internalDependencies[d] == version && HasRecord(records, d))
  }

  ghost predicate DependsOn(r: Record, other: Record) {
    other.name in r.internalDependencies
  }

  /** Records each of which depends on the next, and the last one on the first. */
  ghost predicate IsCircle(records: seq<Record>, rs: seq<Record>) {
    |rs| > 0 && (forall r :: r in rs ==> r in records) &&
    (forall k :: 0 <= k < |rs| - 1 ==> DependsOn(rs[k], rs[k + 1])) && DependsOn(rs[|rs| - 1], rs[0])
  }

  ghost predicate Publishable(packages: seq<string>, defs: seq<Definition>, records: seq<Record>) {
    && multiset(packages) == multiset(Dirs(defs)) && DefinedOnce(defs)
    && records != [] && OneEach(defs, records)
    && (exists version :: IsRelease(records, version))
    && forall rs :: !IsCircle(records, rs)
  }

  // ---------------------------------------------------------------------- names and directories

  lemma {:induction false} NameIsDefined(defs: seq<Definition>, dir: string)
    ensures NameOf(defs, dir).Some? ==> Definition(dir, NameOf(defs, dir).value) in defs
    ensures NameOf(defs, dir).None? ==> forall i :: 0 <= i < |defs| ==> defs[i].dir != dir
  {
    if defs != [] && defs[|defs| - 1].dir != dir { NameIsDefined(defs[..|defs| - 1], dir); }
    if defs != [] && defs[|defs| - 1].dir == dir { assert defs[|defs| - 1] == Definition(dir, NameOf(defs, dir).value); }
  }

  lemma {:induction false} NameIs(defs: seq<Definition>, d: Definition)
    requires DistinctDirs(defs) && d in defs
    ensures NameOf(defs, d.dir) == Some(d.name)
  {
    NameIsDefined(defs, d.dir);
    var i :| 0 <= i < |defs| && defs[i] == d;
    assert defs[i].dir == d.dir;
    var e := Definition(d.dir, NameOf(defs, d.dir).value);
    var j :| 0 <= j < |defs| && defs[j] == e;
  }

  lemma {:induction false} SameMembers(packages: seq<string>, defs: seq<Definition>, dir: string)
    requires multiset(packages) == multiset(Dirs(defs))
    ensures dir in packages <==> exists i :: 0 <= i < |defs| && defs[i].dir == dir
  {
    assert dir in multiset(packages) <==> dir in packages;
    assert dir in multiset(Dirs(defs)) <==> dir in Dirs(defs);
    if dir in Dirs(defs) {
      var i :| 0 <= i < |Dirs(defs)| && Dirs(defs)[i] == dir;
      assert defs[i].dir == dir;
    }
    if i :| 0 <= i < |defs| && defs[i].dir == dir { assert Dirs(defs)[i] == dir; }
  }

  ghost predicate NoneTwice(s: seq<string>) {
    forall j, k :: 0 <= j < k < |s| ==> s[j] != s[k]
  }

  lemma {:induction false} Twice(s: seq<string>, j: nat, k: nat)
    requires j < k < |s| && s[j] == s[k]
    ensures multiset(s)[s[j]] >= 2
  {
    assert s == s[..k] + s[k..];
    assert s[..k][j] in multiset(s[..k]) && s[k..][0] in multiset(s[k..]);
  }

  lemma {:induction false} Once(s: seq<string>, x: string)
    requires NoneTwice(s)
    ensures multiset(s)[x] <= 1
  {
    if x in s {
      var k :| 0 <= k < |s| && s[k] == x;
      assert s == s[..k] + [x] + s[k + 1..];
      assert x !in s[..k] && x !in s[k + 1..];
    }
  }

  lemma {:induction false} NoneTwiceEither(a: seq<string>, b: seq<string>)
    requires multiset(a) == multiset(b) && NoneTwice(a)
    ensures NoneTwice(b)
  {
    forall j, k | 0 <= j < k < |b| ensures b[j] != b[k] {
      if b[j] == b[k] {
        Twice(b, j, k);
        Once(a, b[j]);
      }
    }
  }

  // ---------------------------------------------------------------------- what is publishable has a plan

  lemma {:induction false} DefinedAt(packages: seq<string>, defs: seq<Definition>, i: nat) returns (d: Definition)
    requires multiset(packages) == multiset(Dirs(defs)) && DistinctDirs(defs) && i < |packages|
    ensures d in defs && d.dir == packages[i] && NameOf(defs, packages[i]) == Some(d.name)
  {
    SameMembers(packages, defs, packages[i]);
    var j :| 0 <= j < |defs| && defs[j].dir == packages[i];
    d := defs[j];
    NameIs(defs, d);
  }

  lemma {:induction false} PackageAt(packages: seq<string>, defs: seq<Definition>, d: Definition) returns (i: nat)
    requires multiset(packages) == multiset(Dirs(defs)) && d in defs
    ensures i < |packages| && packages[i] == d.dir
  {
    SameMembers(packages, defs, d.dir);
    var j :| 0 <= j < |defs| && defs[j] == d;
    assert defs[j].dir == d.dir;
    i :| 0 <= i < |packages| && packages[i] == d.dir;
  }

  lemma {:induction false} DifferentNames(packages: seq<string>, defs: seq<Definition>, i: nat, j: nat)
    requires multiset(packages) == multiset(Dirs(defs)) && DefinedOnce(defs) && i < j < |packages|
    ensures NameOf(defs, packages[i]) != NameOf(defs, packages[j])
  {
    hide NameOf;
    assert NoneTwice(Dirs(defs));
    NoneTwiceEither(Dirs(defs), packages);
    var d := DefinedAt(packages, defs, i);
    var e := DefinedAt(packages, defs, j);
    var k :| 0 <= k < |defs| && defs[k] == d;
    var l :| 0 <= l < |defs| && defs[l] == e;
    assert k != l;
  }

  lemma {:induction false} IsConsistent(packages: seq<string>, defs: seq<Definition>, records: seq<Record>)
    requires multiset(packages) == multiset(Dirs(defs)) && DefinedOnce(defs) && OneEach(defs, records)
    ensures Consistent(packages, defs, records)
  {
    hide NameOf, Dirs, DefinedOnce, DistinctDirs;
    assert DistinctDirs(defs) by { OnceMeansDirs(defs); }
    forall i | 0 <= i < |packages| ensures HasDeclared(defs, records, packages[i]) {
      var d := DefinedAt(packages, defs, i);
      var r :| r in records && IsRecordOf(d, r);
      assert Declares(defs, records, packages[i], r);
    }
    forall i, j | 0 <= i < j < |packages| ensures NameOf(defs, packages[i]) != NameOf(defs, packages[j]) {
      DifferentNames(packages, defs, i, j);
    }
    forall r | r in records ensures exists i :: 0 <= i < |packages| && NameOf(defs, packages[i]) == Some(r.name) {
      var d :| d in defs && IsRecordOf(d, r);
      var i := PackageAt(packages, defs, d);
      NameIs(defs, d);
      assert NameOf(defs, packages[i]) == Some(r.name);
    }
  }

  lemma {:induction false} OnceMeansDirs(defs: seq<Definition>)
    requires DefinedOnce(defs)
    ensures DistinctDirs(defs)
  {
  }

  ghost function DeclaredFor(defs: seq<Definition>, records: seq<Record>, dir: string): (r: Record)
    requires HasDeclared(defs, records, dir)
    ensures Declares(defs, records, dir, r)
  {
    var r :| Declares(defs, records, dir, r);
    r
  }

  lemma {:induction false} AllDeclared(packages: seq<string>, defs: seq<Definition>, records: seq<Record>) returns (declared: seq<Record>)
    requires Consistent(packages, defs, records)
    ensures IsDeclared(packages, defs, records, declared)
  {
    hide NameOf, Dirs;
    declared := seq(|packages|, i requires 0 <= i < |packages| => DeclaredFor(defs, records, packages[i]));
  }

  ghost predicate SameRecords(a: seq<Record>, b: seq<Record>) {
    forall r :: r in a <==> r in b
  }

  lemma {:induction false} RecordIsDeclared(packages: seq<string>, defs: seq<Definition>, records: seq<Record>, declared: seq<Record>, r: Record)
    requires Consistent(packages, defs, records) && IsDeclared(packages, defs, records, declared) && r in records
    ensures r in declared
  {
    hide NameOf, Dirs, HasDeclared;
    var i :| 0 <= i < |packages| && NameOf(defs, packages[i]) == Some(r.name);
    assert Declares(defs, records, packages[i], declared[i]);
    SameName(records, r, declared[i]);
  }

  /** The declared records are the records. */
  lemma {:induction false} DeclaredAreRecords(packages: seq<string>, defs: seq<Definition>, records: seq<Record>, declared: seq<Record>)
    requires Consistent(packages, defs, records) && IsDeclared(packages, defs, records, declared)
    ensures SameRecords(declared, records)
  {
    hide NameOf, Consistent;
    forall r | r in declared ensures r in records {
      var i :| 0 <= i < |declared| && declared[i] == r;
      assert Declares(defs, records, packages[i], declared[i]);
    }
    forall r | r in records ensures r in declared { RecordIsDeclared(packages, defs, records, declared, r); }
  }

  lemma {:induction false} DeclaredOnce(packages: seq<string>, defs: seq<Definition>, records: seq<Record>, declared: seq<Record>)
    requires Consistent(packages, defs, records) && IsDeclared(packages, defs, records, declared)
    ensures DistinctNames(declared)
  {
    hide NameOf, Dirs, HasDeclared;
    forall i, j | 0 <= i < j < |declared| ensures declared[i].name != declared[j].name {
      assert Declares(defs, records, packages[i], declared[i]) && Declares(defs, records, packages[j], declared[j]);
      assert NameOf(defs, packages[i]) != NameOf(defs, packages[j]);
    }
  }

  lemma {:induction false} SameHas(a: seq<Record>, b: seq<Record>, name: string)
    requires SameRecords(a, b)
    ensures HasRecord(a, name) <==> HasRecord(b, name)
  {
    if HasRecord(a, name) {
      var k :| 0 <= k < |a| && a[k].name == name;
      assert a[k] in b;
    }
    if HasRecord(b, name) {
      var k :| 0 <= k < |b| && b[k].name == name;
      assert b[k] in a;
    }
  }

  lemma {:induction false} RecordIsDefined(defs: seq<Definition>, records: seq<Record>, name: string)
    requires OneEach(defs, records) && HasRecord(records, name)
    ensures DefinesName(defs, name)
  {
    var k :| 0 <= k < |records| && records[k].name == name;
    assert records[k] in records;
    var d :| d in defs && IsRecordOf(d, records[k]);
    var i :| 0 <= i < |defs| && defs[i] == d;
    assert defs[i].name == name;
  }

  lemma {:induction false} IsExactRelease(defs: seq<Definition>, records: seq<Record>, declared: seq<Record>, version: string)
    requires OneEach(defs, records) && IsRelease(records, version) && SameRecords(declared, records) && records != []
    ensures Exact(defs, declared)
  {
    hide OneEach;
    assert records[0] in declared && declared[0] in records;
    forall i | 0 <= i < |declared| ensures declared[i].version == declared[0].version { assert declared[i] in records; }
    forall i, d | 0 <= i < |declared| && d in declared[i].internalDependencies
      ensures ExactDependency(defs, declared, declared[i].internalDependencies[d], d)
    {
      assert declared[i] in records;
      RecordIsDefined(defs, records, d);
      SameHas(declared, records, d);
    }
  }

  /** An edge of the graph is a dependency. */
  lemma {:induction false} EdgeIsDependency(declared: seq<Record>, i: int, j: int)
    requires 0 <= i < |declared|
    ensures j in Deps(GraphOf(declared), i) <==> 0 <= j < |declared| && DependsOn(declared[i], declared[j])
  {
  }

  lemma {:induction false} CycleIsCircle(declared: seq<Record>, records: seq<Record>, c: seq<int>)
    requires SameRecords(declared, records) && IsCycle(GraphOf(declared), c)
    ensures exists rs :: IsCircle(records, rs)
  {
    hide GraphOf, DependsOn;
    assert |GraphOf(declared)| == |declared| by { GraphSize(declared); }
    forall k | 0 <= k < |c| ensures 0 <= c[k] < |declared| { assert c[k] in c; }
    var rs := Pick(declared, c);
    forall k | 0 <= k < |rs| - 1 ensures DependsOn(rs[k], rs[k + 1]) { EdgeIsDependency(declared, c[k], c[k + 1]); }
    EdgeIsDependency(declared, c[|c| - 1], c[0]);
    assert IsCircle(records, rs);
  }

  lemma {:induction false} GraphSize(declared: seq<Record>)
    ensures |GraphOf(declared)| == |declared|
  {
  }

  lemma {:induction false} PublishableHasPlan(packages: seq<string>, defs: seq<Definition>, records: seq<Record>)
    requires Publishable(packages, defs, records)
    ensures HasPlan(packages, defs, records)
  {
    hide Consistent, OneEach, DefinedOnce, IsRelease, Exact, GraphOf, IsCycle, IsCircle, Dirs, DistinctNames;
    IsConsistent(packages, defs, records);
    var declared := AllDeclared(packages, defs, records);
    DeclaredAreRecords(packages, defs, records, declared);
    DeclaredOnce(packages, defs, records, declared);
    var version :| IsRelease(records, version);
    IsExactRelease(defs, records, declared, version);
    forall c ensures !IsCycle(GraphOf(declared), c) {
      if IsCycle(GraphOf(declared), c) { CycleIsCircle(declared, records, c); }
    }
    assert Plannable(packages, defs, records, declared) && Acyclic(GraphOf(declared));
  }

  // ---------------------------------------------------------------------- what has a plan is publishable

  lemma {:induction false} DirsOnce(packages: seq<string>, defs: seq<Definition>, records: seq<Record>)
    requires Consistent(packages, defs, records)
    ensures DistinctDirs(defs)
  {
    hide NameOf, HasDeclared, DistinctNames;
    forall j, k | 0 <= j < k < |packages| ensures packages[j] != packages[k] {
      assert NameOf(defs, packages[j]) != NameOf(defs, packages[k]);
    }
    assert NoneTwice(packages);
    NoneTwiceEither(packages, Dirs(defs));
    forall i, j | 0 <= i < j < |defs| ensures defs[i].dir != defs[j].dir { assert Dirs(defs)[i] != Dirs(defs)[j]; }
  }

  lemma {:induction false} AllOnce(packages: seq<string>, defs: seq<Definition>, records: seq<Record>)
    requires Consistent(packages, defs, records)
    ensures DefinedOnce(defs)
  {
    hide NameOf, HasDeclared, DistinctNames, Dirs;
    DirsOnce(packages, defs, records);
    forall i, j | 0 <= i < j < |defs| ensures defs[i].name != defs[j].name {
      NameIs(defs, defs[i]);
      NameIs(defs, defs[j]);
      var a := PackageAt(packages, defs, defs[i]);
      var b := PackageAt(packages, defs, defs[j]);
      assert a != b;
    }
  }

  lemma {:induction false} HasOneEach(packages: seq<string>, defs: seq<Definition>, records: seq<Record>)
    requires Consistent(packages, defs, records)
    ensures OneEach(defs, records)
  {
    hide NameOf, Dirs;
    DirsOnce(packages, defs, records);
    forall d | d in defs ensures exists r :: r in records && IsRecordOf(d, r) {
      NameIs(defs, d);
      var i := PackageAt(packages, defs, d);
      var r :| Declares(defs, records, packages[i], r);
      assert IsRecordOf(d, r);
    }
    forall r | r in records ensures exists d :: d in defs && IsRecordOf(d, r) {
      var i :| 0 <= i < |packages| && NameOf(defs, packages[i]) == Some(r.name);
      var r' :| Declares(defs, records, packages[i], r');
      SameName(records, r, r');
      var d := DefinedAt(packages, defs, i);
      assert IsRecordOf(d, r);
    }
  }

  lemma {:induction false} ExactIsRelease(defs: seq<Definition>, records: seq<Record>, declared: seq<Record>) returns (version: string)
    requires Exact(defs, declared) && SameRecords(declared, records)
    ensures records != [] && IsRelease(records, version)
  {
    version := declared[0].version;
    assert declared[0] in records;
    forall r | r in records ensures r.version == declared[0].version {
      var i :| 0 <= i < |declared| && declared[i] == r;
    }
    forall r, d | r in records && d in r.internalDependencies
      ensures r.internalDependencies[d] == declared[0].version && HasRecord(records, d)
    {
      var i :| 0 <= i < |declared| && declared[i] == r;
      assert ExactDependency(defs, declared, declared[i].internalDependencies[d], d);
      SameHas(declared, records, d);
    }
  }

  ghost function PlaceOf(declared: seq<Record>, r: Record): (i: nat)
    requires r in declared
    ensures i < |declared| && declared[i] == r
  {
    var i :| 0 <= i < |declared| && declared[i] == r;
    i
  }

  lemma {:induction false} CircleIsCycle(declared: seq<Record>, records: seq<Record>, rs: seq<Record>)
    requires SameRecords(declared, records) && IsCircle(records, rs)
    ensures exists c :: IsCycle(GraphOf(declared), c)
  {
    hide GraphOf, DependsOn, PlaceOf;
    GraphSize(declared);
    forall k | 0 <= k < |rs| ensures rs[k] in declared { assert rs[k] in records; }
    var c: seq<int> := seq(|rs|, k requires 0 <= k < |rs| => PlaceOf(declared, rs[k]));
    forall k | 0 <= k < |c| - 1 ensures c[k + 1] in Deps(GraphOf(declared), c[k]) { EdgeIsDependency(declared, c[k], c[k + 1]); }
    EdgeIsDependency(declared, c[|c| - 1], c[0]);
    assert IsCycle(GraphOf(declared), c);
  }

  lemma {:induction false} PackagesAreDirs(packages: seq<string>, defs: seq<Definition>, records: seq<Record>)
    requires Consistent(packages, defs, records)
    ensures multiset(packages) == multiset(Dirs(defs))
  {
  }

  lemma {:induction false} PlannedIsPublishable(packages: seq<string>, defs: seq<Definition>, records: seq<Record>)
    requires HasPlan(packages, defs, records)
    ensures Publishable(packages, defs, records)
  {
    hide OneEach, DefinedOnce, IsRelease, Exact, GraphOf, IsCycle, IsCircle, Consistent, IsDeclared, SameRecords;
    var declared :| Plannable(packages, defs, records, declared) && Acyclic(GraphOf(declared));
    AllOnce(packages, defs, records);
    HasOneEach(packages, defs, records);
    DeclaredAreRecords(packages, defs, records, declared);
    var version := ExactIsRelease(defs, records, declared);
    assert multiset(packages) == multiset(Dirs(defs)) by { PackagesAreDirs(packages, defs, records); }
    forall rs ensures !IsCircle(records, rs) {
      if IsCircle(records, rs) { CircleIsCycle(declared, records, rs); }
    }
  }

  /**
   * There is a plan exactly if the configuration names each package once, the evidence has one record for each, all at
   * one release version that they also depend on each other by, and no records depend on each other in a circle.
   */
  lemma {:induction false} PlannedIff(packages: seq<string>, defs: seq<Definition>, records: seq<Record>)
    ensures HasPlan(packages, defs, records) <==> Publishable(packages, defs, records)
  {
    hide HasPlan, Publishable;
    if HasPlan(packages, defs, records) { PlannedIsPublishable(packages, defs, records); }
    if Publishable(packages, defs, records) { PublishableHasPlan(packages, defs, records); }
  }
}
