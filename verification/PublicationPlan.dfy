/** The order in which the packages of a release are published. */
module PublicationPlan {
  import opened Common
  import opened Finite
  import opened TopoSort
  import Versions

  datatype Record = Record(dir: string, name: string, version: string, tarballSha512: string,
                           expectedSri: string, manifestSha256: string,
                           internalDependencies: map<string, string>)

  datatype Definition = Definition(dir: string, name: string)

  datatype PlanError =
    | Configuration | DuplicateRecord | NoDefinition | DuplicatePackage | MissingRecord | WrongDirectory
    | UnexpectedRecord | NoRecords | MixedVersions | UnsupportedVersion | UnknownDependency
    | InexactDependency | AbsentDependency | Cycle(names: seq<string>)

  // ---------------------------------------------------------------------- declared records

  /** The package name of a directory; a later definition of the same directory wins. */
  function NameOf(defs: seq<Definition>, dir: string): (r: Option<string>) {
    if defs == [] then None
    else if defs[|defs| - 1].dir == dir then Some(defs[|defs| - 1].name)
    else NameOf(defs[..|defs| - 1], dir)
  }

  function Dirs(defs: seq<Definition>): (r: seq<string>) {
    seq(|defs|, i requires 0 <= i < |defs| => defs[i].dir)
  }

  predicate DefinesName(defs: seq<Definition>, name: string) {
    exists i :: 0 <= i < |defs| && defs[i].name == name
  }

  predicate HasRecord(records: seq<Record>, name: string) {
    exists k :: 0 <= k < |records| && records[k].name == name
  }

  predicate DistinctNames(records: seq<Record>) {
    forall j, k :: 0 <= j < k < |records| ==> records[j].name != records[k].name
  }

  /** The record of the package declared by a directory. */
  ghost predicate Declares(defs: seq<Definition>, records: seq<Record>, dir: string, r: Record) {
    r in records && r.dir == dir && NameOf(defs, dir) == Some(r.name)
  }

  ghost predicate HasDeclared(defs: seq<Definition>, records: seq<Record>, dir: string) {
    exists r :: Declares(defs, records, dir, r)
  }

  /** The evidence matches the publish configuration, one record for each package. */
  ghost predicate Consistent(packages: seq<string>, defs: seq<Definition>, records: seq<Record>) {
    && multiset(packages) == multiset(Dirs(defs))
    && DistinctNames(records)
    && (forall i :: 0 <= i < |packages| ==> HasDeclared(defs, records, packages[i]))
    && (forall i, j :: 0 <= i < j < |packages| ==> NameOf(defs, packages[i]) != NameOf(defs, packages[j]))
    && (forall r :: r in records ==> exists i :: 0 <= i < |packages| && NameOf(defs, packages[i]) == Some(r.name))
  }

  /** The records in declaration order. */
  ghost predicate IsDeclared(packages: seq<string>, defs: seq<Definition>, records: seq<Record>, declared: seq<Record>) {
    && |declared| == |packages|
    && forall i :: 0 <= i < |packages| ==> Declares(defs, records, packages[i], declared[i])
  }

  method IndexByName(records: seq<Record>) returns (r: Result<map<string, Record>, PlanError>)
    ensures r == Err(DuplicateRecord) || r.Ok?
    ensures r.Ok? <==> DistinctNames(records)
    ensures r.Ok? ==> forall k :: 0 <= k < |records| ==> records[k].name in r.value && r.value[records[k].name] == records[k]
    ensures r.Ok? ==> forall n :: n in r.value ==> r.value[n] in records && r.value[n].name == n
  {
    var byName: map<string, Record> := map[];
    for k := 0 to |records|
      invariant DistinctNames(records[..k])
      invariant forall j :: 0 <= j < k ==> records[j].name in byName && byName[records[j].name] == records[j]
      invariant forall n :: n in byName ==> byName[n] in records[..k] && byName[n].name == n
    {
      if records[k].name in byName {
        ghost var twin := byName[records[k].name];
        ghost var j :| 0 <= j < k && records[..k][j] == twin;
        assert records[j].name == records[k].name;
        return Err(DuplicateRecord);
      }
      byName := byName[records[k].name := records[k]];
      assert records[..k + 1] == records[..k] + [records[k]];
    }
    assert records[..|records|] == records;
    return Ok(byName);
  }

  /** Matching records with the publish configuration. */
  method DeclaredRecords(packages: seq<string>, defs: seq<Definition>, records: seq<Record>)
    returns (r: Result<seq<Record>, PlanError>)
    ensures r.Ok? <==> Consistent(packages, defs, records)
    ensures r.Ok? ==> IsDeclared(packages, defs, records, r.value) && DistinctNames(r.value)
    ensures r.Err? ==> !r.error.Cycle?
  {
    if multiset(packages) != multiset(Dirs(defs)) {
      return Err(Configuration);
    }
    hide NameOf, HasDeclared, Dirs;
    var index := IndexByName(records);
    if index.Err? {
      return Err(index.error);
    }
    var byName := index.value;
    var declaredNames: set<string> := {};
    var declared: seq<Record> := [];
    for k := 0 to |packages|
      invariant |declared| == k
      invariant forall i :: 0 <= i < k ==> Declares(defs, records, packages[i], declared[i])
      invariant forall n :: n in declaredNames <==> exists i :: 0 <= i < k && declared[i].name == n
      invariant DistinctNames(declared)
    {
      var name := NameOf(defs, packages[k]);
      if name.None? {
        return Err(NoDefinition);
      }
      if name.value in declaredNames {
        ghost var i :| 0 <= i < k && declared[i].name == name.value;
        assert NameOf(defs, packages[i]) == NameOf(defs, packages[k]);
        return Err(DuplicatePackage);
      }
      if name.value !in byName {
        return Err(MissingRecord);
      }
      var record := byName[name.value];
      if record.dir != packages[k] {
        return Err(WrongDirectory);
      }
      declaredNames := declaredNames + {name.value};
      declared := declared + [record];
    }
    for k := 0 to |records|
      invariant forall j :: 0 <= j < k ==> HasRecord(declared, records[j].name)
    {
      if records[k].name !in declaredNames {
        return Err(UnexpectedRecord);
      }
    }
    return Ok(declared);
  }

  lemma {:induction false} SameName(records: seq<Record>, a: Record, b: Record)
    requires DistinctNames(records) && a in records && b in records && a.name == b.name
    ensures a == b
  {
    var i :| 0 <= i < |records| && records[i] == a;
    var j :| 0 <= j < |records| && records[j] == b;
    assert i == j;
  }

  // ---------------------------------------------------------------------- dependency graph

  /** Node `i` is the `i`-th declared record. */
  function GraphOf(declared: seq<Record>): (g: Graph) {
    seq(|declared|, i requires 0 <= i < |declared| =>
      set j | 0 <= j < |declared| && declared[j].name in declared[i].internalDependencies)
  }

  /** One release version throughout, and every dependency a declared package at exactly that version. */
  predicate Exact(defs: seq<Definition>, declared: seq<Record>) {
    && |declared| > 0
    && (forall i :: 0 <= i < |declared| ==> declared[i].version == declared[0].version)
    && Versions.IsReleaseVersion(declared[0].version)
    && (forall i, d :: 0 <= i < |declared| && d in declared[i].internalDependencies ==>
          ExactDependency(defs, declared, declared[i].internalDependencies[d], d))
  }

  predicate ExactDependency(defs: seq<Definition>, declared: seq<Record>, version: string, d: string)
    requires |declared| > 0
  {
    DefinesName(defs, d) && version == declared[0].version && HasRecord(declared, d)
  }

  predicate ExactRecord(defs: seq<Definition>, declared: seq<Record>, r: Record)
    requires |declared| > 0
  {
    forall d :: d in r.internalDependencies ==> ExactDependency(defs, declared, r.internalDependencies[d], d)
  }

  method CheckExact(defs: seq<Definition>, declared: seq<Record>) returns (failure: Option<PlanError>)
    ensures failure.None? <==> Exact(defs, declared)
    ensures failure.Some? ==> !failure.value.Cycle?
  {
    if |declared| == 0 { return Some(NoRecords); }
    if exists i :: 0 <= i < |declared| && declared[i].version != declared[0].version {
      return Some(MixedVersions);
    }
    for i := 0 to |declared|
      invariant i > 0 ==> Versions.IsReleaseVersion(declared[0].version)
      invariant forall j :: 0 <= j < i ==> ExactRecord(defs, declared, declared[j])
    {
      if !Versions.IsReleaseVersion(declared[0].version) { return Some(UnsupportedVersion); }
      var deps := declared[i].internalDependencies;
      if exists d :: d in deps && !DefinesName(defs, d) { return Some(UnknownDependency); }
      if exists d :: d in deps && deps[d] != declared[0].version { return Some(InexactDependency); }
      if exists d :: d in deps && !HasRecord(declared, d) { return Some(AbsentDependency); }
    }
    return None;
  }

  function Pick(declared: seq<Record>, o: seq<int>): (r: seq<Record>)
    requires forall k :: 0 <= k < |o| ==> 0 <= o[k] < |declared|
  {
    seq(|o|, k requires 0 <= k < |o| => declared[o[k]])
  }

  ghost predicate IsOrderOf(declared: seq<Record>, o: seq<int>, r: seq<Record>) {
    && IsTopologicalOrder(GraphOf(declared), o) && Greedy(GraphOf(declared), {}, o)
    && (forall k :: 0 <= k < |o| ==> 0 <= o[k] < |declared|)
    && r == Pick(declared, o)
  }

  /** Every internal dependency of a record is published before it. */
  ghost predicate DependenciesFirst(r: seq<Record>) {
    forall k, d :: 0 <= k < |r| && d in r[k].internalDependencies ==> HasRecord(r[..k], d)
  }

  /** The names of records that wait for each other in a circle. */
  ghost predicate NamesACycle(declared: seq<Record>, names: seq<string>) {
    AllWait(declared, names) && exists c :: IsCycle(GraphOf(declared), c) && CycleNamed(declared, c, names)
  }

  /** Each of the names is that of a record which depends on another of the names. */
  ghost predicate AllWait(declared: seq<Record>, names: seq<string>) {
    forall n :: n in names ==> exists r, d :: r in declared && r.name == n && d in r.internalDependencies && d in names
  }

  ghost predicate CycleNamed(declared: seq<Record>, c: seq<int>, names: seq<string>) {
    forall k :: 0 <= k < |c| ==> 0 <= c[k] < |declared| && declared[c[k]].name in names
  }

  /** Sorting the declared records: an order if there is one, else the names of a cycle. */
  method OrderDeclared(declared: seq<Record>) returns (r: Result<seq<Record>, PlanError>, ghost o: seq<int>)
    ensures r.Ok? <==> Acyclic(GraphOf(declared))
    ensures r.Ok? ==> IsOrderOf(declared, o, r.value)
    ensures r.Err? ==> r.error.Cycle? && NamesACycle(declared, r.error.names)
  {
    hide NamesACycle, IsCycle;
    var g := GraphOf(declared);
    var ordered, indegree := Sort(g);
    SortIsComplete(g, ordered);
    o := ordered;
    if |ordered| != |declared| {
      var names := Unplaced(declared, indegree, |declared|);
      UnplacedNameACycle(declared, ordered, indegree, names);
      return Err(Cycle(names)), o;
    }
    InRange(g, ordered);
    return Ok(Pick(declared, ordered)), o;
  }

  /** The declared records are what the evidence says, and nothing but a cycle can be wrong with them. */
  ghost predicate Plannable(packages: seq<string>, defs: seq<Definition>, records: seq<Record>, declared: seq<Record>) {
    Consistent(packages, defs, records) && IsDeclared(packages, defs, records, declared) && DistinctNames(declared) &&
    Exact(defs, declared)
  }

  ghost predicate Plans(packages: seq<string>, defs: seq<Definition>, records: seq<Record>, declared: seq<Record>, o: seq<int>, r: seq<Record>) {
    Plannable(packages, defs, records, declared) && IsOrderOf(declared, o, r)
  }

  /** `r` lists the declared records in the greedy topological order of their dependencies. */
  ghost predicate IsThePlan(packages: seq<string>, defs: seq<Definition>, records: seq<Record>, r: seq<Record>) {
    exists declared, o :: Plans(packages, defs, records, declared, o, r)
  }

  /** Consistent, exact evidence with acyclic dependencies. */
  ghost predicate HasPlan(packages: seq<string>, defs: seq<Definition>, records: seq<Record>) {
    exists declared :: Plannable(packages, defs, records, declared) && Acyclic(GraphOf(declared))
  }

  /** Consistent, exact evidence whose dependencies go round in a circle among `names`. */
  ghost predicate HasCycle(packages: seq<string>, defs: seq<Definition>, records: seq<Record>, names: seq<string>) {
    exists declared :: Plannable(packages, defs, records, declared) && NamesACycle(declared, names)
  }

  /**
   * The publication plan. It succeeds exactly on consistent, exact evidence with an acyclic
   * dependency graph, and reports a cycle only when that alone is wrong.
   */
  method PlanExpectedEvidencePublication(packages: seq<string>, defs: seq<Definition>, records: seq<Record>)
    returns (r: Result<seq<Record>, PlanError>)
    ensures r.Ok? <==> HasPlan(packages, defs, records)
    ensures r.Ok? ==> IsThePlan(packages, defs, records, r.value)
    ensures r.Err? && r.error.Cycle? ==> HasCycle(packages, defs, records, r.error.names)
    ensures (exists names :: HasCycle(packages, defs, records, names)) ==> r.Err? && r.error.Cycle?
  {
    hide Consistent, Exact, Acyclic, IsOrderOf, NamesACycle;
    var matched := DeclaredRecords(packages, defs, records);
    if matched.Err? {
      r := Err(matched.error);
      return;
    }
    ghost var declared := matched.value;
    OnlyDeclared(packages, defs, records, declared);
    var failure := CheckExact(defs, matched.value);
    if failure.Some? {
      r := Err(failure.value);
      return;
    }
    assert Plannable(packages, defs, records, declared);
    ghost var o;
    r, o := OrderDeclared(matched.value);
    if r.Ok? {
      assert Plans(packages, defs, records, declared, o, r.value);
      NoCycleNamed(declared);
    }
  }

  /** Consistent evidence determines the declared records. */
  lemma {:induction false} OnlyDeclared(packages: seq<string>, defs: seq<Definition>, records: seq<Record>, declared: seq<Record>)
    requires Consistent(packages, defs, records) && IsDeclared(packages, defs, records, declared)
    ensures forall other :: Plannable(packages, defs, records, other) ==> other == declared
  {
    forall other | Plannable(packages, defs, records, other) ensures other == declared {
      DeclaredIgnoresOrder(packages, defs, records, records, other, declared);
    }
  }

  lemma {:induction false} NoCycleNamed(declared: seq<Record>)
    requires Acyclic(GraphOf(declared))
    ensures forall names :: !NamesACycle(declared, names)
  {
  }

  lemma {:induction false} InRange(g: Graph, o: seq<int>)
    requires IsTopologicalOrder(g, o)
    ensures forall k :: 0 <= k < |o| ==> 0 <= o[k] < |g|
  {
    forall k | 0 <= k < |o| ensures 0 <= o[k] < |g| { assert o[k] in o; }
  }

  /** The names of the records below `n` that still wait for a dependency. */
  function Unplaced(declared: seq<Record>, indegree: seq<int>, n: nat): (names: seq<string>)
    requires n <= |declared| == |indegree|
    ensures forall i :: 0 <= i < n && indegree[i] > 0 ==> declared[i].name in names
    ensures forall x :: x in names ==> exists i :: 0 <= i < n && indegree[i] > 0 && declared[i].name == x
  {
    if n == 0 then []
    else Unplaced(declared, indegree, n - 1) + (if indegree[n - 1] > 0 then [declared[n - 1].name] else [])
  }

  lemma {:induction false} LeftoverNames(declared: seq<Record>, ordered: seq<int>, indegree: seq<int>, c: seq<int>, names: seq<string>)
    requires |indegree| == |declared| && IsCycle(GraphOf(declared), c) && Elems(c) !! Elems(ordered)
    requires forall i :: IsNode(GraphOf(declared), i) ==> (indegree[i] > 0 <==> i !in ordered)
    requires forall i :: 0 <= i < |declared| && indegree[i] > 0 ==> declared[i].name in names
    ensures CycleNamed(declared, c, names)
  {
    forall k | 0 <= k < |c| ensures 0 <= c[k] < |declared| && declared[c[k]].name in names {
      assert c[k] in c && c[k] in Elems(c);
      assert IsNode(GraphOf(declared), c[k]);
    }
  }

  lemma {:induction false} LeftoverWait(declared: seq<Record>, ordered: seq<int>, indegree: seq<int>, names: seq<string>)
    requires |indegree| == |declared| && Greedy(GraphOf(declared), {}, ordered)
    requires forall i :: IsNode(GraphOf(declared), i) ==> (indegree[i] > 0 <==> i !in ordered)
    requires forall i :: 0 <= i < |declared| && indegree[i] > 0 ==> declared[i].name in names
    requires forall x :: x in names ==> exists i :: 0 <= i < |declared| && indegree[i] > 0 && declared[i].name == x
    ensures AllWait(declared, names)
  {
    var g := GraphOf(declared);
    NothingReady(g, {}, ordered);
    forall n | n in names ensures exists r, d :: r in declared && r.name == n && d in r.internalDependencies && d in names {
      var i :| 0 <= i < |declared| && indegree[i] > 0 && declared[i].name == n;
      assert IsNode(g, i) && i !in {} + Elems(ordered) && !Ready(g, {} + Elems(ordered), i);
      var j :| j in Deps(g, i) && j !in Elems(ordered);
      assert IsNode(g, j) && declared[j].name in names;
      assert declared[i] in declared && declared[j].name in declared[i].internalDependencies;
    }
  }

  lemma {:induction false} UnplacedNameACycle(declared: seq<Record>, ordered: seq<int>, indegree: seq<int>, names: seq<string>)
    requires |indegree| == |declared| != |ordered| && Greedy(GraphOf(declared), {}, ordered)
    requires forall i :: IsNode(GraphOf(declared), i) ==> (indegree[i] > 0 <==> i !in ordered)
    requires forall i :: 0 <= i < |declared| && indegree[i] > 0 ==> declared[i].name in names
    requires forall x :: x in names ==> exists i :: 0 <= i < |declared| && indegree[i] > 0 && declared[i].name == x
    ensures NamesACycle(declared, names)
  {
    hide IsCycle, AllWait, CycleNamed, Greedy;
    SortIsComplete(GraphOf(declared), ordered);
    var c :| IsCycle(GraphOf(declared), c) && Elems(c) !! Elems(ordered);
    LeftoverNames(declared, ordered, indegree, c, names);
    LeftoverWait(declared, ordered, indegree, names);
  }

  // ---------------------------------------------------------------------- what the plan means

  /** In the plan every dependency comes before its dependents. */
  lemma {:induction false} PlanPutsDependenciesFirst(packages: seq<string>, defs: seq<Definition>, records: seq<Record>, r: seq<Record>)
    requires IsThePlan(packages, defs, records, r)
    ensures DependenciesFirst(r)
  {
    var declared, o :| Plans(packages, defs, records, declared, o, r);
    OrderPutsDependenciesFirst(defs, declared, o, r);
  }

  lemma {:induction false} OrderPutsDependenciesFirst(defs: seq<Definition>, declared: seq<Record>, o: seq<int>, r: seq<Record>)
    requires Exact(defs, declared) && IsOrderOf(declared, o, r)
    ensures DependenciesFirst(r)
  {
    var g := GraphOf(declared);
    forall k, d | 0 <= k < |r| && d in r[k].internalDependencies ensures HasRecord(r[..k], d) {
      assert ExactDependency(defs, declared, declared[o[k]].internalDependencies[d], d);
      var j :| 0 <= j < |declared| && declared[j].name == d;
      assert j in Deps(g, o[k]);
      assert j in o[..k];
      var i :| 0 <= i < k && o[..k][i] == j;
      assert r[..k][i] == declared[j];
    }
  }

  lemma {:induction false} Planned(packages: seq<string>, defs: seq<Definition>, records: seq<Record>, declared: seq<Record>, o: seq<int>, r: seq<Record>, x: Record)
    requires Plans(packages, defs, records, declared, o, r) && x in records
    ensures x in r
  {
    hide Exact, IsOrderOf;
    var i :| 0 <= i < |packages| && NameOf(defs, packages[i]) == Some(x.name);
    assert Declares(defs, records, packages[i], declared[i]);
    SameName(records, x, declared[i]);
    OrderHolds(declared, o, r, i);
  }

  lemma {:induction false} OrderHolds(declared: seq<Record>, o: seq<int>, r: seq<Record>, i: nat)
    requires IsOrderOf(declared, o, r) && i < |declared|
    ensures declared[i] in r
  {
    InOrder(GraphOf(declared), o, i);
    var k :| 0 <= k < |o| && o[k] == i;
    assert r[k] == declared[i];
  }

  /** The plan is a rearrangement of the evidence records: none is lost, none added, none repeated. */
  lemma {:induction false} PlanIsAPermutation(packages: seq<string>, defs: seq<Definition>, records: seq<Record>, r: seq<Record>)
    requires IsThePlan(packages, defs, records, r)
    ensures |r| == |packages| && DistinctNames(r)
    ensures forall x :: x in r <==> x in records
  {
    var declared, o :| Plans(packages, defs, records, declared, o, r);
    OrderIsAPermutation(packages, defs, records, declared, o, r);
  }

  lemma {:induction false} OrderIsAPermutation(packages: seq<string>, defs: seq<Definition>, records: seq<Record>, declared: seq<Record>, o: seq<int>, r: seq<Record>)
    requires Plans(packages, defs, records, declared, o, r)
    ensures |r| == |packages| && DistinctNames(r)
    ensures forall x :: x in r <==> x in records
  {
    hide Exact, Consistent;
    forall x | x in r ensures x in records {
      var k :| 0 <= k < |r| && r[k] == x;
      assert Declares(defs, records, packages[o[k]], declared[o[k]]);
    }
    forall x | x in records ensures x in r {
      Planned(packages, defs, records, declared, o, r, x);
    }
    forall j, k | 0 <= j < k < |r| ensures r[j].name != r[k].name {
      assert o[j] != o[k];
    }
  }

  // ---------------------------------------------------------------------- the order of the evidence

  lemma {:induction false} CountTwice(s: seq<Record>, j: nat, k: nat)
    requires j < k < |s| && s[j] == s[k]
    ensures multiset(s)[s[j]] >= 2
  {
    assert s == s[..k] + s[k..];
    assert s[..k][j] in multiset(s[..k]) && s[k..][0] in multiset(s[k..]);
  }

  lemma {:induction false} CountOnce(s: seq<Record>, x: Record)
    requires DistinctNames(s)
    ensures multiset(s)[x] <= 1
  {
    if x in s {
      var k :| 0 <= k < |s| && s[k] == x;
      assert s == s[..k] + [x] + s[k + 1..];
      assert x !in s[..k] && x !in s[k + 1..];
    }
  }

  lemma {:induction false} DistinctInAnyOrder(a: seq<Record>, b: seq<Record>)
    requires multiset(a) == multiset(b) && DistinctNames(a)
    ensures DistinctNames(b)
  {
    forall j, k | 0 <= j < k < |b| ensures b[j].name != b[k].name {
      assert b[j] in multiset(a) && b[k] in multiset(a);
      if b[j].name == b[k].name {
        SameName(a, b[j], b[k]);
        CountTwice(b, j, k);
        CountOnce(a, b[j]);
      }
    }
  }

  lemma {:induction false} ConsistentInAnyOrder(packages: seq<string>, defs: seq<Definition>, a: seq<Record>, b: seq<Record>)
    requires multiset(a) == multiset(b) && Consistent(packages, defs, a)
    ensures Consistent(packages, defs, b)
  {
    hide NameOf, Dirs;
    DistinctInAnyOrder(a, b);
    forall r | r in b ensures r in a { assert r in multiset(a); }
    forall i | 0 <= i < |packages| ensures HasDeclared(defs, b, packages[i]) {
      var r :| Declares(defs, a, packages[i], r);
      assert r in multiset(b);
      assert Declares(defs, b, packages[i], r);
    }
  }

  lemma {:induction false} PlannableInAnyOrder(packages: seq<string>, defs: seq<Definition>, a: seq<Record>, b: seq<Record>, declared: seq<Record>)
    requires multiset(a) == multiset(b) && Plannable(packages, defs, a, declared)
    ensures Plannable(packages, defs, b, declared)
  {
    hide Consistent, Exact;
    ConsistentInAnyOrder(packages, defs, a, b);
    forall i | 0 <= i < |packages| ensures Declares(defs, b, packages[i], declared[i]) {
      assert declared[i] in multiset(b);
    }
  }

  /** The declared records do not depend on the order in which the evidence lists them. */
  lemma {:induction false} DeclaredIgnoresOrder(packages: seq<string>, defs: seq<Definition>, records: seq<Record>, records': seq<Record>, declared: seq<Record>, declared': seq<Record>)
    requires multiset(records) == multiset(records') && DistinctNames(records)
    requires IsDeclared(packages, defs, records, declared) && IsDeclared(packages, defs, records', declared')
    ensures declared == declared'
  {
    forall i | 0 <= i < |packages| ensures declared[i] == declared'[i] {
      assert Declares(defs, records, packages[i], declared[i]) && Declares(defs, records', packages[i], declared'[i]);
      assert declared'[i] in multiset(records');
      SameName(records, declared[i], declared'[i]);
    }
  }

  /** There is only one plan. */
  lemma {:induction false} PlanIsUnique(packages: seq<string>, defs: seq<Definition>, records: seq<Record>, r: seq<Record>, r': seq<Record>)
    requires IsThePlan(packages, defs, records, r) && IsThePlan(packages, defs, records, r')
    ensures r == r'
  {
    hide Exact;
    var declared, o :| Plans(packages, defs, records, declared, o, r);
    var declared', o' :| Plans(packages, defs, records, declared', o', r');
    DeclaredIgnoresOrder(packages, defs, records, records, declared, declared');
    GreedyUnique(GraphOf(declared), {}, o, o');
  }

  /**
   * Evidence that lists the same records in another order has a plan exactly if this has one, and it
   * is the same plan.
   */
  lemma {:induction false} PlanIgnoresOrder(packages: seq<string>, defs: seq<Definition>, a: seq<Record>, b: seq<Record>, r: seq<Record>)
    requires multiset(a) == multiset(b)
    ensures HasPlan(packages, defs, a) <==> HasPlan(packages, defs, b)
    ensures IsThePlan(packages, defs, a, r) <==> IsThePlan(packages, defs, b, r)
  {
    PlanCarriesOver(packages, defs, a, b, r);
    PlanCarriesOver(packages, defs, b, a, r);
  }

  lemma {:induction false} PlanCarriesOver(packages: seq<string>, defs: seq<Definition>, a: seq<Record>, b: seq<Record>, r: seq<Record>)
    requires multiset(a) == multiset(b)
    ensures HasPlan(packages, defs, a) ==> HasPlan(packages, defs, b)
    ensures IsThePlan(packages, defs, a, r) ==> IsThePlan(packages, defs, b, r)
  {
    hide Plannable, Acyclic, IsOrderOf;
    if HasPlan(packages, defs, a) {
      var declared :| Plannable(packages, defs, a, declared) && Acyclic(GraphOf(declared));
      PlannableInAnyOrder(packages, defs, a, b, declared);
    }
    if IsThePlan(packages, defs, a, r) {
      var declared, o :| Plans(packages, defs, a, declared, o, r);
      PlannableInAnyOrder(packages, defs, a, b, declared);
      assert Plans(packages, defs, b, declared, o, r);
    }
  }
}
