/** Which packages a change reaches: the touched ones and everything that depends on them, directly or not. */
module Dependents {
  import opened Common
  import Finite

  // ---------------------------------------------------------------------- closures

  /** `next(n)` are the names that depend directly on `n`. */
  type Edges = string -> set<string>

  ghost predicate Closed(s: set<string>, next: Edges) {
    forall n, m :: n in s && m in next(n) ==> m in s
  }

  /** The least set that holds `start` and is closed under dependents. */
  ghost predicate IsClosure(s: set<string>, start: set<string>, next: Edges) {
    start <= s && Closed(s, next) && forall t: set<string> {:trigger Closed(t, next)} :: start <= t && Closed(t, next) ==> s <= t
  }

  /** A chain of dependents, from a touched name. */
  ghost predicate IsChain(chain: seq<string>, start: set<string>, next: Edges) {
    chain != [] && chain[0] in start && forall i {:trigger chain[i]} :: 0 < i < |chain| ==> chain[i] in next(chain[i - 1])
  }

  ghost predicate Reached(n: string, start: set<string>, next: Edges) {
    exists chain :: IsChain(chain, start, next) && chain[|chain| - 1] == n
  }

  lemma {:induction false} ChainStaysIn(chain: seq<string>, s: set<string>, start: set<string>, next: Edges)
    requires IsChain(chain, start, next) && start <= s && Closed(s, next)
    ensures chain[|chain| - 1] in s
    decreases |chain|
  {
    if |chain| > 1 {
      var init := chain[..|chain| - 1];
      ChainStaysIn(init, s, start, next);
      assert chain[|chain| - 1] in next(chain[|chain| - 2]);
    }
  }

  lemma {:induction false} ReachedNext(n: string, m: string, start: set<string>, next: Edges)
    requires Reached(n, start, next) && m in next(n)
    ensures Reached(m, start, next)
  {
    var chain :| IsChain(chain, start, next) && chain[|chain| - 1] == n;
    assert IsChain(chain + [m], start, next);
  }

  /** The closure is exactly what can be reached from the touched names. */
  lemma {:induction false} ClosureIsReached(s: set<string>, start: set<string>, next: Edges, n: string)
    requires IsClosure(s, start, next)
    ensures n in s <==> Reached(n, start, next)
  {
    var t := set m | m in s && Reached(m, start, next);
    forall m | m in start ensures m in t {
      assert IsChain([m], start, next);
    }
    forall a, b | a in t && b in next(a) ensures b in t {
      ReachedNext(a, b, start, next);
    }
    assert Closed(t, next);
    if Reached(n, start, next) {
      var chain :| IsChain(chain, start, next) && chain[|chain| - 1] == n;
      ChainStaysIn(chain, s, start, next);
    }
  }

  /** Some names are found, some of those are still in the queue, and the others are finished. */
  ghost predicate Progress(found: set<string>, queue: seq<string>, start: set<string>, next: Edges) {
    start <= found && (forall n :: n in queue ==> n in found) &&
    (forall n, m :: n in found && n !in queue && m in next(n) ==> m in found) &&
    forall t: set<string> {:trigger Closed(t, next)} :: start <= t && Closed(t, next) ==> found <= t
  }

  lemma {:induction false} Finished(found: set<string>, start: set<string>, next: Edges)
    requires Progress(found, [], start, next)
    ensures IsClosure(found, start, next)
  {
  }

  /** Halfway through the dependents of `current`: those in `done` are found. */
  ghost predicate Expanding(found: set<string>, queue: seq<string>, start: set<string>, next: Edges, current: string, done: set<string>) {
    current in found && start <= found && (forall n :: n in queue ==> n in found) && done <= found &&
    (forall n, m :: n in found && n !in queue && n != current && m in next(n) ==> m in found) &&
    forall t: set<string> {:trigger Closed(t, next)} :: start <= t && Closed(t, next) ==> found <= t
  }

  lemma {:induction false} BeginExpanding(found: set<string>, queue: seq<string>, start: set<string>, next: Edges)
    requires queue != [] && Progress(found, queue, start, next)
    ensures Expanding(found, queue[1..], start, next, queue[0], {})
  {
    assert queue == [queue[0]] + queue[1..];
  }

  lemma {:induction false} EndExpanding(found: set<string>, queue: seq<string>, start: set<string>, next: Edges, current: string)
    requires Expanding(found, queue, start, next, current, next(current))
    ensures Progress(found, queue, start, next)
  {
  }

  lemma {:induction false} ExpandOne(found: set<string>, queue: seq<string>, start: set<string>, next: Edges,
                                     current: string, done: set<string>, m: string)
    requires Expanding(found, queue, start, next, current, done) && m in next(current)
    ensures Expanding(found + {m}, queue + [m], start, next, current, done + {m})
    ensures m in found ==> Expanding(found, queue, start, next, current, done + {m})
  {
  }

  /** What a round may do: finding nothing, or finding names and queueing them. */
  ghost predicate Shrinks(universe: set<string>, before: set<string>, queue: seq<string>, found: set<string>, next: seq<string>) {
    found <= universe && before <= found && (found == before ==> next == queue) &&
    (found != before ==> |universe - found| < |universe - before|)
  }

  lemma {:induction false} KeysAfter<V>(m: map<string, V>, key: string, value: V)
    ensures m[key := value].Keys == m.Keys + {key}
  {
  }

  lemma {:induction false} ShrinksNone(universe: set<string>, found: set<string>, queue: seq<string>)
    requires found <= universe
    ensures Shrinks(universe, found, queue, found, queue)
  {
  }

  lemma {:induction false} ShrinksMore(universe: set<string>, before: set<string>, queue: seq<string>,
                                       found: set<string>, next: seq<string>, m: string)
    requires Shrinks(universe, before, queue, found, next) && m in universe && m !in found
    ensures Shrinks(universe, before, queue, found + {m}, next + [m])
  {
    assert universe - (found + {m}) == (universe - found) - {m};
    Finite.MinusOne(universe - found, m);
  }

  // ---------------------------------------------------------------------- workspace packages

  /** A package and its four maps of dependencies to versions; an absent map is empty. */
  datatype Package = Package(name: string, dir: string, scopes: seq<map<string, string>>)

  const WORKSPACE := "workspace:"

  predicate DependsOnWorkspace(p: Package, name: string, names: set<string>) {
    exists scope :: scope in p.scopes && name in scope && scope[name] != "" && (WORKSPACE <= scope[name] || name in names)
  }

  /** On a package of the workspace any dependency counts, on any other only one with a workspace version. */
  lemma {:induction false} DependsOnWorkspaceIff(p: Package, name: string, names: set<string>)
    ensures name in names ==>
      (DependsOnWorkspace(p, name, names) <==> exists scope :: scope in p.scopes && name in scope && |scope[name]| > 0)
    ensures name !in names ==>
      (DependsOnWorkspace(p, name, names) <==>
       exists scope, rest :: scope in p.scopes && name in scope && scope[name] == "workspace:" + rest)
  {
    if scope :| name !in names && scope in p.scopes && name in scope && WORKSPACE <= scope[name] {
      assert scope[name] == "workspace:" + scope[name][10..];
    }
  }

  function Names(packages: seq<Package>): (r: set<string>) {
    set p | p in packages :: p.name
  }

  /** The packages that depend on `name`; nothing depends on an empty name. */
  ghost function DependentNames(packages: seq<Package>, name: string, names: set<string>): (r: set<string>) {
    set p | p in packages && name != "" && DependsOnWorkspace(p, name, names) :: p.name
  }

  ghost predicate Entries(selected: map<string, Package>, touched: seq<Package>, packages: seq<Package>) {
    forall name :: name in selected ==> selected[name].name == name && (selected[name] in touched || selected[name] in packages)
  }

  lemma {:induction false} EntriesMore(selected: map<string, Package>, touched: seq<Package>, packages: seq<Package>, p: Package)
    requires Entries(selected, touched, packages) && p in packages
    ensures Entries(selected[p.name := p], touched, packages)
  {
  }

  /** Selects what depends on `current` and is not yet selected. */
  method ExpandPackage(current: string, packages: seq<Package>, names: set<string>, ghost touched: seq<Package>,
                       selected: map<string, Package>, queue: seq<string>, ghost universe: set<string>)
    returns (more: map<string, Package>, rest: seq<string>)
    requires Names(packages) <= universe && selected.Keys <= universe && Entries(selected, touched, packages)
    requires Expanding(selected.Keys, queue, Names(touched), n => DependentNames(packages, n, names), current, {})
    ensures Progress(more.Keys, rest, Names(touched), n => DependentNames(packages, n, names))
    ensures Shrinks(universe, selected.Keys, queue, more.Keys, rest) && Entries(more, touched, packages)
  {
    hide DependsOnWorkspace, Expanding, Progress, DependentNames, Shrinks, Entries;
    ShrinksNone(universe, selected.Keys, queue);
    ghost var next := n => DependentNames(packages, n, names);
    more, rest := selected, queue;
    ghost var done: set<string> := {};
    if current != "" {
      NoDependents(current, packages, names);
      for i := 0 to |packages|
        invariant done == DependentNames(packages[..i], current, names)
        invariant Expanding(more.Keys, rest, Names(touched), next, current, done)
        invariant Shrinks(universe, selected.Keys, queue, more.Keys, rest) && Entries(more, touched, packages)
      {
        var candidate := packages[i];
        OneMoreDependent(packages, i, current, names);
        if DependsOnWorkspace(candidate, current, names) {
          ExpandOne(more.Keys, rest, Names(touched), next, current, done, candidate.name);
          done := done + {candidate.name};
          if candidate.name !in more {
            ShrinksMore(universe, selected.Keys, queue, more.Keys, rest, candidate.name);
            EntriesMore(more, touched, packages, candidate);
            KeysAfter(more, candidate.name, candidate);
            more := more[candidate.name := candidate];
            rest := rest + [candidate.name];
          }
        }
      }
      assert packages[..|packages|] == packages;
    }
    NoDependents(current, packages, names);
    EndExpanding(more.Keys, rest, Names(touched), next, current);
  }

  lemma {:induction false} NoDependents(name: string, packages: seq<Package>, names: set<string>)
    ensures DependentNames(packages[..0], name, names) == {}
    ensures name == "" ==> DependentNames(packages, name, names) == {}
  {
  }

  lemma {:induction false} OneMoreDependent(packages: seq<Package>, i: nat, name: string, names: set<string>)
    requires i < |packages| && name != ""
    ensures packages[i].name in Names(packages)
    ensures DependsOnWorkspace(packages[i], name, names) ==> packages[i].name in DependentNames(packages, name, names)
    ensures DependentNames(packages[..i + 1], name, names) ==
      DependentNames(packages[..i], name, names) + (if DependsOnWorkspace(packages[i], name, names) then {packages[i].name} else {})
  {
    hide DependsOnWorkspace;
    assert packages[..i + 1] == packages[..i] + [packages[i]];
  }

  /**
   * The names selected are the touched ones and everything that depends on them through any chain: the least set
   * that is closed under dependents, also when dependencies form cycles.
   */
  method ExpandWithDependents(touched: seq<Package>, packages: seq<Package>) returns (selected: map<string, Package>)
    ensures IsClosure(selected.Keys, Names(touched), n => DependentNames(packages, n, Names(packages)))
    ensures Entries(selected, touched, packages)
  {
    hide Progress, Expanding, IsClosure, DependentNames;
    var names := Names(packages);
    ghost var universe := names + Names(touched);
    ghost var next := n => DependentNames(packages, n, names);
    selected := map[];
    var queue := [];
    for i := 0 to |touched|
      invariant selected.Keys == Names(touched[..i]) && (set n | n in queue) == selected.Keys
      invariant Entries(selected, touched, packages)
    {
      assert touched[..i + 1] == touched[..i] + [touched[i]];
      selected := selected[touched[i].name := touched[i]];
      queue := queue + [touched[i].name];
    }
    assert touched[..|touched|] == touched;
    Begun(selected.Keys, queue, next);
    while queue != []
      invariant selected.Keys <= universe && Entries(selected, touched, packages)
      invariant Progress(selected.Keys, queue, Names(touched), next)
      decreases |universe - selected.Keys|, |queue|
    {
      BeginExpanding(selected.Keys, queue, Names(touched), next);
      selected, queue := ExpandPackage(queue[0], packages, names, touched, selected, queue[1..], universe);
    }
    Finished(selected.Keys, Names(touched), next);
  }

  lemma {:induction false} Begun(found: set<string>, queue: seq<string>, next: Edges)
    requires (set n | n in queue) == found
    ensures Progress(found, queue, found, next)
  {
    forall n | n in found ensures n in queue { assert n in (set m | m in queue); }
  }

  // ---------------------------------------------------------------------- Cargo packages

  datatype CargoUnit = CargoUnit(id: string, name: string)

  function UnitIds(units: seq<CargoUnit>): (r: set<string>) {
    set u | u in units :: u.id
  }

  /** What `reverse` lists for `id`, as far as it is known. */
  ghost function CargoNext(reverse: map<string, seq<string>>, known: map<string, CargoUnit>, id: string): (r: set<string>) {
    if id == "" || id !in reverse then {} else IdsOf(reverse[id], known)
  }

  ghost function IdsOf(packageIds: seq<string>, known: map<string, CargoUnit>): (r: set<string>) {
    set p | p in packageIds && p in known :: known[p].id
  }

  method ExpandUnit(current: string, reverse: map<string, seq<string>>, known: map<string, CargoUnit>, ghost start: set<string>,
                    selected: map<string, CargoUnit>, queue: seq<string>, ghost universe: set<string>)
    returns (more: map<string, CargoUnit>, rest: seq<string>)
    requires selected.Keys <= universe && forall p :: p in known ==> known[p].id in universe
    requires Expanding(selected.Keys, queue, start, n => CargoNext(reverse, known, n), current, {})
    ensures Progress(more.Keys, rest, start, n => CargoNext(reverse, known, n))
    ensures Shrinks(universe, selected.Keys, queue, more.Keys, rest)
  {
    hide Expanding, Progress, IdsOf, Shrinks;
    ShrinksNone(universe, selected.Keys, queue);
    ghost var next := n => CargoNext(reverse, known, n);
    more, rest := selected, queue;
    ghost var done: set<string> := {};
    if current != "" && current in reverse {
      var ids := reverse[current];
      NoIds(ids, known);
      for i := 0 to |ids|
        invariant done == IdsOf(ids[..i], known)
        invariant Expanding(more.Keys, rest, start, next, current, done)
        invariant Shrinks(universe, selected.Keys, queue, more.Keys, rest)
      {
        OneMoreId(ids, i, known);
        if ids[i] in known {
          var unit := known[ids[i]];
          ExpandOne(more.Keys, rest, start, next, current, done, unit.id);
          done := done + {unit.id};
          if unit.id !in more {
            ShrinksMore(universe, selected.Keys, queue, more.Keys, rest, unit.id);
            KeysAfter(more, unit.id, unit);
            more := more[unit.id := unit];
            rest := rest + [unit.id];
          }
        }
      }
      assert ids[..|ids|] == ids;
    }
    EndExpanding(more.Keys, rest, start, next, current);
  }

  lemma {:induction false} NoIds(ids: seq<string>, known: map<string, CargoUnit>)
    ensures IdsOf(ids[..0], known) == {}
  {
  }

  lemma {:induction false} OneMoreId(ids: seq<string>, i: nat, known: map<string, CargoUnit>)
    requires i < |ids|
    ensures ids[i] in known ==> known[ids[i]].id in IdsOf(ids, known)
    ensures IdsOf(ids[..i + 1], known) == IdsOf(ids[..i], known) + (if ids[i] in known then {known[ids[i]].id} else {})
  {
    assert ids[..i + 1] == ids[..i] + [ids[i]];
  }

  /** The Cargo worklist computes the same closure over its own edges. */
  method ExpandCargoDependents(initial: seq<CargoUnit>, reverse: map<string, seq<string>>, known: map<string, CargoUnit>)
    returns (selected: map<string, CargoUnit>)
    ensures IsClosure(selected.Keys, UnitIds(initial), n => CargoNext(reverse, known, n))
  {
    hide Progress, Expanding, IsClosure, CargoNext;
    ghost var universe := UnitIds(initial) + set p | p in known :: known[p].id;
    ghost var next := n => CargoNext(reverse, known, n);
    selected := map[];
    var queue := [];
    for i := 0 to |initial|
      invariant selected.Keys == UnitIds(initial[..i]) && (set n | n in queue) == selected.Keys
    {
      assert initial[..i + 1] == initial[..i] + [initial[i]];
      if initial[i].id !in selected {
        queue := queue + [initial[i].id];
      }
      selected := selected[initial[i].id := initial[i]];
    }
    assert initial[..|initial|] == initial;
    Begun(selected.Keys, queue, next);
    while queue != []
      invariant selected.Keys <= universe
      invariant Progress(selected.Keys, queue, UnitIds(initial), next)
      decreases |universe - selected.Keys|, |queue|
    {
      BeginExpanding(selected.Keys, queue, UnitIds(initial), next);
      selected, queue := ExpandUnit(queue[0], reverse, known, UnitIds(initial), selected, queue[1..], universe);
    }
    Finished(selected.Keys, UnitIds(initial), next);
  }
}
