/**
 * Publishing the packages of a release against a registry that may lag, fail, race with another
 * publisher or lie. The registry is an arbitrary `World`: every call gets whatever answer the world
 * holds for that moment.
 */
module Publisher {
  import opened Common
  import opened PublicationPlan
  import Versions

  datatype Channel = Stable | Nightly

  datatype Observation = Observation(sri: string, tarballSha512: string, manifestSha256: string,
                                     internalDependencies: map<string, string>, latest: Option<string>)

  /** The outcome of one look at the registry; a throw is either a visibility lag or final. */
  datatype Look = Absent | Seen(observation: Observation) | Lagging | Broken

  /** The answers of the outside world, by the number of calls made so far. */
  datatype World = World(tarballOk: nat -> bool, observe: nat -> Look, publishOk: nat -> bool)

  datatype Event = ReadTarball(name: string) | Observe(name: string, look: Look) | Publish(name: string) | Verified(name: string)

  datatype PublishError = BadTarball | Conflict | PublishFailed | NeverVisible | LookFailed | NotPlanned(error: PlanError)

  datatype Classification = MustPublish | Skip | Conflicts

  function ClassifyRegistryObservation(expected: Record, observation: Option<Observation>): (c: Classification)
    ensures c == MustPublish <==> observation.None?
    ensures c == Skip <==> observation.Some? && SameBytes(expected, observation.value)
  {
    match observation
    case None => MustPublish
    case Some(o) =>
      if SameBytes(expected, o) then Skip else Conflicts
  }

  predicate SameBytes(expected: Record, o: Observation) {
    && o.sri == expected.expectedSri && o.tarballSha512 == expected.tarballSha512
    && o.manifestSha256 == expected.manifestSha256 && o.internalDependencies == expected.internalDependencies
  }

  /** The registry shows exactly the expected bytes, under a tag that names exactly this version. */
  predicate IsExact(record: Record, o: Observation, channel: Channel) {
    && SameBytes(record, o) && o.latest == Some(record.version)
    && (channel.Stable? ==> Versions.IsStable(record.version))
  }

  /** There is only one exact observation of a record: the one with its evidence, tagged with its version. */
  lemma {:induction false} ExactIs(record: Record, o: Observation, channel: Channel)
    ensures IsExact(record, o, channel) <==>
      o == Observation(record.expectedSri, record.tarballSha512, record.manifestSha256, record.internalDependencies, Some(record.version)) &&
      (channel == Stable ==> Versions.IsStable(record.version))
  {
    hide Versions.IsStable;
  }

  predicate ExactLook(record: Record, look: Look, channel: Channel) {
    look.Seen? && IsExact(record, look.observation, channel)
  }

  /** The exactness test, with the stable-channel downgrade test before it. */
  method AssertExactRegistryObservation(record: Record, o: Observation, channel: Channel) returns (ok: bool)
    ensures ok <==> IsExact(record, o, channel)
  {
    if o.latest.None? { return false; }
    var tagged := o.latest.value;
    if channel.Stable? {
      var comparison := Versions.CompareStableVersions(tagged, record.version);
      if comparison.Err? || comparison.value < 0 { return false; }
    }
    if tagged != record.version || ClassifyRegistryObservation(record, Some(o)) != Skip { return false; }
    return true;
  }

  // ---------------------------------------------------------------------- one package

  function Looks(ev: seq<Event>): (n: nat) {
    if ev == [] then 0 else Looks(ev[..|ev| - 1]) + (if ev[|ev| - 1].Observe? then 1 else 0)
  }

  function Publishes(ev: seq<Event>): (n: nat) {
    if ev == [] then 0 else Publishes(ev[..|ev| - 1]) + (if ev[|ev| - 1].Publish? then 1 else 0)
  }

  /**
   * What the calls for one package may look like: only about that package; a publish only right
   * after seeing the version absent; a verification only right after an exact look.
   */
  ghost predicate Proper(record: Record, channel: Channel, ev: seq<Event>) {
    && (forall p :: 0 <= p < |ev| ==> ev[p].name == record.name)
    && (forall p :: 0 <= p < |ev| && ev[p].Publish? ==> p > 0 && ev[p - 1] == Observe(record.name, Absent))
    && (forall p :: 0 <= p < |ev| && ev[p].Verified? ==> p > 0 && VerifiedBy(record, channel, ev[p - 1]))
  }

  ghost predicate VerifiedBy(record: Record, channel: Channel, e: Event) {
    e.Observe? && e.name == record.name && ExactLook(record, e.look, channel)
  }

  ghost predicate NotVerified(ev: seq<Event>) {
    forall p :: 0 <= p < |ev| ==> !ev[p].Verified?
  }

  /** Every look in the trace is what the registry answered at that moment. */
  ghost predicate Answered(world: World, start: nat, ev: seq<Event>) {
    forall p :: 0 <= p < |ev| && ev[p].Observe? ==> ev[p].look == world.observe(start + p)
  }

  lemma {:induction false} OneMoreLook(record: Record, channel: Channel, world: World, start: nat, ev: seq<Event>)
    requires Proper(record, channel, ev) && NotVerified(ev) && Answered(world, start, ev)
    ensures var ev' := ev + [Observe(record.name, world.observe(start + |ev|))];
      Proper(record, channel, ev') && NotVerified(ev') && Answered(world, start, ev')
  {
    hide ExactLook;
  }

  lemma {:induction false} CallsWithOneMore(ev: seq<Event>, e: Event)
    ensures Looks(ev + [e]) == Looks(ev) + (if e.Observe? then 1 else 0)
    ensures Publishes(ev + [e]) == Publishes(ev) + (if e.Publish? then 1 else 0)
  {
    assert (ev + [e])[..|ev|] == ev;
  }

  /** A look that must be exact or absent; `Ok(None)` is absent. */
  method Look1(record: Record, channel: Channel, world: World, start: nat, ev: seq<Event>)
    returns (r: Result<Option<Observation>, PublishError>, ev': seq<Event>)
    requires Proper(record, channel, ev) && NotVerified(ev) && Answered(world, start, ev)
    ensures ev' == ev + [Observe(record.name, world.observe(start + |ev|))]
    ensures Proper(record, channel, ev') && NotVerified(ev') && Answered(world, start, ev')
    ensures Looks(ev') == Looks(ev) + 1 && Publishes(ev') == Publishes(ev)
    ensures r == Ok(None) <==> ev'[|ev|].look == Absent
    ensures r.Err? <==> ev'[|ev|].look == Lagging || ev'[|ev|].look == Broken
    ensures r.Err? ==> r.error == LookFailed
    ensures r.Ok? && r.value.Some? ==> ev'[|ev|].look == Seen(r.value.value)
  {
    hide Proper, NotVerified, Answered, Looks, Publishes;
    var look := world.observe(start + |ev|);
    OneMoreLook(record, channel, world, start, ev);
    CallsWithOneMore(ev, Observe(record.name, look));
    ev' := ev + [Observe(record.name, look)];
    match look
    case Absent => r := Ok(None);
    case Seen(o) => r := Ok(Some(o));
    case Lagging => r := Err(LookFailed);
    case Broken => r := Err(LookFailed);
  }

  /** Success means that an exact look came last; after a failure nothing has been verified. */
  ghost predicate Concluded(record: Record, channel: Channel, r: Result<Observation, PublishError>, ev: seq<Event>) {
    && (r.Ok? <==> |ev| > 0 && ev[|ev| - 1] == Verified(record.name))
    && (r.Ok? ==> IsExact(record, r.value, channel) && |ev| > 1 && ev[|ev| - 2] == Observe(record.name, Seen(r.value)))
    && (r.Ok? ==> NotVerified(ev[..|ev| - 1]))
    && (r.Err? ==> NotVerified(ev) && !r.error.NotPlanned?)
  }

  lemma {:induction false} FailureConcludes(record: Record, channel: Channel, error: PublishError, ev: seq<Event>)
    requires NotVerified(ev) && !error.NotPlanned?
    ensures Concluded(record, channel, Err(error), ev)
  {
    hide IsExact;
    assert |ev| > 0 ==> !ev[|ev| - 1].Verified?;
  }

  /** Accepting an observation: verified if it is exact, a conflict if it is not. */
  method Accept(record: Record, channel: Channel, o: Observation, ghost world: World, ghost start: nat, ev: seq<Event>)
    returns (r: Result<Observation, PublishError>, ev': seq<Event>)
    requires Proper(record, channel, ev) && NotVerified(ev)
    requires ev != [] && ev[|ev| - 1] == Observe(record.name, Seen(o)) && Answered(world, start, ev)
    ensures r.Ok? <==> IsExact(record, o, channel)
    ensures r.Ok? ==> r.value == o && ev' == ev + [Verified(record.name)]
    ensures r.Err? ==> ev' == ev && r.error == Conflict
    ensures Proper(record, channel, ev') && Looks(ev') == Looks(ev) && Publishes(ev') == Publishes(ev)
    ensures Concluded(record, channel, r, ev') && Answered(world, start, ev')
  {
    hide IsExact, Looks, Publishes;
    var ok := AssertExactRegistryObservation(record, o, channel);
    if !ok {
      FailureConcludes(record, channel, Conflict, ev);
      return Err(Conflict), ev;
    }
    CallsWithOneMore(ev, Verified(record.name));
    r, ev' := Ok(o), ev + [Verified(record.name)];
    assert ev'[..|ev|] == ev;
  }

  lemma {:induction false} FirstCall(record: Record, channel: Channel, world: World, start: nat)
    ensures var ev := [ReadTarball(record.name)];
      Proper(record, channel, ev) && NotVerified(ev) && Answered(world, start, ev) && Looks(ev) == 0 && Publishes(ev) == 0
  {
    assert [ReadTarball(record.name)][..0] == [];
  }

  lemma {:induction false} PublishCall(record: Record, channel: Channel, world: World, start: nat, ev: seq<Event>)
    requires Proper(record, channel, ev) && NotVerified(ev) && Answered(world, start, ev)
    requires ev != [] && ev[|ev| - 1] == Observe(record.name, Absent)
    ensures var ev' := ev + [Publish(record.name)];
      Proper(record, channel, ev') && NotVerified(ev') && Answered(world, start, ev') &&
      Looks(ev') == Looks(ev) && Publishes(ev') == Publishes(ev) + 1
  {
    hide VerifiedBy, Looks, Publishes;
    CallsWithOneMore(ev, Publish(record.name));
  }

  // Waiting for a version to become visible, from the registry's answer at moment `from` on.

  ghost predicate WaitsAt(world: World, from: nat, b: nat) {
    world.observe(from + b) == Absent || world.observe(from + b) == Lagging
  }

  ghost predicate WaitsUntil(world: World, from: nat, n: nat) {
    forall b: nat :: b < n ==> WaitsAt(world, from, b)
  }

  /** After `n` looks at a version that is not there yet, the next look is the last one. */
  ghost predicate StopsAfter(world: World, from: nat, retries: nat, n: nat) {
    n <= retries && WaitsUntil(world, from, n) && (n == retries || !WaitsAt(world, from, n))
  }

  ghost predicate ExactAfter(record: Record, channel: Channel, world: World, from: nat, a: nat) {
    WaitsUntil(world, from, a) && ExactLook(record, world.observe(from + a), channel)
  }

  /** Within the retries the version is shown exactly, and until then it only lags or is absent. */
  ghost predicate BecomesExact(record: Record, channel: Channel, retries: nat, world: World, from: nat) {
    exists a: nat :: a <= retries && ExactAfter(record, channel, world, from, a)
  }

  lemma {:induction false} LastLookDecides(record: Record, channel: Channel, retries: nat, world: World, from: nat, n: nat)
    requires StopsAfter(world, from, retries, n)
    ensures BecomesExact(record, channel, retries, world, from) <==> ExactLook(record, world.observe(from + n), channel)
  {
    hide IsExact;
    if ExactLook(record, world.observe(from + n), channel) {
      assert ExactAfter(record, channel, world, from, n);
    }
    if BecomesExact(record, channel, retries, world, from) {
      var a: nat :| a <= retries && ExactAfter(record, channel, world, from, a);
      assert a < n ==> WaitsAt(world, from, a);
    }
  }

  lemma {:induction false} NoWaitYet(world: World, from: nat)
    ensures WaitsUntil(world, from, 0)
  {
  }

  lemma {:induction false} WaitsOnceMore(world: World, from: nat, n: nat)
    requires WaitsUntil(world, from, n) && WaitsAt(world, from, n)
    ensures WaitsUntil(world, from, n + 1)
  {
  }

  /** The calls for `n` looks in a row. */
  ghost function LooksFrom(name: string, world: World, from: nat, n: nat): (ev: seq<Event>)
    ensures |ev| == n
  {
    if n == 0 then [] else LooksFrom(name, world, from, n - 1) + [Observe(name, world.observe(from + n - 1))]
  }

  lemma {:induction false} LooksOnceMore(name: string, world: World, from: nat, n: nat, ev: seq<Event>)
    ensures LooksFrom(name, world, from, 0) == []
    ensures ev + LooksFrom(name, world, from, n) + [Observe(name, world.observe(from + n))] ==
      ev + LooksFrom(name, world, from, n + 1)
  {
  }

  /** When publishing a package succeeds, in terms of the answers of the world. */
  ghost predicate Succeeds(record: Record, channel: Channel, retries: nat, world: World, start: nat) {
    && world.tarballOk(start)
    && (ExactLook(record, world.observe(start + 1), channel) ||
        (world.observe(start + 1) == Absent &&
         if world.publishOk(start + 3) then BecomesExact(record, channel, retries, world, start + 3)
         else ExactLook(record, world.observe(start + 3), channel)))
  }

  /**
   * Publishing one retained tarball. Whatever the registry answers: publish is called at most once
   * and only right after an absent look; it succeeds exactly if the world lets it, and then the last
   * look was exact; and there are at most `retries + 2` looks, one if publish is not called and two
   * if it fails.
   */
  method PublishRetainedPackage(record: Record, channel: Channel, retries: nat, world: World, start: nat)
    returns (r: Result<Observation, PublishError>, ev: seq<Event>)
    ensures Proper(record, channel, ev) && Answered(world, start, ev)
    ensures Publishes(ev) <= 1 && Looks(ev) <= retries + 2
    ensures Publishes(ev) == 1 <==> world.tarballOk(start) && world.observe(start + 1) == Absent
    ensures Publishes(ev) == 0 ==> Looks(ev) <= 1
    ensures Publishes(ev) == 1 && !world.publishOk(start + 3) ==> Looks(ev) == 2
    ensures r.Ok? <==> Succeeds(record, channel, retries, world, start)
    ensures Concluded(record, channel, r, ev)
  {
    hide Proper, NotVerified, Concluded, IsExact, Looks, Publishes, Answered, BecomesExact, StopsAfter;
    FirstCall(record, channel, world, start);
    ev := [ReadTarball(record.name)];
    if !world.tarballOk(start) {
      FailureConcludes(record, channel, BadTarball, ev);
      return Err(BadTarball), ev;
    }
    var first;
    first, ev := Look1(record, channel, world, start, ev);
    if first.Err? {
      FailureConcludes(record, channel, first.error, ev);
      return Err(first.error), ev;
    }
    if first.value.Some? {
      r, ev := Accept(record, channel, first.value.value, world, start, ev);
      return;
    }
    PublishCall(record, channel, world, start, ev);
    ev := ev + [Publish(record.name)];
    if !world.publishOk(start + |ev|) {
      r, ev := AfterFailedPublish(record, channel, world, start, ev);
    } else {
      r, ev := AwaitVisibility(record, channel, retries, world, start, ev);
    }
  }

  /** A failed publish is fine exactly if someone else has published exactly the same bytes. */
  method AfterFailedPublish(record: Record, channel: Channel, world: World, start: nat, ev: seq<Event>)
    returns (r: Result<Observation, PublishError>, ev': seq<Event>)
    requires Proper(record, channel, ev) && NotVerified(ev) && Publishes(ev) == 1 && Answered(world, start, ev)
    ensures Proper(record, channel, ev') && Publishes(ev') == 1 && Looks(ev') == Looks(ev) + 1 && Answered(world, start, ev')
    ensures r.Ok? <==> ExactLook(record, world.observe(start + |ev|), channel)
    ensures Concluded(record, channel, r, ev')
  {
    hide Proper, NotVerified, Concluded, IsExact, Looks, Publishes, Answered;
    var raced;
    raced, ev' := Look1(record, channel, world, start, ev);
    if raced.Err? || raced.value.None? {
      r := Err(if raced.Err? then raced.error else PublishFailed);
      FailureConcludes(record, channel, r.error, ev');
      return;
    }
    r, ev' := Accept(record, channel, raced.value.value, world, start, ev');
  }

  /**
   * After a successful publish: look again, at most `retries + 1` times, as long as the version lags or
   * is absent. The first other look decides, or the last one.
   */
  method AwaitVisibility(record: Record, channel: Channel, retries: nat, world: World, start: nat, ev: seq<Event>)
    returns (r: Result<Observation, PublishError>, ev': seq<Event>)
    requires Proper(record, channel, ev) && NotVerified(ev) && Publishes(ev) == 1 && Answered(world, start, ev)
    ensures Proper(record, channel, ev') && Publishes(ev') == 1 && Looks(ev) < Looks(ev') <= Looks(ev) + retries + 1
    ensures Answered(world, start, ev')
    ensures var n := Looks(ev') - Looks(ev) - 1;
      StopsAfter(world, start + |ev|, retries, n) &&
      ev' == ev + LooksFrom(record.name, world, start + |ev|, n + 1) + (if r.Ok? then [Verified(record.name)] else [])
    ensures r.Ok? <==> BecomesExact(record, channel, retries, world, start + |ev|)
    ensures Concluded(record, channel, r, ev')
  {
    hide Proper, NotVerified, Concluded, IsExact, Looks, Publishes, Answered, WaitsUntil, BecomesExact, LooksFrom;
    ghost var from := start + |ev|;
    LooksOnceMore(record.name, world, from, 0, ev);
    NoWaitYet(world, from);
    ev' := ev;
    var attempt := 0;
    var observed: Option<Observation> := None;
    while true
      invariant 0 <= attempt <= retries && observed == None
      invariant Proper(record, channel, ev') && NotVerified(ev') && Publishes(ev') == 1 && Answered(world, start, ev')
      invariant Looks(ev') == Looks(ev) + attempt
      invariant ev' == ev + LooksFrom(record.name, world, from, attempt) && WaitsUntil(world, from, attempt)
      decreases retries - attempt
    {
      var lagging := world.observe(start + |ev'|) == Lagging;
      var look;
      look, ev' := Look1(record, channel, world, start, ev');
      LooksOnceMore(record.name, world, from, attempt, ev);
      if WaitsAt(world, from, attempt) { WaitsOnceMore(world, from, attempt); }
      if attempt == retries || !WaitsAt(world, from, attempt) { LastLookDecides(record, channel, retries, world, from, attempt); }
      if look.Err? {
        if attempt < retries && lagging {
          attempt := attempt + 1;
          continue;
        }
        FailureConcludes(record, channel, look.error, ev');
        return Err(look.error), ev';
      }
      observed := look.value;
      if observed.Some? || attempt >= retries { break; }
      attempt := attempt + 1;
    }
    if observed.None? {
      FailureConcludes(record, channel, NeverVisible, ev');
      return Err(NeverVisible), ev';
    }
    r, ev' := Accept(record, channel, observed.value, world, start, ev');
  }

  // ---------------------------------------------------------------------- a whole release

  /**
   * What a publication run may look like at every point: a publish comes right after an absent look
   * at the same package, happens once for a package, and only after every internal dependency of
   * the package has been verified; and a package is verified only right after an exact look at it.
   */
  ghost predicate SafeRun(plan: seq<Record>, channel: Channel, trace: seq<Event>) {
    && (forall p :: 0 <= p < |trace| && trace[p].Publish? ==> SafePublish(plan, trace, p))
    && (forall p :: 0 <= p < |trace| && trace[p].Verified? ==> SafeVerified(plan, channel, trace, p))
    && (forall p, q :: 0 <= p < q < |trace| && trace[p].Publish? && trace[q].Publish? ==> trace[p].name != trace[q].name)
  }

  ghost predicate SafePublish(plan: seq<Record>, trace: seq<Event>, p: nat)
    requires p < |trace|
  {
    && p > 0 && trace[p - 1] == Observe(trace[p].name, Absent)
    && (exists r :: r in plan && r.name == trace[p].name)
    && (forall r, d :: r in plan && r.name == trace[p].name && d in r.internalDependencies ==> Verified(d) in trace[..p])
  }

  ghost predicate SafeVerified(plan: seq<Record>, channel: Channel, trace: seq<Event>, p: nat)
    requires p < |trace|
  {
    p > 0 && exists r :: r in plan && r.name == trace[p].name && VerifiedBy(r, channel, trace[p - 1])
  }

  /** Safety holds at every point of the run, not only at its end. */
  lemma {:induction false} SafeAtEveryPoint(plan: seq<Record>, channel: Channel, trace: seq<Event>, n: nat)
    requires SafeRun(plan, channel, trace) && n <= |trace|
    ensures SafeRun(plan, channel, trace[..n])
  {
    hide VerifiedBy;
    var t := trace[..n];
    forall p | 0 <= p < |t| && t[p].Publish? ensures SafePublish(plan, t, p) {
      assert SafePublish(plan, trace, p);
      assert t[..p] == trace[..p];
    }
    forall p | 0 <= p < |t| && t[p].Verified? ensures SafeVerified(plan, channel, t, p) {
      assert SafeVerified(plan, channel, trace, p);
    }
  }

  lemma {:induction false} PublishedOnce(ev: seq<Event>, p: nat, q: nat)
    requires p < q < |ev| && ev[p].Publish? && ev[q].Publish?
    ensures Publishes(ev) >= 2
    decreases |ev|
  {
    var n := |ev| - 1;
    if q == n {
      PublishedAtLeastOnce(ev[..n], p);
    } else {
      PublishedOnce(ev[..n], p, q);
    }
  }

  lemma {:induction false} PublishedAtLeastOnce(ev: seq<Event>, p: nat)
    requires p < |ev| && ev[p].Publish?
    ensures Publishes(ev) >= 1
    decreases |ev|
  {
    var n := |ev| - 1;
    if p < n { PublishedAtLeastOnce(ev[..n], p); }
  }

  /** What has happened when the first `k` packages of the plan are done. */
  ghost predicate DoneFirst(plan: seq<Record>, k: nat, trace: seq<Event>)
    requires k <= |plan|
  {
    && (forall p :: 0 <= p < |trace| ==> HasRecord(plan[..k], trace[p].name))
    && (forall j :: 0 <= j < k ==> Verified(plan[j].name) in trace)
  }

  /** Appending the calls for the next package of the plan. */
  lemma {:induction false} NextPackage(plan: seq<Record>, k: nat, channel: Channel, trace: seq<Event>, ev: seq<Event>)
    requires DependenciesFirst(plan) && DistinctNames(plan) && k < |plan| && SafeRun(plan, channel, trace)
    requires DoneFirst(plan, k, trace) && Proper(plan[k], channel, ev) && Publishes(ev) <= 1
    ensures SafeRun(plan, channel, trace + ev)
  {
    PublishedSafely(plan, k, channel, trace, ev);
    VerifiedSafely(plan, k, channel, trace, ev);
    PublishedApart(plan, k, channel, trace, ev);
    hide SafePublish, SafeVerified, Proper, DoneFirst, DependenciesFirst;
  }

  lemma {:induction false} PublishedSafely(plan: seq<Record>, k: nat, channel: Channel, trace: seq<Event>, ev: seq<Event>)
    requires DependenciesFirst(plan) && DistinctNames(plan) && k < |plan| && SafeRun(plan, channel, trace)
    requires DoneFirst(plan, k, trace) && Proper(plan[k], channel, ev)
    ensures forall p :: 0 <= p < |trace + ev| && (trace + ev)[p].Publish? ==> SafePublish(plan, trace + ev, p)
  {
    hide DependenciesFirst, SafeVerified, Proper, DoneFirst;
    var t := trace + ev;
    forall p | 0 <= p < |t| && t[p].Publish? ensures SafePublish(plan, t, p) {
      if p < |trace| {
        assert SafePublish(plan, trace, p);
        assert t[..p] == trace[..p];
      } else {
        PublishInNext(plan, k, channel, trace, ev, p);
      }
    }
  }

  lemma {:induction false} VerifiedSafely(plan: seq<Record>, k: nat, channel: Channel, trace: seq<Event>, ev: seq<Event>)
    requires k < |plan| && SafeRun(plan, channel, trace) && Proper(plan[k], channel, ev)
    ensures forall p :: 0 <= p < |trace + ev| && (trace + ev)[p].Verified? ==> SafeVerified(plan, channel, trace + ev, p)
  {
    hide VerifiedBy, SafePublish;
    var t := trace + ev;
    forall p | 0 <= p < |t| && t[p].Verified? ensures SafeVerified(plan, channel, t, p) {
      if p < |trace| {
        assert SafeVerified(plan, channel, trace, p);
      } else {
        assert t[p] == ev[p - |trace|] && t[p - 1] == ev[p - |trace| - 1] && plan[k] in plan;
      }
    }
  }

  lemma {:induction false} PublishedApart(plan: seq<Record>, k: nat, channel: Channel, trace: seq<Event>, ev: seq<Event>)
    requires DistinctNames(plan) && k < |plan| && SafeRun(plan, channel, trace) && DoneFirst(plan, k, trace)
    requires Proper(plan[k], channel, ev) && Publishes(ev) <= 1
    ensures var t := trace + ev;
      forall p, q :: 0 <= p < q < |t| && t[p].Publish? && t[q].Publish? ==> t[p].name != t[q].name
  {
    hide SafePublish, SafeVerified, VerifiedBy;
    var t := trace + ev;
    forall p, q | 0 <= p < q < |t| && t[p].Publish? && t[q].Publish? ensures t[p].name != t[q].name {
      if |trace| <= p {
        assert t[p] == ev[p - |trace|] && t[q] == ev[q - |trace|];
        PublishedOnce(ev, p - |trace|, q - |trace|);
      } else if |trace| <= q {
        assert t[q] == ev[q - |trace|];
        assert HasRecord(plan[..k], trace[p].name);
      }
    }
  }

  lemma {:induction false} PublishInNext(plan: seq<Record>, k: nat, channel: Channel, trace: seq<Event>, ev: seq<Event>, p: nat)
    requires DependenciesFirst(plan) && DistinctNames(plan) && k < |plan| && DoneFirst(plan, k, trace)
    requires Proper(plan[k], channel, ev) && |trace| <= p < |trace + ev| && (trace + ev)[p].Publish?
    ensures SafePublish(plan, trace + ev, p)
  {
    var t := trace + ev;
    var q := p - |trace|;
    assert t[p] == ev[q] && ev[q - 1] == t[p - 1];
    assert plan[k] in plan && plan[k].name == t[p].name;
    forall r, d | r in plan && r.name == t[p].name && d in r.internalDependencies ensures Verified(d) in t[..p] {
      SameName(plan, r, plan[k]);
      assert HasRecord(plan[..k], d);
      var j :| 0 <= j < k && plan[..k][j].name == d;
      assert Verified(plan[j].name) in trace;
      assert trace == t[..p][..|trace|];
    }
  }

  /** Every package of the plan so far is verified exact, with the observation that proved it. */
  ghost predicate AllExact(plan: seq<Record>, k: nat, channel: Channel, observations: map<string, Observation>)
    requires k <= |plan|
  {
    && (forall n :: n in observations <==> HasRecord(plan[..k], n))
    && (forall j :: 0 <= j < k ==> plan[j].name in observations && IsExact(plan[j], observations[plan[j].name], channel))
  }

  lemma {:induction false} NoneExact(plan: seq<Record>, channel: Channel)
    ensures AllExact(plan, 0, channel, map[])
  {
  }

  ghost predicate AllVerified(plan: seq<Record>, trace: seq<Event>) {
    forall j :: 0 <= j < |plan| ==> Verified(plan[j].name) in trace
  }

  /** The observation kept for each package is one that the registry gave. */
  ghost predicate AllShown(plan: seq<Record>, k: nat, trace: seq<Event>, observations: map<string, Observation>)
    requires k <= |plan|
  {
    forall j :: 0 <= j < k ==> plan[j].name in observations && Observe(plan[j].name, Seen(observations[plan[j].name])) in trace
  }

  lemma {:induction false} MoreShown(plan: seq<Record>, k: nat, trace: seq<Event>, ev: seq<Event>, observations: map<string, Observation>, o: Observation)
    requires k < |plan| && DistinctNames(plan) && AllShown(plan, k, trace, observations)
    requires Observe(plan[k].name, Seen(o)) in ev
    ensures AllShown(plan, k + 1, trace + ev, observations[plan[k].name := o])
  {
  }

  /** Publishing a plan in order, stopping at the first failure. */
  method PublishInOrder(plan: seq<Record>, channel: Channel, retries: nat, world: World)
    returns (r: Result<map<string, Observation>, PublishError>, trace: seq<Event>)
    requires DependenciesFirst(plan) && DistinctNames(plan)
    ensures SafeRun(plan, channel, trace) && Answered(world, 0, trace)
    ensures r.Ok? ==> AllExact(plan, |plan|, channel, r.value) && AllShown(plan, |plan|, trace, r.value)
    ensures r.Ok? <==> AllVerified(plan, trace)
    ensures r.Err? ==> !r.error.NotPlanned?
  {
    hide SafeRun, AllExact, AllShown, Proper, Answered, DependenciesFirst, IsExact;
    trace := [];
    var observations: map<string, Observation> := map[];
    NoneExact(plan, channel);
    NothingYet(plan, channel, world);
    for k := 0 to |plan|
      invariant SafeRun(plan, channel, trace) && Answered(world, 0, trace)
      invariant DoneFirst(plan, k, trace)
      invariant AllExact(plan, k, channel, observations) && AllShown(plan, k, trace, observations)
    {
      var one, ev := PublishRetainedPackage(plan[k], channel, retries, world, |trace|);
      NextPackage(plan, k, channel, trace, ev);
      AnsweredMore(world, trace, ev);
      if one.Err? {
        NotYet(plan, k, channel, trace, ev);
        return Err(one.error), trace + ev;
      }
      MoreExact(plan, k, channel, observations, one.value);
      assert ev[|ev| - 2] == Observe(plan[k].name, Seen(one.value));
      MoreShown(plan, k, trace, ev, observations, one.value);
      MoreDone(plan, k, channel, trace, ev);
      observations := observations[plan[k].name := one.value];
      trace := trace + ev;
    }
    return Ok(observations), trace;
  }

  lemma {:induction false} NothingYet(plan: seq<Record>, channel: Channel, world: World)
    ensures SafeRun(plan, channel, []) && Answered(world, 0, []) && DoneFirst(plan, 0, []) && AllShown(plan, 0, [], map[])
  {
  }

  lemma {:induction false} MoreDone(plan: seq<Record>, k: nat, channel: Channel, trace: seq<Event>, ev: seq<Event>)
    requires k < |plan| && DoneFirst(plan, k, trace) && Proper(plan[k], channel, ev)
    requires ev != [] && ev[|ev| - 1] == Verified(plan[k].name)
    ensures DoneFirst(plan, k + 1, trace + ev)
  {
    hide VerifiedBy;
    var t, names := trace + ev, plan[..k + 1];
    assert t[|t| - 1] == Verified(plan[k].name);
    forall p | 0 <= p < |t| ensures HasRecord(names, t[p].name) {
      if p < |trace| {
        assert HasRecord(plan[..k], trace[p].name);
        var j :| 0 <= j < k && plan[..k][j].name == trace[p].name;
        assert names[j] == plan[..k][j];
      } else {
        assert t[p] == ev[p - |trace|] && names[k] == plan[k];
      }
    }
  }

  lemma {:induction false} AnsweredMore(world: World, trace: seq<Event>, ev: seq<Event>)
    requires Answered(world, 0, trace) && Answered(world, |trace|, ev)
    ensures Answered(world, 0, trace + ev)
  {
    forall p | 0 <= p < |trace + ev| && (trace + ev)[p].Observe? ensures (trace + ev)[p].look == world.observe(0 + p) {
      if p >= |trace| { assert ev[p - |trace|].look == world.observe(|trace| + (p - |trace|)); }
    }
  }

  lemma {:induction false} NotYet(plan: seq<Record>, k: nat, channel: Channel, trace: seq<Event>, ev: seq<Event>)
    requires DistinctNames(plan) && k < |plan| && NotVerified(ev) && DoneFirst(plan, k, trace)
    ensures Verified(plan[k].name) !in trace + ev
  {
    forall p | 0 <= p < |trace| ensures trace[p].name != plan[k].name {
      assert HasRecord(plan[..k], trace[p].name);
    }
  }

  lemma {:induction false} MoreExact(plan: seq<Record>, k: nat, channel: Channel, observations: map<string, Observation>, o: Observation)
    requires k < |plan| && DistinctNames(plan) && AllExact(plan, k, channel, observations) && IsExact(plan[k], o, channel)
    ensures AllExact(plan, k + 1, channel, observations[plan[k].name := o])
  {
  }

  /**
   * The whole run from evidence to registry: nothing is called unless the records have a plan, and
   * then the run follows that plan and is safe at every point, even if it is cut short. It succeeds
   * exactly if every package of the plan was verified, and returns what the registry showed.
   */
  method PublishExpectedEvidencePackages(packages: seq<string>, defs: seq<Definition>, records: seq<Record>,
                                         channel: Channel, retries: nat, world: World)
    returns (r: Result<map<string, Observation>, PublishError>, trace: seq<Event>, ghost plan: seq<Record>)
    ensures r.Err? && r.error.NotPlanned? <==> !HasPlan(packages, defs, records)
    ensures r.Err? && r.error.NotPlanned? ==> trace == []
    ensures HasPlan(packages, defs, records) ==>
      IsThePlan(packages, defs, records, plan) && SafeRun(plan, channel, trace) && Answered(world, 0, trace)
    ensures HasPlan(packages, defs, records) ==> (r.Ok? <==> AllVerified(plan, trace))
    ensures r.Ok? ==> AllExact(plan, |plan|, channel, r.value) && AllShown(plan, |plan|, trace, r.value)
  {
    hide HasPlan, IsThePlan, SafeRun, AllExact, AllShown, AllVerified, DependenciesFirst, HasCycle, DistinctNames, Answered;
    plan, trace := [], [];
    var planned := PlanExpectedEvidencePublication(packages, defs, records);
    if planned.Err? {
      r := Err(NotPlanned(planned.error));
      return;
    }
    plan := planned.value;
    PlanPutsDependenciesFirst(packages, defs, records, plan);
    PlanIsAPermutation(packages, defs, records, plan);
    r, trace := PublishInOrder(planned.value, channel, retries, world);
  }

  /**
   * In a run of the plan, whatever its outcome, a package is published only after the registry has
   * shown each of its internal dependencies exactly as the evidence records it.
   */
  lemma {:induction false} DependenciesWereExact(packages: seq<string>, defs: seq<Definition>, records: seq<Record>, plan: seq<Record>,
                                                 channel: Channel, world: World, trace: seq<Event>, p: nat, x: Record, d: string)
    requires IsThePlan(packages, defs, records, plan) && SafeRun(plan, channel, trace) && Answered(world, 0, trace)
    requires p < |trace| && trace[p] == Publish(x.name) && x in records && d in x.internalDependencies
    ensures exists q: nat, y :: q < p && y in records && y.name == d && ExactLook(y, world.observe(q), channel)
  {
    hide IsThePlan, ExactLook;
    PlanIsAPermutation(packages, defs, records, plan);
    assert SafePublish(plan, trace, p);
    var v :| 0 <= v < p && trace[..p][v] == Verified(d);
    assert SafeVerified(plan, channel, trace, v);
    var y :| y in plan && y.name == trace[v].name && VerifiedBy(y, channel, trace[v - 1]);
    assert trace[v - 1].look == world.observe(0 + (v - 1));
    assert ExactLook(y, world.observe(v - 1), channel);
  }

  /** The final sweep: it succeeds only if every package of the plan is seen exact once more. */
  method ReobserveExpectedEvidencePackages(packages: seq<string>, defs: seq<Definition>, records: seq<Record>, channel: Channel, world: World)
    returns (r: Result<map<string, Observation>, PublishError>, ghost plan: seq<Record>)
    ensures r.Err? && r.error.NotPlanned? <==> !HasPlan(packages, defs, records)
    ensures HasPlan(packages, defs, records) ==> IsThePlan(packages, defs, records, plan)
    ensures r.Ok? ==> AllExact(plan, |plan|, channel, r.value)
    ensures r.Ok? <==> HasPlan(packages, defs, records) &&
                       forall k :: 0 <= k < |plan| ==> ExactLook(plan[k], world.observe(k), channel)
  {
    hide HasPlan, IsThePlan, AllExact, ExactLook, HasCycle, DistinctNames;
    plan := [];
    var planned := PlanExpectedEvidencePublication(packages, defs, records);
    if planned.Err? {
      return Err(NotPlanned(planned.error)), plan;
    }
    plan := planned.value;
    PlanIsAPermutation(packages, defs, records, plan);
    r := ObserveAll(planned.value, channel, world);
  }

  method ObserveAll(plan: seq<Record>, channel: Channel, world: World) returns (r: Result<map<string, Observation>, PublishError>)
    requires DistinctNames(plan)
    ensures r.Err? ==> !r.error.NotPlanned?
    ensures r.Ok? ==> AllExact(plan, |plan|, channel, r.value)
    ensures r.Ok? <==> forall k :: 0 <= k < |plan| ==> ExactLook(plan[k], world.observe(k), channel)
  {
    hide AllExact, IsExact;
    var observations: map<string, Observation> := map[];
    NoneExact(plan, channel);
    for k := 0 to |plan|
      invariant AllExact(plan, k, channel, observations)
      invariant forall j :: 0 <= j < k ==> ExactLook(plan[j], world.observe(j), channel)
    {
      var look := world.observe(k);
      if !look.Seen? {
        assert !ExactLook(plan[k], world.observe(k), channel);
        return Err(if look.Absent? then NeverVisible else LookFailed);
      }
      var ok := AssertExactRegistryObservation(plan[k], look.observation, channel);
      assert ok <==> ExactLook(plan[k], world.observe(k), channel);
      if !ok { return Err(Conflict); }
      MoreExact(plan, k, channel, observations, look.observation);
      observations := observations[plan[k].name := look.observation];
    }
    return Ok(observations);
  }
}
