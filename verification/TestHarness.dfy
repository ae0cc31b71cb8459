/**
 * The sharded test harness. Its workers interleave only where they wait: after a claim, for the sandbox to be set up,
 * for the test process, and for the sandbox to be removed. Set-up and removal may throw, and then the harness does.
 */
module TestHarness {
  import opened Common

  // ---------------------------------------------------------------------- shards

  datatype Shard = Shard(index: nat, total: nat)

  predicate ValidShard(s: Shard) {
    1 <= s.index <= s.total
  }

  /** The files at the places that belong to a shard, among the first `n`. */
  function ShardOf(files: seq<string>, shard: Shard, n: nat): (r: seq<string>)
    requires ValidShard(shard) && n <= |files|
  {
    if n == 0 then []
    else ShardOf(files, shard, n - 1) + (if (n - 1) % shard.total == shard.index - 1 then [files[n - 1]] else [])
  }

  /** The files of a shard, or all of them if the harness is not sharded. */
  function SelectShard(files: seq<string>, shard: Option<Shard>): (r: seq<string>)
    requires shard.Some? ==> ValidShard(shard.value)
  {
    if shard.None? then files else ShardOf(files, shard.value, |files|)
  }

  /** What the first `k` of `total` shards hold together. */
  ghost function ShardsTogether(files: seq<string>, total: nat, k: nat, n: nat): (r: multiset<string>)
    requires k <= total && n <= |files|
  {
    if k == 0 then multiset{} else ShardsTogether(files, total, k - 1, n) + multiset(ShardOf(files, Shard(k, total), n))
  }

  lemma {:induction false} ShardNext(files: seq<string>, shard: Shard, n: nat, r: nat)
    requires ValidShard(shard) && 0 < n <= |files| && r == (n - 1) % shard.total
    ensures multiset(ShardOf(files, shard, n)) ==
      multiset(ShardOf(files, shard, n - 1)) + (if r == shard.index - 1 then multiset{files[n - 1]} else multiset{})
  {
  }

  lemma {:induction false} TogetherNext(files: seq<string>, total: nat, k: nat, n: nat, r: nat)
    requires k <= total && total > 0 && 0 < n <= |files| && r == (n - 1) % total
    ensures ShardsTogether(files, total, k, n) ==
      ShardsTogether(files, total, k, n - 1) + (if r < k then multiset{files[n - 1]} else multiset{})
  {
    hide ShardOf;
    if k > 0 {
      TogetherNext(files, total, k - 1, n, r);
      ShardNext(files, Shard(k, total), n, r);
    }
  }

  lemma {:induction false} TogetherNone(files: seq<string>, total: nat, k: nat)
    requires k <= total
    ensures ShardsTogether(files, total, k, 0) == multiset{}
  {
    if k > 0 { TogetherNone(files, total, k - 1); }
  }

  lemma {:induction false} TogetherFirst(files: seq<string>, total: nat, n: nat)
    requires total > 0 && n <= |files|
    ensures ShardsTogether(files, total, total, n) == multiset(files[..n])
  {
    hide ShardsTogether;
    if n == 0 {
      TogetherNone(files, total, total);
    } else {
      TogetherNext(files, total, total, n, (n - 1) % total);
      TogetherFirst(files, total, n - 1);
      assert files[..n] == files[..n - 1] + [files[n - 1]];
    }
  }

  /** The files that shards `1` to `k` of `total` select, counted together. */
  ghost function Selected(files: seq<string>, total: nat, k: nat): (r: multiset<string>)
    requires k <= total
  {
    if k == 0 then multiset{} else Selected(files, total, k - 1) + multiset(SelectShard(files, Some(Shard(k, total))))
  }

  lemma {:induction false} SelectedIsTogether(files: seq<string>, total: nat, k: nat)
    requires k <= total
    ensures Selected(files, total, k) == ShardsTogether(files, total, k, |files|)
  {
    hide ShardOf;
    if k > 0 { SelectedIsTogether(files, total, k - 1); }
  }

  /** All the shards together select every file exactly as often as the list holds it. */
  lemma {:induction false} ShardsPartition(files: seq<string>, total: nat)
    requires total > 0
    ensures Selected(files, total, total) == multiset(files)
  {
    SelectedIsTogether(files, total, total);
    TogetherFirst(files, total, |files|);
    assert files[..|files|] == files;
  }

  /** A file that the list holds once is in one shard only. */
  lemma {:induction false} ShardsDisjoint(files: seq<string>, total: nat, i: nat, j: nat, file: string)
    requires 1 <= i < j <= total && multiset(files)[file] == 1
    ensures file !in SelectShard(files, Some(Shard(i, total))) || file !in SelectShard(files, Some(Shard(j, total)))
  {
    ShardsPartition(files, total);
    SelectedIsTogether(files, total, total);
    TogetherHolds(files, total, i, j, total, |files|, file);
  }

  lemma {:induction false} TogetherHolds(files: seq<string>, total: nat, i: nat, j: nat, k: nat, n: nat, file: string)
    requires 1 <= i < j <= k <= total && n <= |files|
    ensures ShardsTogether(files, total, k, n)[file] >=
      multiset(ShardOf(files, Shard(i, total), n))[file] + multiset(ShardOf(files, Shard(j, total), n))[file]
  {
    hide ShardOf;
    if j < k { TogetherHolds(files, total, i, j, k - 1, n, file); } else { TogetherHoldsOne(files, total, i, k - 1, n, file); }
  }

  lemma {:induction false} TogetherHoldsOne(files: seq<string>, total: nat, i: nat, k: nat, n: nat, file: string)
    requires 1 <= i <= k <= total && n <= |files|
    ensures ShardsTogether(files, total, k, n)[file] >= multiset(ShardOf(files, Shard(i, total), n))[file]
  {
    hide ShardOf;
    if i < k { TogetherHoldsOne(files, total, i, k - 1, n, file); }
  }

  // ---------------------------------------------------------------------- the worker pool

  datatype Outcome = Outcome(exitCode: int, signal: Option<string>, timedOut: bool)

  predicate Failed(o: Outcome) {
    o.exitCode != 0 || o.timedOut || o.signal.Some?
  }

  datatype Stage = Claimed | Running | Cleaning(result: Outcome)

  datatype Worker =
    | Ready
    | Busy(index: nat, stage: Stage)
    | Stopped
    | Thrown(index: nat, stage: Stage)

  /** `runs` counts the test processes started for each file; `given` is what the runner answered. */
  datatype Pool = Pool(files: seq<string>, claimed: nat, workers: seq<Worker>, outcomes: seq<Option<Outcome>>,
                       runs: seq<nat>, given: seq<Option<Outcome>>)

  function Start(files: seq<string>, concurrency: nat): (p: Pool) {
    var n := |files|;
    Pool(files, 0, seq(if concurrency < n then concurrency else n, _ => Ready), seq(n, _ => None), seq(n, _ => 0), seq(n, _ => None))
  }

  datatype Event =
    | Claim(worker: nat)
    | SetUp(worker: nat, ok: bool)
    | Finish(worker: nat, result: Option<Outcome>)
    | CleanUp(worker: nat, ok: bool)

  /** The runner throwing counts as a failure of the file. */
  function ResultOf(result: Option<Outcome>): (o: Outcome) {
    if result.Some? then result.value else Outcome(1, None, false)
  }

  predicate Enabled(p: Pool, e: Event) {
    e.worker < |p.workers| && |p.outcomes| == |p.runs| == |p.given| == |p.files| &&
    var w := p.workers[e.worker];
    match e
    case Claim(_) => w.Ready?
    case SetUp(_, _) => w.Busy? && w.stage.Claimed? && w.index < |p.files|
    case Finish(_, _) => w.Busy? && w.stage.Running? && w.index < |p.files|
    case CleanUp(_, _) => w.Busy? && w.stage.Cleaning? && w.index < |p.files|
  }

  function Step(p: Pool, e: Event): (q: Pool)
    requires Enabled(p, e)
  {
    var w := p.workers[e.worker];
    match e
    case Claim(v) =>
      var index := p.claimed;
      var next := if index < |p.files| && p.files[index] != "" then Busy(index, Claimed) else Stopped;
      p.(claimed := index + 1, workers := p.workers[v := next])
    case SetUp(v, ok) =>
      if ok then p.(workers := p.workers[v := Busy(w.index, Running)], runs := p.runs[w.index := p.runs[w.index] + 1])
      else p.(workers := p.workers[v := Thrown(w.index, Claimed)])
    case Finish(v, result) =>
      var r := ResultOf(result);
      p.(workers := p.workers[v := Busy(w.index, Cleaning(r))], given := p.given[w.index := Some(r)])
    case CleanUp(v, ok) =>
      if ok then p.(workers := p.workers[v := Ready], outcomes := p.outcomes[w.index := Some(w.stage.result)])
      else p.(workers := p.workers[v := Thrown(w.index, w.stage)])
  }

  ghost predicate Run(p: Pool, events: seq<Event>, q: Pool)
    decreases |events|
  {
    if events == [] then p == q else Enabled(p, events[0]) && Run(Step(p, events[0]), events[1..], q)
  }

  predicate Holds(w: Worker, i: nat) {
    (w.Busy? || w.Thrown?) && w.index == i
  }

  ghost predicate Shapes(p: Pool) {
    |p.outcomes| == |p.runs| == |p.given| == |p.files|
  }

  /** What is true of the file a worker holds. */
  ghost predicate HoldsFairly(p: Pool, w: Worker)
    requires Shapes(p)
  {
    (w.Busy? || w.Thrown?) ==>
      w.index < |p.files| && w.index < p.claimed && p.outcomes[w.index].None? &&
      p.runs[w.index] == (if w.stage.Claimed? then 0 else 1) &&
      p.given[w.index] == (if w.stage.Cleaning? then Some(w.stage.result) else None)
  }

  ghost predicate Accounted(p: Pool, i: nat)
    requires i < |p.outcomes|
  {
    p.outcomes[i].Some? || exists v :: 0 <= v < |p.workers| && Holds(p.workers[v], i)
  }

  ghost predicate WorkersFair(p: Pool)
    requires Shapes(p)
  {
    forall v :: 0 <= v < |p.workers| ==> HoldsFairly(p, p.workers[v])
  }

  /** No file is held twice. */
  ghost predicate HeldOnce(p: Pool) {
    forall v, u, i: nat :: 0 <= v < |p.workers| && 0 <= u < |p.workers| && Holds(p.workers[v], i) && Holds(p.workers[u], i) ==> v == u
  }

  ghost predicate Unclaimed(p: Pool)
    requires Shapes(p)
  {
    forall i {:trigger p.runs[i]} :: p.claimed <= i < |p.files| ==> p.runs[i] == 0 && p.outcomes[i].None? && p.given[i].None?
  }

  ghost predicate Recorded(p: Pool)
    requires Shapes(p)
  {
    forall i {:trigger p.runs[i]} :: 0 <= i < |p.files| && p.outcomes[i].Some? ==> p.runs[i] == 1 && p.given[i] == p.outcomes[i]
  }

  ghost predicate Inv(p: Pool) {
    && Shapes(p)
    && "" !in p.files
    && WorkersFair(p)
    && HeldOnce(p)
    && (forall i :: 0 <= i < p.claimed && i < |p.files| ==> Accounted(p, i))
    && Unclaimed(p)
    && Recorded(p)
    && (forall v :: 0 <= v < |p.workers| && p.workers[v].Stopped? ==> p.claimed > |p.files|)
  }

  lemma {:induction false} StepInv(p: Pool, e: Event)
    requires Inv(p) && Enabled(p, e)
    ensures Inv(Step(p, e))
  {
    StepRecords(p, e);
    hide Step, Enabled, HoldsFairly, Accounted, HeldOnce, Unclaimed, Recorded;
    var q := Step(p, e);
    forall v | 0 <= v < |q.workers| ensures HoldsFairly(q, q.workers[v]) {
      StepFair(p, e, v);
    }
    forall i | 0 <= i < q.claimed && i < |q.files| ensures Accounted(q, i) {
      StepAccounts(p, e, i);
    }
  }

  lemma {:induction false} StepRecords(p: Pool, e: Event)
    requires Inv(p) && Enabled(p, e)
    ensures Shapes(Step(p, e)) && Unclaimed(Step(p, e)) && Recorded(Step(p, e))
  {
    hide HeldOnce, Accounted;
    var q := Step(p, e);
    assert HoldsFairly(p, p.workers[e.worker]);
    forall i | q.claimed <= i < |q.files| ensures q.runs[i] == 0 && q.outcomes[i].None? && q.given[i].None? {
      assert p.runs[i] == 0;
    }
    forall i | 0 <= i < |q.files| && q.outcomes[i].Some? ensures q.runs[i] == 1 && q.given[i] == q.outcomes[i] {
      assert p.runs[i] >= 0;
    }
  }

  lemma {:induction false} StepFair(p: Pool, e: Event, v: nat)
    requires Inv(p) && Enabled(p, e) && v < |p.workers|
    ensures HoldsFairly(Step(p, e), Step(p, e).workers[v])
  {
    var w := p.workers[v];
    assert HoldsFairly(p, w) && HoldsFairly(p, p.workers[e.worker]);
    assert p.claimed < |p.files| ==> p.runs[p.claimed] == 0;
    if v != e.worker && (w.Busy? || w.Thrown?) {
      assert Holds(w, w.index);
      var u := p.workers[e.worker];
      assert (u.Busy? || u.Thrown?) ==> Holds(u, u.index);
    }
  }

  lemma {:induction false} StepAccounts(p: Pool, e: Event, i: nat)
    requires Inv(p) && Enabled(p, e) && i < Step(p, e).claimed && i < |p.files|
    ensures Accounted(Step(p, e), i)
  {
    var q := Step(p, e);
    var v := e.worker;
    if i == p.claimed {
      assert Holds(q.workers[v], i);
    } else if p.outcomes[i].None? {
      assert Accounted(p, i);
      var u :| 0 <= u < |p.workers| && Holds(p.workers[u], i);
      if u != v {
        assert Holds(q.workers[u], i);
      } else if q.outcomes[i].None? {
        assert Holds(q.workers[v], i);
      }
    }
  }

  lemma {:induction false} RunInv(p: Pool, events: seq<Event>, q: Pool)
    requires Inv(p) && Run(p, events, q)
    ensures Inv(q) && q.files == p.files && |q.workers| == |p.workers|
    decreases |events|
  {
    if events != [] {
      StepInv(p, events[0]);
      RunInv(Step(p, events[0]), events[1..], q);
    }
  }

  /** In every interleaving, at every moment, no file has been run twice. */
  lemma {:induction false} NeverRunTwice(files: seq<string>, concurrency: nat, events: seq<Event>, q: Pool, i: nat)
    requires "" !in files && Run(Start(files, concurrency), events, q) && i < |files|
    ensures |q.runs| == |files| && q.runs[i] <= 1
  {
    RunInv(Start(files, concurrency), events, q);
    if i < q.claimed {
      assert Accounted(q, i);
      if q.outcomes[i].None? {
        var v :| 0 <= v < |q.workers| && Holds(q.workers[v], i);
        assert HoldsFairly(q, q.workers[v]);
      }
    }
  }

  ghost predicate Ended(p: Pool) {
    forall v :: 0 <= v < |p.workers| ==> p.workers[v].Stopped?
  }

  /** The exit code looks only at the outcomes that were recorded. */
  function ExitCode(outcomes: seq<Option<Outcome>>): (code: int) {
    if exists i :: 0 <= i < |outcomes| && outcomes[i].Some? && Failed(outcomes[i].value) then 1 else 0
  }

  /**
   * When the workers have ended without a throw, every file was run exactly once, its recorded outcome is what the
   * runner gave for it, and the exit code is zero exactly if none of these is a failure.
   */
  lemma {:induction false} HarnessOutcome(files: seq<string>, concurrency: nat, events: seq<Event>, q: Pool)
    requires files != [] && concurrency > 0 && "" !in files && Run(Start(files, concurrency), events, q) && Ended(q)
    ensures |q.runs| == |q.outcomes| == |q.given| == |files|
    ensures forall i {:trigger q.runs[i]} :: 0 <= i < |files| ==> q.runs[i] == 1 && q.given[i].Some? && q.outcomes[i] == q.given[i]
    ensures ExitCode(q.outcomes) == 0 <==> forall i {:trigger q.given[i]} :: 0 <= i < |files| ==> q.given[i].Some? && !Failed(q.given[i].value)
  {
    RunInv(Start(files, concurrency), events, q);
    assert q.workers[0].Stopped?;
    forall i | 0 <= i < |files| ensures q.outcomes[i].Some? && q.runs[i] == 1 && q.given[i] == q.outcomes[i] {
      assert Accounted(q, i);
    }
  }

  /** A run of a file that passed: the runner did not throw, exit code zero, no signal, in time. */
  const PASSED := Some(Outcome(0, None, false))

  ghost predicate AllPassed(events: seq<Event>) {
    forall k :: 0 <= k < |events| && events[k].Finish? ==> events[k].result == PASSED
  }

  ghost predicate NoFailure(p: Pool) {
    forall i :: 0 <= i < |p.given| && p.given[i].Some? ==> !Failed(p.given[i].value)
  }

  lemma {:induction false} FailedUnlessPassed(result: Option<Outcome>)
    ensures Failed(ResultOf(result)) <==> result != PASSED
  {
  }

  /** No answer of the runner is ever overwritten, so a failure stays one. */
  lemma {:induction false} FailuresStay(p: Pool, e: Event)
    requires Inv(p) && Enabled(p, e)
    ensures NoFailure(Step(p, e)) <==> NoFailure(p) && (e.Finish? ==> e.result == PASSED)
  {
    var q := Step(p, e);
    if e.Finish? {
      var w := p.workers[e.worker];
      FailedUnlessPassed(e.result);
      assert HoldsFairly(p, w) && q.given[w.index] == Some(ResultOf(e.result));
      forall i | 0 <= i < |p.given| && i != w.index ensures q.given[i] == p.given[i] { }
    } else {
      assert q.given == p.given;
    }
  }

  lemma {:induction false} NoFailureIff(p: Pool, events: seq<Event>, q: Pool)
    requires Inv(p) && Run(p, events, q)
    ensures NoFailure(q) <==> NoFailure(p) && AllPassed(events)
    decreases |events|
  {
    hide Inv, NoFailure, Enabled, Step;
    if events != [] {
      FailuresStay(p, events[0]);
      StepInv(p, events[0]);
      NoFailureIff(Step(p, events[0]), events[1..], q);
      assert events == [events[0]] + events[1..];
      if AllPassed(events) {
        forall k | 0 <= k < |events[1..]| && events[1..][k].Finish? ensures events[1..][k].result == PASSED {
          assert events[k + 1].result == PASSED;
        }
      }
    }
  }

  /** The harness exits with zero exactly if every test process it ran passed; a runner that throws is a failure. */
  lemma {:induction false} ExitsWithZeroIff(files: seq<string>, concurrency: nat, events: seq<Event>, q: Pool)
    requires files != [] && concurrency > 0 && "" !in files && Run(Start(files, concurrency), events, q) && Ended(q)
    ensures ExitCode(q.outcomes) == 0 <==> AllPassed(events)
    ensures ExitCode(q.outcomes) == 0 || ExitCode(q.outcomes) == 1
  {
    hide AllPassed, Run, Failed;
    HarnessOutcome(files, concurrency, events, q);
    forall i | 0 <= i < |files| ensures q.given[i].Some? { assert q.runs[i] == 1; }
    assert NoFailure(Start(files, concurrency));
    NoFailureIff(Start(files, concurrency), events, q);
  }

  lemma {:induction false} WorkersStay(p: Pool, events: seq<Event>, q: Pool)
    requires Run(p, events, q)
    ensures |q.workers| == |p.workers|
    decreases |events|
  {
    if events != [] { WorkersStay(Step(p, events[0]), events[1..], q); }
  }

  /** There are never more workers than asked for, and never more than files. */
  lemma {:induction false} ConcurrencyIsKept(files: seq<string>, concurrency: nat, events: seq<Event>, q: Pool)
    requires Run(Start(files, concurrency), events, q)
    ensures |q.workers| <= concurrency && |q.workers| <= |files| && (|q.workers| == concurrency || |q.workers| == |files|)
  {
    WorkersStay(Start(files, concurrency), events, q);
  }

  // ---------------------------------------------------------------------- every interleaving ends

  ghost function Weight(w: Worker): (n: nat) {
    match w
    case Ready => 1
    case Busy(_, stage) => if stage.Claimed? then 4 else if stage.Running? then 3 else 2
    case Stopped => 0
    case Thrown(_, _) => 0
  }

  ghost function Weights(ws: seq<Worker>): (n: nat) {
    if ws == [] then 0 else Weights(ws[..|ws| - 1]) + Weight(ws[|ws| - 1])
  }

  ghost function Left(p: Pool): (n: nat) {
    (if p.claimed < |p.files| then 4 * (|p.files| - p.claimed) else 0) + Weights(p.workers)
  }

  lemma {:induction false} WeightsUpdate(ws: seq<Worker>, v: nat, w: Worker)
    requires v < |ws|
    ensures Weights(ws[v := w]) == Weights(ws) - Weight(ws[v]) + Weight(w)
  {
    if v == |ws| - 1 {
      assert ws[v := w][..v] == ws[..v];
    } else {
      WeightsUpdate(ws[..|ws| - 1], v, w);
      assert ws[v := w][..|ws| - 1] == ws[..|ws| - 1][v := w];
    }
  }

  lemma {:induction false} StepLeaves(p: Pool, e: Event)
    requires Enabled(p, e)
    ensures Left(Step(p, e)) < Left(p)
  {
    WeightsUpdate(p.workers, e.worker, Step(p, e).workers[e.worker]);
  }

  lemma {:induction false} RunLeaves(p: Pool, events: seq<Event>, q: Pool)
    requires Run(p, events, q)
    ensures Left(q) + |events| <= Left(p)
    decreases |events|
  {
    if events != [] {
      StepLeaves(p, events[0]);
      RunLeaves(Step(p, events[0]), events[1..], q);
    }
  }

  lemma {:induction false} ReadyWeights(n: nat)
    ensures Weights(seq(n, _ => Ready)) == n
  {
    if n > 0 {
      var ws := seq(n, _ => Ready);
      ReadyWeights(n - 1);
      assert ws[..n - 1] == seq(n - 1, _ => Ready);
    }
  }

  ghost predicate CanStep(p: Pool) {
    exists e :: Enabled(p, e)
  }

  /** A run takes at most five steps per file, and while a worker has neither stopped nor thrown there is a next step. */
  lemma {:induction false} RunsEnd(files: seq<string>, concurrency: nat, events: seq<Event>, q: Pool)
    requires "" !in files && Run(Start(files, concurrency), events, q)
    ensures |events| <= 5 * |files|
    ensures CanStep(q) || forall v :: 0 <= v < |q.workers| ==> q.workers[v].Stopped? || q.workers[v].Thrown?
  {
    RunInv(Start(files, concurrency), events, q);
    RunLeaves(Start(files, concurrency), events, q);
    ReadyWeights(|Start(files, concurrency).workers|);
    if v: nat :| v < |q.workers| && !q.workers[v].Stopped? && !q.workers[v].Thrown? {
      assert HoldsFairly(q, q.workers[v]);
      var w := q.workers[v];
      var e := if w.Ready? then Claim(v) else if w.stage.Claimed? then SetUp(v, true)
               else if w.stage.Running? then Finish(v, None) else CleanUp(v, true);
      assert Enabled(q, e);
    }
  }

  ghost predicate NoneThrown(p: Pool) {
    forall v :: 0 <= v < |p.workers| ==> !p.workers[v].Thrown?
  }

  /** Every sandbox could be made and removed. */
  ghost predicate SandboxesWork(events: seq<Event>) {
    forall k :: 0 <= k < |events| && (events[k].SetUp? || events[k].CleanUp?) ==> events[k].ok
  }

  lemma {:induction false} NoneThrows(p: Pool, events: seq<Event>, q: Pool)
    requires NoneThrown(p) && Run(p, events, q) && SandboxesWork(events)
    ensures NoneThrown(q)
    decreases |events|
  {
    if events != [] {
      assert (events[0].SetUp? || events[0].CleanUp?) ==> events[0].ok;
      forall k | 0 <= k < |events[1..]| && (events[1..][k].SetUp? || events[1..][k].CleanUp?) ensures events[1..][k].ok {
        assert events[k + 1].ok;
      }
      NoneThrows(Step(p, events[0]), events[1..], q);
    }
  }

  /** So if every sandbox works, a run that can go no further has ended, with every file run. */
  lemma {:induction false} EndsUnlessThrown(files: seq<string>, concurrency: nat, events: seq<Event>, q: Pool)
    requires "" !in files && Run(Start(files, concurrency), events, q) && SandboxesWork(events) && !CanStep(q)
    ensures Ended(q)
  {
    hide Run, SandboxesWork, CanStep;
    RunsEnd(files, concurrency, events, q);
    NoneThrows(Start(files, concurrency), events, q);
  }
}
