/**
 * What the filing processes get done. Inside its locked action a process does the same as if it ran alone, however the
 * others are scheduled; and a process that meets no error acquires the lock, takes over a dead one, carries out its job
 * and releases the lock again.
 */
module FilingProgress {
  import opened Common
  import opened ApprovalStore
  import opened FilingProtocol

  // ---------------------------------------------------------------------- running alone

  /** The outcomes of the steps of one process, in order. */
  ghost function Mine(events: seq<Event>, i: ProcId): (cs: seq<Choice>) {
    if events == [] then []
    else (if events[0].Go? && events[0].id == i then [events[0].choice] else []) + Mine(events[1..], i)
  }

  /** The process takes these steps and nothing else happens. */
  ghost function Alone(s: State, i: ProcId, cs: seq<Choice>): (r: State)
    decreases |cs|
  {
    if cs == [] then s else Alone(Step(s, Go(i, cs[0])), i, cs[1..])
  }

  lemma {:induction false} AloneOn(s: State, i: ProcId, cs: seq<Choice>, n: nat)
    requires n <= |cs|
    ensures Alone(s, i, cs) == Alone(Alone(s, i, cs[..n]), i, cs[n..])
    decreases n
  {
    hide Step;
    if n == 0 {
      assert cs[..0] == [] && cs[0..] == cs;
    } else {
      assert cs[..n][1..] == cs[1..][..n - 1] && cs[1..][n - 1..] == cs[n..];
      AloneOn(Step(s, Go(i, cs[0])), i, cs[1..], n - 1);
    }
  }

  lemma {:induction false} AloneOne(s: State, i: ProcId, c: Choice)
    ensures Alone(s, i, [c]) == Step(s, Go(i, c))
    ensures ActsThrough(s, i, [c]) <==> InAction(s, i)
  {
    hide Step;
    var s' := Step(s, Go(i, c));
    assert [c][1..] == [] && Alone(s', i, []) == s' && ActsThrough(s', i, []);
  }

  lemma {:induction false} AloneTwo(s: State, i: ProcId, cs: seq<Choice>)
    requires |cs| == 2
    ensures Alone(s, i, cs) == Step(Step(s, Go(i, cs[0])), Go(i, cs[1]))
    ensures ActsThrough(s, i, cs) <==> InAction(s, i) && InAction(Step(s, Go(i, cs[0])), i)
  {
    hide Step;
    assert cs[1..] == [cs[1]];
    AloneOne(Step(s, Go(i, cs[0])), i, cs[1]);
  }

  lemma {:induction false} AloneThree(s: State, i: ProcId, cs: seq<Choice>)
    requires |cs| == 3
    ensures Alone(s, i, cs) == Step(Step(Step(s, Go(i, cs[0])), Go(i, cs[1])), Go(i, cs[2]))
    ensures ActsThrough(s, i, cs) <==>
      InAction(s, i) && InAction(Step(s, Go(i, cs[0])), i) && InAction(Step(Step(s, Go(i, cs[0])), Go(i, cs[1])), i)
  {
    hide Step;
    assert cs[1..] == [cs[1], cs[2]];
    AloneTwo(Step(s, Go(i, cs[0])), i, cs[1..]);
  }

  /** Each of these steps is taken inside the locked action. */
  ghost predicate ActsThrough(s: State, i: ProcId, cs: seq<Choice>)
    decreases |cs|
  {
    cs == [] || (InAction(s, i) && ActsThrough(Step(s, Go(i, cs[0])), i, cs[1..]))
  }

  // ---------------------------------------------------------------------- the locked action is atomic

  /** Two states that differ at most in the processes other than `i`. */
  ghost predicate Alike(s: State, r: State, i: ProcId) {
    i in s.procs && i in r.procs && s.procs[i] == r.procs[i] && r == s.(procs := r.procs, nextProc := r.nextProc)
  }

  ghost predicate IsMine(e: Event, i: ProcId) {
    e.Go? && e.id == i
  }

  /** While a process is inside the action, whatever else happens changes nothing but the other processes. */
  lemma {:induction false} OthersChangeNothing(s: State, e: Event, i: ProcId)
    requires Inv(s) && InAction(s, i) && e != Die(i) && !IsMine(e, i)
    ensures Alike(s, Step(s, e), i)
  {
    hide StoreOk, WriteStore, CallCreate, ReadNext, IdleNext, StaleNext, OwnerNext;
    assert ProcOk(s, i, s.procs[i]);
    if e.Go? && e.id in s.procs {
      assert ProcOk(s, e.id, s.procs[e.id]);
      assert Issued(s, s.lock.value);
    }
  }

  lemma {:induction false} SameStep(s: State, r: State, i: ProcId, c: Choice)
    requires Alike(s, r, i) && InAction(s, i)
    ensures Alike(Step(s, Go(i, c)), Step(r, Go(i, c)), i)
  {
    hide ApplyOp, Clears, AfterWrite, ReadNext, IdleNext, StaleNext, OwnerNext, PublishLock, RemoveLock;
    var pc := s.procs[i].pc;
    if !pc.act.Write? && !pc.act.Create? { SameRead(s, r, pc.job, pc.token, pc.act, c); }
  }

  lemma {:induction false} SameRead(s: State, r: State, job: Job, t: Token, act: Act, c: Choice)
    requires s.store == r.store && (act.Search? || act.CheckFiled? || act.CheckPending? || act.Load?)
    ensures ReadNext(s, job, t, act, c) == ReadNext(r, job, t, act, c)
  {
    hide HasAnyFiled, HasPending;
  }

  /**
   * A process that takes its steps inside the locked action, whatever happens between them, leaves the store, the lock and
   * all counts as if it had taken them alone.
   */
  lemma {:induction false} ActionIsAtomic(s: State, r: State, events: seq<Event>, i: ProcId)
    requires Inv(r) && Alike(s, r, i) && ActsThrough(s, i, Mine(events, i)) && Die(i) !in events
    requires events != [] ==> IsMine(events[|events| - 1], i)
    ensures Alike(Alone(s, i, Mine(events, i)), Run(r, events), i)
    decreases |events|
  {
    hide Step, Inv, Alike;
    if events != [] {
      var e := events[0];
      StepKeeps(r, e);
      if IsMine(e, i) {
        assert Mine(events, i)[1..] == Mine(events[1..], i);
        SameStep(s, r, i, e.choice);
        ActionIsAtomic(Step(s, e), Step(r, e), events[1..], i);
      } else {
        assert Mine(events, i) == Mine(events[1..], i);
        LastIsMine(events[1..], i);
        AlikeAction(s, r, i);
        OthersChangeNothing(r, e, i);
        AlikeThrough(s, r, Step(r, e), i);
        ActionIsAtomic(s, Step(r, e), events[1..], i);
      }
    }
  }

  lemma {:induction false} AlikeAction(s: State, r: State, i: ProcId)
    requires Alike(s, r, i)
    ensures InAction(s, i) <==> InAction(r, i)
  {
  }

  lemma {:induction false} AlikeThrough(a: State, b: State, c: State, i: ProcId)
    requires Alike(a, b, i) && Alike(b, c, i)
    ensures Alike(a, c, i)
  {
  }

  lemma {:induction false} LastIsMine(events: seq<Event>, i: ProcId)
    requires events != [] && IsMine(events[|events| - 1], i)
    ensures Mine(events, i) != []
  {
    if |events| > 1 { LastIsMine(events[1..], i); }
  }

  // ---------------------------------------------------------------------- jobs under the lock

  ghost predicate NoErrors(cs: seq<Choice>) {
    forall k :: 0 <= k < |cs| ==> !cs[k].error
  }

  ghost predicate IsAt(s: State, i: ProcId, pc: Pc) {
    i in s.procs && s.procs[i].pc == pc
  }

  /** One load and write of the store. */
  lemma {:induction false} LoadAndWrite(s: State, i: ProcId, job: Job, t: Token, op: Op, cs: seq<Choice>)
    requires IsAt(s, i, Acting(job, t, Load(op))) && |cs| == 2 && NoErrors(cs)
    requires op.ClearPending? ==> Clears(s.store, op)
    ensures var r := Alone(s, i, cs);
      ActsThrough(s, i, cs) && r.store == ApplyOp(s.store, op, s.nextAttempt) && r.nextAttempt == s.nextAttempt + 1 &&
      IsAt(r, i, AfterWrite(job, t, op, s.nextAttempt)) && r.lock == s.lock && r.creates == s.creates
  {
    hide ApplyOp, Alone, ActsThrough;
    AloneTwo(s, i, cs);
  }

  /** Two stores with the same records, but for approvals in one. */
  ghost predicate SameFiledAndPending(a: Stored, b: Stored) {
    a.filed == b.filed && a.pending == b.pending
  }

  /** Approving ends with exactly the old approvals and the given ones. */
  lemma {:induction false} ApproveIsDone(s: State, i: ProcId, ms: seq<Manifest>, t: Token, cs: seq<Choice>)
    requires IsAt(s, i, Acting(Approve(ms), t, FirstAct(Approve(ms)))) && |cs| == 2 && NoErrors(cs)
    ensures ActsThrough(s, i, cs) && IsAt(Alone(s, i, cs), i, Snapshot(Release(t)))
    ensures var st := Alone(s, i, cs).store;
      SameFiledAndPending(s.store, st) && forall m :: m in st.approvals <==> m in s.store.approvals || m in ms
  {
    LoadAndWrite(s, i, Approve(ms), t, RecordApprovals(ms), cs);
  }

  /** Retiring takes exactly one approval away. */
  lemma {:induction false} RetireIsDone(s: State, i: ProcId, m: Manifest, t: Token, cs: seq<Choice>)
    requires IsAt(s, i, Acting(Retire(m), t, FirstAct(Retire(m)))) && |cs| == 2 && NoErrors(cs)
    ensures ActsThrough(s, i, cs) && IsAt(Alone(s, i, cs), i, Snapshot(Release(t)))
    ensures var st := Alone(s, i, cs).store;
      SameFiledAndPending(s.store, st) && forall x :: x in st.approvals <==> x in s.store.approvals && x != m
  {
    LoadAndWrite(s, i, Retire(m), t, Consume(m), cs);
  }

  /** A retry ends with exactly the named attempt gone; if that is not pending, nothing changes. */
  lemma {:induction false} RetryIsDone(s: State, i: ProcId, m: Manifest, a: AttemptId, t: Token, cs: seq<Choice>)
    requires IsAt(s, i, Acting(Retry(m, a), t, FirstAct(Retry(m, a)))) && |cs| == 2 && NoErrors(cs)
    ensures ActsThrough(s, i, cs) && IsAt(Alone(s, i, cs), i, Snapshot(Release(t)))
    ensures var st := Alone(s, i, cs).store;
      st.approvals == s.store.approvals && st.filed == s.store.filed &&
      forall p :: p in st.pending <==> p in s.store.pending && p != Pending(m, a)
  {
    if Clears(s.store, ClearPending(m, a)) {
      LoadAndWrite(s, i, Retry(m, a), t, ClearPending(m, a), cs);
    } else {
      AloneTwo(s, i, cs);
    }
  }

  /** The store after a manifest has been filed under a URL. */
  ghost predicate FiledIn(before: Stored, m: Manifest, url: string, after: Stored) {
    && (forall f :: f in after.filed <==> f in before.filed || f == Filed(m, url))
    && (forall p :: p in after.pending <==> p in before.pending && p.manifest != m)
  }

  /** Acknowledging the issue that is there ends with it filed and its approval gone; any other changes nothing. */
  lemma {:induction false} AcknowledgeIsDone(s: State, i: ProcId, m: Manifest, url: string, t: Token, cs: seq<Choice>)
    requires var job := Acknowledge(m, url); IsAt(s, i, Acting(job, t, FirstAct(job)))
    requires |cs| == 5 && NoErrors(cs)
    ensures cs[0].found == Untrusted(Some(url)) ==>
      ActsThrough(s, i, cs) && IsAt(Alone(s, i, cs), i, Snapshot(Release(t))) &&
      FiledIn(s.store, m, url, Alone(s, i, cs).store) &&
      forall x :: x in Alone(s, i, cs).store.approvals <==> x in s.store.approvals && x != m
    ensures cs[0].found != Untrusted(Some(url)) ==> Step(s, Go(i, cs[0])) == At(s, i, Snapshot(Release(t)))
  {
    hide GoStep, Alone, FiledIn;
    var job := Acknowledge(m, url);
    Acknowledged(s, i, m, url, t, cs[0]);
    if cs[0].found == Untrusted(Some(url)) {
      var s1 := Step(s, Go(i, cs[0]));
      AloneOne(s, i, cs[0]);
      assert cs[..1] == [cs[0]];
      FilesAndConsumes(s1, i, m, url, t, cs[1..]);
      AloneOn(s, i, cs, 1);
      ActsOn(s, i, cs, 1);
    }
  }

  lemma {:induction false} Acknowledged(s: State, i: ProcId, m: Manifest, url: string, t: Token, c: Choice)
    requires var job := Acknowledge(m, url); IsAt(s, i, Acting(job, t, FirstAct(job))) && !c.error
    ensures Step(s, Go(i, c)) == At(s, i,
      if c.found == Untrusted(Some(url)) then Acting(Acknowledge(m, url), t, Load(RecordFiled(m, url))) else Snapshot(Release(t)))
  {
  }

  lemma {:induction false} FilesAndConsumes(s: State, i: ProcId, m: Manifest, url: string, t: Token, cs: seq<Choice>)
    requires IsAt(s, i, Acting(Acknowledge(m, url), t, Load(RecordFiled(m, url)))) && |cs| == 4 && NoErrors(cs)
    ensures var r := Alone(s, i, cs);
      ActsThrough(s, i, cs) && IsAt(r, i, Snapshot(Release(t))) && FiledIn(s.store, m, url, r.store) &&
      forall x :: x in r.store.approvals <==> x in s.store.approvals && x != m
  {
    hide Step, Alone, ActsThrough;
    var job := Acknowledge(m, url);
    var s1 := Alone(s, i, cs[..2]);
    LoadAndWrite(s, i, job, t, RecordFiled(m, url), cs[..2]);
    LoadAndWrite(s1, i, job, t, Consume(m), cs[2..]);
    AloneOn(s, i, cs, 2);
    ActsOn(s, i, cs, 2);
    FiledByOp(s.store, m, url, s.nextAttempt);
  }

  lemma {:induction false} FiledByOp(st: Stored, m: Manifest, url: string, uuid: AttemptId)
    ensures FiledIn(st, m, url, ApplyOp(st, RecordFiled(m, url), uuid))
    ensures ApplyOp(st, RecordFiled(m, url), uuid).approvals == st.approvals
  {
  }

  lemma {:induction false} ActsOn(s: State, i: ProcId, cs: seq<Choice>, n: nat)
    requires n <= |cs| && ActsThrough(s, i, cs[..n]) && ActsThrough(Alone(s, i, cs[..n]), i, cs[n..])
    ensures ActsThrough(s, i, cs)
    decreases n
  {
    hide Step, InAction;
    if n == 0 {
      assert cs[..0] == [] && cs[0..] == cs;
    } else {
      assert cs[..n][1..] == cs[1..][..n - 1] && cs[1..][n - 1..] == cs[n..];
      ActsOn(Step(s, Go(i, cs[0])), i, cs[1..], n - 1);
    }
  }

  /** A manifest that may be filed: no record of it, filed or pending. */
  ghost predicate Fileable(st: Stored, m: Manifest) {
    !HasAnyFiled(st, m) && !HasPending(st, m)
  }

  /** Nothing is called and nothing changes for a manifest that is filed or pending, or has an issue with its marker. */
  lemma {:induction false} ApplyWithholds(s: State, i: ProcId, m: Manifest, t: Token, cs: seq<Choice>)
    requires IsAt(s, i, Acting(Apply(m), t, FirstAct(Apply(m)))) && |cs| == 3 && NoErrors(cs)
    requires cs[0].found.Untrusted? || !Fileable(s.store, m)
    ensures var early := cs[0].found.Untrusted? || HasAnyFiled(s.store, m);
      Alone(s, i, if early then cs[..2] else cs) == At(s, i, Snapshot(Release(t)))
  {
    hide Alone, ActsThrough, HasAnyFiled, HasPending;
    AloneTwo(s, i, cs[..2]);
    AloneThree(s, i, cs);
    SameAt(s, i, Snapshot(Release(t)));
    SameAt(s, i, Acting(Apply(m), t, CheckPending));
  }

  lemma {:induction false} SameAt(s: State, i: ProcId, pc: Pc)
    requires i in s.procs
    ensures forall q, q' :: At(At(s, i, q), i, pc) == At(s, i, pc) && At(At(At(s, i, q), i, q'), i, pc) == At(s, i, pc)
  {
    forall q ensures At(At(s, i, q), i, pc) == At(s, i, pc) {
      assert s.procs[i := s.procs[i].(pc := q)][i := s.procs[i].(pc := pc)] == s.procs[i := s.procs[i].(pc := pc)];
    }
  }

  /** Otherwise the attempt is recorded, and then GitHub is called. */
  lemma {:induction false} ApplyReachesCreate(s: State, i: ProcId, m: Manifest, t: Token, cs: seq<Choice>)
    requires IsAt(s, i, Acting(Apply(m), t, FirstAct(Apply(m)))) && |cs| == 5 && NoErrors(cs)
    requires cs[0].found.Absent? && Fileable(s.store, m)
    ensures var r := Alone(s, i, cs);
      ActsThrough(s, i, cs) && IsAt(r, i, Acting(Apply(m), t, Create(s.nextAttempt))) &&
      r.store == s.store.(pending := s.store.pending + [Pending(m, s.nextAttempt)]) &&
      r.creates == s.creates && r.lock == s.lock
  {
    hide Step, Alone, ActsThrough, HasAnyFiled, HasPending;
    var s3 := Alone(s, i, cs[..3]);
    ApplyLooks(s, i, m, t, cs[..3]);
    LoadAndWrite(s3, i, Apply(m), t, RecordPending(m), cs[3..]);
    AloneOn(s, i, cs, 3);
    ActsOn(s, i, cs, 3);
  }

  lemma {:induction false} ApplyLooks(s: State, i: ProcId, m: Manifest, t: Token, cs: seq<Choice>)
    requires IsAt(s, i, Acting(Apply(m), t, Search)) && |cs| == 3 && NoErrors(cs)
    requires cs[0].found.Absent? && Fileable(s.store, m)
    ensures ActsThrough(s, i, cs) && Alone(s, i, cs) == At(s, i, Acting(Apply(m), t, Load(RecordPending(m))))
  {
    hide Alone, ActsThrough, HasAnyFiled, HasPending, WriteStore, CallCreate, IdleNext, StaleNext, OwnerNext, PublishLock, RemoveLock;
    AloneThree(s, i, cs);
    SameAt(s, i, Acting(Apply(m), t, Load(RecordPending(m))));
    SameAt(s, i, Acting(Apply(m), t, CheckPending));
  }

  /** If GitHub answers with a URL, the manifest is filed under it and no longer pending. */
  lemma {:induction false} ConfirmedIsFiled(s: State, i: ProcId, m: Manifest, t: Token, a: AttemptId, url: string, cs: seq<Choice>)
    requires IsAt(s, i, Acting(Apply(m), t, Create(a))) && |cs| == 3 && cs[0].reply == Some(url)
    requires !cs[1].error && !cs[2].error
    ensures var r := Alone(s, i, cs);
      ActsThrough(s, i, cs) && IsAt(r, i, Snapshot(Release(t))) && FiledIn(s.store, m, url, r.store) &&
      r.store.approvals == s.store.approvals && r.creates == s.creates + multiset{m} && r.lock == s.lock
  {
    hide Alone, ActsThrough, ApplyOp, FiledIn;
    var s1 := Step(s, Go(i, cs[0]));
    AloneOne(s, i, cs[0]);
    assert cs[..1] == [cs[0]];
    LoadAndWrite(s1, i, Apply(m), t, RecordFiled(m, url), cs[1..]);
    AloneOn(s, i, cs, 1);
    ActsOn(s, i, cs, 1);
    FiledByOp(s.store, m, url, s1.nextAttempt);
  }

  /** If it does not, the attempt stays pending for the operator. */
  lemma {:induction false} UnconfirmedStaysPending(s: State, i: ProcId, m: Manifest, t: Token, a: AttemptId, c: Choice)
    requires IsAt(s, i, Acting(Apply(m), t, Create(a))) && c.reply == None
    ensures var r := Step(s, Go(i, c));
      IsAt(r, i, Snapshot(Release(t))) && r.store == s.store && r.creates == s.creates + multiset{m}
  {
  }

  /**
   * Whatever else is running: once a process has been answered with a URL, its next steps without an error leave the
   * manifest filed under it and not pending; and from then on it stays filed and is never created again.
   */
  lemma {:induction false} ConfirmedIsFiledForGood(s: State, before: seq<Event>, events: seq<Event>, later: seq<Event>,
                                                   i: ProcId, m: Manifest, t: Token, a: AttemptId, url: string)
    requires Init(s) && IsAt(Run(s, before), i, Acting(Apply(m), t, Create(a)))
    requires var cs := Mine(events, i); |cs| == 3 && cs[0].reply == Some(url) && !cs[1].error && !cs[2].error
    requires events != [] && IsMine(events[|events| - 1], i) && Die(i) !in events
    ensures var r := Run(Run(s, before), events);
      FiledIn(Run(s, before).store, m, url, r.store) && r.creates == Run(s, before).creates + multiset{m} &&
      HasAnyFiled(Run(r, later).store, m) && Run(r, later).creates[m] == r.creates[m]
  {
    hide Run, Inv, Step, Alone, ActsThrough, Mine;
    var r := Run(s, before);
    InitInv(s);
    RunKeeps(s, before);
    ConfirmedIsFiled(r, i, m, t, a, url, Mine(events, i));
    ActionIsAtomic(r, r, events, i);
    RunKeeps(r, events);
    assert Filed(m, url) in Run(r, events).store.filed;
    FiledIsFinal(Run(r, events), later, m);
  }

  // ---------------------------------------------------------------------- the lock

  /** A free lock is acquired in two steps. */
  lemma {:induction false} FreeLockIsAcquired(s: State, i: ProcId, job: Job, cs: seq<Choice>)
    requires IsAt(s, i, Publish(job)) && s.lock.None? && |cs| == 2 && NoErrors(cs)
    ensures var r := Alone(s, i, cs);
      IsAt(r, i, Acting(job, s.nextToken, FirstAct(job))) && r.store == s.store && r.nextAttempt == s.nextAttempt &&
      r.creates == s.creates && r.lock.Some? && r.lock.value.token == s.nextToken && r.lock.value.owner == i
  {
    AloneTwo(s, i, cs);
  }

  /** A held lock is released in three steps. */
  lemma {:induction false} LockIsReleased(s: State, i: ProcId, t: Token, cs: seq<Choice>)
    requires IsAt(s, i, Snapshot(Release(t))) && s.lock.Some? && s.lock.value.token == t && |cs| == 3 && NoErrors(cs)
    ensures var r := Alone(s, i, cs);
      IsAt(r, i, Idle) && r.lock.None? && r.store == s.store && r.creates == s.creates
  {
    AloneThree(s, i, cs);
  }

  /** The process named in the owner file is gone: no process has its pid, or the one that has it started at another time. */
  ghost predicate NamesTheDead(s: State, l: Lock) {
    !PidInUse(s, l.pid) || (l.start.Some? && StartDiffers(s, l.pid, l.start.value))
  }

  /** An old lock that names a dead process is judged stale. */
  lemma {:induction false} DeadLockIsStale(s: State, i: ProcId, job: Job, l: Lock, cs: seq<Choice>)
    requires IsAt(s, i, Publish(job)) && s.lock == Some(l) && NamesTheDead(s, l) && NoErrors(cs)
    requires |cs| == (if l.start.Some? && PidInUse(s, l.pid) then 4 else if l.start.Some? then 5 else 4)
    requires cs[1].flag && (l.start.Some? ==> cs[3].probe)
    ensures Alone(s, i, cs) == At(s, i, Snapshot(Takeover(job, Some(l.token))))
  {
    hide PidInUse, StartDiffers;
    var s2 := At(s, i, StaleRead(job));
    AloneOn(s, i, cs, 2);
    AloneTwo(s, i, cs[..2]);
    SameAt(s, i, StaleRead(job));
    JudgedDead(s, s2, i, job, l, cs[2..]);
  }

  lemma {:induction false} JudgedDead(s: State, s2: State, i: ProcId, job: Job, l: Lock, cs: seq<Choice>)
    requires i in s.procs && s2 == At(s, i, StaleRead(job)) && s.lock == Some(l) && NamesTheDead(s, l) && NoErrors(cs)
    requires |cs| == (if l.start.Some? && PidInUse(s, l.pid) then 2 else if l.start.Some? then 3 else 2)
    requires l.start.Some? ==> cs[1].probe
    ensures Alone(s2, i, cs) == At(s, i, Snapshot(Takeover(job, Some(l.token))))
  {
    hide PidInUse, StartDiffers;
    SamePids(s, i, l);
    forall pc ensures At(s2, i, pc) == At(s, i, pc) { SameAt(s, i, pc); }
    hide Alone;
    SameAt(s, i, Snapshot(Takeover(job, Some(l.token))));
    SameAt(s, i, StaleKill(job, l));
    if |cs| == 2 { AloneTwo(s2, i, cs); } else { AloneThree(s2, i, cs); }
  }

  /** Where a process is does not matter to the process table. */
  lemma {:induction false} SamePids(s: State, i: ProcId, l: Lock)
    requires i in s.procs
    ensures forall pc :: PidInUse(At(s, i, pc), l.pid) <==> PidInUse(s, l.pid)
    ensures l.start.Some? ==> forall pc :: StartDiffers(At(s, i, pc), l.pid, l.start.value) <==> StartDiffers(s, l.pid, l.start.value)
    ensures l.start.Some? && StartDiffers(s, l.pid, l.start.value) ==> PidInUse(s, l.pid)
  {
    forall pc ensures PidInUse(At(s, i, pc), l.pid) <==> PidInUse(s, l.pid) {
      if PidInUse(s, l.pid) {
        var j :| j in s.procs && s.procs[j].pid == l.pid;
        assert j in At(s, i, pc).procs && At(s, i, pc).procs[j].pid == l.pid;
      }
    }
    if l.start.Some? {
      forall pc ensures StartDiffers(At(s, i, pc), l.pid, l.start.value) <==> StartDiffers(s, l.pid, l.start.value) {
        if StartDiffers(s, l.pid, l.start.value) {
          var j :| j in s.procs && s.procs[j].pid == l.pid && s.procs[j].start != l.start.value;
          assert j in At(s, i, pc).procs && At(s, i, pc).procs[j].start == s.procs[j].start;
        }
      }
    }
  }

  /** And a lock judged stale is removed, so that the process can publish its own. */
  lemma {:induction false} StaleLockIsRemoved(s: State, i: ProcId, job: Job, l: Lock, cs: seq<Choice>)
    requires IsAt(s, i, Snapshot(Takeover(job, Some(l.token)))) && s.lock == Some(l) && |cs| == 3 && NoErrors(cs)
    ensures var r := Alone(s, i, cs);
      IsAt(r, i, Publish(job)) && r.lock.None? && r.store == s.store && r.creates == s.creates
  {
    AloneThree(s, i, cs);
  }

  // ---------------------------------------------------------------------- an approved manifest is filed

  /** A process reads the approvals and picks an approved manifest. */
  lemma {:induction false} ApprovedIsPicked(s: State, i: ProcId, m: Manifest, cs: seq<Choice>)
    requires IsAt(s, i, Idle) && |cs| == 2 && cs[0].flag && !cs[1].flag && cs[1].job == Apply(m)
    ensures var r := Alone(s, i, cs);
      IsAt(r, i, if m in s.store.approvals then Publish(Apply(m)) else Idle) && r.lock == s.lock && r.store == s.store &&
      r.nextAttempt == s.nextAttempt && r.creates == s.creates
  {
    AloneTwo(s, i, cs);
  }

  /** The operator's retry names the attempt that is pending, and there is none without one. */
  lemma {:induction false} PendingIsPicked(s: State, i: ProcId, m: Manifest, attempt: AttemptId, c: Choice)
    requires IsAt(s, i, Idle) && !c.flag && c.job == Retry(m, attempt)
    ensures var r := Step(s, Go(i, c));
      if HasPending(s.store, m) then exists a :: Pending(m, a) in s.store.pending && IsAt(r, i, Publish(Retry(m, a)))
      else IsAt(r, i, Idle)
  {
    var a := PendingAttempt(s.store.pending, m);
    if a.Some? { assert Pending(m, a.value) in s.store.pending; }
  }

  /**
   * The whole way: with a free lock, a process that meets no error files an approved manifest of which there is no record
   * yet, with one create call, and leaves the lock free.
   */
  lemma {:induction false} ApprovedIsFiled(s: State, i: ProcId, m: Manifest, url: string, cs: seq<Choice>)
    requires IsAt(s, i, Idle) && s.lock.None? && m in s.store.approvals && Fileable(s.store, m)
    requires |cs| == 15 && NoErrors(cs) && cs[0].flag && !cs[1].flag && cs[1].job == Apply(m)
    requires cs[4].found.Absent? && cs[9].reply == Some(url)
    ensures var r := Alone(s, i, cs);
      IsAt(r, i, Idle) && r.lock.None? && FiledIn(s.store, m, url, r.store) && r.creates == s.creates + multiset{m}
  {
    hide Alone, ActsThrough, HasAnyFiled, HasPending;
    ApprovedIsPicked(s, i, m, cs[..2]);
    AloneOn(s, i, cs, 2);
    LockedAndFiled(Alone(s, i, cs[..2]), i, m, url, cs[2..]);
  }

  lemma {:induction false} LockedAndFiled(s: State, i: ProcId, m: Manifest, url: string, cs: seq<Choice>)
    requires IsAt(s, i, Publish(Apply(m))) && s.lock.None? && Fileable(s.store, m)
    requires |cs| == 13 && NoErrors(cs) && cs[2].found.Absent? && cs[7].reply == Some(url)
    ensures var r := Alone(s, i, cs);
      IsAt(r, i, Idle) && r.lock.None? && FiledIn(s.store, m, url, r.store) && r.creates == s.creates + multiset{m}
  {
    hide Alone, ActsThrough, HasAnyFiled, HasPending;
    FreeLockIsAcquired(s, i, Apply(m), cs[..2]);
    AloneOn(s, i, cs, 2);
    var s1, rest := Alone(s, i, cs[..2]), cs[2..];
    ApplyReachesCreate(s1, i, m, s.nextToken, rest[..5]);
    AloneOn(s1, i, rest, 5);
    var s2, end := Alone(s1, i, rest[..5]), rest[5..];
    ConfirmedIsFiled(s2, i, m, s.nextToken, s1.nextAttempt, url, end[..3]);
    AloneOn(s2, i, end, 3);
    LockIsReleased(Alone(s2, i, end[..3]), i, s.nextToken, end[3..]);
  }
}
