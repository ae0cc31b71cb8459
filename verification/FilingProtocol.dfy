/**
 * Any number of filing processes sharing one approval store, guarded by a directory lock with
 * stale takeover. A run is a sequence of events: a process starts, dies, or takes its next
 * file-system, process-table or GitHub step. The scheduler picks the events and, through `Choice`,
 * every outcome the code does not control.
 *
 * Assumed of the environment: renaming without replacement is atomic; an exact removal removes the
 * lock only if it is still the snapshotted one; lock tokens and attempt ids are fresh; the owner
 * file is complete before a lock is published; reads of an existing store succeed; and replacing
 * the store file is atomic.
 */
module FilingProtocol {
  import opened Common
  import opened ApprovalStore

  type Token = nat

  /** One run of a program. Process ids are recycled by the system, these are not. */
  type ProcId = nat

  /**
   * A published lock directory. Its owner file holds token, pid and start identity; `owner` says
   * which process published it and is never consulted by a step.
   */
  datatype Lock = Lock(token: Token, pid: nat, start: Option<nat>, owner: ProcId)

  /** What a process wants to do under the lock. */
  datatype Job =
    | Approve(ms: seq<Manifest>)
    | Apply(m: Manifest)
    | Retry(m: Manifest, attempt: AttemptId)
    | Acknowledge(m: Manifest, url: string)
    | Retire(m: Manifest)

  /** The result of searching GitHub for an issue that carries the fingerprint. */
  datatype Existing = Absent | Untrusted(url: Option<string>)

  /** Where a process is inside the locked action. */
  datatype Act =
    | Search
    | CheckFiled(existing: Existing)
    | CheckPending
    | Load(op: Op)
    | Write(op: Op, loaded: Stored)
    | Create(attempt: AttemptId)

  /** Why a process is removing the lock. */
  datatype Why =
    | Takeover(job: Job, want: Option<Token>)
    | Release(token: Token)

  /** The next step of a process. */
  datatype Pc =
    | Idle
    | Publish(job: Job)
    | StaleStat(job: Job)
    | StaleRead(job: Job)
    | StaleStart(job: Job, seen: Lock)
    | StaleKill(job: Job, seen: Lock)
    | Snapshot(why: Why)
    | ReadOwner(why: Why, snap: Token)
    | ReadAgain(why: Why, snap: Token)
    | Remove(why: Why, snap: Token)
    | Verify(job: Job, token: Token)
    | Acting(job: Job, token: Token, act: Act)

  datatype Proc = Proc(pid: nat, start: nat, approvals: seq<Manifest>, pc: Pc)

  /**
   * The shared world. `procs` holds the live processes; `issued`, `approved`, `creates`,
   * `attempted` and `clears` are history: every lock ever published, every manifest an operator
   * ever approved, the issue-create calls by manifest and by attempt, and the operator clears.
   */
  datatype State = State(
    lock: Option<Lock>,
    store: Stored,
    procs: map<ProcId, Proc>,
    nextProc: ProcId,
    nextToken: Token,
    nextAttempt: AttemptId,
    issued: map<Token, Lock>,
    approved: set<Manifest>,
    creates: multiset<Manifest>,
    attempted: multiset<AttemptId>,
    clears: multiset<Manifest>)

  /** Outcomes outside the control of the stepping process. */
  datatype Choice = Choice(error: bool, flag: bool, probe: bool, job: Job, found: Existing, reply: Option<string>)

  datatype Event =
    | Spawn(pid: nat, start: nat)
    | Die(id: ProcId)
    | Go(id: ProcId, choice: Choice)

  // ---------------------------------------------------------------------- steps

  predicate PidInUse(s: State, pid: nat) {
    exists i :: i in s.procs && s.procs[i].pid == pid
  }

  /** The start identity of the live process with that pid, as the process table shows it. */
  predicate StartDiffers(s: State, pid: nat, start: nat) {
    exists i :: i in s.procs && s.procs[i].pid == pid && s.procs[i].start != start
  }

  function At(s: State, i: ProcId, pc: Pc): (r: State)
    requires i in s.procs
  {
    s.(procs := s.procs[i := s.procs[i].(pc := pc)])
  }

  /** Where the removal of a lock returns to: back to publishing, or out of the locked call. */
  function Done(why: Why): (r: Pc) {
    match why
    case Takeover(job, _) => Publish(job)
    case Release(_) => Idle
  }

  function FirstAct(job: Job): (r: Act) {
    match job
    case Approve(ms) => Load(RecordApprovals(ms))
    case Apply(_) => Search
    case Retry(m, attempt) => Load(ClearPending(m, attempt))
    case Acknowledge(_, _) => Search
    case Retire(m) => Load(Consume(m))
  }

  /** Outside the lock: load the approvals, or choose a job and start acquiring the lock. */
  function IdleNext(s: State, p: Proc, c: Choice): (r: Proc) {
    if c.flag then p.(approvals := s.store.approvals)
    else
      match c.job
      case Apply(m) => if m in p.approvals then p.(pc := Publish(Apply(m))) else p
      case Retry(m, _) =>
        var attempt := PendingAttempt(s.store.pending, m);
        if attempt.Some? then p.(pc := Publish(Retry(m, attempt.value))) else p
      case _ => p.(pc := Publish(c.job))
  }

  /** The staleness test of a lock found in the way, one observation a step. */
  function StaleNext(s: State, pc: Pc, c: Choice): (r: Pc)
    requires pc.StaleStat? || pc.StaleRead? || pc.StaleStart? || pc.StaleKill?
  {
    match pc
    case StaleStat(job) =>
      if c.error then Idle
      else if s.lock.Some? && c.flag then StaleRead(job)
      else Publish(job)
    case StaleRead(job) =>
      if c.error || s.lock.None? then Snapshot(Takeover(job, None))
      else if s.lock.value.start.Some? then StaleStart(job, s.lock.value)
      else StaleKill(job, s.lock.value)
    case StaleStart(job, seen) =>
      if c.probe && seen.start.Some? && StartDiffers(s, seen.pid, seen.start.value)
      then Snapshot(Takeover(job, Some(seen.token)))
      else StaleKill(job, seen)
    case StaleKill(job, seen) =>
      if c.error || PidInUse(s, seen.pid) then Publish(job)
      else Snapshot(Takeover(job, Some(seen.token)))
  }

  /** Reading the owner file again before an exact removal. */
  function OwnerNext(s: State, pc: Pc, c: Choice): (r: Pc)
    requires pc.Snapshot? || pc.ReadOwner? || pc.ReadAgain?
  {
    match pc
    case Snapshot(why) =>
      if c.error || s.lock.None? then Done(why) else ReadOwner(why, s.lock.value.token)
    case ReadOwner(why, snap) =>
      if c.error then Done(why)
      else if s.lock.None? then ReadAgain(why, snap)
      else Matched(why, s.lock.value.token, snap)
    case ReadAgain(why, snap) =>
      if c.error then Done(why)
      else if s.lock.None? then
        (if why == Takeover(Wanted(why), None) then Remove(why, snap) else Done(why))
      else Matched(why, s.lock.value.token, snap)
  }

  function Wanted(why: Why): (r: Job) {
    match why
    case Takeover(job, _) => job
    case Release(_) => Approve([])
  }

  /** The owner file names `token`: remove the snapshot only if that is the expected owner. */
  function Matched(why: Why, token: Token, snap: Token): (r: Pc) {
    match why
    case Takeover(_, None) => Done(why)
    case Takeover(_, Some(t)) => if token == t then Remove(why, snap) else Done(why)
    case Release(t) => if token == t then Remove(why, snap) else Done(why)
  }

  /** Removing exactly the snapshotted lock; a lock published since is a different one. */
  function RemoveLock(s: State, snap: Token, c: Choice): (r: State) {
    if !c.error && s.lock.Some? && s.lock.value.token == snap then s.(lock := None) else s
  }

  function PublishLock(s: State, i: ProcId, job: Job, c: Choice): (r: State)
    requires i in s.procs
  {
    if c.error then At(s, i, Idle)
    else if s.lock.Some? then At(s, i, StaleStat(job))
    else
      var p := s.procs[i];
      var l := Lock(s.nextToken, p.pid, if c.probe then Some(p.start) else None, i);
      At(s, i, Verify(job, s.nextToken)).(
        lock := Some(l), nextToken := s.nextToken + 1, issued := s.issued[s.nextToken := l])
  }

  /** The reading steps of the locked action. */
  function ReadNext(s: State, job: Job, token: Token, act: Act, c: Choice): (r: Pc)
    requires act.Search? || act.CheckFiled? || act.CheckPending? || act.Load?
  {
    var leave := Snapshot(Release(token));
    if c.error then leave
    else
      match act
      case Search =>
        if job.Apply? then Acting(job, token, CheckFiled(c.found))
        else if job.Acknowledge? && c.found == Untrusted(Some(job.url))
        then Acting(job, token, Load(RecordFiled(job.m, job.url)))
        else leave
      case CheckFiled(existing) =>
        if !job.Apply? || HasAnyFiled(s.store, job.m) || existing.Untrusted? then leave
        else Acting(job, token, CheckPending)
      case CheckPending =>
        if !job.Apply? || HasPending(s.store, job.m) then leave
        else Acting(job, token, Load(RecordPending(job.m)))
      case Load(op) => Acting(job, token, Write(op, s.store))
  }

  function AfterWrite(job: Job, token: Token, op: Op, attempt: AttemptId): (r: Pc) {
    if job.Apply? && op.RecordPending? then Acting(job, token, Create(attempt))
    else if job.Acknowledge? && op.RecordFiled? then Acting(job, token, Load(Consume(job.m)))
    else Snapshot(Release(token))
  }

  /**
   * Replacing the store file by the modified copy of what was loaded. A failure may come before the
   * replacement or, as `flag` says, after it.
   */
  function WriteStore(s: State, i: ProcId, job: Job, token: Token, op: Op, loaded: Stored, c: Choice): (r: State)
    requires i in s.procs
  {
    if c.error && !c.flag then At(s, i, Snapshot(Release(token)))
    else if op.ClearPending? && !Clears(loaded, op) then At(s, i, Snapshot(Release(token)))
    else
      At(s, i, if c.error then Snapshot(Release(token)) else AfterWrite(job, token, op, s.nextAttempt)).(
        store := ApplyOp(loaded, op, s.nextAttempt),
        nextAttempt := s.nextAttempt + 1,
        approved := s.approved + (if op.RecordApprovals? then set m | m in op.ms else {}),
        clears := s.clears + (if Clears(loaded, op) then multiset{op.m} else multiset{}))
  }

  /** Calling `gh issue create`: GitHub may commit whatever it answers. */
  function CallCreate(s: State, i: ProcId, job: Job, token: Token, attempt: AttemptId, c: Choice): (r: State)
    requires i in s.procs && job.Apply?
  {
    At(s, i, if c.reply.Some? then Acting(job, token, Load(RecordFiled(job.m, c.reply.value)))
             else Snapshot(Release(token))).(
      creates := s.creates + multiset{job.m}, attempted := s.attempted + multiset{attempt})
  }

  function GoStep(s: State, i: ProcId, c: Choice): (r: State)
    requires i in s.procs
  {
    var p := s.procs[i];
    match p.pc
    case Idle => s.(procs := s.procs[i := IdleNext(s, p, c)])
    case Publish(job) => PublishLock(s, i, job, c)
    case Remove(why, snap) => At(RemoveLock(s, snap, c), i, Done(why))
    case Verify(job, token) =>
      At(s, i, if c.error || s.lock.None? || s.lock.value.token != token then Idle
               else Acting(job, token, FirstAct(job)))
    case Acting(job, token, Write(op, loaded)) => WriteStore(s, i, job, token, op, loaded, c)
    case Acting(job, token, Create(attempt)) =>
      if job.Apply? then CallCreate(s, i, job, token, attempt, c) else s
    case Acting(job, token, act) => At(s, i, ReadNext(s, job, token, act, c))
    case Snapshot(_) => At(s, i, OwnerNext(s, p.pc, c))
    case ReadOwner(_, _) => At(s, i, OwnerNext(s, p.pc, c))
    case ReadAgain(_, _) => At(s, i, OwnerNext(s, p.pc, c))
    case _ => At(s, i, StaleNext(s, p.pc, c))
  }

  /** One event; an event that is not possible changes nothing. */
  function Step(s: State, e: Event): (r: State) {
    match e
    case Spawn(pid, start) =>
      if PidInUse(s, pid) then s
      else s.(procs := s.procs[s.nextProc := Proc(pid, start, [], Idle)], nextProc := s.nextProc + 1)
    case Die(i) => s.(procs := s.procs - {i})
    case Go(i, c) => if i in s.procs then GoStep(s, i, c) else s
  }

  function Run(s: State, events: seq<Event>): (r: State)
    decreases |events|
  {
    if events == [] then s else Run(Step(s, events[0]), events[1..])
  }

  // ---------------------------------------------------------------------- invariant

  ghost predicate Dead(s: State, i: ProcId) {
    i < s.nextProc && i !in s.procs
  }

  ghost predicate Issued(s: State, l: Lock) {
    l.token in s.issued && s.issued[l.token] == l
  }

  ghost predicate Gone(s: State, t: Token) {
    t < s.nextToken && (s.lock.Some? ==> s.lock.value.token != t)
  }

  ghost predicate Holds(s: State, i: ProcId, t: Token) {
    s.lock.Some? && s.lock.value.token == t && s.lock.value.owner == i
  }

  /** The lock named by `t` may go: its publisher is dead, or is the process releasing it. */
  ghost predicate MayGo(s: State, i: ProcId, why: Why, t: Token) {
    && t in s.issued
    && match why
       case Takeover(_, want) => want == Some(t) && Dead(s, s.issued[t].owner)
       case Release(mine) => mine == t && s.issued[t].owner == i
  }

  ghost predicate WhyOk(s: State, i: ProcId, why: Why) {
    match why
    case Takeover(_, None) => true
    case Takeover(_, Some(t)) => MayGo(s, i, why, t)
    case Release(t) => MayGo(s, i, why, t)
  }

  ghost predicate OpOk(s: State, job: Job, op: Op) {
    op.RecordPending? ==>
      job == Apply(op.m) && !HasAnyFiled(s.store, op.m) && !HasPending(s.store, op.m)
  }

  ghost predicate ActOk(s: State, job: Job, act: Act) {
    match act
    case Search => true
    case CheckFiled(_) => job.Apply?
    case CheckPending => job.Apply? && !HasAnyFiled(s.store, job.m)
    case Load(op) => OpOk(s, job, op)
    case Write(op, loaded) => loaded == s.store && OpOk(s, job, op)
    case Create(attempt) =>
      && job.Apply? && Pending(job.m, attempt) in s.store.pending && !HasAnyFiled(s.store, job.m)
      && s.creates[job.m] <= s.clears[job.m] && s.attempted[attempt] == 0
  }

  ghost predicate JobOk(s: State, job: Job) {
    job.Apply? ==> job.m in s.approved
  }

  ghost predicate PcOk(s: State, i: ProcId, pc: Pc) {
    match pc
    case Idle => true
    case Publish(job) => JobOk(s, job)
    case StaleStat(job) => JobOk(s, job)
    case StaleRead(job) => JobOk(s, job)
    case StaleStart(job, seen) => JobOk(s, job) && Issued(s, seen)
    case StaleKill(job, seen) => JobOk(s, job) && Issued(s, seen)
    case Snapshot(why) => WhyOk(s, i, why) && JobOk(s, Wanted(why))
    case ReadOwner(why, snap) => WhyOk(s, i, why) && JobOk(s, Wanted(why)) && snap < s.nextToken
    case ReadAgain(why, snap) => WhyOk(s, i, why) && JobOk(s, Wanted(why)) && Gone(s, snap)
    case Remove(why, snap) => JobOk(s, Wanted(why)) && (Gone(s, snap) || MayGo(s, i, why, snap))
    case Verify(job, t) => JobOk(s, job) && Holds(s, i, t)
    case Acting(job, t, act) => JobOk(s, job) && Holds(s, i, t) && ActOk(s, job, act)
  }

  ghost predicate ProcOk(s: State, i: ProcId, p: Proc) {
    && i < s.nextProc
    && (forall m :: m in p.approvals ==> m in s.approved)
    && PcOk(s, i, p.pc)
  }

  /** A published lock describes its publisher truthfully for as long as that process lives. */
  ghost predicate LockOk(s: State, t: Token, l: Lock) {
    && t == l.token && t < s.nextToken && l.owner < s.nextProc
    && (l.owner in s.procs ==>
          && l.pid == s.procs[l.owner].pid
          && (l.start.Some? ==> l.start.value == s.procs[l.owner].start))
  }

  ghost predicate LocksOk(s: State) {
    && (s.lock.Some? ==> Issued(s, s.lock.value))
    && (forall t :: t in s.issued ==> LockOk(s, t, s.issued[t]))
    && (forall i, j :: i in s.procs && j in s.procs && s.procs[i].pid == s.procs[j].pid ==> i == j)
  }

  ghost predicate CountOk(s: State, m: Manifest) {
    && s.creates[m] <= s.clears[m] + 1
    && (!HasPending(s.store, m) && !HasAnyFiled(s.store, m) ==> s.creates[m] <= s.clears[m])
    && (s.creates[m] > 0 ==> m in s.approved)
  }

  ghost predicate AttemptOk(s: State, a: AttemptId) {
    s.attempted[a] <= 1 && (s.attempted[a] > 0 ==> a < s.nextAttempt)
  }

  ghost predicate StoreOk(s: State) {
    && (forall m :: CountOk(s, m))
    && (forall a :: AttemptOk(s, a))
    && (forall p :: p in s.store.pending ==> p.attemptId < s.nextAttempt)
    && (forall m :: m in s.store.approvals ==> m in s.approved)
  }

  ghost predicate ProcsOk(s: State) {
    forall i :: i in s.procs ==> ProcOk(s, i, s.procs[i])
  }

  ghost predicate Inv(s: State) {
    LocksOk(s) && StoreOk(s) && ProcsOk(s)
  }

  /** Any store may be found on disk at first; nothing is running and nothing has been called yet. */
  ghost predicate Init(s: State) {
    && s.lock == None && s.procs == map[] && s.issued == map[]
    && s.creates == multiset{} && s.attempted == multiset{} && s.clears == multiset{}
    && (forall p :: p in s.store.pending ==> p.attemptId < s.nextAttempt)
    && (forall m :: m in s.store.approvals ==> m in s.approved)
  }

  lemma {:induction false} InitInv(s: State)
    requires Init(s)
    ensures Inv(s)
  {
  }

  // ---------------------------------------------------------------------- preservation

  /** A step that only moves process `i` keeps the invariant if the new place is sound. */
  lemma {:induction false} Moved(s: State, i: ProcId, q: Proc)
    requires Inv(s) && i in s.procs
    requires q.pid == s.procs[i].pid && q.start == s.procs[i].start
    requires ProcOk(s, i, q)
    ensures Inv(s.(procs := s.procs[i := q]))
  {
    var s' := s.(procs := s.procs[i := q]);
    assert s'.procs.Keys == s.procs.Keys;
    forall j | j in s'.procs ensures ProcOk(s', j, s'.procs[j]) {
      assert ProcOk(s, j, s'.procs[j]);
      SameView(s, s', j, s'.procs[j].pc);
    }
    forall t | t in s'.issued ensures LockOk(s', t, s'.issued[t]) {
      assert LockOk(s, t, s.issued[t]);
    }
    forall m ensures CountOk(s', m) { assert CountOk(s, m); }
    forall a ensures AttemptOk(s', a) { assert AttemptOk(s, a); }
  }

  lemma {:induction false} SameView(s: State, s': State, j: ProcId, pc: Pc)
    requires s' == s.(procs := s'.procs) && s'.procs.Keys == s.procs.Keys
    requires PcOk(s, j, pc)
    ensures PcOk(s', j, pc)
  {
  }

  lemma {:induction false} StaleKeeps(s: State, i: ProcId, c: Choice)
    requires Inv(s) && i in s.procs
    requires var pc := s.procs[i].pc; pc.StaleStat? || pc.StaleRead? || pc.StaleStart? || pc.StaleKill?
    ensures Inv(GoStep(s, i, c))
  {
    var pc := s.procs[i].pc;
    assert ProcOk(s, i, s.procs[i]);
    if pc.StaleStart? || pc.StaleKill? {
      assert LockOk(s, pc.seen.token, s.issued[pc.seen.token]);
    }
    Moved(s, i, s.procs[i].(pc := StaleNext(s, pc, c)));
  }

  lemma {:induction false} OwnerKeeps(s: State, i: ProcId, c: Choice)
    requires Inv(s) && i in s.procs
    requires var pc := s.procs[i].pc; pc.Snapshot? || pc.ReadOwner? || pc.ReadAgain?
    ensures Inv(GoStep(s, i, c))
  {
    var pc := s.procs[i].pc;
    assert ProcOk(s, i, s.procs[i]);
    if s.lock.Some? {
      assert LockOk(s, s.lock.value.token, s.lock.value);
    }
    Moved(s, i, s.procs[i].(pc := OwnerNext(s, pc, c)));
  }

  lemma {:induction false} ReadKeeps(s: State, i: ProcId, c: Choice)
    requires Inv(s) && i in s.procs
    requires var pc := s.procs[i].pc;
             pc.Acting? && (pc.act.Search? || pc.act.CheckFiled? || pc.act.CheckPending? || pc.act.Load?)
    ensures Inv(GoStep(s, i, c))
  {
    var pc := s.procs[i].pc;
    assert ProcOk(s, i, s.procs[i]);
    Moved(s, i, s.procs[i].(pc := ReadNext(s, pc.job, pc.token, pc.act, c)));
  }

  lemma {:induction false} PublishKeeps(s: State, i: ProcId, c: Choice)
    requires Inv(s) && i in s.procs && s.procs[i].pc.Publish?
    ensures Inv(GoStep(s, i, c))
  {
    var p := s.procs[i];
    var s' := GoStep(s, i, c);
    assert ProcOk(s, i, p);
    if c.error || s.lock.Some? {
      Moved(s, i, s'.procs[i]);
    } else {
      assert s'.procs.Keys == s.procs.Keys;
      forall t | t in s'.issued ensures LockOk(s', t, s'.issued[t]) {
        if t != s.nextToken { assert LockOk(s, t, s.issued[t]); }
      }
      forall j | j in s'.procs ensures ProcOk(s', j, s'.procs[j]) {
        if j != i { assert ProcOk(s, j, s.procs[j]); Published(s, s', j, s.procs[j].pc); }
      }
      forall m ensures CountOk(s', m) { assert CountOk(s, m); }
      forall a ensures AttemptOk(s', a) { assert AttemptOk(s, a); }
    }
  }

  /** Publishing a lock under a fresh token disturbs nobody: without a lock nobody holds one. */
  lemma {:induction false} Published(s: State, s': State, j: ProcId, pc: Pc)
    requires LocksOk(s) && PcOk(s, j, pc) && s.lock.None? && s'.lock.Some?
    requires s'.procs.Keys == s.procs.Keys && s'.nextProc == s.nextProc && s'.nextToken == s.nextToken + 1
    requires s'.lock.value.token == s.nextToken && s'.issued == s.issued[s.nextToken := s'.lock.value]
    requires s'.approved == s.approved
    ensures PcOk(s', j, pc)
  {
    forall t | t in s.issued ensures t < s.nextToken { assert LockOk(s, t, s.issued[t]); }
  }

  lemma {:induction false} RemoveKeeps(s: State, i: ProcId, c: Choice)
    requires Inv(s) && i in s.procs && s.procs[i].pc.Remove?
    ensures Inv(GoStep(s, i, c))
  {
    var pc := s.procs[i].pc;
    var r := RemoveLock(s, pc.snap, c);
    assert ProcOk(s, i, s.procs[i]);
    if r != s {
      assert LockOk(s, s.lock.value.token, s.lock.value);
      assert r == s.(lock := None) && MayGo(s, i, pc.why, s.lock.value.token);
      forall j | j in r.procs ensures ProcOk(r, j, r.procs[j]) {
        assert ProcOk(s, j, s.procs[j]);
        Removed(s, i, j);
      }
      forall t | t in r.issued ensures LockOk(r, t, r.issued[t]) { assert LockOk(s, t, s.issued[t]); }
      forall m ensures CountOk(r, m) { assert CountOk(s, m); }
      forall a ensures AttemptOk(r, a) { assert AttemptOk(s, a); }
    }
    Moved(r, i, r.procs[i].(pc := Done(pc.why)));
  }

  /** An authorised removal takes the lock from nobody: its owner is dead or is the remover. */
  lemma {:induction false} Removed(s: State, i: ProcId, j: ProcId)
    requires Inv(s) && i in s.procs && j in s.procs && s.procs[i].pc.Remove?
    requires s.lock.Some? && MayGo(s, i, s.procs[i].pc.why, s.lock.value.token)
    ensures PcOk(s.(lock := None), j, s.procs[j].pc)
  {
    assert ProcOk(s, j, s.procs[j]);
    assert Issued(s, s.lock.value);
  }

  /** Only the holder of the lock is inside the action, so nobody else relies on the store. */
  lemma {:induction false} Unaffected(s: State, s': State, i: ProcId, j: ProcId, pc: Pc)
    requires i != j && PcOk(s, j, pc) && s.lock.Some? && s.lock.value.owner == i
    requires s'.lock == s.lock && s'.issued == s.issued && s'.procs.Keys == s.procs.Keys
    requires s'.nextProc == s.nextProc && s'.nextToken == s.nextToken && s.approved <= s'.approved
    ensures PcOk(s', j, pc)
  {
  }

  lemma {:induction false} WriteKeeps(s: State, i: ProcId, c: Choice)
    requires Inv(s) && i in s.procs && s.procs[i].pc.Acting? && s.procs[i].pc.act.Write?
    ensures Inv(GoStep(s, i, c))
  {
    var p := s.procs[i];
    var op, loaded := p.pc.act.op, p.pc.act.loaded;
    var s' := GoStep(s, i, c);
    assert ProcOk(s, i, p);
    assert LockOk(s, s.lock.value.token, s.lock.value);
    if (c.error && !c.flag) || (op.ClearPending? && !Clears(loaded, op)) {
      Moved(s, i, s'.procs[i]);
    } else {
      assert s'.procs.Keys == s.procs.Keys;
      WriteCounts(s, i, c);
      forall t | t in s'.issued ensures LockOk(s', t, s'.issued[t]) { assert LockOk(s, t, s.issued[t]); }
      WriterKeeps(s, i, c);
      forall j | j in s'.procs ensures ProcOk(s', j, s'.procs[j]) {
        if j != i {
          assert ProcOk(s, j, s.procs[j]);
          Unaffected(s, s', i, j, s.procs[j].pc);
        }
      }
    }
  }

  lemma {:induction false} WriterKeeps(s: State, i: ProcId, c: Choice)
    requires Inv(s) && i in s.procs && s.procs[i].pc.Acting? && s.procs[i].pc.act.Write?
    requires !(c.error && !c.flag)
    ensures var s' := GoStep(s, i, c); i in s'.procs && ProcOk(s', i, s'.procs[i])
  {
    var p := s.procs[i];
    var op := p.pc.act.op;
    assert ProcOk(s, i, p);
    assert LockOk(s, s.lock.value.token, s.lock.value);
    if p.pc.job.Apply? && op.RecordPending? {
      ApplyOpFrame(s.store, op, s.nextAttempt);
      assert CountOk(s, op.m) && AttemptOk(s, s.nextAttempt);
    }
  }

  lemma {:induction false} WriteCounts(s: State, i: ProcId, c: Choice)
    requires Inv(s) && i in s.procs && s.procs[i].pc.Acting? && s.procs[i].pc.act.Write?
    ensures StoreOk(GoStep(s, i, c))
  {
    var p := s.procs[i];
    var op := p.pc.act.op;
    var s' := GoStep(s, i, c);
    assert ProcOk(s, i, p);
    ApplyOpFrame(s.store, op, s.nextAttempt);
    forall m ensures CountOk(s', m) {
      assert CountOk(s, m);
      if !(c.error && !c.flag) && !(op.ClearPending? && op.m == m) {
        if HasAnyFiled(s.store, m) {
          var f :| f in s.store.filed && f.manifest == m;
          assert f in s'.store.filed;
        } else if HasPending(s.store, m) && !(op.RecordFiled? && op.m == m) {
          var r :| r in s.store.pending && r.manifest == m;
          assert r in s'.store.pending;
        }
      }
    }
    forall a ensures AttemptOk(s', a) { assert AttemptOk(s, a); }
  }

  lemma {:induction false} CreateKeeps(s: State, i: ProcId, c: Choice)
    requires Inv(s) && i in s.procs && s.procs[i].pc.Acting? && s.procs[i].pc.act.Create?
    ensures Inv(GoStep(s, i, c))
  {
    var p := s.procs[i];
    var s' := GoStep(s, i, c);
    assert ProcOk(s, i, p);
    assert s'.procs.Keys == s.procs.Keys;
    assert LockOk(s, s.lock.value.token, s.lock.value);
    forall m ensures CountOk(s', m) { assert CountOk(s, m); }
    forall a ensures AttemptOk(s', a) { assert AttemptOk(s, a); }
    forall t | t in s'.issued ensures LockOk(s', t, s'.issued[t]) { assert LockOk(s, t, s.issued[t]); }
    forall j | j in s'.procs ensures ProcOk(s', j, s'.procs[j]) {
      if j != i {
        assert ProcOk(s, j, s.procs[j]);
        Unaffected(s, s', i, j, s.procs[j].pc);
      }
    }
  }

  lemma {:induction false} GoKeeps(s: State, i: ProcId, c: Choice)
    requires Inv(s) && i in s.procs
    ensures Inv(GoStep(s, i, c))
  {
    var p := s.procs[i];
    assert ProcOk(s, i, p);
    match p.pc
    case Idle => Moved(s, i, IdleNext(s, p, c));
    case Publish(_) => PublishKeeps(s, i, c);
    case Remove(_, _) => RemoveKeeps(s, i, c);
    case Verify(job, token) =>
      Moved(s, i, p.(pc := if c.error || s.lock.None? || s.lock.value.token != token then Idle
                           else Acting(job, token, FirstAct(job))));
    case Acting(_, _, Write(_, _)) => WriteKeeps(s, i, c);
    case Acting(_, _, Create(_)) => CreateKeeps(s, i, c);
    case Acting(_, _, _) => ReadKeeps(s, i, c);
    case Snapshot(_) => OwnerKeeps(s, i, c);
    case ReadOwner(_, _) => OwnerKeeps(s, i, c);
    case ReadAgain(_, _) => OwnerKeeps(s, i, c);
    case _ => StaleKeeps(s, i, c);
  }

  lemma {:induction false} DieKeeps(s: State, i: ProcId)
    requires Inv(s)
    ensures Inv(Step(s, Die(i)))
  {
    var s' := Step(s, Die(i));
    forall t | t in s'.issued ensures LockOk(s', t, s'.issued[t]) { assert LockOk(s, t, s.issued[t]); }
    forall j | j in s'.procs ensures ProcOk(s', j, s'.procs[j]) { assert ProcOk(s, j, s.procs[j]); }
    forall m ensures CountOk(s', m) { assert CountOk(s, m); }
    forall a ensures AttemptOk(s', a) { assert AttemptOk(s, a); }
  }

  lemma {:induction false} SpawnKeeps(s: State, pid: nat, start: nat)
    requires Inv(s)
    ensures Inv(Step(s, Spawn(pid, start)))
  {
    var s' := Step(s, Spawn(pid, start));
    forall j | j in s.procs ensures j < s.nextProc { assert ProcOk(s, j, s.procs[j]); }
    forall t | t in s'.issued ensures LockOk(s', t, s'.issued[t]) { assert LockOk(s, t, s.issued[t]); }
    forall j | j in s'.procs ensures ProcOk(s', j, s'.procs[j]) {
      if j in s.procs { assert ProcOk(s, j, s.procs[j]); }
    }
    forall m ensures CountOk(s', m) { assert CountOk(s, m); }
    forall a ensures AttemptOk(s', a) { assert AttemptOk(s, a); }
  }

  lemma {:induction false} StepKeeps(s: State, e: Event)
    requires Inv(s)
    ensures Inv(Step(s, e))
  {
    match e
    case Spawn(pid, start) => SpawnKeeps(s, pid, start);
    case Die(i) => DieKeeps(s, i);
    case Go(i, c) => if i in s.procs { GoKeeps(s, i, c); }
  }

  lemma {:induction false} RunKeeps(s: State, events: seq<Event>)
    requires Inv(s)
    ensures Inv(Run(s, events))
    decreases |events|
  {
    if events != [] {
      StepKeeps(s, events[0]);
      RunKeeps(Step(s, events[0]), events[1..]);
    }
  }

  // ---------------------------------------------------------------------- main results

  predicate InAction(s: State, i: ProcId) {
    i in s.procs && s.procs[i].pc.Acting?
  }

  /**
   * Mutual exclusion over all runs: however processes are scheduled, killed and replaced, and
   * however pids are recycled, at most one live process is inside the locked action, and the lock
   * on disk is the one that process published.
   */
  lemma {:induction false} MutualExclusion(s: State, events: seq<Event>, i: ProcId, j: ProcId)
    requires Init(s)
    requires InAction(Run(s, events), i) && InAction(Run(s, events), j)
    ensures i == j
    ensures var r := Run(s, events); r.lock.Some? && r.lock.value.token == r.procs[i].pc.token
  {
    InitInv(s);
    RunKeeps(s, events);
    var r := Run(s, events);
    assert ProcOk(r, i, r.procs[i]) && ProcOk(r, j, r.procs[j]);
  }

  /**
   * A lock only ever disappears because its own publisher releases it or because its publisher is
   * dead. In particular stale takeover never removes a living owner's lock, even when locks are
   * released and published again between the staleness test, the snapshot and the removal.
   */
  lemma {:induction false} TakeoverSafe(s: State, events: seq<Event>, e: Event)
    requires Init(s)
    ensures var r := Run(s, events);
            r.lock.Some? && Step(r, e).lock != r.lock ==>
              && Step(r, e).lock.None?
              && e.Go? && e.id in r.procs && !InAction(r, e.id)
              && (r.lock.value.owner == e.id || Dead(r, r.lock.value.owner))
  {
    InitInv(s);
    RunKeeps(s, events);
    var r := Run(s, events);
    if e.Go? && e.id in r.procs {
      assert ProcOk(r, e.id, r.procs[e.id]);
    }
  }

  /**
   * A process that has just published the lock always finds its own token in it: the identity
   * check that follows publication never reports a changed owner.
   */
  lemma {:induction false} PublishedOwnerUnchanged(s: State, events: seq<Event>, i: ProcId)
    requires Init(s)
    ensures var r := Run(s, events);
            i in r.procs && r.procs[i].pc.Verify? ==> r.lock.Some? && r.lock.value.token == r.procs[i].pc.token
  {
    InitInv(s);
    RunKeeps(s, events);
    var r := Run(s, events);
    if i in r.procs { assert ProcOk(r, i, r.procs[i]); }
  }

  /**
   * The write-ahead bound: over every run, the create calls for a manifest never exceed one plus
   * the operator clears of its pending record; each attempt reaches GitHub at most once; and every
   * manifest that reaches GitHub was approved by an operator.
   */
  lemma {:induction false} CreatesBounded(s: State, events: seq<Event>, m: Manifest, a: AttemptId)
    requires Init(s)
    ensures Run(s, events).creates[m] <= 1 + Run(s, events).clears[m]
    ensures Run(s, events).attempted[a] <= 1
    ensures Run(s, events).creates[m] > 0 ==> m in Run(s, events).approved
  {
    InitInv(s);
    RunKeeps(s, events);
    assert CountOk(Run(s, events), m) && AttemptOk(Run(s, events), a);
  }

  /** Once a manifest is recorded as filed it is never created again, whatever is cleared later. */
  lemma {:induction false} FiledIsFinal(s: State, events: seq<Event>, m: Manifest)
    requires Inv(s) && HasAnyFiled(s.store, m)
    ensures HasAnyFiled(Run(s, events).store, m)
    ensures Run(s, events).creates[m] == s.creates[m]
    decreases |events|
  {
    if events != [] {
      var e := events[0];
      StepKeeps(s, e);
      FiledStep(s, e, m);
      FiledIsFinal(Step(s, e), events[1..], m);
    }
  }

  lemma {:induction false} FiledStep(s: State, e: Event, m: Manifest)
    requires Inv(s) && HasAnyFiled(s.store, m)
    ensures HasAnyFiled(Step(s, e).store, m) && Step(s, e).creates[m] == s.creates[m]
  {
    if e.Go? && e.id in s.procs {
      var p := s.procs[e.id];
      assert ProcOk(s, e.id, p);
      var f :| f in s.store.filed && f.manifest == m;
      if p.pc.Acting? && p.pc.act.Write? {
        ApplyOpFrame(s.store, p.pc.act.op, s.nextAttempt);
      }
      assert f in Step(s, e).store.filed;
    }
  }

  /**
   * An attempt that is no longer pending never becomes pending again, so a clear that arrives
   * after its attempt was resolved removes nothing, however much later it runs.
   */
  lemma {:induction false} AttemptNeverReturns(s: State, events: seq<Event>, m: Manifest, a: AttemptId)
    requires Inv(s) && a < s.nextAttempt && Pending(m, a) !in s.store.pending
    ensures Pending(m, a) !in Run(s, events).store.pending
    ensures ApplyOp(Run(s, events).store, ClearPending(m, a), 0) == Run(s, events).store
    decreases |events|
  {
    if events == [] {
    } else {
      var e := events[0];
      StepKeeps(s, e);
      if e.Go? && e.id in s.procs {
        var p := s.procs[e.id];
        assert ProcOk(s, e.id, p);
        if p.pc.Acting? && p.pc.act.Write? {
          ApplyOpFrame(s.store, p.pc.act.op, s.nextAttempt);
        }
      }
      AttemptNeverReturns(Step(s, e), events[1..], m, a);
    }
  }

  /**
   * The only ways a pending record leaves the store: an operator clear naming exactly its attempt,
   * or its manifest being recorded as filed by the process that holds the lock.
   */
  lemma {:induction false} PendingLeaves(s: State, e: Event, p: Pending)
    requires Inv(s) && p in s.store.pending && p !in Step(s, e).store.pending
    ensures e.Go? && InAction(s, e.id) && s.procs[e.id].pc.act.Write?
    ensures var op := s.procs[e.id].pc.act.op;
            op == ClearPending(p.manifest, p.attemptId) || (op.RecordFiled? && op.m == p.manifest)
    ensures Step(s, e).clears != s.clears || HasAnyFiled(Step(s, e).store, p.manifest)
  {
    assert ProcOk(s, e.id, s.procs[e.id]);
    var act := s.procs[e.id].pc.act;
    ApplyOpFrame(s.store, act.op, s.nextAttempt);
    if act.op.ClearPending? {
      assert Step(s, e).clears[p.manifest] == s.clears[p.manifest] + 1;
    }
  }
}
