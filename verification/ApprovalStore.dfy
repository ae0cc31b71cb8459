/** The operator approval store of the crash-issue filer: what one load-modify-write of the store file does. */
module ApprovalStore {
  import opened Common

  datatype Manifest = Manifest(repo: string, org: string, project: string, groupId: string,
                               fingerprint: string, contentDigest: string)

  /** A random attempt id; freshness is the only thing the protocol uses. */
  type AttemptId = nat

  datatype Pending = Pending(manifest: Manifest, attemptId: AttemptId)
  datatype Filed = Filed(manifest: Manifest, url: string)
  datatype Stored = Stored(approvals: seq<Manifest>, filed: seq<Filed>, pending: seq<Pending>)

  predicate HasPending(st: Stored, m: Manifest) {
    exists p :: p in st.pending && p.manifest == m
  }

  predicate HasAnyFiled(st: Stored, m: Manifest) {
    exists f :: f in st.filed && f.manifest == m
  }

  /** The attempt of the first pending record of `m`, as `pendingAttempt` reports it. */
  function PendingAttempt(ps: seq<Pending>, m: Manifest): (a: Option<AttemptId>)
    ensures a.Some? ==> Pending(m, a.value) in ps
    ensures a.None? ==> forall p :: p in ps ==> p.manifest != m
  {
    if ps == [] then None
    else if ps[0].manifest == m then Some(ps[0].attemptId)
    else
      assert ps == [ps[0]] + ps[1..];
      PendingAttempt(ps[1..], m)
  }

  function NewApprovals(saved: seq<Manifest>, ms: seq<Manifest>): (r: seq<Manifest>)
    ensures forall m :: m in r <==> m in ms && m !in saved
  {
    if ms == [] then []
    else
      assert ms == [ms[0]] + ms[1..];
      (if ms[0] in saved then [] else [ms[0]]) + NewApprovals(saved, ms[1..])
  }

  function DropApproval(saved: seq<Manifest>, m: Manifest): (r: seq<Manifest>)
    ensures forall x :: x in r <==> x in saved && x != m
  {
    if saved == [] then []
    else
      assert saved == [saved[0]] + saved[1..];
      (if saved[0] == m then [] else [saved[0]]) + DropApproval(saved[1..], m)
  }

  function DropManifest(ps: seq<Pending>, m: Manifest): (r: seq<Pending>)
    ensures forall p :: p in r <==> p in ps && p.manifest != m
    ensures |r| <= |ps|
  {
    if ps == [] then []
    else
      assert ps == [ps[0]] + ps[1..];
      (if ps[0].manifest == m then [] else [ps[0]]) + DropManifest(ps[1..], m)
  }

  function DropAttempt(ps: seq<Pending>, p: Pending): (r: seq<Pending>)
    ensures forall q :: q in r <==> q in ps && q != p
    ensures |r| <= |ps|
    ensures |r| == |ps| <==> p !in ps
    ensures p !in ps ==> r == ps
  {
    if ps == [] then []
    else
      assert ps == [ps[0]] + ps[1..];
      (if ps[0] == p then [] else [ps[0]]) + DropAttempt(ps[1..], p)
  }

  /** One locked mutation of the store. */
  datatype Op =
    | RecordApprovals(ms: seq<Manifest>)
    | Consume(m: Manifest)
    | RecordFiled(m: Manifest, url: string)
    | RecordPending(m: Manifest)
    | ClearPending(m: Manifest, attempt: AttemptId)

  /** The store after `op`; `uuid` is the attempt id drawn should a pending record be added. */
  function ApplyOp(st: Stored, op: Op, uuid: AttemptId): (r: Stored) {
    match op
    case RecordApprovals(ms) => st.(approvals := st.approvals + NewApprovals(st.approvals, ms))
    case Consume(m) => st.(approvals := DropApproval(st.approvals, m))
    case RecordFiled(m, url) =>
      st.(filed := if Filed(m, url) in st.filed then st.filed else st.filed + [Filed(m, url)],
          pending := DropManifest(st.pending, m))
    case RecordPending(m) =>
      if HasPending(st, m) then st else st.(pending := st.pending + [Pending(m, uuid)])
    case ClearPending(m, a) => st.(pending := DropAttempt(st.pending, Pending(m, a)))
  }

  /** Whether `op` is an operator clear that removes something; this is what `clearPending` returns. */
  predicate Clears(st: Stored, op: Op) {
    op.ClearPending? && Pending(op.m, op.attempt) in st.pending
  }

  /**
   * Frame of every mutation: which pending and filed records it adds and removes.
   * In particular a clear removes exactly the attempt it was given, so a newer attempt
   * of the same manifest survives it, and nothing ever leaves the filed records.
   */
  lemma {:induction false} ApplyOpFrame(st: Stored, op: Op, uuid: AttemptId)
    ensures forall f :: f in st.filed ==> f in ApplyOp(st, op, uuid).filed
    ensures forall f :: f in ApplyOp(st, op, uuid).filed && f !in st.filed ==>
                          op == RecordFiled(f.manifest, f.url)
    ensures forall p :: p in st.pending && p !in ApplyOp(st, op, uuid).pending ==>
                          || op == ClearPending(p.manifest, p.attemptId)
                          || (op.RecordFiled? && op.m == p.manifest)
    ensures forall p :: p in ApplyOp(st, op, uuid).pending && p !in st.pending ==>
                          op == RecordPending(p.manifest) && p.attemptId == uuid && !HasPending(st, p.manifest)
    ensures op.ClearPending? && !Clears(st, op) ==> ApplyOp(st, op, uuid) == st
    ensures op.RecordFiled? ==> HasAnyFiled(ApplyOp(st, op, uuid), op.m) && !HasPending(ApplyOp(st, op, uuid), op.m)
    ensures op.RecordPending? ==> HasPending(ApplyOp(st, op, uuid), op.m)
    ensures forall m :: m in ApplyOp(st, op, uuid).approvals ==>
                          m in st.approvals || (op.RecordApprovals? && m in op.ms)
  {
    if op.RecordFiled? {
      assert Filed(op.m, op.url) in ApplyOp(st, op, uuid).filed;
    } else if op.RecordPending? && !HasPending(st, op.m) {
      assert Pending(op.m, uuid) in ApplyOp(st, op, uuid).pending;
    }
  }

  /** The store file itself, mutated in place by one operation at a time. */
  class StoreFile {
    var approvals: seq<Manifest>
    var filed: seq<Filed>
    var pending: seq<Pending>

    function Contents(): (st: Stored)
      reads this
    {
      Stored(approvals, filed, pending)
    }

    method Record(ms: seq<Manifest>)
      modifies this
      ensures Contents() == ApplyOp(old(Contents()), RecordApprovals(ms), 0)
      ensures forall m :: m in approvals <==> m in old(approvals) || m in ms
      ensures filed == old(filed) && pending == old(pending)
    {
      var added := NewApprovals(approvals, ms);
      approvals := approvals + added;
    }

    method ConsumeApproval(m: Manifest)
      modifies this
      ensures Contents() == ApplyOp(old(Contents()), Consume(m), 0)
      ensures filed == old(filed) && pending == old(pending)
      ensures forall x :: x in approvals <==> x in old(approvals) && x != m
    {
      approvals := DropApproval(approvals, m);
    }

    method RecordFiledUrl(m: Manifest, url: string)
      modifies this
      ensures Contents() == ApplyOp(old(Contents()), RecordFiled(m, url), 0)
      ensures Filed(m, url) in filed && !HasPending(Contents(), m)
    {
      if Filed(m, url) !in filed {
        filed := filed + [Filed(m, url)];
      }
      pending := DropManifest(pending, m);
    }

    method RecordPendingAttempt(m: Manifest, uuid: AttemptId)
      modifies this
      ensures Contents() == ApplyOp(old(Contents()), RecordPending(m), uuid)
      ensures HasPending(Contents(), m)
    {
      var attempt := PendingAttempt(pending, m);
      if attempt.None? {
        pending := pending + [Pending(m, uuid)];
        assert Pending(m, uuid) in pending;
      }
    }

    method ClearPendingAttempt(m: Manifest, attempt: AttemptId) returns (cleared: bool)
      modifies this
      ensures Contents() == ApplyOp(old(Contents()), ClearPending(m, attempt), 0)
      ensures cleared <==> Clears(old(Contents()), ClearPending(m, attempt))
      ensures !cleared ==> Contents() == old(Contents())
    {
      var before := |pending|;
      var kept := DropAttempt(pending, Pending(m, attempt));
      if |kept| == before {
        return false;
      }
      pending := kept;
      return true;
    }
  }
}
