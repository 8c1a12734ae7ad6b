/**
 * What an accepted request was: over whole runs, the record an answer names is the write that was
 * asked for, or one that the retry digest identifies it with
 * (p256-registrar/src/admission.rs:340-565).
 */
module PipelineRequests {
  import opened Basics
  import opened Tasks
  import opened RetryDigests
  import St = Stores
  import A = Admissions
  import B = Submission
  import opened Pipeline
  import opened PipelineSafety
  import opened PipelineRuns

  /** The validated request of each slot. */
  type Requests = map<nat, Task>

  function RequestsAfter(requests: Requests, step: Step): Requests {
    match step
    case Arrive(slot, Some(v)) => requests[slot := v]
    case Arrive(slot, None) => requests - {slot}
    case AdmissionGone(slot) => requests - {slot}
    case _ => requests
  }

  function RequestsAt(r: Run, i: nat): Requests
    requires i <= |r.steps|
  {
    if i == 0 then map[] else RequestsAfter(RequestsAt(r, i - 1), r.steps[i - 1])
  }

  /** The record is the write asked for, or a register that the retry digest takes for it. */
  predicate Answers(v: Task, t: Task) {
    || t.contentHash == v.contentHash
    || (v.kind.Register? && t.kind.Register? && RetryDigest(t) == RetryDigest(v))
  }

  // ── The invariant ────────────────────────────────────────────────────────

  /** A retry marker names a register with that digest, as long as its record exists. */
  predicate DigestOk(s: System, d: St.RetryKey)
    requires d in s.store.digests
  {
    var id := s.store.digests[d].taskId;
    id in s.born && (id in s.store.tasks ==> s.store.tasks[id].task.kind.Register? && RetryDigest(s.store.tasks[id].task) == d)
  }

  predicate DigestsOk(s: System) { forall d | d in s.store.digests :: DigestOk(s, d) }

  predicate SlotAsked(s: System, pc: A.Pc, v: Task) {
    && (A.Unborn(pc).Some? ==> A.Unborn(pc).value == v)
    && (pc.FindingDigest? ==> v.kind.Register?)
    && (Names(pc).Some? && Names(pc).value in s.store.tasks ==> Answers(v, s.store.tasks[Names(pc).value].task))
    && (pc.NotingDigest? ==>
          pc.admitted == v && v.kind.Register? && (v.id in s.store.tasks ==> SameWrite(s.store.tasks[v.id].task, v)))
  }

  predicate Silent(pc: A.Pc) { A.Unborn(pc).None? && Names(pc).None? }

  predicate SlotsAsked(s: System, requests: Requests) {
    forall slot | slot in s.admissions ::
      if slot in requests then SlotAsked(s, s.admissions[slot], requests[slot]) else Silent(s.admissions[slot])
  }

  predicate Asked(s: System, requests: Requests) { DigestsOk(s) && SlotsAsked(s, requests) }

  // ── What survives other people's steps ───────────────────────────────────

  lemma {:induction false} RowKeepsWrite(s: System, t: System, id: string)
    requires Evolves(s, t) && id in s.born && id in t.store.tasks
    ensures id in s.store.tasks && SameWrite(s.store.tasks[id].task, t.store.tasks[id].task)
  {
    assert St.RowEvolves(s.store, t.store, id);
  }

  lemma {:induction false} SlotStays(s: System, t: System, pc: A.Pc, v: Task)
    requires Evolves(s, t) && SlotAsked(s, pc, v) && (Names(pc).Some? ==> Names(pc).value in s.born)
    ensures SlotAsked(t, pc, v)
  {
    if Names(pc).Some? && Names(pc).value in t.store.tasks { RowKeepsWrite(s, t, Names(pc).value); }
  }

  lemma {:induction false} DigestsStay(s: System, t: System)
    requires Evolves(s, t) && DigestsOk(s)
    requires forall d | d in t.store.digests :: d in s.store.digests && t.store.digests[d].taskId == s.store.digests[d].taskId
    ensures DigestsOk(t)
  {
    forall d | d in t.store.digests ensures DigestOk(t, d) {
      assert DigestOk(s, d);
      var id := s.store.digests[d].taskId;
      if id in t.store.tasks { RowKeepsWrite(s, t, id); }
    }
  }

  /** Everything but one slot stands still. */
  lemma {:induction false} OtherSlotsStay(s: System, t: System, requests: Requests, slot: nat)
    requires AdmissionsOk(s) && Evolves(s, t) && SlotsAsked(s, requests) && t.admissions.Keys <= s.admissions.Keys + {slot}
    requires forall k | k in t.admissions && k != slot :: t.admissions[k] == s.admissions[k]
    requires slot in t.admissions ==>
               if slot in requests then SlotAsked(t, t.admissions[slot], requests[slot]) else Silent(t.admissions[slot])
    ensures SlotsAsked(t, requests)
  {
    forall k | k in t.admissions && k != slot
      ensures if k in requests then SlotAsked(t, t.admissions[k], requests[k]) else Silent(t.admissions[k])
    {
      assert AdmissionOk(s, s.admissions[k]);
      if k in requests { SlotStays(s, t, s.admissions[k], requests[k]); }
    }
  }

  lemma {:induction false} AllSlotsStay(s: System, t: System, requests: Requests)
    requires AdmissionsOk(s) && Evolves(s, t) && SlotsAsked(s, requests) && t.admissions == s.admissions
    ensures SlotsAsked(t, requests)
  {
    forall k | k in t.admissions
      ensures if k in requests then SlotAsked(t, t.admissions[k], requests[k]) else Silent(t.admissions[k])
    {
      assert AdmissionOk(s, s.admissions[k]);
      if k in requests { SlotStays(s, t, s.admissions[k], requests[k]); }
    }
  }

  // ── One step of an admission ─────────────────────────────────────────────

  lemma {:induction false} FoundByContentAnswers(s: System, v: Task, existing: Task)
    requires St.StoreOk(s.store, s.now, s.chain, s.born) && St.FindByContent(s.store, v.contentHash, s.now) == Some(existing)
    ensures existing.id in s.store.tasks && s.store.tasks[existing.id].task == existing && Answers(v, existing)
  {
    St.ContentIndexIsAFullScan(s.store, s.now, s.chain, s.born, v.contentHash, existing);
  }

  lemma {:induction false} FoundByDigestAnswers(s: System, v: Task, existing: Task)
    requires St.RowsShaped(s.store, s.born) && DigestsOk(s) && v.kind.Register?
    requires St.FindByRetryDigest(s.store, RetryDigest(v), s.now) == Some(existing)
    ensures existing.id in s.store.tasks && s.store.tasks[existing.id].task == existing && Answers(v, existing)
  {
    assert DigestOk(s, RetryDigest(v));
  }

  /** What a lookup that may end the request finds. */
  lemma {:induction false} LookupAnswers(s: System, pc: A.Pc, v: Task, reply: A.Answer, applied: bool)
    requires St.StoreOk(s.store, s.now, s.chain, s.born) && DigestsOk(s) && SlotAsked(s, pc, v)
    requires pc.FindingContent? || pc.FindingDigest?
    requires AdmissionTruth(s, A.Request(pc), reply, applied) && reply.TaskFound? && reply.task.Some?
    ensures var t := reply.task.value; t.id in s.store.tasks && s.store.tasks[t.id].task == t && Answers(v, t)
  {
    if pc.FindingContent? {
      FoundByContentAnswers(s, v, reply.task.value);
    } else {
      FoundByDigestAnswers(s, v, reply.task.value);
    }
  }

  lemma {:induction false} LookingUp(s: System, pc: A.Pc, v: Task, reply: A.Answer)
    requires SlotAsked(s, pc, v) && (pc.FindingContent? || pc.FindingDigest?)
    requires reply.TaskFound? && reply.task.Some? ==>
               var t := reply.task.value; t.id in s.store.tasks && s.store.tasks[t.id].task == t && Answers(v, t)
    ensures SlotAsked(s, A.Resume(pc, reply), v)
  {}

  lemma {:induction false} Asking(s: System, pc: A.Pc, v: Task, reply: A.Answer)
    requires SlotAsked(s, pc, v) && A.Unborn(pc).Some? && !pc.FindingContent? && !pc.FindingDigest? && !pc.Admitting?
    ensures SlotAsked(s, A.Resume(pc, reply), v)
  {}

  lemma {:induction false} Entering(s: System, pc: A.Pc, v: Task, reply: A.Answer, applied: bool)
    requires SlotAsked(s, pc, v) && pc.Admitting? && AdmissionTruth(s, A.Request(pc), reply, applied)
    requires var found := St.FindByContent(s.store, v.contentHash, s.now);
             found.Some? ==> found.value.id in s.store.tasks && Answers(v, s.store.tasks[found.value.id].task)
    ensures SlotAsked(if applied then AdmissionEffect(s, A.Request(pc)) else s, A.Resume(pc, reply), v)
  {}

  /** Past the store, the request goes on with one task. */
  lemma {:induction false} GoingOn(s: System, e: System, pc: A.Pc, v: Task, reply: A.Answer, applied: bool)
    requires SlotAsked(s, pc, v) && Evolves(s, e) && Names(pc).Some? && Names(pc).value in s.born && !pc.Settled?
    requires St.RowsShaped(s.store, s.born) && AdmissionTruth(s, A.Request(pc), reply, applied)
    ensures SlotAsked(e, A.Resume(pc, reply), v)
  {
    SlotStays(s, e, pc, v);
  }

  lemma {:induction false} SlotMoves(s: System, pc: A.Pc, v: Task, reply: A.Answer, applied: bool)
    requires St.StoreOk(s.store, s.now, s.chain, s.born) && DigestsOk(s) && SlotAsked(s, pc, v) && !pc.Settled? && A.WellFormed(pc)
    requires AdmissionOk(s, pc) && AdmissionTruth(s, A.Request(pc), reply, applied)
    requires Evolves(s, if applied then AdmissionEffect(s, A.Request(pc)) else s)
    ensures SlotAsked(if applied then AdmissionEffect(s, A.Request(pc)) else s, A.Resume(pc, reply), v)
  {
    if pc.Admitting? {
      var found := St.FindByContent(s.store, v.contentHash, s.now);
      if found.Some? { FoundByContentAnswers(s, v, found.value); }
      Entering(s, pc, v, reply, applied);
    } else if pc.FindingContent? || pc.FindingDigest? {
      if reply.TaskFound? && reply.task.Some? { LookupAnswers(s, pc, v, reply, applied); }
      LookingUp(s, pc, v, reply);
    } else if A.Unborn(pc).Some? {
      Asking(s, pc, v, reply);
    } else {
      GoingOn(s, if applied then AdmissionEffect(s, A.Request(pc)) else s, pc, v, reply, applied);
    }
  }

  // ── Every step ───────────────────────────────────────────────────────────

  lemma {:induction false} SameWriteSameDigest(a: Task, b: Task)
    requires SameWrite(a, b)
    ensures RetryDigest(a) == RetryDigest(b)
  {}

  lemma {:induction false} NotedDigestIsOk(s: System, v: Task)
    requires DigestsOk(s) && SlotAsked(s, A.NotingDigest(v), v) && v.id in s.born
    ensures DigestsOk(AdmissionEffect(s, A.RecordRetryDigest(RetryDigest(v), v.id)))
  {
    var e := AdmissionEffect(s, A.RecordRetryDigest(RetryDigest(v), v.id));
    forall d | d in e.store.digests ensures DigestOk(e, d) {
      if d != RetryDigest(v) {
        assert DigestOk(s, d);
      } else if v.id in s.store.tasks {
        SameWriteSameDigest(s.store.tasks[v.id].task, v);
      }
    }
  }

  lemma {:induction false} DigestsMove(s: System, e: System, pc: A.Pc, v: Task, applied: bool)
    requires DigestsOk(s) && SlotAsked(s, pc, v) && AdmissionOk(s, pc) && !pc.Settled? && A.WellFormed(pc)
    requires e == (if applied then AdmissionEffect(s, A.Request(pc)) else s) && Evolves(s, e)
    ensures DigestsOk(e)
  {
    if pc.NotingDigest? && applied {
      NotedDigestIsOk(s, v);
    } else {
      DigestsStay(s, e);
    }
  }

  lemma {:induction false} AdmissionStepKeepsAsked(s: System, requests: Requests, slot: nat, reply: A.Answer, applied: bool)
    requires Inv(s) && Asked(s, requests) && Enabled(s, AdmissionStep(slot, reply, applied))
    ensures Asked(AfterAdmission(s, slot, reply, applied), requests)
  {
    var pc := s.admissions[slot];
    var e := if applied then AdmissionEffect(s, A.Request(pc)) else s;
    var t := AfterAdmission(s, slot, reply, applied);
    assert AdmissionOk(s, pc);
    assert slot in requests && SlotAsked(s, pc, requests[slot]);
    AppliedOrNot(s, pc, applied);
    SlotMoves(s, pc, requests[slot], reply, applied);
    DigestsMove(s, e, pc, requests[slot], applied);
    AdmissionStepOk(s, slot, reply, applied);
    forall d | d in t.store.digests ensures DigestOk(t, d) { assert DigestOk(e, d); }
    OtherSlotsStay(s, t, requests, slot);
  }

  lemma {:induction false} ArriveKeepsAsked(s: System, requests: Requests, slot: nat, validated: Option<Task>)
    requires Inv(s) && Asked(s, requests) && Enabled(s, Arrive(slot, validated))
    ensures Asked(Apply(s, Arrive(slot, validated)), RequestsAfter(requests, Arrive(slot, validated)))
  {
    var t, after := Apply(s, Arrive(slot, validated)), RequestsAfter(requests, Arrive(slot, validated));
    StepOk(s, Arrive(slot, validated));
    DigestsStay(s, t);
    forall k | k in t.admissions
      ensures if k in after then SlotAsked(t, t.admissions[k], after[k]) else Silent(t.admissions[k])
    {
      if k != slot {
        assert AdmissionOk(s, s.admissions[k]);
        if k in requests { SlotStays(s, t, s.admissions[k], requests[k]); }
      }
    }
  }

  lemma {:induction false} GoneKeepsAsked(s: System, requests: Requests, slot: nat)
    requires Inv(s) && Asked(s, requests) && slot in s.admissions
    ensures Asked(Apply(s, AdmissionGone(slot)), RequestsAfter(requests, AdmissionGone(slot)))
  {
    var t, after := Apply(s, AdmissionGone(slot)), RequestsAfter(requests, AdmissionGone(slot));
    StepOk(s, AdmissionGone(slot));
    DigestsStay(s, t);
    forall k | k in t.admissions
      ensures if k in after then SlotAsked(t, t.admissions[k], after[k]) else Silent(t.admissions[k])
    {
      assert AdmissionOk(s, s.admissions[k]);
      if k in requests { SlotStays(s, t, s.admissions[k], requests[k]); }
    }
  }

  /** Steps that are nobody's admission. */
  lemma {:induction false} OtherStepKeepsAsked(s: System, requests: Requests, step: Step)
    requires Inv(s) && Asked(s, requests) && Enabled(s, step)
    requires !step.Arrive? && !step.AdmissionStep? && !step.AdmissionGone?
    ensures Asked(Apply(s, step), RequestsAfter(requests, step))
  {
    StepOk(s, step);
    DigestsStay(s, Apply(s, step));
    AllSlotsStay(s, Apply(s, step), requests);
  }

  lemma {:induction false} StepKeepsAsked(s: System, requests: Requests, step: Step)
    requires Inv(s) && Asked(s, requests) && Enabled(s, step)
    ensures Asked(Apply(s, step), RequestsAfter(requests, step))
  {
    match step
    case Arrive(slot, validated) => ArriveKeepsAsked(s, requests, slot, validated);
    case AdmissionStep(slot, reply, applied) => AdmissionStepKeepsAsked(s, requests, slot, reply, applied);
    case AdmissionGone(slot) => GoneKeepsAsked(s, requests, slot);
    case _ => OtherStepKeepsAsked(s, requests, step);
  }

  /** In every reachable state a request works on a record that answers it, and a retry marker
      names a register with that digest. */
  lemma {:induction false} ReachableAsked(r: Run, i: nat)
    requires IsRun(r) && i < |r.states|
    ensures Asked(r.states[i], RequestsAt(r, i))
  {
    if i > 0 {
      ReachableAsked(r, i - 1);
      ReachableOk(r, i - 1);
      assert Follows(r, i - 1);
      StepKeepsAsked(r.states[i - 1], RequestsAt(r, i - 1), r.steps[i - 1]);
    }
  }

  // ── What an answer promises the caller ───────────────────────────────────

  /** Step k is where this request came in, and its slot was not left since. */
  predicate CameIn(r: Run, k: nat, i: nat, slot: nat, v: Task)
    requires k < i <= |r.steps|
  {
    && r.steps[k] == Arrive(slot, Some(v))
    && forall m | k < m < i :: !(r.steps[m].Arrive? && r.steps[m].slot == slot) && r.steps[m] != AdmissionGone(slot)
  }

  lemma {:induction false} RequestCameIn(r: Run, i: nat, slot: nat) returns (k: nat)
    requires i <= |r.steps| && slot in RequestsAt(r, i)
    ensures k < i && CameIn(r, k, i, slot, RequestsAt(r, i)[slot])
  {
    if r.steps[i - 1].Arrive? && r.steps[i - 1].slot == slot {
      k := i - 1;
    } else {
      k := RequestCameIn(r, i - 1, slot);
    }
  }

  lemma {:induction false} CameInAdmissible(r: Run, k: nat, i: nat, slot: nat, v: Task)
    requires IsRun(r) && k < i <= |r.steps| && CameIn(r, k, i, slot, v)
    ensures St.Admissible(v)
  {
    assert Follows(r, k);
  }

  lemma {:induction false} AcceptedAnswers(r: Run, i: nat, slot: nat, id: string, status: Status) returns (k: nat, v: Task)
    requires IsRun(r) && i < |r.steps| && Accepts(r, i, slot, id, status)
    ensures k <= i && CameIn(r, k, i + 1, slot, v) && St.Admissible(v)
    ensures id in r.states[i + 1].store.tasks && Answers(v, r.states[i + 1].store.tasks[id].task)
  {
    AcceptedIsKnown(r, i, slot, id, status);
    ReachableAsked(r, i + 1);
    assert !Silent(r.states[i + 1].admissions[slot]);
    v := RequestsAt(r, i + 1)[slot];
    k := RequestCameIn(r, i + 1, slot);
    CameInAdmissible(r, k, i + 1, slot, v);
  }

  /** The record is this very write: a register of the same unit, or a refer of the same pair. */
  predicate SameUnit(v: Task, t: Task) {
    && v.kind == t.kind
    && (v.kind.Register? ==> v.rpId == t.rpId && v.metadata == t.metadata && v.groupKey == t.groupKey && v.members == t.members)
    && (v.kind.Refer? ==> v.members != [] && t.members != [] && v.groupKey == t.groupKey
                          && v.members[0].publicKey == t.members[0].publicKey)
  }

  /** The record is a register of the same relying party, metadata and keys; the group key and the
      attestations are the ones of the first attempt. */
  predicate SameKeys(v: Task, t: Task) {
    && v.kind.Register? && t.kind.Register? && v.rpId == t.rpId && v.metadata == t.metadata
    && multiset(MemberKeys(v.members)) == multiset(MemberKeys(t.members))
  }

  /** Two validated records answer each other exactly when they are the same unit or pair, or both
      are registers and their digests meet; the latter means the same keys as long as no field
      has four gigabytes. */
  lemma {:induction false} AnswersExactly(v: Task, t: Task)
    requires ContentHash(v) == Some(v.contentHash) && ContentHash(t) == Some(t.contentHash)
    ensures Answers(v, t) <==> SameUnit(v, t) || (v.kind.Register? && t.kind.Register? && RetryDigest(v) == RetryDigest(t))
    ensures Answers(v, t) && Short(Parts(v)) && Short(Parts(t)) ==> SameUnit(v, t) || SameKeys(v, t)
    ensures SameUnit(v, t) ==> forall chain :: OnChain(chain, v) == OnChain(chain, t)
  {
    if Short(Parts(v)) && Short(Parts(t)) && RetryDigest(v) == RetryDigest(t) { RetryDigestBinds(v, t); }
  }

  /** An accepted request is not lost. From the answer on, the record it names answers the request
      that came in: it has that request's content hash, or both are registers with one retry
      digest. In every later state that record is still owed, with an envelope that will bring it
      back to the consumer, or it was seen to end: Failed, or Done with its write on the chain, and
      then the requested write itself is there if the content hash is the requested one. */
  lemma {:induction false} NoAcceptedWriteIsLost(r: Run, i: nat, j: nat, slot: nat, id: string, status: Status) returns (k: nat, v: Task)
    requires IsRun(r) && i < j < |r.states| && Accepts(r, i, slot, id, status)
    ensures k <= i && CameIn(r, k, i + 1, slot, v) && St.Admissible(v)
    ensures id in r.states[i + 1].store.tasks && r.states[i + 1].store.tasks[id].task.status == status
    ensures var accepted := r.states[i + 1].store.tasks[id].task;
            && Answers(v, accepted) && ContentHash(accepted) == Some(accepted.contentHash)
            && (|| (&& St.Active(r.states[j].store, id) && Enveloped(r.states[j], id)
                    && SameWrite(accepted, r.states[j].store.tasks[id].task))
                || (exists m | i < m <= j ::
                      && St.Ended(r.states[m].store, id)
                      && (r.states[m].store.tasks[id].task.status.Done? ==>
                            && OnChain(r.states[j].chain, accepted)
                            && (accepted.contentHash == v.contentHash ==> OnChain(r.states[j].chain, v)))))
  {
    k, v := AcceptedAnswers(r, i, slot, id, status);
    AcceptedRecordIsKept(r, i, j, slot, id, status);
    var accepted := r.states[i + 1].store.tasks[id].task;
    assert St.Backed(accepted, r.states[i + 1].chain) by { ReachableOk(r, i + 1); }
    AnswersExactly(v, accepted);
  }
}
