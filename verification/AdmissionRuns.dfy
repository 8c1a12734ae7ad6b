/**
 * That requests for one write meet, over whole runs: a register reaches the store only if no live
 * marker led to a task that has not failed, a request that finds such a task ends with it, and a
 * task that is marked admitted answers every repeat at once
 * (p256-registrar/src/admission.rs:313-565, p256-index-cf/src/submitter.rs:340-465).
 */
module AdmissionRuns {
  import opened Basics
  import opened Tasks
  import opened RetryDigests
  import St = Stores
  import Views = StoreViews
  import A = Admissions
  import B = Submission
  import opened Pipeline
  import opened PipelineSafety
  import opened PipelineRuns

  predicate Stands(r: Run, i: nat, slot: nat, pc: A.Pc)
    requires i < |r.states|
  {
    slot in r.states[i].admissions && r.states[i].admissions[slot] == pc
  }

  /** Step i answers what the request in `slot` asks at `pc`. */
  predicate AnswersAt(r: Run, i: nat, slot: nat, pc: A.Pc)
    requires i < |r.steps| && |r.states| == |r.steps| + 1
  {
    r.steps[i].AdmissionStep? && r.steps[i].slot == slot && Stands(r, i, slot, pc)
  }

  /** Nobody else takes the slot over. */
  predicate Keeps(step: Step, slot: nat) { !(step.Arrive? && step.slot == slot) && step != AdmissionGone(slot) }

  lemma {:induction false} SlotStep(r: Run, i: nat, slot: nat)
    requires IsRun(r) && i < |r.steps| && slot in r.states[i].admissions && Keeps(r.steps[i], slot)
    ensures slot in r.states[i + 1].admissions
    ensures r.states[i + 1].admissions[slot] ==
            if r.steps[i].AdmissionStep? && r.steps[i].slot == slot then A.Resume(r.states[i].admissions[slot], r.steps[i].reply)
            else r.states[i].admissions[slot]
  {
    assert Follows(r, i);
  }

  // ── A register that is admitted was looked up ────────────────────────────

  /** A register behind its lookups, on its way to the store. */
  predicate BehindLookups(pc: A.Pc) {
    A.Unborn(pc).Some? && A.Unborn(pc).value.kind.Register? && !pc.AskingIp? && !pc.FindingContent? && !pc.FindingDigest?
  }

  /** At step k the retry digest of this register was looked up, and led to no task or a failed one. */
  predicate NotMarkedAt(r: Run, k: nat, slot: nat, v: Task)
    requires k < |r.steps| && |r.states| == |r.steps| + 1
  {
    && AnswersAt(r, k, slot, A.FindingDigest(v)) && r.steps[k].reply.TaskFound?
    && var found := St.FindByRetryDigest(r.states[k].store, RetryDigest(v), r.states[k].now);
       found.Some? ==> found.value.status.Failed?
  }

  lemma {:induction false} WasLookedUp(r: Run, i: nat, slot: nat) returns (k: nat)
    requires IsRun(r) && i < |r.states| && slot in r.states[i].admissions && BehindLookups(r.states[i].admissions[slot])
    ensures k < i && NotMarkedAt(r, k, slot, A.Unborn(r.states[i].admissions[slot]).value)
  {
    assert i > 0;
    var step := r.steps[i - 1];
    assert Follows(r, i - 1);
    assert Keeps(step, slot);
    SlotStep(r, i - 1, slot);
    var pc := r.states[i - 1].admissions[slot];
    if step.AdmissionStep? && step.slot == slot && pc.FindingDigest? {
      k := i - 1;
    } else {
      if step.AdmissionStep? && step.slot == slot { A.Onward(pc, step.reply); }
      k := WasLookedUp(r, i - 1, slot);
    }
  }

  /** A register comes to be admitted only after its retry digest was looked up in the table, at a
      time when no live marker of it led to a live task that had not failed. */
  lemma {:induction false} AdmittedRegisterWasLookedUp(r: Run, i: nat, slot: nat, v: Task) returns (k: nat)
    requires IsRun(r) && i < |r.states| && Stands(r, i, slot, A.Admitting(v)) && v.kind.Register?
    ensures k < i && NotMarkedAt(r, k, slot, v)
  {
    k := WasLookedUp(r, i, slot);
  }

  // ── A request that finds a task ends with it ─────────────────────────────

  /** The request goes on with this task, or could not. */
  predicate EndsWith(pc: A.Pc, id: string) {
    Names(pc) == Some(id) || (pc.Settled? && pc.outcome.DependencyUnavailable?)
  }

  lemma {:induction false} GoesOnWith(s: System, pc: A.Pc, id: string, reply: A.Answer, applied: bool)
    requires St.RowsShaped(s.store, s.born) && EndsWith(pc, id) && !pc.Settled? && A.WellFormed(pc)
    requires AdmissionTruth(s, A.Request(pc), reply, applied)
    ensures EndsWith(A.Resume(pc, reply), id)
  {}

  lemma {:induction false} StaysWith(r: Run, i: nat, j: nat, slot: nat, id: string)
    requires IsRun(r) && i <= j < |r.states| && slot in r.states[i].admissions && EndsWith(r.states[i].admissions[slot], id)
    requires forall m | i <= m < j :: Keeps(r.steps[m], slot)
    ensures slot in r.states[j].admissions && EndsWith(r.states[j].admissions[slot], id)
    decreases j
  {
    if i < j {
      StaysWith(r, i, j - 1, slot, id);
      SlotStep(r, j - 1, slot);
      assert Follows(r, j - 1);
      var s, step := r.states[j - 1], r.steps[j - 1];
      assert St.RowsShaped(s.store, s.born) by { ReachableOk(r, j - 1); }
      if step.AdmissionStep? && step.slot == slot { GoesOnWith(s, s.admissions[slot], id, step.reply, step.applied); }
    }
  }

  /** What the two lookups of a request lead to: a task with its content hash, or one that its live
      retry marker names and that has not failed. */
  predicate Finds(s: System, pc: A.Pc, task: Task) {
    || (pc.FindingContent? && St.FindByContent(s.store, pc.task.contentHash, s.now) == Some(task))
    || (pc.FindingDigest? && St.FindByRetryDigest(s.store, RetryDigest(pc.task), s.now) == Some(task) && !task.status.Failed?)
  }

  /** A lookup that is answered and leads to a task: the request is over at once if that task is
      admitted or terminal, and whatever happens later it names that task or reports an outage. It
      never comes to be admitted. */
  lemma {:induction false} FoundTaskAnswers(r: Run, i: nat, j: nat, slot: nat, pc: A.Pc, task: Task)
    requires IsRun(r) && i < j < |r.states| && i < |r.steps| && AnswersAt(r, i, slot, pc) && r.steps[i].reply.TaskFound?
    requires Finds(r.states[i], pc, task) && forall m | i < m < j :: Keeps(r.steps[m], slot)
    ensures task.admitted || task.status.Done? || task.status.Failed? ==> Stands(r, i + 1, slot, A.Settled(A.Queued(task.id, task.status)))
    ensures slot in r.states[j].admissions && EndsWith(r.states[j].admissions[slot], task.id)
    ensures A.Unborn(r.states[j].admissions[slot]).None?
  {
    assert Follows(r, i);
    SlotStep(r, i, slot);
    StaysWith(r, i + 1, j, slot, task.id);
  }

  // ── The marker ───────────────────────────────────────────────────────────

  /** The step writes a marker for this digest. */
  predicate Marks(s: System, step: Step, digest: St.RetryKey) {
    && step.AdmissionStep? && step.applied && step.slot in s.admissions
    && s.admissions[step.slot].NotingDigest? && RetryDigest(s.admissions[step.slot].admitted) == digest
  }

  lemma {:induction false} MarkerStays(s: System, step: Step, digest: St.RetryKey)
    requires Enabled(s, step) && !Marks(s, step, digest) && digest in s.store.digests
    requires St.Live(s.store.digests[digest].expires, s.now)
    ensures var t := Apply(s, step).store; digest in t.digests && t.digests[digest] == s.store.digests[digest]
  {
    match step
    case AdmissionStep(slot, _, applied) => if applied { OthersLeaveTheMarker(s, s.admissions[slot], digest); }
    case ConsumerStep(_, applied) => if applied { ConsumerLeavesMarkers(s, B.Request(s.consumer.pc)); }
    case _ =>
  }

  lemma {:induction false} OthersLeaveTheMarker(s: System, pc: A.Pc, digest: St.RetryKey)
    requires !pc.Settled? && A.WellFormed(pc) && digest in s.store.digests
    requires pc.NotingDigest? ==> RetryDigest(pc.admitted) != digest
    ensures var t := AdmissionEffect(s, A.Request(pc)).store; digest in t.digests && t.digests[digest] == s.store.digests[digest]
  {}

  lemma {:induction false} ConsumerLeavesMarkers(s: System, operation: B.Operation)
    ensures ConsumerEffect(s, operation).store.digests == s.store.digests
  {}

  lemma {:induction false} TimeIsMonotone(r: Run, i: nat, j: nat)
    requires IsRun(r) && i <= j < |r.states|
    ensures r.states[i].now <= r.states[j].now
    decreases j
  {
    if i < j {
      TimeIsMonotone(r, i, j - 1);
      StepEvolves(r, j - 1);
    }
  }

  lemma {:induction false} MarkerLasts(r: Run, i: nat, j: nat, slot: nat, u: Task)
    requires IsRun(r) && i < j < |r.states| && i < |r.steps| && AnswersAt(r, i, slot, A.NotingDigest(u)) && r.steps[i].applied
    requires forall m | i < m < j :: !Marks(r.states[m], r.steps[m], RetryDigest(u))
    requires r.states[j].now < r.states[i].now + 86_400_000
    ensures RetryDigest(u) in r.states[j].store.digests
    ensures r.states[j].store.digests[RetryDigest(u)] == St.Ref(u.id, Some(r.states[i].now + 86_400_000))
    decreases j
  {
    if i + 1 < j {
      TimeIsMonotone(r, j - 1, j);
      MarkerLasts(r, i, j - 1, slot, u);
      assert Follows(r, j - 1);
      MarkerStays(r.states[j - 1], r.steps[j - 1], RetryDigest(u));
    } else {
      assert Follows(r, i);
    }
  }

  /** A register whose marker was written, and the same keys again within a day under whatever group
      key: as long as the first task is there and has not failed, the second request ends with that
      task, and nothing of its own is ever admitted. */
  lemma {:induction false} ResubmissionCoalesces(r: Run, i: nat, j: nat, k: nat, slot: nat, again: nat, u: Task, v: Task)
    requires IsRun(r) && i < j < |r.steps| && j < k < |r.states|
    requires AnswersAt(r, i, slot, A.NotingDigest(u)) && r.steps[i].applied
    requires forall m | i < m < j :: !Marks(r.states[m], r.steps[m], RetryDigest(u))
    requires AnswersAt(r, j, again, A.FindingDigest(v)) && r.steps[j].reply.TaskFound? && RetryDigest(v) == RetryDigest(u)
    requires r.states[j].now < r.states[i].now + 86_400_000
    requires St.GetTask(r.states[j].store, u.id, r.states[j].now).Some?
    requires !St.GetTask(r.states[j].store, u.id, r.states[j].now).value.status.Failed?
    requires forall m | j < m < k :: Keeps(r.steps[m], again)
    ensures again in r.states[k].admissions && EndsWith(r.states[k].admissions[again], u.id)
    ensures A.Unborn(r.states[k].admissions[again]).None?
  {
    MarkerLasts(r, i, j, slot, u);
    var task := St.GetTask(r.states[j].store, u.id, r.states[j].now).value;
    assert task.id == u.id by { ReachableOk(r, j); }
    FoundTaskAnswers(r, j, k, again, A.FindingDigest(v), task);
  }

  // ── The admitted mark ────────────────────────────────────────────────────

  predicate Marked(s: St.Store, id: string) { id in s.tasks && (s.tasks[id].task.admitted || s.tasks[id].task.status.Terminal()) }

  lemma {:induction false} AdmissionKeepsMark(s: System, operation: A.Operation, id: string)
    requires Ready(s, operation) && id in s.born && Marked(s.store, id)
    ensures Marked(AdmissionEffect(s, operation).store, id)
  {}

  lemma {:induction false} ConsumerKeepsMark(s: System, operation: B.Operation, id: string)
    requires St.RowsShaped(s.store, s.born) && Marked(s.store, id)
    ensures Marked(ConsumerEffect(s, operation).store, id)
  {}

  lemma {:induction false} StepKeepsMark(s: System, step: Step, id: string)
    requires Enabled(s, step) && AdmissionsOk(s) && St.RowsShaped(s.store, s.born) && Marked(s.store, id)
    ensures id in Apply(s, step).store.tasks ==> Marked(Apply(s, step).store, id)
  {
    match step
    case AdmissionStep(slot, _, applied) =>
      assert AdmissionOk(s, s.admissions[slot]);
      RequestIsReady(s, s.admissions[slot]);
      if applied { AdmissionKeepsMark(s, A.Request(s.admissions[slot]), id); }
    case ConsumerStep(_, applied) => if applied { ConsumerKeepsMark(s, B.Request(s.consumer.pc), id); }
    case _ =>
  }

  lemma {:induction false} MarkStays(r: Run, i: nat, j: nat, id: string)
    requires IsRun(r) && i <= j < |r.states| && Marked(r.states[i].store, id)
    ensures id in r.states[j].store.tasks ==> Marked(r.states[j].store, id)
    decreases j
  {
    assert id in r.states[i].born by { ReachableOk(r, i); }
    if i < j {
      MarkStays(r, i, j - 1, id);
      if id in r.states[j].store.tasks {
        RowsOnlyMoveForward(r, i, j - 1, id);
        StepEvolves(r, j - 1);
        assert St.RowEvolves(r.states[j - 1].store, r.states[j].store, id);
        assert Follows(r, j - 1);
        var s := r.states[j - 1];
        assert AdmissionsOk(s) && St.RowsShaped(s.store, s.born) by { ReachableOk(r, j - 1); }
        StepKeepsMark(s, r.steps[j - 1], id);
      }
    }
  }

  /** Phase two marks the task: once the mark is answered with the record, the record is marked, or
      was terminal already. */
  lemma {:induction false} AnsweredMarkIsSet(r: Run, i: nat, slot: nat, id: string)
    requires IsRun(r) && i < |r.steps| && AnswersAt(r, i, slot, A.Marking(id))
    requires r.steps[i].reply.TaskFound? && r.steps[i].reply.task.Some?
    ensures Marked(r.states[i + 1].store, id)
    ensures St.Active(r.states[i].store, id) ==> r.states[i + 1].store.tasks[id].task == r.states[i].store.tasks[id].task.(admitted := true)
  {
    assert Follows(r, i);
    var s := r.states[i];
    assert St.RowsShaped(s.store, s.born) by { ReachableOk(r, i); }
    Views.MarkIsSet(s.store, id, s.now);
  }

  /** From then on, for as long as the task is there and has not failed, every request with its
      content hash is answered with it in the step that looks the hash up, and nothing is enqueued
      again. */
  lemma {:induction false} RepeatAnswersAtOnce(r: Run, i: nat, j: nat, slot: nat, again: nat, id: string, v: Task)
    requires IsRun(r) && i < j < |r.steps| && AnswersAt(r, i, slot, A.Marking(id))
    requires r.steps[i].reply.TaskFound? && r.steps[i].reply.task.Some?
    requires AnswersAt(r, j, again, A.FindingContent(v)) && r.steps[j].reply.TaskFound?
    requires var s := r.states[j];
             && id in s.store.tasks && St.Live(s.store.tasks[id].expires, s.now) && !s.store.tasks[id].task.status.Failed?
             && s.store.tasks[id].task.contentHash == v.contentHash
    ensures Stands(r, j + 1, again, A.Settled(A.Queued(id, r.states[j].store.tasks[id].task.status)))
    ensures r.states[j + 1].queue == r.states[j].queue
  {
    AnsweredMarkIsSet(r, i, slot, id);
    MarkStays(r, i + 1, j, id);
    var s := r.states[j];
    var task := s.store.tasks[id].task;
    assert St.FindByContent(s.store, v.contentHash, s.now) == Some(task) && task.id == id by {
      ReachableOk(r, j);
      St.ContentIndexIsAFullScan(s.store, s.now, s.chain, s.born, v.contentHash, task);
    }
    FoundTaskAnswers(r, j, j + 1, again, A.FindingContent(v), task);
    assert Follows(r, j);
  }
}
