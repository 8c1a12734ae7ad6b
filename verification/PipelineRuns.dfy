/**
 * What the pipeline promises over whole runs: an accepted record is never lost, a terminal
 * record never changes, Done is backed by the chain, an envelope leaves the queue only when its
 * task is over, and no task can make the consumer retry for ever.
 */
module PipelineRuns {
  import opened Basics
  import opened Tasks
  import St = Stores
  import A = Admissions
  import B = Submission
  import opened Pipeline
  import opened PipelineSafety

  /** states[i] --steps[i]--> states[i + 1], from an empty store. */
  datatype Run = Run(states: seq<System>, steps: seq<Step>)

  ghost predicate IsRun(r: Run) {
    && |r.states| == |r.steps| + 1
    && (exists now, chain :: r.states[0] == Init(now, chain))
    && (forall i | 0 <= i < |r.steps| :: Follows(r, i))
  }

  predicate Follows(r: Run, i: nat)
    requires i < |r.steps| && |r.states| == |r.steps| + 1
  {
    Enabled(r.states[i], r.steps[i]) && r.states[i + 1] == Apply(r.states[i], r.steps[i])
  }

  /** The invariant holds in every reachable state. */
  lemma {:induction false} ReachableOk(r: Run, i: nat)
    requires IsRun(r) && i < |r.states|
    ensures Inv(r.states[i])
  {
    if i == 0 {
      var now, chain :| r.states[0] == Init(now, chain);
      InitOk(now, chain);
    } else {
      ReachableOk(r, i - 1);
      assert Follows(r, i - 1);
      StepOk(r.states[i - 1], r.steps[i - 1]);
    }
  }

  lemma {:induction false} StepEvolves(r: Run, i: nat)
    requires IsRun(r) && i < |r.steps|
    ensures Evolves(r.states[i], r.states[i + 1])
  {
    ReachableOk(r, i);
    assert Follows(r, i);
    StepOk(r.states[i], r.steps[i]);
  }

  // ── Terminal is final, Done is backed ────────────────────────────────────

  /** What an admitted task's row may have become after any number of steps. */
  predicate RowSince(a: St.Store, b: St.Store, id: string) {
    && (id !in a.tasks ==> id !in b.tasks)
    && (id in a.tasks && id in b.tasks ==>
          && SameWrite(a.tasks[id].task, b.tasks[id].task)
          && a.tasks[id].task.retries <= b.tasks[id].task.retries
          && (a.tasks[id].task.status.Terminal() ==> b.tasks[id] == a.tasks[id]))
  }

  lemma {:induction false} RowSinceStep(a: St.Store, m: St.Store, b: St.Store, id: string)
    requires RowSince(a, m, id) && St.RowEvolves(m, b, id)
    ensures RowSince(a, b, id)
  {}

  /** Once a task is in the store its row keeps the write it was admitted with, never regains a
      retry, never changes again once it is terminal, and never comes back once it is gone. */
  lemma {:induction false} RowsOnlyMoveForward(r: Run, i: nat, j: nat, id: string)
    requires IsRun(r) && i <= j < |r.states| && id in r.states[i].born
    ensures id in r.states[j].born && RowSince(r.states[i].store, r.states[j].store, id)
    ensures Grows(r.states[i].chain, r.states[j].chain)
    ensures Covered(r.states[i], id) ==> Covered(r.states[j], id)
    decreases j
  {
    if i < j {
      RowsOnlyMoveForward(r, i, j - 1, id);
      StepEvolves(r, j - 1);
      RowSinceStep(r.states[i].store, r.states[j - 1].store, r.states[j].store, id);
    }
  }

  /** A task reported Done at any time has its write on the chain, then and for ever. */
  lemma {:induction false} DoneIsOnChain(r: Run, i: nat, j: nat, id: string)
    requires IsRun(r) && i <= j < |r.states|
    requires id in r.states[i].store.tasks && r.states[i].store.tasks[id].task.status.Done?
    ensures OnChain(r.states[j].chain, r.states[i].store.tasks[id].task)
  {
    ReachableOk(r, i);
    assert St.Backed(r.states[i].store.tasks[id].task, r.states[i].chain);
    RowsOnlyMoveForward(r, i, j, id);
    OnChainStays(r.states[i].chain, r.states[j].chain, r.states[i].store.tasks[id].task);
  }

  // ── No accepted record is lost ───────────────────────────────────────────

  /** Step i answers the request in `slot` with "queued". */
  predicate Accepts(r: Run, i: nat, slot: nat, id: string, status: Status)
    requires i < |r.steps| && |r.states| == |r.steps| + 1
  {
    && r.steps[i].AdmissionStep? && r.steps[i].slot == slot
    && slot in r.states[i + 1].admissions && r.states[i + 1].admissions[slot] == A.Settled(A.Queued(id, status))
  }

  predicate Lookup(operation: A.Operation) {
    operation.FindTaskByContent? || operation.FindTaskByRetryDigest? || operation.LoadTask?
  }

  lemma {:induction false} LookupIsTrue(s: System, operation: A.Operation, reply: A.Answer, applied: bool)
    requires St.RowsShaped(s.store, s.born) && Lookup(operation) && AdmissionTruth(s, operation, reply, applied)
    requires reply.TaskFound? && reply.task.Some?
    ensures reply.task.value.id in s.store.tasks && s.store.tasks[reply.task.value.id].task == reply.task.value
  {}

  lemma {:induction false} MarkIsTrue(s: System, id: string, reply: A.Answer, applied: bool)
    requires St.RowsShaped(s.store, s.born) && AdmissionTruth(s, A.MarkAdmitted(id), reply, applied)
    requires reply.TaskFound? && reply.task.Some?
    ensures var e := AdmissionEffect(s, A.MarkAdmitted(id)).store;
            applied && reply.task.value.id in e.tasks && e.tasks[reply.task.value.id].task == reply.task.value
  {}

  lemma {:induction false} WhoSaysQueued(pc: A.Pc, reply: A.Answer)
    requires A.WellFormed(pc) && !pc.Settled? && A.Resume(pc, reply).Settled? && A.Resume(pc, reply).outcome.Queued?
    ensures reply.TaskFound? && reply.task.Some? && A.Resume(pc, reply).outcome == A.Queued(reply.task.value.id, reply.task.value.status)
    ensures Lookup(A.Request(pc)) || A.Request(pc).MarkAdmitted?
  {}

  /** An answer "queued" is true when it is given: the task is in the store with that status. */
  lemma {:induction false} QueuedIsTrue(s: System, slot: nat, reply: A.Answer, applied: bool, id: string, status: Status)
    requires St.RowsShaped(s.store, s.born) && Enabled(s, AdmissionStep(slot, reply, applied))
    requires A.Resume(s.admissions[slot], reply) == A.Settled(A.Queued(id, status))
    ensures var e := if applied then AdmissionEffect(s, A.Request(s.admissions[slot])) else s;
            id in e.store.tasks && e.store.tasks[id].task.status == status
  {
    var operation := A.Request(s.admissions[slot]);
    WhoSaysQueued(s.admissions[slot], reply);
    if operation.MarkAdmitted? {
      MarkIsTrue(s, operation.id, reply, applied);
    } else {
      LookupIsTrue(s, operation, reply, applied);
    }
  }

  lemma {:induction false} AcceptedIsCovered(s: System, slot: nat, id: string, status: Status)
    requires AdmissionsOk(s) && slot in s.admissions && s.admissions[slot] == A.Settled(A.Queued(id, status))
    ensures id in s.born && Covered(s, id)
  {
    assert AdmissionOk(s, s.admissions[slot]);
  }

  lemma {:induction false} AcceptedIsStored(s: System, slot: nat, reply: A.Answer, applied: bool, id: string, status: Status)
    requires St.RowsShaped(s.store, s.born) && Enabled(s, AdmissionStep(slot, reply, applied))
    requires AfterAdmission(s, slot, reply, applied).admissions[slot] == A.Settled(A.Queued(id, status))
    ensures var t := AfterAdmission(s, slot, reply, applied).store; id in t.tasks && t.tasks[id].task.status == status
  {
    QueuedIsTrue(s, slot, reply, applied, id, status);
  }

  lemma {:induction false} AcceptedIsKnown(r: Run, i: nat, slot: nat, id: string, status: Status)
    requires IsRun(r) && i < |r.steps| && Accepts(r, i, slot, id, status)
    ensures var s := r.states[i + 1];
            id in s.store.tasks && s.store.tasks[id].task.status == status && id in s.born && Covered(s, id)
  {
    assert Follows(r, i);
    assert St.RowsShaped(r.states[i].store, r.states[i].born) by { ReachableOk(r, i); }
    assert AdmissionsOk(r.states[i + 1]) by { ReachableOk(r, i + 1); }
    AcceptedIsStored(r.states[i], slot, r.steps[i].reply, r.steps[i].applied, id, status);
    AcceptedIsCovered(r.states[i + 1], slot, id, status);
  }

  /** After the answer the record it names is either still owed, with an envelope that will bring it
      back to the consumer and with the write it had then, or it was seen to end: Failed, or Done
      with that write on the chain. Admissions and the consumer may have died anywhere in
      between, and any operation may have failed. */
  lemma {:induction false} AcceptedRecordIsKept(r: Run, i: nat, j: nat, slot: nat, id: string, status: Status)
    requires IsRun(r) && i < j < |r.states| && Accepts(r, i, slot, id, status)
    ensures id in r.states[i + 1].store.tasks && r.states[i + 1].store.tasks[id].task.status == status
    ensures var accepted := r.states[i + 1].store.tasks[id].task;
            || (&& St.Active(r.states[j].store, id) && Enveloped(r.states[j], id)
                && SameWrite(accepted, r.states[j].store.tasks[id].task))
            || (exists m | i < m <= j ::
                  && St.Ended(r.states[m].store, id)
                  && (r.states[m].store.tasks[id].task.status.Done? ==> OnChain(r.states[j].chain, accepted)))
  {
    AcceptedIsKnown(r, i, slot, id, status);
    RowsOnlyMoveForward(r, i + 1, j, id);
    if St.Over(r.states[j].store, id) {
      var m := EndIsSeen(r, i + 1, j, id);
      DoneOrFailed(r, i + 1, m, j, id);
    }
  }

  /** A row does not vanish while it is active: it is terminal first. */
  lemma {:induction false} EndIsSeen(r: Run, i: nat, j: nat, id: string) returns (m: nat)
    requires IsRun(r) && i <= j < |r.states| && id in r.states[i].store.tasks
    requires St.Over(r.states[j].store, id) && id in r.states[i].born
    ensures i <= m <= j && St.Ended(r.states[m].store, id)
    decreases j - i
  {
    if St.Ended(r.states[i].store, id) {
      m := i;
    } else {
      StepEvolves(r, i);
      assert St.RowEvolves(r.states[i].store, r.states[i + 1].store, id);
      m := EndIsSeen(r, i + 1, j, id);
    }
  }

  lemma {:induction false} DoneOrFailed(r: Run, i: nat, m: nat, j: nat, id: string)
    requires IsRun(r) && i <= m <= j < |r.states| && id in r.states[i].store.tasks && id in r.states[i].born
    requires St.Ended(r.states[m].store, id)
    ensures r.states[m].store.tasks[id].task.status.Done? ==>
              OnChain(r.states[j].chain, r.states[i].store.tasks[id].task)
  {
    if r.states[m].store.tasks[id].task.status.Done? {
      DoneIsOnChain(r, m, j, id);
      RowsOnlyMoveForward(r, i, m, id);
      St.SameWriteSameChain(r.states[i].store.tasks[id].task, r.states[m].store.tasks[id].task, r.states[j].chain);
    }
  }

  // ── The queue ────────────────────────────────────────────────────────────

  lemma {:induction false} OthersKeepTheQueue(s: System, step: Step, e: Envelope)
    requires Enabled(s, step) && !step.DeleteNext? && e in s.queue
    ensures e in Apply(s, step).queue
  {}

  lemma {:induction false} DeleteTakesTheOver(s: System, e: Envelope)
    requires ConsumerOk(s) && s.consumer.Deleting? && s.consumer.todo != [] && e in s.queue
    requires e !in Remove(s.queue, s.consumer.todo[0].number)
    ensures St.Over(s.store, e.taskId)
  {
    assert Held(s, s.consumer.todo[0]);
    if e.number != s.consumer.todo[0].number { RemoveKeeps(s.queue, s.consumer.todo[0].number, e); }
  }

  /** An envelope leaves the queue only when its task is over. */
  lemma {:induction false} EnvelopeLeavesOnlyWhenOver(r: Run, i: nat, e: Envelope)
    requires IsRun(r) && i < |r.steps|
    requires e in r.states[i].queue && e !in r.states[i + 1].queue
    ensures St.Over(r.states[i].store, e.taskId) && r.states[i + 1].store == r.states[i].store
  {
    ReachableOk(r, i);
    assert Follows(r, i);
    if r.steps[i].DeleteNext? {
      DeleteTakesTheOver(r.states[i], e);
    } else {
      OthersKeepTheQueue(r.states[i], r.steps[i], e);
    }
  }

  /** A batch the consumer advances past holds no task that is still owed anything, duplicates
      and unknown ids included. */
  lemma {:induction false} AdvanceMeansOver(r: Run, i: nat, k: nat)
    requires IsRun(r) && i < |r.states|
    requires r.states[i].consumer.Working? && r.states[i].consumer.pc == B.Settled(B.Advance)
    requires k < |r.states[i].consumer.batch|
    ensures St.Over(r.states[i].store, r.states[i].consumer.batch[k].taskId)
  {
    ReachableOk(r, i);
  }

  // ── One task per write, one owner per placeholder ────────────────────────

  /** At most one live task that has not failed carries a given content hash. */
  lemma {:induction false} OneLiveTaskPerContent(r: Run, i: nat, a: string, b: string)
    requires IsRun(r) && i < |r.states|
    requires var s := r.states[i]; var t := s.store.tasks;
             && a in t && b in t && St.Live(t[a].expires, s.now) && St.Live(t[b].expires, s.now)
             && !t[a].task.status.Failed? && !t[b].task.status.Failed? && t[a].task.contentHash == t[b].task.contentHash
    ensures a == b
  {
    ReachableOk(r, i);
  }

  lemma {:induction false} AdmissionKeepsOwner(s: System, operation: A.Operation, key: Hex, id: string)
    requires St.Owns(s.store, key, id)
    ensures St.Owns(AdmissionEffect(s, operation).store, key, id)
  {
    if operation.Admit? { St.AdmitKeepsOwner(s.store, operation.task, s.now, key, id); }
  }

  lemma {:induction false} ConsumerKeepsOwner(s: System, operation: B.Operation, key: Hex, id: string)
    requires St.Owns(s.store, key, id) && St.RowsShaped(s.store, s.born)
    ensures var e := ConsumerEffect(s, operation); St.Owns(e.store, key, id) || St.Ended(e.store, id)
  {
    match operation
    case MarkDone(target, txHash, onChainId) =>
      St.OutcomeKeepsOwner(s.store, target, txHash, onChainId, CannotEncode, s.now, key, id);
    case MarkFailed(target, note) => St.OutcomeKeepsOwner(s.store, target, None, None, note, s.now, key, id);
    case RecordTransientFailure(target, note) => St.OutcomeKeepsOwner(s.store, target, None, None, note, s.now, key, id);
    case _ =>
  }

  lemma {:induction false} AdmissionStepKeepsOwner(s: System, slot: nat, reply: A.Answer, applied: bool, key: Hex, id: string)
    requires Enabled(s, AdmissionStep(slot, reply, applied)) && St.Owns(s.store, key, id)
    ensures St.Owns(AfterAdmission(s, slot, reply, applied).store, key, id)
  {
    AdmissionKeepsOwner(s, A.Request(s.admissions[slot]), key, id);
  }

  lemma {:induction false} ConsumerStepKeepsOwner(s: System, answer: B.Answer, applied: bool, key: Hex, id: string)
    requires Enabled(s, ConsumerStep(answer, applied)) && St.RowsShaped(s.store, s.born) && St.Owns(s.store, key, id)
    ensures var t := AfterConsumer(s, answer, applied).store; St.Owns(t, key, id) || St.Ended(t, id)
  {
    ConsumerKeepsOwner(s, B.Request(s.consumer.pc), key, id);
  }

  lemma {:induction false} StepKeepsOwner(s: System, step: Step, key: Hex, id: string)
    requires Enabled(s, step) && St.RowsShaped(s.store, s.born) && St.KeysSound(s.store)
    requires St.Owns(s.store, key, id) && St.Active(s.store, id)
    ensures St.Owns(Apply(s, step).store, key, id) || St.Ended(Apply(s, step).store, id)
  {
    match step
    case Purge => St.PurgeKeepsOwner(s.store, s.now, key, id);
    case AdmissionStep(slot, reply, applied) => AdmissionStepKeepsOwner(s, slot, reply, applied, key, id);
    case ConsumerStep(answer, applied) => ConsumerStepKeepsOwner(s, answer, applied, key, id);
    case _ =>
  }

  /** The placeholder of an active task stays that task's, whatever anybody does, until the task
      itself is seen to end. */
  lemma {:induction false} PlaceholderStays(r: Run, i: nat, j: nat, key: Hex, id: string)
    requires IsRun(r) && i <= j < |r.states|
    requires St.Owns(r.states[i].store, key, id) && St.Active(r.states[i].store, id)
    ensures || (St.Owns(r.states[j].store, key, id) && St.Active(r.states[j].store, id))
            || exists m | i < m <= j :: St.Ended(r.states[m].store, id)
    decreases j
  {
    if i < j {
      PlaceholderStays(r, i, j - 1, key, id);
      if St.Active(r.states[j - 1].store, id) && St.Owns(r.states[j - 1].store, key, id) {
        ReachableOk(r, j - 1);
        assert Follows(r, j - 1);
        StepKeepsOwner(r.states[j - 1], r.steps[j - 1], key, id);
        StepEvolves(r, j - 1);
        assert St.RowEvolves(r.states[j - 1].store, r.states[j].store, id);
      }
    }
  }

  lemma {:induction false} ConsumerMakesNoOwner(s: System, operation: B.Operation, key: Hex, id: string)
    requires St.Owns(ConsumerEffect(s, operation).store, key, id)
    ensures St.Owns(s.store, key, id)
  {}

  lemma {:induction false} AdmissionMakesOnlyItsOwner(s: System, slot: nat, reply: A.Answer, applied: bool, key: Hex, id: string)
    requires Enabled(s, AdmissionStep(slot, reply, applied)) && AdmissionOk(s, s.admissions[slot]) && id in s.born
    requires St.Owns(AfterAdmission(s, slot, reply, applied).store, key, id)
    ensures St.Owns(s.store, key, id)
  {
    RequestIsReady(s, s.admissions[slot]);
  }

  /** A step gives a placeholder only to a task that enters the store with it. */
  lemma {:induction false} StepMakesNoLateOwner(s: System, step: Step, key: Hex, id: string)
    requires Enabled(s, step) && AdmissionsOk(s) && id in s.born && St.Owns(Apply(s, step).store, key, id)
    ensures St.Owns(s.store, key, id)
  {
    match step
    case AdmissionStep(slot, reply, applied) => AdmissionMakesOnlyItsOwner(s, slot, reply, applied, key, id);
    case ConsumerStep(_, applied) => if applied { ConsumerMakesNoOwner(s, B.Request(s.consumer.pc), key, id); }
    case _ =>
  }

  lemma {:induction false} FoundIsTheOwner(s: System, key: Hex)
    requires St.RowsShaped(s.store, s.born) && St.FindByKey(s.store, key, s.now).Some?
    ensures St.Owns(s.store, key, St.FindByKey(s.store, key, s.now).value.id)
  {}

  lemma {:induction false} NoLateOwner(r: Run, i: nat, key: Hex, id: string)
    requires IsRun(r) && i < |r.steps| && id in r.states[i].born && St.Owns(r.states[i + 1].store, key, id)
    ensures St.Owns(r.states[i].store, key, id)
  {
    assert AdmissionsOk(r.states[i]) by { ReachableOk(r, i); }
    assert Follows(r, i);
    StepMakesNoLateOwner(r.states[i], r.steps[i], key, id);
  }

  /** A task that shares a key with an earlier one and was refused its placeholder never gets it,
      whatever becomes of the earlier one: no later lookup of the key answers with this task,
      although it may still be pending when the earlier one fails. */
  lemma {:induction false} RefusedPlaceholderIsNeverRegained(r: Run, i: nat, j: nat, key: Hex, id: string)
    requires IsRun(r) && i <= j < |r.states|
    requires id in r.states[i].born && !St.Owns(r.states[i].store, key, id)
    ensures id in r.states[j].born && !St.Owns(r.states[j].store, key, id)
    ensures var found := St.FindByKey(r.states[j].store, key, r.states[j].now); found.Some? ==> found.value.id != id
    decreases j
  {
    if i < j {
      RefusedPlaceholderIsNeverRegained(r, i, j - 1, key, id);
      assert id in r.states[j].born by { StepEvolves(r, j - 1); }
      if St.Owns(r.states[j].store, key, id) { NoLateOwner(r, j - 1, key, id); }
    }
    assert St.RowsShaped(r.states[j].store, r.states[j].born) by { ReachableOk(r, j); }
    if St.FindByKey(r.states[j].store, key, r.states[j].now).Some? { FoundIsTheOwner(r.states[j], key); }
  }

  // ── Nobody can make the consumer retry for ever ──────────────────────────

  /** The shell could not do what it was asked. */
  predicate Outage(operation: B.Operation, answer: B.Answer) {
    match operation
    case LoadTasks(_) => !answer.TasksLoaded?
    case CheckContentRegistered(_) => !answer.ContentChecked? && !answer.ChainReadFailed?
    case CheckReferenced(_, _) => !answer.ContentChecked? && !answer.ChainReadFailed?
    case SubmitRegister(_) => !answer.Tx? || answer.outcome.NoncePoolUnavailable?
    case _ => !answer.Persisted?
  }

  /** Step i persists an operation about task `id` for the consumer. */
  predicate Charges(r: Run, i: nat, id: string)
    requires i < |r.steps| && |r.states| == |r.steps| + 1
  {
    && r.steps[i].ConsumerStep? && r.steps[i].applied
    && r.states[i].consumer.Working? && r.states[i].consumer.pc.Persisting? && r.states[i].consumer.pc.task.id == id
  }

  /** A batch that is retried although the shell answered everything has charged one of its tasks. */
  lemma {:induction false} RetryWithoutOutageIsCharged(r: Run, i: nat)
    requires IsRun(r) && i < |r.steps| && r.steps[i].ConsumerStep? && Follows(r, i)
    requires r.states[i + 1].consumer.pc.Settled? && r.states[i + 1].consumer.pc.verdict.Retry?
    requires !Outage(B.Request(r.states[i].consumer.pc), r.steps[i].answer)
    ensures r.states[i].consumer.pc.Persisting? && Charges(r, i, r.states[i].consumer.pc.task.id)
    ensures r.states[i].consumer.pc.task.id in Ids(r.states[i].consumer.batch)
  {
    ReachableOk(r, i);
    RetryIsCharged(r.states[i], r.steps[i].answer, r.steps[i].applied);
  }

  lemma {:induction false} RetryIsCharged(s: System, answer: B.Answer, applied: bool)
    requires ConsumerOk(s) && Enabled(s, ConsumerStep(answer, applied))
    requires B.Resume(s.consumer.pc, answer).Settled? && B.Resume(s.consumer.pc, answer).verdict.Retry?
    requires !Outage(B.Request(s.consumer.pc), answer)
    ensures s.consumer.pc.Persisting? && applied && s.consumer.pc.task.id in Ids(s.consumer.batch)
  {
    var pc := s.consumer.pc;
    if pc.Loading? { BeginPending(B.Canonical(answer.tasks, {})); }
    if pc.Persisting? { assert B.Pending(pc)[0] == pc.task; }
  }

  lemma {:induction false} BudgetOnlyShrinks(a: St.Store, b: St.Store, id: string)
    requires St.RowEvolves(a, b, id)
    ensures St.Budget(b, id) <= St.Budget(a, id) <= St.RETRY_BUDGET
  {}

  lemma {:induction false} PersistSpends(s: System, answer: B.Answer)
    requires St.StoreOk(s.store, s.now, s.chain, s.born) && ConsumerOk(s)
    requires s.consumer.Working? && s.consumer.pc.Persisting?
    ensures var id := s.consumer.pc.task.id;
            id in s.born && St.Budget(AfterConsumer(s, answer, true).store, id) < St.Budget(s.store, id)
  {
    var pc := s.consumer.pc;
    assert B.Pending(pc)[0] == pc.task && Owed(s, pc.task);
    ConsumerStoreEffect(s, pc);
  }

  lemma {:induction false} ChargeSpends(r: Run, i: nat, id: string)
    requires IsRun(r) && i < |r.steps| && Charges(r, i, id)
    ensures id in r.states[i].born && St.Budget(r.states[i + 1].store, id) < St.Budget(r.states[i].store, id)
  {
    ReachableOk(r, i);
    assert Follows(r, i);
    PersistSpends(r.states[i], r.steps[i].answer);
  }

  /** How many of the first n steps charge one of these tasks. */
  function Charged(r: Run, n: nat, ids: set<string>): nat
    requires |r.states| == |r.steps| + 1 && n <= |r.steps|
  {
    if n == 0 then 0
    else Charged(r, n - 1, ids) +
         (if r.states[n - 1].consumer.Working? && r.states[n - 1].consumer.pc.Persisting?
             && r.states[n - 1].consumer.pc.task.id in ids && Charges(r, n - 1, r.states[n - 1].consumer.pc.task.id)
          then 1 else 0)
  }

  /** In any run the consumer persists at most RETRY_BUDGET operations about one task. */
  lemma {:induction false} OneTaskIsChargedAtMostItsBudget(r: Run, n: nat, id: string)
    requires IsRun(r) && n <= |r.steps|
    ensures id !in r.states[n].born ==> Charged(r, n, {id}) == 0
    ensures Charged(r, n, {id}) + St.Budget(r.states[n].store, id) <= St.RETRY_BUDGET
  {
    if n > 0 {
      OneTaskIsChargedAtMostItsBudget(r, n - 1, id);
      StepEvolves(r, n - 1);
      if Charges(r, n - 1, id) { ChargeSpends(r, n - 1, id); }
      if id in r.states[n - 1].born { BudgetOnlyShrinks(r.states[n - 1].store, r.states[n].store, id); }
    }
  }

  lemma {:induction false} ChargesAddUp(r: Run, n: nat, id: string, rest: set<string>)
    requires IsRun(r) && n <= |r.steps|
    ensures Charged(r, n, {id} + rest) <= Charged(r, n, {id}) + Charged(r, n, rest)
  {
    if n > 0 { ChargesAddUp(r, n - 1, id, rest); }
  }

  /** However long the run, the batches made of these tasks are retried without an outage at most
      RETRY_BUDGET times per task: a poison write cannot hold up the queue for ever. */
  lemma {:induction false} NoBatchRetriesForever(r: Run, n: nat, ids: set<string>)
    requires IsRun(r) && n <= |r.steps|
    ensures Charged(r, n, ids) <= St.RETRY_BUDGET * |ids|
    decreases |ids|
  {
    if ids == {} {
      NobodyIsCharged(r, n);
    } else {
      var id :| id in ids;
      var rest := ids - {id};
      NoBatchRetriesForever(r, n, rest);
      OneTaskIsChargedAtMostItsBudget(r, n, id);
      assert ids == {id} + rest;
      ChargesAddUp(r, n, id, rest);
    }
  }

  lemma {:induction false} NobodyIsCharged(r: Run, n: nat)
    requires IsRun(r) && n <= |r.steps|
    ensures Charged(r, n, {}) == 0
  {
    if n > 0 { NobodyIsCharged(r, n - 1); }
  }

  /** Step i ends a pass over a batch of these tasks with Retry although the shell answered
      everything it was asked. */
  predicate RetriesInVain(r: Run, i: nat, ids: set<string>)
    requires i < |r.steps| && |r.states| == |r.steps| + 1
  {
    && r.steps[i].ConsumerStep? && r.states[i].consumer.Working? && !r.states[i].consumer.pc.Settled?
    && B.WellFormed(r.states[i].consumer.pc) && !Outage(B.Request(r.states[i].consumer.pc), r.steps[i].answer)
    && r.states[i + 1].consumer.Working? && r.states[i + 1].consumer.pc.Settled?
    && r.states[i + 1].consumer.pc.verdict.Retry?
    && (forall id | id in Ids(r.states[i].consumer.batch) :: id in ids)
  }

  function VainRetries(r: Run, n: nat, ids: set<string>): nat
    requires |r.states| == |r.steps| + 1 && n <= |r.steps|
  {
    if n == 0 then 0 else VainRetries(r, n - 1, ids) + (if RetriesInVain(r, n - 1, ids) then 1 else 0)
  }

  lemma {:induction false} VainRetriesAreCharged(r: Run, n: nat, ids: set<string>)
    requires IsRun(r) && n <= |r.steps|
    ensures VainRetries(r, n, ids) <= Charged(r, n, ids)
  {
    if n > 0 {
      VainRetriesAreCharged(r, n - 1, ids);
      if RetriesInVain(r, n - 1, ids) {
        assert Follows(r, n - 1);
        RetryWithoutOutageIsCharged(r, n - 1);
      }
    }
  }

  /** In any run the passes over batches of n tasks that end in Retry without an outage number at
      most ten times n; after that, only an outage can keep them from advancing. */
  lemma {:induction false} BatchesOfNTasksRetryTenTimesN(r: Run, ids: set<string>)
    requires IsRun(r)
    ensures VainRetries(r, |r.steps|, ids) <= 10 * |ids|
  {
    VainRetriesAreCharged(r, |r.steps|, ids);
    NoBatchRetriesForever(r, |r.steps|, ids);
  }
}
