/** Every step of the pipeline keeps the invariant and guarantees Evolves to everybody else. */
module PipelineSafety {
  import opened Basics
  import opened Tasks
  import St = Stores
  import A = Admissions
  import B = Submission
  import opened Pipeline

  // ── What survives other people's steps ───────────────────────────────────

  lemma {:induction false} OnChainStays(before: Chain, after: Chain, task: Task)
    requires Grows(before, after) && OnChain(before, task)
    ensures OnChain(after, task)
  {}

  lemma {:induction false} AdmissionStable(s: System, t: System, pc: A.Pc)
    requires AdmissionOk(s, pc) && Evolves(s, t)
    requires A.Unborn(pc).Some? ==> A.Unborn(pc).value.id !in t.born
    ensures AdmissionOk(t, pc)
  {}

  lemma {:induction false} AdmissionsStable(s: System, t: System)
    requires AdmissionsOk(s) && Evolves(s, t) && t.admissions == s.admissions && t.born == s.born
    ensures AdmissionsOk(t)
  {
    forall k | k in t.admissions ensures AdmissionOk(t, t.admissions[k]) {
      AdmissionStable(s, t, s.admissions[k]);
    }
  }

  lemma {:induction false} HeldStable(s: System, t: System, e: Envelope)
    requires Held(s, e) && Evolves(s, t)
    ensures Held(t, e)
  {
    forall i | 0 <= i < |t.queue| && t.queue[i].number == e.number ensures t.queue[i] == e {
      assert t.queue[i] in s.queue;
    }
  }

  lemma {:induction false} OwedStable(s: System, t: System, task: Task)
    requires Owed(s, task) && task.id in s.born && Evolves(s, t) && Rests(s, t)
    ensures Owed(t, task)
  {}

  lemma {:induction false} ConsumerStable(s: System, t: System)
    requires ConsumerOk(s) && St.RowsShaped(s.store, s.born)
    requires Evolves(s, t) && Rests(s, t) && t.consumer == s.consumer
    ensures ConsumerOk(t)
  {
    match s.consumer
    case Idle =>
    case Deleting(todo) =>
      forall i | 0 <= i < |todo| ensures Held(t, todo[i]) && St.Over(t.store, todo[i].taskId) {
        HeldStable(s, t, todo[i]);
      }
    case Working(batch, pc) =>
      forall i | 0 <= i < |batch| ensures Held(t, batch[i]) { HeldStable(s, t, batch[i]); }
      forall i | 0 <= i < |B.Pending(pc)| ensures Owed(t, B.Pending(pc)[i]) { OwedStable(s, t, B.Pending(pc)[i]); }
      if pc.Persisting? && pc.operation.MarkDone? { OnChainStays(s.chain, t.chain, pc.task); }
  }

  /** The store does not change, the queue only at its end. */
  lemma {:induction false} QuietEvolves(s: System, t: System)
    requires t.store == s.store && t.queue == s.queue && t.nextNumber == s.nextNumber
    requires s.now <= t.now && Grows(s.chain, t.chain) && s.born <= t.born && s.issued <= t.issued
    ensures Evolves(s, t) && Rests(s, t)
  {}

  /** Only the tables change: every row evolves, and nobody is newly marked admitted unless covered. */
  lemma {:induction false} StoreOnlyStep(s: System, e: System)
    requires QueueOk(s) && e == s.(store := e.store)
    requires forall id :: id in s.born ==> St.RowEvolves(s.store, e.store, id)
    requires forall id | id in e.store.tasks ::
               e.store.tasks[id].task.admitted && !St.Over(e.store, id) ==> id in s.born && Covered(s, id)
    ensures Evolves(s, e) && QueueOk(e)
  {
    forall id | Covered(s, id) && id in s.born ensures Covered(e, id) {
      assert Enveloped(s, id) ==> Enveloped(e, id);
    }
  }

  // ── Steps of the environment ─────────────────────────────────────────────

  lemma {:induction false} TimeStep(s: System, t: System)
    requires Inv(s) && s.now <= t.now && Grows(s.chain, t.chain) && t == s.(now := t.now, chain := t.chain)
    ensures Inv(t) && Evolves(s, t)
  {
    St.TimePasses(s.store, s.now, t.now, s.chain, t.chain, s.born);
    QuietEvolves(s, t);
    AdmissionsStable(s, t);
    ConsumerStable(s, t);
  }

  lemma {:induction false} PurgeStep(s: System)
    requires Inv(s)
    ensures Inv(Apply(s, Purge)) && Evolves(s, Apply(s, Purge))
  {
    var t := Apply(s, Purge);
    St.PurgeKeepsOk(s.store, s.now, s.chain, s.born);
    forall id ensures St.RowEvolves(s.store, t.store, id) && St.RowRests(s.store, t.store, id) {
      St.PurgeEvolves(s.store, s.now, s.born, id);
    }
    assert Evolves(s, t) && Rests(s, t);
    AdmissionsStable(s, t);
    ConsumerStable(s, t);
  }

  lemma {:induction false} ArriveStep(s: System, slot: nat, validated: Option<Task>)
    requires Inv(s) && Enabled(s, Arrive(slot, validated))
    ensures Inv(Apply(s, Arrive(slot, validated))) && Evolves(s, Apply(s, Arrive(slot, validated)))
  {
    var t := Apply(s, Arrive(slot, validated));
    QuietEvolves(s, t);
    ConsumerStable(s, t);
    forall k | k in t.admissions ensures AdmissionOk(t, t.admissions[k]) {
      if k != slot { AdmissionStable(s, t, s.admissions[k]); }
    }
    forall k, m | k in t.admissions && m in t.admissions && k != m
                  && A.Unborn(t.admissions[k]).Some? && A.Unborn(t.admissions[m]).Some?
      ensures A.Unborn(t.admissions[k]).value.id != A.Unborn(t.admissions[m]).value.id
    {
      assert k != slot ==> AdmissionOk(s, s.admissions[k]);
      assert m != slot ==> AdmissionOk(s, s.admissions[m]);
    }
  }

  lemma {:induction false} GoneStep(s: System, slot: nat)
    requires Inv(s) && slot in s.admissions
    ensures Inv(Apply(s, AdmissionGone(slot))) && Evolves(s, Apply(s, AdmissionGone(slot)))
  {
    var t := Apply(s, AdmissionGone(slot));
    QuietEvolves(s, t);
    ConsumerStable(s, t);
    forall k | k in t.admissions ensures AdmissionOk(t, t.admissions[k]) {
      AdmissionStable(s, t, s.admissions[k]);
    }
  }

  // ── Steps of an admission ────────────────────────────────────────────────

  /** When an admission operation may take effect. */
  predicate Ready(s: System, operation: A.Operation) {
    match operation
    case Admit(task) => St.Admissible(task) && task.id in s.issued && task.id !in s.born
    case Enqueue(task) => task.id in s.born
    case MarkAdmitted(id) => Covered(s, id)
    case _ => true
  }

  lemma {:induction false} RequestIsReady(s: System, pc: A.Pc)
    requires AdmissionOk(s, pc) && !pc.Settled? && A.WellFormed(pc)
    ensures Ready(s, A.Request(pc))
    ensures A.Request(pc).Admit? ==> pc.Admitting?
  {}

  lemma {:induction false} AdmitRows(s: System, task: Task)
    requires St.RowsShaped(s.store, s.born) && QueueOk(s) && task.id !in s.born && !task.admitted
    ensures var e := AdmissionEffect(s, A.Admit(task)); Evolves(s, e) && Rests(s, e) && QueueOk(e)
  {
    var e := AdmissionEffect(s, A.Admit(task));
    forall id | id in s.born ensures St.RowEvolves(s.store, e.store, id) && St.RowRests(s.store, e.store, id) {
      St.AdmitEvolves(s.store, task, s.now, id);
    }
    forall id | id in e.store.tasks && e.store.tasks[id].task.admitted && !St.Over(e.store, id)
      ensures id in s.born && Covered(s, id)
    {
      assert id in s.store.tasks && e.store.tasks[id] == s.store.tasks[id];
    }
    StoreOnlyStep(s, s.(store := e.store));
    assert forall id :: Covered(s.(store := e.store), id) ==> Covered(e, id);
  }

  lemma {:induction false} AdmitEffect(s: System, task: Task)
    requires QueueOk(s) && St.StoreOk(s.store, s.now, s.chain, s.born) && Ready(s, A.Admit(task))
    ensures var e := AdmissionEffect(s, A.Admit(task));
            && Evolves(s, e) && Rests(s, e) && QueueOk(e) && St.StoreOk(e.store, e.now, e.chain, e.born)
            && e.born <= s.born + {task.id}
  {
    AdmitRows(s, task);
    St.AdmitKeepsOk(s.store, task, s.now, s.chain, s.born);
  }

  lemma {:induction false} EnqueueEffect(s: System, task: Task)
    requires QueueOk(s) && Ready(s, A.Enqueue(task))
    ensures var e := AdmissionEffect(s, A.Enqueue(task));
            Evolves(s, e) && Rests(s, e) && QueueOk(e) && Enveloped(e, task.id)
  {
    var e := AdmissionEffect(s, A.Enqueue(task));
    assert e.queue[|s.queue|].taskId == task.id;
    forall id | Covered(s, id) ensures Covered(e, id) {
      if !St.Over(s.store, id) {
        var i :| 0 <= i < |s.queue| && s.queue[i].taskId == id;
        assert e.queue[i].taskId == id;
      }
    }
  }

  lemma {:induction false} MarkAdmittedRows(s: System, id: string)
    requires QueueOk(s) && St.RowsShaped(s.store, s.born) && Covered(s, id)
    ensures var e := AdmissionEffect(s, A.MarkAdmitted(id)); Evolves(s, e) && Rests(s, e) && QueueOk(e)
  {
    var e := AdmissionEffect(s, A.MarkAdmitted(id));
    forall other ensures St.RowEvolves(s.store, e.store, other) && St.RowRests(s.store, e.store, other) {
      St.MarkAdmittedEvolves(s.store, id, s.now, other);
    }
    forall other | other in e.store.tasks && e.store.tasks[other].task.admitted && !St.Over(e.store, other)
      ensures other in s.born && Covered(s, other)
    {
      assert other in s.store.tasks;
      assert other != id ==> e.store.tasks[other] == s.store.tasks[other];
    }
    StoreOnlyStep(s, e);
  }

  lemma {:induction false} MarkAdmittedEffect(s: System, id: string)
    requires QueueOk(s) && St.StoreOk(s.store, s.now, s.chain, s.born) && Covered(s, id)
    ensures var e := AdmissionEffect(s, A.MarkAdmitted(id));
            Evolves(s, e) && Rests(s, e) && QueueOk(e) && St.StoreOk(e.store, e.now, e.chain, e.born)
  {
    MarkAdmittedRows(s, id);
    St.MarkAdmittedKeepsOk(s.store, id, s.now, s.chain, s.born);
  }

  lemma {:induction false} DigestEffect(s: System, digest: St.RetryKey, id: string)
    requires QueueOk(s) && St.StoreOk(s.store, s.now, s.chain, s.born)
    ensures var e := AdmissionEffect(s, A.RecordRetryDigest(digest, id));
            Evolves(s, e) && Rests(s, e) && QueueOk(e) && St.StoreOk(e.store, e.now, e.chain, e.born)
  {
    var e := AdmissionEffect(s, A.RecordRetryDigest(digest, id));
    assert forall ref :: St.Points(s.store, ref) ==> St.Points(e.store, ref);
    StoreOnlyStep(s, e);
  }

  lemma {:induction false} AdmissionEffectOk(s: System, operation: A.Operation)
    requires QueueOk(s) && St.StoreOk(s.store, s.now, s.chain, s.born) && s.born <= s.issued && Ready(s, operation)
    ensures var e := AdmissionEffect(s, operation);
            && Evolves(s, e) && Rests(s, e) && QueueOk(e) && St.StoreOk(e.store, e.now, e.chain, e.born)
            && e.born <= s.born + (if operation.Admit? then {operation.task.id} else {}) && e.born <= e.issued
            && e.admissions == s.admissions && e.consumer == s.consumer && e.issued == s.issued
  {
    match operation
    case Admit(task) => AdmitEffect(s, task);
    case Enqueue(task) => EnqueueEffect(s, task);
    case MarkAdmitted(id) => MarkAdmittedEffect(s, id);
    case RecordRetryDigest(digest, id) => DigestEffect(s, digest, id);
    case _ => QuietEvolves(s, s);
  }

  /** A record the store just returned: its task is in the store, and if it says admitted or
      terminal it is covered. */
  lemma {:induction false} FoundIsKnown(s: System, id: string)
    requires QueueOk(s) && St.RowsShaped(s.store, s.born) && St.GetTask(s.store, id, s.now).Some?
    ensures var task := St.GetTask(s.store, id, s.now).value;
            task.id == id && id in s.born && (task.admitted || task.status.Terminal() ==> Covered(s, id))
  {}

  lemma {:induction false} CoalesceOk(s: System, existing: Task)
    requires existing.id in s.born
    requires existing.admitted || existing.status.Terminal() ==> Covered(s, existing.id)
    ensures AdmissionOk(s, A.Coalesce(existing))
  {}

  /** What FoundIsKnown gives for every id. */
  ghost predicate AllKnown(s: System) {
    forall id | St.GetTask(s.store, id, s.now).Some? ::
      var task := St.GetTask(s.store, id, s.now).value;
      task.id == id && id in s.born && (task.admitted || task.status.Terminal() ==> Covered(s, id))
  }

  /** An answered lookup: the request coalesces onto a known task. */
  lemma {:induction false} LookupOk(s: System, pc: A.Pc, answer: A.Answer)
    requires pc.FindingContent? || pc.FindingDigest? || pc.LoadingExisting?
    requires AllKnown(s) && A.WellFormed(pc) && AdmissionTruth(s, A.Request(pc), answer, false)
    ensures AdmissionOk(s, A.Resume(pc, answer)) || A.Unborn(A.Resume(pc, answer)).Some?
  {
    if answer.TaskFound? && answer.task.Some? {
      var id := if pc.FindingContent? then s.store.content[pc.task.contentHash].taskId
                else if pc.FindingDigest? then s.store.digests[A.Request(pc).digest].taskId else pc.id;
      assert answer.task == St.GetTask(s.store, id, s.now);
      CoalesceOk(s, answer.task.value);
    }
  }

  lemma {:induction false} MarkingOk(s: System, e: System, pc: A.Pc, answer: A.Answer, applied: bool)
    requires AllKnown(s) && pc.Marking? && AdmissionOk(s, pc) && AdmissionTruth(s, A.Request(pc), answer, applied)
    requires Evolves(s, e)
    ensures AdmissionOk(e, A.Resume(pc, answer))
  {
    if answer.TaskFound? && answer.task.Some? { assert answer.task.value.id == pc.id; }
  }

  lemma {:induction false} EnqueuedOk(s: System, e: System, task: Task, answer: A.Answer)
    requires task.id in e.born && (answer.Enqueued? ==> Enveloped(e, task.id))
    ensures AdmissionOk(e, A.Resume(A.Enqueuing(task), answer))
  {}

  /** The points where the answer moves the request on, or turns it away, without naming a task. */
  lemma {:induction false} PlainOk(s: System, e: System, pc: A.Pc, answer: A.Answer)
    requires AdmissionOk(s, pc) && s.born <= e.born && !(pc.Admitting? && answer.Admitted?)
    requires !pc.FindingContent? && !pc.FindingDigest? && !pc.LoadingExisting? && !pc.Enqueuing? && !pc.Marking? && !pc.Settled?
    ensures AdmissionOk(e, A.Resume(pc, answer)) || A.Unborn(A.Resume(pc, answer)).Some?
  {}

  /** Where a request stands after a truthful answer. */
  lemma {:induction false} ResumedOk(s: System, e: System, pc: A.Pc, answer: A.Answer, applied: bool)
    requires AllKnown(s) && QueueOk(s) && AdmissionOk(s, pc) && !pc.Settled? && A.WellFormed(pc)
    requires AdmissionTruth(s, A.Request(pc), answer, applied)
    requires e == (if applied then AdmissionEffect(s, A.Request(pc)) else s) && Evolves(s, e)
    requires !(pc.Admitting? && answer.Admitted?)
    ensures AdmissionOk(e, A.Resume(pc, answer)) || A.Unborn(A.Resume(pc, answer)).Some?
  {
    if pc.FindingContent? || pc.FindingDigest? || pc.LoadingExisting? {
      LookupOk(s, pc, answer);
    } else if pc.Enqueuing? {
      if answer.Enqueued? { EnqueueEffect(s, pc.known); }
      EnqueuedOk(s, e, pc.known, answer);
    } else if pc.Marking? {
      MarkingOk(s, e, pc, answer, applied);
    } else {
      PlainOk(s, e, pc, answer);
    }
  }

  lemma {:induction false} AdmittedOk(s: System, task: Task, answer: A.Answer)
    requires AllKnown(s) && answer.Admitted? && AdmissionTruth(s, A.Admit(task), answer, true)
    requires s.born <= AdmissionEffect(s, A.Admit(task)).born
    ensures AdmissionOk(AdmissionEffect(s, A.Admit(task)), A.Resume(A.Admitting(task), answer))
  {
    if answer.admission.Existing? {
      var id := s.store.content[task.contentHash].taskId;
      assert St.GetTask(s.store, id, s.now).Some?;
    }
  }

  lemma {:induction false} AdmissionSlotOk(s: System, e: System, pc: A.Pc, reply: A.Answer, applied: bool)
    requires AllKnown(s) && QueueOk(s) && AdmissionOk(s, pc) && !pc.Settled? && A.WellFormed(pc)
    requires AdmissionTruth(s, A.Request(pc), reply, applied)
    requires e == (if applied then AdmissionEffect(s, A.Request(pc)) else s) && Evolves(s, e)
    requires e.born <= s.born + (if pc.Admitting? && applied then {pc.task.id} else {})
    ensures AdmissionOk(e, A.Resume(pc, reply))
  {
    var next := A.Resume(pc, reply);
    A.ResumeWellFormed(pc, reply);
    if pc.Admitting? && reply.Admitted? {
      AdmittedOk(s, pc.task, reply);
    } else {
      ResumedOk(s, e, pc, reply, applied);
      if A.Unborn(next).Some? {
        assert !pc.Admitting?;
        AdmissionStable(s, e, pc);
      }
    }
  }

  lemma {:induction false} OtherSlotsOk(s: System, e: System, slot: nat, pc: A.Pc, k: nat)
    requires AdmissionsOk(s) && slot in s.admissions && s.admissions[slot] == pc && Evolves(s, e)
    requires e.born <= s.born + (if pc.Admitting? then {pc.task.id} else {})
    requires k in s.admissions && k != slot
    ensures AdmissionOk(e, s.admissions[k])
  {
    AdmissionStable(s, e, s.admissions[k]);
  }

  /** AdmissionOk does not look at the admissions themselves. */
  lemma {:induction false} SlotIndependent(e: System, admissions: map<nat, A.Pc>, pc: A.Pc)
    requires AdmissionOk(e, pc)
    ensures AdmissionOk(e.(admissions := admissions), pc)
  {
    assert Names(pc).Some? && Covered(e, Names(pc).value) ==> Covered(e.(admissions := admissions), Names(pc).value);
  }

  lemma {:induction false} AdmissionSlotsOk(s: System, e: System, slot: nat, next: A.Pc)
    requires AdmissionsOk(s) && slot in s.admissions && Evolves(s, e) && e.admissions == s.admissions
    requires e.born <= s.born + (if s.admissions[slot].Admitting? then {s.admissions[slot].task.id} else {})
    requires AdmissionOk(e, next)
    requires A.Unborn(next).Some? ==> A.Unborn(next) == A.Unborn(s.admissions[slot])
    ensures AdmissionsOk(e.(admissions := e.admissions[slot := next]))
  {
    var admissions := e.admissions[slot := next];
    forall k | k in admissions ensures AdmissionOk(e.(admissions := admissions), admissions[k]) {
      if k != slot { OtherSlotsOk(s, e, slot, s.admissions[slot], k); }
      SlotIndependent(e, admissions, admissions[k]);
    }
  }

  lemma {:induction false} EverythingFoundIsKnown(s: System)
    requires QueueOk(s) && St.RowsShaped(s.store, s.born)
    ensures AllKnown(s)
  {
    forall id | St.GetTask(s.store, id, s.now).Some?
      ensures var task := St.GetTask(s.store, id, s.now).value;
              task.id == id && id in s.born && (task.admitted || task.status.Terminal() ==> Covered(s, id))
    {
      FoundIsKnown(s, id);
    }
  }

  /** The tables and the queue after an admission's operation, applied or not. */
  lemma {:induction false} AppliedOrNot(s: System, pc: A.Pc, applied: bool)
    requires QueueOk(s) && St.StoreOk(s.store, s.now, s.chain, s.born) && s.born <= s.issued
    requires AdmissionOk(s, pc) && !pc.Settled? && A.WellFormed(pc)
    ensures var e := if applied then AdmissionEffect(s, A.Request(pc)) else s;
            && Evolves(s, e) && Rests(s, e) && QueueOk(e) && St.StoreOk(e.store, e.now, e.chain, e.born)
            && e.born <= s.born + (if pc.Admitting? && applied then {pc.task.id} else {}) && e.born <= e.issued
            && e.admissions == s.admissions && e.consumer == s.consumer && e.issued == s.issued
  {
    if applied {
      RequestIsReady(s, pc);
      AdmissionEffectOk(s, A.Request(pc));
    } else {
      QuietEvolves(s, s);
    }
  }

  lemma {:induction false} AdmissionStepOk(s: System, slot: nat, reply: A.Answer, applied: bool)
    requires Inv(s) && slot in s.admissions && !s.admissions[slot].Settled? && A.WellFormed(s.admissions[slot])
    requires AdmissionTruth(s, A.Request(s.admissions[slot]), reply, applied)
    ensures var t := AfterAdmission(s, slot, reply, applied); Inv(t) && Evolves(s, t) && Rests(s, t)
  {
    var pc := s.admissions[slot];
    var e := if applied then AdmissionEffect(s, A.Request(pc)) else s;
    AppliedOrNot(s, pc, applied);
    EverythingFoundIsKnown(s);
    AdmissionSlotOk(s, e, pc, reply, applied);
    A.ResumeWellFormed(pc, reply);
    AdmissionSlotsOk(s, e, slot, A.Resume(pc, reply));
    AdmissionMoves(s, e, e.admissions[slot := A.Resume(pc, reply)]);
  }

  lemma {:induction false} AdmissionMoves(s: System, e: System, admissions: map<nat, A.Pc>)
    requires Inv(s) && Evolves(s, e) && Rests(s, e) && QueueOk(e) && St.StoreOk(e.store, e.now, e.chain, e.born)
    requires e.born <= e.issued && e.consumer == s.consumer && AdmissionsOk(e.(admissions := admissions))
    ensures var t := e.(admissions := admissions); Inv(t) && Evolves(s, t) && Rests(s, t)
  {
    var t := e.(admissions := admissions);
    assert forall id :: Covered(e, id) ==> Covered(t, id);
    assert Evolves(s, t) && Rests(s, t) && QueueOk(t);
    ConsumerStable(s, t);
  }

  // ── Steps of the consumer ────────────────────────────────────────────────

  /** Only the consumer moves. */
  lemma {:induction false} ConsumerOnly(s: System, consumer: Consumer)
    requires Inv(s) && ConsumerOk(s.(consumer := consumer))
    ensures var t := s.(consumer := consumer); Inv(t) && Evolves(s, t)
  {
    var t := s.(consumer := consumer);
    QuietEvolves(s, t);
    AdmissionsStable(s, t);
  }

  lemma {:induction false} PollOk(s: System)
    requires QueueOk(s) && s.queue != []
    ensures ConsumerOk(s.(consumer := Working(Head(s.queue), B.Start(Ids(Head(s.queue))))))
  {
    var batch := Head(s.queue);
    var t := s.(consumer := Working(batch, B.Start(Ids(batch))));
    forall i | 0 <= i < |batch| ensures Held(t, batch[i]) {
      assert batch[i] == s.queue[i];
    }
    assert WorkOk(t, batch, B.Start(Ids(batch)));
  }

  lemma {:induction false} RetireOk(s: System)
    requires ConsumerOk(s) && s.consumer.Working? && s.consumer.pc == B.Settled(B.Advance)
    ensures ConsumerOk(s.(consumer := Deleting(s.consumer.batch)))
  {
    var t := s.(consumer := Deleting(s.consumer.batch));
    forall i | 0 <= i < |s.consumer.batch| ensures Held(t, s.consumer.batch[i]) && St.Over(t.store, s.consumer.batch[i].taskId) {
      assert Held(s, s.consumer.batch[i]);
    }
  }

  lemma {:induction false} RemoveKeeps(queue: seq<Envelope>, number: nat, e: Envelope)
    ensures e in Remove(queue, number) <==> e in queue && e.number != number
  {
    if queue != [] {
      RemoveKeeps(queue[1..], number, e);
      assert queue == [queue[0]] + queue[1..];
    }
  }

  lemma {:induction false} RemoveIncreasing(queue: seq<Envelope>, number: nat)
    requires Increasing(queue)
    ensures Increasing(Remove(queue, number))
  {
    if queue != [] {
      RemoveIncreasing(queue[1..], number);
      var tail := Remove(queue[1..], number);
      forall i | 0 <= i < |tail| ensures queue[0].number < tail[i].number {
        RemoveKeeps(queue[1..], number, tail[i]);
      }
    }
  }

  /** Removing the envelope of a task that is over leaves every other task covered. */
  lemma {:induction false} RemoveCovers(s: System, e: Envelope, id: string)
    requires Held(s, e) && St.Over(s.store, e.taskId) && Covered(s, id)
    ensures Covered(s.(queue := Remove(s.queue, e.number)), id)
  {
    var t := s.(queue := Remove(s.queue, e.number));
    if !St.Over(s.store, id) {
      var i :| 0 <= i < |s.queue| && s.queue[i].taskId == id;
      RemoveKeeps(s.queue, e.number, s.queue[i]);
      var j :| 0 <= j < |t.queue| && t.queue[j] == s.queue[i];
      assert t.queue[j].taskId == id;
    }
  }

  lemma {:induction false} RemoveEvolves(s: System, e: Envelope)
    requires QueueOk(s) && Held(s, e) && St.Over(s.store, e.taskId)
    ensures var t := s.(queue := Remove(s.queue, e.number)); Evolves(s, t) && Rests(s, t) && QueueOk(t)
  {
    var t := s.(queue := Remove(s.queue, e.number));
    forall i | 0 <= i < |t.queue| ensures t.queue[i] in s.queue {
      RemoveKeeps(s.queue, e.number, t.queue[i]);
    }
    forall id | Covered(s, id) ensures Covered(t, id) { RemoveCovers(s, e, id); }
    RemoveIncreasing(s.queue, e.number);
  }

  lemma {:induction false} DeleteStep(s: System)
    requires Inv(s) && s.consumer.Deleting? && s.consumer.todo != []
    ensures var t := s.(queue := Remove(s.queue, s.consumer.todo[0].number), consumer := Deleting(s.consumer.todo[1..]));
            Inv(t) && Evolves(s, t)
  {
    var m := s.(queue := Remove(s.queue, s.consumer.todo[0].number));
    RemoveEvolves(s, s.consumer.todo[0]);
    AdmissionsStable(s, m);
    ConsumerStable(s, m);
    var t := m.(consumer := Deleting(s.consumer.todo[1..]));
    forall i | 0 <= i < |t.consumer.todo| ensures Held(t, t.consumer.todo[i]) && St.Over(t.store, t.consumer.todo[i].taskId) {
      assert Held(m, s.consumer.todo[i + 1]);
    }
    ConsumerOnly(m, t.consumer);
    ConsumerIsNoMatter(s, m, t.consumer);
  }

  /** The guarantee does not speak about the consumer. */
  lemma {:induction false} ConsumerIsNoMatter(s: System, m: System, consumer: Consumer)
    requires Evolves(s, m)
    ensures Evolves(s, m.(consumer := consumer))
  {
    var t := m.(consumer := consumer);
    forall id | Covered(m, id) ensures Covered(t, id) {}
  }

  /** A persistence operation of the consumer on the task it holds: what it does to the store. */
  lemma {:induction false} ConsumerStoreEffect(s: System, pc: B.Pc)
    requires St.StoreOk(s.store, s.now, s.chain, s.born)
    requires pc.Persisting? && B.WellFormed(pc) && Owed(s, pc.task)
    requires pc.operation.MarkDone? ==> OnChain(s.chain, pc.task)
    ensures var e := ConsumerEffect(s, pc.operation);
            && e == s.(store := e.store) && St.Spends(s.store, e.store, pc.task.id, s.now, s.chain, s.born)
            && (!pc.operation.RecordTransientFailure? ==> St.Over(e.store, pc.task.id))
  {
    var id := pc.task.id;
    match pc.operation {
      case MarkDone(_, txHash, onChainId) =>
        St.SameWriteSameChain(s.store.tasks[id].task, pc.task, s.chain);
        St.MarkDoneEffect(s.store, id, txHash, onChainId, s.now, s.chain, s.born);
      case MarkFailed(_, note) => St.MarkFailedEffect(s.store, id, note, s.now, s.chain, s.born);
      case RecordTransientFailure(_, note) => St.RecordTransientFailureEffect(s.store, id, note, s.now, s.chain, s.born);
      case _ =>
    }
  }

  lemma {:induction false} ConsumerEffectOk(s: System, e: System, pc: B.Pc)
    requires QueueOk(s) && St.RowsShaped(s.store, s.born)
    requires pc.Persisting? && B.WellFormed(pc) && Owed(s, pc.task)
    requires e == s.(store := e.store) && St.Spends(s.store, e.store, pc.task.id, s.now, s.chain, s.born)
    ensures Evolves(s, e) && QueueOk(e)
  {
    forall id | id in e.store.tasks && e.store.tasks[id].task.admitted && !St.Over(e.store, id)
      ensures id in s.born && Covered(s, id)
    {
      assert id in s.store.tasks && s.store.tasks[id].task.admitted;
    }
    StoreOnlyStep(s, e);
  }

  lemma {:induction false} BeginPending(tasks: seq<Task>)
    ensures B.Pending(B.Begin(tasks)) == tasks && B.WellFormed(B.Begin(tasks))
    ensures !B.Begin(tasks).Loading? && !(B.Begin(tasks).Persisting? && B.Begin(tasks).operation.MarkDone?)
    ensures B.Begin(tasks).Settled? ==> B.Begin(tasks).verdict.Advance?
  {
    if tasks != [] { assert tasks == [tasks[0]] + tasks[1..]; }
  }

  lemma {:induction false} KeptIsOwed(s: System, ids: seq<string>, task: Task)
    requires St.RowsShaped(s.store, s.born) && Some(task) in Loaded(s, ids) && !task.status.Terminal()
    ensures Owed(s, task) && task.id in ids
  {
    var j :| 0 <= j < |ids| && Loaded(s, ids)[j] == Some(task);
    assert St.GetTask(s.store, ids[j], s.now) == Some(task);
  }

  lemma {:induction false} DroppedIsOver(s: System, ids: seq<string>, i: nat)
    requires St.RowsShaped(s.store, s.born) && i < |ids|
    ensures St.Over(s.store, ids[i]) || Listed(B.Canonical(Loaded(s, ids), {}), ids[i])
  {
    if St.Active(s.store, ids[i]) {
      var task, kept := s.store.tasks[ids[i]].task, B.Canonical(Loaded(s, ids), {});
      assert Loaded(s, ids)[i] == Some(task);
      B.CanonicalCovers(Loaded(s, ids), {}, task);
      var t :| t in kept && t.id == task.id;
      var k :| 0 <= k < |kept| && kept[k] == t;
      assert kept[k].id == ids[i];
    }
  }

  /** The loading step: what is kept is owed, what is dropped is over. */
  lemma {:induction false} LoadedWorkOk(s: System, batch: seq<Envelope>)
    requires St.RowsShaped(s.store, s.born)
    ensures WorkOk(s, batch, B.Begin(B.Canonical(Loaded(s, Ids(batch)), {})))
  {
    var ids := Ids(batch);
    var kept := B.Canonical(Loaded(s, ids), {});
    BeginPending(kept);
    B.CanonicalIsDistinct(Loaded(s, ids), {});
    forall i | 0 <= i < |kept| ensures Owed(s, kept[i]) && kept[i].id in ids {
      assert kept[i] in kept;
      KeptIsOwed(s, ids, kept[i]);
    }
    forall i | 0 <= i < |batch| ensures St.Over(s.store, batch[i].taskId) || Listed(kept, batch[i].taskId) {
      DroppedIsOver(s, ids, i);
      assert ids[i] == batch[i].taskId;
    }
  }

  lemma {:induction false} CheckedIsOnChain(s: System, task: Task, answer: B.Answer)
    requires B.CheckFor(task).Some? && ConsumerTruth(s, B.CheckFor(task).value, answer, false)
    requires answer == B.ContentChecked(true)
    ensures OnChain(s.chain, task)
  {}

  /** The machine moved on with the same tasks pending; one about to be marked done is there. */
  lemma {:induction false} SamePendingWorkOk(s: System, batch: seq<Envelope>, pc: B.Pc, next: B.Pc)
    requires WorkOk(s, batch, pc) && (pc.Checking? || pc.Submitting?) && B.WellFormed(next)
    requires !next.Loading? && (next.Settled? ==> next.verdict.Retry?) && (next.Settled? || B.Pending(next) == B.Pending(pc))
    requires next.Persisting? && next.operation.MarkDone? ==> OnChain(s.chain, next.task)
    ensures WorkOk(s, batch, next)
  {}

  /** Checks and sends keep the pending tasks. */
  lemma {:induction false} SamePending(pc: B.Pc, answer: B.Answer)
    requires B.WellFormed(pc) && (pc.Checking? || pc.Submitting?)
    ensures var next := B.Resume(pc, answer);
            && B.WellFormed(next) && !next.Loading? && (next.Settled? ==> next.verdict.Retry?)
            && (next.Settled? || B.Pending(next) == B.Pending(pc))
  {
    B.ResumeWellFormed(pc, answer);
  }

  lemma {:induction false} DoneIsBacked(s: System, pc: B.Pc, answer: B.Answer, applied: bool)
    requires B.WellFormed(pc) && (pc.Checking? || pc.Submitting?)
    requires ConsumerTruth(s, B.Request(pc), answer, applied)
    requires B.Resume(pc, answer).Persisting? && B.Resume(pc, answer).operation.MarkDone?
    ensures OnChain(s.chain, B.Resume(pc, answer).task)
  {
    if pc.Checking? { CheckedIsOnChain(s, pc.task, answer); }
  }

  lemma {:induction false} ChainStepWorkOk(s: System, batch: seq<Envelope>, pc: B.Pc, answer: B.Answer, applied: bool)
    requires WorkOk(s, batch, pc) && (pc.Checking? || pc.Submitting?)
    requires ConsumerTruth(s, B.Request(pc), answer, applied)
    ensures WorkOk(s, batch, B.Resume(pc, answer))
  {
    var next := B.Resume(pc, answer);
    SamePending(pc, answer);
    if next.Persisting? && next.operation.MarkDone? { DoneIsBacked(s, pc, answer, applied); }
    SamePendingWorkOk(s, batch, pc, next);
  }

  lemma {:induction false} RestIsDistinct(pc: B.Pc)
    requires pc.Persisting? && B.DistinctIds(B.Pending(pc))
    ensures B.DistinctIds(pc.rest) && forall i | 0 <= i < |pc.rest| :: pc.rest[i].id != pc.task.id
  {
    var all := B.Pending(pc);
    assert all[0] == pc.task;
    forall i | 0 <= i < |pc.rest| ensures pc.rest[i] == all[i + 1] && pc.rest[i].id != pc.task.id {}
    forall i, j | 0 <= i < j < |pc.rest| ensures pc.rest[i].id != pc.rest[j].id {
      assert all[i + 1].id != all[j + 1].id;
    }
  }

  lemma {:induction false} RestIsListed(pc: B.Pc, id: string)
    requires pc.Persisting? && Listed(B.Pending(pc), id) && id != pc.task.id
    ensures Listed(pc.rest, id)
  {
    var j :| 0 <= j < |B.Pending(pc)| && B.Pending(pc)[j].id == id;
    assert pc.rest[j - 1].id == id;
  }

  /** The current task got its outcome: it is over, and the rest is still owed. */
  lemma {:induction false} PersistedWorkOk(s: System, e: System, batch: seq<Envelope>, pc: B.Pc)
    requires WorkOk(s, batch, pc) && pc.Persisting?
    requires St.Over(e.store, pc.task.id) && St.OnlyRow(s.store, e.store, pc.task.id)
    ensures WorkOk(e, batch, B.Begin(pc.rest))
  {
    BeginPending(pc.rest);
    RestIsDistinct(pc);
    forall i | 0 <= i < |pc.rest| ensures Owed(e, pc.rest[i]) && pc.rest[i].id in Ids(batch) {
      assert B.Pending(pc)[i + 1] == pc.rest[i] && Owed(s, B.Pending(pc)[i + 1]);
    }
    forall i | 0 <= i < |batch| ensures St.Over(e.store, batch[i].taskId) || Listed(pc.rest, batch[i].taskId) {
      if !St.Over(s.store, batch[i].taskId) && batch[i].taskId != pc.task.id { RestIsListed(pc, batch[i].taskId); }
    }
  }

  /** The tables after the consumer's outcome, applied or not. */
  lemma {:induction false} PersistTables(s: System, pc: B.Pc, applied: bool)
    requires QueueOk(s) && St.StoreOk(s.store, s.now, s.chain, s.born)
    requires pc.Persisting? && B.WellFormed(pc) && Owed(s, pc.task)
    requires pc.operation.MarkDone? ==> OnChain(s.chain, pc.task)
    ensures var e := if applied then ConsumerEffect(s, pc.operation) else s;
            && e == s.(store := e.store) && Evolves(s, e) && St.StoreOk(e.store, e.now, e.chain, e.born) && QueueOk(e)
            && St.OnlyRow(s.store, e.store, pc.task.id)
            && (applied && !pc.operation.RecordTransientFailure? ==> St.Over(e.store, pc.task.id))
  {
    if applied {
      ConsumerStoreEffect(s, pc);
      ConsumerEffectOk(s, ConsumerEffect(s, pc.operation), pc);
    } else {
      QuietEvolves(s, s);
    }
  }

  lemma {:induction false} PersistWork(s: System, e: System, batch: seq<Envelope>, pc: B.Pc, answer: B.Answer)
    requires WorkOk(s, batch, pc) && pc.Persisting? && St.OnlyRow(s.store, e.store, pc.task.id)
    requires answer.Persisted? && pc.stop.None? ==> St.Over(e.store, pc.task.id)
    ensures WorkOk(e, batch, B.Resume(pc, answer))
  {
    if answer.Persisted? && pc.stop.None? {
      PersistedWorkOk(s, e, batch, pc);
    } else {
      assert B.Resume(pc, answer).Settled? && B.Resume(pc, answer).verdict.Retry?;
    }
  }

  lemma {:induction false} PersistStepOk(s: System, batch: seq<Envelope>, pc: B.Pc, answer: B.Answer, applied: bool)
    requires QueueOk(s) && St.StoreOk(s.store, s.now, s.chain, s.born)
    requires WorkOk(s, batch, pc) && pc.Persisting? && ConsumerTruth(s, pc.operation, answer, applied)
    ensures var e := if applied then ConsumerEffect(s, pc.operation) else s;
            && e == s.(store := e.store) && Evolves(s, e) && St.StoreOk(e.store, e.now, e.chain, e.born) && QueueOk(e)
            && WorkOk(e, batch, B.Resume(pc, answer))
  {
    assert B.Pending(pc)[0] == pc.task && Owed(s, pc.task);
    PersistTables(s, pc, applied);
    PersistWork(s, if applied then ConsumerEffect(s, pc.operation) else s, batch, pc, answer);
  }

  /** Loading, checking and sending do not touch the tables. */
  lemma {:induction false} ReadStepWorkOk(s: System, batch: seq<Envelope>, pc: B.Pc, answer: B.Answer, applied: bool)
    requires St.RowsShaped(s.store, s.born) && WorkOk(s, batch, pc) && !pc.Settled? && !pc.Persisting?
    requires ConsumerTruth(s, B.Request(pc), answer, applied)
    ensures ConsumerEffect(s, B.Request(pc)) == s && WorkOk(s, batch, B.Resume(pc, answer))
  {
    if pc.Loading? {
      if answer.TasksLoaded? { LoadedWorkOk(s, batch); }
    } else {
      ChainStepWorkOk(s, batch, pc, answer, applied);
    }
  }

  /** After any answer the consumer's claims hold of what it then sees. */
  lemma {:induction false} ConsumerEffectKeepsWork(s: System, batch: seq<Envelope>, pc: B.Pc, answer: B.Answer, applied: bool)
    requires QueueOk(s) && St.StoreOk(s.store, s.now, s.chain, s.born)
    requires WorkOk(s, batch, pc) && !pc.Settled? && ConsumerTruth(s, B.Request(pc), answer, applied)
    ensures var e := if applied then ConsumerEffect(s, B.Request(pc)) else s;
            && Evolves(s, e) && St.StoreOk(e.store, e.now, e.chain, e.born) && QueueOk(e)
            && e == s.(store := e.store) && WorkOk(e, batch, B.Resume(pc, answer))
  {
    if pc.Persisting? {
      PersistStepOk(s, batch, pc, answer, applied);
    } else {
      QuietEvolves(s, s);
      ReadStepWorkOk(s, batch, pc, answer, applied);
    }
  }

  lemma {:induction false} ConsumerStepOk(s: System, answer: B.Answer, applied: bool)
    requires Inv(s) && s.consumer.Working? && !s.consumer.pc.Settled? && B.WellFormed(s.consumer.pc)
    requires ConsumerTruth(s, B.Request(s.consumer.pc), answer, applied)
    ensures var t := AfterConsumer(s, answer, applied); Inv(t) && Evolves(s, t)
  {
    var batch, pc := s.consumer.batch, s.consumer.pc;
    var e := if applied then ConsumerEffect(s, B.Request(pc)) else s;
    ConsumerEffectKeepsWork(s, batch, pc, answer, applied);
    ConsumerMoves(s, e, B.Resume(pc, answer));
  }

  /** WorkOk does not look at the consumer itself. */
  lemma {:induction false} WorkIndependent(e: System, consumer: Consumer, batch: seq<Envelope>, pc: B.Pc)
    requires WorkOk(e, batch, pc)
    ensures WorkOk(e.(consumer := consumer), batch, pc)
  {
    forall i | 0 <= i < |B.Pending(pc)| ensures Owed(e.(consumer := consumer), B.Pending(pc)[i]) {
      assert Owed(e, B.Pending(pc)[i]);
    }
  }

  lemma {:induction false} ConsumerMoves(s: System, e: System, next: B.Pc)
    requires Inv(s) && s.consumer.Working? && WorkOk(e, s.consumer.batch, next)
    requires Evolves(s, e) && St.StoreOk(e.store, e.now, e.chain, e.born) && QueueOk(e)
    requires e.admissions == s.admissions && e.born == s.born && e.issued == s.issued
    ensures var t := e.(consumer := Working(s.consumer.batch, next)); Inv(t) && Evolves(s, t)
  {
    var t := e.(consumer := Working(s.consumer.batch, next));
    assert forall id :: Covered(e, id) ==> Covered(t, id);
    assert Evolves(s, t) && QueueOk(t);
    AdmissionsStable(s, t);
    WorkIndependent(e, t.consumer, s.consumer.batch, next);
    forall i | 0 <= i < |s.consumer.batch| ensures Held(t, s.consumer.batch[i]) {
      HeldStable(s, t, s.consumer.batch[i]);
    }
  }

  // ── All steps ────────────────────────────────────────────────────────────

  lemma {:induction false} InitOk(now: nat, chain: Chain)
    ensures Inv(Init(now, chain))
  {}

  /** Every step keeps the invariant and gives everybody else the Evolves guarantee. */
  lemma {:induction false} StepOk(s: System, step: Step)
    requires Inv(s) && Enabled(s, step)
    ensures Inv(Apply(s, step)) && Evolves(s, Apply(s, step))
  {
    match step
    case Tick(_) => TimeStep(s, Apply(s, step));
    case ChainGrows(_) => TimeStep(s, Apply(s, step));
    case Purge => PurgeStep(s);
    case Arrive(slot, validated) => ArriveStep(s, slot, validated);
    case AdmissionStep(slot, reply, applied) => AdmissionStepOk(s, slot, reply, applied);
    case AdmissionGone(slot) => GoneStep(s, slot);
    case Poll =>
      PollOk(s);
      ConsumerOnly(s, Apply(s, step).consumer);
    case ConsumerStep(answer, applied) => ConsumerStepOk(s, answer, applied);
    case Retire =>
      if s.consumer.pc.verdict.Advance? { RetireOk(s); }
      ConsumerOnly(s, Apply(s, step).consumer);
    case DeleteNext => if s.consumer.todo == [] { ConsumerOnly(s, Idle); } else { DeleteStep(s); }
    case ConsumerCrash => ConsumerOnly(s, Idle);
  }
}
