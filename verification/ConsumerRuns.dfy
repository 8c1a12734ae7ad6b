/**
 * What the consumer achieves over whole runs: a confirmed transaction is on record, an advanced batch
 * leaves the queue and the next poll starts behind it, a retried one stays
 * (p256-index-cf/src/submitter.rs:171-215, 467-483, 609-628).
 */
module ConsumerRuns {
  import opened Basics
  import opened Tasks
  import St = Stores
  import Views = StoreViews
  import A = Admissions
  import B = Submission
  import opened Pipeline
  import opened PipelineSafety
  import opened PipelineRuns
  import Submitter
  import F = FailedWrites

  /** The consumer's own steps. */
  predicate Consumes(step: Step) {
    step.Poll? || step.ConsumerStep? || step.Retire? || step.DeleteNext? || step.ConsumerCrash?
  }

  lemma {:induction false} OthersKeepTheConsumer(s: System, step: Step)
    requires Enabled(s, step) && !Consumes(step)
    ensures var t := Apply(s, step);
            && t.consumer == s.consumer && s.queue <= t.queue && s.nextNumber <= t.nextNumber
            && |t.queue| - |s.queue| == t.nextNumber - s.nextNumber
            && forall k | |s.queue| <= k < |t.queue| :: t.queue[k].number >= s.nextNumber
  {}

  lemma {:induction false} StandsStill(r: Run, i: nat, j: nat)
    requires IsRun(r) && i <= j < |r.states| && forall m | i <= m < j :: !Consumes(r.steps[m])
    ensures r.states[j].consumer == r.states[i].consumer
    decreases j
  {
    if i < j {
      StandsStill(r, i, j - 1);
      assert Follows(r, j - 1);
      OthersKeepTheConsumer(r.states[j - 1], r.steps[j - 1]);
    }
  }

  // ── A confirmed transaction is on record ─────────────────────────────────

  /** Step i: the node confirms the send of this task in this transaction. */
  predicate Confirms(r: Run, i: nat, task: Task, txHash: string, onChainId: Option<nat>)
    requires i < |r.steps| && |r.states| == |r.steps| + 1
  {
    && r.steps[i].ConsumerStep? && r.steps[i].answer == B.Tx(B.Confirmed(txHash, onChainId))
    && r.states[i].consumer.Working? && r.states[i].consumer.pc.Submitting? && r.states[i].consumer.pc.task == task
  }

  lemma {:induction false} OwedAtOutcome(s: System)
    requires ConsumerOk(s) && s.consumer.Working? && s.consumer.pc.Persisting?
    ensures St.Active(s.store, s.consumer.pc.task.id)
  {
    assert B.Pending(s.consumer.pc)[0] == s.consumer.pc.task;
    assert Owed(s, s.consumer.pc.task);
  }

  lemma {:induction false} ConfirmedStep(s: System, answer: B.Answer, task: Task, txHash: string, onChainId: Option<nat>)
    requires Enabled(s, ConsumerStep(answer, true)) && ConsumerOk(s) && St.RowsShaped(s.store, s.born)
    requires s.consumer.pc.Persisting? && s.consumer.pc.task == task
    requires s.consumer.pc.operation == B.MarkDone(task.id, Some(txHash), onChainId)
    ensures var t := AfterConsumer(s, answer, true).store;
            && St.Active(s.store, task.id) && task.id in t.tasks
            && Views.Finished(s.store.tasks[task.id].task, t.tasks[task.id].task, Some(txHash), onChainId)
  {
    OwedAtOutcome(s);
    Views.DoneIsRecorded(s.store, task.id, Some(txHash), onChainId, s.now);
  }

  /** When the consumer next writes an outcome behind a confirmation, the record of the task is Done
      with the confirmed transaction, with its id if the receipt named one, and without an error;
      and it stays so as long as it is there. */
  lemma {:induction false} ConfirmedIsRecorded(r: Run, i: nat, j: nat, k: nat, task: Task, txHash: string, onChainId: Option<nat>)
    requires IsRun(r) && i < j < |r.steps| && j < k < |r.states| && Confirms(r, i, task, txHash, onChainId)
    requires r.steps[j].ConsumerStep? && r.steps[j].applied && forall m | i < m < j :: !Consumes(r.steps[m])
    ensures task.id in r.states[j].store.tasks && task.id in r.states[j + 1].store.tasks
    ensures var before, after := r.states[j].store.tasks[task.id].task, r.states[j + 1].store.tasks[task.id].task;
            && Views.Finished(before, after, Some(txHash), onChainId) && after.txHash == Some(txHash)
            && (onChainId.Some? ==> after.onChainId == onChainId)
    ensures task.id in r.states[k].store.tasks ==> r.states[k].store.tasks[task.id] == r.states[j + 1].store.tasks[task.id]
  {
    assert Follows(r, i) && Follows(r, j);
    StandsStill(r, i + 1, j);
    var s := r.states[j];
    assert ConsumerOk(s) && St.RowsShaped(s.store, s.born) by { ReachableOk(r, j); }
    ConfirmedStep(s, r.steps[j].answer, task, txHash, onChainId);
    assert task.id in r.states[j + 1].born by { ReachableOk(r, j + 1); }
    RowsOnlyMoveForward(r, j + 1, k, task.id);
  }

  // ── The batch is the front of the queue ──────────────────────────────────

  /** What the consumer holds is still the front of the queue. */
  predicate Front(s: System) {
    match s.consumer
    case Idle => true
    case Working(batch, _) => batch <= s.queue
    case Deleting(todo) => todo <= s.queue
  }

  lemma {:induction false} RemoveFirst(queue: seq<Envelope>)
    requires queue != [] && Increasing(queue)
    ensures Remove(queue, queue[0].number) == queue[1..]
  {
    Submitter.RemoveAbsent(queue[1..], queue[0].number);
  }

  lemma {:induction false} DeleteTakesTheFirst(s: System)
    requires Enabled(s, DeleteNext) && Front(s) && Numbered(s) && s.consumer.todo != []
    ensures Apply(s, DeleteNext) == s.(queue := s.queue[1..], consumer := Deleting(s.consumer.todo[1..]))
  {
    assert s.consumer.todo[0] == s.queue[0];
    RemoveFirst(s.queue);
  }

  lemma {:induction false} StepKeepsFront(s: System, step: Step)
    requires Enabled(s, step) && Front(s) && Numbered(s)
    ensures Front(Apply(s, step))
  {
    if !Consumes(step) {
      OthersKeepTheConsumer(s, step);
    } else if step.DeleteNext? && s.consumer.todo != [] {
      DeleteTakesTheFirst(s);
    }
  }

  lemma {:induction false} ReachableFront(r: Run, i: nat)
    requires IsRun(r) && i < |r.states|
    ensures Front(r.states[i]) && Numbered(r.states[i])
  {
    ReachableOk(r, i);
    if i > 0 {
      ReachableFront(r, i - 1);
      assert Follows(r, i - 1);
      StepKeepsFront(r.states[i - 1], r.steps[i - 1]);
    }
  }

  /** A poll takes the oldest envelopes, all of them or exactly fifty, and asks for their tasks in
      that order. */
  lemma {:induction false} PollTakesTheFront(s: System)
    requires Enabled(s, Poll)
    ensures var c := Apply(s, Poll).consumer;
            && c.Working? && c.batch <= s.queue && |c.batch| == (if |s.queue| < 50 then |s.queue| else 50)
            && c.pc.Loading? && |c.pc.ids| == |c.batch| && (forall k | 0 <= k < |c.batch| :: c.pc.ids[k] == s.queue[k].taskId)
            && Apply(s, Poll) == s.(consumer := c)
  {}

  // ── An advanced batch is consumed ────────────────────────────────────────

  /** The queue has lost its first n envelopes, and gained what was enqueued since. */
  predicate Lost(s: System, t: System, n: nat) {
    && n <= |s.queue| && s.queue[n..] <= t.queue
    && s.nextNumber <= t.nextNumber && |t.queue| == |s.queue| - n + (t.nextNumber - s.nextNumber)
    && forall k | |s.queue| - n <= k < |t.queue| :: t.queue[k].number >= s.nextNumber
  }

  /** On the way from the verdict to the end of the deletion. */
  predicate Consuming(s: System, batch: seq<Envelope>, t: System) {
    match t.consumer
    case Working(now, pc) => now == batch && pc == B.Settled(B.Advance) && Lost(s, t, 0)
    case Deleting(todo) => |todo| <= |batch| && todo == batch[|batch| - |todo|..] && Lost(s, t, |batch| - |todo|)
    case Idle => Lost(s, t, |batch|)
  }

  lemma {:induction false} LosesOneMore(s: System, t: System, n: nat, consumer: Consumer)
    requires Lost(s, t, n) && n < |s.queue| && t.queue != []
    ensures Lost(s, t.(queue := t.queue[1..], consumer := consumer), n + 1)
  {
    assert s.queue[n..][1..] == s.queue[n + 1..];
  }

  lemma {:induction false} GainsMore(s: System, t: System, n: nat, step: Step)
    requires Lost(s, t, n) && Enabled(t, step) && !Consumes(step)
    ensures Lost(s, Apply(t, step), n)
  {
    OthersKeepTheConsumer(t, step);
  }

  lemma {:induction false} DeletesOn(s: System, batch: seq<Envelope>, t: System)
    requires batch <= s.queue && Consuming(s, batch, t) && Enabled(t, DeleteNext) && Front(t) && Numbered(t)
    ensures Consuming(s, batch, Apply(t, DeleteNext))
  {
    if t.consumer.todo != [] {
      var n := |batch| - |t.consumer.todo|;
      DeleteTakesTheFirst(t);
      LosesOneMore(s, t, n, Deleting(t.consumer.todo[1..]));
      assert batch[n..][1..] == batch[n + 1..];
    }
  }

  lemma {:induction false} ConsumesOn(s: System, batch: seq<Envelope>, t: System, step: Step)
    requires batch <= s.queue && Consuming(s, batch, t) && Enabled(t, step) && !step.ConsumerCrash? && !t.consumer.Idle?
    requires Front(t) && Numbered(t)
    ensures Consuming(s, batch, Apply(t, step))
  {
    if !Consumes(step) {
      OthersConsume(s, batch, t, step);
    } else if step.DeleteNext? {
      DeletesOn(s, batch, t);
    } else {
      assert step.Retire?;
      assert batch[0..] == batch;
    }
  }

  lemma {:induction false} OthersConsume(s: System, batch: seq<Envelope>, t: System, step: Step)
    requires Consuming(s, batch, t) && Enabled(t, step) && !Consumes(step) && !t.consumer.Idle?
    ensures Consuming(s, batch, Apply(t, step))
  {
    OthersKeepTheConsumer(t, step);
    GainsMore(s, t, if t.consumer.Working? then 0 else |batch| - |t.consumer.todo|, step);
  }

  lemma {:induction false} StillConsuming(r: Run, i: nat, j: nat)
    requires IsRun(r) && i <= j < |r.states| && r.states[i].consumer.Working? && r.states[i].consumer.pc == B.Settled(B.Advance)
    requires forall m | i <= m < j :: !r.steps[m].ConsumerCrash? && !r.states[m].consumer.Idle?
    ensures Consuming(r.states[i], r.states[i].consumer.batch, r.states[j])
    decreases j
  {
    if i < j {
      StillConsuming(r, i, j - 1);
      assert Front(r.states[i]) by { ReachableFront(r, i); }
      assert Front(r.states[j - 1]) && Numbered(r.states[j - 1]) by { ReachableFront(r, j - 1); }
      assert Follows(r, j - 1);
      ConsumesOn(r.states[i], r.states[i].consumer.batch, r.states[j - 1], r.steps[j - 1]);
    } else {
      assert r.states[i].queue[0..] == r.states[i].queue;
    }
  }

  /** From the verdict Advance to the next time the consumer is idle, without a crash and whatever
      everybody else does: the queue has lost exactly the batch, the envelopes behind it are its
      front, in order, and a poll begins with the first of them. */
  lemma {:induction false} AdvancedBatchIsConsumed(r: Run, i: nat, j: nat)
    requires IsRun(r) && i < j < |r.states| && r.states[i].consumer.Working? && r.states[i].consumer.pc == B.Settled(B.Advance)
    requires forall m | i <= m < j :: !r.steps[m].ConsumerCrash? && !r.states[m].consumer.Idle?
    requires r.states[j].consumer.Idle?
    ensures var s, t := r.states[i], r.states[j];
            && s.consumer.batch <= s.queue && Lost(s, t, |s.consumer.batch|)
            && (forall e | e in s.consumer.batch :: e !in t.queue)
            && (|s.queue| > |s.consumer.batch| && Enabled(t, Poll) ==>
                  Apply(t, Poll).consumer.batch != [] && Apply(t, Poll).consumer.batch[0] == s.queue[|s.consumer.batch|])
  {
    var s, t := r.states[i], r.states[j];
    StillConsuming(r, i, j);
    ReachableFront(r, i);
    var batch := s.consumer.batch;
    forall e | e in batch ensures e !in t.queue { Behind(s, t, batch, e); }
    if |s.queue| > |batch| && Enabled(t, Poll) {
      assert s.queue[|batch|..][0] == s.queue[|batch|];
      assert t.queue[0] == s.queue[|batch|];
    }
  }

  lemma {:induction false} Behind(s: System, t: System, batch: seq<Envelope>, e: Envelope)
    requires batch <= s.queue && Numbered(s) && Lost(s, t, |batch|) && e in batch
    ensures e !in t.queue
  {
    var n := |batch|;
    var m :| 0 <= m < n && batch[m] == e;
    assert s.queue[m] == e;
    forall k | 0 <= k < |t.queue| ensures t.queue[k] != e {
      if k < |s.queue| - n { assert t.queue[k] == s.queue[n..][k] == s.queue[n + k]; }
    }
  }

  /** The consumer can always do so: behind every run that ends with the verdict Advance there is one
      that retires the batch, deletes it envelope by envelope and polls what was behind it. */
  lemma {:induction false} AdvanceConsumes(r: Run) returns (q: Run)
    requires IsRun(r) && F.Last(r).consumer.Working? && F.Last(r).consumer.pc == B.Settled(B.Advance)
    ensures F.Last(r).consumer.batch <= F.Last(r).queue
    ensures IsRun(q) && F.Continues(r, q) && |q.steps| == |r.steps| + |F.Last(r).consumer.batch| + 2
    ensures F.Last(q) == F.Last(r).(queue := F.Last(r).queue[|F.Last(r).consumer.batch|..], consumer := Idle)
  {
    ReachableFront(r, |r.states| - 1);
    q := F.Extend(r, Retire);
    q := DeletesAll(q);
  }

  lemma {:induction false} DeletesAll(r: Run) returns (q: Run)
    requires IsRun(r) && F.Last(r).consumer.Deleting?
    ensures F.Last(r).consumer.todo <= F.Last(r).queue
    ensures IsRun(q) && F.Continues(r, q) && |q.steps| == |r.steps| + |F.Last(r).consumer.todo| + 1
    ensures F.Last(q) == F.Last(r).(queue := F.Last(r).queue[|F.Last(r).consumer.todo|..], consumer := Idle)
    decreases |F.Last(r).consumer.todo|
  {
    var s := F.Last(r);
    ReachableFront(r, |r.states| - 1);
    q := F.Extend(r, DeleteNext);
    if s.consumer.todo != [] {
      DeleteTakesTheFirst(s);
      q := DeletesAll(q);
      assert s.queue[1..][|s.consumer.todo| - 1..] == s.queue[|s.consumer.todo|..];
    } else {
      assert s.queue[0..] == s.queue;
    }
  }

  /** A batch that is to be retried stays in the queue, and the next poll begins with it again. */
  lemma {:induction false} RetriedBatchStays(r: Run, i: nat)
    requires IsRun(r) && i < |r.steps| && r.steps[i].Retire? && Follows(r, i) && r.states[i].consumer.pc.verdict.Retry?
    ensures r.states[i + 1] == r.states[i].(consumer := Idle) && r.states[i].consumer.batch <= r.states[i].queue
    ensures r.states[i].consumer.batch != [] ==>
              Enabled(r.states[i + 1], Poll) && Apply(r.states[i + 1], Poll).consumer.batch[0] == r.states[i].consumer.batch[0]
  {
    ReachableFront(r, i);
  }
}
