/**
 * Failed is a statement about the pipeline, not about the chain: a write whose receipts stayed
 * uncertain ends Failed when its retries are spent, and may land afterwards
 * (p256-registrar/src/submission.rs:362-388, 433-478; p256-index-cf/src/submitter.rs:485-511).
 */
module FailedWrites {
  import opened Basics
  import opened Tasks
  import E = ChainErrors
  import St = Stores
  import B = Submission
  import opened Pipeline
  import opened PipelineRuns

  function Last(r: Run): System
    requires r.states != []
  {
    r.states[|r.states| - 1]
  }

  predicate Continues(r: Run, q: Run) { r.states <= q.states && r.steps <= q.steps }

  lemma {:induction false} Extend(r: Run, step: Step) returns (q: Run)
    requires IsRun(r) && Enabled(Last(r), step)
    ensures IsRun(q) && Continues(r, q) && Last(q) == Apply(Last(r), step) && |q.steps| == |r.steps| + 1
  {
    q := Run(r.states + [Apply(Last(r), step)], r.steps + [step]);
    assert q.states[0] == r.states[0];
    forall i | 0 <= i < |q.steps| ensures Follows(q, i) {
      if i < |r.steps| { assert Follows(r, i); }
    }
  }

  /** The head of the queue is a task whose write is not on the chain. */
  predicate Waits(s: System, id: string) {
    && s.queue != [] && s.queue[0].taskId == id && St.Active(s.store, id)
    && !OnChain(s.chain, s.store.tasks[id].task)
  }

  const LOST: E.ChainError := E.Unavailable

  lemma {:induction false} LoadedFirst(s: System, id: string) returns (rest: seq<Task>)
    requires St.StoreOk(s.store, s.now, s.chain, s.born) && Waits(s, id)
    ensures B.Begin(B.Canonical(Loaded(s, Ids(Head(s.queue))), {})) == B.Checking(s.store.tasks[id].task, rest, B.Reconcile)
  {
    var ids, task := Ids(Head(s.queue)), s.store.tasks[id].task;
    St.ActiveRow(s.store, id, s.now, s.chain, s.born);
    assert St.Backed(task, s.chain);
    var loaded := Loaded(s, ids);
    assert ids[0] == id && loaded[0] == Some(task);
    rest := B.Canonical(loaded[1..], {} + {task.id});
    assert B.Canonical(loaded, {}) == [task] + rest;
  }

  /** The consumer has the task in hand and is about to send it. */
  predicate Sends(s: System, id: string) {
    && s.consumer.Working? && s.consumer.pc.Submitting? && B.WellFormed(s.consumer.pc)
    && Waits(s, id) && s.consumer.pc.task == s.store.tasks[id].task && s.consumer.pc.task.id == id
  }

  lemma {:induction false} AbsentIsAnswered(s: System, task: Task)
    requires B.CheckFor(task).Some? && !OnChain(s.chain, task)
    ensures ConsumerTruth(s, B.CheckFor(task).value, B.ContentChecked(false), false)
  {}

  /** The consumer starts over with the head of the queue. */
  lemma {:induction false} StartsOver(r: Run) returns (q: Run)
    requires IsRun(r) && Last(r).queue != []
    ensures IsRun(q) && Continues(r, q)
    ensures Last(q) == Last(r).(consumer := Working(Head(Last(r).queue), B.Loading(Ids(Head(Last(r).queue)))))
  {
    q := Extend(r, ConsumerCrash);
    q := Extend(q, Poll);
    assert Ids(Head(Last(r).queue)) != [];
  }

  lemma {:induction false} LoadsIt(r: Run, id: string) returns (q: Run, rest: seq<Task>)
    requires IsRun(r) && Waits(Last(r), id)
    requires Last(r).consumer == Working(Head(Last(r).queue), B.Loading(Ids(Head(Last(r).queue))))
    ensures IsRun(q) && Continues(r, q)
    ensures Last(q) == Last(r).(consumer := Working(Head(Last(r).queue), B.Checking(Last(r).store.tasks[id].task, rest, B.Reconcile)))
  {
    var s := Last(r);
    assert St.StoreOk(s.store, s.now, s.chain, s.born) by { ReachableOk(r, |r.states| - 1); }
    rest := LoadedFirst(s, id);
    q := Extend(r, ConsumerStep(B.TasksLoaded(Loaded(s, Ids(Head(s.queue)))), false));
  }

  lemma {:induction false} FindsItMissing(r: Run, id: string) returns (q: Run)
    requires IsRun(r) && Waits(Last(r), id) && Last(r).consumer.Working?
    requires Last(r).consumer.pc.Checking? && Last(r).consumer.pc.stage.Reconcile?
    requires Last(r).consumer.pc.task == Last(r).store.tasks[id].task
    ensures IsRun(q) && Continues(r, q) && Sends(Last(q), id)
    ensures Last(q) == Last(r).(consumer := Last(q).consumer)
  {
    var s := Last(r);
    var task := s.store.tasks[id].task;
    assert St.RowShape(id, s.store.tasks[id]) && B.WellFormed(s.consumer.pc) by { ReachableOk(r, |r.states| - 1); }
    AbsentIsAnswered(s, task);
    q := Extend(r, ConsumerStep(B.ContentChecked(false), false));
  }

  /** The consumer starts over, loads its batch and finds the write missing. */
  lemma {:induction false} ComesToSend(r: Run, id: string) returns (q: Run)
    requires IsRun(r) && Waits(Last(r), id)
    ensures IsRun(q) && Continues(r, q) && Sends(Last(q), id)
    ensures Last(q) == Last(r).(consumer := Last(q).consumer)
  {
    var rest;
    q := StartsOver(r);
    q, rest := LoadsIt(q, id);
    q := FindsItMissing(q, id);
  }

  /** One more send whose receipt stays uncertain. */
  lemma {:induction false} LosesAReceipt(r: Run, id: string) returns (q: Run)
    requires IsRun(r) && Sends(Last(r), id)
    ensures IsRun(q) && Continues(r, q)
    ensures var s := Last(r);
            && Last(q) == s.(store := Last(q).store, consumer := Last(q).consumer)
            && Last(q).store == St.RecordTransientFailure(s.store, id, WriteFailed(LOST), s.now)
  {
    q := Extend(r, ConsumerStep(B.Tx(B.ReceiptUncertain(LOST)), false));
    q := Extend(q, ConsumerStep(B.Persisted, true));
  }

  lemma {:induction false} RetriedRow(s: System, id: string)
    requires St.StoreOk(s.store, s.now, s.chain, s.born) && St.Active(s.store, id)
    ensures var t := St.RecordTransientFailure(s.store, id, WriteFailed(LOST), s.now);
            && id in t.tasks && SameWrite(s.store.tasks[id].task, t.tasks[id].task)
            && (t.tasks[id].task.status.Failed? || St.Active(t, id)) && St.Budget(t, id) < St.Budget(s.store, id)
            && OnChain(s.chain, t.tasks[id].task) == OnChain(s.chain, s.store.tasks[id].task)
  {
    St.ActiveRow(s.store, id, s.now, s.chain, s.born);
    St.RecordTransientFailureEffect(s.store, id, WriteFailed(LOST), s.now, s.chain, s.born);
    var t := St.RecordTransientFailure(s.store, id, WriteFailed(LOST), s.now);
    St.SameWriteSameChain(s.store.tasks[id].task, t.tasks[id].task, s.chain);
  }

  /** Rounds of uncertain receipts spend the budget. */
  lemma {:induction false} SpendsItsRetries(r: Run, id: string) returns (q: Run)
    requires IsRun(r) && Waits(Last(r), id)
    ensures IsRun(q) && Continues(r, q)
    ensures id in Last(q).store.tasks && Last(q).store.tasks[id].task.status.Failed?
    ensures SameWrite(Last(r).store.tasks[id].task, Last(q).store.tasks[id].task)
    decreases St.Budget(Last(r).store, id)
  {
    var s := Last(r);
    assert St.StoreOk(s.store, s.now, s.chain, s.born) by { ReachableOk(r, |r.states| - 1); }
    RetriedRow(s, id);
    q := ComesToSend(r, id);
    q := LosesAReceipt(q, id);
    if !Last(q).store.tasks[id].task.status.Failed? { q := SpendsItsRetries(q, id); }
  }

  function Landing(chain: Chain, task: Task): Chain
    requires task.kind.Refer? ==> task.members != []
  {
    match task.kind
    case Register => chain.(units := chain.units + {task.contentHash})
    case Refer => chain.(references := chain.references + {(task.groupKey, task.members[0].publicKey)})
  }

  lemma {:induction false} Lands(chain: Chain, task: Task)
    requires ContentHash(task) == Some(task.contentHash)
    ensures task.kind.Refer? ==> task.members != []
    ensures Grows(chain, Landing(chain, task)) && OnChain(Landing(chain, task), task)
  {
    if task.kind.Refer? { assert task.members[0] in task.members; }
  }

  /** Whatever happened before, if the head of the queue is a task whose write is not on the chain,
      the run can go on so that the task is reported Failed and its write is on the chain. */
  lemma {:induction false} FailedMayStillLand(r: Run, id: string) returns (q: Run)
    requires IsRun(r) && Waits(Last(r), id)
    ensures IsRun(q) && Continues(r, q)
    ensures id in Last(q).store.tasks && Last(q).store.tasks[id].task.status.Failed?
    ensures SameWrite(Last(r).store.tasks[id].task, Last(q).store.tasks[id].task)
    ensures OnChain(Last(q).chain, Last(q).store.tasks[id].task)
  {
    q := SpendsItsRetries(r, id);
    var s := Last(q);
    assert St.Backed(s.store.tasks[id].task, s.chain) by { ReachableOk(q, |q.states| - 1); }
    Lands(s.chain, s.store.tasks[id].task);
    q := Extend(q, ChainGrows(Landing(s.chain, s.store.tasks[id].task)));
  }
}
