/**
 * One task record in Redis, where a transition is a read and a later write
 * (p256-index-server/src/store.rs:244-337, 546-624). Any number of admissions may be inside
 * mark_admitted, one worker transitions the record, and anybody may die or lose an answer
 * between any two commands.
 */
module RedisRace {
  import opened Basics
  import opened Tasks
  import St = Stores

  /** A transition the worker performs. */
  datatype Job =
    | Finish(txHash: Option<string>, onChainId: Option<nat>)
    | Refuse(note: Note)
    | Defer(note: Note)

  datatype Worker =
    | Idle
    | Owing                            // loaded a non-terminal record, owes it one transition
    | Holding(job: Job, read: Task)    // between the transition's read and its write

  datatype Marker =
    | Entering
    | Swapping(read: Task)

  datatype World = World(
    record: Option<Task>,
    expiring: bool,
    enqueued: bool,
    markers: map<nat, Marker>,
    worker: Worker)

  datatype Step =
    | Enqueue
    | MarkBegins(slot: nat)
    | MarkReads(slot: nat)
    | MarkSwaps(slot: nat)
    | MarkDies(slot: nat)
    | WorkerLoads
    | WorkerReads(job: Job)
    | WorkerWrites(applied: bool)
    | WorkerDies
    | RecordExpires

  /** What the worker writes back, from the record it read. */
  function Outcome(job: Job, task: Task): Task {
    match job
    case Finish(txHash, onChainId) => St.AsDone(task, txHash, onChainId)
    case Refuse(note) => St.AsFailed(task, note)
    case Defer(note) => St.AsRetried(task, note)
  }

  predicate Enabled(w: World, step: Step) {
    match step
    case Enqueue => true
    case MarkBegins(slot) => w.enqueued && slot !in w.markers
    case MarkReads(slot) => slot in w.markers && w.markers[slot].Entering?
    case MarkSwaps(slot) => slot in w.markers && w.markers[slot].Swapping?
    case MarkDies(slot) => slot in w.markers
    case WorkerLoads => w.worker.Idle? && w.enqueued
    case WorkerReads(_) => w.worker.Owing?
    case WorkerWrites(_) => w.worker.Holding?
    case WorkerDies => true
    case RecordExpires => w.expiring
  }

  function Apply(w: World, step: Step): World
    requires Enabled(w, step)
  {
    match step
    case Enqueue => w.(enqueued := true)
    case MarkBegins(slot) => w.(markers := w.markers[slot := Entering])
    case MarkReads(slot) =>
      if w.record.None? || w.record.value.status.Terminal() then w.(markers := w.markers - {slot})
      else w.(markers := w.markers[slot := Swapping(w.record.value)])
    case MarkSwaps(slot) =>
      // SET … KEEPTTL, only if the record still reads as it did
      var read := w.markers[slot].read;
      w.(record := if w.record == Some(read) then Some(read.(admitted := true)) else w.record,
         markers := w.markers - {slot})
    case MarkDies(slot) => w.(markers := w.markers - {slot})
    case WorkerLoads => w.(worker := if w.record.Some? && !w.record.value.status.Terminal() then Owing else Idle)
    case WorkerReads(job) =>
      if w.record.None? || (job.Defer? && w.record.value.status.Terminal()) then w.(worker := Idle)
      else w.(worker := Holding(job, w.record.value))
    case WorkerWrites(applied) =>
      if !applied then w.(worker := Idle)
      else
        var task := Outcome(w.worker.job, w.worker.read);
        w.(record := Some(task), expiring := task.status.Terminal(), worker := Idle)
    case WorkerDies => w.(worker := Idle)
    case RecordExpires => w.(record := None, expiring := false)
  }

  function Init(task: Task): World { World(Some(task), false, false, map[], Idle) }

  // ── The invariant ────────────────────────────────────────────────────────

  /** A record has a TTL exactly when it is terminal, is marked only after it was enqueued, and
      has retries left while it is not terminal. */
  predicate RecordOk(w: World) {
    && (w.record.None? ==> !w.expiring)
    && (w.record.Some? ==>
          && (w.record.value.status.Terminal() <==> w.expiring)
          && (w.record.value.admitted ==> w.enqueued)
          && (!w.record.value.status.Terminal() ==> w.record.value.retries < St.RETRY_BUDGET))
  }

  predicate MarkersOk(w: World) {
    && (w.markers != map[] ==> w.enqueued)
    && forall k | k in w.markers :: w.markers[k].Swapping? ==> !w.markers[k].read.status.Terminal()
  }

  /** While the worker owes the record a transition nobody else ends it, and between its read and
      its write only the admitted mark can have changed, and only upwards. */
  predicate WorkerOk(w: World) {
    && (!w.worker.Idle? ==> w.enqueued && w.record.Some? && !w.record.value.status.Terminal())
    && (w.worker.Holding? ==>
          w.record.value == w.worker.read || w.record.value == w.worker.read.(admitted := true))
  }

  predicate Inv(w: World) { RecordOk(w) && MarkersOk(w) && WorkerOk(w) }

  lemma {:induction false} StepKeepsInv(w: World, step: Step)
    requires Inv(w) && Enabled(w, step)
    ensures Inv(Apply(w, step))
  {
    if step.MarkReads? || step.MarkSwaps? { assert w.markers != map[]; }
  }

  // ── Single steps ─────────────────────────────────────────────────────────

  /** Whoever moves, a terminal record stays as it is, TTL included, until it expires. */
  lemma {:induction false} TerminalStays(w: World, step: Step)
    requires Inv(w) && Enabled(w, step) && w.record.Some? && w.record.value.status.Terminal()
    ensures var t := Apply(w, step);
            if step.RecordExpires? then t.record.None? else t.record == w.record && t.expiring
  {}

  /** The step in which the mark is lost: the worker writes back a record that it read before the
      mark and that does not set it itself. */
  predicate OverwritesTheMark(w: World, step: Step) {
    && step.WorkerWrites? && step.applied && w.worker.Holding? && !w.worker.job.Finish?
    && w.record.Some? && w.record.value.admitted && !w.worker.read.admitted
  }

  /** The mark is lost exactly there. */
  lemma {:induction false} MarkIsLostExactly(w: World, step: Step)
    requires Inv(w) && Enabled(w, step) && w.record.Some? && w.record.value.admitted
    ensures OverwritesTheMark(w, step) <==> Apply(w, step).record.Some? && !Apply(w, step).record.value.admitted
  {}

  // ── Runs ─────────────────────────────────────────────────────────────────

  datatype Run = Run(states: seq<World>, steps: seq<Step>)

  predicate Follows(r: Run, i: nat)
    requires i < |r.steps| && |r.states| == |r.steps| + 1
  {
    Enabled(r.states[i], r.steps[i]) && r.states[i + 1] == Apply(r.states[i], r.steps[i])
  }

  /** A run starts where the admission left a new record. */
  predicate IsRun(r: Run, task: Task) {
    && |r.states| == |r.steps| + 1
    && St.Admissible(task) && r.states[0] == Init(task)
    && (forall i | 0 <= i < |r.steps| :: Follows(r, i))
  }

  lemma {:induction false} ReachableOk(r: Run, task: Task, i: nat)
    requires IsRun(r, task) && i < |r.states|
    ensures Inv(r.states[i])
  {
    if i > 0 {
      ReachableOk(r, task, i - 1);
      assert Follows(r, i - 1);
      StepKeepsInv(r.states[i - 1], r.steps[i - 1]);
    }
  }

  /** A terminal status is final over the whole run, although no transition checks for one. */
  lemma {:induction false} TerminalIsFinal(r: Run, task: Task, i: nat, j: nat)
    requires IsRun(r, task) && i <= j < |r.states|
    requires r.states[i].record.Some? && r.states[i].record.value.status.Terminal()
    ensures r.states[j].record.None? || (r.states[j].record == r.states[i].record && r.states[j].expiring)
    decreases j
  {
    ReachableOk(r, task, j);
    if i < j {
      TerminalIsFinal(r, task, i, j - 1);
      ReachableOk(r, task, j - 1);
      assert Follows(r, j - 1);
      if r.states[j - 1].record.Some? {
        TerminalStays(r.states[j - 1], r.steps[j - 1]);
      } else {
        GoneStaysGone(r.states[j - 1], r.steps[j - 1]);
      }
    }
  }

  lemma {:induction false} GoneStaysGone(w: World, step: Step)
    requires Inv(w) && Enabled(w, step) && w.record.None?
    ensures Apply(w, step).record.None?
  {}

  /** A record that says it was admitted has an envelope. */
  lemma {:induction false} AdmittedMeansEnqueued(r: Run, task: Task, i: nat)
    requires IsRun(r, task) && i < |r.states|
    requires r.states[i].record.Some? && r.states[i].record.value.admitted
    ensures exists k | 0 <= k < i :: r.steps[k].Enqueue?
  {
    ReachableOk(r, task, i);
    EnqueuedByAStep(r, task, i);
  }

  lemma {:induction false} EnqueuedByAStep(r: Run, task: Task, i: nat)
    requires IsRun(r, task) && i < |r.states| && r.states[i].enqueued
    ensures exists k | 0 <= k < i :: r.steps[k].Enqueue?
  {
    if i > 0 {
      assert Follows(r, i - 1);
      if r.states[i - 1].enqueued { EnqueuedByAStep(r, task, i - 1); }
    }
  }

  /** If the mark is there at i and a later record lacks it, a write from a stale read came in
      between; without one the mark stays as long as the record. */
  lemma {:induction false} LostMarkHasACulprit(r: Run, task: Task, i: nat, j: nat)
    requires IsRun(r, task) && i <= j < |r.states|
    requires r.states[i].record.Some? && r.states[i].record.value.admitted
    requires r.states[j].record.Some? && !r.states[j].record.value.admitted
    ensures exists k | i <= k < j :: OverwritesTheMark(r.states[k], r.steps[k])
    decreases j
  {
    if i < j {
      ReachableOk(r, task, j - 1);
      assert Follows(r, j - 1);
      if r.states[j - 1].record.None? {
        GoneStaysGone(r.states[j - 1], r.steps[j - 1]);
      } else if r.states[j - 1].record.value.admitted {
        MarkIsLostExactly(r.states[j - 1], r.steps[j - 1]);
      } else {
        LostMarkHasACulprit(r, task, i, j - 1);
      }
    }
  }

  /** The race is real: from any new record there is a run that marks it and loses the mark. */
  lemma {:induction false} MarkCanBeLost(task: Task, note: Note) returns (r: Run)
    requires St.Admissible(task)
    ensures IsRun(r, task)
    ensures exists i, j | 0 <= i < j < |r.states| ::
              && r.states[i].record.Some? && r.states[i].record.value.admitted
              && r.states[j].record.Some? && !r.states[j].record.value.admitted
  {
    var steps := [Enqueue, WorkerLoads, WorkerReads(Defer(note)), MarkBegins(0), MarkReads(0), MarkSwaps(0), WorkerWrites(true)];
    var w0 := Init(task);
    var w1 := Apply(w0, steps[0]);
    var w2 := Apply(w1, steps[1]);
    var w3 := Apply(w2, steps[2]);
    var w4 := Apply(w3, steps[3]);
    var w5 := Apply(w4, steps[4]);
    var w6 := Apply(w5, steps[5]);
    var w7 := Apply(w6, steps[6]);
    r := Run([w0, w1, w2, w3, w4, w5, w6, w7], steps);
    assert r.states[6].record.value.admitted && !r.states[7].record.value.admitted;
  }

  // ── No transition is lost ────────────────────────────────────────────────

  /** How many transitions the worker has written by state n. */
  function Written(r: Run, n: nat): nat
    requires n <= |r.steps|
  {
    if n == 0 then 0 else Written(r, n - 1) + (if r.steps[n - 1] == WorkerWrites(true) then 1 else 0)
  }

  /** A mark never undoes a transition: while the record is not terminal its retry counter is
      exactly the number of transitions written, and there are never more than the budget. */
  lemma {:induction false} RetriesCountTheWrites(r: Run, task: Task, n: nat)
    requires IsRun(r, task) && n <= |r.steps|
    ensures Written(r, n) <= St.RETRY_BUDGET
    ensures var record := r.states[n].record;
            record.Some? && !record.value.status.Terminal() ==> record.value.retries == Written(r, n)
  {
    if n > 0 {
      RetriesCountTheWrites(r, task, n - 1);
      ReachableOk(r, task, n - 1);
      assert Follows(r, n - 1);
    }
  }

  /** The write itself is never touched: whatever races, the record is the admitted write. */
  lemma {:induction false} RecordKeepsTheWrite(r: Run, task: Task, n: nat)
    requires IsRun(r, task) && n < |r.states|
    ensures r.states[n].record.Some? ==> SameWrite(r.states[n].record.value, task)
  {
    if n > 0 {
      RecordKeepsTheWrite(r, task, n - 1);
      ReachableOk(r, task, n - 1);
      assert Follows(r, n - 1);
    }
  }
}
