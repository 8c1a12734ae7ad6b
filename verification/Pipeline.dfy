/**
 * The write pipeline as one state machine: any number of admissions in flight, one batch
 * consumer, the store, the FIFO queue and the append-only chain. Every shell operation is one
 * atomic step, a failed operation may or may not have taken effect, and an admission or the
 * consumer may die between any two steps.
 *
 * Sources: p256-index-cf/src/submitter.rs:171-215 (alarm), 436-442 (enqueue), 609-628 (poll and
 * delete), 734-948 (both effect executors).
 */
module Pipeline {
  import opened Basics
  import opened Tasks
  import St = Stores
  import A = Admissions
  import B = Submission

  const POLL_BATCH_SIZE: nat := 50

  datatype Envelope = Envelope(number: nat, taskId: string)

  datatype Consumer =
    | Idle
    | Working(batch: seq<Envelope>, pc: B.Pc)
    | Deleting(todo: seq<Envelope>)

  datatype System = System(
    now: nat,
    store: St.Store,
    chain: Chain,
    queue: seq<Envelope>,
    nextNumber: nat,
    issued: set<string>,             // task ids handed to requests so far
    born: set<string>,               // task ids that reached the store
    admissions: map<nat, A.Pc>,
    consumer: Consumer)

  datatype Step =
    | Tick(to: nat)
    | ChainGrows(grown: Chain)
    | Purge
    | Arrive(slot: nat, validated: Option<Task>)
    | AdmissionStep(slot: nat, reply: A.Answer, applied: bool)
    | AdmissionGone(slot: nat)
    | Poll
    | ConsumerStep(answer: B.Answer, applied: bool)
    | Retire
    | DeleteNext
    | ConsumerCrash

  function Init(now: nat, chain: Chain): System {
    System(now, St.EMPTY, chain, [], 0, {}, {}, map[], Idle)
  }

  // ── The shell under the admission program ────────────────────────────────

  /** What an operation does to the tables when it takes effect. */
  function AdmissionEffect(s: System, operation: A.Operation): System {
    match operation
    case Admit(task) =>
      var r := St.Admit(s.store, task, s.now);
      s.(store := r.0, born := if r.1.New? then s.born + {task.id} else s.born)
    case RecordRetryDigest(digest, id) => s.(store := St.RecordRetryDigest(s.store, digest, id, s.now))
    case Enqueue(task) => s.(queue := s.queue + [Envelope(s.nextNumber, task.id)], nextNumber := s.nextNumber + 1)
    case MarkAdmitted(id) => s.(store := St.MarkAdmitted(s.store, id, s.now).0)
    case _ => s
  }

  /** An answer that reports something reports the truth; any other answer is possible. */
  predicate AdmissionTruth(s: System, operation: A.Operation, answer: A.Answer, applied: bool) {
    match operation
    case FindTaskByContent(hash) => answer.TaskFound? ==> answer.task == St.FindByContent(s.store, hash, s.now)
    case FindTaskByRetryDigest(digest) => answer.TaskFound? ==> answer.task == St.FindByRetryDigest(s.store, digest, s.now)
    case FindTaskByKey(key) => answer.TaskFound? ==> answer.task == St.FindByKey(s.store, key, s.now)
    case LoadTask(id) => answer.TaskFound? ==> answer.task == St.GetTask(s.store, id, s.now)
    case CheckContentRegistered(hash) => answer.ChainBool? ==> answer.value == (hash in s.chain.units)
    case CheckReferenced(group, member) => answer.ChainBool? ==> answer.value == Referenced(s.chain, group, member)
    case Admit(task) => answer.Admitted? ==> applied && answer.admission == St.Admit(s.store, task, s.now).1
    case Enqueue(_) => answer.Enqueued? ==> applied
    case MarkAdmitted(id) => answer.TaskFound? ==> applied && answer.task == St.MarkAdmitted(s.store, id, s.now).1
    case _ => true
  }

  // ── The shell under the batch program ────────────────────────────────────

  function ConsumerEffect(s: System, operation: B.Operation): System {
    match operation
    case MarkDone(id, txHash, onChainId) => s.(store := St.MarkDone(s.store, id, txHash, onChainId, s.now))
    case MarkFailed(id, note) => s.(store := St.MarkFailed(s.store, id, note, s.now))
    case RecordTransientFailure(id, note) => s.(store := St.RecordTransientFailure(s.store, id, note, s.now))
    case _ => s
  }

  function Loaded(s: System, ids: seq<string>): seq<Option<Task>> {
    seq(|ids|, i requires 0 <= i < |ids| => St.GetTask(s.store, ids[i], s.now))
  }

  /** A confirmed receipt means the contract took the write. */
  predicate ConsumerTruth(s: System, operation: B.Operation, answer: B.Answer, applied: bool) {
    match operation
    case LoadTasks(ids) => answer.TasksLoaded? ==> answer.tasks == Loaded(s, ids)
    case CheckContentRegistered(hash) => answer.ContentChecked? ==> answer.registered == (hash in s.chain.units)
    case CheckReferenced(group, member) =>
      answer.ContentChecked? ==> answer.registered == Referenced(s.chain, group, member)
    case SubmitRegister(task) => answer.Tx? && answer.outcome.Confirmed? ==> OnChain(s.chain, task)
    case _ => answer.Persisted? ==> applied
  }

  // ── Steps ────────────────────────────────────────────────────────────────

  function Ids(batch: seq<Envelope>): seq<string> {
    seq(|batch|, i requires 0 <= i < |batch| => batch[i].taskId)
  }

  function Head(queue: seq<Envelope>): seq<Envelope> {
    if |queue| <= POLL_BATCH_SIZE then queue else queue[..POLL_BATCH_SIZE]
  }

  function Remove(queue: seq<Envelope>, number: nat): seq<Envelope> {
    if queue == [] then []
    else if queue[0].number == number then Remove(queue[1..], number)
    else [queue[0]] + Remove(queue[1..], number)
  }

  /** A request enters with a fresh id and a validated record, or already refused. */
  predicate MayArrive(s: System, validated: Option<Task>) {
    validated.Some? ==>
      && validated.value.id !in s.issued
      && St.Admissible(validated.value)
      && (validated.value.kind.Refer? ==> validated.value.members != [])
  }

  predicate Enabled(s: System, step: Step) {
    match step
    case Tick(to) => s.now <= to
    case ChainGrows(grown) => Grows(s.chain, grown)
    case Purge => true
    case Arrive(slot, validated) => slot !in s.admissions && MayArrive(s, validated)
    case AdmissionStep(slot, reply, applied) =>
      && slot in s.admissions && !s.admissions[slot].Settled? && A.WellFormed(s.admissions[slot])
      && AdmissionTruth(s, A.Request(s.admissions[slot]), reply, applied)
    case AdmissionGone(slot) => slot in s.admissions
    case Poll => s.consumer.Idle? && s.queue != []
    case ConsumerStep(answer, applied) =>
      && s.consumer.Working? && !s.consumer.pc.Settled? && B.WellFormed(s.consumer.pc)
      && ConsumerTruth(s, B.Request(s.consumer.pc), answer, applied)
    case Retire => s.consumer.Working? && s.consumer.pc.Settled?
    case DeleteNext => s.consumer.Deleting?
    case ConsumerCrash => true
  }

  function AfterAdmission(s: System, slot: nat, reply: A.Answer, applied: bool): System
    requires slot in s.admissions && !s.admissions[slot].Settled? && A.WellFormed(s.admissions[slot])
  {
    var t := if applied then AdmissionEffect(s, A.Request(s.admissions[slot])) else s;
    t.(admissions := t.admissions[slot := A.Resume(s.admissions[slot], reply)])
  }

  function AfterConsumer(s: System, answer: B.Answer, applied: bool): System
    requires s.consumer.Working? && !s.consumer.pc.Settled? && B.WellFormed(s.consumer.pc)
  {
    var t := if applied then ConsumerEffect(s, B.Request(s.consumer.pc)) else s;
    t.(consumer := Working(s.consumer.batch, B.Resume(s.consumer.pc, answer)))
  }

  function Apply(s: System, step: Step): System
    requires Enabled(s, step)
  {
    match step
    case Tick(to) => s.(now := to)
    case ChainGrows(grown) => s.(chain := grown)
    case Purge => s.(store := St.Purge(s.store, s.now))
    case Arrive(slot, validated) =>
      s.(admissions := s.admissions[slot := A.Start(validated)],
         issued := if validated.Some? then s.issued + {validated.value.id} else s.issued)
    case AdmissionStep(slot, reply, applied) => AfterAdmission(s, slot, reply, applied)
    case AdmissionGone(slot) => s.(admissions := s.admissions - {slot})
    case Poll => s.(consumer := Working(Head(s.queue), B.Start(Ids(Head(s.queue)))))
    case ConsumerStep(answer, applied) => AfterConsumer(s, answer, applied)
    case Retire => s.(consumer := if s.consumer.pc.verdict.Advance? then Deleting(s.consumer.batch) else Idle)
    case DeleteNext =>
      if s.consumer.todo == [] then s.(consumer := Idle)
      else s.(queue := Remove(s.queue, s.consumer.todo[0].number), consumer := Deleting(s.consumer.todo[1..]))
    case ConsumerCrash => s.(consumer := Idle)
  }

  // ── The invariant ────────────────────────────────────────────────────────

  predicate Enveloped(s: System, id: string) {
    exists i | 0 <= i < |s.queue| :: s.queue[i].taskId == id
  }

  /** The task is over, or an envelope will bring it back to the consumer. */
  predicate Covered(s: System, id: string) {
    St.Over(s.store, id) || Enveloped(s, id)
  }

  predicate Increasing(queue: seq<Envelope>) {
    forall i, j | 0 <= i < j < |queue| :: queue[i].number < queue[j].number
  }

  predicate Numbered(s: System) {
    (forall i | 0 <= i < |s.queue| :: s.queue[i].number < s.nextNumber) && Increasing(s.queue)
  }

  /** Envelopes name admitted tasks, and a task marked admitted has an envelope until it is over. */
  predicate QueueOk(s: System) {
    && Numbered(s)
    && (forall i | 0 <= i < |s.queue| :: s.queue[i].taskId in s.born)
    && (forall id | id in s.store.tasks :: s.store.tasks[id].task.admitted ==> Covered(s, id))
  }

  /** The admitted task this request now works on, and whether it must already be covered. */
  function Names(pc: A.Pc): Option<string> {
    match pc
    case NotingDigest(task) => Some(task.id)
    case LoadingExisting(id) => Some(id)
    case Enqueuing(task) => Some(task.id)
    case Marking(id) => Some(id)
    case Settled(Queued(id, _)) => Some(id)
    case _ => None
  }

  predicate AdmissionOk(s: System, pc: A.Pc) {
    && A.ReferHasMember(pc)
    && (A.Unborn(pc).Some? ==>
          && A.Unborn(pc).value.id in s.issued && A.Unborn(pc).value.id !in s.born
          && St.Admissible(A.Unborn(pc).value))
    && (Names(pc).Some? ==> Names(pc).value in s.born)
    && (Names(pc).Some? && (pc.Marking? || pc.Settled?) ==> Covered(s, Names(pc).value))
  }

  predicate AdmissionsOk(s: System) {
    && (forall k | k in s.admissions :: AdmissionOk(s, s.admissions[k]))
    && (forall k, m | k in s.admissions && m in s.admissions && k != m ::
          A.Unborn(s.admissions[k]).Some? && A.Unborn(s.admissions[m]).Some? ==>
            A.Unborn(s.admissions[k]).value.id != A.Unborn(s.admissions[m]).value.id)
  }

  /** An envelope the consumer holds: its number names it, and nothing else, in the queue. */
  predicate Held(s: System, e: Envelope) {
    && e.taskId in s.born && e.number < s.nextNumber
    && forall i | 0 <= i < |s.queue| :: s.queue[i].number == e.number ==> s.queue[i] == e
  }

  /** A task the consumer still owes an outcome is active and is the write the consumer loaded. */
  predicate Owed(s: System, task: Task) {
    St.Active(s.store, task.id) && SameWrite(s.store.tasks[task.id].task, task)
  }

  predicate Listed(tasks: seq<Task>, id: string) {
    exists i | 0 <= i < |tasks| :: tasks[i].id == id
  }

  predicate WorkOk(s: System, batch: seq<Envelope>, pc: B.Pc) {
    && B.WellFormed(pc) && B.DistinctIds(B.Pending(pc))
    && (pc.Loading? ==> pc.ids == Ids(batch))
    && (forall i | 0 <= i < |B.Pending(pc)| :: Owed(s, B.Pending(pc)[i]) && B.Pending(pc)[i].id in Ids(batch))
    && (pc.Persisting? && pc.operation.MarkDone? ==> OnChain(s.chain, pc.task))
    && (!pc.Loading? && !(pc.Settled? && pc.verdict.Retry?) ==>
          forall i | 0 <= i < |batch| :: St.Over(s.store, batch[i].taskId) || Listed(B.Pending(pc), batch[i].taskId))
  }

  predicate ConsumerOk(s: System) {
    match s.consumer
    case Idle => true
    case Working(batch, pc) => (forall i | 0 <= i < |batch| :: Held(s, batch[i])) && WorkOk(s, batch, pc)
    case Deleting(todo) => forall i | 0 <= i < |todo| :: Held(s, todo[i]) && St.Over(s.store, todo[i].taskId)
  }

  predicate Inv(s: System) {
    && St.StoreOk(s.store, s.now, s.chain, s.born)
    && s.born <= s.issued
    && QueueOk(s)
    && AdmissionsOk(s)
    && ConsumerOk(s)
  }

  // ── What one step may change ─────────────────────────────────────────────

  /** The guarantee of every step towards everybody else. */
  predicate Evolves(s: System, t: System) {
    && s.now <= t.now && Grows(s.chain, t.chain)
    && s.born <= t.born && s.issued <= t.issued && s.nextNumber <= t.nextNumber
    && (forall id | id in s.born :: St.RowEvolves(s.store, t.store, id))
    && (forall id | id in s.born :: Covered(s, id) ==> Covered(t, id))
    && (forall i | 0 <= i < |t.queue| :: t.queue[i].number < s.nextNumber ==> t.queue[i] in s.queue)
  }

  /** Steps that are not the consumer's own also leave every active task as it is. */
  predicate Rests(s: System, t: System) {
    forall id | id in s.born :: St.RowRests(s.store, t.store, id)
  }
}
