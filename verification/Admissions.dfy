/**
 * The admission program as a coroutine (p256-registrar/src/admission.rs:340-565): validation
 * has already built the task, or refused the request. AdmissionProgram.dfy holds the
 * imperative form and its refinement to this machine.
 */
module Admissions {
  import opened Basics
  import opened Tasks
  import opened RetryDigests
  import Stores

  const MAX_ACTIVE_QUEUE_DEPTH: nat := 10_000

  datatype Operation =
    | AllowIpCreate
    | FindTaskByContent(contentHash: Digest)
    | FindTaskByRetryDigest(digest: Stores.RetryKey)
    | RecordRetryDigest(digest: Stores.RetryKey, taskId: string)
    | CheckContentRegistered(contentHash: Digest)
    | CheckReferenced(groupKey: Hex, memberKey: Hex)
    | CheckGroupExists(groupKey: Hex)
    | FindTaskByKey(publicKey: Hex)
    | QueueDepth
    | AllowGlobalCreate
    | Admit(task: Task)
    | LoadTask(id: string)
    | Enqueue(task: Task)
    | MarkAdmitted(id: string)

  datatype Answer =
    | Allowed(allowed: bool)
    | TaskFound(task: Option<Task>)
    | ChainBool(value: bool)
    | ChainReadFailed
    | Depth(depth: nat)
    | Admitted(admission: Stores.Admission)
    | Enqueued
    | QueueUnavailable
    | Persisted
    | StoreUnavailable

  datatype Dependency = Redis | Queue

  datatype Outcome =
    | Invalid
    | RateLimited
    | Queued(id: string, status: Status)
    | AlreadyRegistered(contentHash: Digest)
    | ReferGroupMissing
    | Busy
    | DependencyUnavailable(dependency: Dependency)

  datatype Pc =
    | AskingIp(task: Task)
    | FindingContent(task: Task)
    | FindingDigest(task: Task)
    | Prechecking(task: Task)
    | FindingGroup(task: Task)
    | FindingRegister(task: Task)
    | AskingDepth(task: Task)
    | AskingGlobal(task: Task)
    | Admitting(task: Task)
    | NotingDigest(admitted: Task)
    | LoadingExisting(id: string)
    | Enqueuing(known: Task)
    | Marking(id: string)
    | Settled(outcome: Outcome)

  function RedisDown(): Pc { Settled(DependencyUnavailable(Redis)) }

  function Start(validated: Option<Task>): Pc {
    if validated.None? then Settled(Invalid) else AskingIp(validated.value)
  }

  /** A refer always carries the one member it refers with. */
  predicate WellFormed(pc: Pc) {
    pc.Prechecking? && pc.task.kind.Refer? ==> pc.task.members != []
  }

  function Request(pc: Pc): Operation
    requires WellFormed(pc) && !pc.Settled?
  {
    match pc
    case AskingIp(_) => AllowIpCreate
    case FindingContent(task) => FindTaskByContent(task.contentHash)
    case FindingDigest(task) => FindTaskByRetryDigest(RetryDigest(task))
    case Prechecking(task) =>
      (match task.kind
       case Register => CheckContentRegistered(task.contentHash)
       case Refer => CheckReferenced(task.groupKey, task.members[0].publicKey))
    case FindingGroup(task) => CheckGroupExists(task.groupKey)
    case FindingRegister(task) => FindTaskByKey(task.groupKey)
    case AskingDepth(_) => QueueDepth
    case AskingGlobal(_) => AllowGlobalCreate
    case Admitting(task) => Admit(task)
    case NotingDigest(task) => RecordRetryDigest(RetryDigest(task), task.id)
    case LoadingExisting(id) => LoadTask(id)
    case Enqueuing(task) => Enqueue(task)
    case Marking(id) => MarkAdmitted(id)
  }

  /** A known task answers at once when it is admitted or over; otherwise phase two is repaired. */
  function Coalesce(existing: Task): Pc {
    if existing.admitted || existing.status.Terminal() then Settled(Queued(existing.id, existing.status))
    else Enqueuing(existing)
  }

  /** Is a register that creates this group still on its way? */
  predicate InFlightRegister(pending: Task, groupKey: Hex) {
    pending.kind.Register? && pending.groupKey == groupKey && !pending.status.Terminal()
  }

  function Resume(pc: Pc, answer: Answer): Pc {
    match pc
    case AskingIp(task) =>
      if answer.Allowed? then (if answer.allowed then FindingContent(task) else Settled(RateLimited)) else RedisDown()
    case FindingContent(task) =>
      if !answer.TaskFound? then RedisDown()
      else if answer.task.Some? then Coalesce(answer.task.value)
      else if task.kind.Register? then FindingDigest(task) else Prechecking(task)
    case FindingDigest(task) =>
      if !answer.TaskFound? then RedisDown()
      else if answer.task.Some? && !answer.task.value.status.Failed? then Coalesce(answer.task.value)
      else Prechecking(task)
    case Prechecking(task) =>
      if answer.ChainBool? && answer.value then Settled(AlreadyRegistered(task.contentHash))
      else if answer.ChainBool? || answer.ChainReadFailed? then
        (if task.kind.Refer? then FindingGroup(task) else AskingDepth(task))
      else RedisDown()
    case FindingGroup(task) =>
      if answer.ChainBool? && !answer.value then FindingRegister(task)
      else if answer.ChainBool? || answer.ChainReadFailed? then AskingDepth(task)
      else RedisDown()
    case FindingRegister(task) =>
      if !answer.TaskFound? then RedisDown()
      else if answer.task.Some? && InFlightRegister(answer.task.value, task.groupKey) then AskingDepth(task)
      else Settled(ReferGroupMissing)
    case AskingDepth(task) =>
      if !answer.Depth? then RedisDown()
      else if answer.depth >= MAX_ACTIVE_QUEUE_DEPTH then Settled(Busy)
      else AskingGlobal(task)
    case AskingGlobal(task) =>
      if answer.Allowed? then (if answer.allowed then Admitting(task) else Settled(Busy)) else RedisDown()
    case Admitting(task) =>
      if !answer.Admitted? then RedisDown()
      else if answer.admission.Existing? then LoadingExisting(answer.admission.id)
      else if task.kind.Register? then NotingDigest(task) else Enqueuing(task)
    case NotingDigest(task) => Enqueuing(task)
    case LoadingExisting(_) =>
      if !answer.TaskFound? || answer.task.None? then RedisDown()
      else if answer.task.value.admitted then Settled(Queued(answer.task.value.id, answer.task.value.status))
      else Enqueuing(answer.task.value)
    case Enqueuing(task) =>
      if answer.Enqueued? then Marking(task.id)
      else if answer.QueueUnavailable? then Settled(DependencyUnavailable(Queue))
      else RedisDown()
    case Marking(_) =>
      if answer.TaskFound? && answer.task.Some?
      then Settled(Queued(answer.task.value.id, answer.task.value.status))
      else RedisDown()
    case Settled(_) => pc
  }

  /** The request's own task while it has not reached the store yet. */
  function Unborn(pc: Pc): Option<Task> {
    match pc
    case AskingIp(task) => Some(task)
    case FindingContent(task) => Some(task)
    case FindingDigest(task) => Some(task)
    case Prechecking(task) => Some(task)
    case FindingGroup(task) => Some(task)
    case FindingRegister(task) => Some(task)
    case AskingDepth(task) => Some(task)
    case AskingGlobal(task) => Some(task)
    case Admitting(task) => Some(task)
    case _ => None
  }

  predicate Validated(task: Task) { task.kind.Refer? ==> task.members != [] }

  predicate ReferHasMember(pc: Pc) {
    Unborn(pc).Some? && Unborn(pc).value.kind.Refer? ==> Unborn(pc).value.members != []
  }

  lemma {:induction false} ResumeWellFormed(pc: Pc, answer: Answer)
    requires ReferHasMember(pc)
    ensures WellFormed(pc) && ReferHasMember(Resume(pc, answer))
    ensures Unborn(Resume(pc, answer)).Some? ==> Unborn(Resume(pc, answer)) == Unborn(pc)
  {}

  // ── Traces ───────────────────────────────────────────────────────────────

  datatype Exchange = Exchange(operation: Operation, answer: Answer)

  function After(validated: Option<Task>, log: seq<Exchange>): (r: Option<Pc>)
    requires validated.Some? && validated.value.kind.Refer? ==> validated.value.members != []
    ensures r.Some? ==> ReferHasMember(r.value)
  {
    if log == [] then Some(Start(validated))
    else
      var last := log[|log| - 1];
      match After(validated, log[..|log| - 1])
      case None => None
      case Some(pc) =>
        ResumeWellFormed(pc, last.answer);
        if pc.Settled? || Request(pc) != last.operation then None else Some(Resume(pc, last.answer))
  }

  /** No answer leads back to the start, and no answer changes the record on its way. */
  lemma {:induction false} Onward(pc: Pc, answer: Answer)
    ensures !pc.Settled? ==> !Resume(pc, answer).AskingIp?
    ensures Unborn(Resume(pc, answer)).Some? ==> Unborn(Resume(pc, answer)) == Unborn(pc)
    ensures Resume(pc, answer).FindingContent? ==> pc.AskingIp? && answer == Allowed(true)
  {}

  /** While it is on its way to the store, the record the program carries is the validated one. */
  lemma {:induction false} CarriesTheRequest(validated: Option<Task>, log: seq<Exchange>)
    requires validated.Some? && (validated.value.kind.Refer? ==> validated.value.members != [])
    requires After(validated, log).Some? && Unborn(After(validated, log).value).Some?
    ensures Unborn(After(validated, log).value) == validated
    ensures After(validated, log).value.AskingIp? ==> log == []
  {
    if log != [] {
      var front := log[..|log| - 1];
      var pc := After(validated, front).value;
      assert !pc.Settled? && After(validated, log).value == Resume(pc, log[|log| - 1].answer);
      Onward(pc, log[|log| - 1].answer);
      CarriesTheRequest(validated, front);
    }
  }

  lemma {:induction false} BeginsWithTheAddress(validated: Option<Task>, log: seq<Exchange>)
    requires validated.Some? && (validated.value.kind.Refer? ==> validated.value.members != [])
    requires After(validated, log).Some? && Unborn(After(validated, log).value).Some? && log != []
    ensures log[0] == Exchange(AllowIpCreate, Allowed(true))
    ensures After(validated, log).value.FindingContent? ==> |log| == 1
  {
    var front := log[..|log| - 1];
    CarriesTheRequest(validated, front);
    if front != [] { BeginsWithTheAddress(validated, front); }
  }

  lemma {:induction false} ThenTheContent(validated: Option<Task>, log: seq<Exchange>)
    requires validated.Some? && (validated.value.kind.Refer? ==> validated.value.members != [])
    requires After(validated, log).Some? && Unborn(After(validated, log).value).Some?
    requires !After(validated, log).value.AskingIp? && !After(validated, log).value.FindingContent?
    ensures |log| > 1 && log[1] == Exchange(FindTaskByContent(validated.value.contentHash), TaskFound(None))
  {
    var front := log[..|log| - 1];
    var pc := After(validated, front).value;
    CarriesTheRequest(validated, front);
    if pc.FindingContent? {
      BeginsWithTheAddress(validated, front);
    } else if !pc.AskingIp? {
      ThenTheContent(validated, front);
    }
  }

  /** The program stands at AskingGlobal only right after a depth below the limit. */
  lemma {:induction false} DepthWasChecked(validated: Option<Task>, log: seq<Exchange>)
    requires validated.Some? && (validated.value.kind.Refer? ==> validated.value.members != [])
    requires After(validated, log).Some? && After(validated, log).value.AskingGlobal?
    ensures |log| > 0 && log[|log| - 1].operation == QueueDepth
    ensures log[|log| - 1].answer.Depth? && log[|log| - 1].answer.depth < MAX_ACTIVE_QUEUE_DEPTH
    ensures After(validated, log[..|log| - 1]).Some? && After(validated, log[..|log| - 1]).value.AskingDepth?
  {
    assert log != [];
    var pc := After(validated, log[..|log| - 1]).value;
    assert pc.AskingDepth?;
  }

  /** The program stands at Admitting only right after a granted budget, asked at AskingGlobal. */
  lemma {:induction false} BudgetWasGranted(validated: Option<Task>, log: seq<Exchange>)
    requires validated.Some? && (validated.value.kind.Refer? ==> validated.value.members != [])
    requires After(validated, log).Some? && After(validated, log).value.Admitting?
    ensures |log| > 0 && log[|log| - 1] == Exchange(AllowGlobalCreate, Allowed(true))
    ensures After(validated, log[..|log| - 1]).Some? && After(validated, log[..|log| - 1]).value.AskingGlobal?
  {
    assert log != [];
  }

  /** What lets a refer past the group gate: the chain has the group or cannot say, or a register
      that creates exactly this group is still on its way. */
  predicate OpensGroupGate(x: Exchange, task: Task) {
    || (x.operation == CheckGroupExists(task.groupKey) && (x.answer == ChainBool(true) || x.answer.ChainReadFailed?))
    || (&& x.operation == FindTaskByKey(task.groupKey) && x.answer.TaskFound? && x.answer.task.Some?
        && InFlightRegister(x.answer.task.value, task.groupKey))
  }

  lemma {:induction false} GateStep(pc: Pc, answer: Answer)
    requires WellFormed(pc) && !pc.Settled? && Resume(pc, answer).AskingDepth? && Resume(pc, answer).task.kind.Refer?
    ensures OpensGroupGate(Exchange(Request(pc), answer), Resume(pc, answer).task)
  {}

  /** A refer stands at AskingDepth only right after the group gate let it through. */
  lemma {:induction false} GroupGateOpened(validated: Option<Task>, log: seq<Exchange>)
    requires validated.Some? && validated.value.kind.Refer? && validated.value.members != []
    requires After(validated, log).Some? && After(validated, log).value == AskingDepth(validated.value)
    ensures |log| > 0 && OpensGroupGate(log[|log| - 1], validated.value)
  {
    assert log != [];
    var pc, last := After(validated, log[..|log| - 1]).value, log[|log| - 1];
    ResumeWellFormed(pc, last.answer);
    assert After(validated, log).value == Resume(pc, last.answer) && last == Exchange(Request(pc), last.answer);
    GateStep(pc, last.answer);
  }

  /** The end of a log that reaches the store. */
  lemma {:induction false} GatesInARow(validated: Option<Task>, log: seq<Exchange>)
    requires validated.Some? && (validated.value.kind.Refer? ==> validated.value.members != [])
    requires After(validated, log).Some? && After(validated, log).value == Admitting(validated.value)
    ensures |log| > 2 && log[|log| - 1] == Exchange(AllowGlobalCreate, Allowed(true))
    ensures log[|log| - 2].operation == QueueDepth && log[|log| - 2].answer.Depth?
    ensures log[|log| - 2].answer.depth < MAX_ACTIVE_QUEUE_DEPTH
    ensures validated.value.kind.Refer? ==> OpensGroupGate(log[|log| - 3], validated.value)
  {
    BudgetWasGranted(validated, log);
    var budget := log[..|log| - 1];
    DepthWasChecked(validated, budget);
    var depth := budget[..|budget| - 1];
    CarriesTheRequest(validated, depth);
    if validated.value.kind.Refer? { GroupGateOpened(validated, depth); }
    assert depth != [];
  }

  /** A write that reaches the store went through every gate: the log starts with a granted
      address budget and a content hash nobody holds, and the admission directly follows a
      queue below its limit and a granted global budget; a refer also passed the group gate. */
  lemma {:induction false} EveryAdmitPassedTheGates(validated: Option<Task>, log: seq<Exchange>)
    requires validated.Some? && (validated.value.kind.Refer? ==> validated.value.members != [])
    requires After(validated, log).Some? && |log| > 0 && log[|log| - 1].operation.Admit?
    ensures |log| > 3 && log[|log| - 1].operation == Admit(validated.value)
    ensures log[0] == Exchange(AllowIpCreate, Allowed(true))
    ensures log[1] == Exchange(FindTaskByContent(validated.value.contentHash), TaskFound(None))
    ensures log[|log| - 3].operation == QueueDepth && log[|log| - 3].answer.Depth?
    ensures log[|log| - 3].answer.depth < MAX_ACTIVE_QUEUE_DEPTH
    ensures log[|log| - 2] == Exchange(AllowGlobalCreate, Allowed(true))
    ensures validated.value.kind.Refer? ==> |log| > 4 && OpensGroupGate(log[|log| - 4], validated.value)
  {
    var front := log[..|log| - 1];
    assert After(validated, front).value.Admitting?;
    CarriesTheRequest(validated, front);
    GatesInARow(validated, front);
    ThenTheContent(validated, front);
    BeginsWithTheAddress(validated, front);
  }
}
