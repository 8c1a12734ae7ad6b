/**
 * The batch program as a coroutine: what it asks the shell next, and where it stands after
 * each answer (p256-registrar/src/submission.rs). BatchProgram.dfy holds the program in its
 * imperative form and proves that every run of it is a run of this machine.
 */
module Submission {
  import opened Basics
  import opened Tasks
  import opened ChainErrors

  datatype TxOutcome =
    | Confirmed(txHash: string, onChainId: Option<nat>)
    | TxReverted(txHash: string)
    | ReceiptUncertain(error: ChainError)
    | SendFailed(error: ChainError)
    | NoncePoolUnavailable

  datatype Operation =
    | LoadTasks(ids: seq<string>)
    | CheckContentRegistered(contentHash: Digest)
    | CheckReferenced(groupKey: Hex, memberKey: Hex)
    | SubmitRegister(task: Task)
    | MarkDone(taskId: string, txHash: Option<string>, onChainId: Option<nat>)
    | MarkFailed(taskId: string, note: Note)
    | RecordTransientFailure(taskId: string, note: Note)

  datatype Answer =
    | TasksLoaded(tasks: seq<Option<Task>>)
    | ContentChecked(registered: bool)
    | Tx(outcome: TxOutcome)
    | Persisted
    | StoreUnavailable
    | ChainReadFailed

  /** Why a batch is retried; the first group are answers the shell could not give. */
  datatype Reason =
    | LoadOutage | LoadMalformed | CheckMalformed | NoNonce | WriteMalformed
    | DoneOutage | PoisonOutage | FailedOutage | RetryOutage | PersistMalformed
    | CheckFailed | ReceiptUnknown | WriteDeferred

  datatype Verdict = Advance | Retry(reason: Reason)

  /** Why the chain is being asked whether the task's write is there. */
  datatype Stage =
    | Reconcile
    | AfterRevert
    | AfterExists(note: Note, stop: Option<Reason>)

  datatype Pc =
    | Loading(ids: seq<string>)
    | Checking(task: Task, rest: seq<Task>, stage: Stage)
    | Submitting(task: Task, rest: seq<Task>, resend: bool)
    // `stop`: the batch retries with this reason once the operation is persisted.
    | Persisting(task: Task, operation: Operation, rest: seq<Task>, stop: Option<Reason>, outage: Reason)
    | Settled(verdict: Verdict)

  /** The kind-specific reconciliation check; None when the task cannot be encoded. */
  function CheckFor(task: Task): Option<Operation> {
    match task.kind
    case Register =>
      (match ContentHash(task)
       case Some(hash) => Some(CheckContentRegistered(hash))
       case None => None)
    case Refer =>
      if task.members == [] then None
      else Some(CheckReferenced(task.groupKey, task.members[0].publicKey))
  }

  /** Drop unknown and terminal records, keep the first of each id. */
  function Canonical(loaded: seq<Option<Task>>, seen: set<string>): seq<Task> {
    if loaded == [] then []
    else match loaded[0]
      case None => Canonical(loaded[1..], seen)
      case Some(task) =>
        if task.status.Terminal() || task.id in seen then Canonical(loaded[1..], seen)
        else [task] + Canonical(loaded[1..], seen + {task.id})
  }

  function Start(ids: seq<string>): Pc {
    if ids == [] then Settled(Advance) else Loading(ids)
  }

  function Begin(tasks: seq<Task>): Pc {
    if tasks == [] then Settled(Advance)
    else if CheckFor(tasks[0]).None? then
      Persisting(tasks[0], MarkFailed(tasks[0].id, CannotEncode), tasks[1..],
                 None, PoisonOutage)
    else Checking(tasks[0], tasks[1..], Reconcile)
  }

  function Finished(task: Task, rest: seq<Task>, txHash: Option<string>, onChainId: Option<nat>, stop: Option<Reason>): Pc {
    Persisting(task, MarkDone(task.id, txHash, onChainId), rest, stop, DoneOutage)
  }

  function Refused(task: Task, rest: seq<Task>, note: Note, stop: Option<Reason>, outage: Reason): Pc {
    Persisting(task, MarkFailed(task.id, note), rest, stop, outage)
  }

  function Postponed(task: Task, rest: seq<Task>, note: Note, stop: Option<Reason>): Pc {
    Persisting(task, RecordTransientFailure(task.id, note), rest, stop, RetryOutage)
  }

  function ClassifyTask(task: Task, rest: seq<Task>, error: ChainError, stop: Option<Reason>): Pc {
    var note := WriteFailed(error);
    match Classify(error)
    case AlreadyExists => Checking(task, rest, AfterExists(note, stop))
    case Transient => Postponed(task, rest, note, stop)
    case Poison => Refused(task, rest, note, stop, PoisonOutage)
  }

  function AfterSendFailure(error: ChainError): Option<Reason> {
    if Classify(error).Transient? then Some(WriteDeferred) else None
  }

  function AfterTx(task: Task, rest: seq<Task>, resend: bool, outcome: TxOutcome): Pc {
    match outcome
    case NoncePoolUnavailable => Settled(Retry(NoNonce))
    case Confirmed(txHash, onChainId) => Finished(task, rest, Some(txHash), onChainId, None)
    case TxReverted(_) =>
      if resend then Refused(task, rest, RevertedTwice, None, FailedOutage)
      else Checking(task, rest, AfterRevert)
    case ReceiptUncertain(error) => ClassifyTask(task, rest, error, Some(ReceiptUnknown))
    case SendFailed(error) => ClassifyTask(task, rest, error, AfterSendFailure(error))
  }

  function AfterCheck(task: Task, rest: seq<Task>, stage: Stage, registered: bool): Pc {
    if registered then Finished(task, rest, task.txHash, None, if stage.AfterExists? then stage.stop else None)
    else match stage
      case Reconcile => Submitting(task, rest, false)
      case AfterRevert => Submitting(task, rest, true)
      case AfterExists(note, stop) => Refused(task, rest, note, stop, PoisonOutage)
  }

  function Resume(pc: Pc, answer: Answer): Pc {
    match pc
    case Loading(_) =>
      (match answer
       case TasksLoaded(tasks) => Begin(Canonical(tasks, {}))
       case StoreUnavailable => Settled(Retry(LoadOutage))
       case _ => Settled(Retry(LoadMalformed)))
    case Checking(task, rest, stage) =>
      (match answer
       case ContentChecked(registered) => AfterCheck(task, rest, stage, registered)
       case ChainReadFailed =>
         Postponed(task, rest, ReconciliationUnavailable, Some(CheckFailed))
       case _ => Settled(Retry(CheckMalformed)))
    case Submitting(task, rest, resend) =>
      (match answer
       case Tx(outcome) => AfterTx(task, rest, resend, outcome)
       case _ => Settled(Retry(WriteMalformed)))
    case Persisting(_, _, rest, stop, outage) =>
      (match answer
       case Persisted => if stop.Some? then Settled(Retry(stop.value)) else Begin(rest)
       case StoreUnavailable => Settled(Retry(outage))
       case _ => Settled(Retry(PersistMalformed)))
    case Settled(_) => pc
  }

  // ── Well-formedness ──────────────────────────────────────────────────────

  function Target(operation: Operation): Option<string> {
    match operation
    case MarkDone(id, _, _) => Some(id)
    case MarkFailed(id, _) => Some(id)
    case RecordTransientFailure(id, _) => Some(id)
    case _ => None
  }

  /** A task being checked or sent is encodable, a persisted operation names its task, and a
      transient failure always ends the batch. */
  predicate WellFormed(pc: Pc) {
    match pc
    case Checking(task, _, _) => CheckFor(task).Some?
    case Submitting(task, _, _) => CheckFor(task).Some?
    case Persisting(task, operation, _, stop, _) =>
      Target(operation) == Some(task.id) && (operation.RecordTransientFailure? ==> stop.Some?)
    case _ => true
  }

  function Request(pc: Pc): Operation
    requires WellFormed(pc) && !pc.Settled?
  {
    match pc
    case Loading(ids) => LoadTasks(ids)
    case Checking(task, _, _) => CheckFor(task).value
    case Submitting(task, _, _) => SubmitRegister(task)
    case Persisting(_, operation, _, _, _) => operation
  }

  /** The tasks the batch still owes an outcome, the current one first. */
  function Pending(pc: Pc): seq<Task> {
    match pc
    case Checking(task, rest, _) => [task] + rest
    case Submitting(task, rest, _) => [task] + rest
    case Persisting(task, _, rest, _, _) => [task] + rest
    case _ => []
  }

  /** The tasks behind the current one. */
  function Waiting(pc: Pc): seq<Task> {
    if Pending(pc) == [] then [] else Pending(pc)[1..]
  }

  predicate DistinctIds(tasks: seq<Task>) {
    forall i, j | 0 <= i < j < |tasks| :: tasks[i].id != tasks[j].id
  }

  lemma {:induction false} ResumeWellFormed(pc: Pc, answer: Answer)
    requires WellFormed(pc)
    ensures WellFormed(Resume(pc, answer))
  {}

  /** Everything the loading pass keeps was loaded, is not terminal, and is kept once. */
  lemma {:induction false} CanonicalIsDistinct(loaded: seq<Option<Task>>, seen: set<string>)
    ensures DistinctIds(Canonical(loaded, seen))
    ensures forall t | t in Canonical(loaded, seen) :: !t.status.Terminal() && t.id !in seen && Some(t) in loaded
  {
    if loaded != [] {
      var first := loaded[0];
      if first.Some? && !first.value.status.Terminal() && first.value.id !in seen {
        CanonicalIsDistinct(loaded[1..], seen + {first.value.id});
      } else {
        CanonicalIsDistinct(loaded[1..], seen);
      }
    }
  }

  /** Nothing the batch owes work to is dropped by the loading pass. */
  lemma {:induction false} CanonicalCovers(loaded: seq<Option<Task>>, seen: set<string>, task: Task)
    requires Some(task) in loaded && !task.status.Terminal() && task.id !in seen
    ensures exists t :: t in Canonical(loaded, seen) && t.id == task.id
  {
    var kept := Canonical(loaded, seen);
    var first := loaded[0];
    if first.Some? && !first.value.status.Terminal() && first.value.id !in seen {
      var tail := Canonical(loaded[1..], seen + {first.value.id});
      assert kept == [first.value] + tail && kept[0] == first.value;
      if first.value.id != task.id {
        CanonicalCovers(loaded[1..], seen + {first.value.id}, task);
        var t :| t in tail && t.id == task.id;
        assert t in kept;
      }
    } else {
      CanonicalCovers(loaded[1..], seen, task);
    }
  }

  // ── Traces ───────────────────────────────────────────────────────────────

  datatype Exchange = Exchange(operation: Operation, answer: Answer)

  /** Where the program stands after a log of exchanges; None when the log is not its own. */
  function After(ids: seq<string>, log: seq<Exchange>): (r: Option<Pc>)
    ensures r.Some? ==> WellFormed(r.value)
  {
    if log == [] then Some(Start(ids))
    else
      var last := log[|log| - 1];
      match After(ids, log[..|log| - 1])
      case None => None
      case Some(pc) =>
        if pc.Settled? || Request(pc) != last.operation then None
        else ResumeWellFormed(pc, last.answer); Some(Resume(pc, last.answer))
  }

  predicate SubmitsAt(log: seq<Exchange>, i: int, id: string) {
    0 <= i < |log| && log[i].operation.SubmitRegister? && log[i].operation.task.id == id
  }

  ghost predicate NeverSubmitted(log: seq<Exchange>, id: string) {
    forall i :: !SubmitsAt(log, i, id)
  }

  /** Only the exchange at `at` sent this task, and its receipt was a revert. */
  ghost predicate RevertedOnceAt(log: seq<Exchange>, id: string, at: int) {
    && SubmitsAt(log, at, id)
    && log[at].answer.Tx? && log[at].answer.outcome.TxReverted?
    && forall i :: SubmitsAt(log, i, id) ==> i == at
  }

  /** What the log must look like for the program to stand at `pc`. */
  ghost predicate Explains(log: seq<Exchange>, pc: Pc) {
    && DistinctIds(Pending(pc))
    && (pc.Loading? ==> log == [])
    && (forall i | 0 <= i < |Waiting(pc)| :: NeverSubmitted(log, Waiting(pc)[i].id))
    && (pc.Checking? && pc.stage.Reconcile? ==> NeverSubmitted(log, pc.task.id))
    && (pc.Checking? && pc.stage.AfterRevert? ==> RevertedOnceAt(log, pc.task.id, |log| - 1))
    && (pc.Submitting? ==>
          && |log| > 0
          && Some(log[|log| - 1].operation) == CheckFor(pc.task)
          && log[|log| - 1].answer == ContentChecked(false)
          && (if pc.resend then RevertedOnceAt(log, pc.task.id, |log| - 2) else NeverSubmitted(log, pc.task.id)))
  }

  lemma {:induction false} ExtendNeverSubmitted(log: seq<Exchange>, x: Exchange, id: string)
    requires NeverSubmitted(log, id)
    requires !(x.operation.SubmitRegister? && x.operation.task.id == id)
    ensures NeverSubmitted(log + [x], id)
  {
    forall i ensures !SubmitsAt(log + [x], i, id) {
      assert SubmitsAt(log + [x], i, id) ==> SubmitsAt(log, i, id);
    }
  }

  lemma {:induction false} ExtendRevertedOnce(log: seq<Exchange>, x: Exchange, id: string, at: int)
    requires RevertedOnceAt(log, id, at)
    requires !(x.operation.SubmitRegister? && x.operation.task.id == id)
    ensures RevertedOnceAt(log + [x], id, at)
  {
    forall i | SubmitsAt(log + [x], i, id) ensures i == at {
      assert SubmitsAt(log, i, id);
    }
  }

  lemma {:induction false} ExtendPending(log: seq<Exchange>, x: Exchange, tasks: seq<Task>)
    requires forall i | 0 <= i < |tasks| :: NeverSubmitted(log, tasks[i].id)
    requires x.operation.SubmitRegister? ==> forall i | 0 <= i < |tasks| :: tasks[i].id != x.operation.task.id
    ensures forall i | 0 <= i < |tasks| :: NeverSubmitted(log + [x], tasks[i].id)
  {
    forall i | 0 <= i < |tasks| ensures NeverSubmitted(log + [x], tasks[i].id) {
      ExtendNeverSubmitted(log, x, tasks[i].id);
    }
  }

  lemma {:induction false} BeginExplained(log: seq<Exchange>, tasks: seq<Task>)
    requires DistinctIds(tasks)
    requires forall i | 0 <= i < |tasks| :: NeverSubmitted(log, tasks[i].id)
    ensures Explains(log, Begin(tasks))
  {
    if tasks != [] {
      assert [tasks[0]] + tasks[1..] == tasks;
    }
  }

  lemma {:induction false} CheckExplained(log: seq<Exchange>, pc: Pc, answer: Answer)
    requires WellFormed(pc) && pc.Checking? && Explains(log, pc)
    ensures Explains(log + [Exchange(Request(pc), answer)], Resume(pc, answer))
  {
    var x, next := Exchange(Request(pc), answer), Resume(pc, answer);
    assert Waiting(pc) == pc.rest;
    assert next.Settled? || (Pending(next) == Pending(pc) && Waiting(next) == pc.rest);
    ExtendPending(log, x, pc.rest);
    if pc.stage.Reconcile? {
      ExtendNeverSubmitted(log, x, pc.task.id);
    } else if pc.stage.AfterRevert? {
      ExtendRevertedOnce(log, x, pc.task.id, |log| - 1);
    }
  }

  lemma {:induction false} SubmitExplained(log: seq<Exchange>, pc: Pc, answer: Answer)
    requires WellFormed(pc) && pc.Submitting? && Explains(log, pc)
    ensures Explains(log + [Exchange(Request(pc), answer)], Resume(pc, answer))
  {
    var x, next := Exchange(Request(pc), answer), Resume(pc, answer);
    assert Waiting(pc) == pc.rest;
    assert next.Settled? || (Pending(next) == Pending(pc) && Waiting(next) == pc.rest);
    assert Pending(pc)[0] == pc.task && forall i | 0 <= i < |pc.rest| :: pc.rest[i] == Pending(pc)[i + 1];
    ExtendPending(log, x, pc.rest);
    if next.Checking? && next.stage.AfterRevert? {
      forall i | SubmitsAt(log + [x], i, pc.task.id) ensures i == |log| {
        assert i < |log| ==> SubmitsAt(log, i, pc.task.id);
      }
    }
  }

  lemma {:induction false} ResumeExplained(log: seq<Exchange>, pc: Pc, answer: Answer)
    requires WellFormed(pc) && !pc.Settled? && Explains(log, pc)
    ensures Explains(log + [Exchange(Request(pc), answer)], Resume(pc, answer))
  {
    var x := Exchange(Request(pc), answer);
    match pc
    case Loading(_) =>
      if answer.TasksLoaded? {
        var tasks := Canonical(answer.tasks, {});
        CanonicalIsDistinct(answer.tasks, {});
        ExtendPending(log, x, tasks);
        BeginExplained(log + [x], tasks);
      }
    case Persisting(task, _, rest, _, _) =>
      assert Waiting(pc) == rest;
      assert forall i | 0 <= i < |rest| :: rest[i] == Pending(pc)[i + 1];
      ExtendPending(log, x, rest);
      BeginExplained(log + [x], rest);
    case Checking(_, _, _) => CheckExplained(log, pc, answer);
    case Submitting(_, _, _) => SubmitExplained(log, pc, answer);
  }

  lemma {:induction false} LogExplained(ids: seq<string>, log: seq<Exchange>)
    requires After(ids, log).Some?
    ensures Explains(log, After(ids, log).value)
  {
    if log != [] {
      var front := log[..|log| - 1];
      LogExplained(ids, front);
      ResumeExplained(front, After(ids, front).value, log[|log| - 1].answer);
      assert front + [log[|log| - 1]] == log;
    }
  }

  lemma {:induction false} PrefixIsRun(ids: seq<string>, log: seq<Exchange>, n: nat)
    requires n <= |log| && After(ids, log).Some?
    ensures After(ids, log[..n]).Some?
  {
    if n < |log| {
      assert log[..|log| - 1][..n] == log[..n];
      PrefixIsRun(ids, log[..|log| - 1], n);
    } else {
      assert log[..n] == log;
    }
  }

  /** A chain write in the log: the program stood at a Submitting point of that task. */
  lemma {:induction false} SubmitPoint(ids: seq<string>, log: seq<Exchange>, i: nat) returns (pc: Pc)
    requires After(ids, log).Some? && i < |log| && log[i].operation.SubmitRegister?
    ensures pc.Submitting? && pc.task == log[i].operation.task
    ensures Explains(log[..i], pc)
  {
    PrefixIsRun(ids, log, i + 1);
    var through := log[..i + 1];
    assert through[..|through| - 1] == log[..i];
    pc := After(ids, log[..i]).value;
    LogExplained(ids, log[..i]);
  }

  /** In every batch trace a register transaction directly follows an "absent" reconciliation
      of the same task. */
  lemma {:induction false} EverySubmitFollowsAbsence(ids: seq<string>, log: seq<Exchange>, i: nat)
    requires After(ids, log).Some? && i < |log| && log[i].operation.SubmitRegister?
    ensures i > 0 && CheckFor(log[i].operation.task) == Some(log[i - 1].operation)
    ensures log[i - 1].answer == ContentChecked(false)
  {
    var pc := SubmitPoint(ids, log, i);
    assert log[..i][i - 1] == log[i - 1];
  }

  /** A task is sent at most twice: a second send comes two exchanges after the first, whose
      receipt was a revert, so a third would have to sit at the place of the second. */
  lemma {:induction false} SecondSubmitOnlyAfterRevert(ids: seq<string>, log: seq<Exchange>, id: string, i: nat, j: nat)
    requires After(ids, log).Some? && i < j
    requires SubmitsAt(log, i, id) && SubmitsAt(log, j, id)
    ensures j == i + 2 && log[i].answer.Tx? && log[i].answer.outcome.TxReverted?
  {
    var pc := SubmitPoint(ids, log, j);
    assert SubmitsAt(log[..j], i, id);
    assert pc.resend ==> RevertedOnceAt(log[..j], id, j - 2);
  }

  // ── Every outcome has its cause ──────────────────────────────────────────

  function ErrorOf(outcome: TxOutcome): Option<ChainError> {
    match outcome
    case ReceiptUncertain(error) => Some(error)
    case SendFailed(error) => Some(error)
    case _ => None
  }

  /** The exchange in which a write of this task ended with an error of this class. */
  predicate WriteEndedWith(last: Exchange, task: Task, note: Note, class_: ErrorClass) {
    && last.operation == SubmitRegister(task) && last.answer.Tx? && ErrorOf(last.answer.outcome).Some?
    && note == WriteFailed(ErrorOf(last.answer.outcome).value) && Classify(ErrorOf(last.answer.outcome).value) == class_
  }

  predicate Checked(last: Exchange, task: Task, answer: Answer) {
    CheckFor(task) == Some(last.operation) && last.answer == answer
  }

  /** Why this operation about this task may follow this exchange: a task is done only because the
      chain said so, failed only because it cannot be encoded, was refused for good or reverted
      twice, and charged a retry only because a read or a write failed in a way that may pass. */
  predicate Cause(last: Exchange, task: Task, operation: Operation) {
    match operation
    case MarkDone(_, txHash, onChainId) =>
      || (Checked(last, task, ContentChecked(true)) && txHash == task.txHash && onChainId.None?)
      || (last.operation == SubmitRegister(task) && txHash.Some? && last.answer == Tx(Confirmed(txHash.value, onChainId)))
    case MarkFailed(_, note) =>
      || (CheckFor(task).None? && note == CannotEncode)
      || (last.operation == SubmitRegister(task) && last.answer.Tx? && last.answer.outcome.TxReverted? && note == RevertedTwice)
      || WriteEndedWith(last, task, note, Poison)
      || (Checked(last, task, ContentChecked(false)) && note.WriteFailed? && Classify(note.error).AlreadyExists?)
    case RecordTransientFailure(_, note) =>
      || (Checked(last, task, ChainReadFailed) && note == ReconciliationUnavailable)
      || WriteEndedWith(last, task, note, Transient)
    case _ => true
  }

  /** A check made after a "duplicate" answer remembers that answer. */
  predicate Remembers(pc: Pc) {
    pc.Checking? && pc.stage.AfterExists? ==> pc.stage.note.WriteFailed? && Classify(pc.stage.note.error).AlreadyExists?
  }

  lemma {:induction false} ResumeHasCause(pc: Pc, answer: Answer)
    requires WellFormed(pc) && !pc.Settled? && Remembers(pc)
    ensures var next := Resume(pc, answer);
            Remembers(next) && (next.Persisting? ==> Cause(Exchange(Request(pc), answer), next.task, next.operation))
  {
    match pc
    case Submitting(task, rest, resend) => if answer.Tx? { TxHasCause(task, rest, resend, answer.outcome); }
    case _ =>
  }

  lemma {:induction false} TxHasCause(task: Task, rest: seq<Task>, resend: bool, outcome: TxOutcome)
    ensures var next := AfterTx(task, rest, resend, outcome);
            Remembers(next) && (next.Persisting? ==> Cause(Exchange(SubmitRegister(task), Tx(outcome)), next.task, next.operation))
  {}

  lemma {:induction false} LogHasCause(ids: seq<string>, log: seq<Exchange>)
    requires After(ids, log).Some?
    ensures var pc := After(ids, log).value;
            Remembers(pc) && (pc.Persisting? ==> |log| > 0 && Cause(log[|log| - 1], pc.task, pc.operation))
  {
    if log != [] {
      var front := log[..|log| - 1];
      LogHasCause(ids, front);
      ResumeHasCause(After(ids, front).value, log[|log| - 1].answer);
    }
  }

  /** In every batch trace each recorded outcome directly follows the exchange that justifies it. */
  lemma {:induction false} EveryOutcomeHasItsCause(ids: seq<string>, log: seq<Exchange>, i: nat) returns (task: Task)
    requires After(ids, log).Some? && i < |log| && Target(log[i].operation).Some?
    ensures i > 0 && Target(log[i].operation) == Some(task.id) && Cause(log[i - 1], task, log[i].operation)
  {
    PrefixIsRun(ids, log, i + 1);
    assert log[..i + 1][..i] == log[..i];
    var pc := After(ids, log[..i]).value;
    LogHasCause(ids, log[..i]);
    task := pc.task;
  }
}
