/**
 * What the batch program must ask next, read off the log alone: the exchange before, at most two
 * behind it, and the tasks that were loaded (p256-registrar/src/submission.rs:203-478). The
 * program of BatchProgram.dfy and the machine of Submission.dfy are proved to do exactly this.
 */
module BatchHistory {
  import opened Basics
  import opened Tasks
  import opened ChainErrors
  import opened Submission

  datatype Due = Ask(operation: Operation) | End(verdict: Verdict)

  // ── What the log shows ───────────────────────────────────────────────────

  /** The record at i is worked on: it is there, not terminal, and the first such one of its id. */
  predicate Counts(loaded: seq<Option<Task>>, i: nat)
    requires i < |loaded|
  {
    && loaded[i].Some? && !loaded[i].value.status.Terminal()
    && forall j | 0 <= j < i :: loaded[j].Some? && !loaded[j].value.status.Terminal() ==> loaded[j].value.id != loaded[i].value.id
  }

  /** The tasks among the first n records, in the order they were loaded. */
  function Kept(loaded: seq<Option<Task>>, n: nat): seq<Task>
    requires n <= |loaded|
  {
    if n == 0 then [] else Kept(loaded, n - 1) + (if Counts(loaded, n - 1) then [loaded[n - 1].value] else [])
  }

  function Batch(log: seq<Exchange>): seq<Task> {
    if log != [] && log[0].answer.TasksLoaded? then Kept(log[0].answer.tasks, |log[0].answer.tasks|) else []
  }

  predicate Closes(x: Exchange) { (x.operation.MarkDone? || x.operation.MarkFailed?) && x.answer.Persisted? }

  /** How many tasks have their outcome. */
  function Closed(log: seq<Exchange>): nat {
    if log == [] then 0 else Closed(log[..|log| - 1]) + (if Closes(log[|log| - 1]) then 1 else 0)
  }

  /** The task in hand. */
  function InHand(log: seq<Exchange>): Option<Task> {
    if Closed(log) < |Batch(log)| then Some(Batch(log)[Closed(log)]) else None
  }

  /** The exchange k places before the end. */
  function Back(log: seq<Exchange>, k: nat): Option<Exchange> {
    if k < |log| then Some(log[|log| - 1 - k]) else None
  }

  predicate Sends(x: Option<Exchange>) { x.Some? && x.value.operation.SubmitRegister? }

  predicate Reverted(x: Option<Exchange>) { Sends(x) && x.value.answer.Tx? && x.value.answer.outcome.TxReverted? }

  predicate Uncertain(x: Option<Exchange>) { Sends(x) && x.value.answer.Tx? && x.value.answer.outcome.ReceiptUncertain? }

  // ── What is due ──────────────────────────────────────────────────────────

  /** How the chain is asked about a task's own write; a register whose record does not encode and a
      refer without a member cannot be asked about. */
  function Question(task: Task): Option<Operation> {
    match task.kind
    case Register => if ContentHash(task).Some? then Some(CheckContentRegistered(ContentHash(task).value)) else None
    case Refer => if task.members == [] then None else Some(CheckReferenced(task.groupKey, task.members[0].publicKey))
  }

  function AskChain(task: Task): Due {
    if Question(task).Some? then Ask(Question(task).value) else Ask(MarkFailed(task.id, CannotEncode))
  }

  function NextTask(log: seq<Exchange>): Due {
    if InHand(log).None? then End(Advance) else AskChain(InHand(log).value)
  }

  /** The chain was asked whether the write of the task in hand is there. */
  function AfterQuestion(log: seq<Exchange>, task: Task, answer: Answer): Due {
    match answer
    case ContentChecked(true) => Ask(MarkDone(task.id, task.txHash, None))
    case ContentChecked(false) =>
      // absent: send it, unless it was just refused as a duplicate
      if !Sends(Back(log, 1)) || Reverted(Back(log, 1)) then Ask(SubmitRegister(task))
      else if !Back(log, 1).value.answer.Tx? || ErrorOf(Back(log, 1).value.answer.outcome).None? then End(Retry(WriteMalformed))
      else Ask(MarkFailed(task.id, WriteFailed(ErrorOf(Back(log, 1).value.answer.outcome).value)))
    case ChainReadFailed => Ask(RecordTransientFailure(task.id, ReconciliationUnavailable))
    case _ => End(Retry(CheckMalformed))
  }

  function AfterSend(log: seq<Exchange>, task: Task, answer: Answer): Due {
    if !answer.Tx? then End(Retry(WriteMalformed))
    else match answer.outcome
      case NoncePoolUnavailable => End(Retry(NoNonce))
      case Confirmed(txHash, onChainId) => Ask(MarkDone(task.id, Some(txHash), onChainId))
      case TxReverted(_) => if Sends(Back(log, 2)) then Ask(MarkFailed(task.id, RevertedTwice)) else AskChain(task)
      case ReceiptUncertain(error) => AfterError(task, error)
      case SendFailed(error) => AfterError(task, error)
  }

  function AfterError(task: Task, error: ChainError): Due {
    match Classify(error)
    case AlreadyExists => AskChain(task)
    case Transient => Ask(RecordTransientFailure(task.id, WriteFailed(error)))
    case Poison => Ask(MarkFailed(task.id, WriteFailed(error)))
  }

  function StoreDown(operation: Operation): Reason {
    match operation
    case MarkDone(_, _, _) => DoneOutage
    case MarkFailed(_, note) => if note.RevertedTwice? then FailedOutage else PoisonOutage
    case _ => RetryOutage
  }

  /** An outcome was to be written down: the batch goes on with the next task unless the task was
      charged a retry or its receipt stayed unknown. */
  function AfterOutcome(log: seq<Exchange>, x: Exchange): Due {
    match x.answer
    case StoreUnavailable => End(Retry(StoreDown(x.operation)))
    case Persisted =>
      if Uncertain(Back(log, 1)) || (Uncertain(Back(log, 2)) && !x.operation.RecordTransientFailure?) then End(Retry(ReceiptUnknown))
      else if !x.operation.RecordTransientFailure? then NextTask(log)
      else if Sends(Back(log, 1)) then End(Retry(WriteDeferred))
      else End(Retry(CheckFailed))
    case _ => End(Retry(PersistMalformed))
  }

  function Next(ids: seq<string>, log: seq<Exchange>): Due {
    if log == [] then (if ids == [] then End(Advance) else Ask(LoadTasks(ids)))
    else
      var last, task := log[|log| - 1], InHand(log);
      match last.operation
      case LoadTasks(_) =>
        if last.answer.TasksLoaded? then NextTask(log)
        else if last.answer.StoreUnavailable? then End(Retry(LoadOutage)) else End(Retry(LoadMalformed))
      case CheckContentRegistered(_) => if task.None? then End(Advance) else AfterQuestion(log, task.value, last.answer)
      case CheckReferenced(_, _) => if task.None? then End(Advance) else AfterQuestion(log, task.value, last.answer)
      case SubmitRegister(_) => if task.None? then End(Advance) else AfterSend(log, task.value, last.answer)
      case _ => AfterOutcome(log, last)
  }

  /** Every operation in the log was due. */
  predicate Conforms(ids: seq<string>, log: seq<Exchange>) {
    forall i | 0 <= i < |log| :: Next(ids, log[..i]) == Ask(log[i].operation)
  }

  // ── The loading pass ─────────────────────────────────────────────────────

  function Seen(loaded: seq<Option<Task>>, n: nat): set<string>
    requires n <= |loaded|
  {
    set j | 0 <= j < n && loaded[j].Some? && !loaded[j].value.status.Terminal() :: loaded[j].value.id
  }

  lemma {:induction false} CanonicalFrom(loaded: seq<Option<Task>>, n: nat)
    requires n <= |loaded|
    ensures Kept(loaded, n) + Canonical(loaded[n..], Seen(loaded, n)) == Kept(loaded, |loaded|)
    decreases |loaded| - n
  {
    if n < |loaded| {
      CanonicalFrom(loaded, n + 1);
      assert loaded[n..][0] == loaded[n] && loaded[n..][1..] == loaded[n + 1..];
      if loaded[n].Some? && !loaded[n].value.status.Terminal() {
        assert Seen(loaded, n + 1) == Seen(loaded, n) + {loaded[n].value.id};
        assert Counts(loaded, n) <==> loaded[n].value.id !in Seen(loaded, n);
        if !Counts(loaded, n) { assert Seen(loaded, n + 1) == Seen(loaded, n); }
      } else {
        assert Seen(loaded, n + 1) == Seen(loaded, n);
      }
    } else {
      assert loaded[n..] == [];
    }
  }

  /** The loading pass keeps the first record of each id that is not terminal, in loading order. */
  lemma {:induction false} CanonicalIsKept(loaded: seq<Option<Task>>)
    ensures Canonical(loaded, {}) == Kept(loaded, |loaded|)
  {
    CanonicalFrom(loaded, 0);
    assert loaded[0..] == loaded && Seen(loaded, 0) == {} && Kept(loaded, 0) == [];
  }

  // ── The machine does what is due ─────────────────────────────────────────

  predicate Asks(x: Option<Exchange>, task: Task) {
    && x.Some? && CheckFor(task) == Some(x.value.operation)
    && (x.value.operation.CheckContentRegistered? || x.value.operation.CheckReferenced?)
  }

  /** Which stage a question belongs to, from the exchange before it. */
  predicate StageShown(log: seq<Exchange>, k: nat, task: Task, stage: Stage) {
    match stage
    case Reconcile => !Sends(Back(log, k))
    case AfterRevert => Reverted(Back(log, k)) && Back(log, k).value.operation.task == task && !Sends(Back(log, k + 2))
    case AfterExists(note, stop) =>
      && Sends(Back(log, k)) && Back(log, k).value.operation.task == task && Back(log, k).value.answer.Tx?
      && ErrorOf(Back(log, k).value.answer.outcome).Some? && note == WriteFailed(ErrorOf(Back(log, k).value.answer.outcome).value)
      && (stop == if Uncertain(Back(log, k)) then Some(ReceiptUnknown) else None)
  }

  /** What follows an outcome once it is written down, from the exchanges before it. */
  function StopShown(log: seq<Exchange>, operation: Operation): Option<Reason> {
    if Uncertain(Back(log, 0)) || (Uncertain(Back(log, 1)) && !operation.RecordTransientFailure?) then Some(ReceiptUnknown)
    else if !operation.RecordTransientFailure? then None
    else if Sends(Back(log, 0)) then Some(WriteDeferred)
    else Some(CheckFailed)
  }

  /** The log of a machine that stands at `pc`. */
  predicate Shows(ids: seq<string>, log: seq<Exchange>, pc: Pc) {
    match pc
    case Loading(wanted) => log == [] && wanted == ids && ids != []
    case Checking(task, rest, stage) => Open(log, pc) && StageShown(log, 0, task, stage)
    case Submitting(task, rest, resend) =>
      && Open(log, pc) && Asks(Back(log, 0), task)
      && (if resend then Reverted(Back(log, 1)) else !Sends(Back(log, 1)))
    case Persisting(task, operation, rest, stop, outage) =>
      && Open(log, pc) && stop == StopShown(log, operation) && outage == StoreDown(operation)
      && (operation.MarkDone? || operation.MarkFailed? || operation.RecordTransientFailure?)
    case Settled(verdict) => Next(ids, log) == End(verdict)
  }

  /** The pending tasks are the loaded ones that are not closed yet. */
  predicate Open(log: seq<Exchange>, pc: Pc) {
    && log != [] && Closed(log) < |Batch(log)| && Submission.Pending(pc) == Batch(log)[Closed(log)..]
    && CheckFor(Batch(log)[Closed(log)]) == Question(Batch(log)[Closed(log)])
  }

  lemma {:induction false} SameQuestion(task: Task)
    ensures CheckFor(task) == Question(task)
  {}

  lemma {:induction false} OpenTask(log: seq<Exchange>, pc: Pc)
    requires Open(log, pc) && (pc.Checking? || pc.Submitting? || pc.Persisting?)
    ensures InHand(log) == Some(pc.task) && pc.rest == Batch(log)[Closed(log) + 1..]
  {
    assert Submission.Pending(pc)[0] == pc.task && Submission.Pending(pc)[1..] == pc.rest;
  }

  /** A step that closes nothing leaves the batch as it is. */
  lemma {:induction false} StaysOpen(log: seq<Exchange>, x: Exchange)
    requires log != [] && !Closes(x)
    ensures Batch(log + [x]) == Batch(log) && Closed(log + [x]) == Closed(log) && InHand(log + [x]) == InHand(log)
    ensures Back(log + [x], 0) == Some(x) && Back(log + [x], 1) == Back(log, 0) && Back(log + [x], 2) == Back(log, 1)
    ensures Back(log + [x], 3) == Back(log, 2)
  {
    assert (log + [x])[..|log|] == log;
  }

  /** The machine stands at `pc`, and what it asks there is due. */
  predicate Tallies(ids: seq<string>, log: seq<Exchange>, pc: Pc) {
    && WellFormed(pc) && Shows(ids, log, pc)
    && Next(ids, log) == (if pc.Settled? then End(pc.verdict) else Ask(Request(pc)))
  }

  lemma {:induction false} BeginTallies(ids: seq<string>, log: seq<Exchange>)
    requires log != [] && Closed(log) <= |Batch(log)| && !Sends(Back(log, 0)) && !Uncertain(Back(log, 1))
    requires Next(ids, log) == NextTask(log)
    ensures Tallies(ids, log, Begin(Batch(log)[Closed(log)..]))
  {
    var tasks := Batch(log)[Closed(log)..];
    if tasks != [] {
      SameQuestion(tasks[0]);
      assert tasks == [tasks[0]] + tasks[1..] && tasks[0] == Batch(log)[Closed(log)];
    }
  }

  lemma {:induction false} LoadTallies(ids: seq<string>, answer: Answer)
    requires ids != []
    ensures Tallies(ids, [Exchange(LoadTasks(ids), answer)], Resume(Loading(ids), answer))
  {
    var log := [Exchange(LoadTasks(ids), answer)];
    assert log[..0] == [];
    if answer.TasksLoaded? {
      CanonicalIsKept(answer.tasks);
      assert Batch(log)[0..] == Batch(log);
      BeginTallies(ids, log);
    }
  }

  /** The tasks stay pending while the machine works on the one in hand. */
  lemma {:induction false} StillOpen(log: seq<Exchange>, x: Exchange, pc: Pc, next: Pc)
    requires Open(log, pc) && !Closes(x) && Submission.Pending(next) == Submission.Pending(pc)
    ensures Open(log + [x], next)
  {
    StaysOpen(log, x);
  }

  lemma {:induction false} Questioned(ids: seq<string>, log: seq<Exchange>, pc: Pc, answer: Answer)
    requires Tallies(ids, log, pc) && pc.Checking?
    ensures var longer := log + [Exchange(Request(pc), answer)];
            Next(ids, longer) == AfterQuestion(longer, pc.task, answer)
  {
    OpenTask(log, pc);
    StaysOpen(log, Exchange(Request(pc), answer));
    SameQuestion(pc.task);
  }

  lemma {:induction false} PresentTallies(ids: seq<string>, log: seq<Exchange>, pc: Pc)
    requires Tallies(ids, log, pc) && pc.Checking?
    ensures Tallies(ids, log + [Exchange(Request(pc), ContentChecked(true))], Resume(pc, ContentChecked(true)))
  {
    var x, next := Exchange(Request(pc), ContentChecked(true)), Resume(pc, ContentChecked(true));
    Questioned(ids, log, pc, ContentChecked(true));
    StaysOpen(log, x);
    StillOpen(log, x, pc, next);
  }

  lemma {:induction false} AbsentTallies(ids: seq<string>, log: seq<Exchange>, pc: Pc)
    requires Tallies(ids, log, pc) && pc.Checking?
    ensures Tallies(ids, log + [Exchange(Request(pc), ContentChecked(false))], Resume(pc, ContentChecked(false)))
  {
    var x, next := Exchange(Request(pc), ContentChecked(false)), Resume(pc, ContentChecked(false));
    Questioned(ids, log, pc, ContentChecked(false));
    StaysOpen(log, x);
    StillOpen(log, x, pc, next);
    SameQuestion(pc.task);
    assert Asks(Some(x), pc.task);
  }

  lemma {:induction false} UnreadTallies(ids: seq<string>, log: seq<Exchange>, pc: Pc)
    requires Tallies(ids, log, pc) && pc.Checking?
    ensures Tallies(ids, log + [Exchange(Request(pc), ChainReadFailed)], Resume(pc, ChainReadFailed))
  {
    var x, next := Exchange(Request(pc), ChainReadFailed), Resume(pc, ChainReadFailed);
    Questioned(ids, log, pc, ChainReadFailed);
    StaysOpen(log, x);
    StillOpen(log, x, pc, next);
  }

  lemma {:induction false} CheckTallies(ids: seq<string>, log: seq<Exchange>, pc: Pc, answer: Answer)
    requires Tallies(ids, log, pc) && pc.Checking?
    ensures Tallies(ids, log + [Exchange(Request(pc), answer)], Resume(pc, answer))
  {
    match answer
    case ContentChecked(registered) => if registered { PresentTallies(ids, log, pc); } else { AbsentTallies(ids, log, pc); }
    case ChainReadFailed => UnreadTallies(ids, log, pc);
    case _ => Questioned(ids, log, pc, answer);
  }

  lemma {:induction false} ErrorDue(ids: seq<string>, log: seq<Exchange>, pc: Pc, outcome: TxOutcome)
    requires Tallies(ids, log, pc) && pc.Submitting? && ErrorOf(outcome).Some?
    ensures Next(ids, log + [Exchange(Request(pc), Tx(outcome))]) == AfterError(pc.task, ErrorOf(outcome).value)
  {
    OpenTask(log, pc);
    StaysOpen(log, Exchange(Request(pc), Tx(outcome)));
  }

  lemma {:induction false} ErrorTallies(ids: seq<string>, log: seq<Exchange>, pc: Pc, outcome: TxOutcome)
    requires Tallies(ids, log, pc) && pc.Submitting? && ErrorOf(outcome).Some?
    ensures Tallies(ids, log + [Exchange(Request(pc), Tx(outcome))], AfterTx(pc.task, pc.rest, pc.resend, outcome))
  {
    var x, next := Exchange(Request(pc), Tx(outcome)), AfterTx(pc.task, pc.rest, pc.resend, outcome);
    ErrorDue(ids, log, pc, outcome);
    StaysOpen(log, x);
    SameQuestion(pc.task);
    StillOpen(log, x, pc, next);
  }

  lemma {:induction false} ReceiptTallies(ids: seq<string>, log: seq<Exchange>, pc: Pc, outcome: TxOutcome)
    requires Tallies(ids, log, pc) && pc.Submitting? && (outcome.Confirmed? || outcome.TxReverted?)
    ensures Tallies(ids, log + [Exchange(Request(pc), Tx(outcome))], AfterTx(pc.task, pc.rest, pc.resend, outcome))
  {
    var x, next := Exchange(Request(pc), Tx(outcome)), AfterTx(pc.task, pc.rest, pc.resend, outcome);
    OpenTask(log, pc);
    StaysOpen(log, x);
    SameQuestion(pc.task);
    assert Next(ids, log + [x]) == AfterSend(log + [x], pc.task, Tx(outcome));
    StillOpen(log, x, pc, next);
  }

  lemma {:induction false} SendTallies(ids: seq<string>, log: seq<Exchange>, pc: Pc, answer: Answer)
    requires Tallies(ids, log, pc) && pc.Submitting?
    ensures Tallies(ids, log + [Exchange(Request(pc), answer)], Resume(pc, answer))
  {
    if answer.Tx? && ErrorOf(answer.outcome).Some? {
      ErrorTallies(ids, log, pc, answer.outcome);
    } else if answer.Tx? && !answer.outcome.NoncePoolUnavailable? {
      ReceiptTallies(ids, log, pc, answer.outcome);
    } else {
      OpenTask(log, pc);
      StaysOpen(log, Exchange(Request(pc), answer));
    }
  }

  /** An outcome that closes its task leads to the next one. */
  lemma {:induction false} ClosedTallies(ids: seq<string>, log: seq<Exchange>, pc: Pc)
    requires Tallies(ids, log, pc) && pc.Persisting? && pc.stop.None?
    ensures Tallies(ids, log + [Exchange(pc.operation, Persisted)], Begin(pc.rest))
  {
    var x := Exchange(pc.operation, Persisted);
    var longer := log + [x];
    OpenTask(log, pc);
    assert longer[..|log|] == log && Back(longer, 1) == Back(log, 0) && Back(longer, 2) == Back(log, 1);
    assert Batch(longer) == Batch(log) && Closed(longer) == Closed(log) + 1;
    assert Next(ids, longer) == AfterOutcome(longer, x) == NextTask(longer);
    BeginTallies(ids, longer);
  }

  lemma {:induction false} OutcomeTallies(ids: seq<string>, log: seq<Exchange>, pc: Pc, answer: Answer)
    requires Tallies(ids, log, pc) && pc.Persisting?
    ensures Tallies(ids, log + [Exchange(Request(pc), answer)], Resume(pc, answer))
  {
    if answer.Persisted? && pc.stop.None? {
      ClosedTallies(ids, log, pc);
    } else {
      var x := Exchange(Request(pc), answer);
      var longer := log + [x];
      assert Back(longer, 1) == Back(log, 0) && Back(longer, 2) == Back(log, 1);
      assert Next(ids, longer) == AfterOutcome(longer, x);
    }
  }

  lemma {:induction false} ResumeTallies(ids: seq<string>, log: seq<Exchange>, pc: Pc, answer: Answer)
    requires Tallies(ids, log, pc) && !pc.Settled?
    ensures Tallies(ids, log + [Exchange(Request(pc), answer)], Resume(pc, answer))
  {
    match pc
    case Loading(_) =>
      LoadTallies(ids, answer);
      assert log + [Exchange(Request(pc), answer)] == [Exchange(LoadTasks(ids), answer)];
    case Checking(_, _, _) => CheckTallies(ids, log, pc, answer);
    case Submitting(_, _, _) => SendTallies(ids, log, pc, answer);
    case Persisting(_, _, _, _, _) => OutcomeTallies(ids, log, pc, answer);
  }

  lemma {:induction false} LogTallies(ids: seq<string>, log: seq<Exchange>)
    requires After(ids, log).Some?
    ensures Tallies(ids, log, After(ids, log).value)
  {
    if log != [] {
      var front := log[..|log| - 1];
      LogTallies(ids, front);
      ResumeTallies(ids, front, After(ids, front).value, log[|log| - 1].answer);
      assert front + [log[|log| - 1]] == log;
    }
  }

  lemma {:induction false} ConformsSnoc(ids: seq<string>, log: seq<Exchange>, x: Exchange)
    ensures Conforms(ids, log + [x]) <==> Conforms(ids, log) && Next(ids, log) == Ask(x.operation)
  {
    var longer := log + [x];
    assert longer[..|log|] == log && longer[|log|] == x;
    assert forall i | 0 <= i < |log| :: longer[..i] == log[..i] && longer[i] == log[i];
    if Conforms(ids, longer) {
      forall i | 0 <= i < |log| ensures Next(ids, log[..i]) == Ask(log[i].operation) {
        assert Next(ids, longer[..i]) == Ask(longer[i].operation);
      }
      assert Next(ids, longer[..|log|]) == Ask(longer[|log|].operation);
    }
  }

  lemma {:induction false} RunSnoc(ids: seq<string>, log: seq<Exchange>, x: Exchange)
    ensures After(ids, log + [x]).Some? <==> After(ids, log).Some? && Next(ids, log) == Ask(x.operation)
  {
    assert (log + [x])[..|log|] == log;
    if After(ids, log).Some? { LogTallies(ids, log); }
  }

  /** A log is one of the machine's exactly when every operation in it was due; and what the machine
      asks next, or ends with, is what is due next. */
  lemma {:induction false} RunsExactlyWhatIsDue(ids: seq<string>, log: seq<Exchange>)
    ensures After(ids, log).Some? <==> Conforms(ids, log)
    ensures After(ids, log).Some? ==>
              var pc := After(ids, log).value;
              WellFormed(pc) && Next(ids, log) == (if pc.Settled? then End(pc.verdict) else Ask(Request(pc)))
  {
    if After(ids, log).Some? { LogTallies(ids, log); }
    if log != [] {
      var front, last := log[..|log| - 1], log[|log| - 1];
      assert front + [last] == log;
      RunsExactlyWhatIsDue(ids, front);
      RunSnoc(ids, front, last);
      ConformsSnoc(ids, front, last);
    }
  }

  lemma {:induction false} WasDue(ids: seq<string>, log: seq<Exchange>, i: nat)
    requires After(ids, log).Some? && i < |log|
    ensures Next(ids, log[..i]) == Ask(log[i].operation)
  {
    RunsExactlyWhatIsDue(ids, log);
  }

  // ── Two reverts ──────────────────────────────────────────────────────────

  predicate RevertedAt(log: seq<Exchange>, i: nat, task: Task) {
    i < |log| && log[i].operation == SubmitRegister(task) && log[i].answer.Tx? && log[i].answer.outcome.TxReverted?
  }

  /** The operation in the log is about the task in hand. */
  lemma {:induction false} AboutTheTask(ids: seq<string>, log: seq<Exchange>, i: nat) returns (task: Task)
    requires After(ids, log).Some? && i < |log| && !log[i].operation.LoadTasks?
    ensures i > 0 && InHand(log[..i]) == Some(task)
    ensures log[i].operation.SubmitRegister? ==> log[i].operation.task == task
    ensures log[i].operation.CheckContentRegistered? || log[i].operation.CheckReferenced? ==> Question(task) == Some(log[i].operation)
    ensures Target(log[i].operation).Some? ==> Target(log[i].operation) == Some(task.id)
  {
    WasDue(ids, log, i);
    PrefixIsRun(ids, log, i);
    LogTallies(ids, log[..i]);
    var pc := After(ids, log[..i]).value;
    OpenTask(log[..i], pc);
    SameQuestion(pc.task);
    task := pc.task;
  }

  /** The task in hand stays the same over an exchange that closes nothing. */
  lemma {:induction false} SameTask(ids: seq<string>, log: seq<Exchange>, i: nat)
    requires After(ids, log).Some? && 0 < i < |log| && !Closes(log[i])
    ensures InHand(log[..i + 1]) == InHand(log[..i])
  {
    assert log[..i + 1] == log[..i] + [log[i]];
    StaysOpen(log[..i], log[i]);
  }

  /** A task fails as reverted twice only after both its sends reverted, with an "absent" answer about
      it between them. */
  lemma {:induction false} RevertedTwiceIsTwice(ids: seq<string>, log: seq<Exchange>, i: nat) returns (task: Task)
    requires After(ids, log).Some? && i < |log| && log[i].operation.MarkFailed? && log[i].operation.note.RevertedTwice?
    ensures task.id == log[i].operation.taskId && i > 3
    ensures RevertedAt(log, i - 1, task) && RevertedAt(log, i - 3, task)
    ensures Question(task) == Some(log[i - 2].operation) && log[i - 2].answer == ContentChecked(false)
  {
    task := AboutTheTask(ids, log, i);
    DueToTwoReverts(ids, log, i);
    var third := AboutTheTask(ids, log, i - 1);
    var second := AboutTheTask(ids, log, i - 2);
    var first := AboutTheTask(ids, log, i - 3);
    SameTask(ids, log, i - 1);
    SameTask(ids, log, i - 2);
    SameTask(ids, log, i - 3);
    SecondSubmitOnlyAfterRevert(ids, log, task.id, i - 3, i - 1);
  }

  lemma {:induction false} DueToTwoReverts(ids: seq<string>, log: seq<Exchange>, i: nat)
    requires After(ids, log).Some? && i < |log| && log[i].operation.MarkFailed? && log[i].operation.note.RevertedTwice?
    ensures i > 3 && log[i - 1].operation.SubmitRegister? && log[i - 1].answer.Tx? && log[i - 1].answer.outcome.TxReverted?
    ensures log[i - 3].operation.SubmitRegister?
    ensures log[i - 2].answer == ContentChecked(false)
    ensures log[i - 2].operation.CheckContentRegistered? || log[i - 2].operation.CheckReferenced?
  {
    var front := log[..i];
    WasDue(ids, log, i);
    assert i > 0 && front[i - 1] == log[i - 1];
    assert Sends(Back(front, 2)) && front[i - 3] == log[i - 3];
    EverySubmitFollowsAbsence(ids, log, i - 1);
    var task := AboutTheTask(ids, log, i - 3);
  }

  /** Nothing before i sends this task. */
  predicate FirstSend(log: seq<Exchange>, i: nat, task: Task) {
    && i < |log| && log[i].operation == SubmitRegister(task)
    && forall j | 0 <= j < i :: !SubmitsAt(log, j, task.id)
  }

  /** A first send that reverts is followed by a question about the task, and if the answer is
      "absent", by a second send of it. */
  lemma {:induction false} FirstRevertIsRetried(ids: seq<string>, log: seq<Exchange>, i: nat, task: Task)
    requires After(ids, log).Some? && FirstSend(log, i, task) && RevertedAt(log, i, task) && i + 1 < |log|
    ensures Question(task) == Some(log[i + 1].operation)
    ensures log[i + 1].answer == ContentChecked(false) && i + 2 < |log| ==> log[i + 2].operation == SubmitRegister(task)
  {
    var sent := AboutTheTask(ids, log, i);
    SameTask(ids, log, i);
    WasDue(ids, log, i + 1);
    var through := log[..i + 1];
    assert through[i] == log[i];
    if Sends(Back(through, 2)) { SentBefore(ids, log, i); }
    EncodableIfSent(ids, log, i);
    if log[i + 1].answer == ContentChecked(false) && i + 2 < |log| {
      SameTask(ids, log, i + 1);
      ResendIsDue(ids, log, i, task);
    }
  }

  lemma {:induction false} ResendIsDue(ids: seq<string>, log: seq<Exchange>, i: nat, task: Task)
    requires After(ids, log).Some? && RevertedAt(log, i, task) && i + 2 < |log| && InHand(log[..i + 2]) == Some(task)
    requires Question(task) == Some(log[i + 1].operation) && log[i + 1].answer == ContentChecked(false)
    ensures log[i + 2].operation == SubmitRegister(task)
  {
    var front := log[..i + 2];
    WasDue(ids, log, i + 2);
    assert front[i + 1] == log[i + 1] && front[i] == log[i];
    assert Next(ids, front) == AfterQuestion(front, task, ContentChecked(false));
  }

  lemma {:induction false} EncodableIfSent(ids: seq<string>, log: seq<Exchange>, i: nat)
    requires After(ids, log).Some? && i < |log| && log[i].operation.SubmitRegister?
    ensures Question(log[i].operation.task).Some?
  {
    EverySubmitFollowsAbsence(ids, log, i);
    SameQuestion(log[i].operation.task);
  }

  /** Two sends two places apart are of one task. */
  lemma {:induction false} SentBefore(ids: seq<string>, log: seq<Exchange>, i: nat)
    requires After(ids, log).Some? && 2 <= i < |log| && log[i].operation.SubmitRegister? && log[i - 2].operation.SubmitRegister?
    ensures log[i - 2].operation.task == log[i].operation.task && SubmitsAt(log, i - 2, log[i].operation.task.id)
  {
    EverySubmitFollowsAbsence(ids, log, i);
    var third := AboutTheTask(ids, log, i);
    var first := AboutTheTask(ids, log, i - 2);
    SameTask(ids, log, i - 1);
    SameTask(ids, log, i - 2);
  }
}
