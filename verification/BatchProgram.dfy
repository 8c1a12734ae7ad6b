/**
 * drive_batch in its imperative form (p256-registrar/src/submission.rs:209-478): one shell
 * operation after another, `:-` for the early return with a verdict. Whatever the shell
 * answers, the log it leaves is a run of the coroutine in Submission.dfy that settles on the
 * same verdict, so every theorem about that machine's traces holds of this program.
 */
module BatchProgram {
  import opened Basics
  import opened Tasks
  import opened ChainErrors
  import opened Submission

  /** The program's Result<T, BatchVerdict>. */
  datatype Flow<+T> = Go(value: T) | Stop(verdict: Verdict) {
    predicate IsFailure() { Stop? }
    function PropagateFailure<U>(): Flow<U> requires Stop? { Stop(verdict) }
    function Extract(): T requires Go? { value }
  }

  datatype ContentState = Registered | Absent | Unencodable

  /** A shell that answers from a script; past its end the store is unavailable. */
  class Shell {
    const script: seq<Answer>
    var log: seq<Exchange>

    constructor (script: seq<Answer>)
      ensures this.script == script && log == [] && Scripted()
    {
      this.script := script;
      log := [];
    }

    function AnswerAt(i: nat): Answer {
      if i < |script| then script[i] else StoreUnavailable
    }

    predicate Scripted()
      reads this
    {
      forall i | 0 <= i < |log| :: log[i].answer == AnswerAt(i)
    }

    method Ask(operation: Operation) returns (answer: Answer)
      requires Scripted()
      modifies this
      ensures Scripted() && log == old(log) + [Exchange(operation, answer)]
    {
      answer := AnswerAt(|log|);
      log := log + [Exchange(operation, answer)];
    }
  }

  lemma {:induction false} AfterExtends(ids: seq<string>, log: seq<Exchange>, pc: Pc, answer: Answer)
    requires After(ids, log) == Some(pc) && WellFormed(pc) && !pc.Settled?
    ensures After(ids, log + [Exchange(Request(pc), answer)]) == Some(Resume(pc, answer))
  {
    var longer := log + [Exchange(Request(pc), answer)];
    assert longer[..|longer| - 1] == log;
  }

  method Persist(shell: Shell, operation: Operation, outage: Reason, ghost ids: seq<string>, ghost pc: Pc)
    returns (r: Flow<()>)
    requires shell.Scripted() && After(ids, shell.log) == Some(pc)
    requires pc.Persisting? && WellFormed(pc) && pc.operation == operation && pc.outage == outage
    modifies shell
    ensures shell.Scripted()
    ensures After(ids, shell.log) == Some(if r.Stop? then Settled(r.verdict) else Resume(pc, Persisted))
  {
    var answer := shell.Ask(operation);
    AfterExtends(ids, old(shell.log), pc, answer);
    match answer {
      case Persisted => return Go(());
      case StoreUnavailable => return Stop(Retry(outage));
      case _ => return Stop(Retry(PersistMalformed));
    }
  }

  method CheckContent(shell: Shell, task: Task, ghost ids: seq<string>, ghost rest: seq<Task>, ghost stage: Stage)
    returns (r: Flow<ContentState>)
    requires shell.Scripted()
    requires CheckFor(task).Some? ==> After(ids, shell.log) == Some(Checking(task, rest, stage))
    modifies shell
    ensures shell.Scripted()
    ensures CheckFor(task).None? ==> r == Go(Unencodable) && shell.log == old(shell.log)
    ensures CheckFor(task).Some? && r.Stop? ==> After(ids, shell.log) == Some(Settled(r.verdict))
    ensures CheckFor(task).Some? && r.Go? ==>
              r.value != Unencodable && After(ids, shell.log) == Some(AfterCheck(task, rest, stage, r.value == Registered))
  {
    var operation;
    match task.kind {
      case Register =>
        var hash := ContentHash(task);
        if hash.None? { return Go(Unencodable); }
        operation := CheckContentRegistered(hash.value);
      case Refer =>
        if task.members == [] { return Go(Unencodable); }
        operation := CheckReferenced(task.groupKey, task.members[0].publicKey);
    }
    ghost var pc := Checking(task, rest, stage);
    var answer := shell.Ask(operation);
    AfterExtends(ids, old(shell.log), pc, answer);
    match answer {
      case ContentChecked(registered) => return Go(if registered then Registered else Absent);
      case ChainReadFailed =>
        ResumeWellFormed(pc, answer);
        var _ :- Persist(shell, RecordTransientFailure(task.id, ReconciliationUnavailable), RetryOutage, ids, Resume(pc, answer));
        return Stop(Retry(CheckFailed));
      case _ => return Stop(Retry(CheckMalformed));
    }
  }

  method MarkTaskDone(shell: Shell, task: Task, txHash: Option<string>, onChainId: Option<nat>,
                      ghost ids: seq<string>, ghost rest: seq<Task>, ghost stop: Option<Reason>)
    returns (r: Flow<()>)
    requires shell.Scripted() && After(ids, shell.log) == Some(Finished(task, rest, txHash, onChainId, stop))
    modifies shell
    ensures shell.Scripted()
    ensures After(ids, shell.log) ==
            Some(if r.Stop? then Settled(r.verdict) else if stop.Some? then Settled(Retry(stop.value)) else Begin(rest))
  {
    r := Persist(shell, MarkDone(task.id, txHash, onChainId), DoneOutage, ids, Finished(task, rest, txHash, onChainId, stop));
  }

  method Submit(shell: Shell, task: Task, ghost ids: seq<string>, ghost rest: seq<Task>, ghost resend: bool)
    returns (r: Flow<TxOutcome>)
    requires shell.Scripted() && CheckFor(task).Some?
    requires After(ids, shell.log) == Some(Submitting(task, rest, resend))
    modifies shell
    ensures shell.Scripted()
    ensures r.Stop? ==> After(ids, shell.log) == Some(Settled(r.verdict))
    ensures r.Go? ==> !r.value.NoncePoolUnavailable? && After(ids, shell.log) == Some(AfterTx(task, rest, resend, r.value))
  {
    var answer := shell.Ask(SubmitRegister(task));
    AfterExtends(ids, old(shell.log), Submitting(task, rest, resend), answer);
    match answer {
      case Tx(outcome) =>
        if outcome.NoncePoolUnavailable? { return Stop(Retry(NoNonce)); }
        return Go(outcome);
      case _ => return Stop(Retry(WriteMalformed));
    }
  }

  method ClassifyFailure(shell: Shell, task: Task, error: ChainError,
                         ghost ids: seq<string>, ghost rest: seq<Task>, ghost stop: Option<Reason>)
    returns (r: Flow<()>)
    requires shell.Scripted() && CheckFor(task).Some?
    requires After(ids, shell.log) == Some(ClassifyTask(task, rest, error, stop))
    requires Classify(error).Transient? ==> stop.Some?
    modifies shell
    ensures shell.Scripted()
    ensures After(ids, shell.log) ==
            Some(if r.Stop? then Settled(r.verdict) else if stop.Some? then Settled(Retry(stop.value)) else Begin(rest))
  {
    var note := WriteFailed(error);
    match Classify(error) {
      case AlreadyExists =>
        var state :- CheckContent(shell, task, ids, rest, AfterExists(note, stop));
        if state == Registered {
          r := MarkTaskDone(shell, task, task.txHash, None, ids, rest, stop);
        } else {
          r := Persist(shell, MarkFailed(task.id, note), PoisonOutage, ids, Refused(task, rest, note, stop, PoisonOutage));
        }
      case Transient =>
        r := Persist(shell, RecordTransientFailure(task.id, note), RetryOutage, ids, Postponed(task, rest, note, stop));
      case Poison =>
        r := Persist(shell, MarkFailed(task.id, note), PoisonOutage, ids, Refused(task, rest, note, stop, PoisonOutage));
    }
  }

  /** The register reverted: reconcile, then resend once. */
  method RegisterReverted(shell: Shell, task: Task, ghost ids: seq<string>, ghost rest: seq<Task>)
    returns (r: Flow<()>)
    requires shell.Scripted() && CheckFor(task).Some?
    requires After(ids, shell.log) == Some(Checking(task, rest, AfterRevert))
    modifies shell
    ensures shell.Scripted()
    ensures After(ids, shell.log) == Some(if r.Stop? then Settled(r.verdict) else Begin(rest))
  {
    var state :- CheckContent(shell, task, ids, rest, AfterRevert);
    if state == Registered {
      r := MarkTaskDone(shell, task, task.txHash, None, ids, rest, None);
      return;
    }
    var outcome :- Submit(shell, task, ids, rest, true);
    match outcome {
      case Confirmed(txHash, onChainId) => r := MarkTaskDone(shell, task, Some(txHash), onChainId, ids, rest, None);
      case TxReverted(_) =>
        r := Persist(shell, MarkFailed(task.id, RevertedTwice), FailedOutage, ids,
                     Refused(task, rest, RevertedTwice, None, FailedOutage));
      case ReceiptUncertain(error) =>
        var _ :- ClassifyFailure(shell, task, error, ids, rest, Some(ReceiptUnknown));
        return Stop(Retry(ReceiptUnknown));
      case SendFailed(error) =>
        var _ :- ClassifyFailure(shell, task, error, ids, rest, AfterSendFailure(error));
        if Classify(error) == Transient { return Stop(Retry(WriteDeferred)); }
        return Go(());
    }
  }

  method SubmitStage(shell: Shell, task: Task, ghost ids: seq<string>, ghost rest: seq<Task>)
    returns (r: Flow<()>)
    requires shell.Scripted() && CheckFor(task).Some?
    requires After(ids, shell.log) == Some(Submitting(task, rest, false))
    modifies shell
    ensures shell.Scripted()
    ensures After(ids, shell.log) == Some(if r.Stop? then Settled(r.verdict) else Begin(rest))
  {
    var outcome :- Submit(shell, task, ids, rest, false);
    match outcome {
      case Confirmed(txHash, onChainId) => r := MarkTaskDone(shell, task, Some(txHash), onChainId, ids, rest, None);
      case TxReverted(_) => r := RegisterReverted(shell, task, ids, rest);
      case ReceiptUncertain(error) =>
        var _ :- ClassifyFailure(shell, task, error, ids, rest, Some(ReceiptUnknown));
        return Stop(Retry(ReceiptUnknown));
      case SendFailed(error) =>
        var _ :- ClassifyFailure(shell, task, error, ids, rest, AfterSendFailure(error));
        if Classify(error) == Transient { return Stop(Retry(WriteDeferred)); }
        return Go(());
    }
  }

  /** Keep each non-terminal record once, in loading order. */
  method Canonicalize(loaded: seq<Option<Task>>) returns (canonical: seq<Task>)
    ensures canonical == Canonical(loaded, {})
  {
    canonical := [];
    var seen: set<string> := {};
    for i := 0 to |loaded|
      invariant canonical + Canonical(loaded[i..], seen) == Canonical(loaded, {})
    {
      assert loaded[i..][1..] == loaded[i + 1..];
      if loaded[i].Some? {
        var task := loaded[i].value;
        if !task.status.Terminal() && task.id !in seen {
          seen := seen + {task.id};
          canonical := canonical + [task];
        }
      }
    }
  }

  method ProcessTask(shell: Shell, task: Task, ghost ids: seq<string>, ghost rest: seq<Task>) returns (r: Flow<()>)
    requires shell.Scripted() && After(ids, shell.log) == Some(Begin([task] + rest))
    modifies shell
    ensures shell.Scripted()
    ensures After(ids, shell.log) == Some(if r.Stop? then Settled(r.verdict) else Begin(rest))
  {
    assert ([task] + rest)[1..] == rest;
    var state :- CheckContent(shell, task, ids, rest, Reconcile);
    match state {
      case Registered => r := MarkTaskDone(shell, task, task.txHash, None, ids, rest, None);
      case Absent => r := SubmitStage(shell, task, ids, rest);
      case Unencodable =>
        r := Persist(shell, MarkFailed(task.id, CannotEncode), PoisonOutage, ids,
                     Refused(task, rest, CannotEncode, None, PoisonOutage));
    }
  }

  /** One polled batch, from envelope ids to a verdict. */
  method DriveBatch(shell: Shell, ids: seq<string>) returns (verdict: Verdict)
    requires shell.log == []
    modifies shell
    ensures shell.Scripted() && After(ids, shell.log) == Some(Settled(verdict))
  {
    if ids == [] { return Advance; }
    var answer := shell.Ask(LoadTasks(ids));
    AfterExtends(ids, [], Loading(ids), answer);
    if answer.StoreUnavailable? { return Retry(LoadOutage); }
    if !answer.TasksLoaded? { return Retry(LoadMalformed); }
    var canonical := Canonicalize(answer.tasks);
    for i := 0 to |canonical|
      invariant shell.Scripted()
      invariant After(ids, shell.log) == Some(Begin(canonical[i..]))
    {
      assert canonical[i..] == [canonical[i]] + canonical[i + 1..];
      var r := ProcessTask(shell, canonical[i], ids, canonical[i + 1..]);
      if r.Stop? { return r.verdict; }
    }
    return Advance;
  }
}
