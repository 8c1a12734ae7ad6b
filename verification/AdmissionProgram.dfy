/**
 * drive_admission in its imperative form (p256-registrar/src/admission.rs:340-565). Whatever
 * the shell answers, its log is a run of the coroutine in Admissions.dfy that settles on the
 * same outcome.
 */
module AdmissionProgram {
  import opened Basics
  import opened Tasks
  import opened RetryDigests
  import opened Admissions

  /** The program's Result<T, AdmissionOutcome>. */
  datatype Flow<+T> = Go(value: T) | Stop(outcome: Outcome) {
    predicate IsFailure() { Stop? }
    function PropagateFailure<U>(): Flow<U> requires Stop? { Stop(outcome) }
    function Extract(): T requires Go? { value }
  }

  /** A shell that answers from a script; past its end the store is unavailable. */
  class Shell {
    const script: seq<Answer>
    var log: seq<Exchange>

    constructor (script: seq<Answer>)
      ensures this.script == script && log == [] && Scripted()
    {
      this.script := script;
      log := [];
    }

    function AnswerAt(i: nat): Answer {
      if i < |script| then script[i] else StoreUnavailable
    }

    predicate Scripted()
      reads this
    {
      forall i | 0 <= i < |log| :: log[i].answer == AnswerAt(i)
    }

    method Ask(operation: Operation) returns (answer: Answer)
      requires Scripted()
      modifies this
      ensures Scripted() && log == old(log) + [Exchange(operation, answer)]
    {
      answer := AnswerAt(|log|);
      log := log + [Exchange(operation, answer)];
    }
  }

  /** What validation hands over: a refer has its member. */
  ghost predicate StandsAtPc(shell: Shell, task: Task, pc: Pc)
    requires Validated(task)
    reads shell
  {
    shell.Scripted() && After(Some(task), shell.log) == Some(pc)
  }

  method AskAt(shell: Shell, operation: Operation, ghost task: Task, ghost pc: Pc) returns (answer: Answer)
    requires Validated(task) && StandsAtPc(shell, task, pc)
    requires !pc.Settled? && WellFormed(pc) && Request(pc) == operation
    modifies shell
    ensures StandsAtPc(shell, task, Resume(pc, answer))
  {
    answer := shell.Ask(operation);
    assert shell.log[..|shell.log| - 1] == old(shell.log);
  }

  /** Phase two: append to the queue, then mark admitted. */
  method EnqueueTask(shell: Shell, known: Task, ghost task: Task) returns (outcome: Outcome)
    requires Validated(task) && StandsAtPc(shell, task, Enqueuing(known))
    modifies shell
    ensures StandsAtPc(shell, task, Settled(outcome))
  {
    var answer := AskAt(shell, Enqueue(known), task, Enqueuing(known));
    match answer {
      case Enqueued =>
        var marked := AskAt(shell, MarkAdmitted(known.id), task, Marking(known.id));
        match marked {
          case TaskFound(Some(found)) => return Queued(found.id, found.status);
          case _ => return DependencyUnavailable(Redis);
        }
      case QueueUnavailable => return DependencyUnavailable(Queue);
      case _ => return DependencyUnavailable(Redis);
    }
  }

  method ReferGroupGate(shell: Shell, task: Task) returns (r: Flow<()>)
    requires Validated(task) && StandsAtPc(shell, task, FindingGroup(task))
    modifies shell
    ensures StandsAtPc(shell, task, if r.Stop? then Settled(r.outcome) else AskingDepth(task))
  {
    var answer := AskAt(shell, CheckGroupExists(task.groupKey), task, FindingGroup(task));
    match answer {
      case ChainReadFailed => return Go(());
      case ChainBool(exists_) =>
        if exists_ { return Go(()); }
        var found := AskAt(shell, FindTaskByKey(task.groupKey), task, FindingRegister(task));
        match found {
          case TaskFound(Some(pending)) =>
            if InFlightRegister(pending, task.groupKey) { return Go(()); }
            return Stop(ReferGroupMissing);
          case TaskFound(None) => return Stop(ReferGroupMissing);
          case _ => return Stop(DependencyUnavailable(Redis));
        }
      case _ => return Stop(DependencyUnavailable(Redis));
    }
  }

  /** The chain pre-check, fail-open, then the group gate for a refer. */
  method ChainGates(shell: Shell, task: Task) returns (r: Flow<()>)
    requires Validated(task) && StandsAtPc(shell, task, Prechecking(task))
    modifies shell
    ensures StandsAtPc(shell, task, if r.Stop? then Settled(r.outcome) else AskingDepth(task))
  {
    var precheck := if task.kind.Register? then CheckContentRegistered(task.contentHash)
                    else CheckReferenced(task.groupKey, task.members[0].publicKey);
    var answer := AskAt(shell, precheck, task, Prechecking(task));
    match answer {
      case ChainBool(registered) =>
        if registered { return Stop(AlreadyRegistered(task.contentHash)); }
      case ChainReadFailed =>
      case _ => return Stop(DependencyUnavailable(Redis));
    }
    if task.kind.Refer? {
      r := ReferGroupGate(shell, task);
    } else {
      r := Go(());
    }
  }

  /** Phase one, for a task that passed every gate, and then phase two. */
  method AdmitInTwoPhases(shell: Shell, task: Task) returns (outcome: Outcome)
    requires Validated(task) && StandsAtPc(shell, task, Admitting(task))
    modifies shell
    ensures StandsAtPc(shell, task, Settled(outcome))
  {
    var admitted := AskAt(shell, Admit(task), task, Admitting(task));
    match admitted {
      case Admitted(Existing(id)) =>
        var loaded := AskAt(shell, LoadTask(id), task, LoadingExisting(id));
        match loaded {
          case TaskFound(Some(existing)) =>
            if existing.admitted { return Queued(existing.id, existing.status); }
            outcome := EnqueueTask(shell, existing, task);
          case _ => return DependencyUnavailable(Redis);
        }
      case Admitted(New) =>
        if task.kind.Register? {
          // Best-effort: any answer is accepted.
          var _ := AskAt(shell, RecordRetryDigest(RetryDigest(task), task.id), task, NotingDigest(task));
        }
        outcome := EnqueueTask(shell, task, task);
      case _ => return DependencyUnavailable(Redis);
    }
  }

  /** The two write gates, then the two-phase admission. */
  method AdmitTask(shell: Shell, task: Task) returns (outcome: Outcome)
    requires Validated(task) && StandsAtPc(shell, task, AskingDepth(task))
    modifies shell
    ensures StandsAtPc(shell, task, Settled(outcome))
  {
    var depth := AskAt(shell, QueueDepth, task, AskingDepth(task));
    if !depth.Depth? { return DependencyUnavailable(Redis); }
    if depth.depth >= MAX_ACTIVE_QUEUE_DEPTH { return Busy; }
    var budget := AskAt(shell, AllowGlobalCreate, task, AskingGlobal(task));
    if !budget.Allowed? { return DependencyUnavailable(Redis); }
    if !budget.allowed { return Busy; }
    outcome := AdmitInTwoPhases(shell, task);
  }

  method DriveAdmission(shell: Shell, validated: Option<Task>) returns (outcome: Outcome)
    requires shell.log == []
    requires validated.Some? ==> Validated(validated.value)
    modifies shell
    ensures shell.Scripted() && After(validated, shell.log) == Some(Settled(outcome))
  {
    if validated.None? { return Invalid; }
    var task := validated.value;
    var allowed := AskAt(shell, AllowIpCreate, task, AskingIp(task));
    if !allowed.Allowed? { return DependencyUnavailable(Redis); }
    if !allowed.allowed { return RateLimited; }

    var byContent := AskAt(shell, FindTaskByContent(task.contentHash), task, FindingContent(task));
    match byContent {
      case TaskFound(Some(existing)) =>
        if existing.admitted || existing.status.Terminal() { return Queued(existing.id, existing.status); }
        outcome := EnqueueTask(shell, existing, task);
        return;
      case TaskFound(None) =>
      case _ => return DependencyUnavailable(Redis);
    }

    if task.kind.Register? {
      var byDigest := AskAt(shell, FindTaskByRetryDigest(RetryDigest(task)), task, FindingDigest(task));
      match byDigest {
        case TaskFound(found) =>
          if found.Some? && found.value.status != Failed {
            var existing := found.value;
            if existing.admitted || existing.status.Terminal() { return Queued(existing.id, existing.status); }
            outcome := EnqueueTask(shell, existing, task);
            return;
          }
        case _ => return DependencyUnavailable(Redis);
      }
    }

    var gates := ChainGates(shell, task);
    if gates.Stop? { return gates.outcome; }
    outcome := AdmitTask(shell, task);
  }
}
