/**
 * What the admission program must ask next, read off the log alone
 * (p256-registrar/src/admission.rs:340-565). The program of AdmissionProgram.dfy and the machine of
 * Admissions.dfy are proved to do exactly this.
 */
module AdmissionHistory {
  import opened Basics
  import opened Tasks
  import opened RetryDigests
  import opened Admissions
  import Stores

  datatype Due = Ask(operation: Operation) | End(outcome: Outcome)

  function Down(): Due { End(DependencyUnavailable(Redis)) }

  /** Is the write on the chain already? */
  function Precheck(v: Task): Due
    requires Validated(v)
  {
    if v.kind.Register? then Ask(CheckContentRegistered(v.contentHash))
    else Ask(CheckReferenced(v.groupKey, v.members[0].publicKey))
  }

  /** A task that is known already answers for the request; one that never got into the queue is put
      there first. */
  function Known(task: Task): Due {
    if task.admitted || task.status.Done? || task.status.Failed? then End(Queued(task.id, task.status)) else Ask(Enqueue(task))
  }

  /** What is due behind one exchange of a request for `v`. */
  function Behind(v: Task, x: Exchange): Due
    requires Validated(v)
  {
    match (x.operation, x.answer)
    case (AllowIpCreate, Allowed(true)) => Ask(FindTaskByContent(v.contentHash))
    case (AllowIpCreate, Allowed(false)) => End(RateLimited)
    case (FindTaskByContent(_), TaskFound(Some(task))) => Known(task)
    case (FindTaskByContent(_), TaskFound(None)) =>
      if v.kind.Register? then Ask(FindTaskByRetryDigest(RetryDigest(v))) else Precheck(v)
    case (FindTaskByRetryDigest(_), TaskFound(found)) =>
      if found.Some? && !found.value.status.Failed? then Known(found.value) else Precheck(v)
    case (CheckContentRegistered(_), ChainBool(true)) => End(AlreadyRegistered(v.contentHash))
    case (CheckContentRegistered(_), ChainBool(false)) => Ask(QueueDepth)
    case (CheckContentRegistered(_), ChainReadFailed) => Ask(QueueDepth)
    case (CheckReferenced(_, _), ChainBool(true)) => End(AlreadyRegistered(v.contentHash))
    case (CheckReferenced(_, _), ChainBool(false)) => Ask(CheckGroupExists(v.groupKey))
    case (CheckReferenced(_, _), ChainReadFailed) => Ask(CheckGroupExists(v.groupKey))
    case (CheckGroupExists(_), ChainBool(true)) => Ask(QueueDepth)
    case (CheckGroupExists(_), ChainBool(false)) => Ask(FindTaskByKey(v.groupKey))
    case (CheckGroupExists(_), ChainReadFailed) => Ask(QueueDepth)
    case (FindTaskByKey(_), TaskFound(found)) =>
      if found.Some? && found.value.kind.Register? && found.value.groupKey == v.groupKey && found.value.status.Pending?
      then Ask(QueueDepth) else End(ReferGroupMissing)
    case (QueueDepth, Depth(depth)) => if depth < 10_000 then Ask(AllowGlobalCreate) else End(Busy)
    case (AllowGlobalCreate, Allowed(true)) => Ask(Admit(v))
    case (AllowGlobalCreate, Allowed(false)) => End(Busy)
    case (Admit(_), Admitted(New)) =>
      if v.kind.Register? then Ask(RecordRetryDigest(RetryDigest(v), v.id)) else Ask(Enqueue(v))
    case (Admit(_), Admitted(Existing(id))) => Ask(LoadTask(id))
    case (RecordRetryDigest(_, _), _) => Ask(Enqueue(v))
    case (LoadTask(_), TaskFound(Some(task))) => if task.admitted then End(Queued(task.id, task.status)) else Ask(Enqueue(task))
    case (Enqueue(task), Enqueued) => Ask(MarkAdmitted(task.id))
    case (Enqueue(_), QueueUnavailable) => End(DependencyUnavailable(Queue))
    case (MarkAdmitted(_), TaskFound(Some(task))) => End(Queued(task.id, task.status))
    case _ => Down()
  }

  function Next(validated: Option<Task>, log: seq<Exchange>): Due
    requires validated.Some? ==> Validated(validated.value)
  {
    if validated.None? then End(Invalid)
    else if log == [] then Ask(AllowIpCreate)
    else Behind(validated.value, log[|log| - 1])
  }

  /** Every operation in the log was due. */
  predicate Conforms(validated: Option<Task>, log: seq<Exchange>)
    requires validated.Some? ==> Validated(validated.value)
  {
    forall i | 0 <= i < |log| :: Next(validated, log[..i]) == Ask(log[i].operation)
  }

  // ── The machine does what is due ─────────────────────────────────────────

  /** What the machine asks, or ends with. */
  function Wants(pc: Pc): Due
    requires WellFormed(pc)
  {
    if pc.Settled? then End(pc.outcome) else Ask(Request(pc))
  }

  /** The machine carries the request until it is admitted, and asks about groups for a refer only. */
  predicate Carries(pc: Pc, v: Task) {
    && (Unborn(pc).Some? ==> Unborn(pc).value == v) && (pc.NotingDigest? ==> pc.admitted == v)
    && (pc.FindingGroup? || pc.FindingRegister? ==> v.kind.Refer?)
  }

  lemma {:induction false} GateIsBehind(pc: Pc, v: Task, answer: Answer)
    requires Validated(v) && Carries(pc, v) && Unborn(pc).Some? && !pc.Admitting?
    ensures var next := Resume(pc, answer);
            && Carries(next, v) && ReferHasMember(next) && WellFormed(next) && WellFormed(pc)
            && Wants(next) == Behind(v, Exchange(Request(pc), answer))
  {}

  lemma {:induction false} AdmittingIsBehind(pc: Pc, v: Task, answer: Answer)
    requires Validated(v) && Carries(pc, v) && !pc.Settled? && (pc.Admitting? || Unborn(pc).None?)
    ensures var next := Resume(pc, answer);
            && Carries(next, v) && ReferHasMember(next) && WellFormed(next)
            && Wants(next) == Behind(v, Exchange(Request(pc), answer))
  {}

  lemma {:induction false} ResumeIsBehind(pc: Pc, v: Task, answer: Answer)
    requires Validated(v) && Carries(pc, v) && !pc.Settled? && WellFormed(pc)
    ensures var next := Resume(pc, answer);
            && Carries(next, v) && ReferHasMember(next) && WellFormed(next)
            && Wants(next) == Behind(v, Exchange(Request(pc), answer))
  {
    if Unborn(pc).Some? && !pc.Admitting? {
      GateIsBehind(pc, v, answer);
    } else {
      AdmittingIsBehind(pc, v, answer);
    }
  }

  lemma {:induction false} LogIsDue(validated: Option<Task>, log: seq<Exchange>)
    requires validated.Some? ==> Validated(validated.value)
    requires After(validated, log).Some?
    ensures var pc := After(validated, log).value;
            && WellFormed(pc) && Wants(pc) == Next(validated, log)
            && (validated.Some? ==> Carries(pc, validated.value)) && (validated.None? ==> log == [])
  {
    if log != [] {
      var front, last := log[..|log| - 1], log[|log| - 1];
      LogIsDue(validated, front);
      var pc := After(validated, front).value;
      ResumeIsBehind(pc, validated.value, last.answer);
      assert last == Exchange(Request(pc), last.answer);
    }
  }

  lemma {:induction false} ConformsSnoc(validated: Option<Task>, log: seq<Exchange>, x: Exchange)
    requires validated.Some? ==> Validated(validated.value)
    ensures Conforms(validated, log + [x]) <==> Conforms(validated, log) && Next(validated, log) == Ask(x.operation)
  {
    var longer := log + [x];
    assert longer[..|log|] == log && longer[|log|] == x;
    assert forall i | 0 <= i < |log| :: longer[..i] == log[..i] && longer[i] == log[i];
    if Conforms(validated, longer) {
      forall i | 0 <= i < |log| ensures Next(validated, log[..i]) == Ask(log[i].operation) {
        assert Next(validated, longer[..i]) == Ask(longer[i].operation);
      }
      assert Next(validated, longer[..|log|]) == Ask(longer[|log|].operation);
    }
  }

  lemma {:induction false} RunSnoc(validated: Option<Task>, log: seq<Exchange>, x: Exchange)
    requires validated.Some? ==> Validated(validated.value)
    ensures After(validated, log + [x]).Some? <==> After(validated, log).Some? && Next(validated, log) == Ask(x.operation)
  {
    assert (log + [x])[..|log|] == log;
    if After(validated, log).Some? { LogIsDue(validated, log); }
  }

  /** A log is one of the machine's exactly when every operation in it was due; and what the machine
      asks next, or ends with, is what is due next. */
  lemma {:induction false} RunsExactlyWhatIsDue(validated: Option<Task>, log: seq<Exchange>)
    requires validated.Some? ==> Validated(validated.value)
    ensures After(validated, log).Some? <==> Conforms(validated, log)
    ensures After(validated, log).Some? ==>
              WellFormed(After(validated, log).value) && Wants(After(validated, log).value) == Next(validated, log)
  {
    if After(validated, log).Some? { LogIsDue(validated, log); }
    if log != [] {
      var front, last := log[..|log| - 1], log[|log| - 1];
      assert front + [last] == log;
      RunsExactlyWhatIsDue(validated, front);
      RunSnoc(validated, front, last);
      ConformsSnoc(validated, front, last);
    }
  }

  // ── A register is looked up by its retry digest ──────────────────────────

  /** The lookup that lets a register through: no task, or one that failed. */
  predicate Unmarked(x: Exchange, v: Task) {
    && x.operation == FindTaskByRetryDigest(RetryDigest(v)) && x.answer.TaskFound?
    && (x.answer.task.Some? ==> x.answer.task.value.status.Failed?)
  }

  /** Behind the lookups, on the way to the store. */
  predicate BehindLookups(pc: Pc) { Unborn(pc).Some? && !pc.AskingIp? && !pc.FindingContent? && !pc.FindingDigest? }

  lemma {:induction false} BehindComesFrom(pc: Pc, v: Task, answer: Answer)
    requires Carries(pc, v) && v.kind.Register? && !pc.Settled? && WellFormed(pc) && BehindLookups(Resume(pc, answer))
    ensures BehindLookups(pc) || (pc.FindingDigest? && Unmarked(Exchange(Request(pc), answer), v))
  {}

  lemma {:induction false} LookedUpBefore(v: Task, log: seq<Exchange>)
    requires Validated(v) && v.kind.Register? && After(Some(v), log).Some? && BehindLookups(After(Some(v), log).value)
    ensures |log| > 2 && Unmarked(log[2], v)
  {
    assert log != [];
    var front, last := log[..|log| - 1], log[|log| - 1];
    var pc := After(Some(v), front).value;
    LogIsDue(Some(v), front);
    assert last == Exchange(Request(pc), last.answer) && After(Some(v), log).value == Resume(pc, last.answer);
    BehindComesFrom(pc, v, last.answer);
    if pc.FindingDigest? {
      TwoBefore(v, front);
    } else {
      LookedUpBefore(v, front);
    }
  }

  lemma {:induction false} TwoBefore(v: Task, log: seq<Exchange>)
    requires Validated(v) && After(Some(v), log).Some? && After(Some(v), log).value.FindingDigest?
    ensures |log| == 2
  {
    BeginsWithTheAddress(Some(v), log);
    var front := log[..|log| - 1];
    assert After(Some(v), front).value.FindingContent?;
    if front != [] { BeginsWithTheAddress(Some(v), front); }
  }

  /** A register reaches the store only after its retry digest was looked up and led to no task, or
      to one that failed. */
  lemma {:induction false} EveryRegisterIsLookedUp(v: Task, log: seq<Exchange>, i: nat)
    requires Validated(v) && v.kind.Register? && After(Some(v), log).Some? && i < |log| && log[i].operation.Admit?
    ensures i > 2 && log[i].operation == Admit(v) && Unmarked(log[2], v)
  {
    RunIsPrefixClosed(Some(v), log, i + 1);
    assert log[..i + 1] == log[..i] + [log[i]];
    RunSnoc(Some(v), log[..i], log[i]);
    LogIsDue(Some(v), log[..i]);
    AdmitsAtTheStore(After(Some(v), log[..i]).value, v);
    LookedUpBefore(v, log[..i]);
  }

  lemma {:induction false} AdmitsAtTheStore(pc: Pc, v: Task)
    requires WellFormed(pc) && Carries(pc, v) && Wants(pc).Ask? && Wants(pc).operation.Admit?
    ensures pc == Admitting(v)
  {}

  lemma {:induction false} RunIsPrefixClosed(validated: Option<Task>, log: seq<Exchange>, n: nat)
    requires validated.Some? ==> Validated(validated.value)
    requires n <= |log| && After(validated, log).Some?
    ensures After(validated, log[..n]).Some?
  {
    if n < |log| {
      assert log[..|log| - 1][..n] == log[..n];
      RunIsPrefixClosed(validated, log[..|log| - 1], n);
    } else {
      assert log[..n] == log;
    }
  }
}
