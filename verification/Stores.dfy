/**
 * The Durable Object's task tables as values, and every store operation as a function on them
 * (p256-index-cf/src/submitter.rs:294-575). Submitter.dfy holds the same operations on mutable
 * tables, proved equal to these functions.
 */
module Stores {
  import opened Basics
  import opened Tasks

  const TASK_DONE_TTL_MS: nat := 7 * 24 * 60 * 60 * 1000
  const TASK_FAILED_TTL_MS: nat := 30 * 24 * 60 * 60 * 1000
  const RETRY_COALESCE_TTL_MS: nat := 24 * 60 * 60 * 1000
  const RETRY_BUDGET: nat := 10

  /** A retry digest, represented by the bytes it hashes. */
  type RetryKey = seq<nat>

  datatype Row = Row(task: Task, expires: Option<nat>)
  datatype Ref = Ref(taskId: string, expires: Option<nat>)

  datatype Store = Store(
    tasks: map<string, Row>,
    content: map<Digest, Ref>,
    keys: map<Hex, Ref>,
    digests: map<RetryKey, Ref>,
    dlq: set<string>)

  const EMPTY := Store(map[], map[], map[], map[], {})

  datatype Admission = New | Existing(id: string)

  // ── Reads ────────────────────────────────────────────────────────────────

  predicate Live(expires: Option<nat>, now: nat) {
    expires.None? || expires.value > now
  }

  function GetTask(s: Store, id: string, now: nat): Option<Task> {
    if id in s.tasks && Live(s.tasks[id].expires, now) then Some(s.tasks[id].task) else None
  }

  function Follow<K>(s: Store, index: map<K, Ref>, key: K, now: nat): Option<Task> {
    if key in index && Live(index[key].expires, now) then GetTask(s, index[key].taskId, now) else None
  }

  function FindByContent(s: Store, hash: Digest, now: nat): Option<Task> { Follow(s, s.content, hash, now) }

  function FindByKey(s: Store, publicKey: Hex, now: nat): Option<Task> { Follow(s, s.keys, publicKey, now) }

  function FindByRetryDigest(s: Store, digest: RetryKey, now: nat): Option<Task> { Follow(s, s.digests, digest, now) }

  // ── Writes ───────────────────────────────────────────────────────────────

  /** INSERT OR IGNORE: a key already in the table keeps its row, expired or not. */
  function Claim(keys: map<Hex, Ref>, wanted: set<Hex>, id: string): map<Hex, Ref> {
    map k | k in keys.Keys + wanted :: if k in keys then keys[k] else Ref(id, None)
  }

  /** Every key the task claims a placeholder for: its members and its group key. */
  function PlaceholderKeys(task: Task): set<Hex> {
    (set m | m in task.members :: m.publicKey) + {task.groupKey}
  }

  function Admit(s: Store, task: Task, now: nat): (Store, Admission) {
    match FindByContent(s, task.contentHash, now)
    case Some(existing) => (s, Existing(existing.id))
    case None =>
      (s.(tasks := s.tasks[task.id := Row(task, None)],
          content := s.content[task.contentHash := Ref(task.id, None)],
          keys := Claim(s.keys, PlaceholderKeys(task), task.id)), New)
  }

  function Put(s: Store, id: string, task: Task): Store
    requires id in s.tasks
  {
    s.(tasks := s.tasks[id := s.tasks[id].(task := task)])
  }

  function MarkAdmitted(s: Store, id: string, now: nat): (Store, Option<Task>) {
    match GetTask(s, id, now)
    case None => (s, None)
    case Some(task) =>
      if task.status.Terminal() then (s, Some(task))
      else (Put(s, id, task.(admitted := true)), Some(task.(admitted := true)))
  }

  function Without<K>(index: map<K, Ref>, id: string): map<K, Ref> {
    map k | k in index && index[k].taskId != id :: index[k]
  }

  function Expiring<K>(index: map<K, Ref>, id: string, expires: nat): map<K, Ref> {
    map k | k in index :: if index[k].taskId == id then Ref(id, Some(expires)) else index[k]
  }

  /** transition_terminal: a failed task drops its indexes, a done one lets them expire with it. */
  function Terminate(s: Store, task: Task, expires: nat): Store {
    var tasks := s.tasks[task.id := Row(task, Some(expires))];
    if task.status.Failed? then
      s.(tasks := tasks, content := Without(s.content, task.id), keys := Without(s.keys, task.id), dlq := s.dlq + {task.id})
    else
      s.(tasks := tasks, content := Expiring(s.content, task.id, expires), keys := Expiring(s.keys, task.id, expires))
  }

  function Or<T>(a: Option<T>, b: Option<T>): Option<T> { if a.Some? then a else b }

  function AsDone(task: Task, txHash: Option<string>, onChainId: Option<nat>): Task {
    task.(status := Done, txHash := Or(txHash, task.txHash), onChainId := Or(onChainId, task.onChainId),
          error := None, admitted := true)
  }

  function MarkDone(s: Store, id: string, txHash: Option<string>, onChainId: Option<nat>, now: nat): Store {
    match GetTask(s, id, now)
    case None => s
    case Some(task) => Terminate(s, AsDone(task, txHash, onChainId), now + TASK_DONE_TTL_MS)
  }

  function AsFailed(task: Task, note: Note): Task {
    task.(status := Failed, retries := task.retries + 1, error := Some(Poisoned(note)))
  }

  function MarkFailed(s: Store, id: string, note: Note, now: nat): Store {
    match GetTask(s, id, now)
    case None => s
    case Some(task) => Terminate(s, AsFailed(task, note), now + TASK_FAILED_TTL_MS)
  }

  function AsRetried(task: Task, note: Note): Task {
    if task.retries + 1 >= RETRY_BUDGET
    then task.(status := Failed, retries := task.retries + 1, error := Some(Exhausted(note)))
    else task.(retries := task.retries + 1, error := Some(Deferred(note)))
  }

  function RecordTransientFailure(s: Store, id: string, note: Note, now: nat): Store {
    match GetTask(s, id, now)
    case None => s
    case Some(task) =>
      if task.status.Terminal() then s
      else
        var retried := AsRetried(task, note);
        if retried.status.Failed? then Terminate(s, retried, now + TASK_FAILED_TTL_MS) else Put(s, id, retried)
  }

  function RecordRetryDigest(s: Store, digest: RetryKey, id: string, now: nat): Store {
    s.(digests := s.digests[digest := Ref(id, Some(now + RETRY_COALESCE_TTL_MS))])
  }

  function Unexpired<K>(index: map<K, Ref>, now: nat): map<K, Ref> {
    map k | k in index && Live(index[k].expires, now) :: index[k]
  }

  function Purge(s: Store, now: nat): Store {
    Store(map id | id in s.tasks && Live(s.tasks[id].expires, now) :: s.tasks[id],
          Unexpired(s.content, now), Unexpired(s.keys, now), Unexpired(s.digests, now), s.dlq)
  }

  // ── The store invariant ──────────────────────────────────────────────────

  /** A row is its own record, expires exactly when it is terminal, and has retries left
      while it is not. */
  predicate RowShape(id: string, row: Row) {
    && row.task.id == id
    && (row.task.status.Terminal() <==> row.expires.Some?)
    && (!row.task.status.Terminal() ==> row.task.retries < RETRY_BUDGET)
  }

  predicate RowsShaped(s: Store, born: set<string>) {
    forall id | id in s.tasks :: id in born && RowShape(id, s.tasks[id])
  }

  /** The stored identity is the task's own digest, and Done means the write is on the chain. */
  predicate Backed(task: Task, chain: Chain) {
    && ContentHash(task) == Some(task.contentHash)
    && (task.status.Done? ==> OnChain(chain, task))
  }

  predicate RowsBacked(s: Store, chain: Chain) {
    forall id | id in s.tasks :: Backed(s.tasks[id].task, chain)
  }

  /** An index row points at a task that has not failed and expires together with it. */
  predicate Points(s: Store, ref: Ref) {
    && ref.taskId in s.tasks
    && !s.tasks[ref.taskId].task.status.Failed?
    && s.tasks[ref.taskId].expires == ref.expires
  }

  predicate ContentSound(s: Store) {
    forall h | h in s.content :: Points(s, s.content[h]) && s.tasks[s.content[h].taskId].task.contentHash == h
  }

  predicate ContentComplete(s: Store, now: nat) {
    forall id | id in s.tasks && !s.tasks[id].task.status.Failed? && Live(s.tasks[id].expires, now) ::
      s.tasks[id].task.contentHash in s.content && s.content[s.tasks[id].task.contentHash].taskId == id
  }

  predicate KeysSound(s: Store) {
    forall k | k in s.keys :: Points(s, s.keys[k]) && k in PlaceholderKeys(s.tasks[s.keys[k].taskId].task)
  }

  predicate StoreOk(s: Store, now: nat, chain: Chain, born: set<string>) {
    && RowsShaped(s, born)
    && RowsBacked(s, chain)
    && ContentSound(s)
    && ContentComplete(s, now)
    && KeysSound(s)
  }

  /** What depends only on the write survives any change of bookkeeping. */
  lemma {:induction false} SameWriteSameChain(a: Task, b: Task, chain: Chain)
    requires SameWrite(a, b)
    ensures ContentHash(a) == ContentHash(b)
    ensures OnChain(chain, a) == OnChain(chain, b)
    ensures PlaceholderKeys(a) == PlaceholderKeys(b)
  {}

  lemma {:induction false} TimePasses(s: Store, now: nat, later: nat, chain: Chain, grown: Chain, born: set<string>)
    requires StoreOk(s, now, chain, born) && now <= later && Grows(chain, grown)
    ensures StoreOk(s, later, grown, born)
  {}

  lemma {:induction false} PurgeKeepsOk(s: Store, now: nat, chain: Chain, born: set<string>)
    requires StoreOk(s, now, chain, born)
    ensures StoreOk(Purge(s, now), now, chain, born)
  {}

  /** A task id that was never admitted before; the record is as validation built it. */
  predicate Admissible(task: Task) {
    && task.status.Pending? && task.retries == 0 && !task.admitted
    && ContentHash(task) == Some(task.contentHash)
  }

  lemma {:induction false} AdmitKeepsContent(s: Store, task: Task, now: nat, chain: Chain, born: set<string>)
    requires StoreOk(s, now, chain, born) && task.id !in born && task.status.Pending?
    requires FindByContent(s, task.contentHash, now).None?
    ensures ContentSound(Admit(s, task, now).0) && ContentComplete(Admit(s, task, now).0, now)
  {
    var s' := Admit(s, task, now).0;
    assert task.id !in s.tasks;
    forall h | h in s'.content
      ensures Points(s', s'.content[h]) && s'.tasks[s'.content[h].taskId].task.contentHash == h
    {
      if h != task.contentHash { assert Points(s, s.content[h]); }
    }
    forall id | id in s'.tasks && !s'.tasks[id].task.status.Failed? && Live(s'.tasks[id].expires, now)
      ensures s'.tasks[id].task.contentHash in s'.content && s'.content[s'.tasks[id].task.contentHash].taskId == id
    {
      // A live task with this hash would have been found.
      assert id != task.id ==> s.tasks[id].task.contentHash != task.contentHash;
    }
  }

  lemma {:induction false} AdmitKeepsKeys(s: Store, task: Task, now: nat, chain: Chain, born: set<string>)
    requires StoreOk(s, now, chain, born) && task.id !in born && task.status.Pending?
    requires FindByContent(s, task.contentHash, now).None?
    ensures KeysSound(Admit(s, task, now).0)
  {
    var s' := Admit(s, task, now).0;
    assert task.id !in s.tasks;
    forall k | k in s'.keys
      ensures Points(s', s'.keys[k]) && k in PlaceholderKeys(s'.tasks[s'.keys[k].taskId].task)
    {
      if k in s.keys { assert Points(s, s.keys[k]); }
    }
  }

  lemma {:induction false} AdmitKeepsRows(s: Store, task: Task, now: nat, chain: Chain, born: set<string>)
    requires RowsShaped(s, born) && RowsBacked(s, chain) && Admissible(task) && task.id !in born
    ensures RowsShaped(Admit(s, task, now).0, born + {task.id}) && RowsBacked(Admit(s, task, now).0, chain)
  {
    var s' := Admit(s, task, now).0;
    forall id | id in s'.tasks ensures RowShape(id, s'.tasks[id]) && Backed(s'.tasks[id].task, chain) {
      assert id != task.id ==> s'.tasks[id] == s.tasks[id];
    }
  }

  lemma {:induction false} AdmitKeepsOk(s: Store, task: Task, now: nat, chain: Chain, born: set<string>)
    requires StoreOk(s, now, chain, born)
    requires Admissible(task) && task.id !in born
    ensures StoreOk(Admit(s, task, now).0, now, chain, born + {task.id})
  {
    AdmitKeepsRows(s, task, now, chain, born);
    if FindByContent(s, task.contentHash, now).None? {
      AdmitKeepsContent(s, task, now, chain, born);
      AdmitKeepsKeys(s, task, now, chain, born);
    }
  }

  lemma {:induction false} PutKeepsIndexes(s: Store, task: Task, now: nat)
    requires ContentSound(s) && ContentComplete(s, now) && KeysSound(s)
    requires task.id in s.tasks && SameWrite(s.tasks[task.id].task, task)
    requires s.tasks[task.id].task.status == task.status
    ensures var s' := Put(s, task.id, task); ContentSound(s') && ContentComplete(s', now) && KeysSound(s')
  {
    var s' := Put(s, task.id, task);
    assert PlaceholderKeys(s.tasks[task.id].task) == PlaceholderKeys(task);
    forall h | h in s'.content
      ensures Points(s', s'.content[h]) && s'.tasks[s'.content[h].taskId].task.contentHash == h
    {
      assert Points(s, s.content[h]);
    }
    forall k | k in s'.keys
      ensures Points(s', s'.keys[k]) && k in PlaceholderKeys(s'.tasks[s'.keys[k].taskId].task)
    {
      assert Points(s, s.keys[k]);
    }
  }

  lemma {:induction false} PutKeepsOk(s: Store, task: Task, now: nat, chain: Chain, born: set<string>)
    requires StoreOk(s, now, chain, born)
    requires task.id in s.tasks && SameWrite(s.tasks[task.id].task, task)
    requires s.tasks[task.id].task.status == task.status == Pending && task.retries < RETRY_BUDGET
    ensures StoreOk(Put(s, task.id, task), now, chain, born)
  {
    SameWriteSameChain(s.tasks[task.id].task, task, chain);
    PutKeepsIndexes(s, task, now);
  }

  /** One task leaves the pipeline; its write and every other row stay as they were. */
  predicate Terminates(s: Store, task: Task) {
    && task.id in s.tasks && SameWrite(s.tasks[task.id].task, task)
    && !s.tasks[task.id].task.status.Terminal() && task.status.Terminal()
    && s.tasks[task.id].expires.None?
  }

  lemma {:induction false} TerminateKeepsPoints(s: Store, task: Task, expires: nat, ref: Ref)
    requires Terminates(s, task) && Points(s, ref)
    ensures ref.taskId != task.id ==> Points(Terminate(s, task, expires), ref)
    ensures ref.taskId == task.id && task.status.Done? ==> Points(Terminate(s, task, expires), Ref(task.id, Some(expires)))
  {}

  lemma {:induction false} TerminateKeepsContent(s: Store, task: Task, expires: nat, now: nat)
    requires Terminates(s, task) && ContentSound(s) && ContentComplete(s, now)
    ensures ContentSound(Terminate(s, task, expires)) && ContentComplete(Terminate(s, task, expires), now)
  {
    var s' := Terminate(s, task, expires);
    forall h | h in s'.content
      ensures Points(s', s'.content[h]) && s'.tasks[s'.content[h].taskId].task.contentHash == h
    {
      TerminateKeepsPoints(s, task, expires, s.content[h]);
    }
    forall id | id in s'.tasks && !s'.tasks[id].task.status.Failed? && Live(s'.tasks[id].expires, now)
      ensures s'.tasks[id].task.contentHash in s'.content && s'.content[s'.tasks[id].task.contentHash].taskId == id
    {
      assert !s.tasks[id].task.status.Failed?;
    }
  }

  lemma {:induction false} TerminateKeepsKeys(s: Store, task: Task, expires: nat)
    requires Terminates(s, task) && KeysSound(s)
    ensures KeysSound(Terminate(s, task, expires))
  {
    var s' := Terminate(s, task, expires);
    forall k | k in s'.keys
      ensures Points(s', s'.keys[k]) && k in PlaceholderKeys(s'.tasks[s'.keys[k].taskId].task)
    {
      TerminateKeepsPoints(s, task, expires, s.keys[k]);
    }
  }

  lemma {:induction false} TerminateKeepsOk(s: Store, task: Task, expires: nat, now: nat, chain: Chain, born: set<string>)
    requires StoreOk(s, now, chain, born) && Terminates(s, task)
    requires task.status.Done? ==> OnChain(chain, task)
    ensures StoreOk(Terminate(s, task, expires), now, chain, born)
  {
    SameWriteSameChain(s.tasks[task.id].task, task, chain);
    TerminateKeepsContent(s, task, expires, now);
    TerminateKeepsKeys(s, task, expires);
  }

  /** The content index agrees with a full scan of the table: it finds a task exactly when some
      live, non-failed task has that hash, and then that task. So there is at most one. */
  lemma {:induction false} ContentIndexIsAFullScan(s: Store, now: nat, chain: Chain, born: set<string>, hash: Digest, task: Task)
    requires StoreOk(s, now, chain, born)
    ensures FindByContent(s, hash, now) == Some(task) <==>
            && task.id in s.tasks && s.tasks[task.id].task == task
            && Live(s.tasks[task.id].expires, now)
            && !task.status.Failed? && task.contentHash == hash
  {
    if hash in s.content { assert Points(s, s.content[hash]); }
  }

  /** A refused claim is one whose key was still in the table: after an admission the task owns
      the placeholder exactly when no row, live or expired, held that key before. */
  lemma {:induction false} ClaimSucceedsExactlyOnAbsentKeys(s: Store, task: Task, now: nat, chain: Chain, born: set<string>, key: Hex)
    requires StoreOk(s, now, chain, born)
    requires Admissible(task) && task.id !in born
    requires FindByContent(s, task.contentHash, now).None? && key in PlaceholderKeys(task)
    ensures var s' := Admit(s, task, now).0;
            key in s'.keys && (s'.keys[key].taskId == task.id <==> key !in s.keys)
  {
    if key in s.keys { assert Points(s, s.keys[key]); }
  }

  /** An expired row that was not purged yet still refuses the claim: the row stays as it is, the
      new task is found under this key neither now nor at any later time before the purge, and
      the purge leaves the key to nobody. */
  lemma {:induction false} ExpiredRowStillRefuses(s: Store, task: Task, now: nat, later: nat, chain: Chain, born: set<string>, key: Hex)
    requires StoreOk(s, now, chain, born)
    requires Admissible(task) && task.id !in born && now <= later
    requires FindByContent(s, task.contentHash, now).None? && key in PlaceholderKeys(task)
    requires key in s.keys && !Live(s.keys[key].expires, now)
    ensures var s' := Admit(s, task, now).0;
            && s'.keys[key] == s.keys[key] && s'.keys[key].taskId != task.id
            && FindByKey(s', key, later).None? && key !in Purge(s', later).keys
            && GetTask(s', task.id, later) == Some(task)
  {
    ClaimSucceedsExactlyOnAbsentKeys(s, task, now, chain, born, key);
  }

  // ── What one operation may change ────────────────────────────────────────

  /** Nothing is owed to this task any more. */
  predicate Over(s: Store, id: string) {
    id !in s.tasks || s.tasks[id].task.status.Terminal()
  }

  predicate Active(s: Store, id: string) {
    id in s.tasks && !s.tasks[id].task.status.Terminal()
  }

  /** What any operation on an admitted task may do: an over task stays over, a terminal row
      never changes, and an active one keeps its write and never regains a retry. */
  predicate RowEvolves(a: Store, b: Store, id: string) {
    && (Over(a, id) ==> Over(b, id)) && (id !in a.tasks ==> id !in b.tasks)
    && (Active(a, id) ==>
          && id in b.tasks && SameWrite(a.tasks[id].task, b.tasks[id].task)
          && a.tasks[id].task.retries <= b.tasks[id].task.retries)
    && (id in a.tasks && a.tasks[id].task.status.Terminal() && id in b.tasks ==> b.tasks[id] == a.tasks[id])
  }

  /** Nothing here finishes a task or spends its retries. */
  predicate RowRests(a: Store, b: Store, id: string) {
    Active(a, id) ==> Active(b, id) && b.tasks[id].task.retries == a.tasks[id].task.retries
  }

  /** How many transient failures the task can still take. */
  function Budget(s: Store, id: string): nat {
    if Active(s, id) && s.tasks[id].task.retries < RETRY_BUDGET then RETRY_BUDGET - s.tasks[id].task.retries else 0
  }

  lemma {:induction false} PurgeEvolves(s: Store, now: nat, born: set<string>, id: string)
    requires RowsShaped(s, born)
    ensures RowEvolves(s, Purge(s, now), id) && RowRests(s, Purge(s, now), id)
  {}

  lemma {:induction false} AdmitEvolves(s: Store, task: Task, now: nat, id: string)
    requires id != task.id
    ensures RowEvolves(s, Admit(s, task, now).0, id) && RowRests(s, Admit(s, task, now).0, id)
  {}

  lemma {:induction false} MarkAdmittedEvolves(s: Store, target: string, now: nat, id: string)
    ensures RowEvolves(s, MarkAdmitted(s, target, now).0, id) && RowRests(s, MarkAdmitted(s, target, now).0, id)
  {}

  lemma {:induction false} MarkAdmittedKeepsOk(s: Store, id: string, now: nat, chain: Chain, born: set<string>)
    requires StoreOk(s, now, chain, born)
    ensures StoreOk(MarkAdmitted(s, id, now).0, now, chain, born)
  {
    if Active(s, id) { PutKeepsOk(s, s.tasks[id].task.(admitted := true), now, chain, born); }
  }

  /** Apart from one task, the table is as it was. */
  predicate OnlyRow(a: Store, b: Store, id: string) {
    && a.tasks.Keys == b.tasks.Keys
    && forall other | other in a.tasks && other != id :: b.tasks[other] == a.tasks[other]
  }

  lemma {:induction false} TerminateEvolves(s: Store, task: Task, expires: nat)
    requires Terminates(s, task) && s.tasks[task.id].task.retries <= task.retries
    ensures Over(Terminate(s, task, expires), task.id) && OnlyRow(s, Terminate(s, task, expires), task.id)
    ensures forall id :: RowEvolves(s, Terminate(s, task, expires), id)
  {}

  lemma {:induction false} PutEvolves(s: Store, task: Task)
    requires Active(s, task.id) && SameWrite(s.tasks[task.id].task, task) && !task.status.Terminal()
    requires s.tasks[task.id].task.retries <= task.retries
    ensures OnlyRow(s, Put(s, task.id, task), task.id)
    ensures forall id :: RowEvolves(s, Put(s, task.id, task), id)
  {}

  /** An active row under the invariant: it is its own record, it has no expiry, it has budget. */
  lemma {:induction false} ActiveRow(s: Store, id: string, now: nat, chain: Chain, born: set<string>)
    requires StoreOk(s, now, chain, born) && Active(s, id)
    ensures s.tasks[id].task.id == id && s.tasks[id].expires.None? && s.tasks[id].task.retries < RETRY_BUDGET
    ensures GetTask(s, id, now) == Some(s.tasks[id].task)
  {}

  /** What an outcome of one task may do to the tables: they stay consistent, no other row
      changes, and the task ends or has fewer retries left. */
  ghost predicate Spends(s: Store, t: Store, id: string, now: nat, chain: Chain, born: set<string>) {
    && StoreOk(t, now, chain, born) && OnlyRow(s, t, id) && (forall other :: RowEvolves(s, t, other))
    && (Active(s, id) && Active(t, id) ==> t.tasks[id].task.admitted == s.tasks[id].task.admitted)
    && Budget(t, id) < Budget(s, id)
  }

  lemma {:induction false} TerminateSpends(s: Store, task: Task, expires: nat, now: nat, chain: Chain, born: set<string>)
    requires StoreOk(s, now, chain, born) && Terminates(s, task) && s.tasks[task.id].task.retries <= task.retries
    requires Active(s, task.id) && now < expires && Backed(task, chain)
    ensures Spends(s, Terminate(s, task, expires), task.id, now, chain, born) && Over(Terminate(s, task, expires), task.id)
  {
    ActiveRow(s, task.id, now, chain, born);
    TerminateKeepsOk(s, task, expires, now, chain, born);
    TerminateEvolves(s, task, expires);
  }

  /** Marking an active task done: its write must be on the chain, and it becomes over. */
  lemma {:induction false} MarkDoneEffect(s: Store, id: string, txHash: Option<string>, onChainId: Option<nat>, now: nat, chain: Chain, born: set<string>)
    requires StoreOk(s, now, chain, born) && Active(s, id) && OnChain(chain, s.tasks[id].task)
    ensures var t := MarkDone(s, id, txHash, onChainId, now); Spends(s, t, id, now, chain, born) && Over(t, id)
  {
    ActiveRow(s, id, now, chain, born);
    var task := AsDone(s.tasks[id].task, txHash, onChainId);
    SameWriteSameChain(s.tasks[id].task, task, chain);
    TerminateSpends(s, task, now + TASK_DONE_TTL_MS, now, chain, born);
  }

  lemma {:induction false} MarkFailedEffect(s: Store, id: string, note: Note, now: nat, chain: Chain, born: set<string>)
    requires StoreOk(s, now, chain, born) && Active(s, id)
    ensures var t := MarkFailed(s, id, note, now); Spends(s, t, id, now, chain, born) && Over(t, id)
  {
    ActiveRow(s, id, now, chain, born);
    var task := AsFailed(s.tasks[id].task, note);
    SameWriteSameChain(s.tasks[id].task, task, chain);
    TerminateSpends(s, task, now + TASK_FAILED_TTL_MS, now, chain, born);
  }

  lemma {:induction false} PutSpends(s: Store, task: Task, now: nat, chain: Chain, born: set<string>)
    requires StoreOk(s, now, chain, born) && Active(s, task.id) && SameWrite(s.tasks[task.id].task, task)
    requires !task.status.Terminal() && s.tasks[task.id].task.retries < task.retries < RETRY_BUDGET
    requires task.admitted == s.tasks[task.id].task.admitted
    ensures Spends(s, Put(s, task.id, task), task.id, now, chain, born)
  {
    PutKeepsOk(s, task, now, chain, born);
    PutEvolves(s, task);
  }

  /** A transient failure spends one retry; the tenth ends the task. */
  lemma {:induction false} RecordTransientFailureEffect(s: Store, id: string, note: Note, now: nat, chain: Chain, born: set<string>)
    requires StoreOk(s, now, chain, born) && Active(s, id)
    ensures var t := RecordTransientFailure(s, id, note, now);
            && Spends(s, t, id, now, chain, born) && Budget(t, id) == Budget(s, id) - 1
            && (Over(t, id) <==> s.tasks[id].task.retries == RETRY_BUDGET - 1)
  {
    ActiveRow(s, id, now, chain, born);
    var task := AsRetried(s.tasks[id].task, note);
    SameWriteSameChain(s.tasks[id].task, task, chain);
    if task.status.Failed? {
      TerminateSpends(s, task, now + TASK_FAILED_TTL_MS, now, chain, born);
    } else {
      PutSpends(s, task, now, chain, born);
    }
  }

  // ── Who owns a placeholder ───────────────────────────────────────────────

  predicate Owns(s: Store, key: Hex, id: string) {
    key in s.keys && s.keys[key].taskId == id
  }

  predicate Ended(s: Store, id: string) {
    id in s.tasks && s.tasks[id].task.status.Terminal()
  }

  lemma {:induction false} TerminateKeepsOwner(s: Store, task: Task, expires: nat, key: Hex, id: string)
    requires Owns(s, key, id) && task.status.Terminal()
    ensures if id == task.id then Ended(Terminate(s, task, expires), id) else Owns(Terminate(s, task, expires), key, id)
  {}

  lemma {:induction false} PurgeKeepsOwner(s: Store, now: nat, key: Hex, id: string)
    requires Owns(s, key, id) && Points(s, s.keys[key]) && RowShape(id, s.tasks[id]) && Active(s, id)
    ensures Owns(Purge(s, now), key, id)
  {}

  lemma {:induction false} AdmitKeepsOwner(s: Store, task: Task, now: nat, key: Hex, id: string)
    requires Owns(s, key, id)
    ensures Owns(Admit(s, task, now).0, key, id)
  {}

  lemma {:induction false} OutcomeKeepsOwner(s: Store, target: string, txHash: Option<string>, onChainId: Option<nat>, note: Note,
                                             now: nat, key: Hex, id: string)
    requires Owns(s, key, id)
    requires target in s.tasks ==> s.tasks[target].task.id == target
    ensures Owns(MarkDone(s, target, txHash, onChainId, now), key, id) || Ended(MarkDone(s, target, txHash, onChainId, now), id)
    ensures Owns(MarkFailed(s, target, note, now), key, id) || Ended(MarkFailed(s, target, note, now), id)
    ensures Owns(RecordTransientFailure(s, target, note, now), key, id) || Ended(RecordTransientFailure(s, target, note, now), id)
  {
    match GetTask(s, target, now)
    case None =>
    case Some(task) =>
      TerminateKeepsOwner(s, AsDone(task, txHash, onChainId), now + TASK_DONE_TTL_MS, key, id);
      TerminateKeepsOwner(s, AsFailed(task, note), now + TASK_FAILED_TTL_MS, key, id);
      if AsRetried(task, note).status.Failed? {
        TerminateKeepsOwner(s, AsRetried(task, note), now + TASK_FAILED_TTL_MS, key, id);
      }
  }
}
