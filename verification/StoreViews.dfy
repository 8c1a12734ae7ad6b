/**
 * What the table operations mean to whoever reads the tables afterwards, at any later time
 * (p256-index-cf/src/submitter.rs:294-575).
 */
module StoreViews {
  import opened Basics
  import opened Tasks
  import opened Stores

  // ── Records ──────────────────────────────────────────────────────────────

  /** The write and the age of a record, which no transition touches. */
  predicate SameOrigin(a: Task, b: Task) { SameWrite(a, b) && a.createdAt == b.createdAt }

  /** A finished record: a transaction and an id that are given replace what was there. */
  predicate Finished(before: Task, after: Task, txHash: Option<string>, onChainId: Option<nat>) {
    && SameOrigin(before, after) && after.status.Done? && after.error.None? && after.admitted && after.retries == before.retries
    && (if txHash.Some? then after.txHash == txHash else after.txHash == before.txHash)
    && (if onChainId.Some? then after.onChainId == onChainId else after.onChainId == before.onChainId)
  }

  /** What no failure touches. */
  predicate SameProgress(before: Task, after: Task) {
    && SameOrigin(before, after) && after.retries == before.retries + 1
    && after.txHash == before.txHash && after.onChainId == before.onChainId && after.admitted == before.admitted
  }

  predicate Refused(before: Task, after: Task, note: Note) {
    SameProgress(before, after) && after.status.Failed? && after.error == Some(Poisoned(note))
  }

  /** The tenth transient failure is the last. */
  predicate Charged(before: Task, after: Task, note: Note) {
    && SameProgress(before, after)
    && (if before.retries < 9 then after.status == before.status && after.error == Some(Deferred(note))
        else after.status.Failed? && after.error == Some(Exhausted(note)))
  }

  // ── Who finds what, and until when ───────────────────────────────────────

  /** The record is read as `task` until `expires`, and then not at all. */
  ghost predicate ReadAs(s: Store, id: string, task: Task, expires: nat) {
    forall later: nat :: GetTask(s, id, later) == if later < expires then Some(task) else None
  }

  /** Index rows that named the task lead to it as long as it is read. */
  ghost predicate FoundAs(s: Store, t: Store, task: Task, expires: nat) {
    && (forall h: Digest, later: nat | h in s.content && s.content[h].taskId == task.id ::
          FindByContent(t, h, later) == if later < expires then Some(task) else None)
    && (forall k: Hex, later: nat | Owns(s, k, task.id) ::
          FindByKey(t, k, later) == if later < expires then Some(task) else None)
  }

  /** Nobody finds the task by content or key. */
  ghost predicate Unfound(t: Store, id: string) {
    && (forall h: Digest, later: nat | FindByContent(t, h, later).Some? :: h in t.content && t.content[h].taskId != id)
    && (forall k: Hex, later: nat | FindByKey(t, k, later).Some? :: k in t.keys && t.keys[k].taskId != id)
  }

  /** Everybody else's record and index rows are as they were. */
  predicate OthersStay(s: Store, t: Store, id: string) {
    && OnlyRow(s, t, id) && t.digests == s.digests
    && (forall h | h in s.content && s.content[h].taskId != id :: h in t.content && t.content[h] == s.content[h])
    && (forall h | h in t.content && t.content[h].taskId != id :: h in s.content && t.content[h] == s.content[h])
    && (forall k | k in s.keys && s.keys[k].taskId != id :: k in t.keys && t.keys[k] == s.keys[k])
    && (forall k | k in t.keys && t.keys[k].taskId != id :: k in s.keys && t.keys[k] == s.keys[k])
  }

  /** A done record drops no index row. */
  lemma {:induction false} DoneIsFound(s: Store, task: Task, expires: nat)
    requires task.id in s.tasks && task.status.Done?
    ensures var t := Terminate(s, task, expires);
            ReadAs(t, task.id, task, expires) && FoundAs(s, t, task, expires) && OthersStay(s, t, task.id) && t.dlq == s.dlq
  {}

  lemma {:induction false} FailedIsUnfound(s: Store, task: Task, expires: nat)
    requires task.id in s.tasks && task.status.Failed?
    ensures var t := Terminate(s, task, expires);
            ReadAs(t, task.id, task, expires) && Unfound(t, task.id) && OthersStay(s, t, task.id) && t.dlq == s.dlq + {task.id}
  {}

  /** Marking a pending task done: what is recorded, who finds it for seven days, and what stays. */
  lemma {:induction false} DoneIsRecorded(s: Store, id: string, txHash: Option<string>, onChainId: Option<nat>, now: nat)
    requires Active(s, id) && RowShape(id, s.tasks[id])
    ensures var t := MarkDone(s, id, txHash, onChainId, now);
            && id in t.tasks && Finished(s.tasks[id].task, t.tasks[id].task, txHash, onChainId)
            && ReadAs(t, id, t.tasks[id].task, now + 604_800_000) && FoundAs(s, t, t.tasks[id].task, now + 604_800_000)
            && OthersStay(s, t, id) && t.dlq == s.dlq
  {
    DoneIsFound(s, AsDone(s.tasks[id].task, txHash, onChainId), now + TASK_DONE_TTL_MS);
  }

  /** Marking a pending task failed: what is recorded, read for thirty days and found by nobody. */
  lemma {:induction false} FailureIsRecorded(s: Store, id: string, note: Note, now: nat)
    requires Active(s, id) && RowShape(id, s.tasks[id])
    ensures var t := MarkFailed(s, id, note, now);
            && id in t.tasks && Refused(s.tasks[id].task, t.tasks[id].task, note)
            && ReadAs(t, id, t.tasks[id].task, now + 2_592_000_000) && Unfound(t, id)
            && OthersStay(s, t, id) && t.dlq == s.dlq + {id}
  {
    FailedIsUnfound(s, AsFailed(s.tasks[id].task, note), now + TASK_FAILED_TTL_MS);
  }

  /** A transient failure of a pending task: it stays readable and found, or ends like a failed one. */
  lemma {:induction false} RetryIsRecorded(s: Store, id: string, note: Note, now: nat)
    requires Active(s, id) && RowShape(id, s.tasks[id])
    ensures var t := RecordTransientFailure(s, id, note, now);
            && id in t.tasks && Charged(s.tasks[id].task, t.tasks[id].task, note) && OthersStay(s, t, id)
            && (if s.tasks[id].task.retries < 9
                then (forall later: nat :: GetTask(t, id, later) == Some(t.tasks[id].task))
                     && t.content == s.content && t.keys == s.keys && t.dlq == s.dlq
                else ReadAs(t, id, t.tasks[id].task, now + 2_592_000_000) && Unfound(t, id) && t.dlq == s.dlq + {id})
  {
    var retried := AsRetried(s.tasks[id].task, note);
    if retried.status.Failed? {
      FailedIsUnfound(s, retried, now + TASK_FAILED_TTL_MS);
    } else {
      PutStays(s, id, retried);
    }
  }

  lemma {:induction false} PutStays(s: Store, id: string, task: Task)
    requires id in s.tasks && s.tasks[id].expires.None?
    ensures var t := Put(s, id, task);
            && OthersStay(s, t, id) && t.content == s.content && t.keys == s.keys && t.dlq == s.dlq
            && forall later: nat :: GetTask(t, id, later) == Some(task)
  {}

  /** The mark is set on a pending record and nothing else changes; a terminal or absent one is left
      alone, and the answer is the record as it is then. */
  lemma {:induction false} MarkIsSet(s: Store, id: string, now: nat)
    requires id in s.tasks ==> RowShape(id, s.tasks[id])
    ensures var t, answer := MarkAdmitted(s, id, now).0, MarkAdmitted(s, id, now).1;
            && answer == GetTask(t, id, now) && OthersStay(s, t, id) && t.content == s.content && t.keys == s.keys && t.dlq == s.dlq
            && (Active(s, id) ==> t.tasks[id] == s.tasks[id].(task := s.tasks[id].task.(admitted := true)))
            && (!Active(s, id) ==> t == s)
  {
    if Active(s, id) {
      PutStays(s, id, s.tasks[id].task.(admitted := true));
    }
  }

  /** An admission under a new content hash: the record as it came, found by its content and under
      each of its keys that nobody held; nobody else's rows change. */
  lemma {:induction false} AdmissionIsRecorded(s: Store, task: Task, now: nat, born: set<string>)
    requires RowsShaped(s, born) && task.id !in born && FindByContent(s, task.contentHash, now).None?
    ensures var t := Admit(s, task, now).0;
            && Admit(s, task, now).1 == New
            && (forall later: nat :: GetTask(t, task.id, later) == Some(task) && FindByContent(t, task.contentHash, later) == Some(task))
            && (forall k, later: nat | k in PlaceholderKeys(task) && k !in s.keys :: FindByKey(t, k, later) == Some(task))
            && (forall k | k in s.keys :: k in t.keys && t.keys[k] == s.keys[k])
            && t.keys.Keys == s.keys.Keys + PlaceholderKeys(task)
            && (forall other | other in s.tasks :: other in t.tasks && t.tasks[other] == s.tasks[other])
            && t.tasks.Keys == s.tasks.Keys + {task.id} && t.digests == s.digests && t.dlq == s.dlq
  {
    assert task.id !in s.tasks;
    ClaimIsExact(s.keys, PlaceholderKeys(task), task.id);
    var t := Admit(s, task, now).0;
    assert t.tasks[task.id] == Row(task, None) && t.content[task.contentHash] == Ref(task.id, None);
  }

  lemma {:induction false} ClaimIsExact(keys: map<Hex, Ref>, wanted: set<Hex>, id: string)
    ensures var t := Claim(keys, wanted, id);
            && t.Keys == keys.Keys + wanted && (forall k | k in keys :: t[k] == keys[k])
            && forall k | k in wanted && k !in keys :: t[k] == Ref(id, None)
  {}

  /** The same content again changes nothing and names the task that has it. */
  lemma {:induction false} RepeatIsNamed(s: Store, task: Task, now: nat)
    requires FindByContent(s, task.contentHash, now).Some?
    ensures Admit(s, task, now) == (s, Existing(FindByContent(s, task.contentHash, now).value.id))
  {}

  /** A retry marker leads to its task for a day, as long as the task is read. */
  lemma {:induction false} MarkerIsRecorded(s: Store, digest: RetryKey, id: string, now: nat)
    ensures var t := RecordRetryDigest(s, digest, id, now);
            && (forall later: nat :: FindByRetryDigest(t, digest, later) == if later < now + 86_400_000 then GetTask(s, id, later) else None)
            && (forall other, later: nat | other != digest :: FindByRetryDigest(t, other, later) == FindByRetryDigest(s, other, later))
            && t == s.(digests := t.digests)
  {}

  /** Purging removes exactly what is expired, and no reader can tell, then or later. */
  lemma {:induction false} PurgeIsInvisible(s: Store, now: nat, later: nat, id: string, hash: Digest, key: Hex, digest: RetryKey)
    requires now <= later
    ensures var t := Purge(s, now);
            && GetTask(t, id, later) == GetTask(s, id, later) && FindByContent(t, hash, later) == FindByContent(s, hash, later)
            && FindByKey(t, key, later) == FindByKey(s, key, later)
            && FindByRetryDigest(t, digest, later) == FindByRetryDigest(s, digest, later)
            && (id in t.tasks <==> id in s.tasks && (s.tasks[id].expires.Some? ==> now < s.tasks[id].expires.value))
            && (hash in t.content <==> hash in s.content && (s.content[hash].expires.Some? ==> now < s.content[hash].expires.value))
            && (key in t.keys <==> key in s.keys && (s.keys[key].expires.Some? ==> now < s.keys[key].expires.value))
            && (digest in t.digests <==> digest in s.digests && (s.digests[digest].expires.Some? ==> now < s.digests[digest].expires.value))
            && t.dlq == s.dlq
  {}
}
