/**
 * The Durable Object's tables in place, statement by statement
 * (p256-index-cf/src/submitter.rs:294-628). Each method is proved to do to the tables what the
 * function of the same name in Stores and Pipeline does to their value, so everything proved
 * about those functions holds of this object.
 */
module Submitter {
  import opened Basics
  import opened Tasks
  import St = Stores
  import P = Pipeline

  /** The order in which an admission claims its placeholders. */
  function PlaceholderList(task: Task): seq<Hex> {
    seq(|task.members|, i requires 0 <= i < |task.members| => task.members[i].publicKey) + [task.groupKey]
  }

  function SetOf(list: seq<Hex>): set<Hex> {
    set k | k in list
  }

  lemma {:induction false} ListIsTheSet(task: Task)
    ensures SetOf(PlaceholderList(task)) == St.PlaceholderKeys(task)
  {
    var list := PlaceholderList(task);
    forall k ensures k in list <==> k in St.PlaceholderKeys(task) {
      if k in list {
        var i :| 0 <= i < |list| && list[i] == k;
        if i < |task.members| { assert task.members[i] in task.members; }
      }
      if k in St.PlaceholderKeys(task) {
        if k == task.groupKey {
          assert list[|task.members|] == k;
        } else {
          var m :| m in task.members && m.publicKey == k;
          var i :| 0 <= i < |task.members| && task.members[i] == m;
          assert list[i] == k;
        }
      }
    }
  }

  lemma {:induction false} ClaimOne(keys: map<Hex, St.Ref>, wanted: set<Hex>, key: Hex, id: string)
    ensures var claimed := St.Claim(keys, wanted, id);
            St.Claim(keys, wanted + {key}, id) == if key in claimed then claimed else claimed[key := St.Ref(id, None)]
  {}

  class SubmitterObject {
    var tasks: map<string, St.Row>
    var content: map<Digest, St.Ref>
    var keys: map<Hex, St.Ref>
    var digests: map<St.RetryKey, St.Ref>
    var dlq: set<string>
    var queue: seq<P.Envelope>
    var nextNumber: nat

    function Tables(): St.Store
      reads this
    {
      St.Store(tasks, content, keys, digests, dlq)
    }

    /** A record is stored under its own id. */
    predicate Valid()
      reads this
    {
      forall id | id in tasks :: tasks[id].task.id == id
    }

    constructor ()
      ensures Valid() && Tables() == St.EMPTY && queue == [] && nextNumber == 0
    {
      tasks, content, keys, digests, dlq, queue, nextNumber := map[], map[], map[], map[], {}, [], 0;
    }

    method GetTask(id: string, now: nat) returns (r: Option<Task>)
      ensures r == St.GetTask(Tables(), id, now)
    {
      if id in tasks && St.Live(tasks[id].expires, now) {
        return Some(tasks[id].task);
      }
      return None;
    }

    method FindByContent(hash: Digest, now: nat) returns (r: Option<Task>)
      ensures r == St.FindByContent(Tables(), hash, now)
    {
      if hash in content && St.Live(content[hash].expires, now) {
        r := GetTask(content[hash].taskId, now);
      } else {
        r := None;
      }
    }

    /** The first active task keeps its claim on a key. */
    method ClaimPlaceholders(task: Task)
      modifies this`keys
      ensures keys == St.Claim(old(keys), St.PlaceholderKeys(task), task.id)
    {
      var wanted := PlaceholderList(task);
      var i := 0;
      while i < |wanted|
        invariant 0 <= i <= |wanted|
        invariant keys == St.Claim(old(keys), SetOf(wanted[..i]), task.id)
      {
        assert wanted[..i + 1] == wanted[..i] + [wanted[i]];
        ClaimOne(old(keys), SetOf(wanted[..i]), wanted[i], task.id);
        assert SetOf(wanted[..i + 1]) == SetOf(wanted[..i]) + {wanted[i]};
        if wanted[i] !in keys {
          keys := keys[wanted[i] := St.Ref(task.id, None)];
        }
        i := i + 1;
      }
      assert wanted[..|wanted|] == wanted;
      ListIsTheSet(task);
    }

    method Admit(task: Task, now: nat) returns (admission: St.Admission)
      requires Valid()
      modifies this`tasks, this`content, this`keys
      ensures Valid()
      ensures (Tables(), admission) == St.Admit(old(Tables()), task, now)
    {
      var existing := FindByContent(task.contentHash, now);
      if existing.Some? {
        return St.Existing(existing.value.id);
      }
      tasks := tasks[task.id := St.Row(task, None)];
      content := content[task.contentHash := St.Ref(task.id, None)];
      ClaimPlaceholders(task);
      admission := St.New;
    }

    method Enqueue(task: Task)
      modifies this`queue, this`nextNumber
      ensures queue == old(queue) + [P.Envelope(old(nextNumber), task.id)] && nextNumber == old(nextNumber) + 1
    {
      queue := queue + [P.Envelope(nextNumber, task.id)];
      nextNumber := nextNumber + 1;
    }

    method RecordRetryDigest(digest: St.RetryKey, id: string, now: nat)
      modifies this`digests
      ensures Tables() == St.RecordRetryDigest(old(Tables()), digest, id, now)
    {
      digests := digests[digest := St.Ref(id, Some(now + St.RETRY_COALESCE_TTL_MS))];
    }

    method MarkAdmitted(id: string, now: nat) returns (r: Option<Task>)
      requires Valid()
      modifies this`tasks
      ensures Valid() && (Tables(), r) == St.MarkAdmitted(old(Tables()), id, now)
    {
      r := GetTask(id, now);
      if r.Some? && !r.value.status.Terminal() {
        var task := r.value.(admitted := true);
        tasks := tasks[id := tasks[id].(task := task)];
        r := Some(task);
      }
    }

    method TransitionTerminal(task: Task, expires: nat)
      requires Valid() && task.id in tasks && task.status.Terminal()
      modifies this`tasks, this`content, this`keys, this`dlq
      ensures Valid() && Tables() == St.Terminate(old(Tables()), task, expires)
    {
      tasks := tasks[task.id := St.Row(task, Some(expires))];
      if task.status.Failed? {
        content := map h | h in content && content[h].taskId != task.id :: content[h];
        keys := map k | k in keys && keys[k].taskId != task.id :: keys[k];
        dlq := dlq + {task.id};
      } else {
        content := map h | h in content :: if content[h].taskId == task.id then St.Ref(task.id, Some(expires)) else content[h];
        keys := map k | k in keys :: if keys[k].taskId == task.id then St.Ref(task.id, Some(expires)) else keys[k];
      }
    }

    method MarkDone(id: string, txHash: Option<string>, onChainId: Option<nat>, now: nat)
      requires Valid()
      modifies this`tasks, this`content, this`keys, this`dlq
      ensures Valid() && Tables() == St.MarkDone(old(Tables()), id, txHash, onChainId, now)
    {
      var found := GetTask(id, now);
      if found.Some? {
        var task := found.value;
        task := task.(status := Done);
        task := task.(txHash := if txHash.Some? then txHash else task.txHash);
        task := task.(onChainId := if onChainId.Some? then onChainId else task.onChainId);
        task := task.(error := None, admitted := true);
        TransitionTerminal(task, now + St.TASK_DONE_TTL_MS);
      }
    }

    method RecordTransientFailure(id: string, note: Note, now: nat)
      requires Valid()
      modifies this`tasks, this`content, this`keys, this`dlq
      ensures Valid() && Tables() == St.RecordTransientFailure(old(Tables()), id, note, now)
    {
      var found := GetTask(id, now);
      if found.Some? && !found.value.status.Terminal() {
        var task := found.value;
        task := task.(retries := task.retries + 1, error := Some(Deferred(note)));
        if task.retries >= 10 {
          task := task.(status := Failed, error := Some(Exhausted(note)));
          TransitionTerminal(task, now + St.TASK_FAILED_TTL_MS);
        } else {
          tasks := tasks[id := tasks[id].(task := task)];
        }
      }
    }

    method MarkFailed(id: string, note: Note, now: nat)
      requires Valid()
      modifies this`tasks, this`content, this`keys, this`dlq
      ensures Valid() && Tables() == St.MarkFailed(old(Tables()), id, note, now)
    {
      var found := GetTask(id, now);
      if found.Some? {
        var task := found.value;
        task := task.(status := Failed, retries := task.retries + 1);
        task := task.(error := Some(Poisoned(note)));
        TransitionTerminal(task, now + St.TASK_FAILED_TTL_MS);
      }
    }

    method PurgeExpired(now: nat)
      requires Valid()
      modifies this`tasks, this`content, this`keys, this`digests
      ensures Valid() && Tables() == St.Purge(old(Tables()), now)
    {
      tasks := map id | id in tasks && St.Live(tasks[id].expires, now) :: tasks[id];
      content := map h | h in content && St.Live(content[h].expires, now) :: content[h];
      keys := map k | k in keys && St.Live(keys[k].expires, now) :: keys[k];
      digests := map d | d in digests && St.Live(digests[d].expires, now) :: digests[d];
    }

    method PollBatch(limit: nat) returns (batch: seq<P.Envelope>)
      ensures limit == P.POLL_BATCH_SIZE ==> batch == P.Head(queue)
      ensures batch <= queue && (|batch| == limit || batch == queue)
    {
      batch := if |queue| <= limit then queue else queue[..limit];
    }

    /** DELETE FROM queue WHERE seq = ? */
    method DeleteEnvelope(number: nat)
      modifies this`queue
      ensures queue == P.Remove(old(queue), number)
    {
      var kept: seq<P.Envelope> := [];
      var i := 0;
      while i < |queue|
        invariant 0 <= i <= |queue|
        invariant kept + P.Remove(queue[i..], number) == P.Remove(queue, number)
      {
        assert queue[i..] == [queue[i]] + queue[i + 1..];
        if queue[i].number != number { kept := kept + [queue[i]]; }
        i := i + 1;
      }
      queue := kept;
    }

    /** Consuming the polled envelopes, oldest first. */
    method DeleteBatch(batch: seq<P.Envelope>)
      modifies this`queue
      ensures queue == RemoveAll(old(queue), batch)
    {
      var i := 0;
      while i < |batch|
        invariant 0 <= i <= |batch|
        invariant RemoveAll(queue, batch[i..]) == RemoveAll(old(queue), batch)
      {
        DeleteEnvelope(batch[i].number);
        assert batch[i..][1..] == batch[i + 1..];
        i := i + 1;
      }
    }
  }

  function RemoveAll(queue: seq<P.Envelope>, batch: seq<P.Envelope>): seq<P.Envelope>
    decreases |batch|
  {
    if batch == [] then queue else RemoveAll(P.Remove(queue, batch[0].number), batch[1..])
  }

  lemma {:induction false} RemoveAbsent(queue: seq<P.Envelope>, number: nat)
    requires forall i | 0 <= i < |queue| :: queue[i].number != number
    ensures P.Remove(queue, number) == queue
  {
    if queue != [] { RemoveAbsent(queue[1..], number); }
  }

  /** Consuming what was polled from the front leaves exactly the rest, in order, together with
      whatever was enqueued in the meantime. */
  lemma {:induction false} DeletingThePolledBatch(batch: seq<P.Envelope>, rest: seq<P.Envelope>)
    requires P.Increasing(batch + rest)
    ensures RemoveAll(batch + rest, batch) == rest
  {
    if batch == [] {
      assert batch + rest == rest;
    } else {
      var all := batch + rest;
      assert all[1..] == batch[1..] + rest;
      forall i | 0 <= i < |all[1..]| ensures all[1..][i].number != batch[0].number {
        assert all[0].number < all[i + 1].number;
      }
      RemoveAbsent(all[1..], batch[0].number);
      assert P.Remove(all, batch[0].number) == batch[1..] + rest;
      forall i, j | 0 <= i < j < |batch[1..] + rest| ensures (batch[1..] + rest)[i].number < (batch[1..] + rest)[j].number {
        assert all[i + 1].number < all[j + 1].number;
      }
      DeletingThePolledBatch(batch[1..], rest);
    }
  }
}
