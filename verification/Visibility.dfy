/**
 * Writes and reads together: the pipeline and the lookups take turns, share one clock, and a
 * lookup that asks for a key's task asks the pipeline's own table
 * (p256-registrar/src/lookup.rs:538-621, 773-851).
 */
module Visibility {
  import opened Basics
  import opened Tasks
  import opened CacheKeys
  import St = Stores
  import A = Admissions
  import P = Pipeline
  import Safety = PipelineSafety
  import Runs = PipelineRuns
  import L = Lookups

  datatype Whole = Whole(pipeline: P.System, readers: L.World)

  datatype Step =
    | Tick(to: nat)
    | Write(write: P.Step)
    | Read(read: L.Step)

  predicate Enabled(s: Whole, step: Step) {
    match step
    case Tick(to) => s.pipeline.now <= to && s.readers.now <= to
    case Write(write) => !write.Tick? && P.Enabled(s.pipeline, write)
    case Read(read) => !read.Tick? && L.Enabled(s.readers, read) && (read.FindTask? ==> read.tables == s.pipeline.store)
  }

  function Apply(s: Whole, step: Step): Whole
    requires Enabled(s, step)
  {
    match step
    case Tick(to) => Whole(s.pipeline.(now := to), s.readers.(now := to))
    case Write(write) => s.(pipeline := P.Apply(s.pipeline, write))
    case Read(read) => s.(readers := L.Apply(s.readers, read))
  }

  datatype Run = Run(states: seq<Whole>, steps: seq<Step>)

  predicate Follows(r: Run, i: nat)
    requires i < |r.steps| && |r.states| == |r.steps| + 1
  {
    Enabled(r.states[i], r.steps[i]) && r.states[i + 1] == Apply(r.states[i], r.steps[i])
  }

  /** Both sides start empty, at the same time. */
  ghost predicate IsRun(r: Run) {
    && |r.states| == |r.steps| + 1
    && (exists now, chain :: r.states[0] == Whole(P.Init(now, chain), L.World(now, map[], map[], [], map[])))
    && (forall i | 0 <= i < |r.steps| :: Follows(r, i))
  }

  // ── Each side sees a run of its own, in which the other's steps take no time ──

  function WriteStep(s: Whole, step: Step): P.Step {
    match step
    case Tick(to) => P.Tick(to)
    case Write(write) => write
    case Read(_) => P.Tick(s.pipeline.now)
  }

  function ReadStep(s: Whole, step: Step): L.Step {
    match step
    case Tick(to) => L.Tick(to)
    case Write(_) => L.Tick(s.readers.now)
    case Read(read) => read
  }

  function WriteRun(r: Run): Runs.Run
    requires |r.states| == |r.steps| + 1
  {
    Runs.Run(seq(|r.states|, i requires 0 <= i < |r.states| => r.states[i].pipeline),
             seq(|r.steps|, i requires 0 <= i < |r.steps| => WriteStep(r.states[i], r.steps[i])))
  }

  function ReadRun(r: Run): L.Run
    requires |r.states| == |r.steps| + 1
  {
    L.Run(seq(|r.states|, i requires 0 <= i < |r.states| => r.states[i].readers),
          seq(|r.steps|, i requires 0 <= i < |r.steps| => ReadStep(r.states[i], r.steps[i])))
  }

  lemma {:induction false} WriteRunIsRun(r: Run)
    requires IsRun(r)
    ensures Runs.IsRun(WriteRun(r))
  {
    var w := WriteRun(r);
    forall i | 0 <= i < |w.steps| ensures Runs.Follows(w, i) { assert Follows(r, i); }
    var now, chain :| r.states[0] == Whole(P.Init(now, chain), L.World(now, map[], map[], [], map[]));
    assert w.states[0] == P.Init(now, chain);
  }

  lemma {:induction false} ReadRunIsRun(r: Run)
    requires IsRun(r)
    ensures L.IsRun(ReadRun(r))
  {
    var l := ReadRun(r);
    forall i | 0 <= i < |l.steps| ensures L.Follows(l, i) { assert Follows(r, i); }
  }

  lemma {:induction false} WritesKeepTheClock(s: P.System, step: P.Step)
    requires P.Enabled(s, step) && !step.Tick?
    ensures P.Apply(s, step).now == s.now
  {}

  lemma {:induction false} ReadsKeepTheClock(w: L.World, step: L.Step)
    requires L.Enabled(w, step) && !step.Tick?
    ensures L.Apply(w, step).now == w.now
  {}

  lemma {:induction false} ClocksAgree(r: Run, i: nat)
    requires IsRun(r) && i < |r.states|
    ensures r.states[i].pipeline.now == r.states[i].readers.now
  {
    if i > 0 {
      ClocksAgree(r, i - 1);
      assert Follows(r, i - 1);
      match r.steps[i - 1]
      case Tick(_) =>
      case Write(write) => WritesKeepTheClock(r.states[i - 1].pipeline, write);
      case Read(read) => ReadsKeepTheClock(r.states[i - 1].readers, read);
    }
  }

  // ── Submitted is never invisible ─────────────────────────────────────────

  /** Step k settles the key or group query in `slot`. */
  predicate SettlesAt(r: Run, k: nat, slot: nat)
    requires k < |r.steps| && |r.states| == |r.steps| + 1
  {
    && slot in r.states[k].readers.lookups && !r.states[k].readers.lookups[slot].pc.Settled?
    && L.ByKey(r.states[k].readers.lookups[slot].query)
    && slot in r.states[k + 1].readers.lookups && r.states[k + 1].readers.lookups[slot].pc.Settled?
  }

  /** The placeholder is there at k if the task owned it before and has not ended. */
  lemma {:induction false} StillOwned(r: Run, i: nat, k: nat, key: Hex, id: string)
    requires IsRun(r) && i <= k < |r.states|
    requires St.Owns(r.states[i].pipeline.store, key, id) && St.Active(r.states[i].pipeline.store, id)
    requires forall m | i < m <= k :: !St.Ended(r.states[m].pipeline.store, id)
    ensures St.Owns(r.states[k].pipeline.store, key, id) && St.Active(r.states[k].pipeline.store, id)
    ensures var s := r.states[k].pipeline; St.StoreOk(s.store, s.now, s.chain, s.born)
  {
    var w := WriteRun(r);
    WriteRunIsRun(r);
    Runs.PlaceholderStays(w, i, k, key, id);
    assert forall m | i < m <= k :: w.states[m] == r.states[m].pipeline;
    Runs.ReachableOk(w, k);
  }

  lemma {:induction false} AskedTableAnswers(w: L.World, slot: nat, s: P.System, up: bool, id: string)
    requires L.Enabled(w, L.FindTask(slot, s.store, up)) && w.now == s.now
    requires St.StoreOk(s.store, s.now, s.chain, s.born)
    requires St.Owns(s.store, Bytes(w.lookups[slot].query.key), id) && St.Active(s.store, id)
    ensures var v := L.Apply(w, L.FindTask(slot, s.store, up));
            slot in v.lookups && v.lookups[slot].pc == L.Settled(if up then L.QueuePending(id) else L.Unavailable)
  {
    L.PlaceholderIsVisible(s.store, s.now, s.chain, s.born, w.lookups[slot].query, id);
  }

  lemma {:induction false} TheTableAnswers(r: Run, k: nat, slot: nat, id: string)
    requires IsRun(r) && k < |r.steps| && SettlesAt(r, k, slot)
    requires r.steps[k].Read? && r.steps[k].read.FindTask? && r.steps[k].read.slot == slot
    requires var s := r.states[k].pipeline; St.StoreOk(s.store, s.now, s.chain, s.born)
    requires var s := r.states[k].pipeline.store;
             St.Owns(s, Bytes(r.states[k].readers.lookups[slot].query.key), id) && St.Active(s, id)
    ensures var outcome := r.states[k + 1].readers.lookups[slot].pc.outcome; outcome == L.QueuePending(id) || outcome.Unavailable?
  {
    assert Follows(r, k);
    ClocksAgree(r, k);
    AskedTableAnswers(r.states[k].readers, slot, r.states[k].pipeline, r.steps[k].read.up, id);
  }

  /** While a task that owns a key's placeholder has not ended, no query for that key or group is
      answered "nothing there", from the cache, the chain or the table: if its reads succeed it is
      answered with a chain value or with the queue marker of that very task. */
  lemma {:induction false} SubmittedIsNeverInvisible(r: Run, i: nat, k: nat, slot: nat, id: string)
    requires IsRun(r) && i <= k < |r.steps| && SettlesAt(r, k, slot)
    requires St.Owns(r.states[i].pipeline.store, Bytes(r.states[k].readers.lookups[slot].query.key), id)
    requires St.Active(r.states[i].pipeline.store, id)
    requires forall m | i < m <= k :: !St.Ended(r.states[m].pipeline.store, id)
    ensures var outcome := r.states[k + 1].readers.lookups[slot].pc.outcome;
            && !outcome.EmptyProfile? && !outcome.NotFound?
            && (outcome.QueuePending? ==> outcome.taskId == id)
  {
    StillOwned(r, i, k, Bytes(r.states[k].readers.lookups[slot].query.key), id);
    assert Follows(r, k);
    if r.steps[k].Read? && r.steps[k].read.FindTask? && r.steps[k].read.slot == slot {
      TheTableAnswers(r, k, slot, id);
    } else {
      OnlyTheTableHides(r, k, slot);
    }
  }

  lemma {:induction false} OnlyTheTableHides(r: Run, k: nat, slot: nat)
    requires IsRun(r) && k < |r.steps| && SettlesAt(r, k, slot)
    requires !(r.steps[k].Read? && r.steps[k].read.FindTask? && r.steps[k].read.slot == slot)
    ensures var outcome := r.states[k + 1].readers.lookups[slot].pc.outcome;
            !outcome.EmptyProfile? && !outcome.NotFound? && !outcome.QueuePending?
  {
    var l := ReadRun(r);
    ReadRunIsRun(r);
    L.ReachableOk(l, k);
    assert L.Follows(l, k);
    var outcome := r.states[k + 1].readers.lookups[slot].pc.outcome;
    if L.Hides(outcome) {
      L.HidingStep(l.states[k], l.steps[k], slot);
    } else if outcome.QueuePending? {
      L.PendingComesFromTheTable(l.states[k], l.steps[k], slot);
    }
  }

  lemma {:induction false} FoundExactly(store: St.Store, now: nat, chain: Chain, born: set<string>, q: Query, id: string)
    requires St.StoreOk(store, now, chain, born) && L.ByKey(q) && St.Active(store, id)
    ensures L.AfterFind(q, Some(L.FoundBy(store, q, now))) == L.Settled(L.QueuePending(id)) <==> St.Owns(store, Bytes(q.key), id)
  {
    if St.Owns(store, Bytes(q.key), id) { L.PlaceholderIsVisible(store, now, chain, born, q, id); }
  }

  /** The task table names an active task to a query for a key exactly when the task owns the key's
      placeholder at that time. */
  lemma {:induction false} TableNamesExactly(r: Run, k: nat, slot: nat, id: string)
    requires IsRun(r) && k < |r.steps| && r.steps[k].Read? && r.steps[k].read.FindTask?
    requires r.steps[k].read.slot == slot && r.steps[k].read.up && St.Active(r.states[k].pipeline.store, id)
    ensures slot in r.states[k].readers.lookups && L.ByKey(r.states[k].readers.lookups[slot].query)
    ensures slot in r.states[k + 1].readers.lookups
    ensures r.states[k + 1].readers.lookups[slot].pc == L.Settled(L.QueuePending(id)) <==>
            St.Owns(r.states[k].pipeline.store, Bytes(r.states[k].readers.lookups[slot].query.key), id)
  {
    assert Follows(r, k);
    ClocksAgree(r, k);
    WriteRunIsRun(r);
    Runs.ReachableOk(WriteRun(r), k);
    var s := r.states[k].pipeline;
    assert St.StoreOk(s.store, s.now, s.chain, s.born);
    FoundExactly(s.store, s.now, s.chain, s.born, r.states[k].readers.lookups[slot].query, id);
  }

  // ── Whose placeholder it is ──────────────────────────────────────────────

  /** A task enters the store with the key's placeholder exactly when the key had no row before. */
  lemma {:induction false} ClaimsExactly(s: P.System, step: P.Step, id: string, key: Hex)
    requires P.Inv(s) && P.Enabled(s, step) && id !in s.born && id in P.Apply(s, step).born
    ensures var t := P.Apply(s, step).store;
            && id in t.tasks
            && (key in St.PlaceholderKeys(t.tasks[id].task) ==> (St.Owns(t, key, id) <==> key !in s.store.keys))
  {
    var pc := s.admissions[step.slot];
    assert P.AdmissionOk(s, pc);
    Safety.RequestIsReady(s, pc);
    var task := pc.task;
    if key in St.PlaceholderKeys(task) {
      St.ClaimSucceedsExactlyOnAbsentKeys(s.store, task, s.now, s.chain, s.born, key);
    }
  }

  /** A task that is active has not ended before. */
  lemma {:induction false} ActiveAllAlong(r: Run, i: nat, m: nat, k: nat, id: string)
    requires IsRun(r) && i <= m <= k < |r.states|
    requires id in r.states[i].pipeline.born && St.Active(r.states[k].pipeline.store, id)
    ensures St.Active(r.states[m].pipeline.store, id)
  {
    var w := WriteRun(r);
    WriteRunIsRun(r);
    Runs.RowsOnlyMoveForward(w, i, m, id);
    Runs.RowsOnlyMoveForward(w, m, k, id);
  }

  lemma {:induction false} OwnsForGood(r: Run, i: nat, k: nat, key: Hex, id: string)
    requires IsRun(r) && i <= k < |r.states|
    requires id in r.states[i].pipeline.born && St.Active(r.states[k].pipeline.store, id)
    ensures St.Owns(r.states[k].pipeline.store, key, id) <==> St.Owns(r.states[i].pipeline.store, key, id)
  {
    forall m | i <= m <= k ensures St.Active(r.states[m].pipeline.store, id) { ActiveAllAlong(r, i, m, k, id); }
    if St.Owns(r.states[i].pipeline.store, key, id) {
      StillOwned(r, i, k, key, id);
    } else {
      WriteRunIsRun(r);
      Runs.RefusedPlaceholderIsNeverRegained(WriteRun(r), i, k, key, id);
    }
  }

  /** Whether a pending task is visible under a key is settled when it is admitted: as long as it is
      active, a query for one of its keys that gets to the task table is answered with its queue
      marker exactly when the key had no row, live or expired, just before the admission. */
  lemma {:induction false} VisibleExactlyWhenClaimed(r: Run, i: nat, k: nat, slot: nat, id: string)
    requires IsRun(r) && i < k < |r.steps| && r.steps[k].Read? && r.steps[k].read.FindTask?
    requires r.steps[k].read.slot == slot && r.steps[k].read.up
    requires id !in r.states[i].pipeline.born && id in r.states[i + 1].pipeline.born && St.Active(r.states[k].pipeline.store, id)
    ensures slot in r.states[k].readers.lookups && L.ByKey(r.states[k].readers.lookups[slot].query)
    ensures slot in r.states[k + 1].readers.lookups
    ensures var key := Bytes(r.states[k].readers.lookups[slot].query.key);
            key in St.PlaceholderKeys(r.states[k].pipeline.store.tasks[id].task) ==>
              (r.states[k + 1].readers.lookups[slot].pc == L.Settled(L.QueuePending(id)) <==> key !in r.states[i].pipeline.store.keys)
  {
    TableNamesExactly(r, k, slot, id);
    var key, w := Bytes(r.states[k].readers.lookups[slot].query.key), WriteRun(r);
    OwnsForGood(r, i + 1, k, key, id);
    WriteRunIsRun(r);
    Runs.ReachableOk(w, i);
    assert Runs.Follows(w, i);
    ClaimsExactly(w.states[i], w.steps[i], id, key);
    Runs.RowsOnlyMoveForward(w, i + 1, k, id);
    St.SameWriteSameChain(w.states[i + 1].store.tasks[id].task, w.states[k].store.tasks[id].task, w.states[k].chain);
  }
}
