/**
 * A pending task that nobody can see under its key: a second register of a key is refused the
 * placeholder, and when the first one fails the placeholder goes with it
 * (p256-index-cf/src/submitter.rs:420-432, 529-575; p256-registrar/src/lookup.rs:588-621).
 */
module HiddenTasks {
  import opened Basics
  import opened Tasks
  import opened CacheKeys
  import opened RetryDigests
  import E = ChainErrors
  import St = Stores
  import A = Admissions
  import B = Submission
  import P = Pipeline
  import Runs = PipelineRuns
  import F = FailedWrites
  import L = Lookups
  import V = Visibility

  // ── On the write side ────────────────────────────────────────────────────

  /** Nothing is in the way of this register. */
  predicate Clear(s: P.System, v: Task) {
    && v.kind.Register? && v.contentHash !in s.chain.units
    && St.FindByContent(s.store, v.contentHash, s.now).None? && St.FindByRetryDigest(s.store, RetryDigest(v), s.now).None?
  }

  /** The system with this request at this point. */
  function With(s: P.System, slot: nat, v: Task, pc: A.Pc): P.System {
    s.(admissions := s.admissions[slot := pc], issued := s.issued + {v.id})
  }

  /** An answer that changes no table takes the request one step further. */
  lemma {:induction false} Answer(r: Runs.Run, s: P.System, slot: nat, v: Task, pc: A.Pc, reply: A.Answer) returns (q: Runs.Run)
    requires Runs.IsRun(r) && F.Last(r) == With(s, slot, v, pc) && !pc.Settled? && A.WellFormed(pc)
    requires P.AdmissionTruth(With(s, slot, v, pc), A.Request(pc), reply, false)
    ensures Runs.IsRun(q) && F.Last(q) == With(s, slot, v, A.Resume(pc, reply))
  {
    q := F.Extend(r, P.AdmissionStep(slot, reply, false));
  }

  lemma {:induction false} IsNew(r: Runs.Run, slot: nat, v: Task) returns (q: Runs.Run)
    requires Runs.IsRun(r) && slot !in F.Last(r).admissions && P.MayArrive(F.Last(r), Some(v)) && Clear(F.Last(r), v)
    ensures Runs.IsRun(q) && F.Last(q) == With(F.Last(r), slot, v, A.Prechecking(v))
  {
    var s := F.Last(r);
    q := F.Extend(r, P.Arrive(slot, Some(v)));
    q := Answer(q, s, slot, v, A.AskingIp(v), A.Allowed(true));
    q := Answer(q, s, slot, v, A.FindingContent(v), A.TaskFound(None));
    q := Answer(q, s, slot, v, A.FindingDigest(v), A.TaskFound(None));
  }

  /** A register that meets nothing in its way comes to be admitted. */
  lemma {:induction false} ComesToBeAdmitted(r: Runs.Run, slot: nat, v: Task) returns (q: Runs.Run)
    requires Runs.IsRun(r) && slot !in F.Last(r).admissions && P.MayArrive(F.Last(r), Some(v)) && Clear(F.Last(r), v)
    ensures Runs.IsRun(q) && F.Last(q) == With(F.Last(r), slot, v, A.Admitting(v))
  {
    var s := F.Last(r);
    q := IsNew(r, slot, v);
    q := Answer(q, s, slot, v, A.Prechecking(v), A.ChainBool(false));
    q := Answer(q, s, slot, v, A.AskingDepth(v), A.Depth(0));
    q := Answer(q, s, slot, v, A.AskingGlobal(v), A.Allowed(true));
  }

  lemma {:induction false} IsAdmitted(r: Runs.Run, slot: nat, v: Task) returns (q: Runs.Run)
    requires Runs.IsRun(r) && slot !in F.Last(r).admissions && P.MayArrive(F.Last(r), Some(v)) && Clear(F.Last(r), v)
    ensures Runs.IsRun(q)
    ensures var s := F.Last(r);
            F.Last(q) == s.(admissions := s.admissions[slot := A.NotingDigest(v)], issued := s.issued + {v.id},
                            store := St.Admit(s.store, v, s.now).0, born := s.born + {v.id})
  {
    q := ComesToBeAdmitted(r, slot, v);
    q := F.Extend(q, P.AdmissionStep(slot, A.Admitted(St.New), true));
  }

  lemma {:induction false} IsEnqueued(r: Runs.Run, slot: nat, v: Task) returns (q: Runs.Run)
    requires Runs.IsRun(r) && slot in F.Last(r).admissions && F.Last(r).admissions[slot] == A.NotingDigest(v)
    ensures Runs.IsRun(q)
    ensures var s := F.Last(r);
            F.Last(q) == s.(admissions := s.admissions[slot := A.Marking(v.id)],
                            queue := s.queue + [P.Envelope(s.nextNumber, v.id)], nextNumber := s.nextNumber + 1)
  {
    q := F.Extend(r, P.AdmissionStep(slot, A.StoreUnavailable, false));
    q := F.Extend(q, P.AdmissionStep(slot, A.Enqueued, true));
  }

  /** The task at the head of the queue is refused for good. */
  lemma {:induction false} IsRefused(r: Runs.Run, id: string) returns (q: Runs.Run)
    requires Runs.IsRun(r) && F.Waits(F.Last(r), id)
    ensures Runs.IsRun(q)
    ensures var s := F.Last(r);
            F.Last(q) == s.(store := St.MarkFailed(s.store, id, WriteFailed(E.MissingSigner), s.now), consumer := F.Last(q).consumer)
  {
    q := F.ComesToSend(r, id);
    q := F.Extend(q, P.ConsumerStep(B.Tx(B.SendFailed(E.MissingSigner)), false));
    q := F.Extend(q, P.ConsumerStep(B.Persisted, true));
  }

  /** Two registers that the pipeline takes for different writes and that share a key. */
  predicate Rivals(a: Task, b: Task, key: Hex) {
    && a.kind.Register? && b.kind.Register? && St.Admissible(a) && St.Admissible(b)
    && a.id != b.id && a.contentHash != b.contentHash
    && key in St.PlaceholderKeys(a) && key in St.PlaceholderKeys(b)
  }

  /** The tables after both were admitted and the first one failed. */
  function Bereft(a: Task, b: Task, now: nat): St.Store {
    St.MarkFailed(St.Admit(St.Admit(St.EMPTY, a, now).0, b, now).0, a.id, WriteFailed(E.MissingSigner), now)
  }

  lemma {:induction false} BereftIsHidden(a: Task, b: Task, key: Hex, now: nat)
    requires Rivals(a, b, key)
    ensures St.Active(Bereft(a, b, now), b.id) && Bereft(a, b, now).tasks[b.id].task == b
    ensures key !in Bereft(a, b, now).keys
  {}

  /** From any chain that has neither there is a run after which the second is pending without its
      placeholder. */
  lemma {:induction false} PendingWithoutPlaceholder(a: Task, b: Task, key: Hex, now: nat, chain: Chain) returns (q: Runs.Run)
    requires Rivals(a, b, key) && a.contentHash !in chain.units && b.contentHash !in chain.units
    ensures Runs.IsRun(q)
    ensures F.Last(q).store == Bereft(a, b, now) && F.Last(q).now == now
  {
    var start := P.Init(now, chain);
    q := Runs.Run([start], []);
    q := IsAdmitted(q, 0, a);
    q := IsEnqueued(q, 0, a);
    q := IsAdmitted(q, 1, b);
    assert ContentHash(a) == Some(a.contentHash);
    q := IsRefused(q, a.id);
  }

  // ── On the read side ─────────────────────────────────────────────────────

  function Idle(s: P.System): V.Whole { V.Whole(s, L.World(s.now, map[], map[], [], map[])) }

  /** A run of the pipeline during which nobody reads. */
  lemma {:induction false} Unread(r: Runs.Run) returns (w: V.Run)
    requires Runs.IsRun(r)
    ensures V.IsRun(w) && |w.states| == |r.states| && w.states[|w.states| - 1] == Idle(F.Last(r))
  {
    w := V.Run(seq(|r.states|, i requires 0 <= i < |r.states| => Idle(r.states[i])),
               seq(|r.steps|, i requires 0 <= i < |r.steps| => if r.steps[i].Tick? then V.Tick(r.steps[i].to) else V.Write(r.steps[i])));
    forall i | 0 <= i < |w.steps| ensures V.Follows(w, i) {
      assert Runs.Follows(r, i);
      if !r.steps[i].Tick? { V.WritesKeepTheClock(r.states[i], r.steps[i]); }
    }
  }

  function Last(r: V.Run): V.Whole
    requires r.states != []
  {
    r.states[|r.states| - 1]
  }

  lemma {:induction false} Read(r: V.Run, step: L.Step) returns (q: V.Run)
    requires V.IsRun(r) && V.Enabled(Last(r), V.Read(step))
    ensures V.IsRun(q) && |q.states| == |r.states| + 1 && r.states <= q.states && q.steps == r.steps + [V.Read(step)]
    ensures Last(q) == Last(r).(readers := L.Apply(Last(r).readers, step))
  {
    q := V.Run(r.states + [V.Apply(Last(r), V.Read(step))], r.steps + [V.Read(step)]);
    forall i | 0 <= i < |q.steps| ensures V.Follows(q, i) {
      if i < |r.steps| { assert V.Follows(r, i); }
    }
  }

  /** The reader asks the cache and the chain and finds nothing. */
  lemma {:induction false} AsksTheChain(r: V.Run, query: Query) returns (q: V.Run)
    requires V.IsRun(r) && Last(r) == Idle(Last(r).pipeline) && L.Clamped(query) && L.ByKey(query)
    ensures V.IsRun(q) && Last(q).pipeline == Last(r).pipeline
    ensures 0 in Last(q).readers.lookups && Last(q).readers.lookups[0].query == query && Last(q).readers.lookups[0].pc == L.Finding
    ensures Last(q).readers.now == Last(r).readers.now
  {
    q := Read(r, L.Begin(0, query));
    q := Read(q, L.ReadCache(0, true));
    q := Read(q, L.Allow(0, None));
    q := Read(q, L.FetchChain(0, L.Absent));
  }

  /** And then the task table, which has no row for the key. */
  lemma {:induction false} AsksTheTable(r: V.Run, query: Query) returns (q: V.Run)
    requires V.IsRun(r) && L.ByKey(query) && Bytes(query.key) !in Last(r).pipeline.store.keys
    requires 0 in Last(r).readers.lookups && Last(r).readers.lookups[0].query == query && Last(r).readers.lookups[0].pc == L.Finding
    ensures V.IsRun(q) && Last(q).pipeline == Last(r).pipeline && 0 in Last(q).readers.lookups
    ensures Last(q).readers.lookups[0].pc == L.Settled(if query.EntriesByKey? then L.EmptyProfile else L.NotFound)
  {
    q := Read(r, L.FindTask(0, Last(r).pipeline.store, true));
  }

  /** A key query that is answered "nothing there" at a time when a task that would write this very
      key is pending: for every two rivals, every chain without them and every page. */
  lemma {:induction false} PendingCanBeInvisible(a: Task, b: Task, query: Query, now: nat, chain: Chain) returns (q: V.Run)
    requires L.Clamped(query) && L.ByKey(query) && Rivals(a, b, Bytes(query.key))
    requires a.contentHash !in chain.units && b.contentHash !in chain.units
    ensures V.IsRun(q)
    ensures St.Active(Last(q).pipeline.store, b.id) && Bytes(query.key) in St.PlaceholderKeys(Last(q).pipeline.store.tasks[b.id].task)
    ensures 0 in Last(q).readers.lookups
    ensures Last(q).readers.lookups[0].pc == L.Settled(if query.EntriesByKey? then L.EmptyProfile else L.NotFound)
  {
    var writes := PendingWithoutPlaceholder(a, b, Bytes(query.key), now, chain);
    BereftIsHidden(a, b, Bytes(query.key), now);
    q := Unread(writes);
    q := AsksTheChain(q, query);
    q := AsksTheTable(q, query);
  }
}
