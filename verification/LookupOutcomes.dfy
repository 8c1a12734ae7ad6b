/**
 * What a lookup must answer, from what it was told on its way: the row it read in the cache, the
 * read budget, the chain's answer and the task table's (p256-registrar/src/lookup.rs:538-892,
 * p256-index-cf/src/edge.rs:707-756). Whatever other lookups do in between.
 */
module LookupOutcomes {
  import opened Basics
  import opened Tasks
  import opened CacheKeys
  import St = Stores
  import opened Lookups

  /** The slot stays with its lookup. */
  predicate Keeps(step: Step, slot: nat) { !(step.Begin? && step.slot == slot) && step != Gone(slot) }

  /** Step i is the lookup's own. */
  predicate Own(step: Step, slot: nat) {
    match step
    case ReadCache(k, _) => k == slot
    case Allow(k, _) => k == slot
    case FetchChain(k, _) => k == slot
    case WriteCache(k, _) => k == slot
    case FindTask(k, _, _) => k == slot
    case _ => false
  }

  lemma {:induction false} OthersLeaveIt(r: Run, i: nat, slot: nat)
    requires IsRun(r) && i < |r.steps| && slot in r.states[i].lookups && Keeps(r.steps[i], slot) && !Own(r.steps[i], slot)
    ensures slot in r.states[i + 1].lookups && r.states[i + 1].lookups[slot] == r.states[i].lookups[slot]
  {
    assert Follows(r, i);
  }

  // ── The cache ────────────────────────────────────────────────────────────

  function RowFor(w: World, q: Query): Option<CacheRow> {
    if KeyText(q) in w.cache then Some(w.cache[KeyText(q)]) else None
  }

  /** The row answers at once: a value for five minutes, the absence of an id for one. */
  function Served(w: World, q: Query): Option<Outcome> {
    match RowFor(w, q)
    case None => None
    case Some(row) =>
      if row.value.Some? && w.now <= row.storedAt + 300_000 then Some(AnsweredFromCache(row.value.value))
      else if row.value.None? && (q.Entry? || q.Unit?) && w.now <= row.storedAt + 60_000 then Some(NotFound)
      else None
  }

  /** The row is kept in reserve: its value is past five minutes and not past a day, or an hour for
      statistics. */
  function Reserve(w: World, q: Query): Option<Old> {
    match RowFor(w, q)
    case None => None
    case Some(row) =>
      if row.value.Some? && row.storedAt + 300_000 < w.now
         && w.now <= row.storedAt + (if q.Entry? || q.Unit? || q.EntriesByKey? || q.Group? then 86_400_000 else 3_600_000)
      then Some(Old(row.value.value, w.now - row.storedAt)) else None
  }

  lemma {:induction false} CacheGetMeans(w: World, q: Query)
    requires KeyText(q) in w.cache ==>
               var row := w.cache[KeyText(q)]; row.storedAt <= w.now && row.freshUntil == Envelope(row.value, row.storedAt).freshUntil
    ensures AfterRead(q, CacheGet(w.cache, q, w.now)) ==
            if Served(w, q).Some? then Settled(Served(w, q).value) else Asking(Reserve(w, q))
  {}

  /** The cache is up: the lookup is over with what the row serves, or goes on with what it keeps in
      reserve. If the cache is down, so is the lookup. */
  lemma {:induction false} CacheAnswersExactly(r: Run, i: nat, slot: nat, up: bool)
    requires IsRun(r) && i < |r.steps| && r.steps[i] == ReadCache(slot, up)
    ensures slot in r.states[i].lookups && slot in r.states[i + 1].lookups
    ensures var w, l := r.states[i], r.states[i + 1].lookups[slot];
            && l.query == w.lookups[slot].query
            && l.pc == (if !up then Settled(Unavailable)
                        else if Served(w, l.query).Some? then Settled(Served(w, l.query).value)
                        else Asking(Reserve(w, l.query)))
  {
    assert Follows(r, i);
    var w, text := r.states[i], KeyText(r.states[i].lookups[slot].query);
    assert text in w.cache ==> RowOk(w.log, w.writtenFor[text], w.cache[text], w.now) by { ReachableOk(r, i); }
    CacheGetMeans(w, w.lookups[slot].query);
  }

  // ── What the lookup carries ──────────────────────────────────────────────

  /** Between the cache read and the chain's answer. */
  predicate Carries(l: Lookup, q: Query, reserve: Option<Old>) {
    l.query == q && !l.pc.Reading? && (l.pc.Asking? || l.pc.Fetching? ==> l.pc.stale == reserve)
  }

  lemma {:induction false} OwnStepCarries(w: World, step: Step, slot: nat, q: Query, reserve: Option<Old>)
    requires Enabled(w, step) && slot in w.lookups && Own(step, slot) && Carries(w.lookups[slot], q, reserve)
    ensures slot in Apply(w, step).lookups && Carries(Apply(w, step).lookups[slot], q, reserve)
  {}

  lemma {:induction false} CarriedAlong(r: Run, i: nat, j: nat, slot: nat, q: Query, reserve: Option<Old>)
    requires IsRun(r) && i <= j < |r.states| && slot in r.states[i].lookups && Carries(r.states[i].lookups[slot], q, reserve)
    requires forall m | i <= m < j :: Keeps(r.steps[m], slot)
    ensures slot in r.states[j].lookups && Carries(r.states[j].lookups[slot], q, reserve)
    decreases j
  {
    if i < j {
      CarriedAlong(r, i, j - 1, slot, q, reserve);
      assert Follows(r, j - 1);
      if Own(r.steps[j - 1], slot) {
        OwnStepCarries(r.states[j - 1], r.steps[j - 1], slot, q, reserve);
      } else {
        OthersLeaveIt(r, j - 1, slot);
      }
    }
  }

  /** A lookup that read the cache and whose chain read fails is answered with the value the row kept
      in reserve, and with its age, exactly when there was such a row; otherwise it is unavailable. */
  lemma {:induction false} StaleIsServedExactly(r: Run, i: nat, j: nat, slot: nat)
    requires IsRun(r) && i < j < |r.steps| && r.steps[i] == ReadCache(slot, true) && r.steps[j] == FetchChain(slot, ChainAnswer.Failed)
    requires forall m | i < m < j :: Keeps(r.steps[m], slot)
    ensures slot in r.states[i].lookups && slot in r.states[j + 1].lookups
    ensures var w, l := r.states[i], r.states[j + 1].lookups[slot];
            && l.query == w.lookups[slot].query
            && (Reserve(w, l.query).Some? ==>
                  l.pc == Settled(AnsweredStale(Reserve(w, l.query).value.value, Reserve(w, l.query).value.age)))
            && (l.pc == Settled(Unavailable) <==> Reserve(w, l.query).None?)
  {
    CacheAnswersExactly(r, i, slot, true);
    var q, reserve := r.states[i].lookups[slot].query, Reserve(r.states[i], r.states[i].lookups[slot].query);
    CarriedAlong(r, i + 1, j, slot, q, reserve);
    assert Follows(r, j);
  }

  // ── The budget, the chain and the table ──────────────────────────────────

  /** Only an outright refusal of the read budget ends a lookup. */
  lemma {:induction false} BudgetAnswersExactly(r: Run, i: nat, slot: nat, allowed: Option<bool>)
    requires IsRun(r) && i < |r.steps| && r.steps[i] == Allow(slot, allowed)
    ensures slot in r.states[i].lookups && slot in r.states[i + 1].lookups
    ensures r.states[i].lookups[slot].pc.Asking?
    ensures r.states[i + 1].lookups[slot].pc ==
            if allowed == Some(false) then Settled(ReadLimited) else Fetching(r.states[i].lookups[slot].pc.stale)
  {
    assert Follows(r, i);
  }

  /** Waiting to write the cache. */
  lemma {:induction false} WaitsToWrite(r: Run, i: nat, j: nat, slot: nat)
    requires IsRun(r) && i <= j < |r.states| && slot in r.states[i].lookups && r.states[i].lookups[slot].pc.Writing?
    requires forall m | i <= m < j :: Keeps(r.steps[m], slot) && !(r.steps[m].WriteCache? && r.steps[m].slot == slot)
    ensures slot in r.states[j].lookups && r.states[j].lookups[slot] == r.states[i].lookups[slot]
    decreases j
  {
    if i < j {
      WaitsToWrite(r, i, j - 1, slot);
      assert Follows(r, j - 1);
      assert !Own(r.steps[j - 1], slot);
      OthersLeaveIt(r, j - 1, slot);
    }
  }

  /** What the chain says is what is answered, whether or not the cache takes it; a row that is
      written is fresh for five minutes, or for one if it says that an id is not there. */
  lemma {:induction false} ChainAnswerIsServed(r: Run, i: nat, j: nat, slot: nat, answer: ChainAnswer, done: bool)
    requires IsRun(r) && i < j < |r.steps| && r.steps[i] == FetchChain(slot, answer) && r.steps[j] == WriteCache(slot, done)
    requires forall m | i < m < j :: Keeps(r.steps[m], slot) && !(r.steps[m].WriteCache? && r.steps[m].slot == slot)
    requires slot in r.states[i].lookups && (answer.Value? || (answer.Absent? && ById(r.states[i].lookups[slot].query)))
    ensures slot in r.states[j + 1].lookups
    ensures var q, v := r.states[i].lookups[slot].query, r.states[j + 1];
            && v.lookups[slot].pc == Settled(if answer.Value? then Answered(answer.value) else NotFound)
            && (!done ==> v.cache == r.states[j].cache)
            && (done && answer.Value? ==> v.cache == r.states[j].cache[KeyText(q) := CacheRow(Some(answer.value), v.now, v.now + 300_000)])
            && (done && answer.Absent? ==> v.cache == r.states[j].cache[KeyText(q) := CacheRow(None, v.now, v.now + 60_000)])
  {
    assert Follows(r, i) && Follows(r, j);
    WaitsToWrite(r, i + 1, j, slot);
  }

  /** A key or group that the chain does not have is looked up in the task table; statistics that it
      does not have are an outage. */
  lemma {:induction false} AbsenceLeadsToTheTable(r: Run, i: nat, slot: nat)
    requires IsRun(r) && i < |r.steps| && r.steps[i] == FetchChain(slot, Absent)
    ensures slot in r.states[i].lookups && slot in r.states[i + 1].lookups
    ensures var q, pc := r.states[i].lookups[slot].query, r.states[i + 1].lookups[slot].pc;
            && (q.EntriesByKey? || q.Group? ==> pc == Finding) && (q.StatsTotal? || q.Sites? || q.Keys? ==> pc == Settled(Unavailable))
  {
    assert Follows(r, i);
  }

  /** The task table answers with the task that is found, unless that failed; otherwise a key has an
      empty profile and a group is not there. A table that is down ends the lookup. */
  lemma {:induction false} TableAnswersExactly(r: Run, i: nat, slot: nat, tables: St.Store, up: bool)
    requires IsRun(r) && i < |r.steps| && r.steps[i] == FindTask(slot, tables, up)
    ensures slot in r.states[i].lookups && slot in r.states[i + 1].lookups && ByKey(r.states[i].lookups[slot].query)
    ensures var q, pc := r.states[i].lookups[slot].query, r.states[i + 1].lookups[slot].pc;
            var found := St.FindByKey(tables, Bytes(q.key), r.states[i].now);
            pc == Settled(if !up then Unavailable
                          else if found.Some? && (found.value.status.Pending? || found.value.status.Done?) then QueuePending(found.value.id)
                          else if q.EntriesByKey? then EmptyProfile else NotFound)
  {
    assert Follows(r, i);
  }
}
