/**
 * The read side: any number of lookups reading through one cache, each a sequence of shell
 * requests (p256-registrar/src/lookup.rs:413-892), over the cache envelope of
 * p256-index-cf/src/edge.rs:527-756. Steps of different lookups interleave freely, a cache row
 * may disappear at any time, and any request may fail.
 */
module Lookups {
  import opened Basics
  import opened Tasks
  import opened CacheKeys
  import St = Stores

  const CACHE_FRESH_TTL_MS: nat := 5 * 60 * 1000
  const CACHE_NEGATIVE_TTL_MS: nat := 60 * 1000
  const RECORD_STALE_LIMIT_MS: nat := 24 * 60 * 60 * 1000
  const STATS_STALE_LIMIT_MS: nat := 60 * 60 * 1000

  datatype ChainAnswer = Value(value: string) | Absent | Failed

  datatype CacheRow = CacheRow(value: Option<string>, storedAt: nat, freshUntil: nat)

  datatype CacheAnswer = Fresh(value: string) | Stale(value: string, age: nat) | Negative | Miss | CacheDown

  datatype Outcome =
    | Answered(value: string)
    | AnsweredFromCache(value: string)
    | AnsweredStale(value: string, age: nat)
    | QueuePending(taskId: string)
    | EmptyProfile
    | NotFound
    | ReadLimited
    | Unavailable

  datatype Old = Old(value: string, age: nat)

  datatype Pc =
    | Reading
    | Asking(stale: Option<Old>)
    | Fetching(stale: Option<Old>)
    | Writing(fetched: Option<string>)
    | Finding
    | Settled(outcome: Outcome)

  // ── The program ──────────────────────────────────────────────────────────

  predicate ByKey(q: Query) { q.EntriesByKey? || q.Group? }
  predicate ById(q: Query) { q.Entry? || q.Unit? }

  function AfterRead(q: Query, answer: CacheAnswer): Pc {
    match answer
    case Fresh(value) => Settled(AnsweredFromCache(value))
    case Stale(value, age) => Asking(Some(Old(value, age)))
    case Negative => if ById(q) then Settled(NotFound) else Asking(None)
    case Miss => Asking(None)
    case CacheDown => Settled(Unavailable)
  }

  /** The read budget fails open. */
  function AfterAllow(stale: Option<Old>, allowed: Option<bool>): Pc {
    if allowed == Some(false) then Settled(ReadLimited) else Fetching(stale)
  }

  function AfterFetch(q: Query, stale: Option<Old>, answer: ChainAnswer): Pc {
    match answer
    case Value(value) => Writing(Some(value))
    case Absent => if ByKey(q) then Finding else if ById(q) then Writing(None) else Settled(Unavailable)
    case Failed => if stale.Some? then Settled(AnsweredStale(stale.value.value, stale.value.age)) else Settled(Unavailable)
  }

  function AfterWrite(fetched: Option<string>): Pc {
    Settled(if fetched.Some? then Answered(fetched.value) else NotFound)
  }

  predicate ActivePlaceholder(task: Task) { !task.status.Failed? }

  function AfterFind(q: Query, found: Option<Option<Task>>): Pc {
    match found
    case None => Settled(Unavailable)
    case Some(task) =>
      if task.Some? && ActivePlaceholder(task.value) then Settled(QueuePending(task.value.id))
      else if q.EntriesByKey? then Settled(EmptyProfile)
      else Settled(NotFound)
  }

  // ── The cache ────────────────────────────────────────────────────────────

  function StaleLimit(q: Query): nat {
    if q.StatsTotal? || q.Sites? || q.Keys? then STATS_STALE_LIMIT_MS else RECORD_STALE_LIMIT_MS
  }

  function CacheGet(cache: map<string, CacheRow>, q: Query, now: nat): CacheAnswer {
    if KeyText(q) !in cache then Miss
    else
      var row := cache[KeyText(q)];
      var age := if now >= row.storedAt then now - row.storedAt else 0;
      match row.value
      case None => if now <= row.freshUntil then Negative else Miss
      case Some(value) =>
        if now <= row.freshUntil then Fresh(value)
        else if age <= StaleLimit(q) then Stale(value, age)
        else Miss
  }

  function Envelope(value: Option<string>, now: nat): CacheRow {
    CacheRow(value, now, now + if value.None? then CACHE_NEGATIVE_TTL_MS else CACHE_FRESH_TTL_MS)
  }

  /** Page parameters are clamped before anything else happens. */
  function Pagination(page: Option<nat>, size: Option<nat>, ascending: bool): (at: Page)
    ensures at.page >= 1 && 1 <= at.size <= 100
    ensures at.page == 1 || page == Some(at.page)
    ensures page.Some? && page.value >= 1 ==> at.page == page.value
    ensures size.None? ==> at.size == 20
    ensures size.Some? && 1 <= size.value <= 100 ==> at.size == size.value
    ensures size == Some(0) ==> at.size == 1
    ensures size.Some? && size.value > 100 ==> at.size == 100
    ensures at.descending <==> !ascending
  {
    var p := if page.None? then 1 else page.value;
    var s := if size.None? then 20 else size.value;
    Page(if p < 1 then 1 else p, if s < 1 then 1 else if s > 100 then 100 else s, !ascending)
  }

  predicate Clamped(q: Query) {
    q.Entry? || q.StatsTotal? || (q.at.page >= 1 && 1 <= q.at.size <= 100)
  }

  /** The query the chain is really asked, after the page went through an offset. */
  function Effective(q: Query): Query
    requires Clamped(q)
  {
    if q.Entry? || q.StatsTotal? then q
    else
      var at := q.at.(page := PageBack(Offset(q.at), q.at.size));
      match q
      case EntriesByKey(key, _) => EntriesByKey(key, at)
      case Unit(id, _) => Unit(id, at)
      case Group(key, _) => Group(key, at)
      case Sites(_) => Sites(at)
      case Keys(rpId, _) => Keys(rpId, at)
  }

  /** The chain is asked exactly the query that was made while the offset fits into 64 bits. */
  lemma {:induction false} EffectiveExactly(q: Query)
    requires Clamped(q)
    ensures Effective(q) == q <==> q.Entry? || q.StatsTotal? || (q.at.page - 1) * q.at.size < U64
  {
    if !q.Entry? && !q.StatsTotal? { PageSurvivesExactly(q.at); }
  }

  /** A page that a 64-bit parameter can carry and that is answered with the first page. */
  lemma {:induction false} FarPageWraps(descending: bool)
    ensures var at := Page(0x8000_0000_0000_0001, 2, descending);
            at.page < U64 && Clamped(Sites(at)) && Effective(Sites(at)) == Sites(Page(1, 2, descending))
  {}

  // ── Steps ────────────────────────────────────────────────────────────────

  datatype Fetch = Fetch(query: Query, at: nat, answer: ChainAnswer)

  /** A lookup, when it read the cache, when the row it read was stored, and when the lookup that
      stored that row had itself read the cache. */
  datatype Lookup = Lookup(query: Query, pc: Pc, readAt: nat, storedAt: nat, fetchedFrom: nat)

  /** The lookup that wrote a cache row. */
  datatype Origin = Origin(query: Query, readAt: nat)

  datatype World = World(
    now: nat,
    cache: map<string, CacheRow>,
    lookups: map<nat, Lookup>,
    log: seq<Fetch>,                    // every chain read so far
    writtenFor: map<string, Origin>)    // who wrote each cache row

  datatype Step =
    | Tick(to: nat)
    | Evict(text: string)
    | Begin(slot: nat, query: Query)
    | ReadCache(slot: nat, up: bool)
    | Allow(slot: nat, allowed: Option<bool>)
    | FetchChain(slot: nat, answer: ChainAnswer)
    | WriteCache(slot: nat, done: bool)
    | FindTask(slot: nat, tables: St.Store, up: bool)
    | Gone(slot: nat)

  predicate At(w: World, slot: nat) { slot in w.lookups }

  predicate Enabled(w: World, step: Step) {
    match step
    case Tick(to) => w.now <= to
    case Evict(_) => true
    case Begin(slot, query) => slot !in w.lookups && Clamped(query)
    case ReadCache(slot, _) => At(w, slot) && w.lookups[slot].pc.Reading?
    case Allow(slot, _) => At(w, slot) && w.lookups[slot].pc.Asking?
    case FetchChain(slot, _) => At(w, slot) && w.lookups[slot].pc.Fetching? && Clamped(w.lookups[slot].query)
    case WriteCache(slot, _) => At(w, slot) && w.lookups[slot].pc.Writing?
    case FindTask(slot, _, _) => At(w, slot) && w.lookups[slot].pc.Finding? && ByKey(w.lookups[slot].query)
    case Gone(slot) => true
  }

  function Moved(w: World, slot: nat, pc: Pc): World
    requires slot in w.lookups
  {
    w.(lookups := w.lookups[slot := w.lookups[slot].(pc := pc)])
  }

  function FoundBy(tables: St.Store, q: Query, now: nat): Option<Task>
    requires ByKey(q)
  {
    St.FindByKey(tables, Bytes(q.key), now)
  }

  function Apply(w: World, step: Step): World
    requires Enabled(w, step)
  {
    match step
    case Tick(to) => w.(now := to)
    case Evict(text) => w.(cache := w.cache - {text})
    case Begin(slot, query) => w.(lookups := w.lookups[slot := Lookup(query, Reading, w.now, w.now, w.now)])
    case ReadCache(slot, up) =>
      var l := w.lookups[slot];
      var answer := if up then CacheGet(w.cache, l.query, w.now) else CacheDown;
      var hit := up && KeyText(l.query) in w.cache && KeyText(l.query) in w.writtenFor;
      var storedAt := if hit then w.cache[KeyText(l.query)].storedAt else w.now;
      var fetchedFrom := if hit then w.writtenFor[KeyText(l.query)].readAt else w.now;
      w.(lookups := w.lookups[slot := Lookup(l.query, AfterRead(l.query, answer), w.now, storedAt, fetchedFrom)])
    case Allow(slot, allowed) => Moved(w, slot, AfterAllow(w.lookups[slot].pc.stale, allowed))
    case FetchChain(slot, answer) =>
      var l := w.lookups[slot];
      Moved(w, slot, AfterFetch(l.query, l.pc.stale, answer)).(log := w.log + [Fetch(Effective(l.query), w.now, answer)])
    case WriteCache(slot, done) =>
      var l := w.lookups[slot];
      var t := Moved(w, slot, AfterWrite(l.pc.fetched));
      if !done then t
      else t.(cache := w.cache[KeyText(l.query) := Envelope(l.pc.fetched, w.now)],
              writtenFor := w.writtenFor[KeyText(l.query) := Origin(l.query, l.readAt)])
    case FindTask(slot, tables, up) =>
      var l := w.lookups[slot];
      Moved(w, slot, AfterFind(l.query, if up then Some(FoundBy(tables, l.query, w.now)) else None))
    case Gone(slot) => w.(lookups := w.lookups - {slot})
  }

  // ── What answers are worth ───────────────────────────────────────────────

  /** The chain gave this answer to this query between these two times. */
  predicate Read(log: seq<Fetch>, q: Query, answer: ChainAnswer, from: nat, to: nat)
    requires Clamped(q)
  {
    exists i | 0 <= i < |log| :: log[i].query == Effective(q) && log[i].answer == answer && from <= log[i].at <= to
  }

  /** What a row holds was read from the chain between its writer's cache read and its storing. */
  predicate RowOk(log: seq<Fetch>, origin: Origin, row: CacheRow, now: nat) {
    && Clamped(origin.query) && origin.readAt <= row.storedAt <= now
    && row.freshUntil == Envelope(row.value, row.storedAt).freshUntil
    && match row.value
       case Some(value) => Read(log, origin.query, Value(value), origin.readAt, row.storedAt)
       case None => ById(origin.query) && Read(log, origin.query, Absent, origin.readAt, row.storedAt)
  }

  predicate CacheOk(w: World) {
    forall text | text in w.cache ::
      && text in w.writtenFor && KeyText(w.writtenFor[text].query) == text
      && RowOk(w.log, w.writtenFor[text], w.cache[text], w.now)
  }

  predicate OldOk(w: World, l: Lookup, old_: Old)
    requires Clamped(l.query)
  {
    && l.fetchedFrom <= l.storedAt <= l.readAt && old_.age == l.readAt - l.storedAt
    && old_.age <= (if ByKey(l.query) || ById(l.query) then 86_400_000 else 3_600_000)
    && Read(w.log, l.query, Value(old_.value), l.fetchedFrom, l.storedAt)
  }

  /** What each outcome promises about where it came from. */
  predicate OutcomeOk(w: World, l: Lookup, outcome: Outcome)
    requires Clamped(l.query)
  {
    match outcome
    case Answered(value) => Read(w.log, l.query, Value(value), l.readAt, w.now)
    case AnsweredFromCache(value) =>
      && l.fetchedFrom <= l.storedAt <= l.readAt <= l.storedAt + 300_000
      && Read(w.log, l.query, Value(value), l.fetchedFrom, l.storedAt)
    case AnsweredStale(value, age) => OldOk(w, l, Old(value, age))
    case NotFound =>
      || (!l.query.EntriesByKey? && Read(w.log, l.query, Absent, l.readAt, w.now))
      || (&& ById(l.query) && l.fetchedFrom <= l.storedAt <= l.readAt <= l.storedAt + 60_000
          && Read(w.log, l.query, Absent, l.fetchedFrom, l.storedAt))
    case EmptyProfile => l.query.EntriesByKey? && Read(w.log, l.query, Absent, l.readAt, w.now)
    case QueuePending(_) => ByKey(l.query) && Read(w.log, l.query, Absent, l.readAt, w.now)
    case _ => true
  }

  predicate LookupOk(w: World, l: Lookup) {
    && Clamped(l.query) && l.readAt <= w.now
    && match l.pc
       case Reading => true
       case Asking(stale) => stale.Some? ==> OldOk(w, l, stale.value)
       case Fetching(stale) => stale.Some? ==> OldOk(w, l, stale.value)
       case Writing(Some(value)) => Read(w.log, l.query, Value(value), l.readAt, w.now)
       case Writing(None) => ById(l.query) && Read(w.log, l.query, Absent, l.readAt, w.now)
       case Finding => ByKey(l.query) && Read(w.log, l.query, Absent, l.readAt, w.now)
       case Settled(outcome) => OutcomeOk(w, l, outcome)
  }

  predicate Inv(w: World) {
    CacheOk(w) && forall slot | slot in w.lookups :: LookupOk(w, w.lookups[slot])
  }

  // ── Preservation ─────────────────────────────────────────────────────────

  lemma {:induction false} ReadLasts(log: seq<Fetch>, more: seq<Fetch>, q: Query, answer: ChainAnswer, from: nat, to: nat, later: nat)
    requires Clamped(q) && Read(log, q, answer, from, to) && to <= later
    ensures Read(log + more, q, answer, from, later)
  {
    var i :| 0 <= i < |log| && log[i].query == Effective(q) && log[i].answer == answer && from <= log[i].at <= to;
    assert (log + more)[i] == log[i];
  }

  /** Time passes and the chain is read: what was known stays known. */
  predicate Grows(w: World, v: World) {
    w.now <= v.now && w.log <= v.log
  }

  lemma {:induction false} ReadStays(w: World, v: World, q: Query, answer: ChainAnswer, from: nat, to: nat, later: nat)
    requires Grows(w, v) && Clamped(q) && Read(w.log, q, answer, from, to) && to <= later
    ensures Read(v.log, q, answer, from, later)
  {
    assert v.log == w.log + v.log[|w.log|..];
    ReadLasts(w.log, v.log[|w.log|..], q, answer, from, to, later);
  }

  lemma {:induction false} OldStays(w: World, v: World, l: Lookup, stale: Old)
    requires Grows(w, v) && Clamped(l.query) && OldOk(w, l, stale)
    ensures OldOk(v, l, stale)
  {
    ReadStays(w, v, l.query, Value(stale.value), l.fetchedFrom, l.storedAt, l.storedAt);
  }

  lemma {:induction false} OutcomeStays(w: World, v: World, l: Lookup, outcome: Outcome)
    requires Grows(w, v) && Clamped(l.query) && OutcomeOk(w, l, outcome)
    ensures OutcomeOk(v, l, outcome)
  {
    match outcome
    case Answered(value) => ReadStays(w, v, l.query, Value(value), l.readAt, w.now, v.now);
    case AnsweredFromCache(value) => ReadStays(w, v, l.query, Value(value), l.fetchedFrom, l.storedAt, l.storedAt);
    case AnsweredStale(value, age) => OldStays(w, v, l, Old(value, age));
    case NotFound =>
      if Read(w.log, l.query, Absent, l.readAt, w.now) {
        ReadStays(w, v, l.query, Absent, l.readAt, w.now, v.now);
      }
      if Read(w.log, l.query, Absent, l.fetchedFrom, l.storedAt) {
        ReadStays(w, v, l.query, Absent, l.fetchedFrom, l.storedAt, l.storedAt);
      }
    case EmptyProfile => ReadStays(w, v, l.query, Absent, l.readAt, w.now, v.now);
    case QueuePending(_) => ReadStays(w, v, l.query, Absent, l.readAt, w.now, v.now);
    case _ =>
  }

  lemma {:induction false} LookupStays(w: World, v: World, l: Lookup)
    requires Grows(w, v) && LookupOk(w, l)
    ensures LookupOk(v, l)
  {
    match l.pc
    case Reading =>
    case Asking(stale) => if stale.Some? { OldStays(w, v, l, stale.value); }
    case Fetching(stale) => if stale.Some? { OldStays(w, v, l, stale.value); }
    case Writing(Some(value)) => ReadStays(w, v, l.query, Value(value), l.readAt, w.now, v.now);
    case Writing(None) => ReadStays(w, v, l.query, Absent, l.readAt, w.now, v.now);
    case Finding => ReadStays(w, v, l.query, Absent, l.readAt, w.now, v.now);
    case Settled(outcome) => OutcomeStays(w, v, l, outcome);
  }

  lemma {:induction false} RowStays(w: World, v: World, origin: Origin, row: CacheRow)
    requires Grows(w, v) && RowOk(w.log, origin, row, w.now)
    ensures RowOk(v.log, origin, row, v.now)
  {
    match row.value
    case Some(value) => ReadStays(w, v, origin.query, Value(value), origin.readAt, row.storedAt, row.storedAt);
    case None => ReadStays(w, v, origin.query, Absent, origin.readAt, row.storedAt, row.storedAt);
  }

  /** Nothing was added to the cache. */
  lemma {:induction false} CacheStays(w: World, v: World)
    requires Grows(w, v) && CacheOk(w) && v.writtenFor == w.writtenFor
    requires forall text | text in v.cache :: text in w.cache && v.cache[text] == w.cache[text]
    ensures CacheOk(v)
  {
    forall text | text in v.cache
      ensures RowOk(v.log, v.writtenFor[text], v.cache[text], v.now)
    {
      RowStays(w, v, w.writtenFor[text], w.cache[text]);
    }
  }

  /** Everybody but one lookup stands still. */
  lemma {:induction false} OthersStay(w: World, v: World, slot: nat)
    requires Grows(w, v) && Inv(w) && CacheOk(v) && v.lookups.Keys <= w.lookups.Keys + {slot}
    requires forall k | k in v.lookups && k != slot :: v.lookups[k] == w.lookups[k]
    requires slot in v.lookups ==> LookupOk(v, v.lookups[slot])
    ensures Inv(v)
  {
    forall k | k in v.lookups ensures LookupOk(v, v.lookups[k]) {
      if k != slot { LookupStays(w, v, w.lookups[k]); }
    }
  }

  /** What a lookup takes from the cache was stored for its own query. */
  lemma {:induction false} CacheReadOk(w: World, l: Lookup, storedAt: nat, fetchedFrom: nat)
    requires CacheOk(w) && Clamped(l.query)
    requires KeyText(l.query) in w.cache ==>
               storedAt == w.cache[KeyText(l.query)].storedAt && fetchedFrom == w.writtenFor[KeyText(l.query)].readAt
    ensures LookupOk(w, Lookup(l.query, AfterRead(l.query, CacheGet(w.cache, l.query, w.now)), w.now, storedAt, fetchedFrom))
  {
    var text := KeyText(l.query);
    if text in w.cache {
      KeyTextIsInjective(w.writtenFor[text].query, l.query);
      assert RowOk(w.log, w.writtenFor[text], w.cache[text], w.now);
    }
  }

  /** A chain read becomes part of the log at once. */
  lemma {:induction false} FetchIsLogged(w: World, q: Query, answer: ChainAnswer, readAt: nat)
    requires Clamped(q) && readAt <= w.now
    ensures Read(w.log + [Fetch(Effective(q), w.now, answer)], q, answer, readAt, w.now)
  {
    var log := w.log + [Fetch(Effective(q), w.now, answer)];
    assert log[|w.log|] == Fetch(Effective(q), w.now, answer);
  }

  lemma {:induction false} FetchOk(w: World, slot: nat, answer: ChainAnswer)
    requires Inv(w) && Enabled(w, FetchChain(slot, answer))
    ensures Inv(Apply(w, FetchChain(slot, answer)))
  {
    var v, l := Apply(w, FetchChain(slot, answer)), w.lookups[slot];
    FetchIsLogged(w, l.query, answer, l.readAt);
    if answer.Failed? && l.pc.stale.Some? { OldStays(w, v, l, l.pc.stale.value); }
    CacheStays(w, v);
    OthersStay(w, v, slot);
  }

  lemma {:induction false} WriteOk(w: World, slot: nat, done: bool)
    requires Inv(w) && Enabled(w, WriteCache(slot, done))
    ensures Inv(Apply(w, WriteCache(slot, done)))
  {
    var v, l := Apply(w, WriteCache(slot, done)), w.lookups[slot];
    assert LookupOk(w, l);
    forall text | text in v.cache ensures
        && text in v.writtenFor && KeyText(v.writtenFor[text].query) == text
        && RowOk(v.log, v.writtenFor[text], v.cache[text], v.now)
    {
      if text in w.cache { assert RowOk(w.log, w.writtenFor[text], w.cache[text], w.now); }
    }
    OthersStay(w, v, slot);
  }

  lemma {:induction false} StepOk(w: World, step: Step)
    requires Inv(w) && Enabled(w, step)
    ensures Inv(Apply(w, step))
  {
    var v := Apply(w, step);
    match step
    case Tick(_) =>
      CacheStays(w, v);
      forall k | k in v.lookups ensures LookupOk(v, v.lookups[k]) { LookupStays(w, v, w.lookups[k]); }
    case Evict(_) => EvictOk(w, step);
    case Begin(slot, _) => MovedOk(w, v, slot);
    case ReadCache(slot, up) => ReadCacheOk(w, slot, up);
    case Allow(slot, _) => AllowOk(w, step);
    case FetchChain(slot, answer) => FetchOk(w, slot, answer);
    case WriteCache(slot, done) => WriteOk(w, slot, done);
    case FindTask(slot, _, _) => FindOk(w, step);
    case Gone(slot) => MovedOk(w, v, slot);
  }

  lemma {:induction false} MovedOk(w: World, v: World, slot: nat)
    requires Inv(w) && v == w.(lookups := v.lookups) && v.lookups.Keys <= w.lookups.Keys + {slot}
    requires forall k | k in v.lookups && k != slot :: v.lookups[k] == w.lookups[k]
    requires slot in v.lookups ==> LookupOk(v, v.lookups[slot])
    ensures Inv(v)
  {
    CacheStays(w, v);
    OthersStay(w, v, slot);
  }

  lemma {:induction false} EvictOk(w: World, step: Step)
    requires Inv(w) && step.Evict?
    ensures Inv(Apply(w, step))
  {
    var v := Apply(w, step);
    CacheStays(w, v);
    forall k | k in v.lookups ensures LookupOk(v, v.lookups[k]) { LookupStays(w, v, w.lookups[k]); }
  }

  lemma {:induction false} ReadCacheOk(w: World, slot: nat, up: bool)
    requires Inv(w) && Enabled(w, ReadCache(slot, up))
    ensures Inv(Apply(w, ReadCache(slot, up)))
  {
    var v, l := Apply(w, ReadCache(slot, up)), w.lookups[slot];
    assert LookupOk(w, l);
    var text := KeyText(l.query);
    CacheReadOk(w, l, if text in w.cache then w.cache[text].storedAt else w.now,
                if text in w.cache then w.writtenFor[text].readAt else w.now);
    LookupSame(w, v, v.lookups[slot]);
    MovedOk(w, v, slot);
  }

  lemma {:induction false} LookupSame(w: World, v: World, l: Lookup)
    requires LookupOk(w, l) && w.log == v.log && w.now == v.now
    ensures LookupOk(v, l)
  {
    LookupStays(w, v, l);
  }

  lemma {:induction false} AllowOk(w: World, step: Step)
    requires Inv(w) && step.Allow? && Enabled(w, step)
    ensures Inv(Apply(w, step))
  {
    var v, l := Apply(w, step), w.lookups[step.slot];
    assert LookupOk(w, l);
    LookupSame(w, v, v.lookups[step.slot]);
    MovedOk(w, v, step.slot);
  }

  lemma {:induction false} FindOk(w: World, step: Step)
    requires Inv(w) && step.FindTask? && Enabled(w, step)
    ensures Inv(Apply(w, step))
  {
    var v, l := Apply(w, step), w.lookups[step.slot];
    assert LookupOk(w, l);
    LookupSame(w, v, v.lookups[step.slot]);
    MovedOk(w, v, step.slot);
  }

  // ── Runs ─────────────────────────────────────────────────────────────────

  datatype Run = Run(states: seq<World>, steps: seq<Step>)

  predicate Follows(r: Run, i: nat)
    requires i < |r.steps| && |r.states| == |r.steps| + 1
  {
    Enabled(r.states[i], r.steps[i]) && r.states[i + 1] == Apply(r.states[i], r.steps[i])
  }

  predicate IsRun(r: Run) {
    && |r.states| == |r.steps| + 1
    && r.states[0] == World(r.states[0].now, map[], map[], [], map[])
    && (forall i | 0 <= i < |r.steps| :: Follows(r, i))
  }

  lemma {:induction false} ReachableOk(r: Run, i: nat)
    requires IsRun(r) && i < |r.states|
    ensures Inv(r.states[i])
  {
    if i > 0 {
      ReachableOk(r, i - 1);
      assert Follows(r, i - 1);
      StepOk(r.states[i - 1], r.steps[i - 1]);
    }
  }

  /** In every reachable state every settled lookup is backed by a chain read of its own query: an
      answer from the cache by one stored at most five minutes before it was read, a stale one by
      one within the limit of its class, a 404 from the cache only for ids and within a minute. */
  lemma {:induction false} EveryAnswerIsBacked(r: Run, i: nat, slot: nat)
    requires IsRun(r) && i < |r.states| && slot in r.states[i].lookups && r.states[i].lookups[slot].pc.Settled?
    ensures var l := r.states[i].lookups[slot]; Clamped(l.query) && OutcomeOk(r.states[i], l, l.pc.outcome)
  {
    ReachableOk(r, i);
    assert LookupOk(r.states[i], r.states[i].lookups[slot]);
  }

  /** How old a cached answer can be when it is read: five minutes, plus the time between the cache
      read of the lookup that stored it and the storing. */
  lemma {:induction false} CachedAnswerIsThisOldAtMost(r: Run, i: nat, slot: nat) returns (k: nat)
    requires IsRun(r) && i < |r.states| && slot in r.states[i].lookups
    requires r.states[i].lookups[slot].pc.Settled? && r.states[i].lookups[slot].pc.outcome.AnsweredFromCache?
    ensures var w := r.states[i]; var l := w.lookups[slot];
            && k < |w.log| && Clamped(l.query) && w.log[k].query == Effective(l.query)
            && w.log[k].answer == Value(l.pc.outcome.value)
            && l.fetchedFrom <= w.log[k].at <= l.readAt
            && l.readAt - w.log[k].at <= 300_000 + (l.storedAt - l.fetchedFrom)
  {
    EveryAnswerIsBacked(r, i, slot);
    var w := r.states[i];
    var l := w.lookups[slot];
    k :| 0 <= k < |w.log| && w.log[k].query == Effective(l.query) && w.log[k].answer == Value(l.pc.outcome.value)
         && l.fetchedFrom <= w.log[k].at <= l.storedAt;
  }

  /** The state in which a value fetched at 0 was stored at d, and the clock shows `now`. */
  function StoredLate(q: Query, value: string, d: nat, now: nat): World
    requires Clamped(q)
  {
    World(now, map[KeyText(q) := CacheRow(Some(value), d, d + CACHE_FRESH_TTL_MS)],
          map[0 := Lookup(q, Settled(Answered(value)), 0, 0, 0)],
          [Fetch(Effective(q), 0, Value(value))], map[KeyText(q) := Origin(q, 0)])
  }

  function Alone(q: Query, pc: Pc, now: nat, log: seq<Fetch>): World {
    World(now, map[], map[0 := Lookup(q, pc, 0, 0, 0)], log, map[])
  }

  predicate Leads(w: World, step: Step, v: World) { Enabled(w, step) && Apply(w, step) == v }

  lemma {:induction false} FetchingAlone(q: Query, value: string)
    requires Clamped(q)
    ensures Leads(World(0, map[], map[], [], map[]), Begin(0, q), Alone(q, Reading, 0, []))
    ensures Leads(Alone(q, Reading, 0, []), ReadCache(0, true), Alone(q, Asking(None), 0, []))
    ensures Leads(Alone(q, Asking(None), 0, []), Allow(0, None), Alone(q, Fetching(None), 0, []))
    ensures Leads(Alone(q, Fetching(None), 0, []), FetchChain(0, Value(value)),
                  Alone(q, Writing(Some(value)), 0, [Fetch(Effective(q), 0, Value(value))]))
  {}

  lemma {:induction false} WritingAlone(q: Query, value: string, d: nat)
    requires Clamped(q)
    ensures var log := [Fetch(Effective(q), 0, Value(value))];
            && Leads(Alone(q, Writing(Some(value)), 0, log), Tick(d), Alone(q, Writing(Some(value)), d, log))
            && Leads(Alone(q, Writing(Some(value)), d, log), WriteCache(0, true), StoredLate(q, value, d, d))
  {}

  lemma {:induction false} StoringLate(q: Query, value: string, d: nat) returns (r: Run)
    requires Clamped(q)
    ensures IsRun(r) && |r.states| == 7 && r.states[6] == StoredLate(q, value, d, d)
  {
    var log := [Fetch(Effective(q), 0, Value(value))];
    var states := [World(0, map[], map[], [], map[]), Alone(q, Reading, 0, []), Alone(q, Asking(None), 0, []), Alone(q, Fetching(None), 0, []),
                   Alone(q, Writing(Some(value)), 0, log), Alone(q, Writing(Some(value)), d, log), StoredLate(q, value, d, d)];
    r := Run(states, [Begin(0, q), ReadCache(0, true), Allow(0, None), FetchChain(0, Value(value)), Tick(d), WriteCache(0, true)]);
    FetchingAlone(q, value);
    WritingAlone(q, value, d);
    forall i | 0 <= i < 6 ensures Follows(r, i) {
      assert Leads(r.states[i], r.steps[i], r.states[i + 1]);
    }
  }

  lemma {:induction false} ReadingLate(q: Query, value: string, d: nat) returns (w: World)
    requires Clamped(q)
    ensures var a := StoredLate(q, value, d, d + CACHE_FRESH_TTL_MS);
            && Enabled(StoredLate(q, value, d, d), Tick(a.now)) && a == Apply(StoredLate(q, value, d, d), Tick(a.now))
            && Enabled(a, Begin(1, q)) && Enabled(Apply(a, Begin(1, q)), ReadCache(1, true))
            && w == Apply(Apply(a, Begin(1, q)), ReadCache(1, true)) && w.log == a.log && 1 in w.lookups
            && w.lookups[1] == Lookup(q, Settled(AnsweredFromCache(value)), d + CACHE_FRESH_TTL_MS, d, 0)
  {
    var a := StoredLate(q, value, d, d + CACHE_FRESH_TTL_MS);
    w := Apply(Apply(a, Begin(1, q)), ReadCache(1, true));
  }

  /** The bound is met: for every query, value and delay there is a run that answers from the cache
      with a value fetched five minutes and that delay before. */
  lemma {:induction false} CachedAnswerCanBeThatOld(q: Query, value: string, d: nat) returns (r: Run)
    requires Clamped(q)
    ensures IsRun(r) && |r.states| > 0
    ensures var w := r.states[|r.states| - 1];
            && 1 in w.lookups && w.lookups[1].pc == Settled(AnsweredFromCache(value)) && |w.log| == 1
            && w.lookups[1].storedAt - w.lookups[1].fetchedFrom == d
            && w.lookups[1].readAt - w.log[0].at == 300_000 + d
  {
    var late := StoringLate(q, value, d);
    var w := ReadingLate(q, value, d);
    var a := StoredLate(q, value, d, d + CACHE_FRESH_TTL_MS);
    var more := [Tick(a.now), Begin(1, q), ReadCache(1, true)];
    r := Run(late.states + [a, Apply(a, Begin(1, q)), w], late.steps + more);
    forall i | 0 <= i < |r.steps| ensures Follows(r, i) {
      if i < 6 { assert Follows(late, i); }
    }
  }

  /** Negative markers exist for ids only. */
  lemma {:induction false} NegativeMarkersAreForIds(r: Run, i: nat, q: Query)
    requires IsRun(r) && i < |r.states| && KeyText(q) in r.states[i].cache
    requires r.states[i].cache[KeyText(q)].value.None?
    ensures ById(q)
  {
    ReachableOk(r, i);
    KeyTextIsInjective(r.states[i].writtenFor[KeyText(q)].query, q);
  }

  // ── Visibility before the chain ──────────────────────────────────────────

  predicate Hides(outcome: Outcome) { outcome.EmptyProfile? || outcome.NotFound? }

  /** A key or group query is answered "nothing there" only by a step that asked the task table and
      found no placeholder of a task that is still alive. */
  lemma {:induction false} HiddenOnlyWithoutPlaceholder(r: Run, i: nat, slot: nat)
    requires IsRun(r) && i < |r.steps|
    requires slot in r.states[i].lookups && !r.states[i].lookups[slot].pc.Settled? && ByKey(r.states[i].lookups[slot].query)
    requires slot in r.states[i + 1].lookups && r.states[i + 1].lookups[slot].pc.Settled?
    requires Hides(r.states[i + 1].lookups[slot].pc.outcome)
    ensures r.steps[i].FindTask? && r.steps[i].slot == slot && r.steps[i].up
    ensures var found := FoundBy(r.steps[i].tables, r.states[i].lookups[slot].query, r.states[i].now);
            found.None? || found.value.status.Failed?
  {
    ReachableOk(r, i);
    assert Follows(r, i);
    HidingStep(r.states[i], r.steps[i], slot);
  }

  lemma {:induction false} HidingStep(w: World, step: Step, slot: nat)
    requires Inv(w) && Enabled(w, step)
    requires slot in w.lookups && !w.lookups[slot].pc.Settled? && ByKey(w.lookups[slot].query)
    requires slot in Apply(w, step).lookups && Apply(w, step).lookups[slot].pc.Settled?
    requires Hides(Apply(w, step).lookups[slot].pc.outcome)
    ensures step.FindTask? && step.slot == slot && step.up
    ensures var found := FoundBy(step.tables, w.lookups[slot].query, w.now); found.None? || found.value.status.Failed?
  {
    assert LookupOk(w, w.lookups[slot]);
    match step
    case FindTask(_, _, _) =>
    case ReadCache(_, _) =>
    case WriteCache(_, _) =>
    case FetchChain(_, _) =>
    case _ =>
  }

  /** The queue marker comes from the task table only. */
  lemma {:induction false} PendingComesFromTheTable(w: World, step: Step, slot: nat)
    requires Inv(w) && Enabled(w, step) && slot in w.lookups && !w.lookups[slot].pc.Settled?
    requires slot in Apply(w, step).lookups && Apply(w, step).lookups[slot].pc.Settled?
    requires Apply(w, step).lookups[slot].pc.outcome.QueuePending?
    ensures step.FindTask? && step.slot == slot && step.up
  {
    assert LookupOk(w, w.lookups[slot]);
  }

  /** While a task that has not ended owns the placeholder of a key, the table finds it, so the
      answer is the queue marker. */
  lemma {:induction false} PlaceholderIsVisible(tables: St.Store, now: nat, chain: Chain, born: set<string>, q: Query, id: string)
    requires St.StoreOk(tables, now, chain, born) && ByKey(q)
    requires St.Owns(tables, Bytes(q.key), id) && St.Active(tables, id)
    ensures FoundBy(tables, q, now).Some? && FoundBy(tables, q, now).value.id == id
    ensures AfterFind(q, Some(FoundBy(tables, q, now))) == Settled(QueuePending(id))
  {
    assert St.Points(tables, tables.keys[Bytes(q.key)]);
    assert St.RowShape(id, tables.tasks[id]);
  }
}
