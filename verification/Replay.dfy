/**
 * The replay tool: archived writes are sent again to another deployment of the registry
 * (p256-replay/src/main.rs:442-595). The registry is modelled from its own source
 * (contracts/src/WebAuthnP256PublicKeyRegistry.sol:458-660): groups, global entries and
 * references, with the checks in the contract's order. Nobody else writes to the target.
 */
module Replay {
  import opened Basics

  type Key = string

  // ── The registry ─────────────────────────────────────────────────────────

  const MAX_AUTHENTICATOR_ATTACHMENT_LENGTH: nat := 32
  const MAX_TRANSPORTS_LENGTH: nat := 255

  /** Display hints: not signed, not matched, kept from the first write. */
  datatype Hints = Hints(attachment: string, transports: string)

  datatype Member = Member(key: Key, attestation: string, credential: string, hints: Hints)

  /** Calldata. `formed` are the checks made before the duplicate check, `proven` the checks of
      points, attestation and credential id and of signatures made after it; both depend on the
      calldata alone, except that a reference is signed for the rpId of its group. */
  datatype Payload =
    | Register(rpId: string, metadata: string, group: Key, members: seq<Member>, formed: bool, proven: bool)
    | Refer(group: Key, metadata: string, member: Member, signedFor: string, formed: bool, proven: bool)

  datatype Entry = Entry(attestation: string, credential: string, hints: Hints)

  datatype Registry = Registry(units: map<Key, Payload>, entries: map<Key, Entry>, references: map<(Key, Key), string>)

  datatype Reply = Ok | Duplicate | GroupNotFound | OtherRevert

  /** The lengths of hints are looked at only when they are about to be stored. */
  predicate Fits(h: Hints) {
    |h.attachment| <= MAX_AUTHENTICATOR_ATTACHMENT_LENGTH && |h.transports| <= MAX_TRANSPORTS_LENGTH
  }

  /** A filed key must come with its attestation and credential id, a new one with hints that fit. */
  predicate Accepts(entries: map<Key, Entry>, m: Member) {
    if m.key in entries then entries[m.key].attestation == m.attestation && entries[m.key].credential == m.credential
    else Fits(m.hints)
  }

  /** Created on first sight; the display hints of the first write win. */
  function Resolve(entries: map<Key, Entry>, m: Member): map<Key, Entry> {
    if m.key in entries then entries else entries[m.key := Entry(m.attestation, m.credential, m.hints)]
  }

  predicate AllAccepted(entries: map<Key, Entry>, members: seq<Member>)
    decreases |members|
  {
    members == [] || (Accepts(entries, members[0]) && AllAccepted(Resolve(entries, members[0]), members[1..]))
  }

  /** Member keys are pairwise distinct and none is the group key. */
  predicate DistinctMembers(group: Key, members: seq<Member>) {
    && (forall i | 0 <= i < |members| :: members[i].key != group)
    && (forall i, j | 0 <= i < j < |members| :: members[i].key != members[j].key)
  }

  function ResolveAll(entries: map<Key, Entry>, members: seq<Member>): map<Key, Entry>
    decreases |members|
  {
    if members == [] then entries else ResolveAll(Resolve(entries, members[0]), members[1..])
  }

  function Call(t: Registry, p: Payload): Reply {
    if !p.formed then OtherRevert
    else match p
      case Register(_, _, group, members, _, proven) =>
        if group in t.units then Duplicate
        else if proven && DistinctMembers(group, members) && AllAccepted(t.entries, members) then Ok else OtherRevert
      case Refer(group, _, member, signedFor, _, proven) =>
        if group !in t.units then GroupNotFound
        else if member.key == group || !Accepts(t.entries, member) then OtherRevert
        else if (group, member.key) in t.references then Duplicate
        else if proven && t.units[group].Register? && signedFor == t.units[group].rpId then Ok else OtherRevert
  }

  function Write(t: Registry, p: Payload): Registry {
    match p
    case Register(_, _, group, members, _, _) => t.(units := t.units[group := p], entries := ResolveAll(t.entries, members))
    case Refer(group, metadata, member, _, _, _) =>
      t.(entries := Resolve(t.entries, member), references := t.references[(group, member.key) := metadata])
  }

  function Sent(t: Registry, p: Payload): Registry { if Call(t, p).Ok? then Write(t, p) else t }

  // ── The loop as a function ───────────────────────────────────────────────

  datatype Row = Row(txHash: string, payload: Payload)

  datatype Tally = Tally(target: Registry, sent: nat, present: nat, failed: seq<string>, retry: seq<Row>)

  function Visit(y: Tally, row: Row): Tally {
    match Call(y.target, row.payload)
    case Ok => y.(target := Write(y.target, row.payload), sent := y.sent + 1)
    case Duplicate => y.(present := y.present + 1)
    case GroupNotFound => y.(retry := y.retry + [row])
    case OtherRevert => y.(failed := y.failed + [row.txHash])
  }

  /** One round over the queue. */
  function Round(y: Tally, queue: seq<Row>): Tally {
    if queue == [] then y else Visit(Round(y, queue[..|queue| - 1]), queue[|queue| - 1])
  }

  lemma {:induction false} RoundNext(y: Tally, queue: seq<Row>, i: nat)
    requires i < |queue|
    ensures Round(y, queue[..i + 1]) == Visit(Round(y, queue[..i]), queue[i])
  {
    assert queue[..i + 1][..i] == queue[..i];
  }

  lemma {:induction false} RoundSplits(y: Tally, a: seq<Row>, b: seq<Row>)
    ensures Round(y, a + b) == Round(Round(y, a), b)
  {
    if b == [] {
      assert a + b == a;
    } else {
      RoundSplits(y, a, b[..|b| - 1]);
      assert (a + b)[..|a + b| - 1] == a + b[..|b| - 1];
    }
  }

  function Start(t: Registry): Tally { Tally(t, 0, 0, [], []) }

  function OfKind(rows: seq<Row>, register: bool): seq<Row> {
    if rows == [] then []
    else
      var last := rows[|rows| - 1];
      OfKind(rows[..|rows| - 1], register) + (if last.payload.Register? == register then [last] else [])
  }

  // ── Nothing is lost, and two rounds are enough ───────────────────────────

  /** Every row of a round is counted once. */
  lemma {:induction false} RoundCounts(y: Tally, queue: seq<Row>)
    ensures var z := Round(y, queue);
            z.sent + z.present + |z.failed| + |z.retry| == y.sent + y.present + |y.failed| + |y.retry| + |queue|
  {
    if queue != [] { RoundCounts(y, queue[..|queue| - 1]); }
  }

  predicate Refers(queue: seq<Row>) {
    forall i | 0 <= i < |queue| :: queue[i].payload.Refer?
  }

  /** Only registers create groups, so a round of refers retries exactly the rows without one. */
  lemma {:induction false} RefersLeaveGroups(y: Tally, queue: seq<Row>)
    requires Refers(queue)
    ensures Round(y, queue).target.units == y.target.units
    ensures forall row | row in Round(y, queue).retry :: row in y.retry || (row in queue && Homeless(row, y.target.units))
  {
    if queue != [] { RefersLeaveGroups(y, queue[..|queue| - 1]); }
  }

  predicate Homeless(row: Row, units: map<Key, Payload>) {
    row.payload.Refer? && row.payload.formed && row.payload.group !in units
  }

  lemma {:induction false} RegistersDoNotRetry(y: Tally, queue: seq<Row>)
    requires forall i | 0 <= i < |queue| :: queue[i].payload.Register?
    ensures Round(y, queue).retry == y.retry
  {
    if queue != [] { RegistersDoNotRetry(y, queue[..|queue| - 1]); }
  }

  /** A round over rows without a group does nothing but retry them all. */
  lemma {:induction false} HomelessRound(y: Tally, queue: seq<Row>)
    requires forall i | 0 <= i < |queue| :: Homeless(queue[i], y.target.units)
    ensures Round(y, queue) == y.(retry := y.retry + queue)
  {
    if queue != [] {
      HomelessRound(y, queue[..|queue| - 1]);
      assert queue == queue[..|queue| - 1] + [queue[|queue| - 1]];
    }
  }

  /** After the first round, registers first, nothing can be done for what is left. */
  lemma {:induction false} FirstRoundDecides(t: Registry, registers: seq<Row>, refers: seq<Row>)
    requires Refers(refers) && forall i | 0 <= i < |registers| :: registers[i].payload.Register?
    ensures var z := Round(Start(t), registers + refers);
            forall i | 0 <= i < |z.retry| :: z.retry[i] in refers && Homeless(z.retry[i], z.target.units)
  {
    var m := Round(Start(t), registers);
    RoundSplits(Start(t), registers, refers);
    RegistersDoNotRetry(Start(t), registers);
    RefersLeaveGroups(m, refers);
    var z := Round(m, refers);
    forall i | 0 <= i < |z.retry| ensures z.retry[i] in refers && Homeless(z.retry[i], z.target.units) {
      assert z.retry[i] in z.retry;
    }
  }

  // ── A second replay has nothing to do ────────────────────────────────────

  /** A referring key has a file. */
  predicate Filed(t: Registry) {
    forall link | link in t.references :: link.1 in t.entries
  }

  lemma {:induction false} ResolveAllKeeps(entries: map<Key, Entry>, members: seq<Member>, k: Key)
    requires k in entries
    ensures k in ResolveAll(entries, members) && ResolveAll(entries, members)[k] == entries[k]
    decreases |members|
  {
    if members != [] { ResolveAllKeeps(Resolve(entries, members[0]), members[1..], k); }
  }

  /** Files are written once, groups and references are never removed. */
  lemma {:induction false} WriteKeeps(t: Registry, p: Payload)
    requires Filed(t)
    ensures Filed(Sent(t, p))
    ensures forall k | k in t.entries :: k in Sent(t, p).entries && Sent(t, p).entries[k] == t.entries[k]
    ensures t.units.Keys <= Sent(t, p).units.Keys && t.references.Keys <= Sent(t, p).references.Keys
  {
    if p.Register? {
      forall k | k in t.entries ensures k in Sent(t, p).entries && Sent(t, p).entries[k] == t.entries[k] {
        ResolveAllKeeps(t.entries, p.members, k);
      }
    }
  }

  /** What is there stays there, whatever is sent afterwards. */
  lemma {:induction false} PresentStays(t: Registry, p: Payload, q: Payload)
    requires Filed(t) && Call(t, p).Duplicate?
    ensures Call(Sent(t, q), p).Duplicate?
  {
    WriteKeeps(t, q);
    if p.Refer? { assert p.member.key in t.entries; }
  }

  /** What was just written is there. */
  lemma {:induction false} WrittenIsPresent(t: Registry, p: Payload)
    requires Filed(t) && Call(t, p).Ok?
    ensures Call(Write(t, p), p).Duplicate?
  {}

  /** A row that did not fail and is not waiting for its group is present after the round. */
  lemma {:induction false} HandledIsPresent(y: Tally, queue: seq<Row>, k: nat)
    requires Filed(y.target) && k < |queue|
    requires Round(y, queue).failed == [] && Round(y, queue).retry == []
    ensures Filed(Round(y, queue).target) && Call(Round(y, queue).target, queue[k].payload).Duplicate?
  {
    var front, last := queue[..|queue| - 1], queue[|queue| - 1];
    RoundFiled(y, front);
    var m := Round(y, front);
    assert m.failed == [] && m.retry == [];
    WriteKeeps(m.target, last.payload);
    if k < |front| {
      HandledIsPresent(y, front, k);
      PresentStays(m.target, queue[k].payload, last.payload);
    } else if Call(m.target, last.payload).Ok? {
      WrittenIsPresent(m.target, last.payload);
    }
  }

  lemma {:induction false} RoundFiled(y: Tally, queue: seq<Row>)
    requires Filed(y.target)
    ensures Filed(Round(y, queue).target)
  {
    if queue != [] {
      RoundFiled(y, queue[..|queue| - 1]);
      WriteKeeps(Round(y, queue[..|queue| - 1]).target, queue[|queue| - 1].payload);
    }
  }

  predicate AllPresent(t: Registry, queue: seq<Row>) {
    forall k | 0 <= k < |queue| :: Call(t, queue[k].payload).Duplicate?
  }

  lemma {:induction false} IdleRound(y: Tally, queue: seq<Row>)
    requires AllPresent(y.target, queue)
    ensures Round(y, queue) == y.(present := y.present + |queue|)
  {
    if queue != [] { IdleRound(y, queue[..|queue| - 1]); }
  }

  /** After a replay without failures, whatever the archive and the order, every row is present
      and replaying the rows again, in any order, writes nothing. */
  lemma {:induction false} SecondReplayIsIdle(t: Registry, queue: seq<Row>, again: seq<Row>)
    requires Filed(t) && Round(Start(t), queue).failed == [] && Round(Start(t), queue).retry == []
    requires forall row | row in again :: row in queue
    ensures var done := Round(Start(t), queue).target;
            AllPresent(done, again) && Round(Start(done), again) == Tally(done, 0, |again|, [], [])
  {
    var done := Round(Start(t), queue).target;
    forall k | 0 <= k < |again| ensures Call(done, again[k].payload).Duplicate? {
      assert again[k] in queue;
      var j :| 0 <= j < |queue| && queue[j] == again[k];
      HandledIsPresent(Start(t), queue, j);
    }
    IdleRound(Start(done), again);
  }

  // ── What a round counts ──────────────────────────────────────────────────

  /** The registry when it is the turn of row k. */
  function AtTurn(y: Tally, queue: seq<Row>, k: nat): Registry
    requires k <= |queue|
  {
    Round(y, queue[..k]).target
  }

  /** How many of the first n rows get this reply. */
  function Replies(y: Tally, queue: seq<Row>, n: nat, reply: Reply): nat
    requires n <= |queue|
  {
    if n == 0 then 0 else Replies(y, queue, n - 1, reply) + if Call(AtTurn(y, queue, n - 1), queue[n - 1].payload) == reply then 1 else 0
  }

  lemma {:induction false} VisitSorts(y: Tally, row: Row)
    ensures var z, reply := Visit(y, row), Call(y.target, row.payload);
            && z.sent == y.sent + (if reply.Ok? then 1 else 0) && z.present == y.present + (if reply.Duplicate? then 1 else 0)
            && z.retry == y.retry + (if reply.GroupNotFound? then [row] else [])
            && z.failed == y.failed + (if reply.OtherRevert? then [row.txHash] else [])
            && z.target == Sent(y.target, row.payload)
  {}

  /** The rows of a round are counted by the reply each gets at its turn, and what goes through is
      written then. */
  lemma {:induction false} RoundCountsReplies(y: Tally, queue: seq<Row>, n: nat)
    requires n <= |queue|
    ensures var z := Round(y, queue[..n]);
            && z.sent == y.sent + Replies(y, queue, n, Ok) && z.present == y.present + Replies(y, queue, n, Duplicate)
            && |z.retry| == |y.retry| + Replies(y, queue, n, GroupNotFound) && |z.failed| == |y.failed| + Replies(y, queue, n, OtherRevert)
    ensures n > 0 ==> AtTurn(y, queue, n) == Sent(AtTurn(y, queue, n - 1), queue[n - 1].payload)
  {
    if n > 0 {
      RoundCountsReplies(y, queue, n - 1);
      RoundNext(y, queue, n - 1);
      VisitSorts(Round(y, queue[..n - 1]), queue[n - 1]);
    }
  }

  /** A refer without its group is kept for later, and the hash of what is refused is reported. */
  lemma {:induction false} RoundReports(y: Tally, queue: seq<Row>, n: nat, k: nat)
    requires k < n <= |queue|
    ensures Call(AtTurn(y, queue, k), queue[k].payload).GroupNotFound? ==> queue[k] in Round(y, queue[..n]).retry
    ensures Call(AtTurn(y, queue, k), queue[k].payload).OtherRevert? ==> queue[k].txHash in Round(y, queue[..n]).failed
  {
    RoundNext(y, queue, n - 1);
    VisitSorts(Round(y, queue[..n - 1]), queue[n - 1]);
    if k < n - 1 { RoundReports(y, queue, n - 1, k); }
  }
}
