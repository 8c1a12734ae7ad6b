/**
 * The broadcast ledger, the node's pool of pending transactions, the worker that sends and the
 * sweep that replaces stuck transactions, as one transition system
 * (p256-index-cf/src/submitter.rs:955-1016, 1034-1158;
 * p256-index-server/src/worker.rs:440-520, maintenance.rs:107-278).
 *
 * Every read, send and ledger write is a step of its own, and worker, chain and sweep take their
 * steps in any order. A node may take a transaction whose answer is lost, may refuse any
 * transaction with any error and may evict what is pending; a ledger write may fail; either
 * party may stop between any two steps.
 */
module Wallet {
  import opened Basics
  import E = ChainErrors
  import G = Gas
  import R = Rescue

  const REGISTER := "register"
  const TIP: G.Wei := 1_000

  type Nonce = nat

  datatype Sweeper =
    | Resting
    | Listed(listing: seq<R.LedgerRow>, now: nat)
    | Acting(listing: seq<R.LedgerRow>, now: nat, read: Nonce, base: G.Wei, at: nat, note: Option<R.LedgerRow>)

  datatype World = World(
    cap: G.Wei,
    ledger: map<Nonce, R.LedgerRow>,
    pool: map<Nonce, G.FeePlan>,        // the node's pending transaction of each nonce
    confirmed: Nonce,                   // every smaller nonce is mined
    note: Option<R.LedgerRow>,          // the row the worker has yet to write
    sweeper: Sweeper)                   // `note`: the row the sweep has yet to write

  datatype Reply = Accepted(hash: string) | Refused(error: E.ChainError)

  datatype Step =
    | Mined(upTo: Nonce)
    | Evicted(nonce: Nonce)
    | Receipt(nonce: Nonce)
    | Send(nonce: Nonce, base: G.Wei, taken: bool, hash: Option<string>)
    | Note(at: nat, done: bool)
    | List(listing: seq<R.LedgerRow>, now: nat)
    | Plan(read: Nonce, base: G.Wei)
    | Act(taken: bool, answer: Reply)
    | SweepNotes(done: bool)
    | SweepStops

  // ── Prices ───────────────────────────────────────────────────────────────

  function Pair(plan: G.FeePlan): R.Fees { R.Fees(plan.maxFee, plan.priority) }

  predicate Dominates(fees: R.Fees, plan: G.FeePlan) {
    fees.maxFee >= plan.maxFee && fees.priority >= plan.priority
  }

  /** A recorded price is a pair of 128-bit numbers, or missing. */
  predicate Fits(fees: Option<R.Fees>) {
    fees.Some? ==> fees.value.maxFee < G.U128 && fees.value.priority < G.U128
  }

  function Previous(fees: Option<R.Fees>): Option<G.FeePlan>
    requires Fits(fees)
  {
    match fees
    case None => None
    case Some(f) => Some(G.FeePlan(f.maxFee, f.priority))
  }

  /** What the sweep offers for a row. */
  function Offer(action: R.Action, base: G.Wei, cap: G.Wei): G.FeeVerdict
    requires action.Replace? && Fits(action.previous)
  {
    G.PlanReplacement(Previous(action.previous), base, TIP, cap, if action.attemptsAfter == 0 then 0 else action.attemptsAfter - 1)
  }

  // ── Steps ────────────────────────────────────────────────────────────────

  /** A node takes a transaction on an open nonce, over a pending one only if it replaces it. */
  predicate CanTake(w: World, n: Nonce, plan: G.FeePlan) {
    n >= w.confirmed && (n in w.pool ==> G.Replaces(plan, w.pool[n]))
  }

  function Before(now: nat): nat { if now >= R.STUCK_TX_AGE_MS then now - R.STUCK_TX_AGE_MS else 0 }

  /** list_pending_txs: the rows first sent before `before`, in any order. */
  ghost predicate Lists(listing: seq<R.LedgerRow>, ledger: map<Nonce, R.LedgerRow>, before: nat) {
    && R.Keyed(listing)
    && forall row :: row in listing <==> row.nonce in ledger && ledger[row.nonce] == row && row.sentAt < before
  }

  function Actions(s: Sweeper): seq<R.Action>
    requires s.Acting?
  {
    R.Plan(REGISTER, s.read, s.listing, s.now)
  }

  /** The sweep stands at an action of its plan. */
  predicate AtAction(w: World) {
    w.sweeper.Acting? && w.sweeper.note.None? && w.sweeper.at < |Actions(w.sweeper)|
  }

  function Current(w: World): R.Action
    requires AtAction(w)
  {
    Actions(w.sweeper)[w.sweeper.at]
  }

  /** The sweep stands at a replacement that it will offer. */
  predicate Bids(w: World) {
    && AtAction(w) && Current(w).Replace? && Fits(Current(w).previous)
    && Offer(Current(w), w.sweeper.base, w.cap).Send?
  }

  function Bid(w: World): G.FeePlan
    requires Bids(w)
  {
    Offer(Current(w), w.sweeper.base, w.cap).plan
  }

  function Find(listing: seq<R.LedgerRow>, n: Nonce, now: nat): R.LedgerRow {
    if listing == [] then R.LedgerRow(REGISTER, n, "", now, 0, None)
    else if listing[0].role == REGISTER && listing[0].nonce == n then listing[0]
    else Find(listing[1..], n, now)
  }

  /** The row a bid calls for: on an accepted bid and on a refusal that reads as underpriced only,
      and with a new hash and time only on an accepted one. */
  function Owed(w: World, answer: Reply): Option<R.LedgerRow>
    requires Bids(w)
  {
    var action, s := Current(w), w.sweeper;
    match answer
    case Accepted(hash) => Some(R.LedgerRow(REGISTER, action.nonce, hash, s.now, action.attemptsAfter, Some(Pair(Bid(w)))))
    case Refused(error) =>
      if !E.IsReplacementUnderpriced(error) then None
      else
        var listed := Find(s.listing, action.nonce, s.now);
        Some(R.LedgerRow(REGISTER, action.nonce, listed.hash, listed.sentAt, action.attemptsAfter, Some(Pair(Bid(w)))))
  }

  /** Steps of the worker and the chain that can happen now. */
  predicate Free(w: World, step: Step) {
    match step
    case Mined(upTo) => w.confirmed <= upTo
    case Evicted(_) => true
    case Receipt(nonce) => nonce < w.confirmed
    case Send(nonce, base, taken, hash) =>
      && w.note.None? && G.PlanFees(base, TIP, w.cap).Send?
      && (hash.Some? ==> taken) && (taken ==> CanTake(w, nonce, G.PlanFees(base, TIP, w.cap).plan))
    case Note(_, _) => w.note.Some?
    case _ => false
  }

  ghost predicate Enabled(w: World, step: Step) {
    match step
    case List(listing, now) => w.sweeper.Resting? && Lists(listing, w.ledger, Before(now))
    case Plan(read, _) => w.sweeper.Listed? && read <= w.confirmed
    case Act(taken, answer) =>
      && AtAction(w) && (Current(w).Replace? ==> Fits(Current(w).previous))
      && (Bids(w) ==> (answer.Accepted? ==> taken) && (taken ==> CanTake(w, Current(w).nonce, Bid(w))))
    case SweepNotes(_) => w.sweeper.Acting? && w.sweeper.note.Some?
    case SweepStops => !w.sweeper.Resting?
    case _ => Free(w, step)
  }

  function Write(ledger: map<Nonce, R.LedgerRow>, row: R.LedgerRow, done: bool): map<Nonce, R.LedgerRow> {
    if done then ledger[row.nonce := row] else ledger
  }

  function AfterAct(w: World, taken: bool, answer: Reply): World
    requires AtAction(w)
  {
    var n, next := Current(w).nonce, w.sweeper.(at := w.sweeper.at + 1);
    if Bids(w) then
      var note := Owed(w, answer);
      w.(pool := if taken then w.pool[n := Bid(w)] else w.pool,
         sweeper := if note.Some? then w.sweeper.(note := note) else next)
    else
      w.(ledger := if Current(w).DropConsumedRow? && taken then w.ledger - {n} else w.ledger, sweeper := next)
  }

  function Apply(w: World, step: Step): World
    requires Enabled(w, step)
  {
    match step
    case Mined(upTo) => w.(confirmed := upTo, pool := map n | n in w.pool && n >= upTo :: w.pool[n])
    case Evicted(nonce) => w.(pool := w.pool - {nonce})
    case Receipt(nonce) => w.(ledger := w.ledger - {nonce})
    case Send(nonce, base, taken, hash) =>
      var plan := G.PlanFees(base, TIP, w.cap).plan;
      w.(pool := if taken then w.pool[nonce := plan] else w.pool,
         note := if hash.Some? then Some(R.LedgerRow(REGISTER, nonce, hash.value, 0, 0, Some(Pair(plan)))) else None)
    case Note(at, done) => w.(ledger := Write(w.ledger, w.note.value.(sentAt := at), done), note := None)
    case List(listing, now) => w.(sweeper := Listed(listing, now))
    case Plan(read, base) => w.(sweeper := Acting(w.sweeper.listing, w.sweeper.now, read, base, 0, None))
    case Act(taken, answer) => AfterAct(w, taken, answer)
    case SweepNotes(done) =>
      w.(ledger := Write(w.ledger, w.sweeper.note.value, done), sweeper := w.sweeper.(at := w.sweeper.at + 1, note := None))
    case SweepStops => w.(sweeper := Resting)
  }

  // ── What holds whatever happens ──────────────────────────────────────────

  predicate RowOk(row: R.LedgerRow) { row.role == REGISTER && Fits(row.fees) }

  predicate SweeperOk(w: World) {
    match w.sweeper
    case Resting => true
    case Listed(listing, _) => R.Keyed(listing) && forall row | row in listing :: RowOk(row)
    case Acting(listing, _, read, _, _, note) =>
      && R.Keyed(listing) && (forall row | row in listing :: RowOk(row)) && read <= w.confirmed
      && (note.Some? ==> RowOk(note.value))
  }

  predicate Shape(w: World) {
    && 1 <= w.cap < G.U128
    && (forall n | n in w.ledger :: w.ledger[n].nonce == n && RowOk(w.ledger[n]))
    && (forall n | n in w.pool :: n >= w.confirmed)
    && (w.note.Some? ==> RowOk(w.note.value))
    && SweeperOk(w)
  }

  /** Each action of the plan comes from a listed row. */
  lemma {:induction false} ActionHasARow(s: Sweeper, k: nat) returns (row: R.LedgerRow)
    requires s.Acting? && R.Keyed(s.listing) && k < |Actions(s)|
    ensures row in s.listing && R.CalledFor(Actions(s)[k], row, REGISTER, s.read, s.listing, s.now)
  {
    R.PlanIsExactlyWhatIsCalledFor(REGISTER, s.read, s.listing, s.now, Actions(s)[k]);
    row :| row in s.listing && R.CalledFor(Actions(s)[k], row, REGISTER, s.read, s.listing, s.now);
  }

  /** A planned replacement can be priced, a planned deletion is of a mined nonce. */
  lemma {:induction false} CurrentIsSound(w: World)
    requires SweeperOk(w) && AtAction(w)
    ensures Current(w).Replace? ==> Fits(Current(w).previous)
    ensures Current(w).DropConsumedRow? ==> Current(w).nonce < w.confirmed
  {
    var row := ActionHasARow(w.sweeper, w.sweeper.at);
  }

  lemma {:induction false} OfferIsUnderTheCap(action: R.Action, base: G.Wei, cap: G.Wei)
    requires 1 <= cap < G.U128 && action.Replace? && Fits(action.previous) && Offer(action, base, cap).Send?
    ensures var bid := Offer(action, base, cap).plan; bid.priority <= bid.maxFee <= cap && bid.priority >= G.Min(TIP, cap)
    ensures action.previous.Some? ==> G.Replaces(Offer(action, base, cap).plan, Previous(action.previous).value)
  {
    var attempts := if action.attemptsAfter == 0 then 0 else action.attemptsAfter - 1;
    var previous := Previous(action.previous);
    G.SentReplacementReplaces(if previous.Some? then previous.value else G.Assumed(base, TIP, attempts), base, TIP, cap, attempts);
  }

  lemma {:induction false} OwedIsOk(w: World, answer: Reply)
    requires Shape(w) && Bids(w) && Owed(w, answer).Some?
    ensures RowOk(Owed(w, answer).value) && Owed(w, answer).value.nonce == Current(w).nonce
    ensures Owed(w, answer).value.fees == Some(Pair(Bid(w)))
  {
    OfferIsUnderTheCap(Current(w), w.sweeper.base, w.cap);
  }

  lemma {:induction false} ActKeepsShape(w: World, taken: bool, answer: Reply)
    requires Shape(w) && Enabled(w, Act(taken, answer))
    ensures Shape(AfterAct(w, taken, answer))
  {
    CurrentIsSound(w);
    if Bids(w) && Owed(w, answer).Some? { OwedIsOk(w, answer); }
  }

  /** Rows, pool and sweep stay well formed through every step of everybody. */
  lemma {:induction false} StepKeepsShape(w: World, step: Step)
    requires Shape(w) && Enabled(w, step)
    ensures Shape(Apply(w, step))
  {
    match step
    case Act(taken, answer) => ActKeepsShape(w, taken, answer);
    case Send(_, base, _, _) => G.SentExactlyWhenItFits(base, TIP, w.cap);
    case _ =>
  }

  // ── Is what is pending on record? ────────────────────────────────────────

  function RowAt(w: World, n: Nonce): Option<R.LedgerRow> { if n in w.ledger then Some(w.ledger[n]) else None }

  function SweepNote(w: World): Option<R.LedgerRow> { if w.sweeper.Acting? then w.sweeper.note else None }

  /** The row is about this nonce and does not understate this price. */
  predicate Says(row: Option<R.LedgerRow>, n: Nonce, plan: G.FeePlan) {
    row.Some? && row.value.nonce == n && (row.value.fees.Some? ==> Dominates(row.value.fees.value, plan))
  }

  /** What is pending on a nonce has a row that does not understate its price, or somebody who knows
      is about to write one. */
  predicate OnRecord(w: World, n: Nonce) {
    n in w.pool ==> Says(RowAt(w, n), n, w.pool[n]) || Says(w.note, n, w.pool[n]) || Says(SweepNote(w), n, w.pool[n])
  }

  /** The step takes what is pending on `n` off the record: its answer or its row is lost, or a row
      with a smaller price is written over it, and nobody else knows better. */
  ghost predicate Spoils(w: World, step: Step, n: Nonce)
    requires Enabled(w, step)
  {
    match step
    case Send(nonce, base, taken, hash) =>
      var plan := G.PlanFees(base, TIP, w.cap).plan;
      nonce == n && taken && hash.None? && !Says(RowAt(w, n), n, plan) && !Says(SweepNote(w), n, plan)
    case Note(_, done) =>
      && w.note.value.nonce == n && n in w.pool
      && !Says(if done then w.note else RowAt(w, n), n, w.pool[n]) && !Says(SweepNote(w), n, w.pool[n])
    case Act(taken, answer) =>
      && Bids(w) && Current(w).nonce == n && taken && Owed(w, answer).None?
      && !Says(RowAt(w, n), n, Bid(w)) && !Says(w.note, n, Bid(w))
    case SweepNotes(done) =>
      && w.sweeper.note.value.nonce == n && n in w.pool
      && !Says(if done then w.sweeper.note else RowAt(w, n), n, w.pool[n]) && !Says(w.note, n, w.pool[n])
    case SweepStops =>
      && SweepNote(w).Some? && SweepNote(w).value.nonce == n && n in w.pool
      && !Says(RowAt(w, n), n, w.pool[n]) && !Says(w.note, n, w.pool[n])
    case _ => false
  }

  lemma {:induction false} ActSpoilsExactly(w: World, taken: bool, answer: Reply, n: Nonce)
    requires Shape(w) && Enabled(w, Act(taken, answer)) && OnRecord(w, n)
    ensures OnRecord(AfterAct(w, taken, answer), n) <==> !Spoils(w, Act(taken, answer), n)
  {
    CurrentIsSound(w);
    if Bids(w) && Owed(w, answer).Some? { OwedIsOk(w, answer); }
  }

  /** One step, anybody's: what is pending stays on record exactly unless the step spoils it. */
  lemma {:induction false} StepSpoilsExactly(w: World, step: Step, n: Nonce)
    requires Shape(w) && Enabled(w, step) && OnRecord(w, n)
    ensures OnRecord(Apply(w, step), n) <==> !Spoils(w, step, n)
  {
    match step
    case Act(taken, answer) => ActSpoilsExactly(w, taken, answer, n);
    case _ =>
  }

  // ── What a bid is worth ──────────────────────────────────────────────────

  /** What may be pending behind a row: at most its recorded price, or anything under the cap if it
      has none. */
  predicate MayBePending(previous: Option<R.Fees>, pending: G.FeePlan, cap: G.Wei) {
    pending.priority <= pending.maxFee <= cap && (previous.Some? ==> Dominates(previous.value, pending))
  }

  /** A bid clears the node's rule against whatever may be pending exactly when the row has a
      recorded price. */
  lemma {:induction false} AlwaysReplacesExactlyWhenPriced(action: R.Action, base: G.Wei, cap: G.Wei)
    requires 1 <= cap < G.U128 && action.Replace? && Fits(action.previous) && Offer(action, base, cap).Send?
    ensures (forall pending: G.FeePlan | MayBePending(action.previous, pending, cap) :: G.Replaces(Offer(action, base, cap).plan, pending))
            <==> action.previous.Some?
  {
    var bid := Offer(action, base, cap).plan;
    OfferIsUnderTheCap(action, base, cap);
    if action.previous.None? { assert MayBePending(None, bid, cap) && !G.Replaces(bid, bid); }
  }

  /** A bid for a row without a price, recorded after a refusal, does not understate whatever may be
      pending exactly when the tip such a row is assumed to pay, raised once more by half, reaches
      the cap, or the cap is no more than the default tip. */
  lemma {:induction false} BlindRecordDominatesExactly(base: G.Wei, cap: G.Wei, attempts: nat)
    requires 1 <= cap < G.U128 && G.PlanReplacement(None, base, TIP, cap, attempts).Send?
    ensures var bid := G.PlanReplacement(None, base, TIP, cap, attempts).plan;
            var steps := if attempts < 16 then attempts else 16;
            (forall pending: G.FeePlan | MayBePending(None, pending, cap) :: Dominates(Pair(bid), pending)) <==>
            G.Raised(G.SatAdd(base, 1), steps + 1) >= cap || cap <= TIP
  {
    var bid := G.PlanReplacement(None, base, TIP, cap, attempts).plan;
    G.SentReplacementReplaces(G.Assumed(base, TIP, attempts), base, TIP, cap, attempts);
    if bid.maxFee < cap {
      assert MayBePending(None, G.FeePlan(bid.maxFee + 1, bid.priority), cap);
    } else if bid.priority < cap {
      assert MayBePending(None, G.FeePlan(cap, bid.priority + 1), cap);
    }
  }

  // ── What is written down ─────────────────────────────────────────────────

  /** A sweep lists exactly the rows that were sent more than two minutes ago. */
  lemma {:induction false} ListsOlderThanTwoMinutes(listing: seq<R.LedgerRow>, ledger: map<Nonce, R.LedgerRow>, now: nat, row: R.LedgerRow)
    requires Lists(listing, ledger, Before(now))
    ensures row in listing <==> row.nonce in ledger && ledger[row.nonce] == row && row.sentAt + 120_000 < now
  {}

  lemma {:induction false} FindsTheRow(listing: seq<R.LedgerRow>, row: R.LedgerRow, now: nat)
    requires R.Keyed(listing) && row in listing && row.role == REGISTER
    ensures Find(listing, row.nonce, now) == row
  {
    if listing[0] != row {
      var i :| 0 <= i < |listing| && listing[i] == row;
      assert listing[1..][i - 1] == row;
      assert R.Keyed(listing[1..]) by {
        assert forall a, b | 0 <= a < b < |listing[1..]| :: listing[1..][a] == listing[a + 1] && listing[1..][b] == listing[b + 1];
      }
      FindsTheRow(listing[1..], row, now);
    }
  }

  /** What an action does, from the listed row it comes from. A consumed row is deleted, if the deletion
      takes effect. A replacement that is too expensive changes nothing. A bid goes to the node, and
      then: an accepted one calls for a row with its hash, its time, one attempt more and its price;
      one refused as underpriced for the same with the hash and time of the listed row; any other
      refusal for none. */
  lemma {:induction false} ActMeans(w: World, taken: bool, answer: Reply) returns (row: R.LedgerRow)
    requires Shape(w) && Enabled(w, Act(taken, answer))
    ensures row in w.sweeper.listing && row.nonce == Current(w).nonce && row.role == REGISTER
    ensures var v, n, s := AfterAct(w, taken, answer), row.nonce, w.sweeper;
            var attempts := (row.attempts + 1) % 0x1_0000_0000;
            && v.cap == w.cap && v.confirmed == w.confirmed && v.note == w.note
            && (!Bids(w) ==>
                  && v.pool == w.pool && v.sweeper == s.(at := s.at + 1)
                  && v.ledger == (if Current(w).DropConsumedRow? && taken then w.ledger - {n} else w.ledger))
            && (Bids(w) ==>
                  && v.ledger == w.ledger && v.pool == (if taken then w.pool[n := Bid(w)] else w.pool)
                  && (answer.Accepted? ==>
                        v.sweeper == s.(note := Some(R.LedgerRow(REGISTER, n, answer.hash, s.now, attempts, Some(Pair(Bid(w)))))))
                  && (answer.Refused? && E.IsReplacementUnderpriced(answer.error) ==>
                        v.sweeper == s.(note := Some(R.LedgerRow(REGISTER, n, row.hash, row.sentAt, attempts, Some(Pair(Bid(w)))))))
                  && (answer.Refused? && !E.IsReplacementUnderpriced(answer.error) ==> v.sweeper == s.(at := s.at + 1)))
  {
    row := ActionHasARow(w.sweeper, w.sweeper.at);
    FindsTheRow(w.sweeper.listing, row, w.sweeper.now);
  }

  /** A bid is priced from the listed row: its price, or if it has none the number of attempts made. */
  lemma {:induction false} BidMeans(w: World) returns (row: R.LedgerRow)
    requires Shape(w) && Bids(w)
    ensures row in w.sweeper.listing && row.nonce == Current(w).nonce && RowOk(row)
    ensures row.attempts + 1 < 0x1_0000_0000 ==>
              G.PlanReplacement(Previous(row.fees), w.sweeper.base, 1_000, w.cap, row.attempts) == G.Send(Bid(w))
  {
    row := ActionHasARow(w.sweeper, w.sweeper.at);
    if row.attempts + 1 < 0x1_0000_0000 {
      OneAttemptMore(row.attempts);
      OfferMeans(Current(w), row.attempts, w.sweeper.base, w.cap);
    }
  }

  lemma {:induction false} OneAttemptMore(attempts: nat)
    requires attempts + 1 < 0x1_0000_0000
    ensures (attempts + 1) % 0x1_0000_0000 == attempts + 1
  {}

  lemma {:induction false} OfferMeans(action: R.Action, attempts: nat, base: G.Wei, cap: G.Wei)
    requires action.Replace? && Fits(action.previous) && action.attemptsAfter == attempts + 1
    ensures Offer(action, base, cap) == G.PlanReplacement(Previous(action.previous), base, TIP, cap, attempts)
  {
    var retries := if action.attemptsAfter == 0 then 0 else action.attemptsAfter - 1;
    assert retries == attempts;
  }
}
