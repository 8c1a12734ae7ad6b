/**
 * When what is pending stays on record, over whole runs of worker, chain and sweeps: exactly while
 * no step spoils it, and what that takes (p256-index-cf/src/submitter.rs:955-1158,
 * p256-index-server/src/maintenance.rs:107-278).
 */
module WalletRuns {
  import opened Basics
  import E = ChainErrors
  import G = Gas
  import R = Rescue
  import opened Wallet

  datatype Run = Run(states: seq<World>, steps: seq<Step>)

  ghost predicate Follows(r: Run, i: nat)
    requires i < |r.steps| && |r.states| == |r.steps| + 1
  {
    Enabled(r.states[i], r.steps[i]) && r.states[i + 1] == Apply(r.states[i], r.steps[i])
  }

  /** Any ledger and pool in which everything pending is on record, and nobody under way. */
  ghost predicate Starts(w: World) {
    Shape(w) && w.note.None? && w.sweeper.Resting? && forall n :: OnRecord(w, n)
  }

  ghost predicate IsRun(r: Run) {
    && |r.states| == |r.steps| + 1 && Starts(r.states[0])
    && (forall i | 0 <= i < |r.steps| :: Follows(r, i))
  }

  lemma {:induction false} ReachableShape(r: Run, i: nat)
    requires IsRun(r) && i < |r.states|
    ensures Shape(r.states[i])
  {
    if i > 0 {
      ReachableShape(r, i - 1);
      assert Follows(r, i - 1);
      StepKeepsShape(r.states[i - 1], r.steps[i - 1]);
    }
  }

  ghost predicate SpoilsAt(r: Run, i: nat, n: Nonce)
    requires i < |r.steps| && |r.states| == |r.steps| + 1
  {
    Follows(r, i) && Spoils(r.states[i], r.steps[i], n)
  }

  lemma {:induction false} OnRecordUnlessSpoiled(r: Run, i: nat, n: Nonce)
    requires IsRun(r) && i < |r.steps| && OnRecord(r.states[i], n)
    ensures OnRecord(r.states[i + 1], n) <==> !SpoilsAt(r, i, n)
  {
    ReachableShape(r, i);
    assert Follows(r, i);
    StepSpoilsExactly(r.states[i], r.steps[i], n);
  }

  /** Over any interleaving of worker, chain and any number of sweeps, with any answers and losses,
      what is pending on a nonce is on record all the way exactly when no step on the way spoils
      it. */
  lemma {:induction false} OnRecordExactly(r: Run, j: nat, n: Nonce)
    requires IsRun(r) && j < |r.states|
    ensures (forall i | 0 <= i <= j :: OnRecord(r.states[i], n)) <==> (forall i | 0 <= i < j :: !SpoilsAt(r, i, n))
  {
    if j > 0 {
      OnRecordExactly(r, j - 1, n);
      if forall i | 0 <= i < j - 1 :: !SpoilsAt(r, i, n) {
        assert OnRecord(r.states[j - 1], n);
        OnRecordUnlessSpoiled(r, j - 1, n);
      }
    }
  }

  function Last(r: Run): World
    requires r.states != []
  {
    r.states[|r.states| - 1]
  }

  /** A run with one step more. */
  ghost function Grown(r: Run, step: Step): Run
    requires r.states != [] && Enabled(Last(r), step)
  {
    Run(r.states + [Apply(Last(r), step)], r.steps + [step])
  }

  lemma {:induction false} GrownIsRun(r: Run, step: Step)
    requires IsRun(r) && Enabled(Last(r), step)
    ensures IsRun(Grown(r, step)) && Last(Grown(r, step)) == Apply(Last(r), step)
  {
    var q := Grown(r, step);
    forall i | 0 <= i < |q.steps| ensures Follows(q, i) {
      if i < |r.steps| { assert Follows(r, i); }
    }
  }

  // ── Quiet runs ───────────────────────────────────────────────────────────

  function Listing(w: World): seq<R.LedgerRow> { if w.sweeper.Resting? then [] else w.sweeper.listing }

  predicate Named(listing: seq<R.LedgerRow>, n: Nonce) { exists i | 0 <= i < |listing| :: listing[i].nonce == n }

  /** Nothing is lost about this nonce, and the worker's send on it, from the node's taking it to the
      ledger write, does not overlap a sweep that listed it. */
  ghost predicate Quiet(w: World, step: Step, n: Nonce)
    requires Enabled(w, step)
  {
    match step
    case Send(nonce, _, taken, hash) => nonce == n && taken ==> hash.Some? && !Named(Listing(w), n)
    case Note(_, done) => w.note.value.nonce == n ==> done
    case List(listing, _) => w.note.Some? && w.note.value.nonce == n ==> !Named(listing, n)
    case Act(taken, answer) => Bids(w) && Current(w).nonce == n && taken ==> Owed(w, answer).Some?
    case SweepNotes(done) => w.sweeper.note.value.nonce == n ==> done
    case SweepStops => SweepNote(w).Some? ==> SweepNote(w).value.nonce != n
    case _ => true
  }

  /** The price is there, and covers what is pending. */
  predicate Covers(fees: Option<R.Fees>, w: World, n: Nonce) {
    fees.Some? && (n in w.pool ==> Dominates(fees.value, w.pool[n]))
  }

  /** The first action that was not offered yet. */
  function Next(s: Sweeper): nat
    requires s.Acting?
  {
    if s.note.Some? then s.at + 1 else s.at
  }

  /** What the sweep goes by is good for this nonce. */
  predicate SweepSafe(w: World, n: Nonce) {
    match w.sweeper
    case Resting => true
    case Listed(listing, _) => forall row | row in listing && row.nonce == n :: Covers(row.fees, w, n)
    case Acting(listing, _, _, _, _, note) =>
      && (note.Some? && note.value.nonce == n ==> Named(listing, n) && Covers(note.value.fees, w, n))
      && forall k | Next(w.sweeper) <= k < |Actions(w.sweeper)| ::
           Actions(w.sweeper)[k].Replace? && Actions(w.sweeper)[k].nonce == n ==> Covers(Actions(w.sweeper)[k].previous, w, n)
  }

  predicate Safe(w: World, n: Nonce) {
    && OnRecord(w, n) && (n in w.ledger ==> w.ledger[n].fees.Some?)
    && (w.note.Some? && w.note.value.nonce == n ==> !Named(Listing(w), n) && Covers(w.note.value.fees, w, n))
    && SweepSafe(w, n)
  }

  lemma {:induction false} ActionIsNamed(s: Sweeper, k: nat)
    requires s.Acting? && R.Keyed(s.listing) && k < |Actions(s)|
    ensures Named(s.listing, Actions(s)[k].nonce)
    ensures Actions(s)[k].Replace? ==>
              exists row :: row in s.listing && row.nonce == Actions(s)[k].nonce && row.fees == Actions(s)[k].previous
  {
    var row := ActionHasARow(s, k);
    var i :| 0 <= i < |s.listing| && s.listing[i] == row;
  }

  lemma {:induction false} ReplacedOnce(s: Sweeper, k: nat, m: nat)
    requires s.Acting? && R.Keyed(s.listing) && k < m < |Actions(s)| && Actions(s)[k].Replace?
    ensures Actions(s)[k].nonce != Actions(s)[m].nonce
  {
    R.PlanAscends(REGISTER, s.read, s.listing, s.now);
  }

  /** A safe bid clears the node's rule. */
  lemma {:induction false} SafeBidReplaces(w: World)
    requires Shape(w) && Bids(w) && SweepSafe(w, Current(w).nonce) && Current(w).nonce in w.pool
    ensures G.Replaces(Bid(w), w.pool[Current(w).nonce])
  {
    OfferIsUnderTheCap(Current(w), w.sweeper.base, w.cap);
  }

  /** The pool only loses transactions, and the sweep stands still. */
  lemma {:induction false} SweepStaysSafe(w: World, v: World, n: Nonce)
    requires SweepSafe(w, n) && v.sweeper == w.sweeper && (n in v.pool ==> n in w.pool && v.pool[n] == w.pool[n])
    ensures SweepSafe(v, n)
  {}

  /** A nonce the sweep did not list is nothing to it. */
  lemma {:induction false} UnlistedIsSafe(w: World, n: Nonce)
    requires SweeperOk(w) && !Named(Listing(w), n)
    requires SweepNote(w).Some? ==> SweepNote(w).value.nonce != n
    ensures SweepSafe(w, n)
  {
    if w.sweeper.Listed? {
      forall row | row in w.sweeper.listing ensures row.nonce != n {
        var i :| 0 <= i < |w.sweeper.listing| && w.sweeper.listing[i] == row;
      }
    } else if w.sweeper.Acting? {
      forall k | 0 <= k < |Actions(w.sweeper)| ensures Actions(w.sweeper)[k].nonce != n { ActionIsNamed(w.sweeper, k); }
    }
  }

  lemma {:induction false} SendKeepsSafe(w: World, step: Step, n: Nonce)
    requires Shape(w) && Enabled(w, step) && Safe(w, n) && Quiet(w, step, n) && step.Send?
    ensures Safe(Apply(w, step), n)
  {
    var v := Apply(w, step);
    if step.nonce == n && step.taken {
      UnlistedIsSafe(v, n);
    } else {
      SweepStaysSafe(w, v, n);
    }
  }

  lemma {:induction false} ListKeepsSafe(w: World, listing: seq<R.LedgerRow>, now: nat, n: Nonce)
    requires Shape(w) && Enabled(w, List(listing, now)) && Safe(w, n) && Quiet(w, List(listing, now), n)
    ensures Safe(Apply(w, List(listing, now)), n)
  {
    var v := Apply(w, List(listing, now));
    forall row | row in listing && row.nonce == n ensures Covers(row.fees, v, n) {
      var i :| 0 <= i < |listing| && listing[i] == row;
      assert Named(listing, n);
    }
  }

  lemma {:induction false} PlanKeepsSafe(w: World, read: Nonce, base: G.Wei, n: Nonce)
    requires Shape(w) && Enabled(w, Plan(read, base)) && Safe(w, n)
    ensures Safe(Apply(w, Plan(read, base)), n)
  {
    var v := Apply(w, Plan(read, base));
    forall k | 0 <= k < |Actions(v.sweeper)| && Actions(v.sweeper)[k].Replace? && Actions(v.sweeper)[k].nonce == n
      ensures Covers(Actions(v.sweeper)[k].previous, v, n)
    {
      ActionIsNamed(v.sweeper, k);
    }
  }

  lemma {:induction false} BidKeepsSafe(w: World, taken: bool, answer: Reply, n: Nonce)
    requires Shape(w) && Enabled(w, Act(taken, answer)) && Safe(w, n) && Quiet(w, Act(taken, answer), n)
    requires Bids(w) && Current(w).nonce == n
    ensures Safe(AfterAct(w, taken, answer), n)
  {
    var v, s := AfterAct(w, taken, answer), w.sweeper;
    ActionIsNamed(s, s.at);
    if n in w.pool { SafeBidReplaces(w); }
    if Owed(w, answer).Some? { OwedIsOk(w, answer); }
    forall k | s.at < k < |Actions(s)| && Actions(s)[k].Replace? ensures Actions(s)[k].nonce != n { ReplacedOnce(s, s.at, k); }
    ActSpoilsExactly(w, taken, answer, n);
    assert v.sweeper.Acting? && Actions(v.sweeper) == Actions(s) && Next(v.sweeper) == s.at + 1;
  }

  lemma {:induction false} OtherActKeepsSafe(w: World, taken: bool, answer: Reply, n: Nonce)
    requires Shape(w) && Enabled(w, Act(taken, answer)) && Safe(w, n)
    requires !(Bids(w) && Current(w).nonce == n)
    ensures Safe(AfterAct(w, taken, answer), n)
  {
    var v, s := AfterAct(w, taken, answer), w.sweeper;
    CurrentIsSound(w);
    if Bids(w) && Owed(w, answer).Some? { OwedIsOk(w, answer); }
    ActSpoilsExactly(w, taken, answer, n);
    assert v.sweeper.Acting? && Actions(v.sweeper) == Actions(s) && Next(v.sweeper) == s.at + 1;
  }

  lemma {:induction false} SweepNotesKeepsSafe(w: World, done: bool, n: Nonce)
    requires Shape(w) && Enabled(w, SweepNotes(done)) && Safe(w, n) && Quiet(w, SweepNotes(done), n)
    ensures Safe(Apply(w, SweepNotes(done)), n)
  {
    var v := Apply(w, SweepNotes(done));
    assert Actions(v.sweeper) == Actions(w.sweeper) && Next(v.sweeper) == Next(w.sweeper);
  }

  /** A step that is quiet about a nonce keeps it safe. */
  lemma {:induction false} QuietStepKeepsSafe(w: World, step: Step, n: Nonce)
    requires Shape(w) && Enabled(w, step) && Safe(w, n) && Quiet(w, step, n)
    ensures Safe(Apply(w, step), n)
  {
    match step
    case Send(_, _, _, _) => SendKeepsSafe(w, step, n);
    case List(listing, now) => ListKeepsSafe(w, listing, now, n);
    case Plan(read, base) => PlanKeepsSafe(w, read, base, n);
    case Act(taken, answer) =>
      if Bids(w) && Current(w).nonce == n { BidKeepsSafe(w, taken, answer, n); } else { OtherActKeepsSafe(w, taken, answer, n); }
    case SweepNotes(done) => SweepNotesKeepsSafe(w, done, n);
    case SweepStops =>
    case _ => SweepStaysSafe(w, Apply(w, step), n);
  }

  ghost predicate QuietUpTo(r: Run, j: nat, n: Nonce)
    requires |r.states| == |r.steps| + 1 && j <= |r.steps|
  {
    forall i | 0 <= i < j :: Follows(r, i) && Quiet(r.states[i], r.steps[i], n)
  }

  lemma {:induction false} QuietStaysSafe(r: Run, j: nat, n: Nonce)
    requires IsRun(r) && j < |r.states| && QuietUpTo(r, j, n)
    requires n in r.states[0].ledger ==> r.states[0].ledger[n].fees.Some?
    ensures Safe(r.states[j], n)
  {
    if j > 0 {
      QuietStaysSafe(r, j - 1, n);
      ReachableShape(r, j - 1);
      QuietStepKeepsSafe(r.states[j - 1], r.steps[j - 1], n);
    }
  }

  /** As long as nothing about a priced nonce is lost and the worker does not send on it while a sweep
      that listed it is under way, what is pending on it stays on record, and every bid the sweep
      makes for it clears the node's rule and stays under the cap. */
  lemma {:induction false} QuietNoncesAreSafe(r: Run, j: nat, n: Nonce)
    requires IsRun(r) && j < |r.states| && QuietUpTo(r, j, n)
    requires n in r.states[0].ledger ==> r.states[0].ledger[n].fees.Some?
    ensures OnRecord(r.states[j], n)
    ensures var w := r.states[j];
            Bids(w) && Current(w).nonce == n ==>
              Bid(w).priority <= Bid(w).maxFee <= w.cap && (n in w.pool ==> G.Replaces(Bid(w), w.pool[n]))
  {
    QuietStaysSafe(r, j, n);
    ReachableShape(r, j);
    var w := r.states[j];
    if Bids(w) && Current(w).nonce == n {
      OfferIsUnderTheCap(Current(w), w.sweeper.base, w.cap);
      if n in w.pool { SafeBidReplaces(w); }
    }
  }

  // ── Noisy ones ───────────────────────────────────────────────────────────

  /** `q` is `r` with these steps behind it. */
  ghost predicate Extends(r: Run, more: seq<Step>, q: Run) {
    IsRun(r) && IsRun(q) && q.steps == r.steps + more && r.states <= q.states
  }

  lemma {:induction false} Extend(r: Run, more: seq<Step>, m: Run, step: Step) returns (q: Run)
    requires Extends(r, more, m) && Enabled(Last(m), step)
    ensures Extends(r, more + [step], q) && Last(q) == Apply(Last(m), step)
  {
    q := Grown(m, step);
    GrownIsRun(m, step);
  }

  /** What the worker pays for a send at this base fee. */
  function Price(base: G.Wei, cap: G.Wei): G.Wei { G.Min(G.MarketCeiling(base, TIP), cap) }

  /** A bid covers what the worker sends at another base fee exactly when its fee does. */
  lemma {:induction false} CoversAResendExactly(action: R.Action, base: G.Wei, cap: G.Wei, later: G.Wei)
    requires 1 <= cap < G.U128 && action.Replace? && Fits(action.previous) && Offer(action, base, cap).Send?
    requires G.PlanFees(later, TIP, cap).Send?
    ensures Dominates(Pair(Offer(action, base, cap).plan), G.PlanFees(later, TIP, cap).plan) <==>
            Price(later, cap) <= Offer(action, base, cap).plan.maxFee
    ensures later <= base ==> Price(later, cap) <= Offer(action, base, cap).plan.maxFee
  {
    OfferIsUnderTheCap(action, base, cap);
  }

  const UNDERPRICED: E.ChainError := E.Rejected({E.Underpriced})

  /** The run reaches a bid on a nonce, and the worker has nothing to write. */
  ghost predicate ComesToBid(r: Run) {
    IsRun(r) && Bids(Last(r)) && Last(r).note.None? && Current(Last(r)).nonce >= Last(r).confirmed
  }

  lemma {:induction false} ExtendsOn(r: Run, a: seq<Step>, m: Run, b: seq<Step>, q: Run)
    requires Extends(r, a, m) && Extends(m, b, q)
    ensures Extends(r, a + b, q)
  {}

  /** The transaction on a nonce is evicted, and the worker sends and records another one. */
  lemma {:induction false} Resend(r: Run, n: Nonce, base: G.Wei, hash: string, at: nat) returns (q: Run)
    requires IsRun(r) && Last(r).note.None? && n >= Last(r).confirmed && G.PlanFees(base, TIP, Last(r).cap).Send?
    ensures Extends(r, [Evicted(n), Send(n, base, true, Some(hash)), Note(at, true)], q)
    ensures var plan := G.PlanFees(base, TIP, Last(r).cap).plan;
            Last(q) == Last(r).(pool := Last(r).pool[n := plan],
                                ledger := Last(r).ledger[n := R.LedgerRow(REGISTER, n, hash, at, 0, Some(Pair(plan)))])
  {
    q := Extend(r, [], r, Evicted(n));
    q := Extend(r, [Evicted(n)], q, Send(n, base, true, Some(hash)));
    q := Extend(r, [Evicted(n), Send(n, base, true, Some(hash))], q, Note(at, true));
  }

  /** The sweep's bid is refused as underpriced, and recorded. */
  lemma {:induction false} RefuseAndRecord(r: Run) returns (q: Run)
    requires IsRun(r) && Bids(Last(r))
    ensures Extends(r, [Act(false, Refused(UNDERPRICED)), SweepNotes(true)], q)
    ensures var w := Last(r); var n := Current(w).nonce;
            && Last(q).pool == w.pool && Last(q).note == w.note && SweepNote(Last(q)).None?
            && n in Last(q).ledger && Last(q).ledger[n].nonce == n && Last(q).ledger[n].fees == Some(Pair(Bid(w)))
  {
    ReachableShape(r, |r.states| - 1);
    OwedIsOk(Last(r), Refused(UNDERPRICED));
    q := Extend(r, [], r, Act(false, Refused(UNDERPRICED)));
    q := Extend(r, [Act(false, Refused(UNDERPRICED))], q, SweepNotes(true));
  }

  /** The transaction is evicted and the worker sends again at another base fee before the sweep,
      which goes by its listing and the base fee it read, makes its bid and is refused as
      underpriced: what is pending is then on record exactly when the price of the second send is
      within the bid's fee. It is whenever the base fee has not risen since the sweep read it. */
  lemma {:induction false} ResentUnderASweepExactly(r: Run, later: G.Wei, hash: string, at: nat) returns (q: Run)
    requires ComesToBid(r) && G.PlanFees(later, TIP, Last(r).cap).Send?
    ensures var n := Current(Last(r)).nonce;
            && Extends(r, [Evicted(n), Send(n, later, true, Some(hash)), Note(at, true)]
                          + [Act(false, Refused(UNDERPRICED)), SweepNotes(true)], q)
            && (OnRecord(Last(q), n) <==> Price(later, Last(r).cap) <= Bid(Last(r)).maxFee)
            && (later <= Last(r).sweeper.base ==> OnRecord(Last(q), n))
            && Last(q).pool == Last(r).pool[n := G.PlanFees(later, TIP, Last(r).cap).plan]
            && n in Last(q).ledger && Last(q).ledger[n].fees == Some(Pair(Bid(Last(r))))
  {
    var w := Last(r);
    var n := Current(w).nonce;
    var m := Resend(r, n, later, hash, at);
    assert Bids(Last(m)) && Bid(Last(m)) == Bid(w) && Current(Last(m)) == Current(w);
    q := RefuseAndRecord(m);
    ExtendsOn(r, [Evicted(n), Send(n, later, true, Some(hash)), Note(at, true)], m,
              [Act(false, Refused(UNDERPRICED)), SweepNotes(true)], q);
    assert Shape(w) by { ReachableShape(r, |r.states| - 1); }
    CoversAResendExactly(Current(w), w.sweeper.base, w.cap, later);
  }

  lemma {:induction false} PlanOfOne(row: R.LedgerRow, read: Nonce, now: nat)
    requires row.role == REGISTER && read <= row.nonce && !R.Overdue(row, now)
    ensures R.Plan(REGISTER, read, [row], now) == [R.Bump(row)]
  {
    assert [row][..0] == [] && [row][1..] == [];
    assert R.OfRole([row], REGISTER) == [row] + R.OfRole([], REGISTER);
    assert R.SortByNonce([row]) == [row];
    assert R.Sweep([row], read, now).0 == [] + R.Steps(row, read, now, 0);
  }

  /** A run that starts with one pending transaction and comes to replace it. */
  lemma {:induction false} OneStuck(row: R.LedgerRow, plan: G.FeePlan, cap: G.Wei, now: nat, base: G.Wei) returns (q: Run)
    requires 1 <= cap < G.U128 && RowOk(row) && row.nonce == 0 && Says(Some(row), 0, plan)
    requires row.sentAt < Before(now) && !R.Overdue(row, now)
    ensures IsRun(q)
    ensures Last(q) == World(cap, map[0 := row], map[0 := plan], 0, None, Acting([row], now, 0, base, 0, None))
    ensures AtAction(Last(q)) && Current(Last(q)) == R.Bump(row)
  {
    var w := World(cap, map[0 := row], map[0 := plan], 0, None, Resting);
    assert forall n :: OnRecord(w, n);
    var start := Run([w], []);
    q := Extend(start, [], start, List([row], now));
    q := Extend(start, [List([row], now)], q, Plan(0, base));
    PlanOfOne(row, 0, now);
  }

  /** A run in which that goes wrong: sent at a base fee of 10, sent again at 50000. */
  lemma {:induction false} StaleBidSpoils() returns (q: Run)
    ensures IsRun(q) && 0 in Last(q).pool && 0 in Last(q).ledger && !OnRecord(Last(q), 0)
    ensures Last(q).ledger[0].fees == Some(R.Fees(1_530, 1_500)) && Last(q).pool[0] == G.FeePlan(101_000, 1_000)
  {
    var row := R.LedgerRow(REGISTER, 0, "first", 0, 0, Some(R.Fees(1_020, 1_000)));
    q := OneStuck(row, G.FeePlan(1_020, 1_000), G.DEFAULT_MAX_FEE_WEI, 120_001, 10);
    assert Bids(Last(q)) && Bid(Last(q)) == G.FeePlan(1_530, 1_500);
    q := ResentUnderASweepExactly(q, 50_000, "second", 60_000);
  }

  // ── Losses ───────────────────────────────────────────────────────────────

  /** The row the sweep listed is still the row of the nonce it bids on. */
  predicate StillListed(w: World)
    requires Bids(w)
  {
    Current(w).nonce in w.ledger && w.ledger[Current(w).nonce].fees == Current(w).previous
  }

  /** A row says what a bid pays exactly when it was rewritten meanwhile, or has no price. */
  lemma {:induction false} ListedRowSaysExactly(w: World)
    requires Shape(w) && Bids(w) && StillListed(w)
    ensures Says(RowAt(w, Current(w).nonce), Current(w).nonce, Bid(w)) <==> Current(w).previous.None?
  {
    OfferIsUnderTheCap(Current(w), w.sweeper.base, w.cap);
  }

  /** The node takes the bid and the answer is lost: the transaction is on record exactly when the row
      already says as much. The listed row does only if it has no price. */
  lemma {:induction false} LostAcceptanceExactly(r: Run, error: E.ChainError) returns (q: Run)
    requires ComesToBid(r) && CanTake(Last(r), Current(Last(r)).nonce, Bid(Last(r)))
    requires !E.IsReplacementUnderpriced(error)
    ensures var w := Last(r); var n := Current(w).nonce;
            && Extends(r, [Act(true, Refused(error))], q)
            && (OnRecord(Last(q), n) <==> Says(RowAt(w, n), n, Bid(w)))
            && (StillListed(w) ==> (OnRecord(Last(q), n) <==> Current(w).previous.None?))
  {
    ReachableShape(r, |r.states| - 1);
    q := Extend(r, [], r, Act(true, Refused(error)));
    if StillListed(Last(r)) { ListedRowSaysExactly(Last(r)); }
  }

  /** The node takes the bid and says so, and the ledger write fails or the sweep dies before it. */
  lemma {:induction false} LostRowExactly(r: Run, hash: string, dies: bool) returns (q: Run)
    requires ComesToBid(r) && CanTake(Last(r), Current(Last(r)).nonce, Bid(Last(r)))
    ensures var w := Last(r); var n := Current(w).nonce;
            && Extends(r, [Act(true, Accepted(hash)), if dies then SweepStops else SweepNotes(false)], q)
            && (OnRecord(Last(q), n) <==> Says(RowAt(w, n), n, Bid(w)))
            && (StillListed(w) ==> (OnRecord(Last(q), n) <==> Current(w).previous.None?))
  {
    ReachableShape(r, |r.states| - 1);
    q := Extend(r, [], r, Act(true, Accepted(hash)));
    q := Extend(r, [Act(true, Accepted(hash))], q, if dies then SweepStops else SweepNotes(false));
    if StillListed(Last(r)) { ListedRowSaysExactly(Last(r)); }
  }

  /** The worker's send is taken and its answer or its ledger write is lost: the transaction is on
      record exactly when the nonce has a row that says as much, so never on a fresh nonce. */
  lemma {:induction false} LostSendExactly(r: Run, n: Nonce, base: G.Wei, hash: Option<string>, at: nat) returns (q: Run)
    requires IsRun(r) && Last(r).note.None? && (SweepNote(Last(r)).Some? ==> SweepNote(Last(r)).value.nonce != n)
    requires G.PlanFees(base, TIP, Last(r).cap).Send? && CanTake(Last(r), n, G.PlanFees(base, TIP, Last(r).cap).plan)
    ensures var w := Last(r);
            && Extends(r, if hash.None? then [Send(n, base, true, None)] else [Send(n, base, true, hash), Note(at, false)], q)
            && (OnRecord(Last(q), n) <==> Says(RowAt(w, n), n, G.PlanFees(base, TIP, w.cap).plan))
            && (n !in w.ledger ==> !OnRecord(Last(q), n))
  {
    q := Extend(r, [], r, Send(n, base, true, hash));
    if hash.Some? { q := Extend(r, [Send(n, base, true, hash)], q, Note(at, false)); }
  }

  // ── Every answer ─────────────────────────────────────────────────────────

  /** An answer that loses nothing: a bid that was taken is accepted, or reads as underpriced. */
  ghost predicate Heard(w: World, taken: bool, answer: Reply)
    requires Bids(w)
  {
    Enabled(w, Act(taken, answer)) && (taken ==> Owed(w, answer).Some?)
  }

  /** The world after the bid and the row it calls for. */
  function Recorded(w: World, taken: bool, answer: Reply): World
    requires Bids(w)
  {
    var v := AfterAct(w, taken, answer);
    if v.sweeper.note.None? then v else Apply(v, SweepNotes(true))
  }

  /** A bid leaves what is pending on record under every answer exactly when it covers what is
      pending before it, or the worker is about to write a row that does. */
  lemma {:induction false} EveryAnswerIsRecordedExactly(w: World)
    requires Shape(w) && Bids(w) && OnRecord(w, Current(w).nonce)
    ensures var n := Current(w).nonce;
            (forall taken, answer | Heard(w, taken, answer) :: OnRecord(Recorded(w, taken, answer), n)) <==>
            (n in w.pool ==> Dominates(Pair(Bid(w)), w.pool[n]) || Says(w.note, n, w.pool[n]))
  {
    var n := Current(w).nonce;
    forall taken, answer | Heard(w, taken, answer) && (n in w.pool ==> Dominates(Pair(Bid(w)), w.pool[n]) || Says(w.note, n, w.pool[n]))
      ensures OnRecord(Recorded(w, taken, answer), n)
    {
      if Owed(w, answer).Some? { OwedIsOk(w, answer); }
    }
    assert Heard(w, false, Refused(UNDERPRICED));
    OwedIsOk(w, Refused(UNDERPRICED));
    var v := Recorded(w, false, Refused(UNDERPRICED));
    assert OnRecord(v, n) ==> (n in w.pool ==> Dominates(Pair(Bid(w)), w.pool[n]) || Says(w.note, n, w.pool[n]));
  }

  // ── The worker's own row ─────────────────────────────────────────────────

  lemma {:induction false} NoteWaits(r: Run, i: nat, j: nat)
    requires IsRun(r) && i <= j < |r.states| && r.states[i].note.Some? && forall m | i <= m < j :: !r.steps[m].Note?
    ensures r.states[j].note == r.states[i].note
    decreases j
  {
    if i < j {
      NoteWaits(r, i, j - 1);
      assert Follows(r, j - 1);
    }
  }

  /** A send that is accepted and whose row is written: the row has its hash, the time of the write, no
      attempts and exactly the price that was sent, a fresh one. */
  lemma {:induction false} SentIsRecorded(r: Run, i: nat, j: nat, n: Nonce, base: G.Wei, hash: string, at: nat)
    requires IsRun(r) && i < j < |r.steps| && r.steps[i] == Send(n, base, true, Some(hash)) && r.steps[j] == Note(at, true)
    requires forall m | i < m < j :: !r.steps[m].Note?
    ensures base + 1_000 <= r.states[i].cap
    ensures var fee: nat := if 2 * base + 1_000 <= r.states[i].cap then 2 * base + 1_000 else r.states[i].cap;
            && r.states[j + 1].ledger == r.states[j].ledger[n := R.LedgerRow(REGISTER, n, hash, at, 0, Some(R.Fees(fee, 1_000)))]
            && n in r.states[i + 1].pool && r.states[i + 1].pool[n] == G.FeePlan(fee, 1_000)
  {
    assert Follows(r, i) && Follows(r, j);
    assert Shape(r.states[i]) by { ReachableShape(r, i); }
    G.SentExactlyWhenItFits(base, TIP, r.states[i].cap);
    G.FreshPriceExactly(base, TIP, r.states[i].cap);
    NoteWaits(r, i + 1, j);
  }
}
