/**
 * The unstick sweep as the loop it is, awaiting reads, bids and ledger writes while worker and chain
 * move on (p256-index-cf/src/submitter.rs:1034-1158, p256-index-server/src/maintenance.rs:107-278).
 * Whatever they do, its execution is a run of the wallet's transition system.
 */
module Maintenance {
  import opened Basics
  import E = ChainErrors
  import G = Gas
  import R = Rescue
  import opened Wallet
  import opened WalletRuns

  /** What the rest of the world does and answers around one action. */
  datatype Turn = Turn(before: seq<Step>, taken: bool, answer: Reply, between: seq<Step>, done: bool)

  const SILENCE := Turn([], false, Refused(E.Unavailable), [], false)

  /** An answer no node would give stands for a bid that never arrived. */
  function Received(w: World, turn: Turn): Step
    requires AtAction(w)
  {
    var taken := turn.taken && (Bids(w) ==> CanTake(w, Current(w).nonce, Bid(w)));
    Act(taken, if turn.answer.Accepted? && !taken then Refused(E.Unavailable) else turn.answer)
  }

  /** The sweep goes on to the next action, or has a row to write first. */
  lemma {:induction false} ReceivedIsEnabled(w: World, turn: Turn)
    requires Shape(w) && AtAction(w)
    ensures Enabled(w, Received(w, turn))
    ensures var s := Apply(w, Received(w, turn)).sweeper;
            s == w.sweeper.(at := w.sweeper.at + 1) || (s.Acting? && s.note.Some? && s == w.sweeper.(note := s.note))
  {
    CurrentIsSound(w);
  }

  function Acted(steps: seq<Step>): nat {
    if steps == [] then 0 else Acted(steps[..|steps| - 1]) + (if steps[|steps| - 1].Act? then 1 else 0)
  }

  class Loop {
    var w: World
    ghost var run: Run

    /** What happened so far is a run that ends here. */
    ghost predicate Valid()
      reads this
    {
      IsRun(run) && Last(run) == w
    }

    constructor (world: World)
      requires Starts(world)
      ensures Valid() && w == world && run == Run([world], [])
    {
      w, run := world, Run([world], []);
    }

    /** One step of anybody. */
    method Take(step: Step)
      requires Valid() && Enabled(w, step)
      modifies this
      ensures Valid() && w == Apply(old(w), step) && run.steps == old(run).steps + [step]
      ensures Acted(run.steps) == Acted(old(run).steps) + if step.Act? then 1 else 0
    {
      GrownIsRun(run, step);
      w, run := Apply(w, step), Grown(run, step);
      assert run.steps[..|run.steps| - 1] == old(run).steps;
    }

    /** Worker and chain move. */
    method Interfere(steps: seq<Step>)
      requires Valid()
      modifies this
      ensures Valid() && old(run).steps <= run.steps && Acted(run.steps) == Acted(old(run).steps)
      ensures w.sweeper == old(w).sweeper && w.cap == old(w).cap
    {
      for i := 0 to |steps|
        invariant Valid() && old(run).steps <= run.steps && Acted(run.steps) == Acted(old(run).steps)
        invariant w.sweeper == old(w).sweeper && w.cap == old(w).cap
      {
        if Free(w, steps[i]) {
          Take(steps[i]);
        }
      }
    }

    /** list_pending_txs, in whatever order the table is read. */
    method ListPending(before: nat) returns (listing: seq<R.LedgerRow>)
      requires Valid()
      ensures Lists(listing, w.ledger, before)
    {
      ReachableShape(run, |run.states| - 1);
      listing := [];
      var todo := w.ledger.Keys;
      while todo != {}
        invariant todo <= w.ledger.Keys
        invariant R.Keyed(listing)
        invariant forall row :: row in listing <==>
                    row.nonce in w.ledger && row.nonce !in todo && w.ledger[row.nonce] == row && row.sentAt < before
        decreases |todo|
      {
        var n :| n in todo;
        todo := todo - {n};
        if w.ledger[n].sentAt < before {
          forall k | 0 <= k < |listing| ensures listing[k].nonce != n { assert listing[k] in listing; }
          listing := listing + [w.ledger[n]];
        }
      }
    }

    /** The row the answer calls for is written, or fails to be. */
    method WriteDown(between: seq<Step>, done: bool)
      requires Valid() && w.sweeper.Acting? && w.sweeper.note.Some?
      modifies this
      ensures Valid() && old(run).steps <= run.steps && Acted(run.steps) == Acted(old(run).steps)
      ensures w.sweeper == old(w).sweeper.(at := old(w).sweeper.at + 1, note := None)
    {
      Interfere(between);
      Take(SweepNotes(done));
    }

    /** The action itself, up to its answer. */
    method Receive(turn: Turn)
      requires Valid() && AtAction(w)
      modifies this
      ensures Valid() && old(run).steps <= run.steps && Acted(run.steps) == Acted(old(run).steps) + 1
      ensures w.sweeper.Acting? && (w.sweeper.note.None? ==> w.sweeper == old(w).sweeper.(at := old(w).sweeper.at + 1))
      ensures w.sweeper.note.Some? ==> w.sweeper == old(w).sweeper.(note := w.sweeper.note)
    {
      assert Shape(w) by { ReachableShape(run, |run.states| - 1); }
      ReceivedIsEnabled(w, turn);
      ghost var step := Received(w, turn);
      Take(Received(w, turn));
      assert step.Act?;
    }

    /** One action of the plan: delete the row, report, or bid and write what the answer calls for. */
    method Execute(turn: Turn)
      requires Valid() && AtAction(w)
      modifies this
      ensures Valid() && old(run).steps <= run.steps && Acted(run.steps) == Acted(old(run).steps) + 1
      ensures w.sweeper == old(w).sweeper.(at := old(w).sweeper.at + 1)
    {
      Receive(turn);
      if w.sweeper.note.Some? {
        WriteDown(turn.between, turn.done);
      }
    }

    /** The plan, action by action. */
    method ExecuteAll(turns: seq<Turn>)
      requires Valid() && w.sweeper.Acting? && w.sweeper.at == 0 && w.sweeper.note.None?
      modifies this
      ensures Valid() && w.sweeper == old(w).sweeper.(at := |Actions(old(w).sweeper)|)
      ensures old(run).steps <= run.steps && Acted(run.steps) == Acted(old(run).steps) + |Actions(old(w).sweeper)|
    {
      var plan := R.PlanRoleSweep(REGISTER, w.sweeper.read, w.sweeper.listing, w.sweeper.now);
      for i := 0 to |plan|
        invariant Valid() && w.sweeper == old(w).sweeper.(at := i)
        invariant old(run).steps <= run.steps && Acted(run.steps) == Acted(old(run).steps) + i
      {
        var turn := if i < |turns| then turns[i] else SILENCE;
        Interfere(turn.before);
        Execute(turn);
      }
    }

    /** Reads the confirmed nonce from a node that may lag, and executes the plan. */
    method PlanAndExecute(lag: nat, base: G.Wei, turns: seq<Turn>) returns (ghost read: Nonce)
      requires Valid() && w.sweeper.Listed?
      modifies this
      ensures Valid() && w.sweeper.Acting? && old(run).steps <= run.steps
      ensures Acted(run.steps) == Acted(old(run).steps) + |R.Plan(REGISTER, read, old(w).sweeper.listing, old(w).sweeper.now)|
    {
      var nonce := if w.confirmed >= lag then w.confirmed - lag else 0;
      read := nonce;
      Take(Plan(nonce, base));
      ExecuteAll(turns);
    }

    /** list_pending_txs as a step. */
    method ListRows(now: nat) returns (ghost listing: seq<R.LedgerRow>)
      requires Valid() && w.sweeper.Resting?
      modifies this
      ensures Valid() && w.sweeper == Listed(listing, now) && Lists(listing, old(w).ledger, Before(now))
      ensures run.steps == old(run).steps + [List(listing, now)] && Acted(run.steps) == Acted(old(run).steps)
    {
      var rows := ListPending(Before(now));
      listing := rows;
      Take(List(rows, now));
    }

    /** unstick_sweep: list, read the base fee and then the confirmed nonce, and execute the plan
        action by action, each exactly once. `readable` is false when one of the two reads fails;
        `lag` is how far the node that answers is behind. */
    method Sweep(now: nat, meanwhile: seq<Step>, readable: bool, lag: nat, base: G.Wei, turns: seq<Turn>)
      returns (ghost listing: seq<R.LedgerRow>, ghost read: Nonce)
      requires Valid() && w.sweeper.Resting?
      modifies this
      ensures Valid() && w.sweeper.Resting? && old(run).steps + [List(listing, now)] <= run.steps
      ensures Lists(listing, old(w).ledger, Before(now))
      ensures Acted(run.steps) == Acted(old(run).steps) + if readable then |R.Plan(REGISTER, read, listing, now)| else 0
    {
      read := 0;
      listing := ListRows(now);
      Interfere(meanwhile);
      if readable {
        read := PlanAndExecute(lag, base, turns);
      }
      Take(SweepStops);
    }
  }
}
