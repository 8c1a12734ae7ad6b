/**
 * The plan of one unstick sweep over the broadcast ledger
 * (p256-registrar/src/rescue.rs:31-103).
 */
module Rescue {
  import opened Basics

  const STUCK_TX_AGE_MS: nat := 2 * 60 * 1_000
  const MAX_UNSTICK_PER_CYCLE: nat := 5
  const UNSTICK_ALERT_ATTEMPTS: nat := 5
  const UNSTICK_ALERT_AGE_MS: nat := 10 * 60 * 1_000
  const U32: nat := 0x1_0000_0000

  datatype Fees = Fees(maxFee: nat, priority: nat)

  datatype LedgerRow = LedgerRow(role: string, nonce: nat, hash: string, sentAt: nat, attempts: nat, fees: Option<Fees>)

  datatype Action =
    | DropConsumedRow(nonce: nat)
    | Escalate(nonce: nat, attempts: nat, age: nat)
    | Replace(nonce: nat, attemptsAfter: nat, previous: Option<Fees>)

  function Age(row: LedgerRow, now: nat): nat { if now >= row.sentAt then now - row.sentAt else 0 }

  predicate Overdue(row: LedgerRow, now: nat) {
    row.attempts >= UNSTICK_ALERT_ATTEMPTS || Age(row, now) >= UNSTICK_ALERT_AGE_MS
  }

  function Alert(row: LedgerRow, now: nat): Action { Escalate(row.nonce, row.attempts, Age(row, now)) }

  function Bump(row: LedgerRow): Action { Replace(row.nonce, (row.attempts + 1) % U32, row.fees) }

  // ── The loop ─────────────────────────────────────────────────────────────

  function OfRole(ledger: seq<LedgerRow>, role: string): seq<LedgerRow> {
    if ledger == [] then []
    else (if ledger[0].role == role then [ledger[0]] else []) + OfRole(ledger[1..], role)
  }

  function Insert(row: LedgerRow, sorted: seq<LedgerRow>): seq<LedgerRow> {
    if sorted == [] || row.nonce < sorted[0].nonce then [row] + sorted
    else [sorted[0]] + Insert(row, sorted[1..])
  }

  /** sort_by_key(nonce), as repeated insertion. */
  function SortByNonce(rows: seq<LedgerRow>): seq<LedgerRow> {
    if rows == [] then [] else Insert(rows[|rows| - 1], SortByNonce(rows[..|rows| - 1]))
  }

  function Steps(row: LedgerRow, confirmed: nat, now: nat, replaced: nat): seq<Action> {
    if row.nonce < confirmed then [DropConsumedRow(row.nonce)]
    else (if Overdue(row, now) then [Alert(row, now)] else [])
         + (if replaced < MAX_UNSTICK_PER_CYCLE then [Bump(row)] else [])
  }

  function Counted(row: LedgerRow, confirmed: nat, replaced: nat): nat {
    if row.nonce < confirmed || replaced >= MAX_UNSTICK_PER_CYCLE then replaced else replaced + 1
  }

  /** What the loop has pushed after these rows, and how much of the budget it has spent. */
  function Sweep(rows: seq<LedgerRow>, confirmed: nat, now: nat): (seq<Action>, nat) {
    if rows == [] then ([], 0)
    else
      var row := rows[|rows| - 1];
      var before := Sweep(rows[..|rows| - 1], confirmed, now);
      (before.0 + Steps(row, confirmed, now, before.1), Counted(row, confirmed, before.1))
  }

  function Plan(role: string, confirmed: nat, ledger: seq<LedgerRow>, now: nat): seq<Action> {
    Sweep(SortByNonce(OfRole(ledger, role)), confirmed, now).0
  }

  /** The body of the loop, for one row. */
  method Visit(row: LedgerRow, confirmed: nat, now: nat, pushed: seq<Action>, spent: nat) returns (actions: seq<Action>, replaced: nat)
    ensures actions == pushed + Steps(row, confirmed, now, spent)
    ensures replaced == Counted(row, confirmed, spent)
  {
    actions, replaced := pushed, spent;
    if row.nonce < confirmed {
      actions := actions + [DropConsumedRow(row.nonce)];
      return;
    }
    var age := Age(row, now);
    if row.attempts >= UNSTICK_ALERT_ATTEMPTS || age >= UNSTICK_ALERT_AGE_MS {
      actions := actions + [Escalate(row.nonce, row.attempts, age)];
    }
    if replaced >= MAX_UNSTICK_PER_CYCLE {
      return;
    }
    replaced := replaced + 1;
    actions := actions + [Replace(row.nonce, (row.attempts + 1) % U32, row.fees)];
  }

  method PlanRoleSweep(role: string, confirmed: nat, ledger: seq<LedgerRow>, now: nat) returns (actions: seq<Action>)
    ensures actions == Plan(role, confirmed, ledger, now)
  {
    var stuck := Select(ledger, role);
    stuck := SortByNonce(stuck);
    actions := [];
    var replaced := 0;
    for i := 0 to |stuck|
      invariant actions == Sweep(stuck[..i], confirmed, now).0
      invariant replaced == Sweep(stuck[..i], confirmed, now).1
    {
      var row := stuck[i];
      SweepNext(stuck, confirmed, now, i);
      actions, replaced := Visit(row, confirmed, now, actions, replaced);
    }
    assert stuck[..|stuck|] == stuck;
  }

  lemma {:induction false} SweepNext(rows: seq<LedgerRow>, confirmed: nat, now: nat, i: nat)
    requires i < |rows|
    ensures var before := Sweep(rows[..i], confirmed, now);
            Sweep(rows[..i + 1], confirmed, now) ==
            (before.0 + Steps(rows[i], confirmed, now, before.1), Counted(rows[i], confirmed, before.1))
  {
    assert rows[..i + 1][..i] == rows[..i];
  }

  method Select(ledger: seq<LedgerRow>, role: string) returns (stuck: seq<LedgerRow>)
    ensures stuck == OfRole(ledger, role)
  {
    stuck := [];
    for i := 0 to |ledger|
      invariant stuck + OfRole(ledger[i..], role) == OfRole(ledger, role)
    {
      assert ledger[i..][1..] == ledger[i + 1..];
      if ledger[i].role == role { stuck := stuck + [ledger[i]]; }
    }
  }

  // ── Sorting ──────────────────────────────────────────────────────────────

  /** (role, nonce) is the ledger's key. */
  predicate Keyed(ledger: seq<LedgerRow>) {
    forall i, j | 0 <= i < j < |ledger| :: ledger[i].role == ledger[j].role ==> ledger[i].nonce != ledger[j].nonce
  }

  predicate Ascending(rows: seq<LedgerRow>) {
    forall i, j | 0 <= i < j < |rows| :: rows[i].nonce < rows[j].nonce
  }

  lemma {:induction false} InsertKeepsOrder(row: LedgerRow, sorted: seq<LedgerRow>)
    requires Ascending(sorted) && forall i | 0 <= i < |sorted| :: sorted[i].nonce != row.nonce
    ensures Ascending(Insert(row, sorted))
    ensures forall x :: x in Insert(row, sorted) <==> x == row || x in sorted
  {
    if sorted != [] && row.nonce >= sorted[0].nonce {
      var rest := Insert(row, sorted[1..]);
      InsertKeepsOrder(row, sorted[1..]);
      assert sorted == [sorted[0]] + sorted[1..];
      forall i | 0 <= i < |rest| ensures sorted[0].nonce < rest[i].nonce { assert rest[i] in rest; }
    }
  }

  lemma {:induction false} SortIsAscending(rows: seq<LedgerRow>)
    requires forall i, j | 0 <= i < j < |rows| :: rows[i].nonce != rows[j].nonce
    ensures Ascending(SortByNonce(rows))
    ensures forall x :: x in SortByNonce(rows) <==> x in rows
  {
    if rows != [] {
      var front, last := rows[..|rows| - 1], rows[|rows| - 1];
      SortIsAscending(front);
      var sorted := SortByNonce(front);
      forall i | 0 <= i < |sorted| ensures sorted[i].nonce != last.nonce {
        assert sorted[i] in sorted;
        var k :| 0 <= k < |front| && front[k] == sorted[i];
        assert rows[k].nonce != rows[|rows| - 1].nonce;
      }
      InsertKeepsOrder(last, sorted);
      assert rows == front + [last];
    }
  }

  lemma {:induction false} OfRoleIsFilter(ledger: seq<LedgerRow>, role: string)
    requires Keyed(ledger)
    ensures forall x :: x in OfRole(ledger, role) <==> x in ledger && x.role == role
    ensures forall i, j | 0 <= i < j < |OfRole(ledger, role)| :: OfRole(ledger, role)[i].nonce != OfRole(ledger, role)[j].nonce
  {
    if ledger != [] {
      var rest := OfRole(ledger[1..], role);
      OfRoleIsFilter(ledger[1..], role);
      assert ledger == [ledger[0]] + ledger[1..];
      if ledger[0].role == role {
        forall j | 0 <= j < |rest| ensures rest[j].nonce != ledger[0].nonce {
          assert rest[j] in rest;
          var k :| 0 <= k < |ledger[1..]| && ledger[1..][k] == rest[j];
          assert ledger[k + 1] == rest[j];
        }
      }
    }
  }

  /** The rows the loop walks: the role's rows, each once, by ascending nonce. */
  function Stuck(ledger: seq<LedgerRow>, role: string): seq<LedgerRow> { SortByNonce(OfRole(ledger, role)) }

  lemma {:induction false} StuckRows(ledger: seq<LedgerRow>, role: string)
    requires Keyed(ledger)
    ensures Ascending(Stuck(ledger, role))
    ensures forall x :: x in Stuck(ledger, role) <==> x in ledger && x.role == role
  {
    OfRoleIsFilter(ledger, role);
    SortIsAscending(OfRole(ledger, role));
  }

  lemma {:induction false} Inhabited(rows: seq<LedgerRow>)
    ensures rows != [] ==> exists x :: x in rows
  {
    if rows != [] { assert rows[0] in rows; }
  }

  /** Two ascending lists of the same rows are the same list. */
  lemma {:induction false} AscendingIsUnique(a: seq<LedgerRow>, b: seq<LedgerRow>)
    requires Ascending(a) && Ascending(b) && forall x :: x in a <==> x in b
    ensures a == b
  {
    if a == [] {
      Inhabited(b);
    } else {
      assert a[0] in a && a[0] in b;
      assert b[0] in b && b[0] in a;
      assert a[0] == b[0];
      forall x ensures x in a[1..] <==> x in b[1..] {
        TailIsTheRest(a, x);
        TailIsTheRest(b, x);
      }
      AscendingIsUnique(a[1..], b[1..]);
      assert a == [a[0]] + a[1..] && b == [b[0]] + b[1..];
    }
  }

  lemma {:induction false} TailIsTheRest(a: seq<LedgerRow>, x: LedgerRow)
    requires a != [] && Ascending(a)
    ensures x in a[1..] <==> x in a && x != a[0]
  {
    if x in a[1..] {
      var k :| 0 <= k < |a[1..]| && a[1..][k] == x;
      assert a[0].nonce < a[k + 1].nonce;
    }
    assert a == [a[0]] + a[1..];
  }

  /** The plan does not depend on the order in which the ledger is read. */
  lemma {:induction false} PlanIgnoresLedgerOrder(role: string, confirmed: nat, a: seq<LedgerRow>, b: seq<LedgerRow>, now: nat)
    requires Keyed(a) && Keyed(b) && forall x :: x in a <==> x in b
    ensures Plan(role, confirmed, a, now) == Plan(role, confirmed, b, now)
  {
    StuckRows(a, role);
    StuckRows(b, role);
    AscendingIsUnique(Stuck(a, role), Stuck(b, role));
  }

  // ── What the plan contains ───────────────────────────────────────────────

  /** The nonces of the role that still wait in front of `nonce`. */
  function Ahead(ledger: seq<LedgerRow>, role: string, confirmed: nat, nonce: nat): set<nat> {
    set row | row in ledger && row.role == role && confirmed <= row.nonce < nonce :: row.nonce
  }

  function AheadIn(rows: seq<LedgerRow>, confirmed: nat, nonce: nat): set<nat> {
    set row | row in rows && confirmed <= row.nonce < nonce :: row.nonce
  }

  function Capped(n: nat): nat { if n < MAX_UNSTICK_PER_CYCLE then n else MAX_UNSTICK_PER_CYCLE }

  lemma {:induction false} AheadGrows(rows: seq<LedgerRow>, confirmed: nat, i: nat, bound: nat)
    requires Ascending(rows) && i < |rows| && rows[i].nonce < bound
    ensures AheadIn(rows[..i], confirmed, rows[i].nonce) == AheadIn(rows, confirmed, rows[i].nonce)
    ensures AheadIn(rows[..i + 1], confirmed, bound) ==
            AheadIn(rows[..i], confirmed, rows[i].nonce) + (if confirmed <= rows[i].nonce then {rows[i].nonce} else {})
  {
    forall row | row in rows && row.nonce < rows[i].nonce ensures row in rows[..i] {
      var k :| 0 <= k < |rows| && rows[k] == row;
      assert k < i;
      assert rows[..i][k] == row;
    }
    forall row | row in rows[..i] ensures row in rows && row.nonce < rows[i].nonce {
      var k :| 0 <= k < i && rows[..i][k] == row;
      assert rows[k] == row;
    }
    assert rows[..i + 1] == rows[..i] + [rows[i]];
    if confirmed <= rows[i].nonce { assert rows[i] in rows[..i + 1]; }
  }

  lemma {:induction false} NextRank(rows: seq<LedgerRow>, confirmed: nat, i: nat)
    requires Ascending(rows) && 0 < i < |rows|
    ensures |AheadIn(rows, confirmed, rows[i].nonce)| ==
            |AheadIn(rows, confirmed, rows[i - 1].nonce)| + (if confirmed <= rows[i - 1].nonce then 1 else 0)
  {
    AheadGrows(rows, confirmed, i, rows[i].nonce + 1);
    AheadGrows(rows, confirmed, i - 1, rows[i].nonce);
    AddsOne(AheadIn(rows, confirmed, rows[i - 1].nonce), rows[i - 1].nonce);
  }

  lemma {:induction false} AddsOne(s: set<nat>, x: nat)
    ensures |s + {x}| == |s| + if x in s then 0 else 1
  {
    if x in s { assert s + {x} == s; }
  }

  /** The budget spent after i rows: one for each waiting nonce so far, five at most. */
  lemma {:induction false} BudgetIsTheRank(rows: seq<LedgerRow>, confirmed: nat, now: nat, i: nat)
    requires Ascending(rows) && i < |rows|
    ensures Sweep(rows[..i], confirmed, now).1 == Capped(|AheadIn(rows, confirmed, rows[i].nonce)|)
  {
    if i == 0 {
      AheadGrows(rows, confirmed, 0, rows[0].nonce + 1);
      assert AheadIn(rows[..0], confirmed, rows[0].nonce) == {};
    } else {
      BudgetIsTheRank(rows, confirmed, now, i - 1);
      SweepNext(rows, confirmed, now, i - 1);
      NextRank(rows, confirmed, i);
    }
  }

  /** What the plan holds about one row. */
  function Share(row: LedgerRow, rank: nat, confirmed: nat, now: nat): seq<Action> {
    Steps(row, confirmed, now, Capped(rank))
  }

  function Shares(rows: seq<LedgerRow>, all: seq<LedgerRow>, confirmed: nat, now: nat): seq<Action> {
    if rows == [] then []
    else
      var row := rows[|rows| - 1];
      Shares(rows[..|rows| - 1], all, confirmed, now) + Share(row, |AheadIn(all, confirmed, row.nonce)|, confirmed, now)
  }

  lemma {:induction false} SweepIsShares(rows: seq<LedgerRow>, confirmed: nat, now: nat, i: nat)
    requires Ascending(rows) && i <= |rows|
    ensures Sweep(rows[..i], confirmed, now).0 == Shares(rows[..i], rows, confirmed, now)
  {
    if i > 0 {
      SweepIsShares(rows, confirmed, now, i - 1);
      BudgetIsTheRank(rows, confirmed, now, i - 1);
      assert rows[..i][..i - 1] == rows[..i - 1];
    }
  }

  lemma {:induction false} SharesHold(rows: seq<LedgerRow>, all: seq<LedgerRow>, confirmed: nat, now: nat, action: Action)
    ensures action in Shares(rows, all, confirmed, now) <==>
            exists row :: row in rows && action in Share(row, |AheadIn(all, confirmed, row.nonce)|, confirmed, now)
  {
    if rows != [] {
      var front, last := rows[..|rows| - 1], rows[|rows| - 1];
      SharesHold(front, all, confirmed, now, action);
      assert rows == front + [last];
    }
  }

  /** An action is planned exactly when some row of the ledger calls for it: a consumed row is
      dropped, an overdue one reported, and a waiting one replaced when fewer than five of the
      role's waiting nonces are smaller. */
  predicate CalledFor(action: Action, row: LedgerRow, role: string, confirmed: nat, ledger: seq<LedgerRow>, now: nat) {
    row.role == role &&
    match action
    case DropConsumedRow(nonce) => nonce == row.nonce && row.nonce < confirmed
    case Escalate(nonce, attempts, age) =>
      && confirmed <= row.nonce && nonce == row.nonce && attempts == row.attempts
      && age == (if now >= row.sentAt then now - row.sentAt else 0) && (row.attempts >= 5 || now >= row.sentAt + 600_000)
    case Replace(nonce, attemptsAfter, previous) =>
      && confirmed <= row.nonce && nonce == row.nonce && previous == row.fees && attemptsAfter == (row.attempts + 1) % 0x1_0000_0000
      && |Ahead(ledger, role, confirmed, row.nonce)| < 5
  }

  lemma {:induction false} ShareIsWhatTheRowCallsFor(role: string, confirmed: nat, ledger: seq<LedgerRow>, now: nat, row: LedgerRow, action: Action)
    requires row.role == role
    ensures action in Share(row, |Ahead(ledger, role, confirmed, row.nonce)|, confirmed, now) <==>
            CalledFor(action, row, role, confirmed, ledger, now)
  {}

  lemma {:induction false} PlanIsShares(role: string, confirmed: nat, ledger: seq<LedgerRow>, now: nat, action: Action)
    requires Keyed(ledger)
    ensures action in Plan(role, confirmed, ledger, now) <==>
            exists row :: row in ledger && row.role == role
                          && action in Share(row, |Ahead(ledger, role, confirmed, row.nonce)|, confirmed, now)
  {
    var rows := Stuck(ledger, role);
    StuckRows(ledger, role);
    SweepIsShares(rows, confirmed, now, |rows|);
    assert rows[..|rows|] == rows;
    SharesHold(rows, rows, confirmed, now, action);
    forall row | row in rows
      ensures AheadIn(rows, confirmed, row.nonce) == Ahead(ledger, role, confirmed, row.nonce)
    {}
  }

  lemma {:induction false} PlanIsExactlyWhatIsCalledFor(role: string, confirmed: nat, ledger: seq<LedgerRow>, now: nat, action: Action)
    requires Keyed(ledger)
    ensures action in Plan(role, confirmed, ledger, now) <==>
            exists row :: row in ledger && CalledFor(action, row, role, confirmed, ledger, now)
  {
    PlanIsShares(role, confirmed, ledger, now, action);
    forall row | row in ledger && row.role == role
      ensures action in Share(row, |Ahead(ledger, role, confirmed, row.nonce)|, confirmed, now) <==>
              CalledFor(action, row, role, confirmed, ledger, now)
    {
      ShareIsWhatTheRowCallsFor(role, confirmed, ledger, now, row, action);
    }
  }

  // ── Order of the plan ────────────────────────────────────────────────────

  predicate NoncesAscend(actions: seq<Action>) {
    forall i, j | 0 <= i < j < |actions| ::
      || actions[i].nonce < actions[j].nonce
      || (actions[i].nonce == actions[j].nonce && actions[i].Escalate? && actions[j].Replace?)
  }

  /** The plan clears the jam front to back, and reports a nonce before replacing it. */
  lemma {:induction false} PlanAscends(role: string, confirmed: nat, ledger: seq<LedgerRow>, now: nat)
    requires Keyed(ledger)
    ensures NoncesAscend(Plan(role, confirmed, ledger, now))
  {
    StuckRows(ledger, role);
    SweepAscends(Stuck(ledger, role), confirmed, now);
  }

  lemma {:induction false} SweepAscends(rows: seq<LedgerRow>, confirmed: nat, now: nat)
    requires Ascending(rows)
    ensures NoncesAscend(Sweep(rows, confirmed, now).0)
    ensures rows != [] ==> forall a | a in Sweep(rows, confirmed, now).0 :: a.nonce <= rows[|rows| - 1].nonce
    ensures rows == [] ==> Sweep(rows, confirmed, now).0 == []
  {
    if rows != [] {
      var front, last := rows[..|rows| - 1], rows[|rows| - 1];
      SweepAscends(front, confirmed, now);
      var before := Sweep(front, confirmed, now);
      var steps := Steps(last, confirmed, now, before.1);
      if front != [] { assert front[|front| - 1].nonce < last.nonce; }
      assert forall a | a in before.0 :: a.nonce < last.nonce;
      StepsAscend(last, confirmed, now, before.1);
      Appended(before.0, steps, last.nonce);
    }
  }

  lemma {:induction false} StepsAscend(row: LedgerRow, confirmed: nat, now: nat, replaced: nat)
    ensures NoncesAscend(Steps(row, confirmed, now, replaced))
    ensures forall a | a in Steps(row, confirmed, now, replaced) :: a.nonce == row.nonce
  {}

  lemma {:induction false} Appended(a: seq<Action>, b: seq<Action>, nonce: nat)
    requires NoncesAscend(a) && NoncesAscend(b)
    requires forall x | x in a :: x.nonce < nonce
    requires forall x | x in b :: x.nonce == nonce
    ensures NoncesAscend(a + b)
  {
    forall i, j | 0 <= i < j < |a + b|
      ensures (a + b)[i].nonce < (a + b)[j].nonce ||
              ((a + b)[i].nonce == (a + b)[j].nonce && (a + b)[i].Escalate? && (a + b)[j].Replace?)
    {
      if i < |a| { assert a[i] in a; }
      if j >= |a| { assert b[j - |a|] in b; }
    }
  }
}
