/**
 * One read over the RPC roster: up to three picks, each reported before the next
 * (p256-index-server/src/chain.rs:956-1008, p256-index-cf/src/chain.rs:729-773,
 * p256-registrar/src/roster.rs:110-113).
 */
module ReadCalls {
  import opened Arithmetic
  import opened Basics
  import opened Rosters

  const MAX_READ_ATTEMPTS: nat := 3

  function Attempts(len: nat): nat { if len < MAX_READ_ATTEMPTS then len else MAX_READ_ATTEMPTS }

  /** A node answers, reverts, or does neither. */
  datatype Response = Answers | Reverts | Fails

  datatype Outcome = Answered | Reverted | Unavailable

  /** One attempt: when the node is picked, what it says, and when that is known. */
  datatype Trial = Trial(at: nat, response: Response, known: nat)

  function ReadyAt(clock: nat, trials: seq<Trial>, i: nat): nat
    requires i <= |trials|
  {
    if i == 0 then clock else trials[i - 1].known
  }

  predicate Sequential(clock: nat, trials: seq<Trial>) {
    forall i | 0 <= i < |trials| :: ReadyAt(clock, trials, i) <= trials[i].at <= trials[i].known
  }

  function Knowns(trials: seq<Trial>): seq<nat> { seq(|trials|, i requires 0 <= i < |trials| => trials[i].known) }

  // ── What is picked ───────────────────────────────────────────────────────

  /** The cursor after n picks, given what is eligible at each. */
  function CursorOf(nodes: seq<string>, cursor: nat, word: nat, sets: seq<set<string>>, n: nat): nat
    requires word > 0 && nodes != [] && n <= |sets|
  {
    if n == 0 then cursor else NextCursor(nodes, CursorOf(nodes, cursor, word, sets, n - 1), word, sets[n - 1])
  }

  function PicksOf(nodes: seq<string>, cursor: nat, word: nat, sets: seq<set<string>>, n: nat): (r: seq<string>)
    requires word > 0 && nodes != [] && n <= |sets|
    ensures |r| == n
  {
    if n == 0 then []
    else PicksOf(nodes, cursor, word, sets, n - 1)
         + [Picked(nodes, CursorOf(nodes, cursor, word, sets, n - 1), word, sets[n - 1])]
  }

  /** What is eligible when attempt i picks: the earlier picks have been reported failed. */
  function EligibleAt(log: seq<Report>, nodes: seq<string>, picks: seq<string>, trials: seq<Trial>, i: nat): set<string>
    requires i <= |picks| && i < |trials|
  {
    EligibleNodes(AllFailed(log, picks, Knowns(trials), i), nodes, trials[i].at)
  }

  lemma {:induction false} AllFailedPrefix(log: seq<Report>, picks: seq<string>, more: seq<string>, times: seq<nat>, n: nat)
    requires n <= |picks| && n <= |times|
    ensures AllFailed(log, picks + more, times, n) == AllFailed(log, picks, times, n)
  {
    if n > 0 { AllFailedPrefix(log, picks, more, times, n - 1); }
  }

  /** The picks do not depend on what is eligible later. */
  lemma {:induction false} PicksPrefix(nodes: seq<string>, cursor: nat, word: nat, sets: seq<set<string>>, more: seq<set<string>>, n: nat)
    requires word > 0 && nodes != [] && n <= |sets|
    ensures PicksOf(nodes, cursor, word, sets + more, n) == PicksOf(nodes, cursor, word, sets, n)
    ensures CursorOf(nodes, cursor, word, sets + more, n) == CursorOf(nodes, cursor, word, sets, n)
  {
    if n > 0 { PicksPrefix(nodes, cursor, word, sets, more, n - 1); }
  }

  // ── The call ─────────────────────────────────────────────────────────────

  /** The call so far: which nodes were picked, under which eligible sets. */
  ghost predicate Tried(log: seq<Report>, nodes: seq<string>, cursor: nat, word: nat, trials: seq<Trial>,
                        picks: seq<string>, sets: seq<set<string>>)
  {
    && word > 0 && nodes != [] && |picks| == |sets| <= |trials|
    && picks == PicksOf(nodes, cursor, word, sets, |sets|)
    && forall i | 0 <= i < |sets| :: sets[i] == EligibleAt(log, nodes, picks, trials, i)
  }

  lemma {:induction false} TriedNext(log: seq<Report>, nodes: seq<string>, cursor: nat, word: nat, trials: seq<Trial>,
                                     picks: seq<string>, sets: seq<set<string>>, pick: string, eligible: set<string>)
    requires Tried(log, nodes, cursor, word, trials, picks, sets) && |picks| < |trials|
    requires eligible == EligibleAt(log, nodes, picks, trials, |picks|)
    requires pick == Picked(nodes, CursorOf(nodes, cursor, word, sets, |sets|), word, eligible)
    ensures Tried(log, nodes, cursor, word, trials, picks + [pick], sets + [eligible])
    ensures CursorOf(nodes, cursor, word, sets + [eligible], |sets| + 1)
            == NextCursor(nodes, CursorOf(nodes, cursor, word, sets, |sets|), word, eligible)
  {
    PicksPrefix(nodes, cursor, word, sets, [eligible], |sets|);
    forall i | 0 <= i <= |sets| ensures (sets + [eligible])[i] == EligibleAt(log, nodes, picks + [pick], trials, i) {
      AllFailedPrefix(log, picks, [pick], Knowns(trials), i);
    }
  }

  /** One attempt. */
  method Attempt(roster: Roster, trial: Trial) returns (url: string)
    requires roster.Valid() && roster.clock <= trial.at <= trial.known && roster.readNodes != []
    modifies roster
    ensures roster.Valid() && roster.clock <= trial.known
    ensures var eligible := EligibleNodes(old(roster.log), roster.readNodes, trial.at);
            && url == Picked(roster.readNodes, old(roster.readCursor), roster.word, eligible)
            && roster.readCursor == NextCursor(roster.readNodes, old(roster.readCursor), roster.word, eligible)
    ensures roster.log == old(roster.log) + (match trial.response
                                             case Answers => [Healthy(url)]
                                             case Reverts => []
                                             case Fails => [Failed(url, trial.known)])
  {
    var pick := roster.Select(Read, trial.at);
    url := pick.value;
    match trial.response
    case Answers => roster.MarkHealthy(url);
    case Reverts =>
    case Fails => roster.MarkFailed(url, trial.known);
  }

  /** A read: at most min(len, 3) attempts, ended by the first node that answers or reverts. */
  method Call(roster: Roster, trials: seq<Trial>) returns (outcome: Outcome, picks: seq<string>, ghost sets: seq<set<string>>)
    requires roster.Valid() && Sequential(roster.clock, trials) && |trials| == Attempts(|roster.readNodes|)
    modifies roster
    ensures roster.Valid() && |picks| <= |trials| && |sets| == |picks|
    ensures forall i | 0 <= i < |picks| - 1 :: trials[i].response.Fails?
    ensures outcome.Unavailable? <==> |picks| == |trials| && forall i | 0 <= i < |trials| :: trials[i].response.Fails?
    ensures !outcome.Unavailable? ==> picks != [] && trials[|picks| - 1].response == (if outcome.Answered? then Answers else Reverts)
    ensures roster.readNodes != [] ==>
              Tried(old(roster.log), roster.readNodes, old(roster.readCursor), roster.word, trials, picks, sets)
  {
    picks, sets := [], [];
    ghost var nodes, log, cursor, clock := roster.readNodes, roster.log, roster.readCursor, roster.clock;
    for i := 0 to |trials|
      invariant roster.Valid() && |picks| == |sets| == i && nodes == roster.readNodes
      invariant roster.clock <= ReadyAt(clock, trials, i)
      invariant forall k | 0 <= k < i :: trials[k].response.Fails?
      invariant nodes != [] ==>
                  && Tried(log, nodes, cursor, roster.word, trials, picks, sets)
                  && roster.log == AllFailed(log, picks, Knowns(trials), i)
                  && roster.readCursor == CursorOf(nodes, cursor, roster.word, sets, i)
    {
      ghost var eligible := EligibleNodes(roster.log, nodes, trials[i].at);
      var url := Attempt(roster, trials[i]);
      TriedNext(log, nodes, cursor, roster.word, trials, picks, sets, url, eligible);
      AllFailedPrefix(log, picks, [url], Knowns(trials), i);
      picks, sets := picks + [url], sets + [eligible];
      match trials[i].response
      case Answers => return Answered, picks, sets;
      case Reverts => return Reverted, picks, sets;
      case Fails =>
    }
    outcome := Unavailable;
  }

  // ── How many nodes a call tries ──────────────────────────────────────────

  /** A call that is over within a minute of its first failure. */
  predicate Short(trials: seq<Trial>) {
    forall i, j | 0 <= i < j < |trials| :: trials[i].known <= trials[j].at < trials[i].known + RPC_COOLDOWN_MS
  }

  /** No node is eligible again for the same call. */
  predicate NotAgain(picks: seq<string>, sets: seq<set<string>>) {
    forall i, j | 0 <= i < j < |sets| && i < |picks| :: picks[i] !in sets[j]
  }

  lemma {:induction false} FailedIsNotEligible(log: seq<Report>, nodes: seq<string>, picks: seq<string>, trials: seq<Trial>, i: nat, j: nat)
    requires i < j < |trials| && j <= |picks| && Short(trials)
    ensures picks[i] !in EligibleAt(log, nodes, picks, trials, j)
  {
    RecentFailureCools(log, picks, Knowns(trials), j, i, trials[j].at);
  }

  lemma {:induction false} ShortCallsTryNotAgain(log: seq<Report>, nodes: seq<string>, cursor: nat, word: nat, trials: seq<Trial>,
                                                 picks: seq<string>, sets: seq<set<string>>)
    requires Tried(log, nodes, cursor, word, trials, picks, sets) && Short(trials)
    ensures NotAgain(picks, sets)
    ensures forall i | 0 <= i < |sets| :: sets[i] <= (set url | url in nodes)
  {
    forall i, j | 0 <= i < j < |sets| ensures picks[i] !in sets[j] { FailedIsNotEligible(log, nodes, picks, trials, i, j); }
  }

  /** The unreduced position of a pick. */
  function Position(nodes: seq<string>, cursor: nat, word: nat, eligible: set<string>): nat
    requires word > 0 && nodes != []
  {
    cursor + Skipped(nodes, cursor, word, eligible, 0)
  }

  /** Away from the wrap-around a pick is the node at its position, and the cursor stands behind it. */
  lemma {:induction false} PickAt(nodes: seq<string>, cursor: nat, word: nat, eligible: set<string>)
    requires nodes != [] && cursor + |nodes| + 1 < word
    ensures var a := Position(nodes, cursor, word, eligible);
            && cursor <= a <= cursor + |nodes| && Picked(nodes, cursor, word, eligible) == nodes[a % |nodes|]
            && NextCursor(nodes, cursor, word, eligible) == a + 1
            && (a < cursor + |nodes| ==> nodes[a % |nodes|] in eligible)
            && forall x | cursor <= x < a :: nodes[x % |nodes|] !in eligible
  {
    SkippedIsFirst(nodes, cursor, word, eligible, 0);
    var a := Position(nodes, cursor, word, eligible);
    ModSmall(a, word);
    ModSmall(a + 1, word);
    forall x | cursor <= x < a ensures nodes[x % |nodes|] !in eligible {
      ModSmall(x, word);
      assert nodes[Probe(cursor, x - cursor, word, |nodes|)] !in eligible;
    }
  }

  /** With an eligible node in the lane the pick is eligible. */
  lemma {:induction false} FoundInTime(nodes: seq<string>, cursor: nat, word: nat, eligible: set<string>)
    requires nodes != [] && cursor + |nodes| + 1 < word && eligible <= (set url | url in nodes)
    ensures Position(nodes, cursor, word, eligible) == cursor + |nodes| <==> eligible == {}
    ensures eligible != {} ==> Picked(nodes, cursor, word, eligible) in eligible
  {
    PickAt(nodes, cursor, word, eligible);
    if eligible != {} {
      var url :| url in eligible;
      var x :| 0 <= x < |nodes| && nodes[x] == url;
      var i := EveryRemainder(cursor, x, |nodes|);
      assert nodes[(cursor + i) % |nodes|] in eligible;
    }
  }

  /** Positions less than a round apart are different nodes. */
  lemma {:induction false} ApartIsDifferent(a: nat, b: nat, len: nat)
    requires a < b < a + len
    ensures a % len != b % len
  {
    RotatedAt(a, b - a, len);
  }

  /** The node before a position. */
  function Pred(nodes: seq<string>, a: nat): string
    requires nodes != []
  {
    nodes[(a + |nodes| - 1) % |nodes|]
  }

  /** Behind a pick that is not eligible again, the next one is another node; it is the one before
      exactly when that one alone is eligible. */
  lemma {:induction false} NextPick(nodes: seq<string>, a: nat, word: nat, eligible: set<string>)
    requires Distinct(nodes) && |nodes| >= 2 && a + |nodes| + 2 < word
    requires eligible <= (set url | url in nodes) && nodes[a % |nodes|] !in eligible
    ensures var b := Position(nodes, a + 1, word, eligible);
            && nodes[b % |nodes|] != nodes[a % |nodes|] && a < b <= a + |nodes| + 1
            && (eligible == {} <==> b == a + |nodes| + 1)
            && (b == a + |nodes| - 1 <==> eligible == {Pred(nodes, a)})
  {
    var len, b := |nodes|, Position(nodes, a + 1, word, eligible);
    PickAt(nodes, a + 1, word, eligible);
    FoundInTime(nodes, a + 1, word, eligible);
    ModStep(a, len);
    ModStep(a + 1, len);
    if b == a + len + 1 {
      ApartIsDifferent(a, a + 1, len);
    } else {
      assert b != a + len;
      ApartIsDifferent(a, b, len);
    }
    OnlyThePred(nodes, a, word, eligible);
  }

  lemma {:induction false} OnlyThePred(nodes: seq<string>, a: nat, word: nat, eligible: set<string>)
    requires Distinct(nodes) && |nodes| >= 2 && a + |nodes| + 2 < word
    requires eligible <= (set url | url in nodes) && nodes[a % |nodes|] !in eligible
    ensures Position(nodes, a + 1, word, eligible) == a + |nodes| - 1 <==> eligible == {Pred(nodes, a)}
  {
    var len, b := |nodes|, Position(nodes, a + 1, word, eligible);
    PickAt(nodes, a + 1, word, eligible);
    FoundInTime(nodes, a + 1, word, eligible);
    if b == a + len - 1 {
      forall url | url in eligible ensures url == Pred(nodes, a) {
        var x :| 0 <= x < len && nodes[x] == url;
        var i := EveryRemainder(a + 1, x, len);
        ModStep(a, len);
        assert i != len - 1;
      }
      assert eligible == {Pred(nodes, a)};
    }
    if eligible == {Pred(nodes, a)} && b != a + len - 1 {
      ModStep(a, len);
      if b < a + len - 1 { ApartIsDifferent(b, a + len - 1, len); }
    }
  }

  /** The first three positions of a call. */
  lemma {:induction false} Positions(nodes: seq<string>, cursor: nat, word: nat, sets: seq<set<string>>)
    requires |nodes| >= 3 && |sets| == 3 && cursor + 3 * (|nodes| + 1) + 1 < word
    ensures var a := Position(nodes, cursor, word, sets[0]);
            var b := Position(nodes, a + 1, word, sets[1]);
            var c := Position(nodes, b + 1, word, sets[2]);
            && cursor <= a <= cursor + |nodes| && a < b <= a + |nodes| + 1
            && PicksOf(nodes, cursor, word, sets, 3) == [nodes[a % |nodes|], nodes[b % |nodes|], nodes[c % |nodes|]]
  {
    PickAt(nodes, cursor, word, sets[0]);
    var a := Position(nodes, cursor, word, sets[0]);
    PickAt(nodes, a + 1, word, sets[1]);
    var b := Position(nodes, a + 1, word, sets[1]);
    PickAt(nodes, b + 1, word, sets[2]);
    var c := Position(nodes, b + 1, word, sets[2]);
    assert CursorOf(nodes, cursor, word, sets, 1) == a + 1;
    assert CursorOf(nodes, cursor, word, sets, 2) == b + 1;
    assert PicksOf(nodes, cursor, word, sets, 1) == [nodes[a % |nodes|]];
    assert PicksOf(nodes, cursor, word, sets, 2) == [nodes[a % |nodes|], nodes[b % |nodes|]];
  }

  /** The third attempt goes back to the first node: after the first failure only the node before it
      is eligible, and after the second none. */
  predicate TurnsBack(nodes: seq<string>, cursor: nat, word: nat, sets: seq<set<string>>)
    requires word > 0
  {
    && |nodes| >= 3 && |sets| >= 3 && sets[2] == {}
    && sets[1] == {Pred(nodes, Position(nodes, cursor, word, sets[0]))}
  }

  /** The third pick behind two different ones. */
  lemma {:induction false} ThirdPick(nodes: seq<string>, a: nat, b: nat, word: nat, eligible: set<string>)
    requires Distinct(nodes) && |nodes| >= 3 && a < b <= a + |nodes| + 1 && b != a + |nodes| && b + |nodes| + 2 < word
    requires eligible <= (set url | url in nodes) && nodes[a % |nodes|] !in eligible && nodes[b % |nodes|] !in eligible
    ensures var c := Position(nodes, b + 1, word, eligible);
            && nodes[c % |nodes|] != nodes[b % |nodes|]
            && (nodes[c % |nodes|] == nodes[a % |nodes|] <==> eligible == {} && b == a + |nodes| - 1)
  {
    var len, c := |nodes|, Position(nodes, b + 1, word, eligible);
    NextPick(nodes, b, word, eligible);
    PickAt(nodes, b + 1, word, eligible);
    if eligible == {} {
      ModStep(b + 1, len);
      ModStep(a, len);
      if b == a + len + 1 {
        ModStep(a + 2, len);
        ApartIsDifferent(a, a + 2, len);
      } else if b < a + len - 1 {
        ApartIsDifferent(a, b + 1, len);
      }
    } else {
      FoundInTime(nodes, b + 1, word, eligible);
    }
  }

  lemma {:induction false} ThreePositions(nodes: seq<string>, a: nat, word: nat, second: set<string>, third: set<string>)
    requires Distinct(nodes) && |nodes| >= 3 && a + 2 * (|nodes| + 1) + 1 < word
    requires second <= (set url | url in nodes) && third <= (set url | url in nodes)
    requires nodes[a % |nodes|] !in second && nodes[a % |nodes|] !in third
    requires nodes[Position(nodes, a + 1, word, second) % |nodes|] !in third
    ensures var b := Position(nodes, a + 1, word, second);
            var c := Position(nodes, b + 1, word, third);
            && nodes[b % |nodes|] != nodes[a % |nodes|] && nodes[c % |nodes|] != nodes[b % |nodes|]
            && (nodes[c % |nodes|] == nodes[a % |nodes|] <==> third == {} && second == {Pred(nodes, a)})
  {
    NextPick(nodes, a, word, second);
    ModStep(a, |nodes|);
    ThirdPick(nodes, a, Position(nodes, a + 1, word, second), word, third);
  }

  lemma {:induction false} DistinctThree(p: string, q: string, r: string)
    ensures Distinct([p, q, r]) <==> p != q && p != r && q != r
  {
    var s := [p, q, r];
    assert s[0] == p && s[1] == q && s[2] == r;
  }

  lemma {:induction false} ThreeAttempts(nodes: seq<string>, cursor: nat, word: nat, sets: seq<set<string>>)
    requires Distinct(nodes) && |nodes| >= 3 && |sets| == 3 && cursor + 3 * (|nodes| + 1) + 1 < word
    requires forall i | 0 <= i < 3 :: sets[i] <= (set url | url in nodes)
    requires NotAgain(PicksOf(nodes, cursor, word, sets, 3), sets)
    ensures Distinct(PicksOf(nodes, cursor, word, sets, 3)) <==> !TurnsBack(nodes, cursor, word, sets)
  {
    var len, a := |nodes|, Position(nodes, cursor, word, sets[0]);
    var b := Position(nodes, a + 1, word, sets[1]);
    var c := Position(nodes, b + 1, word, sets[2]);
    var picks := PicksOf(nodes, cursor, word, sets, 3);
    Positions(nodes, cursor, word, sets);
    assert picks[0] !in sets[1] && picks[0] !in sets[2] && picks[1] !in sets[2];
    ThreePositions(nodes, a, word, sets[1], sets[2]);
    DistinctThree(nodes[a % len], nodes[b % len], nodes[c % len]);
  }

  lemma {:induction false} TwoAttempts(nodes: seq<string>, cursor: nat, word: nat, sets: seq<set<string>>)
    requires Distinct(nodes) && |nodes| == 2 && |sets| == 2 && cursor + 7 < word
    requires forall i | 0 <= i < 2 :: sets[i] <= (set url | url in nodes)
    requires NotAgain(PicksOf(nodes, cursor, word, sets, 2), sets)
    ensures Distinct(PicksOf(nodes, cursor, word, sets, 2))
  {
    PickAt(nodes, cursor, word, sets[0]);
    var a := Position(nodes, cursor, word, sets[0]);
    assert CursorOf(nodes, cursor, word, sets, 1) == a + 1 && PicksOf(nodes, cursor, word, sets, 1) == [nodes[a % 2]];
    assert PicksOf(nodes, cursor, word, sets, 2)[0] !in sets[1];
    PickAt(nodes, a + 1, word, sets[1]);
    NextPick(nodes, a, word, sets[1]);
  }

  /** A call that finds no answer has tried min(len, 3) different nodes, each eligible whenever any
      node was, exactly unless it turned back: then it tried the first one twice. */
  lemma {:induction false} DifferentNodesExactly(log: seq<Report>, nodes: seq<string>, cursor: nat, word: nat, trials: seq<Trial>,
                                                 picks: seq<string>, sets: seq<set<string>>)
    requires Tried(log, nodes, cursor, word, trials, picks, sets) && Short(trials) && |picks| == Attempts(|nodes|)
    requires Distinct(nodes) && cursor + 3 * (|nodes| + 1) + 1 < word
    ensures Distinct(picks) <==> !TurnsBack(nodes, cursor, word, sets)
    ensures forall i | 0 <= i < |picks| :: sets[i] != {} ==> picks[i] in sets[i]
  {
    ShortCallsTryNotAgain(log, nodes, cursor, word, trials, picks, sets);
    if |nodes| >= 3 {
      ThreeAttempts(nodes, cursor, word, sets);
    } else if |nodes| == 2 {
      TwoAttempts(nodes, cursor, word, sets);
    }
    forall i | 0 <= i < |picks| && sets[i] != {} ensures picks[i] in sets[i] { EligibleFirst(nodes, cursor, word, sets, i); }
  }

  lemma {:induction false} CursorStaysClose(nodes: seq<string>, cursor: nat, word: nat, sets: seq<set<string>>, n: nat)
    requires nodes != [] && n <= |sets| && cursor + n * (|nodes| + 1) + 1 < word
    ensures cursor <= CursorOf(nodes, cursor, word, sets, n) <= cursor + n * (|nodes| + 1)
  {
    if n > 0 {
      assert n * (|nodes| + 1) == (n - 1) * (|nodes| + 1) + (|nodes| + 1);
      CursorStaysClose(nodes, cursor, word, sets, n - 1);
      PickAt(nodes, CursorOf(nodes, cursor, word, sets, n - 1), word, sets[n - 1]);
    }
  }

  lemma {:induction false} EligibleFirst(nodes: seq<string>, cursor: nat, word: nat, sets: seq<set<string>>, i: nat)
    requires nodes != [] && i < |sets| <= 3 && cursor + 3 * (|nodes| + 1) + 1 < word
    requires sets[i] <= (set url | url in nodes) && sets[i] != {}
    ensures PicksOf(nodes, cursor, word, sets, |sets|)[i] in sets[i]
  {
    PicksOfAt(nodes, cursor, word, sets, |sets|, i);
    CursorStaysClose(nodes, cursor, word, sets, i);
    FoundInTime(nodes, CursorOf(nodes, cursor, word, sets, i), word, sets[i]);
  }

  lemma {:induction false} PicksOfAt(nodes: seq<string>, cursor: nat, word: nat, sets: seq<set<string>>, n: nat, i: nat)
    requires word > 0 && nodes != [] && i < n <= |sets|
    ensures PicksOf(nodes, cursor, word, sets, n)[i] == Picked(nodes, CursorOf(nodes, cursor, word, sets, i), word, sets[i])
  {
    if i < n - 1 { PicksOfAt(nodes, cursor, word, sets, n - 1, i); }
  }

  /** Nobody becomes eligible while the call lasts. */
  predicate Steady(eligible: set<string>, picks: seq<string>, sets: seq<set<string>>) {
    |sets| == |picks| == 3 && sets[0] == eligible && sets[1] == eligible - {picks[0]} && sets[2] == eligible - {picks[0], picks[1]}
  }

  /** Then it turns back exactly when two nodes are eligible, the one under the cursor and the one
      before it. */
  lemma {:induction false} SteadyTurnsBackExactly(nodes: seq<string>, cursor: nat, word: nat, eligible: set<string>, sets: seq<set<string>>)
    requires Distinct(nodes) && |nodes| >= 3 && cursor + 3 * (|nodes| + 1) + 1 < word && eligible <= (set url | url in nodes)
    requires |sets| == 3 && Steady(eligible, PicksOf(nodes, cursor, word, sets, 3), sets)
    ensures TurnsBack(nodes, cursor, word, sets) <==> eligible == {nodes[cursor % |nodes|], Pred(nodes, cursor)}
  {
    var len, a := |nodes|, Position(nodes, cursor, word, sets[0]);
    Positions(nodes, cursor, word, sets);
    PickAt(nodes, cursor, word, eligible);
    FoundInTime(nodes, cursor, word, eligible);
    if TurnsBack(nodes, cursor, word, sets) { TurnedBackAtOnce(nodes, cursor, word, eligible, sets); }
    if eligible == {nodes[cursor % len], Pred(nodes, cursor)} {
      assert a == cursor;
      ApartIsDifferent(cursor, cursor + len - 1, len);
      assert sets[1] == {Pred(nodes, a)};
      OnlyThePred(nodes, a, word, sets[1]);
    }
  }

  lemma {:induction false} TurnedBackAtOnce(nodes: seq<string>, cursor: nat, word: nat, eligible: set<string>, sets: seq<set<string>>)
    requires Distinct(nodes) && |nodes| >= 3 && cursor + 3 * (|nodes| + 1) + 1 < word && eligible <= (set url | url in nodes)
    requires |sets| == 3 && Steady(eligible, PicksOf(nodes, cursor, word, sets, 3), sets) && TurnsBack(nodes, cursor, word, sets)
    ensures eligible == {nodes[cursor % |nodes|], Pred(nodes, cursor)}
  {
    var len, a := |nodes|, Position(nodes, cursor, word, sets[0]);
    Positions(nodes, cursor, word, sets);
    PickAt(nodes, cursor, word, eligible);
    FoundInTime(nodes, cursor, word, eligible);
    assert Pred(nodes, a) in eligible;
    if a > cursor {
      ModStep(a - 1, len);
    }
    assert eligible == sets[1] + {nodes[a % len]};
  }

  /** Three nodes, the first two eligible, the cursor on the second: the third is not tried. */
  lemma {:induction false} CallCanTurnBack(a: string, b: string, c: string)
    requires a != b && a != c && b != c
    ensures PicksOf([a, b, c], 1, 0x1_0000_0000_0000_0000, [{a, b}, {a}, {}], 3) == [b, a, b]
  {
    var nodes, word, sets: seq<set<string>> := [a, b, c], 0x1_0000_0000_0000_0000, [{a, b}, {a}, {}];
    assert nodes[0] == a && nodes[1] == b && nodes[2] == c;
    Positions(nodes, 1, word, sets);
    PickAt(nodes, 1, word, sets[0]);
    assert Position(nodes, 1, word, sets[0]) == 1;
    AlonePosition(nodes, word, sets[1]);
    FoundInTime(nodes, 4, word, sets[2]);
  }

  lemma {:induction false} AlonePosition(nodes: seq<string>, word: nat, eligible: set<string>)
    requires |nodes| == 3 && word > 100 && nodes[2] !in eligible && nodes[0] in eligible
    ensures Position(nodes, 2, word, eligible) == 3
  {
    PickAt(nodes, 2, word, eligible);
    assert nodes[2 % 3] == nodes[2] && nodes[3 % 3] == nodes[0];
  }
}
