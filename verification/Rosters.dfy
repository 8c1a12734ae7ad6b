/**
 * The RPC node roster: rotation, cooldown and forced fallback
 * (p256-registrar/src/roster.rs:17-124), refined to a log of failures and successes.
 */
module Rosters {
  import opened Arithmetic
  import opened Basics

  const RPC_COOLDOWN_MS: nat := 60_000

  datatype Lane = Read | Write

  /** What callers report about nodes. */
  datatype Report = Failed(url: string, at: nat) | Healthy(url: string)

  /** The specification: a node is eligible unless its last report is a failure still cooling. */
  predicate Eligible(log: seq<Report>, url: string, now: nat) {
    if log == [] then true
    else
      var last := log[|log| - 1];
      if last.url != url then Eligible(log[..|log| - 1], url, now)
      else last.Healthy? || (now >= last.at && now - last.at >= RPC_COOLDOWN_MS)
  }

  // ── Where the rotation looks ─────────────────────────────────────────────

  /** The node inspected i steps after `cursor`, which counts modulo the machine word. */
  function Probe(cursor: nat, i: nat, word: nat, len: nat): nat
    requires word > 0 && len > 0
  {
    (cursor + i) % word % len
  }

  /** How many nodes the scan passes over: the first eligible one ends it. */
  function Skipped(nodes: seq<string>, cursor: nat, word: nat, eligible: set<string>, from: nat): (r: nat)
    requires word > 0 && nodes != [] && from <= |nodes|
    ensures from <= r <= |nodes|
    decreases |nodes| - from
  {
    if from == |nodes| || nodes[Probe(cursor, from, word, |nodes|)] in eligible then from
    else Skipped(nodes, cursor, word, eligible, from + 1)
  }

  function Picked(nodes: seq<string>, cursor: nat, word: nat, eligible: set<string>): string
    requires word > 0 && nodes != []
  {
    nodes[Probe(cursor, Skipped(nodes, cursor, word, eligible, 0), word, |nodes|)]
  }

  lemma {:induction false} SkippedIsFirst(nodes: seq<string>, cursor: nat, word: nat, eligible: set<string>, from: nat)
    requires word > 0 && nodes != [] && from <= |nodes|
    ensures var n := Skipped(nodes, cursor, word, eligible, from);
            && (n < |nodes| ==> nodes[Probe(cursor, n, word, |nodes|)] in eligible)
            && forall i | from <= i < n :: nodes[Probe(cursor, i, word, |nodes|)] !in eligible
    decreases |nodes| - from
  {
    if from < |nodes| && nodes[Probe(cursor, from, word, |nodes|)] !in eligible {
      SkippedIsFirst(nodes, cursor, word, eligible, from + 1);
    }
  }

  // ── Arithmetic of the rotation ───────────────────────────────────────────

  lemma {:induction false} ModAdds(q: nat, y: nat, len: nat)
    requires len > 0
    ensures (q * len + y) % len == y % len
  {
    var p, m := y / len, y % len;
    assert y == p * len + m;
    assert q * len + y == (q + p) * len + m;
    DivMod(q * len + y, q + p, m, len);
  }

  lemma {:induction false} ModStep(x: nat, len: nat)
    requires len > 0
    ensures (x + len) % len == x % len
  {
    ModAdds(1, x, len);
  }

  lemma {:induction false} ModSum(a: nat, b: nat, len: nat)
    requires len > 0
    ensures (a + b) % len == (a % len + b) % len
  {
    assert a == (a / len) * len + a % len;
    ModAdds(a / len, a % len + b, len);
  }

  lemma {:induction false} ModSmall(x: nat, len: nat)
    requires x < len
    ensures x % len == x
  {
    DivMod(x, 0, x, len);
  }

  /** From any start, len consecutive numbers meet every remainder. */
  lemma {:induction false} EveryRemainder(start: nat, x: nat, len: nat) returns (i: nat)
    requires x < len
    ensures i < len && (start + i) % len == x
  {
    var m := start % len;
    i := if x >= m then x - m else x + len - m;
    ModSum(start, i, len);
    assert m + i == x || m + i == x + len;
    ModStep(x, len);
    ModSmall(x, len);
  }

  lemma {:induction false} Unwrapped(cursor: nat, i: nat, word: nat)
    requires cursor < word && i <= word
    ensures (cursor + i) % word == if cursor + i < word then cursor + i else cursor + i - word
  {
    if cursor + i < word {
      ModSmall(cursor + i, word);
    } else {
      DivMod(cursor + i, 1, cursor + i - word, word);
    }
  }

  /** The guard under which one call looks at every node. */
  predicate ReachesAll(cursor: nat, word: nat, len: nat)
    requires len > 0
  {
    cursor + len <= word || cursor == word - 1 || word % len <= 1
  }

  /** Subtracting a word of remainder e takes e off the remainder. */
  lemma {:induction false} WrappedRemainder(rest: nat, word: nat, len: nat)
    requires 0 < len
    ensures (word + rest) % len == (word % len + rest) % len
  {
    ModSum(word, rest, len);
  }

  /** The scan and the forced pick together meet every node. */
  lemma {:induction false} Reached(cursor: nat, word: nat, len: nat, x: nat) returns (i: nat)
    requires cursor < word && x < len <= word && ReachesAll(cursor, word, len)
    ensures i <= len && Probe(cursor, i, word, len) == x
  {
    if cursor + len <= word {
      i := EveryRemainder(cursor, x, len);
      Unwrapped(cursor, i, word);
    } else if cursor == word - 1 {
      i := x + 1;
      Unwrapped(cursor, i, word);
      ModSmall(x, len);
    } else {
      i := ReachedAfterWrap(cursor, word, len, x);
    }
  }

  lemma {:induction false} ReachedAfterWrap(cursor: nat, word: nat, len: nat, x: nat) returns (i: nat)
    requires cursor < word && x < len <= word && word % len <= 1
    ensures i <= len && Probe(cursor, i, word, len) == x
  {
    var e := word % len;
    var k := EveryRemainder(cursor, x, len);
    if cursor + k < word {
      i := k;
      Unwrapped(cursor, i, word);
    } else {
      i := k + e;
      Unwrapped(cursor, i, word);
      WrappedRemainder(cursor + k - word, word, len);
    }
  }

  /** Otherwise the wrap-around hides this node. */
  function Hidden(cursor: nat, word: nat, len: nat): nat
    requires cursor < word && len > 0 && cursor + len > word
  {
    var left := word - cursor;
    if word % len + left > len then word % len else len - left + 1
  }

  /** The remainder of a number just below the word. */
  lemma {:induction false} JustBelow(word: nat, j: nat, len: nat)
    requires 0 < len <= word && j < len
    ensures (word - j) % len == if j <= word % len then word % len - j else len + word % len - j
  {
    var q, r := word / len, word % len;
    assert word == q * len + r;
    if j <= r {
      DivMod(word - j, q, r - j, len);
    } else {
      assert q >= 1;
      assert (q - 1) * len == q * len - len;
      DivMod(word - j, q - 1, len + r - j, len);
    }
  }

  lemma {:induction false} HiddenIsMissed(cursor: nat, word: nat, len: nat, i: nat)
    requires cursor < word && 0 < len <= word && !ReachesAll(cursor, word, len) && i <= len
    ensures Hidden(cursor, word, len) < len && Probe(cursor, i, word, len) != Hidden(cursor, word, len)
  {
    var left := word - cursor;
    Unwrapped(cursor, i, word);
    if cursor + i < word {
      JustBelow(word, left - i, len);
    } else {
      ModSmall(cursor + i - word, len);
    }
  }

  // ── What a pick is worth ─────────────────────────────────────────────────

  /** If the lane has an eligible node, the pick is eligible. */
  lemma {:induction false} PickIsEligible(nodes: seq<string>, cursor: nat, word: nat, eligible: set<string>, x: nat)
    requires cursor < word && 0 < |nodes| <= word && ReachesAll(cursor, word, |nodes|)
    requires x < |nodes| && nodes[x] in eligible
    ensures Picked(nodes, cursor, word, eligible) in eligible
  {
    SkippedIsFirst(nodes, cursor, word, eligible, 0);
    var i := Reached(cursor, word, |nodes|, x);
    assert nodes[Probe(cursor, i, word, |nodes|)] in eligible;
  }

  predicate Distinct(nodes: seq<string>) {
    forall i, j | 0 <= i < j < |nodes| :: nodes[i] != nodes[j]
  }

  /** In a lane of distinct nodes a pick finds an eligible node, whichever that may be, exactly
      under the guard; otherwise there is a node whose being the only eligible one goes unnoticed. */
  lemma {:induction false} PickFindsExactly(nodes: seq<string>, cursor: nat, word: nat)
    requires cursor < word && 0 < |nodes| <= word && Distinct(nodes)
    ensures ReachesAll(cursor, word, |nodes|) <==>
            forall x | 0 <= x < |nodes| :: Picked(nodes, cursor, word, {nodes[x]}) == nodes[x]
  {
    if ReachesAll(cursor, word, |nodes|) {
      forall x | 0 <= x < |nodes| ensures Picked(nodes, cursor, word, {nodes[x]}) == nodes[x] {
        PickIsEligible(nodes, cursor, word, {nodes[x]}, x);
      }
    } else {
      var x := Hidden(cursor, word, |nodes|);
      var n := Skipped(nodes, cursor, word, {nodes[x]}, 0);
      HiddenIsMissed(cursor, word, |nodes|, n);
      var y := Probe(cursor, n, word, |nodes|);
      assert nodes[y] != nodes[x];
    }
  }

  /** The wrap-around can be met: seven nodes and a cursor two short of 2^64. */
  lemma {:induction false} WrapHidesANode()
    ensures !ReachesAll(0xFFFF_FFFF_FFFF_FFFE, 0x1_0000_0000_0000_0000, 7)
  {}

  // ── A total outage ───────────────────────────────────────────────────────

  /** The cursor i turns on. */
  function Turn(start: nat, i: nat, word: nat): nat
    requires word > 0
  {
    (start + i) % word
  }

  lemma {:induction false} TurnStarts(start: nat, word: nat)
    requires start < word
    ensures Turn(start, 0, word) == start
  {
    ModSmall(start, word);
  }

  lemma {:induction false} TurnMoves(start: nat, i: nat, word: nat)
    requires word > 0
    ensures Turn(start, i + 1, word) == (Turn(start, i, word) + 1) % word
  {
    ModSum(start + i, 1, word);
  }

  /** The cursor behind a pick. */
  function NextCursor(nodes: seq<string>, cursor: nat, word: nat, eligible: set<string>): nat
    requires word > 0 && nodes != []
  {
    Turn(cursor, Skipped(nodes, cursor, word, eligible, 0) + 1, word)
  }

  /** The cursor after n picks with nothing eligible. */
  function CursorAfter(nodes: seq<string>, cursor: nat, word: nat, n: nat): nat
    requires word > 0 && nodes != []
  {
    if n == 0 then cursor else NextCursor(nodes, CursorAfter(nodes, cursor, word, n - 1), word, {})
  }

  /** The first n picks with nothing eligible. */
  function ForcedPicks(nodes: seq<string>, cursor: nat, word: nat, n: nat): (r: seq<string>)
    requires word > 0 && nodes != []
    ensures |r| == n
  {
    if n == 0 then []
    else ForcedPicks(nodes, cursor, word, n - 1) + [Picked(nodes, CursorAfter(nodes, cursor, word, n - 1), word, {})]
  }

  lemma {:induction false} ForcedPicksAt(nodes: seq<string>, cursor: nat, word: nat, n: nat, j: nat)
    requires word > 0 && nodes != [] && j < n
    ensures ForcedPicks(nodes, cursor, word, n)[j] == Picked(nodes, CursorAfter(nodes, cursor, word, j), word, {})
  {
    if j < n - 1 { ForcedPicksAt(nodes, cursor, word, n - 1, j); }
  }

  /** As many picks as the lane has nodes, with nothing eligible. */
  function Rounds(nodes: seq<string>, cursor: nat, word: nat): seq<string>
    requires word > 0 && nodes != []
  {
    ForcedPicks(nodes, cursor, word, |nodes|)
  }

  /** A forced pick scans the whole lane and moves the cursor on by len + 1. */
  lemma {:induction false} CursorAdvances(nodes: seq<string>, cursor: nat, word: nat, n: nat)
    requires nodes != [] && cursor < word
    ensures CursorAfter(nodes, cursor, word, n) == (cursor + n * (|nodes| + 1)) % word
  {
    if n == 0 {
      ModSmall(cursor, word);
    } else {
      CursorAdvances(nodes, cursor, word, n - 1);
      var before := cursor + (n - 1) * (|nodes| + 1);
      SkippedIsFirst(nodes, before % word, word, {}, 0);
      assert before + |nodes| + 1 == cursor + n * (|nodes| + 1);
      ModSum(before, |nodes| + 1, word);
    }
  }

  /** The cursor that forced pick j uses, before it is reduced to the word. */
  function Unreduced(cursor: nat, j: nat, len: nat): nat { cursor + j * (len + 1) + len }

  lemma {:induction false} ForcedPick(nodes: seq<string>, cursor: nat, word: nat, j: nat)
    requires j < |nodes| && cursor < word
    ensures Rounds(nodes, cursor, word)[j] == nodes[Unreduced(cursor, j, |nodes|) % word % |nodes|]
  {
    ForcedPicksAt(nodes, cursor, word, |nodes|, j);
    CursorAdvances(nodes, cursor, word, j);
    SkippedIsFirst(nodes, CursorAfter(nodes, cursor, word, j), word, {}, 0);
    ModSum(cursor + j * (|nodes| + 1), |nodes|, word);
  }

  /** The picks of a round lie less than a word apart, so they wrap around at most once. */
  lemma {:induction false} Reduced(cursor: nat, j: nat, word: nat, len: nat)
    requires cursor < word && j < len && len * (len + 1) <= word
    ensures var v := Unreduced(cursor, j, len); v % word == if v < word then v else v - word
  {
    Apart(len, j, len + 1);
    Unwrapped(cursor, j * (len + 1) + len, word);
  }

  /** The nodes from an index on, around the lane. */
  function Rotated(nodes: seq<string>, r: nat): seq<string>
    requires r <= |nodes|
  {
    nodes[r..] + nodes[..r]
  }

  lemma {:induction false} RotatedAt(a: nat, j: nat, len: nat)
    requires j < len
    ensures (a + j) % len == if a % len + j < len then a % len + j else a % len + j - len
  {
    var r := a % len;
    ModSum(a, j, len);
    if r + j < len {
      ModSmall(r + j, len);
    } else {
      DivMod(r + j, 1, r + j - len, len);
    }
  }

  /** A rotation has every node as often as the lane does. */
  lemma {:induction false} RotationIsComplete(nodes: seq<string>, r: nat)
    requires r <= |nodes|
    ensures multiset(Rotated(nodes, r)) == multiset(nodes)
  {
    assert nodes == nodes[..r] + nodes[r..];
  }

  /** The round goes around the lane: the word is a multiple of its length, or no pick of the round
      is behind the wrap-around, or all of them are. */
  predicate GoesAround(cursor: nat, word: nat, len: nat)
    requires len > 0
  {
    word % len == 0 || cursor + len * (len + 1) <= word || cursor + len >= word
  }

  /** Where the rotation then starts. */
  function FirstPick(cursor: nat, word: nat, len: nat): nat
    requires len > 0
  {
    if cursor + len >= word && word % len != 0 then cursor + len - word else cursor
  }

  /** Whole words and whole rounds do not show in the remainder. */
  lemma {:induction false} SameRemainder(x: nat, p: nat, y: nat, q: nat, len: nat)
    requires len > 0 && p * len + x == q * len + y
    ensures x % len == y % len
  {
    ModAdds(p, x, len);
    ModAdds(q, y, len);
  }

  lemma {:induction false} UnreducedGrows(cursor: nat, i: nat, j: nat, len: nat)
    requires i <= j
    ensures Unreduced(cursor, i, len) <= Unreduced(cursor, j, len)
  {
    if i < j { Apart(j, i, len + 1); }
  }

  lemma {:induction false} Spread(cursor: nat, j: nat, len: nat)
    ensures Unreduced(cursor, j, len) == (j + 1) * len + (cursor + j)
  {}

  /** A pick before the wrap-around. */
  lemma {:induction false} InFront(cursor: nat, j: nat, word: nat, len: nat)
    requires cursor < word && j < len && len * (len + 1) <= word && Unreduced(cursor, j, len) < word
    ensures Unreduced(cursor, j, len) % word % len == (cursor + j) % len
  {
    Reduced(cursor, j, word, len);
    Spread(cursor, j, len);
    SameRemainder(Unreduced(cursor, j, len), 0, cursor + j, j + 1, len);
  }

  /** A pick behind the wrap-around has lost the word's own remainder. */
  lemma {:induction false} Behind(cursor: nat, j: nat, word: nat, len: nat, y: nat)
    requires cursor < word && j < len && len * (len + 1) <= word && Unreduced(cursor, j, len) >= word
    requires y + word % len == cursor + j
    ensures Unreduced(cursor, j, len) % word % len == y % len
  {
    var q, d := word / len, word % len;
    Reduced(cursor, j, word, len);
    Spread(cursor, j, len);
    assert word == q * len + d;
    SameRemainder(Unreduced(cursor, j, len) - word, q, y, j + 1, len);
  }

  lemma {:induction false} AllBehind(cursor: nat, j: nat, word: nat, len: nat)
    requires cursor < word && j < len && len * (len + 1) <= word && cursor + len >= word
    ensures Unreduced(cursor, j, len) % word % len == (cursor + len - word + j) % len
  {
    UnreducedGrows(cursor, 0, j, len);
    Reduced(cursor, j, word, len);
    Spread(cursor, j, len);
    assert (j + 1) * len == j * len + len;
    SameRemainder(Unreduced(cursor, j, len) - word, 0, cursor + len - word + j, j, len);
  }

  lemma {:induction false} LastOfTheRound(cursor: nat, len: nat)
    requires len > 0
    ensures Unreduced(cursor, len - 1, len) == cursor + len * (len + 1) - 1
  {}

  lemma {:induction false} AroundAt(cursor: nat, j: nat, word: nat, len: nat)
    requires cursor < word && j < len && len * (len + 1) <= word && GoesAround(cursor, word, len)
    ensures Unreduced(cursor, j, len) % word % len == (FirstPick(cursor, word, len) + j) % len
  {
    if cursor + len >= word && word % len != 0 {
      AllBehind(cursor, j, word, len);
    } else if Unreduced(cursor, j, len) < word {
      InFront(cursor, j, word, len);
    } else {
      LastOfTheRound(cursor, len);
      UnreducedGrows(cursor, j, len - 1, len);
      Behind(cursor, j, word, len, cursor + j);
    }
  }

  /** In a total outage the picks go around the lane once, whatever nodes it has. */
  lemma {:induction false} OutageGoesAround(nodes: seq<string>, cursor: nat, word: nat)
    requires nodes != [] && cursor < word && |nodes| * (|nodes| + 1) <= word && GoesAround(cursor, word, |nodes|)
    ensures Rounds(nodes, cursor, word) == Rotated(nodes, FirstPick(cursor, word, |nodes|) % |nodes|)
    ensures multiset(Rounds(nodes, cursor, word)) == multiset(nodes)
  {
    var len, first := |nodes|, FirstPick(cursor, word, |nodes|);
    forall j | 0 <= j < len ensures Rounds(nodes, cursor, word)[j] == Rotated(nodes, first % len)[j] {
      ForcedPick(nodes, cursor, word, j);
      AroundAt(cursor, j, word, len);
      RotatedAt(first, j, len);
    }
    RotationIsComplete(nodes, first % len);
  }

  /** The first pick of the round that is behind the wrap-around. */
  lemma {:induction false} FirstBehind(cursor: nat, word: nat, len: nat, j: nat) returns (m: nat)
    requires j < len && Unreduced(cursor, 0, len) < word <= Unreduced(cursor, j, len)
    ensures 0 < m <= j && Unreduced(cursor, m - 1, len) < word <= Unreduced(cursor, m, len)
  {
    if Unreduced(cursor, j - 1, len) < word {
      m := j;
    } else {
      m := FirstBehind(cursor, word, len, j - 1);
    }
  }

  /** Otherwise two picks of the round, one on either side of the wrap-around, meet. */
  lemma {:induction false} TwoPicksMeet(cursor: nat, word: nat, len: nat) returns (i: nat, j: nat)
    requires cursor < word && 0 < len && len * (len + 1) <= word && !GoesAround(cursor, word, len)
    ensures i < j < len && Unreduced(cursor, i, len) % word % len == Unreduced(cursor, j, len) % word % len
  {
    LastOfTheRound(cursor, len);
    var m := FirstBehind(cursor, word, len, len - 1);
    var d := word % len;
    i := if m >= d then m - d else 0;
    j := i + d;
    UnreducedGrows(cursor, i, m - 1, len);
    UnreducedGrows(cursor, m, j, len);
    InFront(cursor, i, word, len);
    Behind(cursor, j, word, len, cursor + i);
  }

  lemma {:induction false} TwiceCountsTwice(s: seq<string>, i: nat, j: nat)
    requires i < j < |s| && s[i] == s[j]
    ensures multiset(s)[s[i]] >= 2
  {
    assert s == s[..j] + [s[j]] + s[j + 1..];
    assert s[..j][i] == s[i];
  }

  lemma {:induction false} DistinctCountsOnce(nodes: seq<string>, x: string)
    requires Distinct(nodes)
    ensures multiset(nodes)[x] <= 1
  {
    if nodes != [] {
      DistinctCountsOnce(nodes[1..], x);
      assert nodes == [nodes[0]] + nodes[1..];
      if nodes[0] == x { assert x !in nodes[1..]; }
    }
  }

  /** In a total outage as many picks as the lane has distinct nodes visit every node exactly when
      the round goes around; otherwise one of them is picked twice and another not at all. */
  lemma {:induction false} OutageVisitsEveryNodeExactly(nodes: seq<string>, cursor: nat, word: nat)
    requires nodes != [] && cursor < word && |nodes| * (|nodes| + 1) <= word && Distinct(nodes)
    ensures multiset(Rounds(nodes, cursor, word)) == multiset(nodes) <==> GoesAround(cursor, word, |nodes|)
  {
    if GoesAround(cursor, word, |nodes|) {
      OutageGoesAround(nodes, cursor, word);
    } else {
      var i, j := TwoPicksMeet(cursor, word, |nodes|);
      ForcedPick(nodes, cursor, word, i);
      ForcedPick(nodes, cursor, word, j);
      TwiceCountsTwice(Rounds(nodes, cursor, word), i, j);
      DistinctCountsOnce(nodes, Rounds(nodes, cursor, word)[i]);
    }
  }

  // ── The roster ───────────────────────────────────────────────────────────

  /** The nodes of a lane that the log makes eligible. */
  function EligibleNodes(log: seq<Report>, nodes: seq<string>, now: nat): set<string> {
    set url | url in nodes && Eligible(log, url, now)
  }

  /** No node of the lane is eligible. */
  predicate Out(log: seq<Report>, nodes: seq<string>, now: nat) { EligibleNodes(log, nodes, now) == {} }

  /** The failure table's own reading of a node. */
  predicate Cooling(failed: map<string, nat>, url: string, now: nat) {
    url in failed && (if now >= failed[url] then now - failed[url] else 0) < RPC_COOLDOWN_MS
  }

  /** From `clock` on, the table and the log agree about every node. */
  ghost predicate Agrees(failed: map<string, nat>, log: seq<Report>, clock: nat) {
    forall url, now: nat | clock <= now :: Cooling(failed, url, now) == !Eligible(log, url, now)
  }

  /** Forgetting an expired failure changes no later reading. */
  lemma {:induction false} HealingAgrees(failed: map<string, nat>, log: seq<Report>, clock: nat, url: string)
    requires Agrees(failed, log, clock) && !Cooling(failed, url, clock)
    ensures Agrees(failed - {url}, log, clock)
  {
    forall other, now: nat | clock <= now ensures Cooling(failed - {url}, other, now) == !Eligible(log, other, now) {
      assert Cooling(failed, other, now) == !Eligible(log, other, now);
    }
  }

  lemma {:induction false} ReportAgrees(failed: map<string, nat>, log: seq<Report>, clock: nat, report: Report)
    requires Agrees(failed, log, clock)
    ensures Agrees(if report.Failed? then failed[report.url := report.at] else failed - {report.url}, log + [report], clock)
  {
    var next := if report.Failed? then failed[report.url := report.at] else failed - {report.url};
    assert (log + [report])[..|log|] == log;
    forall url, now: nat | clock <= now ensures Cooling(next, url, now) == !Eligible(log + [report], url, now) {
      assert Cooling(failed, url, now) == !Eligible(log, url, now);
    }
  }

  // ── Reports between picks ────────────────────────────────────────────────

  /** A pick at `now`, after these reports. */
  datatype Visit = Visit(reports: seq<Report>, now: nat)

  /** The reports are made one after the other between the clock and the pick. */
  predicate Timely(clock: nat, visit: Visit) {
    && clock <= visit.now
    && (forall i | 0 <= i < |visit.reports| && visit.reports[i].Failed? :: clock <= visit.reports[i].at <= visit.now)
    && (forall i, j | 0 <= i < j < |visit.reports| && visit.reports[i].Failed? && visit.reports[j].Failed? ::
          visit.reports[i].at <= visit.reports[j].at)
  }

  function ClockAt(clock: nat, visits: seq<Visit>, j: nat): nat
    requires j <= |visits|
  {
    if j == 0 then clock else visits[j - 1].now
  }

  predicate InOrder(clock: nat, visits: seq<Visit>) {
    forall j | 0 <= j < |visits| :: Timely(ClockAt(clock, visits, j), visits[j])
  }

  /** The log after the reports of the first n visits. */
  function LogAt(log: seq<Report>, visits: seq<Visit>, n: nat): seq<Report>
    requires n <= |visits|
  {
    if n == 0 then log else LogAt(log, visits, n - 1) + visits[n - 1].reports
  }

  predicate Ascending(clock: nat, times: seq<nat>) {
    && (forall j | 0 <= j < |times| :: clock <= times[j])
    && (forall i, j | 0 <= i < j < |times| :: times[i] <= times[j])
  }

  /** The log after the first n picks, each reported failed at its time. */
  function AllFailed(log: seq<Report>, picks: seq<string>, times: seq<nat>, n: nat): seq<Report>
    requires n <= |picks| && n <= |times|
  {
    if n == 0 then log else AllFailed(log, picks, times, n - 1) + [Failed(picks[n - 1], times[n - 1])]
  }

  /** A node that is among recent failures is cooling. */
  lemma {:induction false} RecentFailureCools(log: seq<Report>, picks: seq<string>, times: seq<nat>, n: nat, k: nat, now: nat)
    requires k < n <= |picks| && n <= |times|
    requires forall i | 0 <= i < n :: times[i] <= now < times[i] + RPC_COOLDOWN_MS
    ensures !Eligible(AllFailed(log, picks, times, n), picks[k], now)
  {
    var all, before := AllFailed(log, picks, times, n), AllFailed(log, picks, times, n - 1);
    assert all[..|all| - 1] == before;
    if picks[n - 1] != picks[k] { RecentFailureCools(log, picks, times, n - 1, k, now); }
  }

  /** A round of failed picks that goes around keeps the outage going: nothing is eligible until a
      minute after its first pick, whatever the log said before. */
  lemma {:induction false} RoundKeepsTheOutage(log: seq<Report>, nodes: seq<string>, cursor: nat, word: nat, times: seq<nat>, now: nat)
    requires nodes != [] && cursor < word && |nodes| * (|nodes| + 1) <= word && GoesAround(cursor, word, |nodes|)
    requires |times| == |nodes| && forall i | 0 <= i < |times| :: times[0] <= times[i] <= now < times[0] + RPC_COOLDOWN_MS
    ensures Out(AllFailed(log, Rounds(nodes, cursor, word), times, |nodes|), nodes, now)
  {
    var rounds := Rounds(nodes, cursor, word);
    OutageGoesAround(nodes, cursor, word);
    forall url | url in nodes ensures !Eligible(AllFailed(log, rounds, times, |nodes|), url, now) {
      assert url in multiset(nodes);
      var k :| 0 <= k < |rounds| && rounds[k] == url;
      RecentFailureCools(log, rounds, times, |nodes|, k, now);
    }
  }

  class Roster {
    const readNodes: seq<string>
    const writeNodes: seq<string>
    const word: nat
    var readCursor: nat
    var writeCursor: nat
    var failed: map<string, nat>
    ghost var log: seq<Report>
    ghost var clock: nat

    ghost predicate Valid()
      reads this
    {
      && |readNodes| <= word && |writeNodes| <= word
      && readCursor < word && writeCursor < word
      && Agrees(failed, log, clock)
    }

    constructor (readNodes: seq<string>, writeNodes: seq<string>, word: nat)
      requires 0 < word && |readNodes| <= word && |writeNodes| <= word
      ensures Valid() && readCursor == writeCursor == 0 && log == [] && clock == 0
      ensures this.readNodes == readNodes && this.writeNodes == writeNodes && this.word == word
    {
      this.readNodes, this.writeNodes, this.word := readNodes, writeNodes, word;
      readCursor, writeCursor, failed, log, clock := 0, 0, map[], [], 0;
    }

    function Nodes(lane: Lane): seq<string> { if lane.Read? then readNodes else writeNodes }

    function Cursor(lane: Lane): nat
      reads this
    {
      if lane.Read? then readCursor else writeCursor
    }

    method Advance(lane: Lane) returns (current: nat)
      requires Valid()
      modifies this`readCursor, this`writeCursor
      ensures Valid() && current == old(Cursor(lane)) && Cursor(lane) == (current + 1) % word
      ensures lane.Read? ==> writeCursor == old(writeCursor)
      ensures lane.Write? ==> readCursor == old(readCursor)
    {
      current := Cursor(lane);
      if lane.Read? {
        readCursor := (current + 1) % word;
      } else {
        writeCursor := (current + 1) % word;
      }
    }

    /** Inspecting a node heals its expired failure, which no later reading can tell. */
    method Available(url: string, now: nat) returns (r: bool)
      requires Valid() && clock <= now
      modifies this`failed, this`clock
      ensures Valid() && clock == now && r == Eligible(log, url, now)
    {
      clock := now;
      assert Cooling(failed, url, now) == !Eligible(log, url, now);
      if url in failed && (if now >= failed[url] then now - failed[url] else 0) < RPC_COOLDOWN_MS {
        return false;
      }
      HealingAgrees(failed, log, clock, url);
      failed := failed - {url};
      return true;
    }

    method MarkFailed(url: string, now: nat)
      requires Valid() && clock <= now
      modifies this`failed, this`log, this`clock
      ensures Valid() && clock == now && log == old(log) + [Failed(url, now)]
    {
      clock := now;
      ReportAgrees(failed, log, clock, Failed(url, now));
      failed, log := failed[url := now], log + [Failed(url, now)];
    }

    method MarkHealthy(url: string)
      requires Valid()
      modifies this`failed, this`log
      ensures Valid() && log == old(log) + [Healthy(url)]
    {
      ReportAgrees(failed, log, clock, Healthy(url));
      failed, log := failed - {url}, log + [Healthy(url)];
    }

    /** One turn of the rotation: the node under the cursor and whether it is eligible. */
    method Inspect(lane: Lane, now: nat) returns (url: string, ok: bool)
      requires Valid() && clock == now && Nodes(lane) != []
      modifies this`readCursor, this`writeCursor, this`failed, this`clock
      ensures Valid() && clock == now && ok == Eligible(log, url, now)
      ensures url == Nodes(lane)[old(Cursor(lane)) % |Nodes(lane)|]
      ensures Cursor(lane) == (old(Cursor(lane)) + 1) % word
      ensures lane.Read? ==> writeCursor == old(writeCursor)
      ensures lane.Write? ==> readCursor == old(readCursor)
    {
      var current := Advance(lane);
      url := Nodes(lane)[current % |Nodes(lane)|];
      ok := Available(url, now);
    }

    /** The scan: at most one look at each turn, up to the first eligible node. */
    method Scan(lane: Lane, now: nat) returns (found: Option<string>)
      requires Valid() && clock == now && Nodes(lane) != []
      modifies this`readCursor, this`writeCursor, this`failed, this`clock
      ensures Valid() && clock == now
      ensures lane.Read? ==> writeCursor == old(writeCursor)
      ensures lane.Write? ==> readCursor == old(readCursor)
      ensures var start, eligible := old(Cursor(lane)), EligibleNodes(log, Nodes(lane), now);
              var n := Skipped(Nodes(lane), start, word, eligible, 0);
              if found.Some?
              then n < |Nodes(lane)| && found.value == NodeAt(lane, start, n) && Cursor(lane) == Turn(start, n + 1, word)
              else n == |Nodes(lane)| && Cursor(lane) == Turn(start, n, word)
    {
      ghost var start, eligible := Cursor(lane), EligibleNodes(log, Nodes(lane), now);
      TurnStarts(start, word);
      for i := 0 to |Nodes(lane)|
        invariant Valid() && clock == now
        invariant lane.Read? ==> writeCursor == old(writeCursor)
        invariant lane.Write? ==> readCursor == old(readCursor)
        invariant Cursor(lane) == Turn(start, i, word)
        invariant Skipped(Nodes(lane), start, word, eligible, 0) == Skipped(Nodes(lane), start, word, eligible, i)
      {
        var node, ok := Inspect(lane, now);
        TurnMoves(start, i, word);
        assert node == NodeAt(lane, start, i) && (ok <==> node in eligible);
        if ok {
          return Some(node);
        }
      }
      return None;
    }

    function NodeAt(lane: Lane, start: nat, i: nat): string
      requires word > 0 && Nodes(lane) != []
    {
      Nodes(lane)[Probe(start, i, word, |Nodes(lane)|)]
    }

    /** The pick the log prescribes, and the cursor behind it; the other lane does not move. */
    method Select(lane: Lane, now: nat) returns (url: Option<string>)
      requires Valid() && clock <= now
      modifies this`readCursor, this`writeCursor, this`failed, this`clock
      ensures Valid() && clock == now
      ensures lane.Read? ==> writeCursor == old(writeCursor)
      ensures lane.Write? ==> readCursor == old(readCursor)
      ensures Nodes(lane) == [] ==> url.None? && Cursor(lane) == old(Cursor(lane))
      ensures Nodes(lane) != [] ==>
                var eligible := EligibleNodes(log, Nodes(lane), now);
                && url == Some(Picked(Nodes(lane), old(Cursor(lane)), word, eligible))
                && Cursor(lane) == NextCursor(Nodes(lane), old(Cursor(lane)), word, eligible)
    {
      clock := now;
      if Nodes(lane) == [] {
        return None;
      }
      url := Scan(lane, now);
      if url.None? {
        TurnMoves(old(Cursor(lane)), |Nodes(lane)|, word);
        var current := Advance(lane);
        url := Some(Nodes(lane)[current % |Nodes(lane)|]);
      }
    }

    /** One pick while nothing is eligible. */
    method SelectForced(lane: Lane, now: nat) returns (url: string)
      requires Valid() && clock <= now && Nodes(lane) != [] && Out(log, Nodes(lane), now)
      modifies this`readCursor, this`writeCursor, this`failed, this`clock
      ensures Valid() && clock == now
      ensures url == Picked(Nodes(lane), old(Cursor(lane)), word, {})
      ensures Cursor(lane) == NextCursor(Nodes(lane), old(Cursor(lane)), word, {})
    {
      var pick := Select(lane, now);
      url := pick.value;
    }

    /** Reports of callers, in the order they come in. */
    method Hear(reports: seq<Report>, now: nat)
      requires Valid() && Timely(clock, Visit(reports, now))
      modifies this`failed, this`log, this`clock
      ensures Valid() && clock <= now && log == old(log) + reports
    {
      for i := 0 to |reports|
        invariant Valid() && clock <= now && log == old(log) + reports[..i]
        invariant forall j | i <= j < |reports| && reports[j].Failed? :: clock <= reports[j].at
      {
        match reports[i]
        case Failed(url, at) => MarkFailed(url, at);
        case Healthy(url) => MarkHealthy(url);
      }
    }

    /** Reports, then a pick while nothing is eligible. */
    method SelectVisit(lane: Lane, visit: Visit) returns (url: string)
      requires Valid() && Nodes(lane) != [] && Timely(clock, visit) && Out(log + visit.reports, Nodes(lane), visit.now)
      modifies this
      ensures Valid() && clock == visit.now && log == old(log) + visit.reports
      ensures url == Picked(Nodes(lane), old(Cursor(lane)), word, {})
      ensures Cursor(lane) == NextCursor(Nodes(lane), old(Cursor(lane)), word, {})
    {
      Hear(visit.reports, visit.now);
      url := SelectForced(lane, visit.now);
    }

    /** A pick while nothing is eligible, reported failed at once. */
    method TryForced(lane: Lane, now: nat) returns (url: string)
      requires Valid() && clock <= now && Nodes(lane) != [] && Out(log, Nodes(lane), now)
      modifies this
      ensures Valid() && clock == now && log == old(log) + [Failed(url, now)]
      ensures url == Picked(Nodes(lane), old(Cursor(lane)), word, {})
      ensures Cursor(lane) == NextCursor(Nodes(lane), old(Cursor(lane)), word, {})
    {
      url := SelectForced(lane, now);
      MarkFailed(url, now);
    }

    /** As many picks as the lane has nodes, with any reports between them, while nothing is eligible at
        any pick. */
    method SelectThroughOutage(lane: Lane, visits: seq<Visit>) returns (picks: seq<string>)
      requires Valid() && Nodes(lane) != [] && |visits| == |Nodes(lane)| && InOrder(clock, visits)
      requires forall j | 0 <= j < |visits| :: Out(LogAt(log, visits, j + 1), Nodes(lane), visits[j].now)
      modifies this
      ensures Valid() && log == LogAt(old(log), visits, |visits|)
      ensures picks == Rounds(Nodes(lane), old(Cursor(lane)), word)
    {
      picks := [];
      var nodes := Nodes(lane);
      ghost var start := Cursor(lane);
      for j := 0 to |visits|
        invariant Valid() && log == LogAt(old(log), visits, j) && clock <= ClockAt(old(clock), visits, j)
        invariant Cursor(lane) == CursorAfter(nodes, start, word, j)
        invariant picks == ForcedPicks(nodes, start, word, j)
      {
        assert Timely(ClockAt(old(clock), visits, j), visits[j]);
        var pick := SelectVisit(lane, visits[j]);
        picks := picks + [pick];
      }
    }

    /** The same when every pick is tried and reported failed before the next one. */
    method ProbeThroughOutage(lane: Lane, times: seq<nat>) returns (picks: seq<string>)
      requires Valid() && Nodes(lane) != [] && |times| == |Nodes(lane)| && Ascending(clock, times)
      requires var rounds := Rounds(Nodes(lane), Cursor(lane), word);
               forall j | 0 <= j < |times| :: Out(AllFailed(log, rounds, times, j), Nodes(lane), times[j])
      modifies this
      ensures Valid() && picks == Rounds(Nodes(lane), old(Cursor(lane)), word) && log == AllFailed(old(log), picks, times, |picks|)
    {
      picks := [];
      var nodes := Nodes(lane);
      ghost var start, rounds := Cursor(lane), Rounds(nodes, Cursor(lane), word);
      for j := 0 to |times|
        invariant Valid() && log == AllFailed(old(log), rounds, times, j) && (j < |times| ==> clock <= times[j])
        invariant Cursor(lane) == CursorAfter(nodes, start, word, j)
        invariant picks == ForcedPicks(nodes, start, word, j)
      {
        ForcedPicksAt(nodes, start, word, |nodes|, j);
        var pick := TryForced(lane, times[j]);
        picks := picks + [pick];
      }
    }

    /** "closed" exactly when some read node is eligible. */
    method CircuitState(now: nat) returns (closed: bool)
      requires Valid() && clock <= now
      modifies this`failed, this`clock
      ensures Valid() && clock == now
      ensures closed <==> EligibleNodes(log, readNodes, now) != {}
    {
      clock := now;
      for i := 0 to |readNodes|
        invariant Valid() && clock == now
        invariant forall k | 0 <= k < i :: !Eligible(log, readNodes[k], now)
      {
        var ok := Available(readNodes[i], now);
        if ok {
          assert readNodes[i] in EligibleNodes(log, readNodes, now);
          return true;
        }
      }
      return false;
    }
  }

  /** While the rotation reaches every node, the circuit is closed exactly when the next read
      goes to an eligible node. */
  lemma {:induction false} CircuitIsWhatTheNextReadFinds(log: seq<Report>, nodes: seq<string>, cursor: nat, word: nat, now: nat)
    requires cursor < word && 0 < |nodes| <= word && ReachesAll(cursor, word, |nodes|)
    ensures var eligible := EligibleNodes(log, nodes, now);
            eligible != {} <==> Eligible(log, Picked(nodes, cursor, word, eligible), now)
  {
    var eligible := EligibleNodes(log, nodes, now);
    if eligible != {} {
      var node :| node in eligible;
      var x :| 0 <= x < |nodes| && nodes[x] == node;
      PickIsEligible(nodes, cursor, word, eligible, x);
    } else {
      assert Picked(nodes, cursor, word, eligible) !in eligible;
    }
  }

  /** The last report about a node. */
  predicate LastAbout(log: seq<Report>, i: nat, url: string) {
    i < |log| && log[i].url == url && forall j | i < j < |log| :: log[j].url != url
  }

  lemma {:induction false} LastAboutBefore(log: seq<Report>, i: nat, url: string)
    requires log != [] && log[|log| - 1].url != url
    ensures LastAbout(log, i, url) <==> LastAbout(log[..|log| - 1], i, url)
  {
    var front := log[..|log| - 1];
    if LastAbout(front, i, url) {
      forall j | i < j < |log| ensures log[j].url != url { if j < |front| { assert front[j].url != url; } }
    }
    if LastAbout(log, i, url) {
      forall j | i < j < |front| ensures front[j].url != url { assert log[j].url != url; }
    }
  }

  /** A node is eligible exactly when it was never reported on, or its last report is a success, or a
      failure of at least a minute ago. */
  lemma {:induction false} EligibleExactly(log: seq<Report>, url: string, now: nat)
    ensures Eligible(log, url, now) <==>
            forall i: nat | LastAbout(log, i, url) :: log[i].Healthy? || log[i].at + 60_000 <= now
  {
    if log != [] {
      var front := log[..|log| - 1];
      if log[|log| - 1].url != url {
        EligibleExactly(front, url, now);
        forall i: nat ensures LastAbout(log, i, url) <==> LastAbout(front, i, url) { LastAboutBefore(log, i, url); }
      } else {
        assert LastAbout(log, |log| - 1, url);
        forall i: nat | LastAbout(log, i, url) ensures i == |log| - 1 {}
      }
    }
  }
}
