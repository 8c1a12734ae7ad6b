/** The replay tool's loops (p256-replay/src/main.rs:442-595). */
module ReplayTool {
  import opened Basics
  import opened Replay
  import opened Archives
  import opened ReplayOrders

  // ── Fisher-Yates over a xorshift stream ──────────────────────────────────

  function Xorshift(state: bv64): bv64 {
    var a := state ^ (state << 13);
    var b := a ^ (a >> 7);
    b ^ (b << 17)
  }

  function Swapped(s: seq<Row>, i: nat, j: nat): seq<Row>
    requires i < |s| && j < |s|
  {
    s[i := s[j]][j := s[i]]
  }

  function Draw(state: bv64, i: nat): (j: nat)
    ensures j <= i
  {
    state as nat % (i + 1)
  }

  /** The swaps from index i down to 1. */
  function Shuffled(s: seq<Row>, state: bv64, i: nat): (r: seq<Row>)
    requires i == 0 || i < |s|
    ensures |r| == |s|
    decreases i
  {
    if i == 0 then s
    else
      var next := Xorshift(state);
      Shuffled(Swapped(s, i, Draw(next, i)), next, i - 1)
  }

  /** The stream is xorshift64 with shifts 13, 7 and 17: its first value from seed 1. A swap partner
      may be the index in hand itself, and none behind it. */
  lemma {:induction false} StreamFromOne()
    ensures Xorshift(1) == 0x4082_2041
    ensures Draw(4, 4) == 4 && Draw(5, 4) == 0 && Draw(0x4082_2041, 9) == 1
  {}

  /** Whatever the seed, the rows are only reordered. */
  lemma {:induction false} ShuffledIsPermutation(s: seq<Row>, state: bv64, i: nat)
    requires i == 0 || i < |s|
    ensures multiset(Shuffled(s, state, i)) == multiset(s)
    decreases i
  {
    if i > 0 {
      var next := Xorshift(state);
      SwapKeeps(s, i, Draw(next, i));
      ShuffledIsPermutation(Swapped(s, i, Draw(next, i)), next, i - 1);
    }
  }

  lemma {:induction false} SwapKeeps(s: seq<Row>, i: nat, j: nat)
    requires i < |s| && j < |s|
    ensures multiset(Swapped(s, i, j)) == multiset(s)
  {}

  method Shuffle(items: array<Row>, seed: bv64)
    modifies items
    ensures items[..] == Shuffled(old(items[..]), seed | 1, if items.Length == 0 then 0 else items.Length - 1)
  {
    var state := seed | 1;
    var i := items.Length;
    while i > 1
      invariant 0 <= i <= items.Length
      invariant Shuffled(items[..], state, if i == 0 then 0 else i - 1) ==
                Shuffled(old(items[..]), seed | 1, if items.Length == 0 then 0 else items.Length - 1)
    {
      i := i - 1;
      state := Xorshift(state);
      ghost var before := items[..];
      var j := Draw(state, i);
      items[i], items[j] := items[j], items[i];
      assert items[..] == Swapped(before, i, j);
    }
  }

  // ── replay and verify ────────────────────────────────────────────────────

  function Hashes(rows: seq<Row>): seq<string> { seq(|rows|, i requires 0 <= i < |rows| => rows[i].txHash) }

  predicate LeftHomeless(y: Tally) { forall i | 0 <= i < |y.retry| :: Homeless(y.retry[i], y.target.units) }

  lemma {:induction false} LeavesTheHomeless(t: Registry, firsts: seq<Row>, seconds: seq<Row>)
    requires Registers(firsts) && Refers(seconds)
    ensures LeftHomeless(Round(Start(t), firsts + seconds))
  {
    FirstRoundDecides(t, firsts, seconds);
  }

  lemma {:induction false} NothingChangesAgain(y: Tally)
    requires LeftHomeless(y)
    ensures Round(Start(y.target), y.retry) == Tally(y.target, 0, 0, [], y.retry)
  {
    HomelessRound(Start(y.target), y.retry);
  }

  /** What is left for later is given up. */
  function Given(y: Tally): Tally { y.(failed := y.failed + Hashes(y.retry), retry := []) }

  method Select(rows: seq<Row>, register: bool) returns (chosen: seq<Row>)
    ensures chosen == OfKind(rows, register)
  {
    chosen := [];
    for i := 0 to |rows|
      invariant chosen == OfKind(rows[..i], register)
    {
      assert rows[..i + 1][..i] == rows[..i];
      if rows[i].payload.Register? == register { chosen := chosen + [rows[i]]; }
    }
    assert rows[..|rows|] == rows;
  }

  /** What is left without a group is reported as failed. */
  method GiveUp(before: seq<string>, retry: seq<Row>) returns (failed: seq<string>)
    ensures failed == before + Hashes(retry)
  {
    failed := before;
    for i := 0 to |retry|
      invariant failed == before + Hashes(retry[..i])
    {
      failed := failed + [retry[i].txHash];
      assert Hashes(retry[..i + 1]) == Hashes(retry[..i]) + [retry[i].txHash];
    }
    assert retry[..|retry|] == retry;
  }

  method Order(chosen: seq<Row>, seed: Option<bv64>) returns (ordered: seq<Row>)
    ensures multiset(ordered) == multiset(chosen)
    ensures seed.None? ==> ordered == chosen
  {
    ordered := chosen;
    if seed.Some? {
      var items := new Row[|chosen|](i requires 0 <= i < |chosen| => chosen[i]);
      assert items[..] == chosen;
      Shuffle(items, seed.value);
      ShuffledIsPermutation(chosen, seed.value | 1, if |chosen| == 0 then 0 else |chosen| - 1);
      ordered := items[..];
    }
  }

  lemma {:induction false} OfKindIsFilter(rows: seq<Row>)
    ensures Registers(OfKind(rows, true)) && Refers(OfKind(rows, false))
    ensures |OfKind(rows, true)| + |OfKind(rows, false)| == |rows|
    ensures multiset(OfKind(rows, true) + OfKind(rows, false)) == multiset(rows)
  {
    if rows != [] {
      OfKindIsFilter(rows[..|rows| - 1]);
      assert rows == rows[..|rows| - 1] + [rows[|rows| - 1]];
    }
  }

  class Target {
    var registry: Registry

    constructor (registry: Registry)
      ensures this.registry == registry
    {
      this.registry := registry;
    }

    method Pass(queue: seq<Row>, ghost y: Tally) returns (sent: nat, present: nat, failed: seq<string>, retry: seq<Row>)
      requires y == Start(registry)
      modifies this
      ensures Tally(registry, sent, present, failed, retry) == Round(y, queue)
    {
      sent, present, failed, retry := 0, 0, [], [];
      for i := 0 to |queue|
        invariant Tally(registry, sent, present, failed, retry) == Round(y, queue[..i])
      {
        RoundNext(y, queue, i);
        var row := queue[i];
        match Call(registry, row.payload)
        case Ok =>
          registry := Write(registry, row.payload);
          sent := sent + 1;
        case Duplicate => present := present + 1;
        case GroupNotFound => retry := retry + [row];
        case OtherRevert => failed := failed + [row.txHash];
      }
      assert queue[..|queue|] == queue;
    }

    /** The loop of rounds: a second one changes nothing, so at most two are made. */
    method RunRounds(firsts: seq<Row>, seconds: seq<Row>) returns (sent: nat, present: nat, failed: seq<string>, ghost rounds: nat)
      requires Registers(firsts) && Refers(seconds)
      modifies this
      ensures rounds <= 2
      ensures Tally(registry, sent, present, failed, []) == Given(Round(Start(old(registry)), firsts + seconds))
    {
      ghost var once := Round(Start(registry), firsts + seconds);
      LeavesTheHomeless(registry, firsts, seconds);
      sent, present, failed, rounds := 0, 0, [], 0;
      var queue := firsts + seconds;
      while queue != []
        invariant rounds <= 1
        invariant rounds == 0 ==>
                    queue == firsts + seconds && Tally(registry, sent, present, failed, []) == Start(old(registry))
        invariant rounds == 1 ==> Tally(registry, sent, present, failed, queue) == once
        decreases |queue|
      {
        if rounds == 1 {
          assert once == Tally(registry, sent, present, failed, queue);
          NothingChangesAgain(once);
        }
        RoundCounts(Start(registry), queue);
        var s, p, f, retry := Pass(queue, Start(registry));
        sent, present, failed, rounds := sent + s, present + p, failed + f, rounds + 1;
        if |retry| == |queue| {
          failed := GiveUp(failed, retry);
          break;
        }
        queue := retry;
      }
    }

    /** For any archive and any seed the loop makes at most two rounds, accounts for every row
        once, and leaves what one round over the registers and then the refers leaves. */
    method Replay(rows: seq<Row>, seed: Option<bv64>)
      returns (sent: nat, present: nat, failed: seq<string>, ghost rounds: nat, ghost registers: seq<Row>, ghost refers: seq<Row>)
      modifies this
      ensures rounds <= 2
      ensures sent + present + |failed| == |rows|
      ensures multiset(registers) == multiset(OfKind(rows, true)) && multiset(refers) == multiset(OfKind(rows, false))
      ensures seed.None? ==> registers == OfKind(rows, true) && refers == OfKind(rows, false)
      ensures var once := Round(Start(old(registry)), registers + refers);
              && registry == once.target && sent == once.sent && present == once.present
              && failed == once.failed + Hashes(once.retry)
    {
      OfKindIsFilter(rows);
      var chosen := Select(rows, true);
      var firsts := Order(chosen, seed);
      chosen := Select(rows, false);
      var seconds := Order(chosen, if seed.Some? then Some(seed.value + 1) else None);
      registers, refers := firsts, seconds;
      KindsStay(rows, firsts, seconds);
      RoundCounts(Start(registry), firsts + seconds);
      sent, present, failed, rounds := RunRounds(firsts, seconds);
    }

    /** verify: how many archived writes are present, missing or something else. */
    method Verify(rows: seq<Row>) returns (ok: nat, missing: seq<string>, anomalies: seq<string>)
      ensures ok + |missing| + |anomalies| == |rows|
      ensures ok == |rows| <==> AllPresent(registry, rows)
      ensures forall h :: h in missing <==> exists row :: row in rows && row.txHash == h && Call(registry, row.payload).Ok?
      ensures forall h :: h in anomalies <==>
                exists row :: row in rows && row.txHash == h && !Call(registry, row.payload).Ok? && !Call(registry, row.payload).Duplicate?
    {
      ok, missing, anomalies := 0, [], [];
      for i := 0 to |rows|
        invariant ok + |missing| + |anomalies| == i
        invariant ok == i <==> AllPresent(registry, rows[..i])
        invariant forall h :: h in missing <==> exists row :: row in rows[..i] && row.txHash == h && Call(registry, row.payload).Ok?
        invariant forall h :: h in anomalies <==>
                    exists row :: && row in rows[..i] && row.txHash == h
                                  && !Call(registry, row.payload).Ok? && !Call(registry, row.payload).Duplicate?
      {
        assert rows[..i + 1] == rows[..i] + [rows[i]];
        match Call(registry, rows[i].payload)
        case Ok => missing := missing + [rows[i].txHash];
        case Duplicate => ok := ok + 1;
        case GroupNotFound => anomalies := anomalies + [rows[i].txHash];
        case OtherRevert => anomalies := anomalies + [rows[i].txHash];
      }
      assert rows[..|rows|] == rows;
    }
  }

  /** Two replays of one archive with any two seeds, and then verify: if the first left no failure, the
      second writes nothing and finds every row present, and so does verify. */
  method ReplayTwiceAndVerify(target: Target, rows: seq<Row>, seed: Option<bv64>, another: Option<bv64>)
    returns (failed: seq<string>, sent: nat, present: nat, failedAgain: seq<string>, ok: nat)
    requires Filed(target.registry)
    modifies target
    ensures failed == [] ==> sent == 0 && present == |rows| && failedAgain == [] && ok == |rows|
    ensures failed == [] ==> AllPresent(target.registry, rows)
  {
    ghost var before := target.registry;
    ghost var rounds, registers, refers, firsts, seconds;
    var written, there;
    written, there, failed, rounds, registers, refers := target.Replay(rows, seed);
    sent, present, failedAgain, rounds, firsts, seconds := target.Replay(rows, another);
    if failed == [] {
      OfKindIsFilter(rows);
      ReplayIsIdempotent(before, rows, registers, refers, firsts + seconds);
    }
    var missing, anomalies;
    ok, missing, anomalies := target.Verify(rows);
  }

  /** A shuffled queue still has every row, registers before refers. */
  lemma {:induction false} KindsStay(rows: seq<Row>, registers: seq<Row>, refers: seq<Row>)
    requires multiset(registers) == multiset(OfKind(rows, true)) && multiset(refers) == multiset(OfKind(rows, false))
    ensures Registers(registers) && Refers(refers) && |registers + refers| == |rows|
    ensures forall row | row in rows :: row in registers + refers
  {
    OfKindIsFilter(rows);
    SameRows(registers, OfKind(rows, true));
    SameRows(refers, OfKind(rows, false));
    assert |multiset(registers)| == |registers| && |multiset(OfKind(rows, true))| == |OfKind(rows, true)|;
    assert |multiset(refers)| == |refers| && |multiset(OfKind(rows, false))| == |OfKind(rows, false)|;
    forall i | 0 <= i < |registers| ensures registers[i].payload.Register? { assert registers[i] in registers; }
    forall i | 0 <= i < |refers| ensures refers[i].payload.Refer? { assert refers[i] in refers; }
    forall row | row in rows ensures row in registers + refers {
      assert row in multiset(rows);
      assert row in OfKind(rows, true) + OfKind(rows, false);
    }
  }

  lemma {:induction false} PartIsConsistent(rows: seq<Row>, part: seq<Row>, truth: Truth)
    requires ConsistentRows(rows, truth) && forall row | row in part :: row in rows
    ensures ConsistentRows(part, truth)
  {
    forall i | 0 <= i < |part| ensures Consistent(part[i].payload, truth) {
      assert part[i] in part;
      var j :| 0 <= j < |rows| && rows[j] == part[i];
    }
  }

  lemma {:induction false} KindsAreConsistent(rows: seq<Row>, truth: Truth)
    requires ConsistentRows(rows, truth)
    ensures ConsistentRows(OfKind(rows, true), truth) && ConsistentRows(OfKind(rows, false), truth)
  {
    OfKindIsFilter(rows);
    SameRows(rows, OfKind(rows, true) + OfKind(rows, false));
    PartIsConsistent(rows, OfKind(rows, true), truth);
    PartIsConsistent(rows, OfKind(rows, false), truth);
  }

  /** What a replay ends with, whatever the seed: no failure and the same groups, references and
      files exactly when the archive can be filed in every order; the very same registry exactly
      when the hints of possible first filers agree as well. */
  lemma {:induction false} SeedDoesNotMatterExactly(t: Registry, truth: Truth, rows: seq<Row>)
    requires Agrees(t, truth) && Filed(t) && ConsistentRows(rows, truth)
    ensures var registers, refers := OfKind(rows, true), OfKind(rows, false);
            && (SameRecordsInEveryOrder(t, registers, refers) <==> Fileable(t, registers, refers))
            && (SameInEveryOrder(t, registers, refers) <==> Fileable(t, registers, refers) && HintsAgree(t, registers, refers))
            && (CleanInEveryOrder(t, registers, refers) <==> Fileable(t, registers, refers) && Complete(t, registers, refers))
  {
    OfKindIsFilter(rows);
    KindsAreConsistent(rows, truth);
    SameRecordsExactly(t, OfKind(rows, true), OfKind(rows, false), truth);
    SameInEveryOrderExactly(t, OfKind(rows, true), OfKind(rows, false), truth);
    CleanExactly(t, OfKind(rows, true), OfKind(rows, false), truth);
  }

  /** After a replay without failures, a second replay of the archive with any seed writes nothing
      and finds every row present, and so does verify. */
  lemma {:induction false} ReplayIsIdempotent(t: Registry, rows: seq<Row>, registers: seq<Row>, refers: seq<Row>, again: seq<Row>)
    requires Filed(t) && multiset(again) == multiset(rows)
    requires multiset(registers) == multiset(OfKind(rows, true)) && multiset(refers) == multiset(OfKind(rows, false))
    requires Round(Start(t), registers + refers).failed == [] && Round(Start(t), registers + refers).retry == []
    ensures var done := Round(Start(t), registers + refers).target;
            && Round(Start(done), again) == Tally(done, 0, |rows|, [], [])
            && AllPresent(done, rows)
  {
    KindsStay(rows, registers, refers);
    SameRows(again, rows);
    assert |again| == |multiset(again)| == |multiset(rows)| == |rows|;
    SecondReplayIsIdle(t, registers + refers, again);
    SecondReplayIsIdle(t, registers + refers, rows);
  }
}
