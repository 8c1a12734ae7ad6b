/**
 * The minute counters behind the admission and read budgets
 * (p256-index-cf/src/submitter.rs:630-649): a fixed window that opens with its first request.
 */
module RateLimits {
  import opened Basics

  const WINDOW_MS: nat := 60_000

  datatype Counter = Counter(count: nat, windowEnd: nat)

  /** One request at `now`: a missing or expired window starts again at one. */
  function Bumped(counter: Option<Counter>, now: nat): Counter {
    if counter.None? || counter.value.windowEnd <= now then Counter(1, now + WINDOW_MS)
    else Counter(counter.value.count + 1, counter.value.windowEnd)
  }

  class Counters {
    var rows: map<string, Counter>

    constructor ()
      ensures rows == map[]
    {
      rows := map[];
    }

    function Row(key: string): Option<Counter>
      reads this
    {
      if key in rows then Some(rows[key]) else None
    }

    /** The upsert: a fresh row, or the row counted up or restarted. */
    method BumpMinuteCounter(key: string, now: nat) returns (n: nat)
      modifies this
      ensures rows == old(rows)[key := Bumped(old(Row(key)), now)] && n == rows[key].count
    {
      if key !in rows {
        rows := rows[key := Counter(1, now + WINDOW_MS)];
      } else {
        var row := rows[key];
        var count := if row.windowEnd <= now then 1 else row.count + 1;
        var end := if row.windowEnd <= now then now + WINDOW_MS else row.windowEnd;
        rows := rows[key := Counter(count, end)];
      }
      n := rows[key].count;
    }
  }

  // ── What a limit is worth ────────────────────────────────────────────────

  /** The counter of one key after the first n requests. */
  function After(times: seq<nat>, n: nat): Option<Counter>
    requires n <= |times|
  {
    if n == 0 then None else Some(Bumped(After(times, n - 1), times[n - 1]))
  }

  /** The answer to request i. */
  function Answer(times: seq<nat>, i: nat): nat
    requires i < |times|
  {
    After(times, i + 1).value.count
  }

  function End(times: seq<nat>, i: nat): nat
    requires i < |times|
  {
    After(times, i + 1).value.windowEnd
  }

  predicate Ordered(times: seq<nat>) {
    forall i, j | 0 <= i < j < |times| :: times[i] <= times[j]
  }

  /** How many of the requests from i up to j, j excluded, stay within the limit. */
  function Allowed(times: seq<nat>, i: nat, j: nat, limit: nat): nat
    requires i <= j <= |times|
    decreases j
  {
    if i == j then 0 else Allowed(times, i, j - 1, limit) + (if Answer(times, j - 1) <= limit then 1 else 0)
  }

  lemma {:induction false} AllowedSplits(times: seq<nat>, i: nat, k: nat, j: nat, limit: nat)
    requires i <= k <= j <= |times|
    ensures Allowed(times, i, j, limit) == Allowed(times, i, k, limit) + Allowed(times, k, j, limit)
    decreases j
  {
    if k < j { AllowedSplits(times, i, k, j - 1, limit); }
  }

  lemma {:induction false} WindowIsAhead(times: seq<nat>, i: nat)
    requires i < |times| && Ordered(times)
    ensures times[i] < End(times, i) <= times[i] + WINDOW_MS && Answer(times, i) >= 1
    ensures Answer(times, i) == 1 ==> End(times, i) == times[i] + WINDOW_MS
  {
    assert After(times, i + 1) == Some(Bumped(After(times, i), times[i]));
    if i > 0 {
      WindowIsAhead(times, i - 1);
      assert times[i - 1] <= times[i];
    }
  }

  /** While the window lasts the answers count up. */
  lemma {:induction false} WindowLasts(times: seq<nat>, i: nat, j: nat)
    requires i <= j < |times| && Ordered(times) && times[j] < End(times, i)
    ensures Answer(times, j) == Answer(times, i) + (j - i) && End(times, j) == End(times, i)
    decreases j
  {
    if i < j { WindowLasts(times, i, j - 1); }
  }

  /** Within one window at most the rest of the limit is granted. */
  lemma {:induction false} OneWindow(times: seq<nat>, i: nat, j: nat, limit: nat)
    requires i < j <= |times| && Ordered(times) && times[j - 1] < End(times, i)
    ensures Allowed(times, i, j, limit) <= if Answer(times, i) <= limit then limit - Answer(times, i) + 1 else 0
    decreases j
  {
    WindowLasts(times, i, j - 1);
    if i < j - 1 {
      OneWindow(times, i, j - 1, limit);
      AllowedExactly(times, i, j - 1, limit);
    }
  }

  lemma {:induction false} AllowedExactly(times: seq<nat>, i: nat, j: nat, limit: nat)
    requires i < j <= |times| && Ordered(times) && times[j - 1] < End(times, i)
    ensures Answer(times, i) <= limit ==>
              Allowed(times, i, j, limit) == if j - i <= limit - Answer(times, i) + 1 then j - i else limit - Answer(times, i) + 1
    decreases j
  {
    WindowLasts(times, i, j - 1);
    if i < j - 1 {
      AllowedExactly(times, i, j - 1, limit);
    }
  }

  /** The first request after i that opens a new window, if there is one before j. */
  lemma {:induction false} NextWindow(times: seq<nat>, i: nat, j: nat) returns (k: nat)
    requires i < j <= |times| && Ordered(times) && End(times, i) <= times[j - 1]
    ensures i < k < j && times[k - 1] < End(times, i) <= times[k]
    decreases j
  {
    WindowIsAhead(times, i);
    k := j - 1;
    if End(times, i) <= times[j - 2] { k := NextWindow(times, i, j - 1); }
  }

  /** In less than a minute at most 2 * limit - 1 requests pass: the tail of one window without the
      request that opened it, and the next window. */
  lemma {:induction false} UnderAMinute(times: seq<nat>, i: nat, j: nat, limit: nat)
    requires i < j <= |times| && Ordered(times) && limit >= 1
    requires times[j - 1] - times[i] < WINDOW_MS
    ensures Allowed(times, i, j, limit) <= 2 * limit - 1
  {
    WindowIsAhead(times, i);
    if times[j - 1] < End(times, i) {
      OneWindow(times, i, j, limit);
    } else {
      var k := NextWindow(times, i, j);
      WindowLasts(times, i, k - 1);
      assert Answer(times, k) == 1 && End(times, k) == times[k] + WINDOW_MS;
      AllowedSplits(times, i, k, j, limit);
      OneWindow(times, i, k, limit);
      OneWindow(times, k, j, limit);
    }
  }

  /** The busiest pattern: one request opens a window, the rest of two limits meet at its end. */
  function Burst(limit: nat): seq<nat> {
    seq(2 * limit, n requires 0 <= n < 2 * limit => if n == 0 then 0 else if n < limit then WINDOW_MS - 1 else WINDOW_MS)
  }

  lemma {:induction false} BurstCounts(limit: nat, n: nat)
    requires limit >= 1 && n < 2 * limit
    ensures After(Burst(limit), n + 1) ==
            Some(if n < limit then Counter(n + 1, WINDOW_MS) else Counter(n - limit + 1, 2 * WINDOW_MS))
  {
    if n > 0 { BurstCounts(limit, n - 1); }
  }

  lemma {:induction false} AllWithin(times: seq<nat>, i: nat, j: nat, limit: nat)
    requires i <= j <= |times| && forall k | i <= k < j :: Answer(times, k) <= limit
    ensures Allowed(times, i, j, limit) == j - i
    decreases j
  {
    if i < j { AllWithin(times, i, j - 1, limit); }
  }

  /** The bound is met for every limit, by requests one millisecond apart at most. */
  lemma {:induction false} TheBoundIsMet(limit: nat)
    requires limit >= 1
    ensures var times := Burst(limit);
            && Ordered(times) && times[2 * limit - 1] - times[1] <= 1
            && Allowed(times, 1, 2 * limit, limit) == 2 * limit - 1
  {
    var times := Burst(limit);
    forall k | 1 <= k < 2 * limit ensures Answer(times, k) <= limit { BurstCounts(limit, k); }
    AllWithin(times, 1, 2 * limit, limit);
  }
}
