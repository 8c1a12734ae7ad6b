/**
 * The fee policy of every chain write in saturating 256-bit arithmetic
 * (p256-registrar/src/gas.rs:30-241).
 */
module Gas {
  import opened Basics

  const MAX: nat := 0xFFFF_FFFF_FFFF_FFFF_FFFF_FFFF_FFFF_FFFF_FFFF_FFFF_FFFF_FFFF_FFFF_FFFF_FFFF_FFFF
  const U128: nat := 0x1_0000_0000_0000_0000_0000_0000_0000_0000

  type Wei = x: nat | x <= MAX

  const DEFAULT_MAX_FEE_WEI: Wei := 10_000_000

  const BASE_FEE_HEADROOM_NUM: nat := 200
  const BASE_FEE_HEADROOM_DEN: nat := 100
  const REPLACEMENT_NUM: nat := 150
  const REPLACEMENT_DEN: nat := 100
  const MIN_REPLACEMENT_NUM: nat := 110
  const MIN_REPLACEMENT_DEN: nat := 100

  datatype FeePlan = FeePlan(maxFee: Wei, priority: Wei)

  datatype FeeVerdict = Send(plan: FeePlan) | TooExpensive(required: Wei, cap: Wei)

  function Min(a: Wei, b: Wei): Wei { if a <= b then a else b }
  function Max(a: Wei, b: Wei): Wei { if a <= b then b else a }
  function SatAdd(a: Wei, b: nat): Wei { if a + b <= MAX then a + b else MAX }
  function SatMul(a: Wei, k: nat): Wei { if a * k <= MAX then a * k else MAX }

  function MarketCeiling(base: Wei, tip: Wei): Wei {
    SatAdd(SatMul(base, BASE_FEE_HEADROOM_NUM) / BASE_FEE_HEADROOM_DEN, tip)
  }

  function PlanFees(base: Wei, tip: Wei, cap: Wei): FeeVerdict {
    var minimum := SatAdd(base, tip);
    if minimum > cap then TooExpensive(minimum, cap)
    else
      var maxFee := Min(MarketCeiling(base, tip), cap);
      Send(FeePlan(maxFee, Min(tip, maxFee)))
  }

  function StrictlyAbove(value: Wei, num: nat, den: nat): Wei
    requires den > 0
  {
    if value == 0 then 0
    else Max(SatAdd(SatMul(value, num), den - 1) / den, SatAdd(value, 1))
  }

  function Raised(value: Wei, times: nat): Wei {
    if times == 0 then value else StrictlyAbove(Raised(value, times - 1), REPLACEMENT_NUM, REPLACEMENT_DEN)
  }

  method Escalate(value: Wei, attempts: nat) returns (result: Wei)
    ensures result == Raised(value, if attempts < 16 then attempts else 16)
  {
    result := value;
    for i := 0 to if attempts < 16 then attempts else 16
      invariant result == Raised(value, i)
    {
      result := StrictlyAbove(result, REPLACEMENT_NUM, REPLACEMENT_DEN);
    }
  }

  /** The bid an unrecorded row is taken to have made. */
  function Assumed(base: Wei, tip: Wei, attempts: nat): FeePlan {
    var steps := if attempts < 16 then attempts else 16;
    var assumedTip := Raised(SatAdd(base, 1), steps);
    FeePlan(Max(Raised(MarketCeiling(base, tip), steps), assumedTip), assumedTip)
  }

  /** The cheapest bid that may replace `p`: both floors, and the price that makes it includable. */
  function Required(p: FeePlan, base: Wei): Wei {
    var feeFloor := StrictlyAbove(p.maxFee, MIN_REPLACEMENT_NUM, MIN_REPLACEMENT_DEN);
    var tipFloor := StrictlyAbove(p.priority, MIN_REPLACEMENT_NUM, MIN_REPLACEMENT_DEN);
    Max(Max(feeFloor, tipFloor), SatAdd(base, tipFloor))
  }

  function Outbid(p: FeePlan, base: Wei, tip: Wei, cap: Wei): FeePlan {
    var feeFloor := StrictlyAbove(p.maxFee, MIN_REPLACEMENT_NUM, MIN_REPLACEMENT_DEN);
    var tipFloor := StrictlyAbove(p.priority, MIN_REPLACEMENT_NUM, MIN_REPLACEMENT_DEN);
    var newTip := Min(Max(Max(Max(StrictlyAbove(p.priority, REPLACEMENT_NUM, REPLACEMENT_DEN), tipFloor), tip), 1), cap);
    var newMax := Min(Max(Max(Max(StrictlyAbove(p.maxFee, REPLACEMENT_NUM, REPLACEMENT_DEN), feeFloor),
                              MarketCeiling(base, tip)), newTip), cap);
    FeePlan(newMax, Min(newTip, newMax))
  }

  function PlanReplacement(previous: Option<FeePlan>, base: Wei, tip: Wei, cap: Wei, attempts: nat): FeeVerdict {
    var p := if previous.Some? then previous.value else Assumed(base, tip, attempts);
    if Required(p, base) > cap then TooExpensive(Required(p, base), cap) else Send(Outbid(p, base, tip, cap))
  }

  // ── The node's rule ──────────────────────────────────────────────────────

  /** A node takes the replacement: each fee strictly exceeds the old one and reaches 110% of it. */
  predicate Replaces(bid: FeePlan, prior: FeePlan) {
    && bid.maxFee > prior.maxFee && bid.priority > prior.priority
    && bid.maxFee * 100 >= prior.maxFee * 110 && bid.priority * 100 >= prior.priority * 110
  }

  /** Below this the product with 150 does not saturate. */
  lemma {:induction false} AboveIsExact(value: Wei, num: nat)
    requires num == 110 || num == 150
    requires value * num + 99 <= MAX
    ensures var r := StrictlyAbove(value, num, 100);
            && r * 100 >= value * num && (value > 0 ==> r > value)
            && (forall x: Wei | x * 100 >= value * num && (value > 0 ==> x > value) :: r <= x)
  {}

  /** A floor under a 128-bit cap was computed without saturation. */
  lemma {:induction false} FloorIsExact(value: Wei, cap: Wei)
    requires StrictlyAbove(value, 110, 100) <= cap < U128
    ensures value * 110 <= cap * 100 && value <= cap && value * 150 + 99 <= MAX
  {}

  // ── Replacements ─────────────────────────────────────────────────────────

  /** Every replacement that is sent clears the node's rule, is well formed, stays under the cap
      and can be included in a block at this base fee. */
  lemma {:induction false} SentReplacementReplaces(p: FeePlan, base: Wei, tip: Wei, cap: Wei, attempts: nat)
    requires 1 <= cap < U128 && PlanReplacement(Some(p), base, tip, cap, attempts).Send?
    ensures var bid := PlanReplacement(Some(p), base, tip, cap, attempts).plan;
            && Replaces(bid, p) && bid.priority <= bid.maxFee <= cap && base <= bid.maxFee
    ensures p.maxFee * 150 + 99 <= MAX && p.priority * 150 + 99 <= MAX && base * 200 <= MAX  // nothing saturated
  {
    FloorIsExact(p.maxFee, cap);
    FloorIsExact(p.priority, cap);
    AboveIsExact(p.maxFee, 110);
    AboveIsExact(p.priority, 110);
  }

  /** A cap of zero is the one 128-bit cap under which a bid that does not replace is sent. */
  lemma {:induction false} RaisedExactlyUnderAPositiveCap(cap: Wei)
    requires cap < U128
    ensures cap >= 1 <==>
            forall p, base, tip, attempts :: PlanReplacement(Some(p), base, tip, cap, attempts).Send? ==>
              Replaces(PlanReplacement(Some(p), base, tip, cap, attempts).plan, p)
  {
    if cap == 0 {
      assert PlanReplacement(Some(FeePlan(0, 0)), 0, 0, 0, 0) == Send(FeePlan(0, 0));
    } else {
      forall p, base, tip, attempts | PlanReplacement(Some(p), base, tip, cap, attempts).Send?
        ensures Replaces(PlanReplacement(Some(p), base, tip, cap, attempts).plan, p)
      {
        SentReplacementReplaces(p, base, tip, cap, attempts);
      }
    }
  }

  /** A bid that would do: it clears both floors and pays its own tip at this base fee. */
  predicate WouldDo(bid: FeePlan, p: FeePlan, base: Wei) {
    && bid.maxFee * 100 >= p.maxFee * 110 && bid.priority * 100 >= p.priority * 110
    && (p.maxFee > 0 ==> bid.maxFee > p.maxFee) && (p.priority > 0 ==> bid.priority > p.priority)
    && base + bid.priority <= bid.maxFee
  }

  lemma {:induction false} CheapestWouldDo(p: FeePlan, base: Wei, cap: Wei)
    requires Required(p, base) <= cap < U128
    ensures WouldDo(FeePlan(Required(p, base), StrictlyAbove(p.priority, 110, 100)), p, base)
  {
    FloorIsExact(p.maxFee, cap);
    FloorIsExact(p.priority, cap);
    AboveIsExact(p.maxFee, 110);
    AboveIsExact(p.priority, 110);
  }

  lemma {:induction false} NothingCheaperWouldDo(p: FeePlan, base: Wei, bid: FeePlan)
    requires WouldDo(bid, p, base) && bid.maxFee < U128
    ensures Required(p, base) <= bid.maxFee
  {
    AboveIsExact(p.maxFee, 110);
    AboveIsExact(p.priority, 110);
  }

  /** The replacement is refused only when no bid under the cap would do. */
  lemma {:induction false} RefusedOnlyWhenNothingFits(p: FeePlan, base: Wei, tip: Wei, cap: Wei, attempts: nat)
    requires cap < U128
    ensures PlanReplacement(Some(p), base, tip, cap, attempts).Send? <==>
            exists bid: FeePlan :: WouldDo(bid, p, base) && bid.maxFee <= cap
  {
    if Required(p, base) <= cap { CheapestWouldDo(p, base, cap); }
    forall bid: FeePlan | WouldDo(bid, p, base) && bid.maxFee <= cap ensures Required(p, base) <= cap {
      NothingCheaperWouldDo(p, base, bid);
    }
  }

  /** A row without a recorded price is outbid whenever its real bid is within the assumed one. */
  lemma {:induction false} BlindBidReplaces(actual: FeePlan, base: Wei, tip: Wei, cap: Wei, attempts: nat)
    requires 1 <= cap < U128 && PlanReplacement(None, base, tip, cap, attempts).Send?
    requires actual.maxFee <= Assumed(base, tip, attempts).maxFee
    requires actual.priority <= Assumed(base, tip, attempts).priority
    ensures Replaces(PlanReplacement(None, base, tip, cap, attempts).plan, actual)
  {
    SentReplacementReplaces(Assumed(base, tip, attempts), base, tip, cap, attempts);
  }

  // ── The ladder ends ──────────────────────────────────────────────────────

  /** One rung: half as much again, or the cap. */
  lemma {:induction false} RungClimbs(p: FeePlan, base: Wei, tip: Wei, cap: Wei, attempts: nat)
    requires 1 <= cap < U128 && PlanReplacement(Some(p), base, tip, cap, attempts).Send?
    ensures var bid := PlanReplacement(Some(p), base, tip, cap, attempts).plan;
            p.maxFee < cap && (bid.maxFee * 2 >= p.maxFee * 3 || bid.maxFee == cap)
  {
    SentReplacementReplaces(p, base, tip, cap, attempts);
    FloorIsExact(p.maxFee, cap);
    AboveIsExact(p.maxFee, 150);
  }

  datatype Market = Market(base: Wei, tip: Wei, attempts: nat)

  /** Successive bids for one nonce, whatever the market does between them. */
  predicate Ladder(bids: seq<FeePlan>, markets: seq<Market>, cap: Wei) {
    && |bids| == |markets| + 1
    && forall i | 0 <= i < |markets| :: Rung(bids[i], bids[i + 1], markets[i], cap)
  }

  predicate Rung(p: FeePlan, bid: FeePlan, market: Market, cap: Wei) {
    PlanReplacement(Some(p), market.base, market.tip, cap, market.attempts) == Send(bid)
  }

  function Pow(b: nat, e: nat): nat { if e == 0 then 1 else b * Pow(b, e - 1) }

  lemma {:induction false} RungIsSteep(p: FeePlan, bid: FeePlan, market: Market, cap: Wei)
    requires 1 <= cap < U128 && Rung(p, bid, market, cap)
    ensures p.maxFee < cap && (bid.maxFee * 2 >= p.maxFee * 3 || bid.maxFee == cap)
  {
    RungClimbs(p, market.base, market.tip, cap, market.attempts);
  }

  /** After i rungs a ladder from `start` stands at least this high. */
  predicate Climbed(start: nat, bid: nat, i: nat) {
    start * Pow(3, i) <= bid * Pow(2, i)
  }

  /** Fees below the cap that rise by half as much again, until the last may be the cap. */
  predicate Steep(fees: seq<nat>, cap: nat) {
    forall i | 0 <= i < |fees| - 1 :: fees[i] < cap && (fees[i + 1] * 2 >= fees[i] * 3 || fees[i + 1] == cap)
  }

  lemma {:induction false} SteepClimbs(fees: seq<nat>, cap: nat, i: nat)
    requires Steep(fees, cap) && i < |fees| - 1
    ensures Climbed(fees[0], fees[i], i)
  {
    if i > 0 {
      SteepClimbs(fees, cap, i - 1);
      ClimbsOn(fees[0], fees[i - 1], fees[i], i - 1);
    }
  }

  function MaxFees(bids: seq<FeePlan>): seq<nat> {
    seq(|bids|, i requires 0 <= i < |bids| => bids[i].maxFee as nat)
  }

  lemma {:induction false} LadderIsSteep(bids: seq<FeePlan>, markets: seq<Market>, cap: Wei)
    requires 1 <= cap < U128 && Ladder(bids, markets, cap)
    ensures Steep(MaxFees(bids), cap)
  {
    forall i | 0 <= i < |markets|
      ensures bids[i].maxFee < cap && (bids[i + 1].maxFee * 2 >= bids[i].maxFee * 3 || bids[i + 1].maxFee == cap)
    {
      RungIsSteep(bids[i], bids[i + 1], markets[i], cap);
    }
  }

  lemma {:induction false} Compound(start: nat, a: nat, b: nat, three: nat, two: nat)
    requires start * three <= a * two && a * 3 <= b * 2
    ensures start * (3 * three) <= b * (2 * two)
  {
    calc {
      start * (3 * three);
      == (start * three) * 3;
      <= (a * two) * 3;
      == (a * 3) * two;
      <= { Scale(a * 3, b * 2, two); }
      (b * 2) * two;
      == b * (2 * two);
    }
  }

  lemma {:induction false} ClimbsOn(start: nat, a: nat, b: nat, i: nat)
    requires Climbed(start, a, i) && a * 3 <= b * 2
    ensures Climbed(start, b, i + 1)
  {
    Compound(start, a, b, Pow(3, i), Pow(2, i));
  }

  lemma {:induction false} Scale(a: nat, b: nat, k: nat)
    requires a <= b
    ensures a * k <= b * k
  {}

  /** k replacements of one nonce fit under the cap only while start * (3/2)^(k-1) does, so the
      ladder is logarithmically short however base fee and tip move. */
  lemma {:induction false} LadderEnds(bids: seq<FeePlan>, markets: seq<Market>, cap: Wei)
    requires 1 <= cap < U128 && Ladder(bids, markets, cap) && markets != []
    ensures bids[0].maxFee * Pow(3, |markets| - 1) <= cap * Pow(2, |markets| - 1)
  {
    var last := |markets| - 1;
    LadderIsSteep(bids, markets, cap);
    SteepClimbs(MaxFees(bids), cap, last);
    Scale(bids[last].maxFee, cap, Pow(2, last));
  }

  lemma {:induction false} Associates(a: nat, b: nat, c: nat)
    ensures a * (b * c) == (a * b) * c
  {}

  lemma {:induction false} PowSplits(b: nat, m: nat, n: nat)
    ensures Pow(b, m + n) == Pow(b, m) * Pow(b, n)
  {
    if m > 0 {
      PowSplits(b, m - 1, n);
      Associates(b, Pow(b, m - 1), Pow(b, n));
    }
  }

  lemma {:induction false} FortyRungs()
    ensures Pow(3, 40) > DEFAULT_MAX_FEE_WEI * Pow(2, 40)
  {
    assert Pow(3, 1) == 3 && Pow(3, 2) == 9 && Pow(3, 3) == 27 && Pow(3, 4) == 81 && Pow(3, 5) == 243;
    assert Pow(2, 1) == 2 && Pow(2, 2) == 4 && Pow(2, 3) == 8 && Pow(2, 4) == 16 && Pow(2, 5) == 32;
    PowSplits(3, 5, 5);
    PowSplits(2, 5, 5);
    PowSplits(3, 10, 10);
    PowSplits(2, 10, 10);
    PowSplits(3, 20, 20);
    PowSplits(2, 20, 20);
  }

  /** Under the default cap a nonce with any recorded price is replaced at most forty times. */
  lemma {:induction false} DefaultLadderIsShort(bids: seq<FeePlan>, markets: seq<Market>)
    requires Ladder(bids, markets, DEFAULT_MAX_FEE_WEI) && bids[0].maxFee >= 1
    ensures |markets| <= 40
  {
    if |markets| > 40 {
      FortyRungs();
      LadderEnds(bids[..42], markets[..41], DEFAULT_MAX_FEE_WEI);
      Scale(1, bids[0].maxFee, Pow(3, 40));
    }
  }

  /** A bid at the cap is never raised again. */
  lemma {:induction false} NothingFollowsTheCap(p: FeePlan, base: Wei, tip: Wei, cap: Wei, attempts: nat)
    requires 1 <= cap < U128 && p.maxFee >= cap
    ensures PlanReplacement(Some(p), base, tip, cap, attempts).TooExpensive?
  {
    if PlanReplacement(Some(p), base, tip, cap, attempts).Send? { RungClimbs(p, base, tip, cap, attempts); }
  }

  // ── Fresh prices ─────────────────────────────────────────────────────────

  /** A fresh price is sent exactly when base fee and tip fit; then the tip is paid in full. */
  lemma {:induction false} SentExactlyWhenItFits(base: Wei, tip: Wei, cap: Wei)
    requires cap < U128
    ensures PlanFees(base, tip, cap).Send? <==> base + tip <= cap
    ensures PlanFees(base, tip, cap).Send? ==>
              var plan := PlanFees(base, tip, cap).plan;
              plan.priority == tip && base + tip <= plan.maxFee <= cap
  {}

  /** The most a base fee may grow from one block to the next (EIP-1559, section Specification). */
  function Grown(base: nat): nat { base + if base / 8 >= 1 then base / 8 else 1 }

  predicate Blocks(bases: seq<nat>) {
    forall i | 0 <= i < |bases| - 1 :: bases[i + 1] <= Grown(bases[i])
  }

  function GrownTimes(base: nat, n: nat): nat { if n == 0 then base else Grown(GrownTimes(base, n - 1)) }

  lemma {:induction false} GrownIsMonotone(a: nat, b: nat)
    requires a <= b
    ensures Grown(a) <= Grown(b) && a < Grown(a)
  {}

  lemma {:induction false} WithinGrowth(bases: seq<nat>, i: nat)
    requires Blocks(bases) && i < |bases|
    ensures bases[i] <= GrownTimes(bases[0], i)
  {
    if i > 0 {
      WithinGrowth(bases, i - 1);
      GrownIsMonotone(bases[i - 1], GrownTimes(bases[0], i - 1));
    }
  }

  lemma {:induction false} FiveGrowths(b0: nat, b1: nat, b2: nat, b3: nat, b4: nat, b5: nat)
    requires b1 == Grown(b0) && b2 == Grown(b1) && b3 == Grown(b2) && b4 == Grown(b3) && b5 == Grown(b4)
    ensures b0 < b1 < b2 < b3 < b4 < b5 <= 2 * b0 + 5
  {
    if b0 >= 8 {
      assert b1 * 8 <= b0 * 9 && b2 * 8 <= b1 * 9 && b3 * 8 <= b2 * 9 && b4 * 8 <= b3 * 9 && b5 * 8 <= b4 * 9;
    }
  }

  lemma {:induction false} FiveBlocks(base: nat, n: nat)
    requires n <= 5
    ensures GrownTimes(base, n) <= 2 * base + 5
  {
    var b0, b1, b2 := GrownTimes(base, 0), GrownTimes(base, 1), GrownTimes(base, 2);
    var b3, b4, b5 := GrownTimes(base, 3), GrownTimes(base, 4), GrownTimes(base, 5);
    FiveGrowths(b0, b1, b2, b3, b4, b5);
  }

  /** Block after block of the most growth that is permitted. */
  function FullBlocks(base: nat, n: nat): seq<nat> {
    seq(n + 1, i requires 0 <= i <= n => GrownTimes(base, i))
  }

  lemma {:induction false} GrowsOn(base: nat, i: nat, j: nat)
    requires i <= j
    ensures GrownTimes(base, i) <= GrownTimes(base, j)
    decreases j
  {
    if i < j { GrowsOn(base, i, j - 1); }
  }

  /** The price covers the base fee of every block of every permitted stretch of n further blocks. */
  ghost predicate Outlasts(price: nat, base: nat, n: nat) {
    forall bases: seq<nat> | Blocks(bases) && 0 < |bases| <= n + 1 && bases[0] == base ::
      forall i | 0 <= i < |bases| :: bases[i] <= price
  }

  lemma {:induction false} OutlastsExactly(price: nat, base: nat, n: nat)
    ensures Outlasts(price, base, n) <==> GrownTimes(base, n) <= price
  {
    var full := FullBlocks(base, n);
    assert Blocks(full) && full[0] == base && full[n] == GrownTimes(base, n);
    forall bases: seq<nat>, i | Blocks(bases) && 0 < |bases| <= n + 1 && bases[0] == base && 0 <= i < |bases|
      ensures bases[i] <= GrownTimes(base, n)
    {
      WithinGrowth(bases, i);
      GrowsOn(base, i, n);
    }
  }

  /** An unclamped price outlasts n blocks of any permitted growth exactly when the base fee grown
      n times in full still fits under twice the base fee plus the tip. */
  lemma {:induction false} PriceOutlastsExactly(base: Wei, tip: Wei, cap: Wei, n: nat)
    requires cap < U128 && MarketCeiling(base, tip) <= cap
    ensures PlanFees(base, tip, cap).Send?
    ensures Outlasts(PlanFees(base, tip, cap).plan.maxFee, base, n) <==> GrownTimes(base, n) <= 2 * base + tip
  {
    OutlastsExactly(PlanFees(base, tip, cap).plan.maxFee, base, n);
  }

  /** Every unclamped price with this tip outlasts five blocks of any permitted growth. */
  ghost predicate FiveBlocksAreCovered(tip: Wei) {
    forall base: Wei, cap: Wei | cap < U128 && MarketCeiling(base, tip) <= cap ::
      PlanFees(base, tip, cap).Send? && Outlasts(PlanFees(base, tip, cap).plan.maxFee, base, 5)
  }

  /** Five blocks are covered whatever the base fee exactly with a tip of five or more. */
  lemma {:induction false} FiveBlocksExactly(tip: Wei)
    ensures FiveBlocksAreCovered(tip) <==> tip >= 5
  {
    if tip >= 5 {
      forall base: Wei, cap: Wei | cap < U128 && MarketCeiling(base, tip) <= cap
        ensures PlanFees(base, tip, cap).Send? && Outlasts(PlanFees(base, tip, cap).plan.maxFee, base, 5)
      {
        PriceOutlastsExactly(base, tip, cap, 5);
        FiveBlocks(base, 5);
      }
    } else {
      PriceOutlastsExactly(0, tip, 100, 5);
      assert GrownTimes(0, 1) == 1 && GrownTimes(0, 2) == 2 && GrownTimes(0, 3) == 3;
      assert GrownTimes(0, 4) == 4;
    }
  }

  // ── Six blocks ───────────────────────────────────────────────────────────

  lemma {:induction false} SixGrowths(b0: nat, b1: nat, b2: nat, b3: nat, b4: nat, b5: nat, b6: nat)
    requires b1 == Grown(b0) && b2 == Grown(b1) && b3 == Grown(b2) && b4 == Grown(b3) && b5 == Grown(b4) && b6 == Grown(b5)
    requires b0 >= 8
    ensures 262144 * b6 <= 531441 * b0
  {
    assert b1 * 8 <= b0 * 9 && b2 * 8 <= b1 * 9 && b3 * 8 <= b2 * 9 && b4 * 8 <= b3 * 9 && b5 * 8 <= b4 * 9 && b6 * 8 <= b5 * 9;
  }

  lemma {:induction false} SixTimes(base: nat)
    ensures GrownTimes(base, 6) == Grown(Grown(Grown(Grown(Grown(Grown(base))))))
  {
    assert GrownTimes(base, 1) == Grown(base);
    assert GrownTimes(base, 2) == Grown(Grown(base));
    assert GrownTimes(base, 3) == Grown(Grown(Grown(base)));
    assert GrownTimes(base, 4) == Grown(Grown(Grown(Grown(base))));
    assert GrownTimes(base, 5) == Grown(Grown(Grown(Grown(Grown(base)))));
  }

  /** (9/8)^6 = 531441/262144: six blocks are covered while the tip is at least 7153/262144 of the
      base fee, about 2.73 percent. */
  lemma {:induction false} SixBlocksUnderALargeTip(base: Wei, tip: Wei, cap: Wei)
    requires cap < U128 && MarketCeiling(base, tip) <= cap
    requires base >= 8 && 7153 * base <= 262144 * tip
    ensures Outlasts(PlanFees(base, tip, cap).plan.maxFee, base, 6)
  {
    PriceOutlastsExactly(base, tip, cap, 6);
    SixTimes(base);
    var b1, b2, b3 := Grown(base), Grown(Grown(base)), Grown(Grown(Grown(base)));
    SixGrowths(base, b1, b2, b3, Grown(b3), Grown(Grown(b3)), Grown(Grown(Grown(b3))));
  }

  lemma {:induction false} MultiplesGrowExactly(m: nat)
    requires m >= 1
    ensures GrownTimes(262144 * m, 6) == 531441 * m
  {
    SixTimes(262144 * m);
    assert Grown(262144 * m) == 294912 * m;
    assert Grown(294912 * m) == 331776 * m;
    assert Grown(331776 * m) == 373248 * m;
    assert Grown(373248 * m) == 419904 * m;
    assert Grown(419904 * m) == 472392 * m;
    assert Grown(472392 * m) == 531441 * m;
  }

  /** For every tip there is a base fee at which six blocks are too many. */
  lemma {:induction false} SixBlocksAreTooManySomewhere(tip: Wei, cap: Wei)
    requires 524288 * (tip + 1) + tip <= cap < U128
    ensures var base: Wei := 262144 * (tip + 1);
            && MarketCeiling(base, tip) <= cap && !Outlasts(PlanFees(base, tip, cap).plan.maxFee, base, 6)
  {
    var base: Wei := 262144 * (tip + 1);
    PriceOutlastsExactly(base, tip, cap, 6);
    MultiplesGrowExactly(tip + 1);
  }

  // ── Prices in closed form ────────────────────────────────────────────────

  /** Half as much again, rounded up. */
  function Half(x: nat): nat { (3 * x + 1) / 2 }

  /** A tenth more, rounded up, and more than before; zero stays zero. */
  function Tenth(x: nat): nat { if x == 0 then 0 else if (11 * x + 9) / 10 > x then (11 * x + 9) / 10 else x + 1 }

  function Larger(a: nat, b: nat): nat { if a <= b then b else a }
  function Smaller(a: nat, b: nat): nat { if a <= b then a else b }

  /** A fresh price: twice the base fee plus the tip, or the cap; refused at what base fee and tip
      come to. */
  lemma {:induction false} FreshPriceExactly(base: Wei, tip: Wei, cap: Wei)
    requires cap < U128
    ensures base + tip <= cap ==> PlanFees(base, tip, cap) == Send(FeePlan(Smaller(2 * base + tip, cap), tip))
    ensures base + tip > cap ==> PlanFees(base, tip, cap) == TooExpensive(Smaller(base + tip, MAX), cap)
  {}

  lemma {:induction false} AboveInClosedForm(value: Wei)
    requires value * 150 + 99 <= MAX
    ensures StrictlyAbove(value, 150, 100) == Half(value) && StrictlyAbove(value, 110, 100) == Tenth(value)
    ensures Tenth(value) <= Half(value)
  {}

  lemma {:induction false} MarketInClosedForm(base: Wei, tip: Wei)
    requires base * 200 + tip <= MAX
    ensures MarketCeiling(base, tip) == 2 * base + tip
  {}

  /** The smallest fee that would do over `p`. */
  function Floor(p: FeePlan, base: Wei): nat { Larger(Larger(Tenth(p.maxFee), Tenth(p.priority)), base + Tenth(p.priority)) }

  /** The tip and the fee of a replacement: both half as much again, the tip at least the usual one,
      the fee at least a fresh one and at least the tip, all under the cap. */
  function TipOver(p: FeePlan, tip: Wei, cap: Wei): nat { Smaller(Larger(Larger(Half(p.priority), tip), 1), cap) }

  function FeeOver(p: FeePlan, base: Wei, tip: Wei, cap: Wei): nat {
    Smaller(Larger(Larger(Half(p.maxFee), 2 * base + tip), TipOver(p, tip, cap)), cap)
  }

  /** No number on the way saturates. */
  predicate Moderate(p: FeePlan, base: Wei, tip: Wei) {
    p.maxFee * 150 + 99 <= MAX && p.priority * 150 + 99 <= MAX && base * 200 + tip <= MAX && base + 2 * p.priority <= MAX
  }

  lemma {:induction false} FloorInClosedForm(p: FeePlan, base: Wei, tip: Wei)
    requires Moderate(p, base, tip)
    ensures Required(p, base) == Floor(p, base)
  {
    AboveInClosedForm(p.maxFee);
    AboveInClosedForm(p.priority);
  }

  lemma {:induction false} OutbidInClosedForm(p: FeePlan, base: Wei, tip: Wei, cap: Wei)
    requires Moderate(p, base, tip)
    ensures Outbid(p, base, tip, cap).priority == TipOver(p, tip, cap) && Outbid(p, base, tip, cap).maxFee == FeeOver(p, base, tip, cap)
  {
    AboveInClosedForm(p.maxFee);
    AboveInClosedForm(p.priority);
    MarketInClosedForm(base, tip);
  }

  /** A replacement over a known price in closed form; refused at the smallest fee that would do. */
  lemma {:induction false} ReplacementExactly(p: FeePlan, base: Wei, tip: Wei, cap: Wei, attempts: nat)
    requires Moderate(p, base, tip)
    ensures Floor(p, base) <= MAX && TipOver(p, tip, cap) <= MAX && FeeOver(p, base, tip, cap) <= MAX
    ensures PlanReplacement(Some(p), base, tip, cap, attempts) ==
            if Floor(p, base) > cap then TooExpensive(Floor(p, base), cap)
            else Send(FeePlan(FeeOver(p, base, tip, cap), TipOver(p, tip, cap)))
  {
    FloorInClosedForm(p, base, tip);
    OutbidInClosedForm(p, base, tip, cap);
  }

  /** Raised by half k times. */
  function Halved(x: nat, k: nat): nat { if k == 0 then x else Half(Halved(x, k - 1)) }

  lemma {:induction false} RaisedInClosedForm(value: Wei, k: nat)
    requires Halved(value, k) * 150 + 99 <= MAX
    ensures Raised(value, k) == Halved(value, k)
  {
    if k > 0 {
      assert Halved(value, k - 1) <= Halved(value, k);
      RaisedInClosedForm(value, k - 1);
      AboveInClosedForm(Raised(value, k - 1));
    }
  }

  /** What a row without a price is taken to have bid: base + 1 as tip and a fresh price as fee, both
      raised by half once per attempt, sixteen times at most. */
  lemma {:induction false} AssumedExactly(base: Wei, tip: Wei, attempts: nat)
    requires base * 200 + tip <= MAX && base < MAX
    requires Halved(base + 1, Smaller(attempts, 16)) * 150 + 99 <= MAX && Halved(2 * base + tip, Smaller(attempts, 16)) * 150 + 99 <= MAX
    ensures var steps, assumed := Smaller(attempts, 16), Assumed(base, tip, attempts);
            && assumed.priority == Halved(base + 1, steps)
            && assumed.maxFee == Larger(Halved(2 * base + tip, steps), Halved(base + 1, steps))
  {
    MarketInClosedForm(base, tip);
    RaisedInClosedForm(base + 1, Smaller(attempts, 16));
    RaisedInClosedForm(2 * base + tip, Smaller(attempts, 16));
  }

  /** Its replacement is the one over that bid. */
  lemma {:induction false} BlindReplacementExactly(p: FeePlan, base: Wei, tip: Wei, cap: Wei, attempts: nat)
    requires base < MAX && Moderate(p, base, tip)
    requires p.priority == Halved(base + 1, Smaller(attempts, 16))
    requires p.maxFee == Larger(Halved(2 * base + tip, Smaller(attempts, 16)), p.priority)
    ensures Floor(p, base) <= MAX && TipOver(p, tip, cap) <= MAX && FeeOver(p, base, tip, cap) <= MAX
    ensures PlanReplacement(None, base, tip, cap, attempts) ==
            if Floor(p, base) > cap then TooExpensive(Floor(p, base), cap)
            else Send(FeePlan(FeeOver(p, base, tip, cap), TipOver(p, tip, cap)))
  {
    AssumedExactly(base, tip, attempts);
    ReplacementExactly(p, base, tip, cap, attempts);
  }
}
