/** What the bid collateral figures mean, and that the fast form is the simple one. */
module BidCollateral {
  import opened MachineInts
  import opened Rounding
  import opened LevelOps
  import opened MakerBooks

  ghost predicate HasActive(levels: seq<MakerLevel>) {
    exists i :: 0 <= i < |levels| && levels[i].IsActive()
  }

  function PriceAt(level: MakerLevel, mid: u64): nat {
    Max(mid + level.priceOffsetTicks, 0)
  }

  /** Lot-ticks of one level. */
  function LevelNotional(level: MakerLevel, mid: u64): nat {
    level.sizeInBaseLots * PriceAt(level, mid)
  }

  /** Exact backing of one level. */
  function LevelCeil(level: MakerLevel, mid: u64, num: nat, den: nat): nat
    requires den > 0
  {
    Ceil(LevelNotional(level, mid) * num, den)
  }

  /** Exact lot-ticks of notional. */
  function Notional(levels: seq<MakerLevel>, mid: u64): nat {
    if levels == [] then 0
    else
      var level := levels[|levels| - 1];
      Notional(levels[..|levels| - 1], mid) + LevelNotional(level, mid)
  }

  /** Exact sum of the per-level ceilings. */
  function CeilSum(levels: seq<MakerLevel>, mid: u64, num: nat, den: nat): nat
    requires den > 0
  {
    if levels == [] then 0
    else
      var level := levels[|levels| - 1];
      CeilSum(levels[..|levels| - 1], mid, num, den)
        + LevelCeil(level, mid, num, den)
  }

  /** Equal as far as a caller who ignores the error kind can tell. */
  predicate SameOutcome<T(==)>(a: Result<T, ArcherError>, b: Result<T, ArcherError>) {
    && (a.Ok? <==> b.Ok?)
    && (a.Ok? && b.Ok? ==> a.value == b.value)
  }

  lemma {:induction false} ProductFits(a: u64, b: u64)
    ensures 0 <= a * b <= U64_MAX * U64_MAX
    ensures a * b <= U128_MAX - 2 * U64_MAX
  {
    MulMono(a, U64_MAX, b);
    MulMono(b, U64_MAX, U64_MAX);
  }

  lemma {:induction false} ZeroDenominator(num: u64, size: u64, price: u64, notional: nat, x: nat)
    requires notional == size * price && notional <= U128_MAX
    requires x == notional * num
    ensures ComputeQuoteLotsCeiling(num, 0, size, price)
              == Err(if x <= U128_MAX then ArithmeticUnderflow else ArithmeticOverflow)
  {
  }

  /** None of the u128 intermediates decides: the ceiling is refused exactly when
      the denominator is zero or the rounded result leaves u64. */
  lemma {:induction false} CeilingExact(num: u64, den: u64, size: u64, price: u64)
    ensures den == 0 ==>
              ComputeQuoteLotsCeiling(num, den, size, price)
                == Err(if size * price * num <= U128_MAX then ArithmeticUnderflow else ArithmeticOverflow)
    ensures den > 0 ==>
              var exact := Ceil(size * price * num, den);
              ComputeQuoteLotsCeiling(num, den, size, price)
                == if exact <= U64_MAX then Ok(exact) else Err(ArithmeticOverflow)
  {
    if den > 0 {
      var x := size * price * num;
      ProductFits(size, price);
      CeilLe(x, den, U64_MAX);
      ProductFits(U64_MAX, den);
      assert size * price >= 0;
      MulMono(0, num, size * price);
    } else {
      ProductFits(size, price);
      MulMono(0, num, size * price);
      ZeroDenominator(num, size, price, size * price, size * price * num);
    }
  }

  lemma {:induction false} EmptyLevelIsFree(level: MakerLevel, mid: u64, num: u64, den: u64)
    requires den > 0 && !level.IsActive()
    ensures LevelNotional(level, mid) == 0 && LevelCeil(level, mid, num, den) == 0
  {
    assert LevelNotional(level, mid) * num == 0;
    ExactDivision(0, den);
  }

  lemma {:induction false} LevelCeilingExact(level: MakerLevel, mid: u64, num: u64, den: u64)
    requires den > 0
    ensures var exact := LevelCeil(level, mid, num, den);
            && (!level.IsActive() ==> exact == 0)
            && (level.AbsolutePrice(mid).Some? ==>
                  ComputeQuoteLotsCeiling(num, den, level.sizeInBaseLots, level.AbsolutePrice(mid).value)
                    == if exact <= U64_MAX then Ok(exact) else Err(ArithmeticOverflow))
  {
    if level.AbsolutePrice(mid).Some? {
      CeilingExact(num, den, level.sizeInBaseLots, level.AbsolutePrice(mid).value);
    }
    if !level.IsActive() {
      EmptyLevelIsFree(level, mid, num, den);
    }
  }

  lemma {:induction false} PricedSplit(levels: seq<MakerLevel>, mid: u64)
    requires levels != []
    ensures var n := |levels| - 1;
            Priced(levels, mid) <==>
            Priced(levels[..n], mid) && (levels[n].IsActive() ==> levels[n].AbsolutePrice(mid).Some?)
  {
    var n := |levels| - 1;
    assert forall i | 0 <= i < n :: levels[..n][i] == levels[i];
  }

  /** An overflow only if the figure does not fit, an invalid price only if a level has
      none. */
  ghost predicate RefusedFor(error: ArcherError, priced: bool, fits: bool) {
    (error == ArithmeticOverflow && !fits) || (error == InvalidPrice && !priced)
  }

  lemma {:induction false} CeilingTotalExact(levels: seq<MakerLevel>, mid: u64, num: u64, den: u64)
    requires den > 0
    ensures CeilingTotal(levels, mid, num, den).Ok? <==>
            Priced(levels, mid) && CeilSum(levels, mid, num, den) <= U64_MAX
    ensures CeilingTotal(levels, mid, num, den).Ok? ==>
            CeilingTotal(levels, mid, num, den).value == CeilSum(levels, mid, num, den)
    ensures CeilingTotal(levels, mid, num, den).Err? ==>
              RefusedFor(CeilingTotal(levels, mid, num, den).error, Priced(levels, mid),
                         CeilSum(levels, mid, num, den) <= U64_MAX)
  {
    if levels != [] {
      var n := |levels| - 1;
      CeilingTotalExact(levels[..n], mid, num, den);
      PricedSplit(levels, mid);
      LevelCeilingExact(levels[n], mid, num, den);
    }
  }

  lemma {:induction false} LevelNotionalFits(level: MakerLevel, mid: u64)
    ensures !level.IsActive() ==> LevelNotional(level, mid) == 0
    ensures level.AbsolutePrice(mid).Some? ==>
              && LevelNotional(level, mid) == level.sizeInBaseLots * (mid + level.priceOffsetTicks)
              && LevelNotional(level, mid) <= U128_MAX
  {
    if level.AbsolutePrice(mid).Some? {
      ProductFits(level.sizeInBaseLots, level.AbsolutePrice(mid).value);
    }
  }

  lemma {:induction false} WeightedTotalExact(levels: seq<MakerLevel>, mid: u64)
    requires mid <= I64_MAX
    ensures WeightedTotal(levels, mid).Ok? <==> Priced(levels, mid) && Notional(levels, mid) <= U128_MAX
    ensures WeightedTotal(levels, mid).Ok? ==> WeightedTotal(levels, mid).value == Notional(levels, mid)
    ensures WeightedTotal(levels, mid).Err? ==>
              RefusedFor(WeightedTotal(levels, mid).error, Priced(levels, mid), Notional(levels, mid) <= U128_MAX)
  {
    if levels != [] {
      var n := |levels| - 1;
      WeightedTotalExact(levels[..n], mid);
      PricedSplit(levels, mid);
      LevelNotionalFits(levels[n], mid);
    }
  }

  lemma {:induction false} ScaledCeil(w: nat, num: nat, den: nat, k: nat)
    requires den > 0 && num == k * den
    ensures Ceil(w * num, den) == k * w
  {
    assert w * num == (k * w) * den;
    ExactDivision(k * w, den);
  }

  lemma {:induction false} Distribute(k: nat, a: nat, b: nat)
    ensures k * (a + b) == k * a + k * b
  {
  }

  /** With an integral conversion every per-level ceiling is exact. */
  lemma {:induction false} CeilSumIsScaledNotional(levels: seq<MakerLevel>, mid: u64, num: u64, den: u64, k: nat)
    requires den > 0 && num == k * den
    ensures CeilSum(levels, mid, num, den) == k * Notional(levels, mid)
  {
    if levels != [] {
      var n := |levels| - 1;
      var level := levels[n];
      CeilSumIsScaledNotional(levels[..n], mid, num, den, k);
      var w := LevelNotional(level, mid);
      ScaledCeil(w, num, den, k);
      Distribute(k, Notional(levels[..n], mid), w);
    }
  }

  /** The exact sum depends only on the ratio of the pair. */
  lemma {:induction false} CeilSumOfRatio(levels: seq<MakerLevel>, mid: u64, num: nat, den: nat, num': nat, den': nat)
    requires den > 0 && den' > 0 && SameRatio(num, den, num', den')
    ensures CeilSum(levels, mid, num, den) == CeilSum(levels, mid, num', den')
  {
    if levels != [] {
      var n := |levels| - 1;
      CeilSumOfRatio(levels[..n], mid, num, den, num', den');
      CeilOfRatio(LevelNotional(levels[n], mid), num, den, num', den');
    }
  }

  lemma {:induction false} ClosedFormExact(b: MakerBook, k: u64)
    requires b.midPriceTicks <= I64_MAX
    ensures var w := Notional(b.bidLevels, b.midPriceTicks);
            && (ClosedForm(b, k).Ok? <==> Priced(b.bidLevels, b.midPriceTicks) && w <= U128_MAX && w * k <= U64_MAX)
            && (ClosedForm(b, k).Ok? ==> ClosedForm(b, k).value == w * k)
            && (ClosedForm(b, k).Err? ==>
                  RefusedFor(ClosedForm(b, k).error, Priced(b.bidLevels, b.midPriceTicks),
                             w <= U128_MAX && w * k <= U64_MAX))
  {
    WeightedTotalExact(b.bidLevels, b.midPriceTicks);
    MulMono(0, k, Notional(b.bidLevels, b.midPriceTicks));
  }

  lemma {:induction false} PositiveScaleBounds(w: nat, k: nat)
    requires k > 0
    ensures w <= w * k
  {
    MulMono(1, k, w);
  }

  /** The fast path is taken exactly when the denominator is positive and divides the
      numerator. */
  predicate FastPath(b: MakerBook) {
    b.tickConversionDen > 0 && b.tickConversionNum % b.tickConversionDen == 0
  }

  lemma {:induction false} InactiveCeilSum(levels: seq<MakerLevel>, mid: u64, num: u64, den: u64)
    requires den > 0
    requires !HasActive(levels)
    ensures CeilSum(levels, mid, num, den) == 0
  {
    if levels != [] {
      var n := |levels| - 1;
      assert forall i | 0 <= i < n :: levels[..n][i] == levels[i];
      InactiveCeilSum(levels[..n], mid, num, den);
      EmptyLevelIsFree(levels[n], mid, num, den);
    }
  }

  lemma {:induction false} FastPathRefinesCeilingSum(b: MakerBook)
    requires FastPath(b)
    ensures SameOutcome(RemainingBidQuoteLots(b), RemainingBidQuoteLotsCeiling(b))
            <==> (b.midPriceTicks <= I64_MAX || HasActive(b.bidLevels))
                 && (b.tickConversionNum > 0 || !Priced(b.bidLevels, b.midPriceTicks)
                     || Notional(b.bidLevels, b.midPriceTicks) <= U128_MAX)
  {
    var num, den, mid := b.tickConversionNum, b.tickConversionDen, b.midPriceTicks;
    var k := num / den;
    var w := Notional(b.bidLevels, mid);
    FloorAtMost(num, den);
    FloorBounds(num, den);
    CeilingTotalExact(b.bidLevels, mid, num, den);
    CeilSumIsScaledNotional(b.bidLevels, mid, num, den, k);
    assert k * w == w * k;
    if mid <= I64_MAX {
      ClosedFormExact(b, k);
      if k > 0 {
        PositiveScaleBounds(w, k);
        PositiveScaleBounds(den, k);
      } else {
        assert num == 0;
      }
    } else if !HasActive(b.bidLevels) {
      InactiveCeilSum(b.bidLevels, mid, num, den);
    }
  }

  /** On every book the program's figure is the per-level ceiling sum, with success
      and failure alike, unless the fast path `k * sum(size * price)` is taken and
      either the mid does not fit an i64 although no bid is active, or the conversion
      is zero and the notional does not fit a u128. */
  lemma {:induction false} ClosedFormRefinesCeilingSum(b: MakerBook)
    ensures SameOutcome(RemainingBidQuoteLots(b), RemainingBidQuoteLotsCeiling(b))
            <==> (b.tickConversionDen > 0 && b.tickConversionNum % b.tickConversionDen == 0 ==>
                    && (b.midPriceTicks <= I64_MAX || HasActive(b.bidLevels))
                    && (b.tickConversionNum > 0 || !Priced(b.bidLevels, b.midPriceTicks)
                        || Notional(b.bidLevels, b.midPriceTicks) <= U128_MAX))
  {
    if FastPath(b) {
      FastPathRefinesCeilingSum(b);
    }
  }

  /** A mid one past the i64 limit and no bids: the fast path fails, the ceiling sum
      is zero. */
  lemma {:induction false} PathsDifferOnLargeMid(b: MakerBook)
    requires b.midPriceTicks == I64_MAX + 1
    requires b.tickConversionNum == 1 && b.tickConversionDen == 1
    requires forall i | 0 <= i < MAX_LEVELS :: b.bidLevels[i] == EMPTY_LEVEL
    ensures RemainingBidQuoteLots(b) == Err(InvalidPrice)
    ensures RemainingBidQuoteLotsCeiling(b) == Ok(0)
  {
    CeilingTotalExact(b.bidLevels, b.midPriceTicks, 1, 1);
    InactiveCeilSum(b.bidLevels, b.midPriceTicks, 1, 1);
  }

  lemma {:induction false} NotionalOfCopies(levels: seq<MakerLevel>, mid: u64, unit: nat)
    requires forall i | 0 <= i < |levels| :: LevelNotional(levels[i], mid) == unit
    ensures Notional(levels, mid) == |levels| * unit
  {
    if levels != [] {
      NotionalOfCopies(levels[..|levels| - 1], mid, unit);
      Distribute(unit, |levels| - 1, 1);
    }
  }

  /** A zero conversion and sixteen levels as large as they come: the fast path
      overflows on the notional it would multiply by zero, the ceiling sum is zero. */
  lemma {:induction false} PathsDifferOnZeroConversion(b: MakerBook)
    requires b.midPriceTicks == I64_MAX
    requires b.tickConversionNum == 0 && b.tickConversionDen == 1
    requires forall i | 0 <= i < MAX_LEVELS :: b.bidLevels[i] == MakerLevel(U64_MAX, 0)
    ensures RemainingBidQuoteLots(b).Err?
    ensures RemainingBidQuoteLotsCeiling(b) == Ok(0)
  {
    NotionalOfCopies(b.bidLevels, I64_MAX, U64_MAX * I64_MAX);
    WeightedTotalExact(b.bidLevels, I64_MAX);
    CeilingTotalExact(b.bidLevels, I64_MAX, 0, 1);
    CeilSumIsScaledNotional(b.bidLevels, I64_MAX, 0, 1, 0);
  }

  lemma {:induction false} WholeFactor(w: nat, num: nat, den: nat)
    requires num > 0 && den > 0 && num % den == 0
    ensures num / den > 0 && w <= w * (num / den) == (num / den) * w
  {
    FloorGe(num, den, 1);
    PositiveScaleBounds(w, num / den);
  }

  /** What the resting bids are worth, on either path: the exact sum of the
      per-level ceilings, refused exactly when a price is invalid or the sum
      leaves u64, and with the error of one that holds. */
  lemma {:induction false} RemainingBidsExact(b: MakerBook)
    requires b.tickConversionNum > 0 && b.tickConversionDen > 0 && b.midPriceTicks <= I64_MAX
    ensures RemainingBidQuoteLots(b).Ok? <==>
              Priced(b.bidLevels, b.midPriceTicks)
              && CeilSum(b.bidLevels, b.midPriceTicks, b.tickConversionNum, b.tickConversionDen) <= U64_MAX
    ensures RemainingBidQuoteLots(b).Ok? ==>
              RemainingBidQuoteLots(b).value
                == CeilSum(b.bidLevels, b.midPriceTicks, b.tickConversionNum, b.tickConversionDen)
    ensures RemainingBidQuoteLots(b).Err? ==>
              RefusedFor(RemainingBidQuoteLots(b).error, Priced(b.bidLevels, b.midPriceTicks),
                         CeilSum(b.bidLevels, b.midPriceTicks, b.tickConversionNum, b.tickConversionDen) <= U64_MAX)
  {
    var num, den, w := b.tickConversionNum, b.tickConversionDen, Notional(b.bidLevels, b.midPriceTicks);
    CeilingTotalExact(b.bidLevels, b.midPriceTicks, num, den);
    if num % den == 0 {
      ClosedFormRefinesCeilingSum(b);
      FloorAtMost(num, den);
      FloorBounds(num, den);
      ClosedFormExact(b, num / den);
      CeilSumIsScaledNotional(b.bidLevels, b.midPriceTicks, num, den, num / den);
      WholeFactor(w, num, den);
    }
  }

  /** The levels as a book stores them, the unused slots empty. */
  function Padded(levels: seq<MakerLevel>): (slots: seq<MakerLevel>)
    decreases MAX_LEVELS - |levels|
    ensures |levels| <= MAX_LEVELS ==> |slots| == MAX_LEVELS
  {
    if |levels| >= MAX_LEVELS then levels else Padded(levels + [EMPTY_LEVEL])
  }

  lemma {:induction false} PaddingIsFree(levels: seq<MakerLevel>, mid: u64, num: u64, den: u64)
    requires den > 0
    ensures CeilSum(Padded(levels), mid, num, den) == CeilSum(levels, mid, num, den)
    ensures Priced(Padded(levels), mid) <==> Priced(levels, mid)
    decreases MAX_LEVELS - |levels|
  {
    if |levels| < MAX_LEVELS {
      var next := levels + [EMPTY_LEVEL];
      assert next[..|levels|] == levels;
      PaddingIsFree(next, mid, num, den);
      PricedSplit(next, mid);
      EmptyLevelIsFree(EMPTY_LEVEL, mid, num, den);
    }
  }

  /** The buffer is the exact ceiling of a positive fee and nothing for a rebate; only
      the u64 result can overflow. */
  lemma {:induction false} FeeBufferExact(notional: u64, makerFeePpm: i32)
    ensures var exact := notional + Ceil(notional * Max(makerFeePpm, 0), PPM_DIVISOR);
            WithFeeBuffer(notional, makerFeePpm)
              == if exact <= U64_MAX then Ok(exact) else Err(ArithmeticOverflow)
  {
    if makerFeePpm > 0 {
      ProductFits(notional, makerFeePpm);
    } else {
      assert notional * Max(makerFeePpm, 0) == 0;
      ExactDivision(0, PPM_DIVISOR);
    }
  }

  lemma {:induction false} FeeBufferMono(lower: u64, higher: u64, makerFeePpm: i32)
    requires lower <= higher
    requires WithFeeBuffer(higher, makerFeePpm).Ok?
    ensures WithFeeBuffer(lower, makerFeePpm).Ok?
    ensures WithFeeBuffer(lower, makerFeePpm).value <= WithFeeBuffer(higher, makerFeePpm).value
  {
    if makerFeePpm > 0 {
      FeeBufferExact(lower, makerFeePpm);
      FeeBufferExact(higher, makerFeePpm);
      MulMono(lower, higher, makerFeePpm);
      CeilMono(lower * makerFeePpm, higher * makerFeePpm, PPM_DIVISOR);
    }
  }

  // ---------- deferred mid moves ----------

  /** `update_mid_price` moves the mid and remembers the mid of the last sync; zero
      means the stored balances are accurate at the current mid. */
  function MoveMid(b: MakerBook, mid: u64): MakerBook {
    b.(midPriceTicks := mid,
       midAtLastSync := if b.midAtLastSync == 0 then b.midPriceTicks else b.midAtLastSync)
  }

  function MoveMids(b: MakerBook, mids: seq<u64>): MakerBook {
    if mids == [] then b
    else MoveMid(MoveMids(b, mids[..|mids| - 1]), mids[|mids| - 1])
  }

  /** The mid at which the stored balances are accurate. */
  function Anchor(b: MakerBook): u64 {
    if b.midAtLastSync == 0 then b.midPriceTicks else b.midAtLastSync
  }

  /** The mid a run of moves ends at; an empty run ends at the book's own. */
  function FinalMid(b: MakerBook, mids: seq<u64>): u64 {
    if mids == [] then b.midPriceTicks else mids[|mids| - 1]
  }

  /** A run of moves is its last move. */
  lemma {:induction false} MovesAreTheLastMove(b: MakerBook, mids: seq<u64>)
    requires Anchor(b) > 0 && mids != []
    ensures MoveMids(b, mids) == MoveMid(b, mids[|mids| - 1])
  {
    var n := |mids| - 1;
    if n > 0 {
      MovesAreTheLastMove(b, mids[..n]);
    } else {
      assert MoveMids(b, mids[..0]) == b;
    }
  }

  /** The reserve does not depend on the sync anchor. */
  lemma {:induction false} SameReserve(b: MakerBook, c: MakerBook, makerFeePpm: i32)
    requires c == b.(midAtLastSync := c.midAtLastSync)
    ensures RequiredQuoteReserve(b, makerFeePpm) == RequiredQuoteReserve(c, makerFeePpm)
  {
  }

  /** A run of moves, the empty one included, that ends at the anchor leaves the stored
      balances; one that ends anywhere else locks exactly the reserve at the final mid,
      and fails exactly when the total or the reserve overflows or the total does not
      cover it, each with its own error. */
  lemma {:induction false} DeferredProjectionIff(b: MakerBook, mids: seq<u64>, makerFeePpm: i32)
    requires mids == [] || Anchor(b) > 0
    ensures var last := FinalMid(b, mids);
            var total := b.quoteLocked + b.quoteFree;
            var p := ProjectedQuoteBalances(MoveMids(b, mids), makerFeePpm);
            var reserve := RequiredQuoteReserve(b.(midPriceTicks := last), makerFeePpm);
            if last == Anchor(b) then p == Ok(Balances(b.quoteLocked, b.quoteFree))
            else if total > U64_MAX then p == Err(ArithmeticOverflow)
            else if reserve.Err? then p == Err(reserve.error)
            else if reserve.value > total then p == Err(InsufficientBalance)
            else p == Ok(Balances(reserve.value, total - reserve.value))
  {
    if mids != [] {
      MovesAreTheLastMove(b, mids);
      var last := FinalMid(b, mids);
      SameReserve(MoveMid(b, last), b.(midPriceTicks := last), makerFeePpm);
    }
  }

  /** Over any run of mid moves every projection that succeeds keeps the stored total, and
      the projection depends on the final mid alone. */
  lemma {:induction false} DeferredMovesConserveQuote(
      b: MakerBook, mids: seq<u64>, others: seq<u64>, makerFeePpm: i32)
    requires mids == [] || Anchor(b) > 0
    requires others == [] || Anchor(b) > 0
    requires FinalMid(b, mids) == FinalMid(b, others)
    ensures var p := ProjectedQuoteBalances(MoveMids(b, mids), makerFeePpm);
            && p == ProjectedQuoteBalances(MoveMids(b, others), makerFeePpm)
            && (p.Ok? ==> p.value.locked + p.value.free == b.quoteLocked + b.quoteFree)
  {
    DeferredProjectionIff(b, mids, makerFeePpm);
    DeferredProjectionIff(b, others, makerFeePpm);
  }

  lemma {:induction false} LevelFallsWithTheMid(level: MakerLevel, lower: u64, higher: u64, num: u64, den: u64)
    requires lower <= higher && den > 0
    ensures LevelNotional(level, lower) <= LevelNotional(level, higher)
    ensures LevelCeil(level, lower, num, den) <= LevelCeil(level, higher, num, den)
  {
    var w, w' := LevelNotional(level, lower), LevelNotional(level, higher);
    MulMono(PriceAt(level, lower), PriceAt(level, higher), level.sizeInBaseLots);
    MulMono(w, w', num);
    CeilMono(w * num, w' * num, den);
  }

  lemma {:induction false} TotalsFallWithTheMid(levels: seq<MakerLevel>, lower: u64, higher: u64, num: u64, den: u64)
    requires lower <= higher && den > 0
    ensures Notional(levels, lower) <= Notional(levels, higher)
    ensures CeilSum(levels, lower, num, den) <= CeilSum(levels, higher, num, den)
  {
    if levels != [] {
      TotalsFallWithTheMid(levels[..|levels| - 1], lower, higher, num, den);
      LevelFallsWithTheMid(levels[|levels| - 1], lower, higher, num, den);
    }
  }

  lemma {:induction false} CeilingTotalNeedsPrices(levels: seq<MakerLevel>, mid: u64, num: u64, den: u64)
    requires CeilingTotal(levels, mid, num, den).Ok?
    ensures Priced(levels, mid)
    ensures den == 0 ==> !HasActive(levels) && CeilingTotal(levels, mid, num, den) == Ok(0)
  {
    if levels != [] {
      var n := |levels| - 1;
      CeilingTotalNeedsPrices(levels[..n], mid, num, den);
      assert forall i | 0 <= i < n :: levels[..n][i] == levels[i];
    }
  }

  lemma {:induction false} InactiveCeilingTotal(levels: seq<MakerLevel>, mid: u64, num: u64, den: u64)
    requires !HasActive(levels)
    ensures CeilingTotal(levels, mid, num, den) == Ok(0)
  {
    if levels != [] {
      var n := |levels| - 1;
      assert forall i | 0 <= i < n :: levels[..n][i] == levels[i];
      InactiveCeilingTotal(levels[..n], mid, num, den);
    }
  }

  /** If the bids can be valued at one mid, they can be at a lower one exactly when
      all active prices stay positive, and they are then worth no more. */
  lemma {:induction false} RemainingBidsFallWithTheMid(b: MakerBook, lower: u64)
    requires lower <= b.midPriceTicks
    requires RemainingBidQuoteLots(b).Ok?
    ensures var r := RemainingBidQuoteLots(b.(midPriceTicks := lower));
            && (r.Ok? <==> Priced(b.bidLevels, lower))
            && (r.Ok? ==> r.value <= RemainingBidQuoteLots(b).value)
  {
    var num, den, mid := b.tickConversionNum, b.tickConversionDen, b.midPriceTicks;
    if den == 0 {
      CeilingTotalNeedsPrices(b.bidLevels, mid, num, den);
      InactiveCeilingTotal(b.bidLevels, lower, num, den);
    } else {
      TotalsFallWithTheMid(b.bidLevels, lower, mid, num, den);
      if num % den == 0 {
        FloorAtMost(num, den);
        ClosedFormExact(b, num / den);
        ClosedFormExact(b.(midPriceTicks := lower), num / den);
        MulMono(Notional(b.bidLevels, lower), Notional(b.bidLevels, mid), num / den);
      } else {
        CeilingTotalExact(b.bidLevels, mid, num, den);
        CeilingTotalExact(b.bidLevels, lower, num, den);
      }
    }
  }

  /** Away from the anchor, a projection that succeeds also succeeds at a lower mid
      exactly when every active bid keeps a positive price there; the locked part
      is then no larger and the total is the same. */
  lemma {:induction false} LowerMidStaysFunded(b: MakerBook, lower: u64, makerFeePpm: i32)
    requires b.midAtLastSync != 0 && b.midAtLastSync != b.midPriceTicks && b.midAtLastSync != lower
    requires lower <= b.midPriceTicks
    requires ProjectedQuoteBalances(b, makerFeePpm).Ok?
    ensures var before := ProjectedQuoteBalances(b, makerFeePpm).value;
            var p := ProjectedQuoteBalances(b.(midPriceTicks := lower), makerFeePpm);
            && (p.Ok? <==> Priced(b.bidLevels, lower))
            && (p.Ok? ==> p.value.locked <= before.locked
                          && p.value.locked + p.value.free == before.locked + before.free)
  {
    RemainingBidsFallWithTheMid(b, lower);
    var r := RemainingBidQuoteLots(b.(midPriceTicks := lower));
    if r.Ok? {
      FeeBufferMono(r.value, RemainingBidQuoteLots(b).value, makerFeePpm);
    }
  }
}
