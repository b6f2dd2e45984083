/** A maker book's levels and its collateral arithmetic. */
module MakerBooks {
  import opened MachineInts
  import opened Rounding
  import opened LevelOps

  const PPM_DIVISOR := 1_000_000

  datatype MakerLevel = MakerLevel(sizeInBaseLots: u64, priceOffsetTicks: i64) {

    predicate IsActive() {
      sizeInBaseLots > 0
    }

    /** The level's price when offsets are measured from `reference`. The lower i64
        bound of the sum never decides. */
    function AbsolutePrice(reference: u64): (price: Option<u64>)
      ensures price.Some? <==> reference <= I64_MAX && 0 < reference + priceOffsetTicks <= I64_MAX
      ensures price.Some? ==> price.value == reference + priceOffsetTicks
    {
      match CheckedI64(reference, InvalidPrice)
      case Err(_) => None
      case Ok(base) =>
        match CheckedI64(base + priceOffsetTicks, InvalidPrice)
        case Err(_) => None
        case Ok(abs) => if abs <= 0 then None else Some(abs)
    }
  }

  /** Offsets and prices are two readings of one level: around any mid an i64 can
      hold, each price from 1 to the i64 limit is read back by exactly one offset,
      and prices keep the order of their offsets. */
  lemma {:induction false} PricesAreOffsets(mid: u64, price: u64, level: MakerLevel, other: MakerLevel)
    requires mid <= I64_MAX
    ensures level.AbsolutePrice(mid) == Some(price) <==>
            0 < price <= I64_MAX && level.priceOffsetTicks == price - mid
    ensures level.AbsolutePrice(mid).Some? && other.AbsolutePrice(mid).Some? ==>
              (level.AbsolutePrice(mid).value < other.AbsolutePrice(mid).value
               <==> level.priceOffsetTicks < other.priceOffsetTicks)
    ensures 0 < price <= I64_MAX ==> I64_MIN <= price - mid <= I64_MAX
  {
  }

  const EMPTY_LEVEL := MakerLevel(0, 0)

  type LevelArray = s: seq<MakerLevel> | |s| == MAX_LEVELS
    witness seq(MAX_LEVELS, _ => MakerLevel(0, 0))

  datatype MakerBook = MakerBook(
    midPriceTicks: u64,
    quoteLocked: u64,
    quoteFree: u64,
    lastUpdatedSequenceNumber: u64,
    tickConversionNum: u64,
    tickConversionDen: u64,
    bidLevels: LevelArray,
    askLevels: LevelArray,
    midAtLastSync: u64)

  /** Quote lots backing `baseLots` at `priceTicks`, rounded up, with the program's
      u128 intermediates. */
  function ComputeQuoteLotsCeiling(num: u64, den: u64, baseLots: u64, priceTicks: u64): Result<u64, ArcherError> {
    var notional :- CheckedU128(baseLots * priceTicks, ArithmeticOverflow);
    var numerator :- CheckedU128(notional * num, ArithmeticOverflow);
    var adjustment :- CheckedU128(den - 1, ArithmeticUnderflow);
    var shifted :- CheckedU128(numerator + adjustment, ArithmeticOverflow);
    CheckedU64(shifted / den, ArithmeticOverflow)
  }

  lemma {:induction false} FloorAtMost(x: nat, d: nat)
    requires d > 0
    ensures x / d <= x
  {
    FloorBounds(x, d);
    MulMono(1, d, x / d);
  }

  function QuoteLotsPerLotTick(num: u64, den: u64): Result<u64, ArcherError> {
    if den == 0 || num % den != 0 then Err(InvalidParams)
    else
      ExactDivision(num / den, den);
      FloorAtMost(num, den);
      Ok(num / den)
  }

  /** The closed form's accumulator: `sum of size * price` in u128. */
  function WeightedTotal(levels: seq<MakerLevel>, mid: u64): Result<u128, ArcherError> {
    if levels == [] then Ok(0)
    else
      var level := levels[|levels| - 1];
      var total :- WeightedTotal(levels[..|levels| - 1], mid);
      if !level.IsActive() then Ok(total)
      else
        var price :- CheckedI64(mid + level.priceOffsetTicks, InvalidPrice);
        if price <= 0 then Err(InvalidPrice)
        else
          var product :- CheckedU128(level.sizeInBaseLots * price, ArithmeticOverflow);
          CheckedU128(total + product, ArithmeticOverflow)
  }

  /** The simple form's accumulator: the per-level ceilings in u64. */
  function CeilingTotal(levels: seq<MakerLevel>, mid: u64, num: u64, den: u64): Result<u64, ArcherError> {
    if levels == [] then Ok(0)
    else
      var level := levels[|levels| - 1];
      var total :- CeilingTotal(levels[..|levels| - 1], mid, num, den);
      if !level.IsActive() then Ok(total)
      else
        match level.AbsolutePrice(mid)
        case None => Err(InvalidPrice)
        case Some(price) =>
          var quote :- ComputeQuoteLotsCeiling(num, den, level.sizeInBaseLots, price);
          CheckedU64(total + quote, ArithmeticOverflow)
  }

  function ClosedForm(b: MakerBook, k: u64): Result<u64, ArcherError> {
    if b.midPriceTicks > I64_MAX then Err(InvalidPrice)
    else
      var weighted :- WeightedTotal(b.bidLevels, b.midPriceTicks);
      var total :- CheckedU128(weighted * k, ArithmeticOverflow);
      CheckedU64(total, ArithmeticOverflow)
  }

  function RemainingBidQuoteLotsCeiling(b: MakerBook): Result<u64, ArcherError> {
    CeilingTotal(b.bidLevels, b.midPriceTicks, b.tickConversionNum, b.tickConversionDen)
  }

  function RemainingBidQuoteLots(b: MakerBook): Result<u64, ArcherError> {
    match QuoteLotsPerLotTick(b.tickConversionNum, b.tickConversionDen)
    case Ok(k) => ClosedForm(b, k)
    case Err(_) => RemainingBidQuoteLotsCeiling(b)
  }

  /** `notional` plus the maker-fee buffer, rounded up. */
  function WithFeeBuffer(notional: u64, makerFeePpm: i32): Result<u64, ArcherError> {
    if makerFeePpm > 0 then
      var scaled :- CheckedU128(notional * makerFeePpm, ArithmeticOverflow);
      var shifted :- CheckedU128(scaled + 999_999, ArithmeticOverflow);
      var buffer :- CheckedU64(shifted / PPM_DIVISOR, ArithmeticOverflow);
      CheckedU64(notional + buffer, ArithmeticOverflow)
    else
      Ok(notional)
  }

  function RequiredQuoteReserve(b: MakerBook, makerFeePpm: i32): Result<u64, ArcherError> {
    var notional :- RemainingBidQuoteLots(b);
    WithFeeBuffer(notional, makerFeePpm)
  }

  datatype Balances = Balances(locked: u64, free: u64)

  /** The balances as they will stand once a deferred mid move is settled. */
  function ProjectedQuoteBalances(b: MakerBook, makerFeePpm: i32): Result<Balances, ArcherError> {
    if b.midAtLastSync == 0 || b.midAtLastSync == b.midPriceTicks then
      Ok(Balances(b.quoteLocked, b.quoteFree))
    else
      var total :- CheckedU64(b.quoteFree + b.quoteLocked, ArithmeticOverflow);
      var locked :- RequiredQuoteReserve(b, makerFeePpm);
      if locked > total then Err(InsufficientBalance)
      else Ok(Balances(locked, total - locked))
  }

  /** Exact base lots of a side. */
  function LotsOf(levels: seq<MakerLevel>): nat {
    if levels == [] then 0 else LotsOf(levels[..|levels| - 1]) + levels[|levels| - 1].sizeInBaseLots
  }

  lemma {:induction false} LotsGrow(levels: seq<MakerLevel>, n: nat)
    requires n <= |levels|
    ensures LotsOf(levels[..n]) <= LotsOf(levels)
    decreases |levels|
  {
    if n < |levels| {
      var m := |levels| - 1;
      LotsGrow(levels[..m], n);
      assert levels[..m][..n] == levels[..n];
    } else {
      assert levels[..n] == levels;
    }
  }

  /** The total is the sum of the sizes: a level added or resized, by a write or by a
      fill, moves it by exactly that much. */
  lemma {:induction false} LotsAreTheSum(levels: seq<MakerLevel>, level: MakerLevel, i: nat)
    ensures LotsOf([]) == 0
    ensures LotsOf(levels + [level]) == LotsOf(levels) + level.sizeInBaseLots
    ensures i < |levels| ==>
              LotsOf(levels[i := level]) == LotsOf(levels) - levels[i].sizeInBaseLots + level.sizeInBaseLots
    decreases |levels|
  {
    assert (levels + [level])[..|levels|] == levels;
    if i < |levels| {
      var n := |levels| - 1;
      if i < n {
        LotsAreTheSum(levels[..n], level, i);
        assert levels[i := level][..n] == levels[..n][i := level];
      } else {
        assert levels[i := level][..n] == levels[..n];
      }
    }
  }

  /** The orders resting on one side, at absolute prices. */
  function ActiveOrders(levels: seq<MakerLevel>, side: Side, anchor: u64): seq<Order> {
    if levels == [] then []
    else
      var level := levels[|levels| - 1];
      ActiveOrders(levels[..|levels| - 1], side, anchor)
        + (if level.IsActive() && level.AbsolutePrice(anchor).Some?
           then [Order(LimitOrderId(side, level.AbsolutePrice(anchor).value), level.sizeInBaseLots)]
           else [])
  }

  /** Every active level has a positive price that fits an i64. */
  ghost predicate Priced(levels: seq<MakerLevel>, anchor: u64) {
    forall i | 0 <= i < |levels| && levels[i].IsActive() :: levels[i].AbsolutePrice(anchor).Some?
  }

  // ---------- the loops ----------

  lemma {:induction false} CeilingStops(levels: seq<MakerLevel>, mid: u64, num: u64, den: u64, i: nat)
    requires i < |levels|
    ensures levels[..i + 1][..i] == levels[..i]
    ensures CeilingTotal(levels[..i + 1], mid, num, den).Err? ==>
              CeilingTotal(levels, mid, num, den) == CeilingTotal(levels[..i + 1], mid, num, den)
    decreases |levels|
  {
    assert levels[..i + 1][..i] == levels[..i];
    var n := |levels| - 1;
    if i < n {
      CeilingStops(levels[..n], mid, num, den, i);
      assert levels[..n][..i + 1] == levels[..i + 1];
    } else {
      assert levels[..i + 1] == levels;
    }
  }

  method ComputeRemainingBidQuoteLotsCeiling(b: MakerBook) returns (r: Result<u64, ArcherError>)
    ensures r == RemainingBidQuoteLotsCeiling(b)
  {
    var num, den, mid := b.tickConversionNum, b.tickConversionDen, b.midPriceTicks;
    var total: u64 := 0;
    for i := 0 to MAX_LEVELS
      invariant CeilingTotal(b.bidLevels[..i], mid, num, den) == Ok(total)
    {
      var level := b.bidLevels[i];
      CeilingStops(b.bidLevels, mid, num, den, i);
      if !level.IsActive() {
        continue;
      }
      var priced := level.AbsolutePrice(mid);
      if priced.None? {
        return Err(InvalidPrice);
      }
      var quote :- ComputeQuoteLotsCeiling(num, den, level.sizeInBaseLots, priced.value);
      total :- CheckedU64(total + quote, ArithmeticOverflow);
    }
    assert b.bidLevels[..MAX_LEVELS] == b.bidLevels;
    r := Ok(total);
  }

  /** An error of the accumulator at `i` is the error of the whole list. */
  lemma {:induction false} WeightedStops(levels: seq<MakerLevel>, mid: u64, i: nat)
    requires i < |levels|
    ensures levels[..i + 1][..i] == levels[..i]
    ensures WeightedTotal(levels[..i + 1], mid).Err? ==>
              WeightedTotal(levels, mid) == WeightedTotal(levels[..i + 1], mid)
    decreases |levels|
  {
    assert levels[..i + 1][..i] == levels[..i];
    var n := |levels| - 1;
    if i < n {
      WeightedStops(levels[..n], mid, i);
      assert levels[..n][..i + 1] == levels[..i + 1];
    } else {
      assert levels[..i + 1] == levels;
    }
  }

  /** Base lots of the resting asks; `total_ask_size`. */
  method ComputeTotalAskSize(b: MakerBook) returns (r: Result<u64, ArcherError>)
    ensures r == CheckedU64(LotsOf(b.askLevels), ArithmeticOverflow)
  {
    var total: u64 := 0;
    for i := 0 to MAX_LEVELS
      invariant total == LotsOf(b.askLevels[..i])
    {
      assert b.askLevels[..i + 1][..i] == b.askLevels[..i];
      LotsGrow(b.askLevels, i + 1);
      total :- CheckedU64(total + b.askLevels[i].sizeInBaseLots, ArithmeticOverflow);
    }
    assert b.askLevels[..MAX_LEVELS] == b.askLevels;
    r := Ok(total);
  }

  method ComputeRemainingBidQuoteLots(b: MakerBook) returns (r: Result<u64, ArcherError>)
    ensures r == RemainingBidQuoteLots(b)
  {
    var perLotTick := QuoteLotsPerLotTick(b.tickConversionNum, b.tickConversionDen);
    if perLotTick.Err? {
      r := ComputeRemainingBidQuoteLotsCeiling(b);
      return;
    }
    var k := perLotTick.value;
    if b.midPriceTicks > I64_MAX {
      return Err(InvalidPrice);
    }
    var mid: i64 := b.midPriceTicks;
    var weighted: u128 := 0;
    for i := 0 to MAX_LEVELS
      invariant WeightedTotal(b.bidLevels[..i], mid) == Ok(weighted)
    {
      var level := b.bidLevels[i];
      WeightedStops(b.bidLevels, mid, i);
      if level.sizeInBaseLots == 0 {
        continue;
      }
      var price :- CheckedI64(mid + level.priceOffsetTicks, InvalidPrice);
      if price <= 0 {
        return Err(InvalidPrice);
      }
      var product :- CheckedU128(level.sizeInBaseLots * price, ArithmeticOverflow);
      weighted :- CheckedU128(weighted + product, ArithmeticOverflow);
    }
    assert b.bidLevels[..MAX_LEVELS] == b.bidLevels;
    var total :- CheckedU128(weighted * k, ArithmeticOverflow);
    r := CheckedU64(total, ArithmeticOverflow);
  }
}
