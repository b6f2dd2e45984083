/** The quote-margin estimate of a market maker's bids, against the collateral the same
    bids require. */
module MarginEstimate {
  import opened MachineInts
  import opened Rounding
  import opened LevelOps
  import opened SdkErrors
  import opened MakerBooks
  import opened BidCollateral
  import opened ClientCollateral

  /** What converting a quote gave: the estimator converts the size first. */
  datatype QuoteConversion = QuoteConversion(lots: SdkResult<u64>, ticks: SdkResult<u64>)

  function SizeFirst(c: QuoteConversion): Resolved {
    var lots :- c.lots;
    var ticks :- c.ticks;
    Ok(Order(LimitOrderId(Bid, ticks), lots))
  }

  function Converted(bids: seq<QuoteConversion>): seq<Resolved> {
    seq(|bids|, i requires 0 <= i < |bids| => SizeFirst(bids[i]))
  }

  /** Fee lots of one level, as the estimator rounds and saturates them. */
  function LevelFeeLots(raw: u64, feePpm: nat): u64
    requires feePpm < 0x8000_0000
  {
    SaturateU64(SaturateU64(raw * feePpm) + 999_999) / PPM_DIVISOR
  }

  function FeeMultiplier(config: MarketConfig): (ppm: nat)
    ensures ppm < 0x8000_0000
  {
    Max(config.makerFeePpm, 0)
  }

  /** The client's quote lots of one bid, before fees. */
  function Raw(bid: Resolved, config: MarketConfig): u64 {
    if bid.Ok? then QuoteLotsCeil(config, bid.value.size, bid.value.id.priceTicks) else 0
  }

  function MarginSum(bids: seq<Resolved>, config: MarketConfig): nat {
    if bids == [] then 0
    else
      var raw := Raw(bids[|bids| - 1], config);
      MarginSum(bids[..|bids| - 1], config) + raw + LevelFeeLots(raw, FeeMultiplier(config))
  }

  function Estimate(bids: seq<Resolved>, config: MarketConfig): u64 {
    SaturateU64(MarginSum(bids, config))
  }

  lemma {:induction false} AddSaturating(sum: nat, x: nat, y: nat)
    ensures SaturateU64(sum + x + y) == SaturateU64(SaturateU64(SaturateU64(sum) + x) + y)
  {
  }

  lemma {:induction false} EstimateGrows(bids: seq<QuoteConversion>, config: MarketConfig, i: nat)
    requires i < |bids|
    ensures Converted(bids[..i + 1]) == Converted(bids[..i]) + [SizeFirst(bids[i])]
    ensures AllResolved(Converted(bids[..i])) && SizeFirst(bids[i]).Ok? ==> AllResolved(Converted(bids[..i + 1]))
    ensures var raw := Raw(SizeFirst(bids[i]), config);
            Estimate(Converted(bids[..i + 1]), config)
              == SaturateU64(SaturateU64(Estimate(Converted(bids[..i]), config) + raw)
                             + LevelFeeLots(raw, FeeMultiplier(config)))
  {
    var before, after := Converted(bids[..i]), Converted(bids[..i + 1]);
    assert after == before + [SizeFirst(bids[i])];
    assert after[..|after| - 1] == before;
    AddSaturating(MarginSum(before, config), Raw(SizeFirst(bids[i]), config),
                  LevelFeeLots(Raw(SizeFirst(bids[i]), config), FeeMultiplier(config)));
  }

  lemma {:induction false} UnresolvedStays(bids: seq<QuoteConversion>, i: nat)
    requires i < |bids| && SizeFirst(bids[i]).Err?
    ensures !AllResolved(Converted(bids))
  {
    assert Converted(bids)[i] == SizeFirst(bids[i]);
  }

  /** Quote lots of the margin estimate, before the conversion to token units: the exact
      sum of the per-level charges clamped at u64, or the first conversion error. */
  method EstimateRequiredQuoteLots(bids: seq<QuoteConversion>, config: MarketConfig) returns (r: SdkResult<u64>)
    ensures AllResolved(Converted(bids)) ==> r == Ok(Estimate(Converted(bids), config))
    ensures !AllResolved(Converted(bids)) ==>
              exists i :: 0 <= i < |bids|
                && AllResolved(Converted(bids[..i]))
                && SizeFirst(bids[i]).Err? && r == Err(SizeFirst(bids[i]).error)
  {
    var total: u64 := 0;
    for i := 0 to |bids|
      invariant AllResolved(Converted(bids[..i]))
      invariant total == Estimate(Converted(bids[..i]), config)
    {
      EstimateGrows(bids, config, i);
      if SizeFirst(bids[i]).Err? {
        UnresolvedStays(bids, i);
      }
      var lots :- bids[i].lots;
      var ticks :- bids[i].ticks;
      var raw := QuoteLotsCeil(config, lots, ticks);
      var feeLots := LevelFeeLots(raw, FeeMultiplier(config));
      total := SaturateU64(SaturateU64(total + raw) + feeLots);
    }
    assert bids[..|bids|] == bids;
    r := Ok(total);
  }

  // ---------- one level ----------

  /** Largest `raw * fee` the estimator's u64 arithmetic still charges in full. */
  const FULL_FEE_LIMIT := 18_446_744_073_709_000_000

  /** The most fee lots one level is ever charged. */
  const MAX_LEVEL_FEE := 18_446_744_073_709

  function ExactFee(raw: nat, feePpm: nat): nat {
    Ceil(raw * feePpm, PPM_DIVISOR)
  }

  /** Fee lots of one level that the estimator's saturation loses. */
  function LevelShortfall(raw: nat, feePpm: nat): nat {
    Max(ExactFee(raw, feePpm) - MAX_LEVEL_FEE, 0)
  }

  lemma {:induction false} ClampedFee(x: nat)
    ensures SaturateU64(SaturateU64(x) + 999_999) / PPM_DIVISOR == Min(Ceil(x, PPM_DIVISOR), MAX_LEVEL_FEE)
  {
    CeilLe(x, PPM_DIVISOR, MAX_LEVEL_FEE);
    if x + 999_999 > U64_MAX {
      CeilMono(U64_MAX - 999_999, x, PPM_DIVISOR);
    }
  }

  /** A level is charged its exact fee less its shortfall. */
  lemma {:induction false} LevelFeeLessShortfall(raw: u64, feePpm: nat)
    requires feePpm < 0x8000_0000
    ensures LevelFeeLots(raw, feePpm) + LevelShortfall(raw, feePpm) == ExactFee(raw, feePpm)
  {
    ClampedFee(raw * feePpm);
  }

  /** More than `n` lots are lost exactly above the limit by more than `n` millions. */
  lemma {:induction false} ShortfallExceedsIff(raw: nat, feePpm: nat, n: nat)
    ensures LevelShortfall(raw, feePpm) > n <==> raw * feePpm > FULL_FEE_LIMIT + n * PPM_DIVISOR
  {
    assert FULL_FEE_LIMIT == MAX_LEVEL_FEE * PPM_DIVISOR;
    CeilLe(raw * feePpm, PPM_DIVISOR, MAX_LEVEL_FEE + n);
  }

  /** The estimator charges a level its exact fee up to the limit, and less than it
      above. */
  lemma {:induction false} LevelFeeCoversIff(raw: u64, feePpm: nat)
    requires feePpm < 0x8000_0000
    ensures LevelFeeLots(raw, feePpm) >= ExactFee(raw, feePpm) <==> raw * feePpm <= FULL_FEE_LIMIT
    ensures LevelFeeLots(raw, feePpm) <= ExactFee(raw, feePpm)
  {
    LevelFeeLessShortfall(raw, feePpm);
    ShortfallExceedsIff(raw, feePpm, 0);
  }

  // ---------- the whole estimate ----------

  function RawTotal(bids: seq<Resolved>, config: MarketConfig): nat {
    if bids == [] then 0 else RawTotal(bids[..|bids| - 1], config) + Raw(bids[|bids| - 1], config)
  }

  /** The levels' exact fees, each rounded up. */
  function LevelFees(bids: seq<Resolved>, config: MarketConfig): nat {
    if bids == [] then 0
    else LevelFees(bids[..|bids| - 1], config) + ExactFee(Raw(bids[|bids| - 1], config), FeeMultiplier(config))
  }

  function Shortfall(bids: seq<Resolved>, config: MarketConfig): nat {
    if bids == [] then 0
    else Shortfall(bids[..|bids| - 1], config) + LevelShortfall(Raw(bids[|bids| - 1], config), FeeMultiplier(config))
  }

  lemma {:induction false} MarginSumSplits(bids: seq<Resolved>, config: MarketConfig)
    ensures MarginSum(bids, config) + Shortfall(bids, config) == RawTotal(bids, config) + LevelFees(bids, config)
  {
    if bids != [] {
      MarginSumSplits(bids[..|bids| - 1], config);
      LevelFeeLessShortfall(Raw(bids[|bids| - 1], config), FeeMultiplier(config));
    }
  }

  lemma {:induction false} ExactFeeOfSum(x: nat, y: nat, rate: nat)
    ensures ExactFee(x + y, rate) <= ExactFee(x, rate) + ExactFee(y, rate) <= ExactFee(x + y, rate) + 1
  {
    Distribute(rate, x, y);
    CeilOfSum(x * rate, y * rate, PPM_DIVISOR);
  }

  /** Rounding up level by level overcharges the fee on the total by less than a lot per
      level. */
  lemma {:induction false} RoundingExcess(bids: seq<Resolved>, config: MarketConfig)
    ensures var exact := ExactFee(RawTotal(bids, config), FeeMultiplier(config));
            exact <= LevelFees(bids, config) <= exact + Max(|bids| - 1, 0)
  {
    var fee := FeeMultiplier(config);
    if bids == [] {
      ExactDivision(0, PPM_DIVISOR);
    } else {
      var before := bids[..|bids| - 1];
      RoundingExcess(before, config);
      ExactFeeOfSum(RawTotal(before, config), Raw(bids[|bids| - 1], config), fee);
      if before == [] {
        ExactDivision(0, PPM_DIVISOR);
      }
    }
  }

  lemma {:induction false} NoShortfall(bids: seq<Resolved>, config: MarketConfig)
    requires forall i | 0 <= i < |bids| :: Raw(bids[i], config) * FeeMultiplier(config) <= FULL_FEE_LIMIT
    ensures Shortfall(bids, config) == 0
  {
    if bids != [] {
      var n := |bids| - 1;
      assert forall i | 0 <= i < n :: bids[..n][i] == bids[i];
      NoShortfall(bids[..n], config);
      ShortfallExceedsIff(Raw(bids[n], config), FeeMultiplier(config), 0);
    }
  }

  /** Without a shortfall the estimate's sum is at least the backing with the fee on the
      total, and at most one lot more per further level. */
  lemma {:induction false} MarginEstimateIsConservative(bids: seq<Resolved>, config: MarketConfig)
    requires bids != []
    requires forall i | 0 <= i < |bids| :: Raw(bids[i], config) * FeeMultiplier(config) <= FULL_FEE_LIMIT
    ensures var raw := RawTotal(bids, config);
            var exact := raw + ExactFee(raw, FeeMultiplier(config));
            exact <= MarginSum(bids, config) <= exact + |bids| - 1
  {
    MarginSumSplits(bids, config);
    RoundingExcess(bids, config);
    NoShortfall(bids, config);
  }

  lemma {:induction false} ShortfallOfLevel(bids: seq<Resolved>, config: MarketConfig, i: nat)
    requires i < |bids|
    ensures LevelShortfall(Raw(bids[i], config), FeeMultiplier(config)) <= Shortfall(bids, config)
  {
    if i < |bids| - 1 {
      ShortfallOfLevel(bids[..|bids| - 1], config, i);
    }
  }

  // ---------- against the required collateral ----------

  ghost predicate AllBids(bids: seq<Resolved>) {
    AllResolved(bids) && forall i | 0 <= i < |bids| :: bids[i].value.id.side == Bid
  }

  lemma {:induction false} ClientSumIsRawTotal(bids: seq<Resolved>, config: MarketConfig)
    requires AllBids(bids)
    ensures BidQuotes(bids, config) == RawTotal(bids, config)
  {
    if bids != [] {
      var n := |bids| - 1;
      assert forall i | 0 <= i < n :: bids[..n][i] == bids[i];
      ClientSumIsRawTotal(bids[..n], config);
    }
  }

  /** The collateral the client requires, when it can compute it: the backing with the
      fee on the total, or the clamped backing alone without a fee. */
  lemma {:induction false} CollateralIsRawWithFee(bids: seq<Resolved>, config: MarketConfig)
    requires AllBids(bids) && ClientQuote(bids, config).Ok?
    ensures var raw, fee := RawTotal(bids, config), FeeMultiplier(config);
            ClientQuote(bids, config).value == SaturateU64(raw + ExactFee(raw, fee))
    ensures FeeMultiplier(config) > 0 ==>
              ClientQuote(bids, config).value
                == RawTotal(bids, config) + ExactFee(RawTotal(bids, config), FeeMultiplier(config))
  {
    var raw, fee := RawTotal(bids, config), FeeMultiplier(config);
    ClientSumIsRawTotal(bids, config);
    FeeBufferExact(SaturateU64(raw), config.makerFeePpm);
    if fee == 0 {
      assert raw * fee == 0 && SaturateU64(raw) * fee == 0;
      ExactDivision(0, PPM_DIVISOR);
    } else {
      MulMono(1, fee, SaturateU64(raw));
      CeilLe(SaturateU64(raw) * fee, PPM_DIVISOR, 0);
    }
  }

  lemma {:induction false} FreeOfFee(bids: seq<Resolved>, config: MarketConfig)
    requires FeeMultiplier(config) == 0
    ensures Shortfall(bids, config) == 0 && LevelFees(bids, config) == 0
    ensures ExactFee(RawTotal(bids, config), 0) == 0
  {
    ExactDivision(0, PPM_DIVISOR);
    assert RawTotal(bids, config) * 0 == 0;
    if bids != [] {
      FreeOfFee(bids[..|bids| - 1], config);
      assert Raw(bids[|bids| - 1], config) * 0 == 0;
    }
  }

  /** The estimate covers the required collateral exactly when what saturation loses does
      not exceed what per-level rounding overcharges. */
  lemma {:induction false} EstimateCoversIff(bids: seq<Resolved>, config: MarketConfig)
    requires AllBids(bids) && ClientQuote(bids, config).Ok?
    ensures Estimate(bids, config) >= ClientQuote(bids, config).value <==>
            Shortfall(bids, config)
              <= LevelFees(bids, config) - ExactFee(RawTotal(bids, config), FeeMultiplier(config))
  {
    CollateralIsRawWithFee(bids, config);
    MarginSumSplits(bids, config);
    RoundingExcess(bids, config);
    if FeeMultiplier(config) == 0 {
      FreeOfFee(bids, config);
    }
  }

  /** For one bid: exactly up to the limit. */
  lemma {:induction false} SingleBidCoversIff(bid: Resolved, config: MarketConfig)
    requires AllBids([bid]) && ClientQuote([bid], config).Ok?
    ensures Estimate([bid], config) >= ClientQuote([bid], config).value <==>
            Raw(bid, config) * FeeMultiplier(config) <= FULL_FEE_LIMIT
  {
    EstimateCoversIff([bid], config);
    assert [bid][..0] == [];
    ShortfallExceedsIff(Raw(bid, config), FeeMultiplier(config), 0);
  }

  /** For any number of bids: one level far enough above the limit, by a million for
      each of the others, and the estimate is below the required collateral. */
  lemma {:induction false} LargeLevelFallsShort(bids: seq<Resolved>, config: MarketConfig, i: nat)
    requires AllBids(bids) && ClientQuote(bids, config).Ok?
    requires i < |bids|
    requires Raw(bids[i], config) * FeeMultiplier(config) > FULL_FEE_LIMIT + (|bids| - 1) * PPM_DIVISOR
    ensures Estimate(bids, config) < ClientQuote(bids, config).value
  {
    EstimateCoversIff(bids, config);
    RoundingExcess(bids, config);
    ShortfallExceedsIff(Raw(bids[i], config), FeeMultiplier(config), |bids| - 1);
    ShortfallOfLevel(bids, config, i);
  }

  /** While no level is above the limit the estimate covers the required collateral, with
      less than one quote lot per bid to spare. */
  lemma {:induction false} MarginVersusCollateral(bids: seq<Resolved>, config: MarketConfig)
    requires AllBids(bids) && ClientQuote(bids, config).Ok? && bids != []
    requires forall i | 0 <= i < |bids| :: Raw(bids[i], config) * FeeMultiplier(config) <= FULL_FEE_LIMIT
    ensures ClientQuote(bids, config).value <= Estimate(bids, config) < ClientQuote(bids, config).value + |bids|
  {
    CollateralIsRawWithFee(bids, config);
    MarginEstimateIsConservative(bids, config);
  }

  /** A bid of 200 trillion quote lots at a fee of ten percent is estimated below the
      collateral it requires. */
  lemma {:induction false} MarginEstimateCanFallShort()
    ensures var config := MarketConfig(100_000, 1, 1);
            var bids := [Ok(Order(LimitOrderId(Bid, 1), 200_000_000_000_000))];
            && Estimate(bids, config) == 218_446_744_073_709
            && ClientQuote(bids, config) == Ok(220_000_000_000_000)
  {
    var config := MarketConfig(100_000, 1, 1);
    var bids: seq<Resolved> := [Ok(Order(LimitOrderId(Bid, 1), 200_000_000_000_000))];
    assert bids[..0] == [];
    assert MarginSum(bids[..0], config) == 0;
    assert BidQuotes(bids[..0], config) == 0;
    assert QuoteLotsCeil(config, 200_000_000_000_000, 1) == 200_000_000_000_000;
  }
}
