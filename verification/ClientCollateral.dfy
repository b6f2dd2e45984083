/** The client's own collateral figures: the market config's conversion and the
    required collateral of a set of orders. */
module ClientCollateral {
  import opened MachineInts
  import opened Rounding
  import opened LevelOps
  import opened SdkErrors
  import opened Markets
  import opened MakerBooks
  import opened BidCollateral

  datatype MarketConfig = MarketConfig(makerFeePpm: i32, tickConversionNum: u128, tickConversionDen: u128)

  /** The conversion pair a config derives from a market header and the base mint's
      decimals. The power of ten must fit, as the source's unchecked `pow` needs. */
  function FromHeader(m: Market, makerFeePpm: i32, baseDecimals: u8): MarketConfig
    requires Pow10(baseDecimals) <= U128_MAX
  {
    var num := SaturateU128(m.tickSize * m.baseAtomsPerBaseLot);
    var unit := SaturateU128(Pow10(baseDecimals) * m.rawBaseUnitsPerBaseUnit);
    MarketConfig(makerFeePpm, num, SaturateU128(unit * m.quoteAtomsPerQuoteLot))
  }

  /** On an accepted market no saturation happens: the config holds the exact pair. */
  lemma {:induction false} ConfigPairIsExact(m: AcceptedMarket, makerFeePpm: i32)
    ensures Pow10(m.baseDecimals) <= U128_MAX
    ensures FromHeader(m, makerFeePpm, m.baseDecimals)
              == MarketConfig(makerFeePpm, ConversionNum(m), ConversionDen(m))
  {
    AcceptedMarketMeaning(m);
    MultipleIsAtLeast(ConversionNum(m), ConversionDen(m));
    PositiveFactors(Pow10(m.baseDecimals), m.rawBaseUnitsPerBaseUnit);
    PositiveFactors(BaseAtomsPerBaseUnitExact(m), m.quoteAtomsPerQuoteLot);
  }

  function QuoteLotsCeil(config: MarketConfig, baseLots: u64, priceTicks: u64): u64 {
    if config.tickConversionDen == 0 then 0
    else
      var numerator := SaturateU128(SaturateU128(baseLots * priceTicks) * config.tickConversionNum);
      var quoteLots := SaturateU128(numerator + (config.tickConversionDen - 1)) / config.tickConversionDen;
      SaturateU64(quoteLots)
  }

  /** The exact figure: the source's formula without any width. */
  function Exact(config: MarketConfig, size: u64, price: u64): nat
    requires config.tickConversionDen > 0
  {
    Ceil(size * price * config.tickConversionNum, config.tickConversionDen)
  }

  /** Saturating at u128 loses nothing of this figure: the shifted numerator fits, or the
      limit itself still divides to at least the clamped result. */
  ghost predicate NothingLost(config: MarketConfig, size: u64, price: u64)
    requires config.tickConversionDen > 0
  {
    var den := config.tickConversionDen;
    || size * price * config.tickConversionNum + den - 1 <= U128_MAX
    || SaturateU64(Exact(config, size, price)) <= U128_MAX / den
  }

  lemma {:induction false} ClampedCeil(x: nat, den: u128)
    requires den > 0
    ensures var clamped := SaturateU64(SaturateU128(SaturateU128(x) + (den - 1)) / den);
            var exact := SaturateU64(Ceil(x, den));
            && clamped <= exact
            && (clamped == exact <==> x + den - 1 <= U128_MAX || exact <= U128_MAX / den)
  {
    if x + den - 1 > U128_MAX {
      assert SaturateU128(SaturateU128(x) + (den - 1)) == U128_MAX;
      FloorMono(U128_MAX, x + den - 1, den);
    }
  }

  lemma {:induction false} CeilUnfold(config: MarketConfig, size: u64, price: u64, notional: nat, x: nat)
    requires config.tickConversionDen > 0
    requires notional == size * price && notional <= U128_MAX
    requires x == notional * config.tickConversionNum
    ensures QuoteLotsCeil(config, size, price)
              == SaturateU64(SaturateU128(SaturateU128(x) + (config.tickConversionDen - 1)) / config.tickConversionDen)
  {
  }

  /** The client's ceiling never exceeds the exact one clamped at u64, and equals it
      exactly when the u128 saturation loses nothing; without a denominator it is zero. */
  lemma {:induction false} QuoteLotsCeilIsClamped(config: MarketConfig, size: u64, price: u64)
    ensures config.tickConversionDen == 0 ==> QuoteLotsCeil(config, size, price) == 0
    ensures config.tickConversionDen > 0 ==>
              && QuoteLotsCeil(config, size, price) <= SaturateU64(Exact(config, size, price))
              && (QuoteLotsCeil(config, size, price) == SaturateU64(Exact(config, size, price))
                  <==> NothingLost(config, size, price))
  {
    var x := size * price * config.tickConversionNum;
    if config.tickConversionDen > 0 {
      ProductFits(size, price);
      MulMono(0, config.tickConversionNum, size * price);
      ClampedCeil(x, config.tickConversionDen);
      CeilUnfold(config, size, price, size * price, x);
    }
  }

  /** A denominator that a book can hold never loses anything. */
  lemma {:induction false} SmallPairLosesNothing(config: MarketConfig, size: u64, price: u64)
    requires 0 < config.tickConversionDen <= U64_MAX
    ensures NothingLost(config, size, price)
  {
    ProductFits(U64_MAX, config.tickConversionDen);
    FloorGe(U128_MAX, config.tickConversionDen, U64_MAX);
  }

  /** An accepted market whose config falls short: a bid worth ten quintillion quote lots,
      which a book with the reduced pair locks in full, is figured at a third of that. */
  lemma {:induction false} CeilingCanFallShort()
    ensures var m := Market(18, 1, 1_000_000_000_000_000, 100, 100_000);
            var size, price := 1_000_000_000, 10_000_000_000;
            && ValidateMarketInvariants(m).Ok?
            && Pow10(18) <= U128_MAX
            && QuoteLotsCeil(FromHeader(m, 0, 18), size, price) == 3_402_823_669_209_384_634
            && SameRatio(1, 1, ConversionNum(m), ConversionDen(m))
            && ComputeQuoteLotsCeiling(1, 1, size, price) == Ok(10_000_000_000_000_000_000)
  {
    var m := Market(18, 1, 1_000_000_000_000_000, 100, 100_000);
    assert Pow10(9) == 1_000_000_000;
    assert Pow10(18) == 1_000_000_000_000_000_000;
    assert ConversionNum(m) == 100_000_000_000_000_000_000 == ConversionDen(m);
    assert FromHeader(m, 0, 18) == MarketConfig(0, 100_000_000_000_000_000_000, 100_000_000_000_000_000_000);
  }

  // ---------- required collateral ----------

  /** What resolving the human-readable order gave; conversion itself is not modelled. */
  type Resolved = SdkResult<Order>

  ghost predicate AllResolved(orders: seq<Resolved>) {
    forall i | 0 <= i < |orders| :: orders[i].Ok?
  }

  function AskLots(orders: seq<Resolved>): nat {
    if orders == [] then 0
    else
      var o := orders[|orders| - 1];
      AskLots(orders[..|orders| - 1]) + (if o.Ok? && o.value.id.side == Ask then o.value.size else 0)
  }

  function BidQuotes(orders: seq<Resolved>, config: MarketConfig): nat {
    if orders == [] then 0
    else
      var o := orders[|orders| - 1];
      BidQuotes(orders[..|orders| - 1], config)
        + (if o.Ok? && o.value.id.side == Bid then QuoteLotsCeil(config, o.value.size, o.value.id.priceTicks) else 0)
  }

  /** The client's fee buffer on a quote total. */
  function BufferedQuote(quote: u64, makerFeePpm: i32): SdkResult<u64> {
    if makerFeePpm > 0 && quote > 0 then
      var scaled :- OrOverflow(CheckedU128(quote * makerFeePpm, ArcherError.ArithmeticOverflow));
      var shifted :- OrOverflow(CheckedU128(scaled + 999_999, ArcherError.ArithmeticOverflow));
      var buffer :- OrOverflow(CheckedU64(shifted / PPM_DIVISOR, ArcherError.ArithmeticOverflow));
      OrOverflow(CheckedU64(quote + buffer, ArcherError.ArithmeticOverflow))
    else
      Ok(quote)
  }

  lemma {:induction false} BufferIsTheProgramsBuffer(quote: u64, makerFeePpm: i32)
    ensures BufferedQuote(quote, makerFeePpm) == OrOverflow(WithFeeBuffer(quote, makerFeePpm))
  {
  }

  datatype Required = Required(base: u64, quote: u64)

  /** The asks among the orders, those of size zero left out as a book does. */
  function PositiveAsks(orders: seq<Resolved>): seq<Order> {
    if orders == [] then []
    else
      var o := orders[|orders| - 1];
      PositiveAsks(orders[..|orders| - 1])
        + (if o.Ok? && o.value.id.side == Ask && o.value.size > 0 then [o.value] else [])
  }

  /** The book carries exactly these asks in some order, anchored anywhere. */
  ghost predicate CarriesAsks(b: MakerBook, orders: seq<Resolved>) {
    && Priced(b.askLevels, b.midPriceTicks)
    && multiset(ActiveOrders(b.askLevels, Ask, b.midPriceTicks)) == multiset(PositiveAsks(orders))
  }

  function SizesOf(orders: seq<Order>): nat {
    if orders == [] then 0 else SizesOf(orders[..|orders| - 1]) + orders[|orders| - 1].size
  }

  lemma {:induction false} SizesWithout(orders: seq<Order>, i: nat)
    requires i < |orders|
    ensures SizesOf(orders) == SizesOf(orders[..i] + orders[i + 1..]) + orders[i].size
  {
    var n := |orders| - 1;
    if i == n {
      assert orders[..i] + orders[i + 1..] == orders[..n];
    } else {
      SizesWithout(orders[..n], i);
      var rest := orders[..n][..i] + orders[..n][i + 1..];
      assert orders[..i] + orders[i + 1..] == rest + [orders[n]];
      assert (rest + [orders[n]])[..|rest|] == rest;
    }
  }

  lemma {:induction false} MultisetWithout(ys: seq<Order>, i: nat)
    requires i < |ys|
    ensures multiset(ys[..i] + ys[i + 1..]) == multiset(ys) - multiset{ys[i]}
  {
    assert ys == ys[..i] + [ys[i]] + ys[i + 1..];
  }

  lemma {:induction false} SizesOfPermutation(xs: seq<Order>, ys: seq<Order>)
    requires multiset(xs) == multiset(ys)
    ensures SizesOf(xs) == SizesOf(ys)
  {
    if xs == [] {
      assert |multiset(ys)| == 0;
    } else {
      var n := |xs| - 1;
      assert xs == xs[..n] + [xs[n]];
      assert xs[n] in multiset(ys);
      var i :| 0 <= i < |ys| && ys[i] == xs[n];
      MultisetWithout(ys, i);
      SizesOfPermutation(xs[..n], ys[..i] + ys[i + 1..]);
      SizesWithout(ys, i);
    }
  }

  lemma {:induction false} AskLotsAreSizes(orders: seq<Resolved>)
    ensures AskLots(orders) == SizesOf(PositiveAsks(orders))
  {
    if orders != [] {
      var n := |orders| - 1;
      AskLotsAreSizes(orders[..n]);
      var before := PositiveAsks(orders[..n]);
      if PositiveAsks(orders) != before {
        assert PositiveAsks(orders)[..|before|] == before;
      }
    }
  }

  lemma {:induction false} LotsAreSizes(levels: seq<MakerLevel>, mid: u64)
    requires Priced(levels, mid)
    ensures LotsOf(levels) == SizesOf(ActiveOrders(levels, Ask, mid))
  {
    if levels != [] {
      var n := |levels| - 1;
      PricedSplit(levels, mid);
      LotsAreSizes(levels[..n], mid);
      var before := ActiveOrders(levels[..n], Ask, mid);
      if levels[n].IsActive() {
        assert ActiveOrders(levels, Ask, mid)[..|before|] == before;
      } else {
        assert ActiveOrders(levels, Ask, mid) == before;
      }
    }
  }

  /** The client's base figure is the total ask size of every book that carries the
      orders' asks, up to the u64 clamp. */
  lemma {:induction false} BaseMatchesBook(b: MakerBook, orders: seq<Resolved>)
    requires CarriesAsks(b, orders)
    ensures AskLots(orders) == LotsOf(b.askLevels)
  {
    AskLotsAreSizes(orders);
    LotsAreSizes(b.askLevels, b.midPriceTicks);
    SizesOfPermutation(ActiveOrders(b.askLevels, Ask, b.midPriceTicks), PositiveAsks(orders));
  }

  /** Fails with the first order that does not resolve; otherwise both totals are the
      exact sums clamped at u64, the quote with the maker-fee buffer on top. */
  method ComputeRequiredCollateral(orders: seq<Resolved>, config: MarketConfig) returns (r: SdkResult<Required>)
    ensures AllResolved(orders) ==>
              r == match WithFeeBuffer(SaturateU64(BidQuotes(orders, config)), config.makerFeePpm)
                   case Ok(quote) => Ok(Required(SaturateU64(AskLots(orders)), quote))
                   case Err(_) => Err(SdkError.ArithmeticOverflow)
    ensures r.Ok? ==> forall b: MakerBook | CarriesAsks(b, orders) ::
              r.value.base == SaturateU64(LotsOf(b.askLevels))
    ensures !AllResolved(orders) ==>
              exists i :: 0 <= i < |orders| && orders[i].Err? && AllResolved(orders[..i]) && r == Err(orders[i].error)
  {
    var base: u64, quote: u64 := 0, 0;
    for i := 0 to |orders|
      invariant AllResolved(orders[..i])
      invariant base == SaturateU64(AskLots(orders[..i]))
      invariant quote == SaturateU64(BidQuotes(orders[..i], config))
    {
      assert orders[..i + 1][..i] == orders[..i];
      if orders[i].Err? {
        return Err(orders[i].error);
      }
      var o := orders[i].value;
      match o.id.side {
        case Ask => base := SaturateU64(base + o.size);
        case Bid => quote := SaturateU64(quote + QuoteLotsCeil(config, o.size, o.id.priceTicks));
      }
    }
    assert orders[..|orders|] == orders;
    BufferIsTheProgramsBuffer(quote, config.makerFeePpm);
    quote :- BufferedQuote(quote, config.makerFeePpm);
    forall b: MakerBook | CarriesAsks(b, orders) ensures base == SaturateU64(LotsOf(b.askLevels)) {
      BaseMatchesBook(b, orders);
    }
    r := Ok(Required(base, quote));
  }

  /** The bids among the orders, those of size zero left out as a book does. */
  function PositiveBids(orders: seq<Resolved>): seq<Order> {
    if orders == [] then []
    else
      var o := orders[|orders| - 1];
      PositiveBids(orders[..|orders| - 1])
        + (if o.Ok? && o.value.id.side == Bid && o.value.size > 0 then [o.value] else [])
  }

  /** Exact backing of a list of bids. */
  function BackingOf(bids: seq<Order>, config: MarketConfig): nat
    requires config.tickConversionDen > 0
  {
    if bids == [] then 0
    else
      var o := bids[|bids| - 1];
      BackingOf(bids[..|bids| - 1], config) + Exact(config, o.size, o.id.priceTicks)
  }

  /** The book, anchored at mid 0, carries exactly these bids in some order. */
  ghost predicate Carries(b: MakerBook, orders: seq<Resolved>) {
    && b.midPriceTicks == 0
    && Priced(b.bidLevels, 0)
    && multiset(ActiveOrders(b.bidLevels, Bid, 0)) == multiset(PositiveBids(orders))
  }

  lemma {:induction false} ZeroSizeNeedsNothing(config: MarketConfig, price: u64)
    requires config.tickConversionDen > 0
    ensures Exact(config, 0, price) == 0
  {
    ExactDivision(0, config.tickConversionDen);
  }

  /** The saturation loses nothing of any bid. */
  ghost predicate AllKept(bids: seq<Order>, config: MarketConfig)
    requires config.tickConversionDen > 0
  {
    forall i | 0 <= i < |bids| :: NothingLost(config, bids[i].size, bids[i].id.priceTicks)
  }

  lemma {:induction false} AllKeptAppend(bids: seq<Order>, o: Order, config: MarketConfig)
    requires config.tickConversionDen > 0
    ensures AllKept(bids + [o], config) <==> AllKept(bids, config) && NothingLost(config, o.size, o.id.priceTicks)
  {
    assert forall i | 0 <= i < |bids| :: (bids + [o])[i] == bids[i];
    assert (bids + [o])[|bids|] == o;
  }

  /** One more term of a sum of clamped figures against the exact sum. */
  lemma {:induction false} ClampedStep(sum: nat, exact: nat, kept: bool, term: nat, exactTerm: nat, keptTerm: bool)
    requires sum <= exact && if kept then SaturateU64(sum) == SaturateU64(exact) else sum < exact
    requires term <= SaturateU64(exactTerm) && (term == SaturateU64(exactTerm) <==> keptTerm)
    ensures sum + term <= exact + exactTerm
    ensures if kept && keptTerm then SaturateU64(sum + term) == SaturateU64(exact + exactTerm)
            else sum + term < exact + exactTerm
  {
  }

  lemma {:induction false} BackingAppend(bids: seq<Order>, o: Order, config: MarketConfig)
    requires config.tickConversionDen > 0
    ensures BackingOf(bids + [o], config) == BackingOf(bids, config) + Exact(config, o.size, o.id.priceTicks)
  {
    assert (bids + [o])[..|bids|] == bids;
  }

  /** The client's sum against the exact backing of the same bids: equal up to the u64
      clamp when nothing is lost, and strictly below the backing otherwise. */
  ghost predicate SumsClamped(sum: nat, bids: seq<Order>, config: MarketConfig)
    requires config.tickConversionDen > 0
  {
    && sum <= BackingOf(bids, config)
    && if AllKept(bids, config) then SaturateU64(sum) == SaturateU64(BackingOf(bids, config))
       else sum < BackingOf(bids, config)
  }

  lemma {:induction false} ClampedAppend(sum: nat, bids: seq<Order>, o: Order, config: MarketConfig)
    requires config.tickConversionDen > 0 && SumsClamped(sum, bids, config)
    ensures SumsClamped(sum + QuoteLotsCeil(config, o.size, o.id.priceTicks), bids + [o], config)
  {
    var size, price := o.size, o.id.priceTicks;
    QuoteLotsCeilIsClamped(config, size, price);
    AllKeptAppend(bids, o, config);
    BackingAppend(bids, o, config);
    ClampedStep(sum, BackingOf(bids, config), AllKept(bids, config),
                QuoteLotsCeil(config, size, price), Exact(config, size, price), NothingLost(config, size, price));
  }

  lemma {:induction false} ClientSum(orders: seq<Resolved>, config: MarketConfig)
    requires config.tickConversionDen > 0
    ensures SumsClamped(BidQuotes(orders, config), PositiveBids(orders), config)
  {
    if orders != [] {
      var n := |orders| - 1;
      var o := orders[n];
      ClientSum(orders[..n], config);
      if o.Ok? && o.value.id.side == Bid {
        if o.value.size > 0 {
          ClampedAppend(BidQuotes(orders[..n], config), PositiveBids(orders[..n]), o.value, config);
        } else {
          QuoteLotsCeilIsClamped(config, 0, o.value.id.priceTicks);
          ZeroSizeNeedsNothing(config, o.value.id.priceTicks);
          assert PositiveBids(orders) == PositiveBids(orders[..n]);
        }
      } else {
        assert PositiveBids(orders) == PositiveBids(orders[..n]);
      }
    }
  }

  /** Backing depends only on the ratio of the pair. */
  lemma {:induction false} BackingOfRatio(bids: seq<Order>, config: MarketConfig, other: MarketConfig)
    requires config.tickConversionDen > 0 && other.tickConversionDen > 0
    requires SameRatio(config.tickConversionNum, config.tickConversionDen,
                       other.tickConversionNum, other.tickConversionDen)
    ensures BackingOf(bids, config) == BackingOf(bids, other)
  {
    if bids != [] {
      var o := bids[|bids| - 1];
      BackingOfRatio(bids[..|bids| - 1], config, other);
      ProductFits(o.size, o.id.priceTicks);
      CeilOfRatio(o.size * o.id.priceTicks, config.tickConversionNum, config.tickConversionDen,
                  other.tickConversionNum, other.tickConversionDen);
    }
  }

  lemma {:induction false} BookSum(levels: seq<MakerLevel>, config: MarketConfig)
    requires config.tickConversionNum <= U64_MAX && 0 < config.tickConversionDen <= U64_MAX
    requires Priced(levels, 0)
    ensures CeilSum(levels, 0, config.tickConversionNum, config.tickConversionDen)
              == BackingOf(ActiveOrders(levels, Bid, 0), config)
  {
    if levels != [] {
      var n := |levels| - 1;
      PricedSplit(levels, 0);
      BookSum(levels[..n], config);
      var before := ActiveOrders(levels[..n], Bid, 0);
      if levels[n].IsActive() {
        assert ActiveOrders(levels, Bid, 0)[..|before|] == before;
      } else {
        assert ActiveOrders(levels, Bid, 0) == before;
        EmptyLevelIsFree(levels[n], 0, config.tickConversionNum, config.tickConversionDen);
      }
    }
  }

  lemma {:induction false} BackingWithout(bids: seq<Order>, i: nat, config: MarketConfig)
    requires config.tickConversionDen > 0 && i < |bids|
    ensures BackingOf(bids, config)
              == BackingOf(bids[..i] + bids[i + 1..], config) + Exact(config, bids[i].size, bids[i].id.priceTicks)
  {
    var n := |bids| - 1;
    if i == n {
      assert bids[..i] + bids[i + 1..] == bids[..n];
    } else {
      BackingWithout(bids[..n], i, config);
      var rest := bids[..n][..i] + bids[..n][i + 1..];
      assert bids[..i] + bids[i + 1..] == rest + [bids[n]];
      assert (rest + [bids[n]])[..|rest|] == rest;
    }
  }

  /** Backing does not depend on the order of the bids. */
  lemma {:induction false} BackingOfPermutation(xs: seq<Order>, ys: seq<Order>, config: MarketConfig)
    requires config.tickConversionDen > 0
    requires multiset(xs) == multiset(ys)
    ensures BackingOf(xs, config) == BackingOf(ys, config)
  {
    if xs == [] {
      assert |multiset(ys)| == 0;
    } else {
      var n := |xs| - 1;
      var x := xs[n];
      assert xs == xs[..n] + [x];
      assert multiset(xs[..n]) == multiset(xs) - multiset{x};
      assert x in multiset(ys);
      var i :| 0 <= i < |ys| && ys[i] == x;
      MultisetWithout(ys, i);
      BackingOfPermutation(xs[..n], ys[..i] + ys[i + 1..], config);
      BackingWithout(ys, i, config);
    }
  }

  /** The client's quote figure for a set of orders. */
  function ClientQuote(orders: seq<Resolved>, config: MarketConfig): Result<u64, ArcherError> {
    WithFeeBuffer(SaturateU64(BidQuotes(orders, config)), config.makerFeePpm)
  }

  /** The book's own conversion pair, as a config. */
  function BookConfig(b: MakerBook, makerFeePpm: i32): MarketConfig {
    MarketConfig(makerFeePpm, b.tickConversionNum, b.tickConversionDen)
  }

  /** The config and the book hold positive pairs of one ratio, as when the book caches
      the config's pair in lowest terms. */
  ghost predicate SamePair(config: MarketConfig, b: MakerBook) {
    && config.tickConversionNum > 0 && config.tickConversionDen > 0
    && b.tickConversionNum > 0 && b.tickConversionDen > 0
    && SameRatio(config.tickConversionNum, config.tickConversionDen, b.tickConversionNum, b.tickConversionDen)
  }

  /** More quote never needs less collateral, and needs more. */
  lemma {:induction false} FeeBufferStrict(lower: u64, higher: u64, makerFeePpm: i32)
    requires lower < higher
    requires WithFeeBuffer(higher, makerFeePpm).Ok?
    ensures WithFeeBuffer(lower, makerFeePpm).Ok?
    ensures WithFeeBuffer(lower, makerFeePpm).value < WithFeeBuffer(higher, makerFeePpm).value
  {
    FeeBufferExact(lower, makerFeePpm);
    FeeBufferExact(higher, makerFeePpm);
    MulMono(lower, higher, Max(makerFeePpm, 0));
    CeilMono(lower * Max(makerFeePpm, 0), higher * Max(makerFeePpm, 0), PPM_DIVISOR);
  }

  /** Client and program on the collateral of every set of orders a book can carry.
      Whenever there is a reserve the client never asks for more, and asks for exactly
      the reserve just when the u128 saturation loses nothing of any bid. When nothing is
      lost and the reserve overflows, the client reports the u64 limit if the maker pays
      no fee and fails otherwise. */
  lemma {:induction false} ClientMatchesReserve(b: MakerBook, orders: seq<Resolved>, config: MarketConfig)
    requires SamePair(config, b) && Carries(b, orders)
    ensures var reserve := RequiredQuoteReserve(b, config.makerFeePpm);
            var client := ClientQuote(orders, config);
            && (reserve.Ok? ==>
                  && client.Ok? && client.value <= reserve.value
                  && (client == reserve <==> AllKept(PositiveBids(orders), config)))
            && (reserve.Err? && AllKept(PositiveBids(orders), config) ==>
                  if config.makerFeePpm <= 0 then client == Ok(U64_MAX) else client.Err?)
  {
    var fee := config.makerFeePpm;
    ClientSum(orders, config);
    BackingOfRatio(PositiveBids(orders), config, BookConfig(b, fee));
    BookSum(b.bidLevels, BookConfig(b, fee));
    BackingOfPermutation(ActiveOrders(b.bidLevels, Bid, 0), PositiveBids(orders), BookConfig(b, fee));
    RemainingBidsExact(b);
    if RemainingBidQuoteLots(b).Ok? {
      var raw := BidQuotes(orders, config);
      if raw < RemainingBidQuoteLots(b).value && RequiredQuoteReserve(b, fee).Ok? {
        FeeBufferStrict(raw, RemainingBidQuoteLots(b).value, fee);
      }
    } else if fee > 0 {
      FeeBufferExact(U64_MAX, fee);
      CeilLe(U64_MAX * fee, PPM_DIVISOR, 0);
    }
  }

  /** Bids as the levels of a book anchored at mid 0. */
  function LevelsOf(bids: seq<Order>): (levels: seq<MakerLevel>)
    requires forall i | 0 <= i < |bids| :: bids[i].id.priceTicks <= I64_MAX
    ensures |levels| == |bids|
  {
    seq(|bids|, i requires 0 <= i < |bids| => MakerLevel(bids[i].size, bids[i].id.priceTicks))
  }

  lemma {:induction false} LevelsOfCarry(bids: seq<Order>)
    requires forall i | 0 <= i < |bids| ::
               bids[i].id.side == Bid && bids[i].size > 0 && 0 < bids[i].id.priceTicks <= I64_MAX
    ensures Priced(LevelsOf(bids), 0) && ActiveOrders(LevelsOf(bids), Bid, 0) == bids
  {
    if bids != [] {
      var n := |bids| - 1;
      LevelsOfCarry(bids[..n]);
      assert LevelsOf(bids)[..n] == LevelsOf(bids[..n]);
      assert bids == bids[..n] + [bids[n]];
    }
  }

  lemma {:induction false} PaddingCarries(levels: seq<MakerLevel>)
    requires Priced(levels, 0)
    ensures Priced(Padded(levels), 0) && ActiveOrders(Padded(levels), Bid, 0) == ActiveOrders(levels, Bid, 0)
    decreases MAX_LEVELS - |levels|
  {
    if |levels| < MAX_LEVELS {
      var next := levels + [EMPTY_LEVEL];
      assert next[..|levels|] == levels;
      PaddingCarries(next);
    }
  }

  lemma {:induction false} PositiveBidsShape(orders: seq<Resolved>)
    ensures forall i | 0 <= i < |PositiveBids(orders)| ::
              var o := PositiveBids(orders)[i];
              o.id.side == Bid && o.size > 0 && exists j :: 0 <= j < |orders| && orders[j] == Ok(o)
  {
    if orders != [] {
      var n := |orders| - 1;
      PositiveBidsShape(orders[..n]);
      assert forall j | 0 <= j < n :: orders[..n][j] == orders[j];
    }
  }

  /** Every set of orders with at most 16 bids, at prices an i64 can hold, is carried
      by the mid-0 book that stores those bids: there the client's collateral is the
      program's reserve, whenever the program can compute one, just when nothing is
      lost. */
  lemma {:induction false} OrdersAreBackedExactly(b: MakerBook, orders: seq<Resolved>, config: MarketConfig)
    requires SamePair(config, b)
    requires |PositiveBids(orders)| <= MAX_LEVELS
    requires forall i | 0 <= i < |orders| && orders[i].Ok? :: 0 < orders[i].value.id.priceTicks <= I64_MAX
    ensures forall i | 0 <= i < |PositiveBids(orders)| :: PositiveBids(orders)[i].id.priceTicks <= I64_MAX
    ensures var book := b.(midPriceTicks := 0, bidLevels := Padded(LevelsOf(PositiveBids(orders))));
            && Carries(book, orders)
            && (RequiredQuoteReserve(book, config.makerFeePpm).Ok? ==>
                  (ClientQuote(orders, config) == RequiredQuoteReserve(book, config.makerFeePpm)
                   <==> AllKept(PositiveBids(orders), config)))
  {
    PositiveBidsShape(orders);
    LevelsOfCarry(PositiveBids(orders));
    PaddingCarries(LevelsOf(PositiveBids(orders)));
    var book := b.(midPriceTicks := 0, bidLevels := Padded(LevelsOf(PositiveBids(orders))));
    ClientMatchesReserve(book, orders, config);
  }
}
