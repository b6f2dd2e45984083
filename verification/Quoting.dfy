/** Turning a two-sided quote into the levels of a book update. Prices and sizes are
    reals, and the conversions to ticks and lots are parameters. */
module Quoting {
  import opened MachineInts
  import opened LevelOps
  import opened SdkErrors
  import opened MakerBooks
  import opened BidCollateral
  import opened ClientCollateral

  datatype Quote = Quote(price: real, size: real)

  datatype TwoSidedQuote = TwoSidedQuote(bids: seq<Quote>, asks: seq<Quote>)

  datatype BookUpdate = BookUpdate(
    newMidPriceTicks: u64,
    bidLevels: seq<MakerLevel>,
    askLevels: seq<MakerLevel>,
    midPriceChanged: bool,
    estimatedBaseLotsLocked: u64,
    estimatedQuoteLotsLocked: u64)

  datatype Conversion = Conversion(
    toTicks: real -> SdkResult<u64>,
    toLots: real -> SdkResult<u64>,
    config: MarketConfig)

  /** A higher price never has fewer ticks. */
  ghost predicate Monotone(c: Conversion) {
    forall p, q | p <= q && c.toTicks(p).Ok? && c.toTicks(q).Ok? :: c.toTicks(p).value <= c.toTicks(q).value
  }

  function Scaled(price: real, factor: real): real {
    price * factor
  }

  function RoundTicks(ticks: real): SdkResult<u64> {
    if ticks < 0.5 then Err(PriceBelowResolution)
    else if ticks > (U64_MAX + 1) as real then Err(SdkError.ArithmeticOverflow)
    else Ok(SaturateU64((ticks + 0.5).Floor))
  }

  /** `price_to_ticks` at a given factor, on exact reals: round half up, refusing
      prices that round to no tick. */
  function PriceToTicks(factor: real, price: real): SdkResult<u64> {
    if price <= 0.0 then Err(SdkError.InvalidPrice) else RoundTicks(Scaled(price, factor))
  }

  /** The nearest tick, halves up; a price that is nearest to no tick is below the
      resolution, and one past 2^64 overflows. */
  lemma {:induction false} PriceToTicksExact(factor: real, price: real)
    ensures price <= 0.0 ==> PriceToTicks(factor, price) == Err(SdkError.InvalidPrice)
    ensures price > 0.0 ==>
              var t, r := Scaled(price, factor), PriceToTicks(factor, price);
              if t < 0.5 then r == Err(PriceBelowResolution)
              else if t > 18_446_744_073_709_551_616.0 then r == Err(SdkError.ArithmeticOverflow)
              else r.Ok? && r.value as real - 0.5 <= t && (r.value < U64_MAX ==> t < r.value as real + 0.5)
  {
    var floor := (Scaled(price, factor) + 0.5).Floor;
    assert floor as real <= Scaled(price, factor) + 0.5 < floor as real + 1.0;
  }

  lemma {:induction false} ScaleMono(p: real, q: real, factor: real)
    requires p <= q && factor > 0.0
    ensures Scaled(p, factor) <= Scaled(q, factor)
  {
    assert (q - p) * factor >= 0.0;
  }

  lemma {:induction false} RoundMono(x: real, y: real)
    requires x <= y
    requires RoundTicks(x).Ok? && RoundTicks(y).Ok?
    ensures RoundTicks(x).value <= RoundTicks(y).value
  {
    assert x + 0.5 <= y + 0.5;
  }

  lemma {:induction false} PriceToTicksIsMonotone(factor: real, toLots: real -> SdkResult<u64>, config: MarketConfig)
    requires factor > 0.0
    ensures Monotone(Conversion(p => PriceToTicks(factor, p), toLots, config))
  {
    forall p: real, q: real | p <= q && PriceToTicks(factor, p).Ok? && PriceToTicks(factor, q).Ok?
      ensures PriceToTicks(factor, p).value <= PriceToTicks(factor, q).value
    {
      ScaleMono(p, q, factor);
      RoundMono(Scaled(p, factor), Scaled(q, factor));
    }
  }

  // ---------- structure ----------

  ghost predicate Plausible(quotes: seq<Quote>) {
    forall i | 0 <= i < |quotes| :: quotes[i].price > 0.0 && quotes[i].size >= 0.0
  }

  ghost predicate PricesFall(quotes: seq<Quote>) {
    forall i, j | 0 <= i < j < |quotes| :: quotes[j].price < quotes[i].price
  }

  ghost predicate PricesRise(quotes: seq<Quote>) {
    forall i, j | 0 <= i < j < |quotes| :: quotes[i].price < quotes[j].price
  }

  ghost predicate Structured(q: TwoSidedQuote) {
    && |q.bids| <= MAX_LEVELS && |q.asks| <= MAX_LEVELS
    && PricesFall(q.bids) && PricesRise(q.asks)
    && (q.bids != [] && q.asks != [] ==> q.bids[0].price < q.asks[0].price)
    && Plausible(q.bids) && Plausible(q.asks)
  }

  lemma {:induction false} PricesFallStep(quotes: seq<Quote>, n: nat)
    requires 0 < n < |quotes| && PricesFall(quotes[..n])
    ensures PricesFall(quotes[..n + 1]) <==> quotes[n].price < quotes[n - 1].price
    ensures PricesFall(quotes) ==> PricesFall(quotes[..n + 1])
  {
    var next := quotes[..n + 1];
    assert next[n] == quotes[n] && next[n - 1] == quotes[n - 1];
    if quotes[n].price < quotes[n - 1].price {
      forall i | 0 <= i < n ensures next[n].price < next[i].price {
        assert i < n - 1 ==> quotes[..n][n - 1].price < quotes[..n][i].price;
      }
      assert forall i, j | 0 <= i < j < n :: next[i] == quotes[..n][i] && next[j] == quotes[..n][j];
    }
  }

  lemma {:induction false} PricesRiseStep(quotes: seq<Quote>, n: nat)
    requires 0 < n < |quotes| && PricesRise(quotes[..n])
    ensures PricesRise(quotes[..n + 1]) <==> quotes[n - 1].price < quotes[n].price
    ensures PricesRise(quotes) ==> PricesRise(quotes[..n + 1])
  {
    var next := quotes[..n + 1];
    assert next[n] == quotes[n] && next[n - 1] == quotes[n - 1];
    if quotes[n - 1].price < quotes[n].price {
      forall i | 0 <= i < n ensures next[i].price < next[n].price {
        assert i < n - 1 ==> quotes[..n][i].price < quotes[..n][n - 1].price;
      }
      assert forall i, j | 0 <= i < j < n :: next[i] == quotes[..n][i] && next[j] == quotes[..n][j];
    }
  }

  lemma {:induction false} ImplausibleAt(a: seq<Quote>, b: seq<Quote>, i: nat)
    requires i < |a + b| && ((a + b)[i].price <= 0.0 || (a + b)[i].size < 0.0)
    ensures !Plausible(a) || !Plausible(b)
  {
  }

  lemma {:induction false} PlausibleConcat(a: seq<Quote>, b: seq<Quote>)
    requires Plausible(a + b)
    ensures Plausible(a) && Plausible(b)
  {
    assert forall i | 0 <= i < |a| :: a[i] == (a + b)[i];
    assert forall i | 0 <= i < |b| :: b[i] == (a + b)[|a| + i];
  }

  /** Quote `i` is the first with a bad value, and which. */
  ghost predicate ImplausibleFirst(quotes: seq<Quote>, i: nat, error: SdkError) {
    && i < |quotes|
    && Plausible(quotes[..i])
    && (quotes[i].price <= 0.0 || quotes[i].size < 0.0)
    && error == if quotes[i].price <= 0.0 then SdkError.InvalidPrice else InvalidSize
  }

  /** The last scan: positive prices and no negative size. */
  method ValidateValues(q: TwoSidedQuote) returns (r: SdkResult<()>)
    ensures r.Ok? <==> Plausible(q.bids) && Plausible(q.asks)
    ensures r.Err? ==> exists i: nat :: ImplausibleFirst(q.bids + q.asks, i, r.error)
  {
    var all := q.bids + q.asks;
    for i := 0 to |all|
      invariant Plausible(all[..i])
    {
      if all[i].price <= 0.0 {
        ImplausibleAt(q.bids, q.asks, i);
        assert ImplausibleFirst(all, i, SdkError.InvalidPrice);
        return Err(SdkError.InvalidPrice);
      }
      if all[i].size < 0.0 {
        ImplausibleAt(q.bids, q.asks, i);
        assert ImplausibleFirst(all, i, InvalidSize);
        return Err(InvalidSize);
      }
    }
    assert all[..|all|] == all;
    PlausibleConcat(q.bids, q.asks);
    r := Ok(());
  }

  /** Quote `n` is the first bid that does not fall below the one before it. */
  ghost predicate FirstBidOutOfOrder(bids: seq<Quote>, n: nat) {
    0 < n < |bids| && PricesFall(bids[..n]) && !PricesFall(bids[..n + 1])
  }

  ghost predicate FirstAskOutOfOrder(asks: seq<Quote>, n: nat) {
    0 < n < |asks| && PricesRise(asks[..n]) && !PricesRise(asks[..n + 1])
  }

  method ValidateBidOrder(bids: seq<Quote>) returns (r: SdkResult<()>)
    ensures r.Ok? <==> PricesFall(bids)
    ensures r.Err? ==> r.error.BidsNotDescending? && FirstBidOutOfOrder(bids, r.error.index)
  {
    var n := 1;
    while n < |bids|
      invariant 1 <= n
      invariant n <= |bids| ==> PricesFall(bids[..n])
      invariant n > |bids| ==> bids == []
    {
      PricesFallStep(bids, n);
      if bids[n].price >= bids[n - 1].price {
        return Err(BidsNotDescending(n));
      }
      n := n + 1;
    }
    assert bids[..|bids|] == bids;
    r := Ok(());
  }

  method ValidateAskOrder(asks: seq<Quote>) returns (r: SdkResult<()>)
    ensures r.Ok? <==> PricesRise(asks)
    ensures r.Err? ==> r.error.AsksNotAscending? && FirstAskOutOfOrder(asks, r.error.index)
  {
    var n := 1;
    while n < |asks|
      invariant 1 <= n
      invariant n <= |asks| ==> PricesRise(asks[..n])
      invariant n > |asks| ==> asks == []
    {
      PricesRiseStep(asks, n);
      if asks[n].price <= asks[n - 1].price {
        return Err(AsksNotAscending(n));
      }
      n := n + 1;
    }
    assert asks[..|asks|] == asks;
    r := Ok(());
  }

  /** The first complaint about a quote, in the order it is checked: too many levels, the
      first bid or ask out of order, a cross, the first bad value. */
  ghost predicate StructureError(q: TwoSidedQuote, error: SdkError) {
    if |q.bids| > MAX_LEVELS then error == TooManyLevels(|q.bids|)
    else if |q.asks| > MAX_LEVELS then error == TooManyLevels(|q.asks|)
    else if !PricesFall(q.bids) then error.BidsNotDescending? && FirstBidOutOfOrder(q.bids, error.index)
    else if !PricesRise(q.asks) then error.AsksNotAscending? && FirstAskOutOfOrder(q.asks, error.index)
    else if q.bids != [] && q.asks != [] && q.bids[0].price >= q.asks[0].price then error == CrossedBook
    else exists i: nat :: ImplausibleFirst(q.bids + q.asks, i, error)
  }

  /** Accepts exactly the structured quotes, and reports the first complaint. */
  method ValidateQuoteStructure(q: TwoSidedQuote) returns (r: SdkResult<()>)
    ensures r.Ok? <==> Structured(q)
    ensures r.Err? ==> StructureError(q, r.error)
  {
    if |q.bids| > MAX_LEVELS {
      return Err(TooManyLevels(|q.bids|));
    }
    if |q.asks| > MAX_LEVELS {
      return Err(TooManyLevels(|q.asks|));
    }
    var _ :- ValidateBidOrder(q.bids);
    var _ :- ValidateAskOrder(q.asks);
    if q.bids != [] && q.asks != [] && q.bids[0].price >= q.asks[0].price {
      return Err(CrossedBook);
    }
    r := ValidateValues(q);
  }

  /** The midpoint of a two-sided quote, or the best price of the one side. */
  function ComputeMidPrice(q: TwoSidedQuote, c: Conversion): SdkResult<u64> {
    if q.bids != [] && q.asks != [] then c.toTicks((q.bids[0].price + q.asks[0].price) / 2.0)
    else if q.bids != [] then c.toTicks(q.bids[0].price)
    else if q.asks != [] then c.toTicks(q.asks[0].price)
    else Err(SdkError.InvalidPrice)
  }

  function PriceToOffset(price: real, mid: u64, c: Conversion): SdkResult<i64> {
    var ticks :- c.toTicks(price);
    if I64_MIN <= ticks - mid <= I64_MAX then Ok(ticks - mid) else Err(OffsetOverflow)
  }

  // ---------- levels ----------

  /** Every price has an offset from the mid, and every size has lots. */
  ghost predicate Resolves(quotes: seq<Quote>, mid: u64, c: Conversion) {
    forall i | 0 <= i < |quotes| :: PriceToOffset(quotes[i].price, mid, c).Ok? && c.toLots(quotes[i].size).Ok?
  }

  /** The levels are the quotes: mid plus offset is each price's tick, and the sizes
      are each size's lots. */
  ghost predicate Carry(levels: seq<MakerLevel>, quotes: seq<Quote>, mid: u64, c: Conversion) {
    && |levels| == |quotes|
    && forall i | 0 <= i < |levels| ::
         && c.toTicks(quotes[i].price).Ok?
         && c.toTicks(quotes[i].price).value == mid + levels[i].priceOffsetTicks
         && c.toLots(quotes[i].size) == Ok(levels[i].sizeInBaseLots)
  }

  ghost predicate OffsetsFall(levels: seq<MakerLevel>) {
    forall i, j | 0 <= i < j < |levels| :: levels[j].priceOffsetTicks < levels[i].priceOffsetTicks
  }

  ghost predicate OffsetsRise(levels: seq<MakerLevel>) {
    forall i, j | 0 <= i < j < |levels| :: levels[i].priceOffsetTicks < levels[j].priceOffsetTicks
  }

  /** No two of the prices share a tick, and they keep their order. */
  ghost predicate TicksFall(quotes: seq<Quote>, c: Conversion) {
    forall i, j | 0 <= i < j < |quotes| && c.toTicks(quotes[i].price).Ok? && c.toTicks(quotes[j].price).Ok? ::
      c.toTicks(quotes[j].price).value < c.toTicks(quotes[i].price).value
  }

  ghost predicate TicksRise(quotes: seq<Quote>, c: Conversion) {
    forall i, j | 0 <= i < j < |quotes| && c.toTicks(quotes[i].price).Ok? && c.toTicks(quotes[j].price).Ok? ::
      c.toTicks(quotes[i].price).value < c.toTicks(quotes[j].price).value
  }

  /** The level's absolute price, floored at zero and cast to u64. */
  function TickOf(level: MakerLevel, mid: u64): u64 {
    Max(mid + level.priceOffsetTicks, 0) % (U64_MAX + 1)
  }

  function QuotedBids(levels: seq<MakerLevel>, mid: u64, config: MarketConfig): nat {
    if levels == [] then 0
    else
      var level := levels[|levels| - 1];
      QuotedBids(levels[..|levels| - 1], mid, config)
        + QuoteLotsCeil(config, level.sizeInBaseLots, TickOf(level, mid))
  }

  datatype SideLevels = SideLevels(levels: seq<MakerLevel>, locked: u64)

  lemma {:induction false} CarryStep(
      levels: seq<MakerLevel>, quotes: seq<Quote>, mid: u64, c: Conversion, i: nat, level: MakerLevel)
    requires i < |quotes|
    requires Resolves(quotes[..i], mid, c) && Carry(levels, quotes[..i], mid, c)
    requires PriceToOffset(quotes[i].price, mid, c) == Ok(level.priceOffsetTicks)
    requires c.toLots(quotes[i].size) == Ok(level.sizeInBaseLots)
    ensures Resolves(quotes[..i + 1], mid, c) && Carry(levels + [level], quotes[..i + 1], mid, c)
  {
    assert quotes[..i + 1] == quotes[..i] + [quotes[i]];
  }

  lemma {:induction false} FallStep(levels: seq<MakerLevel>, level: MakerLevel)
    requires OffsetsFall(levels)
    requires levels != [] ==> level.priceOffsetTicks < levels[|levels| - 1].priceOffsetTicks
    ensures OffsetsFall(levels + [level])
  {
  }

  lemma {:induction false} RiseStep(levels: seq<MakerLevel>, level: MakerLevel)
    requires OffsetsRise(levels)
    requires levels != [] ==> levels[|levels| - 1].priceOffsetTicks < level.priceOffsetTicks
    ensures OffsetsRise(levels + [level])
  {
  }

  /** A repeated or reversed offset is a repeated or reversed tick. */
  lemma {:induction false} OutOfOrder(
      levels: seq<MakerLevel>, quotes: seq<Quote>, mid: u64, c: Conversion, i: nat, offset: i64)
    requires 0 < i < |quotes| && Carry(levels, quotes[..i], mid, c)
    requires PriceToOffset(quotes[i].price, mid, c) == Ok(offset)
    ensures offset >= levels[i - 1].priceOffsetTicks ==> !TicksFall(quotes[..i + 1], c) && !TicksFall(quotes, c)
    ensures offset <= levels[i - 1].priceOffsetTicks ==> !TicksRise(quotes[..i + 1], c) && !TicksRise(quotes, c)
  {
    assert quotes[..i + 1][i] == quotes[i] && quotes[..i + 1][i - 1] == quotes[i - 1];
    assert quotes[..i][i - 1] == quotes[i - 1];
    assert c.toTicks(quotes[i - 1].price).value == mid + levels[i - 1].priceOffsetTicks;
    assert c.toTicks(quotes[i].price).value == mid + offset;
  }

  lemma {:induction false} OrderedTicks(levels: seq<MakerLevel>, quotes: seq<Quote>, mid: u64, c: Conversion)
    requires Carry(levels, quotes, mid, c)
    ensures OffsetsFall(levels) ==> TicksFall(quotes, c)
    ensures OffsetsRise(levels) ==> TicksRise(quotes, c)
  {
  }

  lemma {:induction false} TotalsGrow(levels: seq<MakerLevel>, level: MakerLevel, mid: u64, config: MarketConfig)
    ensures QuotedBids(levels + [level], mid, config)
              == QuotedBids(levels, mid, config) + QuoteLotsCeil(config, level.sizeInBaseLots, TickOf(level, mid))
    ensures LotsOf(levels + [level]) == LotsOf(levels) + level.sizeInBaseLots
  {
    assert (levels + [level])[..|levels|] == levels;
  }

  /** Why quote `i` cannot be a level, if the quotes before it are. */
  function LevelError(quotes: seq<Quote>, mid: u64, c: Conversion, i: nat): SdkError
    requires i < |quotes|
  {
    match PriceToOffset(quotes[i].price, mid, c)
    case Err(e) => e
    case Ok(offset) =>
      match c.toLots(quotes[i].size)
      case Err(e) => e
      case Ok(_) => DuplicateOffset(offset, i)
  }

  /** Bid `i` is the first that cannot be a level, and why. */
  ghost predicate BidFailsAt(quotes: seq<Quote>, mid: u64, c: Conversion, i: nat, error: SdkError) {
    && i < |quotes|
    && Resolves(quotes[..i], mid, c) && TicksFall(quotes[..i], c)
    && !(Resolves(quotes[..i + 1], mid, c) && TicksFall(quotes[..i + 1], c))
    && error == LevelError(quotes, mid, c, i)
  }

  ghost predicate AskFailsAt(quotes: seq<Quote>, mid: u64, c: Conversion, i: nat, error: SdkError) {
    && i < |quotes|
    && Resolves(quotes[..i], mid, c) && TicksRise(quotes[..i], c)
    && !(Resolves(quotes[..i + 1], mid, c) && TicksRise(quotes[..i + 1], c))
    && error == LevelError(quotes, mid, c, i)
  }

  /** A quote that does not convert ends the resolved prefix. */
  lemma {:induction false} UnresolvedEnds(quotes: seq<Quote>, mid: u64, c: Conversion, i: nat)
    requires i < |quotes|
    requires PriceToOffset(quotes[i].price, mid, c).Err? || c.toLots(quotes[i].size).Err?
    ensures !Resolves(quotes[..i + 1], mid, c) && !Resolves(quotes, mid, c)
  {
    assert quotes[..i + 1][i] == quotes[i];
  }

  /** One turn of the bid loop: it fails at quote `i` and says why, or takes the level. */
  lemma {:induction false} BidStep(levels: seq<MakerLevel>, quotes: seq<Quote>, mid: u64, c: Conversion, i: nat)
    requires i < |quotes|
    requires Resolves(quotes[..i], mid, c) && Carry(levels, quotes[..i], mid, c) && OffsetsFall(levels)
    ensures var offset, size := PriceToOffset(quotes[i].price, mid, c), c.toLots(quotes[i].size);
            if offset.Err? || size.Err? then
              BidFailsAt(quotes, mid, c, i, LevelError(quotes, mid, c, i)) && !Resolves(quotes, mid, c)
            else if i > 0 && offset.value >= levels[i - 1].priceOffsetTicks then
              BidFailsAt(quotes, mid, c, i, DuplicateOffset(offset.value, i)) && !TicksFall(quotes, c)
            else
              var level := MakerLevel(size.value, offset.value);
              && Resolves(quotes[..i + 1], mid, c)
              && Carry(levels + [level], quotes[..i + 1], mid, c)
              && OffsetsFall(levels + [level])
  {
    var offset, size := PriceToOffset(quotes[i].price, mid, c), c.toLots(quotes[i].size);
    OrderedTicks(levels, quotes[..i], mid, c);
    if offset.Err? || size.Err? {
      UnresolvedEnds(quotes, mid, c, i);
    } else if i > 0 && offset.value >= levels[i - 1].priceOffsetTicks {
      OutOfOrder(levels, quotes, mid, c, i, offset.value);
    } else {
      CarryStep(levels, quotes, mid, c, i, MakerLevel(size.value, offset.value));
      FallStep(levels, MakerLevel(size.value, offset.value));
    }
  }

  method BuildBids(quotes: seq<Quote>, mid: u64, c: Conversion) returns (r: SdkResult<SideLevels>)
    ensures r.Ok? <==> Resolves(quotes, mid, c) && TicksFall(quotes, c)
    ensures r.Ok? ==> Carry(r.value.levels, quotes, mid, c) && OffsetsFall(r.value.levels)
    ensures r.Ok? ==> r.value.locked == SaturateU64(QuotedBids(r.value.levels, mid, c.config))
    ensures r.Err? ==> exists i: nat :: BidFailsAt(quotes, mid, c, i, r.error)
  {
    var levels: seq<MakerLevel> := [];
    var locked: u64 := 0;
    for i := 0 to |quotes|
      invariant Resolves(quotes[..i], mid, c)
      invariant Carry(levels, quotes[..i], mid, c) && OffsetsFall(levels)
      invariant locked == SaturateU64(QuotedBids(levels, mid, c.config))
    {
      BidStep(levels, quotes, mid, c, i);
      var offset :- PriceToOffset(quotes[i].price, mid, c);
      var size :- c.toLots(quotes[i].size);
      var level := MakerLevel(size, offset);
      if i > 0 && offset >= levels[i - 1].priceOffsetTicks {
        return Err(DuplicateOffset(offset, i));
      }
      TotalsGrow(levels, level, mid, c.config);
      locked := SaturateU64(locked + QuoteLotsCeil(c.config, size, TickOf(level, mid)));
      levels := levels + [level];
    }
    assert quotes[..|quotes|] == quotes;
    OrderedTicks(levels, quotes, mid, c);
    r := Ok(SideLevels(levels, locked));
  }

  /** One turn of the ask loop: it fails at quote `i` and says why, or takes the level. */
  lemma {:induction false} AskStep(levels: seq<MakerLevel>, quotes: seq<Quote>, mid: u64, c: Conversion, i: nat)
    requires i < |quotes|
    requires Resolves(quotes[..i], mid, c) && Carry(levels, quotes[..i], mid, c) && OffsetsRise(levels)
    ensures var offset, size := PriceToOffset(quotes[i].price, mid, c), c.toLots(quotes[i].size);
            if offset.Err? || size.Err? then
              AskFailsAt(quotes, mid, c, i, LevelError(quotes, mid, c, i)) && !Resolves(quotes, mid, c)
            else if i > 0 && offset.value <= levels[i - 1].priceOffsetTicks then
              AskFailsAt(quotes, mid, c, i, DuplicateOffset(offset.value, i)) && !TicksRise(quotes, c)
            else
              var level := MakerLevel(size.value, offset.value);
              && Resolves(quotes[..i + 1], mid, c)
              && Carry(levels + [level], quotes[..i + 1], mid, c)
              && OffsetsRise(levels + [level])
  {
    var offset, size := PriceToOffset(quotes[i].price, mid, c), c.toLots(quotes[i].size);
    OrderedTicks(levels, quotes[..i], mid, c);
    if offset.Err? || size.Err? {
      UnresolvedEnds(quotes, mid, c, i);
    } else if i > 0 && offset.value <= levels[i - 1].priceOffsetTicks {
      OutOfOrder(levels, quotes, mid, c, i, offset.value);
    } else {
      CarryStep(levels, quotes, mid, c, i, MakerLevel(size.value, offset.value));
      RiseStep(levels, MakerLevel(size.value, offset.value));
    }
  }

  method BuildAsks(quotes: seq<Quote>, mid: u64, c: Conversion) returns (r: SdkResult<SideLevels>)
    ensures r.Ok? <==> Resolves(quotes, mid, c) && TicksRise(quotes, c)
    ensures r.Ok? ==> Carry(r.value.levels, quotes, mid, c) && OffsetsRise(r.value.levels)
    ensures r.Ok? ==> r.value.locked == SaturateU64(LotsOf(r.value.levels))
    ensures r.Err? ==> exists i: nat :: AskFailsAt(quotes, mid, c, i, r.error)
  {
    var levels: seq<MakerLevel> := [];
    var locked: u64 := 0;
    for i := 0 to |quotes|
      invariant Resolves(quotes[..i], mid, c)
      invariant Carry(levels, quotes[..i], mid, c) && OffsetsRise(levels)
      invariant locked == SaturateU64(LotsOf(levels))
    {
      AskStep(levels, quotes, mid, c, i);
      var offset :- PriceToOffset(quotes[i].price, mid, c);
      var size :- c.toLots(quotes[i].size);
      var level := MakerLevel(size, offset);
      if i > 0 && offset <= levels[i - 1].priceOffsetTicks {
        return Err(DuplicateOffset(offset, i));
      }
      TotalsGrow(levels, level, mid, c.config);
      locked := SaturateU64(locked + size);
      levels := levels + [level];
    }
    assert quotes[..|quotes|] == quotes;
    OrderedTicks(levels, quotes, mid, c);
    r := Ok(SideLevels(levels, locked));
  }

  /** The quote is structured, its mid price converts, and around that mid so do all its
      levels, no two of a side at one tick. */
  ghost predicate QuotableAround(q: TwoSidedQuote, midPrice: real, c: Conversion) {
    && Structured(q)
    && c.toTicks(midPrice).Ok?
    && Resolves(q.bids, c.toTicks(midPrice).value, c) && TicksFall(q.bids, c)
    && Resolves(q.asks, c.toTicks(midPrice).value, c) && TicksRise(q.asks, c)
  }

  ghost predicate Faithful(u: BookUpdate, q: TwoSidedQuote, c: Conversion) {
    && ComputeMidPrice(q, c) == Ok(u.newMidPriceTicks)
    && Carry(u.bidLevels, q.bids, u.newMidPriceTicks, c) && OffsetsFall(u.bidLevels)
    && Carry(u.askLevels, q.asks, u.newMidPriceTicks, c) && OffsetsRise(u.askLevels)
    && u.estimatedQuoteLotsLocked == SaturateU64(QuotedBids(u.bidLevels, u.newMidPriceTicks, c.config))
    && u.estimatedBaseLotsLocked == SaturateU64(LotsOf(u.askLevels))
  }

  /** Builds the update exactly when the quote is structured, everything converts around
      the midpoint, or the best price of the one side, and no two prices of a side share
      a tick; the update then carries the quote. */
  method BuildBookUpdate(q: TwoSidedQuote, currentMidPriceTicks: u64, c: Conversion)
    returns (r: SdkResult<BookUpdate>)
    ensures q.bids != [] && q.asks != [] ==>
              (r.Ok? <==> QuotableAround(q, (q.bids[0].price + q.asks[0].price) / 2.0, c))
    ensures q.bids != [] && q.asks == [] ==> (r.Ok? <==> QuotableAround(q, q.bids[0].price, c))
    ensures q.bids == [] && q.asks != [] ==> (r.Ok? <==> QuotableAround(q, q.asks[0].price, c))
    ensures r.Ok? ==> Faithful(r.value, q, c)
    ensures r.Ok? ==> (r.value.midPriceChanged <==> r.value.newMidPriceTicks != currentMidPriceTicks)
    ensures q.bids == [] && q.asks == [] ==> r == Err(SdkError.InvalidPrice)
    ensures r.Err? ==>
              if !Structured(q) then StructureError(q, r.error)
              else
                match ComputeMidPrice(q, c)
                case Err(e) => r.error == e
                case Ok(mid) =>
                  if !(Resolves(q.bids, mid, c) && TicksFall(q.bids, c))
                  then exists i: nat :: BidFailsAt(q.bids, mid, c, i, r.error)
                  else exists i: nat :: AskFailsAt(q.asks, mid, c, i, r.error)
  {
    var _ :- ValidateQuoteStructure(q);
    var mid :- ComputeMidPrice(q, c);
    var bids :- BuildBids(q.bids, mid, c);
    var asks :- BuildAsks(q.asks, mid, c);
    r := Ok(BookUpdate(mid, bids.levels, asks.levels, mid != currentMidPriceTicks, asks.locked, bids.locked));
  }

  // ---------- what an update means ----------

  /** Under any monotone conversion every bid sits at or below the mid and every ask
      at or above it, so the best bid tick is at most the best ask tick. */
  lemma {:induction false} BidsAtOrBelowAsks(u: BookUpdate, q: TwoSidedQuote, c: Conversion)
    requires Monotone(c) && Structured(q) && Faithful(u, q, c)
    ensures forall i | 0 <= i < |u.bidLevels| :: u.bidLevels[i].priceOffsetTicks <= 0
    ensures forall i | 0 <= i < |u.askLevels| :: 0 <= u.askLevels[i].priceOffsetTicks
    ensures forall i, j | 0 <= i < |u.bidLevels| && 0 <= j < |u.askLevels| ::
              u.newMidPriceTicks + u.bidLevels[i].priceOffsetTicks
                <= u.newMidPriceTicks + u.askLevels[j].priceOffsetTicks
    ensures q.bids != [] && q.asks == [] ==> u.bidLevels[0].priceOffsetTicks == 0
    ensures q.asks != [] && q.bids == [] ==> u.askLevels[0].priceOffsetTicks == 0
  {
    if q.bids != [] && q.asks != [] {
      var mid := (q.bids[0].price + q.asks[0].price) / 2.0;
      assert q.bids[0].price <= mid <= q.asks[0].price;
      assert c.toTicks(q.bids[0].price).value <= c.toTicks(mid).value <= c.toTicks(q.asks[0].price).value;
    }
    forall i | 0 <= i < |u.bidLevels|
      ensures u.bidLevels[i].priceOffsetTicks <= 0
    {
      assert u.bidLevels[0].priceOffsetTicks <= 0;
    }
    forall i | 0 <= i < |u.askLevels|
      ensures 0 <= u.askLevels[i].priceOffsetTicks
    {
      assert 0 <= u.askLevels[0].priceOffsetTicks;
    }
  }

  lemma {:induction false} ScaledMid(a: real, b: real, factor: real)
    ensures Scaled((a + b) / 2.0, factor) == (Scaled(a, factor) + Scaled(b, factor)) / 2.0
  {
  }

  /** Rounding moves a tick figure by at most a half, short of the u64 limit. */
  lemma {:induction false} RoundWithinHalf(ticks: real)
    requires RoundTicks(ticks).Ok? && RoundTicks(ticks).value < U64_MAX
    ensures ticks - 0.5 < RoundTicks(ticks).value as real <= ticks + 0.5
  {
  }

  /** The mid is the rounded midpoint: on both sides present, the best bid and ask
      lie equally far from it, up to one tick of rounding, short of the u64 limit. */
  lemma {:induction false} MidIsCentred(
      u: BookUpdate, q: TwoSidedQuote, factor: real, toLots: real -> SdkResult<u64>, config: MarketConfig)
    requires factor > 0.0
    requires Structured(q) && Faithful(u, q, Conversion(p => PriceToTicks(factor, p), toLots, config))
    requires q.bids != [] && q.asks != []
    requires u.newMidPriceTicks + u.askLevels[0].priceOffsetTicks < U64_MAX
    ensures -1 <= u.bidLevels[0].priceOffsetTicks + u.askLevels[0].priceOffsetTicks <= 1
  {
    var c := Conversion(p => PriceToTicks(factor, p), toLots, config);
    var a, b := q.bids[0].price, q.asks[0].price;
    PriceToTicksIsMonotone(factor, toLots, config);
    BidsAtOrBelowAsks(u, q, c);
    ScaledMid(a, b, factor);
    assert c.toTicks(a) == PriceToTicks(factor, a) && c.toTicks(b) == PriceToTicks(factor, b);
    assert c.toTicks((a + b) / 2.0) == PriceToTicks(factor, (a + b) / 2.0);
    RoundWithinHalf(Scaled(a, factor));
    RoundWithinHalf(Scaled(b, factor));
    RoundWithinHalf(Scaled((a + b) / 2.0, factor));
  }

  /** The tick `n` starts somewhere in `(x, y]`: rounding half up, it does so at
      `n - 0.5`, and the last tick is the u64 limit. */
  ghost predicate BoundaryWithin(n: nat, x: real, y: real) {
    n <= U64_MAX && x < n as real - 0.5 <= y
  }

  /** A figure rounds to at least `n` exactly from half a tick below it. */
  lemma {:induction false} RoundsToAtLeast(ticks: real, n: nat)
    requires RoundTicks(ticks).Ok? && n <= U64_MAX
    ensures n <= RoundTicks(ticks).value <==> n as real - 0.5 <= ticks
  {
    var floor := (ticks + 0.5).Floor;
    assert floor as real <= ticks + 0.5 < floor as real + 1.0;
  }

  /** Two tick figures round apart exactly when a tick starts between them. */
  lemma {:induction false} RoundApartIff(x: real, y: real)
    requires x <= y
    requires RoundTicks(x).Ok? && RoundTicks(y).Ok?
    ensures RoundTicks(x).value < RoundTicks(y).value <==> exists n: nat :: BoundaryWithin(n, x, y)
  {
    RoundMono(x, y);
    if RoundTicks(x).value < RoundTicks(y).value {
      var n: nat := RoundTicks(x).value + 1;
      RoundsToAtLeast(x, n);
      RoundsToAtLeast(y, n);
      assert BoundaryWithin(n, x, y);
    }
    forall n: nat | BoundaryWithin(n, x, y)
      ensures RoundTicks(x).value < RoundTicks(y).value
    {
      RoundsToAtLeast(x, n);
      RoundsToAtLeast(y, n);
    }
  }

  /** An accepted two-sided quote rests with its best bid tick below its best ask tick
      exactly when a tick starts between the two scaled prices, the bid's excluded and
      the ask's included; otherwise both rest at one tick. */
  lemma {:induction false} BestTicksApartIff(
      u: BookUpdate, q: TwoSidedQuote, factor: real, toLots: real -> SdkResult<u64>, config: MarketConfig)
    requires factor > 0.0
    requires Structured(q) && Faithful(u, q, Conversion(p => PriceToTicks(factor, p), toLots, config))
    requires q.bids != [] && q.asks != []
    ensures u.bidLevels[0].priceOffsetTicks <= u.askLevels[0].priceOffsetTicks
    ensures u.bidLevels[0].priceOffsetTicks < u.askLevels[0].priceOffsetTicks <==>
            exists n: nat :: BoundaryWithin(n, Scaled(q.bids[0].price, factor), Scaled(q.asks[0].price, factor))
  {
    var c := Conversion(p => PriceToTicks(factor, p), toLots, config);
    var a, b := q.bids[0].price, q.asks[0].price;
    assert c.toTicks(a) == RoundTicks(Scaled(a, factor)) && c.toTicks(b) == RoundTicks(Scaled(b, factor));
    ScaleMono(a, b, factor);
    RoundMono(Scaled(a, factor), Scaled(b, factor));
    RoundApartIff(Scaled(a, factor), Scaled(b, factor));
  }

  /** Figures at least one tick apart round apart exactly short of the last tick. */
  lemma {:induction false} OneTickApartNeverTouches(x: real, y: real)
    requires x + 1.0 <= y
    requires RoundTicks(x).Ok? && RoundTicks(y).Ok?
    ensures RoundTicks(x).value < RoundTicks(y).value <==> x < U64_MAX as real - 0.5
    ensures y <= U64_MAX as real ==> RoundTicks(x).value < RoundTicks(y).value
  {
    RoundApartIff(x, y);
    RoundsToAtLeast(x, U64_MAX);
    if x < U64_MAX as real - 0.5 {
      var n: nat := RoundTicks(x).value + 1;
      RoundsToAtLeast(x, n);
      RoundsToAtLeast(x, n - 1);
      assert BoundaryWithin(n, x, y);
    }
  }

  /** A caller who keeps its best prices a tick apart never has them touch, short of
      the last tick. */
  lemma {:induction false} SpacedQuoteNeverTouches(
      u: BookUpdate, q: TwoSidedQuote, factor: real, toLots: real -> SdkResult<u64>, config: MarketConfig)
    requires factor > 0.0
    requires Structured(q) && Faithful(u, q, Conversion(p => PriceToTicks(factor, p), toLots, config))
    requires q.bids != [] && q.asks != []
    requires Scaled(q.bids[0].price, factor) + 1.0 <= Scaled(q.asks[0].price, factor)
    ensures u.bidLevels[0].priceOffsetTicks < u.askLevels[0].priceOffsetTicks <==>
            Scaled(q.bids[0].price, factor) < U64_MAX as real - 0.5
  {
    var c := Conversion(p => PriceToTicks(factor, p), toLots, config);
    var a, b := q.bids[0].price, q.asks[0].price;
    assert c.toTicks(a) == RoundTicks(Scaled(a, factor)) && c.toTicks(b) == RoundTicks(Scaled(b, factor));
    OneTickApartNeverTouches(Scaled(a, factor), Scaled(b, factor));
  }

  /** Prices less than a tick apart can touch: a bid of 1.0 and an ask of 1.25 at one tick per unit are
      accepted and rest at the same tick. */
  lemma {:induction false} TouchingQuoteIsAccepted(toLots: real -> SdkResult<u64>, config: MarketConfig)
    requires toLots(1.0).Ok?
    ensures var c := Conversion(p => PriceToTicks(1.0, p), toLots, config);
            var q := TwoSidedQuote([Quote(1.0, 1.0)], [Quote(1.25, 1.0)]);
            && QuotableAround(q, (1.0 + 1.25) / 2.0, c)
            && c.toTicks(q.bids[0].price) == c.toTicks(q.asks[0].price) == Ok(1)
  {
    assert (1.0 + 0.5).Floor == 1 && (1.25 + 0.5).Floor == 1 && (1.125 + 0.5).Floor == 1;
    assert (1.0 + 1.25) / 2.0 == 1.125;
    assert 1.25 * 1.0 == 1.25 && 1.125 * 1.0 == 1.125 && 1.0 * 1.0 == 1.0;
  }

  /** The saturation loses nothing of any level. */
  ghost predicate AllLevelsKept(levels: seq<MakerLevel>, mid: u64, config: MarketConfig)
    requires config.tickConversionDen > 0
  {
    forall i | 0 <= i < |levels| :: NothingLost(config, levels[i].sizeInBaseLots, TickOf(levels[i], mid))
  }

  lemma {:induction false} LevelEstimate(level: MakerLevel, mid: u64, config: MarketConfig)
    requires config.tickConversionDen > 0
    requires 0 <= mid + level.priceOffsetTicks <= U64_MAX
    ensures var exact := SaturateU64(LevelCeil(level, mid, config.tickConversionNum, config.tickConversionDen));
            var estimate := QuoteLotsCeil(config, level.sizeInBaseLots, TickOf(level, mid));
            && estimate <= exact
            && (estimate == exact <==> NothingLost(config, level.sizeInBaseLots, TickOf(level, mid)))
  {
    assert TickOf(level, mid) == PriceAt(level, mid);
    QuoteLotsCeilIsClamped(config, level.sizeInBaseLots, PriceAt(level, mid));
  }

  /** The estimate is the exact backing of the levels up to the u64 clamp when nothing is
      lost, and strictly below the backing otherwise. */
  lemma {:induction false} EstimateIsBacking(levels: seq<MakerLevel>, mid: u64, config: MarketConfig)
    requires config.tickConversionDen > 0
    requires forall i | 0 <= i < |levels| :: 0 <= mid + levels[i].priceOffsetTicks <= U64_MAX
    ensures var estimate := QuotedBids(levels, mid, config);
            var exact := CeilSum(levels, mid, config.tickConversionNum, config.tickConversionDen);
            && estimate <= exact
            && if AllLevelsKept(levels, mid, config) then SaturateU64(estimate) == SaturateU64(exact)
               else estimate < exact
  {
    if levels != [] {
      var n := |levels| - 1;
      assert forall i | 0 <= i < n :: levels[..n][i] == levels[i];
      EstimateIsBacking(levels[..n], mid, config);
      LevelEstimate(levels[n], mid, config);
    }
  }

  /** The update's quote estimate against what the program will value the resting bids
      at: the book stores the update's levels and mid, and a pair of the config's ratio.
      Whenever the program has a figure the estimate is never above it, and equals it just
      when the u128 saturation loses nothing of any level. When nothing is lost and the
      program has no figure although every price is valid, the estimate is the u64
      limit. */
  lemma {:induction false} EstimateMatchesProgram(b: MakerBook, u: BookUpdate, q: TwoSidedQuote, c: Conversion)
    requires Structured(q) && Faithful(u, q, c)
    requires SamePair(c.config, b)
    requires b.midPriceTicks == u.newMidPriceTicks && b.bidLevels == Padded(u.bidLevels)
    ensures var program := RemainingBidQuoteLots(b);
            var kept := AllLevelsKept(u.bidLevels, b.midPriceTicks, c.config);
            && (program.Ok? ==>
                  && u.estimatedQuoteLotsLocked <= program.value
                  && (u.estimatedQuoteLotsLocked == program.value <==> kept))
            && (program.Err? && kept && b.midPriceTicks <= I64_MAX && Priced(u.bidLevels, b.midPriceTicks) ==>
                  u.estimatedQuoteLotsLocked == U64_MAX)
  {
    var num, den, mid := b.tickConversionNum, b.tickConversionDen, b.midPriceTicks;
    EstimateIsBacking(u.bidLevels, mid, c.config);
    CeilSumOfRatio(u.bidLevels, mid, c.config.tickConversionNum, c.config.tickConversionDen, num, den);
    PaddingIsFree(u.bidLevels, mid, num, den);
    if mid <= I64_MAX {
      RemainingBidsExact(b);
    } else {
      CeilingTotalExact(b.bidLevels, mid, num, den);
    }
  }
}
