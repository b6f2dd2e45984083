/** What the engine's roundings guarantee when amounts are added up: fills against
    locked collateral, fees against a budget, parts against a total. */
module Settlement {
  import opened MachineInts
  import opened Rounding
  import opened LevelOps
  import opened Markets
  import opened MakerBooks
  import opened Engine
  import Collateral = BidCollateral

  // ---------- collateral over a run of fills ----------

  datatype RestingBid = RestingBid(resting: u64, locked: int)

  /** One fill of a resting bid: the taker sells `lots` and is paid from the locked
      quote. */
  function PayFill(m: Market, price: u64, bid: RestingBid, lots: u64): Result<RestingBid, ArcherError> {
    if lots > bid.resting then Err(InsufficientBalance)
    else
      var paid :- BaseToQuoteLots(m, lots, price, Side.Ask);
      Ok(RestingBid(bid.resting - lots, bid.locked - paid))
  }

  function PayFills(m: Market, price: u64, bid: RestingBid, fills: seq<u64>): Result<RestingBid, ArcherError> {
    if fills == [] then Ok(bid)
    else
      var before :- PayFills(m, price, bid, fills[..|fills| - 1]);
      PayFill(m, price, before, fills[|fills| - 1])
  }

  /** A payment never exceeds the exact value of the lots it pays for. */
  lemma {:induction false} PaymentIsCovered(paid: nat, x: nat, num: nat, den: nat, mNum: nat, mDen: nat)
    requires den > 0 && mDen > 0
    requires num * mDen == mNum * den
    requires paid == (x * mNum) / mDen
    ensures paid * den <= x * num
  {
    FloorBounds(x * mNum, mDen);
    MulMono(paid * mDen, x * mNum, den);
    assert paid * mDen * den == (paid * den) * mDen;
    assert x * mNum * den == x * (mNum * den);
    assert x * (num * mDen) == (x * num) * mDen;
    MulCancel(paid * den, x * num, mDen);
  }

  /** Taking `paid <= lots * unit / den` off a covering amount covers what still
      rests, `unit` being the price of one lot in numerator units. */
  lemma {:induction false} CoverAfterPayment(locked: nat, paid: nat, size: nat, lots: nat, unit: nat, den: nat)
    requires den > 0 && lots <= size
    requires Ceil(size * unit, den) <= locked
    requires paid * den <= lots * unit
    ensures paid <= locked
    ensures Ceil((size - lots) * unit, den) <= locked - paid
  {
    CeilLe(size * unit, den, locked);
    assert size * unit == (size - lots) * unit + lots * unit;
    MulMono(0, size - lots, unit);
    MulCancel(paid, locked, den);
    assert (locked - paid) * den == locked * den - paid * den;
    CeilLe((size - lots) * unit, den, locked - paid);
  }

  lemma {:induction false} UnitPrice(size: nat, lots: nat, price: nat, num: nat)
    requires lots <= size
    ensures size * price * num == size * (price * num)
    ensures lots * price * num == lots * (price * num)
    ensures (size - lots) * price * num == (size - lots) * (price * num)
  {
  }

  /** The exact ceiling for `size` lots at `price`. */
  function Backing(num: nat, den: nat, size: nat, price: nat): nat
    requires den > 0
  {
    Ceil(size * price * num, den)
  }

  lemma {:induction false} FillIsCovered(m: Market, num: u64, den: u64, price: u64, lots: u64)
    requires den > 0 && ConversionDen(m) > 0
    requires SameRatio(num, den, ConversionNum(m), ConversionDen(m))
    requires BaseToQuoteLots(m, lots, price, Side.Ask).Ok?
    ensures BaseToQuoteLots(m, lots, price, Side.Ask).value * den <= lots * price * num
  {
    AskPaysTheFloor(m, lots, price);
    PaymentIsCovered(BaseToQuoteLots(m, lots, price, Side.Ask).value, lots * price, num, den,
                     ConversionNum(m), ConversionDen(m));
  }

  lemma {:induction false} BackingAfterPayment(
      num: nat, den: nat, locked: nat, paid: nat, size: nat, lots: nat, price: nat)
    requires den > 0 && lots <= size
    requires Backing(num, den, size, price) <= locked
    requires paid * den <= lots * price * num
    ensures paid <= locked
    ensures Backing(num, den, size - lots, price) <= locked - paid
  {
    UnitPrice(size, lots, price, num);
    CoverAfterPayment(locked, paid, size, lots, price * num, den);
  }

  /** Every fill keeps the locked quote at or above the ceiling for what rests. */
  lemma {:induction false} RunKeepsCover(m: Market, num: u64, den: u64, price: u64, bid: RestingBid, fills: seq<u64>)
    requires den > 0 && ConversionDen(m) > 0
    requires SameRatio(num, den, ConversionNum(m), ConversionDen(m))
    requires Backing(num, den, bid.resting, price) <= bid.locked
    requires PayFills(m, price, bid, fills).Ok?
    ensures var after := PayFills(m, price, bid, fills).value;
            Backing(num, den, after.resting, price) <= after.locked <= bid.locked
  {
    if fills != [] {
      var n := |fills| - 1;
      RunKeepsCover(m, num, den, price, bid, fills[..n]);
      var before := PayFills(m, price, bid, fills[..n]).value;
      var paid := BaseToQuoteLots(m, fills[n], price, Side.Ask).value;
      FillIsCovered(m, num, den, price, fills[n]);
      BackingAfterPayment(num, den, before.locked, paid, before.resting, fills[n], price);
    }
  }

  /** Collateral survives every run of partial fills: lock the ceiling for a bid,
      pay each fill the taker's floor, and after each the quote still locked is at
      least the ceiling for what still rests, which the program can still compute. */
  lemma {:induction false} CollateralSurvivesFills(
      m: Market, num: u64, den: u64, price: u64, size: u64, locked: u64, fills: seq<u64>)
    requires den > 0 && ConversionDen(m) > 0
    requires SameRatio(num, den, ConversionNum(m), ConversionDen(m))
    requires ComputeQuoteLotsCeiling(num, den, size, price) == Ok(locked)
    requires PayFills(m, price, RestingBid(size, locked), fills).Ok?
    ensures var bid := PayFills(m, price, RestingBid(size, locked), fills).value;
            && ComputeQuoteLotsCeiling(num, den, bid.resting, price).Ok?
            && 0 <= ComputeQuoteLotsCeiling(num, den, bid.resting, price).value <= bid.locked <= locked
  {
    Collateral.CeilingExact(num, den, size, price);
    RunKeepsCover(m, num, den, price, RestingBid(size, locked), fills);
    Collateral.CeilingExact(num, den, PayFills(m, price, RestingBid(size, locked), fills).value.resting, price);
  }

  lemma {:induction false} FewerLotsFit(size: nat, lots: nat, price: nat, num: nat, k: nat, q: nat)
    requires lots <= size
    ensures lots * price * num <= size * price * num
    ensures k * (lots * price) * q <= k * (size * price) * q
  {
    MulMono(lots, size, price);
    MulMono(lots * price, size * price, num);
    MulMono(lots * price, size * price, k);
    MulMono(k * (lots * price), k * (size * price), q);
  }

  /** If a whole bid converts, so does every part of it. */
  lemma {:induction false} PartConverts(m: AcceptedMarket, price: u64, size: u64, lots: nat)
    requires BaseToQuoteLots(m, size, price, Side.Ask).Ok?
    requires lots <= size
    ensures BaseToQuoteLots(m, lots, price, Side.Ask) == Ok(LotTickQuoteLots(m) * (lots * price))
  {
    FewerLotsFit(size, lots, price, ConversionNum(m), LotTickQuoteLots(m), m.quoteAtomsPerQuoteLot);
    ConversionIsExact(m, size, price, Side.Ask);
    ConversionIsExact(m, lots, price, Side.Ask);
  }

  lemma {:induction false} PaymentsAdd(k: nat, price: nat, before: nat, lots: nat)
    ensures k * ((before + lots) * price) == k * (before * price) + k * (lots * price)
  {
  }

  /** On an accepted market a bid can be filled in any pieces up to its size, and no
      further; together they pay exactly what one fill of their sum would. */
  lemma {:induction false} FillsPayAsOne(m: AcceptedMarket, price: u64, bid: RestingBid, fills: seq<u64>)
    requires BaseToQuoteLots(m, bid.resting, price, Side.Ask).Ok?
    ensures PayFills(m, price, bid, fills).Ok? <==> Sum(fills) <= bid.resting
    ensures PayFills(m, price, bid, fills).Ok? ==>
              var asOne := BaseToQuoteLots(m, Sum(fills), price, Side.Ask);
              && asOne.Ok?
              && PayFills(m, price, bid, fills) == Ok(RestingBid(bid.resting - Sum(fills), bid.locked - asOne.value))
  {
    if fills == [] {
      PartConverts(m, price, bid.resting, 0);
    } else {
      var n := |fills| - 1;
      FillsPayAsOne(m, price, bid, fills[..n]);
      if Sum(fills) <= bid.resting {
        PartConverts(m, price, bid.resting, Sum(fills[..n]));
        PartConverts(m, price, bid.resting, fills[n]);
        PartConverts(m, price, bid.resting, Sum(fills));
        PaymentsAdd(LotTickQuoteLots(m), price, Sum(fills[..n]), fills[n]);
      }
    }
  }

  // ---------- the bid budget ----------

  lemma {:induction false} FeeUnfold(quoteLots: u64, feePpm: i32, charge: nat, rebate: nat)
    requires charge == quoteLots * Max(feePpm, 0) && rebate == quoteLots * Max(0 - feePpm, 0)
    requires quoteLots * feePpm == charge - rebate
    ensures CalculateFee(quoteLots, feePpm)
              == if Ceil(charge, 1_000_000) > I64_MAX || rebate / 1_000_000 > I64_MAX + 1 then Err(FeeOverflow)
                 else Ok(Ceil(charge, 1_000_000) - rebate / 1_000_000)
  {
    FloorBounds(rebate, PPM_DIVISOR);
    CeilBounds(charge, PPM_DIVISOR);
  }

  lemma {:induction false} SignedProduct(x: nat, y: int)
    ensures x * y == x * Max(y, 0) - x * Max(0 - y, 0)
  {
    assert y == Max(y, 0) - Max(0 - y, 0);
  }

  lemma {:induction false} FeeFits(quoteLots: u64, ppm: nat)
    ensures quoteLots * ppm >= 0
    ensures ppm <= 100_000 ==> Ceil(quoteLots * ppm, 1_000_000) <= I64_MAX
    ensures ppm <= 100_000 ==> (quoteLots * ppm) / 1_000_000 <= I64_MAX
  {
    MulMono(0, ppm, quoteLots);
    if ppm <= 100_000 {
      MulMono(ppm, 100_000, quoteLots);
      CeilLe(quoteLots * ppm, 1_000_000, I64_MAX);
      FloorBounds(quoteLots * ppm, 1_000_000);
    }
  }

  /** A charge is rounded up and a rebate truncated toward zero, for every fee; only the
      i64 result can overflow, and never within the program's fee limits. */
  lemma {:induction false} FeeExact(quoteLots: u64, feePpm: i32)
    ensures var charge, rebate := Ceil(quoteLots * Max(feePpm, 0), 1_000_000),
                                  (quoteLots * Max(0 - feePpm, 0)) / 1_000_000;
            CalculateFee(quoteLots, feePpm)
              == if charge > I64_MAX || rebate > I64_MAX + 1 then Err(FeeOverflow) else Ok(charge - rebate)
    ensures -50_000 <= feePpm <= 100_000 ==> CalculateFee(quoteLots, feePpm).Ok?
  {
    SignedProduct(quoteLots, feePpm);
    FeeUnfold(quoteLots, feePpm, quoteLots * Max(feePpm, 0), quoteLots * Max(0 - feePpm, 0));
    FeeFits(quoteLots, Max(feePpm, 0));
    FeeFits(quoteLots, Max(0 - feePpm, 0));
  }

  /** The rounded cost of a budget is never below the exact one without a builder
      fee, and less than one lot below it with one. */
  lemma {:induction false} CostBounds(budget: nat, t: nat, u: nat)
    ensures (budget + Ceil(budget * t, PPM_DIVISOR) + (budget * u) / PPM_DIVISOR) * PPM_DIVISOR
              >= budget * (PPM_DIVISOR + t + u) - (if u == 0 then 0 else PPM_DIVISOR - 1)
  {
    CeilBounds(budget * t, PPM_DIVISOR);
    FloorBounds(budget * u, PPM_DIVISOR);
    assert budget * (PPM_DIVISOR + t + u) == budget * PPM_DIVISOR + budget * t + budget * u;
  }

  lemma {:induction false} RoundedCostFits(budget: nat, t: nat, u: nat, amount: nat)
    requires budget * (PPM_DIVISOR + t + u) <= amount * PPM_DIVISOR
    ensures budget + Ceil(budget * t, PPM_DIVISOR) + (budget * u) / PPM_DIVISOR <= amount
  {
    assert budget * (PPM_DIVISOR + t + u) == budget * PPM_DIVISOR + budget * t + budget * u;
    FloorBounds(budget * u, PPM_DIVISOR);
    var rest := amount - budget - (budget * u) / PPM_DIVISOR;
    assert rest >= 0;
    CeilLe(budget * t, PPM_DIVISOR, rest);
  }

  /** Millionths of an amount charged per lot of budget. */
  function Scale(takerFeePpm: i32, builderFeePpm: u32): nat {
    PPM_DIVISOR + Max(takerFeePpm, 0) + builderFeePpm
  }

  /** `budget` is `amount / (scale / 1_000_000)`, rounded down. */
  ghost predicate IsFloorOf(budget: nat, amount: nat, scale: nat) {
    budget <= amount && budget * scale <= amount * PPM_DIVISOR < (budget + 1) * scale
  }

  lemma {:induction false} ScaledDown(amount: nat, scale: nat) returns (scaled: nat, budget: nat)
    requires scale >= PPM_DIVISOR
    ensures scaled == amount * PPM_DIVISOR && budget == scaled / scale
    ensures IsFloorOf(budget, amount, scale)
    ensures budget <= amount && (scale == PPM_DIVISOR ==> budget == amount)
  {
    scaled := amount * PPM_DIVISOR;
    budget := scaled / scale;
    FloorBounds(scaled, scale);
    assert (budget + 1) * scale == budget * scale + scale;
    MulMono(PPM_DIVISOR, scale, amount);
    FloorMono(scaled, amount * scale, scale);
    ExactDivision(amount, scale);
  }

  lemma {:induction false} BudgetUnfold(
      amount: u64, takerFeePpm: i32, builderFeePpm: u32, scale: nat, scaled: nat, budget: nat)
    requires scale == Scale(takerFeePpm, builderFeePpm)
    requires scaled == amount * PPM_DIVISOR && budget == scaled / scale
    requires budget <= amount && (scale == PPM_DIVISOR ==> budget == amount)
    ensures MaxAmountInBidBudget(amount, takerFeePpm, builderFeePpm) == Ok(budget)
  {
  }

  lemma {:induction false} BudgetIsTheFloor(amount: u64, takerFeePpm: i32, builderFeePpm: u32) returns (budget: u64)
    ensures MaxAmountInBidBudget(amount, takerFeePpm, builderFeePpm) == Ok(budget)
    ensures IsFloorOf(budget, amount, Scale(takerFeePpm, builderFeePpm))
  {
    var scale := Scale(takerFeePpm, builderFeePpm);
    var scaled, floor := ScaledDown(amount, scale);
    BudgetUnfold(amount, takerFeePpm, builderFeePpm, scale, scaled, floor);
    budget := floor;
  }

  /** One floored part, exactly. */
  function Part(total: nat, share: nat, totalShares: nat): nat
    requires totalShares > 0
  {
    (total * share) / totalShares
  }

  /** The builder fee is the exact floor; only the u64 result can overflow. */
  lemma {:induction false} BuilderFeeExact(quoteLots: u64, builderFeePpm: u32)
    ensures var exact := Part(quoteLots, builderFeePpm, PPM_DIVISOR);
            CalculateBuilderFee(quoteLots, builderFeePpm)
              == if exact <= U64_MAX then Ok(exact) else Err(ArithmeticOverflow)
  {
    Collateral.ProductFits(quoteLots, builderFeePpm);
    if builderFeePpm == 0 || quoteLots == 0 {
      assert quoteLots * builderFeePpm == 0;
    }
  }

  lemma {:induction false} CostWithinAmount(budget: u64, takerFeePpm: i32, builderFeePpm: u32, amount: u64)
    requires -50_000 <= takerFeePpm <= 100_000
    requires budget * (PPM_DIVISOR + Max(takerFeePpm, 0) + builderFeePpm) <= amount * PPM_DIVISOR
    ensures CalculateFee(budget, takerFeePpm).Ok?
    ensures CalculateBuilderFee(budget, builderFeePpm).Ok?
    ensures budget + CalculateFee(budget, takerFeePpm).value
              + CalculateBuilderFee(budget, builderFeePpm).value <= amount
  {
    RoundedCostFits(budget, Max(takerFeePpm, 0), builderFeePpm, amount);
    FeeExact(budget, takerFeePpm);
    FloorBounds(budget * builderFeePpm, PPM_DIVISOR);
    CeilBounds(budget * Max(takerFeePpm, 0), PPM_DIVISOR);
    BuilderFeeExact(budget, builderFeePpm);
  }

  /** The budget pays its own fees: no fee call fails, and notional plus taker fee
      plus builder fee stay within the amount. */
  lemma {:induction false} BudgetPaysItsFees(amount: u64, takerFeePpm: i32, builderFeePpm: u32)
    requires -50_000 <= takerFeePpm <= 100_000
    ensures MaxAmountInBidBudget(amount, takerFeePpm, builderFeePpm).Ok?
    ensures var budget := MaxAmountInBidBudget(amount, takerFeePpm, builderFeePpm).value;
            && CalculateFee(budget, takerFeePpm).Ok?
            && CalculateBuilderFee(budget, builderFeePpm).Ok?
            && budget + CalculateFee(budget, takerFeePpm).value
                 + CalculateBuilderFee(budget, builderFeePpm).value <= amount
  {
    var budget := BudgetIsTheFloor(amount, takerFeePpm, builderFeePpm);
    CostWithinAmount(budget, takerFeePpm, builderFeePpm, amount);
  }

  lemma {:induction false} ChargesWhenOk(quoteLots: u64, takerFeePpm: i32, builderFeePpm: u32)
    requires takerFeePpm >= 0
    requires CalculateFee(quoteLots, takerFeePpm).Ok? && CalculateBuilderFee(quoteLots, builderFeePpm).Ok?
    ensures CalculateFee(quoteLots, takerFeePpm).value == Ceil(quoteLots * takerFeePpm, PPM_DIVISOR)
    ensures CalculateBuilderFee(quoteLots, builderFeePpm).value == (quoteLots * builderFeePpm) / PPM_DIVISOR
  {
    FeeExact(quoteLots, takerFeePpm);
    BuilderFeeExact(quoteLots, builderFeePpm);
    assert Max(takerFeePpm, 0) == takerFeePpm && quoteLots * Max(0 - takerFeePpm, 0) == 0;
  }

  /** For a charging taker fee nothing larger is affordable without a builder fee,
      and nothing two lots larger is affordable with one. */
  lemma {:induction false} BudgetIsLargest(amount: u64, takerFeePpm: i32, builderFeePpm: u32, other: u64)
    requires takerFeePpm >= 0
    requires MaxAmountInBidBudget(amount, takerFeePpm, builderFeePpm).Ok?
    requires other >= MaxAmountInBidBudget(amount, takerFeePpm, builderFeePpm).value
                      + (if builderFeePpm == 0 then 1 else 2)
    requires CalculateFee(other, takerFeePpm).Ok? && CalculateBuilderFee(other, builderFeePpm).Ok?
    ensures other + CalculateFee(other, takerFeePpm).value
              + CalculateBuilderFee(other, builderFeePpm).value > amount
  {
    var budget := BudgetIsTheFloor(amount, takerFeePpm, builderFeePpm);
    var scale := PPM_DIVISOR + takerFeePpm + builderFeePpm;
    var step := if builderFeePpm == 0 then 1 else 2;
    ChargesWhenOk(other, takerFeePpm, builderFeePpm);
    CostBounds(other, takerFeePpm, builderFeePpm);
    MulMono(budget + step, other, scale);
    assert (budget + step) * scale == (budget + 1) * scale + (step - 1) * scale;
  }

  /** The second lot is needed: with a builder fee one more lot can be affordable. */
  lemma {:induction false} OneMoreCanBeAffordable()
    ensures MaxAmountInBidBudget(1, 0, 10_000) == Ok(0)
    ensures CalculateFee(1, 0) == Ok(0) && CalculateBuilderFee(1, 10_000) == Ok(0)
  {
  }

  // ---------- pro-rata ----------

  function PartSum(total: u64, shares: seq<u64>, totalShares: u64): nat
    requires totalShares > 0
  {
    if shares == [] then 0
    else PartSum(total, shares[..|shares| - 1], totalShares) + Part(total, shares[|shares| - 1], totalShares)
  }

  lemma {:induction false} ShareBelowSum(xs: seq<u64>, i: nat)
    requires i < |xs|
    ensures xs[i] <= Sum(xs)
  {
    if i < |xs| - 1 {
      ShareBelowSum(xs[..|xs| - 1], i);
    }
  }

  lemma {:induction false} PartStep(total: nat, totalShares: nat, sum: nat, share: nat, parts: nat, n: nat)
    requires totalShares > 0
    requires parts * totalShares <= total * sum
    requires total * sum + n <= (parts + n) * totalShares
    ensures var part := Part(total, share, totalShares);
            && (parts + part) * totalShares <= total * (sum + share)
            && total * (sum + share) + (n + 1) <= (parts + part + (n + 1)) * totalShares
  {
    var part := (total * share) / totalShares;
    FloorBounds(total * share, totalShares);
    Collateral.Distribute(total, sum, share);
    assert (parts + part) * totalShares == parts * totalShares + part * totalShares;
    assert (parts + n + (part + 1)) * totalShares == (parts + n) * totalShares + (part * totalShares + totalShares);
  }

  lemma {:induction false} PartSumBounds(total: u64, shares: seq<u64>, totalShares: u64)
    requires totalShares > 0
    ensures PartSum(total, shares, totalShares) * totalShares <= total * Sum(shares)
    ensures total * Sum(shares) + |shares| <= (PartSum(total, shares, totalShares) + |shares|) * totalShares
  {
    if shares != [] {
      var n := |shares| - 1;
      PartSumBounds(total, shares[..n], totalShares);
      PartStep(total, totalShares, Sum(shares[..n]), shares[n], PartSum(total, shares[..n], totalShares), n);
    }
  }

  lemma {:induction false} ScaledShare(total: nat, share: nat, totalShares: nat, product: nat)
    requires totalShares > 0 && share <= totalShares
    requires product == total * share
    ensures product / totalShares <= total
  {
    MulMono(share, totalShares, total);
    FloorMono(total * share, total * totalShares, totalShares);
    ExactDivision(total, totalShares);
  }

  lemma {:induction false} PartBounds(total: nat, share: nat, totalShares: nat)
    requires totalShares > 0 && share <= totalShares
    ensures Part(total, share, totalShares) <= total
    ensures total <= totalShares ==> Part(total, share, totalShares) <= share
  {
    var product := total * share;
    ScaledShare(total, share, totalShares, product);
    if total <= totalShares {
      ScaledShare(share, total, totalShares, product);
    }
  }

  lemma {:induction false} ProRataUnfold(total: u64, share: u64, totalShares: u64, product: nat, part: nat)
    requires totalShares > 0
    requires product == total * share && part == product / totalShares
    requires 0 <= product <= U128_MAX
    ensures CalculateProRata(total, share, totalShares) == if part <= U64_MAX then Ok(part) else Err(ArithmeticOverflow)
  {
  }

  /** A part is the exact floor; only a zero divisor or a result beyond u64 is refused. */
  lemma {:induction false} PartExact(total: u64, share: u64, totalShares: u64)
    ensures totalShares == 0 ==> CalculateProRata(total, share, totalShares) == Err(ArithmeticOverflow)
    ensures totalShares > 0 ==>
              var part := Part(total, share, totalShares);
              && (CalculateProRata(total, share, totalShares)
                    == if part <= U64_MAX then Ok(part) else Err(ArithmeticOverflow))
              && (share <= totalShares ==> part <= U64_MAX)
              && (share <= totalShares && total <= totalShares ==> part <= share)
  {
    if totalShares > 0 {
      Collateral.ProductFits(total, share);
      FloorBounds(total * share, totalShares);
      ProRataUnfold(total, share, totalShares, total * share, Part(total, share, totalShares));
      if share <= totalShares {
        PartBounds(total, share, totalShares);
      }
    }
  }

  /** Splitting a total over shares: no call fails, the floored parts sum to at most
      the total and to more than the total less the number of shares, and no part
      exceeds its share when the total does not exceed all shares. */
  lemma {:induction false} ProRataConserves(total: u64, shares: seq<u64>, totalShares: u64)
    requires shares != [] && Sum(shares) == totalShares && totalShares > 0
    ensures forall i | 0 <= i < |shares| ::
              && CalculateProRata(total, shares[i], totalShares)
                   == Ok(Part(total, shares[i], totalShares))
              && (total <= totalShares ==> Part(total, shares[i], totalShares) <= shares[i])
    ensures total - |shares| < PartSum(total, shares, totalShares) <= total
  {
    forall i | 0 <= i < |shares|
      ensures CalculateProRata(total, shares[i], totalShares) == Ok(Part(total, shares[i], totalShares))
      ensures total <= totalShares ==> Part(total, shares[i], totalShares) <= shares[i]
    {
      ShareBelowSum(shares, i);
      PartExact(total, shares[i], totalShares);
    }
    PartSumBounds(total, shares, totalShares);
    var parts := PartSum(total, shares, totalShares);
    MulCancel(parts, total, totalShares);
    if parts + |shares| <= total {
      MulMono(parts + |shares|, total, totalShares);
    }
  }
}
