/** Matching-engine arithmetic: lot conversions, fees, the bid budget, pro-rata. */
module Engine {
  import opened MachineInts
  import opened Rounding
  import opened LevelOps
  import opened Markets
  import opened MakerBooks
  import Collateral = BidCollateral

  /** Quote lots for a fill; the bid side rounds up, the ask side down. */
  function BaseToQuoteLots(m: Market, baseLots: u64, priceTicks: u64, side: Side): Result<u64, ArcherError> {
    match BaseLotsToQuoteAtoms(m, baseLots, priceTicks)
    case Err(_) => Err(QuoteOverflow)
    case Ok(atoms) =>
      if m.quoteAtomsPerQuoteLot == 0 then Err(QuoteOverflow)
      else
        match side
        case Bid =>
          var shifted :- CheckedU128(atoms + (m.quoteAtomsPerQuoteLot - 1), QuoteOverflow);
          CheckedU64(shifted / m.quoteAtomsPerQuoteLot, QuoteOverflow)
        case Ask =>
          CheckedU64(atoms / m.quoteAtomsPerQuoteLot, QuoteOverflow)
  }

  function DivideLots(numerator: u128, denominator: u128, roundUp: bool): Result<u64, ArcherError> {
    if denominator == 0 then Err(PriceOverflow)
    else if roundUp then
      var shifted :- CheckedU128(numerator + (denominator - 1), QuoteOverflow);
      CheckedU64(shifted / denominator, QuoteOverflow)
    else
      CheckedU64(numerator / denominator, QuoteOverflow)
  }

  function QuoteToBaseLots(m: Market, quoteLots: u64, priceTicks: u64, roundUp: bool): Result<u64, ArcherError> {
    var perUnit :- BaseAtomsPerBaseUnit(m);
    var quoteAtoms :- CheckedU128(quoteLots * m.quoteAtomsPerQuoteLot, QuoteOverflow);
    var numerator :- CheckedU128(quoteAtoms * perUnit, QuoteOverflow);
    var scaled :- CheckedU128(priceTicks * m.tickSize, PriceOverflow);
    var denominator :- CheckedU128(scaled * m.baseAtomsPerBaseLot, PriceOverflow);
    DivideLots(numerator, denominator, roundUp)
  }

  /** Division that truncates toward zero. */
  function TruncDiv(x: int, d: nat): int
    requires d > 0
  {
    if x >= 0 then x / d else -((-x) / d)
  }

  /** Signed fee: a charge rounds up, a rebate truncates toward zero. */
  function CalculateFee(quoteLots: u64, feePpm: i32): Result<i64, ArcherError> {
    var raw := quoteLots * feePpm;
    var fee := if raw > 0 then (raw + (PPM_DIVISOR - 1)) / PPM_DIVISOR
               else if raw < 0 then TruncDiv(raw, PPM_DIVISOR)
               else 0;
    CheckedI64(fee, FeeOverflow)
  }

  function CalculateBuilderFee(quoteLots: u64, builderFeePpm: u32): Result<u64, ArcherError> {
    if builderFeePpm == 0 || quoteLots == 0 then Ok(0)
    else
      var scaled :- CheckedU128(quoteLots * builderFeePpm, ArithmeticOverflow);
      CheckedU64(scaled / PPM_DIVISOR, ArithmeticOverflow)
  }

  function MaxAmountInBidBudget(amount: u64, takerFeePpm: i32, builderFeePpm: u32): Result<u64, ArcherError> {
    var addOn := Max(takerFeePpm, 0) + builderFeePpm;
    if addOn == 0 then Ok(amount)
    else
      var scaled :- CheckedU128(amount * PPM_DIVISOR, ArithmeticOverflow);
      Ok((scaled / (PPM_DIVISOR + addOn)) % (U64_MAX + 1))
  }

  function CalculateProRata(total: u64, share: u64, totalShares: u64): Result<u64, ArcherError> {
    if totalShares == 0 then Err(ArithmeticOverflow)
    else
      var numerator :- CheckedU128(total * share, ArithmeticOverflow);
      CheckedU64(numerator / totalShares, ArithmeticOverflow)
  }

  // ---------- conversions ----------

  lemma {:induction false} Reorder(n: nat, lot: nat, p: nat, tick: nat)
    ensures n * lot * p * tick == n * p * (tick * lot)
    ensures p * tick * lot == p * (tick * lot)
  {
    assert n * lot * p == n * p * lot;
    assert n * p * lot * tick == n * p * (lot * tick);
  }

  /** What a taker selling `baseLots` receives is one floor of the exact ratio. */
  lemma {:induction false} AskPaysTheFloor(m: Market, baseLots: u64, priceTicks: u64)
    requires BaseToQuoteLots(m, baseLots, priceTicks, Ask).Ok?
    ensures ConversionDen(m) > 0
    ensures BaseToQuoteLots(m, baseLots, priceTicks, Ask).value
              == (baseLots * priceTicks * ConversionNum(m)) / ConversionDen(m)
  {
    var perUnit, q := BaseAtomsPerBaseUnitExact(m), m.quoteAtomsPerQuoteLot;
    var x := baseLots * priceTicks * ConversionNum(m);
    Reorder(baseLots, m.baseAtomsPerBaseLot, priceTicks, m.tickSize);
    assert BaseLotsToQuoteAtoms(m, baseLots, priceTicks) == Ok(x / perUnit);
    NestedFloor(x, perUnit, q);
  }

  lemma {:induction false} QuotientAndRemainder(x: nat, d: nat)
    requires d > 0
    ensures x == (x / d) * d + x % d && 0 <= x / d && x % d < d
  {
  }

  lemma {:induction false} WithinOneLot(k: nat, r: nat, rem: nat, a: nat, b: nat, d: nat)
    requires r < b && rem < a && d == a * b
    ensures k * d <= (k * b + r) * a + rem < k * d + d
    ensures (k * b + r) * a + rem == k * d <==> r == 0 && rem == 0
  {
    assert (k * b + r) * a == k * d + r * a;
    MulMono(r + 1, b, a);
    assert (r + 1) * a == r * a + a;
    PositiveFactors(r, a);
  }

  lemma {:induction false} CeilBetween(x: nat, d: nat, k: nat)
    requires d > 0
    requires k * d < x <= k * d + d
    ensures Ceil(x, d) == k + 1
  {
    assert (k + 1) * d == k * d + d;
    CeilLe(x, d, k);
    CeilLe(x, d, k + 1);
  }

  lemma {:induction false} CeilingsOf(x: nat, y: nat, a: nat, b: nat, d: nat, k: nat, r: nat, rem: nat)
    requires a > 0 && b > 0 && d > 0 && d == a * b
    requires x == y * a + rem && rem < a
    requires y == k * b + r && r < b
    ensures Ceil(y, b) == if r == 0 then k else k + 1
    ensures Ceil(x, d) == if r == 0 && rem == 0 then k else k + 1
  {
    WithinOneLot(k, r, rem, a, b, d);
    if r == 0 {
      ExactDivision(k, b);
    } else {
      CeilBetween(y, b, k);
    }
    if r == 0 && rem == 0 {
      ExactDivision(k, d);
    } else {
      CeilBetween(x, d, k);
    }
  }

  /** Flooring by `a` and then rounding up by `b`, against rounding up once. */
  lemma {:induction false} NestedCeil(x: nat, a: nat, b: nat)
    requires a > 0 && b > 0
    ensures a * b > 0
    ensures Ceil(x / a, b) == Ceil(x, a * b) <==> x % a == 0 || (x / a) % b != 0
    ensures Ceil(x, a * b) - 1 <= Ceil(x / a, b) <= Ceil(x, a * b)
  {
    var y := x / a;
    PositiveFactors(a, b);
    QuotientAndRemainder(x, a);
    QuotientAndRemainder(y, b);
    CeilingsOf(x, y, a, b, a * b, y / b, y % b, x % a);
  }

  /** What a taker buying `baseLots` pays is the ceiling of the exact ratio exactly
      when the quote atoms were whole or do not fill whole lots: the atoms are floored
      first, and only the lots are rounded up. */
  lemma {:induction false} BidPaysTheCeilingIff(m: Market, baseLots: u64, priceTicks: u64)
    requires BaseToQuoteLots(m, baseLots, priceTicks, Bid).Ok?
    ensures BaseAtomsPerBaseUnitExact(m) > 0 && m.quoteAtomsPerQuoteLot > 0 && ConversionDen(m) > 0
    ensures var x := baseLots * priceTicks * ConversionNum(m);
            var paid := BaseToQuoteLots(m, baseLots, priceTicks, Bid).value;
            && (paid == Ceil(x, ConversionDen(m)) <==>
                  x % BaseAtomsPerBaseUnitExact(m) == 0
                  || (x / BaseAtomsPerBaseUnitExact(m)) % m.quoteAtomsPerQuoteLot != 0)
            && Ceil(x, ConversionDen(m)) - 1 <= paid <= Ceil(x, ConversionDen(m))
  {
    var perUnit, q := BaseAtomsPerBaseUnitExact(m), m.quoteAtomsPerQuoteLot;
    var x := baseLots * priceTicks * ConversionNum(m);
    Reorder(baseLots, m.baseAtomsPerBaseLot, priceTicks, m.tickSize);
    assert BaseLotsToQuoteAtoms(m, baseLots, priceTicks) == Ok(x / perUnit);
    NestedCeil(x, perUnit, q);
  }

  /** A market whose lot-tick is less than an atom: the taker pays less than the
      ceiling. */
  lemma {:induction false} BidCanPayLessThanTheCeiling()
    ensures var m := Market(9, 1, 1_000_000, 1, 10);
            && BaseToQuoteLots(m, 1, 150, Bid) == Ok(1)
            && ConversionDen(m) > 0
            && Ceil(1 * 150 * ConversionNum(m), ConversionDen(m)) == 2
  {
    assert Pow10(9) == 1_000_000_000;
  }

  ghost predicate IsFloor(v: nat, x: int, d: int) {
    v * d <= x < v * d + d
  }

  ghost predicate IsCeil(v: nat, x: int, d: int) {
    v * d - d < x <= v * d
  }

  lemma {:induction false} RegroupDen(n: nat, q: nat, perUnit: nat)
    ensures n * q * perUnit == n * (perUnit * q)
  {
  }

  lemma {:induction false} QuoteToBaseDivides(
      m: Market, quoteLots: u64, priceTicks: u64, roundUp: bool, x: nat, d: nat)
    requires x == quoteLots * ConversionDen(m) && d == priceTicks * ConversionNum(m)
    requires QuoteToBaseLots(m, quoteLots, priceTicks, roundUp).Ok?
    ensures d > 0
    ensures QuoteToBaseLots(m, quoteLots, priceTicks, roundUp).value == if roundUp then Ceil(x, d) else x / d
  {
    Reorder(1, m.baseAtomsPerBaseLot, priceTicks, m.tickSize);
    RegroupDen(quoteLots, m.quoteAtomsPerQuoteLot, BaseAtomsPerBaseUnitExact(m));
  }

  lemma {:induction false} Nonnegative(a: nat, b: nat)
    ensures a * b >= 0
  {
  }

  /** With the unit known, only the numerator and the denominator can leave u128 before
      the division. */
  lemma {:induction false} QuoteToBaseUnfold(
      m: Market, quoteLots: u64, priceTicks: u64, roundUp: bool,
      perUnit: nat, atoms: nat, x: nat, scaled: nat, d: nat)
    requires BaseAtomsPerBaseUnit(m) == Ok(perUnit)
    requires atoms == quoteLots * m.quoteAtomsPerQuoteLot && x == atoms * perUnit
    requires scaled == priceTicks * m.tickSize && d == scaled * m.baseAtomsPerBaseLot
    requires atoms <= U128_MAX && scaled <= U128_MAX
    ensures QuoteToBaseLots(m, quoteLots, priceTicks, roundUp)
              == if x > U128_MAX then Err(QuoteOverflow)
                 else if d > U128_MAX then Err(PriceOverflow)
                 else DivideLots(x, d, roundUp)
  {
  }

  lemma {:induction false} DivideLotsExact(x: u128, d: u128)
    requires d > 0
    ensures DivideLots(x, d, false) == (if x / d <= U64_MAX then Ok(x / d) else Err(QuoteOverflow))
    ensures DivideLots(x, d, true)
              == (if x + d - 1 > U128_MAX || Ceil(x, d) > U64_MAX then Err(QuoteOverflow) else Ok(Ceil(x, d)))
  {
    Nonnegative(x / d, 1);
    FloorBounds(x, d);
    FloorBounds(x + d - 1, d);
  }

  /** On any market the conversion fails exactly when the unit, the exact numerator or the
      exact denominator leaves u128, the denominator is zero, rounding up has no room to
      add, or the result leaves u64; the error names the side at fault. */
  lemma {:induction false} QuoteToBaseFailsIff(m: Market, quoteLots: u64, priceTicks: u64, roundUp: bool)
    ensures var x, d := quoteLots * ConversionDen(m), priceTicks * ConversionNum(m);
            QuoteToBaseLots(m, quoteLots, priceTicks, roundUp).Err? <==>
            !(&& BaseAtomsPerBaseUnit(m).Ok?
              && 0 <= x <= U128_MAX
              && 0 < d <= U128_MAX
              && if roundUp then x + d - 1 <= U128_MAX && Ceil(x, d) <= U64_MAX else x / d <= U64_MAX)
    ensures var x, d := quoteLots * ConversionDen(m), priceTicks * ConversionNum(m);
            var r := QuoteToBaseLots(m, quoteLots, priceTicks, roundUp);
            r.Err? ==>
              r.error == if BaseAtomsPerBaseUnit(m).Err? then ArithmeticOverflow
                         else if x <= U128_MAX && !(0 < d <= U128_MAX) then PriceOverflow
                         else QuoteOverflow
  {
    var x, d := quoteLots * ConversionDen(m), priceTicks * ConversionNum(m);
    var atoms, scaled := quoteLots * m.quoteAtomsPerQuoteLot, priceTicks * m.tickSize;
    Nonnegative(quoteLots, ConversionDen(m));
    Nonnegative(priceTicks, ConversionNum(m));
    Collateral.ProductFits(quoteLots, m.quoteAtomsPerQuoteLot);
    Collateral.ProductFits(priceTicks, m.tickSize);
    Reorder(1, m.baseAtomsPerBaseLot, priceTicks, m.tickSize);
    RegroupDen(quoteLots, m.quoteAtomsPerQuoteLot, BaseAtomsPerBaseUnitExact(m));
    if BaseAtomsPerBaseUnit(m).Ok? {
      QuoteToBaseUnfold(m, quoteLots, priceTicks, roundUp, BaseAtomsPerBaseUnitExact(m), atoms, x, scaled, d);
      if x <= U128_MAX && 0 < d <= U128_MAX {
        DivideLotsExact(x, d);
      }
    }
  }

  /** On any market, rounding down buys the most base lots the quote pays for, and
      rounding up the fewest that use it up. */
  lemma {:induction false} QuoteBuysExactly(m: Market, quoteLots: u64, priceTicks: u64)
    ensures var down := QuoteToBaseLots(m, quoteLots, priceTicks, false);
            down.Ok? ==> IsFloor(down.value, quoteLots * ConversionDen(m), priceTicks * ConversionNum(m))
    ensures var up := QuoteToBaseLots(m, quoteLots, priceTicks, true);
            up.Ok? ==> IsCeil(up.value, quoteLots * ConversionDen(m), priceTicks * ConversionNum(m))
  {
    var x, d := quoteLots * ConversionDen(m), priceTicks * ConversionNum(m);
    Nonnegative(quoteLots, ConversionDen(m));
    Nonnegative(priceTicks, ConversionNum(m));
    if QuoteToBaseLots(m, quoteLots, priceTicks, false).Ok? {
      QuoteToBaseDivides(m, quoteLots, priceTicks, false, x, d);
      FloorBounds(x, d);
    }
    if QuoteToBaseLots(m, quoteLots, priceTicks, true).Ok? {
      QuoteToBaseDivides(m, quoteLots, priceTicks, true, x, d);
      CeilBounds(x, d);
    }
  }

  lemma {:induction false} AtomsFailIff(
      m: Market, n: u64, p: u64, perUnit: nat, atoms: nat, scaled: nat, x: nat)
    requires perUnit == BaseAtomsPerBaseUnitExact(m)
    requires atoms == n * m.baseAtomsPerBaseLot && atoms <= U128_MAX
    requires scaled == atoms * p
    requires x == scaled * m.tickSize
    ensures BaseLotsToQuoteAtoms(m, n, p).Ok? <==>
            && BaseAtomsPerBaseUnit(m).Ok? && perUnit > 0
            && scaled <= U128_MAX && x <= U128_MAX && x / perUnit <= U64_MAX
    ensures BaseLotsToQuoteAtoms(m, n, p).Err? ==> BaseLotsToQuoteAtoms(m, n, p) == Err(ArithmeticOverflow)
  {
  }

  lemma {:induction false} AtomsCoverLots(lots: nat, q: nat)
    requires q > 0
    ensures lots <= lots * q
  {
    MulMono(1, q, lots);
  }

  lemma {:induction false} LotsUnfold(
      m: Market, baseLots: u64, priceTicks: u64, side: Side, atoms: u64, q: nat, down: nat, up: nat)
    requires BaseLotsToQuoteAtoms(m, baseLots, priceTicks) == Ok(atoms)
    requires q == m.quoteAtomsPerQuoteLot && q > 0
    requires down == atoms / q && up == (atoms + (q - 1)) / q
    requires down <= U64_MAX && up <= U64_MAX
    ensures BaseToQuoteLots(m, baseLots, priceTicks, side).Ok?
  {
  }

  lemma {:induction false} LotsRefused(m: Market, baseLots: u64, priceTicks: u64, side: Side)
    requires BaseLotsToQuoteAtoms(m, baseLots, priceTicks).Err? || m.quoteAtomsPerQuoteLot == 0
    ensures BaseToQuoteLots(m, baseLots, priceTicks, side) == Err(QuoteOverflow)
  {
  }

  lemma {:induction false} LotsWithinAtoms(atoms: nat, q: nat) returns (down: nat, up: nat)
    requires q > 0
    ensures down == atoms / q && up == (atoms + (q - 1)) / q
    ensures down <= atoms && up <= atoms
  {
    down, up := atoms / q, (atoms + (q - 1)) / q;
    FloorAtMost(atoms, q);
    AtomsCoverLots(atoms, q);
    CeilLe(atoms, q, atoms);
    assert atoms + (q - 1) == atoms + q - 1;
  }

  /** Once the atoms fit, only a lot without atoms can fail. */
  lemma {:induction false} LotsOfAtoms(m: Market, baseLots: u64, priceTicks: u64, side: Side)
    ensures BaseToQuoteLots(m, baseLots, priceTicks, side).Ok? <==>
            BaseLotsToQuoteAtoms(m, baseLots, priceTicks).Ok? && m.quoteAtomsPerQuoteLot > 0
    ensures BaseToQuoteLots(m, baseLots, priceTicks, side).Err? ==>
              BaseToQuoteLots(m, baseLots, priceTicks, side) == Err(QuoteOverflow)
  {
    var converted := BaseLotsToQuoteAtoms(m, baseLots, priceTicks);
    if converted.Ok? && m.quoteAtomsPerQuoteLot > 0 {
      var down, up := LotsWithinAtoms(converted.value, m.quoteAtomsPerQuoteLot);
      LotsUnfold(m, baseLots, priceTicks, side, converted.value, m.quoteAtomsPerQuoteLot, down, up);
    } else {
      LotsRefused(m, baseLots, priceTicks, side);
    }
  }

  /** On any market a fill fails, always with the same error, exactly when the unit is
      zero or leaves u128, a product of the fill leaves u128, the whole quote atoms leave
      u64, or a quote lot has no atoms. */
  lemma {:induction false} BaseToQuoteFailsIff(m: Market, baseLots: u64, priceTicks: u64, side: Side)
    ensures var x, perUnit := baseLots * priceTicks * ConversionNum(m), BaseAtomsPerBaseUnitExact(m);
            BaseToQuoteLots(m, baseLots, priceTicks, side).Err? <==>
            !(&& BaseAtomsPerBaseUnit(m).Ok? && perUnit > 0
              && baseLots * m.baseAtomsPerBaseLot * priceTicks <= U128_MAX
              && x <= U128_MAX && 0 <= x / perUnit <= U64_MAX
              && m.quoteAtomsPerQuoteLot > 0)
    ensures BaseToQuoteLots(m, baseLots, priceTicks, side).Err? ==>
              BaseToQuoteLots(m, baseLots, priceTicks, side) == Err(QuoteOverflow)
  {
    var x, perUnit := baseLots * priceTicks * ConversionNum(m), BaseAtomsPerBaseUnitExact(m);
    var atoms := baseLots * m.baseAtomsPerBaseLot;
    Reorder(baseLots, m.baseAtomsPerBaseLot, priceTicks, m.tickSize);
    Collateral.ProductFits(baseLots, m.baseAtomsPerBaseLot);
    Nonnegative(atoms, priceTicks);
    Nonnegative(atoms * priceTicks, m.tickSize);
    AtomsFailIff(m, baseLots, priceTicks, perUnit, atoms, atoms * priceTicks, x);
    LotsOfAtoms(m, baseLots, priceTicks, side);
  }

  /** Exact atoms of a fill when one lot-tick is `k` quote lots. */
  lemma {:induction false} ExactAtoms(x: nat, perUnit: nat, q: nat, k: nat)
    requires perUnit > 0 && q > 0
    ensures (x * (k * (perUnit * q))) / perUnit == k * x * q
    ensures (k * x * q) / q == k * x
    ensures Ceil(k * x * q, q) == k * x
    ensures k * x * q * perUnit == x * (k * (perUnit * q))
  {
    assert x * (k * (perUnit * q)) == (k * x * q) * perUnit;
    ExactDivision(k * x * q, perUnit);
    ExactDivision(k * x, q);
  }

  /** Quote lots of one lot-tick on an accepted market. */
  function LotTickQuoteLots(m: AcceptedMarket): nat {
    AcceptedMarketMeaning(m);
    ConversionNum(m) / ConversionDen(m)
  }

  lemma {:induction false} LotTickIsWhole(m: AcceptedMarket)
    ensures BaseAtomsPerBaseUnitExact(m) > 0 && m.quoteAtomsPerQuoteLot > 0 && m.tickSize > 0
    ensures LotTickQuoteLots(m) >= 1
    ensures ConversionNum(m) == LotTickQuoteLots(m) * ConversionDen(m)
  {
    AcceptedMarketMeaning(m);
    MultipleIsAtLeast(ConversionNum(m), ConversionDen(m));
    PositiveFactors(BaseAtomsPerBaseUnitExact(m), m.quoteAtomsPerQuoteLot);
    LimitFillSize(m.baseAtomsPerBaseLot, m.tickSize);
  }

  /** The unit of an accepted market fits the program's u128. */
  lemma {:induction false} UnitFits(m: AcceptedMarket)
    ensures BaseAtomsPerBaseUnit(m) == Ok(BaseAtomsPerBaseUnitExact(m))
    ensures BaseAtomsPerBaseUnitExact(m) > 0
  {
  }

  lemma {:induction false} AtomsUnfold(m: Market, n: u64, p: u64, perUnit: nat, atoms: nat, scaled: nat, x: nat)
    requires BaseAtomsPerBaseUnit(m) == Ok(perUnit) && perUnit > 0
    requires atoms == n * m.baseAtomsPerBaseLot
    requires scaled == atoms * p
    requires x == scaled * m.tickSize
    requires atoms <= U128_MAX && (x <= U128_MAX ==> scaled <= U128_MAX)
    ensures BaseLotsToQuoteAtoms(m, n, p)
              == if x <= U128_MAX && x / perUnit <= U64_MAX then Ok(x / perUnit) else Err(ArithmeticOverflow)
  {
  }

  lemma {:induction false} ConversionSteps(m: AcceptedMarket, baseLots: u64, priceTicks: u64)
    ensures BaseAtomsPerBaseUnitExact(m) > 0
    ensures var x := baseLots * priceTicks * ConversionNum(m);
            var atoms := x / BaseAtomsPerBaseUnitExact(m);
            BaseLotsToQuoteAtoms(m, baseLots, priceTicks)
              == if x <= U128_MAX && atoms <= U64_MAX then Ok(atoms) else Err(ArithmeticOverflow)
  {
    var atoms := baseLots * m.baseAtomsPerBaseLot;
    LotTickIsWhole(m);
    Reorder(baseLots, m.baseAtomsPerBaseLot, priceTicks, m.tickSize);
    Collateral.ProductFits(baseLots, m.baseAtomsPerBaseLot);
    Nonnegative(atoms, priceTicks);
    AtomsCoverLots(atoms * priceTicks, m.tickSize);
    UnitFits(m);
    AtomsUnfold(m, baseLots, priceTicks, BaseAtomsPerBaseUnitExact(m), atoms, atoms * priceTicks,
                atoms * priceTicks * m.tickSize);
  }

  /** Either side on whole atoms: no rounding is left to do. */
  lemma {:induction false} WholeAtoms(
      m: Market, baseLots: u64, priceTicks: u64, side: Side, lots: nat, atoms: nat, fits: bool)
    requires m.quoteAtomsPerQuoteLot > 0 && atoms == lots * m.quoteAtomsPerQuoteLot
    requires fits ==> atoms <= U64_MAX
    requires BaseLotsToQuoteAtoms(m, baseLots, priceTicks) == if fits then Ok(atoms) else Err(ArithmeticOverflow)
    ensures BaseToQuoteLots(m, baseLots, priceTicks, side) == if fits then Ok(lots) else Err(QuoteOverflow)
  {
    ExactDivision(lots, m.quoteAtomsPerQuoteLot);
    AtomsCoverLots(lots, m.quoteAtomsPerQuoteLot);
  }

  /** On an accepted market both roundings are exact, on both sides alike: a fill
      converts exactly when its atoms fit, and then to `k * lots * ticks`. */
  lemma {:induction false} ConversionIsExact(m: AcceptedMarket, baseLots: u64, priceTicks: u64, side: Side)
    ensures var x, k := baseLots * priceTicks, LotTickQuoteLots(m);
            BaseToQuoteLots(m, baseLots, priceTicks, side)
              == if x * ConversionNum(m) <= U128_MAX && k * x * m.quoteAtomsPerQuoteLot <= U64_MAX
                 then Ok(k * x) else Err(QuoteOverflow)
  {
    var x, k, q := baseLots * priceTicks, LotTickQuoteLots(m), m.quoteAtomsPerQuoteLot;
    LotTickIsWhole(m);
    Nonnegative(k, x);
    ExactAtoms(x, BaseAtomsPerBaseUnitExact(m), q, k);
    ConversionSteps(m, baseLots, priceTicks);
    WholeAtoms(m, baseLots, priceTicks, side, k * x, k * x * q,
               x * ConversionNum(m) <= U128_MAX && k * x * q <= U64_MAX);
  }

  lemma {:induction false} Regroup(n: nat, p: nat, num: nat)
    requires n > 0 && p > 0 && num > 0
    ensures n * p * num == n * (p * num)
    ensures p * num > 0
    ensures p * num <= n * (p * num)
    ensures (n + 1) * (p * num) == n * (p * num) + p * num
  {
    PositiveFactors(p, num);
    PositiveFactors(p * num, n);
  }

  lemma {:induction false} BackUnfold(
      m: Market, quoteLots: u64, priceTicks: u64, perUnit: nat, atoms: nat, x: nat, scaled: nat, d: nat)
    requires BaseAtomsPerBaseUnit(m) == Ok(perUnit)
    requires atoms == quoteLots * m.quoteAtomsPerQuoteLot
    requires x == atoms * perUnit
    requires scaled == priceTicks * m.tickSize
    requires d == scaled * m.baseAtomsPerBaseLot
    requires atoms <= U128_MAX && x <= U128_MAX && scaled <= U128_MAX && 0 < d <= U128_MAX
    ensures forall up :: QuoteToBaseLots(m, quoteLots, priceTicks, up) == DivideLots(x, d, up)
  {
  }

  lemma {:induction false} BackSteps(m: AcceptedMarket, quoteLots: u64, priceTicks: u64)
    requires priceTicks > 0
    requires var x := quoteLots * m.quoteAtomsPerQuoteLot * BaseAtomsPerBaseUnitExact(m);
             x <= U128_MAX && priceTicks * ConversionNum(m) <= U128_MAX
    ensures var x := quoteLots * m.quoteAtomsPerQuoteLot * BaseAtomsPerBaseUnitExact(m);
            var d := priceTicks * ConversionNum(m);
            && d > 0 && x >= 0
            && QuoteToBaseLots(m, quoteLots, priceTicks, false)
                 == (if x / d <= U64_MAX then Ok(x / d) else Err(QuoteOverflow))
            && QuoteToBaseLots(m, quoteLots, priceTicks, true)
                 == (if x + d - 1 > U128_MAX || Ceil(x, d) > U64_MAX then Err(QuoteOverflow) else Ok(Ceil(x, d)))
  {
    var atoms, perUnit := quoteLots * m.quoteAtomsPerQuoteLot, BaseAtomsPerBaseUnitExact(m);
    var scaled := priceTicks * m.tickSize;
    LotTickIsWhole(m);
    AcceptedMarketMeaning(m);
    Reorder(1, m.baseAtomsPerBaseLot, priceTicks, m.tickSize);
    Nonnegative(quoteLots, m.quoteAtomsPerQuoteLot);
    Nonnegative(atoms, perUnit);
    PositiveFactors(priceTicks, ConversionNum(m));
    PositiveFactors(m.tickSize, m.baseAtomsPerBaseLot);
    AtomsCoverLots(scaled, m.baseAtomsPerBaseLot);
    PositiveFactors(atoms, perUnit);
    UnitFits(m);
    BackUnfold(m, quoteLots, priceTicks, perUnit, atoms, atoms * perUnit, scaled, scaled * m.baseAtomsPerBaseLot);
    DivideLotsExact(atoms * perUnit, scaled * m.baseAtomsPerBaseLot);
  }

  /** Converting a fill to quote and back on an accepted market: rounding down
      never fails and returns the lots; rounding up returns them too, and fails
      exactly when its one extra addition leaves u128. */
  lemma {:induction false} QuoteConvertsBack(m: AcceptedMarket, baseLots: u64, priceTicks: u64, side: Side)
    requires baseLots > 0 && priceTicks > 0
    requires BaseToQuoteLots(m, baseLots, priceTicks, side).Ok?
    ensures var quoteLots := BaseToQuoteLots(m, baseLots, priceTicks, side).value;
            var lotQuote := priceTicks * ConversionNum(m);
            && QuoteToBaseLots(m, quoteLots, priceTicks, false) == Ok(baseLots)
            && QuoteToBaseLots(m, quoteLots, priceTicks, true)
                 == if (baseLots + 1) * lotQuote - 1 <= U128_MAX then Ok(baseLots) else Err(QuoteOverflow)
  {
    var k, q, perUnit := LotTickQuoteLots(m), m.quoteAtomsPerQuoteLot, BaseAtomsPerBaseUnitExact(m);
    var x, lotQuote := baseLots * priceTicks, priceTicks * ConversionNum(m);
    LotTickIsWhole(m);
    AcceptedMarketMeaning(m);
    ConversionIsExact(m, baseLots, priceTicks, side);
    ExactAtoms(x, perUnit, q, k);
    Reorder(1, m.baseAtomsPerBaseLot, priceTicks, m.tickSize);
    Regroup(baseLots, priceTicks, ConversionNum(m));
    BackSteps(m, k * x, priceTicks);
    ExactDivision(baseLots, lotQuote);
    AtomsCoverLots(priceTicks * m.tickSize, m.baseAtomsPerBaseLot);
  }

  /** The maker's collateral and the fill agree: a fill that converts costs exactly
      the ceiling a book locks for it, whatever pair of the market's ratio it caches. */
  lemma {:induction false} CollateralIsTheConversion(
      m: AcceptedMarket, num: u64, den: u64, baseLots: u64, priceTicks: u64, side: Side)
    requires den > 0 && SameRatio(num, den, ConversionNum(m), ConversionDen(m))
    requires BaseToQuoteLots(m, baseLots, priceTicks, side).Ok?
    ensures ComputeQuoteLotsCeiling(num, den, baseLots, priceTicks)
              == BaseToQuoteLots(m, baseLots, priceTicks, side)
  {
    var k, x := LotTickQuoteLots(m), baseLots * priceTicks;
    LotTickIsWhole(m);
    AcceptedMarketMeaning(m);
    Nonnegative(baseLots, priceTicks);
    ConversionIsExact(m, baseLots, priceTicks, side);
    Collateral.CeilingExact(num, den, baseLots, priceTicks);
    CeilOfRatio(x, num, den, ConversionNum(m), ConversionDen(m));
    Collateral.ScaledCeil(x, ConversionNum(m), ConversionDen(m), k);
  }
}
