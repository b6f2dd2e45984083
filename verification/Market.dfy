/** Market parameters: validation and the base-lot to quote-atom conversion. */
module Markets {
  import opened MachineInts
  import opened Rounding

  datatype Market = Market(
    baseDecimals: u8,
    rawBaseUnitsPerBaseUnit: u64,
    baseAtomsPerBaseLot: u64,
    quoteAtomsPerQuoteLot: u64,
    tickSize: u64)

  const MAX_TICKS := 1_000_000_000_000_000_000

  function Pow10(e: nat): (p: nat)
    ensures p > 0
  {
    if e == 0 then 1 else 10 * Pow10(e - 1)
  }

  lemma {:induction false} Pow10Mono(a: nat, b: nat)
    requires a <= b
    ensures Pow10(a) <= Pow10(b)
    decreases b
  {
    if a < b {
      Pow10Mono(a, b - 1);
    }
  }

  function CheckedPow10U64(e: nat): Result<u64, ArcherError> {
    CheckedU64(Pow10(e), ArithmeticOverflow)
  }

  /** The exact product, before any width is considered. */
  function BaseAtomsPerBaseUnitExact(m: Market): nat {
    Pow10(m.baseDecimals) * m.rawBaseUnitsPerBaseUnit
  }

  function BaseAtomsPerBaseUnit(m: Market): Result<u128, ArcherError> {
    var pow :- CheckedU128(Pow10(m.baseDecimals), ArithmeticOverflow);
    CheckedU128(pow * m.rawBaseUnitsPerBaseUnit, ArithmeticOverflow)
  }

  /** Numerator and denominator of `quote_lots = base_lots * ticks * num / den`. */
  function ConversionNum(m: Market): nat {
    m.tickSize * m.baseAtomsPerBaseLot
  }

  function ConversionDen(m: Market): nat {
    BaseAtomsPerBaseUnitExact(m) * m.quoteAtomsPerQuoteLot
  }

  function BaseLotsToQuoteAtoms(m: Market, baseLots: u64, priceTicks: u64): Result<u64, ArcherError> {
    var baseAtoms :- CheckedU128(baseLots * m.baseAtomsPerBaseLot, ArithmeticOverflow);
    var perUnit :- BaseAtomsPerBaseUnit(m);
    var scaled :- CheckedU128(baseAtoms * priceTicks, ArithmeticOverflow);
    var ticks :- CheckedU128(scaled * m.tickSize, ArithmeticOverflow);
    if perUnit == 0 then Err(ArithmeticOverflow)
    else CheckedU64(ticks / perUnit, ArithmeticOverflow)
  }

  /** One lot-tick is worth at least a quote atom and a whole number of quote lots. */
  function SmallestFill(numerator: u128, perUnit: u128, quoteAtomsPerQuoteLot: u64): Result<(), ArcherError> {
    if perUnit == 0 then Err(ArithmeticOverflow)
    else if numerator / perUnit == 0 then Err(InvalidParams)
    else
      var denominator :- CheckedU128(perUnit * quoteAtomsPerQuoteLot, ArithmeticOverflow);
      if denominator == 0 || numerator % denominator != 0 then Err(InvalidParams) else Ok(())
  }

  function LargestFill(baseAtomsPerBaseLot: u64, tickSize: u64): Result<(), ArcherError> {
    var maxBaseAtoms :- CheckedU128(baseAtomsPerBaseLot * MAX_TICKS, ArithmeticOverflow);
    var maxFill :- CheckedU128(maxBaseAtoms * tickSize, ArithmeticOverflow);
    Ok(())
  }

  /** The tests on the smallest and the largest fill. The source's last check compares
      two constants and always passes. */
  function ValidateAtUnit(m: Market, perUnit: u128): Result<(), ArcherError> {
    var minFillNumerator :- CheckedU128(m.baseAtomsPerBaseLot * m.tickSize, ArithmeticOverflow);
    var _ :- SmallestFill(minFillNumerator, perUnit, m.quoteAtomsPerQuoteLot);
    LargestFill(m.baseAtomsPerBaseLot, m.tickSize)
  }

  function ValidateMarketInvariants(m: Market): Result<(), ArcherError> {
    var perUnit :- BaseAtomsPerBaseUnit(m);
    ValidateAtUnit(m, perUnit)
  }

  /** A market the validation lets through; the witness is the test market's shape with
      coarser ticks. */
  type AcceptedMarket = m: Market | ValidateMarketInvariants(m).Ok?
    witness Market(9, 1, 1_000_000, 1, 1_000)

  lemma {:induction false} AtUnitUnfold(m: Market, perUnit: u128, num: u128)
    requires num == m.baseAtomsPerBaseLot * m.tickSize
    ensures ValidateAtUnit(m, perUnit).Ok? <==>
            SmallestFill(num, perUnit, m.quoteAtomsPerQuoteLot).Ok?
            && LargestFill(m.baseAtomsPerBaseLot, m.tickSize).Ok?
  {
  }

  lemma {:induction false} SmallestFillMeaning(num: u128, perUnit: u128, q: u64, den: nat)
    requires den == perUnit * q
    ensures SmallestFill(num, perUnit, q).Ok? <==>
            perUnit > 0 && num / perUnit > 0 && 0 < den <= U128_MAX && num % den == 0
  {
    if perUnit > 0 {
      FloorBounds(num, perUnit);
    }
  }

  lemma {:induction false} LargestFillMeaning(lot: u64, tick: u64, limitAtoms: nat, limit: nat)
    requires limitAtoms == lot * MAX_TICKS && limit == limitAtoms * tick
    ensures LargestFill(lot, tick).Ok? <==> limitAtoms <= U128_MAX && limit <= U128_MAX
  {
  }

  /** The validation's tests on the exact products. */
  predicate Checks(pow: nat, perUnit: nat, num: nat, den: nat, limitAtoms: nat, limit: nat) {
    && pow <= U128_MAX && perUnit <= U128_MAX && num <= U128_MAX
    && perUnit > 0 && num / perUnit > 0
    && den <= U128_MAX && den > 0 && num % den == 0
    && limitAtoms <= U128_MAX && limit <= U128_MAX
  }

  lemma {:induction false} ValidateAtUnitIsChecks(
      m: Market, perUnit: u128, num: nat, den: nat, limitAtoms: nat, limit: nat)
    requires num == m.baseAtomsPerBaseLot * m.tickSize
    requires den == perUnit * m.quoteAtomsPerQuoteLot
    requires limitAtoms == m.baseAtomsPerBaseLot * MAX_TICKS
    requires limit == limitAtoms * m.tickSize
    ensures ValidateAtUnit(m, perUnit).Ok? <==> Checks(1, perUnit, num, den, limitAtoms, limit)
  {
    LargestFillMeaning(m.baseAtomsPerBaseLot, m.tickSize, limitAtoms, limit);
    if num <= U128_MAX {
      SmallestFillMeaning(num, perUnit, m.quoteAtomsPerQuoteLot, den);
      AtUnitUnfold(m, perUnit, num);
    }
  }

  lemma {:induction false} UnitUnfold(m: Market, pow: nat, perUnit: nat)
    requires pow == Pow10(m.baseDecimals)
    requires perUnit == pow * m.rawBaseUnitsPerBaseUnit
    ensures BaseAtomsPerBaseUnit(m)
              == if pow <= U128_MAX && perUnit <= U128_MAX then Ok(perUnit) else Err(ArithmeticOverflow)
  {
  }

  lemma {:induction false} ValidateIsChecks(
      m: Market, pow: nat, perUnit: nat, num: nat, den: nat, limitAtoms: nat, limit: nat)
    requires pow == Pow10(m.baseDecimals)
    requires perUnit == pow * m.rawBaseUnitsPerBaseUnit
    requires num == m.baseAtomsPerBaseLot * m.tickSize
    requires den == perUnit * m.quoteAtomsPerQuoteLot
    requires limitAtoms == m.baseAtomsPerBaseLot * MAX_TICKS
    requires limit == limitAtoms * m.tickSize
    ensures ValidateMarketInvariants(m).Ok? <==> Checks(pow, perUnit, num, den, limitAtoms, limit)
  {
    UnitUnfold(m, pow, perUnit);
    if pow <= U128_MAX && perUnit <= U128_MAX {
      ValidateAtUnitIsChecks(m, perUnit, num, den, limitAtoms, limit);
    }
  }

  lemma {:induction false} MultipleIsAtLeast(x: nat, d: nat)
    requires d > 0 && x > 0 && x % d == 0
    ensures x >= d
    ensures x / d >= 1
    ensures x == (x / d) * d
  {
    FloorBounds(x, d);
  }

  lemma {:induction false} ChecksMeaning(pow: nat, perUnit: nat, num: nat, den: nat, limitAtoms: nat, limit: nat)
    requires perUnit > 0 ==> pow <= perUnit
    requires den > 0 ==> perUnit > 0 && perUnit <= den
    requires num > 0 ==> limitAtoms <= limit
    requires limit == num * MAX_TICKS
    ensures Checks(pow, perUnit, num, den, limitAtoms, limit) <==>
            den > 0 && num > 0 && num % den == 0 && limit <= U128_MAX
  {
    if den > 0 && num > 0 && num % den == 0 {
      MultipleIsAtLeast(num, den);
      FloorGe(num, perUnit, 1);
    }
    if perUnit > 0 && num == 0 {
      ExactDivision(0, perUnit);
    }
  }

  lemma {:induction false} PositiveFactors(a: nat, b: nat)
    ensures a * b > 0 <==> a > 0 && b > 0
    ensures b > 0 ==> a <= a * b
    ensures a * b == 0 ==> a == 0 || b == 0
  {
    if b > 0 {
      MulMono(1, b, a);
    }
  }

  lemma {:induction false} LimitFillSize(lot: nat, tick: nat)
    ensures lot * MAX_TICKS * tick == (tick * lot) * MAX_TICKS
    ensures tick > 0 ==> lot * MAX_TICKS <= lot * MAX_TICKS * tick
    ensures tick * lot > 0 ==> tick > 0
  {
    if tick > 0 {
      MulMono(1, tick, lot * MAX_TICKS);
    }
  }

  /** What an accepted market is: the conversion is a positive whole number of
      quote lots per lot-tick, and a fill of one base lot at the tick limit fits. */
  lemma {:induction false} AcceptedMarketMeaning(m: Market)
    ensures ValidateMarketInvariants(m).Ok? <==>
            && ConversionDen(m) > 0
            && ConversionNum(m) > 0
            && ConversionNum(m) % ConversionDen(m) == 0
            && ConversionNum(m) * 1_000_000_000_000_000_000 < 0x1_0000_0000_0000_0000_0000_0000_0000_0000
  {
    var pow, perUnit := Pow10(m.baseDecimals), BaseAtomsPerBaseUnitExact(m);
    var num, den := ConversionNum(m), ConversionDen(m);
    var limitAtoms := m.baseAtomsPerBaseLot * MAX_TICKS;
    LimitFillSize(m.baseAtomsPerBaseLot, m.tickSize);
    PositiveFactors(pow, m.rawBaseUnitsPerBaseUnit);
    PositiveFactors(perUnit, m.quoteAtomsPerQuoteLot);
    ChecksMeaning(pow, perUnit, num, den, limitAtoms, num * MAX_TICKS);
    ValidateIsChecks(m, pow, perUnit, num, den, limitAtoms, num * MAX_TICKS);
  }

  lemma {:induction false} SmallestFillRefusal(num: u128, perUnit: u128, q: u64, den: nat)
    requires den == perUnit * q
    ensures SmallestFill(num, perUnit, q).Err? ==>
              SmallestFill(num, perUnit, q).error == InvalidParams
              || SmallestFill(num, perUnit, q).error == ArithmeticOverflow
    ensures SmallestFill(num, perUnit, q) == Err(InvalidParams) <==>
            perUnit > 0 && (num / perUnit == 0 || (den <= U128_MAX && (den == 0 || num % den != 0)))
  {
  }

  lemma {:induction false} LessThanOne(num: nat, perUnit: nat)
    requires perUnit > 0
    ensures num / perUnit == 0 <==> num < perUnit
  {
    FloorGe(num, perUnit, 1);
  }

  lemma {:induction false} AtUnitRefusal(m: Market, perUnit: u128, num: u128)
    requires num == m.baseAtomsPerBaseLot * m.tickSize
    ensures SmallestFill(num, perUnit, m.quoteAtomsPerQuoteLot).Err? ==>
              ValidateAtUnit(m, perUnit).Err?
              && ValidateAtUnit(m, perUnit).error == SmallestFill(num, perUnit, m.quoteAtomsPerQuoteLot).error
    ensures SmallestFill(num, perUnit, m.quoteAtomsPerQuoteLot).Ok? && ValidateAtUnit(m, perUnit).Err? ==>
              ValidateAtUnit(m, perUnit).error == ArithmeticOverflow
  {
  }

  lemma {:induction false} NumFits(m: Market)
    ensures ConversionNum(m) <= U128_MAX
  {
    MulMono(m.tickSize, U64_MAX, m.baseAtomsPerBaseLot);
    MulMono(m.baseAtomsPerBaseLot, U64_MAX, U64_MAX);
  }

  /** A refused market is refused for its parameters exactly when its unit fits and a
      lot-tick is worth less than an atom or, the denominator fitting, no whole number of
      quote lots; any other refusal is an overflow. */
  lemma {:induction false} RefusedMarketMeaning(m: Market)
    ensures ValidateMarketInvariants(m) == Err(InvalidParams) <==>
            && BaseAtomsPerBaseUnit(m).Ok? && BaseAtomsPerBaseUnitExact(m) > 0
            && (|| ConversionNum(m) < BaseAtomsPerBaseUnitExact(m)
                || (&& ConversionDen(m) <= U128_MAX
                    && (ConversionDen(m) == 0 || ConversionNum(m) % ConversionDen(m) != 0)))
    ensures ValidateMarketInvariants(m).Err? ==>
              ValidateMarketInvariants(m).error == InvalidParams
              || ValidateMarketInvariants(m).error == ArithmeticOverflow
  {
    NumFits(m);
    if BaseAtomsPerBaseUnit(m).Ok? {
      var perUnit, num := BaseAtomsPerBaseUnitExact(m), ConversionNum(m);
      SmallestFillRefusal(num, perUnit, m.quoteAtomsPerQuoteLot, ConversionDen(m));
      if perUnit > 0 {
        LessThanOne(num, perUnit);
      }
      AtUnitRefusal(m, perUnit, num);
    }
  }

  // ---------- greatest common divisor ----------

  predicate Divides(d: nat, n: nat)
    requires d > 0
  {
    n % d == 0
  }

  function Gcd(a: nat, b: nat): nat
    decreases b
  {
    if b == 0 then a else Gcd(b, a % b)
  }

  method ComputeGcd(x: u64, y: u64) returns (g: u64)
    ensures g == Gcd(x, y)
  {
    var a, b := x, y;
    while b != 0
      invariant Gcd(a, b) == Gcd(x, y)
      decreases b
    {
      a, b := b, a % b;
    }
    g := a;
  }

  lemma {:induction false} AddMultiple(x: nat, j: nat, d: nat)
    requires d > 0
    ensures (x + j * d) % d == x % d
  {
    FloorUnique(x + j * d, d, x / d + j);
    assert (x / d + j) * d == (x / d) * d + j * d;
  }

  lemma {:induction false} DividesLinear(d: nat, x: nat, y: nat, k: nat)
    requires d > 0 && Divides(d, y)
    ensures Divides(d, x + k * y) <==> Divides(d, x)
  {
    var j := y / d;
    assert y == j * d;
    assert k * y == (k * j) * d;
    AddMultiple(x, k * j, d);
  }

  /** The common divisors of `a, b` are those of `b, a % b`. */
  lemma {:induction false} RemainderKeepsDivisors(d: nat, a: nat, b: nat)
    requires d > 0 && b > 0 && Divides(d, b)
    ensures Divides(d, a) <==> Divides(d, a % b)
  {
    var k := a / b;
    assert a == a % b + k * b;
    DividesLinear(d, a % b, b, k);
  }

  /** The loop's result divides both numbers, and every common divisor divides it. */
  lemma {:induction false} GcdIsGreatestCommonDivisor(a: nat, b: nat)
    requires a > 0 || b > 0
    ensures Gcd(a, b) > 0
    ensures Divides(Gcd(a, b), a) && Divides(Gcd(a, b), b)
    ensures forall d: nat | d > 0 && Divides(d, a) && Divides(d, b) :: Divides(d, Gcd(a, b))
    decreases b
  {
    if b == 0 {
      ExactDivision(1, a);
      ExactDivision(0, a);
    } else {
      GcdIsGreatestCommonDivisor(b, a % b);
      RemainderKeepsDivisors(Gcd(b, a % b), a, b);
      forall d: nat | d > 0 && Divides(d, a) && Divides(d, b) ensures Divides(d, Gcd(a, b)) {
        RemainderKeepsDivisors(d, a, b);
      }
    }
  }

  // ---------- raw base units ----------

  ghost predicate IsPowerOfTen(x: nat, e: nat) {
    x == Pow10(e)
  }

  /** A number whose trailing zeros strip to something else than one is no power of
      ten. */
  lemma {:induction false} NotPowerOfTen(val: nat, stripped: nat, e: nat)
    requires val > 1 && val % 10 != 0
    ensures val * Pow10(stripped) != Pow10(e)
    decreases stripped
  {
    if stripped == 0 {
      if e > 0 {
        assert Pow10(e) % 10 == 0;
      }
    } else if e > 0 {
      NotPowerOfTen(val, stripped - 1, e - 1);
      assert val * Pow10(stripped) == 10 * (val * Pow10(stripped - 1));
    } else {
      MulMono(2, val, Pow10(stripped));
    }
  }

  /** Accepts exactly the powers of ten up to `10^base_decimals`, when that bound
      itself fits u64. */
  method ValidateRawBaseUnits(raw: u64, baseDecimals: u8) returns (r: Result<(), ArcherError>)
    ensures r.Ok? <==> Pow10(baseDecimals) <= U64_MAX && exists e: nat :: e <= baseDecimals && IsPowerOfTen(raw, e)
    ensures r.Err? ==>
              r.error == if Pow10(baseDecimals) > U64_MAX && exists e: nat :: IsPowerOfTen(raw, e)
                         then ArithmeticOverflow else InvalidParams
  {
    if raw == 0 {
      return Err(InvalidParams);
    }
    ghost var stripped := 0;
    if raw != 1 {
      var val := raw;
      while val > 1 && val % 10 == 0
        invariant val > 0
        invariant raw == val * Pow10(stripped)
        decreases val
      {
        assert val == (val / 10) * 10;
        assert (val / 10) * Pow10(stripped + 1) == ((val / 10) * 10) * Pow10(stripped);
        val := val / 10;
        stripped := stripped + 1;
      }
      if val != 1 {
        forall e: nat ensures !IsPowerOfTen(raw, e) {
          NotPowerOfTen(val, stripped, e);
        }
        return Err(InvalidParams);
      }
    }
    assert IsPowerOfTen(raw, stripped);
    var maxRaw :- CheckedPow10U64(baseDecimals);
    if raw > maxRaw {
      forall e: nat | e <= baseDecimals ensures !IsPowerOfTen(raw, e) {
        Pow10Mono(e, baseDecimals);
      }
      return Err(InvalidParams);
    }
    if stripped > baseDecimals {
      Pow10Mono(baseDecimals + 1, stripped);
    }
    r := Ok(());
  }
}
