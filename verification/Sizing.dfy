/** Percentage sizing: the bounded split multiplication and the exact rounded quotient it must equal. */
module Sizing {
  import opened Common
  import opened Settlement
  import opened Decimal
  import opened Money

  datatype MoneyRounding = Down | HalfUp | Up

  /** `numerator / denominator` rounded: the only multiple-free statement of the three modes. */
  ghost predicate IsRounded(mode: MoneyRounding, numerator: nat, denominator: nat, q: int) {
    match mode
    case Down => q * denominator <= numerator < (q + 1) * denominator
    case Up => (q - 1) * denominator < numerator <= q * denominator
    case HalfUp => (2 * q - 1) * denominator <= 2 * numerator < (2 * q + 1) * denominator
  }

  /** `r` is the rounded quotient, or that quotient is too large for a signed word. */
  ghost predicate IsSize(mode: MoneyRounding, numerator: nat, denominator: nat, r: Option<int64>) {
    match r
    case Some(q) => IsRounded(mode, numerator, denominator, q as int)
    case None => forall q :: IsRounded(mode, numerator, denominator, q) ==> q > INT64_MAX
  }

  predicate Sizable(balance: int64, balancePrecision: uint8, outputPrecision: uint8, basisPoints: int64) {
    && balance >= 0
    && balancePrecision <= outputPrecision <= MAX_MONEY_PRECISION
    && 0 < basisPoints <= 10_000
  }

  /** The exact size is balance * basisPoints * 10^delta / 10^4. */
  function Numerator(balance: nat, delta: nat, basisPoints: nat): nat {
    balance * basisPoints * Pow10(delta)
  }

  lemma RoundedUnique(mode: MoneyRounding, numerator: nat, denominator: nat, a: int, b: int)
    requires denominator >= 1
    requires IsRounded(mode, numerator, denominator, a) && IsRounded(mode, numerator, denominator, b)
    ensures a == b
  {
    if a < b {
      match mode
      case Down => Ordered(a + 1, b, denominator);
      case Up => Ordered(a, b - 1, denominator);
      case HalfUp => Ordered(2 * a + 1, 2 * b - 1, denominator);
    } else if b < a {
      match mode
      case Down => Ordered(b + 1, a, denominator);
      case Up => Ordered(b, a - 1, denominator);
      case HalfUp => Ordered(2 * b + 1, 2 * a - 1, denominator);
    }
  }

  lemma Ordered(x: int, y: int, k: nat)
    requires x <= y
    ensures x * k <= y * k
  {
  }

  /** In every mode a percentage has a rounded value. */
  lemma RoundedExists(mode: MoneyRounding, numerator: nat) returns (q: int)
    ensures IsRounded(mode, numerator, 10_000, q)
  {
    var (floor, fractional) := SplitUnits(numerator, 10_000);
    RoundedIs(mode, numerator, 10_000, floor, fractional);
    q := floor + Carry(mode, fractional, 10_000);
  }

  /** A size is the rounded percentage, and is absent exactly when that is too large for a signed word. */
  lemma AbsentExactlyWhenTooLarge(mode: MoneyRounding, numerator: nat, r: Option<int64>, q: int)
    requires IsSize(mode, numerator, 10_000, r) && IsRounded(mode, numerator, 10_000, q)
    ensures r.None? <==> q > INT64_MAX
    ensures r.Some? ==> r.value as int == q
  {
    if r.Some? {
      RoundedUnique(mode, numerator, 10_000, r.value as int, q);
    }
  }

  /** DOWN <= HALF_UP <= UP <= DOWN + 1. */
  lemma RoundingChain(numerator: nat, denominator: nat, down: int, half: int, up: int)
    requires denominator >= 1
    requires IsRounded(Down, numerator, denominator, down)
    requires IsRounded(HalfUp, numerator, denominator, half)
    requires IsRounded(Up, numerator, denominator, up)
    ensures down <= half <= up <= down + 1
  {
    if half < down {
      Ordered(2 * half + 1, 2 * down, denominator);
      Twice(down, denominator);
    }
    if up < half {
      Ordered(2 * up + 1, 2 * half - 1, denominator);
      Twice(up, denominator);
    }
    if down + 1 < up {
      Ordered(down + 1, up - 1, denominator);
    }
  }

  lemma Twice(x: int, k: nat)
    ensures 2 * x * k == 2 * (x * k)
    ensures (2 * x + 1) * k == 2 * (x * k) + k
  {
  }

  /** In every mode the size is at most the whole balance, expressed in the output precision. */
  lemma NeverAboveBalance(mode: MoneyRounding, balance: nat, delta: nat, basisPoints: nat, q: int)
    requires basisPoints <= 10_000
    requires IsRounded(mode, Numerator(balance, delta, basisPoints), 10_000, q)
    ensures q <= balance * Pow10(delta)
  {
    var whole := balance * Pow10(delta);
    Reorder(balance, basisPoints, Pow10(delta));
    assert Numerator(balance, delta, basisPoints) <= whole * 10_000 by {
      ScaleBy(basisPoints, 10_000, whole);
    }
  }

  lemma ScaleBy(a: nat, b: nat, k: nat)
    requires a <= b
    ensures k * a <= k * b
  {
  }

  lemma Reorder(a: nat, b: nat, c: nat)
    ensures a * b * c == a * c * b
  {
  }

  /** The overflow-free computation of the size. */
  method PercentageUnits(
    balance: int64, balancePrecision: uint8, outputPrecision: uint8, basisPoints: int64, rounding: MoneyRounding)
    returns (units: Option<int64>)
    ensures !Sizable(balance, balancePrecision, outputPrecision, basisPoints) ==> units.None?
    ensures Sizable(balance, balancePrecision, outputPrecision, basisPoints) ==>
              IsSize(rounding,
                     Numerator(balance as nat, (outputPrecision - balancePrecision) as nat, basisPoints as nat),
                     10_000, units)
  {
    if balance < 0 || balancePrecision > MAX_MONEY_PRECISION
       || outputPrecision < balancePrecision || outputPrecision > MAX_MONEY_PRECISION
       || basisPoints <= 0 || basisPoints > 10_000 {
      return None;
    }
    var delta := outputPrecision - balancePrecision;
    hide IsSize;
    if delta >= 4 {
      units := Multiplied(balance as uint64, delta, basisPoints as uint64);
      SizeByProduct(rounding, balance as nat, delta as nat, basisPoints as nat, units);
    } else {
      units := Divided(balance as uint64, delta, basisPoints as uint64, rounding);
      SizeByShare(rounding, balance as nat, delta as nat, basisPoints as nat, units);
    }
  }

  lemma SizeByProduct(mode: MoneyRounding, balance: nat, delta: nat, basisPoints: nat, units: Option<int64>)
    requires delta >= 4
    requires var exact := balance * (basisPoints * Pow10(delta - 4));
             if exact <= INT64_MAX then units.Some? && units.value as int == exact else units.None?
    ensures IsSize(mode, Numerator(balance, delta, basisPoints), 10_000, units)
  {
    WholeMultiple(mode, balance, delta, basisPoints);
    hide IsRounded, Numerator;
  }

  lemma SizeByShare(mode: MoneyRounding, balance: nat, delta: nat, basisPoints: nat, units: Option<int64>)
    requires delta < 4
    requires IsSize(mode, Share(balance, basisPoints), Denominator(delta), units)
    ensures IsSize(mode, Numerator(balance, delta, basisPoints), 10_000, units)
  {
    forall q
      ensures IsRounded(mode, Numerator(balance, delta, basisPoints), 10_000, q)
              <==> IsRounded(mode, Share(balance, basisPoints), Denominator(delta), q)
    {
      Rescaled(mode, balance, delta, basisPoints, q);
    }
    hide IsRounded, Numerator, Share, Denominator;
  }

  /** Four or more extra decimals cancel the denominator: the size is an exact product. */
  lemma WholeMultiple(mode: MoneyRounding, balance: nat, delta: nat, basisPoints: nat)
    requires delta >= 4
    ensures forall q :: IsRounded(mode, Numerator(balance, delta, basisPoints), 10_000, q)
                        <==> q == balance * (basisPoints * Pow10(delta - 4))
  {
    var exact := balance * (basisPoints * Pow10(delta - 4));
    assert Pow10(delta) == 10_000 * Pow10(delta - 4) by {
      Pow10Sum(4, delta - 4);
    }
    Regroup(balance, basisPoints, Pow10(delta - 4));
    assert Numerator(balance, delta, basisPoints) == exact * 10_000;
    forall q
      ensures IsRounded(mode, exact * 10_000, 10_000, q) <==> q == exact
    {
    }
  }

  lemma Regroup(a: nat, b: nat, c: nat)
    ensures a * b * (10_000 * c) == a * (b * c) * 10_000
  {
  }

  /** Fewer than four extra decimals leave the denominator 10^(4 - delta). */
  lemma Rescaled(mode: MoneyRounding, balance: nat, delta: nat, basisPoints: nat, q: int)
    requires delta < 4
    ensures IsRounded(mode, Numerator(balance, delta, basisPoints), 10_000, q)
            <==> IsRounded(mode, Share(balance, basisPoints), Denominator(delta), q)
  {
    Pow10Sum(4 - delta, delta);
    assert Pow10(4) == 10_000;
    ScaledRounding(mode, Share(balance, basisPoints), Denominator(delta), Pow10(delta), q);
  }

  /** Scaling numerator and denominator alike does not change the rounded quotient. */
  lemma ScaledRounding(mode: MoneyRounding, n: nat, d: nat, k: nat, q: int)
    requires k >= 1
    ensures IsRounded(mode, n * k, d * k, q) <==> IsRounded(mode, n, d, q)
  {
    match mode
    case Down =>
      ScaledOrder(q, n, d, k);
      ScaledOrder(q + 1, n, d, k);
    case Up =>
      ScaledOrder(q, n, d, k);
      ScaledOrder(q - 1, n, d, k);
    case HalfUp =>
      ScaledOrder(2 * q - 1, 2 * n, d, k);
      ScaledOrder(2 * q + 1, 2 * n, d, k);
      Twice(n, k);
  }

  lemma ScaledOrder(q: int, n: nat, d: nat, k: nat)
    requires k >= 1
    ensures q * (d * k) <= n * k <==> q * d <= n
    ensures q * (d * k) < n * k <==> q * d < n
  {
    Associate(q, d, k);
    if q * d <= n {
      Ordered(q * d, n, k);
    } else {
      Ordered(n + 1, q * d, k);
    }
    if q * d < n {
      Ordered(q * d + 1, n, k);
    } else {
      Ordered(n, q * d, k);
    }
  }

  method Multiplied(balance: uint64, delta: uint8, basisPoints: uint64) returns (product: Option<int64>)
    requires 4 <= delta <= MAX_MONEY_PRECISION && 0 < basisPoints <= 10_000
    ensures var exact := balance as nat * (basisPoints as nat * Pow10(delta as nat - 4));
            if exact <= INT64_MAX then product.Some? && product.value as int == exact else product.None?
  {
    var factor := PowerOfTen(delta - 4);
    Pow10Grows(delta as nat - 4, 14);
    assert Pow10(14) == 100_000_000_000_000;
    ScaleBy(basisPoints as nat, 10_000, factor as nat);
    var multiplier := basisPoints * factor;
    var maxValue: uint64 := 0x7fff_ffff_ffff_ffff;
    QuotientGuard(balance as nat, multiplier as nat, maxValue as nat);
    if balance > maxValue / multiplier {
      return None;
    }
    return Some((balance * multiplier) as int64);
  }

  function Share(balance: nat, basisPoints: nat): nat {
    balance * basisPoints
  }

  /** What rounding adds to the floor. */
  function Carry(mode: MoneyRounding, fractional: nat, denominator: nat): nat {
    match mode
    case Down => 0
    case Up => if fractional != 0 then 1 else 0
    case HalfUp => if fractional >= denominator / 2 then 1 else 0
  }

  /** A number with a known floor and remainder rounds to the floor plus the carry, and to nothing else. */
  lemma RoundedIs(mode: MoneyRounding, n: nat, denominator: nat, floor: nat, fractional: nat)
    requires denominator >= 2 && denominator % 2 == 0
    requires n == floor * denominator + fractional && fractional < denominator
    ensures forall q :: IsRounded(mode, n, denominator, q) <==> q == floor + Carry(mode, fractional, denominator)
  {
    var q := floor + Carry(mode, fractional, denominator);
    Twice(floor, denominator);
    Twice(floor + 1, denominator);
    Next(floor, denominator);
    assert IsRounded(mode, n, denominator, q);
    forall r | IsRounded(mode, n, denominator, r)
      ensures r == q
    {
      RoundedUnique(mode, n, denominator, r, q);
    }
  }

  lemma Next(x: int, k: nat)
    ensures (x + 1) * k == x * k + k
    ensures (2 * (x + 1) - 1) * k == 2 * (x * k) + k
    ensures (2 * x - 1) * k == 2 * (x * k) - k
    ensures (x - 1) * k == x * k - k
    ensures (2 * (x + 1) + 1) * k == 2 * (x * k) + 3 * k
    ensures (x + 1 + 1) * k == x * k + 2 * k
  {
  }

  /** The floor of the share, from the parts of the balance. */
  lemma FloorOfShare(
    balance: nat, basisPoints: nat, denominator: nat, whole: nat, remainder: nat, integral: nat, fractional: nat)
    requires balance == whole * denominator + remainder
    requires remainder * basisPoints == integral * denominator + fractional
    ensures Share(balance, basisPoints) == (whole * basisPoints + integral) * denominator + fractional
  {
    assert Share(balance, basisPoints) == whole * denominator * basisPoints + remainder * basisPoints;
    Reorder(whole, denominator, basisPoints);
  }

  lemma ShareRounds(
    mode: MoneyRounding, balance: nat, basisPoints: nat, denominator: nat,
    whole: nat, remainder: nat, integral: nat, fractional: nat)
    requires denominator >= 2 && denominator % 2 == 0
    requires balance == whole * denominator + remainder
    requires remainder * basisPoints == integral * denominator + fractional && fractional < denominator
    ensures forall q :: IsRounded(mode, Share(balance, basisPoints), denominator, q)
                        <==> q == whole * basisPoints + integral + Carry(mode, fractional, denominator)
  {
    FloorOfShare(balance, basisPoints, denominator, whole, remainder, integral, fractional);
    RoundedIs(mode, Share(balance, basisPoints), denominator, whole * basisPoints + integral, fractional);
  }

  lemma ShareAtLeast(
    mode: MoneyRounding, balance: nat, basisPoints: nat, denominator: nat, whole: nat, remainder: nat)
    requires denominator >= 2 && denominator % 2 == 0
    requires balance == whole * denominator + remainder
    ensures forall q :: IsRounded(mode, Share(balance, basisPoints), denominator, q) ==> q >= whole * basisPoints
  {
    var (integral, fractional) := SplitUnits(remainder * basisPoints, denominator);
    ShareRounds(mode, balance, basisPoints, denominator, whole, remainder, integral, fractional);
  }

  function Denominator(delta: nat): nat
    requires delta < 4
  {
    Pow10(4 - delta)
  }

  /** Splits the balance at the denominator so that no product leaves the word. */
  method Divided(balance: uint64, delta: uint8, basisPoints: uint64, rounding: MoneyRounding)
    returns (result: Option<int64>)
    requires delta < 4 && 0 < basisPoints <= 10_000 && balance as int <= INT64_MAX
    ensures IsSize(rounding, Share(balance as nat, basisPoints as nat), Denominator(delta as nat), result)
  {
    var denominator := PowerOfTen(4 - delta);
    Denominators(4 - delta as nat);
    assert denominator as nat == Denominator(delta as nat);
    hide IsRounded, Share, Pow10, Carry, Denominator;
    var maxValue: uint64 := 0x7fff_ffff_ffff_ffff;
    var whole, remainder := SplitWord(balance, denominator);
    QuotientGuard(whole as nat, basisPoints as nat, maxValue as nat);
    if whole > maxValue / basisPoints {
      ShareAtLeast(rounding, balance as nat, basisPoints as nat, denominator as nat, whole as nat, remainder as nat);
      return None;
    }
    var units := whole * basisPoints;
    ScaleBy(remainder as nat, 9_999, basisPoints as nat);
    var remainderProduct := remainder * basisPoints;
    var integralRemainder, fractional := SplitWord(remainderProduct, denominator);
    ShareRounds(rounding, balance as nat, basisPoints as nat, denominator as nat,
                whole as nat, remainder as nat, integralRemainder as nat, fractional as nat);
    if units > maxValue - integralRemainder {
      return None;
    }
    units := units + integralRemainder;
    result := Rounded(units, fractional, denominator, rounding);
  }

  lemma Denominators(k: nat)
    requires 1 <= k <= 4
    ensures Pow10(k) in {10, 100, 1_000, 10_000}
  {
    assert Pow10(1) == 10 && Pow10(2) == 100 && Pow10(3) == 1_000 && Pow10(4) == 10_000;
  }

  method SplitWord(value: uint64, denominator: uint64) returns (quotient: uint64, remainder: uint64)
    requires denominator >= 1
    ensures value as int == quotient as int * denominator as int + remainder as int && remainder < denominator
  {
    quotient, remainder := value / denominator, value % denominator;
  }

  /** Adds the carry, if the sum is still representable. */
  method Rounded(floor: uint64, fractional: uint64, denominator: uint64, rounding: MoneyRounding)
    returns (result: Option<int64>)
    requires floor as int <= INT64_MAX && denominator >= 2
    ensures var exact := floor as int + Carry(rounding, fractional as nat, denominator as nat);
            if exact <= INT64_MAX then result.Some? && result.value as int == exact else result.None?
  {
    var maxValue: uint64 := 0x7fff_ffff_ffff_ffff;
    if rounding == Up && fractional != 0 {
      if floor == maxValue {
        return None;
      }
      return Some((floor + 1) as int64);
    } else if rounding == HalfUp && fractional >= denominator / 2 {
      if floor == maxValue {
        return None;
      }
      return Some((floor + 1) as int64);
    }
    return Some(floor as int64);
  }

  // The policy.

  datatype Availability = Supported | Unavailable | Stale | AvailabilityUnknown

  datatype AccountContext = AccountContext(
    availability: Availability, balance: Option<MoneyAmount>, currency: CurrencyType)

  datatype SizingReason =
    | InvalidPercent | BalanceUnavailable | BalanceStale | BalanceUnknown | MissingBalance | InvalidAmount
    | UnknownCurrency | WrongCurrency | NegativeBalance | ZeroBalance | TooPrecise | TooLarge
    | ZeroResult

  datatype SizingDecision =
    Sized(amount: MoneyAmount) | Refused(reason: SizingReason) | NotAvailable(reason: SizingReason)

  /** A policy made from basis points. */
  datatype PercentOfBalance = PercentOfBalance(basisPoints: int64, outputPrecision: uint8, rounding: MoneyRounding) {
    predicate Valid() {
      0 < basisPoints <= 10_000 && outputPrecision <= MAX_MONEY_PRECISION
    }
  }

  /** The account knows a positive balance in a known currency that the policy can express. */
  predicate Usable(policy: PercentOfBalance, account: AccountContext) {
    && policy.Valid() && account.availability.Supported? && account.balance.Some?
    && account.balance.value.ValidMetadata() && account.currency == account.balance.value.currency
    && account.balance.value.units > 0 && account.balance.value.precision <= policy.outputPrecision
  }

  /** The percentage of the balance, times 10^4, in units of the output precision. */
  function Percentage(policy: PercentOfBalance, balance: MoneyAmount): nat
    requires policy.Valid() && balance.units > 0 && balance.precision <= policy.outputPrecision
  {
    Numerator(balance.units as nat, (policy.outputPrecision - balance.precision) as nat, policy.basisPoints as nat)
  }

  /**
   * A stake is sized exactly when the account is usable and the rounded percentage is a positive signed
   * word; it is that percentage, and never more than the balance.
   */
  method Evaluate(policy: PercentOfBalance, account: AccountContext) returns (decision: SizingDecision)
    ensures !Usable(policy, account) ==>
      !decision.Sized? && decision.reason != TooLarge && decision.reason != ZeroResult
    ensures decision == Refused(InvalidPercent) <==> !policy.Valid()
    ensures policy.Valid() ==>
      && (decision == NotAvailable(BalanceUnavailable) <==> account.availability.Unavailable?)
      && (decision == NotAvailable(BalanceStale) <==> account.availability.Stale?)
      && (decision == NotAvailable(BalanceUnknown) <==> account.availability.AvailabilityUnknown?)
      && (decision == NotAvailable(MissingBalance) <==> account.availability.Supported? && account.balance.None?)
    ensures policy.Valid() && account.availability.Supported? && account.balance.Some? ==>
      var balance := account.balance.value;
      && (decision == Refused(InvalidAmount) <==> balance.precision > MAX_MONEY_PRECISION)
      && (decision == Refused(UnknownCurrency) <==>
            balance.precision <= MAX_MONEY_PRECISION && balance.currency == UNKNOWN)
      && (balance.ValidMetadata() ==>
            && (decision == NotAvailable(UnknownCurrency) <==> account.currency == UNKNOWN)
            && (decision == Refused(WrongCurrency) <==>
                  account.currency != UNKNOWN && account.currency != balance.currency)
            && (account.currency == balance.currency ==>
                  && (decision == Refused(NegativeBalance) <==> balance.units < 0)
                  && (decision == Refused(ZeroBalance) <==> balance.units == 0)
                  && (decision == Refused(TooPrecise) <==>
                        balance.units > 0 && policy.outputPrecision < balance.precision)))
    ensures decision.Sized? ==>
      && Usable(policy, account)
      && var balance := account.balance.value;
      && decision.amount.currency == balance.currency && decision.amount.precision == policy.outputPrecision
      && decision.amount.units > 0
      && IsRounded(policy.rounding, Percentage(policy, balance), 10_000, decision.amount.units as int)
      && decision.amount.units as int <=
         balance.units as int * Pow10((policy.outputPrecision - balance.precision) as nat)
    ensures Usable(policy, account) && !decision.Sized? ==>
      && var exact := Percentage(policy, account.balance.value);
      && decision in {Refused(TooLarge), Refused(ZeroResult)}
      && (decision == Refused(TooLarge) ==>
            forall q :: IsRounded(policy.rounding, exact, 10_000, q) ==> q > INT64_MAX)
      && (decision == Refused(ZeroResult) ==> IsRounded(policy.rounding, exact, 10_000, 0))
  {
    if !policy.Valid() {
      return Refused(InvalidPercent);
    }
    match account.availability {
      case Supported =>
      case Unavailable => return NotAvailable(BalanceUnavailable);
      case Stale => return NotAvailable(BalanceStale);
      case AvailabilityUnknown => return NotAvailable(BalanceUnknown);
    }
    if account.balance.None? {
      return NotAvailable(MissingBalance);
    }
    var balance := account.balance.value;
    if balance.precision > MAX_MONEY_PRECISION {
      return Refused(InvalidAmount);
    }
    if balance.currency == UNKNOWN {
      return Refused(UnknownCurrency);
    }
    if account.currency == UNKNOWN {
      return NotAvailable(UnknownCurrency);
    }
    if account.currency != balance.currency {
      return Refused(WrongCurrency);
    }
    if balance.units < 0 {
      return Refused(NegativeBalance);
    }
    if balance.units == 0 {
      return Refused(ZeroBalance);
    }
    if policy.outputPrecision < balance.precision {
      return Refused(TooPrecise);
    }
    hide IsRounded, Numerator;
    var calculated := PercentageUnits(
      balance.units, balance.precision, policy.outputPrecision, policy.basisPoints, policy.rounding);
    if calculated.None? {
      return Refused(TooLarge);
    }
    NotNegative(policy.rounding, Percentage(policy, balance), calculated.value as int);
    if calculated.value <= 0 {
      return Refused(ZeroResult);
    }
    NeverAboveBalance(policy.rounding, balance.units as nat, (policy.outputPrecision - balance.precision) as nat,
                      policy.basisPoints as nat, calculated.value as int);
    return Sized(MoneyAmount(calculated.value, policy.outputPrecision, balance.currency));
  }

  lemma NotNegative(mode: MoneyRounding, numerator: nat, q: int)
    requires IsRounded(mode, numerator, 10_000, q)
    ensures q >= 0
  {
  }
}
