/** Exact signed summation with two-limb magnitudes. */
module Accumulator {
  import opened Common

  const TWO_128: int := TWO_64 * TWO_64

  /** A 128-bit unsigned magnitude in two limbs. Limb arithmetic wraps, as `std::uint64_t` does. */
  class Magnitude {
    var low: uint64
    var high: uint64

    constructor ()
      ensures Value() == 0
    {
      low, high := 0, 0;
    }

    ghost function Value(): int
      reads this
    {
      high as int * TWO_64 + low as int
    }

    /** Adds one word; the carry out of the low limb is recovered from the wrapped sum. */
    method Add(units: uint64)
      modifies this
      ensures Value() == if old(Value()) + units as int < TWO_128
                         then old(Value()) + units as int
                         else old(Value()) + units as int - TWO_128
    {
      var previous := low;
      low := WrappingAdd(low, units);
      if low < previous {
        high := WrappingAdd(high, 1);
      }
    }

    method LessThan(other: Magnitude) returns (less: bool)
      ensures less <==> Value() < other.Value()
    {
      less := high < other.high || (high == other.high && low < other.low);
    }

    /** Subtracts limb by limb with a borrow: exact, or off by 2^128 when the difference is negative. */
    method Subtract(other: Magnitude) returns (difference: Magnitude)
      ensures fresh(difference)
      ensures difference.Value() == Value() - other.Value() + if other.Value() <= Value() then 0 else TWO_128
    {
      difference := new Magnitude();
      difference.low := WrappingSubtract(low, other.low);
      var highDifference := WrappingSubtract(high, other.high);
      difference.high := WrappingSubtract(highDifference, if low < other.low then 1 else 0);
    }
  }

  /** Positive and negative contributions summed apart and subtracted once. */
  class NetAccumulator {
    const positive: Magnitude
    const negative: Magnitude

    constructor ()
      ensures fresh(positive) && fresh(negative)
      ensures Valid() && Net() == 0 && Within(0)
    {
      positive := new Magnitude();
      negative := new Magnitude();
    }

    ghost predicate Valid() {
      positive != negative
    }

    ghost function Net(): int
      reads positive, negative
    {
      positive.Value() - negative.Value()
    }

    /** Neither magnitude exceeds what `count` signed words can contribute. */
    ghost predicate Within(count: int)
      reads positive, negative
    {
      positive.Value() <= count * TWO_63 && negative.Value() <= count * TWO_63
    }

    /** No bit is lost in any of the first 2^32 - 1 additions, whatever their signs. */
    method Add(units: int64, ghost count: int)
      requires Valid() && 0 <= count < UINT32_MAX && Within(count)
      modifies positive, negative
      ensures Net() == old(Net()) + units as int
      ensures Within(count + 1)
    {
      if units < 0 {
        negative.Add((-(units + 1)) as uint64 + 1);
      } else {
        positive.Add(units as uint64);
      }
    }

    /** Narrows to a signed word: succeeds exactly when the mathematical net fits. */
    method ToUnits() returns (units: Option<int64>)
      requires Valid()
      ensures units.Some? <==> FitsInt64(Net())
      ensures units.Some? ==> units.value as int == Net()
    {
      var isNegative := positive.LessThan(negative);
      var magnitude: Magnitude;
      if isNegative {
        magnitude := negative.Subtract(positive);
      } else {
        magnitude := positive.Subtract(negative);
      }
      var maximum: uint64 := 0x7fff_ffff_ffff_ffff;
      if magnitude.high != 0 || magnitude.low > maximum + (if isNegative then 1 else 0) {
        return None;
      }
      if isNegative && magnitude.low == maximum + 1 {
        return Some(-0x8000_0000_0000_0000);
      }
      var value := magnitude.low as int64;
      return Some(if isNegative then -value else value);
    }
  }
}
