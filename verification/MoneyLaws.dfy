/** Which texts are amounts, what an amount prints as, and what the percentages of a balance are. */
module MoneyLaws {
  import opened Common
  import opened Settlement
  import opened Decimal
  import opened Money
  import opened Sizing

  /** Decimal notation: ten digits, each place worth ten times the next. */
  lemma NotationExactly(digits: string, c: char, k: nat)
    requires AllDigits(digits)
    ensures IsDigit(c) <==> c in {'0', '1', '2', '3', '4', '5', '6', '7', '8', '9'}
    ensures Pow10(0) == 1 && Pow10(k + 1) == 10 * Pow10(k)
    ensures Value("") == 0
    ensures IsDigit(c) ==>
      AllDigits(digits + [c]) && Value(digits + [c]) == 10 * Value(digits) + (c as int - '0' as int)
  {
    if IsDigit(c) {
      assert (digits + [c])[..|digits|] == digits;
    }
  }

  predicate IsSign(sign: string) {
    sign in {"", "+", "-"}
  }

  /** An optional sign, digits and perhaps a dot and more digits, but not without any digit. */
  predicate IsForm(text: string, sign: string, whole: string, fraction: string) {
    && IsSign(sign) && AllDigits(whole) && AllDigits(fraction)
    && (whole != "" || fraction != "")
    && (text == sign + whole + "." + fraction || (fraction == "" && text == sign + whole))
  }

  /** A text of this form denotes its digits scaled to the precision, and only that. */
  lemma FormsDenote(text: string, sign: string, whole: string, fraction: string, precision: nat, units: int)
    requires IsForm(text, sign, whole, fraction)
    ensures Denotes(text, precision, units) <==>
      (if sign == "-" then -units else units) * Pow10(|fraction|) == Value(whole + fraction) * Pow10(precision)
  {
    FormIsSpelled(text, sign, whole, fraction);
    var n := if Negative(text) then -units else units;
    if Denotes(text, precision, units) {
      var w, f :| Spells(text, w, f) && ScalesTo(w, f, precision, n);
      SpellsUnique(text, w, f, whole, fraction);
    }
    if n * Pow10(|fraction|) == Value(whole + fraction) * Pow10(precision) {
      DenotesBy(text, whole, fraction, precision, units);
    }
    hide Spells, Pow10, Value;
  }

  lemma FormIsSpelled(text: string, sign: string, whole: string, fraction: string)
    requires IsForm(text, sign, whole, fraction)
    ensures Spells(text, whole, fraction) && (Negative(text) <==> sign == "-")
  {
    var body := if text == sign + whole + "." + fraction then whole + "." + fraction else whole;
    assert text == sign + body;
    assert body[0] == if whole == "" then '.' else whole[0];
    assert sign != "" ==> text[0] == sign[0] && text[1..] == body;
    assert Unsigned(text) == body;
  }

  /** No other text denotes anything. */
  lemma OnlyFormsDenote(text: string, precision: nat, units: int)
    returns (sign: string, whole: string, fraction: string)
    requires Denotes(text, precision, units)
    ensures IsForm(text, sign, whole, fraction)
  {
    whole, fraction :| Spells(text, whole, fraction)
                       && ScalesTo(whole, fraction, precision, if Negative(text) then -units else units);
    sign := if HasSign(text) then [text[0]] else "";
    hide Pow10, Value, ScalesTo, Spells;
    SpelledIsForm(text, sign, whole, fraction);
  }

  lemma SpelledIsForm(text: string, sign: string, whole: string, fraction: string)
    requires Spells(text, whole, fraction) && sign == if HasSign(text) then [text[0]] else ""
    ensures IsForm(text, sign, whole, fraction)
  {
    assert text == sign + Unsigned(text);
    if Unsigned(text) == whole + "." + fraction {
      assert sign + (whole + "." + fraction) == sign + whole + "." + fraction;
    }
  }

  /** Some texts and what they are worth in hundredths. */
  lemma TextsInHundredths()
    ensures Denotes("+12.5", 2, 1250) && Denotes("-.05", 2, -5) && Denotes("7.", 2, 700) && Denotes("7", 2, 700)
  {
    assert Pow10(0) == 1 && Pow10(1) == 10 && Pow10(2) == 100;
    SmallValues();
    FormsDenote("+12.5", "+", "12", "5", 2, 1250);
    FormsDenote("-.05", "-", "", "05", 2, -5);
    FormsDenote("7.", "", "7", "", 2, 700);
    FormsDenote("7", "", "7", "", 2, 700);
    hide Denotes;
  }

  /** And some that are worth nothing: a digit too many, no digit at all. */
  lemma TextsWithoutAmount(units: int)
    ensures !Denotes("0.125", 2, units) && !Denotes(".", 2, units) && !Denotes("", 2, units)
  {
    assert Pow10(2) == 100 && Pow10(3) == 1000;
    SmallValues();
    FormsDenote("0.125", "", "0", "125", 2, units);
    NoDigitsNoAmount(units);
    hide Denotes;
  }

  lemma SmallValues()
    ensures Value("12" + "5") == 125 && Value("" + "05") == 5 && Value("7" + "") == 7 && Value("0" + "125") == 125
  {
    assert "12" + "5" == "125" && "" + "05" == "05" && "7" + "" == "7" && "0" + "125" == "0125";
    assert "125"[..2] == "12" && "12"[..1] == "1" && "05"[..1] == "0" && "0125"[..3] == "012" && "012"[..2] == "01";
    assert "1"[..0] == "" && "0"[..0] == "" && "7"[..0] == "" && "01"[..1] == "0";
    assert Value("1") == 1 && Value("12") == 12 && Value("0") == 0 && Value("01") == 1 && Value("012") == 12;
  }

  lemma NoDigitsNoAmount(units: int)
    ensures !Denotes(".", 2, units) && !Denotes("", 2, units)
  {
    if Denotes(".", 2, units) {
      var sign, whole, fraction := OnlyFormsDenote(".", 2, units);
    }
    if Denotes("", 2, units) {
      var sign, whole, fraction := OnlyFormsDenote("", 2, units);
    }
  }

  /**
   * A valid amount prints as an optional minus, its whole part without leading zeros and exactly as many
   * decimals as its precision, after a dot if there are any.
   */
  lemma PrintedShape(m: MoneyAmount) returns (whole: string, fraction: string)
    ensures !m.ValidMetadata() ==> ToDecimal(m) == ""
    ensures m.ValidMetadata() ==>
      && ToDecimal(m) ==
         (if m.units < 0 then "-" else "") + (if m.precision == 0 then whole else whole + "." + fraction)
      && AllDigits(whole) && AllDigits(fraction)
      && |fraction| == m.precision as int
      && |whole| >= 1 && (|whole| > 1 ==> whole[0] != '0')
      && Value(whole) * Pow10(m.precision as nat) + Value(fraction) ==
         (if m.units < 0 then -(m.units as int) else m.units as int)
  {
    whole, fraction := "", "";
    if m.ValidMetadata() {
      assert Pow10(0) == 1 && Value("") == 0;
      hide Digits, PaddedDigits, SplitUnits, Pow10, Value;
      var (w, f) := SplitUnits(AbsoluteUnits(m), Pow10(m.precision as nat));
      whole, fraction := Digits(w), if m.precision == 0 then "" else PaddedDigits(f, m.precision as nat);
      NoLeadingZero(w);
    }
  }

  lemma {:induction false} NoLeadingZero(n: nat)
    ensures |Digits(n)| > 1 ==> Digits(n)[0] != '0'
    ensures n > 0 ==> Digits(n)[0] != '0'
    decreases n
  {
    if n >= 10 {
      NoLeadingZero(n / 10);
      assert Digits(n)[0] == Digits(n / 10)[0];
    }
  }

  // Percentages.

  /** The three roundings as quotients: towards zero, away from it, and to the nearest with ties away. */
  lemma RoundedExactly(numerator: nat, denominator: nat, q: int)
    requires denominator >= 1
    ensures IsRounded(Down, numerator, denominator, q) <==> q == numerator / denominator
    ensures IsRounded(Up, numerator, denominator, q) <==> q == (numerator + denominator - 1) / denominator
    ensures IsRounded(HalfUp, numerator, denominator, q) <==>
      q == (2 * numerator + denominator) / (2 * denominator)
  {
    Quotient(numerator, denominator, q);
    Quotient(numerator + denominator - 1, denominator, q);
    Quotient(2 * numerator + denominator, 2 * denominator, q);
    Spread(q, denominator);
  }

  lemma Spread(q: int, d: int)
    ensures (q - 1) * d == q * d - d && (q + 1) * d == q * d + d
    ensures (2 * q - 1) * d == 2 * (q * d) - d && (2 * q + 1) * d == 2 * (q * d) + d
    ensures q * (2 * d) == 2 * (q * d) && (q + 1) * (2 * d) == 2 * (q * d) + 2 * d
  {
  }

  lemma Quotient(n: int, d: int, q: int)
    requires d >= 1
    ensures q * d <= n < (q + 1) * d <==> q == n / d
  {
    var p := n / d;
    assert n == p * d + n % d;
    Spread(p, d);
    if q * d <= n < (q + 1) * d {
      if q < p {
        Ordered(q + 1, p, d as nat);
      } else if q > p {
        Ordered(p + 1, q, d as nat);
      }
    }
  }

  /** The percentage is proportional: all basis points make the whole balance in the output precision. */
  lemma PercentagesExactly(balance: nat, delta: nat, basisPoints: nat)
    ensures Numerator(balance, delta, 10_000) == balance * Pow10(delta) * 10_000
    ensures Numerator(balance, delta, basisPoints) * 10_000 == Numerator(balance, delta, 10_000) * basisPoints
    ensures forall mode :: IsRounded(mode, Numerator(balance, delta, 10_000), 10_000, balance * Pow10(delta))
  {
    Reorder(balance, basisPoints, Pow10(delta));
    Reorder(balance, 10_000, Pow10(delta));
    var whole := balance * Pow10(delta);
    Exchange(whole, basisPoints, 10_000);
    forall mode
      ensures IsRounded(mode, Numerator(balance, delta, 10_000), 10_000, whole)
    {
    }
  }

  lemma Exchange(a: nat, b: nat, c: nat)
    ensures a * b * c == a * c * b
  {
  }

  /** Half a cent is rounded down, away or to the upper neighbour, as the mode says. */
  lemma HalfACent()
    ensures IsRounded(Down, Numerator(50, 0, 100), 10_000, 0)
    ensures IsRounded(HalfUp, Numerator(50, 0, 100), 10_000, 1)
    ensures IsRounded(Up, Numerator(50, 0, 100), 10_000, 1)
    ensures IsRounded(HalfUp, Numerator(49, 0, 100), 10_000, 0)
    ensures IsRounded(Up, Numerator(1, 0, 1), 10_000, 1)
  {
  }

  /** What can be sized at all, and what a policy may say. */
  lemma PoliciesExactly(balance: int64, precision: uint8, policy: PercentOfBalance)
    ensures policy.Valid() <==> 1 <= policy.basisPoints <= 10_000 && policy.outputPrecision as int <= 18
    ensures Sizable(balance, precision, policy.outputPrecision, policy.basisPoints) <==>
      policy.Valid() && balance >= 0 && precision <= policy.outputPrecision
  {
  }
}
