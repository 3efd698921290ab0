/** Fixed-point money text: a bounded parser and printer, and what the text denotes. */
module Money {
  import opened Common
  import opened Settlement
  import opened Decimal

  predicate HasSign(text: string) {
    text != "" && (text[0] == '+' || text[0] == '-')
  }

  predicate Negative(text: string) {
    text != "" && text[0] == '-'
  }

  function Unsigned(text: string): string {
    if HasSign(text) then text[1..] else text
  }

  /** sign? digits* (. digits*)? with at least one digit. */
  predicate Spells(text: string, whole: string, fraction: string) {
    && AllDigits(whole) && AllDigits(fraction)
    && |whole| + |fraction| > 0
    && (Unsigned(text) == whole + "." + fraction || (fraction == "" && Unsigned(text) == whole))
  }

  /** The digits of `whole.fraction`, scaled by 10^precision, make exactly `n` units. */
  predicate ScalesTo(whole: string, fraction: string, precision: nat, n: int)
    requires AllDigits(whole) && AllDigits(fraction)
  {
    n * Pow10(|fraction|) == Value(whole + fraction) * Pow10(precision)
  }

  /** The text is a decimal whose value times 10^precision is exactly `units`. */
  ghost predicate Denotes(text: string, precision: nat, units: int) {
    exists whole, fraction ::
      Spells(text, whole, fraction)
      && ScalesTo(whole, fraction, precision, if Negative(text) then -units else units)
  }

  /** What a correct parse is, said without an algorithm. */
  ghost predicate IsParse(text: string, currency: CurrencyType, precision: uint8, r: Option<MoneyAmount>) {
    if precision > MAX_MONEY_PRECISION || currency == UNKNOWN then r == None
    else
      match r
      case Some(m) => m.precision == precision && m.currency == currency
                      && Denotes(text, precision as nat, m.units as int)
      case None => forall units :: FitsInt64(units) ==> !Denotes(text, precision as nat, units)
  }

  /** `std::string::find` for one character. */
  function Find(text: string, c: char, from: nat): (r: Option<nat>)
    requires from <= |text|
    ensures r.Some? ==> from <= r.value < |text| && text[r.value] == c
                        && forall i :: from <= i < r.value ==> text[i] != c
    ensures r.None? ==> forall i :: from <= i < |text| ==> text[i] != c
    decreases |text| - from
  {
    if from == |text| then None
    else if text[from] == c then Some(from)
    else Find(text, c, from + 1)
  }

  /** The digits of a decimal are what stands before and after its first dot. */
  lemma SpellsDot(text: string, whole: string, fraction: string)
    requires Spells(text, whole, fraction)
    ensures var body := Unsigned(text);
            match Find(body, '.', 0)
            case Some(k) => whole == body[..k] && fraction == body[k + 1..]
            case None => whole == body && fraction == ""
  {
    var body := Unsigned(text);
    if body == whole + "." + fraction {
      FirstDot(whole, fraction, 0);
      assert whole == body[..|whole|] && fraction == body[|whole| + 1..];
    }
  }

  lemma {:induction false} FirstDot(whole: string, fraction: string, from: nat)
    requires AllDigits(whole) && from <= |whole|
    ensures Find(whole + "." + fraction, '.', from) == Some(|whole|)
    decreases |whole| - from
  {
    var body := whole + "." + fraction;
    if from < |whole| {
      assert body[from] == whole[from];
      FirstDot(whole, fraction, from + 1);
    }
  }

  /** The text determines its digits. */
  lemma SpellsUnique(text: string, whole: string, fraction: string, whole': string, fraction': string)
    requires Spells(text, whole, fraction) && Spells(text, whole', fraction')
    ensures whole == whole' && fraction == fraction'
  {
    SpellsDot(text, whole, fraction);
    SpellsDot(text, whole', fraction');
  }

  /** The fraction digits that the precision can hold, and those beyond it. */
  function Kept(fraction: string, precision: nat): string {
    if |fraction| > precision then fraction[..precision] else fraction
  }

  function Dropped(fraction: string, precision: nat): string {
    if |fraction| > precision then fraction[precision..] else ""
  }

  function Magnitude(whole: string, fraction: string, precision: nat): nat
    requires AllDigits(whole) && AllDigits(fraction)
  {
    var kept := Kept(fraction, precision);
    Value(whole) * Pow10(precision) + Value(kept) * Pow10(precision - |kept|)
  }

  lemma CancelFactor(a: int, b: int, k: nat)
    requires k >= 1 && a * k == b * k
    ensures a == b
  {
  }

  /** With only zeros beyond the precision, the scaled value is the magnitude and nothing else. */
  lemma ExactMagnitude(whole: string, fraction: string, precision: nat, n: int)
    requires AllDigits(whole) && AllDigits(fraction)
    requires AllZeros(Dropped(fraction, precision))
    ensures ScalesTo(whole, fraction, precision, n) <==> n == Magnitude(whole, fraction, precision)
  {
    MagnitudeScales(whole, fraction, precision);
    if ScalesTo(whole, fraction, precision, n) {
      ScalesUnique(whole, fraction, precision, n, Magnitude(whole, fraction, precision));
    }
    hide ScalesTo, Magnitude;
  }

  lemma ScalesUnique(whole: string, fraction: string, precision: nat, a: int, b: int)
    requires AllDigits(whole) && AllDigits(fraction)
    requires ScalesTo(whole, fraction, precision, a) && ScalesTo(whole, fraction, precision, b)
    ensures a == b
  {
    CancelFactor(a, b, Pow10(|fraction|));
  }

  lemma MagnitudeScales(whole: string, fraction: string, precision: nat)
    requires AllDigits(whole) && AllDigits(fraction)
    requires AllZeros(Dropped(fraction, precision))
    ensures ScalesTo(whole, fraction, precision, Magnitude(whole, fraction, precision))
  {
    KeptTimes(fraction, precision);
    ValueConcat(whole, fraction);
    var kept := Kept(fraction, precision);
    RegroupScaled(Value(whole), Pow10(precision), Value(kept) * Pow10(precision - |kept|),
                  Pow10(|fraction|), Value(fraction));
    hide Pow10, Value, Kept;
  }

  lemma RegroupScaled(w: int, p: int, rest: int, q: int, v: int)
    requires rest * q == v * p
    ensures (w * p + rest) * q == (w * q + v) * p
  {
  }

  /** Padding the kept digits to the precision is the same as scaling the whole fraction. */
  lemma KeptTimes(fraction: string, precision: nat)
    requires AllDigits(fraction) && AllZeros(Dropped(fraction, precision))
    ensures var kept := Kept(fraction, precision);
            Value(kept) * Pow10(precision - |kept|) * Pow10(|fraction|) == Value(fraction) * Pow10(precision)
  {
    var kept, dropped := Kept(fraction, precision), Dropped(fraction, precision);
    if |fraction| <= precision {
      Pow10Sum(precision - |fraction|, |fraction|);
      Associate(Value(kept), Pow10(precision - |fraction|), Pow10(|fraction|));
    } else {
      assert fraction == kept + dropped;
      ValueConcat(kept, dropped);
      ValueZero(dropped);
      Pow10Sum(precision, |dropped|);
      assert Pow10(precision - |kept|) == 1;
      Shuffle(Value(kept), Pow10(|dropped|), Pow10(precision));
    }
  }

  lemma Shuffle(a: int, b: int, c: int)
    ensures a * (c * b) == a * b * c
  {
  }

  /** A nonzero digit beyond the precision leaves no integer number of units. */
  lemma InexactFraction(whole: string, fraction: string, precision: nat, n: int)
    requires AllDigits(whole) && AllDigits(fraction)
    requires !AllZeros(Dropped(fraction, precision))
    ensures !ScalesTo(whole, fraction, precision, n)
  {
    if ScalesTo(whole, fraction, precision, n) {
      var dropped := Dropped(fraction, precision);
      var head := whole + fraction[..precision];
      assert whole + fraction == head + dropped;
      ValueConcat(head, dropped);
      ValueZero(dropped);
      ValueBound(dropped);
      Pow10Sum(precision, |dropped|);
      Shuffle(n, Pow10(|dropped|), Pow10(precision));
      CancelFactor(n * Pow10(|dropped|), Value(whole + fraction), Pow10(precision));
      NotMultiple(n, Value(head), Pow10(|dropped|), Value(dropped));
    }
  }

  lemma NotMultiple(n: int, h: int, k: nat, r: nat)
    requires 0 < r < k
    ensures n * k != h * k + r
  {
    if n <= h {
      ProductOrder(n, h, k);
    } else {
      ProductOrder(h + 1, n, k);
      NextMultiple(h, k);
    }
  }

  lemma ProductOrder(a: int, b: int, k: nat)
    requires a <= b
    ensures a * k <= b * k
  {
  }

  lemma NextMultiple(h: int, k: nat)
    ensures (h + 1) * k == h * k + k
  {
  }

  /** Ten to a precision; every precision a money amount may have fits a word. */
  method PowerOfTen(precision: uint8) returns (result: uint64)
    requires precision <= MAX_MONEY_PRECISION + 1
    ensures result as int == Pow10(precision as nat)
  {
    result := 1;
    var i: uint8 := 0;
    while i < precision
      invariant i <= precision && result as int == Pow10(i as nat)
    {
      TenFits(i as nat + 1);
      result := result * 10;
      i := i + 1;
    }
  }

  lemma TenFits(k: nat)
    requires k <= 19
    ensures Pow10(k) <= 10_000_000_000_000_000_000 < TWO_64
    ensures k <= 18 ==> Pow10(k) <= 1_000_000_000_000_000_000
  {
    assert Pow10(4) == 10_000 && Pow10(2) == 100 && Pow10(3) == 1_000;
    Pow10Sum(4, 4);
    Pow10Sum(8, 8);
    Pow10Sum(16, 2);
    Pow10Sum(16, 3);
    Pow10Grows(k, 19);
    if k <= 18 {
      Pow10Grows(k, 18);
    }
  }

  /** The digit loop for the whole part: its value, or nothing when a character is no digit or the word overflows. */
  method ScanWhole(text: string, from: nat, to: nat) returns (whole: Option<uint64>)
    requires from <= to <= |text|
    ensures whole.Some? ==> AllDigits(text[from..to]) && whole.value as int == Value(text[from..to])
    ensures whole.None? && AllDigits(text[from..to]) ==> Value(text[from..to]) >= TWO_64
  {
    var value: uint64 := 0;
    var i := from;
    while i < to
      invariant from <= i <= to
      invariant AllDigits(text[from..i]) && value as int == Value(text[from..i])
    {
      var ch := text[i];
      if ch < '0' || ch > '9' {
        assert text[from..to][i - from] == ch;
        return None;
      }
      var digit := (ch - '0') as uint64;
      LongerValue(text, from, i);
      if value > (UINT64_MAX - digit) / 10 {
        if AllDigits(text[from..to]) {
          PrefixValue(text[from..i + 1], text[i + 1..to]);
          assert text[from..to] == text[from..i + 1] + text[i + 1..to];
        }
        return None;
      }
      value := value * 10 + digit;
      i := i + 1;
    }
    return Some(value);
  }

  lemma LongerValue(text: string, from: nat, i: nat)
    requires from <= i < |text| && AllDigits(text[from..i]) && IsDigit(text[i])
    ensures AllDigits(text[from..i + 1])
    ensures Value(text[from..i + 1]) == 10 * Value(text[from..i]) + DigitValue(text[i])
  {
    assert text[from..i + 1][..i - from] == text[from..i];
    assert text[from..i + 1] == text[from..i] + [text[i]];
  }

  lemma PrefixValue(a: string, b: string)
    requires AllDigits(a) && AllDigits(b)
    ensures AllDigits(a + b) && Value(a) <= Value(a + b)
  {
    ValueConcat(a, b);
    ScaleUp(Value(a), Pow10(|b|));
  }

  lemma NoDigits(digits: string)
    ensures AllDigits(digits[..0]) && Value(digits[..0]) == 0
  {
  }

  lemma ValueStep(digits: string, i: nat)
    requires i < |digits| && AllDigits(digits[..i]) && IsDigit(digits[i])
    ensures AllDigits(digits[..i + 1])
    ensures Value(digits[..i + 1]) == 10 * Value(digits[..i]) + DigitValue(digits[i])
  {
    assert digits[..i + 1][..i] == digits[..i];
  }

  /** One more kept digit; below eighteen digits the word does not overflow. */
  method KeepDigit(value: uint64, ch: char, ghost digits: string, ghost i: nat) returns (longer: uint64)
    requires i < 18 && i < |digits| && digits[i] == ch && IsDigit(ch) && AllDigits(digits[..i])
    requires value as int == Value(digits[..i])
    ensures AllDigits(digits[..i + 1]) && longer as int == Value(digits[..i + 1])
  {
    ValueStep(digits, i);
    ValueBound(digits[..i]);
    TenFits(i);
    hide Value, Pow10;
    longer := value * 10 + (ch - '0') as uint64;
  }

  lemma DigitsGrow(digits: string, i: nat)
    requires i < |digits| && AllDigits(digits[..i]) && IsDigit(digits[i])
    ensures AllDigits(digits[..i + 1])
  {
  }

  /** A zero, or something else, among the digits that are dropped. */
  lemma ZerosGrow(digits: string, stored: nat, i: nat)
    requires stored <= i < |digits| && AllZeros(digits[stored..i])
    ensures digits[i] == '0' ==> AllZeros(digits[stored..i + 1])
    ensures digits[i] != '0' ==> !AllZeros(digits[stored..])
  {
    assert digits[stored..][i - stored] == digits[i];
    assert digits[stored..i + 1] == digits[stored..i] + [digits[i]];
  }

  /** The digit loop for the fraction: the kept digits' value, or nothing on a non-digit or a lost digit. */
  method ScanFraction(text: string, from: nat, precision: uint8) returns (fraction: Option<uint64>)
    requires from <= |text| && precision <= MAX_MONEY_PRECISION
    ensures fraction.Some? ==>
              && AllDigits(text[from..]) && AllZeros(Dropped(text[from..], precision as nat))
              && fraction.value as int == Value(Kept(text[from..], precision as nat))
    ensures fraction.None? && AllDigits(text[from..]) ==> !AllZeros(Dropped(text[from..], precision as nat))
  {
    var size := |text| - from;
    var stored := if size < precision as int then size else precision as int;
    ghost var digits := text[from..];
    var value: uint64 := 0;
    var i := 0;
    NoDigits(digits);
    KeptAndDropped(digits, precision as nat);
    hide Value, Kept, Dropped, AllZeros;
    while i < size
      invariant 0 <= i <= size && AllDigits(digits[..i])
      invariant i <= stored ==> value as int == Value(digits[..i])
      invariant i >= stored ==> value as int == Value(digits[..stored]) && AllZeros(digits[stored..i])
    {
      var ch := text[from + i];
      assert digits[i] == ch;
      if ch < '0' || ch > '9' {
        return None;
      }
      if i < stored {
        value := KeepDigit(value, ch, digits, i);
        NoneDropped(digits, i + 1);
      } else {
        ZerosGrow(digits, stored, i);
        DigitsGrow(digits, i);
        if ch != '0' {
          return None;
        }
      }
      i := i + 1;
    }
    return Some(value);
  }

  lemma NoneDropped(digits: string, i: nat)
    requires i <= |digits|
    ensures AllZeros(digits[i..i])
  {
  }

  lemma KeptAndDropped(digits: string, precision: nat)
    ensures var stored := if |digits| < precision then |digits| else precision;
      && Kept(digits, precision) == digits[..stored]
      && AllZeros(Dropped(digits, precision)) == AllZeros(digits[stored..])
      && digits[..|digits|] == digits && digits[stored..|digits|] == digits[stored..]
      && AllZeros(digits[0..0])
  {
  }

  /** Multiplies the kept digits up to the full precision, without leaving the word. */
  method PadFraction(fraction: uint64, stored: uint8, precision: uint8) returns (padded: uint64)
    requires stored <= precision <= MAX_MONEY_PRECISION && fraction as int < Pow10(stored as nat)
    ensures padded as int == fraction as int * Pow10((precision - stored) as nat)
    ensures padded as int < Pow10(precision as nat)
  {
    padded := fraction;
    var i := stored;
    while i < precision
      invariant stored <= i <= precision
      invariant padded as int == fraction as int * Pow10((i - stored) as nat)
      invariant padded as int < Pow10(i as nat)
    {
      TenFits(i as nat + 1);
      Shuffle(fraction as int, Pow10((i - stored) as nat), 10);
      padded := padded * 10;
      i := i + 1;
    }
  }

  /** Splits the text at its first dot; refuses a second dot and a text without any digit position. */
  method SplitText(text: string) returns (split: Option<(nat, nat, nat)>)
    ensures split.Some? ==>
              var (position, integerEnd, fractionBegin) := split.value;
              && position <= integerEnd <= fractionBegin <= |text|
              && position == (if HasSign(text) then 1 else 0)
              && (AllDigits(text[position..integerEnd]) && AllDigits(text[fractionBegin..]) ==>
                    Spells(text, text[position..integerEnd], text[fractionBegin..]))
    ensures split.Some? ==>
              var (position, integerEnd, fractionBegin) := split.value;
              forall whole, fraction :: Spells(text, whole, fraction) ==>
                whole == text[position..integerEnd] && fraction == text[fractionBegin..]
    ensures split.None? ==> forall whole, fraction :: !Spells(text, whole, fraction)
  {
    if text == "" {
      return None;
    }
    var position := 0;
    if text[position] == '+' || text[position] == '-' {
      position := position + 1;
      if position == |text| {
        return None;
      }
    }
    var dot := Find(text, '.', position);
    forall whole, fraction | Spells(text, whole, fraction)
      ensures ReadAt(text, position, dot, whole, fraction)
    {
      SpellsAt(text, whole, fraction);
    }
    if dot.Some? && Find(text, '.', dot.value + 1).Some? {
      SecondDot(text, position, dot.value);
      return None;
    }
    var integerEnd := if dot.None? then |text| else dot.value;
    var fractionBegin := if dot.None? then |text| else dot.value + 1;
    if integerEnd == position && |text| - fractionBegin == 0 {
      return None;
    }
    JoinsBack(text, position, integerEnd, fractionBegin);
    return Some((position, integerEnd, fractionBegin));
  }

  /** The reading of the text around a given dot position. */
  ghost predicate ReadAt(text: string, position: nat, dot: Option<nat>, whole: string, fraction: string)
    requires position <= |text| && (dot.Some? ==> position <= dot.value < |text|)
  {
    match dot
    case Some(k) => whole == text[position..k] && fraction == text[k + 1..]
    case None => whole == text[position..] && fraction == ""
  }

  lemma SpellsAt(text: string, whole: string, fraction: string)
    requires Spells(text, whole, fraction)
    ensures var position := if HasSign(text) then 1 else 0;
            ReadAt(text, position, Find(text, '.', position), whole, fraction)
  {
    var position := if HasSign(text) then 1 else 0;
    assert Unsigned(text) == text[position..];
    FindShift(text, position);
    SpellsDot(text, whole, fraction);
  }

  lemma SecondDot(text: string, position: nat, first: nat)
    requires position <= first < |text| && Find(text, '.', position) == Some(first)
    requires Find(text, '.', first + 1).Some?
    requires position == if HasSign(text) then 1 else 0
    ensures forall whole, fraction :: !Spells(text, whole, fraction)
  {
    var second := Find(text, '.', first + 1).value;
    assert text[first + 1..][second - first - 1] == '.';
    forall whole, fraction
      ensures !Spells(text, whole, fraction)
    {
      if Spells(text, whole, fraction) {
        SpellsAt(text, whole, fraction);
      }
    }
  }

  lemma JoinsBack(text: string, position: nat, integerEnd: nat, fractionBegin: nat)
    requires position == if HasSign(text) then 1 else 0
    requires position <= integerEnd <= fractionBegin <= |text|
    requires integerEnd - position + |text| - fractionBegin > 0
    requires (integerEnd == fractionBegin == |text|)
             || (fractionBegin == integerEnd + 1 && text[integerEnd] == '.')
    ensures AllDigits(text[position..integerEnd]) && AllDigits(text[fractionBegin..]) ==>
              Spells(text, text[position..integerEnd], text[fractionBegin..])
  {
    var whole, fraction := text[position..integerEnd], text[fractionBegin..];
    assert Unsigned(text) == text[position..];
    if integerEnd == fractionBegin {
      assert text[position..] == whole && fraction == "";
    } else {
      assert text[position..] == whole + "." + fraction;
    }
  }

  lemma {:induction false} FindShift(text: string, from: nat)
    requires from <= |text|
    ensures Find(text[from..], '.', 0) == match Find(text, '.', from) case Some(k) => Some(k - from) case None => None
  {
    var dot, shifted := Find(text, '.', from), Find(text[from..], '.', 0);
    if dot.Some? {
      assert text[from..][dot.value - from] == '.';
    }
    if shifted.Some? {
      assert text[from + shifted.value] == '.';
    }
  }

  /** Parses a decimal amount without discarding significant digits. */
  method FromDecimal(text: string, currency: CurrencyType, precision: uint8) returns (result: Option<MoneyAmount>)
    ensures IsParse(text, currency, precision, result)
  {
    if precision > MAX_MONEY_PRECISION || currency == UNKNOWN {
      return None;
    }
    var split := SplitText(text);
    if split.None? {
      return None;
    }
    var (position, integerEnd, fractionBegin) := split.value;
    ghost var wholeText, fractionText := text[position..integerEnd], text[fractionBegin..];
    var whole := ScanWhole(text, position, integerEnd);
    if whole.None? {
      HugeWhole(text, wholeText, fractionText, precision as nat);
      return None;
    }
    var fraction := ScanFraction(text, fractionBegin, precision);
    if fraction.None? {
      LostDigit(text, wholeText, fractionText, precision as nat);
      return None;
    }
    var size := |text| - fractionBegin;
    var stored := if size < precision as int then size as uint8 else precision;
    ValueBound(Kept(fractionText, precision as nat));
    var padded := PadFraction(fraction.value, stored, precision);
    result := Compose(text, whole.value, padded, currency, precision, wholeText, fractionText);
  }

  lemma HugeWhole(text: string, whole: string, fraction: string, precision: nat)
    requires AllDigits(whole) ==> Value(whole) >= TWO_64
    requires forall w, f :: Spells(text, w, f) ==> w == whole && f == fraction
    ensures forall units :: FitsInt64(units) ==> !Denotes(text, precision, units)
  {
    forall units | FitsInt64(units)
      ensures !Denotes(text, precision, units)
    {
      if Denotes(text, precision, units) {
        var n := if Negative(text) then -units else units;
        assert Spells(text, whole, fraction) && ScalesTo(whole, fraction, precision, n);
        ValueConcat(whole, fraction);
        ScaleUp(Value(whole) * Pow10(|fraction|) + Value(fraction), Pow10(precision));
        TooSmall(n, Value(whole), Pow10(|fraction|));
      }
    }
  }

  lemma TooSmall(n: int, w: nat, k: nat)
    requires k >= 1 && n < w
    ensures n * k < w * k
  {
  }

  lemma LostDigit(text: string, whole: string, fraction: string, precision: nat)
    requires AllDigits(fraction) ==> !AllZeros(Dropped(fraction, precision))
    requires forall w, f :: Spells(text, w, f) ==> w == whole && f == fraction
    ensures forall units :: !Denotes(text, precision, units)
  {
    if AllDigits(whole) && AllDigits(fraction) {
      forall n
        ensures !ScalesTo(whole, fraction, precision, n)
      {
        InexactFraction(whole, fraction, precision, n);
      }
    }
  }

  /** Joins whole and fraction under the sign, if the magnitude is representable. */
  method Compose(
    text: string, whole: uint64, fraction: uint64, currency: CurrencyType, precision: uint8,
    ghost wholeText: string, ghost fractionText: string) returns (result: Option<MoneyAmount>)
    requires precision <= MAX_MONEY_PRECISION && currency != UNKNOWN
    requires Spells(text, wholeText, fractionText) && AllZeros(Dropped(fractionText, precision as nat))
    requires whole as int == Value(wholeText)
    requires fraction as int == Value(Kept(fractionText, precision as nat))
                                * Pow10(precision as nat - |Kept(fractionText, precision as nat)|)
    requires fraction as int < Pow10(precision as nat)
    ensures IsParse(text, currency, precision, result)
  {
    DenotesMagnitude(text, wholeText, fractionText, precision as nat);
    ghost var exact := Magnitude(wholeText, fractionText, precision as nat);
    assert exact == whole as int * Pow10(precision as nat) + fraction as int;
    hide Denotes, Spells, Pow10, Magnitude, Value, Kept;
    TenFits(precision as nat);
    var negative := text[0] == '-';
    var maxPositive: uint64 := 0x7fff_ffff_ffff_ffff;
    var maxMagnitude := if negative then maxPositive + 1 else maxPositive;
    var factor := PowerOfTen(precision);
    var magnitude := Join(whole, factor, fraction, maxMagnitude, exact);
    if magnitude.None? {
      return None;
    }
    var units := Signed(magnitude.value, negative);
    return Some(MoneyAmount(units, precision, currency));
  }

  /** whole * factor + fraction, unless that exceeds the limit; tested by division, so nothing wraps. */
  method Join(whole: uint64, factor: uint64, fraction: uint64, limit: uint64, ghost exact: nat)
    returns (magnitude: Option<uint64>)
    requires factor >= 1 && fraction <= limit && exact == whole as int * factor as int + fraction as int
    ensures magnitude.Some? <==> exact <= limit as int
    ensures magnitude.Some? ==> magnitude.value as int == exact
  {
    var room := limit - fraction;
    QuotientGuard(whole as int, factor as int, room as int);
    if whole > room / factor {
      return None;
    }
    return Some(whole * factor + fraction);
  }

  /** Applies the sign; the most negative word has no positive counterpart. */
  method Signed(magnitude: uint64, negative: bool) returns (units: int64)
    requires magnitude as int <= if negative then TWO_63 else INT64_MAX
    ensures units as int == if negative then -(magnitude as int) else magnitude as int
  {
    if !negative {
      units := magnitude as int64;
    } else if magnitude == 0x8000_0000_0000_0000 {
      units := -0x8000_0000_0000_0000;
    } else {
      units := -(magnitude as int64);
    }
  }

  /** The division guard is the multiplication test, without the overflow. */
  lemma QuotientGuard(w: nat, factor: nat, room: nat)
    requires factor >= 1
    ensures w > room / factor <==> w * factor > room
  {
    var q := room / factor;
    assert room == q * factor + room % factor;
    if w > q {
      assert w * factor >= (q + 1) * factor;
    } else {
      assert w * factor <= q * factor;
    }
  }

  /** The text denotes its signed magnitude and nothing else. */
  lemma DenotesMagnitude(text: string, whole: string, fraction: string, precision: nat)
    requires Spells(text, whole, fraction) && AllZeros(Dropped(fraction, precision))
    ensures forall units ::
              Denotes(text, precision, units)
              <==> (if Negative(text) then -units else units) == Magnitude(whole, fraction, precision)
  {
    forall units
      ensures Denotes(text, precision, units)
              <==> (if Negative(text) then -units else units) == Magnitude(whole, fraction, precision)
    {
      var n := if Negative(text) then -units else units;
      ExactMagnitude(whole, fraction, precision, n);
      if Denotes(text, precision, units) {
        var w, f :| Spells(text, w, f) && ScalesTo(w, f, precision, n);
        SpellsUnique(text, w, f, whole, fraction);
      }
    }
  }

  function Repeat(c: char, n: nat): (s: string)
    ensures |s| == n && forall i :: 0 <= i < n ==> s[i] == c
  {
    if n == 0 then "" else [c] + Repeat(c, n - 1)
  }

  predicate Splits(n: nat, whole: nat, fraction: nat, factor: nat) {
    n == whole * factor + fraction
  }

  /** Whole and fractional units. */
  function SplitUnits(n: nat, factor: nat): (parts: (nat, nat))
    requires factor >= 1
    ensures Splits(n, parts.0, parts.1, factor) && parts.1 < factor
  {
    (n / factor, n % factor)
  }

  /** Formats the amount without scientific notation; amounts without valid metadata print as nothing. */
  function ToDecimal(m: MoneyAmount): string {
    if !m.ValidMetadata() then ""
    else
      var magnitude: uint64 := if m.units < 0 then (-(m.units + 1)) as uint64 + 1 else m.units as uint64;
      var (whole, fraction) := SplitUnits(magnitude as nat, Pow10(m.precision as nat));
      var unsigned :=
        if m.precision == 0 then Digits(whole)
        else Digits(whole) + "." + PaddedDigits(fraction, m.precision as nat);
      (if m.units < 0 then "-" else "") + unsigned
  }

  /** The digits of `n`, filled up with leading zeros to `width`. */
  function PaddedDigits(n: nat, width: nat): (s: string)
    requires width >= 1 && n < Pow10(width)
    ensures |s| == width && AllDigits(s) && Value(s) == n
  {
    DigitsFit(n, width);
    var zeros := Repeat('0', width - |Digits(n)|);
    ValueConcat(zeros, Digits(n));
    ValueZero(zeros);
    zeros + Digits(n)
  }

  function AbsoluteUnits(m: MoneyAmount): nat {
    if m.units < 0 then -(m.units as int) else m.units as int
  }

  lemma PrintedParts(m: MoneyAmount) returns (whole: string, fraction: string)
    requires m.ValidMetadata()
    ensures AllDigits(whole) && AllDigits(fraction) && whole != "" && |fraction| == m.precision as nat
    ensures ToDecimal(m) == (if m.units < 0 then "-" else "") + if fraction == "" then whole else whole + "." + fraction
    ensures Splits(AbsoluteUnits(m), Value(whole), Value(fraction), Pow10(m.precision as nat))
  {
    assert Pow10(0) == 1 && Value("") == 0;
    hide Digits, PaddedDigits, SplitUnits, Splits, Pow10, Value;
    var (w, f) := SplitUnits(AbsoluteUnits(m), Pow10(m.precision as nat));
    whole, fraction := Digits(w), if m.precision == 0 then "" else PaddedDigits(f, m.precision as nat);
  }

  /** Every valid amount prints as a decimal that denotes exactly its units, and nothing else. */
  lemma PrintedDenotes(m: MoneyAmount)
    requires m.ValidMetadata()
    ensures Denotes(ToDecimal(m), m.precision as nat, m.units as int)
  {
    hide Spells, ScalesTo, Denotes, ToDecimal, Splits, Pow10, Value;
    var whole, fraction := PrintedParts(m);
    JoinSpells(ToDecimal(m), whole, fraction, m.units < 0);
    JoinScales(whole, fraction, AbsoluteUnits(m));
    DenotesBy(ToDecimal(m), whole, fraction, m.precision as nat, m.units as int);
  }

  lemma JoinScales(whole: string, fraction: string, n: nat)
    requires AllDigits(whole) && AllDigits(fraction)
    requires Splits(n, Value(whole), Value(fraction), Pow10(|fraction|))
    ensures ScalesTo(whole, fraction, |fraction|, n)
  {
    ValueConcat(whole, fraction);
    assert n == Value(whole + fraction);
    hide Pow10, Value, Splits;
  }

  lemma DenotesBy(text: string, whole: string, fraction: string, precision: nat, units: int)
    requires Spells(text, whole, fraction)
    requires ScalesTo(whole, fraction, precision, if Negative(text) then -units else units)
    ensures Denotes(text, precision, units)
  {
    hide ScalesTo;
  }

  lemma JoinSpells(text: string, whole: string, fraction: string, negative: bool)
    requires AllDigits(whole) && AllDigits(fraction) && whole != ""
    requires text == (if negative then "-" else "") + (if fraction == "" then whole else whole + "." + fraction)
    ensures Spells(text, whole, fraction) && Negative(text) == negative
  {
    var body := if fraction == "" then whole else whole + "." + fraction;
    assert body[0] == whole[0];
    assert Unsigned(text) == body && Negative(text) == negative;
  }

  /** A parse is determined by its text, and printing is undone by parsing, INT64_MIN and precision 18 included. */
  lemma PrintThenParse(m: MoneyAmount, r: Option<MoneyAmount>)
    requires m.ValidMetadata() && IsParse(ToDecimal(m), m.currency, m.precision, r)
    ensures r == Some(m)
  {
    hide ToDecimal, Denotes;
    PrintedDenotes(m);
    assert FitsInt64(m.units as int);
    if r.Some? {
      DenotesUnique(ToDecimal(m), m.precision as nat, m.units as int, r.value.units as int);
    }
  }

  lemma DenotesUnique(text: string, precision: nat, a: int, b: int)
    requires Denotes(text, precision, a) && Denotes(text, precision, b)
    ensures a == b
  {
    var w, f :| Spells(text, w, f) && ScalesTo(w, f, precision, if Negative(text) then -a else a);
    var w', f' :| Spells(text, w', f') && ScalesTo(w', f', precision, if Negative(text) then -b else b);
    SpellsUnique(text, w, f, w', f');
    CancelFactor(if Negative(text) then -a else a, if Negative(text) then -b else b, Pow10(|f|));
  }
}
