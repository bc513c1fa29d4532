module Rates {
  /** Exchange rates as integers scaled by ten decimal places: parsed, written, inverted, applied, looked up. */

  import Numbers
  import opened Rounding
  import opened Texts
  import opened Wrappers

  const SCALE: nat := 10000000000
  const MAX_SAFE: nat := 9007199254740991

  datatype Refusal = NotDecimal | TooPrecise | ZeroRate | OutOfRange | WrongDirection

  function Safe(value: int): Result<int, Refusal> {
    if -(MAX_SAFE as int) <= value <= MAX_SAFE then Ok(value) else Err(OutOfRange)
  }

  // --- Decimal text -------------------------------------------------------------------------

  function Zeros(n: nat): (s: string)
    ensures |s| == n && AllDigits(s) && forall i | 0 <= i < n :: s[i] == '0'
  {
    if n == 0 then [] else Zeros(n - 1) + ['0']
  }

  function PadStart(s: string, width: nat): string {
    if |s| >= width then s else Zeros(width - |s|) + s
  }

  function PadEnd(s: string, width: nat): string {
    if |s| >= width then s else s + Zeros(width - |s|)
  }

  function TrimZeros(s: string): string {
    if s != [] && s[|s| - 1] == '0' then TrimZeros(s[..|s| - 1]) else s
  }

  function DotIn(s: string): (at: nat)
    ensures at <= |s| && (at < |s| ==> s[at] == '.') && forall i | 0 <= i < at :: s[i] != '.'
  {
    if s == [] || s[0] == '.' then 0 else 1 + DotIn(s[1..])
  }

  function RateToString(rate: nat): string {
    var fraction := TrimZeros(PadStart(Decimal(rate % SCALE), 10));
    if |fraction| == 0 then Decimal(rate / SCALE) else Decimal(rate / SCALE) + "." + fraction
  }

  /** Digits, then perhaps a point and more of them, white space around. */
  predicate IsDecimal(text: string) {
    var at := DotIn(text);
    && at > 0 && AllDigits(text[..at])
    && (at < |text| ==> at + 1 < |text| && AllDigits(text[at + 1..]))
  }

  function ParseScaled(value: string): Result<int, Refusal> {
    var text := Trim(value);
    if !IsDecimal(text) then Err(NotDecimal)
    else
      var at := DotIn(text);
      var fraction := if at < |text| then text[at + 1..] else "";
      if |fraction| > 10 then Err(TooPrecise)
      else
        PadEndIsDigits(fraction);
        var scaled := ValueOf(text[..at] + PadEnd(fraction, 10));
        if scaled == 0 then Err(ZeroRate) else Safe(scaled)
  }

  lemma PadEndIsDigits(s: string)
    requires AllDigits(s)
    ensures AllDigits(PadEnd(s, 10)) && (|s| <= 10 ==> |PadEnd(s, 10)| == 10)
  {
  }

  function Pow10(n: nat): (p: nat)
    ensures p > 0
  {
    if n == 0 then 1 else 10 * Pow10(n - 1)
  }

  lemma {:induction false} ValueOfJoined(a: string, b: string)
    requires AllDigits(a) && AllDigits(b)
    ensures AllDigits(a + b) && ValueOf(a + b) == ValueOf(a) * Pow10(|b|) + ValueOf(b)
    decreases |b|
  {
    if b == [] {
      assert a + b == a;
    } else {
      ValueOfJoined(a, b[..|b| - 1]);
      assert (a + b)[..|a + b| - 1] == a + b[..|b| - 1];
      Tenfold(ValueOf(a), Pow10(|b| - 1));
    }
  }

  lemma Tenfold(v: nat, p: nat)
    ensures 10 * (v * p) == v * (10 * p)
  {
  }

  lemma {:induction false} ZerosAreNothing(n: nat)
    ensures ValueOf(Zeros(n)) == 0
  {
    if n > 0 {
      ZerosAreNothing(n - 1);
      assert Zeros(n)[..n - 1] == Zeros(n - 1);
    }
  }

  lemma {:induction false} DecimalIsShort(n: nat, width: nat)
    requires width > 0 && n < Pow10(width)
    ensures |Decimal(n)| <= width
    decreases width
  {
    if n >= 10 { DecimalIsShort(n / 10, width - 1); }
  }

  lemma {:induction false} PaddedBack(s: string)
    requires AllDigits(s)
    ensures |TrimZeros(s)| <= |s| && AllDigits(TrimZeros(s)) && PadEnd(TrimZeros(s), |s|) == s
    decreases |s|
  {
    if s != [] && s[|s| - 1] == '0' {
      var before := s[..|s| - 1];
      PaddedBack(before);
      assert s == before + ['0'];
      var kept := TrimZeros(before);
      assert Zeros(|s| - |kept|) == Zeros(|before| - |kept|) + ['0'];
    } else {
      assert s + Zeros(0) == s;
    }
  }

  lemma TenDigits()
    ensures Pow10(10) == SCALE
  {
    assert Pow10(5) == 100000;
  }

  lemma FractionText(fraction: nat) returns (padded: string)
    requires fraction < SCALE
    ensures padded == PadStart(Decimal(fraction), 10) && |padded| == 10 && AllDigits(padded) && ValueOf(padded) == fraction
  {
    hide Decimal, ValueOf, Pow10;
    TenDigits();
    DecimalIsShort(fraction, 10);
    var digits := Decimal(fraction);
    padded := PadStart(digits, 10);
    ZerosAreNothing(10 - |digits|);
    ValueOfJoined(Zeros(10 - |digits|), digits);
    if |digits| == 10 { assert Zeros(0) + digits == digits; }
  }

  lemma DigitsHaveNoSpace(s: string)
    requires s != [] && !IsSpace(s[0]) && !IsSpace(s[|s| - 1])
    ensures Trim(s) == s
  {
  }

  lemma {:induction false} DotAfter(whole: string, rest: string)
    requires AllDigits(whole) && (rest == [] || rest[0] == '.')
    ensures DotIn(whole + rest) == |whole|
  {
    if whole != [] {
      assert (whole + rest)[1..] == whole[1..] + rest;
      DotAfter(whole[1..], rest);
    } else {
      assert whole + rest == rest;
    }
  }

  /** The text is the whole part and, past a point, the fraction without its last zeros. */
  lemma WrittenAs(rate: nat, padded: string)
    requires padded == PadStart(Decimal(rate % SCALE), 10)
    ensures RateToString(rate) == Decimal(rate / SCALE) + Pointed(TrimZeros(padded))
  {
    hide Decimal, TrimZeros, PadStart;
    var whole, fraction := Decimal(rate / SCALE), TrimZeros(padded);
    assert whole + ("." + fraction) == whole + "." + fraction;
    assert whole + [] == whole;
  }

  function Pointed(fraction: string): string {
    if fraction == [] then [] else "." + fraction
  }

  lemma ReadAs(whole: string, fraction: string)
    requires whole != [] && AllDigits(whole) && AllDigits(fraction) && |fraction| <= 10
    ensures AllDigits(whole + PadEnd(fraction, 10))
    ensures ParseScaled(whole + Pointed(fraction))
            == var scaled := ValueOf(whole + PadEnd(fraction, 10)); if scaled == 0 then Err(ZeroRate) else Safe(scaled)
  {
    hide ValueOf, Trim, DotIn, PadEnd;
    var text := whole + Pointed(fraction);
    DotAfter(whole, Pointed(fraction));
    assert text[..|whole|] == whole;
    assert fraction != [] ==> text[|whole| + 1..] == fraction;
    PadEndIsDigits(fraction);
    DigitsHaveNoSpace(text);
  }

  lemma PaddedValue(fraction: string)
    requires AllDigits(fraction) && |fraction| <= 10
    ensures AllDigits(PadEnd(fraction, 10)) && |PadEnd(fraction, 10)| == 10
    ensures ValueOf(PadEnd(fraction, 10)) == ValueOf(fraction) * Pow10(10 - |fraction|)
  {
    hide ValueOf;
    PadEndIsDigits(fraction);
    if |fraction| < 10 {
      ValueOfJoined(fraction, Zeros(10 - |fraction|));
      ZerosAreNothing(10 - |fraction|);
    }
  }

  /** What a text is read as: its digits before the point whole, those after it in tenths and so on, ten of them at most. */
  lemma ParsedIs(value: string)
    ensures var text, at, r := Trim(value), DotIn(Trim(value)), ParseScaled(value);
            if !IsDecimal(text) then r == Err(NotDecimal)
            else
              var fraction := if at < |text| then text[at + 1..] else "";
              if |fraction| > 10 then r == Err(TooPrecise)
              else
                var scaled := ValueOf(text[..at]) * 10000000000 + ValueOf(fraction) * Pow10(10 - |fraction|);
                r == if scaled == 0 then Err(ZeroRate) else if scaled <= MAX_SAFE then Ok(scaled) else Err(OutOfRange)
  {
    hide ValueOf, PadEnd;
    var text, at := Trim(value), DotIn(Trim(value));
    if IsDecimal(text) {
      var fraction := if at < |text| then text[at + 1..] else "";
      if |fraction| <= 10 {
        PaddedValue(fraction);
        ValueOfJoined(text[..at], PadEnd(fraction, 10));
        TenDigits();
      }
    }
  }

  /** What a rate is written as is read back as the same rate. */
  lemma RateReadsBack(rate: nat)
    requires 0 < rate <= MAX_SAFE
    ensures ParseScaled(RateToString(rate)) == Ok(rate)
  {
    hide Decimal, TrimZeros, PadStart, PadEnd, ValueOf, ParseScaled, RateToString;
    var whole := Decimal(rate / SCALE);
    var padded := FractionText(rate % SCALE);
    PaddedBack(padded);
    WrittenAs(rate, padded);
    ReadAs(whole, TrimZeros(padded));
    ValueOfJoined(whole, padded);
    TenDigits();
  }

  // --- Inverting ------------------------------------------------------------------------------

  function Invert(rate: nat): Result<int, Refusal> {
    if rate == 0 then Err(ZeroRate) else Safe(DivideRounded(SCALE * SCALE, rate, HalfUp).value)
  }

  /** A quotient rounded to the nearest, without fractions: times the divisor it is off by half the divisor at most. */
  lemma NearestInteger(numerator: nat, denominator: nat)
    requires denominator > 0
    ensures var r := DivideRounded(numerator, denominator, HalfUp).value;
            0 < 2 * (r * denominator - numerator) + denominator <= 2 * denominator
  {
    var r := DivideRounded(numerator, denominator, HalfUp).value;
    DivideRoundedRounds(numerator, denominator, HalfUp);
    Unfolded(r, numerator, denominator);
  }

  lemma Unfolded(r: int, numerator: nat, denominator: nat)
    requires denominator > 0 && IsRounding(r, Quotient(numerator, denominator), HalfUp)
    ensures 0 < 2 * (r * denominator - numerator) + denominator <= 2 * denominator
  {
    hide Quotient, IsRounding;
    OffBy(r, numerator, denominator);
    NotNegative(numerator, denominator);
    HalfUpOff(r, Quotient(numerator, denominator));
    WithinHalf(r as real - Quotient(numerator, denominator), denominator, r * denominator - numerator);
  }

  lemma HalfUpOff(r: int, x: real)
    requires x >= 0.0 && IsRounding(r, x, HalfUp)
    ensures -0.5 < r as real - x <= 0.5
  {
  }

  lemma WithinHalf(off: real, denominator: nat, product: int)
    requires denominator > 0 && off * denominator as real == product as real && -0.5 < off <= 0.5
    ensures 0 < 2 * product + denominator <= 2 * denominator
  {
    Scaled(off, denominator as real, product as real);
  }

  lemma Scaled(off: real, d: real, product: real)
    requires d > 0.0 && off * d == product && -0.5 < off <= 0.5
    ensures -d < 2.0 * product <= d
  {
    assert (off + 0.5) * d > 0.0;
    assert (0.5 - off) * d >= 0.0;
  }

  lemma NotNegative(numerator: nat, denominator: nat)
    requires denominator > 0
    ensures Quotient(numerator, denominator) >= 0.0
  {
  }

  lemma OffBy(r: int, numerator: nat, denominator: nat)
    requires denominator > 0
    ensures (r as real - Quotient(numerator, denominator)) * denominator as real == (r * denominator - numerator) as real
  {
    var x, d := Quotient(numerator, denominator), denominator as real;
    assert x * d == numerator as real;
    assert r as real * d == (r * denominator) as real;
  }

  /** Inverting fails for a zero rate, and for one of 0.0000011102 or less, whose inverse is too large to hold. */
  lemma InvertibleIff(rate: nat)
    requires rate <= MAX_SAFE
    ensures Invert(rate).Ok? <==> rate > 11102
    ensures Invert(rate).Err? ==> Invert(rate).error == if rate == 0 then ZeroRate else OutOfRange
  {
    if rate > 0 {
      NearestInteger(SCALE * SCALE, rate);
      var i := DivideRounded(SCALE * SCALE, rate, HalfUp).value;
      InverseTooLarge(i, rate);
    }
  }

  lemma Products(a: int, b: int, c: nat)
    ensures a <= b ==> a * c <= b * c
  {
  }

  lemma InverseTooLarge(i: int, rate: nat)
    requires 0 < rate <= MAX_SAFE && 0 < 2 * (i * rate - SCALE * SCALE) + rate <= 2 * rate
    ensures i > 0 && (i > MAX_SAFE <==> rate <= 11102)
  {
    NotPositive(i, rate);
    Products(i, MAX_SAFE, rate);
    Products(rate, 11102, MAX_SAFE);
    Products(MAX_SAFE + 1, i, rate);
    Products(11103, rate, MAX_SAFE + 1);
  }

  lemma NotPositive(i: int, rate: nat)
    ensures i <= 0 ==> i * rate <= 0
  {
  }

  /**
   Inverting twice comes back within r/(2i) + 1/2 of the rate r whose inverse is i, and
   exactly to it whenever the inverse is the larger: every rate below 1 that has one.
   */
  lemma InvertTwice(rate: nat, inverse: nat, back: nat)
    requires 0 < rate <= MAX_SAFE && Invert(rate) == Ok(inverse) && Invert(inverse) == Ok(back)
    ensures -(rate + inverse as int) <= 2 * inverse * (back - rate) <= rate + inverse
    ensures rate < inverse ==> back == rate
    ensures rate < SCALE ==> rate < inverse
  {
    NearestInteger(SCALE * SCALE, rate);
    NearestInteger(SCALE * SCALE, inverse);
    Difference(rate, inverse, back);
    if rate < SCALE { BelowOne(rate, inverse); }
  }

  lemma Difference(rate: nat, inverse: nat, back: nat)
    requires 0 < 2 * (inverse * rate - SCALE * SCALE) + rate <= 2 * rate
    requires 0 < 2 * (back * inverse - SCALE * SCALE) + inverse <= 2 * inverse
    ensures -(rate + inverse as int) <= 2 * inverse * (back - rate) <= rate + inverse
    ensures rate < inverse ==> back == rate
  {
    Distributes(inverse, back, rate);
    WholeSteps(inverse, back - rate);
  }

  lemma Distributes(inverse: nat, back: nat, rate: nat)
    ensures 2 * inverse * (back - rate) == 2 * (back * inverse) - 2 * (inverse * rate)
  {
  }

  lemma WholeSteps(inverse: nat, d: int)
    ensures d >= 1 ==> 2 * inverse * d >= 2 * inverse
    ensures d <= -1 ==> 2 * inverse * d <= -2 * inverse
  {
  }

  lemma BelowOne(rate: nat, inverse: nat)
    requires 0 < rate < SCALE && 0 < 2 * (inverse * rate - SCALE * SCALE) + rate <= 2 * rate
    ensures rate < inverse
  {
    Products(inverse, SCALE - 1, rate);
    Products(rate, SCALE - 1, SCALE - 1);
  }

  /** With one over the rate rounded to the nearest, whether rounding it again leads back: a check of the rate alone. */
  predicate ComesBack(rate: nat)
    requires rate > 0
  {
    var quotient, left := SCALE * SCALE / rate, SCALE * SCALE % rate;
    if 2 * left < rate then 2 * left < quotient else 2 * (rate - left) <= quotient + 1
  }

  /** What a rate is inverted to, before its range is looked at. */
  lemma Inverted(rate: nat) returns (inverse: int)
    requires rate > 0
    ensures Invert(rate) == Safe(inverse)
    ensures 0 < 2 * (inverse * rate - SCALE * SCALE) + rate <= 2 * rate
  {
    inverse := DivideRounded(SCALE * SCALE, rate, HalfUp).value;
    hide DivideRounded;
    NearestInteger(SCALE * SCALE, rate);
  }

  lemma OnlyOfPositive(rate: nat)
    requires Invert(rate).Ok?
    ensures rate > 0
  {
    hide DivideRounded;
  }

  /** Of a rate that has an inverse: inverting that gives the rate, and not another or none, exactly when the check holds. */
  lemma InvertTwiceIff(rate: nat, inverse: nat)
    requires rate <= MAX_SAFE && Invert(rate) == Ok(inverse)
    ensures rate > 0 && (Invert(inverse) == Ok(rate) <==> ComesBack(rate))
  {
    hide Invert, ComesBack;
    OnlyOfPositive(rate);
    var i := Inverted(rate);
    InverseTooLarge(i, rate);
    var back := Inverted(inverse);
    Numbers.Divide(SCALE * SCALE, rate);
    NearestTwice(SCALE * SCALE, rate, SCALE * SCALE / rate, SCALE * SCALE % rate, inverse, back);
    ComesBackIs(rate, SCALE * SCALE / rate, SCALE * SCALE % rate);
  }

  lemma ComesBackIs(rate: nat, quotient: nat, left: nat)
    requires rate > 0 && quotient == SCALE * SCALE / rate && left == SCALE * SCALE % rate
    ensures ComesBack(rate) <==> if 2 * left < rate then 2 * left < quotient else 2 * (rate - left) <= quotient + 1
  {
  }

  /** The nearest to the nearest, by the quotient and what is left. */
  lemma NearestTwice(n: nat, rate: nat, quotient: nat, left: nat, inverse: nat, back: int)
    requires n == left + rate * quotient && left < rate && inverse > 0
    requires 0 < 2 * (inverse * rate - n) + rate <= 2 * rate && 0 < 2 * (back * inverse - n) + inverse <= 2 * inverse
    ensures back == rate <==> if 2 * left < rate then 2 * left < quotient else 2 * (rate - left) <= quotient + 1
  {
    InverseIs(n, rate, quotient, left, inverse);
    LeadsBackIff(n, inverse, back, rate);
  }

  /** The nearest integer, halves up, by the quotient and what is left. */
  lemma InverseIs(n: nat, rate: nat, quotient: nat, left: nat, inverse: nat)
    requires n == left + rate * quotient && left < rate && 0 < 2 * (inverse * rate - n) + rate <= 2 * rate
    ensures inverse == if 2 * left < rate then quotient else quotient + 1
    ensures if 2 * left < rate then inverse * rate + left == n else inverse * rate == n + (rate - left)
  {
    var d: int := inverse - quotient;
    assert rate * d == inverse * rate - rate * quotient;
    Numbers.Multiples(rate, d);
    Numbers.Multiples(rate, d - 1);
    assert rate * (d - 1) == rate * d - rate;
  }

  /** The nearest integer is the rate exactly when the rate is near enough. */
  lemma LeadsBackIff(n: nat, inverse: nat, back: int, rate: nat)
    requires inverse > 0 && 0 < 2 * (back * inverse - n) + inverse <= 2 * inverse
    ensures back == rate <==> 0 < 2 * (inverse * rate - n) + inverse <= 2 * inverse
  {
    var d: int := back - rate;
    assert inverse * d == back * inverse - inverse * rate;
    Numbers.Multiples(inverse, d);
  }

  /** A published rate of 4.9772 does not come back. */
  lemma InvertingLoses()
    ensures Invert(49772000000) == Ok(2009161778) && Invert(2009161778) == Ok(49771999993)
  {
    hide DivideRounded;
    NearestInteger(SCALE * SCALE, 49772000000);
    NearestInteger(SCALE * SCALE, 2009161778);
  }

  // --- Converting -------------------------------------------------------------------------------

  datatype Currency = Currency(code: string, exponent: nat)

  datatype Money = Money(amount: int, currency: string)

  datatype ExchangeRate = ExchangeRate(base: Currency, quote: Currency, rate: nat, asOf: Option<nat>)

  function Numerator(amount: int, value: ExchangeRate): int { amount * value.rate * Pow10(value.quote.exponent) }

  function Denominator(value: ExchangeRate): nat { SCALE * Pow10(value.base.exponent) }

  function Convert(amount: Money, value: ExchangeRate, mode: RoundingMode): Result<Money, Refusal> {
    if amount.currency != value.base.code then Err(WrongDirection)
    else
      var converted := Safe(DivideRounded(Numerator(amount.amount, value), Denominator(value), mode).value);
      if converted.Err? then Err(converted.error) else Ok(Money(converted.value, value.quote.code))
  }

  lemma DenominatorIsPositive(value: ExchangeRate)
    ensures Denominator(value) > 0
  {
  }

  /** What an exponent stands for. */
  lemma TensByTens(n: nat)
    ensures Pow10(0) == 1 && Pow10(n + 1) == 10 * Pow10(n)
  {
  }

  /** So many major units, times the rate, in the other currency's minor units. */
  lemma ExactAmount(amount: int, value: ExchangeRate)
    ensures Denominator(value) > 0
    ensures Quotient(Numerator(amount, value), Denominator(value))
            == amount as real / Pow10(value.base.exponent) as real * (value.rate as real / SCALE as real) * Pow10(value.quote.exponent) as real
  {
    DenominatorIsPositive(value);
    var up, down, rate := Pow10(value.quote.exponent), Pow10(value.base.exponent), value.rate;
    InReals(amount, rate, up, SCALE, down);
    Regrouped(amount as real, rate as real, up as real, SCALE as real, down as real);
  }

  lemma InReals(amount: int, rate: nat, up: nat, scale: nat, down: nat)
    ensures (amount * rate * up) as real == amount as real * rate as real * up as real
    ensures (scale * down) as real == scale as real * down as real
  {
    ProductInReals(amount, rate);
    ProductInReals(amount * rate, up);
    ProductInReals(scale, down);
  }

  lemma ProductInReals(a: int, b: int)
    ensures (a * b) as real == a as real * b as real
  {
  }

  lemma Regrouped(amount: real, rate: real, up: real, scale: real, down: real)
    requires scale > 0.0 && down > 0.0
    ensures amount * rate * up / (scale * down) == amount / down * (rate / scale) * up
  {
    var x, y := amount / down, rate / scale;
    assert amount == x * down && rate == y * scale;
    Commuted(x, down, y, scale, up);
    Cancelled(x * y * up, scale * down);
  }

  lemma Commuted(x: real, down: real, y: real, scale: real, up: real)
    ensures x * down * (y * scale) * up == x * y * up * (scale * down)
  {
    assert x * down * (y * scale) == x * y * (scale * down);
  }

  lemma Cancelled(a: real, b: real)
    requires b != 0.0
    ensures a * b / b == a
  {
  }

  /**
   Refused for another currency; otherwise the amount, in major units, times the rate, in
   minor units of the other currency, rounded as the mode says, unless that is out of range.
   */
  lemma ConvertIsExactlyRounded(amount: Money, value: ExchangeRate, mode: RoundingMode)
    ensures var exact := amount.amount as real / Pow10(value.base.exponent) as real * (value.rate as real / SCALE as real)
                         * Pow10(value.quote.exponent) as real;
            var r := Convert(amount, value, mode);
            if amount.currency != value.base.code then r == Err(WrongDirection)
            else forall n: int | IsRounding(n, exact, mode) ::
              r == if -(MAX_SAFE as int) <= n <= MAX_SAFE then Ok(Money(n, value.quote.code)) else Err(OutOfRange)
    ensures amount.currency == value.base.code ==>
              var exact := amount.amount as real / Pow10(value.base.exponent) as real * (value.rate as real / SCALE as real)
                           * Pow10(value.quote.exponent) as real;
              exists n: int :: IsRounding(n, exact, mode)
  {
    ExactAmount(amount.amount, value);
    DivideRoundedRounds(Numerator(amount.amount, value), Denominator(value), mode);
    hide IsRounding, DivideRounded, Quotient, Numerator, Denominator;
    var exact := Quotient(Numerator(amount.amount, value), Denominator(value));
    var n := DivideRounded(Numerator(amount.amount, value), Denominator(value), mode).value;
    forall m: int | IsRounding(m, exact, mode) ensures m == n {
      RoundingIsMonotone(m, exact, n, exact, mode);
      RoundingIsMonotone(n, exact, m, exact, mode);
    }
  }

  /** The result is within a unit of the exact amount, half a unit in the nearest modes, or out of range. */
  lemma ConvertIsClose(amount: Money, value: ExchangeRate, mode: RoundingMode)
    requires amount.currency == value.base.code
    ensures var exact := amount.amount as real / Pow10(value.base.exponent) as real * (value.rate as real / SCALE as real)
                         * Pow10(value.quote.exponent) as real;
            var r := Convert(amount, value, mode);
            && (r.Ok? ==> r.value.currency == value.quote.code && IsRounding(r.value.amount, exact, mode))
            && (r.Ok? ==> Distance(r.value.amount, exact) < 1.0)
            && (r.Ok? && mode in {HalfUp, HalfDown, HalfEven} ==> Distance(r.value.amount, exact) <= 0.5)
  {
    ExactAmount(amount.amount, value);
    IsRounded(amount, value, mode);
  }

  lemma IsRounded(amount: Money, value: ExchangeRate, mode: RoundingMode)
    requires amount.currency == value.base.code
    ensures Denominator(value) > 0
    ensures var exact := Quotient(Numerator(amount.amount, value), Denominator(value));
            var r := Convert(amount, value, mode);
            && (r.Ok? ==> r.value.currency == value.quote.code && IsRounding(r.value.amount, exact, mode))
            && (r.Ok? ==> Distance(r.value.amount, exact) < 1.0)
            && (r.Ok? && mode in {HalfUp, HalfDown, HalfEven} ==> Distance(r.value.amount, exact) <= 0.5)
  {
    DenominatorIsPositive(value);
    DivideRoundedRounds(Numerator(amount.amount, value), Denominator(value), mode);
  }

  /** More of one currency never converts to less of the other. */
  lemma ConvertIsMonotone(a: Money, b: Money, value: ExchangeRate, mode: RoundingMode)
    requires a.amount <= b.amount && Convert(a, value, mode).Ok? && Convert(b, value, mode).Ok?
    ensures Convert(a, value, mode).value.amount <= Convert(b, value, mode).value.amount
  {
    IsRounded(a, value, mode);
    IsRounded(b, value, mode);
    var r, s := Convert(a, value, mode).value.amount, Convert(b, value, mode).value.amount;
    var x, y := Numerator(a.amount, value), Numerator(b.amount, value);
    NumeratorsInOrder(a.amount, b.amount, value.rate, Pow10(value.quote.exponent));
    QuotientsInOrder(x, y, Denominator(value));
    RoundingIsMonotone(r, Quotient(x, Denominator(value)), s, Quotient(y, Denominator(value)), mode);
  }

  lemma NumeratorsInOrder(a: int, b: int, rate: nat, units: nat)
    requires a <= b
    ensures a * rate * units <= b * rate * units
  {
    assert (b - a) * rate >= 0;
    assert (b * rate - a * rate) * units >= 0;
  }

  lemma QuotientsInOrder(x: int, y: int, d: nat)
    requires x <= y && d > 0
    ensures Quotient(x, d) <= Quotient(y, d)
  {
    InOrder(Quotient(y, d), Quotient(x, d), d as real);
    assert Quotient(x, d) * d as real == x as real && Quotient(y, d) * d as real == y as real;
  }

  // --- The rate on a day ------------------------------------------------------------------------

  predicate Applies(value: ExchangeRate, base: Currency, quote: Currency, day: nat) {
    value.base == base && value.quote == quote && value.asOf.Some? && value.asOf.value <= day
  }

  /** The latest of those published on or before the day, the first listed of two on one day. */
  method RateOn(rates: seq<ExchangeRate>, base: Currency, quote: Currency, day: nat) returns (best: Option<ExchangeRate>)
    ensures best.None? <==> forall i | 0 <= i < |rates| :: !Applies(rates[i], base, quote, day)
    ensures best.Some? ==> exists k :: 0 <= k < |rates| && rates[k] == best.value && Applies(rates[k], base, quote, day) &&
                             forall i | 0 <= i < |rates| && Applies(rates[i], base, quote, day) ::
                               if i < k then rates[i].asOf.value < rates[k].asOf.value else rates[i].asOf.value <= rates[k].asOf.value
  {
    best := None;
    ghost var k := 0;
    for n := 0 to |rates|
      invariant best.None? <==> forall i | 0 <= i < n :: !Applies(rates[i], base, quote, day)
      invariant best.Some? ==> 0 <= k < n && rates[k] == best.value && Applies(rates[k], base, quote, day)
      invariant best.Some? ==> forall i | 0 <= i < n && Applies(rates[i], base, quote, day) ::
                  if i < k then rates[i].asOf.value < rates[k].asOf.value else rates[i].asOf.value <= rates[k].asOf.value
    {
      var candidate := rates[n];
      if candidate.base != base || candidate.quote != quote { continue; }
      if candidate.asOf.None? || candidate.asOf.value > day { continue; }
      if best.Some? && best.value.asOf.Some? && candidate.asOf.value <= best.value.asOf.value { continue; }
      best, k := Some(candidate), n;
    }
  }
}
