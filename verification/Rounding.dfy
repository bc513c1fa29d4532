module Rounding {
  /**
   Seven rounding modes, twice: on a real by its floor, and on a fraction of integers by
   quotient and remainder. What each mode means is stated on its own, and both mean it.
   */

  import opened Wrappers

  datatype RoundingMode = HalfUp | HalfDown | HalfEven | Up | Down | Ceiling | Floor

  // --- What the modes mean ----------------------------------------------------------------

  function Distance(r: int, x: real): real {
    if r as real >= x then r as real - x else x - r as real
  }

  predicate IsFloor(r: int, x: real) { r as real <= x < r as real + 1.0 }

  predicate IsCeiling(r: int, x: real) { r as real - 1.0 < x <= r as real }

  /** The nearest integer; of two as near, the one further from zero, nearer to it, or even. */
  predicate IsNearest(r: int, x: real, mode: RoundingMode) {
    && Distance(r, x) <= 0.5
    && (Distance(r, x) == 0.5 && mode == HalfUp ==> (if x >= 0.0 then r as real > x else r as real < x))
    && (Distance(r, x) == 0.5 && mode == HalfDown ==> (if x >= 0.0 then r as real < x else r as real > x))
    && (Distance(r, x) == 0.5 && mode == HalfEven ==> r % 2 == 0)
  }

  predicate IsRounding(r: int, x: real, mode: RoundingMode) {
    match mode
    case Floor => IsFloor(r, x)
    case Ceiling => IsCeiling(r, x)
    case Down => if x >= 0.0 then IsFloor(r, x) else IsCeiling(r, x)
    case Up => if x >= 0.0 then IsCeiling(r, x) else IsFloor(r, x)
    case _ => IsNearest(r, x, mode)
  }

  /** In no mode does rounding change the order, so a number rounds to one integer only. */
  lemma RoundingIsMonotone(r: int, x: real, s: int, y: real, mode: RoundingMode)
    requires IsRounding(r, x, mode) && IsRounding(s, y, mode) && x <= y
    ensures r <= s
  {
  }

  // --- By the floor ------------------------------------------------------------------------

  function RoundToInteger(value: real, mode: RoundingMode): (r: int)
    ensures IsRounding(r, value, mode)
  {
    var floor := value.Floor;
    var remainder := value - floor as real;
    if remainder == 0.0 then floor
    else
      var half := remainder == 0.5;
      match mode
      case Ceiling => floor + 1
      case Floor => floor
      case Up => if value > 0.0 then floor + 1 else floor
      case Down => if value > 0.0 then floor else floor + 1
      case HalfUp =>
        if half then (if value > 0.0 then floor + 1 else floor) else if remainder > 0.5 then floor + 1 else floor
      case HalfDown =>
        if half then (if value > 0.0 then floor else floor + 1) else if remainder > 0.5 then floor + 1 else floor
      case HalfEven =>
        if !half then (if remainder > 0.5 then floor + 1 else floor) else if floor % 2 == 0 then floor else floor + 1
  }

  // --- By quotient and remainder -------------------------------------------------------------

  function RoundMagnitude(quotient: nat, twiceRemainder: nat, divisor: nat, negative: bool, mode: RoundingMode): nat {
    match mode
    case Up => quotient + 1
    case Down => quotient
    case Ceiling => if negative then quotient else quotient + 1
    case Floor => if negative then quotient + 1 else quotient
    case HalfUp => if twiceRemainder >= divisor then quotient + 1 else quotient
    case HalfDown => if twiceRemainder > divisor then quotient + 1 else quotient
    case HalfEven =>
      if twiceRemainder > divisor then quotient + 1
      else if twiceRemainder < divisor then quotient
      else if quotient % 2 == 0 then quotient else quotient + 1
  }

  function Magnitude(numerator: int, denominator: int): nat {
    var signed := if denominator < 0 then -numerator else numerator;
    if signed < 0 then -signed else signed
  }

  function Divisor(denominator: int): nat { if denominator < 0 then -denominator else denominator }

  predicate Negative(numerator: int, denominator: int) {
    if denominator < 0 then numerator > 0 else numerator < 0
  }

  function Settled(quotient: nat, remainder: nat, divisor: nat, negative: bool, mode: RoundingMode): int {
    var size: int := if remainder == 0 then quotient else RoundMagnitude(quotient, 2 * remainder, divisor, negative, mode);
    if negative then -size else size
  }

  function DivideRounded(numerator: int, denominator: int, mode: RoundingMode): Option<int> {
    if denominator == 0 then None
    else
      var divisor, magnitude := Divisor(denominator), Magnitude(numerator, denominator);
      Some(Settled(magnitude / divisor, magnitude % divisor, divisor, Negative(numerator, denominator), mode))
  }

  function Quotient(numerator: int, denominator: int): real
    requires denominator != 0
  {
    numerator as real / denominator as real
  }

  /** The quotient of reals is the integer quotient and a fraction that is compared by its remainder. */
  lemma Parts(magnitude: nat, divisor: nat) returns (fraction: real)
    requires divisor > 0
    ensures Quotient(magnitude, divisor) == (magnitude / divisor) as real + fraction && 0.0 <= fraction < 1.0
    ensures fraction == 0.0 <==> magnitude % divisor == 0
    ensures fraction < 0.5 <==> 2 * (magnitude % divisor) < divisor
    ensures fraction == 0.5 <==> 2 * (magnitude % divisor) == divisor
  {
    var quotient, remainder := magnitude / divisor, magnitude % divisor;
    fraction := remainder as real / divisor as real;
    DividesInto(magnitude, divisor, quotient, remainder);
    Compared(remainder, divisor);
  }

  lemma DividesInto(magnitude: nat, divisor: nat, quotient: nat, remainder: nat)
    requires divisor > 0 && magnitude == quotient * divisor + remainder
    ensures Quotient(magnitude, divisor) == quotient as real + remainder as real / divisor as real
  {
    var d := divisor as real;
    assert magnitude as real == quotient as real * d + remainder as real;
    assert quotient as real * d / d == quotient as real;
  }

  lemma Compared(remainder: nat, divisor: nat)
    requires remainder < divisor
    ensures var fraction := remainder as real / divisor as real;
            && 0.0 <= fraction < 1.0 && (fraction == 0.0 <==> remainder == 0)
            && (fraction < 0.5 <==> 2 * remainder < divisor) && (fraction == 0.5 <==> 2 * remainder == divisor)
  {
    var fraction := remainder as real / divisor as real;
    assert fraction * divisor as real == remainder as real;
    InOrder(fraction, 0.5, divisor as real);
    InOrder(0.5, fraction, divisor as real);
    InOrder(fraction, 1.0, divisor as real);
  }

  lemma InOrder(a: real, b: real, scale: real)
    requires scale > 0.0
    ensures a < b <==> a * scale < b * scale
  {
    if a < b { assert (b - a) * scale > 0.0; } else { assert (a - b) * scale >= 0.0; }
  }

  lemma SignedQuotient(numerator: int, denominator: int)
    requires denominator != 0
    ensures Quotient(numerator, denominator)
            == if Negative(numerator, denominator) then -Quotient(Magnitude(numerator, denominator), Divisor(denominator))
               else Quotient(Magnitude(numerator, denominator), Divisor(denominator))
  {
  }

  lemma SettledRounds(quotient: nat, fraction: real, remainder: nat, divisor: nat, negative: bool, mode: RoundingMode)
    requires 0.0 <= fraction < 1.0 && (fraction == 0.0 <==> remainder == 0)
    requires (fraction < 0.5 <==> 2 * remainder < divisor) && (fraction == 0.5 <==> 2 * remainder == divisor)
    ensures var x := quotient as real + fraction;
            IsRounding(Settled(quotient, remainder, divisor, negative, mode), if negative then -x else x, mode)
  {
  }

  /** What is settled, and how far above the quotient the magnitude is. */
  lemma SettledOf(numerator: int, denominator: int, mode: RoundingMode) returns (quotient: nat, remainder: nat, fraction: real)
    requires denominator != 0
    ensures DivideRounded(numerator, denominator, mode)
            == Some(Settled(quotient, remainder, Divisor(denominator), Negative(numerator, denominator), mode))
    ensures Quotient(Magnitude(numerator, denominator), Divisor(denominator)) == quotient as real + fraction && 0.0 <= fraction < 1.0
    ensures (fraction == 0.0 <==> remainder == 0) && (fraction < 0.5 <==> 2 * remainder < Divisor(denominator))
    ensures fraction == 0.5 <==> 2 * remainder == Divisor(denominator)
  {
    hide Settled, Quotient, Negative;
    var divisor, magnitude := Divisor(denominator), Magnitude(numerator, denominator);
    quotient, remainder := magnitude / divisor, magnitude % divisor;
    fraction := Parts(magnitude, divisor);
  }

  lemma DivideRoundedRounds(numerator: int, denominator: int, mode: RoundingMode)
    requires denominator != 0
    ensures IsRounding(DivideRounded(numerator, denominator, mode).value, Quotient(numerator, denominator), mode)
  {
    hide IsRounding, Settled, Quotient, Magnitude, Divisor, Negative;
    var divisor, negative := Divisor(denominator), Negative(numerator, denominator);
    var quotient, remainder, fraction := SettledOf(numerator, denominator, mode);
    SignedQuotient(numerator, denominator);
    SettledRounds(quotient, fraction, remainder, divisor, negative, mode);
  }

  /** The two rounders agree on every fraction in every mode. */
  lemma RoundersAgree(numerator: int, denominator: int, mode: RoundingMode)
    requires denominator != 0
    ensures DivideRounded(numerator, denominator, mode) == Some(RoundToInteger(Quotient(numerator, denominator), mode))
  {
    DivideRoundedRounds(numerator, denominator, mode);
    var r, s := DivideRounded(numerator, denominator, mode).value, RoundToInteger(Quotient(numerator, denominator), mode);
    var x := Quotient(numerator, denominator);
    RoundingIsMonotone(r, x, s, x, mode);
    RoundingIsMonotone(s, x, r, x, mode);
  }
}
