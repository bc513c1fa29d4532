module Plans {
  /**
   What a plan comes to for a quantity, charged band by band, against what each unit costs
   on its own. Prices are exact; a band is rounded to whole minor units.
   */

  import opened Numbers
  import opened Wrappers

  /** A band up to and including a quantity, or without end. */
  datatype Tier = Tier(upTo: Option<int>, unitPrice: real)

  datatype Plan = Plan(basePrice: int, includedQuantity: nat, tiers: seq<Tier>)

  /** To the nearest, halves up. */
  function Rounded(x: real): int { (x + 0.5).Floor }

  function Ceil(x: real): int { -((-x).Floor) }

  function Billable(plan: Plan, quantity: real): nat { Max(0, Ceil(quantity) - plan.includedQuantity) }

  /** What is billed is the fewest whole units that with what is included cover the quantity: a part of one counts whole. */
  lemma BillableCovers(plan: Plan, quantity: real)
    ensures var billable := Billable(plan, quantity);
            && quantity <= (plan.includedQuantity + billable) as real
            && (billable > 0 ==> (plan.includedQuantity + billable - 1) as real < quantity)
  {
  }

  /** A band's charge is within half a minor unit of the exact one, and halves go up. */
  lemma ChargeIsNearest(units: nat, unitPrice: real)
    ensures var exact := units as real * unitPrice; exact - 0.5 < Charge(units, unitPrice) as real <= exact + 0.5
  {
  }

  /** How many of the remaining units fall in the band above `floor`. */
  function InBand(tier: Tier, remaining: nat, floor: int): nat {
    if tier.upTo.None? then remaining else Min(remaining, Max(0, tier.upTo.value - floor))
  }

  function Charge(units: nat, unitPrice: real): int { Rounded(units as real * unitPrice) }

  /** The bands from the `k`th on, and whatever is past the last at the last one's price. */
  function Bands(tiers: seq<Tier>, k: nat, remaining: nat, floor: int): int
    requires k <= |tiers| && tiers != []
    decreases |tiers| - k
  {
    if remaining == 0 then 0
    else if k == |tiers| then Charge(remaining, tiers[|tiers| - 1].unitPrice)
    else
      var units := InBand(tiers[k], remaining, floor);
      Charge(units, tiers[k].unitPrice)
      + Bands(tiers, k + 1, remaining - units, if tiers[k].upTo.Some? then tiers[k].upTo.value else floor)
  }

  function Price(plan: Plan, quantity: real): int {
    plan.basePrice
    + if Billable(plan, quantity) == 0 || plan.tiers == [] then 0
      else Bands(plan.tiers, 0, Billable(plan, quantity), plan.includedQuantity)
  }

  method PriceFor(plan: Plan, quantity: real) returns (total: int)
    ensures total == Price(plan, quantity)
  {
    var billable := Billable(plan, quantity);
    if billable == 0 || |plan.tiers| == 0 { return plan.basePrice; }
    var remaining: nat := billable;
    total := plan.basePrice;
    var floor: int := plan.includedQuantity;
    var k := 0;
    while k < |plan.tiers|
      invariant k <= |plan.tiers|
      invariant total + Bands(plan.tiers, k, remaining, floor) == Price(plan, quantity)
    {
      if remaining <= 0 { break; }
      var tier := plan.tiers[k];
      var inBand := InBand(tier, remaining, floor);
      total := total + Charge(inBand, tier.unitPrice);
      remaining := remaining - inBand;
      if tier.upTo.Some? { floor := tier.upTo.value; }
      k := k + 1;
    }
    if remaining > 0 {
      total := total + Charge(remaining, plan.tiers[|plan.tiers| - 1].unitPrice);
    }
  }

  // --- Unit by unit --------------------------------------------------------------------------

  /** The `n`th unit's price: the first band that reaches it, or the last of all. */
  function UnitPrice(tiers: seq<Tier>, k: nat, n: int): real
    requires k < |tiers|
    decreases |tiers| - k
  {
    if k == |tiers| - 1 || tiers[k].upTo.None? || n <= tiers[k].upTo.value then tiers[k].unitPrice
    else UnitPrice(tiers, k + 1, n)
  }

  /** Units `from + 1` to `from + count`, each at its own price. */
  function Graduated(tiers: seq<Tier>, from: int, count: nat): real
    requires tiers != []
  {
    if count == 0 then 0.0 else Graduated(tiers, from, count - 1) + UnitPrice(tiers, 0, from + count)
  }

  predicate IsWhole(x: real) { x == x.Floor as real }

  predicate WholePrices(tiers: seq<Tier>) {
    forall i | 0 <= i < |tiers| :: IsWhole(tiers[i].unitPrice)
  }

  /** Ceilings never fall, and the first is not below what is included; a band without end is the last to matter. */
  predicate Rising(tiers: seq<Tier>, included: int) {
    && (forall i | 0 <= i < |tiers| && tiers[i].upTo.Some? :: tiers[i].upTo.value >= included)
    && (forall i, j | 0 <= i < j < |tiers| && tiers[i].upTo.Some? && tiers[j].upTo.Some? :: tiers[i].upTo.value <= tiers[j].upTo.value)
  }

  lemma {:induction false} GraduatedSplits(tiers: seq<Tier>, from: int, a: nat, b: nat)
    requires tiers != []
    ensures Graduated(tiers, from, a + b) == Graduated(tiers, from, a) + Graduated(tiers, from + a, b)
    decreases b
  {
    if b > 0 { GraduatedSplits(tiers, from, a, b - 1); }
  }

  /** Bands before the `k`th end before these units begin. */
  predicate PastBands(tiers: seq<Tier>, k: nat, floor: int)
    requires k <= |tiers|
  {
    forall i | 0 <= i < k :: tiers[i].upTo.Some? && tiers[i].upTo.value <= floor
  }

  lemma {:induction false} UnitIn(tiers: seq<Tier>, j: nat, k: nat, n: int)
    requires j <= k <= |tiers| && tiers != [] && PastBands(tiers, k, n - 1)
    requires j < |tiers| && (k < |tiers| ==> k == |tiers| - 1 || tiers[k].upTo.None? || n <= tiers[k].upTo.value)
    ensures UnitPrice(tiers, j, n) == tiers[if k < |tiers| then k else |tiers| - 1].unitPrice
    decreases |tiers| - j
  {
    if j < k && j < |tiers| - 1 { UnitIn(tiers, j + 1, k, n); }
  }

  /** Units of one band cost what the band charges for them. */
  lemma {:induction false} UnitsOfBand(tiers: seq<Tier>, k: nat, floor: int, count: nat)
    requires k <= |tiers| && tiers != [] && PastBands(tiers, k, floor) && WholePrices(tiers)
    requires k < |tiers| - 1 && tiers[k].upTo.Some? && count > 0 ==> floor + count <= tiers[k].upTo.value
    ensures var price := tiers[if k < |tiers| then k else |tiers| - 1].unitPrice;
            Graduated(tiers, floor, count) == count as real * price == Charge(count, price) as real
    decreases count
  {
    var price := tiers[if k < |tiers| then k else |tiers| - 1].unitPrice;
    WholeCharge(count, price);
    if count > 0 {
      UnitsOfBand(tiers, k, floor, count - 1);
      UnitIn(tiers, 0, k, floor + count);
      OneMoreUnit(count, price);
    }
  }

  lemma OneMoreUnit(count: nat, price: real)
    requires count > 0
    ensures (count - 1) as real * price + price == count as real * price
  {
  }

  lemma WholeCharge(count: nat, price: real)
    requires IsWhole(price)
    ensures Charge(count, price) as real == count as real * price
  {
    hide Rounded;
    var whole := price.Floor;
    assert price == whole as real;
    hide IsWhole;
    WholeProduct(count, price, whole);
    RoundedWhole(count as real * price, count * whole);
  }

  lemma WholeProduct(count: nat, price: real, whole: int)
    requires price == whole as real
    ensures count as real * price == (count * whole) as real
  {
    Multiplied(count, whole);
  }

  lemma RoundedWhole(x: real, whole: int)
    requires x == whole as real
    ensures Rounded(x) == whole
  {
  }

  lemma Multiplied(a: int, b: int)
    ensures (a * b) as real == a as real * b as real
  {
  }

  // --- When the bands are where the units are ----------------------------------------------

  type Ceilings = seq<Option<int>>

  function CeilingsOf(tiers: seq<Tier>): (ceilings: Ceilings)
    ensures |ceilings| == |tiers| && forall i | 0 <= i < |tiers| :: ceilings[i] == tiers[i].upTo
  {
    seq(|tiers|, i requires 0 <= i < |tiers| => tiers[i].upTo)
  }

  predicate AllBounded(ceilings: Ceilings, k: nat)
    requires k <= |ceilings|
  {
    forall i | 0 <= i < k :: ceilings[i].Some?
  }

  /** Where the `k`th band begins for the code: at the ceiling before it, or past what is included. */
  function FloorOf(ceilings: Ceilings, k: nat, included: int): int
    requires k <= |ceilings| && AllBounded(ceilings, k)
  {
    if k == 0 then included else ceilings[k - 1].value
  }

  /** Where it begins for the units: past what is included and every ceiling before it. */
  function TopOf(ceilings: Ceilings, k: nat, included: int): (top: int)
    requires k <= |ceilings| && AllBounded(ceilings, k)
    ensures top >= included && forall i | 0 <= i < k :: ceilings[i].value <= top
    ensures top == included || exists i :: 0 <= i < k && ceilings[i].value == top
  {
    if k == 0 then included else Max(TopOf(ceilings, k - 1, included), ceilings[k - 1].value)
  }

  /** The band holds nothing, or begins past what is included and every earlier ceiling. */
  predicate BandFits(ceilings: Ceilings, k: nat, included: int)
    requires 0 < k < |ceilings| && AllBounded(ceilings, k + 1)
  {
    || ceilings[k].value <= ceilings[k - 1].value
    || (included <= ceilings[k - 1].value && forall i | 0 <= i < k - 1 :: ceilings[i].value <= ceilings[k - 1].value)
  }

  /** So does every bounded band that only bounded ones come before, but the first and the last. */
  predicate BandsFit(ceilings: Ceilings, included: int) {
    forall k | 0 < k < |ceilings| - 1 && AllBounded(ceilings, k + 1) :: BandFits(ceilings, k, included)
  }

  /** Then the code's band holds just the units that reach no further than it, and ends where the next one's units begin. */
  lemma SameUnits(tier: Tier, ceilings: Ceilings, k: nat, remaining: nat, included: int)
    requires k < |ceilings| - 1 && ceilings[k] == tier.upTo && AllBounded(ceilings, k) && BandsFit(ceilings, included)
    ensures var units, from := InBand(tier, remaining, FloorOf(ceilings, k, included)), TopOf(ceilings, k, included);
            && units <= remaining
            && (tier.upTo.Some? && units > 0 ==> from + units <= tier.upTo.value)
            && (units < remaining ==> tier.upTo.Some? && from + units == TopOf(ceilings, k + 1, included))
  {
    if k > 0 && tier.upTo.Some? { assert BandFits(ceilings, k, included); }
  }

  /** The last band charges what is left at one price, within its ceiling or past it. */
  lemma LastBand(tiers: seq<Tier>, remaining: nat, floor: int, from: int)
    requires tiers != [] && WholePrices(tiers) && PastBands(tiers, |tiers| - 1, from)
    ensures Bands(tiers, |tiers| - 1, remaining, floor) as real == Graduated(tiers, from, remaining)
  {
    hide Charge;
    var k := |tiers| - 1;
    var units := InBand(tiers[k], remaining, floor);
    UnitsOfBand(tiers, k, from, units);
    UnitsOfBand(tiers, k, from, remaining);
    WholeCharge(remaining - units, tiers[k].unitPrice);
    SplitCharge(units, remaining - units, tiers[k].unitPrice);
  }

  lemma SplitCharge(a: nat, b: nat, price: real)
    ensures a as real * price + b as real * price == (a + b) as real * price
  {
  }

  lemma {:induction false} BandsAreGraduated(tiers: seq<Tier>, k: nat, remaining: nat, included: int)
    requires k < |tiers| && WholePrices(tiers) && AllBounded(CeilingsOf(tiers), k) && BandsFit(CeilingsOf(tiers), included)
    ensures var ceilings := CeilingsOf(tiers);
            Bands(tiers, k, remaining, FloorOf(ceilings, k, included)) as real == Graduated(tiers, TopOf(ceilings, k, included), remaining)
    decreases |tiers| - k
  {
    hide Charge, BandsFit, WholePrices, InBand, TopOf;
    var ceilings := CeilingsOf(tiers);
    var floor, from := FloorOf(ceilings, k, included), TopOf(ceilings, k, included);
    if remaining == 0 {
    } else if k == |tiers| - 1 {
      LastBand(tiers, remaining, floor, from);
    } else {
      var tier := tiers[k];
      var units := InBand(tier, remaining, floor);
      SameUnits(tier, ceilings, k, remaining, included);
      UnitsOfBand(tiers, k, from, units);
      GraduatedSplits(tiers, from, units, remaining - units);
      if units < remaining { BandsAreGraduated(tiers, k + 1, remaining - units, included); }
    }
  }

  /** Each unit past the included is charged at its own price. */
  predicate UnitByUnit(plan: Plan, quantity: real)
    requires plan.tiers != []
  {
    Price(plan, quantity) as real
    == plan.basePrice as real + Graduated(plan.tiers, plan.includedQuantity, Billable(plan, quantity))
  }

  lemma FittingBandsCharge(plan: Plan, quantity: real)
    requires plan.tiers != [] && WholePrices(plan.tiers) && BandsFit(CeilingsOf(plan.tiers), plan.includedQuantity)
    ensures UnitByUnit(plan, quantity)
  {
    if Billable(plan, quantity) > 0 {
      BandsAreGraduated(plan.tiers, 0, Billable(plan, quantity), plan.includedQuantity);
    }
  }

  /** With whole prices and rising bands the plan charges each unit past the included at its own price. */
  lemma ChargedUnitByUnit(plan: Plan, quantity: real)
    requires plan.tiers != [] && WholePrices(plan.tiers) && Rising(plan.tiers, plan.includedQuantity)
    ensures Price(plan, quantity) as real
            == plan.basePrice as real + Graduated(plan.tiers, plan.includedQuantity, Billable(plan, quantity))
  {
    FittingBandsCharge(plan, quantity);
  }

  // --- And when one is not -------------------------------------------------------------------

  /** A first ceiling below what is included moves the next band's start back, and makes it too wide. */
  lemma LowCeilingMischarges()
    ensures var plan := Plan(0, 10, [Tier(Some(5), 1.0), Tier(Some(12), 2.0), Tier(None, 3.0)]);
            && Price(plan, 16.0) == 12
            && Graduated(plan.tiers, 10, 6) == 16.0
  {
    var tiers := [Tier(Some(5), 1.0), Tier(Some(12), 2.0), Tier(None, 3.0)];
    assert Bands(tiers, 1, 6, 5) == Charge(6, 2.0) + Bands(tiers, 2, 0, 12);
    assert Graduated(tiers, 10, 1) == 2.0 && Graduated(tiers, 10, 2) == 4.0 && Graduated(tiers, 10, 3) == 7.0;
    assert Graduated(tiers, 10, 4) == 10.0 && Graduated(tiers, 10, 5) == 13.0;
  }

  /** How many units the code puts in the bands before the `k`th. */
  function Filled(ceilings: Ceilings, k: nat, included: int): nat
    requires k <= |ceilings| && AllBounded(ceilings, k)
  {
    if k == 0 then 0
    else Filled(ceilings, k - 1, included) + Max(0, ceilings[k - 1].value - FloorOf(ceilings, k - 1, included))
  }

  /** Never fewer than belong there, and more from a band that does not fit on. */
  lemma {:induction false} FilledTooMuch(ceilings: Ceilings, k: nat, included: int)
    requires k < |ceilings| && AllBounded(ceilings, k)
    ensures Filled(ceilings, k, included) >= TopOf(ceilings, k, included) - included
    ensures k > 1 && !BandFits(ceilings, k - 1, included) ==> Filled(ceilings, k, included) > TopOf(ceilings, k, included) - included
  {
    if k > 0 { FilledTooMuch(ceilings, k - 1, included); }
  }

  /** Free up to and with the `k`th band, one for each unit past it. */
  function Priced(ceilings: Ceilings, k: nat): (tiers: seq<Tier>)
    ensures CeilingsOf(tiers) == ceilings && WholePrices(tiers)
  {
    seq(|ceilings|, i requires 0 <= i < |ceilings| => Tier(ceilings[i], if i <= k then 0.0 else 1.0))
  }

  lemma {:induction false} FilledGrows(ceilings: Ceilings, j: nat, k: nat, included: int)
    requires j <= k <= |ceilings| && AllBounded(ceilings, k)
    ensures Filled(ceilings, j, included) <= Filled(ceilings, k, included)
    decreases k
  {
    if j < k { FilledGrows(ceilings, j, k - 1, included); }
  }

  lemma FreeOfCharge(ceilings: Ceilings, k: nat, j: nat, units: nat)
    requires j <= k && j < |ceilings|
    ensures Charge(units, Priced(ceilings, k)[j].unitPrice) == 0
  {
    assert units as real * 0.0 == 0.0;
  }

  lemma NoneLeft(tiers: seq<Tier>, j: nat, floor: int)
    requires j <= |tiers| && tiers != []
    ensures Bands(tiers, j, 0, floor) == 0
  {
  }

  /** What one bounded band takes, and what is left to the next. */
  lemma OneBand(tiers: seq<Tier>, j: nat, remaining: nat, floor: int) returns (units: nat)
    requires j < |tiers| && remaining > 0 && tiers[j].upTo.Some?
    ensures units == Min(remaining, Max(0, tiers[j].upTo.value - floor))
    ensures Bands(tiers, j, remaining, floor) == Charge(units, tiers[j].unitPrice) + Bands(tiers, j + 1, remaining - units, tiers[j].upTo.value)
  {
    hide Charge;
    units := InBand(tiers[j], remaining, floor);
  }

  lemma {:induction false} FilledIsFree(ceilings: Ceilings, k: nat, j: nat, remaining: nat, included: int)
    requires j <= k + 1 <= |ceilings| && AllBounded(ceilings, k + 1)
    requires remaining + Filled(ceilings, j, included) <= Filled(ceilings, k + 1, included)
    ensures Bands(Priced(ceilings, k), j, remaining, FloorOf(ceilings, j, included)) == 0
    decreases k + 1 - j
  {
    hide Charge, Priced, Bands, InBand;
    var tiers := Priced(ceilings, k);
    if remaining == 0 || j == k + 1 {
      NoneLeft(tiers, j, FloorOf(ceilings, j, included));
    } else {
      var floor := FloorOf(ceilings, j, included);
      var units := OneBand(tiers, j, remaining, floor);
      FreeOfCharge(ceilings, k, j, units);
      FilledGrows(ceilings, j + 1, k + 1, included);
      FilledIsFree(ceilings, k, j + 1, remaining - units, included);
    }
  }

  lemma {:induction false} PastIsCharged(tiers: seq<Tier>, k: nat, j: nat, n: int)
    requires j <= k < |tiers| - 1 && PastBands(tiers, k + 1, n - 1)
    ensures UnitPrice(tiers, j, n) == UnitPrice(tiers, k + 1, n)
    decreases k - j
  {
    if j < k { PastIsCharged(tiers, k, j + 1, n); }
  }

  lemma {:induction false} PricedFrom(ceilings: Ceilings, k: nat, j: nat, n: int)
    requires j < |ceilings|
    ensures UnitPrice(Priced(ceilings, k), j, n) >= 0.0 && (j > k ==> UnitPrice(Priced(ceilings, k), j, n) == 1.0)
    decreases |ceilings| - j
  {
    if j < |ceilings| - 1 { PricedFrom(ceilings, k, j + 1, n); }
  }

  lemma {:induction false} NeverNegative(ceilings: Ceilings, k: nat, from: int, count: nat)
    requires ceilings != []
    ensures Graduated(Priced(ceilings, k), from, count) >= 0.0
  {
    if count > 0 {
      NeverNegative(ceilings, k, from, count - 1);
      PricedFrom(ceilings, k, 0, from + count);
    }
  }

  /** A band that does not fit takes in units that belong past it. */
  lemma BadBandMischarges(ceilings: Ceilings, included: nat, k: nat) returns (plan: Plan, quantity: real)
    requires 0 < k < |ceilings| - 1 && AllBounded(ceilings, k + 1) && !BandFits(ceilings, k, included)
    ensures HasCeilings(plan, ceilings, included) && WholePrices(plan.tiers) && !UnitByUnit(plan, quantity)
  {
    hide Bands, Graduated, UnitPrice, Billable, Priced, UnitByUnit, Price, Charge, Ceil;
    var tiers := Priced(ceilings, k);
    var n := Filled(ceilings, k + 1, included);
    plan, quantity := Plan(0, included, tiers), (included + n) as real;
    FilledTooMuch(ceilings, k + 1, included);
    FilledIsFree(ceilings, k, 0, n, included);
    NeverNegative(ceilings, k, included, n - 1);
    PastIsCharged(tiers, k, 0, included + n);
    PricedFrom(ceilings, k, k + 1, included + n);
    BillableOf(plan, n);
    FreeThoughCharged(plan, quantity, n);
  }

  lemma FreeThoughCharged(plan: Plan, quantity: real, n: nat)
    requires plan.tiers != [] && plan.basePrice == 0 && Billable(plan, quantity) == n > 0
    requires Bands(plan.tiers, 0, n, plan.includedQuantity) == 0
    requires Graduated(plan.tiers, plan.includedQuantity, n - 1) >= 0.0 && UnitPrice(plan.tiers, 0, plan.includedQuantity + n) == 1.0
    ensures !UnitByUnit(plan, quantity)
  {
    hide Bands, UnitPrice, Billable;
  }

  lemma BillableOf(plan: Plan, n: nat)
    ensures Billable(plan, (plan.includedQuantity + n) as real) == n
  {
  }

  predicate HasCeilings(plan: Plan, ceilings: Ceilings, included: nat) {
    CeilingsOf(plan.tiers) == ceilings && plan.includedQuantity == included
  }

  /** Every plan of these ceilings, with whole prices, charges every quantity unit by unit. */
  ghost predicate ChargesUnitByUnit(ceilings: Ceilings, included: nat)
    requires ceilings != []
  {
    forall plan: Plan, quantity: real | HasCeilings(plan, ceilings, included) && WholePrices(plan.tiers) :: UnitByUnit(plan, quantity)
  }

  /**
   What the ceilings must be for that, and no more: with a first ceiling below what is
   included, say, the band after it must be empty, without end or the last.
   */
  lemma ChargesUnitByUnitIff(ceilings: Ceilings, included: nat)
    requires ceilings != []
    ensures ChargesUnitByUnit(ceilings, included) <==> BandsFit(ceilings, included)
  {
    if BandsFit(ceilings, included) {
      forall plan: Plan, quantity: real | HasCeilings(plan, ceilings, included) && WholePrices(plan.tiers)
        ensures UnitByUnit(plan, quantity)
      {
        FittingBandsCharge(plan, quantity);
      }
    } else {
      var k :| 0 < k < |ceilings| - 1 && AllBounded(ceilings, k + 1) && !BandFits(ceilings, k, included);
      var plan, quantity := BadBandMischarges(ceilings, included, k);
    }
  }
}
