module Allocation {
  /**
   Splitting an amount over weighted shares by largest remainders, in exact arithmetic:
   integer parts first, then one unit each to the largest fractions.
   */

  import opened Wrappers

  datatype Refusal = NoRatios | BadRatio | NoWeight | BadParts

  function Sum(s: seq<real>): real {
    if s == [] then 0.0 else Sum(s[..|s| - 1]) + s[|s| - 1]
  }

  function SumInt(s: seq<int>): int {
    if s == [] then 0 else SumInt(s[..|s| - 1]) + s[|s| - 1]
  }

  function Abs(x: int): nat { if x < 0 then -x else x }

  function Sign(x: int): int { if x < 0 then -1 else 1 }

  predicate Weighted(ratios: seq<real>) {
    (forall i | 0 <= i < |ratios| :: ratios[i] >= 0.0) && Sum(ratios) > 0.0
  }

  /** What a share would be if units could be cut. */
  function Quota(magnitude: nat, ratio: real, total: real): real
    requires total > 0.0
  {
    magnitude as real * ratio / total
  }

  function ExactShare(amount: int, ratio: real, total: real): real
    requires total > 0.0
  {
    amount as real * ratio / total
  }

  function Quotas(magnitude: nat, ratios: seq<real>): seq<real>
    requires Weighted(ratios)
  {
    seq(|ratios|, i requires 0 <= i < |ratios| => Quota(magnitude, ratios[i], Sum(ratios)))
  }

  function Fraction(x: real): real { x - x.Floor as real }

  /** The larger fraction goes first; of equal ones, the earlier. */
  predicate Precedes(quotas: seq<real>, i: nat, j: nat)
    requires i < |quotas| && j < |quotas|
  {
    Fraction(quotas[i]) > Fraction(quotas[j]) || (Fraction(quotas[i]) == Fraction(quotas[j]) && i < j)
  }

  predicate ToppedUp(quotas: seq<real>, sizes: seq<int>, i: nat)
    requires |sizes| == |quotas| && i < |quotas|
  {
    sizes[i] == quotas[i].Floor + 1
  }

  /** Sizes that add up, each its quota's integer part or one more, the extra units where fractions come first. */
  ghost predicate LargestRemainders(quotas: seq<real>, sizes: seq<int>, magnitude: nat) {
    && |sizes| == |quotas|
    && SumInt(sizes) == magnitude
    && (forall i | 0 <= i < |sizes| :: sizes[i] == quotas[i].Floor || sizes[i] == quotas[i].Floor + 1)
    && (forall i, j | 0 <= i < |sizes| && 0 <= j < |sizes| && ToppedUp(quotas, sizes, i) && !ToppedUp(quotas, sizes, j) ::
         Precedes(quotas, i, j))
  }

  function Signed(sign: int, sizes: seq<int>): (r: seq<int>)
    ensures |r| == |sizes| && forall i | 0 <= i < |r| :: r[i] == sign * sizes[i]
  {
    seq(|sizes|, i requires 0 <= i < |sizes| => sign * sizes[i])
  }

  ghost predicate IsAllocation(amount: int, ratios: seq<real>, shares: seq<int>)
    requires Weighted(ratios)
  {
    exists sizes :: LargestRemainders(Quotas(Abs(amount), ratios), sizes, Abs(amount)) && shares == Signed(Sign(amount), sizes)
  }

  // --- Sums -------------------------------------------------------------------------------

  lemma {:induction false} QuotasAddUp(magnitude: nat, ratios: seq<real>, total: real, quotas: seq<real>)
    requires total > 0.0 && |quotas| == |ratios|
    requires forall i | 0 <= i < |ratios| :: quotas[i] == Quota(magnitude, ratios[i], total)
    ensures Sum(quotas) == Quota(magnitude, Sum(ratios), total)
    decreases |ratios|
  {
    if ratios != [] {
      var last := |ratios| - 1;
      QuotasAddUp(magnitude, ratios[..last], total, quotas[..last]);
      QuotaAdds(magnitude, Sum(ratios[..last]), ratios[last], total);
    } else {
      assert Quota(magnitude, 0.0, total) == 0.0;
    }
  }

  lemma QuotaAdds(magnitude: nat, a: real, b: real, total: real)
    requires total > 0.0
    ensures Quota(magnitude, a, total) + Quota(magnitude, b, total) == Quota(magnitude, a + b, total)
  {
    var m := magnitude as real;
    assert m * (a + b) == m * a + m * b;
  }

  lemma WholeQuota(magnitude: nat, total: real)
    requires total > 0.0
    ensures Quota(magnitude, total, total) == magnitude as real
  {
  }

  /** Term by term no less, and somewhere more: more in all. */
  lemma {:induction false} SumGrows(a: seq<real>, b: seq<int>)
    requires |a| == |b| && forall i | 0 <= i < |a| :: a[i] <= b[i] as real
    ensures Sum(a) <= SumInt(b) as real
    ensures (exists i :: 0 <= i < |a| && a[i] < b[i] as real) ==> Sum(a) < SumInt(b) as real
    decreases |a|
  {
    if a != [] {
      var last := |a| - 1;
      SumGrows(a[..last], b[..last]);
      assert forall i | 0 <= i < last :: a[..last][i] == a[i] && b[..last][i] == b[i];
    }
  }

  // --- What an allocation means ------------------------------------------------------------

  lemma QuotasSum(magnitude: nat, ratios: seq<real>)
    requires Weighted(ratios)
    ensures Sum(Quotas(magnitude, ratios)) == magnitude as real
  {
    QuotasAddUp(magnitude, ratios, Sum(ratios), Quotas(magnitude, ratios));
    WholeQuota(magnitude, Sum(ratios));
  }

  /** A share with nothing left over is never topped up: that would take every fraction's unit and one more. */
  lemma WholeQuotasStay(quotas: seq<real>, sizes: seq<int>, magnitude: nat, i: nat)
    requires LargestRemainders(quotas, sizes, magnitude) && Sum(quotas) == magnitude as real
    requires i < |quotas| && Fraction(quotas[i]) == 0.0
    ensures sizes[i] == quotas[i].Floor
  {
    if ToppedUp(quotas, sizes, i) { ToppingItOvershoots(quotas, sizes, i); }
  }

  lemma ToppingItOvershoots(quotas: seq<real>, sizes: seq<int>, i: nat)
    requires |sizes| == |quotas| && i < |quotas| && Fraction(quotas[i]) == 0.0 && ToppedUp(quotas, sizes, i)
    requires forall j | 0 <= j < |sizes| :: sizes[j] == quotas[j].Floor || sizes[j] == quotas[j].Floor + 1
    requires forall j | 0 <= j < |sizes| && !ToppedUp(quotas, sizes, j) :: Precedes(quotas, i, j)
    ensures Sum(quotas) < SumInt(sizes) as real
  {
    forall j | 0 <= j < |quotas| ensures quotas[j] <= sizes[j] as real {
      assert ToppedUp(quotas, sizes, j) || Precedes(quotas, i, j);
    }
    assert quotas[i] < sizes[i] as real;
    SumGrows(quotas, sizes);
  }

  /** Each share is less than one unit from its quota; a zero weight gets nothing. */
  lemma WithinOneOfQuota(amount: int, ratios: seq<real>, shares: seq<int>, i: nat)
    requires Weighted(ratios) && IsAllocation(amount, ratios, shares) && i < |ratios|
    ensures |shares| == |ratios|
    ensures -1.0 < shares[i] as real - ExactShare(amount, ratios[i], Sum(ratios)) < 1.0
    ensures ratios[i] == 0.0 ==> shares[i] == 0
  {
    var quotas := Quotas(Abs(amount), ratios);
    assert quotas[i] == Quota(Abs(amount), ratios[i], Sum(ratios));
    hide Quota, Quotas, ExactShare, Sum;
    var sizes :| LargestRemainders(quotas, sizes, Abs(amount)) && shares == Signed(Sign(amount), sizes);
    QuotasSum(Abs(amount), ratios);
    SignedQuota(amount, ratios[i], Sum(ratios));
    NoWeightNoQuota(Abs(amount), Sum(ratios));
    if Fraction(quotas[i]) == 0.0 { WholeQuotasStay(quotas, sizes, Abs(amount), i); }
  }

  lemma SignedQuota(amount: int, ratio: real, total: real)
    requires total > 0.0
    ensures ExactShare(amount, ratio, total) == if amount < 0 then -Quota(Abs(amount), ratio, total) else Quota(Abs(amount), ratio, total)
  {
  }

  lemma NoWeightNoQuota(magnitude: nat, total: real)
    requires total > 0.0
    ensures Quota(magnitude, 0.0, total) == 0.0
  {
  }

  /** More weight never gets less, nor does the earlier of equal weights; equal weights differ by a unit at most. */
  lemma MoreWeightGetsNoLess(amount: int, ratios: seq<real>, shares: seq<int>, i: nat, j: nat)
    requires Weighted(ratios) && IsAllocation(amount, ratios, shares) && i < |ratios| && j < |ratios|
    requires ratios[i] > ratios[j] || (ratios[i] == ratios[j] && i < j)
    ensures |shares| == |ratios| && Abs(shares[i]) >= Abs(shares[j])
    ensures ratios[i] == ratios[j] ==> Abs(shares[i]) <= Abs(shares[j]) + 1
  {
    var quotas := Quotas(Abs(amount), ratios);
    var sizes :| LargestRemainders(quotas, sizes, Abs(amount)) && shares == Signed(Sign(amount), sizes);
    QuotasSum(Abs(amount), ratios);
    QuotasInOrder(Abs(amount), ratios[i], ratios[j], Sum(ratios));
    QuotaIsNotNegative(Abs(amount), ratios[i], Sum(ratios));
    QuotaIsNotNegative(Abs(amount), ratios[j], Sum(ratios));
    if Fraction(quotas[i]) == 0.0 { WholeQuotasStay(quotas, sizes, Abs(amount), i); }
    if Fraction(quotas[j]) == 0.0 { WholeQuotasStay(quotas, sizes, Abs(amount), j); }
    assert ToppedUp(quotas, sizes, j) && !ToppedUp(quotas, sizes, i) ==> Precedes(quotas, j, i);
  }

  lemma Scales(m: real, a: real, b: real)
    requires a >= b && m >= 0.0
    ensures m * a >= m * b
    ensures a > b && m > 0.0 ==> m * a > m * b
  {
  }

  lemma QuotasInOrder(magnitude: nat, a: real, b: real, total: real)
    requires total > 0.0 && a >= b
    ensures Quota(magnitude, a, total) >= Quota(magnitude, b, total)
    ensures a > b && magnitude > 0 ==> Quota(magnitude, a, total) > Quota(magnitude, b, total)
    ensures magnitude == 0 ==> Quota(magnitude, a, total) == Quota(magnitude, b, total) == 0.0
  {
    Scales(magnitude as real, a, b);
  }

  lemma QuotaIsNotNegative(magnitude: nat, a: real, total: real)
    requires total > 0.0 && a >= 0.0
    ensures Quota(magnitude, a, total) >= 0.0
  {
    assert magnitude as real * a >= 0.0;
  }

  // --- There is one allocation, and it does not depend on the sign ---------------------------

  lemma {:induction false} SomewhereLess(a: seq<int>, b: seq<int>, i: nat) returns (j: nat)
    requires |a| == |b| && SumInt(a) == SumInt(b) && i < |a| && a[i] > b[i]
    ensures j < |a| && a[j] < b[j]
  {
    if forall j | 0 <= j < |a| :: a[j] >= b[j] { SumsDiffer(a, b, i); }
    j :| 0 <= j < |a| && a[j] < b[j];
  }

  lemma {:induction false} SumsDiffer(a: seq<int>, b: seq<int>, i: nat)
    requires |a| == |b| && i < |a| && a[i] > b[i] && forall j | 0 <= j < |a| :: a[j] >= b[j]
    ensures SumInt(a) > SumInt(b)
    decreases |a|
  {
    var last := |a| - 1;
    if i < last { SumsDiffer(a[..last], b[..last], i); } else { SumsInOrder(a[..last], b[..last]); }
  }

  lemma {:induction false} SumsInOrder(a: seq<int>, b: seq<int>)
    requires |a| == |b| && forall j | 0 <= j < |a| :: a[j] >= b[j]
    ensures SumInt(a) >= SumInt(b)
    decreases |a|
  {
    if a != [] { SumsInOrder(a[..|a| - 1], b[..|b| - 1]); }
  }

  lemma SizesAreUnique(quotas: seq<real>, a: seq<int>, b: seq<int>, magnitude: nat)
    requires LargestRemainders(quotas, a, magnitude) && LargestRemainders(quotas, b, magnitude)
    ensures a == b
  {
    forall i | 0 <= i < |a| ensures a[i] == b[i] {
      NoneDiffers(quotas, a, b, magnitude, i);
      NoneDiffers(quotas, b, a, magnitude, i);
    }
  }

  lemma NoneDiffers(quotas: seq<real>, a: seq<int>, b: seq<int>, magnitude: nat, i: nat)
    requires LargestRemainders(quotas, a, magnitude) && LargestRemainders(quotas, b, magnitude) && i < |a|
    ensures a[i] <= b[i]
  {
    if a[i] > b[i] {
      var j := SomewhereLess(a, b, i);
      var _ := (ToppedUp(quotas, a, i), ToppedUp(quotas, a, j), ToppedUp(quotas, b, i), ToppedUp(quotas, b, j));
    }
  }

  /** Negating the amount negates every share. */
  lemma NegationNegates(amount: int, ratios: seq<real>, shares: seq<int>, opposite: seq<int>)
    requires Weighted(ratios) && IsAllocation(amount, ratios, shares) && IsAllocation(-amount, ratios, opposite)
    ensures |opposite| == |shares| && forall i | 0 <= i < |shares| :: opposite[i] == -shares[i]
  {
    var quotas := Quotas(Abs(amount), ratios);
    var a :| LargestRemainders(quotas, a, Abs(amount)) && shares == Signed(Sign(amount), a);
    var b :| LargestRemainders(quotas, b, Abs(amount)) && opposite == Signed(Sign(-amount), b);
    SizesAreUnique(quotas, a, b, Abs(amount));
    if amount == 0 {
      forall i | 0 <= i < |ratios| ensures a[i] == 0 {
        WithinOneOfQuota(0, ratios, shares, i);
        NothingToShare(ratios[i], Sum(ratios));
      }
    }
  }

  lemma NothingToShare(ratio: real, total: real)
    requires total > 0.0
    ensures ExactShare(0, ratio, total) == 0.0
  {
  }

  lemma {:induction false} SignedSum(sign: int, sizes: seq<int>)
    ensures SumInt(Signed(sign, sizes)) == sign * SumInt(sizes)
    decreases |sizes|
  {
    if sizes != [] {
      var last := |sizes| - 1;
      SignedSum(sign, sizes[..last]);
      assert Signed(sign, sizes)[..last] == Signed(sign, sizes[..last]);
    }
  }

  /** The shares add up to the amount. */
  lemma SharesAddUp(amount: int, ratios: seq<real>, shares: seq<int>)
    requires Weighted(ratios) && IsAllocation(amount, ratios, shares)
    ensures SumInt(shares) == amount
  {
    var sizes :| LargestRemainders(Quotas(Abs(amount), ratios), sizes, Abs(amount)) && shares == Signed(Sign(amount), sizes);
    SignedSum(Sign(amount), sizes);
  }

  // --- The code ----------------------------------------------------------------------------

  datatype Slot = Slot(index: nat, fraction: real)

  function SumSlots(slots: seq<Slot>): real {
    if slots == [] then 0.0 else SumSlots(slots[..|slots| - 1]) + slots[|slots| - 1].fraction
  }

  /** The first `n` quotas' slots, the largest fraction first. */
  ghost predicate Ordered(slots: seq<Slot>, quotas: seq<real>, n: nat)
    requires n <= |quotas|
  {
    && |slots| == n
    && (forall p | 0 <= p < |slots| :: slots[p].index < n && slots[p].fraction == Fraction(quotas[slots[p].index]))
    && (forall p, q | 0 <= p < q < |slots| :: Precedes(quotas, slots[p].index, slots[q].index))
    && (forall i: nat | i < n :: Listed(slots, i))
  }

  ghost predicate Listed(slots: seq<Slot>, i: nat) {
    exists p :: 0 <= p < |slots| && slots[p].index == i
  }

  lemma ListedAfterInsert(slots: seq<Slot>, at: nat, x: Slot, i: nat)
    requires at <= |slots| && (i == x.index || Listed(slots, i))
    ensures Listed(slots[..at] + [x] + slots[at..], i)
  {
    var longer := slots[..at] + [x] + slots[at..];
    if i == x.index {
      assert longer[at].index == i;
    } else {
      var p :| 0 <= p < |slots| && slots[p].index == i;
      assert longer[if p < at then p else p + 1].index == i;
    }
  }

  lemma {:induction false} SumInserted(slots: seq<Slot>, at: nat, x: Slot)
    requires at <= |slots|
    ensures SumSlots(slots[..at] + [x] + slots[at..]) == SumSlots(slots) + x.fraction
    decreases |slots|
  {
    var longer := slots[..at] + [x] + slots[at..];
    if at == |slots| {
      assert longer[..|slots|] == slots;
    } else {
      var last := |slots| - 1;
      SumInserted(slots[..last], at, x);
      assert longer[..|slots|] == slots[..last][..at] + [x] + slots[..last][at..];
    }
  }

  method InsertSlot(slots: seq<Slot>, quotas: seq<real>, n: nat) returns (longer: seq<Slot>)
    requires n < |quotas| && Ordered(slots, quotas, n)
    ensures Ordered(longer, quotas, n + 1) && SumSlots(longer) == SumSlots(slots) + Fraction(quotas[n])
  {
    var x := Slot(n, Fraction(quotas[n]));
    var at := |slots|;
    while at > 0 && slots[at - 1].fraction < x.fraction
      invariant 0 <= at <= |slots|
      invariant forall p | at <= p < |slots| :: slots[p].fraction < x.fraction
    {
      at := at - 1;
    }
    longer := slots[..at] + [x] + slots[at..];
    SumInserted(slots, at, x);
    OrderedAfterInsert(slots, at, quotas, n);
  }

  lemma OrderedAfterInsert(slots: seq<Slot>, at: nat, quotas: seq<real>, n: nat)
    requires n < |quotas| && Ordered(slots, quotas, n) && at <= |slots|
    requires at > 0 ==> slots[at - 1].fraction >= Fraction(quotas[n])
    requires forall p | at <= p < |slots| :: slots[p].fraction < Fraction(quotas[n])
    ensures Ordered(slots[..at] + [Slot(n, Fraction(quotas[n]))] + slots[at..], quotas, n + 1)
  {
    var x := Slot(n, Fraction(quotas[n]));
    var longer := slots[..at] + [x] + slots[at..];
    assert forall p | 0 <= p < |longer| :: longer[p] == if p < at then slots[p] else if p == at then x else slots[p - 1];
    hide Listed, Fraction;
    forall p, q | 0 <= p < q < |longer| ensures Precedes(quotas, longer[p].index, longer[q].index) {
      if p < at - 1 && q == at { assert Precedes(quotas, slots[p].index, slots[at - 1].index); }
      if p == at { assert slots[q - 1].fraction < x.fraction; }
    }
    forall i: nat | i < n + 1 ensures Listed(longer, i) { ListedAfterInsert(slots, at, x, i); }
  }

  /** Sorted by descending fraction, stable on the index. */
  method SortSlots(quotas: seq<real>, floors: seq<int>) returns (slots: seq<Slot>)
    requires |floors| == |quotas| && forall i | 0 <= i < |floors| :: floors[i] == quotas[i].Floor
    ensures Ordered(slots, quotas, |quotas|)
    ensures SumSlots(slots) + SumInt(floors) as real == Sum(quotas)
  {
    slots := [];
    for n := 0 to |quotas|
      invariant Ordered(slots, quotas, n)
      invariant SumSlots(slots) + SumInt(floors[..n]) as real == Sum(quotas[..n])
    {
      assert quotas[..n + 1][..n] == quotas[..n] && floors[..n + 1][..n] == floors[..n];
      slots := InsertSlot(slots, quotas, n);
    }
    assert quotas[..|quotas|] == quotas && floors[..|floors|] == floors;
  }

  lemma {:induction false} FractionsAreBelow(slots: seq<Slot>)
    requires forall p | 0 <= p < |slots| :: 0.0 <= slots[p].fraction < 1.0
    ensures 0.0 <= SumSlots(slots) && (slots != [] ==> SumSlots(slots) < |slots| as real)
    decreases |slots|
  {
    if slots != [] { FractionsAreBelow(slots[..|slots| - 1]); }
  }

  lemma {:induction false} OneMore(s: seq<int>, j: nat)
    requires j < |s|
    ensures SumInt(s[j := s[j] + 1]) == SumInt(s) + 1
    decreases |s|
  {
    var last := |s| - 1;
    if j < last {
      OneMore(s[..last], j);
      assert s[j := s[j] + 1][..last] == s[..last][j := s[j] + 1];
    } else {
      assert s[j := s[j] + 1][..last] == s[..last];
    }
  }

  lemma SlotsDiffer(slots: seq<Slot>, quotas: seq<real>)
    requires Ordered(slots, quotas, |quotas|)
    ensures forall p, q | 0 <= p < |slots| && 0 <= q < |slots| && p != q :: slots[p].index != slots[q].index
    ensures forall p | 0 <= p < |slots| :: slots[p].index < |quotas|
  {
  }

  /** One unit to each slot in turn while any is left; that is never once round. */
  method TopUp(floors: seq<int>, slots: seq<Slot>, left: nat) returns (sizes: seq<int>)
    requires left < |slots| && forall p | 0 <= p < |slots| :: slots[p].index < |floors|
    requires forall p, q | 0 <= p < |slots| && 0 <= q < |slots| && p != q :: slots[p].index != slots[q].index
    ensures |sizes| == |floors| && SumInt(sizes) == SumInt(floors) + left
    ensures forall p | 0 <= p < |slots| :: sizes[slots[p].index] == floors[slots[p].index] + if p < left then 1 else 0
  {
    hide SumInt;
    var result := new int[|floors|](i requires 0 <= i < |floors| => floors[i]);
    assert result[..] == floors;
    var remainder := left;
    var i: nat := 0;
    while remainder > 0
      invariant i == left - remainder
      invariant SumInt(result[..]) == SumInt(floors) + i
      invariant forall p | 0 <= p < |slots| :: result[slots[p].index] == floors[slots[p].index] + if p < i then 1 else 0
    {
      var index := slots[i].index;
      ghost var before := result[..];
      OneMore(before, index);
      result[index] := result[index] + 1;
      assert result[..] == before[index := before[index] + 1];
      remainder := remainder - 1;
      Advance(i, |slots|);
      i := (i + 1) % |slots|;
    }
    sizes := result[..];
  }

  lemma Advance(i: nat, n: nat)
    requires i + 1 < n
    ensures (i + 1) % n == i + 1
  {
  }

  lemma FirstToppedUp(quotas: seq<real>, sizes: seq<int>, slots: seq<Slot>, k: nat)
    requires |sizes| == |quotas| && Ordered(slots, quotas, |quotas|) && k <= |slots|
    requires forall p | 0 <= p < |slots| :: sizes[slots[p].index] == quotas[slots[p].index].Floor + if p < k then 1 else 0
    ensures forall i | 0 <= i < |sizes| :: sizes[i] == quotas[i].Floor || sizes[i] == quotas[i].Floor + 1
    ensures forall i, j | 0 <= i < |sizes| && 0 <= j < |sizes| && ToppedUp(quotas, sizes, i) && !ToppedUp(quotas, sizes, j) ::
              Precedes(quotas, i, j)
  {
    forall i | 0 <= i < |sizes| ensures sizes[i] == quotas[i].Floor || sizes[i] == quotas[i].Floor + 1 {
      assert Listed(slots, i);
    }
    forall i, j | 0 <= i < |sizes| && 0 <= j < |sizes| && ToppedUp(quotas, sizes, i) && !ToppedUp(quotas, sizes, j)
      ensures Precedes(quotas, i, j)
    {
      assert Listed(slots, i) && Listed(slots, j);
      var p :| 0 <= p < |slots| && slots[p].index == i;
      var q :| 0 <= q < |slots| && slots[q].index == j;
      assert p < k <= q;
    }
  }

  function Floors(quotas: seq<real>): (r: seq<int>)
    ensures |r| == |quotas| && forall i | 0 <= i < |r| :: r[i] == quotas[i].Floor
  {
    seq(|quotas|, i requires 0 <= i < |quotas| => quotas[i].Floor)
  }

  method Allocate(amount: int, ratios: seq<real>) returns (r: Result<seq<int>, Refusal>)
    ensures r.Ok? <==> Weighted(ratios)
    ensures r.Ok? ==> IsAllocation(amount, ratios, r.value)
    ensures r.Err? ==> r.error == if ratios == [] then NoRatios
                                  else if exists i :: 0 <= i < |ratios| && ratios[i] < 0.0 then BadRatio else NoWeight
  {
    if |ratios| == 0 { return Err(NoRatios); }
    if exists i :: 0 <= i < |ratios| && ratios[i] < 0.0 { return Err(BadRatio); }
    var total := Sum(ratios);
    if total <= 0.0 { return Err(NoWeight); }
    var sign, magnitude := Sign(amount), Abs(amount);
    var exact := Quotas(magnitude, ratios);
    var floors := Floors(exact);
    var distributed := SumInt(floors);
    var slots := SortSlots(exact, floors);
    QuotasSum(magnitude, ratios);
    FractionsAreBelow(slots);
    hide Quota, Sum, SumInt, SumSlots, Precedes;
    SlotsDiffer(slots, exact);
    var sizes := TopUp(floors, slots, magnitude - distributed);
    FirstToppedUp(exact, sizes, slots, magnitude - distributed);
    r := Ok(Signed(sign, sizes));
  }

  /** As many equal shares as asked for. */
  method Split(amount: int, parts: int) returns (r: Result<seq<int>, Refusal>)
    ensures r.Ok? <==> parts >= 1
    ensures r.Ok? ==> |r.value| == parts && SumInt(r.value) == amount
    ensures r.Ok? ==> forall i, j | 0 <= i < j < parts :: Abs(r.value[j]) <= Abs(r.value[i]) <= Abs(r.value[j]) + 1
  {
    if parts < 1 { return Err(BadParts); }
    var ones := seq(parts, i => 1.0);
    OnesWeigh(ones);
    r := Allocate(amount, ones);
    SharesAddUp(amount, ones, r.value);
    WithinOneOfQuota(amount, ones, r.value, 0);
    forall i, j | 0 <= i < j < parts ensures Abs(r.value[j]) <= Abs(r.value[i]) <= Abs(r.value[j]) + 1 {
      MoreWeightGetsNoLess(amount, ones, r.value, i, j);
    }
  }

  lemma {:induction false} OnesWeigh(ones: seq<real>)
    requires forall i | 0 <= i < |ones| :: ones[i] == 1.0
    ensures Sum(ones) == |ones| as real
    decreases |ones|
  {
    if ones != [] { OnesWeigh(ones[..|ones| - 1]); }
  }
}
