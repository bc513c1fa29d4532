/** A histogram series of fixed size: counts by bucket, extremes, and a ring of the latest observations. */
module Histograms {
  import opened Wrappers

  predicate Rising(bounds: seq<real>) {
    forall i, j | 0 <= i < j < |bounds| :: bounds[i] <= bounds[j]
  }

  /** How many fell at or below the bound. */
  function AtMost(all: seq<real>, bound: real): nat
    decreases |all|
  {
    if all == [] then 0 else AtMost(all[..|all| - 1], bound) + if all[|all| - 1] <= bound then 1 else 0
  }

  function Sum(all: seq<real>): real
    decreases |all|
  {
    if all == [] then 0.0 else Sum(all[..|all| - 1]) + all[|all| - 1]
  }

  /** The last `keep`, oldest first. */
  function Latest(all: seq<real>, keep: nat): seq<real> {
    if |all| <= keep then all else all[|all| - keep..]
  }

  function Total(counts: seq<nat>, n: nat): nat
    requires n <= |counts|
  {
    if n == 0 then 0 else Total(counts, n - 1) + counts[n - 1]
  }

  /** A ring read from where it will be written next. */
  function Unrolled(recent: seq<real>, next: nat): seq<real>
    requires next <= |recent|
  {
    recent[next..] + recent[..next]
  }

  ghost predicate IsLeast(least: Option<real>, all: seq<real>) {
    if least.None? then all == [] else least.value in all && forall x | x in all :: least.value <= x
  }

  ghost predicate IsGreatest(greatest: Option<real>, all: seq<real>) {
    if greatest.None? then all == [] else greatest.value in all && forall x | x in all :: x <= greatest.value
  }

  /** Each count with those before it is what fell at or below its bound. */
  ghost predicate Cumulative(counts: seq<nat>, bounds: seq<real>, all: seq<real>) {
    |counts| == |bounds| && forall i | 0 <= i < |bounds| :: Total(counts, i + 1) == AtMost(all, bounds[i])
  }

  /** The ring, unrolled, is the latest observations. */
  ghost predicate Ring(recent: seq<real>, next: nat, keep: nat, all: seq<real>) {
    && next <= |recent| <= keep && (|recent| < keep ==> next == 0) && (keep > 0 && |recent| == keep ==> next < keep)
    && Unrolled(recent, next) == Latest(all, keep)
  }

  lemma {:induction false} TotalBumped(counts: seq<nat>, index: nat, n: nat)
    requires index < |counts| && n <= |counts|
    ensures Total(counts[index := counts[index] + 1], n) == Total(counts, n) + if index < n then 1 else 0
    decreases n
  {
    if n > 0 { TotalBumped(counts, index, n - 1); }
  }

  lemma CumulativeObserved(counts: seq<nat>, bounds: seq<real>, all: seq<real>, value: real, index: nat)
    requires Cumulative(counts, bounds, all) && Rising(bounds) && index <= |bounds|
    requires (forall i | 0 <= i < index :: value > bounds[i]) && (index < |bounds| ==> value <= bounds[index])
    ensures Cumulative(if index < |counts| then counts[index := counts[index] + 1] else counts, bounds, all + [value])
  {
    assert (all + [value])[..|all|] == all;
    forall i | 0 <= i < |bounds|
      ensures Total(if index < |counts| then counts[index := counts[index] + 1] else counts, i + 1) == AtMost(all + [value], bounds[i])
    {
      if index < |counts| { TotalBumped(counts, index, i + 1); }
    }
  }

  lemma RingObserved(recent: seq<real>, next: nat, keep: nat, all: seq<real>, value: real)
    requires Ring(recent, next, keep, all) && keep > 0
    ensures if |recent| < keep then Ring(recent + [value], next, keep, all + [value])
            else Ring(recent[next := value], (next + 1) % keep, keep, all + [value])
  {
    if |recent| < keep {
      assert recent == Latest(all, keep) == all by { assert Unrolled(recent, 0) == recent; }
      assert Unrolled(recent + [value], 0) == all + [value];
    } else {
      RingTurns(recent, next, keep, Latest(all, keep), value);
      assert Latest(all + [value], keep) == Latest(all, keep)[1..] + [value];
    }
  }

  lemma RingTurns(recent: seq<real>, next: nat, keep: nat, latest: seq<real>, value: real)
    requires 0 < keep == |recent| && next < keep && Unrolled(recent, next) == latest
    ensures Unrolled(recent[next := value], (next + 1) % keep) == latest[1..] + [value]
  {
    var a, b := recent[..next], recent[next + 1..];
    var turned := recent[next := value];
    assert recent[next..] == [recent[next]] + b;
    Rotated(a, recent[next], b);
    assert latest[1..] == b + a;
    if next + 1 < keep {
      Advance(next, keep);
      assert turned[next + 1..] == b && turned[..next + 1] == a + [value];
      assert b + (a + [value]) == b + a + [value];
    } else {
      assert b == [] && turned == a + [value] && b + a == a;
      assert Unrolled(turned, 0) == turned;
    }
  }

  lemma Advance(next: nat, keep: nat)
    requires next + 1 < keep
    ensures (next + 1) % keep == next + 1
  {
  }

  lemma Rotated(a: seq<real>, x: real, b: seq<real>)
    ensures ([x] + b + a)[1..] == b + a
  {
  }

  lemma ExtremesObserved(least: Option<real>, greatest: Option<real>, all: seq<real>, value: real)
    requires IsLeast(least, all) && IsGreatest(greatest, all)
    ensures IsLeast(if least.None? || value < least.value then Some(value) else least, all + [value])
    ensures IsGreatest(if greatest.None? || value > greatest.value then Some(value) else greatest, all + [value])
  {
  }

  lemma SumObserved(all: seq<real>, value: real)
    ensures Sum(all + [value]) == Sum(all) + value
  {
    assert (all + [value])[..|all|] == all;
  }

  class HistogramState {
    const bounds: seq<real>
    const keep: nat
    const counts: array<nat>
    var count: nat
    var sum: real
    var min: Option<real>
    var max: Option<real>
    var recent: seq<real>
    var next: nat
    /** Everything ever observed. */
    ghost var all: seq<real>

    ghost predicate Valid()
      reads this, counts
    {
      && Rising(bounds)
      && Cumulative(counts[..], bounds, all)
      && count == |all| && sum == Sum(all) && IsLeast(min, all) && IsGreatest(max, all)
      && Ring(recent, next, keep, all)
    }

    constructor (bounds: seq<real>, keep: nat)
      requires Rising(bounds)
      ensures Valid() && all == [] && this.bounds == bounds && this.keep == keep && fresh(counts)
    {
      this.bounds, this.keep := bounds, keep;
      counts := new nat[|bounds|](_ => 0);
      count, sum, min, max, recent, next, all := 0, 0.0, None, None, [], 0, [];
      new;
      NoneCounted(counts[..], bounds);
    }

    method Observe(value: real)
      requires Valid()
      modifies this`count, this`sum, this`min, this`max, this`recent, this`next, this`all, counts
      ensures Valid() && all == old(all) + [value]
    {
      hide Cumulative, Rising, IsLeast, IsGreatest, Ring, Sum;
      ExtremesObserved(min, max, all, value);
      SumObserved(all, value);
      CountIn(value);
      count := count + 1;
      sum := sum + value;
      if min.None? || value < min.value { min := Some(value); }
      if max.None? || value > max.value { max := Some(value); }
      Keep(value);
      all := all + [value];
    }

    method CountIn(value: real)
      requires Rising(bounds) && Cumulative(counts[..], bounds, all)
      modifies counts
      ensures Cumulative(counts[..], bounds, all + [value])
    {
      var index := FirstBound(value);
      ghost var before := counts[..];
      CumulativeObserved(before, bounds, all, value, index);
      hide Cumulative;
      assert |before| == counts.Length;
      if index < counts.Length { counts[index] := counts[index] + 1; }
      assert counts[..] == if index < |before| then before[index := before[index] + 1] else before;
    }

    method Keep(value: real)
      requires Ring(recent, next, keep, all)
      modifies this`recent, this`next
      ensures Ring(recent, next, keep, all + [value])
    {
      if keep == 0 {
        assert Latest(all + [value], 0) == [];
        return;
      }
      RingObserved(recent, next, keep, all, value);
      if |recent| < keep {
        recent := recent + [value];
      } else {
        recent := recent[next := value];
        next := (next + 1) % keep;
      }
    }

    method FirstBound(value: real) returns (index: nat)
      ensures index <= |bounds| && (forall i | 0 <= i < index :: value > bounds[i]) && (index < |bounds| ==> value <= bounds[index])
    {
      index := 0;
      while index < |bounds| && value > bounds[index]
        invariant index <= |bounds| && forall i | 0 <= i < index :: value > bounds[i]
      {
        index := index + 1;
      }
    }

    /** The kept observations, oldest first. */
    method Observations() returns (r: seq<real>)
      requires Valid()
      ensures r == Latest(all, keep)
    {
      r := if |recent| < keep then recent else recent[next..] + recent[..next];
      assert |recent| < keep ==> Unrolled(recent, 0) == recent;
    }

    /** For each bound how many were at or below it. */
    method Buckets() returns (r: seq<nat>)
      requires Valid()
      ensures |r| == |bounds| && forall i | 0 <= i < |r| :: r[i] == AtMost(all, bounds[i])
    {
      var running: nat := 0;
      r := [];
      for i := 0 to |bounds|
        invariant |r| == i && running == Total(counts[..], i) && forall k | 0 <= k < i :: r[k] == AtMost(all, bounds[k])
      {
        running := running + counts[i];
        r := r + [running];
      }
    }
  }

  lemma NoneCounted(counts: seq<nat>, bounds: seq<real>)
    requires |counts| == |bounds| && forall i | 0 <= i < |counts| :: counts[i] == 0
    ensures Cumulative(counts, bounds, [])
  {
    forall i: nat | i < |bounds| ensures Total(counts, i + 1) == AtMost([], bounds[i]) { NothingCounted(counts, i + 1); }
  }

  lemma {:induction false} NothingCounted(counts: seq<nat>, n: nat)
    requires n <= |counts| && forall i | 0 <= i < |counts| :: counts[i] == 0
    ensures Total(counts, n) == 0
  {
    if n > 0 { NothingCounted(counts, n - 1); }
  }
}
