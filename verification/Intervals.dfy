module Intervals {
  /**
   Sets of instants as lists of half-open spans: union, intersection and difference by
   linear passes over sorted lists, against the sets of instants they stand for.
   Instants are whole milliseconds.
   */

  import opened Numbers

  datatype Interval = Interval(start: int, end: int) {
    predicate Empty() { end <= start }

    predicate Covers(t: int) { start <= t < end }
  }

  /** Some span among the first `n` covers the instant. */
  ghost predicate HeldBefore(list: seq<Interval>, n: nat, t: int)
    requires n <= |list|
  {
    exists i :: 0 <= i < n && list[i].Covers(t)
  }

  ghost predicate Held(list: seq<Interval>, t: int) {
    HeldBefore(list, |list|, t)
  }

  /** Non-empty spans in order, with time between each and the next. */
  ghost predicate Canonical(list: seq<Interval>) {
    && (forall i | 0 <= i < |list| :: list[i].start < list[i].end)
    && (forall i, j | 0 <= i < j < |list| :: list[i].end < list[j].start)
  }

  ghost predicate EndsBefore(list: seq<Interval>, t: int) {
    list != [] ==> list[|list| - 1].end < t
  }

  function Intersect(a: Interval, b: Interval): Interval {
    Interval(Max(a.start, b.start), Min(a.end, b.end))
  }

  // --- The set a list stands for -----------------------------------------------------------

  /** One list in canonical form for each set of instants. */
  lemma CanonicalIsUnique(a: seq<Interval>, b: seq<Interval>)
    requires Canonical(a) && Canonical(b) && forall t :: Held(a, t) <==> Held(b, t)
    ensures a == b
  {
    SamePrefix(a, b, |a|);
    SamePrefix(b, a, |b|);
  }

  lemma {:induction false} SamePrefix(a: seq<Interval>, b: seq<Interval>, n: nat)
    requires Canonical(a) && Canonical(b) && (forall t :: Held(a, t) <==> Held(b, t)) && n <= |a|
    ensures n <= |b| && a[..n] == b[..n]
  {
    if n > 0 {
      var k := n - 1;
      SamePrefix(a, b, k);
      FoundFrom(a, b, k);
      FoundFrom(b, a, k);
      EndsNoLater(a, b, k);
      EndsNoLater(b, a, k);
      assert a[..n] == a[..k] + [a[k]] && b[..n] == b[..k] + [b[k]];
    }
  }

  /** Past a common prefix the other list has a span, and it starts no later. */
  lemma FoundFrom(a: seq<Interval>, b: seq<Interval>, k: nat)
    requires Canonical(a) && Canonical(b) && (forall t | Held(a, t) :: Held(b, t))
    requires k < |a| && k <= |b| && a[..k] == b[..k]
    ensures k < |b| && b[k].start <= a[k].start
  {
    assert forall m | 0 <= m < k :: a[m] == a[..k][m] == b[..k][m] == b[m];
    assert a[k].Covers(a[k].start) && Held(a, a[k].start) && Held(b, a[k].start);
  }

  lemma HeldWithin(list: seq<Interval>, k: nat)
    requires k < |list|
    ensures forall t | list[k].Covers(t) :: Held(list, t)
  {
  }

  lemma EndsNoLater(a: seq<Interval>, b: seq<Interval>, k: nat)
    requires Canonical(a) && Canonical(b) && (forall t | Held(a, t) :: Held(b, t))
    requires k < |a| && k < |b| && a[k].start == b[k].start
    ensures a[k].end <= b[k].end
  {
    FreeAtEnd(b, k);
    HeldWithin(a, k);
  }

  lemma FreeAtEnd(list: seq<Interval>, k: nat)
    requires Canonical(list) && k < |list|
    ensures !Held(list, list[k].end)
  {
  }

  function Span(start: int, end: int): (s: set<int>)
    ensures forall t :: t in s <==> start <= t < end
    ensures |s| == Max(0, end - start)
    decreases end - start
  {
    if start < end then Span(start, end - 1) + {end - 1} else {}
  }

  ghost function Instants(list: seq<Interval>): (s: set<int>)
    ensures forall t :: t in s <==> Held(list, t)
  {
    if list == [] then {}
    else
      var last := |list| - 1;
      var s := Instants(list[..last]) + Span(list[last].start, list[last].end);
      assert forall t {:trigger Held(list, t)} :: Held(list, t) <==> Held(list[..last], t) || list[last].Covers(t) by {
        HeldByLast(list);
      }
      s
  }

  lemma HeldByLast(list: seq<Interval>)
    requires list != []
    ensures var last := |list| - 1;
            forall t {:trigger Held(list, t)} :: Held(list, t) <==> Held(list[..last], t) || list[last].Covers(t)
  {
    var last := |list| - 1;
    forall t | Held(list, t) ensures Held(list[..last], t) || list[last].Covers(t) {
      var i :| 0 <= i < |list| && list[i].Covers(t);
      if i < last { assert list[..last][i].Covers(t); }
    }
    forall t | Held(list[..last], t) ensures Held(list, t) {
      var i :| 0 <= i < last && list[..last][i].Covers(t);
      assert list[i].Covers(t);
    }
  }

  /** The time a list holds, span by span. */
  function Total(list: seq<Interval>): int {
    if list == [] then 0
    else
      var last := |list| - 1;
      Total(list[..last]) + Max(0, list[last].end - list[last].start)
  }

  lemma HeldEarlier(list: seq<Interval>, end: int)
    requires forall i | 0 <= i < |list| :: list[i].end < end
    ensures forall t | Held(list, t) :: t < end
  {
  }

  lemma SizesAdd(a: set<int>, b: set<int>)
    requires a !! b
    ensures |a + b| == |a| + |b|
  {
  }

  lemma {:induction false} TotalIsMeasure(list: seq<Interval>)
    requires Canonical(list)
    ensures Total(list) == |Instants(list)|
    decreases |list|
  {
    if list != [] {
      hide HeldBefore, Held;
      var last := |list| - 1;
      TotalIsMeasure(list[..last]);
      HeldEarlier(list[..last], list[last].start);
      SizesAdd(Instants(list[..last]), Span(list[last].start, list[last].end));
    }
  }

  /** Time is conserved: what `from` holds is split between what it shares with `other` and what is left. */
  lemma TimeIsConserved(from: seq<Interval>, other: seq<Interval>, shared: seq<Interval>, left: seq<Interval>)
    requires Canonical(from) && Canonical(shared) && Canonical(left)
    requires forall t :: Held(shared, t) <==> Held(from, t) && Held(other, t)
    requires forall t :: Held(left, t) <==> Held(from, t) && !Held(other, t)
    ensures Total(from) == Total(shared) + Total(left)
  {
    hide Held, HeldBefore, Canonical, Total, Span;
    TotalIsMeasure(from);
    TotalIsMeasure(shared);
    TotalIsMeasure(left);
    var a, b, whole := Instants(shared), Instants(left), Instants(from);
    assert a !! b by {
      forall t | t in a ensures t !in b { assert Held(shared, t); }
    }
    assert whole == a + b;
    SizesAdd(a, b);
  }

  // --- The passes ---------------------------------------------------------------------------

  ghost predicate ByStart(list: seq<Interval>) {
    forall i, j | 0 <= i < j < |list| :: list[i].start <= list[j].start
  }

  /** The non-empty spans by start; which of two with the same start comes first does not matter below. */
  method SortedByStart(intervals: seq<Interval>) returns (sorted: seq<Interval>)
    ensures (forall i | 0 <= i < |sorted| :: !sorted[i].Empty()) && ByStart(sorted)
    ensures forall t :: Held(sorted, t) <==> Held(intervals, t)
  {
    sorted := [];
    for n := 0 to |intervals|
      invariant (forall i | 0 <= i < |sorted| :: !sorted[i].Empty()) && ByStart(sorted)
      invariant forall t :: Held(sorted, t) <==> HeldBefore(intervals, n, t)
    {
      HeldNext(intervals, n);
      if !intervals[n].Empty() { sorted := InsertByStart(sorted, intervals[n]); }
    }
  }

  method InsertByStart(sorted: seq<Interval>, x: Interval) returns (longer: seq<Interval>)
    requires (forall i | 0 <= i < |sorted| :: !sorted[i].Empty()) && !x.Empty() && ByStart(sorted)
    ensures (forall i | 0 <= i < |longer| :: !longer[i].Empty()) && ByStart(longer)
    ensures forall t :: Held(longer, t) <==> Held(sorted, t) || x.Covers(t)
  {
    var at := |sorted|;
    while at > 0 && sorted[at - 1].start > x.start
      invariant 0 <= at <= |sorted|
      invariant forall i | at <= i < |sorted| :: sorted[i].start > x.start
    {
      at := at - 1;
    }
    longer := sorted[..at] + [x] + sorted[at..];
    HeldInserted(sorted, at, x, longer);
  }

  lemma HeldInserted(list: seq<Interval>, at: nat, x: Interval, longer: seq<Interval>)
    requires at <= |list| && longer == list[..at] + [x] + list[at..]
    ensures forall t :: Held(longer, t) <==> Held(list, t) || x.Covers(t)
  {
    forall t ensures Held(longer, t) <==> Held(list, t) || x.Covers(t) {
      if Held(list, t) {
        var i :| 0 <= i < |list| && list[i].Covers(t);
        assert longer[if i < at then i else i + 1].Covers(t);
      }
      if x.Covers(t) { assert longer[at].Covers(t); }
      if Held(longer, t) {
        var i :| 0 <= i < |longer| && longer[i].Covers(t);
        assert i == at || list[if i < at then i else i - 1].Covers(t);
      }
    }
  }

  lemma NoneHeld(list: seq<Interval>)
    ensures forall t :: !HeldBefore(list, 0, t)
    ensures list == [] ==> forall t :: !Held(list, t)
  {
  }

  lemma HeldNext(list: seq<Interval>, n: nat)
    requires n < |list|
    ensures forall t {:trigger HeldBefore(list, n + 1, t)} :: HeldBefore(list, n + 1, t) <==> HeldBefore(list, n, t) || list[n].Covers(t)
  {
  }

  lemma HeldPushed(list: seq<Interval>, x: Interval)
    ensures forall t {:trigger Held(list + [x], t)} :: Held(list + [x], t) <==> Held(list, t) || x.Covers(t)
  {
    var longer := list + [x];
    assert longer[..|list|] == list;
    HeldByLast(longer);
  }

  /** Sorts, drops the empty ones, joins whatever touches: the canonical list with the same instants. */
  method Normalise(intervals: seq<Interval>) returns (merged: seq<Interval>)
    ensures Canonical(merged)
    ensures forall t :: Held(merged, t) <==> Held(intervals, t)
  {
    hide HeldBefore;
    var sorted := SortedByStart(intervals);
    merged := [];
    assert forall t :: !HeldBefore(sorted, 0, t) && !Held(merged, t) by { NoneHeld(sorted); NoneHeld(merged); }
    for n := 0 to |sorted|
      invariant Canonical(merged)
      invariant merged != [] ==> n > 0 && merged[|merged| - 1].start <= sorted[n - 1].start
      invariant forall t :: Held(merged, t) <==> HeldBefore(sorted, n, t)
    {
      HeldNext(sorted, n);
      var next := sorted[n];
      if merged != [] && next.start <= merged[|merged| - 1].end {
        var last := |merged| - 1;
        HeldByLast(merged);
        if next.end > merged[last].end {
          HeldPushed(merged[..last], Interval(merged[last].start, next.end));
          merged := merged[..last] + [Interval(merged[last].start, next.end)];
        }
      } else {
        HeldPushed(merged, next);
        merged := merged + [next];
      }
    }
  }

  /** Everything in both, in canonical form. */
  method IntersectAll(a: seq<Interval>, b: seq<Interval>) returns (result: seq<Interval>)
    ensures Canonical(result)
    ensures forall t :: Held(result, t) <==> Held(a, t) && Held(b, t)
  {
    var left := Normalise(a);
    var right := Normalise(b);
    result := Meet(left, right);
  }

  /** The instants met so far: those of both lists that a span already passed covers. */
  ghost predicate MetBefore(left: seq<Interval>, right: seq<Interval>, i: nat, j: nat, t: int)
    requires i <= |left| && j <= |right|
  {
    Held(left, t) && Held(right, t) && (HeldBefore(left, i, t) || HeldBefore(right, j, t))
  }

  lemma AdvancePast(left: seq<Interval>, right: seq<Interval>, i: nat, j: nat)
    requires Canonical(left) && Canonical(right) && i < |left| && j < |right|
    ensures left[i].end < right[j].end ==>
              forall t :: MetBefore(left, right, i + 1, j, t) <==> MetBefore(left, right, i, j, t) || Intersect(left[i], right[j]).Covers(t)
    ensures left[i].end >= right[j].end ==>
              forall t :: MetBefore(left, right, i, j + 1, t) <==> MetBefore(left, right, i, j, t) || Intersect(left[i], right[j]).Covers(t)
  {
    HeldNext(left, i);
    HeldNext(right, j);
    assert forall t | left[i].Covers(t) :: Held(left, t);
    assert forall t | right[j].Covers(t) :: Held(right, t);
    if left[i].end < right[j].end {
      forall t | left[i].Covers(t) && Held(right, t) ensures HeldBefore(right, j, t) || right[j].Covers(t) {}
    } else {
      forall t | right[j].Covers(t) && Held(left, t) ensures HeldBefore(left, i, t) || left[i].Covers(t) {}
    }
  }

  method Meet(left: seq<Interval>, right: seq<Interval>) returns (result: seq<Interval>)
    requires Canonical(left) && Canonical(right)
    ensures Canonical(result)
    ensures forall t :: Held(result, t) <==> Held(left, t) && Held(right, t)
  {
    result := [];
    var i, j := 0, 0;
    while i < |left| && j < |right|
      invariant i <= |left| && j <= |right|
      invariant Canonical(result)
      invariant i < |left| && j < |right| ==> EndsBefore(result, Max(left[i].start, right[j].start))
      invariant forall t :: Held(result, t) <==> MetBefore(left, right, i, j, t)
      decreases |left| - i + |right| - j
    {
      AdvancePast(left, right, i, j);
      var shared := Intersect(left[i], right[j]);
      if shared.end > shared.start {
        HeldPushed(result, shared);
        result := result + [shared];
      }
      if left[i].end < right[j].end { i := i + 1; } else { j := j + 1; }
    }
  }

  /** Everything in `from` that is not in `remove`, in canonical form. */
  method Subtract(from: seq<Interval>, remove: seq<Interval>) returns (result: seq<Interval>)
    ensures Canonical(result)
    ensures forall t :: Held(result, t) <==> Held(from, t) && !Held(remove, t)
  {
    var busy := Normalise(remove);
    var kept := Normalise(from);
    result := [];
    for n := 0 to |kept|
      invariant Canonical(result) && (n > 0 ==> EndsBefore(result, kept[n - 1].end + 1)) && (n == 0 ==> result == [])
      invariant forall t :: Held(result, t) <==> HeldBefore(kept, n, t) && !Held(busy, t)
    {
      HeldNext(kept, n);
      result := PushFree(result, kept[n], busy);
    }
  }

  /** The inner pass: the free parts of one span, pushed in order after what is there. */
  method PushFree(before: seq<Interval>, interval: Interval, busy: seq<Interval>) returns (result: seq<Interval>)
    requires Canonical(before) && Canonical(busy) && !interval.Empty() && EndsBefore(before, interval.start)
    ensures Canonical(result) && EndsBefore(result, interval.end + 1)
    ensures forall t :: Held(result, t) <==> Held(before, t) || (interval.Covers(t) && !Held(busy, t))
  {
    hide Held, HeldBefore;
    result := before;
    var cursor := interval.start;
    var k := 0;
    while k < |busy|
      invariant k <= |busy| && interval.start <= cursor < interval.end
      invariant Canonical(result) && EndsBefore(result, cursor)
      invariant forall i | 0 <= i < k :: busy[i].end <= cursor
      invariant forall t :: Held(result, t) <==> Held(before, t) || (interval.start <= t < cursor && !Held(busy, t))
    {
      var taken := busy[k];
      if taken.end <= cursor {
        k := k + 1;
        continue;
      }
      if taken.start >= interval.end { break; }
      HeldWithin(busy, k);
      if taken.start > cursor {
        var free := Interval(cursor, taken.start);
        FreeBefore(busy, k, cursor);
        HeldPushed(result, free);
        result := result + [free];
      }
      cursor := Max(cursor, taken.end);
      if cursor >= interval.end { return; }
      k := k + 1;
    }
    FreeUntil(busy, k, cursor, interval.end);
    HeldPushed(result, Interval(cursor, interval.end));
    result := result + [Interval(cursor, interval.end)];
  }

  lemma FreeBefore(busy: seq<Interval>, k: nat, cursor: int)
    requires Canonical(busy) && k < |busy| && forall i | 0 <= i < k :: busy[i].end <= cursor
    ensures forall t | cursor <= t < busy[k].start :: !Held(busy, t)
  {
  }

  lemma FreeUntil(busy: seq<Interval>, k: nat, cursor: int, end: int)
    requires Canonical(busy) && k <= |busy| && (forall i | 0 <= i < k :: busy[i].end <= cursor)
    requires k < |busy| ==> busy[k].start >= end
    ensures forall t | cursor <= t < end :: !Held(busy, t)
  {
  }

  /** The parts inside `bounds`. */
  method Clamp(intervals: seq<Interval>, bounds: Interval) returns (result: seq<Interval>)
    ensures Canonical(result)
    ensures forall t :: Held(result, t) <==> Held(intervals, t) && bounds.Covers(t)
  {
    assert forall t :: Held([bounds], t) <==> [bounds][0].Covers(t);
    result := IntersectAll(intervals, [bounds]);
  }

  /** Minutes held, overlaps counted once: one for every 60 000 instants. */
  method TotalMinutes(intervals: seq<Interval>) returns (total: real)
    ensures total * 60000.0 == |Instants(intervals)| as real
  {
    hide Held, HeldBefore;
    var merged := Normalise(intervals);
    assert Instants(merged) == Instants(intervals);
    TotalIsMeasure(merged);
    total := 0.0;
    for n := 0 to |merged|
      invariant total * 60000.0 == Total(merged[..n]) as real
    {
      assert merged[..n + 1][..n] == merged[..n];
      total := total + Max(0, merged[n].end - merged[n].start) as real / 60000.0;
    }
    assert merged[..|merged|] == merged;
  }
}
