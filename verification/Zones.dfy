module Zones {
  /**
   A wall clock in a zone, turned into the instant it names. Instants, wall clocks and
   offsets are whole minutes; a zone is the offset it is on at each instant.
   */

  type Zone = int -> int

  datatype Resolution = Exact | Gap | Ambiguous

  datatype Prefer = Earliest | Latest

  datatype Resolved = Resolved(instant: int, resolution: Resolution)

  /** Half a day either side is probed. */
  const PROBE: int := 720

  predicate Reads(zone: Zone, wall: int, instant: int) {
    instant + zone(instant) == wall
  }

  function Distinct(s: seq<int>): (r: seq<int>)
    ensures forall x :: x in r <==> x in s
    ensures forall i, j | 0 <= i < j < |r| :: r[i] != r[j]
  {
    if s == [] then []
    else
      var rest := Distinct(s[..|s| - 1]);
      if s[|s| - 1] in rest then rest else rest + [s[|s| - 1]]
  }

  function Before(wall: int, offsets: seq<int>): (r: seq<int>)
    ensures forall x :: x in r <==> wall - x in offsets
  {
    if offsets == [] then [] else Before(wall, offsets[..|offsets| - 1]) + [wall - offsets[|offsets| - 1]]
  }

  function Filter(s: seq<int>, keep: int -> bool): (r: seq<int>)
    requires forall i, j | 0 <= i < j < |s| :: s[i] != s[j]
    ensures forall x :: x in r <==> x in s && keep(x)
    ensures forall i, j | 0 <= i < j < |r| :: r[i] != r[j]
  {
    if s == [] then []
    else Filter(s[..|s| - 1], keep) + if keep(s[|s| - 1]) then [s[|s| - 1]] else []
  }

  function MaxOf(s: seq<int>): (m: int)
    requires s != []
    ensures m in s && forall x | x in s :: x <= m
  {
    if |s| == 1 then s[0]
    else
      assert s == s[..|s| - 1] + [s[|s| - 1]];
      var m := MaxOf(s[..|s| - 1]);
      if s[|s| - 1] > m then s[|s| - 1] else m
  }

  function MinOf(s: seq<int>): (m: int)
    requires s != []
    ensures m in s && forall x | x in s :: m <= x
  {
    if |s| == 1 then s[0]
    else
      assert s == s[..|s| - 1] + [s[|s| - 1]];
      var m := MinOf(s[..|s| - 1]);
      if s[|s| - 1] < m then s[|s| - 1] else m
  }

  function Candidates(zone: Zone, wall: int): (r: seq<int>)
    ensures r != []
    ensures forall x :: x in r <==>
              x == wall - zone(wall - PROBE) || x == wall - zone(wall) || x == wall - zone(wall + PROBE)
    ensures forall i, j | 0 <= i < j < |r| :: r[i] != r[j]
  {
    var offsets := Distinct([zone(wall - PROBE), zone(wall), zone(wall + PROBE)]);
    var r := Distinct(Before(wall, offsets));
    assert wall - zone(wall) in r;
    r
  }

  function Real(zone: Zone, wall: int): seq<int> {
    Filter(Candidates(zone, wall), t => Reads(zone, wall, t))
  }

  function ToInstant(zone: Zone, wall: int, prefer: Prefer): Resolved {
    var found := Real(zone, wall);
    if |found| == 0 then Resolved(MaxOf(Candidates(zone, wall)), Gap)
    else if |found| == 1 then Resolved(found[0], Exact)
    else Resolved(if prefer == Earliest then MinOf(found) else MaxOf(found), Ambiguous)
  }

  // --- What it promises -------------------------------------------------------------------

  /** No offset is more than half a day. */
  ghost predicate WithinHalfADay(zone: Zone) {
    forall t :: -PROBE <= zone(t) <= PROBE
  }

  /** In the probed day the zone changes at most once: it is on `before` until `change`, and on `after` from then. */
  ghost predicate ChangesOnce(zone: Zone, wall: int, before: int, after: int, change: int) {
    && -PROBE <= before <= PROBE && -PROBE <= after <= PROBE
    && forall t | wall - PROBE <= t <= wall + PROBE :: zone(t) == if t < change then before else after
  }

  lemma ReadsIff(zone: Zone, wall: int, before: int, after: int, change: int, t: int)
    requires WithinHalfADay(zone) && ChangesOnce(zone, wall, before, after, change)
    ensures Reads(zone, wall, t) <==> (t == wall - before && t < change) || (t == wall - after && change <= t)
  {
    assert -PROBE <= zone(t) <= PROBE;
  }

  lemma FoundIff(zone: Zone, wall: int, t: int)
    ensures t in Real(zone, wall) <==>
              Reads(zone, wall, t) && (zone(t) == zone(wall - PROBE) || zone(t) == zone(wall) || zone(t) == zone(wall + PROBE))
  {
  }

  /** The candidates that read back are all the instants that do. */
  lemma RealAreAll(zone: Zone, wall: int, before: int, after: int, change: int, t: int)
    requires WithinHalfADay(zone) && ChangesOnce(zone, wall, before, after, change)
    ensures t in Real(zone, wall) <==> Reads(zone, wall, t)
  {
    hide Real;
    FoundIff(zone, wall, t);
    ReadsIff(zone, wall, before, after, change, t);
    assert zone(wall - PROBE) == if wall - PROBE < change then before else after;
    assert zone(wall + PROBE) == if wall + PROBE < change then before else after;
  }

  lemma RealAre(zone: Zone, wall: int, before: int, after: int, change: int)
    requires WithinHalfADay(zone) && ChangesOnce(zone, wall, before, after, change)
    ensures forall t :: t in Real(zone, wall) <==> (t == wall - before && t < change) || (t == wall - after && change <= t)
  {
    forall t
      ensures t in Real(zone, wall) <==> (t == wall - before && t < change) || (t == wall - after && change <= t)
    {
      RealAreAll(zone, wall, before, after, change, t);
      ReadsIff(zone, wall, before, after, change, t);
    }
  }

  lemma {:induction false} NoneOneOrMore(s: seq<int>, a: int, b: int)
    requires (forall i, j | 0 <= i < j < |s| :: s[i] != s[j]) && forall x | x in s :: x == a || x == b
    ensures |s| == (if a in s then 1 else 0) + if b in s && b != a then 1 else 0
  {
    if s != [] {
      var earlier, last := s[..|s| - 1], s[|s| - 1];
      assert s == earlier + [last];
      assert forall i | 0 <= i < |earlier| :: earlier[i] == s[i] && s[i] != last;
      assert forall x | x in earlier :: x in s;
      assert last in s && last !in earlier;
      assert forall x | x in s :: x in earlier || x == last;
      NoneOneOrMore(earlier, a, b);
    }
  }

  lemma RealAreDistinct(zone: Zone, wall: int)
    ensures forall i, j | 0 <= i < j < |Real(zone, wall)| :: Real(zone, wall)[i] != Real(zone, wall)[j]
  {
  }

  ghost predicate OneReads(zone: Zone, wall: int) {
    exists t :: Reads(zone, wall, t) && forall u | Reads(zone, wall, u) :: u == t
  }

  /** What is answered, by which of the two offsets read the wall clock on their own side of the change. */
  lemma Answer(zone: Zone, wall: int, before: int, after: int, change: int, prefer: Prefer)
    requires WithinHalfADay(zone) && ChangesOnce(zone, wall, before, after, change)
    ensures var r, old', new' := ToInstant(zone, wall, prefer), wall - before < change, change <= wall - after;
            && (r.resolution == Exact <==> old' != new' )
            && (r.resolution == Ambiguous <==> old' && new')
            && (r.resolution == Exact ==> r.instant == wall - if old' then before else after)
            && (r.resolution == Ambiguous ==> before > after && r.instant == wall - if prefer == Earliest then before else after)
  {
    hide Real;
    RealAre(zone, wall, before, after, change);
    RealAreDistinct(zone, wall);
    NoneOneOrMore(Real(zone, wall), wall - before, wall - after);
    if |Real(zone, wall)| == 1 { assert Real(zone, wall)[0] in Real(zone, wall); }
  }

  /** None, one, two: a gap when no instant reads the wall clock, exact when one does, ambiguous when two do. */
  lemma ResolutionCounts(zone: Zone, wall: int, before: int, after: int, change: int, prefer: Prefer)
    requires WithinHalfADay(zone) && ChangesOnce(zone, wall, before, after, change)
    ensures var r := ToInstant(zone, wall, prefer);
            && (r.resolution == Gap <==> forall t :: !Reads(zone, wall, t))
            && (r.resolution == Exact <==> OneReads(zone, wall))
            && (r.resolution != Gap ==> Reads(zone, wall, r.instant))
            && (r.resolution != Gap ==> forall t | Reads(zone, wall, t) :: if prefer == Earliest then r.instant <= t else t <= r.instant)
  {
    hide ToInstant, Reads;
    Answer(zone, wall, before, after, change, prefer);
    forall t ensures Reads(zone, wall, t) <==> (t == wall - before && t < change) || (t == wall - after && change <= t) {
      ReadsIff(zone, wall, before, after, change, t);
    }
    assert Reads(zone, wall, wall - before) <==> wall - before < change || (before == after && change <= wall - after);
    assert Reads(zone, wall, wall - after) <==> change <= wall - after || (before == after && wall - before < change);
  }

  /** A time that does not happen is shifted forward by exactly the time that was lost. */
  lemma GapShiftsForward(zone: Zone, wall: int, before: int, after: int, change: int, prefer: Prefer)
    requires WithinHalfADay(zone) && ChangesOnce(zone, wall, before, after, change)
    requires ToInstant(zone, wall, prefer).resolution == Gap
    ensures after > before && ToInstant(zone, wall, prefer).instant == wall - before >= change
    ensures Reads(zone, wall + (after - before), ToInstant(zone, wall, prefer).instant)
  {
    hide Real, Candidates;
    Answer(zone, wall, before, after, change, prefer);
    BothAreCandidates(zone, wall, before, after, change);
    assert wall - before in Candidates(zone, wall) && after > before;
    assert zone(wall - before) == after;
  }

  lemma BothAreCandidates(zone: Zone, wall: int, before: int, after: int, change: int)
    requires ChangesOnce(zone, wall, before, after, change) && wall - PROBE < change <= wall + PROBE
    ensures forall x :: x in Candidates(zone, wall) <==> x == wall - before || x == wall - after
  {
    hide Candidates;
    assert zone(wall - PROBE) == before && zone(wall + PROBE) == after;
    assert zone(wall) == before || zone(wall) == after;
  }

  // --- Beyond half a day ------------------------------------------------------------------

  function Changing(before: int, after: int, change: int): Zone {
    t => if t < change then before else after
  }

  /**
   For a zone that changes once and for all, every instant that reads the wall clock is
   found if and only if neither offset reads it on its own side of a change that the
   probes on that side do not reach.
   */
  lemma AllFoundIff(before: int, after: int, change: int, wall: int)
    requires before != after
    ensures (forall t | Reads(Changing(before, after, change), wall, t) :: t in Real(Changing(before, after, change), wall))
            <==> !(wall - before < change <= wall - PROBE) && !(wall + PROBE < change <= wall - after)
  {
    var zone := Changing(before, after, change);
    assert Reads(zone, wall, wall - before) <==> wall - before < change;
    assert Reads(zone, wall, wall - after) <==> change <= wall - after;
    assert forall t | Reads(zone, wall, t) :: t == wall - before || t == wall - after;
    assert wall - before in Candidates(zone, wall) <==> wall - PROBE < change;
    assert wall - after in Candidates(zone, wall) <==> change <= wall + PROBE;
  }

  /** Auckland's repeated hour, thirteen hours ahead going back to twelve: it is reported exact. */
  lemma ThirteenHoursIsTooFar(change: int, wall: int, prefer: Prefer)
    requires change + 720 <= wall < change + 780
    ensures var zone := Changing(780, 720, change);
            && Reads(zone, wall, wall - 780) && Reads(zone, wall, wall - 720)
            && ToInstant(zone, wall, prefer) == Resolved(wall - 720, Exact)
  {
    hide Real;
    var zone := Changing(780, 720, change);
    var found := Real(zone, wall);
    forall t ensures t in found <==> t == wall - 720 { FoundIff(zone, wall, t); }
    RealAreDistinct(zone, wall);
    NoneOneOrMore(found, wall - 720, wall - 720);
    assert found[0] in found;
  }

  // --- The day a zone changes -------------------------------------------------------------

  const MINUTES_PER_DAY: int := 1440

  function InstantAt(zone: Zone, wall: int, prefer: Prefer): int {
    ToInstant(zone, wall, prefer).instant
  }

  function TransitionMinutesOn(zone: Zone, midnight: int): int {
    MINUTES_PER_DAY - (InstantAt(zone, midnight + MINUTES_PER_DAY, Earliest) - InstantAt(zone, midnight, Earliest))
  }

  /** The earliest instant goes by the old offset until the change is over on both clocks. */
  lemma EarliestIs(zone: Zone, wall: int, before: int, after: int, change: int)
    requires WithinHalfADay(zone) && ChangesOnce(zone, wall, before, after, change)
    ensures InstantAt(zone, wall, Earliest)
            == wall - if change + before <= wall && change + after <= wall then after else before
  {
    Answer(zone, wall, before, after, change, Earliest);
    if ToInstant(zone, wall, Earliest).resolution == Gap {
      GapShiftsForward(zone, wall, before, after, change, Earliest);
    }
  }

  /** A day is found to gain or lose what the clocks moved by if and only if the change is over, on both clocks, within it. */
  lemma TransitionIsMeasured(zone: Zone, midnight: int, before: int, after: int, change: int)
    requires WithinHalfADay(zone) && -PROBE <= before <= PROBE && -PROBE <= after <= PROBE
    requires forall t | midnight - PROBE <= t <= midnight + MINUTES_PER_DAY + PROBE :: zone(t) == if t < change then before else after
    ensures var over := change + if after > before then after else before;
            TransitionMinutesOn(zone, midnight) == if midnight < over <= midnight + MINUTES_PER_DAY then after - before else 0
  {
    EarliestIs(zone, midnight, before, after, change);
    EarliestIs(zone, midnight + MINUTES_PER_DAY, before, after, change);
  }
}
