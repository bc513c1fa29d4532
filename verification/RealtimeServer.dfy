module RealtimeServer {
  /** The server's side: a bounded backlog, and what a client that says where it stands is sent. */

  import opened Wrappers
  import opened RealtimeGaps

  /** A channel's held events and its next number. */
  datatype Held = Held(events: seq<Event>, next: nat)

  ghost predicate WellHeld(held: Held, c: Channel, keep: nat) {
    && 1 <= held.next
    && |held.events| == (if held.next - 1 < keep then held.next - 1 else keep)
    && forall i | 0 <= i < |held.events| :: held.events[i].channel == c && held.events[i].number == held.next - |held.events| + i
  }

  datatype Bounds = Bounds(oldest: nat, latest: nat, first: nat)

  /** The held events numbered above `since`, oldest first. */
  function After(events: seq<Event>, since: nat): seq<Event>
    decreases |events|
  {
    if events == [] then []
    else After(events[..|events| - 1], since) + if events[|events| - 1].number > since then [events[|events| - 1]] else []
  }

  class MemoryBacklog {
    const keep: nat
    var channels: map<Channel, Held>

    ghost predicate Valid()
      reads this
    {
      forall c | c in channels :: WellHeld(channels[c], c, keep)
    }

    constructor (keep: nat)
      ensures Valid() && channels == map[] && this.keep == keep
    {
      this.keep, channels := keep, map[];
    }

    function EventsOf(c: Channel): seq<Event>
      reads this
    {
      if c in channels then channels[c].events else []
    }

    /** The number and the storing in one call; what is beyond the bound is dropped, oldest first. */
    method Append(c: Channel, payload: int) returns (stored: Event)
      requires Valid()
      modifies this
      ensures Valid() && channels.Keys == old(channels).Keys + {c}
      ensures forall d | d in old(channels) && d != c :: channels[d] == old(channels)[d]
      ensures stored == Event(c, if c in old(channels) then old(channels)[c].next else 1, payload)
      ensures channels[c].next == stored.number + 1
      ensures keep > 0 ==> channels[c].events == old(EventsOf(c))[if |old(EventsOf(c))| < keep then 0 else 1..] + [stored]
    {
      var held := if c in channels then channels[c] else Held([], 1);
      stored := Event(c, held.next, payload);
      var events := held.events + [stored];
      if |events| > keep { events := events[|events| - keep..]; }
      channels := channels[c := Held(events, held.next + 1)];
    }

    method Since(c: Channel, since: nat) returns (events: seq<Event>)
      ensures events == After(EventsOf(c), since)
    {
      events := [];
      var held := EventsOf(c);
      for i := 0 to |held|
        invariant events == After(held[..i], since)
      {
        assert held[..i + 1][..i] == held[..i];
        if held[i].number > since { events := events + [held[i]]; }
      }
      assert held[..|held|] == held;
    }

    function BoundsOf(c: Channel): Bounds
      reads this
    {
      var events := EventsOf(c);
      if events == [] then Bounds(0, 0, 1) else Bounds(events[0].number, events[|events| - 1].number, 1)
    }

    /** The held events run without a hole from the oldest to the latest. */
    lemma HoldsARun(c: Channel)
      requires Valid()
      ensures IsRun(EventsOf(c), c, BoundsOf(c))
    {
    }
  }

  ghost predicate IsRun(events: seq<Event>, c: Channel, bounds: Bounds) {
    if events == [] then bounds == Bounds(0, 0, 1)
    else
      && 0 < bounds.first <= bounds.oldest && bounds.latest == bounds.oldest + |events| - 1
      && forall i | 0 <= i < |events| :: events[i].channel == c && events[i].number == bounds.oldest + i
  }

  datatype Reply = Reply(events: seq<Event>, gap: bool, latest: nat)

  /** 0 stands just before the channel's first event. */
  function Position(since: nat, bounds: Bounds): int {
    if since == 0 then bounds.first - 1 else since
  }

  /** What a client standing at `since` is sent: nothing, what it missed, or that it cannot be served. */
  function Resume(events: seq<Event>, bounds: Bounds, since: Option<nat>): Reply {
    match since
    case None => Reply([], false, bounds.latest)
    case Some(s) =>
      var position := Position(s, bounds);
      if position == bounds.latest then Reply([], false, bounds.latest)
      else if position > bounds.latest || position < bounds.oldest - 1 then Reply([], true, bounds.latest)
      else Reply(After(events, if position < 0 then 0 else position), false, bounds.latest)
  }

  /** Over the socket the replay, or the gap, goes before the welcome. */
  function AsFrames(reply: Reply, c: Channel): seq<Input> {
    (if reply.gap then [Heard(GapFrame(c, reply.latest))] else EventFrames(reply.events)) + [Heard(Welcome(map[c := reply.latest]))]
  }

  function EventFrames(events: seq<Event>): seq<Input>
    decreases |events|
  {
    if events == [] then [] else EventFrames(events[..|events| - 1]) + [Heard(EventFrame(events[|events| - 1]))]
  }

  /** Over HTTP the same reply, one channel asked for. */
  function AsAnswer(reply: Reply, c: Channel): Answer {
    Answer(if reply.gap then [] else reply.events, if reply.gap then [c] else [], map[c := reply.latest])
  }

  // --- Catching up --------------------------------------------------------------------------

  function StandsAt(v: View, c: Channel): Option<nat> {
    if c in v.seen then Some(v.seen[c]) else None
  }

  function Delivery(events: seq<Event>): seq<Told>
    decreases |events|
  {
    if events == [] then [] else Delivery(events[..|events| - 1]) + [Delivered(events[|events| - 1])]
  }

  lemma {:induction false} AfterIsSuffix(events: seq<Event>, start: nat, since: nat)
    requires forall i | 0 <= i < |events| :: events[i].number == start + i
    requires start <= since + 1 <= start + |events|
    ensures After(events, since) == events[since + 1 - start..]
    decreases |events|
  {
    if since + 1 == start + |events| {
      NoneAfter(events, since);
    } else {
      var before, last := events[..|events| - 1], events[|events| - 1];
      AfterIsSuffix(before, start, since);
      SuffixGrows(before, last, since + 1 - start);
      assert events == before + [last];
    }
  }

  lemma SuffixGrows(before: seq<Event>, last: Event, k: nat)
    requires k <= |before|
    ensures (before + [last])[k..] == before[k..] + [last]
  {
  }

  lemma {:induction false} NoneAfter(events: seq<Event>, since: nat)
    requires forall e | e in events :: e.number <= since
    ensures After(events, since) == []
    decreases |events|
  {
    if events != [] { NoneAfter(events[..|events| - 1], since); }
  }

  /** Events numbered one after another from where the client stands, or any first one from 0, are all taken. */
  lemma {:induction false} RunIsTaken(v: View, events: seq<Event>, c: Channel, start: nat)
    requires c in v.seen && (v.seen[c] == 0 || v.seen[c] + 1 == start) && start > 0
    requires forall i | 0 <= i < |events| :: events[i].channel == c && events[i].number == start + i
    ensures OfferAll(v, events)
            == View(if events == [] then v.seen else v.seen[c := events[|events| - 1].number], v.told + Delivery(events))
    decreases |events|
  {
    if events != [] {
      var before := events[..|events| - 1];
      RunIsTaken(v, before, c, start);
      assert before != [] ==> before[|before| - 1].number == start + |before| - 1;
      assert v.told + Delivery(before) + [Delivered(events[|events| - 1])] == v.told + Delivery(events);
    }
  }

  lemma {:induction false} FramesAreOffered(v: View, events: seq<Event>, more: seq<Input>)
    ensures Run(v, EventFrames(events) + more) == Run(OfferAll(v, events), more)
    decreases |events|
  {
    if events == [] {
      assert EventFrames(events) + more == more;
    } else {
      var before, last := events[..|events| - 1], Heard(EventFrame(events[|events| - 1]));
      FramesAreOffered(v, before, [last] + more);
      assert EventFrames(events) + more == EventFrames(before) + ([last] + more);
      assert ([last] + more)[1..] == more;
    }
  }

  /** Where a client stands after a reply, and what its product is told. */
  ghost predicate CaughtUp(v: View, v': View, events: seq<Event>, bounds: Bounds, c: Channel)
    requires IsRun(events, c, bounds)
  {
    && c in v'.seen && v'.seen[c] == bounds.latest
    && v'.told == v.told + match StandsAt(v, c) {
         case None => []
         case Some(s) =>
           var position := Position(s, bounds);
           if position > bounds.latest || position < bounds.oldest - 1 then [Restarted(c, s, bounds.latest)]
           else if position == bounds.latest then []
           else Delivery(events[position + 1 - bounds.oldest..])
       }
  }

  lemma ReplyEvents(events: seq<Event>, bounds: Bounds, c: Channel, s: nat)
    requires IsRun(events, c, bounds)
    ensures var position, reply := Position(s, bounds), Resume(events, bounds, Some(s));
            && reply.gap == (position > bounds.latest || position < bounds.oldest - 1)
            && (!reply.gap && position == bounds.latest ==> reply.events == [])
            && (!reply.gap && position != bounds.latest ==>
                  bounds.oldest - 1 <= position < bounds.latest && reply.events == events[position + 1 - bounds.oldest..] != [])
  {
    var position := Position(s, bounds);
    if events != [] && bounds.oldest - 1 <= position < bounds.latest {
      AfterIsSuffix(events, bounds.oldest, position);
    }
  }

  /**
   One exchange over HTTP: the client stands where the channel stands, having been given
   every event it missed, in order, or told of a restart exactly when the backlog no longer
   reaches back to it or never reached as far.
   */
  lemma PollCatchesUp(v: View, events: seq<Event>, bounds: Bounds, c: Channel)
    requires IsRun(events, c, bounds)
    ensures CaughtUp(v, Digest(v, AsAnswer(Resume(events, bounds, StandsAt(v, c)), c)), events, bounds, c)
  {
    hide After;
    var reply := Resume(events, bounds, StandsAt(v, c));
    if c in v.seen {
      ReplyEvents(events, bounds, c, v.seen[c]);
      if reply.gap {
        GapDigested(v, reply.latest, c);
      } else {
        if reply.events != [] { RunIsTaken(v, reply.events, c, Position(v.seen[c], bounds) + 1); }
        ReplayDigested(v, reply.events, reply.latest, c);
      }
    } else {
      ReplayDigested(v, [], reply.latest, c);
    }
  }

  lemma GapDigested(v: View, latest: nat, c: Channel)
    ensures var v', restarted := Digest(v, Answer([], [c], map[c := latest])), Restart(v, c, latest);
            && c in v'.seen && v'.seen[c] == latest && v' == restarted.(seen := Joined(restarted.seen, map[c := latest]))
  {
    assert RestartAll(v, [c], map[c := latest]) == Restart(RestartAll(v, [], map[c := latest]), c, latest) by {
      assert [c][..0] == [];
    }
  }

  /** One exchange over a socket, the replay before the welcome: the same. */
  lemma SubscribeCatchesUp(v: View, events: seq<Event>, bounds: Bounds, c: Channel)
    requires IsRun(events, c, bounds)
    ensures CaughtUp(v, Run(v, AsFrames(Resume(events, bounds, StandsAt(v, c)), c)), events, bounds, c)
  {
    hide After, CaughtUp;
    var reply := Resume(events, bounds, StandsAt(v, c));
    var welcome := Heard(Welcome(map[c := reply.latest]));
    PollCatchesUp(v, events, bounds, c);
    NoneSentWithAGap(events, bounds, StandsAt(v, c));
    assert [welcome][1..] == [];
    if reply.gap {
      var gap := Heard(GapFrame(c, reply.latest));
      var restarted := Restart(v, c, reply.latest);
      assert ([gap] + [welcome])[1..] == [welcome];
      assert Run(v, [gap] + [welcome]) == Run(restarted, [welcome]) == restarted.(seen := Joined(restarted.seen, map[c := reply.latest]));
      GapDigested(v, reply.latest, c);
    } else {
      FramesAreOffered(v, reply.events, [welcome]);
    }
  }

  lemma NoneSentWithAGap(events: seq<Event>, bounds: Bounds, since: Option<nat>)
    ensures Resume(events, bounds, since).gap ==> Resume(events, bounds, since).events == []
  {
  }

  lemma ReplayDigested(v: View, events: seq<Event>, latest: nat, c: Channel)
    ensures var offered, v' := OfferAll(v, events), Digest(v, Answer(events, [], map[c := latest]));
            && v'.told == offered.told && c in v'.seen
            && v'.seen[c] == if SeenAt(offered.seen, c) == 0 then latest else offered.seen[c]
  {
  }

  /** The answer moves the client back if and only if the channel has begun again and not yet come as far. */
  lemma SendsBackIff(v: View, events: seq<Event>, bounds: Bounds, c: Channel)
    requires IsRun(events, c, bounds)
    ensures !Forward(v, Polled(AsAnswer(Resume(events, bounds, StandsAt(v, c)), c)), c) <==> SeenAt(v.seen, c) > bounds.latest
  {
    hide After, OfferAll;
    var reply := Resume(events, bounds, StandsAt(v, c));
    NoneSentWithAGap(events, bounds, StandsAt(v, c));
    assert reply.gap ==> OfferAll(v, []) == v by { NoneOffered(v); }
  }

  lemma NoneOffered(v: View)
    ensures OfferAll(v, []) == v
  {
  }
}
