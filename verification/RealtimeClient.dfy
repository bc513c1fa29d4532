module RealtimeClient {
  /**
   The client around the cursor: which connection it has, when it polls, how long it waits,
   and what it does with each frame and each poll.
   */

  import opened RealtimeGaps

  datatype ConnectionState = Connecting | Live | Polling | Offline

  const LONGEST_RETRY_MS: nat := 30000

  function Doubled(times: nat): nat {
    if times == 0 then 1 else 2 * Doubled(times - 1)
  }

  function Capped(retry: nat): nat { if retry < 6 then retry else 6 }

  /** How long the next socket is waited for. */
  function Wait(retry: nat, superseded: bool): nat {
    var wait := 500 * Doubled(Capped(retry));
    if superseded || wait > LONGEST_RETRY_MS then LONGEST_RETRY_MS else wait
  }

  lemma {:induction false} DoubledGrows(a: nat, b: nat)
    requires a <= b
    ensures 1 <= Doubled(a) <= Doubled(b)
    decreases b
  {
    if a < b { DoubledGrows(a, b - 1); }
    if a > 0 && a == b { DoubledGrows(a - 1, b - 1); }
  }

  lemma SixtyFourfold()
    ensures Doubled(1) == 2 && Doubled(6) == 64
  {
    assert Doubled(3) == 8;
  }

  /** Waits start at a second, never shrink while attempts fail, and reach 30 seconds at the sixth and no more. */
  lemma WaitsGrowToTheLongest(retry: nat, later: nat, superseded: bool)
    requires 0 < retry <= later
    ensures 1000 <= Wait(retry, superseded) <= LONGEST_RETRY_MS
    ensures Wait(retry, false) <= Wait(later, false) <= Wait(later, true)
    ensures retry >= 6 ==> Wait(retry, false) == LONGEST_RETRY_MS
  {
    SixtyFourfold();
    DoubledGrows(1, Capped(retry));
    DoubledGrows(Capped(retry), Capped(later));
  }

  /** The first wait is a second, each is twice the one before until that is more than 30 seconds, and a superseded client waits those. */
  lemma WaitsDouble(retry: nat)
    requires retry > 0
    ensures Wait(1, false) == 1000 && Wait(retry, true) == 30000
    ensures Wait(retry + 1, false) == if 2 * Wait(retry, false) > 30000 then 30000 else 2 * Wait(retry, false)
  {
    SixtyFourfold();
    if retry >= 5 {
      assert Doubled(5) == 32;
    } else {
      DoubledGrows(retry + 1, 5);
    }
  }

  /** A subscription sent over the socket: which channels, and where the client stands. */
  datatype Asked = Asked(channels: seq<Channel>, since: Positions)

  class RealtimeClient {
    const cursor: ChannelCursor
    const channels: seq<Channel>
    /** Whether there is an address to poll. */
    const canPoll: bool
    var socket: bool
    var state: ConnectionState
    var poller: bool
    var heartbeat: bool
    var retry: nat
    var closed: bool
    var lastHeard: int
    /** The waits of the retries still to come. */
    var timers: seq<nat>
    /** What the product has heard, and what the socket was sent, in order. */
    var told: seq<Told>
    var asked: seq<Asked>
    /** Whether `Start` was called since the client was made or stopped. */
    ghost var started: bool

    /** The state shown is the state it is in, and a started client is never without a next attempt. */
    ghost predicate Valid()
      reads this
    {
      && (poller <==> state == Polling)
      && (heartbeat <==> state == Live)
      && (poller ==> canPoll)
      && (state == Live ==> socket)
      && (!started ==> state == Offline && !socket && (closed || timers == []))
      && (started ==> !closed && (socket || timers != []) && (state == Offline ==> !canPoll))
    }

    function Seen(): View
      reads this, cursor
    {
      View(cursor.seen, told)
    }

    constructor (channels: seq<Channel>, canPoll: bool)
      ensures Valid() && fresh(cursor) && Seen() == View(map[], []) && !started && !closed
      ensures this.channels == channels && this.canPoll == canPoll && asked == []
    {
      cursor := new ChannelCursor();
      this.channels, this.canPoll := channels, canPoll;
      socket, state, poller, heartbeat, retry, closed, lastHeard := false, Offline, false, false, 0, false, 0;
      timers, told, asked, started := [], [], [], false;
    }

    /** `opens` is whether the address is one a browser will open at all. */
    method Start(opens: bool)
      requires Valid() && !started
      modifies this`closed, this`state, this`socket, this`poller, this`retry, this`timers, this`started
      ensures Valid() && started && socket == opens
    {
      closed := false;
      started := true;
      Open(opens);
    }

    method Stop()
      requires Valid()
      modifies this`closed, this`state, this`socket, this`poller, this`heartbeat, this`started
      ensures Valid() && !started && closed
    {
      closed := true;
      heartbeat := false;
      poller := false;
      socket := false;
      state := Offline;
      started := false;
    }

    /** A retry behind a running poller is background work and is not shown. */
    method Open(opens: bool)
      requires started && !closed && !socket && !heartbeat && state != Live
      requires (poller <==> state == Polling) && (poller ==> canPoll)
      modifies this`state, this`socket, this`poller, this`retry, this`timers
      ensures Valid() && socket == opens && (old(poller) ==> state == Polling)
    {
      if !poller { state := Connecting; }
      if !opens {
        FallBack(false);
        return;
      }
      socket := true;
    }

    /** Polling starts at once, and a socket is tried again behind it. */
    method FallBack(superseded: bool)
      requires started && !closed && !socket && !heartbeat
      requires (poller <==> state == Polling) && (poller ==> canPoll)
      modifies this`state, this`poller, this`retry, this`timers
      ensures Valid() && state == if canPoll then Polling else Offline
      ensures retry == old(retry) + 1 && timers == old(timers) + [Wait(retry, superseded)]
    {
      StartPolling();
      retry := retry + 1;
      timers := timers + [Wait(retry, superseded)];
    }

    method StartPolling()
      requires (poller <==> state == Polling) && (poller ==> canPoll)
      modifies this`state, this`poller
      ensures poller == canPoll && state == if canPoll then Polling else Offline
    {
      if poller { return; }
      if !canPoll {
        state := Offline;
        return;
      }
      state := Polling;
      poller := true;
    }

    /** A retry's time has come; a page that polls goes on showing that it does. */
    method Retry(k: nat, opens: bool)
      requires Valid() && k < |timers|
      modifies this`state, this`socket, this`poller, this`retry, this`timers
      ensures Valid()
      ensures closed || old(socket) ==> state == old(state) && socket == old(socket)
      ensures !closed && !old(socket) ==> socket == opens && (old(poller) ==> state == Polling)
    {
      timers := timers[..k] + timers[k + 1..];
      if !closed && !socket { Open(opens); }
    }

    /** The socket opened: what it is asked for starts where the client stands. */
    method Opened(now: int)
      requires Valid() && socket
      modifies this`state, this`poller, this`heartbeat, this`retry, this`lastHeard, this`asked
      ensures Valid() && state == Live && retry == 0
      ensures asked == old(asked) + [Asked(channels, cursor.seen)]
    {
      retry := 0;
      lastHeard := now;
      poller := false;
      state := Live;
      asked := asked + [Asked(channels, cursor.seen)];
      heartbeat := true;
    }

    /** A socket this client made has closed. */
    method Closed(superseded: bool)
      requires Valid() && (started || closed)
      modifies this`socket, this`heartbeat, this`state, this`poller, this`retry, this`timers
      ensures Valid() && !socket
      ensures started ==> state == (if canPoll then Polling else Offline) && timers == old(timers) + [Wait(old(retry) + 1, superseded)]
    {
      socket := false;
      heartbeat := false;
      if closed { return; }
      FallBack(superseded);
    }

    /** A frame, by kind. What is missing is asked for over the socket, and the product told. */
    method Receive(frame: Frame)
      requires Valid()
      modifies this`told, this`asked, cursor
      ensures Valid() && Seen() == RealtimeGaps.Receive(old(Seen()), frame)
      ensures asked ==
              if socket && frame.EventFrame? && 0 < SeenAt(old(cursor.seen), frame.event.channel)
                 && frame.event.number > SeenAt(old(cursor.seen), frame.event.channel) + 1
              then old(asked) + [Asked([frame.event.channel], old(cursor.seen))] else old(asked)
    {
      match frame
      case Welcome(latest) => TakePlaces(latest);
      case EventFrame(event) =>
        var verdict := cursor.Offer(event);
        if verdict == Take { told := told + [Delivered(event)]; }
        if verdict == Gap {
          told := told + [Resync(event.channel)];
          if socket { asked := asked + [Asked([event.channel], cursor.seen)]; }
        }
      case GapFrame(channel, from) => RestartAt(channel, from);
      case Pong =>
    }

    method RestartAt(channel: Channel, at: nat)
      modifies this`told, cursor
      ensures Seen() == Restart(old(Seen()), channel, at)
    {
      told := told + [Restarted(channel, SeenAt(cursor.seen, channel), at)];
      cursor.Start(channel, at);
    }

    method TakePlaces(latest: Positions)
      modifies cursor
      ensures cursor.seen == Joined(old(cursor.seen), latest)
    {
      var left := latest.Keys;
      ghost var before := cursor.seen;
      while left != {}
        invariant left <= latest.Keys
        invariant forall c | c in left :: (c in cursor.seen <==> c in before) && SeenAt(cursor.seen, c) == SeenAt(before, c)
        invariant cursor.seen.Keys == before.Keys + (latest.Keys - left)
        invariant forall c | c in cursor.seen && c !in left :: cursor.seen[c] == Joined(before, latest)[c]
      {
        var c :| c in left;
        if SeenAt(cursor.seen, c) == 0 { cursor.Start(c, latest[c]); }
        left := left - {c};
      }
    }

    method TakeEvents(events: seq<Event>)
      modifies this`told, cursor
      ensures Seen() == OfferAll(old(Seen()), events)
    {
      for i := 0 to |events|
        invariant Seen() == OfferAll(old(Seen()), events[..i])
      {
        var event := events[i];
        assert events[..i + 1][..i] == events[..i];
        var verdict := cursor.Offer(event);
        if verdict == Take { told := told + [Delivered(event)]; }
        if verdict == Gap { told := told + [Resync(event.channel)]; }
      }
      assert events[..|events|] == events;
    }

    method RestartEach(gaps: seq<Channel>, latest: Positions)
      modifies this`told, cursor
      ensures Seen() == RestartAll(old(Seen()), gaps, latest)
    {
      for i := 0 to |gaps|
        invariant Seen() == RestartAll(old(Seen()), gaps[..i], latest)
      {
        assert gaps[..i + 1][..i] == gaps[..i];
        RestartAt(gaps[i], SeenAt(latest, gaps[i]));
      }
      assert gaps[..|gaps|] == gaps;
    }

    /** A poll's answer: events, then the channels it could not serve, then places. */
    method Answered(answer: Answer)
      requires Valid()
      modifies this`told, cursor
      ensures Valid() && Seen() == Digest(old(Seen()), answer)
    {
      TakeEvents(answer.events);
      RestartEach(answer.gaps, answer.latest);
      TakePlaces(answer.latest);
    }
  }
}
