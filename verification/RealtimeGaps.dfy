module RealtimeGaps {
  /**
   What a realtime client has seen and been told: a cursor per channel, moved by events,
   restarts and positions, and the record of what the product heard.
   */

  type Channel = string

  datatype Event = Event(channel: Channel, number: nat, payload: int)

  datatype Verdict = Take | Skip | Gap

  type Positions = map<Channel, nat>

  function SeenAt(seen: Positions, c: Channel): nat {
    if c in seen then seen[c] else 0
  }

  /** The next one, one already seen, or a jump; from nowhere and from 0, whatever comes is next. */
  function Judge(seen: Positions, e: Event): Verdict {
    if SeenAt(seen, e.channel) == 0 then Take
    else if e.number <= seen[e.channel] then Skip
    else if e.number > seen[e.channel] + 1 then Gap
    else Take
  }

  /** A place is taken in every channel that has none, and in one standing at 0. */
  function Joined(seen: Positions, latest: Positions): Positions {
    map c | c in seen.Keys + latest.Keys :: if c in latest && SeenAt(seen, c) == 0 then latest[c] else SeenAt(seen, c)
  }

  class ChannelCursor {
    var seen: Positions

    constructor ()
      ensures seen == map[]
    {
      seen := map[];
    }

    method Start(channel: Channel, number: nat)
      modifies this
      ensures seen == old(seen)[channel := number]
    {
      seen := seen[channel := number];
    }

    method Forget(channel: Channel)
      modifies this
      ensures seen == old(seen) - {channel}
    {
      seen := seen - {channel};
    }

    /** A jump leaves the cursor where it is, so that the resume asks for what is missing. */
    method Offer(event: Event) returns (verdict: Verdict)
      modifies this
      ensures verdict == Gap <==> SeenAt(old(seen), event.channel) > 0 && event.number > SeenAt(old(seen), event.channel) + 1
      ensures verdict == Skip <==> SeenAt(old(seen), event.channel) > 0 && event.number <= SeenAt(old(seen), event.channel)
      ensures seen == if verdict == Take then old(seen)[event.channel := event.number] else old(seen)
    {
      if event.channel !in seen || seen[event.channel] == 0 {
        seen := seen[event.channel := event.number];
        return Take;
      }
      if event.number <= seen[event.channel] { return Skip; }
      if event.number > seen[event.channel] + 1 { return Gap; }
      seen := seen[event.channel := event.number];
      return Take;
    }
  }

  /** The numbers after `from` that a batch skips on the way to its highest, in order. */
  method Missing(from: nat, events: seq<Event>) returns (gaps: seq<nat>)
    ensures forall i, j | 0 <= i < j < |gaps| :: gaps[i] < gaps[j]
    ensures forall n :: n in gaps <==>
              && from < n && (forall e | e in events :: e.number != n)
              && exists e :: e in events && n < e.number
  {
    if |events| == 0 { return []; }
    var have := set e | e in events :: e.number;
    var highest := events[0].number;
    for i := 0 to |events|
      invariant exists e :: e in events && e.number == highest
      invariant forall k | 0 <= k < i :: events[k].number <= highest
    {
      if events[i].number > highest { highest := events[i].number; }
    }
    gaps := [];
    var next := from + 1;
    while next < highest
      invariant from < next
      invariant forall i, j | 0 <= i < j < |gaps| :: gaps[i] < gaps[j]
      invariant forall i | 0 <= i < |gaps| :: gaps[i] < next
      invariant forall n :: n in gaps <==> from < n < next && n < highest && n !in have
    {
      if next !in have { gaps := gaps + [next]; }
      next := next + 1;
    }
    forall n ensures n in gaps <==>
                       && from < n && (forall e | e in events :: e.number != n)
                       && exists e :: e in events && n < e.number
    {
      assert (exists e :: e in events && n < e.number) <==> n < highest;
    }
  }

  // --- What the product hears ------------------------------------------------------------

  /** An event; a restart at `at` from where the client stood; or only a call to fetch afresh. */
  datatype Told = Delivered(event: Event) | Restarted(channel: Channel, from: nat, at: nat) | Resync(channel: Channel)

  datatype View = View(seen: Positions, told: seq<Told>)

  datatype Frame = Welcome(channels: Positions) | EventFrame(event: Event) | GapFrame(channel: Channel, from: nat) | Pong

  /** The body of a poll's response. */
  datatype Answer = Answer(events: seq<Event>, gaps: seq<Channel>, latest: Positions)

  datatype Input = Heard(frame: Frame) | Polled(answer: Answer)

  function Offered(v: View, e: Event): View {
    match Judge(v.seen, e)
    case Take => View(v.seen[e.channel := e.number], v.told + [Delivered(e)])
    case Skip => v
    case Gap => v.(told := v.told + [Resync(e.channel)])
  }

  /**
   What an event does, by its number: from 0 it is delivered; past a positive position the
   next one is, an earlier one changes nothing, and a later one leaves the client where it
   stands and tells the product to fetch afresh.
   */
  lemma OfferedByNumber(v: View, e: Event)
    ensures var s := SeenAt(v.seen, e.channel);
            && (s == 0 || e.number == s + 1 ==> Offered(v, e) == View(v.seen[e.channel := e.number], v.told + [Delivered(e)]))
            && (0 < s && e.number <= s ==> Offered(v, e) == v)
            && (0 < s && e.number > s + 1 ==> Offered(v, e) == View(v.seen, v.told + [Resync(e.channel)]))
  {
  }

  function Restart(v: View, c: Channel, at: nat): View {
    View(v.seen[c := at], v.told + [Restarted(c, SeenAt(v.seen, c), at)])
  }

  function Receive(v: View, frame: Frame): View {
    match frame
    case Welcome(channels) => v.(seen := Joined(v.seen, channels))
    case EventFrame(e) => Offered(v, e)
    case GapFrame(c, from) => Restart(v, c, from)
    case Pong => v
  }

  function OfferAll(v: View, events: seq<Event>): View
    decreases |events|
  {
    if events == [] then v else Offered(OfferAll(v, events[..|events| - 1]), events[|events| - 1])
  }

  function RestartAll(v: View, gaps: seq<Channel>, latest: Positions): View
    decreases |gaps|
  {
    if gaps == [] then v
    else
      var c := gaps[|gaps| - 1];
      Restart(RestartAll(v, gaps[..|gaps| - 1], latest), c, SeenAt(latest, c))
  }

  /** Events, then the channels that could not be served, then a place in every channel that has none. */
  function Digest(v: View, answer: Answer): View {
    var served := RestartAll(OfferAll(v, answer.events), answer.gaps, answer.latest);
    served.(seen := Joined(served.seen, answer.latest))
  }

  function Step(v: View, input: Input): View {
    match input
    case Heard(frame) => Receive(v, frame)
    case Polled(answer) => Digest(v, answer)
  }

  function Run(v: View, inputs: seq<Input>): View
    decreases |inputs|
  {
    if inputs == [] then v else Run(Step(v, inputs[0]), inputs[1..])
  }

  // --- Completeness ---------------------------------------------------------------------

  /** A restart of the channel goes on from where the client stands or later. */
  ghost predicate RestartsForward(v: View, gaps: seq<Channel>, latest: Positions, c: Channel) {
    c in gaps ==> SeenAt(latest, c) >= SeenAt(v.seen, c)
  }

  /** No gap answer on the channel moves the client backwards. */
  ghost predicate Forward(v: View, input: Input, c: Channel) {
    match input
    case Heard(frame) => frame.GapFrame? && frame.channel == c ==> frame.from >= SeenAt(v.seen, c)
    case Polled(answer) => RestartsForward(OfferAll(v, answer.events), answer.gaps, answer.latest, c)
  }

  ghost predicate ForwardRun(v: View, inputs: seq<Input>, c: Channel)
    decreases |inputs|
  {
    inputs != [] ==> Forward(v, inputs[0], c) && ForwardRun(Step(v, inputs[0]), inputs[1..], c)
  }

  /** What was told of a channel takes it from `p` to `q` without a hole: one by one, or by restarts. */
  ghost predicate Unbroken(told: seq<Told>, c: Channel, p: nat, q: nat)
    decreases |told|
  {
    if told == [] then p == q
    else
      var last, before := told[|told| - 1], told[..|told| - 1];
      match last
      case Delivered(e) => if e.channel == c then q > 0 && e.number == q && Unbroken(before, c, p, q - 1) else Unbroken(before, c, p, q)
      case Restarted(d, from, at) => if d == c then from <= at == q && Unbroken(before, c, p, from) else Unbroken(before, c, p, q)
      case Resync(_) => Unbroken(before, c, p, q)
  }

  ghost predicate Complete(v: View, c: Channel, p: nat) {
    Unbroken(v.told, c, p, SeenAt(v.seen, c)) && SeenAt(v.seen, c) > 0
  }

  lemma OfferedStays(v: View, e: Event, c: Channel, p: nat)
    requires Complete(v, c, p)
    ensures Complete(Offered(v, e), c, p)
  {
    var v' := Offered(v, e);
    assert v'.told == v.told || v'.told[..|v'.told| - 1] == v.told;
  }

  lemma RestartStays(v: View, d: Channel, at: nat, c: Channel, p: nat)
    requires Complete(v, c, p) && (d == c ==> at >= SeenAt(v.seen, c))
    ensures Complete(Restart(v, d, at), c, p)
  {
    var v' := Restart(v, d, at);
    assert v'.told[..|v'.told| - 1] == v.told;
  }

  lemma {:induction false} OfferAllStays(v: View, events: seq<Event>, c: Channel, p: nat)
    requires Complete(v, c, p)
    ensures Complete(OfferAll(v, events), c, p)
    decreases |events|
  {
    if events != [] {
      OfferAllStays(v, events[..|events| - 1], c, p);
      OfferedStays(OfferAll(v, events[..|events| - 1]), events[|events| - 1], c, p);
    }
  }

  lemma {:induction false} RestartAllStays(v: View, gaps: seq<Channel>, latest: Positions, c: Channel, p: nat)
    requires Complete(v, c, p) && RestartsForward(v, gaps, latest, c)
    ensures Complete(RestartAll(v, gaps, latest), c, p)
    ensures SeenAt(RestartAll(v, gaps, latest).seen, c) == if c in gaps then SeenAt(latest, c) else SeenAt(v.seen, c)
    decreases |gaps|
  {
    if gaps != [] {
      var earlier := gaps[..|gaps| - 1];
      RestartAllStays(v, earlier, latest, c, p);
      RestartStays(RestartAll(v, earlier, latest), gaps[|gaps| - 1], SeenAt(latest, gaps[|gaps| - 1]), c, p);
      assert gaps == earlier + [gaps[|gaps| - 1]];
    }
  }

  lemma InputStays(v: View, input: Input, c: Channel, p: nat)
    requires Complete(v, c, p) && Forward(v, input, c)
    ensures Complete(Step(v, input), c, p)
  {
    match input
    case Heard(frame) =>
      match frame {
        case EventFrame(e) => OfferedStays(v, e, c, p);
        case GapFrame(d, from) => RestartStays(v, d, from, c, p);
        case Welcome(_) =>
        case Pong =>
      }
    case Polled(answer) =>
      OfferAllStays(v, answer.events, c, p);
      RestartAllStays(OfferAll(v, answer.events), answer.gaps, answer.latest, c, p);
  }

  /** The product was told of a restart of the channel at an earlier number than where the client stood. */
  predicate GoesBack(told: seq<Told>, c: Channel) {
    exists i :: 0 <= i < |told| && IsBack(told[i], c)
  }

  predicate IsBack(t: Told, c: Channel) {
    t.Restarted? && t.channel == c && t.at < t.from
  }

  lemma {:induction false} UnbrokenNeverGoesBack(told: seq<Told>, c: Channel, p: nat, q: nat)
    requires Unbroken(told, c, p, q)
    ensures !GoesBack(told, c)
    decreases |told|
  {
    if told != [] {
      var last, before := told[|told| - 1], told[..|told| - 1];
      var middle :=
        if last.Delivered? && last.event.channel == c then q - 1
        else if last.Restarted? && last.channel == c then last.from else q;
      UnbrokenNeverGoesBack(before, c, p, middle);
      forall i | 0 <= i < |told| ensures !IsBack(told[i], c) {
        if i < |before| { assert told[i] == before[i]; }
      }
    }
  }

  /** What was told stays told. */
  lemma StepAppends(v: View, input: Input)
    ensures v.told <= Step(v, input).told
  {
    if input.Polled? {
      OffersAppend(v, input.answer.events);
      RestartsAppend(OfferAll(v, input.answer.events), input.answer.gaps, input.answer.latest);
    }
  }

  lemma {:induction false} OffersAppend(v: View, events: seq<Event>)
    ensures v.told <= OfferAll(v, events).told
    decreases |events|
  {
    if events != [] { OffersAppend(v, events[..|events| - 1]); }
  }

  lemma {:induction false} RestartsAppend(v: View, gaps: seq<Channel>, latest: Positions)
    ensures v.told <= RestartAll(v, gaps, latest).told
    decreases |gaps|
  {
    if gaps != [] { RestartsAppend(v, gaps[..|gaps| - 1], latest); }
  }

  lemma {:induction false} RunAppends(v: View, inputs: seq<Input>)
    ensures v.told <= Run(v, inputs).told
    decreases |inputs|
  {
    hide Step;
    if inputs != [] {
      StepAppends(v, inputs[0]);
      RunAppends(Step(v, inputs[0]), inputs[1..]);
    }
  }

  lemma BackStaysTold(told: seq<Told>, more: seq<Told>, c: Channel)
    requires GoesBack(told, c) && told <= more
    ensures GoesBack(more, c)
  {
    var i :| 0 <= i < |told| && IsBack(told[i], c);
    assert IsBack(more[i], c);
  }

  lemma {:induction false} RestartsGoBack(v: View, gaps: seq<Channel>, latest: Positions, c: Channel)
    ensures var served := RestartAll(v, gaps, latest);
            if c !in gaps then SeenAt(served.seen, c) == SeenAt(v.seen, c)
            else SeenAt(latest, c) < SeenAt(v.seen, c) ==> GoesBack(served.told, c)
    decreases |gaps|
  {
    if gaps != [] {
      var earlier := gaps[..|gaps| - 1];
      var before, served := RestartAll(v, earlier, latest), RestartAll(v, gaps, latest);
      RestartsGoBack(v, earlier, latest, c);
      assert gaps == earlier + [gaps[|gaps| - 1]];
      if c in gaps && SeenAt(latest, c) < SeenAt(v.seen, c) {
        if c in earlier { BackStaysTold(before.told, served.told, c); }
        else { assert IsBack(served.told[|before.told|], c); }
      }
    }
  }

  /** An answer that moves the client back is told of as such. */
  lemma BackwardIsTold(v: View, input: Input, c: Channel)
    requires !Forward(v, input, c)
    ensures GoesBack(Step(v, input).told, c)
  {
    match input
    case Heard(frame) => assert IsBack(Step(v, input).told[|v.told|], c);
    case Polled(answer) => RestartsGoBack(OfferAll(v, answer.events), answer.gaps, answer.latest, c);
  }

  /** One input leaves what was told without a hole if and only if it does not move the client back. */
  lemma InputStaysIff(v: View, input: Input, c: Channel, p: nat)
    requires Complete(v, c, p)
    ensures Complete(Step(v, input), c, p) <==> Forward(v, input, c)
  {
    hide Step, Forward, Unbroken;
    if Forward(v, input, c) {
      InputStays(v, input, c, p);
    } else {
      BackwardIsTold(v, input, c);
      var v' := Step(v, input);
      if Complete(v', c, p) { UnbrokenNeverGoesBack(v'.told, c, p, SeenAt(v'.seen, c)); }
    }
  }

  /** And so does a whole run. */
  lemma {:induction false} RunStaysIff(v: View, inputs: seq<Input>, c: Channel, p: nat)
    requires Complete(v, c, p)
    ensures Complete(Run(v, inputs), c, p) <==> ForwardRun(v, inputs, c)
    decreases |inputs|
  {
    hide Step, Forward, Unbroken;
    if inputs != [] {
      var v' := Step(v, inputs[0]);
      InputStaysIff(v, inputs[0], c, p);
      if Forward(v, inputs[0], c) {
        RunStaysIff(v', inputs[1..], c, p);
      } else {
        BackwardIsTold(v, inputs[0], c);
        RunAppends(v', inputs[1..]);
        var end := Run(v', inputs[1..]);
        BackStaysTold(v'.told, end.told, c);
        if Complete(end, c, p) { UnbrokenNeverGoesBack(end.told, c, p, SeenAt(end.seen, c)); }
      }
    }
  }

  // --- Between one restart backwards and the next ---------------------------------------

  /** Where what was told of a channel leaves it, from `p`: at the last number delivered or restarted at. */
  function Known(told: seq<Told>, c: Channel, p: nat): nat
    decreases |told|
  {
    if told == [] then p
    else
      var last := told[|told| - 1];
      if last.Delivered? && last.event.channel == c then last.event.number
      else if last.Restarted? && last.channel == c then last.at
      else Known(told[..|told| - 1], c, p)
  }

  /** From any positive number on, what is told next of the channel goes on from there. */
  ghost predicate GoesOn(told: seq<Told>, c: Channel, p: nat)
    decreases |told|
  {
    told != [] ==>
      var last, before := told[|told| - 1], told[..|told| - 1];
      && GoesOn(before, c, p)
      && (Known(before, c, p) > 0 && last.Delivered? && last.event.channel == c ==> last.event.number == Known(before, c, p) + 1)
      && (Known(before, c, p) > 0 && last.Restarted? && last.channel == c ==> last.from == Known(before, c, p))
  }

  /** And where the client stands is the last of it, unless that is 0. */
  ghost predicate Follows(v: View, c: Channel, p: nat) {
    GoesOn(v.told, c, p) && (Known(v.told, c, p) > 0 ==> SeenAt(v.seen, c) == Known(v.told, c, p))
  }

  lemma OfferedFollows(v: View, e: Event, c: Channel, p: nat)
    requires Follows(v, c, p)
    ensures Follows(Offered(v, e), c, p)
  {
    hide Offered;
    OfferedByNumber(v, e);
    var v' := Offered(v, e);
    assert v'.told == v.told || v'.told[..|v'.told| - 1] == v.told;
  }

  lemma RestartFollows(v: View, d: Channel, at: nat, c: Channel, p: nat)
    requires Follows(v, c, p)
    ensures Follows(Restart(v, d, at), c, p)
  {
    var v' := Restart(v, d, at);
    assert v'.told[..|v'.told| - 1] == v.told;
  }

  lemma {:induction false} OfferAllFollows(v: View, events: seq<Event>, c: Channel, p: nat)
    requires Follows(v, c, p)
    ensures Follows(OfferAll(v, events), c, p)
    decreases |events|
  {
    if events != [] {
      OfferAllFollows(v, events[..|events| - 1], c, p);
      OfferedFollows(OfferAll(v, events[..|events| - 1]), events[|events| - 1], c, p);
    }
  }

  lemma {:induction false} RestartAllFollows(v: View, gaps: seq<Channel>, latest: Positions, c: Channel, p: nat)
    requires Follows(v, c, p)
    ensures Follows(RestartAll(v, gaps, latest), c, p)
    decreases |gaps|
  {
    if gaps != [] {
      var earlier, last := gaps[..|gaps| - 1], gaps[|gaps| - 1];
      RestartAllFollows(v, earlier, latest, c, p);
      RestartFollows(RestartAll(v, earlier, latest), last, SeenAt(latest, last), c, p);
    }
  }

  lemma JoinedFollows(v: View, latest: Positions, c: Channel, p: nat)
    requires Follows(v, c, p)
    ensures Follows(v.(seen := Joined(v.seen, latest)), c, p)
  {
  }

  lemma InputFollows(v: View, input: Input, c: Channel, p: nat)
    requires Follows(v, c, p)
    ensures Follows(Step(v, input), c, p)
  {
    hide Follows;
    match input
    case Heard(frame) =>
      match frame {
        case EventFrame(e) => OfferedFollows(v, e, c, p);
        case GapFrame(d, from) => RestartFollows(v, d, from, c, p);
        case Welcome(channels) => JoinedFollows(v, channels, c, p);
        case Pong =>
      }
    case Polled(answer) =>
      OfferAllFollows(v, answer.events, c, p);
      RestartAllFollows(OfferAll(v, answer.events), answer.gaps, answer.latest, c, p);
      JoinedFollows(RestartAll(OfferAll(v, answer.events), answer.gaps, answer.latest), answer.latest, c, p);
  }

  lemma {:induction false} RunFollows(v: View, inputs: seq<Input>, c: Channel, p: nat)
    requires Follows(v, c, p)
    ensures Follows(Run(v, inputs), c, p)
    decreases |inputs|
  {
    hide Follows, Step;
    if inputs != [] {
      InputFollows(v, inputs[0], c, p);
      RunFollows(Step(v, inputs[0]), inputs[1..], c, p);
    }
  }

  lemma {:induction false} GoesOnBefore(told: seq<Told>, later: seq<Told>, c: Channel, p: nat)
    requires GoesOn(told + later, c, p)
    ensures GoesOn(told, c, p)
    decreases |later|
  {
    if later == [] {
      assert told + later == told;
    } else {
      assert (told + later)[..|told + later| - 1] == told + later[..|later| - 1];
      GoesOnBefore(told, later[..|later| - 1], c, p);
    }
  }

  /** What is told after a positive number and goes back nowhere has no hole. */
  lemma {:induction false} StretchIsUnbroken(first: seq<Told>, rest: seq<Told>, c: Channel, p: nat)
    requires GoesOn(first + rest, c, p) && Known(first, c, p) > 0 && !GoesBack(rest, c)
    ensures Unbroken(rest, c, Known(first, c, p), Known(first + rest, c, p)) && Known(first + rest, c, p) > 0
    decreases |rest|
  {
    if rest == [] {
      assert first + rest == first;
    } else {
      var all, before, last := first + rest, rest[..|rest| - 1], rest[|rest| - 1];
      assert all[..|all| - 1] == first + before && all[|all| - 1] == last;
      if GoesBack(before, c) { BackStaysTold(before, rest, c); }
      assert !IsBack(last, c);
      StretchIsUnbroken(first, before, c, p);
    }
  }

  // --- A jump is noticed ----------------------------------------------------------------

  /** The event was in what came, in a frame or a poll's answer. */
  predicate CameIn(input: Input, e: Event) {
    match input
    case Heard(frame) => frame == EventFrame(e)
    case Polled(answer) => e in answer.events
  }

  ghost predicate Came(inputs: seq<Input>, e: Event) {
    exists i :: 0 <= i < |inputs| && CameIn(inputs[i], e)
  }

  /** The event lies no further than the client stands, or the product was told to fetch afresh, or that the client went back. */
  ghost predicate Accounted(v: View, e: Event) {
    e.number <= SeenAt(v.seen, e.channel) || Resync(e.channel) in v.told || GoesBack(v.told, e.channel)
  }

  /** From a positive position on, unless the product was told that the client went back. */
  ghost predicate Placed(v: View, c: Channel) {
    SeenAt(v.seen, c) > 0 || GoesBack(v.told, c)
  }

  lemma OfferedAccounts(v: View, e: Event, other: Event)
    requires Placed(v, e.channel)
    ensures Placed(Offered(v, other), e.channel)
    ensures Accounted(v, e) || other == e ==> Accounted(Offered(v, other), e)
  {
    hide GoesBack;
    var v' := Offered(v, other);
    if GoesBack(v.told, e.channel) { BackStaysTold(v.told, v'.told, e.channel); }
    if other == e && v'.told == v.told + [Resync(e.channel)] { assert v'.told[|v.told|] == Resync(e.channel); }
  }

  lemma RestartAccounts(v: View, d: Channel, at: nat, e: Event)
    requires Placed(v, e.channel)
    ensures Placed(Restart(v, d, at), e.channel)
    ensures Accounted(v, e) ==> Accounted(Restart(v, d, at), e)
  {
    var v' := Restart(v, d, at);
    if GoesBack(v.told, e.channel) { BackStaysTold(v.told, v'.told, e.channel); }
    if d == e.channel && at < SeenAt(v.seen, d) { assert IsBack(v'.told[|v.told|], e.channel); }
  }

  lemma {:induction false} OfferAllAccounts(v: View, events: seq<Event>, e: Event)
    requires Placed(v, e.channel)
    ensures Placed(OfferAll(v, events), e.channel)
    ensures Accounted(v, e) || e in events ==> Accounted(OfferAll(v, events), e)
    decreases |events|
  {
    hide Placed, Accounted;
    if events != [] {
      var before, last := events[..|events| - 1], events[|events| - 1];
      assert events == before + [last];
      OfferAllAccounts(v, before, e);
      OfferedAccounts(OfferAll(v, before), e, last);
    }
  }

  lemma {:induction false} RestartAllAccounts(v: View, gaps: seq<Channel>, latest: Positions, e: Event)
    requires Placed(v, e.channel)
    ensures Placed(RestartAll(v, gaps, latest), e.channel)
    ensures Accounted(v, e) ==> Accounted(RestartAll(v, gaps, latest), e)
    decreases |gaps|
  {
    hide Placed, Accounted;
    if gaps != [] {
      var before, last := gaps[..|gaps| - 1], gaps[|gaps| - 1];
      RestartAllAccounts(v, before, latest, e);
      RestartAccounts(RestartAll(v, before, latest), last, SeenAt(latest, last), e);
    }
  }

  lemma JoinedAccounts(v: View, latest: Positions, e: Event)
    requires Placed(v, e.channel)
    ensures var v' := v.(seen := Joined(v.seen, latest));
            Placed(v', e.channel) && (Accounted(v, e) ==> Accounted(v', e))
  {
    hide GoesBack;
  }

  lemma InputAccounts(v: View, input: Input, e: Event)
    requires Placed(v, e.channel)
    ensures Placed(Step(v, input), e.channel)
    ensures Accounted(v, e) || CameIn(input, e) ==> Accounted(Step(v, input), e)
  {
    hide Placed, Accounted;
    match input
    case Heard(frame) =>
      match frame {
        case EventFrame(other) => OfferedAccounts(v, e, other);
        case GapFrame(d, from) => RestartAccounts(v, d, from, e);
        case Welcome(channels) => JoinedAccounts(v, channels, e);
        case Pong =>
      }
    case Polled(answer) =>
      OfferAllAccounts(v, answer.events, e);
      RestartAllAccounts(OfferAll(v, answer.events), answer.gaps, answer.latest, e);
      JoinedAccounts(RestartAll(OfferAll(v, answer.events), answer.gaps, answer.latest), answer.latest, e);
  }

  lemma {:induction false} RunAccounts(v: View, inputs: seq<Input>, e: Event)
    requires Placed(v, e.channel)
    ensures Accounted(v, e) || Came(inputs, e) ==> Accounted(Run(v, inputs), e)
    decreases |inputs|
  {
    hide Step, Placed, Accounted, CameIn;
    if inputs != [] {
      InputAccounts(v, inputs[0], e);
      if i :| 0 <= i < |inputs| && CameIn(inputs[i], e) {
        if i > 0 { assert CameIn(inputs[1..][i - 1], e); }
      }
      RunAccounts(Step(v, inputs[0]), inputs[1..], e);
    }
  }

  /**
   Whatever came: an event numbered beyond where the client ends up was not passed over in
   silence. The product was told to fetch the channel afresh, or that the client went back.
   */
  lemma NoJumpIsSilent(v: View, inputs: seq<Input>, e: Event)
    requires v.told == [] && SeenAt(v.seen, e.channel) > 0 && Came(inputs, e)
    requires e.number > SeenAt(Run(v, inputs).seen, e.channel)
    ensures Resync(e.channel) in Run(v, inputs).told || GoesBack(Run(v, inputs).told, e.channel)
  {
    RunAccounts(v, inputs, e);
  }

  /** The numbers delivered on a channel, in the order they were. */
  function Deliveries(told: seq<Told>, c: Channel): seq<nat>
    decreases |told|
  {
    if told == [] then []
    else
      var last := told[|told| - 1];
      Deliveries(told[..|told| - 1], c) + if last.Delivered? && last.event.channel == c then [last.event.number] else []
  }

  /** The number lies below a restart the product was told of. */
  predicate SteppedOver(told: seq<Told>, c: Channel, n: nat) {
    exists i :: 0 <= i < |told| && told[i].Restarted? && told[i].channel == c && told[i].from < n <= told[i].at
  }

  lemma SteppedOverLast(told: seq<Told>, c: Channel, n: nat)
    requires told != []
    ensures var last, before := told[|told| - 1], told[..|told| - 1];
            SteppedOver(told, c, n) <==>
            SteppedOver(before, c, n) || (last.Restarted? && last.channel == c && last.from < n <= last.at)
  {
    var last, before := told[|told| - 1], told[..|told| - 1];
    if SteppedOver(before, c, n) {
      var i :| 0 <= i < |before| && before[i].Restarted? && before[i].channel == c && before[i].from < n <= before[i].at;
      assert told[i] == before[i];
    }
    if SteppedOver(told, c, n) {
      var i :| 0 <= i < |told| && told[i].Restarted? && told[i].channel == c && told[i].from < n <= told[i].at;
      assert i < |before| ==> before[i] == told[i];
    }
  }

  lemma DeliveriesLast(told: seq<Told>, c: Channel)
    requires told != []
    ensures var last, earlier := told[|told| - 1], Deliveries(told[..|told| - 1], c);
            Deliveries(told, c) == if last.Delivered? && last.event.channel == c then earlier + [last.event.number] else earlier
  {
    assert Deliveries(told[..|told| - 1], c) + [] == Deliveries(told[..|told| - 1], c);
  }

  lemma {:induction false} UnbrokenIsComplete(told: seq<Told>, c: Channel, p: nat, q: nat)
    requires Unbroken(told, c, p, q)
    ensures p <= q
    ensures var numbers := Deliveries(told, c);
            && (forall i, j | 0 <= i < j < |numbers| :: numbers[i] < numbers[j])
            && (forall n: nat :: n in numbers <==> p < n <= q && !SteppedOver(told, c, n))
            && (forall n: nat | SteppedOver(told, c, n) :: p < n <= q)
    decreases |told|
  {
    if told != [] {
      var last, before := told[|told| - 1], told[..|told| - 1];
      var middle :=
        if last.Delivered? && last.event.channel == c then q - 1
        else if last.Restarted? && last.channel == c then last.from else q;
      UnbrokenIsComplete(before, c, p, middle);
      forall n: nat ensures SteppedOver(told, c, n) <==>
                       SteppedOver(before, c, n) || (last.Restarted? && last.channel == c && last.from < n <= last.at) {
        SteppedOverLast(told, c, n);
      }
      var earlier, numbers := Deliveries(before, c), Deliveries(told, c);
      assert forall i | 0 <= i < |earlier| :: earlier[i] in earlier;
      DeliveriesLast(told, c);
      if last.Delivered? && last.event.channel == c {
        assert forall n :: n in numbers <==> n in earlier || n == q;
      }
    }
  }

  /**
   Whatever the network and the server do, in any stretch of what the product is told that
   begins where the channel stands at a positive number and holds no restart backwards: the
   numbers delivered strictly increase, and every number from there to where the stretch
   leaves the channel was delivered exactly once or stepped over by a restart told of. At
   the end of the run that is where the client stands.
   */
  lemma DeliveryIsComplete(v: View, inputs: seq<Input>, c: Channel, first: seq<Told>, rest: seq<Told>, later: seq<Told>)
    requires v.told == [] && Run(v, inputs).told == first + rest + later
    requires Known(first, c, SeenAt(v.seen, c)) > 0 && !GoesBack(rest, c)
    ensures var p := SeenAt(v.seen, c);
            var numbers := Deliveries(rest, c);
            && (forall i, j | 0 <= i < j < |numbers| :: numbers[i] < numbers[j])
            && (forall n: nat :: n in numbers <==>
                  Known(first, c, p) < n <= Known(first + rest, c, p) && !SteppedOver(rest, c, n))
            && (later == [] ==> Known(first + rest, c, p) == SeenAt(Run(v, inputs).seen, c))
  {
    var p := SeenAt(v.seen, c);
    RunFollows(v, inputs, c, p);
    GoesOnBefore(first + rest, later, c, p);
    StretchIsUnbroken(first, rest, c, p);
    UnbrokenIsComplete(rest, c, Known(first, c, p), Known(first + rest, c, p));
    assert later == [] ==> first + rest + later == first + rest;
  }

  /** The channel's own event of its number, and no other. */
  predicate Logged(e: Event, log: (Channel, nat) -> Event) {
    e == log(e.channel, e.number)
  }

  ghost predicate AllLogged(told: seq<Told>, log: (Channel, nat) -> Event) {
    forall i | 0 <= i < |told| && told[i].Delivered? :: Logged(told[i].event, log)
  }

  ghost predicate SendsLogged(input: Input, log: (Channel, nat) -> Event) {
    match input
    case Heard(frame) => frame.EventFrame? ==> Logged(frame.event, log)
    case Polled(answer) => forall i | 0 <= i < |answer.events| :: Logged(answer.events[i], log)
  }

  lemma {:induction false} OffersLogged(v: View, events: seq<Event>, log: (Channel, nat) -> Event)
    requires AllLogged(v.told, log) && forall i | 0 <= i < |events| :: Logged(events[i], log)
    ensures AllLogged(OfferAll(v, events).told, log)
    decreases |events|
  {
    if events != [] { OffersLogged(v, events[..|events| - 1], log); }
  }

  lemma {:induction false} RestartsLogged(v: View, gaps: seq<Channel>, latest: Positions, log: (Channel, nat) -> Event)
    requires AllLogged(v.told, log)
    ensures AllLogged(RestartAll(v, gaps, latest).told, log)
    decreases |gaps|
  {
    if gaps != [] { RestartsLogged(v, gaps[..|gaps| - 1], latest, log); }
  }

  /** What is delivered under a number is the event logged under it, if only logged events are sent. */
  lemma {:induction false} DeliveredAreLogged(v: View, inputs: seq<Input>, log: (Channel, nat) -> Event)
    requires AllLogged(v.told, log) && forall i | 0 <= i < |inputs| :: SendsLogged(inputs[i], log)
    ensures AllLogged(Run(v, inputs).told, log)
    decreases |inputs|
  {
    if inputs != [] {
      if inputs[0].Polled? {
        var answer := inputs[0].answer;
        OffersLogged(v, answer.events, log);
        RestartsLogged(OfferAll(v, answer.events), answer.gaps, answer.latest, log);
      }
      DeliveredAreLogged(Step(v, inputs[0]), inputs[1..], log);
    }
  }

  // --- The two ways it is not -----------------------------------------------------------

  lemma RunOfThree(v: View, first: Input, second: Input, third: Input)
    ensures Run(v, [first, second, third]) == Step(Step(Step(v, first), second), third)
  {
    hide Step;
    var inputs := [first, second, third];
    assert inputs[1..] == [second, third] && inputs[1..][1..] == [third] && inputs[1..][1..][1..] == [];
    assert Run(v, inputs) == Run(Step(v, first), inputs[1..]) == Run(Step(Step(v, first), second), inputs[1..][1..]);
  }

  /** A gap frame that names an earlier position makes the client take an event twice. */
  lemma StaleGapRepeats(c: Channel, payload: int)
    ensures var e := Event(c, 8, payload);
            var end := Run(View(map[c := 7], []), [Heard(EventFrame(e)), Heard(GapFrame(c, 7)), Heard(EventFrame(e))]);
            Deliveries(end.told, c) == [8, 8]
  {
    hide Run;
    var e := Event(c, 8, payload);
    var v0 := View(map[c := 7], []);
    RunOfThree(v0, Heard(EventFrame(e)), Heard(GapFrame(c, 7)), Heard(EventFrame(e)));
    var v1 := Offered(v0, e);
    var v2 := Restart(v1, c, 7);
    var v3 := Offered(v2, e);
    assert v1.told == [Delivered(e)] && v2.told == v1.told + [Restarted(c, 8, 7)] && v3.told == v2.told + [Delivered(e)];
    assert v3.told[..2] == v2.told && v2.told[..1] == v1.told && v1.told[..0] == [];
    assert Deliveries(v1.told, c) == [8];
    assert Deliveries(v2.told, c) == [8] + [];
  }

  /**
   At 0 whatever event arrives is taken, so a run that begins at `first` is unbroken from
   there if and only if the first event to arrive is its first: no jump is told.
   */
  lemma FromNothingUnbrokenIff(v: View, e: Event, first: nat)
    requires v.told == [] && SeenAt(v.seen, e.channel) == 0 && 0 < first <= e.number
    ensures Offered(v, e).told == [Delivered(e)] && SeenAt(Offered(v, e).seen, e.channel) == e.number
    ensures Unbroken(Offered(v, e).told, e.channel, first - 1, e.number) <==> e.number == first
  {
    assert [Delivered(e)][..0] == [];
  }
}
