module RateLimit {
  /**
   A sliding window kept as a sorted set: what is admitted in any span as long as the
   window, what looking changes, and when a refused caller gets in.
   */

  import opened Wrappers

  /** A unit admitted: when, which of its request, and what the script drew to tell it from others. */
  datatype Member = Member(score: int, index: nat, nonce: nat)

  /** The key: its members, and when it goes away by itself. */
  datatype Store = Store(members: set<Member>, expiresAt: int)

  datatype Options = Options(limit: nat, windowMs: nat)

  datatype Verdict = Verdict(allowed: bool, remaining: nat, retryAfter: int)

  const EMPTY := Store({}, 0)

  /** What is left of the key at `now`. */
  function Present(s: Store, now: int): set<Member> {
    if now >= s.expiresAt then {} else s.members
  }

  /** Members older than the window trimmed. */
  function Trimmed(members: set<Member>, now: int, windowMs: nat): set<Member> {
    set m | m in members && m.score > now - windowMs
  }

  /** The units of one request. */
  function Units(now: int, cost: nat, nonce: nat): (r: set<Member>)
    ensures forall m :: m in r <==> m.score == now && 1 <= m.index <= cost && m.nonce == nonce
    ensures |r| == cost
  {
    if cost == 0 then {} else Units(now, cost - 1, nonce) + {Member(now, cost, nonce)}
  }

  predicate IsOldest(members: set<Member>, oldest: int) {
    (exists m :: m in members && m.score == oldest) && forall m | m in members :: oldest <= m.score
  }

  ghost function Oldest(members: set<Member>): (oldest: int)
    requires members != {}
    ensures IsOldest(members, oldest)
  {
    var m :| m in members;
    if forall other | other in members :: m.score <= other.score then m.score
    else
      var other :| other in members && other.score < m.score;
      var rest := members - {m};
      assert other in rest && members == rest + {m};
      Oldest(rest)
  }

  function Seconds(ms: int): int { if ms <= 0 then -(-ms / 1000) else (ms + 999) / 1000 }

  ghost function RetryAfter(live: set<Member>, now: int, windowMs: nat): int {
    if live == {} then windowMs else Seconds(Oldest(live) + windowMs - now)
  }

  ghost function Consumed(s: Store, now: int, cost: nat, nonce: nat, o: Options): (Store, Verdict) {
    var live := Trimmed(Present(s, now), now, o.windowMs);
    if |live| + cost > o.limit then
      (Store(live, s.expiresAt),
       Verdict(false, if o.limit > |live| then o.limit - |live| else 0, RetryAfter(live, now, o.windowMs)))
    else
      (Store(live + Units(now, cost, nonce), if live + Units(now, cost, nonce) == {} then s.expiresAt else now + o.windowMs),
       Verdict(true, o.limit - |live| - cost, 0))
  }

  class RedisRateLimiter {
    var store: Store

    constructor ()
      ensures store == EMPTY
    {
      store := EMPTY;
    }

    method OldestScore(members: set<Member>) returns (oldest: Option<int>)
      ensures oldest.None? <==> members == {}
      ensures oldest.Some? ==> oldest.value == Oldest(members)
    {
      var left := members;
      oldest := None;
      while left != {}
        invariant left <= members
        invariant oldest.None? <==> left == members
        invariant oldest.Some? ==> IsOldest(members - left, oldest.value)
      {
        var m :| m in left;
        assert members - (left - {m}) == (members - left) + {m};
        if oldest.None? || m.score < oldest.value { oldest := Some(m.score); }
        left := left - {m};
      }
      if oldest.Some? { assert members - left == members; }
    }

    method AddUnits(now: int, cost: nat, nonce: nat) returns (added: set<Member>)
      ensures added == Units(now, cost, nonce)
    {
      added := {};
      for i := 0 to cost
        invariant added == Units(now, i, nonce)
      {
        added := added + {Member(now, i + 1, nonce)};
      }
    }

    /** The script, whole. */
    method Consume(now: int, cost: nat, nonce: nat, o: Options) returns (verdict: Verdict)
      modifies this
      ensures (store, verdict) == Consumed(old(store), now, cost, nonce, o)
    {
      hide Trimmed, Present, Seconds, Oldest, Units, IsOldest;
      var live := Trimmed(Present(store, now), now, o.windowMs);
      if |live| + cost > o.limit {
        var oldest := OldestScore(live);
        var retry := if oldest.Some? then Seconds(oldest.value + o.windowMs - now) else o.windowMs;
        store := Store(live, store.expiresAt);
        return Verdict(false, if o.limit > |live| then o.limit - |live| else 0, retry);
      }
      var added := AddUnits(now, cost, nonce);
      store := Store(live + added, if live + added == {} then store.expiresAt else now + o.windowMs);
      return Verdict(true, o.limit - |live| - cost, 0);
    }

    /** Looking costs nothing. */
    method Peek(now: int, nonce: nat, o: Options) returns (verdict: Verdict)
      modifies this
      ensures (store, verdict) == Consumed(old(store), now, 0, nonce, o)
    {
      verdict := Consume(now, 0, nonce, o);
    }

    method Reset()
      modifies this
      ensures store == Store({}, old(store).expiresAt)
    {
      store := Store({}, store.expiresAt);
    }
  }

  // --- Whole runs -----------------------------------------------------------------------------

  datatype Request = Request(elapsed: nat, cost: nat, nonce: nat)

  datatype Grant = Grant(at: int, cost: nat)

  /** The store, every unit ever admitted, and what was granted when. */
  datatype History = History(store: Store, all: set<Member>, grants: seq<Grant>, now: int)

  ghost function Next(h: History, r: Request, o: Options): History {
    var now := h.now + r.elapsed;
    var (store, verdict) := Consumed(h.store, now, r.cost, r.nonce, o);
    History(store,
            if verdict.allowed then h.all + Units(now, r.cost, r.nonce) else h.all,
            if verdict.allowed then h.grants + [Grant(now, r.cost)] else h.grants,
            now)
  }

  ghost function Run(h: History, requests: seq<Request>, o: Options): History
    decreases |requests|
  {
    if requests == [] then h else Run(Next(h, requests[0], o), requests[1..], o)
  }

  /** No request's units are ones already there: what is drawn tells requests of one millisecond apart. */
  ghost predicate Fresh(h: History, requests: seq<Request>, o: Options)
    decreases |requests|
  {
    requests != [] ==>
      && Units(h.now + requests[0].elapsed, requests[0].cost, requests[0].nonce) !! h.all
      && Fresh(Next(h, requests[0], o), requests[1..], o)
  }

  function InSpan(all: set<Member>, end: int, windowMs: nat): set<Member> {
    set m | m in all && end - windowMs < m.score <= end
  }

  /** What was granted in the span as long as the window that ends at `end`. */
  function Spent(grants: seq<Grant>, end: int, windowMs: nat): nat
    decreases |grants|
  {
    if grants == [] then 0
    else
      var last := grants[|grants| - 1];
      Spent(grants[..|grants| - 1], end, windowMs) + if end - windowMs < last.at <= end then last.cost else 0
  }

  /** The store holds every unit still in the window, and goes away only once it holds none. */
  ghost predicate HoldsTheLive(h: History, o: Options) {
    && h.store.members <= h.all
    && (forall m | m in h.all :: m.score <= h.now)
    && (forall m | m in h.all && m.score > h.now - o.windowMs :: m in h.store.members)
    && (forall m | m in h.store.members :: h.store.expiresAt >= m.score + o.windowMs)
  }

  ghost predicate Bounded(h: History, o: Options) {
    forall end: int {:trigger InSpan(h.all, end, o.windowMs)} :: |InSpan(h.all, end, o.windowMs)| <= o.limit
  }

  ghost predicate Counted(h: History, o: Options) {
    forall end: int {:trigger Spent(h.grants, end, o.windowMs)} ::
      Spent(h.grants, end, o.windowMs) == |InSpan(h.all, end, o.windowMs)|
  }

  /** The key going away by itself takes nothing that trimming would not. */
  lemma ExpiryIsIrrelevant(h: History, now: int, o: Options)
    requires HoldsTheLive(h, o) && now >= h.now
    ensures Trimmed(Present(h.store, now), now, o.windowMs) == Trimmed(h.store.members, now, o.windowMs)
    ensures Trimmed(h.store.members, now, o.windowMs) == Trimmed(h.all, now, o.windowMs)
  {
  }

  lemma NextHolds(h: History, r: Request, o: Options)
    requires HoldsTheLive(h, o)
    ensures HoldsTheLive(Next(h, r, o), o)
  {
    hide RetryAfter;
    ExpiryIsIrrelevant(h, h.now + r.elapsed, o);
  }

  lemma SubsetSize<T>(a: set<T>, b: set<T>)
    requires a <= b
    ensures |a| <= |b|
  {
    assert b == a + (b - a);
  }

  lemma NextBounded(h: History, r: Request, o: Options)
    requires HoldsTheLive(h, o) && Bounded(h, o)
    ensures Bounded(Next(h, r, o), o)
  {
    hide RetryAfter, Bounded, Present, Seconds;
    var h', now := Next(h, r, o), h.now + r.elapsed;
    var live, added := Trimmed(h.all, now, o.windowMs), Units(now, r.cost, r.nonce);
    ExpiryIsIrrelevant(h, now, o);
    forall end: int ensures |InSpan(h'.all, end, o.windowMs)| <= o.limit {
      SpanBounded(h, end, o);
      if h'.all == h.all {
      } else if end < now {
        assert InSpan(h'.all, end, o.windowMs) == InSpan(h.all, end, o.windowMs);
      } else {
        SubsetSize(InSpan(h'.all, end, o.windowMs), live + added);
        UnionSize(live, added);
      }
    }
    AllBounded(h', o);
  }

  lemma SpanBounded(h: History, end: int, o: Options)
    requires Bounded(h, o)
    ensures |InSpan(h.all, end, o.windowMs)| <= o.limit
  {
  }

  lemma AllBounded(h: History, o: Options)
    requires forall end: int {:trigger InSpan(h.all, end, o.windowMs)} :: |InSpan(h.all, end, o.windowMs)| <= o.limit
    ensures Bounded(h, o)
  {
  }

  lemma UnionSize<T>(a: set<T>, b: set<T>)
    ensures |a + b| <= |a| + |b|
  {
    assert a + b == a + (b - a);
    SubsetSize(b - a, b);
  }

  lemma SpanAdds(all: set<Member>, added: set<Member>, now: int, end: int, windowMs: nat)
    requires added !! all && forall m | m in added :: m.score == now
    ensures |InSpan(all + added, end, windowMs)| == |InSpan(all, end, windowMs)| + if end - windowMs < now <= end then |added| else 0
  {
    if end - windowMs < now <= end {
      assert InSpan(all + added, end, windowMs) == InSpan(all, end, windowMs) + added;
    } else {
      assert InSpan(all + added, end, windowMs) == InSpan(all, end, windowMs);
    }
  }

  lemma NextCounted(h: History, r: Request, o: Options)
    requires Counted(h, o) && Units(h.now + r.elapsed, r.cost, r.nonce) !! h.all
    ensures Counted(Next(h, r, o), o)
  {
    hide RetryAfter;
    var h', now := Next(h, r, o), h.now + r.elapsed;
    var added := Units(now, r.cost, r.nonce);
    forall end: int ensures Spent(h'.grants, end, o.windowMs) == |InSpan(h'.all, end, o.windowMs)| {
      assert Spent(h.grants, end, o.windowMs) == |InSpan(h.all, end, o.windowMs)|;
      if h'.grants != h.grants {
        assert h'.grants[..|h.grants|] == h.grants;
        SpanAdds(h.all, added, now, end, o.windowMs);
      }
    }
  }

  function Begin(now: int): History { History(EMPTY, {}, [], now) }

  lemma {:induction false} RunKeeps(h: History, requests: seq<Request>, o: Options)
    requires HoldsTheLive(h, o) && Bounded(h, o)
    ensures HoldsTheLive(Run(h, requests, o), o) && Bounded(Run(h, requests, o), o)
    ensures Counted(h, o) && Fresh(h, requests, o) ==> Counted(Run(h, requests, o), o)
    decreases |requests|
  {
    hide HoldsTheLive, Bounded, Counted, Next;
    if requests != [] {
      NextHolds(h, requests[0], o);
      NextBounded(h, requests[0], o);
      if Counted(h, o) && Fresh(h, requests, o) { NextCounted(h, requests[0], o); }
      RunKeeps(Next(h, requests[0], o), requests[1..], o);
    }
  }

  lemma FreshIsBounded(start: int, requests: seq<Request>, o: Options, end: int)
    requires Fresh(Begin(start), requests, o)
    ensures Spent(Run(Begin(start), requests, o).grants, end, o.windowMs) <= o.limit
  {
    BeginsWell(start, o);
    RunKeeps(Begin(start), requests, o);
    SpanBounded(Run(Begin(start), requests, o), end, o);
  }

  lemma BeginsWell(start: int, o: Options)
    ensures HoldsTheLive(Begin(start), o) && Bounded(Begin(start), o) && Counted(Begin(start), o)
  {
    forall end: int ensures InSpan({}, end, o.windowMs) == {} {}
  }

  // --- Requests of one millisecond -----------------------------------------------------------

  /** Any two of the requests for any units are a millisecond apart, or the script drew different numbers for them. */
  predicate ToldApart(requests: seq<Request>) {
    forall i, j | 0 <= i < j < |requests| && requests[i].cost > 0 && requests[j].cost > 0 ::
      requests[i].nonce != requests[j].nonce || TimePasses(requests, i, j)
  }

  predicate TimePasses(requests: seq<Request>, after: int, to: nat)
    requires -1 <= after && to < |requests|
  {
    exists k :: after < k <= to && requests[k].elapsed > 0
  }

  /** Of the units there, those of this moment were drawn otherwise by every request still to come in it. */
  ghost predicate Unlike(h: History, requests: seq<Request>) {
    forall m, j | m in h.all && m.score == h.now && 0 <= j < |requests| && requests[j].cost > 0 ::
      m.nonce != requests[j].nonce || TimePasses(requests, -1, j)
  }

  lemma UnlikeIsFresh(h: History, requests: seq<Request>, o: Options)
    requires requests != [] && Unlike(h, requests) && forall m | m in h.all :: m.score <= h.now
    ensures Units(h.now + requests[0].elapsed, requests[0].cost, requests[0].nonce) !! h.all
  {
  }

  lemma NextUnlike(h: History, requests: seq<Request>, o: Options)
    requires requests != [] && ToldApart(requests) && Unlike(h, requests) && forall m | m in h.all :: m.score <= h.now
    ensures Unlike(Next(h, requests[0], o), requests[1..]) && ToldApart(requests[1..])
    ensures forall m | m in Next(h, requests[0], o).all :: m.score <= Next(h, requests[0], o).now
  {
    hide Consumed;
    var h', rest := Next(h, requests[0], o), requests[1..];
    forall i, j | 0 <= i < j < |rest| && rest[i].cost > 0 && rest[j].cost > 0 && rest[i].nonce == rest[j].nonce
      ensures TimePasses(rest, i, j)
    {
      assert requests[i + 1].nonce == requests[j + 1].nonce;
      TimePassesLater(requests, i + 1, j + 1);
    }
    forall m, j | m in h'.all && m.score == h'.now && 0 <= j < |rest| && rest[j].cost > 0 && m.nonce == rest[j].nonce
      ensures TimePasses(rest, -1, j)
    {
      assert requests[j + 1] == rest[j];
      if m in h.all {
        assert requests[0].elapsed == 0 && TimePasses(requests, -1, j + 1);
        assert TimePasses(requests, 0, j + 1);
      } else {
        assert requests[0].nonce == requests[j + 1].nonce;
      }
      TimePassesLater(requests, 0, j + 1);
    }
  }

  lemma TimePassesLater(requests: seq<Request>, after: nat, to: nat)
    requires after < to < |requests| && TimePasses(requests, after, to)
    ensures TimePasses(requests[1..], after - 1, to - 1)
  {
    var k :| after < k <= to && requests[k].elapsed > 0;
    assert requests[1..][k - 1].elapsed > 0;
  }

  lemma {:induction false} ToldApartIsFresh(h: History, requests: seq<Request>, o: Options)
    requires ToldApart(requests) && Unlike(h, requests) && forall m | m in h.all :: m.score <= h.now
    ensures Fresh(h, requests, o)
    decreases |requests|
  {
    hide Next, ToldApart, Unlike;
    if requests != [] {
      UnlikeIsFresh(h, requests, o);
      NextUnlike(h, requests, o);
      ToldApartIsFresh(Next(h, requests[0], o), requests[1..], o);
    }
  }

  /** In any span as long as the window no more is granted than the limit, keys going away or not. */
  lemma NeverMoreThanTheLimit(start: int, requests: seq<Request>, o: Options, end: int)
    requires ToldApart(requests)
    ensures Spent(Run(Begin(start), requests, o).grants, end, o.windowMs) <= o.limit
  {
    ToldApartIsFresh(Begin(start), requests, o);
    FreshIsBounded(start, requests, o, end);
  }

  /** Whatever is drawn, if no two requests come in one millisecond. */
  lemma OneAMillisecondIsBounded(start: int, requests: seq<Request>, o: Options, end: int)
    requires forall i | 1 <= i < |requests| :: requests[i].elapsed > 0
    ensures Spent(Run(Begin(start), requests, o).grants, end, o.windowMs) <= o.limit
  {
    assert ToldApart(requests) by {
      forall i, j | 0 <= i < j < |requests| ensures TimePasses(requests, i, j) {
        assert requests[j].elapsed > 0;
      }
    }
    NeverMoreThanTheLimit(start, requests, o, end);
  }

  /** `n` requests for `cost` units each, all in one millisecond and all drawing the same. */
  function Alike(n: nat, cost: nat, nonce: nat): (requests: seq<Request>)
    ensures |requests| == n && forall i | 0 <= i < n :: requests[i].cost == cost
  {
    if n == 0 then [] else [Request(0, cost, nonce)] + Alike(n - 1, cost, nonce)
  }

  /** The units of a first such request are there, and are those of every later one. */
  ghost predicate HoldsUnits(h: History, cost: nat, nonce: nat, o: Options) {
    h.store.members == Units(h.now, cost, nonce) && (cost > 0 ==> h.store.expiresAt == h.now + o.windowMs)
  }

  lemma AgainAlike(h: History, cost: nat, nonce: nat, o: Options)
    requires o.windowMs > 0 && HoldsUnits(h, cost, nonce, o)
    ensures var h' := Next(h, Request(0, cost, nonce), o);
            && HoldsUnits(h', cost, nonce, o) && h'.now == h.now
            && Spent(h'.grants, h.now, o.windowMs) == Spent(h.grants, h.now, o.windowMs) + if 2 * cost <= o.limit then cost else 0
  {
    hide RetryAfter;
    var h', units := Next(h, Request(0, cost, nonce), o), Units(h.now, cost, nonce);
    assert Trimmed(Present(h.store, h.now), h.now, o.windowMs) == units;
    assert units + units == units;
    if h'.grants != h.grants { assert h'.grants[..|h.grants|] == h.grants; }
  }

  lemma {:induction false} AlikeGrants(h: History, n: nat, cost: nat, nonce: nat, o: Options)
    requires o.windowMs > 0 && HoldsUnits(h, cost, nonce, o)
    ensures Spent(Run(h, Alike(n, cost, nonce), o).grants, h.now, o.windowMs)
            == Spent(h.grants, h.now, o.windowMs) + if 2 * cost <= o.limit then n * cost else 0
    decreases n
  {
    hide Next, HoldsUnits, Spent;
    if n > 0 {
      AgainAlike(h, cost, nonce, o);
      AlikeGrants(Next(h, Request(0, cost, nonce), o), n - 1, cost, nonce, o);
      assert Alike(n, cost, nonce)[1..] == Alike(n - 1, cost, nonce);
      assert n * cost == (n - 1) * cost + cost;
    }
  }

  lemma FirstAlike(now: int, cost: nat, nonce: nat, o: Options)
    requires o.windowMs > 0 && cost <= o.limit
    ensures var h := Next(Begin(now), Request(0, cost, nonce), o);
            HoldsUnits(h, cost, nonce, o) && h.now == now && Spent(h.grants, now, o.windowMs) == cost
  {
    hide RetryAfter;
    var h := Next(Begin(now), Request(0, cost, nonce), o);
    assert Trimmed(Present(EMPTY, now), now, o.windowMs) == {};
    assert {} + Units(now, cost, nonce) == Units(now, cost, nonce);
    assert h.grants == [Grant(now, cost)] && h.grants[..0] == [];
  }

  /** Drawing the same, all of them are granted if the limit takes two, and otherwise the first alone, if any. */
  lemma AlikeDrawsSpend(now: int, n: nat, cost: nat, nonce: nat, o: Options)
    requires o.windowMs > 0
    ensures Spent(Run(Begin(now), Alike(n, cost, nonce), o).grants, now, o.windowMs)
            == if 2 * cost <= o.limit then n * cost else if cost <= o.limit && n > 0 then cost else 0
  {
    hide Next, HoldsUnits;
    if cost > o.limit {
      TooMuchForAnybody(Begin(now), n, cost, nonce, o);
    } else if n > 0 {
      FirstAlike(now, cost, nonce, o);
      AlikeGrants(Next(Begin(now), Request(0, cost, nonce), o), n - 1, cost, nonce, o);
      assert Alike(n, cost, nonce)[1..] == Alike(n - 1, cost, nonce);
      assert n * cost == (n - 1) * cost + cost;
    }
  }

  lemma {:induction false} TooMuchForAnybody(h: History, n: nat, cost: nat, nonce: nat, o: Options)
    requires cost > o.limit
    ensures Run(h, Alike(n, cost, nonce), o).grants == h.grants
    decreases n
  {
    if n > 0 {
      assert Alike(n, cost, nonce)[1..] == Alike(n - 1, cost, nonce);
      TooMuchForAnybody(Next(h, Request(0, cost, nonce), o), n - 1, cost, nonce, o);
    }
  }

  ghost predicate OfCosts(requests: seq<Request>, costs: iset<nat>) {
    forall i | 0 <= i < |requests| :: requests[i].cost in costs
  }

  /** The bound holds of every run of requests of these costs, whenever they come and whatever is drawn. */
  ghost predicate BoundedWhateverIsDrawn(costs: iset<nat>, o: Options) {
    forall start: int, requests: seq<Request>, end: int | OfCosts(requests, costs) ::
      Spent(Run(Begin(start), requests, o).grants, end, o.windowMs) <= o.limit
  }

  /** The limit does not take two of them. */
  predicate Alone(cost: nat, o: Options) { 2 * cost > o.limit }

  ghost predicate IsWhole(all: set<Member>, m: Member, cost: nat, o: Options) {
    Alone(cost, o) && Units(m.score, cost, m.nonce) <= all
  }

  /** Every unit there has its request's others beside it, more than half the limit in all. */
  ghost predicate InWhole(all: set<Member>, o: Options) {
    forall m | m in all :: exists cost: nat :: IsWhole(all, m, cost, o)
  }

  lemma WholeWhileLive(all: set<Member>, now: int, o: Options)
    requires InWhole(all, o) && Trimmed(all, now, o.windowMs) != {}
    ensures 2 * |Trimmed(all, now, o.windowMs)| > o.limit
  {
    var live := Trimmed(all, now, o.windowMs);
    var m :| m in live;
    var cost: nat :| IsWhole(all, m, cost, o);
    SubsetSize(Units(m.score, cost, m.nonce), live);
  }

  lemma NothingNow(all: set<Member>, r: Request, now: int, windowMs: nat)
    requires Trimmed(all, now, windowMs) == {} && windowMs > 0
    ensures Units(now, r.cost, r.nonce) !! all
  {
    forall m | m in all ensures m !in Units(now, r.cost, r.nonce) {
      assert m !in Trimmed(all, now, windowMs);
    }
  }

  /** Where the limit does not take two, a grant finds the window empty, and so no unit of its own. */
  lemma AloneIsFresh(h: History, r: Request, o: Options)
    requires HoldsTheLive(h, o) && InWhole(h.all, o) && (r.cost == 0 || Alone(r.cost, o)) && o.windowMs > 0
    ensures var now := h.now + r.elapsed;
            Consumed(h.store, now, r.cost, r.nonce, o).1.allowed ==> Units(now, r.cost, r.nonce) !! h.all
  {
    hide Consumed, RetryAfter, Present, Trimmed, InWhole, HoldsTheLive;
    var now := h.now + r.elapsed;
    var live := Trimmed(h.all, now, o.windowMs);
    ExpiryIsIrrelevant(h, now, o);
    if r.cost > 0 && live == {} {
      NothingNow(h.all, r, now, o.windowMs);
    } else if r.cost > 0 {
      WholeWhileLive(h.all, now, o);
      RefusedWhen(h.store, now, live, r.cost, r.nonce, o);
    }
  }

  lemma NextInWhole(all: set<Member>, now: int, r: Request, o: Options)
    requires InWhole(all, o) && (r.cost == 0 || Alone(r.cost, o))
    ensures InWhole(all + Units(now, r.cost, r.nonce), o)
  {
    var more := all + Units(now, r.cost, r.nonce);
    forall m | m in more ensures exists cost: nat :: IsWhole(more, m, cost, o) {
      if m in all {
        var cost: nat :| IsWhole(all, m, cost, o);
        assert IsWhole(more, m, cost, o);
      } else {
        assert IsWhole(more, m, r.cost, o);
      }
    }
  }

  lemma NextAdds(h: History, r: Request, o: Options)
    ensures var h', now := Next(h, r, o), h.now + r.elapsed;
            if Consumed(h.store, now, r.cost, r.nonce, o).1.allowed then
              h'.all == h.all + Units(now, r.cost, r.nonce) && h'.grants == h.grants + [Grant(now, r.cost)]
            else
              h'.all == h.all && h'.grants == h.grants
  {
    hide Consumed;
  }

  lemma AloneKeeps(h: History, r: Request, o: Options)
    requires HoldsTheLive(h, o) && InWhole(h.all, o) && Counted(h, o) && (r.cost == 0 || Alone(r.cost, o)) && o.windowMs > 0
    ensures InWhole(Next(h, r, o).all, o) && Counted(Next(h, r, o), o)
  {
    hide Consumed, Counted, HoldsTheLive, InSpan, Spent, Units, InWhole, Alone, Next;
    NextAdds(h, r, o);
    AloneIsFresh(h, r, o);
    NextInWhole(h.all, h.now + r.elapsed, r, o);
    if Consumed(h.store, h.now + r.elapsed, r.cost, r.nonce, o).1.allowed {
      NextCounted(h, r, o);
    } else {
      SameCounted(h, Next(h, r, o), o);
    }
  }

  lemma SameCounted(h: History, h': History, o: Options)
    requires Counted(h, o) && h'.all == h.all && h'.grants == h.grants
    ensures Counted(h', o)
  {
  }

  lemma {:induction false} AloneRunCounted(h: History, requests: seq<Request>, o: Options)
    requires HoldsTheLive(h, o) && InWhole(h.all, o) && Counted(h, o) && o.windowMs > 0
    requires forall i | 0 <= i < |requests| :: requests[i].cost == 0 || Alone(requests[i].cost, o)
    ensures Counted(Run(h, requests, o), o)
    decreases |requests|
  {
    hide HoldsTheLive, InWhole, Counted, Next, Alone;
    if requests != [] {
      NextHolds(h, requests[0], o);
      AloneKeeps(h, requests[0], o);
      AloneRunCounted(Next(h, requests[0], o), requests[1..], o);
    }
  }

  lemma {:induction false} NothingSpent(grants: seq<Grant>, end: int)
    ensures Spent(grants, end, 0) == 0
    decreases |grants|
  {
    if grants != [] { NothingSpent(grants[..|grants| - 1], end); }
  }

  lemma AloneIsBounded(start: int, requests: seq<Request>, end: int, o: Options)
    requires o.windowMs == 0 || forall i | 0 <= i < |requests| :: requests[i].cost == 0 || Alone(requests[i].cost, o)
    ensures Spent(Run(Begin(start), requests, o).grants, end, o.windowMs) <= o.limit
  {
    hide HoldsTheLive, Bounded, Counted, Spent, Alone;
    BeginsWell(start, o);
    RunKeeps(Begin(start), requests, o);
    var h := Run(Begin(start), requests, o);
    if o.windowMs == 0 {
      NothingSpent(h.grants, end);
    } else {
      AloneRunCounted(Begin(start), requests, o);
      SpentInSpan(h, end, o);
      SpanBounded(h, end, o);
    }
  }

  lemma AlikeDrawsExceed(cost: nat, o: Options)
    requires cost > 0 && o.windowMs > 0 && !Alone(cost, o)
    ensures Spent(Run(Begin(0), Alike(o.limit + 1, cost, 0), o).grants, 0, o.windowMs) > o.limit
  {
    hide Spent, Run, Alike;
    AlikeDrawsSpend(0, o.limit + 1, cost, 0, o);
    assert (cost - 1) * (o.limit + 1) >= 0;
  }

  /** Draws do not matter if and only if the limit takes two of none of the costs. */
  lemma BoundedWhateverIsDrawnIff(costs: iset<nat>, o: Options)
    ensures BoundedWhateverIsDrawn(costs, o) <==> o.windowMs == 0 || forall cost | cost in costs && cost > 0 :: Alone(cost, o)
  {
    hide Spent, Run, Alike, Alone;
    if o.windowMs == 0 || forall cost | cost in costs && cost > 0 :: Alone(cost, o) {
      forall start: int, requests: seq<Request>, end: int | OfCosts(requests, costs)
        ensures Spent(Run(Begin(start), requests, o).grants, end, o.windowMs) <= o.limit
      {
        AloneIsBounded(start, requests, end, o);
      }
    } else {
      var cost :| cost in costs && cost > 0 && !Alone(cost, o);
      AlikeDrawsExceed(cost, o);
      assert OfCosts(Alike(o.limit + 1, cost, 0), costs);
    }
  }

  lemma SpentInSpan(h: History, end: int, o: Options)
    requires Counted(h, o)
    ensures Spent(h.grants, end, o.windowMs) == |InSpan(h.all, end, o.windowMs)|
  {
  }

  lemma OneUnit(now: int, nonce: nat)
    ensures Units(now, 1, nonce) == {Member(now, 1, nonce)}
  {
  }

  // --- The answer, from the grants alone ------------------------------------------------------

  /** Something was granted at that moment. */
  predicate GrantedAt(grants: seq<Grant>, at: int) {
    exists i :: 0 <= i < |grants| && grants[i].at == at && grants[i].cost > 0
  }

  predicate HasScore(members: set<Member>, at: int) {
    exists m :: m in members && m.score == at
  }

  ghost predicate Backed(h: History) {
    forall at: int :: HasScore(h.all, at) <==> GrantedAt(h.grants, at)
  }

  lemma GrantAdds(grants: seq<Grant>, last: Grant, at: int)
    ensures GrantedAt(grants + [last], at) <==> GrantedAt(grants, at) || (last.at == at && last.cost > 0)
  {
    var longer := grants + [last];
    assert longer[|grants|] == last;
    if GrantedAt(grants, at) {
      var i :| 0 <= i < |grants| && grants[i].at == at && grants[i].cost > 0;
      assert longer[i] == grants[i];
    }
  }

  lemma UnitsAdd(all: set<Member>, now: int, cost: nat, nonce: nat, at: int)
    ensures HasScore(all + Units(now, cost, nonce), at) <==> HasScore(all, at) || (at == now && cost > 0)
  {
    var more := all + Units(now, cost, nonce);
    if cost > 0 { assert Member(now, 1, nonce) in more; }
    if HasScore(all, at) {
      var m :| m in all && m.score == at;
      assert m in more;
    }
  }

  lemma NextBacked(h: History, r: Request, o: Options)
    requires Backed(h)
    ensures Backed(Next(h, r, o))
  {
    hide Consumed, HasScore, GrantedAt, Units, Next;
    var h', now := Next(h, r, o), h.now + r.elapsed;
    NextAdds(h, r, o);
    if h'.grants != h.grants {
      forall at: int ensures HasScore(h'.all, at) <==> GrantedAt(h'.grants, at) {
        GrantAdds(h.grants, Grant(now, r.cost), at);
        UnitsAdd(h.all, now, r.cost, r.nonce, at);
      }
    }
  }

  lemma {:induction false} RunBacked(h: History, requests: seq<Request>, o: Options)
    requires Backed(h)
    ensures Backed(Run(h, requests, o))
    decreases |requests|
  {
    hide Next, Backed;
    if requests != [] {
      NextBacked(h, requests[0], o);
      RunBacked(Next(h, requests[0], o), requests[1..], o);
    }
  }

  /** The first moment in the span ending at `end` at which something was granted. */
  ghost predicate FirstGranted(grants: seq<Grant>, end: int, windowMs: nat, first: int) {
    && GrantedAt(grants, first) && end - windowMs < first <= end
    && forall at: int | GrantedAt(grants, at) && end - windowMs < at <= end :: first <= at
  }

  lemma FirstIsOldest(h: History, now: int, o: Options)
    requires HoldsTheLive(h, o) && Backed(h) && now >= h.now && Trimmed(h.all, now, o.windowMs) != {}
    ensures FirstGranted(h.grants, now, o.windowMs, Oldest(Trimmed(h.all, now, o.windowMs)))
  {
    var live := Trimmed(h.all, now, o.windowMs);
    var m :| m in live && m.score == Oldest(live);
    assert HasScore(h.all, m.score);
    forall at: int | GrantedAt(h.grants, at) && now - o.windowMs < at <= now ensures m.score <= at {
      assert HasScore(h.all, at);
      var other :| other in h.all && other.score == at;
      assert other in live && IsOldest(live, Oldest(live));
    }
  }

  lemma SecondsCover(ms: int)
    ensures 1000 * (Seconds(ms) - 1) < ms <= 1000 * Seconds(ms)
  {
  }

  /**
   After any run of requests told apart, a request is allowed if and only if what was granted in
   the window ending now leaves room for all it asks for. It is told what is left, and, refused,
   the whole seconds until the first grant of the window has left it.
   */
  lemma AnsweredByGrants(start: int, before: seq<Request>, elapsed: nat, cost: nat, nonce: nat, o: Options)
    requires ToldApart(before)
    ensures var h := Run(Begin(start), before, o);
            var now, verdict := h.now + elapsed, Consumed(h.store, h.now + elapsed, cost, nonce, o).1;
            var spent := Spent(h.grants, now, o.windowMs);
            && spent <= o.limit
            && (verdict.allowed <==> spent + cost <= o.limit)
            && (verdict.allowed ==> verdict.remaining == o.limit - spent - cost && verdict.retryAfter == 0)
            && (!verdict.allowed ==> verdict.remaining == o.limit - spent)
            && (!verdict.allowed && spent == 0 ==> verdict.retryAfter == o.windowMs)
            && (!verdict.allowed && spent > 0 ==>
                  exists first: int :: FirstGranted(h.grants, now, o.windowMs, first)
                    && 1000 * (verdict.retryAfter - 1) < first + o.windowMs - now <= 1000 * verdict.retryAfter)
  {
    hide HoldsTheLive, Bounded, Counted, Run, Next, FirstGranted, Backed, Seconds, Spent, Oldest, IsOldest;
    ToldApartIsFresh(Begin(start), before, o);
    BeginsWell(start, o);
    RunKeeps(Begin(start), before, o);
    assert Backed(Begin(start)) by { NothingBacked(start); }
    RunBacked(Begin(start), before, o);
    var h := Run(Begin(start), before, o);
    var now := h.now + elapsed;
    var live := Trimmed(h.all, now, o.windowMs);
    ExpiryIsIrrelevant(h, now, o);
    LiveIsTheSpan(h, now, o);
    SpentInSpan(h, now, o);
    SpanBounded(h, now, o);
    if live != {} {
      FirstIsOldest(h, now, o);
      SecondsCover(Oldest(live) + o.windowMs - now);
    }
  }

  lemma NothingBacked(start: int)
    ensures Backed(Begin(start))
  {
  }

  lemma LiveIsTheSpan(h: History, now: int, o: Options)
    requires HoldsTheLive(h, o) && now >= h.now
    ensures Trimmed(h.all, now, o.windowMs) == InSpan(h.all, now, o.windowMs)
  {
  }

  // --- Looking, and waiting -------------------------------------------------------------------

  /** What a request is answered depends on the members still live alone. */
  predicate SameFrom(s: Store, t: Store, now: int, windowMs: nat) {
    && Trimmed(s.members, now, windowMs) == Trimmed(t.members, now, windowMs)
    && (forall m | m in s.members :: s.expiresAt >= m.score + windowMs)
    && (forall m | m in t.members :: t.expiresAt >= m.score + windowMs)
  }

  lemma SameLive(s: Store, t: Store, from: int, now: int, windowMs: nat)
    requires SameFrom(s, t, from, windowMs) && now >= from
    ensures Trimmed(Present(s, now), now, windowMs) == Trimmed(Present(t, now), now, windowMs)
  {
    assert forall m :: m in Trimmed(Present(s, now), now, windowMs) <==> m in Trimmed(s.members, from, windowMs) && m.score > now - windowMs;
    assert forall m :: m in Trimmed(Present(t, now), now, windowMs) <==> m in Trimmed(t.members, from, windowMs) && m.score > now - windowMs;
  }

  lemma SameAnswer(s: Store, t: Store, from: int, now: int, cost: nat, nonce: nat, o: Options)
    requires SameFrom(s, t, from, o.windowMs) && now >= from && forall m | m in s.members + t.members :: m.score <= now
    ensures Consumed(s, now, cost, nonce, o).1 == Consumed(t, now, cost, nonce, o).1
    ensures var s', t' := Consumed(s, now, cost, nonce, o).0, Consumed(t, now, cost, nonce, o).0;
            SameFrom(s', t', now, o.windowMs) && forall m | m in s'.members + t'.members :: m.score <= now
  {
    hide RetryAfter;
    SameLive(s, t, from, now, o.windowMs);
  }

  lemma LookingKeeps(s: Store, from: int, now: int, nonce: nat, o: Options)
    requires SameFrom(s, s, from, o.windowMs) && now >= from && forall m | m in s.members :: m.score <= now
    ensures SameFrom(s, Consumed(s, now, 0, nonce, o).0, now, o.windowMs)
  {
    hide RetryAfter;
    SameLive(s, s, from, now, o.windowMs);
  }

  ghost function Verdicts(s: Store, now: int, requests: seq<Request>, o: Options): seq<Verdict>
    decreases |requests|
  {
    if requests == [] then []
    else
      var at := now + requests[0].elapsed;
      var (next, verdict) := Consumed(s, at, requests[0].cost, requests[0].nonce, o);
      [verdict] + Verdicts(next, at, requests[1..], o)
  }

  lemma {:induction false} SameVerdicts(s: Store, t: Store, now: int, requests: seq<Request>, o: Options)
    requires SameFrom(s, t, now, o.windowMs) && forall m | m in s.members + t.members :: m.score <= now
    ensures Verdicts(s, now, requests, o) == Verdicts(t, now, requests, o)
    decreases |requests|
  {
    hide Consumed, SameFrom;
    if requests != [] {
      var r := requests[0];
      var at := now + r.elapsed;
      SameAnswer(s, t, now, at, r.cost, r.nonce, o);
      SameVerdicts(Consumed(s, at, r.cost, r.nonce, o).0, Consumed(t, at, r.cost, r.nonce, o).0, at, requests[1..], o);
    }
  }

  /** After any run a look changes no later answer. */
  lemma PeekChangesNothing(start: int, before: seq<Request>, nonce: nat, after: seq<Request>, o: Options)
    ensures var h := Run(Begin(start), before, o);
            Verdicts(h.store, h.now, after, o) == Verdicts(Consumed(h.store, h.now, 0, nonce, o).0, h.now, after, o)
  {
    hide RetryAfter;
    BeginsWell(start, o);
    RunKeeps(Begin(start), before, o);
    var h := Run(Begin(start), before, o);
    LookingKeeps(h.store, h.now, h.now, nonce, o);
    SameVerdicts(h.store, Consumed(h.store, h.now, 0, nonce, o).0, h.now, after, o);
  }

  /** What is live of the store. */
  function Live(h: History, o: Options): set<Member> {
    Trimmed(h.store.members, h.now, o.windowMs)
  }

  /** The answer to the same request after the wait the first answer asks for. */
  ghost function AfterWaiting(h: History, cost: nat, nonce: nat, again: nat, o: Options): Verdict {
    var (store, verdict) := Consumed(h.store, h.now, cost, nonce, o);
    Consumed(store, h.now + 1000 * verdict.retryAfter, cost, again, o).1
  }

  lemma AtMostTheLimit(h: History, o: Options)
    requires HoldsTheLive(h, o) && Bounded(h, o)
    ensures |Live(h, o)| <= o.limit
  {
    ExpiryIsIrrelevant(h, h.now, o);
    SpanBounded(h, h.now, o);
    assert Trimmed(h.all, h.now, o.windowMs) == InSpan(h.all, h.now, o.windowMs);
  }

  /** A refusal answers what is left, and the wait until the oldest goes or, with nothing live, the window's length. */
  lemma Refused(h: History, cost: nat, nonce: nat, o: Options)
    requires HoldsTheLive(h, o) && Bounded(h, o)
    ensures var verdict := Consumed(h.store, h.now, cost, nonce, o).1;
            && (verdict.allowed <==> |Live(h, o)| + cost <= o.limit)
            && (!verdict.allowed ==> verdict.remaining == o.limit - |Live(h, o)|)
            && (!verdict.allowed ==> verdict.retryAfter == RetryAfter(Live(h, o), h.now, o.windowMs))
  {
    hide RetryAfter, HoldsTheLive, Bounded;
    AtMostTheLimit(h, o);
    ExpiryIsIrrelevant(h, h.now, o);
  }

  /** The wait is positive, reaches to the oldest's going, and to everything's if the window is no longer than a second. */
  lemma WaitReaches(live: set<Member>, now: int, windowMs: nat)
    requires live != {} && forall m | m in live :: now - windowMs < m.score <= now
    ensures var later := now + 1000 * RetryAfter(live, now, windowMs);
            && later > now && later - windowMs >= Oldest(live)
            && (windowMs <= 1000 ==> later - windowMs >= now)
  {
    hide Oldest;
  }

  lemma WaitedFor(h: History, cost: nat, nonce: nat, again: nat, o: Options)
    requires HoldsTheLive(h, o) && Bounded(h, o) && Live(h, o) != {} && !Consumed(h.store, h.now, cost, nonce, o).1.allowed
    ensures |Live(h, o)| - 1 + cost <= o.limit ==> AfterWaiting(h, cost, nonce, again, o).allowed
    ensures o.windowMs <= 1000 ==> (AfterWaiting(h, cost, nonce, again, o).allowed <==> cost <= o.limit)
  {
    hide RetryAfter, HoldsTheLive, Bounded;
    var live := Live(h, o);
    Refused(h, cost, nonce, o);
    ExpiryIsIrrelevant(h, h.now, o);
    LiveIsRecent(h, o);
    WaitReaches(live, h.now, o.windowMs);
    var later := h.now + 1000 * RetryAfter(live, h.now, o.windowMs);
    var m :| m in live && m.score == Oldest(live);
    var left := Trimmed(Present(Store(live, h.store.expiresAt), later), later, o.windowMs);
    SubsetSize(left, live - {m});
    assert o.windowMs <= 1000 ==> left == {};
  }

  lemma LiveIsRecent(h: History, o: Options)
    requires HoldsTheLive(h, o)
    ensures forall m | m in Live(h, o) :: h.now - o.windowMs < m.score <= h.now
  {
  }

  /** A caller refused one unit who waits as long as it was told gets it, if and only if the limit lets anybody have one. */
  lemma WaitingSufficesIff(start: int, before: seq<Request>, nonce: nat, again: nat, o: Options)
    requires var h := Run(Begin(start), before, o); !Consumed(h.store, h.now, 1, nonce, o).1.allowed
    ensures var h := Run(Begin(start), before, o);
            && Consumed(h.store, h.now, 1, nonce, o).1.retryAfter >= 0
            && (AfterWaiting(h, 1, nonce, again, o).allowed <==> o.limit > 0)
  {
    hide Consumed, HoldsTheLive, Bounded, AfterWaiting;
    BeginsWell(start, o);
    RunKeeps(Begin(start), before, o);
    var h := Run(Begin(start), before, o);
    Refused(h, 1, nonce, o);
    AtMostTheLimit(h, o);
    if o.limit > 0 {
      WaitedFor(h, 1, nonce, again, o);
      LiveIsRecent(h, o);
      WaitReaches(Live(h, o), h.now, o.windowMs);
    } else {
      NeverAllowed(h, 1, nonce, again, o);
    }
  }

  lemma NeverAllowed(h: History, cost: nat, nonce: nat, again: nat, o: Options)
    requires cost > o.limit
    ensures !Consumed(h.store, h.now, cost, nonce, o).1.allowed && !AfterWaiting(h, cost, nonce, again, o).allowed
  {
    hide RetryAfter;
  }

  // --- Waiting for any cost ---------------------------------------------------------------------

  /** With something in the window, the request is refused, and so much is said to be left. */
  ghost predicate RefusedWith(h: History, cost: nat, nonce: nat, remaining: nat, o: Options) {
    && Live(h, o) != {}
    && !Consumed(h.store, h.now, cost, nonce, o).1.allowed
    && Consumed(h.store, h.now, cost, nonce, o).1.remaining == remaining
  }

  /** Whoever is refused so, after any run, and waits as told with no other traffic, is admitted. */
  ghost predicate WaitingIsEnough(cost: nat, remaining: nat, o: Options) {
    forall start: int, before: seq<Request>, nonce: nat, again: nat ::
      RefusedWith(Run(Begin(start), before, o), cost, nonce, remaining, o) ==>
        AfterWaiting(Run(Begin(start), before, o), cost, nonce, again, o).allowed
  }

  /**
   Waiting is enough if and only if the cost is at most one more than what was left, or the
   window is no longer than the second waits are counted in and the cost is one the limit takes.
   */
  lemma WaitingIsEnoughIff(cost: nat, remaining: nat, o: Options)
    requires remaining < o.limit && o.windowMs > 0
    ensures WaitingIsEnough(cost, remaining, o) <==> cost <= remaining + 1 || (o.windowMs <= 1000 && cost <= o.limit)
  {
    hide Consumed, HoldsTheLive, Bounded, AfterWaiting, RefusedWith, Run;
    if cost <= remaining + 1 || (o.windowMs <= 1000 && cost <= o.limit) {
      forall start: int, before: seq<Request>, nonce: nat, again: nat
        | RefusedWith(Run(Begin(start), before, o), cost, nonce, remaining, o)
        ensures AfterWaiting(Run(Begin(start), before, o), cost, nonce, again, o).allowed
      {
        WaitedEnough(start, before, cost, nonce, again, remaining, o);
      }
    } else if cost > o.limit {
      TooMuchIsRefused(cost, remaining, o);
    } else {
      TwoOldOnes(cost, remaining, o);
    }
  }

  lemma WaitedEnough(start: int, before: seq<Request>, cost: nat, nonce: nat, again: nat, remaining: nat, o: Options)
    requires RefusedWith(Run(Begin(start), before, o), cost, nonce, remaining, o)
    requires cost <= remaining + 1 || (o.windowMs <= 1000 && cost <= o.limit)
    ensures AfterWaiting(Run(Begin(start), before, o), cost, nonce, again, o).allowed
  {
    hide Consumed, HoldsTheLive, Bounded, AfterWaiting;
    BeginsWell(start, o);
    RunKeeps(Begin(start), before, o);
    var h := Run(Begin(start), before, o);
    Refused(h, cost, nonce, o);
    WaitedFor(h, cost, nonce, again, o);
  }

  /** The state after one grant to an empty store. */
  lemma OneGrant(cost: nat, o: Options)
    requires 0 < cost <= o.limit && o.windowMs > 0
    ensures var h := Next(Begin(0), Request(0, cost, 1), o);
            h.store == Store(Units(0, cost, 1), o.windowMs) && h.now == 0 && Live(h, o) == Units(0, cost, 1)
    ensures Run(Begin(0), [Request(0, cost, 1)], o) == Next(Begin(0), Request(0, cost, 1), o)
  {
    hide RetryAfter;
    assert Trimmed(Present(EMPTY, 0), 0, o.windowMs) == {};
    assert {} + Units(0, cost, 1) == Units(0, cost, 1);
    var requests := [Request(0, cost, 1)];
    assert requests[1..] == [];
  }

  lemma TooMuchIsRefused(cost: nat, remaining: nat, o: Options)
    requires remaining < o.limit < cost && o.windowMs > 0
    ensures !WaitingIsEnough(cost, remaining, o)
  {
    hide Units, Run;
    var requests := [Request(0, o.limit - remaining, 1)];
    OneGrant(o.limit - remaining, o);
    var h := Run(Begin(0), requests, o);
    NeverAllowed(h, cost, 2, 3, o);
    assert Trimmed(Present(h.store, 0), 0, o.windowMs) == Live(h, o);
    assert RefusedWith(Run(Begin(0), requests, o), cost, 2, remaining, o);
    assert !AfterWaiting(Run(Begin(0), requests, o), cost, 2, 3, o).allowed;
  }

  lemma RunOfTwo(h: History, first: Request, second: Request, o: Options)
    ensures Run(h, [first, second], o) == Next(Next(h, first, o), second, o)
  {
    hide Next;
    var requests := [first, second];
    assert requests[1..] == [second] && requests[1..][1..] == [];
    assert Run(h, requests, o) == Run(Next(h, first, o), requests[1..], o);
    assert Run(Next(h, first, o), requests[1..], o) == Run(Next(Next(h, first, o), second, o), requests[1..][1..], o);
  }

  lemma SecondGrant(others: nat, o: Options)
    requires 0 < others < o.limit && o.windowMs > 1000
    ensures var s := Store(Units(0, 1, 1), o.windowMs);
            Consumed(s, o.windowMs - 1000, others, 2, o).0
            == Store(Units(0, 1, 1) + Units(o.windowMs - 1000, others, 2), 2 * o.windowMs - 1000)
  {
    hide RetryAfter;
    assert Trimmed(Units(0, 1, 1), o.windowMs - 1000, o.windowMs) == Units(0, 1, 1);
  }

  lemma OnlyTheOldestGoes(others: nat, cost: nat, o: Options)
    requires 0 < others && others + cost > o.limit && o.windowMs > 1000
    ensures var now, all := o.windowMs - 1000, Units(0, 1, 1) + Units(o.windowMs - 1000, others, 2);
            var h := History(Store(all, 2 * o.windowMs - 1000), all, [], now);
            && Live(h, o) == all && |all| == others + 1
            && !Consumed(h.store, now, cost, 3, o).1.allowed
            && Consumed(h.store, now, cost, 3, o).1.remaining == (if o.limit > others + 1 then o.limit - others - 1 else 0)
            && !AfterWaiting(h, cost, 3, 4, o).allowed
  {
    hide Units, Consumed;
    var now, aged, young := o.windowMs - 1000, Units(0, 1, 1), Units(o.windowMs - 1000, others, 2);
    var store := Store(aged + young, 2 * o.windowMs - 1000);
    assert aged !! young;
    assert Trimmed(Present(store, now), now, o.windowMs) == aged + young;
    assert Member(0, 1, 1) in aged;
    assert Oldest(aged + young) == 0;
    var later := o.windowMs;
    assert Trimmed(Present(store, later), later, o.windowMs) == young;
    RefusedWhen(store, now, aged + young, cost, 3, o);
    RefusedWhen(store, later, young, cost, 4, o);
  }

  lemma RefusedWhen(s: Store, now: int, live: set<Member>, cost: nat, nonce: nat, o: Options)
    requires Trimmed(Present(s, now), now, o.windowMs) == live && |live| + cost > o.limit
    ensures !Consumed(s, now, cost, nonce, o).1.allowed
    ensures Consumed(s, now, cost, nonce, o).0 == Store(live, s.expiresAt)
    ensures Consumed(s, now, cost, nonce, o).1.retryAfter == RetryAfter(live, now, o.windowMs)
    ensures Consumed(s, now, cost, nonce, o).1.remaining == if o.limit > |live| then o.limit - |live| else 0
  {
    hide RetryAfter;
  }

  /** What is answered depends on the store and the moment alone. */
  lemma SameStoreSameAnswer(h: History, other: History, cost: nat, nonce: nat, again: nat, o: Options)
    requires h.store == other.store && h.now == other.now
    ensures Live(h, o) == Live(other, o) && AfterWaiting(h, cost, nonce, again, o) == AfterWaiting(other, cost, nonce, again, o)
  {
  }

  lemma TwoGrants(others: nat, o: Options)
    requires 0 < others < o.limit && o.windowMs > 1000
    ensures var h := Run(Begin(0), [Request(0, 1, 1), Request(o.windowMs - 1000, others, 2)], o);
            h.store == Store(Units(0, 1, 1) + Units(o.windowMs - 1000, others, 2), 2 * o.windowMs - 1000) && h.now == o.windowMs - 1000
  {
    OneGrant(1, o);
    SecondGrant(others, o);
    hide Units, Run, Consumed;
    RunOfTwo(Begin(0), Request(0, 1, 1), Request(o.windowMs - 1000, others, 2), o);
  }

  /** A unit from the window's start and others from a second before its end: the wait is for that one alone. */
  lemma TwoOldOnes(cost: nat, remaining: nat, o: Options)
    requires remaining + 1 < cost <= o.limit && o.windowMs > 1000
    ensures !WaitingIsEnough(cost, remaining, o)
  {
    hide Units, RetryAfter, Run, AfterWaiting, Trimmed, Present;
    var now, others := o.windowMs - 1000, o.limit - remaining - 1;
    var requests := [Request(0, 1, 1), Request(now, others, 2)];
    TwoGrants(others, o);
    OnlyTheOldestGoes(others, cost, o);
    var h := Run(Begin(0), requests, o);
    hide Consumed, Live;
    assert !AfterWaiting(h, cost, 3, 4, o).allowed && RefusedWith(h, cost, 3, remaining, o) by {
      SameStoreSameAnswer(h, History(h.store, h.store.members, [], now), cost, 3, 4, o);
    }
    assert RefusedWith(Run(Begin(0), requests, o), cost, 3, remaining, o);
  }

  // --- Waiting where nothing is live --------------------------------------------------------------

  /** After some run, the request is refused with a wait longer than the window. */
  ghost predicate WaitsTooLong(start: int, before: seq<Request>, cost: nat, nonce: nat, o: Options) {
    var h := Run(Begin(start), before, o);
    var verdict := Consumed(h.store, h.now, cost, nonce, o).1;
    !verdict.allowed && verdict.retryAfter > Seconds(o.windowMs)
  }

  /** A refused request is told to wait longer than the window exactly when nothing is live and the window is over a millisecond. */
  lemma TooLongWhenNothingIsLive(start: int, before: seq<Request>, cost: nat, nonce: nat, o: Options)
    requires var h := Run(Begin(start), before, o); !Consumed(h.store, h.now, cost, nonce, o).1.allowed
    ensures var h := Run(Begin(start), before, o);
            && (WaitsTooLong(start, before, cost, nonce, o) <==> Live(h, o) == {} && o.windowMs > 1)
            && (Live(h, o) == {} ==> cost > o.limit)
  {
    hide Consumed, HoldsTheLive, Bounded, Run;
    BeginsWell(start, o);
    RunKeeps(Begin(start), before, o);
    var h := Run(Begin(start), before, o);
    Refused(h, cost, nonce, o);
    LiveIsRecent(h, o);
    WithinTheWindow(Live(h, o), h.now, o.windowMs);
  }

  lemma WithinTheWindow(live: set<Member>, now: int, windowMs: nat)
    requires forall m | m in live :: now - windowMs < m.score <= now
    ensures RetryAfter(live, now, windowMs) > Seconds(windowMs) <==> live == {} && windowMs > 1
  {
    hide Oldest;
  }

  /** That comes of asking for more than the limit, and of nothing else: then the window's milliseconds are answered as seconds. */
  lemma WaitsTooLongIff(cost: nat, o: Options)
    ensures (exists start: int, before: seq<Request>, nonce: nat :: WaitsTooLong(start, before, cost, nonce, o))
            <==> cost > o.limit && o.windowMs > 1
    ensures cost > o.limit ==> Consumed(EMPTY, 0, cost, 0, o).1 == Verdict(false, o.limit, o.windowMs)
  {
    hide WaitsTooLong;
    if cost > o.limit && o.windowMs > 1 {
      NothingLiveAtFirst(cost, o);
    }
    forall start: int, before: seq<Request>, nonce: nat | WaitsTooLong(start, before, cost, nonce, o)
      ensures cost > o.limit && o.windowMs > 1
    {
      RefusedThen(start, before, cost, nonce, o);
      TooLongWhenNothingIsLive(start, before, cost, nonce, o);
    }
  }

  lemma RefusedThen(start: int, before: seq<Request>, cost: nat, nonce: nat, o: Options)
    requires WaitsTooLong(start, before, cost, nonce, o)
    ensures var h := Run(Begin(start), before, o); !Consumed(h.store, h.now, cost, nonce, o).1.allowed
  {
  }

  lemma NothingLiveAtFirst(cost: nat, o: Options)
    requires cost > o.limit && o.windowMs > 1
    ensures WaitsTooLong(0, [], cost, 0, o)
  {
    assert Trimmed(Present(EMPTY, 0), 0, o.windowMs) == {};
  }
}
