module Scanner {
  /**
   Scanning a forward window for work about to come due: every moment falls in some scan,
   and a key claimed before it is dispatched is dispatched once however scans overlap.
   */

  import opened Wrappers
  import opened RedisLock

  // --- Windows --------------------------------------------------------------------------

  /** The scan made at `now` looks at `[now, now + windowMs)`. */
  predicate InWindow(moment: int, now: int, windowMs: nat) {
    now <= moment < now + windowMs
  }

  predicate Seen(moment: int, scans: seq<int>, windowMs: nat) {
    exists i :: 0 <= i < |scans| && InWindow(moment, scans[i], windowMs)
  }

  predicate InOrder(scans: seq<int>) {
    forall i, j | 0 <= i < j < |scans| :: scans[i] <= scans[j]
  }

  predicate CloseEnough(scans: seq<int>, windowMs: nat) {
    forall i | 0 < i < |scans| :: scans[i] - scans[i - 1] <= windowMs
  }

  lemma {:induction false} ClosedScansSee(scans: seq<int>, windowMs: nat, moment: int, n: nat)
    requires 0 < n <= |scans| && CloseEnough(scans, windowMs)
    requires scans[0] <= moment < scans[n - 1] + windowMs
    ensures Seen(moment, scans, windowMs)
  {
    if scans[n - 1] <= moment {
      assert InWindow(moment, scans[n - 1], windowMs);
    } else {
      ClosedScansSee(scans, windowMs, moment, n - 1);
    }
  }

  /** From the first scan to the end of the last one's window nothing is missed, if and only if no two scans are further apart than a window. */
  lemma NothingIsMissedIff(scans: seq<int>, windowMs: nat)
    requires scans != [] && InOrder(scans)
    ensures CloseEnough(scans, windowMs) <==>
              forall moment | scans[0] <= moment < scans[|scans| - 1] + windowMs :: Seen(moment, scans, windowMs)
  {
    if CloseEnough(scans, windowMs) {
      forall moment | scans[0] <= moment < scans[|scans| - 1] + windowMs ensures Seen(moment, scans, windowMs) {
        ClosedScansSee(scans, windowMs, moment, |scans|);
      }
    } else {
      var i :| 0 < i < |scans| && scans[i] - scans[i - 1] > windowMs;
      var missed := scans[i - 1] + windowMs;
      assert !Seen(missed, scans, windowMs);
    }
  }

  // --- One pass ---------------------------------------------------------------------------

  datatype Act = Claimed(key: string) | Refused(key: string) | Dispatch(key: string, ok: bool) | Released(key: string)

  /** Claimed before, dispatched, failed and given back, or failed with no word of its being given back. */
  datatype Outcome = Skipped | Dispatched | Failed | Stuck

  /** What a pass does about one item: nothing is dispatched before it is claimed, and only a failure is released. */
  function ActsFor(key: string, outcome: Outcome): seq<Act> {
    match outcome
    case Skipped => [Refused(key)]
    case Dispatched => [Claimed(key), Dispatch(key, true)]
    case Failed => [Claimed(key), Dispatch(key, false), Released(key)]
    case Stuck => [Claimed(key), Dispatch(key, false)]
  }

  function ActsOf(keys: seq<string>, outcomes: seq<Outcome>): seq<Act>
    requires |keys| == |outcomes|
    decreases |keys|
  {
    if keys == [] then []
    else
      var last := |keys| - 1;
      ActsOf(keys[..last], outcomes[..last]) + ActsFor(keys[last], outcomes[last])
  }

  function Count(outcomes: seq<Outcome>, of: Outcome): nat
    decreases |outcomes|
  {
    if outcomes == [] then 0
    else
      var last := |outcomes| - 1;
      Count(outcomes[..last], of) + if outcomes[last] == of then 1 else 0
  }

  lemma {:induction false} CountsAddUp(outcomes: seq<Outcome>)
    ensures Count(outcomes, Skipped) + Count(outcomes, Dispatched) + Count(outcomes, Failed) + Count(outcomes, Stuck) == |outcomes|
    decreases |outcomes|
  {
    if outcomes != [] { CountsAddUp(outcomes[..|outcomes| - 1]); }
  }

  lemma OneMoreItem(keys: seq<string>, outcomes: seq<Outcome>, i: nat, outcome: Outcome)
    requires |outcomes| == i < |keys|
    ensures ActsOf(keys[..i + 1], outcomes + [outcome]) == ActsOf(keys[..i], outcomes) + ActsFor(keys[i], outcome)
  {
    assert keys[..i + 1][..i] == keys[..i] && (outcomes + [outcome])[..i] == outcomes;
  }

  datatype ScanResult = ScanResult(found: nat, dispatched: nat, skipped: nat, failed: nat)

  function ClaimKey(scanner: string, key: string): string {
    "scanned:" + scanner + ":" + key
  }

  /** Items of one scanner never share a claim. */
  lemma ClaimsTellItems(locks: RedisLocks, scanner: string, a: string, b: string)
    ensures locks.Key(ClaimKey(scanner, a)) == locks.Key(ClaimKey(scanner, b)) <==> a == b
  {
    hide RedisLocks.Key, RunsInto;
    ClaimsTellScanners(scanner, a, scanner, b);
    KeysTellNames(locks, ClaimKey(scanner, a), ClaimKey(scanner, b));
    NeverIntoItself(scanner, a, b);
    NeverIntoItself(scanner, b, a);
  }

  lemma NeverIntoItself(scanner: string, a: string, b: string)
    ensures !RunsInto(scanner, a, scanner, b)
  {
    forall u: string ensures scanner != scanner + ":" + u {
      assert |scanner + ":" + u| > |scanner|;
    }
  }

  lemma KeysTellNames(locks: RedisLocks, a: string, b: string)
    ensures locks.Key(a) == locks.Key(b) <==> a == b
  {
    var head := locks.namespace + ":";
    assert locks.Key(a)[|head|..] == a && locks.Key(b)[|head|..] == b;
  }

  /** One name goes on, past a colon, with what the other item's key begins with. */
  ghost predicate RunsInto(scanner: string, key: string, other: string, otherKey: string) {
    exists u: string :: other == scanner + ":" + u && key == u + ":" + otherKey
  }

  /** Items of any two scanners share one if and only if both are the same, or one name runs into the other's key. */
  lemma ClaimsTellScanners(scanner: string, a: string, other: string, b: string)
    ensures ClaimKey(scanner, a) == ClaimKey(other, b) <==>
              (scanner == other && a == b) || RunsInto(scanner, a, other, b) || RunsInto(other, b, scanner, a)
  {
    hide RunsInto;
    var one, two := scanner + ":" + a, other + ":" + b;
    assert ClaimKey(scanner, a) == "scanned:" + one && ClaimKey(other, b) == "scanned:" + two;
    assert ClaimKey(scanner, a)[|"scanned:"|..] == one && ClaimKey(other, b)[|"scanned:"|..] == two;
    if |scanner| <= |other| { Colliding(scanner, a, other, b); } else { Colliding(other, b, scanner, a); }
  }

  lemma Colliding(scanner: string, a: string, other: string, b: string)
    requires |scanner| <= |other|
    ensures scanner + ":" + a == other + ":" + b <==>
              (scanner == other && a == b) || RunsInto(scanner, a, other, b) || RunsInto(other, b, scanner, a)
  {
    var one, two := scanner + ":" + a, other + ":" + b;
    if one == two {
      assert one[..|scanner|] == scanner && two[..|other|] == other && one[|scanner|] == ':' && two[|other|] == ':';
      if |scanner| == |other| {
        assert one[|scanner| + 1..] == a && two[|other| + 1..] == b;
      } else {
        var u := other[|scanner| + 1..];
        assert other == scanner + ":" + u;
        assert a == one[|scanner| + 1..] && a == u + ":" + b;
      }
    }
    if u: string :| other == scanner + ":" + u && a == u + ":" + b {
      assert one == two;
    }
    if u: string :| scanner == other + ":" + u && b == u + ":" + a { assert false; }
  }

  /** How an item's dispatch would end, and whether the reply to its release would be heard. */
  datatype Fate = Fate(succeeds: bool, heard: bool)

  /** The item's claim as Redis keeps it. */
  predicate ClaimedAlive(locks: RedisLocks, scanner: string, key: string, keys: Keys, now: nat) {
    Alive(keys, locks.namespace + ":" + ("scanned:" + scanner + ":" + key), now)
  }

  /** No item's claim but this one's is any different. */
  predicate OthersKept(locks: RedisLocks, scanner: string, key: string, before: Keys, after: Keys) {
    forall k | k in before.Keys + after.Keys && k != locks.namespace + ":" + ("scanned:" + scanner + ":" + key) ::
      k in before && k in after && before[k] == after[k]
  }

  /** Seen from another item. */
  lemma OtherItemsKept(locks: RedisLocks, scanner: string, key: string, before: Keys, after: Keys, other: string, now: nat)
    requires OthersKept(locks, scanner, key, before, after) && other != key
    ensures ClaimedAlive(locks, scanner, other, before, now) <==> ClaimedAlive(locks, scanner, other, after, now)
  {
    ClaimsTellItems(locks, scanner, key, other);
    assert locks.Key(ClaimKey(scanner, key)) == locks.namespace + ":" + ("scanned:" + scanner + ":" + key);
    assert locks.Key(ClaimKey(scanner, other)) == locks.namespace + ":" + ("scanned:" + scanner + ":" + other);
  }

  /**
   Claim before dispatching: an item is skipped exactly if its own claim is alive. Nothing
   is done to the claim after a dispatch that succeeds; one that fails gives it back if it
   is still its own. No other item's claim is taken or freed. `taken` is what the claim
   left, and `left` what the dispatch did.
   */
  method ScanItem(locks: RedisLocks, scanner: string, key: string, fate: Fate, token: string, dedupeTtlMs: nat)
    returns (acts: seq<Act>, outcome: Outcome, ghost taken: Keys, ghost left: Keys)
    modifies locks.client
    ensures acts == ActsFor(key, outcome)
    ensures outcome == if ClaimedAlive(locks, scanner, key, old(locks.client.keys), old(locks.client.now)) then Skipped
                       else if fate.succeeds then Dispatched else if fate.heard then Failed else Stuck
    ensures outcome.Skipped? ==> locks.client.keys == left == taken == old(locks.client.keys)
    ensures !outcome.Skipped? ==>
              taken == old(locks.client.keys)[locks.Key(ClaimKey(scanner, key)) := Entry(token, old(locks.client.now) + dedupeTtlMs)]
    ensures outcome.Dispatched? ==> locks.client.keys == left
    ensures var claim, now := locks.Key(ClaimKey(scanner, key)), locks.client.now;
            var given := if HeldBy(left, claim, token, now) then left - {claim} else left;
            && (outcome.Failed? ==> locks.client.keys == given)
            && (outcome.Stuck? ==> locks.client.keys == left || locks.client.keys == given)
    ensures OthersKept(locks, scanner, key, old(locks.client.keys), taken) && OthersKept(locks, scanner, key, left, locks.client.keys)
  {
    var claimed := locks.Acquire(ClaimKey(scanner, key), LockOptions(dedupeTtlMs, 0, 50), token, 0);
    taken, left := locks.client.keys, locks.client.keys;
    if !claimed { return [Refused(key)], Skipped, taken, left; }
    acts := [Claimed(key)];
    var took: nat := *;
    locks.client.Sleep(took, 0);
    left := locks.client.keys;
    acts := acts + [Dispatch(key, fate.succeeds)];
    if fate.succeeds { return acts, Dispatched, taken, left; }
    var reached: bool := *;
    if fate.heard || reached { var _ := locks.client.ReleaseScript(locks.Key(ClaimKey(scanner, key)), token); }
    if !fate.heard { return acts, Stuck, taken, left; }
    acts := acts + [Released(key)];
    return acts, Failed, taken, left;
  }

  /** Every item that was claimed went as its dispatch and its release did, and the pass got no further than one that stuck. */
  predicate WentAs(outcomes: seq<Outcome>, fates: seq<Fate>) {
    && |outcomes| <= |fates|
    && (forall i | 0 <= i < |outcomes| && outcomes[i] != Skipped ::
          outcomes[i] == if fates[i].succeeds then Dispatched else if fates[i].heard then Failed else Stuck)
    && (forall i | 0 <= i < |outcomes| - 1 :: outcomes[i] != Stuck)
  }

  predicate IsStuck(outcomes: seq<Outcome>) {
    outcomes != [] && outcomes[|outcomes| - 1] == Stuck
  }

  lemma OneMoreWent(outcomes: seq<Outcome>, outcome: Outcome, fates: seq<Fate>)
    requires WentAs(outcomes, fates) && !IsStuck(outcomes) && |outcomes| < |fates|
    requires outcome != Skipped ==>
               var fate := fates[|outcomes|]; outcome == if fate.succeeds then Dispatched else if fate.heard then Failed else Stuck
    ensures WentAs(outcomes + [outcome], fates) && (IsStuck(outcomes + [outcome]) <==> outcome == Stuck)
  {
  }

  /** Item by item, skipped exactly if its own claim was alive in what the pass then saw of Redis. */
  ghost predicate SkippedIfClaimed(locks: RedisLocks, scanner: string, keys: seq<string>, outcomes: seq<Outcome>, views: seq<(Keys, nat)>) {
    && |views| == |outcomes| <= |keys|
    && forall i | 0 <= i < |outcomes| :: outcomes[i].Skipped? <==> ClaimedAlive(locks, scanner, keys[i], views[i].0, views[i].1)
  }

  lemma OneMoreSeen(locks: RedisLocks, scanner: string, keys: seq<string>, outcomes: seq<Outcome>, views: seq<(Keys, nat)>,
                    outcome: Outcome, view: (Keys, nat))
    requires SkippedIfClaimed(locks, scanner, keys, outcomes, views) && |outcomes| < |keys|
    requires outcome.Skipped? <==> ClaimedAlive(locks, scanner, keys[|outcomes|], view.0, view.1)
    ensures SkippedIfClaimed(locks, scanner, keys, outcomes + [outcome], views + [view])
  {
    hide ClaimedAlive;
  }

  function Tally(outcomes: seq<Outcome>): ScanResult {
    ScanResult(|outcomes|, Count(outcomes, Dispatched), Count(outcomes, Skipped), Count(outcomes, Failed))
  }

  lemma OneMoreTallied(outcomes: seq<Outcome>, outcome: Outcome)
    ensures var t := Tally(outcomes);
            Tally(outcomes + [outcome])
            == match outcome
               case Skipped => t.(found := t.found + 1, skipped := t.skipped + 1)
               case Dispatched => t.(found := t.found + 1, dispatched := t.dispatched + 1)
               case Failed => t.(found := t.found + 1, failed := t.failed + 1)
               case Stuck => t.(found := t.found + 1)
  {
    assert (outcomes + [outcome])[..|outcomes|] == outcomes;
  }

  /** A pass that ends of itself accounts for every item. */
  lemma TallyAddsUp(outcomes: seq<Outcome>, fates: seq<Fate>)
    requires WentAs(outcomes, fates) && !IsStuck(outcomes)
    ensures var t := Tally(outcomes); t.found == t.dispatched + t.skipped + t.failed
  {
    CountsAddUp(outcomes);
    NoneStuck(outcomes, fates);
  }

  lemma {:induction false} NoneStuck(outcomes: seq<Outcome>, fates: seq<Fate>)
    requires WentAs(outcomes, fates) && !IsStuck(outcomes)
    ensures Count(outcomes, Stuck) == 0
    decreases |outcomes|
  {
    if outcomes != [] {
      var before := outcomes[..|outcomes| - 1];
      if before != [] { assert before[|before| - 1] == outcomes[|before| - 1]; }
      NoneStuck(before, fates);
    }
  }

  /**
   One pass. The query itself may fail, and a release whose reply is lost ends the pass
   there with an error; the items before it have been dealt with.
   */
  method PerformScan(locks: RedisLocks, scanner: string, keys: Option<seq<string>>, fates: seq<Fate>, tokens: seq<string>, dedupeTtlMs: nat)
    returns (result: Option<ScanResult>, acts: seq<Act>, outcomes: seq<Outcome>, ghost views: seq<(Keys, nat)>)
    requires keys.Some? ==> |fates| == |tokens| == |keys.value|
    modifies locks.client
    ensures keys.None? ==> result == Some(ScanResult(0, 0, 0, 0)) && acts == [] && locks.client.keys == old(locks.client.keys)
    ensures keys.Some? ==> WentAs(outcomes, fates) && acts == ActsOf(keys.value[..|outcomes|], outcomes)
    ensures keys.Some? ==> SkippedIfClaimed(locks, scanner, keys.value, outcomes, views)
    ensures result.None? <==> IsStuck(outcomes)
    ensures keys.Some? && result.Some? ==> |outcomes| == |keys.value| && result.value == Tally(outcomes)
    ensures result.Some? ==> result.value.found == result.value.dispatched + result.value.skipped + result.value.failed
  {
    acts, outcomes, views := [], [], [];
    if keys.None? { return Some(ScanResult(0, 0, 0, 0)), acts, outcomes, views; }
    var items := keys.value;
    assert items[..0] == [];
    assert Done(locks, scanner, items, fates, acts, outcomes, views) && Tally(outcomes) == ScanResult(0, 0, 0, 0);
    hide *;
    var dispatched: nat, skipped: nat, failed: nat := 0, 0, 0;
    for i := 0 to |items|
      invariant |outcomes| == i && Tally(outcomes) == ScanResult(i, dispatched, skipped, failed)
      invariant Done(locks, scanner, items, fates, acts, outcomes, views) && !IsStuck(outcomes)
    {
      ghost var view := (locks.client.keys, locks.client.now);
      var done, outcome, _, _ := ScanItem(locks, scanner, items[i], fates[i], tokens[i], dedupeTtlMs);
      OneMoreTallied(outcomes, outcome);
      OneMoreDone(locks, scanner, items, fates, acts, outcomes, views, outcome, view);
      acts, outcomes, views := acts + done, outcomes + [outcome], views + [view];
      match outcome {
        case Skipped => skipped := skipped + 1;
        case Dispatched => dispatched := dispatched + 1;
        case Failed => failed := failed + 1;
        case Stuck =>
          DoneIs(locks, scanner, items, fates, acts, outcomes, views);
          return None, acts, outcomes, views;
      }
    }
    DoneIs(locks, scanner, items, fates, acts, outcomes, views);
    TallyAddsUp(outcomes, fates);
    result := Some(ScanResult(|items|, dispatched, skipped, failed));
  }

  /** So far, all of what a pass promises of its items. */
  ghost predicate Done(locks: RedisLocks, scanner: string, keys: seq<string>, fates: seq<Fate>,
                       acts: seq<Act>, outcomes: seq<Outcome>, views: seq<(Keys, nat)>) {
    && WentAs(outcomes, fates) && SkippedIfClaimed(locks, scanner, keys, outcomes, views)
    && acts == ActsOf(keys[..|outcomes|], outcomes)
  }

  lemma DoneIs(locks: RedisLocks, scanner: string, keys: seq<string>, fates: seq<Fate>,
               acts: seq<Act>, outcomes: seq<Outcome>, views: seq<(Keys, nat)>)
    requires Done(locks, scanner, keys, fates, acts, outcomes, views)
    ensures WentAs(outcomes, fates) && SkippedIfClaimed(locks, scanner, keys, outcomes, views)
    ensures |outcomes| <= |keys| && acts == ActsOf(keys[..|outcomes|], outcomes)
  {
  }

  lemma OneMoreDone(locks: RedisLocks, scanner: string, keys: seq<string>, fates: seq<Fate>,
                    acts: seq<Act>, outcomes: seq<Outcome>, views: seq<(Keys, nat)>, outcome: Outcome, view: (Keys, nat))
    requires Done(locks, scanner, keys, fates, acts, outcomes, views) && !IsStuck(outcomes) && |outcomes| < |keys| == |fates|
    requires outcome == if ClaimedAlive(locks, scanner, keys[|outcomes|], view.0, view.1) then Skipped
                        else if fates[|outcomes|].succeeds then Dispatched else if fates[|outcomes|].heard then Failed else Stuck
    ensures Done(locks, scanner, keys, fates, acts + ActsFor(keys[|outcomes|], outcome), outcomes + [outcome], views + [view])
    ensures IsStuck(outcomes + [outcome]) <==> outcome == Stuck
  {
    hide WentAs, IsStuck, SkippedIfClaimed, ActsFor, ActsOf, ClaimedAlive;
    OneMoreItem(keys, outcomes, |outcomes|, outcome);
    OneMoreWent(outcomes, outcome, fates);
    OneMoreSeen(locks, scanner, keys, outcomes, views, outcome, view);
  }

  // --- One key across every scan --------------------------------------------------------

  datatype Options = Options(windowMs: nat, dedupeTtlMs: nat)

  /** The dispatch under way, done, failed and not yet released, released, or its process gone. */
  datatype Progress = Pending | Succeeded | FailedHeld | FailedReleased | Lost

  /** A scan's claim of the key: the scan's own `now`, when the claim came, and how the dispatch went. */
  datatype Attempt = Attempt(scanNow: int, claimedAt: int, progress: Progress) {
    predicate Undone() { progress.FailedHeld? || progress.FailedReleased? }
  }

  datatype Remembered = Remembered(token: nat, until: int)

  datatype State = State(now: int, claim: Option<Remembered>, attempts: seq<Attempt>)

  datatype Step =
    | Advance(elapsed: nat)
    | Claim(scanNow: int)
    | Succeed(attempt: nat)
    | Fail(attempt: nat)
    | Release(attempt: nat)
    | Crash(attempt: nat)

  function Start(now: int): State { State(now, None, []) }

  predicate Free(s: State) {
    s.claim.None? || s.now >= s.claim.value.until
  }

  predicate Enabled(s: State, step: Step, moment: int, o: Options) {
    match step
    case Advance(_) => true
    case Claim(scanNow) => scanNow <= s.now && InWindow(moment, scanNow, o.windowMs)
    case Succeed(i) => i < |s.attempts| && s.attempts[i].progress.Pending?
    case Fail(i) => i < |s.attempts| && s.attempts[i].progress.Pending?
    case Release(i) => i < |s.attempts| && s.attempts[i].progress.FailedHeld?
    case Crash(i) => i < |s.attempts| && s.attempts[i].progress.Pending?
  }

  function Moved(s: State, i: nat, progress: Progress): State
    requires i < |s.attempts|
  {
    s.(attempts := s.attempts[i := s.attempts[i].(progress := progress)])
  }

  function Apply(s: State, step: Step, moment: int, o: Options): State
    requires Enabled(s, step, moment, o)
  {
    match step
    case Advance(elapsed) => s.(now := s.now + elapsed)
    case Claim(scanNow) =>
      if Free(s) then
        s.(claim := Some(Remembered(|s.attempts|, s.now + o.dedupeTtlMs)), attempts := s.attempts + [Attempt(scanNow, s.now, Pending)])
      else s
    case Succeed(i) => Moved(s, i, Succeeded)
    case Fail(i) => Moved(s, i, FailedHeld)
    case Release(i) =>
      Moved(s.(claim := if !Free(s) && s.claim.value.token == i then None else s.claim), i, FailedReleased)
    case Crash(i) => Moved(s, i, Lost)
  }

  ghost predicate Reaches(s: State, steps: seq<Step>, end: State, moment: int, o: Options)
    decreases |steps|
  {
    if steps == [] then end == s
    else Enabled(s, steps[0], moment, o) && Reaches(Apply(s, steps[0], moment, o), steps[1..], end, moment, o)
  }

  predicate AttemptFits(a: Attempt, now: int, moment: int, o: Options) {
    a.scanNow <= a.claimedAt <= now && InWindow(moment, a.scanNow, o.windowMs)
  }

  /** A later claim comes once the earlier one failed, or was forgotten. */
  predicate Follows(a: Attempt, later: Attempt, o: Options) {
    a.Undone() || later.claimedAt >= a.claimedAt + o.dedupeTtlMs
  }

  predicate Forgotten(a: Attempt, now: int, o: Options) {
    a.Undone() || now >= a.claimedAt + o.dedupeTtlMs
  }

  ghost predicate Inv(s: State, moment: int, o: Options) {
    var n := |s.attempts|;
    && (forall i | 0 <= i < n :: AttemptFits(s.attempts[i], s.now, moment, o))
    && (forall i, j | 0 <= i < j < n :: Follows(s.attempts[i], s.attempts[j], o))
    && (s.claim.Some? ==> n > 0 && s.claim.value == Remembered(n - 1, s.attempts[n - 1].claimedAt + o.dedupeTtlMs))
    && (forall i | 0 <= i < n && (i < n - 1 || s.claim.None?) :: Forgotten(s.attempts[i], s.now, o))
  }

  lemma StepKeeps(s: State, step: Step, moment: int, o: Options)
    requires Inv(s, moment, o) && Enabled(s, step, moment, o)
    ensures Inv(Apply(s, step, moment, o), moment, o)
  {
  }

  lemma {:induction false} RunKeeps(s: State, steps: seq<Step>, end: State, moment: int, o: Options)
    requires Inv(s, moment, o) && Reaches(s, steps, end, moment, o)
    ensures Inv(end, moment, o)
    decreases |steps|
  {
    if steps != [] {
      StepKeeps(s, steps[0], moment, o);
      RunKeeps(Apply(s, steps[0], moment, o), steps[1..], end, moment, o);
    }
  }

  /** The claim came no later after the scan's `now` than the memory outlasts the window. */
  predicate Quick(a: Attempt, o: Options) {
    a.claimedAt - a.scanNow <= o.dedupeTtlMs - o.windowMs
  }

  /** However scans overlap, crash and fail: of two claims of a key, the later quick, the earlier one failed. */
  lemma DispatchedOnce(start: int, steps: seq<Step>, end: State, i: nat, j: nat, moment: int, o: Options)
    requires Reaches(Start(start), steps, end, moment, o) && i < j < |end.attempts| && Quick(end.attempts[j], o)
    ensures end.attempts[i].Undone()
  {
    RunKeeps(Start(start), steps, end, moment, o);
    assert AttemptFits(end.attempts[i], end.now, moment, o) && AttemptFits(end.attempts[j], end.now, moment, o);
    assert Follows(end.attempts[i], end.attempts[j], o);
  }

  lemma OneMore(s: State, step: Step, steps: seq<Step>, end: State, moment: int, o: Options) returns (longer: seq<Step>)
    requires Enabled(s, step, moment, o) && Reaches(Apply(s, step, moment, o), steps, end, moment, o)
    ensures longer == [step] + steps && Reaches(s, longer, end, moment, o)
  {
    longer := [step] + steps;
    assert longer[1..] == steps;
  }

  /**
   The bound is tight: with any window and any memory, a second claim one millisecond
   past it, or no later than its scan when the memory is shorter than the window,
   dispatches the key again.
   */
  lemma SlowClaimDispatchesAgain(moment: int, o: Options) returns (start: int, steps: seq<Step>, end: State)
    requires o.windowMs > 0
    ensures Reaches(Start(start), steps, end, moment, o)
    ensures |end.attempts| == 2 && end.attempts[0].progress.Succeeded? && end.attempts[1].progress.Succeeded?
    ensures var late := end.attempts[1].claimedAt - end.attempts[1].scanNow;
            late == if o.dedupeTtlMs >= o.windowMs then o.dedupeTtlMs - o.windowMs + 1 else 0
  {
    start := moment - o.windowMs + 1;
    var later := start + o.dedupeTtlMs;
    var scan := if o.dedupeTtlMs >= o.windowMs then moment else later;
    var first, second := Attempt(start, start, Succeeded), Attempt(scan, later, Succeeded);
    var s1 := State(start, Some(Remembered(0, later)), [Attempt(start, start, Pending)]);
    var s2 := State(start, s1.claim, [first]);
    var s3 := State(later, s1.claim, [first]);
    var s4 := State(later, Some(Remembered(1, later + o.dedupeTtlMs)), [first, Attempt(scan, later, Pending)]);
    end := State(later, s4.claim, [first, second]);
    assert Apply(Start(start), Claim(start), moment, o) == s1 && Apply(s1, Succeed(0), moment, o) == s2;
    assert Apply(s2, Advance(o.dedupeTtlMs), moment, o) == s3 && Apply(s3, Claim(scan), moment, o) == s4;
    assert Apply(s4, Succeed(1), moment, o) == end;
    steps := OneMore(s4, Succeed(1), [], end, moment, o);
    steps := OneMore(s3, Claim(scan), steps, end, moment, o);
    steps := OneMore(s2, Advance(o.dedupeTtlMs), steps, end, moment, o);
    steps := OneMore(s1, Succeed(0), steps, end, moment, o);
    steps := OneMore(Start(start), Claim(start), steps, end, moment, o);
  }
}
