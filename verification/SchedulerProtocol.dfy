module SchedulerProtocol {
  /**
   One recurring task across any number of replicas: ticks take the task's lock, claim the
   interval they fell in, run, and release. Replicas stop anywhere, replies are lost, locks
   expire under their holders, and releases come late. Each script is one step.
   */

  import Numbers
  import opened Wrappers

  datatype Task = Task(intervalMs: nat, lockTtlMs: nat)

  type Valid = t: Task | t.intervalMs > 0 witness Task(1, 3)

  /** Where the tick that took the lock has got to; it is over too when its process has stopped. */
  datatype Stage = Locked | Running | Releasing | Over

  /** A lock taken by a tick of `interval`, and the run under it if it came to one. */
  datatype Hold = Hold(interval: nat, lockedAt: nat, stage: Stage, start: Option<nat>, end: Option<nat>) {
    /** Nothing under it is running or will start. */
    predicate Done() { stage.Releasing? || stage.Over? }
  }

  /** The lock's token is the number of its hold: no two ticks share one. */
  datatype Lock = Lock(token: nat, expiresAt: nat)

  datatype State = State(now: nat, lock: Option<Lock>, claims: map<nat, nat>, holds: seq<Hold>)

  datatype Step =
    | Advance(elapsed: nat)
    | TakeLock(interval: nat, heard: bool)
    | Claim(hold: nat, heard: bool)
    | Finish(hold: nat)
    | Release(hold: nat)
    | Crash(hold: nat)

  const START := State(0, None, map[], [])

  /** Intervals are counted from the epoch. */
  function IntervalAt(now: nat, task: Valid): nat {
    now / task.intervalMs
  }

  function StartOf(interval: nat, task: Valid): nat {
    interval * task.intervalMs
  }

  predicate LockFree(s: State) {
    s.lock.None? || s.now >= s.lock.value.expiresAt
  }

  predicate ClaimFree(s: State, interval: nat) {
    interval !in s.claims || s.now >= s.claims[interval]
  }

  /** A tick takes the lock for the interval it fired in, this one or an earlier. */
  predicate Enabled(s: State, step: Step, task: Valid) {
    match step
    case Advance(_) => true
    case TakeLock(interval, _) => StartOf(interval, task) <= s.now
    case Claim(h, _) => h < |s.holds| && s.holds[h].stage.Locked?
    case Finish(h) => h < |s.holds| && s.holds[h].stage.Running?
    case Release(h) => h < |s.holds| && s.holds[h].stage.Releasing?
    case Crash(h) => h < |s.holds|
  }

  function Ended(h: Hold, now: nat, stage: Stage): Hold {
    h.(stage := stage, end := if h.stage.Running? then Some(now) else h.end)
  }

  function Apply(s: State, step: Step, task: Valid): State
    requires Enabled(s, step, task)
  {
    match step
    case Advance(elapsed) => s.(now := s.now + elapsed)
    case TakeLock(interval, heard) =>
      if LockFree(s) then
        s.(lock := Some(Lock(|s.holds|, s.now + task.lockTtlMs)),
           holds := s.holds + [Hold(interval, s.now, if heard then Locked else Over, None, None)])
      else s
    case Claim(h, heard) =>
      var hold := s.holds[h];
      if ClaimFree(s, hold.interval) then
        s.(claims := s.claims[hold.interval := s.now + 2 * task.intervalMs],
           holds := s.holds[h := if heard then hold.(stage := Running, start := Some(s.now)) else hold.(stage := Releasing)])
      else s.(holds := s.holds[h := hold.(stage := Releasing)])
    case Finish(h) => s.(holds := s.holds[h := Ended(s.holds[h], s.now, Releasing)])
    case Release(h) =>
      s.(lock := if !LockFree(s) && s.lock.value.token == h then None else s.lock,
         holds := s.holds[h := s.holds[h].(stage := Over)])
    case Crash(h) => s.(holds := s.holds[h := Ended(s.holds[h], s.now, Over)])
  }

  ghost predicate Reaches(s: State, steps: seq<Step>, end: State, task: Valid)
    decreases |steps|
  {
    if steps == [] then end == s
    else Enabled(s, steps[0], task) && Reaches(Apply(s, steps[0], task), steps[1..], end, task)
  }

  // --- What every step keeps --------------------------------------------------------------

  predicate HoldFits(h: Hold, now: nat, task: Valid) {
    && StartOf(h.interval, task) <= h.lockedAt <= now
    && (h.stage.Locked? ==> h.start.None?)
    && (h.start.Some? ==> h.lockedAt <= h.start.value <= now)
    && (h.end.Some? ==> h.start.Some? && h.start.value <= h.end.value <= now)
    && (h.stage.Running? <==> h.start.Some? && h.end.None?)
  }

  ghost predicate HoldsFit(s: State, task: Valid) {
    forall i | 0 <= i < |s.holds| :: HoldFits(s.holds[i], s.now, task)
  }

  /** Of two holds the earlier was done, or out of time, when the later began. */
  predicate Before(h: Hold, later: Hold, task: Valid) {
    || later.lockedAt >= h.lockedAt + task.lockTtlMs
    || (h.Done() && (h.end.Some? ==> h.end.value <= later.lockedAt))
  }

  ghost predicate Apart(s: State, task: Valid) {
    forall i, j | 0 <= i < j < |s.holds| :: Before(s.holds[i], s.holds[j], task)
  }

  /** The hold is done or out of time. */
  predicate Past(h: Hold, now: nat, task: Valid) {
    h.Done() || now >= h.lockedAt + task.lockTtlMs
  }

  /** The lock is the last taker's until that is done or its time is up. */
  ghost predicate LockFits(s: State, task: Valid) {
    var n := |s.holds|;
    && (s.lock.Some? ==> n > 0 && s.lock.value == Lock(n - 1, s.holds[n - 1].lockedAt + task.lockTtlMs))
    && (forall i | 0 <= i < n && (i < n - 1 || s.lock.None?) :: Past(s.holds[i], s.now, task))
  }

  ghost predicate ClaimsFit(s: State, task: Valid) {
    forall i | 0 <= i < |s.holds| && s.holds[i].start.Some? ::
      s.holds[i].interval in s.claims && s.claims[s.holds[i].interval] >= s.holds[i].start.value + 2 * task.intervalMs
  }

  /** Two runs of one interval start at least two intervals apart. */
  predicate FarApart(h: Hold, other: Hold, task: Valid) {
    h.start.Some? && other.start.Some? && h.interval == other.interval ==>
      || h.start.value >= other.start.value + 2 * task.intervalMs
      || other.start.value >= h.start.value + 2 * task.intervalMs
  }

  ghost predicate RunsFarApart(s: State, task: Valid) {
    forall i, j | 0 <= i < j < |s.holds| :: FarApart(s.holds[i], s.holds[j], task)
  }

  ghost predicate Inv(s: State, task: Valid) {
    HoldsFit(s, task) && Apart(s, task) && LockFits(s, task) && ClaimsFit(s, task) && RunsFarApart(s, task)
  }

  lemma LockingKeeps(s: State, step: Step, task: Valid)
    requires Inv(s, task) && Enabled(s, step, task) && (step.Advance? || step.TakeLock?)
    ensures Inv(Apply(s, step, task), task)
  {
    hide StartOf;
  }

  lemma ClaimKeeps(s: State, h: nat, heard: bool, task: Valid)
    requires Inv(s, task) && Enabled(s, Claim(h, heard), task)
    ensures Inv(Apply(s, Claim(h, heard), task), task)
  {
    hide StartOf, HoldsFit, Apart, LockFits, ClaimsFit, RunsFarApart;
    ClaimKeepsLocks(s, h, heard, task);
    ClaimKeepsClaims(s, h, heard, task);
  }

  lemma ClaimKeepsLocks(s: State, h: nat, heard: bool, task: Valid)
    requires Inv(s, task) && Enabled(s, Claim(h, heard), task)
    ensures var s' := Apply(s, Claim(h, heard), task); HoldsFit(s', task) && Apart(s', task) && LockFits(s', task)
  {
    hide StartOf, ClaimsFit, RunsFarApart;
  }

  lemma ClaimKeepsClaims(s: State, h: nat, heard: bool, task: Valid)
    requires Inv(s, task) && Enabled(s, Claim(h, heard), task)
    ensures var s' := Apply(s, Claim(h, heard), task); ClaimsFit(s', task) && RunsFarApart(s', task)
  {
    hide StartOf, Apart, LockFits;
  }

  lemma EndKeeps(s: State, step: Step, task: Valid)
    requires Inv(s, task) && Enabled(s, step, task) && (step.Finish? || step.Crash?)
    ensures Inv(Apply(s, step, task), task)
  {
    hide StartOf, HoldsFit, Apart, LockFits, ClaimsFit, RunsFarApart;
    EndKeepsLocks(s, step, task);
    EndKeepsClaims(s, step, task);
  }

  lemma EndKeepsLocks(s: State, step: Step, task: Valid)
    requires Inv(s, task) && Enabled(s, step, task) && (step.Finish? || step.Crash?)
    ensures var s' := Apply(s, step, task); HoldsFit(s', task) && Apart(s', task) && LockFits(s', task)
  {
    hide StartOf, ClaimsFit, RunsFarApart;
  }

  lemma EndKeepsClaims(s: State, step: Step, task: Valid)
    requires Inv(s, task) && Enabled(s, step, task) && (step.Finish? || step.Crash?)
    ensures var s' := Apply(s, step, task); ClaimsFit(s', task) && RunsFarApart(s', task)
  {
    hide StartOf, Apart, LockFits;
  }

  lemma ReleaseKeeps(s: State, h: nat, task: Valid)
    requires Inv(s, task) && Enabled(s, Release(h), task)
    ensures Inv(Apply(s, Release(h), task), task)
  {
    hide StartOf;
  }

  lemma StepKeeps(s: State, step: Step, task: Valid)
    requires Inv(s, task) && Enabled(s, step, task)
    ensures Inv(Apply(s, step, task), task)
  {
    match step
    case Claim(h, heard) => ClaimKeeps(s, h, heard, task);
    case Advance(_) => LockingKeeps(s, step, task);
    case TakeLock(_, _) => LockingKeeps(s, step, task);
    case Release(h) => ReleaseKeeps(s, h, task);
    case _ => EndKeeps(s, step, task);
  }

  lemma {:induction false} RunKeeps(s: State, steps: seq<Step>, end: State, task: Valid)
    requires Inv(s, task) && Reaches(s, steps, end, task)
    ensures Inv(end, task)
    decreases |steps|
  {
    if steps != [] {
      StepKeeps(s, steps[0], task);
      RunKeeps(Apply(s, steps[0], task), steps[1..], end, task);
    }
  }

  // --- The guarantees ---------------------------------------------------------------------

  /** Whatever happens, two runs of one interval start two intervals apart or more. */
  lemma SameIntervalRunsAreFarApart(steps: seq<Step>, end: State, i: nat, j: nat, task: Valid)
    requires Reaches(START, steps, end, task) && i < j < |end.holds|
    ensures FarApart(end.holds[i], end.holds[j], task)
  {
    RunKeeps(START, steps, end, task);
  }

  /** The claim reached Redis less than an interval after its interval ended. */
  predicate Prompt(h: Hold, task: Valid) {
    h.start.Some? ==> h.start.value < StartOf(h.interval + 2, task)
  }

  lemma StartsAdd(interval: nat, task: Valid)
    ensures StartOf(interval + 2, task) == StartOf(interval, task) + 2 * task.intervalMs
  {
  }

  /** Each interval runs once, if every claim of it is prompt. */
  lemma OncePerInterval(steps: seq<Step>, end: State, i: nat, j: nat, task: Valid)
    requires Reaches(START, steps, end, task) && i < j < |end.holds|
    requires Prompt(end.holds[i], task) && Prompt(end.holds[j], task)
    requires end.holds[i].start.Some? && end.holds[j].start.Some?
    ensures end.holds[i].interval != end.holds[j].interval
  {
    RunKeeps(START, steps, end, task);
    StartsAdd(end.holds[i].interval, task);
    assert HoldFits(end.holds[i], end.now, task) && HoldFits(end.holds[j], end.now, task);
  }

  function TakenAt(interval: nat, now: nat): Hold { Hold(interval, now, Locked, None, None) }

  function RanAt(interval: nat, now: nat, stage: Stage, end: Option<nat>): Hold { Hold(interval, now, stage, Some(now), end) }

  /** The bound is tight: of any interval of any task, a claim that comes as its third begins runs it again. */
  lemma LateClaimRunsAgain(interval: nat, task: Valid) returns (steps: seq<Step>, end: State)
    ensures Reaches(START, steps, end, task) && |end.holds| == 2
    ensures end.holds[0].interval == end.holds[1].interval == interval
    ensures end.holds[0].start.Some? && end.holds[1].start == Some(StartOf(interval + 2, task))
  {
    hide StartOf;
    StartsAdd(interval, task);
    var t, later := StartOf(interval, task), StartOf(interval + 2, task);
    var claims, lock := map[interval := later], Some(Lock(0, t + task.lockTtlMs));
    var over := RanAt(interval, t, Over, Some(t));
    var s3 := State(t, lock, claims, [RanAt(interval, t, Running, None)]);
    var s5 := State(t, if task.lockTtlMs == 0 then lock else None, claims, [over]);
    var s7 := State(later, Some(Lock(1, later + task.lockTtlMs)), claims, [over, TakenAt(interval, later)]);
    end := Apply(s7, Claim(1, true), task);
    steps := OneMore(s7, Claim(1, true), [], end, task);
    steps := SecondTakes(s5, interval, later, steps, end, task);
    steps := FirstEnds(s3, interval, t, s5, steps, end, task);
    steps := FirstRuns(interval, t, s3, steps, end, task);
  }

  lemma FirstRuns(interval: nat, t: nat, running: State, steps: seq<Step>, end: State, task: Valid) returns (longer: seq<Step>)
    requires t == StartOf(interval, task) && Reaches(running, steps, end, task)
    requires running == State(t, Some(Lock(0, t + task.lockTtlMs)), map[interval := t + 2 * task.intervalMs],
                              [RanAt(interval, t, Running, None)])
    ensures Reaches(START, longer, end, task)
  {
    hide StartOf;
    var taken := State(t, running.lock, map[], [TakenAt(interval, t)]);
    OnlyReplaced(TakenAt(interval, t), RanAt(interval, t, Running, None));
    assert [] + [TakenAt(interval, t)] == taken.holds;
    longer := OneMore(taken, Claim(0, true), steps, end, task);
    longer := OneMore(START.(now := t), TakeLock(interval, true), longer, end, task);
    longer := OneMore(START, Advance(t), longer, end, task);
  }

  lemma FirstEnds(running: State, interval: nat, t: nat, ended: State, steps: seq<Step>, end: State, task: Valid) returns (longer: seq<Step>)
    requires running.now == t && running.lock == Some(Lock(0, t + task.lockTtlMs)) && running.holds == [RanAt(interval, t, Running, None)]
    requires ended == running.(lock := if task.lockTtlMs == 0 then running.lock else None, holds := [RanAt(interval, t, Over, Some(t))])
    requires Reaches(ended, steps, end, task)
    ensures Reaches(running, longer, end, task)
  {
    hide StartOf;
    var releasing := running.(holds := [RanAt(interval, t, Releasing, Some(t))]);
    OnlyReplaced(running.holds[0], releasing.holds[0]);
    OnlyReplaced(releasing.holds[0], ended.holds[0]);
    longer := OneMore(releasing, Release(0), steps, end, task);
    longer := OneMore(running, Finish(0), longer, end, task);
  }

  lemma SecondTakes(s: State, interval: nat, later: nat, steps: seq<Step>, end: State, task: Valid) returns (longer: seq<Step>)
    requires s.now <= later && (s.lock.Some? ==> s.lock.value.expiresAt <= later) && |s.holds| == 1 && StartOf(interval, task) <= later
    requires Reaches(State(later, Some(Lock(1, later + task.lockTtlMs)), s.claims, [s.holds[0], TakenAt(interval, later)]), steps, end, task)
    ensures Reaches(s, longer, end, task)
  {
    hide StartOf;
    assert [s.holds[0], TakenAt(interval, later)] == s.holds + [TakenAt(interval, later)];
    longer := OneMore(s.(now := later), TakeLock(interval, true), steps, end, task);
    longer := OneMore(s, Advance(later - s.now), longer, end, task);
  }

  lemma OnlyReplaced(h: Hold, other: Hold)
    ensures [h][0 := other] == [other]
  {
  }

  lemma OneMore(s: State, step: Step, steps: seq<Step>, end: State, task: Valid) returns (longer: seq<Step>)
    requires Enabled(s, step, task) && Reaches(Apply(s, step, task), steps, end, task)
    ensures longer == [step] + steps && Reaches(s, longer, end, task)
  {
    longer := [step] + steps;
    assert longer[1..] == steps;
  }

  /** Nothing of the hold goes on past its lock's time. */
  predicate InTime(h: Hold, now: nat, task: Valid) {
    (if h.end.Some? then h.end.value else now) < h.lockedAt + task.lockTtlMs
  }

  /**
   Two runs never overlap if the one that locked first ends before its lock would expire,
   however late locks are released and whatever the other runs do.
   */
  lemma RunsDoNotOverlap(steps: seq<Step>, end: State, i: nat, j: nat, task: Valid)
    requires Reaches(START, steps, end, task) && i < j < |end.holds|
    requires end.holds[i].start.Some? && end.holds[j].start.Some? && InTime(end.holds[i], end.now, task)
    ensures end.holds[i].end.Some? && end.holds[i].end.value <= end.holds[j].start.value
  {
    RunKeeps(START, steps, end, task);
    assert Before(end.holds[i], end.holds[j], task);
    assert HoldFits(end.holds[i], end.now, task) && HoldFits(end.holds[j], end.now, task);
  }

  /** While the last tick to take the lock runs, another may take it if and only if its time has passed, counted from the taking. */
  lemma JoinableIff(steps: seq<Step>, s: State, task: Valid)
    requires Reaches(START, steps, s, task) && s.holds != [] && !s.holds[|s.holds| - 1].Done()
    ensures LockFree(s) <==> s.now >= s.holds[|s.holds| - 1].lockedAt + task.lockTtlMs
  {
    RunKeeps(START, steps, s, task);
    assert Past(s.holds[|s.holds| - 1], s.now, task) <==> s.now >= s.holds[|s.holds| - 1].lockedAt + task.lockTtlMs;
  }

  /**
   The time counts from the taking of the lock and not from the run's start: of any task
   with time to its lock, a run may be shorter than the lock and still be joined by another.
   */
  lemma SlowClaimOverlaps(task: Valid) returns (steps: seq<Step>, end: State)
    requires task.lockTtlMs > 0
    ensures Reaches(START, steps, end, task) && |end.holds| == 2
    ensures end.holds[0].start.Some? && end.now - end.holds[0].start.value < task.lockTtlMs
    ensures end.holds[0].stage.Running? && end.holds[1].stage.Running?
  {
    hide StartOf, Reaches;
    FirstStarts(task);
    var late := if task.lockTtlMs > task.intervalMs then task.lockTtlMs else task.intervalMs;
    var taken := State(0, Some(Lock(0, task.lockTtlMs)), map[], [TakenAt(0, 0)]);
    var slow := Hold(0, 0, Running, Some(late), None);
    var running := State(late, taken.lock, map[0 := late + 2 * task.intervalMs], [slow]);
    steps, end := AnotherJoins(running, slow, task);
    OnlyReplaced(TakenAt(0, 0), slow);
    assert [] + [TakenAt(0, 0)] == taken.holds;
    steps := OneMore(taken.(now := late), Claim(0, true), steps, end, task);
    steps := OneMore(taken, Advance(late), steps, end, task);
    steps := OneMore(START, TakeLock(0, true), steps, end, task);
  }

  /** Once the lock's time has passed a tick of the next interval takes it, claims and runs. */
  lemma AnotherJoins(s: State, slow: Hold, task: Valid) returns (steps: seq<Step>, end: State)
    requires s.holds == [slow] && slow.stage.Running? && LockFree(s) && 1 !in s.claims && StartOf(1, task) <= s.now
    ensures Reaches(s, steps, end, task) && end.now == s.now
    ensures |end.holds| == 2 && end.holds[0] == slow && end.holds[1].stage.Running?
  {
    hide StartOf, Reaches;
    var joined := s.(lock := Some(Lock(1, s.now + task.lockTtlMs)), holds := [slow, TakenAt(1, s.now)]);
    assert s.holds + [TakenAt(1, s.now)] == joined.holds;
    end := Apply(joined, Claim(1, true), task);
    NoStep(end, task);
    steps := OneMore(joined, Claim(1, true), [], end, task);
    steps := OneMore(s, TakeLock(1, true), steps, end, task);
  }

  lemma NoStep(s: State, task: Valid)
    ensures Reaches(s, [], s, task)
  {
  }

  lemma FirstStarts(task: Valid)
    ensures StartOf(0, task) == 0 && StartOf(1, task) == task.intervalMs
  {
  }

  // --- What a tick comes to -----------------------------------------------------------------

  lemma {:induction false} LastStep(s: State, steps: seq<Step>, end: State, task: Valid) returns (mid: State)
    requires steps != [] && Reaches(s, steps, end, task)
    ensures var last := |steps| - 1;
            Reaches(s, steps[..last], mid, task) && Enabled(mid, steps[last], task) && end == Apply(mid, steps[last], task)
    decreases |steps|
  {
    hide Enabled, Apply;
    if |steps| == 1 {
      mid := s;
    } else {
      var rest := steps[1..];
      mid := LastStep(Apply(s, steps[0], task), rest, end, task);
      assert steps[..|steps| - 1] == [steps[0]] + rest[..|rest| - 1];
      assert ([steps[0]] + rest[..|rest| - 1])[1..] == rest[..|rest| - 1];
    }
  }

  /** The last lock taken was given back, or its time is up. */
  predicate LockGone(steps: seq<Step>, s: State, task: Valid) {
    var n := |s.holds|;
    n == 0 || Release(n - 1) in steps || s.now >= s.holds[n - 1].lockedAt + task.lockTtlMs
  }

  predicate ReleasesKnown(steps: seq<Step>, s: State) {
    forall step | step in steps && step.Release? :: step.hold < |s.holds|
  }

  lemma LockStep(before: seq<Step>, s: State, step: Step, task: Valid)
    requires LockFits(s, task) && Enabled(s, step, task)
    requires ReleasesKnown(before, s) && (LockFree(s) <==> LockGone(before, s, task))
    ensures var s', steps := Apply(s, step, task), before + [step];
            LockFits(s', task) ==> ReleasesKnown(steps, s') && (LockFree(s') <==> LockGone(steps, s', task))
  {
    hide StartOf, ClaimFree;
  }

  /** The lock is free exactly when whoever took it last gave it back, or took it long enough ago. */
  lemma {:induction false} LockFreeIff(steps: seq<Step>, s: State, task: Valid)
    requires Reaches(START, steps, s, task)
    ensures LockFree(s) <==> LockGone(steps, s, task)
    ensures ReleasesKnown(steps, s)
    decreases |steps|
  {
    hide Apply, Enabled, Reaches, ReleasesKnown, LockFree, LockGone, HoldsFit, Apart, LockFits, ClaimsFit, RunsFarApart;
    if steps == [] {
      LockFreeAtFirst(s, task);
    } else {
      var before, step := steps[..|steps| - 1], steps[|steps| - 1];
      var mid := LastStep(START, steps, s, task);
      LockFreeIff(before, mid, task);
      StartsFitting(task);
      RunKeeps(START, before, mid, task);
      StepKeeps(mid, step, task);
      LockStep(before, mid, step, task);
      assert steps == before + [step];
    }
  }

  lemma StartsFitting(task: Valid)
    ensures Inv(START, task)
  {
  }

  lemma LockFreeAtFirst(s: State, task: Valid)
    requires Reaches(START, [], s, task)
    ensures LockFree(s) && LockGone([], s, task) && ReleasesKnown([], s)
  {
  }

  /** That step of the run claimed the interval, at that moment, finding no claim of it alive. */
  ghost predicate Claimed(steps: seq<Step>, k: nat, interval: nat, at: nat, task: Valid) {
    && k < |steps| && steps[k].Claim?
    && exists s: State :: s.now == at && Claims(steps[..k], s, steps[k].hold, interval, task)
  }

  ghost predicate Claims(steps: seq<Step>, s: State, h: nat, interval: nat, task: Valid) {
    Reaches(START, steps, s, task) && h < |s.holds| && s.holds[h].interval == interval && ClaimFree(s, interval)
  }

  /** Claimed less than two intervals ago. */
  ghost predicate ClaimStands(steps: seq<Step>, interval: nat, now: nat, task: Valid) {
    exists k: nat, at: nat :: Claimed(steps, k, interval, at, task) && now < at + 2 * task.intervalMs
  }

  /** A claim lasts two intervals from when some step of the run made it. */
  ghost predicate ClaimComesFrom(steps: seq<Step>, s: State, interval: nat, task: Valid) {
    interval in s.claims ==>
      exists k: nat, at: nat :: Claimed(steps, k, interval, at, task) && s.claims[interval] == at + 2 * task.intervalMs
  }

  lemma {:induction false} ClaimsComeFrom(steps: seq<Step>, s: State, interval: nat, task: Valid)
    requires Reaches(START, steps, s, task)
    ensures ClaimComesFrom(steps, s, interval, task)
    decreases |steps|
  {
    hide Reaches, Claimed, Enabled, LockFree, ClaimFree;
    if steps == [] {
      NothingClaimed(s, interval, task);
    } else {
      var last := |steps| - 1;
      var mid := LastStep(START, steps, s, task);
      ClaimsComeFrom(steps[..last], mid, interval, task);
      if interval in s.claims {
        if interval in mid.claims && mid.claims[interval] == s.claims[interval] {
          var k: nat, at: nat :| Claimed(steps[..last], k, interval, at, task) && s.claims[interval] == at + 2 * task.intervalMs;
          ClaimedBefore(steps, last, k, interval, at, task);
        } else {
          ClaimedLast(steps, mid, interval, task);
        }
      }
    }
  }

  lemma NothingClaimed(s: State, interval: nat, task: Valid)
    requires Reaches(START, [], s, task)
    ensures s.claims == map[]
  {
  }

  lemma ClaimedBefore(steps: seq<Step>, n: nat, k: nat, interval: nat, at: nat, task: Valid)
    requires n <= |steps|
    ensures Claimed(steps[..n], k, interval, at, task) <==> k < n && Claimed(steps, k, interval, at, task)
  {
    hide Claims;
    assert k < n ==> steps[..n][..k] == steps[..k];
  }

  lemma ClaimedLast(steps: seq<Step>, mid: State, interval: nat, task: Valid)
    requires steps != [] && Reaches(START, steps[..|steps| - 1], mid, task) && Enabled(mid, steps[|steps| - 1], task)
    requires var s := Apply(mid, steps[|steps| - 1], task);
             interval in s.claims && !(interval in mid.claims && mid.claims[interval] == s.claims[interval])
    ensures Claimed(steps, |steps| - 1, interval, mid.now, task)
    ensures Apply(mid, steps[|steps| - 1], task).claims[interval] == mid.now + 2 * task.intervalMs
  {
    hide Reaches, LockFree;
    var step := steps[|steps| - 1];
    assert step.Claim?;
    assert Claims(steps[..|steps| - 1], mid, step.hold, interval, task);
  }

  /** A claim made is still there, or one made later: for two intervals at least. */
  lemma {:induction false} ClaimLasts(steps: seq<Step>, s: State, k: nat, interval: nat, at: nat, task: Valid)
    requires Reaches(START, steps, s, task) && Claimed(steps, k, interval, at, task)
    ensures interval in s.claims && s.claims[interval] >= at + 2 * task.intervalMs && s.now >= at
    decreases |steps|
  {
    hide Reaches, LockFree, Claims;
    var last := |steps| - 1;
    var mid := LastStep(START, steps, s, task);
    if k < last {
      ClaimedBefore(steps, last, k, interval, at, task);
      ClaimLasts(steps[..last], mid, k, interval, at, task);
    } else {
      var was: State :| was.now == at && Claims(steps[..k], was, steps[k].hold, interval, task);
      ClaimsReach(steps[..k], was, steps[k].hold, interval, task);
      OneEnd(START, steps[..k], was, mid, task);
    }
  }

  lemma ClaimsReach(steps: seq<Step>, s: State, h: nat, interval: nat, task: Valid)
    requires Claims(steps, s, h, interval, task)
    ensures Reaches(START, steps, s, task) && h < |s.holds| && s.holds[h].interval == interval && ClaimFree(s, interval)
  {
  }

  lemma {:induction false} OneEnd(s: State, steps: seq<Step>, end: State, other: State, task: Valid)
    requires Reaches(s, steps, end, task) && Reaches(s, steps, other, task)
    ensures end == other
    decreases |steps|
  {
    hide Apply, Enabled;
    if steps != [] { OneEnd(Apply(s, steps[0], task), steps[1..], end, other, task); }
  }

  lemma ClaimFreeIff(steps: seq<Step>, s: State, interval: nat, task: Valid)
    requires Reaches(START, steps, s, task)
    ensures ClaimFree(s, interval) <==> !ClaimStands(steps, interval, s.now, task)
  {
    hide Reaches, Claimed;
    ClaimsComeFrom(steps, s, interval, task);
    forall k: nat, at: nat | Claimed(steps, k, interval, at, task)
      ensures interval in s.claims && s.claims[interval] >= at + 2 * task.intervalMs
    {
      ClaimLasts(steps, s, k, interval, at, task);
    }
  }

  /** What a tick does that nothing stops on its way: it takes the lock, and claims. */
  function Tick(s: State, interval: nat): seq<Step> {
    [TakeLock(interval, true), Claim(|s.holds|, true)]
  }

  /** A run of the interval has just started. */
  ghost predicate RunsNow(s: State, interval: nat, task: Valid) {
    exists end: State ::
      && Reaches(s, Tick(s, interval), end, task)
      && |end.holds| == |s.holds| + 1
      && end.holds[|s.holds|] == Hold(interval, s.now, Running, Some(s.now), None)
  }

  /**
   After anything that can happen, a tick that nothing stops runs its interval if and only
   if whoever took the lock last gave it back, or its time is up, and nobody claimed the
   interval in the last two.
   */
  lemma TickRunsIff(steps: seq<Step>, s: State, interval: nat, task: Valid)
    requires Reaches(START, steps, s, task) && StartOf(interval, task) <= s.now
    ensures RunsNow(s, interval, task) <==> LockGone(steps, s, task) && !ClaimStands(steps, interval, s.now, task)
  {
    hide Reaches, StartOf, LockGone, ClaimStands;
    LockFreeIff(steps, s, task);
    ClaimFreeIff(steps, s, interval, task);
    TicksTo(s, interval, task);
  }

  lemma TicksTo(s: State, interval: nat, task: Valid)
    requires StartOf(interval, task) <= s.now
    ensures RunsNow(s, interval, task) <==> LockFree(s) && ClaimFree(s, interval)
  {
    hide StartOf, Reaches, LockFree, ClaimFree;
    var n := |s.holds|;
    var taken := Apply(s, TakeLock(interval, true), task);
    if LockFree(s) {
      var claimed := Apply(taken, Claim(n, true), task);
      NoStep(claimed, task);
      var steps := OneMore(taken, Claim(n, true), [], claimed, task);
      steps := OneMore(s, TakeLock(interval, true), steps, claimed, task);
      assert steps == Tick(s, interval);
      forall end: State | Reaches(s, Tick(s, interval), end, task) ensures end == claimed {
        OneEnd(s, Tick(s, interval), end, claimed, task);
      }
      assert ClaimFree(taken, interval) <==> ClaimFree(s, interval) by { SameClaims(s, taken, interval); }
    } else {
      forall end: State | Reaches(s, Tick(s, interval), end, task) ensures false {
        CannotClaim(s, interval, end, task);
      }
    }
  }

  lemma SameClaims(s: State, other: State, interval: nat)
    requires s.claims == other.claims && s.now == other.now
    ensures ClaimFree(s, interval) <==> ClaimFree(other, interval)
  {
  }

  lemma CannotClaim(s: State, interval: nat, end: State, task: Valid)
    requires Reaches(s, Tick(s, interval), end, task)
    ensures LockFree(s)
  {
    assert Tick(s, interval)[1..][0] == Claim(|s.holds|, true);
  }

  // --- When ticks come --------------------------------------------------------------------

  /** Where the timer set at `now` is set for: the next interval's start. */
  function NextTick(now: nat, task: Valid): nat {
    StartOf(IntervalAt(now, task) + 1, task)
  }

  /**
   The timer is never set for now nor for more than an interval ahead, and its tick falls
   in the very next interval if and only if it comes less than an interval late (a tick a
   moment early falls in the interval it was set in, and is set again for the same start).
   */
  lemma TicksIntervalByInterval(now: nat, fired: nat, task: Valid)
    ensures now < NextTick(now, task) <= now + task.intervalMs && NextTick(now, task) % task.intervalMs == 0
    ensures IntervalAt(fired, task) == IntervalAt(now, task) + 1 <==>
              NextTick(now, task) <= fired < NextTick(now, task) + task.intervalMs
    ensures now <= fired < NextTick(now, task) ==> NextTick(fired, task) == NextTick(now, task)
  {
    hide IntervalAt, StartOf;
    IntervalHolds(now, task);
    IntervalHolds(fired, task);
    var k, m := IntervalAt(now, task), IntervalAt(fired, task);
    NextStart(k, task);
    NextStart(k + 1, task);
    StartsOnWholes(k + 1, task);
    NextStart(m, task);
    StartsInOrder(k + 1, m, task);
    StartsInOrder(m + 1, k + 1, task);
    StartsInOrder(m + 1, k, task);
    StartsInOrder(k + 2, m, task);
  }

  lemma IntervalHolds(now: nat, task: Valid)
    ensures StartOf(IntervalAt(now, task), task) <= now < StartOf(IntervalAt(now, task) + 1, task)
  {
  }

  lemma StartsOnWholes(interval: nat, task: Valid)
    ensures StartOf(interval, task) % task.intervalMs == 0
  {
    Numbers.QuotientIs(StartOf(interval, task), task.intervalMs, interval, 0);
  }

  lemma NextStart(interval: nat, task: Valid)
    ensures StartOf(interval + 1, task) == StartOf(interval, task) + task.intervalMs
  {
  }

  lemma StartsInOrder(a: nat, b: nat, task: Valid)
    ensures a <= b ==> StartOf(a, task) <= StartOf(b, task)
  {
    if a <= b { assert (b - a) * task.intervalMs >= 0; }
  }
}
