module Scheduler {
  /** One replica's timers and runs under way. */

  import opened Wrappers
  import opened SchedulerProtocol
  import opened Texts

  datatype RegisterError = AlreadyRegistered | NotAWholeInterval

  class TaskScheduler {
    /** When each task's timer was set, and how often it ticks. */
    var timers: map<string, Timer>
    /** Each task's runs under way. */
    var running: map<string, set<nat>>
    var runs: nat

    /** Runs are numbered as they start, so no two share a number. */
    ghost predicate Valid()
      reads this
    {
      forall name, run | name in running && run in running[name] :: run < runs
    }

    constructor ()
      ensures Valid() && timers == map[] && running == map[]
    {
      timers, running, runs := map[], map[], 0;
    }

    method Arm(name: string, task: Valid, now: nat)
      modifies this`timers
      ensures timers == old(timers)[name := Timer(task, NextTick(now, task))]
    {
      timers := timers[name := Timer(task, NextTick(now, task))];
    }

    method Begin(name: string) returns (run: nat)
      requires Valid()
      modifies this`running, this`runs
      ensures Valid() && run == old(runs) && runs == run + 1
      ensures running == old(running)[name := RunsOf(old(running), name) + {run}]
    {
      run, runs := runs, runs + 1;
      running := running[name := RunsOf(running, name) + {run}];
    }

    method Register(name: string, intervalMs: int, lockTtlMs: Option<nat>, runOnStart: bool, now: nat) returns (r: Result<nat, RegisterError>)
      requires Valid()
      modifies this
      ensures Valid()
      ensures r.Err? ==> timers == old(timers) && running == old(running)
      ensures r.Err? <==> name in old(timers) || intervalMs < 1
      ensures r.Err? && r.error == AlreadyRegistered <==> name in old(timers)
      ensures r.Ok? ==>
                && timers.Keys == old(timers).Keys + {name} && now < r.value <= now + intervalMs && r.value % intervalMs == 0 && timers[name].due == r.value
                && timers[name].task == Task(intervalMs, if lockTtlMs.Some? then lockTtlMs.value else 3 * intervalMs)
                && running == (if runOnStart then old(running)[name := RunsOf(old(running), name) + {old(runs)}] else old(running))
    {
      if name in timers { return Err(AlreadyRegistered); }
      if intervalMs < 1 { return Err(NotAWholeInterval); }
      var task: Valid := Task(intervalMs, if lockTtlMs.Some? then lockTtlMs.value else 3 * intervalMs);
      TicksIntervalByInterval(now, now, task);
      Arm(name, task, now);
      if runOnStart { var _ := Begin(name); }
      r := Ok(timers[name].due);
    }

    /** A timer fires: set again first, then the tick starts. */
    method Fire(name: string, now: nat) returns (run: nat)
      requires Valid() && name in timers
      modifies this
      ensures Valid() && timers.Keys == old(timers).Keys && timers[name].task == old(timers)[name].task
      ensures now < timers[name].due <= now + timers[name].task.intervalMs && timers[name].due % timers[name].task.intervalMs == 0
      ensures timers == old(timers)[name := timers[name]]
      ensures running == old(running)[name := RunsOf(old(running), name) + {run}] && run == old(runs)
    {
      var task := timers[name].task;
      TicksIntervalByInterval(now, now, task);
      Arm(name, task, now);
      run := Begin(name);
    }

    method Settle(name: string, run: nat)
      requires Valid() && name in running
      modifies this`running
      ensures Valid() && running == old(running)[name := old(running)[name] - {run}]
    {
      running := running[name := running[name] - {run}];
    }

    /** Stops one task's ticks, or every task's, and answers with the runs to wait for. */
    method Stop(name: Option<string>) returns (awaited: set<nat>)
      requires Valid()
      modifies this`timers
      ensures timers == if name.Some? then old(timers) - {name.value} else map[]
      ensures forall run :: run in awaited <==>
                exists n :: n in running && run in running[n] && (name == None || name == Some(n))
    {
      var names := if name.Some? then {name.value} else timers.Keys + running.Keys;
      timers := timers - names;
      awaited := set n, run | n in names && n in running && run in running[n] :: run;
    }
  }

  datatype Timer = Timer(task: Valid, due: nat)

  function RunsOf(running: map<string, set<nat>>, name: string): set<nat> {
    if name in running then running[name] else {}
  }

  // --- The names of the locks ---------------------------------------------------------------

  function TaskKey(name: string): string { "task:" + name }

  function IntervalKey(name: string, interval: nat): string {
    "task:" + name + ":interval:" + Decimal(interval)
  }

  /**
   Tasks have locks of their own, and each of their intervals a claim of its own; a lock is
   some task's claim exactly if its task is named so.
   */
  lemma KeysTellTasks(name: string, interval: nat, other: string, another: nat)
    ensures TaskKey(name) == TaskKey(other) <==> name == other
    ensures IntervalKey(name, interval) == IntervalKey(other, another) <==> name == other && interval == another
    ensures TaskKey(name) == IntervalKey(other, another) <==> name == other + ":interval:" + Decimal(another)
  {
    var claimed := other + ":interval:" + Decimal(another);
    assert TaskKey(name)[|"task:"|..] == name && TaskKey(other)[|"task:"|..] == other;
    assert IntervalKey(other, another) == "task:" + claimed && IntervalKey(other, another)[|"task:"|..] == claimed;
    if IntervalKey(name, interval) == IntervalKey(other, another) {
      assert IntervalKey(name, interval) == "task:" + (name + ":interval:" + Decimal(interval));
      assert IntervalKey(name, interval)[|"task:"|..] == name + ":interval:" + Decimal(interval);
      EndsTell(name, Decimal(interval), other, Decimal(another));
    }
  }

  /** Digits after a colon are told from what comes before them. */
  lemma EndsTell(a: string, digits: string, b: string, others: string)
    requires AllDigits(digits) && AllDigits(others) && a + ":interval:" + digits == b + ":interval:" + others
    ensures a == b && digits == others
  {
    var one, two := a + ":interval:", b + ":interval:";
    if |digits| < |others| {
      ColonOrDigit(one, digits, two, others);
    } else if |others| < |digits| {
      ColonOrDigit(two, others, one, digits);
    } else {
      assert (one + digits)[|one|..] == digits && (two + others)[|two|..] == others;
      assert (one + digits)[..|one|] == one && (two + others)[..|two|] == two;
      assert one[..|a|] == a && two[..|b|] == b;
    }
  }

  lemma ColonOrDigit(one: string, digits: string, two: string, others: string)
    requires AllDigits(others) && |digits| < |others| && one != [] && one[|one| - 1] == ':'
    ensures one + digits != two + others
  {
    var at := |one| - 1;
    assert (one + digits)[at] == ':';
    if |one + digits| == |two + others| { assert (two + others)[at] == others[at - |two|]; }
  }
}
