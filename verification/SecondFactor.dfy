module SecondFactor {
  /**
   One account's second factor: enrolling, checking a code under the row's lock, locking
   after too many wrong ones, and recovery codes. Over whole runs: no code twice, and so
   many guesses in so much time.
   */

  import opened Wrappers
  import opened Totp

  type Hash = nat

  type Secret = nat

  /** A typed code, as what is typed and as the hash it would be kept by. */
  datatype Code = AppCode(given: string) | RecoveryCode(hash: Hash)

  datatype Row = Row(secret: Secret, confirmed: bool, lastStep: Option<nat>, hashes: seq<Hash>, failed: nat, lockedUntil: Option<int>)

  datatype Limits = Limits(window: nat, maxFailures: int, lockMs: nat)

  datatype Earned = Codes(issued: seq<Hash>) | ByApp(left: nat) | ByRecovery(left: nat)

  datatype Outcome = Accepted(earned: Earned) | Wrong(left: int) | Locked(until: int) | NotEnrolled | Enrolled | Begun

  /** What a request asks; the clock and the codes to issue come with it. */
  datatype Request =
    | Begin(secret: Secret)
    | Confirm(code: Code, issued: seq<Hash>)
    | Verify(code: Code)
    | Renew(code: Code, issued: seq<Hash>)

  /** The codes of a secret, step by step. */
  type Keys = Secret -> CodeOf

  const PERIOD_MS: int := 30000

  // --- What a request does --------------------------------------------------------------------

  function FirstFrom(codeOf: CodeOf, given: string, step: int, last: int): (r: Option<nat>)
    ensures r.Some? ==> step <= r.value <= last && Matches(codeOf, given, r.value, TOTP_DIGITS)
    ensures r.Some? ==> forall earlier | step <= earlier < r.value :: !Matches(codeOf, given, earlier, TOTP_DIGITS)
    ensures r.None? ==> forall any | step <= any <= last :: !Matches(codeOf, given, any, TOTP_DIGITS)
    decreases last - step
  {
    if step > last then None
    else if Matches(codeOf, given, step, TOTP_DIGITS) then Some(step)
    else FirstFrom(codeOf, given, step + 1, last)
  }

  /** The time step a fresh app code matches: none for one wrong, or used. */
  function StepOf(row: Row, code: Code, now: int, keys: Keys, limits: Limits): Option<nat> {
    if code.RecoveryCode? then None
    else
      var at := now / PERIOD_MS;
      var step := FirstFrom(keys(row.secret), code.given, at - limits.window, at + limits.window);
      if step.Some? && row.lastStep.Some? && step.value <= row.lastStep.value then None else step
  }

  function Cleared(row: Row): Row { row.(failed := 0, lockedUntil := None) }

  function Without(hashes: seq<Hash>, hash: Hash): (r: seq<Hash>)
    ensures forall h :: h in r <==> h in hashes && h != hash
  {
    if hashes == [] then []
    else Without(hashes[..|hashes| - 1], hash) + if hashes[|hashes| - 1] != hash then [hashes[|hashes| - 1]] else []
  }

  /** The row a right code leaves and what it earns; none for a wrong one. */
  function Accept(row: Row, request: Request, now: int, keys: Keys, limits: Limits): Option<(Row, Earned)>
    requires !request.Begin?
  {
    var step := StepOf(row, request.code, now, keys, limits);
    if request.Verify? && request.code.RecoveryCode? then
      if request.code.hash !in row.hashes then None
      else
        var left := Without(row.hashes, request.code.hash);
        Some((Cleared(row).(hashes := left), ByRecovery(|left|)))
    else if step.None? then None
    else if request.Verify? then Some((Cleared(row).(lastStep := step), ByApp(|row.hashes|)))
    else Some((Cleared(row).(confirmed := true, lastStep := step, hashes := request.issued), Codes(request.issued)))
  }

  /** A wrong code counted, and at the limit the lock. */
  function Counted(row: Row, now: int, limits: Limits): Row {
    var failures := row.failed + 1;
    if failures >= limits.maxFailures then row.(failed := 0, lockedUntil := Some(now + limits.lockMs))
    else row.(failed := failures, lockedUntil := None)
  }

  function Asked(row: Option<Row>, request: Request, now: int, keys: Keys, limits: Limits): (Option<Row>, Outcome) {
    if request.Begin? then
      if row.Some? && row.value.confirmed then (row, Enrolled)
      else if row.Some? then (Some(row.value.(secret := request.secret)), Begun)
      else (Some(Row(request.secret, false, None, [], 0, None)), Begun)
    else if row.None? then (row, NotEnrolled)
    else if row.value.lockedUntil.Some? && row.value.lockedUntil.value > now then (row, Locked(row.value.lockedUntil.value))
    else if request.Confirm? && row.value.confirmed then (row, Enrolled)
    else if !request.Confirm? && !row.value.confirmed then (row, NotEnrolled)
    else
      var accepted := Accept(row.value, request, now, keys, limits);
      if accepted.Some? then (Some(accepted.value.0), Accepted(accepted.value.1))
      else
        var counted := Counted(row.value, now, limits);
        (Some(counted), if counted.lockedUntil.Some? then Locked(counted.lockedUntil.value) else Wrong(limits.maxFailures - counted.failed))
  }

  // --- What a code is worth ------------------------------------------------------------------

  /** The first step in the window around now whose code is given. */
  predicate IsFirstMatch(codeOf: CodeOf, given: string, now: int, window: nat, step: nat) {
    && now / PERIOD_MS - window <= step <= now / PERIOD_MS + window && Matches(codeOf, given, step, TOTP_DIGITS)
    && forall earlier | now / PERIOD_MS - window <= earlier < step :: !Matches(codeOf, given, earlier, TOTP_DIGITS)
  }

  /** The code given is right: its first step in the window is later than the last accepted. */
  predicate IsRight(row: Row, given: string, now: int, keys: Keys, limits: Limits, step: nat) {
    IsFirstMatch(keys(row.secret), given, now, limits.window, step) && (row.lastStep.Some? ==> step > row.lastStep.value)
  }

  /** What a request with a code comes to, said of the codes themselves. */
  ghost predicate Settles(row: Option<Row>, request: Request, now: int, keys: Keys, limits: Limits, after: Option<Row>, outcome: Outcome)
    requires !request.Begin?
  {
    if row.None? then after == row && outcome == NotEnrolled
    else if row.value.lockedUntil.Some? && now < row.value.lockedUntil.value then after == row && outcome == Locked(row.value.lockedUntil.value)
    else if row.value.confirmed && request.Confirm? then after == row && outcome == Enrolled
    else if !row.value.confirmed && !request.Confirm? then after == row && outcome == NotEnrolled
    else
      && (outcome.Accepted? ==> RightCode(row.value, request, now, keys, limits))
      && (RightCode(row.value, request, now, keys, limits) ==> SettlesRight(row.value, request, now, keys, limits, after, outcome))
      && (!RightCode(row.value, request, now, keys, limits) ==> SettlesWrong(row.value, now, limits, after, outcome))
  }

  ghost predicate RightCode(row: Row, request: Request, now: int, keys: Keys, limits: Limits)
    requires !request.Begin?
  {
    match request.code
    case AppCode(given) => exists step :: IsRight(row, given, now, keys, limits, step)
    case RecoveryCode(hash) => request.Verify? && hash in row.hashes
  }

  /** A right code is spent, and clears the count and the lock. */
  ghost predicate SettlesRight(row: Row, request: Request, now: int, keys: Keys, limits: Limits, after: Option<Row>, outcome: Outcome)
    requires !request.Begin?
  {
    && after.Some? && after.value.failed == 0 && after.value.lockedUntil == None && after.value.secret == row.secret
    && after.value.confirmed
    && match request.code
       case AppCode(given) =>
         && after.value.lastStep.Some? && IsRight(row, given, now, keys, limits, after.value.lastStep.value)
         && (if request.Verify? then after.value.hashes == row.hashes && outcome == Accepted(ByApp(|row.hashes|))
             else after.value.hashes == request.issued && outcome == Accepted(Codes(request.issued)))
       case RecoveryCode(hash) =>
         && after.value.lastStep == row.lastStep && outcome == Accepted(ByRecovery(|after.value.hashes|))
         && forall h :: h in after.value.hashes <==> h in row.hashes && h != hash
  }

  /** A wrong one is counted, and at the limit locks the account and clears the count. */
  ghost predicate SettlesWrong(row: Row, now: int, limits: Limits, after: Option<Row>, outcome: Outcome) {
    if row.failed + 1 < limits.maxFailures then
      && after == Some(row.(failed := row.failed + 1, lockedUntil := None))
      && outcome == Wrong(limits.maxFailures - row.failed - 1)
    else
      && after == Some(row.(failed := 0, lockedUntil := Some(now + limits.lockMs)))
      && outcome == Locked(now + limits.lockMs)
  }

  lemma RightStep(row: Row, code: Code, now: int, keys: Keys, limits: Limits)
    ensures var step := StepOf(row, code, now, keys, limits);
            match code
            case RecoveryCode(_) => step.None?
            case AppCode(given) =>
              if step.Some? then IsRight(row, given, now, keys, limits, step.value)
              else forall other: nat :: !IsRight(row, given, now, keys, limits, other)
  {
    hide Matches;
    var step := StepOf(row, code, now, keys, limits);
    if code.AppCode? && step.None? {
      var at := now / PERIOD_MS;
      var first := FirstFrom(keys(row.secret), code.given, at - limits.window, at + limits.window);
      forall other: nat ensures !IsRight(row, code.given, now, keys, limits, other) {
        if IsFirstMatch(keys(row.secret), code.given, now, limits.window, other) { assert first == Some(other); }
      }
    }
  }

  lemma AskedSettles(row: Option<Row>, request: Request, now: int, keys: Keys, limits: Limits)
    requires !request.Begin?
    ensures var (after, outcome) := Asked(row, request, now, keys, limits); Settles(row, request, now, keys, limits, after, outcome)
  {
    hide StepOf, IsRight;
    if row.Some? { RightStep(row.value, request.code, now, keys, limits); }
  }

  // --- The service ----------------------------------------------------------------------------

  class SecondFactorService {
    const limits: Limits
    const keys: Keys
    var row: Option<Row>

    constructor (limits: Limits, keys: Keys)
      ensures row == None && this.limits == limits && this.keys == keys
    {
      this.limits, this.keys, row := limits, keys, None;
    }

    /** A new secret every time, until a code confirms one. */
    method Begin(secret: Secret) returns (outcome: Outcome)
      modifies this
      ensures (row, outcome) == Asked(old(row), Request.Begin(secret), 0, keys, limits)
      ensures if old(row).Some? && old(row).value.confirmed then row == old(row) && outcome == Enrolled
              else outcome == Begun && row == Some(if old(row).None? then Row(secret, false, None, [], 0, None) else old(row).value.(secret := secret))
    {
      if row.None? { row := Some(Row(secret, false, None, [], 0, None)); }
      if row.value.confirmed { return Enrolled; }
      row := Some(row.value.(secret := secret));
      return Begun;
    }

    method Confirm(code: Code, issued: seq<Hash>, now: int) returns (outcome: Outcome)
      modifies this
      ensures (row, outcome) == Asked(old(row), Request.Confirm(code, issued), now, keys, limits)
      ensures Settles(old(row), Request.Confirm(code, issued), now, keys, limits, row, outcome)
    {
      outcome := Checked(Request.Confirm(code, issued), now);
    }

    method Verify(code: Code, now: int) returns (outcome: Outcome)
      modifies this
      ensures (row, outcome) == Asked(old(row), Request.Verify(code), now, keys, limits)
      ensures Settles(old(row), Request.Verify(code), now, keys, limits, row, outcome)
    {
      outcome := Checked(Request.Verify(code), now);
    }

    method RenewRecoveryCodes(code: Code, issued: seq<Hash>, now: int) returns (outcome: Outcome)
      modifies this
      ensures (row, outcome) == Asked(old(row), Renew(code, issued), now, keys, limits)
      ensures Settles(old(row), Renew(code, issued), now, keys, limits, row, outcome)
    {
      outcome := Checked(Renew(code, issued), now);
    }

    /** A code checked against the row, held throughout. */
    method Checked(request: Request, now: int) returns (outcome: Outcome)
      requires !request.Begin?
      modifies this
      ensures (row, outcome) == Asked(old(row), request, now, keys, limits)
      ensures Settles(old(row), request, now, keys, limits, row, outcome)
    {
      hide Settles;
      AskedSettles(row, request, now, keys, limits);
      if row.None? { return NotEnrolled; }
      if row.value.lockedUntil.Some? && row.value.lockedUntil.value > now { return Locked(row.value.lockedUntil.value); }
      if request.Confirm? && row.value.confirmed { return Enrolled; }
      if !request.Confirm? && !row.value.confirmed { return NotEnrolled; }
      var earned := Try(request, now);
      if earned.Some? { return Accepted(earned.value); }
      var failures := row.value.failed + 1;
      var lockedUntil := if failures >= limits.maxFailures then Some(now + limits.lockMs) else None;
      row := Some(row.value.(failed := if lockedUntil.Some? then 0 else failures, lockedUntil := lockedUntil));
      if lockedUntil.Some? { return Locked(lockedUntil.value); }
      return Wrong(limits.maxFailures - failures);
    }

    method Try(request: Request, now: int) returns (earned: Option<Earned>)
      requires !request.Begin? && row.Some?
      modifies this
      ensures var accepted := Accept(old(row).value, request, now, keys, limits);
              if accepted.None? then earned == None && row == old(row)
              else earned == Some(accepted.value.1) && row == Some(accepted.value.0)
    {
      var kept := row.value;
      if request.Verify? && request.code.RecoveryCode? {
        if request.code.hash !in kept.hashes { return None; }
        var left := Without(kept.hashes, request.code.hash);
        row := Some(kept.(hashes := left, failed := 0, lockedUntil := None));
        return Some(ByRecovery(|left|));
      }
      var step := FreshStep(kept, request.code, now);
      if step.None? { return None; }
      if request.Verify? {
        row := Some(kept.(lastStep := step, failed := 0, lockedUntil := None));
        return Some(ByApp(|kept.hashes|));
      }
      row := Some(kept.(confirmed := true, lastStep := step, hashes := request.issued, failed := 0, lockedUntil := None));
      return Some(Codes(request.issued));
    }

    method FreshStep(kept: Row, code: Code, now: int) returns (step: Option<nat>)
      ensures step == StepOf(kept, code, now, keys, limits)
    {
      if code.RecoveryCode? { return None; }
      var at := now / PERIOD_MS;
      step := Totp.MatchTotpStep(keys(kept.secret), code.given, at, limits.window, TOTP_DIGITS);
      ghost var first := FirstFrom(keys(kept.secret), code.given, at - limits.window, at + limits.window);
      assert step == first;
      if step.Some? && kept.lastStep.Some? && step.value <= kept.lastStep.value { return None; }
    }
  }

  // --- Whole runs --------------------------------------------------------------------------------

  datatype Kind = WrongCode | AppStep(step: nat) | Issuing(step: nat, issued: seq<Hash>) | Recovery(hash: Hash) {
    predicate HasStep() { AppStep? || Issuing? }
  }

  /** A code evaluated, and when. */
  datatype Entry = Entry(at: int, kind: Kind)

  predicate Evaluated(row: Option<Row>, request: Request, now: int) {
    && !request.Begin? && row.Some?
    && !(row.value.lockedUntil.Some? && row.value.lockedUntil.value > now)
    && (request.Confirm? <==> !row.value.confirmed)
  }

  function KindOf(row: Row, request: Request, now: int, keys: Keys, limits: Limits): Kind
    requires !request.Begin?
  {
    var accepted := Accept(row, request, now, keys, limits);
    if accepted.None? then WrongCode
    else if accepted.value.1.ByRecovery? then Recovery(request.code.hash)
    else
      var step := StepOf(row, request.code, now, keys, limits).value;
      if accepted.value.1.Codes? then Issuing(step, accepted.value.1.issued) else AppStep(step)
  }

  /** An account's row, and every code evaluated for it so far. */
  datatype History = History(row: Option<Row>, log: seq<Entry>, now: int)

  datatype Event = Event(request: Request, elapsed: nat)

  function Next(h: History, event: Event, keys: Keys, limits: Limits): History {
    var now := h.now + event.elapsed;
    History(Asked(h.row, event.request, now, keys, limits).0,
            if Evaluated(h.row, event.request, now)
            then h.log + [Entry(now, KindOf(h.row.value, event.request, now, keys, limits))] else h.log,
            now)
  }

  function Run(h: History, events: seq<Event>, keys: Keys, limits: Limits): History
    decreases |events|
  {
    if events == [] then h else Run(Next(h, events[0], keys, limits), events[1..], keys, limits)
  }

  // --- A step once ------------------------------------------------------------------------------

  ghost predicate StepsIncrease(h: History) {
    && (forall i | 0 <= i < |h.log| && h.log[i].kind.HasStep() ::
         h.row.Some? && h.row.value.lastStep.Some? && h.log[i].kind.step <= h.row.value.lastStep.value)
    && (forall i, j | 0 <= i < j < |h.log| && h.log[i].kind.HasStep() && h.log[j].kind.HasStep() ::
         h.log[i].kind.step < h.log[j].kind.step)
  }

  lemma NextIncreases(h: History, event: Event, keys: Keys, limits: Limits)
    requires StepsIncrease(h)
    ensures StepsIncrease(Next(h, event, keys, limits))
  {
    hide FirstFrom;
  }

  // --- A recovery code once -----------------------------------------------------------------------

  /** The code is issued again at some entry after the `i`th and before the `j`th. */
  ghost predicate IssuedBetween(log: seq<Entry>, i: nat, j: nat, hash: Hash) {
    exists k :: i < k < j && k < |log| && log[k].kind.Issuing? && hash in log[k].kind.issued
  }

  ghost predicate CodesAreSpent(h: History) {
    && (forall i | 0 <= i < |h.log| && h.log[i].kind.Recovery? ::
         h.row.Some? && (h.log[i].kind.hash in h.row.value.hashes ==> IssuedBetween(h.log, i, |h.log|, h.log[i].kind.hash)))
    && (forall i, j | 0 <= i < j < |h.log| && h.log[i].kind.Recovery? && h.log[j].kind == h.log[i].kind ::
         IssuedBetween(h.log, i, j, h.log[i].kind.hash))
  }

  lemma StillIssued(log: seq<Entry>, entry: Entry, i: nat, j: nat, hash: Hash)
    requires j <= |log|
    ensures IssuedBetween(log, i, j, hash) ==> IssuedBetween(log + [entry], i, j, hash) && IssuedBetween(log + [entry], i, |log| + 1, hash)
    ensures i < |log| && entry.kind.Issuing? && hash in entry.kind.issued ==> IssuedBetween(log + [entry], i, |log| + 1, hash)
  {
    var longer := log + [entry];
    if IssuedBetween(log, i, j, hash) {
      var k :| i < k < j && k < |log| && log[k].kind.Issuing? && hash in log[k].kind.issued;
      assert longer[k] == log[k];
    }
    assert longer[|log|] == entry;
  }

  lemma NextSpends(h: History, event: Event, keys: Keys, limits: Limits)
    requires CodesAreSpent(h)
    ensures CodesAreSpent(Next(h, event, keys, limits))
  {
    hide FirstFrom, StepOf, IssuedBetween;
    var h', n := Next(h, event, keys, limits), |h.log|;
    if Evaluated(h.row, event.request, h'.now) {
      var entry := h'.log[n];
      forall i | 0 <= i < |h'.log| && h'.log[i].kind.Recovery? && h'.log[i].kind.hash in h'.row.value.hashes
        ensures IssuedBetween(h'.log, i, |h'.log|, h'.log[i].kind.hash)
      {
        StillIssued(h.log, entry, i, n, h'.log[i].kind.hash);
      }
      forall i, j | 0 <= i < j < |h'.log| && h'.log[i].kind.Recovery? && h'.log[j].kind == h'.log[i].kind
        ensures IssuedBetween(h'.log, i, j, h'.log[i].kind.hash)
      {
        StillIssued(h.log, entry, i, j, h'.log[i].kind.hash);
      }
    }
  }

  // --- So many guesses ----------------------------------------------------------------------------

  function Tries(limits: Limits): nat { if limits.maxFailures > 1 then limits.maxFailures else 1 }

  ghost predicate InOrder(h: History) {
    && (forall i | 0 <= i < |h.log| :: h.log[i].at <= h.now)
    && (forall i, j | 0 <= i < j < |h.log| :: h.log[i].at <= h.log[j].at)
  }

  function Failed(h: History): nat { if h.row.Some? then h.row.value.failed else 0 }

  /** The failures counted are the last codes; before them came a right code, or a lock that had to end first. */
  ghost predicate CountFits(h: History, limits: Limits) {
    var f, n := Failed(h), |h.log|;
    && (h.row.None? ==> n == 0)
    && f <= n && f < Tries(limits)
    && (forall i | n - f <= i < n :: h.log[i].kind.WrongCode?)
    && (h.row.Some? && h.row.value.lockedUntil.Some? ==>
          f == 0 && n > 0 && h.row.value.lockedUntil.value == h.log[n - 1].at + limits.lockMs)
    && (f < n && h.log[n - f - 1].kind.WrongCode? ==>
          && (forall i | n - f <= i < n :: h.log[i].at >= h.log[n - f - 1].at + limits.lockMs)
          && (f == 0 ==> h.row.value.lockedUntil.Some?))
  }

  /** One wrong code more than the tries allowed takes as long as a lock. */
  ghost predicate GuessesTakeTime(h: History, limits: Limits) {
    forall i {:trigger h.log[i]} | 0 <= i && i + Tries(limits) < |h.log| && AllWrong(h.log, i, i + Tries(limits)) ::
      h.log[i + Tries(limits)].at >= h.log[i].at + limits.lockMs
  }

  ghost predicate AllWrong(log: seq<Entry>, first: nat, last: nat) {
    last < |log| && forall i | first <= i <= last :: log[i].kind.WrongCode?
  }

  ghost predicate GuessesFit(h: History, limits: Limits) {
    InOrder(h) && CountFits(h, limits) && GuessesTakeTime(h, limits)
  }

  /** What a request does to the count and the lock: nothing, one more wrong code, or both cleared. */
  lemma RowAfter(h: History, event: Event, keys: Keys, limits: Limits)
    ensures var h' := Next(h, event, keys, limits);
            if !Evaluated(h.row, event.request, h'.now) then
              && h'.log == h.log && Failed(h') == Failed(h) && LockedUntil(h') == LockedUntil(h)
              && (h'.row.None? ==> h.row.None?)
            else
              && |h'.log| == |h.log| + 1 && h'.log[..|h.log|] == h.log && h'.log[|h.log|].at == h'.now && h'.row.Some?
              && if h'.log[|h.log|].kind.WrongCode? then h'.row.value == Counted(h.row.value, h'.now, limits)
                 else Failed(h') == 0 && LockedUntil(h') == None
  {
    hide FirstFrom, StepOf;
  }

  function LockedUntil(h: History): Option<int> { if h.row.Some? then h.row.value.lockedUntil else None }

  lemma NextCounts(h: History, event: Event, keys: Keys, limits: Limits)
    requires GuessesFit(h, limits)
    ensures InOrder(Next(h, event, keys, limits)) && CountFits(Next(h, event, keys, limits), limits)
  {
    RowAfter(h, event, keys, limits);
    OrderKept(h, Next(h, event, keys, limits));
    CountKept(h, Next(h, event, keys, limits), event.request, limits);
  }

  lemma OrderKept(h: History, h': History)
    requires InOrder(h) && h'.now >= h.now && (h'.log == h.log || (|h'.log| == |h.log| + 1 && h'.log[..|h.log|] == h.log && h'.log[|h.log|].at == h'.now))
    ensures InOrder(h')
  {
    assert forall k | 0 <= k < |h.log| :: h'.log[k] == h'.log[..|h.log|][k] == h.log[k];
  }

  lemma CountKept(h: History, h': History, request: Request, limits: Limits)
    requires CountFits(h, limits) && (h'.row.None? ==> h.row.None?) && (h.log != [] ==> h.log[|h.log| - 1].at <= h'.now)
    requires !Evaluated(h.row, request, h'.now) ==> h'.log == h.log && Failed(h') == Failed(h) && LockedUntil(h') == LockedUntil(h)
    requires Evaluated(h.row, request, h'.now) ==>
               && |h'.log| == |h.log| + 1 && h'.log[..|h.log|] == h.log && h'.log[|h.log|].at == h'.now && h'.row.Some?
               && if h'.log[|h.log|].kind.WrongCode? then h'.row.value == Counted(h.row.value, h'.now, limits)
                  else Failed(h') == 0 && LockedUntil(h') == None
    ensures CountFits(h', limits)
  {
    if Evaluated(h.row, request, h'.now) {
      assert forall k | 0 <= k < |h.log| :: h'.log[k] == h'.log[..|h.log|][k] == h.log[k];
      if h'.log[|h.log|].kind.WrongCode? && Failed(h') > 0 {
        assert |h'.log| - Failed(h') == |h.log| - Failed(h);
      }
    }
  }

  lemma NextLog(h: History, event: Event, keys: Keys, limits: Limits)
    ensures var h' := Next(h, event, keys, limits);
            && |h.log| <= |h'.log| <= |h.log| + 1 && h'.now >= h.now
            && (forall k {:trigger h.log[k]} | 0 <= k < |h.log| :: h'.log[k] == h.log[k])
            && (|h'.log| > |h.log| ==> Evaluated(h.row, event.request, h'.now) && h'.log[|h.log|].at == h'.now)
  {
    hide FirstFrom, StepOf, Accept, Asked, KindOf, CountFits;
  }

  lemma OneTakesTime(h: History, limits: Limits, i: nat)
    requires GuessesTakeTime(h, limits) && AllWrong(h.log, i, i + Tries(limits))
    ensures h.log[i + Tries(limits)].at >= h.log[i].at + limits.lockMs
  {
    hide Tries;
  }

  lemma NextTakesTime(h: History, event: Event, keys: Keys, limits: Limits)
    requires GuessesFit(h, limits)
    ensures GuessesTakeTime(Next(h, event, keys, limits), limits)
  {
    hide Next, Evaluated, CountFits;
    var h', m := Next(h, event, keys, limits), Tries(limits);
    NextLog(h, event, keys, limits);
    forall i {:trigger h'.log[i]} | 0 <= i && i + m < |h'.log| && AllWrong(h'.log, i, i + m)
      ensures h'.log[i + m].at >= h'.log[i].at + limits.lockMs
    {
      if i + m < |h.log| {
        assert AllWrong(h.log, i, i + m);
        OneTakesTime(h, limits, i);
      } else {
        LastTakesTime(h, event, limits, h'.now, i);
      }
    }
  }

  /** The lock before the failures now counted lies within as many codes as there are tries. */
  lemma LastTakesTime(h: History, event: Event, limits: Limits, now: int, i: nat)
    requires GuessesFit(h, limits) && Evaluated(h.row, event.request, now) && now >= h.now
    requires i + Tries(limits) == |h.log| && forall k | i <= k < |h.log| :: h.log[k].kind.WrongCode?
    ensures now >= h.log[i].at + limits.lockMs
  {
    var n := |h.log|;
    var before := n - Failed(h) - 1;
    assert h.log[before].kind.WrongCode? && h.log[i].at <= h.log[before].at;
    assert h.log[n - 1].at <= h.now;
    if Failed(h) > 0 { assert h.log[n - 1].at >= h.log[before].at + limits.lockMs; }
  }

  // --- The guarantees ------------------------------------------------------------------------------

  function Nothing(now: int): History { History(None, [], now) }

  ghost predicate Inv(h: History, limits: Limits) {
    StepsIncrease(h) && CodesAreSpent(h) && GuessesFit(h, limits)
  }

  lemma {:induction false} RunKeeps(h: History, events: seq<Event>, keys: Keys, limits: Limits)
    requires Inv(h, limits)
    ensures Inv(Run(h, events, keys, limits), limits)
    decreases |events|
  {
    hide StepsIncrease, CodesAreSpent, InOrder, CountFits, GuessesTakeTime, Next;
    if events != [] {
      NextIncreases(h, events[0], keys, limits);
      NextSpends(h, events[0], keys, limits);
      NextCounts(h, events[0], keys, limits);
      NextTakesTime(h, events[0], keys, limits);
      RunKeeps(Next(h, events[0], keys, limits), events[1..], keys, limits);
    }
  }

  /** Of two app codes accepted, the later is of a later time step: no code is good twice. */
  lemma AcceptedStepsIncrease(start: int, events: seq<Event>, keys: Keys, limits: Limits, i: nat, j: nat)
    requires var log := Run(Nothing(start), events, keys, limits).log;
             i < j < |log| && log[i].kind.HasStep() && log[j].kind.HasStep()
    ensures var log := Run(Nothing(start), events, keys, limits).log; log[i].kind.step < log[j].kind.step
  {
    RunKeeps(Nothing(start), events, keys, limits);
  }

  /** A recovery code is accepted once for each time it is issued. */
  lemma RecoveryCodesAreUsedUp(start: int, events: seq<Event>, keys: Keys, limits: Limits, i: nat, j: nat)
    requires var log := Run(Nothing(start), events, keys, limits).log;
             i < j < |log| && log[i].kind.Recovery? && log[j].kind == log[i].kind
    ensures var log := Run(Nothing(start), events, keys, limits).log; IssuedBetween(log, i, j, log[i].kind.hash)
  {
    RunKeeps(Nothing(start), events, keys, limits);
  }

  /** The last step kept is one that was accepted. */
  ghost predicate LastIsAccepted(h: History) {
    h.row.Some? && h.row.value.lastStep.Some? ==>
      exists i :: 0 <= i < |h.log| && h.log[i].kind.HasStep() && h.log[i].kind.step == h.row.value.lastStep.value
  }

  lemma NextIsAccepted(h: History, event: Event, keys: Keys, limits: Limits)
    requires LastIsAccepted(h)
    ensures LastIsAccepted(Next(h, event, keys, limits))
  {
    hide FirstFrom;
    var h' := Next(h, event, keys, limits);
    if h'.row.Some? && h'.row.value.lastStep.Some? {
      if h.row.Some? && h.row.value.lastStep == h'.row.value.lastStep {
        var i :| 0 <= i < |h.log| && h.log[i].kind.HasStep() && h.log[i].kind.step == h.row.value.lastStep.value;
        assert h'.log[i] == h.log[i];
      } else {
        assert h'.log[|h.log|].kind.HasStep();
      }
    }
  }

  lemma {:induction false} RunIsAccepted(h: History, events: seq<Event>, keys: Keys, limits: Limits)
    requires LastIsAccepted(h)
    ensures LastIsAccepted(Run(h, events, keys, limits))
    decreases |events|
  {
    hide LastIsAccepted, Next;
    if events != [] {
      NextIsAccepted(h, events[0], keys, limits);
      RunIsAccepted(Next(h, events[0], keys, limits), events[1..], keys, limits);
    }
  }

  /** After any run, a code that is looked at and whose first step is later than every step accepted is accepted. */
  lemma LaterStepsAreAccepted(start: int, events: seq<Event>, keys: Keys, limits: Limits, request: Request, now: int, step: nat)
    requires var h := Run(Nothing(start), events, keys, limits);
             && Evaluated(h.row, request, now) && request.code.AppCode?
             && IsFirstMatch(keys(h.row.value.secret), request.code.given, now, limits.window, step)
             && forall i | 0 <= i < |h.log| && h.log[i].kind.HasStep() :: h.log[i].kind.step < step
    ensures var h := Run(Nothing(start), events, keys, limits);
            var (after, outcome) := Asked(h.row, request, now, keys, limits);
            outcome.Accepted? && after.Some? && after.value.lastStep == Some(step)
  {
    RunIsAccepted(Nothing(start), events, keys, limits);
    hide Run, Asked, IsFirstMatch;
    var h := Run(Nothing(start), events, keys, limits);
    AskedSettles(h.row, request, now, keys, limits);
    assert IsRight(h.row.value, request.code.given, now, keys, limits, step);
    OneFirstMatch(keys(h.row.value.secret), request.code.given, now, limits.window);
  }

  lemma OneFirstMatch(codeOf: CodeOf, given: string, now: int, window: nat)
    ensures forall a, b | IsFirstMatch(codeOf, given, now, window, a) && IsFirstMatch(codeOf, given, now, window, b) :: a == b
  {
    hide Matches;
  }

  /** In less time than a lock lasts, with no right code among them, no more wrong codes are looked at than the tries allowed. */
  lemma SoManyGuesses(start: int, events: seq<Event>, keys: Keys, limits: Limits, first: nat, last: nat)
    requires var log := Run(Nothing(start), events, keys, limits).log;
             first <= last && AllWrong(log, first, last) && log[last].at < log[first].at + limits.lockMs
    ensures last - first + 1 <= Tries(limits)
  {
    RunKeeps(Nothing(start), events, keys, limits);
    hide Run, GuessesFit, AllWrong, Tries;
    var h := Run(Nothing(start), events, keys, limits);
    if last - first >= Tries(limits) { TakesTime(h, limits, first, last); }
  }

  lemma TakesTime(h: History, limits: Limits, first: nat, last: nat)
    requires GuessesFit(h, limits) && AllWrong(h.log, first, last) && last - first >= Tries(limits)
    ensures h.log[last].at >= h.log[first].at + limits.lockMs
  {
    hide CountFits, GuessesTakeTime, Tries;
    assert AllWrong(h.log, first, first + Tries(limits));
    OneTakesTime(h, limits, first);
    assert h.log[first + Tries(limits)].at <= h.log[last].at;
  }
}
