module IdempotencyProtocol {
  /**
   Every interleaving of requests carrying one identity (tenant, scope and key).

   The committed row is shared; each request reads its clock, claims, opens
   transactions and ends; any step may fail, any process may die, and a commit may
   take effect while its caller is told it failed. A request's claim is named after
   the request, since each request inserts at most one row. A transaction that has
   updated the row holds its lock until it commits or rolls back, so every other
   statement on the row waits for it.
   */

  import opened IdempotencyRows
  import opened Numbers
  import opened Wrappers

  type Request = nat
  type TxId = nat

  datatype Claim = Claim(payload: string, claimedAt: int, expiresAt: int)

  datatype Phase =
    | Arrived(payload: string, readAt: int)  // `now` read, the claim not yet decided
    | Running(done: bool)                    // the handler runs under its claim
    | Over                                   // answered, failed or dead

  datatype Stage = Open | Joined(marked: bool, follows: bool)

  datatype Tx = Tx(owner: Request, wrote: bool, stage: Stage)

  /** A transaction that wrote something, committed. */
  datatype Commit = Commit(request: Request, at: int)

  datatype State = State(
    now: int,
    row: Option<Row>,
    phases: map<Request, Phase>,
    claims: map<Request, Claim>,
    txs: map<TxId, Tx>,
    ledger: seq<Commit>)

  datatype Step =
    | Tick(elapsed: nat)
    | Arrive(r: Request, payload: string)
    | Begin(r: Request, heard: bool)      // decided and committed; `heard` is whether the caller learns of it
    | OpenTx(r: Request, t: TxId)
    | Write(t: TxId)
    | Join(t: TxId, status: int)          // the participant, as the transaction's last work
    | CommitTx(t: TxId, status: int, heard: bool)
    | Rollback(t: TxId)
    | Fail(r: Request, released: bool)    // the handler failed; the release may fail too
    | Succeed(r: Request, status: int, body: string, stored: bool)
    | Purge(readAt: int)
    | Crash(r: Request)

  ghost predicate Committed(ledger: seq<Commit>, r: Request) {
    exists i :: 0 <= i < |ledger| && ledger[i].request == r
  }

  predicate Stands(s: State, r: Request) {
    s.row.Some? && s.row.value.id == r
  }

  /** No transaction holds the row's lock. */
  ghost predicate Unlocked(s: State) {
    forall t | t in s.txs :: !Marked(s.txs[t])
  }

  predicate Marked(tx: Tx) {
    tx.stage.Joined? && tx.stage.marked
  }

  predicate IsRunning(s: State, r: Request) {
    r in s.phases && s.phases[r].Running?
  }

  /** The claimant's row is there to be marked. */
  predicate Markable(s: State, r: Request) {
    Stands(s, r) && s.row.value.status == InProgress
  }

  /** No transaction the handler opened is still open to more work. */
  ghost predicate HandlerFinished(s: State, r: Request) {
    forall t | t in s.txs && s.txs[t].owner == r :: s.txs[t].stage.Joined?
  }

  ghost predicate Enabled(s: State, step: Step) {
    match step
    case Tick(_) => true
    case Arrive(r, _) => r !in s.phases
    case Begin(r, _) => r in s.phases && s.phases[r].Arrived? && Unlocked(s)
    case OpenTx(r, t) => IsRunning(s, r) && t !in s.txs
    case Write(t) => t in s.txs && s.txs[t].stage.Open? && IsRunning(s, s.txs[t].owner)
    case Join(t, _) =>
      && t in s.txs && s.txs[t].stage.Open? && IsRunning(s, s.txs[t].owner)
      && (Joins(s, t) ==> Unlocked(s))
    case CommitTx(t, _, _) => t in s.txs && s.txs[t].stage.Joined?
    case Rollback(t) => t in s.txs
    case Fail(r, _) => IsRunning(s, r) && HandlerFinished(s, r) && Unlocked(s)
    case Succeed(r, _, _, _) => IsRunning(s, r) && HandlerFinished(s, r) && Unlocked(s)
    case Purge(readAt) => readAt <= s.now && Unlocked(s)
    case Crash(r) => r in s.phases
  }

  /** Whether the participant goes on to mark the key: not done already, and something was written. */
  predicate Joins(s: State, t: TxId)
    requires t in s.txs && IsRunning(s, s.txs[t].owner)
  {
    !s.phases[s.txs[t].owner].done && s.txs[t].wrote
  }

  ghost function Decide(s: State, r: Request, timing: Timing): Decision
    requires r in s.phases && s.phases[r].Arrived?
  {
    if s.row.None? then TakeOver
    else Evaluate(s.row.value, s.phases[r].payload, s.phases[r].readAt, timing)
  }

  ghost function Apply(s: State, step: Step, timing: Timing): State
    requires Enabled(s, step)
  {
    match step
    case Tick(elapsed) => s.(now := s.now + elapsed)
    case Arrive(r, payload) => s.(phases := s.phases[r := Arrived(payload, s.now)])
    case Begin(r, heard) =>
      var p := s.phases[r];
      if Decide(s, r, timing) == TakeOver then
        var row := Claimed(r, p.payload, p.readAt, timing);
        s.(row := Some(row),
           claims := s.claims[r := Claim(p.payload, row.claimedAt, row.expiresAt)],
           phases := s.phases[r := if heard then Running(false) else Over])
      else s.(phases := s.phases[r := Over])
    case OpenTx(r, t) => s.(txs := s.txs[t := Tx(r, false, Open)])
    case Write(t) => s.(txs := s.txs[t := s.txs[t].(wrote := true)])
    case Join(t, _) =>
      var joins := Joins(s, t);
      s.(txs := s.txs[t := s.txs[t].(stage := Joined(joins && Markable(s, s.txs[t].owner), joins))])
    case CommitTx(t, status, heard) =>
      var tx := s.txs[t];
      s.(row := if Marked(tx) && s.row.Some? then Some(MarkedDone(s.row.value, tx.owner, status)) else s.row,
         ledger := if tx.wrote then s.ledger + [Commit(tx.owner, s.now)] else s.ledger,
         phases := if heard && tx.stage.follows && IsRunning(s, tx.owner)
                   then s.phases[tx.owner := Running(true)] else s.phases,
         txs := s.txs - {t})
    case Rollback(t) => s.(txs := s.txs - {t})
    case Fail(r, released) =>
      s.(row := if released && !s.phases[r].done && s.row.Some? && Releasable(s.row.value, r) then None else s.row,
         phases := s.phases[r := Over])
    case Succeed(r, status, body, stored) =>
      s.(row := if stored && s.row.Some? then Some(WithResponse(s.row.value, r, status, body)) else s.row,
         phases := s.phases[r := Over])
    case Purge(readAt) =>
      s.(row := if s.row.Some? && s.row.value.expiresAt < readAt then None else s.row)
    case Crash(r) => s.(phases := s.phases[r := Over])
  }

  const START := State(0, None, map[], map[], map[], [])

  /** What is asked of a run's writing commits: nothing, or time kept by each request's first, or by all. */
  datatype Bound = Anytime | FirstInTime | AllInTime

  /** Before the claim expires, and within the lock timeout if it is the claim's first. */
  ghost predicate InTime(s: State, r: Request, timing: Timing)
    requires r in s.claims
  {
    && s.now < s.claims[r].expiresAt
    && (Committed(s.ledger, r) || s.now <= s.claims[r].claimedAt + timing.lockTimeoutMs)
  }

  ghost predicate Timely(s: State, step: Step, bound: Bound, timing: Timing) {
    step.CommitTx? && step.t in s.txs && s.txs[step.t].wrote && s.txs[step.t].owner in s.claims ==>
      var r := s.txs[step.t].owner;
      bound.Anytime? || (bound.FirstInTime? && Committed(s.ledger, r)) || InTime(s, r, timing)
  }

  /** Running `steps` from `s`, each enabled and timely when its turn comes, ends in `end`. */
  ghost predicate Reaches(s: State, steps: seq<Step>, end: State, bound: Bound, timing: Timing)
    decreases |steps|
  {
    if steps == [] then end == s
    else
      && Enabled(s, steps[0]) && Timely(s, steps[0], bound, timing)
      && Reaches(Apply(s, steps[0], timing), steps[1..], end, bound, timing)
  }

  /** The row may have been taken from `r`: the claim expired, or ran out its lock with nothing committed. */
  ghost predicate TimeUp(s: State, r: Request, timing: Timing)
    requires r in s.claims
  {
    || s.now >= s.claims[r].expiresAt
    || (!Committed(s.ledger, r) && s.now > s.claims[r].claimedAt + timing.lockTimeoutMs)
  }

  ghost predicate Owned(s: State, timing: Timing) {
    && (forall r | r in s.phases && s.phases[r].Arrived? :: r !in s.claims && s.phases[r].readAt <= s.now)
    && (forall r | r in s.claims ::
         && r in s.phases
         && s.claims[r].claimedAt <= s.now
         && s.claims[r].expiresAt == s.claims[r].claimedAt + timing.ttlMs)
    && (forall r | IsRunning(s, r) :: r in s.claims)
    && (forall t | t in s.txs :: s.txs[t].owner in s.claims)
    && (forall i | 0 <= i < |s.ledger| :: s.ledger[i].request in s.claims && s.ledger[i].at <= s.now)
    && (s.row.Some? ==> var row := s.row.value;
        && row.id in s.claims
        && s.claims[row.id] == Claim(row.fingerprint, row.claimedAt, row.expiresAt))
  }

  ghost predicate Locks(s: State) {
    && (forall t | t in s.txs && s.txs[t].stage.Joined? && s.txs[t].stage.follows :: s.txs[t].wrote)
    && (forall t | t in s.txs && Marked(s.txs[t]) :: s.txs[t].wrote && Markable(s, s.txs[t].owner))
    && (forall t, u | t in s.txs && u in s.txs && Marked(s.txs[t]) && Marked(s.txs[u]) :: t == u)
  }

  /** A writing transaction that joined without marking found its claim lost, or already marked. */
  ghost predicate Unmarked(s: State, timing: Timing)
    requires Owned(s, timing)
  {
    forall t | t in s.txs && s.txs[t].wrote && s.txs[t].stage.Joined? && !s.txs[t].stage.marked ::
      Committed(s.ledger, s.txs[t].owner) || TimeUp(s, s.txs[t].owner, timing)
  }

  /** Where the row is, for each claim: still the claimant's, lost to time, or given up; completed once it committed. */
  ghost predicate Placed(s: State, timing: Timing)
    requires Owned(s, timing)
  {
    && (forall r | r in s.claims :: Stands(s, r) || TimeUp(s, r, timing) || (s.phases[r].Over? && !Committed(s.ledger, r)))
    && (forall r | r in s.claims && Committed(s.ledger, r) ::
         (Stands(s, r) && s.row.value.status == Completed) || s.now >= s.claims[r].expiresAt)
  }

  /** A request that is done, or whose row is completed while it runs, has committed. */
  ghost predicate Kept(s: State, timing: Timing)
    requires Owned(s, timing)
  {
    && Placed(s, timing)
    && (forall r | IsRunning(s, r) && s.phases[r].done :: Committed(s.ledger, r))
    && (forall r | IsRunning(s, r) && Stands(s, r) && s.row.value.status == Completed :: Committed(s.ledger, r))
  }

  ghost predicate Inv(s: State, timing: Timing) {
    Owned(s, timing) && Locks(s) && Unmarked(s, timing) && Kept(s, timing)
  }

  /** Transactions may go, and open ones of claimants come or write. */
  ghost predicate OnlyOpens(s: State, txs: map<TxId, Tx>) {
    forall t | t in txs :: (t in s.txs && txs[t] == s.txs[t]) || (txs[t].stage.Open? && txs[t].owner in s.claims)
  }

  lemma OpenTxsOwned(s: State, txs: map<TxId, Tx>, timing: Timing)
    requires Inv(s, timing) && OnlyOpens(s, txs)
    ensures Owned(s.(txs := txs), timing) && Locks(s.(txs := txs))
  {
    hide Committed, Unmarked, Kept;
  }

  lemma OpenTxsKept(s: State, txs: map<TxId, Tx>, timing: Timing)
    requires Inv(s, timing) && OnlyOpens(s, txs) && Owned(s.(txs := txs), timing)
    ensures Unmarked(s.(txs := txs), timing) && Kept(s.(txs := txs), timing)
  {
    hide Committed, Locks;
  }

  /** Nothing else turns on them. */
  lemma OpenTxsKeep(s: State, txs: map<TxId, Tx>, timing: Timing)
    requires Inv(s, timing) && OnlyOpens(s, txs)
    ensures Inv(s.(txs := txs), timing)
  {
    hide Owned, Locks, Unmarked, Kept;
    OpenTxsOwned(s, txs, timing);
    OpenTxsKept(s, txs, timing);
  }

  lemma OverOwned(s: State, r: Request, timing: Timing)
    requires Inv(s, timing) && r in s.phases
    ensures var s' := s.(phases := s.phases[r := Over]); Owned(s', timing) && Locks(s')
  {
    hide Committed, Unmarked, Kept;
  }

  lemma OverKept(s: State, r: Request, timing: Timing)
    requires Inv(s, timing) && r in s.phases && Owned(s.(phases := s.phases[r := Over]), timing)
    ensures var s' := s.(phases := s.phases[r := Over]); Unmarked(s', timing) && Kept(s', timing)
  {
    hide Committed, Locks;
  }

  /** A request may end at any time. */
  lemma OverKeeps(s: State, r: Request, timing: Timing)
    requires Inv(s, timing) && r in s.phases
    ensures Inv(s.(phases := s.phases[r := Over]), timing)
  {
    hide Owned, Locks, Unmarked, Kept;
    OverOwned(s, r, timing);
    OverKept(s, r, timing);
  }

  /** A row nobody has locked may go once its claim has expired, or its claimant is over with nothing marked. */
  lemma RowGoneKeeps(s: State, timing: Timing)
    requires Inv(s, timing) && Unlocked(s) && s.row.Some?
    requires s.now >= s.row.value.expiresAt || (s.row.value.status == InProgress && s.phases[s.row.value.id].Over?)
    ensures Inv(s.(row := None), timing)
  {
    hide Committed;
  }

  /** A row nobody has locked may carry the response of a claimant that is over. */
  lemma RowAnsweredKeeps(s: State, r: Request, status: int, body: string, timing: Timing)
    requires Inv(s, timing) && Unlocked(s) && s.row.Some? && (Stands(s, r) ==> s.phases[r].Over?)
    ensures Inv(s.(row := Some(WithResponse(s.row.value, r, status, body))), timing)
  {
    hide Committed;
  }

  lemma TickKeeps(s: State, elapsed: nat, timing: Timing)
    requires Inv(s, timing)
    ensures Inv(Apply(s, Tick(elapsed), timing), timing)
  {
    hide Committed;
    var s' := Apply(s, Tick(elapsed), timing);
    assert forall r :: Committed(s'.ledger, r) <==> Committed(s.ledger, r);
  }

  lemma ArriveKeeps(s: State, r: Request, payload: string, timing: Timing)
    requires Inv(s, timing) && Enabled(s, Arrive(r, payload))
    ensures Inv(Apply(s, Arrive(r, payload), timing), timing)
  {
    hide Committed;
    var s' := Apply(s, Arrive(r, payload), timing);
  }

  /** A claim is only ever taken over once its time is up. */
  lemma TakenOverIsTimeUp(s: State, r: Request, timing: Timing)
    requires Inv(s, timing) && r in s.phases && s.phases[r].Arrived? && s.row.Some?
    requires Decide(s, r, timing) == TakeOver
    ensures s.row.value.id in s.claims && TimeUp(s, s.row.value.id, timing)
  {
  }

  lemma TakeOverOwned(s: State, r: Request, heard: bool, timing: Timing)
    requires Inv(s, timing) && Enabled(s, Begin(r, heard)) && Decide(s, r, timing) == TakeOver
    ensures Owned(Apply(s, Begin(r, heard), timing), timing) && !Committed(s.ledger, r)
  {
  }

  lemma TakeOverUnmarked(s: State, r: Request, heard: bool, timing: Timing)
    requires Inv(s, timing) && Enabled(s, Begin(r, heard)) && Decide(s, r, timing) == TakeOver
    requires Owned(Apply(s, Begin(r, heard), timing), timing)
    ensures var s' := Apply(s, Begin(r, heard), timing); Locks(s') && Unmarked(s', timing)
  {
    hide Committed;
  }

  lemma TakeOverKept(s: State, r: Request, heard: bool, timing: Timing)
    requires Inv(s, timing) && Enabled(s, Begin(r, heard)) && Decide(s, r, timing) == TakeOver
    requires Owned(Apply(s, Begin(r, heard), timing), timing) && !Committed(s.ledger, r)
    ensures Kept(Apply(s, Begin(r, heard), timing), timing)
  {
    hide Committed;
    var s' := Apply(s, Begin(r, heard), timing);
    forall q | q in s.claims
      ensures TimeUp(s', q, timing) || (s'.phases[q].Over? && !Committed(s.ledger, q))
      ensures Committed(s.ledger, q) ==> s'.now >= s'.claims[q].expiresAt
    {
      if Stands(s, q) { TakenOverIsTimeUp(s, r, timing); }
    }
  }

  lemma BeginKeeps(s: State, r: Request, heard: bool, timing: Timing)
    requires Inv(s, timing) && Enabled(s, Begin(r, heard))
    ensures Inv(Apply(s, Begin(r, heard), timing), timing)
  {
    hide Committed;
    if Decide(s, r, timing) == TakeOver {
      TakeOverOwned(s, r, heard, timing);
      TakeOverUnmarked(s, r, heard, timing);
      TakeOverKept(s, r, heard, timing);
    }
  }

  lemma OpenKeeps(s: State, r: Request, t: TxId, timing: Timing)
    requires Inv(s, timing) && Enabled(s, OpenTx(r, t))
    ensures Inv(Apply(s, OpenTx(r, t), timing), timing)
  {
    hide Locks, Unmarked, Kept;
    OpenTxsKeep(s, s.txs[t := Tx(r, false, Open)], timing);
  }

  lemma WriteKeeps(s: State, t: TxId, timing: Timing)
    requires Inv(s, timing) && Enabled(s, Write(t))
    ensures Inv(Apply(s, Write(t), timing), timing)
  {
    hide Locks, Unmarked, Kept;
    OpenTxsKeep(s, s.txs[t := s.txs[t].(wrote := true)], timing);
  }

  lemma JoinKeeps(s: State, t: TxId, status: int, timing: Timing)
    requires Inv(s, timing) && Enabled(s, Join(t, status))
    ensures Inv(Apply(s, Join(t, status), timing), timing)
  {
    JoinOwned(s, t, status, timing);
    JoinLocks(s, t, status, timing);
    JoinKept(s, t, status, timing);
  }

  lemma JoinOwned(s: State, t: TxId, status: int, timing: Timing)
    requires Inv(s, timing) && Enabled(s, Join(t, status))
    ensures Owned(Apply(s, Join(t, status), timing), timing)
  {
    hide Committed, Locks, Unmarked, Kept;
  }

  lemma JoinLocks(s: State, t: TxId, status: int, timing: Timing)
    requires Inv(s, timing) && Enabled(s, Join(t, status))
    ensures Locks(Apply(s, Join(t, status), timing))
  {
    hide Committed, Owned, Unmarked, Kept;
  }

  lemma JoinKept(s: State, t: TxId, status: int, timing: Timing)
    requires Inv(s, timing) && Enabled(s, Join(t, status)) && Owned(Apply(s, Join(t, status), timing), timing)
    ensures var s' := Apply(s, Join(t, status), timing); Unmarked(s', timing) && Kept(s', timing)
  {
    hide Committed, Locks;
  }

  /** A writing commit in time finds the row its own claim's, marked by it or already done. */
  lemma TimelyCommitStands(s: State, t: TxId, status: int, heard: bool, timing: Timing)
    requires Inv(s, timing) && Enabled(s, CommitTx(t, status, heard)) && s.txs[t].wrote
    requires InTime(s, s.txs[t].owner, timing)
    ensures var s' := Apply(s, CommitTx(t, status, heard), timing);
            Stands(s, s.txs[t].owner) && Stands(s', s.txs[t].owner) && s'.row.value.status == Completed
  {
    assert !TimeUp(s, s.txs[t].owner, timing);
  }

  lemma AppendCommits(ledger: seq<Commit>, c: Commit)
    ensures forall q :: Committed(ledger + [c], q) <==> Committed(ledger, q) || q == c.request
  {
    var longer := ledger + [c];
    assert longer[|ledger|] == c;
    forall q | Committed(ledger, q) ensures Committed(longer, q) {
      var i :| 0 <= i < |ledger| && ledger[i].request == q;
      assert longer[i].request == q;
    }
  }

  lemma WritingCommitOwned(s: State, t: TxId, status: int, heard: bool, timing: Timing)
    requires Inv(s, timing) && Enabled(s, CommitTx(t, status, heard)) && s.txs[t].wrote
    ensures var s' := Apply(s, CommitTx(t, status, heard), timing); Owned(s', timing) && Locks(s')
  {
    hide Committed;
  }

  lemma WritingCommitUnmarked(s: State, t: TxId, status: int, heard: bool, timing: Timing)
    requires Inv(s, timing) && Enabled(s, CommitTx(t, status, heard)) && s.txs[t].wrote
    requires Owned(Apply(s, CommitTx(t, status, heard), timing), timing)
    ensures Unmarked(Apply(s, CommitTx(t, status, heard), timing), timing)
  {
    hide Locks, Kept;
    AppendCommits(s.ledger, Commit(s.txs[t].owner, s.now));
  }

  lemma WritingCommitEffect(s: State, t: TxId, status: int, heard: bool, timing: Timing)
    requires Enabled(s, CommitTx(t, status, heard)) && s.txs[t].wrote
    ensures var s' := Apply(s, CommitTx(t, status, heard), timing);
            && s'.now == s.now && s'.claims == s.claims && s'.ledger == s.ledger + [Commit(s.txs[t].owner, s.now)]
            && (forall r | r in s.phases :: r in s'.phases && (s'.phases[r].Over? <==> s.phases[r].Over?))
            && (forall r | Stands(s, r) :: Stands(s', r) && (s.row.value.status == Completed ==> s'.row.value.status == Completed))
  {
  }

  lemma WritingCommitPlaced(s: State, t: TxId, status: int, heard: bool, timing: Timing)
    requires Inv(s, timing) && Enabled(s, CommitTx(t, status, heard)) && s.txs[t].wrote
    requires Timely(s, CommitTx(t, status, heard), FirstInTime, timing)
    requires Owned(Apply(s, CommitTx(t, status, heard), timing), timing)
    ensures Placed(Apply(s, CommitTx(t, status, heard), timing), timing)
  {
    hide Unmarked, Locks, Committed, Apply;
    WritingCommitEffect(s, t, status, heard, timing);
    if InTime(s, s.txs[t].owner, timing) { TimelyCommitStands(s, t, status, heard, timing); }
    AppendCommits(s.ledger, Commit(s.txs[t].owner, s.now));
  }

  lemma WritingCommitKept(s: State, t: TxId, status: int, heard: bool, timing: Timing)
    requires Inv(s, timing) && Enabled(s, CommitTx(t, status, heard)) && s.txs[t].wrote
    requires Timely(s, CommitTx(t, status, heard), FirstInTime, timing)
    requires Owned(Apply(s, CommitTx(t, status, heard), timing), timing)
    ensures Kept(Apply(s, CommitTx(t, status, heard), timing), timing)
  {
    hide Unmarked, Committed, Placed;
    WritingCommitPlaced(s, t, status, heard, timing);
    AppendCommits(s.ledger, Commit(s.txs[t].owner, s.now));
  }

  lemma CommitKeeps(s: State, t: TxId, status: int, heard: bool, timing: Timing)
    requires Inv(s, timing) && Enabled(s, CommitTx(t, status, heard)) && Timely(s, CommitTx(t, status, heard), FirstInTime, timing)
    ensures Inv(Apply(s, CommitTx(t, status, heard), timing), timing)
  {
    hide Committed;
    if s.txs[t].wrote {
      WritingCommitOwned(s, t, status, heard, timing);
      WritingCommitUnmarked(s, t, status, heard, timing);
      WritingCommitKept(s, t, status, heard, timing);
    }
  }

  lemma RollbackKeeps(s: State, t: TxId, timing: Timing)
    requires Inv(s, timing) && Enabled(s, Rollback(t))
    ensures Inv(Apply(s, Rollback(t), timing), timing)
  {
    hide Owned, Locks, Unmarked, Kept;
    OpenTxsKeep(s, s.txs - {t}, timing);
  }

  lemma FailKeeps(s: State, r: Request, released: bool, timing: Timing)
    requires Inv(s, timing) && Enabled(s, Fail(r, released))
    ensures Inv(Apply(s, Fail(r, released), timing), timing)
  {
    hide Locks, Unmarked, Kept;
    OverKeeps(s, r, timing);
    var over := s.(phases := s.phases[r := Over]);
    if released && !s.phases[r].done && s.row.Some? && Releasable(s.row.value, r) { RowGoneKeeps(over, timing); }
  }

  lemma SucceedKeeps(s: State, r: Request, status: int, body: string, stored: bool, timing: Timing)
    requires Inv(s, timing) && Enabled(s, Succeed(r, status, body, stored))
    ensures Inv(Apply(s, Succeed(r, status, body, stored), timing), timing)
  {
    hide Locks, Unmarked, Kept;
    OverKeeps(s, r, timing);
    var over := s.(phases := s.phases[r := Over]);
    if stored && s.row.Some? { RowAnsweredKeeps(over, r, status, body, timing); }
  }

  lemma CrashKeeps(s: State, r: Request, timing: Timing)
    requires Inv(s, timing) && Enabled(s, Crash(r))
    ensures Inv(Apply(s, Crash(r), timing), timing)
  {
    hide Owned, Locks, Unmarked, Kept;
    OverKeeps(s, r, timing);
  }

  lemma PurgeKeeps(s: State, readAt: int, timing: Timing)
    requires Inv(s, timing) && Enabled(s, Purge(readAt))
    ensures Inv(Apply(s, Purge(readAt), timing), timing)
  {
    hide Locks, Unmarked, Kept;
    if s.row.Some? && s.row.value.expiresAt < readAt { RowGoneKeeps(s, timing); }
  }

  lemma StepKeeps(s: State, step: Step, timing: Timing)
    requires Inv(s, timing) && Enabled(s, step) && Timely(s, step, FirstInTime, timing)
    ensures Inv(Apply(s, step, timing), timing)
  {
    match step
    case Tick(elapsed) => TickKeeps(s, elapsed, timing);
    case Arrive(r, payload) => ArriveKeeps(s, r, payload, timing);
    case Begin(r, heard) => BeginKeeps(s, r, heard, timing);
    case OpenTx(r, t) => OpenKeeps(s, r, t, timing);
    case Write(t) => WriteKeeps(s, t, timing);
    case Join(t, status) => JoinKeeps(s, t, status, timing);
    case CommitTx(t, status, heard) => CommitKeeps(s, t, status, heard, timing);
    case Rollback(t) => RollbackKeeps(s, t, timing);
    case Purge(readAt) => PurgeKeeps(s, readAt, timing);
    case Fail(r, released) => FailKeeps(s, r, released, timing);
    case Succeed(r, status, body, stored) => SucceedKeeps(s, r, status, body, stored, timing);
    case Crash(r) => CrashKeeps(s, r, timing);
  }

  lemma {:induction false} RunKeeps(s: State, steps: seq<Step>, end: State, timing: Timing)
    requires Inv(s, timing) && Reaches(s, steps, end, FirstInTime, timing)
    ensures Inv(end, timing)
    decreases |steps|
  {
    if steps != [] {
      StepKeeps(s, steps[0], timing);
      RunKeeps(Apply(s, steps[0], timing), steps[1..], end, timing);
    }
  }

  /**
   While a committed request's key lasts, every other request is answered from it:
   an identical one replays, a different one is refused, and none proceeds.
   */
  lemma CommittedWorkIsReplayed(steps: seq<Step>, s: State, timing: Timing, r: Request, q: Request)
    requires Reaches(START, steps, s, FirstInTime, timing)
    requires Committed(s.ledger, r) && r in s.claims && s.now < s.claims[r].expiresAt
    requires q in s.phases && s.phases[q].Arrived?
    ensures if s.phases[q].payload == s.claims[r].payload then Decide(s, q, timing).Replay?
            else Decide(s, q, timing) == Refuse(KeyReused)
  {
    hide Committed, Reaches, Unmarked, Locks;
    RunKeeps(START, steps, s, timing);
  }

  /** The request is over, and until its key expires its row carries just this answer. */
  ghost predicate Carries(s: State, r: Request, status: int, body: Option<string>) {
    && r in s.claims && r in s.phases
    && (s.now < s.claims[r].expiresAt ==>
          && Stands(s, r) && s.row.value.status == Completed
          && s.row.value.responseStatus == Some(status) && s.row.value.responseBody == body)
  }

  /** No response is stored of the request's. */
  predicate Stores(step: Step, r: Request) {
    step.Succeed? && step.r == r && step.stored
  }

  lemma StepCarries(s: State, step: Step, r: Request, status: int, body: Option<string>, timing: Timing)
    requires Inv(s, timing) && Enabled(s, step) && Carries(s, r, status, body) && !Stores(step, r)
    ensures Carries(Apply(s, step, timing), r, status, body)
    ensures var s' := Apply(s, step, timing); s'.claims[r] == s.claims[r] && s'.now >= s.now
    ensures s.phases[r].Over? ==> Apply(s, step, timing).phases[r].Over?
  {
    hide Locks, Unmarked, Kept, Committed, HandlerFinished;
  }

  lemma {:induction false} RunCarries(s: State, steps: seq<Step>, end: State, r: Request, status: int, body: Option<string>, timing: Timing)
    requires Inv(s, timing) && Reaches(s, steps, end, FirstInTime, timing) && Carries(s, r, status, body)
    requires (r in s.phases && s.phases[r].Over?) || forall i | 0 <= i < |steps| :: !Stores(steps[i], r)
    ensures Inv(end, timing) && Carries(end, r, status, body) && r in s.claims && r in end.claims && end.claims[r] == s.claims[r]
    decreases |steps|
  {
    hide Inv, Carries, Apply;
    CarriesAClaim(s, r, status, body);
    if steps != [] {
      if s.phases[r].Over? { OverStoresNothing(s, steps[0], r); }
      StepKeeps(s, steps[0], timing);
      StepCarries(s, steps[0], r, status, body, timing);
      CarriesAClaim(Apply(s, steps[0], timing), r, status, body);
      RunCarries(Apply(s, steps[0], timing), steps[1..], end, r, status, body, timing);
    }
  }

  lemma CarriesAClaim(s: State, r: Request, status: int, body: Option<string>)
    requires Carries(s, r, status, body)
    ensures r in s.claims && r in s.phases
  {
  }

  lemma OverStoresNothing(s: State, step: Step, r: Request)
    requires Enabled(s, step) && r in s.phases && s.phases[r].Over?
    ensures !Stores(step, r)
  {
  }

  lemma CarriedIsReplayed(s: State, r: Request, status: int, body: Option<string>, q: Request, timing: Timing)
    requires Inv(s, timing) && Carries(s, r, status, body) && s.now < s.claims[r].expiresAt
    requires q in s.phases && s.phases[q].Arrived? && s.phases[q].payload == s.claims[r].payload
    ensures Decide(s, q, timing) == Replay(status, body)
  {
    hide Locks, Unmarked, Kept, Committed;
  }

  lemma StartsWell(timing: Timing)
    ensures Inv(START, timing)
  {
  }

  lemma SuccessCarries(s: State, r: Request, status: int, body: string, timing: Timing)
    requires Inv(s, timing) && Enabled(s, Succeed(r, status, body, true)) && Stands(s, r)
    ensures var s' := Apply(s, Succeed(r, status, body, true), timing); Carries(s', r, status, Some(body)) && r in s'.phases && s'.phases[r].Over?
  {
    hide Locks, Unmarked, Kept, Committed;
  }

  lemma MarkCarries(s: State, t: TxId, status: int, heard: bool, timing: Timing)
    requires Inv(s, timing) && Enabled(s, CommitTx(t, status, heard)) && Marked(s.txs[t])
    ensures Carries(Apply(s, CommitTx(t, status, heard), timing), s.txs[t].owner, status, None)
  {
    hide Unmarked, Kept, Committed;
  }

  /**
   A response stored by the request whose row stands is what every identical request gets,
   status and body, whatever happens afterwards, until the key expires.
   */
  lemma StoredResponseIsReplayed(before: seq<Step>, s: State, r: Request, status: int, body: string, after: seq<Step>, end: State,
                                 q: Request, timing: Timing)
    requires Reaches(START, before, s, FirstInTime, timing) && Enabled(s, Succeed(r, status, body, true)) && Stands(s, r)
    requires Reaches(Apply(s, Succeed(r, status, body, true), timing), after, end, FirstInTime, timing)
    requires r in end.claims && end.now < end.claims[r].expiresAt
    requires q in end.phases && end.phases[q].Arrived? && end.phases[q].payload == end.claims[r].payload
    ensures Decide(end, q, timing) == Replay(status, Some(body))
  {
    hide Reaches, Apply, Inv, Carries, Enabled;
    StartsWell(timing);
    RunKeeps(START, before, s, timing);
    StepKeeps(s, Succeed(r, status, body, true), timing);
    var answered := Apply(s, Succeed(r, status, body, true), timing);
    SuccessCarries(s, r, status, body, timing);
    RunCarries(answered, after, end, r, status, Some(body), timing);
    CarriedIsReplayed(end, r, status, Some(body), q, timing);
  }

  /** Where only the mark of a commit came, what they get is its status, and no body. */
  lemma MarkIsReplayed(before: seq<Step>, s: State, t: TxId, status: int, heard: bool, after: seq<Step>, end: State, q: Request, timing: Timing)
    requires Reaches(START, before, s, FirstInTime, timing) && Enabled(s, CommitTx(t, status, heard)) && Marked(s.txs[t])
    requires Timely(s, CommitTx(t, status, heard), FirstInTime, timing)
    requires Reaches(Apply(s, CommitTx(t, status, heard), timing), after, end, FirstInTime, timing)
    requires forall i | 0 <= i < |after| :: !Stores(after[i], s.txs[t].owner)
    requires s.txs[t].owner in end.claims && end.now < end.claims[s.txs[t].owner].expiresAt
    requires q in end.phases && end.phases[q].Arrived? && end.phases[q].payload == end.claims[s.txs[t].owner].payload
    ensures Decide(end, q, timing) == Replay(status, None)
  {
    hide Reaches, Apply, Inv, Carries;
    StartsWell(timing);
    var r := s.txs[t].owner;
    RunKeeps(START, before, s, timing);
    StepKeeps(s, CommitTx(t, status, heard), timing);
    var marked := Apply(s, CommitTx(t, status, heard), timing);
    MarkCarries(s, t, status, heard, timing);
    RunCarries(marked, after, end, r, status, None, timing);
    CarriedIsReplayed(end, r, status, None, q, timing);
  }

  /** A handler that failed with nothing committed leaves the key free: whoever asks next proceeds. */
  lemma FailureFreesTheKey(steps: seq<Step>, s: State, timing: Timing, r: Request, q: Request)
    requires Reaches(START, steps, s, FirstInTime, timing)
    requires Enabled(s, Fail(r, true)) && !Committed(s.ledger, r) && Stands(s, r)
    requires q in s.phases && s.phases[q].Arrived? && q != r
    ensures var s' := Apply(s, Fail(r, true), timing);
            s'.row == None && Decide(s', q, timing) == TakeOver
  {
    hide Committed, Reaches, Unmarked, Locks;
    RunKeeps(START, steps, s, timing);
  }

  /** A handler that failed after a commit keeps the key spent, even if that commit was never acknowledged. */
  lemma FailureAfterCommitKeepsTheKey(steps: seq<Step>, s: State, timing: Timing, r: Request, released: bool)
    requires Reaches(START, steps, s, FirstInTime, timing)
    requires Enabled(s, Fail(r, released)) && Committed(s.ledger, r)
    requires r in s.claims && s.now < s.claims[r].expiresAt
    ensures var s' := Apply(s, Fail(r, released), timing);
            Stands(s', r) && s'.row.value.status == Completed
  {
    hide Committed, Reaches, Unmarked, Locks;
    RunKeeps(START, steps, s, timing);
  }

  // --- Once per key ----------------------------------------------------------------------

  predicate IsFirst(ledger: seq<Commit>, j: nat)
    requires j < |ledger|
  {
    forall k | 0 <= k < j :: ledger[k].request != ledger[j].request
  }

  /** A request commits after another, for the first time or at all, only once that one's key has expired. */
  ghost predicate OncePerKey(ledger: seq<Commit>, claims: map<Request, Claim>, bound: Bound) {
    forall i, j | 0 <= i < j < |ledger| && ledger[i].request != ledger[j].request && (bound.AllInTime? || IsFirst(ledger, j)) ::
      ledger[i].request in claims && ledger[j].at >= claims[ledger[i].request].expiresAt
  }

  /** When a writing commit is in time, nobody else's committed work has its key still. */
  lemma OthersExpired(s: State, t: TxId, status: int, heard: bool, timing: Timing)
    requires Inv(s, timing) && Enabled(s, CommitTx(t, status, heard)) && s.txs[t].wrote
    requires InTime(s, s.txs[t].owner, timing)
    ensures forall i | 0 <= i < |s.ledger| && s.ledger[i].request != s.txs[t].owner ::
              s.ledger[i].request in s.claims && s.now >= s.claims[s.ledger[i].request].expiresAt
  {
    TimelyCommitStands(s, t, status, heard, timing);
    forall i | 0 <= i < |s.ledger| && s.ledger[i].request != s.txs[t].owner
      ensures s.ledger[i].request in s.claims && s.now >= s.claims[s.ledger[i].request].expiresAt
    {
      assert Committed(s.ledger, s.ledger[i].request);
    }
  }

  lemma AppendOnce(ledger: seq<Commit>, claims: map<Request, Claim>, c: Commit, bound: Bound)
    requires OncePerKey(ledger, claims, bound)
    requires bound.AllInTime? || !Committed(ledger, c.request) ==>
               forall i | 0 <= i < |ledger| && ledger[i].request != c.request ::
                 ledger[i].request in claims && c.at >= claims[ledger[i].request].expiresAt
    ensures OncePerKey(ledger + [c], claims, bound)
  {
    var longer := ledger + [c];
    forall i, j | 0 <= i < j < |longer| && longer[i].request != longer[j].request && (bound.AllInTime? || IsFirst(longer, j))
      ensures longer[i].request in claims && longer[j].at >= claims[longer[i].request].expiresAt
    {
      if j < |ledger| {
        assert IsFirst(longer, j) ==> forall k | 0 <= k < j :: longer[k] == ledger[k];
        assert IsFirst(longer, j) ==> IsFirst(ledger, j);
      } else if Committed(ledger, c.request) {
        var k :| 0 <= k < |ledger| && ledger[k].request == c.request;
        assert longer[k] == ledger[k];
      }
    }
  }

  lemma CommitKeepsOnce(s: State, t: TxId, status: int, heard: bool, bound: Bound, timing: Timing)
    requires Inv(s, timing) && OncePerKey(s.ledger, s.claims, bound) && !bound.Anytime?
    requires Enabled(s, CommitTx(t, status, heard)) && Timely(s, CommitTx(t, status, heard), bound, timing)
    ensures var s' := Apply(s, CommitTx(t, status, heard), timing); OncePerKey(s'.ledger, s'.claims, bound)
  {
    hide Locks, Unmarked, Kept, OncePerKey;
    if s.txs[t].wrote {
      if InTime(s, s.txs[t].owner, timing) { OthersExpired(s, t, status, heard, timing); }
      AppendOnce(s.ledger, s.claims, Commit(s.txs[t].owner, s.now), bound);
    }
  }

  lemma OtherStepKeepsOnce(s: State, step: Step, bound: Bound, timing: Timing)
    requires Inv(s, timing) && OncePerKey(s.ledger, s.claims, bound) && Enabled(s, step) && !step.CommitTx?
    ensures var s' := Apply(s, step, timing); OncePerKey(s'.ledger, s'.claims, bound)
  {
    hide Locks, Unmarked, Kept;
  }

  lemma {:induction false} RunKeepsOnce(s: State, steps: seq<Step>, end: State, bound: Bound, timing: Timing)
    requires Inv(s, timing) && OncePerKey(s.ledger, s.claims, bound) && !bound.Anytime?
    requires Reaches(s, steps, end, bound, timing)
    ensures OncePerKey(end.ledger, end.claims, bound)
    decreases |steps|
  {
    hide Inv, OncePerKey, Apply;
    if steps != [] {
      StepKeeps(s, steps[0], timing);
      match steps[0] {
        case CommitTx(t, status, heard) => CommitKeepsOnce(s, t, status, heard, bound, timing);
        case _ => OtherStepKeepsOnce(s, steps[0], bound, timing);
      }
      RunKeepsOnce(Apply(s, steps[0], timing), steps[1..], end, bound, timing);
    }
  }

  /**
   Safety over every run in which each request's first writing commit is in time: a
   request that first commits after another has done so only once that one's key has
   expired. So before a key expires no second request starts to have its work kept.
   */
  lemma AtMostOneRequestCommits(steps: seq<Step>, end: State, timing: Timing, i: nat, j: nat)
    requires Reaches(START, steps, end, FirstInTime, timing)
    requires i < j < |end.ledger| && end.ledger[i].request != end.ledger[j].request && IsFirst(end.ledger, j)
    ensures end.ledger[i].request in end.claims
    ensures end.ledger[j].at >= end.claims[end.ledger[i].request].expiresAt
  {
    RunKeepsOnce(START, steps, end, FirstInTime, timing);
  }

  /** If every writing commit is in time, none at all falls before another request's key has expired. */
  lemma NoCommitBeforeAnothersExpiry(steps: seq<Step>, end: State, timing: Timing, i: nat, j: nat)
    requires Reaches(START, steps, end, AllInTime, timing)
    requires i < j < |end.ledger| && end.ledger[i].request != end.ledger[j].request
    ensures end.ledger[i].request in end.claims
    ensures end.ledger[j].at >= end.claims[end.ledger[i].request].expiresAt
  {
    RunKeepsOnce(START, steps, end, AllInTime, timing);
  }

  // --- What the bounds are for -----------------------------------------------------------

  /**
   Marking does not look at how many rows it touched. Whatever the state, committing a
   transaction that has just joined leaves the key standing for its work exactly when
   the row was still the claimant's as it joined; the work commits either way.
   */
  lemma KeyStandsForTheWorkIff(s: State, t: TxId, status: int, timing: Timing)
    requires Enabled(s, Join(t, status)) && Joins(s, t)
    ensures var r := s.txs[t].owner;
            var joined := Apply(s, Join(t, status), timing);
            Enabled(joined, CommitTx(t, status, true)) &&
            var s' := Apply(joined, CommitTx(t, status, true), timing);
            && Committed(s'.ledger, r)
            && (Stands(s', r) && s'.row.value.status == Completed <==> Stands(s, r))
  {
    var s' := Apply(Apply(s, Join(t, status), timing), CommitTx(t, status, true), timing);
    AppendCommits(s.ledger, Commit(s.txs[t].owner, s.now));
  }

  lemma OneMore(s: State, step: Step, steps: seq<Step>, end: State, bound: Bound, timing: Timing) returns (longer: seq<Step>)
    requires Enabled(s, step) && Timely(s, step, bound, timing)
    requires Reaches(Apply(s, step, timing), steps, end, bound, timing)
    ensures longer == [step] + steps && Reaches(s, longer, end, bound, timing)
  {
    longer := [step] + steps;
    assert longer[1..] == steps;
  }

  // Two runs, alike but for how the second request comes to claim the key.

  /** The first request at work, its transaction written and open, when the clock says `now`. */
  function Waiting(now: nat, row: Row, done: bool, payload: string, ledger: seq<Commit>, timing: Timing): State {
    State(now, Some(row), map[0 := Running(done)], map[0 := Claim(payload, 0, timing.ttlMs)],
          map[0 := Tx(0, true, Open)], ledger)
  }

  /** The second has claimed the key. */
  function Taken(s: State, payload: string, done: bool, txs: map<TxId, Tx>, timing: Timing): State {
    s.(row := Some(Claimed(1, payload, s.now, timing)), phases := map[0 := Running(done), 1 := Running(false)],
       claims := s.claims[1 := Claim(payload, s.now, s.now + timing.ttlMs)], txs := txs)
  }

  predicate IsWaiting(s: State, payload: string, done: bool, timing: Timing) {
    && s.row.Some? && s.now >= 0 && s == Waiting(s.now, s.row.value, done, payload, s.ledger, timing)
    && Evaluate(s.row.value, payload, s.now, timing) == TakeOver
  }

  lemma AnotherTakes(s: State, payload: string, done: bool, steps: seq<Step>, end: State, bound: Bound, timing: Timing)
    returns (longer: seq<Step>)
    requires IsWaiting(s, payload, done, timing)
    requires Reaches(Taken(s, payload, done, map[0 := Tx(0, true, Open)], timing), steps, end, bound, timing)
    ensures Reaches(s, longer, end, bound, timing)
  {
    hide Reaches;
    var arrived := s.(phases := map[0 := Running(done), 1 := Arrived(payload, s.now)]);
    var begun := Taken(s, payload, done, map[0 := Tx(0, true, Open)], timing);
    assert arrived.phases[1 := Running(false)] == begun.phases && arrived.txs == begun.txs;
    longer := OneMore(arrived, Begin(1, true), steps, end, bound, timing);
    assert s.phases[1 := Arrived(payload, s.now)] == arrived.phases;
    longer := OneMore(s, Arrive(1, payload), longer, end, bound, timing);
  }

  lemma AnotherWrites(s: State, payload: string, done: bool, steps: seq<Step>, end: State, bound: Bound, timing: Timing)
    returns (longer: seq<Step>)
    requires Reaches(Taken(s, payload, done, map[0 := Tx(0, true, Open), 1 := Tx(1, true, Open)], timing), steps, end, bound, timing)
    ensures Reaches(Taken(s, payload, done, map[0 := Tx(0, true, Open)], timing), longer, end, bound, timing)
  {
    hide Reaches;
    var first := Tx(0, true, Open);
    var begun := Taken(s, payload, done, map[0 := first], timing);
    var idle := begun.(txs := map[0 := first, 1 := Tx(1, false, Open)]);
    assert idle.txs[1 := Tx(1, true, Open)] == map[0 := first, 1 := Tx(1, true, Open)];
    longer := OneMore(idle, Write(1), steps, end, bound, timing);
    assert begun.txs[1 := Tx(1, false, Open)] == idle.txs;
    longer := OneMore(begun, OpenTx(1, 1), longer, end, bound, timing);
  }

  /** The second has done the work. */
  function Redone(s: State, payload: string, done: bool, timing: Timing): State {
    Taken(s, payload, done, map[0 := Tx(0, true, Open)], timing).(
      row := Some(MarkedDone(Claimed(1, payload, s.now, timing), 1, 201)),
      phases := map[0 := Running(done), 1 := Running(true)],
      ledger := s.ledger + [Commit(1, s.now)])
  }

  lemma AnotherCommits(s: State, payload: string, done: bool, steps: seq<Step>, end: State, bound: Bound, timing: Timing)
    returns (longer: seq<Step>)
    requires Reaches(Redone(s, payload, done, timing), steps, end, bound, timing)
    requires bound.Anytime? || timing.ttlMs > 0
    ensures Reaches(Taken(s, payload, done, map[0 := Tx(0, true, Open), 1 := Tx(1, true, Open)], timing), longer, end, bound, timing)
  {
    hide Reaches, Committed;
    var first := Tx(0, true, Open);
    var written := Taken(s, payload, done, map[0 := first, 1 := Tx(1, true, Open)], timing);
    var joined := written.(txs := map[0 := first, 1 := Tx(1, true, Joined(true, true))]);
    var redone := Redone(s, payload, done, timing);
    assert joined.txs - {1} == redone.txs && joined.phases[1 := Running(true)] == redone.phases;
    longer := OneMore(joined, CommitTx(1, 201, true), steps, end, bound, timing);
    assert written.txs[1 := Tx(1, true, Joined(true, true))] == joined.txs;
    longer := OneMore(written, Join(1, 201), longer, end, bound, timing);
  }

  /** The first's commit finds no row of its own to mark, and does not look. */
  lemma FirstCommits(s: State, done: bool, bound: Bound, timing: Timing) returns (steps: seq<Step>, end: State)
    requires s.row.Some? && s.row.value.id == 1 && 0 in s.claims
    requires s.phases == map[0 := Running(done), 1 := Running(true)] && s.txs == map[0 := Tx(0, true, Open)]
    requires bound.Anytime? || (bound.FirstInTime? && Committed(s.ledger, 0))
    ensures Reaches(s, steps, end, bound, timing)
    ensures end.ledger == s.ledger + [Commit(0, s.now)] && end.claims == s.claims && end.now == s.now
  {
    hide Committed;
    var joined := s.(txs := map[0 := Tx(0, true, Joined(false, !done))]);
    assert Apply(s, Join(0, 201), timing) == joined;
    end := Apply(joined, CommitTx(0, 201, true), timing);
    steps := OneMore(joined, CommitTx(0, 201, true), [], end, bound, timing);
    steps := OneMore(s, Join(0, 201), steps, end, bound, timing);
  }

  /** The second does the work, and the first's transaction commits too. */
  lemma BothCommit(s: State, payload: string, done: bool, bound: Bound, timing: Timing) returns (steps: seq<Step>, end: State)
    requires IsWaiting(s, payload, done, timing)
    requires bound.Anytime? || (bound.FirstInTime? && Committed(s.ledger, 0) && timing.ttlMs > 0)
    ensures Reaches(s, steps, end, bound, timing)
    ensures end.ledger == s.ledger + [Commit(1, s.now), Commit(0, s.now)] && end.now == s.now
    ensures end.claims == s.claims[1 := Claim(payload, s.now, s.now + timing.ttlMs)]
  {
    hide Reaches, Committed;
    AppendCommits(s.ledger, Commit(1, s.now));
    steps, end := FirstCommits(Redone(s, payload, done, timing), done, bound, timing);
    steps := AnotherCommits(s, payload, done, steps, end, bound, timing);
    steps := AnotherWrites(s, payload, done, steps, end, bound, timing);
    steps := AnotherTakes(s, payload, done, steps, end, bound, timing);
  }

  /**
   Neither half of the bound on a first commit can be dropped: under any timing a claimant
   slower than the timeout, or than the expiry if that comes no later, repeats the work of
   the request that took over while that one's key lasts; and its own still lasts too if
   there is room between the timeout and the expiry.
   */
  lemma SlowClaimantRepeatsTheWork(payload: string, timing: Timing) returns (steps: seq<Step>, end: State)
    requires timing.ttlMs > 0
    ensures Reaches(START, steps, end, Anytime, timing)
    ensures end.ledger == [Commit(1, end.now), Commit(0, end.now)]
    ensures 0 in end.claims && end.claims[0].claimedAt == 0 && 1 in end.claims && end.now < end.claims[1].expiresAt
    ensures timing.lockTimeoutMs + 1 < timing.ttlMs ==> end.now < end.claims[0].expiresAt
    ensures timing.ttlMs <= timing.lockTimeoutMs ==> end.now <= end.claims[0].claimedAt + timing.lockTimeoutMs
  {
    var late := Min(timing.lockTimeoutMs + 1, timing.ttlMs);
    var row := Claimed(0, payload, 0, timing);
    steps, end := BothCommit(Waiting(late, row, false, payload, [], timing), payload, false, Anytime, timing);
    steps := OneMore(Waiting(0, row, false, payload, [], timing), Tick(late), steps, end, Anytime, timing);
    steps := FirstWrites(payload, steps, end, Anytime, timing);
  }

  lemma FirstWrites(payload: string, steps: seq<Step>, end: State, bound: Bound, timing: Timing) returns (longer: seq<Step>)
    requires Reaches(Waiting(0, Claimed(0, payload, 0, timing), false, payload, [], timing), steps, end, bound, timing)
    ensures Reaches(START, longer, end, bound, timing)
  {
    var waiting := Waiting(0, Claimed(0, payload, 0, timing), false, payload, [], timing);
    var idle := waiting.(txs := map[0 := Tx(0, false, Open)]);
    var arrived := START.(phases := map[0 := Arrived(payload, 0)]);
    assert idle.txs[0 := Tx(0, true, Open)] == waiting.txs;
    longer := OneMore(idle, Write(0), steps, end, bound, timing);
    longer := OneMore(waiting.(txs := map[]), OpenTx(0, 0), longer, end, bound, timing);
    assert Apply(arrived, Begin(0, true), timing) == waiting.(txs := map[]);
    longer := OneMore(arrived, Begin(0, true), longer, end, bound, timing);
    longer := OneMore(START, Arrive(0, payload), longer, end, bound, timing);
  }

  /**
   Nor can the bound on the commits after: a request that committed in time and commits
   again once its key has expired does so while the key of the request that took over lasts.
   */
  lemma RepeatFallsBeforeAnothersExpiry(payload: string, timing: Timing) returns (steps: seq<Step>, end: State)
    requires timing.ttlMs > 0
    ensures Reaches(START, steps, end, FirstInTime, timing)
    ensures end.ledger == [Commit(0, 0), Commit(1, end.now), Commit(0, end.now)]
    ensures 1 in end.claims && end.now < end.claims[1].expiresAt
  {
    var row := MarkedDone(Claimed(0, payload, 0, timing), 0, 201);
    var once := Waiting(0, row, true, payload, [Commit(0, 0)], timing);
    assert once.ledger[0].request == 0;
    steps, end := BothCommit(once.(now := timing.ttlMs), payload, true, FirstInTime, timing);
    steps := OneMore(once, Tick(timing.ttlMs), steps, end, FirstInTime, timing);
    var idle := once.(txs := map[0 := Tx(0, false, Open)]);
    assert idle.txs[0 := Tx(0, true, Open)] == once.txs;
    steps := OneMore(idle, Write(0), steps, end, FirstInTime, timing);
    steps := OneMore(once.(txs := map[]), OpenTx(0, 0), steps, end, FirstInTime, timing);
    steps := FirstIsDone(payload, once.(txs := map[]), steps, end, timing);
    steps := FirstWrites(payload, steps, end, FirstInTime, timing);
  }

  lemma FirstIsDone(payload: string, once: State, steps: seq<Step>, end: State, timing: Timing) returns (longer: seq<Step>)
    requires timing.ttlMs > 0 && Reaches(once, steps, end, FirstInTime, timing)
    requires once == Waiting(0, MarkedDone(Claimed(0, payload, 0, timing), 0, 201), true, payload, [Commit(0, 0)], timing).(txs := map[])
    ensures Reaches(Waiting(0, Claimed(0, payload, 0, timing), false, payload, [], timing), longer, end, FirstInTime, timing)
  {
    var waiting := Waiting(0, Claimed(0, payload, 0, timing), false, payload, [], timing);
    var joined := waiting.(txs := map[0 := Tx(0, true, Joined(true, true))]);
    assert Apply(joined, CommitTx(0, 201, true), timing) == once;
    longer := OneMore(joined, CommitTx(0, 201, true), steps, end, FirstInTime, timing);
    assert Apply(waiting, Join(0, 201), timing) == joined;
    longer := OneMore(waiting, Join(0, 201), longer, end, FirstInTime, timing);
  }
}
