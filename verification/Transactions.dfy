module Transactions {
  /**
   The ambient transaction: savepoints for nesting, a list of callbacks per level, and
   participants that join the outermost commit.

   The work a caller passes is a tree. Postgres keeps savepoints by name, the latest
   of a name shadowing earlier ones, and keeps a savepoint it has rolled back to; names
   are made of the depth and a clock reading, so nothing stops two from coinciding.
   */

  import opened Wrappers

  datatype Callback = Callback(id: nat, throws: bool)

  datatype Action =
    | Write(row: int)
    | AfterCommit(callback: Callback)
    | Throw
    | Nested(body: seq<Action>, caught: bool, stamp: int)  // `runInTransaction` inside; `caught` by the code around it

  datatype Participant = Participant(body: seq<Action>, follows: Option<Callback>)

  /** What the database makes of COMMIT, and whether the caller hears. */
  datatype CommitOutcome = Acknowledged | Lost | Refused

  // --- The reference: every leaf reached, and the savepoints around it ------------------

  datatype Node = Node(leaf: Action, released: seq<bool>)

  /** Whether running `body` ends in an error its caller sees. */
  predicate Throws(body: seq<Action>) {
    body != [] && (FirstThrows(body[0]) || Throws(body[1..]))
  }

  predicate FirstThrows(action: Action) {
    match action
    case Throw => true
    case Nested(body, caught, _) => !caught && Throws(body)
    case _ => false
  }

  /** The writes and registrations reached, in order, each with the fate of every savepoint around it. */
  function Reached(body: seq<Action>, around: seq<bool>): seq<Node> {
    if body == [] then []
    else ReachedIn(body[0], around) + (if FirstThrows(body[0]) then [] else Reached(body[1..], around))
  }

  function ReachedIn(action: Action, around: seq<bool>): seq<Node> {
    match action
    case Throw => []
    case Nested(body, _, _) => Reached(body, around + [!Throws(body)])
    case leaf => [Node(leaf, around)]
  }

  predicate AllReleased(released: seq<bool>) {
    forall i | 0 <= i < |released| :: released[i]
  }

  /** The leaves with every savepoint around them released. */
  function Survivors(nodes: seq<Node>): seq<Action> {
    if nodes == [] then []
    else (if AllReleased(nodes[0].released) then [nodes[0].leaf] else []) + Survivors(nodes[1..])
  }

  function Rows(leaves: seq<Action>): seq<int> {
    if leaves == [] then []
    else (if leaves[0].Write? then [leaves[0].row] else []) + Rows(leaves[1..])
  }

  function Callbacks(leaves: seq<Action>): seq<Callback> {
    if leaves == [] then []
    else (if leaves[0].AfterCommit? then [leaves[0].callback] else []) + Callbacks(leaves[1..])
  }

  function Thens(participants: seq<Participant>): seq<Callback> {
    if participants == [] then []
    else
      var last := |participants| - 1;
      Thens(participants[..last]) + (if participants[last].follows.Some? then [participants[last].follows.value] else [])
  }

  /** Everything a transaction runs at its own level: the work, then each participant. */
  function Whole(work: seq<Action>, participants: seq<Participant>): seq<Action>
    decreases |participants|
  {
    if participants == [] then work
    else
      var last := |participants| - 1;
      Whole(work, participants[..last]) + participants[last].body
  }

  /** Callbacks run one after another until one throws. */
  function RunUntilThrow(callbacks: seq<Callback>): seq<Callback> {
    if callbacks == [] then []
    else if callbacks[0].throws then [callbacks[0]]
    else [callbacks[0]] + RunUntilThrow(callbacks[1..])
  }

  /** The rows a transaction of that commits: none if an error gets out of it. */
  function Committed(whole: seq<Action>): seq<int> {
    if Throws(whole) then [] else Rows(Survivors(Reached(whole, [])))
  }

  /** The callbacks it is left with. */
  function Registered(whole: seq<Action>): seq<Callback> {
    if Throws(whole) then [] else Callbacks(Survivors(Reached(whole, [])))
  }

  // --- The denotation the methods are proved against ------------------------------------

  /** What running `body` leaves at its own level: an inner body's leaves only if it did not throw. */
  function Left(body: seq<Action>): seq<Action> {
    if body == [] then []
    else LeftBy(body[0]) + (if FirstThrows(body[0]) then [] else Left(body[1..]))
  }

  function LeftBy(action: Action): seq<Action> {
    match action
    case Throw => []
    case Nested(body, _, _) => if Throws(body) then [] else Left(body)
    case leaf => [leaf]
  }

  lemma Append<T>(a: seq<T>, b: seq<T>, c: seq<T>)
    ensures a + b + c == a + (b + c)
  {
  }

  lemma SurvivorsFirst(node: Node, rest: seq<Node>)
    ensures Survivors([node] + rest) == (if AllReleased(node.released) then [node.leaf] else []) + Survivors(rest)
  {
    hide AllReleased;
    assert ([node] + rest)[0] == node && ([node] + rest)[1..] == rest;
  }

  lemma {:induction false} SurvivorsConcat(a: seq<Node>, b: seq<Node>)
    ensures Survivors(a + b) == Survivors(a) + Survivors(b)
    decreases |a|
  {
    if a == [] {
      assert a + b == b;
    } else {
      hide Survivors, AllReleased;
      assert a + b == [a[0]] + (a[1..] + b) && a == [a[0]] + a[1..];
      SurvivorsFirst(a[0], a[1..] + b);
      SurvivorsFirst(a[0], a[1..]);
      SurvivorsConcat(a[1..], b);
      Append(if AllReleased(a[0].released) then [a[0].leaf] else [], Survivors(a[1..]), Survivors(b));
    }
  }

  /** Under released savepoints what is left is what survives; under a rolled-back one nothing does. */
  lemma {:induction false} LeftAreSurvivors(body: seq<Action>, around: seq<bool>)
    ensures Survivors(Reached(body, around)) == if AllReleased(around) then Left(body) else []
    decreases body, 1
  {
    if body != [] {
      LeftBySurvives(body[0], around);
      LeftAreSurvivors(body[1..], around);
      SurvivorsConcat(ReachedIn(body[0], around), if FirstThrows(body[0]) then [] else Reached(body[1..], around));
    }
  }

  lemma {:induction false} LeftBySurvives(action: Action, around: seq<bool>)
    ensures Survivors(ReachedIn(action, around)) == if AllReleased(around) then LeftBy(action) else []
    decreases action, 0
  {
    match action
    case Nested(body, _, _) =>
      hide Throws, Left;
      var longer := around + [!Throws(body)];
      LeftAreSurvivors(body, longer);
      assert longer[|around|] == !Throws(body);
      assert forall i | 0 <= i < |around| :: longer[i] == around[i];
    case Throw =>
    case leaf =>
      assert [Node(leaf, around)][1..] == [];
  }

  lemma {:induction false} RowsConcat(a: seq<Action>, b: seq<Action>)
    ensures Rows(a + b) == Rows(a) + Rows(b)
    decreases |a|
  {
    if a == [] {
      assert a + b == b;
    } else {
      assert (a + b)[0] == a[0] && (a + b)[1..] == a[1..] + b;
      RowsConcat(a[1..], b);
      Append(if a[0].Write? then [a[0].row] else [], Rows(a[1..]), Rows(b));
    }
  }

  lemma {:induction false} CallbacksConcat(a: seq<Action>, b: seq<Action>)
    ensures Callbacks(a + b) == Callbacks(a) + Callbacks(b)
    decreases |a|
  {
    if a == [] {
      assert a + b == b;
    } else {
      assert (a + b)[0] == a[0] && (a + b)[1..] == a[1..] + b;
      CallbacksConcat(a[1..], b);
      Append(if a[0].AfterCommit? then [a[0].callback] else [], Callbacks(a[1..]), Callbacks(b));
    }
  }

  lemma {:induction false} ThrowsConcat(a: seq<Action>, b: seq<Action>)
    ensures Throws(a + b) <==> Throws(a) || Throws(b)
    decreases |a|
  {
    if a == [] {
      assert a + b == b;
    } else {
      assert (a + b)[1..] == a[1..] + b;
      ThrowsConcat(a[1..], b);
    }
  }

  lemma {:induction false} LeftConcat(a: seq<Action>, b: seq<Action>)
    ensures Left(a + b) == if Throws(a) then Left(a) else Left(a) + Left(b)
    decreases |a|
  {
    if a == [] {
      assert a + b == b;
    } else {
      assert (a + b)[1..] == a[1..] + b;
      LeftConcat(a[1..], b);
    }
  }

  // --- The connection, as Postgres behaves ----------------------------------------------

  datatype Name = Name(depth: nat, stamp: int)

  datatype Saved = Saved(name: Name, written: seq<int>)

  /** Where the latest savepoint of a name stands, or the length if there is none. */
  function Latest(savepoints: seq<Saved>, name: Name): (k: nat)
    ensures k <= |savepoints|
    ensures k < |savepoints| ==>
              && savepoints[k].name == name
              && forall i | k < i < |savepoints| :: savepoints[i].name != name
    ensures k == |savepoints| ==> forall i | 0 <= i < |savepoints| :: savepoints[i].name != name
  {
    if savepoints == [] then 0
    else
      var last := |savepoints| - 1;
      if savepoints[last].name == name then last
      else
        var k := Latest(savepoints[..last], name);
        if k < last then k else |savepoints|
  }

  class QueryRunner {
    var active: bool
    var written: seq<int>          // by the open transaction
    var savepoints: seq<Saved>
    var database: seq<int>         // committed

    constructor ()
      ensures !active && written == [] && savepoints == [] && database == []
    {
      active, written, savepoints, database := false, [], [], [];
    }

    method StartTransaction()
      modifies this
      ensures active && written == [] && savepoints == [] && database == old(database)
    {
      active, written, savepoints := true, [], [];
    }

    method Insert(row: int)
      modifies this`written
      ensures written == old(written) + [row]
    {
      written := written + [row];
    }

    method Savepoint(name: Name)
      modifies this`savepoints
      ensures savepoints == old(savepoints) + [Saved(name, written)]
    {
      savepoints := savepoints + [Saved(name, written)];
    }

    /** Forgets the latest savepoint of the name and every later one, keeping the work. */
    method Release(name: Name)
      requires Latest(savepoints, name) < |savepoints|
      modifies this`savepoints
      ensures savepoints == old(savepoints)[..Latest(old(savepoints), name)]
    {
      savepoints := savepoints[..Latest(savepoints, name)];
    }

    /** Undoes the work since the latest savepoint of the name, which itself is kept. */
    method RollbackTo(name: Name)
      requires Latest(savepoints, name) < |savepoints|
      modifies this`savepoints, this`written
      ensures savepoints == old(savepoints)[..Latest(old(savepoints), name) + 1]
      ensures written == old(savepoints)[Latest(old(savepoints), name)].written
    {
      var k := Latest(savepoints, name);
      written := savepoints[k].written;
      savepoints := savepoints[..k + 1];
    }

    /** COMMIT. A refused one leaves the transaction to be rolled back. */
    method Commit(outcome: CommitOutcome) returns (ok: bool)
      modifies this
      ensures ok <==> outcome == Acknowledged
      ensures outcome == Refused ==> active == old(active) && database == old(database)
      ensures outcome != Refused ==> !active && database == old(database + written)
    {
      if outcome != Refused {
        database := database + written;
        active, written, savepoints := false, [], [];
      }
      ok := outcome == Acknowledged;
    }

    method Rollback()
      modifies this
      ensures !active && database == old(database)
    {
      active, written, savepoints := false, [], [];
    }
  }

  class Scope {
    const depth: nat
    var afterCommit: seq<Callback>

    constructor (depth: nat)
      ensures this.depth == depth && afterCommit == []
    {
      this.depth, afterCommit := depth, [];
    }
  }

  /** Savepoints taken since `before`, all deeper than `depth`: leftovers of inner scopes. */
  ghost predicate DeeperLeftovers(before: seq<Saved>, after: seq<Saved>, depth: nat) {
    && before <= after
    && forall i | |before| <= i < |after| :: after[i].name.depth > depth
  }

  lemma LeftoversAddUp(before: seq<Saved>, between: seq<Saved>, after: seq<Saved>, depth: nat)
    requires DeeperLeftovers(before, between, depth) && DeeperLeftovers(between, after, depth)
    ensures DeeperLeftovers(before, after, depth)
  {
    assert forall i | |before| <= i < |between| :: after[i] == between[i];
  }

  lemma FirstThenRest(body: seq<Action>)
    requires body != []
    ensures Throws(body) <==> FirstThrows(body[0]) || Throws(body[1..])
    ensures Rows(Left(body)) == Rows(LeftBy(body[0])) + if FirstThrows(body[0]) then [] else Rows(Left(body[1..]))
    ensures Callbacks(Left(body)) ==
            Callbacks(LeftBy(body[0])) + if FirstThrows(body[0]) then [] else Callbacks(Left(body[1..]))
  {
    RowsConcat(LeftBy(body[0]), Left(body[1..]));
    CallbacksConcat(LeftBy(body[0]), Left(body[1..]));
    assert LeftBy(body[0]) + [] == LeftBy(body[0]);
  }

  /** The caller's work, action by action, until one throws. */
  method RunBody(runner: QueryRunner, scope: Scope, body: seq<Action>) returns (threw: bool)
    modifies runner`written, runner`savepoints, scope
    ensures threw == Throws(body)
    ensures runner.written == old(runner.written) + Rows(Left(body))
    ensures scope.afterCommit == old(scope.afterCommit) + Callbacks(Left(body))
    ensures DeeperLeftovers(old(runner.savepoints), runner.savepoints, scope.depth)
    decreases body, 2
  {
    if body == [] { return false; }
    hide Left, LeftBy, Throws, FirstThrows, Rows, Callbacks;
    hide DeeperLeftovers;
    ghost var before, rows, callbacks := runner.savepoints, runner.written, scope.afterCommit;
    FirstThenRest(body);
    threw := RunAction(runner, scope, body[0]);
    if threw { return; }
    ghost var between := runner.savepoints;
    threw := RunBody(runner, scope, body[1..]);
    LeftoversAddUp(before, between, runner.savepoints, scope.depth);
    Append(rows, Rows(LeftBy(body[0])), Rows(Left(body[1..])));
    Append(callbacks, Callbacks(LeftBy(body[0])), Callbacks(Left(body[1..])));
  }

  method RunAction(runner: QueryRunner, scope: Scope, action: Action) returns (threw: bool)
    modifies runner`written, runner`savepoints, scope
    ensures threw == FirstThrows(action)
    ensures runner.written == old(runner.written) + Rows(LeftBy(action))
    ensures scope.afterCommit == old(scope.afterCommit) + Callbacks(LeftBy(action))
    ensures DeeperLeftovers(old(runner.savepoints), runner.savepoints, scope.depth)
    decreases action, 1
  {
    match action
    case Write(row) =>
      runner.Insert(row);
      threw := false;
    case AfterCommit(callback) =>
      scope.afterCommit := scope.afterCommit + [callback];
      threw := false;
    case Throw =>
      threw := true;
    case Nested(body, caught, stamp) =>
      var failed := RunInSavepoint(runner, scope, body, stamp);
      threw := failed && !caught;
  }

  /** An inner body under a savepoint: released with its callbacks handed up, or rolled back with them dropped. */
  method RunInSavepoint(runner: QueryRunner, parent: Scope, body: seq<Action>, stamp: int) returns (threw: bool)
    modifies runner`written, runner`savepoints, parent
    ensures threw == Throws(body)
    ensures runner.written == if threw then old(runner.written) else old(runner.written) + Rows(Left(body))
    ensures parent.afterCommit ==
            if threw then old(parent.afterCommit) else old(parent.afterCommit) + Callbacks(Left(body))
    ensures DeeperLeftovers(old(runner.savepoints), runner.savepoints, parent.depth)
    decreases body, 3
  {
    hide Left, Rows, Callbacks, Throws;
    var name := Name(parent.depth + 1, stamp);
    ghost var at := |runner.savepoints|;
    runner.Savepoint(name);
    ghost var taken := runner.savepoints;
    var scope := new Scope(parent.depth + 1);
    threw := RunBody(runner, scope, body);
    assert runner.savepoints[at] == taken[at];
    assert Latest(runner.savepoints, name) == at;
    if threw {
      runner.RollbackTo(name);
    } else {
      runner.Release(name);
      parent.afterCommit := parent.afterCommit + scope.afterCommit;
    }
  }

  /** One after another, until one throws. */
  method RunCallbacks(callbacks: seq<Callback>) returns (ran: seq<Callback>, threw: bool)
    ensures ran == RunUntilThrow(callbacks)
    ensures threw <==> exists i :: 0 <= i < |callbacks| && callbacks[i].throws
  {
    ran, threw := [], false;
    for i := 0 to |callbacks|
      invariant !threw && ran == callbacks[..i]
      invariant RunUntilThrow(callbacks) == callbacks[..i] + RunUntilThrow(callbacks[i..])
      invariant forall k | 0 <= k < i :: !callbacks[k].throws
    {
      assert callbacks[i..][1..] == callbacks[i + 1..] && callbacks[..i + 1] == callbacks[..i] + [callbacks[i]];
      ran := ran + [callbacks[i]];
      if callbacks[i].throws { return ran, true; }
    }
  }

  /** A participant's body goes on where the work and the participants before it left off. */
  lemma NextParticipant(work: seq<Action>, participants: seq<Participant>, k: nat)
    requires k < |participants| && !Throws(Whole(work, participants[..k]))
    ensures var sofar := Whole(work, participants[..k]);
            var next := Whole(work, participants[..k + 1]);
            var body := participants[k].body;
            && Throws(next) == Throws(body)
            && Rows(Left(next)) == Rows(Left(sofar)) + Rows(Left(body))
            && Callbacks(Left(next)) == Callbacks(Left(sofar)) + Callbacks(Left(body))
  {
    assert participants[..k + 1][..k] == participants[..k];
    var sofar, body := Whole(work, participants[..k]), participants[k].body;
    ThrowsConcat(sofar, body);
    LeftConcat(sofar, body);
    RowsConcat(Left(sofar), Left(body));
    CallbacksConcat(Left(sofar), Left(body));
  }

  /** Once a participant has thrown, what would have come after it does not matter. */
  lemma {:induction false} ThrownStays(work: seq<Action>, participants: seq<Participant>, k: nat)
    requires k <= |participants| && Throws(Whole(work, participants[..k]))
    ensures Throws(Whole(work, participants))
    decreases |participants| - k
  {
    if k == |participants| {
      assert participants[..k] == participants;
    } else {
      assert participants[..k + 1][..k] == participants[..k];
      ThrowsConcat(Whole(work, participants[..k]), participants[k].body);
      ThrownStays(work, participants, k + 1);
    }
  }

  /** Each participant, inside the transaction, as its last work. */
  method RunParticipants(runner: QueryRunner, scope: Scope, ghost work: seq<Action>, participants: seq<Participant>)
    returns (threw: bool, onCommitted: seq<Callback>)
    requires !Throws(work) && runner.written == Rows(Left(work)) && scope.afterCommit == Callbacks(Left(work))
    modifies runner`written, runner`savepoints, scope
    ensures threw == Throws(Whole(work, participants))
    ensures !threw ==> runner.written == Rows(Left(Whole(work, participants)))
    ensures !threw ==> scope.afterCommit == Callbacks(Left(Whole(work, participants)))
    ensures !threw ==> onCommitted == Thens(participants)
  {
    onCommitted := [];
    for k := 0 to |participants|
      invariant !Throws(Whole(work, participants[..k]))
      invariant runner.written == Rows(Left(Whole(work, participants[..k])))
      invariant scope.afterCommit == Callbacks(Left(Whole(work, participants[..k])))
      invariant onCommitted == Thens(participants[..k])
    {
      NextParticipant(work, participants, k);
      threw := RunBody(runner, scope, participants[k].body);
      if threw {
        ThrownStays(work, participants, k + 1);
        return;
      }
      assert participants[..k + 1][..k] == participants[..k];
      if participants[k].follows.Some? { onCommitted := onCommitted + [participants[k].follows.value]; }
    }
    assert participants[..|participants|] == participants;
    threw := false;
  }

  /**
   The outermost transaction. Its writes are committed, and its callbacks run, exactly
   for the leaves whose every enclosing savepoint was released: the writes if nothing
   threw and COMMIT took effect, the callbacks if it was acknowledged too, once each in
   the order registered, after those of the participants, up to the first that throws.
   */
  method RunInTransaction(runner: QueryRunner, work: seq<Action>, participants: seq<Participant>, commit: CommitOutcome)
    returns (ran: seq<Callback>, threw: bool)
    modifies runner
    ensures !runner.active
    ensures runner.database ==
            old(runner.database) + (if commit == Refused then [] else Committed(Whole(work, participants)))
    ensures ran == if Throws(Whole(work, participants)) || commit != Acknowledged then []
                   else RunUntilThrow(Thens(participants) + Registered(Whole(work, participants)))
    ensures threw <==> Throws(Whole(work, participants)) || commit != Acknowledged || exists c :: c in ran && c.throws
  {
    ghost var whole := Whole(work, participants);
    LeftAreSurvivors(whole, []);
    ran := [];
    runner.StartTransaction();
    var scope := new Scope(0);
    threw := RunBody(runner, scope, work);
    var onCommitted := [];
    assert participants[..0] == [];
    if threw {
      ThrownStays(work, participants, 0);
    } else {
      threw, onCommitted := RunParticipants(runner, scope, work, participants);
    }
    if !threw {
      var ok := runner.Commit(commit);
      threw := !ok;
    }
    if threw {
      if runner.active { runner.Rollback(); }
      return;
    }
    ran, threw := RunCallbacks(onCommitted + scope.afterCommit);
    RunStopsAtThrow(onCommitted + scope.afterCommit);
  }

  /** The callbacks run are the registered ones up to and including the first that throws. */
  lemma {:induction false} RunStopsAtThrow(callbacks: seq<Callback>)
    ensures RunUntilThrow(callbacks) <= callbacks
    ensures var n := |RunUntilThrow(callbacks)|;
            && (forall i | 0 <= i < n - 1 :: !callbacks[i].throws)
            && (n < |callbacks| ==> n > 0 && callbacks[n - 1].throws)
    ensures (exists c :: c in RunUntilThrow(callbacks) && c.throws)
            <==> exists i :: 0 <= i < |callbacks| && callbacks[i].throws
  {
    if callbacks != [] && !callbacks[0].throws {
      RunStopsAtThrow(callbacks[1..]);
      var ran, later := RunUntilThrow(callbacks), RunUntilThrow(callbacks[1..]);
      assert ran == [callbacks[0]] + later;
      if i :| 0 <= i < |callbacks| && callbacks[i].throws {
        assert callbacks[1..][i - 1] == callbacks[i];
        var c :| c in later && c.throws;
        assert c in ran;
      }
    } else if callbacks != [] {
      assert callbacks[0] in RunUntilThrow(callbacks);
    }
  }

  // --- What is kept, from where things stand in the tree --------------------------------

  /** The action at a path: its place at the outer level, then in the body there, and so on. */
  function At(body: seq<Action>, path: seq<nat>): Option<Action> {
    if path == [] || path[0] >= |body| then None
    else if |path| == 1 then Some(body[path[0]])
    else if body[path[0]].Nested? then At(body[path[0]].body, path[1..])
    else None
  }

  predicate IsUncaught(action: Option<Action>) {
    action.Some? && action.value.Nested? && !action.value.caught
  }

  /** The error at `path` passes every body around it deeper than `level`, caught by none. */
  ghost predicate Escapes(body: seq<Action>, path: seq<nat>, level: nat) {
    && level < |path|
    && At(body, path) == Some(Throw)
    && forall i | level < i < |path| :: IsUncaught(At(body, path[..i]))
  }

  /** An error gets out into the body that the path goes through at that level. */
  ghost predicate Undoes(body: seq<Action>, path: seq<nat>, level: nat, error: seq<nat>) {
    level < |path| && level < |error| && error[..level] == path[..level] && Escapes(body, error, level)
  }

  ghost predicate Undone(body: seq<Action>, path: seq<nat>) {
    exists level: nat, error: seq<nat> :: Undoes(body, path, level, error)
  }

  /** A write, or a registration, that nothing undoes. */
  ghost predicate Stands(body: seq<Action>, path: seq<nat>, writes: bool) {
    && At(body, path).Some?
    && IsWanted(At(body, path).value, writes)
    && !Undone(body, path)
  }

  predicate IsWanted(action: Action, writes: bool) {
    if writes then action.Write? else action.AfterCommit?
  }

  predicate Before(a: seq<nat>, b: seq<nat>) {
    exists k: nat :: k < |a| && k < |b| && a[..k] == b[..k] && a[k] < b[k]
  }

  /** Where they stand, all of them, in the order of the tree. */
  ghost predicate Lists(body: seq<Action>, spots: seq<seq<nat>>, writes: bool) {
    && (forall i, j | 0 <= i < j < |spots| :: Before(spots[i], spots[j]))
    && (forall path: seq<nat> :: path in spots <==> Stands(body, path, writes))
  }

  lemma {:induction false} ThrowsSomewhere(body: seq<Action>)
    ensures Throws(body) <==> exists j :: 0 <= j < |body| && FirstThrows(body[j])
  {
    hide FirstThrows;
    if body != [] {
      ThrowsSomewhere(body[1..]);
      if j :| 0 < j < |body| && FirstThrows(body[j]) { assert body[1..][j - 1] == body[j]; }
    }
  }

  /** Paths into an inner body. */
  lemma Inside(body: seq<Action>, j: nat, path: seq<nat>)
    requires j < |body| && body[j].Nested? && path != []
    ensures At(body, [j] + path) == At(body[j].body, path)
    ensures At(body, [j]) == Some(body[j])
  {
    assert ([j] + path)[1..] == path;
  }

  lemma EscapesInside(body: seq<Action>, j: nat, path: seq<nat>, level: nat)
    requires j < |body| && body[j].Nested? && path != []
    ensures Escapes(body, [j] + path, level + 1) <==> Escapes(body[j].body, path, level)
    ensures Escapes(body, [j] + path, 0) <==> !body[j].caught && Escapes(body[j].body, path, 0)
  {
    hide At;
    var longer := [j] + path;
    Inside(body, j, path);
    assert longer[..1] == [j];
    forall i | 0 < i < |path| ensures At(body, longer[..i + 1]) == At(body[j].body, path[..i]) {
      assert longer[..i + 1] == [j] + path[..i];
      Inside(body, j, path[..i]);
    }
    forall i | 1 < i < |longer| ensures At(body, longer[..i]) == At(body[j].body, path[..i - 1]) {
      assert longer[..(i - 1) + 1] == longer[..i];
    }
  }

  /** A body throws exactly if some error in it is caught by nothing between the two. */
  lemma {:induction false} ThrowsIff(body: seq<Action>)
    ensures Throws(body) <==> exists path: seq<nat> :: Escapes(body, path, 0)
    decreases body
  {
    hide Throws, Escapes, At;
    ThrowsSomewhere(body);
    if j :| 0 <= j < |body| && FirstThrows(body[j]) {
      EscapesFrom(body, j);
    }
    if path: seq<nat> :| Escapes(body, path, 0) {
      EscapedAt(body, path);
    }
  }

  lemma {:induction false} EscapesFrom(body: seq<Action>, j: nat)
    requires j < |body| && FirstThrows(body[j])
    ensures exists path: seq<nat> :: Escapes(body, path, 0)
    decreases body, 0
  {
    if body[j].Throw? {
      assert Escapes(body, [j], 0);
    } else {
      hide At, Escapes;
      ThrowsIff(body[j].body);
      var path: seq<nat> :| Escapes(body[j].body, path, 0);
      assert path != [] by { EscapesIsSomewhere(body[j].body, path, 0); }
      EscapesInside(body, j, path, 0);
    }
  }

  lemma EscapesIsSomewhere(body: seq<Action>, path: seq<nat>, level: nat)
    requires Escapes(body, path, level)
    ensures level < |path| && path[0] < |body|
    ensures |path| == 1 ==> body[path[0]].Throw?
    ensures |path| > 1 ==> body[path[0]].Nested? && path == [path[0]] + path[1..]
  {
  }

  lemma {:induction false} EscapedAt(body: seq<Action>, path: seq<nat>)
    requires Escapes(body, path, 0)
    ensures path != [] && path[0] < |body| && FirstThrows(body[path[0]])
    decreases body, 0
  {
    hide At, Escapes, Throws;
    EscapesIsSomewhere(body, path, 0);
    if |path| > 1 {
      EscapesInside(body, path[0], path[1..], 0);
      ThrowsIff(body[path[0]].body);
    }
  }

  lemma UndoesInside(body: seq<Action>, j: nat, path: seq<nat>, level: nat, error: seq<nat>)
    requires j < |body| && body[j].Nested? && path != [] && error != []
    ensures Undoes(body, [j] + path, level + 1, [j] + error) <==> Undoes(body[j].body, path, level, error)
  {
    hide At, Escapes;
    EscapesInside(body, j, error, level);
    if level < |path| && level < |error| {
      assert ([j] + error)[..level + 1] == [j] + error[..level] && ([j] + path)[..level + 1] == [j] + path[..level];
      assert ([j] + error[..level])[1..] == error[..level] && ([j] + path[..level])[1..] == path[..level];
    }
  }

  lemma UndoingGoesIn(body: seq<Action>, j: nat, path: seq<nat>, level: nat, error: seq<nat>)
    requires level > 0 && Undoes(body, [j] + path, level, error)
    requires j < |body| && body[j].Nested? && path != []
    ensures |error| > 1 && Undoes(body[j].body, path, level - 1, error[1..])
  {
    hide At, Escapes;
    EscapesIsSomewhere(body, error, level);
    assert error[0] == error[..level][0] == ([j] + path)[..level][0] == j;
    assert error == [j] + error[1..];
    UndoesInside(body, j, path, level - 1, error[1..]);
  }

  /** What undoes a thing in an inner body is an error that gets out here, or one that undoes it there. */
  lemma UndoneInside(body: seq<Action>, j: nat, path: seq<nat>)
    requires j < |body| && body[j].Nested? && path != []
    ensures Undone(body, [j] + path) <==> Throws(body) || Undone(body[j].body, path)
  {
    hide Undoes, Throws;
    UndoneHere(body, [j] + path);
    if level: nat, error: seq<nat> :| Undoes(body, [j] + path, level, error) {
      if level == 0 {
        UndoneAtOnce(body, [j] + path, error);
      } else {
        UndoingGoesIn(body, j, path, level, error);
      }
    }
    if level: nat, error: seq<nat> :| Undoes(body[j].body, path, level, error) {
      assert error != [] by { SomethingUndoes(body[j].body, path, level, error); }
      UndoesInside(body, j, path, level, error);
    }
  }

  lemma SomethingUndoes(body: seq<Action>, path: seq<nat>, level: nat, error: seq<nat>)
    requires Undoes(body, path, level, error)
    ensures level < |path| && error != []
  {
  }

  lemma UndoneAtOnce(body: seq<Action>, path: seq<nat>, error: seq<nat>)
    requires Undoes(body, path, 0, error)
    ensures Throws(body)
  {
    hide Throws, Escapes;
    ThrowsIff(body);
  }

  lemma UndoneHere(body: seq<Action>, path: seq<nat>)
    requires path != []
    ensures Throws(body) ==> Undone(body, path)
    ensures |path| == 1 && Undone(body, path) ==> Throws(body)
  {
    hide Escapes, Throws;
    ThrowsIff(body);
    if Throws(body) {
      var error: seq<nat> :| Escapes(body, error, 0);
      EscapesIsSomewhere(body, error, 0);
      assert error[..0] == path[..0];
      assert Undoes(body, path, 0, error);
    }
    if |path| == 1 && Undone(body, path) {
      var level: nat, error: seq<nat> :| Undoes(body, path, level, error);
      UndoneAtOnce(body, path, error);
    }
  }

  // Where the leaves left by a body that does not throw stand, from its `i`th action on.

  function Under(j: nat, paths: seq<seq<nat>>): (r: seq<seq<nat>>)
    ensures |r| == |paths| && forall n | 0 <= n < |r| :: r[n] == [j] + paths[n]
  {
    seq(|paths|, n requires 0 <= n < |paths| => [j] + paths[n])
  }

  function Spots(body: seq<Action>, i: nat, writes: bool): seq<seq<nat>>
    requires i <= |body|
    decreases body, |body| - i
  {
    if i == |body| then [] else SpotsOf(body, i, writes) + Spots(body, i + 1, writes)
  }

  function SpotsOf(body: seq<Action>, i: nat, writes: bool): seq<seq<nat>>
    requires i < |body|
    decreases body, |body| - i, 0
  {
    match body[i]
    case Nested(inner, _, _) => if Throws(inner) then [] else Under(i, Spots(inner, 0, writes))
    case leaf => if IsWanted(leaf, writes) then [[i]] else []
  }

  lemma {:induction false} SpotsStand(body: seq<Action>, i: nat, path: seq<nat>, writes: bool)
    requires i <= |body| && !Throws(body)
    ensures path in Spots(body, i, writes) <==> Stands(body, path, writes) && path[0] >= i
    decreases body, |body| - i
  {
    hide Stands, SpotsOf, Throws;
    if i < |body| {
      SpotsOfStand(body, i, path, writes);
      SpotsStand(body, i + 1, path, writes);
    }
    StandsSomewhere(body, path, writes);
  }

  lemma StandsSomewhere(body: seq<Action>, path: seq<nat>, writes: bool)
    ensures Stands(body, path, writes) ==> path != [] && path[0] < |body|
  {
  }

  lemma {:induction false} SpotsOfStand(body: seq<Action>, i: nat, path: seq<nat>, writes: bool)
    requires i < |body| && !Throws(body)
    ensures path in SpotsOf(body, i, writes) <==> Stands(body, path, writes) && path[0] == i
    decreases body, |body| - i, 0
  {
    hide Undone, Throws, Spots;
    StandsSomewhere(body, path, writes);
    if path == [] || path[0] != i {
      SpotsBeginHere(body, i, writes);
    } else if !body[i].Nested? {
      UndoneHere(body, path);
      assert |path| == 1 ==> path == [i];
    } else {
      var inner, rest := body[i].body, path[1..];
      assert path == [i] + rest;
      if rest != [] {
        Inside(body, i, rest);
        UndoneInside(body, i, rest);
        UndoneHere(inner, rest);
      }
      if !Throws(inner) {
        SpotsStand(inner, 0, rest, writes);
        UnderHas(i, Spots(inner, 0, writes), rest);
      }
    }
  }

  lemma SpotsBeginHere(body: seq<Action>, i: nat, writes: bool)
    requires i < |body|
    ensures forall path | path in SpotsOf(body, i, writes) :: path != [] && path[0] == i
  {
  }

  lemma UnderHas(j: nat, paths: seq<seq<nat>>, path: seq<nat>)
    ensures [j] + path in Under(j, paths) <==> path in paths
  {
    if path in paths {
      var n :| 0 <= n < |paths| && paths[n] == path;
      assert Under(j, paths)[n] == [j] + path;
    }
    if [j] + path in Under(j, paths) {
      var n :| 0 <= n < |paths| && [j] + paths[n] == [j] + path;
      assert ([j] + paths[n])[1..] == paths[n] && ([j] + path)[1..] == path;
    }
  }

  lemma {:induction false} SpotsAreOrdered(body: seq<Action>, i: nat, writes: bool, m: nat, n: nat)
    requires i <= |body| && !Throws(body) && m < n < |Spots(body, i, writes)|
    ensures Before(Spots(body, i, writes)[m], Spots(body, i, writes)[n])
    decreases body, |body| - i
  {
    hide Before, Stands, Throws;
    var here, later := SpotsOf(body, i, writes), Spots(body, i + 1, writes);
    var spots := here + later;
    if m >= |here| {
      SpotsAreOrdered(body, i + 1, writes, m - |here|, n - |here|);
    } else if n >= |here| {
      SpotsOfStand(body, i, spots[m], writes);
      SpotsStand(body, i + 1, spots[n], writes);
      StandsSomewhere(body, spots[m], writes);
      StandsSomewhere(body, spots[n], writes);
      FirstDecides(spots[m], spots[n]);
    } else {
      var inner := Spots(body[i].body, 0, writes);
      SpotsAreOrdered(body[i].body, 0, writes, m, n);
      StillBefore(i, inner[m], inner[n]);
    }
  }

  lemma FirstDecides(a: seq<nat>, b: seq<nat>)
    requires a != [] && b != [] && a[0] < b[0]
    ensures Before(a, b)
  {
    assert a[..0] == b[..0];
  }

  lemma StillBefore(j: nat, a: seq<nat>, b: seq<nat>)
    requires Before(a, b)
    ensures Before([j] + a, [j] + b)
  {
    var k: nat :| k < |a| && k < |b| && a[..k] == b[..k] && a[k] < b[k];
    assert ([j] + a)[..k + 1] == [j] + a[..k] && ([j] + b)[..k + 1] == [j] + b[..k];
  }

  /** The leaves of one kind, in order. */
  function Picked(leaves: seq<Action>, writes: bool): seq<Action> {
    if leaves == [] then []
    else (if IsWanted(leaves[0], writes) then [leaves[0]] else []) + Picked(leaves[1..], writes)
  }

  lemma {:induction false} PickedConcat(a: seq<Action>, b: seq<Action>, writes: bool)
    ensures Picked(a + b, writes) == Picked(a, writes) + Picked(b, writes)
    decreases |a|
  {
    if a == [] {
      assert a + b == b;
    } else {
      assert (a + b)[0] == a[0] && (a + b)[1..] == a[1..] + b;
      PickedConcat(a[1..], b, writes);
      Append(if IsWanted(a[0], writes) then [a[0]] else [], Picked(a[1..], writes), Picked(b, writes));
    }
  }

  lemma {:induction false} PickedAreLeaves(leaves: seq<Action>)
    ensures |Rows(leaves)| == |Picked(leaves, true)| && |Callbacks(leaves)| == |Picked(leaves, false)|
    ensures forall n | 0 <= n < |Rows(leaves)| :: Picked(leaves, true)[n] == Write(Rows(leaves)[n])
    ensures forall n | 0 <= n < |Callbacks(leaves)| :: Picked(leaves, false)[n] == AfterCommit(Callbacks(leaves)[n])
  {
    if leaves != [] { PickedAreLeaves(leaves[1..]); }
  }

  /** The leaf found at each spot is the one left. */
  ghost predicate Finds(body: seq<Action>, spots: seq<seq<nat>>, leaves: seq<Action>) {
    |spots| == |leaves| && forall n | 0 <= n < |spots| :: At(body, spots[n]) == Some(leaves[n])
  }

  lemma {:induction false} SpotsFind(body: seq<Action>, i: nat, writes: bool)
    requires i <= |body| && !Throws(body)
    ensures Finds(body, Spots(body, i, writes), Picked(Left(body[i..]), writes))
    decreases body, |body| - i
  {
    if i < |body| {
      hide At, Throws, FirstThrows, LeftBy, SpotsOf, Picked;
      ThrowsSomewhere(body);
      assert body[i..][0] == body[i] && body[i..][1..] == body[i + 1..];
      SpotsOfFind(body, i, writes);
      SpotsFind(body, i + 1, writes);
      PickedConcat(LeftBy(body[i]), Left(body[i + 1..]), writes);
    } else {
      assert body[i..] == [];
    }
  }

  lemma {:induction false} SpotsOfFind(body: seq<Action>, i: nat, writes: bool)
    requires i < |body| && !Throws(body)
    ensures Finds(body, SpotsOf(body, i, writes), Picked(LeftBy(body[i]), writes))
    decreases body, |body| - i, 0
  {
    match body[i]
    case Nested(inner, _, _) =>
      if !Throws(inner) {
        hide Throws, At, Spots, Picked, Left;
        SpotsFind(inner, 0, writes);
        assert inner[0..] == inner;
        FoundUnder(body, i, Spots(inner, 0, writes), Picked(Left(inner), writes));
      }
    case leaf =>
      assert [leaf][1..] == [];
  }

  lemma FoundUnder(body: seq<Action>, j: nat, spots: seq<seq<nat>>, leaves: seq<Action>)
    requires j < |body| && body[j].Nested? && Finds(body[j].body, spots, leaves)
    ensures Finds(body, Under(j, spots), leaves)
  {
    hide At;
    forall n | 0 <= n < |spots| ensures At(body, Under(j, spots)[n]) == Some(leaves[n]) {
      assert spots[n] != [] by { NothingAtNoPath(body[j].body, spots[n]); }
      Inside(body, j, spots[n]);
    }
  }

  lemma NothingAtNoPath(body: seq<Action>, path: seq<nat>)
    requires At(body, path).Some?
    ensures path != []
  {
  }

  /**
   Committed are exactly the writes that no error undoes, in the order of the tree, and run
   are exactly the callbacks registered so: an error undoes what is in the body it is thrown
   in and in every body it gets out into before it is caught.
   */
  lemma KeptIsWhatStands(whole: seq<Action>)
    ensures var rows := Committed(whole);
            exists spots :: Lists(whole, spots, true) && |spots| == |rows|
              && forall n | 0 <= n < |spots| :: At(whole, spots[n]) == Some(Write(rows[n]))
    ensures var callbacks := Registered(whole);
            exists spots :: Lists(whole, spots, false) && |spots| == |callbacks|
              && forall n | 0 <= n < |spots| :: At(whole, spots[n]) == Some(AfterCommit(callbacks[n]))
  {
    hide At, Lists, Left, Rows, Callbacks, Picked, Spots, Throws;
    if Throws(whole) {
      NothingStands(whole, true);
      NothingStands(whole, false);
    } else {
      LeftAreSurvivors(whole, []);
      PickedAreLeaves(Left(whole));
      assert whole[0..] == whole;
      SpotsFind(whole, 0, true);
      SpotsFind(whole, 0, false);
      SpotsList(whole, true);
      SpotsList(whole, false);
    }
  }

  lemma NothingStands(body: seq<Action>, writes: bool)
    requires Throws(body)
    ensures Lists(body, [], writes)
  {
    hide Undone, Throws;
    forall path: seq<nat> ensures !Stands(body, path, writes) {
      if path != [] { UndoneHere(body, path); }
    }
  }

  lemma SpotsList(body: seq<Action>, writes: bool)
    requires !Throws(body)
    ensures Lists(body, Spots(body, 0, writes), writes)
  {
    hide Before, Stands, Throws, Spots;
    var spots := Spots(body, 0, writes);
    forall i, j | 0 <= i < j < |spots| ensures Before(spots[i], spots[j]) {
      SpotsAreOrdered(body, 0, writes, i, j);
    }
    forall path: seq<nat> ensures path in spots <==> Stands(body, path, writes) {
      SpotsStand(body, 0, path, writes);
      StandsSomewhere(body, path, writes);
    }
  }

  /** Increasing places: those of all participants with something to run once committed. */
  ghost predicate AreFollowed(participants: seq<Participant>, places: seq<nat>) {
    && (forall i, j | 0 <= i < j < |places| :: places[i] < places[j])
    && (forall k: nat :: k in places <==> k < |participants| && participants[k].follows.Some?)
  }

  ghost predicate FollowAt(participants: seq<Participant>, places: seq<nat>, callbacks: seq<Callback>) {
    && |places| == |callbacks|
    && forall i | 0 <= i < |places| ::
         places[i] < |participants| && participants[places[i]].follows == Some(callbacks[i])
  }

  /** What participants asked for once committed: each asker's own, in their order. */
  lemma {:induction false} ThensInOrder(participants: seq<Participant>)
    ensures exists places :: AreFollowed(participants, places) && FollowAt(participants, places, Thens(participants))
    decreases |participants|
  {
    hide AreFollowed, FollowAt;
    if participants == [] {
      NoneAreFollowed();
    } else {
      var last := |participants| - 1;
      var asked := Thens(participants[..last]);
      ThensInOrder(participants[..last]);
      var places :| AreFollowed(participants[..last], places) && FollowAt(participants[..last], places, asked);
      assert asked + [] == asked;
      var longer := if participants[last].follows.Some? then places + [last] else places;
      OneMoreIsFollowed(participants, places);
      OneMoreFollows(participants, places, asked);
      assert AreFollowed(participants, longer) && FollowAt(participants, longer, Thens(participants));
    }
  }

  lemma NoneAreFollowed()
    ensures AreFollowed([], []) && FollowAt([], [], [])
  {
  }

  lemma OneMoreIsFollowed(participants: seq<Participant>, places: seq<nat>)
    requires participants != [] && AreFollowed(participants[..|participants| - 1], places)
    ensures var last := |participants| - 1;
            AreFollowed(participants, if participants[last].follows.Some? then places + [last] else places)
  {
    assert forall i | 0 <= i < |places| :: places[i] in places;
  }

  lemma OneMoreFollows(participants: seq<Participant>, places: seq<nat>, callbacks: seq<Callback>)
    requires participants != [] && FollowAt(participants[..|participants| - 1], places, callbacks)
    ensures var last := participants[|participants| - 1].follows;
            last.Some? ==> FollowAt(participants, places + [|participants| - 1], callbacks + [last.value])
    ensures FollowAt(participants, places, callbacks)
  {
  }

  /** The participants' bodies go on, the first one first, from the work. */
  lemma {:induction false} ParticipantsGoOn(work: seq<Action>, participants: seq<Participant>)
    requires participants != []
    ensures Whole(work, participants) == Whole(work + participants[0].body, participants[1..])
    decreases |participants|
  {
    var last := |participants| - 1;
    if last > 0 {
      ParticipantsGoOn(work, participants[..last]);
      assert participants[..last][1..] == participants[1..][..last - 1];
    }
  }
}
