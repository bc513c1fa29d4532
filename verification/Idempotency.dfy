module IdempotencyRows {
  /**
   The idempotency key of one request: the row it claims, and what the row's own
   statements do to it.

   Times are milliseconds on one clock. A row's `id` is the fresh identifier drawn
   when it was inserted, so two claims of one key never share one.
   */

  import opened Wrappers

  /** What a key must repeat to be the same operation: `uq_idempotency_scope_key`. */
  datatype Identity = Identity(tenantId: Option<string>, scope: string, key: string)

  datatype Status = InProgress | Completed

  datatype Row = Row(
    id: nat,
    fingerprint: string,
    status: Status,
    responseStatus: Option<int>,
    responseBody: Option<string>,
    claimedAt: int,
    expiresAt: int)

  /** How long a response is replayable, and how long a claim may stay in progress. */
  datatype Timing = Timing(ttlMs: nat, lockTimeoutMs: nat)

  datatype Refusal = KeyReused | StillInProgress

  datatype Decision =
    | TakeOver
    | Replay(status: int, body: Option<string>)
    | Refuse(why: Refusal)

  /** What an existing row answers a request that read its clock at `now`. */
  function Evaluate(row: Row, payload: string, now: int, timing: Timing): Decision {
    if row.expiresAt <= now then TakeOver
    else if row.fingerprint != payload then Refuse(KeyReused)
    else if row.status == Completed then
      Replay(if row.responseStatus.Some? then row.responseStatus.value else 200, row.responseBody)
    else if now - row.claimedAt > timing.lockTimeoutMs then TakeOver
    else Refuse(StillInProgress)
  }

  function Claimed(id: nat, payload: string, now: int, timing: Timing): Row {
    Row(id, payload, InProgress, None, None, now, now + timing.ttlMs)
  }

  /** `UPDATE … WHERE id = record.id AND status = 'in_progress'` */
  function MarkedDone(row: Row, id: nat, status: int): Row {
    if row.id == id && row.status == InProgress
    then row.(status := Completed, responseStatus := Some(status), responseBody := None)
    else row
  }

  /** `UPDATE … WHERE id = record.id` */
  function WithResponse(row: Row, id: nat, status: int, body: string): Row {
    if row.id == id
    then row.(status := Completed, responseStatus := Some(status), responseBody := Some(body))
    else row
  }

  /** Whether `DELETE … WHERE id = record.id AND status = 'in_progress'` takes the row. */
  predicate Releasable(row: Row, id: nat) {
    row.id == id && row.status == InProgress
  }

  /** The service over the whole table. Each method is one committed transaction. */
  class IdempotencyService {
    const timing: Timing
    var rows: map<Identity, Row>

    constructor (timing: Timing)
      ensures this.timing == timing && rows == map[]
    {
      this.timing := timing;
      rows := map[];
    }

    /** Takes a key that is free, out of time or abandoned; any other answers for its row. */
    method Begin(identity: Identity, payload: string, now: int, freshId: nat)
      returns (r: Result<Option<(int, Option<string>)>, Refusal>)
      modifies this
      ensures identity !in old(rows) || old(rows)[identity].expiresAt <= now ==> r == Ok(None)
      ensures identity in old(rows) && now < old(rows)[identity].expiresAt ==>
                var row := old(rows)[identity];
                && (r == Err(KeyReused) <==> row.fingerprint != payload)
                && (row.fingerprint == payload && row.status == Completed ==>
                      r == Ok(Some((if row.responseStatus.Some? then row.responseStatus.value else 200, row.responseBody))))
                && (row.fingerprint == payload && row.status == InProgress ==>
                      r == if now > row.claimedAt + timing.lockTimeoutMs then Ok(None) else Err(StillInProgress))
      ensures rows == if r == Ok(None)
                      then old(rows)[identity := Row(freshId, payload, InProgress, None, None, now, now + timing.ttlMs)]
                      else old(rows)
    {
      if identity in rows {
        var decision := Evaluate(rows[identity], payload, now, timing);
        match decision {
          case Replay(status, body) => return Ok(Some((status, body)));
          case Refuse(why) => return Err(why);
          case TakeOver => rows := rows - {identity};
        }
      }
      rows := rows[identity := Claimed(freshId, payload, now, timing)];
      r := Ok(None);
    }

    method MarkDone(id: nat, status: int)
      modifies this
      ensures rows == map k | k in old(rows) :: MarkedDone(old(rows)[k], id, status)
      ensures forall k | k in old(rows) && (old(rows)[k].id != id || old(rows)[k].status == Completed) ::
                k in rows && rows[k] == old(rows)[k]
      ensures forall k | k in old(rows) && old(rows)[k].id == id && old(rows)[k].status == InProgress ::
                k in rows && rows[k] == old(rows)[k].(status := Completed, responseStatus := Some(status), responseBody := None)
    {
      rows := map k | k in rows :: MarkedDone(rows[k], id, status);
    }

    method Complete(id: nat, status: int, body: string)
      modifies this
      ensures rows == map k | k in old(rows) :: WithResponse(old(rows)[k], id, status, body)
      ensures forall k | k in old(rows) && old(rows)[k].id != id :: k in rows && rows[k] == old(rows)[k]
      ensures forall k | k in old(rows) && old(rows)[k].id == id ::
                k in rows && rows[k] == old(rows)[k].(status := Completed, responseStatus := Some(status), responseBody := Some(body))
    {
      rows := map k | k in rows :: WithResponse(rows[k], id, status, body);
    }

    method Release(id: nat)
      modifies this
      ensures rows == map k | k in old(rows) && !Releasable(old(rows)[k], id) :: old(rows)[k]
      ensures forall k | k in old(rows) && (old(rows)[k].id != id || old(rows)[k].status == Completed) ::
                k in rows && rows[k] == old(rows)[k]
      ensures forall k | k in old(rows) && old(rows)[k].id == id && old(rows)[k].status == InProgress :: k !in rows
    {
      rows := map k | k in rows && !Releasable(rows[k], id) :: rows[k];
    }

    /** Deletes expired keys, and says how many. */
    method PurgeExpired(now: int) returns (affected: nat)
      modifies this
      ensures rows == map k | k in old(rows) && old(rows)[k].expiresAt >= now :: old(rows)[k]
      ensures affected == |old(rows)| - |rows|
    {
      var kept := map k | k in rows && rows[k].expiresAt >= now :: rows[k];
      assert kept.Keys <= rows.Keys && |rows.Keys - kept.Keys| == |rows.Keys| - |kept.Keys|;
      affected := |rows| - |kept|;
      rows := kept;
    }
  }

  /** A claimed key while its handler runs. */
  class ClaimInFlight {
    const service: IdempotencyService
    const id: nat
    const status: int
    var settled: bool
    var done: bool

    constructor (service: IdempotencyService, id: nat, status: int)
      ensures this.service == service && this.id == id && this.status == status
      ensures !settled && !done
    {
      this.service, this.id, this.status := service, id, status;
      settled, done := false, false;
    }

    /**
     Joins a transaction about to commit: marks the key done in it unless the claim is
     settled or done, or the transaction wrote nothing. Answers whether `OnCommitted`
     is to follow the commit.
     */
    method Participant(transactionWrote: bool) returns (follows: bool)
      modifies service
      ensures follows <==> !settled && !done && transactionWrote
      ensures service.rows ==
              if follows then map k | k in old(service.rows) :: MarkedDone(old(service.rows)[k], id, status)
              else old(service.rows)
    {
      if settled || done { return false; }
      if !transactionWrote { return false; }
      service.MarkDone(id, status);
      return true;
    }

    method OnCommitted()
      modifies this
      ensures done && settled == old(settled)
    {
      done := true;
    }

    /** The handler answered. A response that cannot be stored fails the request only if nothing stands for the work. */
    method Succeeded(body: string, storable: bool) returns (failed: bool)
      modifies this, service
      ensures settled && done == old(done)
      ensures failed <==> !storable && !done
      ensures service.rows ==
              if storable then map k | k in old(service.rows) :: WithResponse(old(service.rows)[k], id, status, body)
              else old(service.rows)
    {
      settled := true;
      if storable {
        service.Complete(id, status, body);
        failed := false;
      } else {
        failed := !done;
      }
    }

    /** The handler failed: with nothing committed, the key is released. */
    method Failed(releasable: bool)
      modifies this, service
      ensures settled && done == old(done)
      ensures service.rows ==
              if !done && releasable
              then map k | k in old(service.rows) && !Releasable(old(service.rows)[k], id) :: old(service.rows)[k]
              else old(service.rows)
    {
      settled := true;
      if done { return; }
      if releasable { service.Release(id); }
    }
  }
}
