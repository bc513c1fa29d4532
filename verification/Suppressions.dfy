/** Addresses that have said no: refusals that lapse, and unsubscribing, which does not. */
module Suppressions {
  import opened Wrappers

  datatype Key = Key(tenant: string, channel: string, address: string)

  datatype Reason = Refused | Unsubscribed

  /** A hold until a moment, or for ever. */
  datatype Row = Row(reason: Reason, failures: nat, expiresAt: Option<int>)

  type Rows = map<Key, Row>

  const REFUSALS_BEFORE_SUPPRESSING: nat := 3

  /** The same time of day, ninety days of the calendar on, where the service runs. */
  type Calendar = int -> int

  /** The live suppression, if there is one. */
  function SuppressionFor(rows: Rows, key: Key, now: int): Option<Row> {
    if key !in rows then None
    else if rows[key].expiresAt.Some? && rows[key].expiresAt.value <= now then None
    else Some(rows[key])
  }

  datatype Operation = Refusal(key: Key) | Unsubscribe(key: Key) | AllowAgain(key: Key)

  function Refuse(row: Option<Row>, now: int, calendar: Calendar): Row {
    if row.None? then Row(Refused, 1, Some(0))
    else if row.value.reason == Unsubscribed then row.value
    else
      var failures := row.value.failures + 1;
      Row(Refused, failures, if failures >= REFUSALS_BEFORE_SUPPRESSING then Some(calendar(now)) else Some(0))
  }

  function RowOf(rows: Rows, key: Key): Option<Row> { if key in rows then Some(rows[key]) else None }

  function Apply(rows: Rows, op: Operation, now: int, calendar: Calendar): Rows {
    match op
    case Refusal(key) => rows[key := Refuse(RowOf(rows, key), now, calendar)]
    case Unsubscribe(key) => rows[key := Row(Unsubscribed, if key in rows then rows[key].failures else 0, None)]
    case AllowAgain(key) => rows - {key}
  }

  datatype Event = Event(op: Operation, at: int)

  function Run(rows: Rows, events: seq<Event>, calendar: Calendar): Rows
    decreases |events|
  {
    if events == [] then rows else Run(Apply(rows, events[0].op, events[0].at, calendar), events[1..], calendar)
  }

  // --- Sending ------------------------------------------------------------------------------------

  datatype Port = Port(fallback: Option<string>)

  datatype SendState = Failed | Discarded | HandedToProvider

  const MAX_ATTACHMENT_BYTES: nat := 10485760

  /** What becomes of a message, before the provider has its say. */
  function SendStateOf(rows: Rows, tenant: Option<string>, channel: string, address: string, attached: nat, port: Option<Port>, now: int): SendState {
    if attached > MAX_ATTACHMENT_BYTES then Failed
    else if tenant.Some? && Stopped(rows, tenant.value, channel, address, port, now) then Discarded
    else if port.None? then Failed
    else HandedToProvider
  }

  /** Either answer stops it: on the channel asked for, and on the one the port may divert to. */
  predicate Stopped(rows: Rows, tenant: string, channel: string, address: string, port: Option<Port>, now: int) {
    || SuppressionFor(rows, Key(tenant, channel, address), now).Some?
    || (port.Some? && port.value.fallback.Some? && SuppressionFor(rows, Key(tenant, port.value.fallback.value, address), now).Some?)
  }

  /** A hold on the address for the channel that has not run out. */
  predicate Held(rows: Rows, tenant: string, channel: string, address: string, now: int) {
    var key := Key(tenant, channel, address);
    key in rows && (rows[key].expiresAt.None? || now < rows[key].expiresAt.value)
  }

  /** Handed over exactly if it is not too large, there is a provider, and for a tenant nothing holds the address on either channel. */
  lemma HandedOverIff(rows: Rows, tenant: Option<string>, channel: string, address: string, attached: nat, port: Option<Port>, now: int)
    ensures var state := SendStateOf(rows, tenant, channel, address, attached, port, now);
            var held := tenant.Some? &&
                        (Held(rows, tenant.value, channel, address, now)
                         || (port.Some? && port.value.fallback.Some? && Held(rows, tenant.value, port.value.fallback.value, address, now)));
            && (state == HandedToProvider <==> attached <= 10485760 && !held && port.Some?)
            && (state == Discarded <==> attached <= 10485760 && held)
  {
  }

  // --- The service --------------------------------------------------------------------------------

  class CommsService {
    const calendar: Calendar
    var rows: Rows

    constructor (calendar: Calendar)
      ensures this.calendar == calendar && rows == map[]
    {
      this.calendar, rows := calendar, map[];
    }

    method RecordRefusal(key: Key, now: int) returns (row: Row)
      modifies this
      ensures rows == Apply(old(rows), Refusal(key), now, calendar) && key in rows && row == rows[key]
      ensures key !in old(rows) ==> row == Row(Refused, 1, Some(0))
      ensures key in old(rows) && old(rows)[key].reason == Unsubscribed ==> rows == old(rows)
      ensures key in old(rows) && old(rows)[key].reason == Refused ==>
                var failures := old(rows)[key].failures + 1; row == Row(Refused, failures, Some(if failures >= 3 then calendar(now) else 0))
      ensures forall other | other != key :: RowOf(rows, other) == RowOf(old(rows), other)
    {
      if key !in rows {
        row := Row(Refused, 1, Some(0));
        rows := rows[key := row];
        return;
      }
      var existing := rows[key];
      if existing.reason == Unsubscribed {
        assert rows[key := existing] == rows;
        return existing;
      }
      var failures := existing.failures + 1;
      row := Row(Refused, failures, Some(if failures >= REFUSALS_BEFORE_SUPPRESSING then calendar(now) else 0));
      rows := rows[key := row];
    }

    method Unsubscribe(key: Key) returns (row: Row)
      modifies this
      ensures rows == Apply(old(rows), Operation.Unsubscribe(key), 0, calendar) && key in rows && row == rows[key]
      ensures row == Row(Unsubscribed, if key in old(rows) then old(rows)[key].failures else 0, None)
      ensures forall other | other != key :: RowOf(rows, other) == RowOf(old(rows), other)
    {
      row := Row(Unsubscribed, if key in rows then rows[key].failures else 0, None);
      rows := rows[key := row];
    }

    method AllowAgain(key: Key)
      modifies this
      ensures rows == Apply(old(rows), Operation.AllowAgain(key), 0, calendar)
      ensures SuppressionFor(rows, key, 0).None? && forall other | other != key :: RowOf(rows, other) == RowOf(old(rows), other)
    {
      rows := rows - {key};
    }
  }

  // --- What a no is worth ----------------------------------------------------------------------------

  predicate Leaves(events: seq<Event>, key: Key) {
    forall i | 0 <= i < |events| :: events[i].op != AllowAgain(key)
  }

  lemma {:induction false} UnsubscribedStays(rows: Rows, events: seq<Event>, key: Key, calendar: Calendar)
    requires key in rows && rows[key].reason == Unsubscribed && rows[key].expiresAt == None && Leaves(events, key)
    ensures var later := Run(rows, events, calendar); key in later && later[key].reason == Unsubscribed && later[key].expiresAt == None
    decreases |events|
  {
    if events != [] {
      assert events[0].op != AllowAgain(key);
      assert forall i | 0 <= i < |events[1..]| :: events[1..][i] == events[i + 1];
      UnsubscribedStays(Apply(rows, events[0].op, events[0].at, calendar), events[1..], key, calendar);
    }
  }

  /**
   Once somebody has unsubscribed, whatever refusals come after and however late, no
   message to them is handed to a provider that could carry it on that channel: not asked
   for there, and not diverted there.
   */
  lemma UnsubscribedIsNeverWrittenTo(rows: Rows, at: int, events: seq<Event>, key: Key, asked: string, attached: nat,
                                     port: Option<Port>, now: int, calendar: Calendar)
    requires Leaves(events, key)
    requires asked == key.channel || (port.Some? && port.value.fallback == Some(key.channel))
    ensures var later := Run(Apply(rows, Unsubscribe(key), at, calendar), events, calendar);
            SendStateOf(later, Some(key.tenant), asked, key.address, attached, port, now) != HandedToProvider
  {
    UnsubscribedStays(Apply(rows, Unsubscribe(key), at, calendar), events, key, calendar);
  }

  /** Refusals of an address, none of them in doubt, one after another. */
  function Refusals(key: Key, times: seq<int>): seq<Event> {
    if times == [] then [] else [Event(Refusal(key), times[0])] + Refusals(key, times[1..])
  }

  /**
   After refusals alone an address is held back if and only if there were three or more
   and the last was less than ninety days ago.
   */
  lemma RefusalsHoldIff(rows: Rows, key: Key, times: seq<int>, now: int, calendar: Calendar)
    requires key !in rows && times != [] && now > 0
    ensures SuppressionFor(Run(rows, Refusals(key, times), calendar), key, now).Some? <==>
              |times| >= REFUSALS_BEFORE_SUPPRESSING && now < calendar(times[|times| - 1])
  {
    hide Run, Refusals;
    OneRefusal(rows, key, times, calendar);
    RefusalsCount(Apply(rows, Refusal(key), times[0], calendar), key, times[1..], times[0], calendar);
  }

  lemma NoRefusal(rows: Rows, key: Key, calendar: Calendar)
    ensures Run(rows, Refusals(key, []), calendar) == rows
  {
  }

  lemma OneRefusal(rows: Rows, key: Key, times: seq<int>, calendar: Calendar)
    requires times != []
    ensures Run(rows, Refusals(key, times), calendar)
            == Run(Apply(rows, Refusal(key), times[0], calendar), Refusals(key, times[1..]), calendar)
  {
    hide Apply;
    assert Refusals(key, times)[1..] == Refusals(key, times[1..]);
  }

  lemma {:induction false} RefusalsCount(rows: Rows, key: Key, times: seq<int>, last: int, calendar: Calendar)
    requires key in rows && rows[key].reason == Refused
    requires rows[key].expiresAt == Some(if rows[key].failures >= REFUSALS_BEFORE_SUPPRESSING then calendar(last) else 0)
    ensures var later, latest := Run(rows, Refusals(key, times), calendar), if times == [] then last else times[|times| - 1];
            var failures := rows[key].failures + |times|;
            key in later && later[key] == Row(Refused, failures, Some(if failures >= REFUSALS_BEFORE_SUPPRESSING then calendar(latest) else 0))
    decreases |times|
  {
    hide Run, Refusals;
    if times == [] {
      NoRefusal(rows, key, calendar);
    } else {
      OneRefusal(rows, key, times, calendar);
      RefusalsCount(Apply(rows, Refusal(key), times[0], calendar), key, times[1..], times[0], calendar);
    }
  }
}
