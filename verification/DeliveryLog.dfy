/**
 The append-only delivery log: what one record says, how the latest record of an
 event is found, and what each locked operation decides from it.

 The functions here are the specification shared by the store
 (`DeliveryStore.dfy`), which computes them over its log with loops, and by the
 protocol (`DeliveryProtocol.dfy`), which interleaves them.
 */
module DeliveryLog {
  import opened Wrappers

  type EventId = string

  // Owner tokens are fresh random identifiers; only their identity matters.
  type Token = nat

  datatype Status =
    | Pending
    | Acquired
    | Validating
    | Sending
    | Delivered
    | Uncertain
    | Rejected
    | External(name: string) // skipped, expired, invalidated, ...

  /** The reason codes the code itself writes, and free text. */
  datatype Reason =
    | AlreadyDelivered
    | DeliveryUncertain
    | DeliveryInProgress
    | NotPending(status: Status)
    | NotPendingAnymore
    | LostAfterSend
    | MissingFingerprint
    | ChangedAfterSend
    | BadRequest
    | UnknownEvent
    | Text(text: string)

  datatype Record = Record(event: EventId, status: Status, token: Option<Token>, reason: Option<Reason>)

  type Log = seq<Record>

  /** How the storage behaves in one locked operation: it raises before or after the write lands. */
  datatype Fault = NoFault | FaultBefore | FaultAfter

  /** A call that returns a value or raises. */
  datatype Outcome<+T> = Got(value: T) | Threw

  /** The log that one locked operation leaves behind. */
  function Landed(before: Log, after: Log, fault: Fault): Log {
    if fault == FaultBefore then before else after
  }

  predicate Active(s: Status) {
    s == Acquired || s == Validating || s == Sending
  }

  /** The compare-and-set transition table. */
  predicate Transition(previous: Status, next: Status) {
    match previous
    case Acquired => next == Validating || next == Rejected
    case Validating => next == Sending || next == Rejected
    case Sending => next == Delivered || next == Uncertain
    case _ => false
  }

  /** The records of one event, in log order. */
  function EventRecords(log: Log, e: EventId): Log {
    if log == [] then []
    else
      var before := EventRecords(log[..|log| - 1], e);
      if log[|log| - 1].event == e then before + [log[|log| - 1]] else before
  }

  /** The last record of one event. */
  function Latest(log: Log, e: EventId): Option<Record> {
    if log == [] then None
    else if log[|log| - 1].event == e then Some(log[|log| - 1])
    else Latest(log[..|log| - 1], e)
  }

  function LatestStatus(log: Log, e: EventId, default: Status): Status {
    var latest := Latest(log, e);
    if latest.Some? then latest.value.status else default
  }

  datatype ClaimStatus = WasDelivered | WasUncertain | WasRejected | InProgress

  datatype Claim =
    | Owned(token: Token)
    | Refused(status: ClaimStatus, reason: Option<Reason>)

  /** A recorded reason, unless it is missing or empty. */
  function OrElse(reason: Option<Reason>, default: Reason): Reason {
    if reason.Some? && reason.value != Text("") then reason.value else default
  }

  /** What a settled, refused or closed event tells whoever asks about it. */
  function SettledClaim(latest: Record): Claim {
    match latest.status
    case Delivered => Refused(WasDelivered, Some(AlreadyDelivered))
    case Uncertain => Refused(WasUncertain, latest.reason)
    case s => Refused(WasRejected, Some(OrElse(latest.reason, NotPending(s))))
  }

  /** The claim of one locked `acquire_delivery`, and the records it appends. */
  function AcquireClaim(log: Log, e: EventId, token: Token, stale: bool, eventStatus: Status): Claim {
    var latest := Latest(log, e);
    if latest.None? then
      if eventStatus == Pending then Owned(token)
      else if eventStatus == Delivered then Refused(WasDelivered, Some(AlreadyDelivered))
      else if eventStatus == Uncertain then Refused(WasUncertain, Some(DeliveryUncertain))
      else Refused(WasRejected, Some(NotPending(eventStatus)))
    else if !Active(latest.value.status) then SettledClaim(latest.value)
    else if !stale then Refused(InProgress, Some(DeliveryInProgress))
    else if latest.value.status == Sending then Refused(WasUncertain, Some(LostAfterSend))
    else Owned(token)
  }

  function AcquireLog(log: Log, e: EventId, token: Token, stale: bool, eventStatus: Status): Log {
    var latest := Latest(log, e);
    if AcquireClaim(log, e, token, stale, eventStatus).Owned? then
      log + [Record(e, Acquired, Some(token), None)]
    else if latest.Some? && latest.value.status == Sending && stale then
      log + [Record(e, Uncertain, latest.value.token, Some(LostAfterSend))]
    else
      log
  }

  /** Whether one compare-and-set by `token` to `next` succeeds. */
  predicate CanAdvance(log: Log, e: EventId, token: Token, next: Status) {
    var latest := Latest(log, e);
    latest.Some? && latest.value.token == Some(token) && Transition(latest.value.status, next)
  }

  function AdvanceLog(log: Log, e: EventId, token: Token, next: Status, reason: Option<Reason>): Log {
    if CanAdvance(log, e, token, next) then log + [Record(e, next, Some(token), reason)] else log
  }

  /** A read of the stable outcome that neither acquires nor recovers. */
  function CurrentClaim(log: Log, e: EventId, eventStatus: Status): Claim {
    var latest := Latest(log, e);
    if latest.None? then
      if eventStatus == Delivered then Refused(WasDelivered, Some(AlreadyDelivered))
      else if eventStatus == Uncertain then Refused(WasUncertain, Some(DeliveryUncertain))
      else Refused(WasRejected, Some(NotPending(eventStatus)))
    else if Active(latest.value.status) then Refused(InProgress, Some(DeliveryInProgress))
    else SettledClaim(latest.value)
  }

  /** The post-send repair: everything but a settled outcome becomes uncertain. */
  function EnsureStatus(log: Log, e: EventId): Status {
    if LatestStatus(log, e, Pending) == Delivered then Delivered else Uncertain
  }

  function EnsureLog(log: Log, e: EventId, token: Token, reason: Reason): Log {
    var current := LatestStatus(log, e, Pending);
    if current == Delivered || current == Uncertain then log
    else log + [Record(e, Uncertain, Some(token), Some(reason))]
  }

  /** Whether an external transition may be appended. */
  predicate CanMark(log: Log, e: EventId) {
    var previous := LatestStatus(log, e, Pending);
    previous == Pending || previous == Acquired || previous == Validating
  }

  function MarkLog(log: Log, e: EventId, status: Status, reason: Option<Reason>): Log {
    if CanMark(log, e) then log + [Record(e, status, None, reason)] else log
  }

  lemma EventRecordsSnoc(log: Log, r: Record, e: EventId)
    ensures EventRecords(log + [r], e) == if r.event == e then EventRecords(log, e) + [r] else EventRecords(log, e)
  {
    SnocPrefix(log, r);
  }

  /** The latest record is the last of the event's own records. */
  lemma {:induction false} LatestIsLast(log: Log, e: EventId)
    ensures Latest(log, e).None? <==> EventRecords(log, e) == []
    ensures Latest(log, e).Some? ==> Latest(log, e).value == EventRecords(log, e)[|EventRecords(log, e)| - 1]
    ensures Latest(log, e).Some? ==> Latest(log, e).value.event == e
  {
    if log != [] {
      LatestIsLast(log[..|log| - 1], e);
    }
  }

  /** The event's records are exactly the records that name it. */
  lemma {:induction false} EventRecordsMembers(log: Log, e: EventId, r: Record)
    ensures r in EventRecords(log, e) <==> r in log && r.event == e
  {
    if log != [] {
      EventRecordsMembers(log[..|log| - 1], e, r);
      assert log == log[..|log| - 1] + [log[|log| - 1]];
    }
  }
}
