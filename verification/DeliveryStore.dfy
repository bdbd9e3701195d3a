/**
 The store: an event file and a delivery log, both append-only. A locked section
 is one method call; a log append is whole and atomic, and may raise before or
 after it lands.
 */
module DeliveryStore {
  import opened Wrappers
  import opened DeliveryLog
  import opened QueueOrder
  import opened DeliveryQueue
  import opened QueueClassifier

  const EXPIRED := External("expired")
  const INVALIDATED := External("invalidated")

  datatype Mark = Mark(event: EventId, status: Status, reason: Option<Reason>)

  /** A sequence of marks, each its own locked section. */
  function MarkAll(log: Log, marks: seq<Mark>): Log {
    if marks == [] then log
    else
      var m := marks[|marks| - 1];
      MarkLog(MarkAll(log, marks[..|marks| - 1]), m.event, m.status, m.reason)
  }

  lemma MarkAllSnoc(log: Log, marks: seq<Mark>, m: Mark)
    ensures MarkAll(log, marks + [m]) == MarkLog(MarkAll(log, marks), m.event, m.status, m.reason)
  {
    SnocPrefix(marks, m);
  }

  lemma LatestSnoc(log: Log, r: Record, e: EventId)
    ensures Latest(log + [r], e) == if r.event == e then Some(r) else Latest(log, e)
  {
    SnocPrefix(log, r);
  }

  lemma LatestAfterMark(log: Log, e: EventId, status: Status, reason: Option<Reason>, f: EventId)
    ensures f != e ==> Latest(MarkLog(log, e, status, reason), f) == Latest(log, f)
    ensures CanMark(log, e) ==> Latest(MarkLog(log, e, status, reason), e) == Some(Record(e, status, None, reason))
  {
    if CanMark(log, e) {
      LatestSnoc(log, Record(e, status, None, reason), f);
      LatestSnoc(log, Record(e, status, None, reason), e);
    }
  }

  predicate ForTarget(r: Registration, session: string, pane: string) {
    r.session == session && r.pane == pane
  }

  /** Only the listed events have another latest record. */
  ghost predicate OnlyTouches(before: Log, after: Log, touched: set<EventId>) {
    forall e :: e !in touched ==> Latest(after, e) == Latest(before, e)
  }

  /** How far `InvalidateTarget` has come after `i` lines of the event file. */
  ghost predicate Invalidating(log0: Log, log: Log, events: seq<Registration>, i: nat,
      invalidated: seq<Registration>, session: string, pane: string)
    requires i <= |events|
  {
    && DistinctIds(invalidated)
    && (forall r :: r in invalidated ==> r in events && ForTarget(r, session, pane))
    && (forall e :: e in EventIds(invalidated) ==> LatestStatus(log0, e, Pending) == Pending)
    && (forall e :: e in EventIds(invalidated) ==> LatestStatus(log, e, Pending) == INVALIDATED)
    && (forall j :: 0 <= j < i && ForTarget(events[j], session, pane) ==> LatestStatus(log, events[j].eventId, Pending) != Pending)
    && OnlyTouches(log0, log, EventIds(invalidated))
  }

  lemma SkipStep(log0: Log, log: Log, events: seq<Registration>, i: nat, invalidated: seq<Registration>,
      session: string, pane: string)
    requires i < |events| && Invalidating(log0, log, events, i, invalidated, session, pane)
    requires ForTarget(events[i], session, pane) ==> LatestStatus(log0, events[i].eventId, Pending) != Pending
    ensures Invalidating(log0, log, events, i + 1, invalidated, session, pane)
  {
  }

  lemma InvalidateStep(log0: Log, log: Log, events: seq<Registration>, i: nat, invalidated: seq<Registration>,
      session: string, pane: string, reason: Option<Reason>)
    requires i < |events| && Invalidating(log0, log, events, i, invalidated, session, pane)
    requires ForTarget(events[i], session, pane) && LatestStatus(log0, events[i].eventId, Pending) == Pending
    ensures var e := events[i].eventId;
            Invalidating(log0, MarkLog(log, e, INVALIDATED, reason), events, i + 1,
                         if CanMark(log, e) then invalidated + [events[i]] else invalidated, session, pane)
  {
    var e := events[i].eventId;
    var log2 := MarkLog(log, e, INVALIDATED, reason);
    forall f ensures f != e ==> Latest(log2, f) == Latest(log, f) {
      LatestAfterMark(log, e, INVALIDATED, reason, f);
    }
    LatestAfterMark(log, e, INVALIDATED, reason, e);
    EventIdsSnoc(invalidated, events[i]);
    hide EventIds;
    if CanMark(log, e) {
      hide MarkLog, Latest;
      assert e !in EventIds(invalidated);
      NewId(invalidated, events[i]);
    } else {
      assert log2 == log;
    }
  }

  lemma NewId(s: seq<Registration>, r: Registration)
    requires DistinctIds(s) && r.eventId !in EventIds(s)
    ensures DistinctIds(s + [r])
  {
    forall i | 0 <= i < |s| ensures s[i].eventId != r.eventId {
      assert s[i] in s;
    }
  }

  function WhyStale(why: Staleness): Reason {
    match why
    case NoPane => Text("no_pane")
    case MaxAge => Text("max_age")
    case Superseded => Text("superseded")
    case NotAnswerable(reason) => reason
  }

  lemma FailingSnoc(kept: seq<Registration>, i: nat, check: Registration -> Option<Reason>)
    requires i < |kept|
    ensures Failing(kept[..i + 1], check) == Failing(kept[..i], check) + if check(kept[i]).Some? then [kept[i]] else []
    ensures check(kept[i]).Some? ==> |Failing(kept[..i], check)| < |Failing(kept, check)| && Failing(kept, check)[|Failing(kept[..i], check)|] == kept[i]
    decreases |kept| - i
  {
    assert kept[..i + 1][..i] == kept[..i];
    FailingPrefix(kept, i + 1, check);
  }

  lemma {:induction false} FailingPrefix(kept: seq<Registration>, n: nat, check: Registration -> Option<Reason>)
    requires n <= |kept|
    ensures Failing(kept[..n], check) <= Failing(kept, check)
    decreases |kept| - n
  {
    if n == |kept| {
      TakeAll(kept);
    } else {
      assert kept[..n + 1][..n] == kept[..n];
      FailingPrefix(kept, n + 1, check);
    }
  }

  /** The event was closed by a record that gives the reason it is listed with. */
  predicate ClosedAs(log: Log, item: StaleItem) {
    Latest(log, item.event.eventId) == Some(Record(item.event.eventId, EXPIRED, None, Some(WhyStale(item.why))))
  }

  /** The first `i` events of the queue are closed, and nothing else is touched. */
  ghost predicate Expiring(log0: Log, log: Log, queue: seq<Registration>, i: nat, expired: seq<StaleItem>) {
    && i <= |queue|
    && DistinctIds(queue)
    && (forall j :: 0 <= j < |queue| ==> CanMark(log0, queue[j].eventId))
    && Events(expired) == queue[..i]
    && (forall e :: e in EventIds(queue[..i]) ==> LatestStatus(log, e, Pending) == EXPIRED)
    && (forall item :: item in expired ==> ClosedAs(log, item))
    && OnlyTouches(log0, log, EventIds(queue[..i]))
  }

  lemma ExpireStep(log0: Log, log: Log, queue: seq<Registration>, i: nat, expired: seq<StaleItem>, item: StaleItem)
    requires Expiring(log0, log, queue, i, expired) && i < |queue| && item.event == queue[i]
    ensures CanMark(log, queue[i].eventId)
    ensures Expiring(log0, MarkLog(log, queue[i].eventId, EXPIRED, Some(WhyStale(item.why))), queue, i + 1, expired + [item])
  {
    var e := queue[i].eventId;
    assert e !in EventIds(queue[..i]);
    var reason := Some(WhyStale(item.why));
    var log2 := MarkLog(log, e, EXPIRED, reason);
    forall f ensures f != e ==> Latest(log2, f) == Latest(log, f) {
      LatestAfterMark(log, e, EXPIRED, reason, f);
    }
    assert Latest(log, e) == Latest(log0, e);
    LatestAfterMark(log, e, EXPIRED, reason, e);
    EventsSnoc(expired, item);
    forall other | other in expired ensures ClosedAs(log2, other) {
      EventsIndex(expired);
      var k :| 0 <= k < |expired| && expired[k] == other;
      assert queue[..i][k] == other.event && other.event in queue[..i];
    }
    EventIdsSnoc(queue[..i], queue[i]);
    assert queue[..i + 1] == queue[..i] + [queue[i]];
  }

  lemma DoomedStale(kept: seq<Registration>, stale: seq<StaleItem>,
      check: Option<Registration -> Option<Reason>>, i: nat)
    requires i < |stale|
    ensures i < |Doomed(kept, stale, check)| && Doomed(kept, stale, check)[i] == stale[i].event
  {
    EventsIndex(stale);
  }

  lemma DoomedFailing(kept: seq<Registration>, stale: seq<StaleItem>,
      check: Option<Registration -> Option<Reason>>, i: nat)
    requires check.Some? && i < |kept| && check.value(kept[i]).Some?
    ensures var j := |stale| + |Failing(kept[..i], check.value)|;
            j < |Doomed(kept, stale, check)| && Doomed(kept, stale, check)[j] == kept[i]
  {
    EventsIndex(stale);
    FailingSnoc(kept, i, check.value);
  }

  lemma FailingNone(kept: seq<Registration>, check: Registration -> Option<Reason>)
    ensures Failing(kept[..0], check) == []
  {
  }

  lemma AllExpired(log0: Log, log: Log, kept: seq<Registration>, stale: seq<StaleItem>,
      check: Option<Registration -> Option<Reason>>, expired: seq<StaleItem>)
    requires Expiring(log0, log, Doomed(kept, stale, check), |stale| + (if check.Some? then |Failing(kept[..|kept|], check.value)| else 0), expired)
    ensures Events(expired) == Doomed(kept, stale, check)
    ensures forall e :: e in EventIds(Events(expired)) ==> LatestStatus(log, e, Pending) == EXPIRED
    ensures forall item :: item in expired ==> ClosedAs(log, item)
    ensures OnlyTouches(log0, log, EventIds(Events(expired)))
  {
    TakeAll(kept);
    EventsIndex(stale);
    TakeAll(Doomed(kept, stale, check));
  }

  /** Everything that is going to be expired is open, and no event is listed twice. */
  lemma QueueMarkable(events: seq<Registration>, log: Log, kept: seq<Registration>, stale: seq<StaleItem>,
      now: real, limit: real, dedupe: bool,
                      check: Option<Registration -> Option<Reason>>)
    requires SplitOf(RawPending(events, log), kept, stale, now, limit, dedupe)
    ensures Expiring(log, log, Doomed(kept, stale, check), 0, [])
  {
    var raw, queue := RawPending(events, log), Doomed(kept, stale, check);
    if check.Some? {
      FailingWithin(kept, check.value);
    }
    assert multiset(queue) <= multiset(raw);
    RawPendingDistinct(events, log);
    DistinctByCount(queue, raw);
    forall j | 0 <= j < |queue| ensures CanMark(log, queue[j].eventId) {
      assert queue[j] in multiset(queue) && queue[j] in multiset(raw);
      RawPendingMembers(events, log, queue[j]);
    }
    assert EventIds(queue[..0]) == {};
  }

  lemma PruneCloses(log: Log, log2: Log, doomed: set<EventId>)
    requires forall e :: e in doomed ==> LatestStatus(log2, e, Pending) == EXPIRED
    requires OnlyTouches(log, log2, doomed)
    ensures Closes(log, log2, doomed)
  {
  }

  /** A fresh event that the live check refused, with its reason. */
  predicate RefusedAlive(item: StaleItem, check: Option<Registration -> Option<Reason>>) {
    && check.Some? && check.value(item.event).Some?
    && item.why == NotAnswerable(OrElse(check.value(item.event), Text("not_answerable")))
  }

  lemma IsRefused(item: StaleItem, check: Option<Registration -> Option<Reason>>, why: Option<Reason>)
    requires check.Some? && why == check.value(item.event) && why.Some?
    requires item.why == NotAnswerable(OrElse(why, Text("not_answerable")))
    ensures RefusedAlive(item, check)
  {
  }

  class DeliveryStore {
    var events: seq<Registration>
    var deliveries: Log

    constructor ()
      ensures events == [] && deliveries == []
    {
      events, deliveries := [], [];
    }

    /** The scan behind every locked operation. */
    method LatestDelivery(e: EventId) returns (latest: Option<Record>)
      ensures latest == Latest(deliveries, e)
    {
      latest := None;
      TakeAll(deliveries);
      for i := 0 to |deliveries|
        invariant latest == Latest(deliveries[..i], e)
      {
        LatestSnoc(deliveries[..i], deliveries[i], e);
        assert deliveries[..i + 1] == deliveries[..i] + [deliveries[i]];
        if deliveries[i].event == e {
          latest := Some(deliveries[i]);
        }
      }
    }

    /** The one-pass dictionary scan agrees with the per-event scan. */
    method LatestStatuses() returns (statuses: map<EventId, Status>)
      ensures forall e :: e in statuses <==> Latest(deliveries, e).Some?
      ensures forall e :: e in statuses ==> statuses[e] == Latest(deliveries, e).value.status
    {
      statuses := map[];
      TakeAll(deliveries);
      for i := 0 to |deliveries|
        invariant forall e :: e in statuses <==> Latest(deliveries[..i], e).Some?
        invariant forall e :: e in statuses ==> statuses[e] == Latest(deliveries[..i], e).value.status
      {
        assert deliveries[..i + 1] == deliveries[..i] + [deliveries[i]];
        forall e ensures Latest(deliveries[..i + 1], e) == if deliveries[i].event == e then Some(deliveries[i]) else Latest(deliveries[..i], e) {
          LatestSnoc(deliveries[..i], deliveries[i], e);
        }
        statuses := statuses[deliveries[i].event := deliveries[i].status];
      }
    }

    /** The existential scan for a delivered record. */
    method AlreadyDelivered(e: EventId) returns (found: bool)
      ensures found <==> exists r :: r in deliveries && r.event == e && r.status == Delivered
    {
      for i := 0 to |deliveries|
        invariant forall j :: 0 <= j < i ==> !(deliveries[j].event == e && deliveries[j].status == Delivered)
      {
        if deliveries[i].event == e && deliveries[i].status == Delivered {
          return true;
        }
      }
      return false;
    }

    method AcquireDelivery(e: EventId, token: Token, stale: bool, eventStatus: Status, fault: Fault)
      returns (outcome: Outcome<Claim>)
      modifies this`deliveries
      ensures deliveries == Landed(old(deliveries), AcquireLog(old(deliveries), e, token, stale, eventStatus), fault)
      ensures outcome == if fault == NoFault then Got(AcquireClaim(old(deliveries), e, token, stale, eventStatus)) else Threw
      // A lease that is not stale holds, and a closed event stays as it is.
      ensures var latest := Latest(old(deliveries), e);
              latest.Some? && !stale && latest.value.status in {Acquired, Validating, Sending} ==>
                && deliveries == old(deliveries)
                && (fault == NoFault ==> outcome == Got(Refused(InProgress, Some(DeliveryInProgress))))
      ensures var latest := Latest(old(deliveries), e);
              latest.Some? && latest.value.status !in {Acquired, Validating, Sending} ==> deliveries == old(deliveries)
      // Ownership goes to the first caller, or to one that finds a stale lease before the send.
      ensures var latest := Latest(old(deliveries), e);
              outcome == Got(Owned(token)) <==>
                && fault == NoFault
                && (if latest.None? then eventStatus == Pending else stale && latest.value.status in {Acquired, Validating})
      ensures outcome == Got(Owned(token)) ==> deliveries == old(deliveries) + [Record(e, Acquired, Some(token), None)]
      // A stale send may have landed: it is closed as uncertain under its own token.
      ensures var latest := Latest(old(deliveries), e);
              fault == NoFault && stale && latest.Some? && latest.value.status == Sending ==>
                && deliveries == old(deliveries) + [Record(e, Uncertain, latest.value.token, Some(LostAfterSend))]
                && outcome == Got(Refused(WasUncertain, Some(LostAfterSend)))
    {
      if fault == FaultBefore {
        return Threw;
      }
      var latest := LatestDelivery(e);
      var claim: Claim;
      if latest.None? && eventStatus != Pending {
        if eventStatus == Delivered {
          claim := Refused(WasDelivered, Some(Reason.AlreadyDelivered));
        } else if eventStatus == Uncertain {
          claim := Refused(WasUncertain, Some(DeliveryUncertain));
        } else {
          claim := Refused(WasRejected, Some(NotPending(eventStatus)));
        }
      } else if latest.Some? && latest.value.status == Delivered {
        claim := Refused(WasDelivered, Some(Reason.AlreadyDelivered));
      } else if latest.Some? && latest.value.status == Uncertain {
        claim := Refused(WasUncertain, latest.value.reason);
      } else if latest.Some? && !Active(latest.value.status) {
        claim := Refused(WasRejected, Some(OrElse(latest.value.reason, NotPending(latest.value.status))));
      } else if latest.Some? && !stale {
        claim := Refused(InProgress, Some(DeliveryInProgress));
      } else if latest.Some? && latest.value.status == Sending {
        deliveries := deliveries + [Record(e, Uncertain, latest.value.token, Some(LostAfterSend))];
        claim := Refused(WasUncertain, Some(LostAfterSend));
      } else {
        deliveries := deliveries + [Record(e, Acquired, Some(token), None)];
        claim := Owned(token);
      }
      outcome := if fault == NoFault then Got(claim) else Threw;
    }

    method AdvanceDelivery(e: EventId, token: Token, next: Status, reason: Option<Reason>, fault: Fault)
      returns (outcome: Outcome<bool>)
      modifies this`deliveries
      ensures deliveries == Landed(old(deliveries), AdvanceLog(old(deliveries), e, token, next, reason), fault)
      ensures outcome == if fault == NoFault then Got(CanAdvance(old(deliveries), e, token, next)) else Threw
      ensures var latest := Latest(old(deliveries), e);
              outcome == Got(true) <==>
                && fault == NoFault && latest.Some? && latest.value.token == Some(token)
                && (match latest.value.status
                    case Acquired => next in {Validating, Rejected}
                    case Validating => next in {Sending, Rejected}
                    case Sending => next in {Delivered, Uncertain}
                    case _ => false)
      ensures outcome == Got(true) ==> deliveries == old(deliveries) + [Record(e, next, Some(token), reason)]
      ensures outcome == Got(false) ==> deliveries == old(deliveries)
    {
      if fault == FaultBefore {
        return Threw;
      }
      var latest := LatestDelivery(e);
      var won := false;
      if latest.Some? && latest.value.token == Some(token) {
        if Transition(latest.value.status, next) {
          deliveries := deliveries + [Record(e, next, Some(token), reason)];
          won := true;
        }
      }
      outcome := if fault == NoFault then Got(won) else Threw;
    }

    method CurrentDelivery(e: EventId, eventStatus: Status, fault: Fault) returns (outcome: Outcome<Claim>)
      ensures outcome == if fault == NoFault then Got(CurrentClaim(deliveries, e, eventStatus)) else Threw
    {
      if fault != NoFault {
        return Threw;
      }
      var latest := LatestDelivery(e);
      if latest.None? {
        if eventStatus == Delivered {
          return Got(Refused(WasDelivered, Some(Reason.AlreadyDelivered)));
        } else if eventStatus == Uncertain {
          return Got(Refused(WasUncertain, Some(DeliveryUncertain)));
        }
        return Got(Refused(WasRejected, Some(NotPending(eventStatus))));
      }
      var status := latest.value.status;
      if status == Delivered {
        return Got(Refused(WasDelivered, Some(Reason.AlreadyDelivered)));
      } else if status == Uncertain {
        return Got(Refused(WasUncertain, latest.value.reason));
      } else if Active(status) {
        return Got(Refused(InProgress, Some(DeliveryInProgress)));
      }
      return Got(Refused(WasRejected, Some(OrElse(latest.value.reason, NotPending(status)))));
    }

    method EnsureUncertainAfterSend(e: EventId, token: Token, reason: Reason, fault: Fault)
      returns (outcome: Outcome<Status>)
      modifies this`deliveries
      ensures deliveries == Landed(old(deliveries), EnsureLog(old(deliveries), e, token, reason), fault)
      ensures outcome == if fault == NoFault then Got(EnsureStatus(old(deliveries), e)) else Threw
      ensures outcome.Got? ==>
                && Latest(deliveries, e).Some? && Latest(deliveries, e).value.status == outcome.value
                && outcome.value in {Delivered, Uncertain}
      ensures outcome.Got? && Latest(old(deliveries), e).Some? && Latest(old(deliveries), e).value.status in {Delivered, Uncertain} ==>
                deliveries == old(deliveries)
      ensures deliveries == old(deliveries) || deliveries == old(deliveries) + [Record(e, Uncertain, Some(token), Some(reason))]
    {
      if fault == FaultBefore {
        return Threw;
      }
      var latest := LatestDelivery(e);
      var durable := Uncertain;
      if latest.Some? && (latest.value.status == Delivered || latest.value.status == Uncertain) {
        durable := latest.value.status;
      } else {
        deliveries := deliveries + [Record(e, Uncertain, Some(token), Some(reason))];
      }
      outcome := if fault == NoFault then Got(durable) else Threw;
    }

    /** An external terminal transition, refused once it could race a send. */
    method MarkEvent(e: EventId, status: Status, reason: Option<Reason>) returns (marked: bool)
      modifies this`deliveries
      ensures deliveries == MarkLog(old(deliveries), e, status, reason)
      ensures marked <==> CanMark(old(deliveries), e)
      ensures var latest := Latest(old(deliveries), e);
              marked <==> latest.None? || latest.value.status in {Pending, Acquired, Validating}
      ensures deliveries == if marked then old(deliveries) + [Record(e, status, None, reason)] else old(deliveries)
    {
      var latest := LatestDelivery(e);
      var previous := if latest.Some? then latest.value.status else Pending;
      if previous == Sending || (latest.Some? && previous != Pending && previous != Acquired && previous != Validating) {
        return false;
      }
      deliveries := deliveries + [Record(e, status, None, reason)];
      return true;
    }

    method SaveEvent(r: Registration)
      modifies this`events
      ensures events == old(events) + [r]
    {
      events := events + [r];
    }

    /** The latest registration of an event, with the status the log gives it. */
    method Get(e: EventId) returns (found: Option<Registration>)
      ensures found == match LastRegistration(events, e)
                       case None => None
                       case Some(r) => Some(r.(status := LatestStatus(deliveries, e, r.status)))
    {
      found := None;
      TakeAll(events);
      for i := 0 to |events|
        invariant found == LastRegistration(events[..i], e)
      {
        assert events[..i + 1] == events[..i] + [events[i]];
        SnocPrefix(events[..i], events[i]);
        if events[i].eventId == e {
          found := Some(events[i]);
        }
      }
      if found.Some? {
        var statuses := LatestStatuses();
        if e in statuses {
          found := Some(found.value.(status := statuses[e]));
        }
      }
    }

    /** Close the still-pending events of a target that moved or went away. */
    method InvalidateTarget(session: string, pane: string, reason: Option<Reason>)
      returns (invalidated: seq<Registration>, ghost marks: seq<Mark>)
      modifies this`deliveries
      ensures deliveries == MarkAll(old(deliveries), marks)
      ensures forall k :: 0 <= k < |marks| ==> marks[k].status == INVALIDATED && marks[k].reason == reason
      ensures DistinctIds(invalidated)
      ensures forall r :: r in invalidated ==> r in events && ForTarget(r, session, pane)
      ensures forall e :: e in EventIds(invalidated) ==> LatestStatus(old(deliveries), e, Pending) == Pending
      ensures forall e :: e in EventIds(invalidated) ==> LatestStatus(deliveries, e, Pending) == INVALIDATED
      ensures forall r :: r in events && ForTarget(r, session, pane) ==> LatestStatus(deliveries, r.eventId, Pending) != Pending
      ensures OnlyTouches(old(deliveries), deliveries, EventIds(invalidated))
    {
      var statuses := LatestStatuses();
      invalidated, marks := [], [];
      for i := 0 to |events|
        invariant deliveries == MarkAll(old(deliveries), marks)
        invariant forall k :: 0 <= k < |marks| ==> marks[k].status == INVALIDATED && marks[k].reason == reason
        invariant Invalidating(old(deliveries), deliveries, events, i, invalidated, session, pane)
      {
        var data := events[i];
        ghost var before := deliveries;
        if ForTarget(data, session, pane) && (data.eventId !in statuses || statuses[data.eventId] == Pending) {
          InvalidateStep(old(deliveries), before, events, i, invalidated, session, pane, reason);
          MarkAllSnoc(old(deliveries), marks, Mark(data.eventId, INVALIDATED, reason));
          var marked := MarkEvent(data.eventId, INVALIDATED, reason);
          marks := marks + [Mark(data.eventId, INVALIDATED, reason)];
          if marked {
            invalidated := invalidated + [data];
          }
        } else {
          SkipStep(old(deliveries), before, events, i, invalidated, session, pane);
        }
      }
      assert events[..|events|] == events;
    }

    /** All pending events, the latest registration of each, in order of first registration. */
    method AllPendingRaw() returns (out: seq<Registration>)
      ensures out == RawPending(events, deliveries) && DistinctIds(out)
    {
      var order, seen: map<EventId, Registration> := [], map[];
      for i := 0 to |events|
        invariant order == Ids(events[..i])
        invariant forall id :: id in seen <==> id in order
        invariant "" !in seen
        invariant forall id :: id in seen ==> LastRegistration(events[..i], id) == Some(seen[id])
        invariant forall id :: id != "" && id !in seen ==> LastRegistration(events[..i], id) == None
      {
        assert events[..i + 1][..i] == events[..i];
        var data := events[i];
        forall id ensures LastRegistration(events[..i + 1], id) == if data.eventId == id then Some(data) else LastRegistration(events[..i], id) {
        }
        if data.eventId != "" {
          if data.eventId !in seen {
            order := order + [data.eventId];
          }
          seen := seen[data.eventId := data];
        }
      }
      assert events[..|events|] == events;
      var statuses := LatestStatuses();
      out := [];
      for i := 0 to |order|
        invariant out == PendingAmong(order[..i], events, deliveries)
      {
        assert order[..i + 1][..i] == order[..i];
        assert order[i] in order;
        var data := seen[order[i]];
        IdsRegistered(events, order[i]);
        if (if order[i] in statuses then statuses[order[i]] else data.status) == Pending {
          out := out + [data];
        }
      }
      assert order[..|order|] == order;
      RawPendingDistinct(events, deliveries);
    }

    /** The trustworthy queue: fresh events, and stale ones with the reason. */
    method ClassifyPending(now: real, limit: real, dedupe: bool) returns (kept: seq<Registration>,
        stale: seq<StaleItem>)
      ensures SplitOf(RawPending(events, deliveries), kept, stale, now, limit, dedupe)
    {
      var raw := AllPendingRaw();
      if dedupe {
        kept, stale := Classify(raw, now, limit);
      } else {
        kept, stale := SplitStale(raw, now, limit);
      }
    }

    /** Close what is stale, and what fails the live check. */
    method Prune(now: real, limit: real, dedupe: bool, check: Option<Registration -> Option<Reason>>)
      returns (expired: seq<StaleItem>, ghost kept: seq<Registration>, ghost stale: seq<StaleItem>)
      modifies this`deliveries
      ensures SplitOf(RawPending(events, old(deliveries)), kept, stale, now, limit, dedupe)
      ensures Events(expired) == Doomed(kept, stale, check)
      ensures forall e :: e in EventIds(Events(expired)) ==> LatestStatus(deliveries, e, Pending) == EXPIRED
      ensures forall item :: item in expired ==> ClosedAs(deliveries, item)
      ensures stale <= expired && forall k :: |stale| <= k < |expired| ==> RefusedAlive(expired[k], check)
      ensures OnlyTouches(old(deliveries), deliveries, EventIds(Events(expired)))
      ensures events == old(events)
    {
      hide *;
      ghost var log0 := deliveries;
      var live, aside := ClassifyPending(now, limit, dedupe);
      kept, stale := live, aside;
      ghost var queue := Doomed(live, aside, check);
      QueueMarkable(events, log0, live, aside, now, limit, dedupe, check);
      expired := [];
      for i := 0 to |aside|
        invariant events == old(events) && expired == aside[..i]
        invariant Expiring(log0, deliveries, queue, i, expired)
      {
        DoomedStale(live, aside, check, i);
        ExpireStep(log0, deliveries, queue, i, expired, aside[i]);
        var marked := MarkEvent(aside[i].event.eventId, EXPIRED, Some(WhyStale(aside[i].why)));
        if marked {
          expired := expired + [aside[i]];
        }
        assert aside[..i + 1] == aside[..i] + [aside[i]];
      }
      TakeAll(aside);
      if check.Some? {
        FailingNone(live, check.value);
        for i := 0 to |live|
          invariant events == old(events)
          invariant aside <= expired && forall k :: |aside| <= k < |expired| ==> RefusedAlive(expired[k], check)
          invariant Expiring(log0, deliveries, queue, |aside| + |Failing(live[..i], check.value)|, expired)
        {
          FailingSnoc(live, i, check.value);
          var why := check.value(live[i]);
          if why.Some? {
            DoomedFailing(live, aside, check, i);
            var item := StaleItem(live[i], NotAnswerable(OrElse(why, Text("not_answerable"))));
            IsRefused(item, check, why);
            ExpireStep(log0, deliveries, queue, |aside| + |Failing(live[..i], check.value)|, expired, item);
            var marked := MarkEvent(live[i].eventId, EXPIRED, Some(WhyStale(item.why)));
            if marked {
              expired := expired + [item];
            }
          }
        }
      }
      AllExpired(log0, deliveries, live, aside, check, expired);
    }

    /**
     Prune, then classify what is left: the fresh events of before that pass the live
     check, in the same order, and nothing stale.
     */
    method PruneThenClassify(now: real, limit: real, dedupe: bool, check: Option<Registration -> Option<Reason>>)
      returns (kept: seq<Registration>, stale: seq<StaleItem>, ghost before: seq<Registration>, ghost aside: seq<StaleItem>)
      modifies this`deliveries
      ensures SplitOf(RawPending(events, old(deliveries)), before, aside, now, limit, dedupe)
      ensures kept == Passing(before, check) && stale == []
      ensures events == old(events)
    {
      hide *;
      ghost var log := deliveries;
      var expired;
      expired, before, aside := Prune(now, limit, dedupe, check);
      PruneCloses(log, deliveries, EventIds(Events(expired)));
      kept, stale := ClassifyPending(now, limit, dedupe);
      PruneIsStable(events, log, deliveries, before, aside, kept, stale, now, limit, dedupe, check);
    }
  }
}
