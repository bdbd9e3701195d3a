/**
 What a lease is worth: an active record that the oracle does not call stale
 keeps everyone else out, and without stale leases an event has one owner.

 Everything here is said over the records of the event and over steps and runs
 of the machine, not over the functions that decide a claim.
 */
module DeliveryLease {
  import opened Wrappers
  import opened DeliveryLog
  import opened DeliveryGrammar
  import opened DeliveryProtocol

  /** The last of an event's records. */
  function Last(recs: Log): Record
    requires recs != []
  {
    recs[|recs| - 1]
  }

  /** While the last record is a lease that is not stale, an acquire writes nothing and is told `in_progress`. */
  lemma LiveLeaseHolds(w: World, c: Token, ch: Choice)
    requires c in w.callers && w.callers[c].pc.Idle? && !ch.stale
    requires var recs := EventRecords(w.log, w.callers[c].event);
             recs != [] && Last(recs).status in {Acquired, Validating, Sending}
    ensures var w2 := Apply(w, Move(c, ch));
            && w2.log == w.log && w2.sends == w.sends
            && w2.callers[c].pc == if ch.fault == NoFault then Done(Answer(false, AInProgress, Some(DeliveryInProgress))) else Stopped
  {
    LatestIsLast(w.log, w.callers[c].event);
    hide Latest, CanAdvance, EnsureLog, CurrentClaim, AdvanceLog;
  }

  /** An acquire is granted exactly for a pending event without records and for a stale lease before the send. */
  lemma GrantedIff(w: World, c: Token, ch: Choice)
    requires c in w.callers && w.callers[c].pc.Idle?
    ensures var k := w.callers[c];
            var recs, w2 := EventRecords(w.log, k.event), Apply(w, Move(c, ch));
            w2.callers[c].pc == Claimed <==>
              && ch.fault == NoFault
              && (if recs == [] then k.eventStatus == Pending else ch.stale && Last(recs).status in {Acquired, Validating})
    ensures var w2 := Apply(w, Move(c, ch));
            w2.callers[c].pc == Claimed ==> w2.log == w.log + [Record(w.callers[c].event, Acquired, Some(c), None)]
  {
    LatestIsLast(w.log, w.callers[c].event);
    hide Latest, CanAdvance, EnsureLog, CurrentClaim, AdvanceLog;
  }

  /** A stale send is closed as uncertain, under the token that may have sent. */
  lemma StaleSendIsUncertain(w: World, c: Token, ch: Choice)
    requires c in w.callers && w.callers[c].pc.Idle? && ch.stale && ch.fault == NoFault
    requires var recs := EventRecords(w.log, w.callers[c].event); recs != [] && Last(recs).status == Sending
    ensures var e, w2 := w.callers[c].event, Apply(w, Move(c, ch));
            && w2.log == w.log + [Record(e, Uncertain, Last(EventRecords(w.log, e)).token, Some(LostAfterSend))]
            && w2.callers[c].pc == Done(Answer(true, AUncertain, Some(LostAfterSend)))
  {
    LatestIsLast(w.log, w.callers[c].event);
    hide Latest, CanAdvance, EnsureLog, CurrentClaim, AdvanceLog;
  }

  /** What an event without records says about itself, by the status it was registered with. */
  function RegisteredAnswer(status: Status): Answer {
    match status
    case Uncertain => Answer(true, AUncertain, Some(DeliveryUncertain))
    case Delivered => Answer(false, ARejected, Some(AlreadyDelivered))
    case _ => Answer(false, ARejected, Some(NotPending(status)))
  }

  /** What an event's last record says, once it is no lease any more. */
  function ClosedAnswer(last: Record): Answer {
    match last.status
    case Uncertain => Answer(true, AUncertain, last.reason)
    case Delivered => Answer(false, ARejected, Some(AlreadyDelivered))
    case _ => Answer(false, ARejected,
                     Some(if last.reason == None || last.reason == Some(Text("")) then NotPending(last.status) else last.reason.value))
  }

  /**
   Whoever asks about an event that is not open, before owning it or after losing it, is
   told its outcome, and the log stays as it is.
   */
  lemma ClosedEventAnswers(w: World, c: Token, ch: Choice)
    requires c in w.callers && ch.fault == NoFault && (w.callers[c].pc.Idle? || w.callers[c].pc.Lost?)
    requires var recs := EventRecords(w.log, w.callers[c].event);
             if recs == [] then w.callers[c].eventStatus != Pending || w.callers[c].pc.Lost?
             else Last(recs).status !in {Acquired, Validating, Sending}
    ensures var k, w2 := w.callers[c], Apply(w, Move(c, ch));
            var recs := EventRecords(w.log, k.event);
            && w2.log == w.log
            && w2.callers[c].pc == Done(if recs == [] then RegisteredAnswer(k.eventStatus) else ClosedAnswer(Last(recs)))
  {
    LatestIsLast(w.log, w.callers[c].event);
    hide Latest, CanAdvance, EnsureLog, AdvanceLog;
  }

  /** A caller that lost its lease to another one is told `in_progress`. */
  lemma LoserIsToldInProgress(w: World, c: Token, ch: Choice)
    requires c in w.callers && ch.fault == NoFault && w.callers[c].pc.Lost?
    requires var recs := EventRecords(w.log, w.callers[c].event);
             recs != [] && Last(recs).status in {Acquired, Validating, Sending}
    ensures Apply(w, Move(c, ch)) == At(w, c, Done(Answer(false, AInProgress, Some(DeliveryInProgress))))
  {
    LatestIsLast(w.log, w.callers[c].event);
    hide Latest, CanAdvance, EnsureLog, AdvanceLog;
  }

  // ---------------------------------------------------------------- the owner's own steps

  /** The event's last record is `c`'s own, in this status. */
  predicate LastIsOwn(w: World, c: Token, s: Status)
    requires c in w.callers
  {
    var recs := EventRecords(w.log, w.callers[c].event);
    recs != [] && Last(recs).token == Some(c) && Last(recs).status == s
  }

  /** The step writes this record and ends there, without a send. */
  predicate Records(w: World, after: World, c: Token, s: Status, reason: Option<Reason>, pc: Pc)
    requires c in w.callers && c in after.callers
  {
    && after.log == w.log + [Record(w.callers[c].event, s, Some(c), reason)]
    && after.sends == w.sends && after.callers[c].pc == pc
  }

  /** Before the send: an owner moves on only with a fingerprint and a passed check, and is rejected with the reason otherwise. */
  lemma OwnerAdvances(w: World, c: Token, ch: Choice)
    requires c in w.callers && ch.fault == NoFault
    ensures var k, after := w.callers[c], Apply(w, Move(c, ch));
            && (k.pc.Claimed? && LastIsOwn(w, c, Acquired) ==>
                  if k.fingerprint then Records(w, after, c, Validating, None, Checking)
                  else Records(w, after, c, Rejected, Some(MissingFingerprint),
                               Done(Answer(false, ARejected, Some(MissingFingerprint)))))
            && (k.pc.Checking? && LastIsOwn(w, c, Validating) ==>
                  if ch.refusal == None then Records(w, after, c, Sending, None, Boundary)
                  else Records(w, after, c, Rejected, ch.refusal, Done(Answer(false, ARejected, ch.refusal))))
  {
    LatestIsLast(w.log, w.callers[c].event);
    hide Latest, AcquireClaim, AcquireLog, CurrentClaim, EnsureLog, EnsureStatus;
  }

  /** An owner whose lease was taken over or closed writes nothing, sends nothing, and asks for the outcome. */
  lemma LostLeaseStops(w: World, c: Token, ch: Choice)
    requires c in w.callers && (w.callers[c].pc.Claimed? || w.callers[c].pc.Checking?) && ch.fault == NoFault
    requires var recs := EventRecords(w.log, w.callers[c].event);
             recs == [] || Last(recs).token != Some(c) || Last(recs).status !in {Acquired, Validating, Sending}
    ensures Apply(w, Move(c, ch)) == At(w, c, Lost)
  {
    LatestIsLast(w.log, w.callers[c].event);
    hide Latest, AcquireClaim, AcquireLog, CurrentClaim, EnsureLog, EnsureStatus;
  }

  /** From the boundary on: the send, and then its outcome under the owner's token. */
  lemma OwnerSettles(w: World, c: Token, ch: Choice)
    requires c in w.callers && ch.fault == NoFault
    ensures var k, after := w.callers[c], Apply(w, Move(c, ch));
            && (k.pc.Boundary? ==>
                  && after.sends == w.sends + [(c, k.event)] && after.log == w.log
                  && after.callers[c].pc == if ch.sendError == None then Returned else Raised(ch.sendError.value))
            && (k.pc.Returned? && LastIsOwn(w, c, Sending) ==>
                  Records(w, after, c, Delivered, None, Done(Answer(true, ADelivered, None))))
            && (k.pc.Raised? && LastIsOwn(w, c, Sending) ==>
                  Records(w, after, c, Uncertain, Some(k.pc.error), Done(Answer(true, AUncertain, Some(k.pc.error)))))
            && (k.pc.Repairing? && LastIsOwn(w, c, Uncertain) ==>
                  after == At(w, c, Done(Answer(true, AUncertain, Some(ChangedAfterSend)))))
            && (k.pc.RaisedRepair? ==> after.callers[c].pc == Done(Answer(true, AUncertain, Some(k.pc.error))))
  {
    LatestIsLast(w.log, w.callers[c].event);
    hide Latest, AcquireClaim, AcquireLog, CurrentClaim;
  }

  /** A storage error stops a caller before the send; after the send it is an error of the send. */
  lemma FaultsStop(w: World, c: Token, ch: Choice)
    requires c in w.callers && ch.fault != NoFault
    ensures var pc, after := w.callers[c].pc, Apply(w, Move(c, ch));
            && (pc.Idle? || pc.Claimed? || pc.Checking? || pc.Lost? ==> after.callers[c].pc == Stopped && after.sends == w.sends)
            && (pc.Returned? || pc.Repairing? ==> after.callers[c].pc == Raised(ch.faultText))
            && (pc.Raised? || pc.RaisedRepair? ==> after.callers[c].pc == Stopped)
            && (ch.fault == FaultBefore ==> after.log == w.log)
  {
    hide Latest, AcquireClaim, AcquireLog, CurrentClaim, CanAdvance, AdvanceLog, EnsureLog, EnsureStatus;
  }

  /** A run in which the oracle calls no lease stale. */
  predicate NoStaleLease(acts: seq<Action>) {
    forall a :: a in acts && a.Move? ==> !a.choice.stale
  }

  /** Only the first record is an `acquired`, and no other token than its own is written. */
  ghost predicate OneOwner(recs: Log) {
    forall i :: 0 < i < |recs| ==>
      recs[i].status != Acquired && (recs[i].token.Some? ==> recs[i].token == recs[0].token)
  }

  lemma SameOwner(log: Log, after: Log, e: EventId, r: Record)
    requires OneOwner(EventRecords(log, e)) && Tame(log, after, r)
    ensures OneOwner(EventRecords(after, e))
  {
    LatestIsLast(log, e);
    EventRecordsSnoc(log, r, e);
  }

  /** What a step may append in a run without stale leases. */
  ghost predicate Tame(before: Log, after: Log, r: Record) {
    && after == before + [r]
    && (r.status == Acquired ==> Latest(before, r.event).None?)
    && (r.token.Some? && Latest(before, r.event).Some? ==> r.token == Latest(before, r.event).value.token)
  }

  lemma EarlyMoveIsTame(w: World, c: Token, ch: Choice)
    requires c in w.callers && !ch.stale && !PastBoundary(w.callers[c].pc)
    ensures MoveCaller(w, c, ch).log == w.log || exists r :: Tame(w.log, MoveCaller(w, c, ch).log, r)
  {
    hide Latest;
    var after := MoveCaller(w, c, ch).log;
    if after != w.log {
      assert Tame(w.log, after, after[|w.log|]);
    }
  }

  lemma LateMoveIsTame(w: World, c: Token, ch: Choice)
    requires Inv(w) && c in w.callers && PastBoundary(w.callers[c].pc)
    ensures MoveCaller(w, c, ch).log == w.log || exists r :: Tame(w.log, MoveCaller(w, c, ch).log, r)
  {
    hide Ph, Latest;
    assert CallerInv(w, c);
    PhaseLatest(w.log, w.callers[c].event);
    var after := MoveCaller(w, c, ch).log;
    if after != w.log {
      assert Tame(w.log, after, after[|w.log|]);
    }
  }

  lemma StepKeepsOneOwner(w: World, a: Action, e: EventId)
    requires Inv(w) && (a.Move? ==> !a.choice.stale)
    requires OneOwner(EventRecords(w.log, e))
    ensures OneOwner(EventRecords(Apply(w, a).log, e))
  {
    hide Inv, MoveCaller, OneOwner, CanMark;
    var after := Apply(w, a).log;
    if after != w.log {
      if a.Move? {
        if PastBoundary(w.callers[a.id].pc) {
          LateMoveIsTame(w, a.id, a.choice);
        } else {
          EarlyMoveIsTame(w, a.id, a.choice);
        }
      } else {
        assert Tame(w.log, after, Record(a.event, External(a.name), None, a.reason));
      }
      var r :| Tame(w.log, after, r);
      SameOwner(w.log, after, e, r);
    }
  }

  /**
   As long as no lease is called stale, an event is acquired at most once, by its first
   record, and every token among its records is the owner's.
   */
  lemma {:induction false} OneOwnerWithoutTakeover(acts: seq<Action>, e: EventId)
    requires NoStaleLease(acts)
    ensures OneOwner(EventRecords(Exec(Init, acts).log, e))
  {
    hide Inv, Apply;
    if acts != [] {
      var before, a := acts[..|acts| - 1], acts[|acts| - 1];
      OneOwnerWithoutTakeover(before, e);
      Reachable(before);
      StepKeepsOneOwner(Exec(Init, before), a, e);
    }
  }
}
