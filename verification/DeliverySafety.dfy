/**
 The protocol's theorems, each over every run: `Exec(Init, acts)` for an
 arbitrary action sequence.
 */
module DeliverySafety {
  import opened Wrappers
  import opened DeliveryLog
  import opened DeliveryGrammar
  import opened DeliveryProtocol

  /** At most one client send per event, whatever the clocks and crashes do. */
  lemma AtMostOneSend(acts: seq<Action>)
    ensures var w := Exec(Init, acts);
            forall i, j :: 0 <= i < j < |w.sends| ==> w.sends[i].1 != w.sends[j].1
  {
    hide Ph, Latest;
    Reachable(acts);
    var w := Exec(Init, acts);
    forall i: nat, j: nat | i < j < |w.sends| ensures w.sends[i].1 != w.sends[j].1 {
      assert SendInv(w, i) && SendInv(w, j);
    }
  }

  /** A send happens only under a durable `sending` record, and there is only one. */
  lemma SendNeedsSendingRecord(acts: seq<Action>, i: nat)
    requires i < |Exec(Init, acts).sends|
    ensures var w := Exec(Init, acts);
            var recs := EventRecords(w.log, w.sends[i].1);
            && SendingCount(recs) == 1
            && forall r :: r in recs && r.status == Sending ==> r.token == Some(w.sends[i].0)
  {
    Reachable(acts);
    var w := Exec(Init, acts);
    assert SendInv(w, i) && Ph(w.log, w.sends[i].1) != Broken;
    SendingOnce(EventRecords(w.log, w.sends[i].1));
  }

  /** The records of every event always have the shape `Conforms` describes. */
  lemma LogGrammar(acts: seq<Action>, e: EventId)
    ensures Conforms(EventRecords(Exec(Init, acts).log, e))
  {
    Reachable(acts);
    assert Ph(Exec(Init, acts).log, e) != Broken;
    PhaseIffConforms(EventRecords(Exec(Init, acts).log, e));
  }

  /** Once another token has written after it, a token never writes again. */
  lemma SupersededForever(acts: seq<Action>, e: EventId, i: nat, j: nat, k: nat, t: Token)
    requires var recs := EventRecords(Exec(Init, acts).log, e);
             i < j < k < |recs| && recs[i].token == Some(t) && recs[j].token.Some? && recs[j].token != Some(t)
    ensures EventRecords(Exec(Init, acts).log, e)[k].token != Some(t)
  {
    LogGrammar(acts, e);
    SupersededNeverReturns(EventRecords(Exec(Init, acts).log, e), i, j, k, t);
  }

  /** A closed or settled event keeps its state in every continuation. */
  lemma {:induction false} FinalForever(acts: seq<Action>, more: seq<Action>, e: EventId)
    requires Final(Ph(Exec(Init, acts).log, e))
    ensures Ph(Exec(Init, acts + more).log, e) == Ph(Exec(Init, acts).log, e)
  {
    hide *;
    if more == [] {
      assert acts + more == acts;
    } else {
      var n := |more| - 1;
      FinalForever(acts, more[..n], e);
      assert acts + more == acts + more[..n] + [more[n]];
      FinalOnce(acts + more[..n], more[n], e);
    }
  }

  predicate Final(p: Phase) {
    p.Settled? || p.Closed?
  }

  lemma FinalOnce(acts: seq<Action>, a: Action, e: EventId)
    requires Final(Ph(Exec(Init, acts).log, e))
    ensures Ph(Exec(Init, acts + [a]).log, e) == Ph(Exec(Init, acts).log, e)
  {
    hide *;
    ExecSnoc(Init, acts, a);
    Reachable(acts);
    StepFinal(Exec(Init, acts), a, e);
  }

  lemma StepFinal(w: World, a: Action, e: EventId)
    requires Inv(w) && Final(Ph(w.log, e))
    ensures Ph(Apply(w, a).log, e) == Ph(w.log, e)
  {
    hide Ph, Latest;
    var after := Apply(w, a).log;
    var mover := if a.Move? then a.id else 0;
    assert Extends(w.log, after, mover) by {
      StepExtends(w, a, mover);
    }
    PhaseStep(w.log, after, mover, e);
  }

  /** Every step leaves the log alone or appends one grammatical record. */
  lemma StepExtends(w: World, a: Action, mover: Token)
    requires Inv(w)
    requires a.Move? ==> mover == a.id
    ensures Extends(w.log, Apply(w, a).log, mover)
  {
    hide Ph, Latest;
    match a
    case Spawn(_, _, _, _) =>
    case Mark(e, name, reason) =>
      if CanMark(w.log, e) {
        MarkExtends(w.log, e, name, reason, mover);
      }
    case Move(c, ch) =>
      if c in w.callers {
        MoveExtends(w, c, ch);
      }
  }

  lemma MoveExtends(w: World, c: Token, ch: Choice)
    requires c in w.callers && CallerInv(w, c) && Ph(w.log, w.callers[c].event) != Broken
    ensures Extends(w.log, MoveCaller(w, c, ch).log, c)
  {
    hide Ph, Latest;
    if PastBoundary(w.callers[c].pc) {
      LateMoveExtends(w, c, ch);
    } else {
      EarlyMoveExtends(w, c, ch);
    }
  }

  lemma EarlyMoveExtends(w: World, c: Token, ch: Choice)
    requires c in w.callers && CallerInv(w, c) && Ph(w.log, w.callers[c].event) != Broken
    requires !PastBoundary(w.callers[c].pc)
    ensures Extends(w.log, MoveCaller(w, c, ch).log, c)
  {
    hide Ph, Latest;
    var k := w.callers[c];
    match k.pc
    case Idle => AcquireExtends(w.log, k.event, c, ch.stale, k.eventStatus);
    case Claimed =>
      if k.fingerprint {
        AdvanceLogExtends(w, c, Validating, None, Checking, ch.fault);
      } else {
        AdvanceLogExtends(w, c, Rejected, Some(MissingFingerprint), Done(Answer(false, ARejected, Some(MissingFingerprint))), ch.fault);
      }
    case Checking =>
      if ch.refusal.None? {
        AdvanceLogExtends(w, c, Sending, None, Boundary, ch.fault);
      } else {
        AdvanceLogExtends(w, c, Rejected, ch.refusal, Done(Answer(false, ARejected, ch.refusal)), ch.fault);
      }
    case _ =>
  }

  lemma LateMoveExtends(w: World, c: Token, ch: Choice)
    requires c in w.callers && CallerInv(w, c) && Ph(w.log, w.callers[c].event) != Broken
    requires PastBoundary(w.callers[c].pc)
    ensures Extends(w.log, MoveCaller(w, c, ch).log, c)
  {
    hide Ph, Latest;
    var k := w.callers[c];
    match k.pc
    case Returned => AdvanceExtends(w.log, k.event, c, Delivered, None);
    case Raised(error) => AdvanceExtends(w.log, k.event, c, Uncertain, Some(error));
    case Repairing => PhaseLatest(w.log, k.event);
    case RaisedRepair(error) => PhaseLatest(w.log, k.event);
    case _ =>
  }

  lemma AdvanceLogExtends(w: World, c: Token, next: Status, reason: Option<Reason>, won: Pc, fault: Fault)
    requires c in w.callers && Ph(w.log, w.callers[c].event) != Broken
    ensures Extends(w.log, Advance(w, c, next, reason, won, fault).log, c)
  {
    hide Ph, Latest;
    AdvanceExtends(w.log, w.callers[c].event, c, next, reason);
  }

  lemma MarkCloses(acts: seq<Action>, e: EventId, name: string, reason: Option<Reason>)
    requires CanMark(Exec(Init, acts).log, e)
    ensures Ph(Exec(Init, acts + [Mark(e, name, reason)]).log, e) == Closed
  {
    hide Ph, Latest, Exec, MarkLog, CanMark;
    Reachable(acts);
    MarkExtends(Exec(Init, acts).log, e, name, reason, 0);
    ExecSnoc(Init, acts, Mark(e, name, reason));
  }

  /** An event closed without a send was never sent. */
  lemma ClosedWasNotSent(acts: seq<Action>, e: EventId)
    requires Ph(Exec(Init, acts).log, e) == Closed
    ensures forall i :: 0 <= i < |Exec(Init, acts).sends| ==> Exec(Init, acts).sends[i].1 != e
  {
    hide Ph, Latest, Exec;
    Reachable(acts);
    var w := Exec(Init, acts);
    forall i: nat | i < |w.sends|
      ensures w.sends[i].1 != e
    {
      assert SendInv(w, i);
    }
  }

  /**
   If an external mark returns True, no send for the event happened before it
   and none happens in any continuation, whatever its owner was doing.
   */
  lemma ExternalFencing(acts: seq<Action>, e: EventId, name: string, reason: Option<Reason>, more: seq<Action>)
    requires CanMark(Exec(Init, acts).log, e)
    ensures var w := Exec(Init, acts + [Mark(e, name, reason)] + more);
            forall i :: 0 <= i < |w.sends| ==> w.sends[i].1 != e
  {
    MarkCloses(acts, e, name, reason);
    hide Ph, Exec, CanMark;
    FinalForever(acts + [Mark(e, name, reason)], more, e);
    ClosedWasNotSent(acts + [Mark(e, name, reason)] + more, e);
  }

  /** A mark is refused exactly when the send boundary was crossed or the event is closed. */
  lemma MarkRefusedIff(acts: seq<Action>, e: EventId)
    ensures var w := Exec(Init, acts);
            !CanMark(w.log, e) <==>
              (exists r :: r in EventRecords(w.log, e) && (r.status == Sending || r.status == Rejected || r.status.External?))
  {
    Reachable(acts);
    var w := Exec(Init, acts);
    var recs := EventRecords(w.log, e);
    PhaseLatest(w.log, e);
    LatestIsLast(w.log, e);
    OpenUntilClosed(recs);
    SendingOnce(recs);
  }

  /** While an event is open its records are all leases. */
  lemma {:induction false} OpenUntilClosed(recs: Log)
    requires PhaseOf(recs) != Broken
    ensures PhaseOf(recs).Fresh? || PhaseOf(recs).Leased? ==>
              forall r :: r in recs ==> r.status == Acquired || r.status == Validating
  {
    if recs != [] {
      var before := recs[..|recs| - 1];
      assert recs == before + [recs[|recs| - 1]];
      OpenUntilClosed(before);
    }
  }

  /** What a finished caller's answer means, now and in every continuation. */
  lemma OutcomeAgreement(acts: seq<Action>, c: Token, more: seq<Action>)
    requires c in Exec(Init, acts).callers && Exec(Init, acts).callers[c].pc.Done?
    ensures var w, later := Exec(Init, acts), Exec(Init, acts + more);
            var k, a := w.callers[c], w.callers[c].pc.answer;
            var latest := Latest(later.log, k.event);
            && (a.status == ARejected || a.status == AInProgress ==> !HasSent(w, c))
            && (a.status == ADelivered ==> HasSent(w, c) && latest.Some? && latest.value.status == Delivered && latest.value.token == Some(c))
            && (HasSent(w, c) ==> latest.Some? && latest.value.token == Some(c)
                                  && (latest.value.status == Delivered || latest.value.status == Uncertain))
  {
    hide Ph, Latest;
    Reachable(acts);
    Reachable(acts + more);
    var w := Exec(Init, acts);
    assert CallerInv(w, c);
    var e := w.callers[c].event;
    if HasSent(w, c) {
      FinalForever(acts, more, e);
      PhaseLatest(Exec(Init, acts + more).log, e);
    }
  }

  /** No two callers are both told `delivered` for one event. */
  lemma OneDeliveredAnswer(acts: seq<Action>, c: Token, d: Token)
    requires var w := Exec(Init, acts);
             && c in w.callers && d in w.callers && c != d
             && w.callers[c].event == w.callers[d].event
             && w.callers[c].pc.Done? && w.callers[d].pc.Done?
    ensures var w := Exec(Init, acts);
            !(w.callers[c].pc.answer.status == ADelivered && w.callers[d].pc.answer.status == ADelivered)
  {
    hide Ph, Latest;
    Reachable(acts);
    assert CallerInv(Exec(Init, acts), c) && CallerInv(Exec(Init, acts), d);
  }

  /** In the closed protocol the post-send repair never appends. */
  lemma RepairAppendsNothing(acts: seq<Action>, c: Token, reason: Reason)
    requires var w := Exec(Init, acts); c in w.callers && (w.callers[c].pc.Repairing? || w.callers[c].pc.RaisedRepair?)
    ensures var w := Exec(Init, acts);
            && EnsureLog(w.log, w.callers[c].event, c, reason) == w.log
            && (w.callers[c].pc.Repairing? ==> LatestStatus(w.log, w.callers[c].event, Pending) == Uncertain)
  {
    hide Ph, Latest;
    Reachable(acts);
    var w := Exec(Init, acts);
    assert CallerInv(w, c);
    PhaseLatest(w.log, w.callers[c].event);
  }

  /** Action `i` writes `delivered` for `c` to the log and raises all the same. */
  predicate HalfWriteAt(acts: seq<Action>, i: nat, c: Token)
    requires i < |acts|
  {
    var w := Exec(Init, acts[..i]);
    && acts[i].Move? && acts[i].id == c && acts[i].choice.fault == FaultAfter
    && c in w.callers && w.callers[c].pc.Returned? && CanAdvance(w.log, w.callers[c].event, c, Delivered)
  }

  predicate HalfWrote(acts: seq<Action>, c: Token) {
    exists i: nat :: i < |acts| && HalfWriteAt(acts, i, c)
  }

  ghost predicate RaisedUndelivered(w: World, c: Token) {
    c in w.callers && (w.callers[c].pc.Raised? || w.callers[c].pc.RaisedRepair?) ==>
      Ph(w.log, w.callers[c].event) != Settled(c, true)
  }

  lemma {:induction false} RaisedStaysUndelivered(acts: seq<Action>, c: Token)
    requires !HalfWrote(acts, c)
    ensures RaisedUndelivered(Exec(Init, acts), c)
  {
    hide Ph, Latest;
    if acts != [] {
      var n := |acts| - 1;
      forall i: nat | i < n
        ensures !HalfWriteAt(acts[..n], i, c)
      {
        assert acts[..n][..i] == acts[..i];
        assert !HalfWriteAt(acts, i, c);
      }
      RaisedStaysUndelivered(acts[..n], c);
      Reachable(acts[..n]);
      assert !HalfWriteAt(acts, n, c);
      StepKeepsUndelivered(Exec(Init, acts[..n]), acts[n], c);
    }
  }

  predicate IsHalfWrite(w: World, c: Token, ch: Choice)
    requires c in w.callers
  {
    ch.fault == FaultAfter && w.callers[c].pc.Returned? && CanAdvance(w.log, w.callers[c].event, c, Delivered)
  }

  lemma StepKeepsUndelivered(w: World, a: Action, c: Token)
    requires Inv(w) && RaisedUndelivered(w, c)
    requires a.Move? && a.id == c && c in w.callers ==> !IsHalfWrite(w, c, a.choice)
    ensures RaisedUndelivered(Apply(w, a), c)
  {
    hide Ph, Latest;
    var w2 := Apply(w, a);
    if c in w2.callers && (w2.callers[c].pc.Raised? || w2.callers[c].pc.RaisedRepair?) {
      if a.Move? && a.id == c {
        assert CallerInv(w, c);
        OwnStepUndelivered(w, c, a.choice);
      } else {
        StaysPut(w, a, c);
        assert CallerInv(w, c);
        var mover := if a.Move? then a.id else c + 1;
        StepExtends(w, a, mover);
        OtherStepUndelivered(w, w2.log, mover, c);
      }
    }
  }

  lemma StaysPut(w: World, a: Action, c: Token)
    requires !(a.Move? && a.id == c) && c in Apply(w, a).callers && Apply(w, a).callers[c].pc != Idle
    ensures c in w.callers && Apply(w, a).callers[c] == w.callers[c]
  {
    hide MoveCaller;
  }

  /** Another caller's record never settles `c`'s send as delivered. */
  lemma OtherStepUndelivered(w: World, log2: Log, mover: Token, c: Token)
    requires c in w.callers && CallerInv(w, c) && (w.callers[c].pc.Raised? || w.callers[c].pc.RaisedRepair?)
    requires mover != c && Extends(w.log, log2, mover)
    requires Ph(w.log, w.callers[c].event) != Settled(c, true)
    ensures Ph(log2, w.callers[c].event) != Settled(c, true)
  {
    hide Ph, Latest;
    PhaseStep(w.log, log2, mover, w.callers[c].event);
  }

  /** A step that ends in an error state started at the send or after it. */
  lemma RaisesFrom(w: World, c: Token, ch: Choice)
    requires c in w.callers
    requires var pc := MoveCaller(w, c, ch).callers[c].pc; pc.Raised? || pc.RaisedRepair?
    ensures var pc := w.callers[c].pc; pc.Boundary? || pc.Returned? || pc.Repairing? || pc.Raised?
  {
    hide Latest, AcquireLog, AcquireClaim, CurrentClaim, ResultForClaim, CanAdvance, AdvanceLog, EnsureLog, EnsureStatus;
  }

  lemma SendRaisesQuietly(w: World, c: Token, ch: Choice)
    requires c in w.callers && !IsHalfWrite(w, c, ch) && (w.callers[c].pc.Boundary? || w.callers[c].pc.Returned?)
    requires MoveCaller(w, c, ch).callers[c].pc.Raised?
    ensures MoveCaller(w, c, ch).log == w.log
  {
    hide Latest, EnsureLog;
  }

  lemma RepairRaisesQuietly(w: World, c: Token, ch: Choice)
    requires c in w.callers && w.callers[c].pc.Repairing? && LatestStatus(w.log, w.callers[c].event, Pending) == Uncertain
    requires MoveCaller(w, c, ch).callers[c].pc.Raised?
    ensures MoveCaller(w, c, ch).log == w.log
  {
    hide Latest, CanAdvance;
  }

  lemma RaisedStaysQuiet(w: World, c: Token, ch: Choice)
    requires c in w.callers && w.callers[c].pc.Raised? && MoveCaller(w, c, ch).callers[c].pc.RaisedRepair?
    ensures MoveCaller(w, c, ch).log == w.log
  {
    hide Latest, EnsureLog;
  }

  lemma OwnStepUndelivered(w: World, c: Token, ch: Choice)
    requires c in w.callers && CallerInv(w, c) && !IsHalfWrite(w, c, ch) && Ph(w.log, w.callers[c].event) != Broken
    requires w.callers[c].pc.Raised? || w.callers[c].pc.RaisedRepair? ==> Ph(w.log, w.callers[c].event) != Settled(c, true)
    requires var pc := MoveCaller(w, c, ch).callers[c].pc; pc.Raised? || pc.RaisedRepair?
    ensures Ph(MoveCaller(w, c, ch).log, w.callers[c].event) != Settled(c, true)
  {
    RaisesFrom(w, c, ch);
    PhaseLatest(w.log, w.callers[c].event);
    OwnPcKinds(w, c, ch);
    hide Ph, Latest, MoveCaller, IsHalfWrite;
    var pc := w.callers[c].pc;
    if pc.Boundary? || pc.Returned? {
      SendRaisesQuietly(w, c, ch);
    } else if pc.Repairing? {
      RepairRaisesQuietly(w, c, ch);
    } else {
      RaisedStaysQuiet(w, c, ch);
    }
  }

  lemma OwnPcKinds(w: World, c: Token, ch: Choice)
    requires c in w.callers
    requires var pc := MoveCaller(w, c, ch).callers[c].pc; pc.Raised? || pc.RaisedRepair?
    ensures !w.callers[c].pc.Raised? ==> MoveCaller(w, c, ch).callers[c].pc.Raised?
    ensures w.callers[c].pc.Raised? ==> MoveCaller(w, c, ch).callers[c].pc.RaisedRepair?
  {
    hide Latest, AcquireLog, AcquireClaim, CurrentClaim, ResultForClaim, CanAdvance, AdvanceLog, EnsureLog, EnsureStatus;
  }

  lemma {:induction false} EventStays(w: World, acts: seq<Action>, c: Token)
    requires c in w.callers
    ensures c in Exec(w, acts).callers && Exec(w, acts).callers[c].event == w.callers[c].event
  {
    hide MoveCaller;
    if acts != [] {
      EventStays(w, acts[..|acts| - 1], c);
    }
  }

  lemma HalfWriteSettlesEvent(w: World, c: Token, ch: Choice)
    requires Inv(w) && c in w.callers && IsHalfWrite(w, c, ch)
    ensures Ph(MoveCaller(w, c, ch).log, w.callers[c].event) == Settled(c, true)
  {
    hide Latest, Ph;
    var e := w.callers[c].event;
    assert CallerInv(w, c);
    PhaseLatest(w.log, e);
    AppendPhase(w.log, Record(e, Delivered, Some(c), None));
  }

  lemma HalfWriteMoves(acts: seq<Action>, i: nat, c: Token)
    requires i < |acts| && HalfWriteAt(acts, i, c)
    ensures var w := Exec(Init, acts[..i]);
            && acts[i].Move? && acts[i].id == c && c in w.callers
            && Ph(MoveCaller(w, c, acts[i].choice).log, w.callers[c].event) == Settled(c, true)
  {
    hide Ph, Latest, Exec, MoveCaller, CanAdvance;
    Reachable(acts[..i]);
    HalfWriteSettlesEvent(Exec(Init, acts[..i]), c, acts[i].choice);
  }

  /** What a half write settles, and that its caller stays. */
  lemma HalfWriteSettlesAt(acts: seq<Action>, i: nat, c: Token)
    requires i < |acts| && HalfWriteAt(acts, i, c)
    ensures c in Exec(Init, acts).callers
    ensures Ph(Exec(Init, acts[..i + 1]).log, Exec(Init, acts).callers[c].event) == Settled(c, true)
  {
    hide *;
    HalfWriteMoves(acts, i, c);
    var w := Exec(Init, acts[..i]);
    assert acts[..i + 1] == acts[..i] + [acts[i]];
    ExecSnoc(Init, acts[..i], acts[i]);
    MoveIs(w, acts[i]);
    assert acts == acts[..i] + acts[i..];
    ExecAppend(Init, acts[..i], acts[i..]);
    EventStays(w, acts[i..], c);
  }

  lemma MoveIs(w: World, a: Action)
    requires a.Move? && a.id in w.callers
    ensures Apply(w, a) == MoveCaller(w, a.id, a.choice)
  {
    hide MoveCaller;
  }

  /** An event settled as delivered has `delivered` as its latest status. */
  lemma SettledShows(acts: seq<Action>, e: EventId, c: Token)
    requires Ph(Exec(Init, acts).log, e) == Settled(c, true)
    ensures LatestStatus(Exec(Init, acts).log, e, Pending) == Delivered
  {
    hide Ph, Latest, Exec;
    PhaseLatest(Exec(Init, acts).log, e);
  }

  /** The half-written `delivered` is the event's last word in every continuation. */
  lemma HalfWriteIsFinal(acts: seq<Action>, i: nat, c: Token)
    requires i < |acts| && HalfWriteAt(acts, i, c)
    ensures var w := Exec(Init, acts);
            c in w.callers && LatestStatus(w.log, w.callers[c].event, Pending) == Delivered
  {
    HalfWriteSettlesAt(acts, i, c);
    SettledForever(acts, i + 1, Exec(Init, acts).callers[c].event, c);
  }

  lemma SettledForever(acts: seq<Action>, n: nat, e: EventId, c: Token)
    requires n <= |acts| && Ph(Exec(Init, acts[..n]).log, e) == Settled(c, true)
    ensures LatestStatus(Exec(Init, acts).log, e, Pending) == Delivered
  {
    hide Ph, Latest, LatestStatus, Exec;
    assert acts[..n] + acts[n..] == acts;
    FinalForever(acts[..n], acts[n..], e);
    SettledShows(acts, e, c);
  }

  /**
   After a failed post-send compare-and-set the log is already `uncertain` if and only
   if no write of `delivered` by this caller landed and then raised.
   */
  lemma FailedSettleFindsUncertain(acts: seq<Action>, c: Token)
    requires var w := Exec(Init, acts); c in w.callers && (w.callers[c].pc.Repairing? || w.callers[c].pc.RaisedRepair?)
    ensures LatestStatus(Exec(Init, acts).log, Exec(Init, acts).callers[c].event, Pending) == Uncertain <==> !HalfWrote(acts, c)
  {
    hide Ph, Latest;
    if HalfWrote(acts, c) {
      var i: nat :| i < |acts| && HalfWriteAt(acts, i, c);
      HalfWriteIsFinal(acts, i, c);
    } else {
      RaisedStaysUndelivered(acts, c);
      Reachable(acts);
      var w := Exec(Init, acts);
      assert CallerInv(w, c);
      PhaseLatest(w.log, w.callers[c].event);
    }
  }

  /** The existential scan for `delivered` agrees with the latest status on every reachable log. */
  lemma DeliveredScansAgree(acts: seq<Action>, e: EventId)
    ensures var log := Exec(Init, acts).log;
            (exists r :: r in log && r.event == e && r.status == Delivered) <==> LatestStatus(log, e, Pending) == Delivered
  {
    Reachable(acts);
    var log := Exec(Init, acts).log;
    var recs := EventRecords(log, e);
    PhaseLatest(log, e);
    LatestIsLast(log, e);
    DeliveredOnlyLast(recs);
    if r :| r in log && r.event == e && r.status == Delivered {
      EventRecordsMembers(log, e, r);
    }
    if LatestStatus(log, e, Pending) == Delivered {
      EventRecordsMembers(log, e, Latest(log, e).value);
    }
  }

  ghost predicate DeliveredShows(recs: Log, p: Phase) {
    forall r :: r in recs && r.status == Delivered ==> p.Settled? && p.delivered
  }

  lemma DeliveredStep(recs: Log, p: Phase, r: Record)
    requires DeliveredShows(recs, p) && Next(p, r) != Broken
    ensures DeliveredShows(recs + [r], Next(p, r))
  {
    assert forall q :: q in recs + [r] ==> q in recs || q == r;
  }

  lemma {:induction false} DeliveredOnlyLast(recs: Log)
    requires PhaseOf(recs) != Broken
    ensures DeliveredShows(recs, PhaseOf(recs))
  {
    if recs != [] {
      hide DeliveredShows, Next;
      var before, last := recs[..|recs| - 1], recs[|recs| - 1];
      DeliveredOnlyLast(before) by {
        PrefixesNotBroken(recs, |recs| - 1);
      }
      DeliveredStep(before, PhaseOf(before), last);
      assert recs == before + [last];
    }
  }

  const Calm := Choice(false, None, None, NoFault, Text(""))
  const Takeover := Choice(true, None, None, NoFault, Text(""))

  function Alone(c: Token, e: EventId, last: Choice): seq<Action> {
    [Spawn(c, e, Pending, true), Move(c, Takeover), Move(c, Calm), Move(c, Calm), Move(c, Calm), Move(c, last)]
  }

  lemma ExecSnoc(w: World, acts: seq<Action>, a: Action)
    ensures Exec(w, acts + [a]) == Apply(Exec(w, acts), a)
  {
    assert (acts + [a])[..|acts + [a]| - 1] == acts;
  }

  /** `c` is at `pc`, and the latest record of its event is its own `s`. */
  predicate Holds(w: World, c: Token, e: EventId, es: Status, pc: Pc, s: Status) {
    && c in w.callers
    && w.callers[c] == Caller(e, es, true, pc)
    && Latest(w.log, e) == Some(Record(e, s, Some(c), None))
  }

  /** A step in which nothing refuses, raises or fails. */
  predicate Smooth(ch: Choice) {
    ch.refusal.None? && ch.sendError.None? && ch.fault == NoFault
  }

  /** An event without records is open if it is registered as pending, any other if it can still be marked. */
  predicate Open(log: Log, e: EventId, es: Status) {
    CanMark(log, e) && LatestStatus(log, e, Acquired) != Pending && (Latest(log, e).None? ==> es == Pending)
  }

  lemma ClaimStep(w: World, c: Token, e: EventId, es: Status, ch: Choice)
    requires c in w.callers && w.callers[c] == Caller(e, es, true, Idle)
    requires Open(w.log, e, es) && Smooth(ch) && (ch.stale || Latest(w.log, e).None?)
    ensures var w2 := MoveCaller(w, c, ch);
            Holds(w2, c, e, es, Claimed, Acquired) && w2.sends == w.sends
  {
  }

  lemma LeaseStep(w: World, c: Token, e: EventId, es: Status, pc: Pc, ch: Choice)
    requires (pc == Claimed || pc == Checking) && Smooth(ch)
    requires Holds(w, c, e, es, pc, if pc == Claimed then Acquired else Validating)
    ensures var w2 := MoveCaller(w, c, ch);
            && Holds(w2, c, e, es, if pc == Claimed then Checking else Boundary, if pc == Claimed then Validating else Sending)
            && w2.sends == w.sends
  {
  }

  lemma SpawnStep(w: World, c: Token, e: EventId, es: Status)
    requires c !in w.callers
    ensures var w2 := Apply(w, Spawn(c, e, es, true));
            w2 == w.(callers := w.callers[c := Caller(e, es, true, Idle)])
  {
  }

  lemma SendStep(w: World, c: Token, e: EventId, es: Status, ch: Choice)
    requires Holds(w, c, e, es, Boundary, Sending) && Smooth(ch)
    ensures var w2 := MoveCaller(w, c, ch);
            Holds(w2, c, e, es, Returned, Sending) && w2.sends == w.sends + [(c, e)]
  {
  }

  lemma DeliverStep(w: World, c: Token, e: EventId, es: Status, ch: Choice)
    requires Holds(w, c, e, es, Returned, Sending) && Smooth(ch)
    ensures var w2 := MoveCaller(w, c, ch);
            Holds(w2, c, e, es, Done(Answer(true, ADelivered, None)), Delivered) && w2.sends == w.sends
  {
  }

  /** A caller left alone on an open event gets as far as the send's return. */
  lemma AloneReturns(w: World, c: Token, e: EventId)
    requires c !in w.callers && Open(w.log, e, Pending)
    ensures var w2 := Exec(w, Alone(c, e, Calm)[..5]);
            Holds(w2, c, e, Pending, Returned, Sending) && w2.sends == w.sends + [(c, e)]
  {
    var s := Alone(c, e, Calm);
    assert s[..1] == s[..0] + [s[0]] && s[..2] == s[..1] + [s[1]] && s[..3] == s[..2] + [s[2]];
    assert s[..4] == s[..3] + [s[3]] && s[..5] == s[..4] + [s[4]];
    assert Exec(w, s[..0]) == w;
    hide Exec, MoveCaller, CanMark, LatestStatus, Latest, Open;
    ExecSnoc(w, s[..0], s[0]);
    SpawnStep(w, c, e, Pending);
    ExecSnoc(w, s[..1], s[1]);
    ClaimStep(Exec(w, s[..1]), c, e, Pending, Takeover);
    ExecSnoc(w, s[..2], s[2]);
    LeaseStep(Exec(w, s[..2]), c, e, Pending, Claimed, Calm);
    ExecSnoc(w, s[..3], s[3]);
    LeaseStep(Exec(w, s[..3]), c, e, Pending, Checking, Calm);
    ExecSnoc(w, s[..4], s[4]);
    SendStep(Exec(w, s[..4]), c, e, Pending, Calm);
  }

  /** On a reachable log an event that can be marked is open. */
  lemma MarkableIsOpen(acts: seq<Action>, e: EventId, es: Status)
    requires var log := Exec(Init, acts).log; CanMark(log, e) && (Latest(log, e).None? ==> es == Pending)
    ensures Open(Exec(Init, acts).log, e, es)
  {
    Reachable(acts);
    PhaseLatest(Exec(Init, acts).log, e);
  }

  /**
   An event that is still open can always be delivered: from every reachable
   world, a new caller left alone (its lease oracle letting it take over) sends
   exactly once and is told `delivered`.
   */
  lemma OpenEventIsDeliverable(acts: seq<Action>, c: Token, e: EventId)
    requires var w := Exec(Init, acts);
             c !in w.callers && CanMark(w.log, e)
    ensures var w, w2 := Exec(Init, acts), Exec(Init, acts + Alone(c, e, Calm));
            && w2.sends == w.sends + [(c, e)]
            && c in w2.callers && w2.callers[c].pc == Done(Answer(true, ADelivered, None))
            && LatestStatus(w2.log, e, Pending) == Delivered
  {
    var w := Exec(Init, acts);
    MarkableIsOpen(acts, e, Pending);
    AloneReturns(w, c, e);
    var s := Alone(c, e, Calm);
    ExecAppend(Init, acts, s);
    assert s == s[..5] + [s[5]];
    hide Exec, MoveCaller, CanMark, Open, Latest;
    ExecSnoc(w, s[..5], s[5]);
    DeliverStep(Exec(w, s[..5]), c, e, Pending, Calm);
  }

  /**
   The half write in the previous claim happens: if the write of `delivered`
   lands and then raises, the caller's repair finds `delivered`, and the caller
   answers `uncertain` about a delivered event.
   */
  lemma HalfWriteAnswersUncertain(e: EventId, error: Reason)
    ensures var half := Choice(false, None, None, FaultAfter, error);
            var acts := Alone(0, e, half) + [Move(0, Calm), Move(0, Calm)];
            var w := Exec(Init, acts);
            && 0 in w.callers && w.callers[0].pc == Done(Answer(true, AUncertain, Some(error)))
            && LatestStatus(w.log, e, Pending) == Delivered
  {
    var half := Choice(false, None, None, FaultAfter, error);
    var s := Alone(0, e, half);
    assert s[..5] == Alone(0, e, Calm)[..5] && s == s[..5] + [s[5]];
    assert s + [Move(0, Calm), Move(0, Calm)] == s + [Move(0, Calm)] + [Move(0, Calm)];
    AloneReturns(Init, 0, e);
    hide Exec, Apply, Holds, LatestStatus, Latest, Alone;
    ExecSnoc(Init, s[..5], s[5]);
    ExecSnoc(Init, s, Move(0, Calm));
    ExecSnoc(Init, s + [Move(0, Calm)], Move(0, Calm));
    HalfWriteSettles(Exec(Init, s[..5]), e, half, error);
  }

  lemma HalfWriteSettles(w: World, e: EventId, half: Choice, error: Reason)
    requires Holds(w, 0, e, Pending, Returned, Sending)
    requires half.fault == FaultAfter && half.faultText == error
    ensures var w2 := Apply(Apply(Apply(w, Move(0, half)), Move(0, Calm)), Move(0, Calm));
            && 0 in w2.callers && w2.callers[0].pc == Done(Answer(true, AUncertain, Some(error)))
            && LatestStatus(w2.log, e, Pending) == Delivered
  {
    var w6 := Apply(w, Move(0, half));
    assert Latest(w6.log, e) == Some(Record(e, Delivered, Some(0), None));
    var w7 := Apply(w6, Move(0, Calm));
    assert w7.callers[0].pc == RaisedRepair(error) && w7.log == w6.log;
  }
}
