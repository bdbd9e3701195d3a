/**
 The bound-answer protocol: any number of callers, each with its own program
 counter, interleaved with external marks over one log.

 A run is a sequence of actions, so a theorem for all action sequences is a
 theorem for all interleavings. A crash needs no action: a caller that has
 crashed never moves again. Staleness, verdicts, send failures and log-write
 failures are all chosen freely by the action.
 */
module DeliveryProtocol {
  import opened Wrappers
  import opened DeliveryLog
  import opened DeliveryGrammar

  datatype AnswerStatus = ADelivered | AInProgress | ARejected | AUncertain

  datatype Answer = Answer(ok: bool, status: AnswerStatus, reason: Option<Reason>)

  /** The public result of a claim that was not granted. */
  function ResultForClaim(claim: Claim): Answer
    requires claim.Refused?
  {
    match claim.status
    case WasDelivered => Answer(false, ARejected, Some(AlreadyDelivered))
    case InProgress => Answer(false, AInProgress, Some(OrElse(claim.reason, DeliveryInProgress)))
    case WasUncertain => Answer(true, AUncertain, claim.reason)
    case WasRejected => Answer(false, ARejected, Some(OrElse(claim.reason, NotPendingAnymore)))
  }

  datatype Pc =
    | Idle                         // about to acquire
    | Claimed                      // owned; about to leave `acquired`
    | Checking                     // owned; looking up the client and checking the pane
    | Lost                         // a compare-and-set failed; about to read the outcome
    | Boundary                     // `sending` is durable; the client send is next
    | Returned                     // the send returned; about to record `delivered`
    | Repairing                    // recording `delivered` failed
    | Raised(error: Reason)        // something raised after the boundary
    | RaisedRepair(error: Reason)  // recording `uncertain` failed
    | Done(answer: Answer)
    | Stopped                      // an exception left the caller

  datatype Caller = Caller(event: EventId, eventStatus: Status, fingerprint: bool, pc: Pc)

  datatype Choice = Choice(
    stale: bool,                 // the lease oracle
    refusal: Option<Reason>,     // the live check's verdict; None is ok
    sendError: Option<Reason>,   // the client send raises
    fault: Fault,
    faultText: Reason)

  datatype Action =
    | Spawn(id: Token, event: EventId, eventStatus: Status, fingerprint: bool)
    | Move(id: Token, choice: Choice)
    | Mark(event: EventId, name: string, reason: Option<Reason>)

  datatype World = World(
    log: Log,
    callers: map<Token, Caller>,
    sends: seq<(Token, EventId)>, // client sends, in order
    fenced: set<EventId>)         // events for which some external mark returned True

  const Init := World([], map[], [], {})

  /** Only `c`'s program counter differs. */
  ghost predicate OnlyMoves(before: World, after: World, c: Token)
    requires c in before.callers
  {
    && after.callers.Keys == before.callers.Keys
    && (forall d :: d in before.callers && d != c ==> after.callers[d] == before.callers[d])
    && after.callers[c] == before.callers[c].(pc := after.callers[c].pc)
    && after.fenced == before.fenced
  }

  function At(w: World, c: Token, pc: Pc): (after: World)
    requires c in w.callers
    ensures OnlyMoves(w, after, c)
  {
    w.(callers := w.callers[c := w.callers[c].(pc := pc)])
  }

  /** One locked log write that ends at `pc`, unless the storage raises. */
  function Write(w: World, c: Token, log2: Log, pc: Pc, fault: Fault, onFault: Pc): (after: World)
    requires c in w.callers
    ensures OnlyMoves(w, after, c)
  {
    match fault
    case NoFault => At(w.(log := log2), c, pc)
    case FaultBefore => At(w, c, onFault)
    case FaultAfter => At(w.(log := log2), c, onFault)
  }

  /** One atomic step of the caller's program. */
  function MoveCaller(w: World, c: Token, ch: Choice): (after: World)
    requires c in w.callers
    ensures OnlyMoves(w, after, c)
  {
    var k := w.callers[c];
    match k.pc
    case Idle =>
      var claim := AcquireClaim(w.log, k.event, c, ch.stale, k.eventStatus);
      Write(w, c, AcquireLog(w.log, k.event, c, ch.stale, k.eventStatus),
            if claim.Owned? then Claimed else Done(ResultForClaim(claim)), ch.fault, Stopped)
    case Claimed =>
      if k.fingerprint then Advance(w, c, Validating, None, Checking, ch.fault)
      else Advance(w, c, Rejected, Some(MissingFingerprint), Done(Answer(false, ARejected, Some(MissingFingerprint))), ch.fault)
    case Checking =>
      if ch.refusal.None? then Advance(w, c, Sending, None, Boundary, ch.fault)
      else Advance(w, c, Rejected, ch.refusal, Done(Answer(false, ARejected, ch.refusal)), ch.fault)
    case Lost =>
      if ch.fault != NoFault then At(w, c, Stopped)
      else At(w, c, Done(ResultForClaim(CurrentClaim(w.log, k.event, k.eventStatus))))
    case Boundary =>
      At(w.(sends := w.sends + [(c, k.event)]), c, if ch.sendError.Some? then Raised(ch.sendError.value) else Returned)
    case Returned =>
      Write(w, c, AdvanceLog(w.log, k.event, c, Delivered, None),
            if CanAdvance(w.log, k.event, c, Delivered) then Done(Answer(true, ADelivered, None)) else Repairing,
            ch.fault, Raised(ch.faultText))
    case Repairing =>
      Write(w, c, EnsureLog(w.log, k.event, c, ChangedAfterSend),
            Done(if EnsureStatus(w.log, k.event) == Delivered then Answer(true, ADelivered, None)
                 else Answer(true, AUncertain, Some(ChangedAfterSend))),
            ch.fault, Raised(ch.faultText))
    case Raised(error) =>
      Write(w, c, AdvanceLog(w.log, k.event, c, Uncertain, Some(error)),
            if CanAdvance(w.log, k.event, c, Uncertain) then Done(Answer(true, AUncertain, Some(error))) else RaisedRepair(error),
            ch.fault, Stopped)
    case RaisedRepair(error) =>
      Write(w, c, EnsureLog(w.log, k.event, c, error), Done(Answer(true, AUncertain, Some(error))), ch.fault, Stopped)
    case Done(_) => w
    case Stopped => w
  }

  /** A compare-and-set before the boundary; losing it leads to a read of the outcome. */
  function Advance(w: World, c: Token, next: Status, reason: Option<Reason>, won: Pc, fault: Fault): (after: World)
    requires c in w.callers
    ensures OnlyMoves(w, after, c)
  {
    var e := w.callers[c].event;
    Write(w, c, AdvanceLog(w.log, e, c, next, reason), if CanAdvance(w.log, e, c, next) then won else Lost, fault, Stopped)
  }

  /** One atomic step of the system. An action that is not enabled changes nothing. */
  function Apply(w: World, a: Action): World {
    match a
    case Spawn(id, event, eventStatus, fingerprint) =>
      if id in w.callers then w
      else w.(callers := w.callers[id := Caller(event, eventStatus, fingerprint, Idle)])
    case Move(id, choice) =>
      if id in w.callers then MoveCaller(w, id, choice) else w
    case Mark(event, name, reason) =>
      if CanMark(w.log, event) then
        w.(log := MarkLog(w.log, event, External(name), reason), fenced := w.fenced + {event})
      else w
  }

  /** A run: any interleaving of any actions. */
  function Exec(w: World, acts: seq<Action>): World {
    if acts == [] then w else Apply(Exec(w, acts[..|acts| - 1]), acts[|acts| - 1])
  }

  lemma {:induction false} ExecAppend(w: World, a: seq<Action>, b: seq<Action>)
    ensures Exec(w, a + b) == Exec(Exec(w, a), b)
  {
    if b == [] {
      assert a + b == a;
    } else {
      var n := |b| - 1;
      assert (a + b)[..|a + b| - 1] == a + b[..n];
      ExecAppend(w, a, b[..n]);
    }
  }

  function Ph(log: Log, e: EventId): Phase {
    PhaseOf(EventRecords(log, e))
  }

  predicate SentBy(p: Phase, c: Token) {
    p == SendingBy(c) || (p.Settled? && p.owner == c)
  }

  predicate PastBoundary(pc: Pc) {
    pc.Returned? || pc.Repairing? || pc.Raised? || pc.RaisedRepair? || pc.Done? || pc.Stopped?
  }

  predicate HasSent(w: World, c: Token) {
    exists i :: 0 <= i < |w.sends| && w.sends[i].0 == c
  }

  ghost predicate CallerInv(w: World, c: Token)
    requires c in w.callers
  {
    var k := w.callers[c];
    var p := Ph(w.log, k.event);
    match k.pc
    case Idle => c !in Tokens(w.log)
    case Boundary => p == SendingBy(c) || p == Settled(c, false)
    case Returned => (p == SendingBy(c) || p == Settled(c, false)) && HasSent(w, c)
    case Repairing => p == Settled(c, false) && HasSent(w, c)
    case Raised(_) => SentBy(p, c) && HasSent(w, c)
    case RaisedRepair(_) => SentBy(p, c) && p.Settled? && HasSent(w, c)
    case Done(a) =>
      && (a.status == ADelivered ==> p == Settled(c, true) && HasSent(w, c))
      && (HasSent(w, c) ==> SentBy(p, c) && p.Settled? && (a.status == ADelivered || a.status == AUncertain))
    case _ => true
  }

  ghost predicate SendInv(w: World, i: nat)
    requires i < |w.sends|
  {
    var (c, e) := w.sends[i];
    && c in w.callers
    && w.callers[c].event == e
    && SentBy(Ph(w.log, e), c)
    && PastBoundary(w.callers[c].pc)
    && forall j | 0 <= j < i :: w.sends[j].0 != c
  }

  /** What every step keeps. */
  ghost predicate Inv(w: World) {
    && (forall e :: Ph(w.log, e) != Broken)
    && Tokens(w.log) <= w.callers.Keys
    && (forall c | c in w.callers :: CallerInv(w, c))
    && (forall i: nat | i < |w.sends| :: SendInv(w, i))
    && (forall e | e in w.fenced :: Ph(w.log, e) == Closed)
  }

  /** The log is unchanged, or gains one record that the grammar accepts. */
  ghost predicate Extends(before: Log, after: Log, c: Token) {
    || after == before
    || (exists r :: ExtendsBy(before, after, c, r))
  }

  ghost predicate ExtendsBy(before: Log, after: Log, c: Token, r: Record) {
    && after == before + [r]
    && (r.token.Some? ==> r.token.value in Tokens(before) + {c})
    && (r.status == Delivered ==> r.token == Some(c))
    && Ph(after, r.event) != Broken
  }

  lemma PhaseStep(before: Log, after: Log, c: Token, e: EventId)
    requires Extends(before, after, c)
    requires Ph(before, e) != Broken
    ensures Ph(after, e) != Broken
    ensures Tokens(after) <= Tokens(before) + {c}
    ensures Ph(before, e).Settled? || Ph(before, e).Closed? ==> Ph(after, e) == Ph(before, e)
    ensures forall t :: SentBy(Ph(before, e), t) ==> SentBy(Ph(after, e), t)
    ensures Ph(before, e).SendingBy? && Ph(before, e).owner != c ==> Ph(after, e) != Settled(Ph(before, e).owner, true)
  {
    if after != before {
      var r :| ExtendsBy(before, after, c, r);
      TokensSnoc(before, r);
      EventRecordsSnoc(before, r, e);
      if r.event == e {
        PhaseSnoc(EventRecords(before, e), r);
      }
    }
  }

  /** What the automaton's state says about the latest record. */
  lemma PhaseLatest(log: Log, e: EventId)
    requires Ph(log, e) != Broken
    ensures var p, latest := Ph(log, e), Latest(log, e);
            match p
            case Fresh => latest == None
            case Leased(t, checked, used) =>
              latest.Some? && Is(latest.value, if checked then Validating else Acquired, t) && used <= Tokens(log)
            case SendingBy(t) => latest.Some? && Is(latest.value, Sending, t)
            case Settled(t, d) => latest.Some? && Is(latest.value, if d then Delivered else Uncertain, t)
            case Closed => latest.Some? && (latest.value.status.External? || latest.value.status == Rejected)
            case Broken => false
  {
    LatestIsLast(log, e);
    var recs := EventRecords(log, e);
    if recs != [] {
      PhaseLast(recs);
      forall t | t in Tokens(recs) ensures t in Tokens(log) {
        var r :| r in recs && r.token == Some(t);
        EventRecordsMembers(log, e, r);
      }
    }
  }

  lemma AppendPhase(log: Log, r: Record)
    ensures Ph(log + [r], r.event) == Next(Ph(log, r.event), r)
  {
    EventRecordsSnoc(log, r, r.event);
    PhaseSnoc(EventRecords(log, r.event), r);
  }

  lemma AcquireExtends(log: Log, e: EventId, c: Token, stale: bool, es: Status)
    requires Ph(log, e) != Broken && c !in Tokens(log)
    ensures Extends(log, AcquireLog(log, e, c, stale, es), c)
  {
    hide Ph, Latest;
    PhaseLatest(log, e);
    var after := AcquireLog(log, e, c, stale, es);
    if after != log {
      var r := after[|log|];
      AppendPhase(log, r);
      var latest := Latest(log, e);
      if r.status == Uncertain {
        LatestIsLast(log, e);
        EventRecordsMembers(log, e, latest.value);
      }
      assert ExtendsBy(log, after, c, r);
    }
  }

  lemma AdvanceExtends(log: Log, e: EventId, c: Token, next: Status, reason: Option<Reason>)
    requires Ph(log, e) != Broken
    ensures Extends(log, AdvanceLog(log, e, c, next, reason), c)
    ensures CanAdvance(log, e, c, next) ==>
              Ph(AdvanceLog(log, e, c, next, reason), e) == Next(Ph(log, e), Record(e, next, Some(c), reason))
    ensures CanAdvance(log, e, c, next) && next == Sending ==> Ph(AdvanceLog(log, e, c, next, reason), e) == SendingBy(c)
  {
    hide Ph, Latest;
    PhaseLatest(log, e);
    if CanAdvance(log, e, c, next) {
      var r := Record(e, next, Some(c), reason);
      AppendPhase(log, r);
      assert ExtendsBy(log, log + [r], c, r);
    }
  }

  lemma MarkExtends(log: Log, e: EventId, name: string, reason: Option<Reason>, c: Token)
    requires Ph(log, e) != Broken && CanMark(log, e)
    ensures Extends(log, MarkLog(log, e, External(name), reason), c)
    ensures Ph(MarkLog(log, e, External(name), reason), e) == Closed
    ensures Ph(log, e).Fresh? || Ph(log, e).Leased?
  {
    hide Ph, Latest;
    PhaseLatest(log, e);
    var r := Record(e, External(name), None, reason);
    AppendPhase(log, r);
    assert ExtendsBy(log, log + [r], c, r);
  }

  /** Every caller but the one that moves keeps its part of the invariant. */
  lemma OthersKeep(w: World, w2: World, c: Token)
    requires Inv(w) && Extends(w.log, w2.log, c)
    requires c in w.callers && w2.callers.Keys == w.callers.Keys
    requires forall d | d in w.callers && d != c :: w2.callers[d] == w.callers[d]
    requires w2.sends == w.sends || (|w2.sends| == |w.sends| + 1 && w2.sends[..|w.sends|] == w.sends && w2.sends[|w.sends|].0 == c)
    ensures forall d | d in w.callers && d != c :: CallerInv(w2, d)
  {
    forall d | d in w.callers && d != c ensures CallerInv(w2, d) {
      PhaseStep(w.log, w2.log, c, w.callers[d].event);
      assert CallerInv(w, d);
      assert HasSent(w2, d) <==> HasSent(w, d) by {
        if i :| 0 <= i < |w2.sends| && w2.sends[i].0 == d {
          assert w.sends[i].0 == d;
        }
        if i :| 0 <= i < |w.sends| && w.sends[i].0 == d {
          assert w2.sends[i].0 == d;
        }
      }
    }
  }

  lemma LogKeeps(w: World, log2: Log, c: Token)
    requires Inv(w) && Extends(w.log, log2, c) && c in w.callers
    ensures forall e :: Ph(log2, e) != Broken
    ensures Tokens(log2) <= w.callers.Keys
    ensures forall e | e in w.fenced :: Ph(log2, e) == Closed
  {
    hide Ph, Latest;
    PhaseStep(w.log, log2, c, w.callers[c].event);
    forall e ensures Ph(log2, e) != Broken && (e in w.fenced ==> Ph(log2, e) == Closed) {
      PhaseStep(w.log, log2, c, e);
    }
  }

  lemma SendsKeep(w: World, w2: World, c: Token)
    requires Inv(w) && Extends(w.log, w2.log, c) && c in w.callers
    requires w2.callers.Keys == w.callers.Keys
    requires forall d | d in w.callers :: w2.callers[d].event == w.callers[d].event
    requires forall d | d in w.callers :: PastBoundary(w.callers[d].pc) ==> PastBoundary(w2.callers[d].pc)
    requires |w.sends| <= |w2.sends| && w2.sends[..|w.sends|] == w.sends
    ensures forall i: nat | i < |w.sends| :: SendInv(w2, i)
  {
    hide Ph, Latest;
    forall i: nat | i < |w.sends| ensures SendInv(w2, i) {
      assert SendInv(w, i) && w2.sends[i] == w.sends[i];
      PhaseStep(w.log, w2.log, c, w.sends[i].1);
      assert forall j | 0 <= j < i :: w2.sends[j] == w.sends[j];
    }
  }

  /** A write by `c` keeps the invariant if `c` itself ends well. */
  lemma WriteKeeps(w: World, c: Token, log2: Log, pc: Pc)
    requires Inv(w) && c in w.callers && Extends(w.log, log2, c)
    requires PastBoundary(w.callers[c].pc) ==> PastBoundary(pc)
    requires CallerInv(At(w.(log := log2), c, pc), c)
    ensures Inv(At(w.(log := log2), c, pc))
  {
    hide Ph, Latest;
    var w2 := At(w.(log := log2), c, pc);
    OthersKeep(w, w2, c);
    LogKeeps(w, log2, c);
    SendsKeep(w, w2, c);
  }

  /** A caller that has not crossed the boundary has sent nothing. */
  lemma NotYetSent(w: World, c: Token)
    requires Inv(w) && c in w.callers && !PastBoundary(w.callers[c].pc)
    ensures !HasSent(w, c)
  {
    hide Ph, Latest;
    forall i: nat | i < |w.sends| ensures w.sends[i].0 != c {
      assert SendInv(w, i);
    }
  }

  lemma IdleKeeps(w: World, c: Token, ch: Choice)
    requires Inv(w) && c in w.callers && w.callers[c].pc == Idle
    ensures Inv(MoveCaller(w, c, ch))
  {
    hide Ph, Latest;
    var k := w.callers[c];
    assert CallerInv(w, c);
    AcquireExtends(w.log, k.event, c, ch.stale, k.eventStatus);
    SilentKeeps(w, c, MoveCaller(w, c, ch).log, MoveCaller(w, c, ch).callers[c].pc);
  }

  /** A step to a state that has not crossed the boundary keeps the invariant. */
  lemma SilentKeeps(w: World, c: Token, log2: Log, pc: Pc)
    requires Inv(w) && c in w.callers && !PastBoundary(w.callers[c].pc)
    requires Extends(w.log, log2, c)
    requires pc.Claimed? || pc.Checking? || pc.Lost? || pc.Stopped? || (pc.Done? && pc.answer.status != ADelivered)
             || (pc.Boundary? && Ph(log2, w.callers[c].event) == SendingBy(c))
    ensures Inv(At(w.(log := log2), c, pc))
  {
    hide Ph, Latest;
    NotYetSent(w, c);
    var w2 := At(w.(log := log2), c, pc);
    assert w2.sends == w.sends;
    assert !HasSent(w2, c);
    WriteKeeps(w, c, log2, pc);
  }

  lemma AdvanceKeeps(w: World, c: Token, next: Status, reason: Option<Reason>, won: Pc, fault: Fault)
    requires Inv(w) && c in w.callers && !PastBoundary(w.callers[c].pc)
    requires won.Checking? || (won.Done? && won.answer.status != ADelivered) || (won.Boundary? && next == Sending)
    ensures Inv(Advance(w, c, next, reason, won, fault))
  {
    hide Ph, Latest;
    AdvanceExtends(w.log, w.callers[c].event, c, next, reason);
    assert Extends(w.log, w.log, c);
    var w2 := Advance(w, c, next, reason, won, fault);
    SilentKeeps(w, c, w2.log, w2.callers[c].pc);
  }

  lemma MoveKeepsBefore(w: World, c: Token, ch: Choice)
    requires Inv(w) && c in w.callers
    requires var pc := w.callers[c].pc; pc.Idle? || pc.Claimed? || pc.Checking? || pc.Lost?
    ensures Inv(MoveCaller(w, c, ch))
  {
    hide Ph, Latest;
    var k := w.callers[c];
    match k.pc
    case Idle => IdleKeeps(w, c, ch);
    case Claimed =>
      if k.fingerprint {
        AdvanceKeeps(w, c, Validating, None, Checking, ch.fault);
      } else {
        AdvanceKeeps(w, c, Rejected, Some(MissingFingerprint), Done(Answer(false, ARejected, Some(MissingFingerprint))), ch.fault);
      }
    case Checking =>
      if ch.refusal.None? {
        AdvanceKeeps(w, c, Sending, None, Boundary, ch.fault);
      } else {
        AdvanceKeeps(w, c, Rejected, ch.refusal, Done(Answer(false, ARejected, ch.refusal)), ch.fault);
      }
    case Lost =>
      SilentKeeps(w, c, w.log, MoveCaller(w, c, ch).callers[c].pc);
  }

  lemma MoveKeepsSend(w: World, c: Token, ch: Choice)
    requires Inv(w) && c in w.callers && w.callers[c].pc == Boundary
    ensures Inv(MoveCaller(w, c, ch))
  {
    hide Ph, Latest;
    var w2 := MoveCaller(w, c, ch);
    var n := |w.sends|;
    NotYetSent(w, c);
    assert CallerInv(w, c);
    OthersKeep(w, w2, c);
    SendsKeep(w, w2, c);
    assert w2.sends[n].0 == c;
    assert forall j | 0 <= j < n :: w2.sends[j] == w.sends[j] && w.sends[j].0 != c;
    assert SendInv(w2, n);
    assert CallerInv(w2, c);
  }

  /** A step after the boundary keeps the invariant if its new state fits the log. */
  lemma SettleKeeps(w: World, c: Token, log2: Log, pc: Pc)
    requires Inv(w) && c in w.callers && PastBoundary(w.callers[c].pc) && PastBoundary(pc) && HasSent(w, c)
    requires Extends(w.log, log2, c)
    requires var p := Ph(log2, w.callers[c].event);
             match pc
             case Repairing => p == Settled(c, false)
             case Raised(_) => SentBy(p, c)
             case RaisedRepair(_) => SentBy(p, c) && p.Settled?
             case Stopped => true
             case Done(a) => SentBy(p, c) && p.Settled? && (a.status == AUncertain || (a.status == ADelivered && p.delivered))
             case _ => false
    ensures Inv(At(w.(log := log2), c, pc))
  {
    hide Ph, Latest;
    var w2 := At(w.(log := log2), c, pc);
    assert w2.sends == w.sends;
    assert HasSent(w2, c);
    WriteKeeps(w, c, log2, pc);
  }

  lemma ReturnedKeeps(w: World, c: Token, ch: Choice)
    requires Inv(w) && c in w.callers && w.callers[c].pc == Returned
    ensures Inv(MoveCaller(w, c, ch))
  {
    hide Ph, Latest;
    var k := w.callers[c];
    assert CallerInv(w, c);
    PhaseLatest(w.log, k.event);
    AdvanceExtends(w.log, k.event, c, Delivered, None);
    var w2 := MoveCaller(w, c, ch);
    assert Extends(w.log, w.log, c);
    PhaseStep(w.log, w2.log, c, k.event);
    SettleKeeps(w, c, w2.log, w2.callers[c].pc);
  }

  lemma UncertainOutcome(log: Log, e: EventId, c: Token, reason: Option<Reason>)
    requires SentBy(Ph(log, e), c)
    ensures var log2 := AdvanceLog(log, e, c, Uncertain, reason);
            && Extends(log, log2, c)
            && Ph(log2, e).Settled? && Ph(log2, e).owner == c
            && (CanAdvance(log, e, c, Uncertain) <==> Ph(log, e).SendingBy?)
  {
    hide Ph;
    PhaseLatest(log, e);
    AdvanceExtends(log, e, c, Uncertain, reason);
  }

  lemma RaisedKeeps(w: World, c: Token, ch: Choice)
    requires Inv(w) && c in w.callers && w.callers[c].pc.Raised?
    ensures Inv(MoveCaller(w, c, ch))
  {
    hide Ph, Latest;
    var k := w.callers[c];
    assert CallerInv(w, c);
    var log2 := AdvanceLog(w.log, k.event, c, Uncertain, Some(k.pc.error));
    UncertainOutcome(w.log, k.event, c, Some(k.pc.error));
    assert Extends(w.log, w.log, c);
    match ch.fault
    case NoFault =>
      SettleKeeps(w, c, log2, MoveCaller(w, c, ch).callers[c].pc);
    case FaultBefore =>
      SettleKeeps(w, c, w.log, Stopped);
    case FaultAfter =>
      SettleKeeps(w, c, log2, Stopped);
  }

  lemma MoveKeepsAfter(w: World, c: Token, ch: Choice)
    requires Inv(w) && c in w.callers
    requires PastBoundary(w.callers[c].pc)
    ensures Inv(MoveCaller(w, c, ch))
  {
    hide Ph, Latest;
    var k := w.callers[c];
    assert CallerInv(w, c);
    match k.pc
    case Returned => ReturnedKeeps(w, c, ch);
    case Raised(_) => RaisedKeeps(w, c, ch);
    case Repairing =>
      PhaseLatest(w.log, k.event);
      SettleKeeps(w, c, w.log, MoveCaller(w, c, ch).callers[c].pc);
    case RaisedRepair(_) =>
      PhaseLatest(w.log, k.event);
      SettleKeeps(w, c, w.log, MoveCaller(w, c, ch).callers[c].pc);
    case Done(_) =>
    case Stopped =>
  }

  lemma MarkKeeps(w: World, e: EventId, name: string, reason: Option<Reason>)
    requires Inv(w)
    ensures Inv(Apply(w, Mark(e, name, reason)))
  {
    if CanMark(w.log, e) {
      var w2 := Apply(w, Mark(e, name, reason));
      var any: Token := 0;
      MarkExtends(w.log, e, name, reason, any);
      TokensSnoc(w.log, Record(e, External(name), None, reason));
      forall f ensures Ph(w2.log, f) != Broken && (f in w2.fenced ==> Ph(w2.log, f) == Closed) {
        PhaseStep(w.log, w2.log, any, f);
      }
      forall d | d in w.callers ensures CallerInv(w2, d) {
        PhaseStep(w.log, w2.log, any, w.callers[d].event);
        assert CallerInv(w, d);
        assert HasSent(w2, d) <==> HasSent(w, d);
      }
      forall i: nat | i < |w.sends| ensures SendInv(w2, i) {
        assert SendInv(w, i);
        PhaseStep(w.log, w2.log, any, w.sends[i].1);
      }
    }
  }

  lemma SpawnKeeps(w: World, id: Token, e: EventId, es: Status, fp: bool)
    requires Inv(w)
    ensures Inv(Apply(w, Spawn(id, e, es, fp)))
  {
    if id !in w.callers {
      var w2 := Apply(w, Spawn(id, e, es, fp));
      forall d | d in w2.callers ensures CallerInv(w2, d) {
        if d != id {
          assert CallerInv(w, d);
          assert HasSent(w2, d) <==> HasSent(w, d);
        }
      }
      forall i: nat | i < |w.sends| ensures SendInv(w2, i) {
        assert SendInv(w, i);
      }
    }
  }

  /** Every atomic step keeps the invariant. */
  lemma StepKeeps(w: World, a: Action)
    requires Inv(w)
    ensures Inv(Apply(w, a))
  {
    hide Ph, Latest;
    match a
    case Spawn(id, e, es, fp) => SpawnKeeps(w, id, e, es, fp);
    case Mark(e, name, reason) => MarkKeeps(w, e, name, reason);
    case Move(id, ch) =>
      if id in w.callers {
        var pc := w.callers[id].pc;
        if pc.Boundary? {
          MoveKeepsSend(w, id, ch);
        } else if PastBoundary(pc) {
          MoveKeepsAfter(w, id, ch);
        } else {
          MoveKeepsBefore(w, id, ch);
        }
      }
  }

  lemma {:induction false} RunKeeps(w: World, acts: seq<Action>)
    requires Inv(w)
    ensures Inv(Exec(w, acts))
  {
    hide Ph, Latest;
    if acts != [] {
      RunKeeps(w, acts[..|acts| - 1]);
      StepKeeps(Exec(w, acts[..|acts| - 1]), acts[|acts| - 1]);
    }
  }

  /** Every reachable world satisfies the invariant. */
  lemma Reachable(acts: seq<Action>)
    ensures Inv(Exec(Init, acts))
  {
    assert forall e :: EventRecords(Init.log, e) == [];
    RunKeeps(Init, acts);
  }
}
