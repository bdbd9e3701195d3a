/**
 `answer_bound_event` as the straight-line program it is, over a real store,
 with other callers and external marks running between any two of its steps.

 Its contract says that what it does is a run of the protocol: the world it
 leaves behind is `Exec` of a trace in which its own program counter ends at the
 answer it returns. Every theorem of `DeliverySafety` therefore applies to it.
 */
module Answering {
  import opened Wrappers
  import opened DeliveryLog
  import opened DeliveryProtocol
  import opened DeliverySafety
  import opened QueueOrder
  import opened DeliveryQueue
  import Store = DeliveryStore

  /** Everything one call cannot control. */
  datatype Surroundings = Surroundings(
    stale: bool,
    refusal: Option<Reason>,
    sendError: Option<Reason>,
    faultText: Reason,
    fault: nat -> Fault,            // the storage, step by step
    others: nat -> seq<Action>)     // what everybody else does before each step

  function ChoiceAt(env: Surroundings, n: nat): Choice {
    Choice(env.stale, env.refusal, env.sendError, env.fault(n), env.faultText)
  }

  predicate About(a: Action, me: Token) {
    (a.Spawn? || a.Move?) && a.id == me
  }

  ghost predicate Foreign(env: Surroundings, me: Token) {
    forall n: nat, a :: a in env.others(n) ==> !About(a, me)
  }

  lemma ForeignKeeps(w: World, a: Action, me: Token)
    requires !About(a, me) && me in w.callers
    ensures me in Apply(w, a).callers && Apply(w, a).callers[me] == w.callers[me]
  {
    hide MoveCaller;
  }

  lemma StrangersSendNothing(acts: seq<Action>, me: Token)
    requires me !in Exec(Init, acts).callers
    ensures !HasSent(Exec(Init, acts), me)
  {
    Reachable(acts);
    var w := Exec(Init, acts);
    forall i: nat | i < |w.sends| ensures w.sends[i].0 != me {
      assert SendInv(w, i);
    }
  }

  // ---------------------------------------------------------------- the program, as a trace

  /** Which step of the program a caller at `pc` is about to make. */
  function Slot(pc: Pc): nat {
    match pc
    case Idle => 0
    case Claimed => 1
    case Checking => 2
    case Boundary => 4
    case Returned => 5
    case Repairing => 6
    case Raised(_) => 7
    case RaisedRepair(_) => 8
    case _ => 9
  }

  /** Every step brings the program closer to its end. */
  function Rank(pc: Pc): nat {
    match pc
    case Idle => 9
    case Claimed => 8
    case Checking => 7
    case Boundary => 6
    case Returned => 5
    case Repairing => 4
    case Raised(_) => 3
    case RaisedRepair(_) => 2
    case Lost => 1
    case _ => 0
  }

  lemma RankFalls(w: World, me: Token, ch: Choice)
    requires me in w.callers && Rank(w.callers[me].pc) > 0
    ensures me in MoveCaller(w, me, ch).callers && Rank(MoveCaller(w, me, ch).callers[me].pc) < Rank(w.callers[me].pc)
  {
    hide AcquireClaim, AcquireLog, AdvanceLog, CanAdvance, EnsureLog, EnsureStatus, CurrentClaim, ResultForClaim;
  }

  lemma {:induction false} ForeignRun(w: World, acts: seq<Action>, me: Token)
    requires me in w.callers && forall a :: a in acts ==> !About(a, me)
    ensures me in Exec(w, acts).callers && Exec(w, acts).callers[me] == w.callers[me]
  {
    if acts != [] {
      var n := |acts| - 1;
      assert acts[n] in acts;
      ForeignRun(w, acts[..n], me);
      ForeignKeeps(Exec(w, acts[..n]), acts[n], me);
    }
  }

  /** What the rest of the call does to the world: others before each step, then the caller's own step. */
  ghost function Drive(w: World, me: Token, env: Surroundings): seq<Action>
    requires me in w.callers && Foreign(env, me)
    decreases Rank(w.callers[me].pc)
  {
    var pc := w.callers[me].pc;
    if Rank(pc) == 0 then []
    else
      var n := Slot(pc);
      ForeignRun(w, env.others(n), me);
      var w1 := Exec(w, env.others(n));
      RankFalls(w1, me, ChoiceAt(env, n));
      env.others(n) + [Move(me, ChoiceAt(env, n))] + Drive(MoveCaller(w1, me, ChoiceAt(env, n)), me, env)
  }

  /** One step of the program taken: what is left is driven from where it led. */
  lemma Driven(w: World, w1: World, me: Token, env: Surroundings, n: nat, soFar: seq<Action>, rest: seq<Action>)
    requires me in w.callers && Foreign(env, me) && Rank(w.callers[me].pc) > 0 && n == Slot(w.callers[me].pc)
    requires w1 == Exec(w, env.others(n)) && me in w1.callers && me in MoveCaller(w1, me, ChoiceAt(env, n)).callers
    requires rest == Drive(MoveCaller(w1, me, ChoiceAt(env, n)), me, env)
    ensures soFar + env.others(n) + [Move(me, ChoiceAt(env, n))] + rest == soFar + Drive(w, me, env)
  {
    hide Exec, MoveCaller;
    assert Drive(w, me, env) == env.others(n) + [Move(me, ChoiceAt(env, n))] + rest;
  }

  /** The step taken was the last. */
  lemma DrivenOut(w: World, w1: World, me: Token, env: Surroundings, n: nat, soFar: seq<Action>)
    requires me in w.callers && Foreign(env, me) && Rank(w.callers[me].pc) > 0 && n == Slot(w.callers[me].pc)
    requires w1 == Exec(w, env.others(n)) && me in w1.callers && me in MoveCaller(w1, me, ChoiceAt(env, n)).callers
    requires Rank(MoveCaller(w1, me, ChoiceAt(env, n)).callers[me].pc) == 0
    ensures soFar + env.others(n) + [Move(me, ChoiceAt(env, n))] == soFar + Drive(w, me, env)
  {
    hide Exec, MoveCaller;
    DriveEnds(MoveCaller(w1, me, ChoiceAt(env, n)), me, env);
    Driven(w, w1, me, env, n, soFar, []);
  }

  lemma ExecNothing(w: World)
    ensures Exec(w, []) == w
  {
  }

  lemma DriveEnds(w: World, me: Token, env: Surroundings)
    requires me in w.callers && Foreign(env, me) && Rank(w.callers[me].pc) == 0
    ensures Drive(w, me, env) == []
  {
  }

  /** Nobody else runs, and nothing refuses, raises or fails. */
  ghost predicate Undisturbed(env: Surroundings) {
    env.refusal.None? && env.sendError.None? && forall n: nat :: env.others(n) == [] && env.fault(n) == NoFault
  }

  lemma QuietStep(w: World, me: Token, env: Surroundings, n: nat)
    requires me in w.callers && Foreign(env, me) && Undisturbed(env)
    requires Rank(w.callers[me].pc) > 0 && n == Slot(w.callers[me].pc)
    ensures Smooth(ChoiceAt(env, n)) && me in MoveCaller(w, me, ChoiceAt(env, n)).callers
    ensures var w1 := MoveCaller(w, me, ChoiceAt(env, n));
            Exec(w, Drive(w, me, env)) == Exec(w1, Drive(w1, me, env))
  {
    hide MoveCaller, Exec, Drive;
    var w1 := MoveCaller(w, me, ChoiceAt(env, n));
    var rest := Drive(w1, me, env);
    var own := [Move(me, ChoiceAt(env, n))];
    ExecNothing(w);
    Driven(w, w, me, env, n, [], rest);
    assert [] + env.others(n) + own + rest == own + rest && [] + Drive(w, me, env) == Drive(w, me, env);
    ExecAppend(w, own, rest);
    ExecSnoc(w, [], own[0]);
    assert [] + own == own;
  }

  /** Left alone, the program delivers an open event. */
  lemma DriveDelivers(w: World, me: Token, e: EventId, es: Status, env: Surroundings)
    requires me in w.callers && w.callers[me] == Caller(e, es, true, Idle)
    requires Foreign(env, me) && Undisturbed(env) && Open(w.log, e, es) && (env.stale || Latest(w.log, e).None?)
    ensures var w2 := Exec(w, Drive(w, me, env));
            Holds(w2, me, e, es, Done(Answer(true, ADelivered, None)), Delivered) && w2.sends == w.sends + [(me, e)]
  {
    hide MoveCaller, Exec, Drive, Foreign, Undisturbed, Open, Latest;
    QuietStep(w, me, env, 0);
    var w1 := MoveCaller(w, me, ChoiceAt(env, 0));
    ClaimStep(w, me, e, es, ChoiceAt(env, 0));
    QuietStep(w1, me, env, 1);
    var w2 := MoveCaller(w1, me, ChoiceAt(env, 1));
    LeaseStep(w1, me, e, es, Claimed, ChoiceAt(env, 1));
    QuietStep(w2, me, env, 2);
    var w3 := MoveCaller(w2, me, ChoiceAt(env, 2));
    LeaseStep(w2, me, e, es, Checking, ChoiceAt(env, 2));
    QuietStep(w3, me, env, 4);
    var w4 := MoveCaller(w3, me, ChoiceAt(env, 4));
    SendStep(w3, me, e, es, ChoiceAt(env, 4));
    QuietStep(w4, me, env, 5);
    var w5 := MoveCaller(w4, me, ChoiceAt(env, 5));
    DeliverStep(w4, me, e, es, ChoiceAt(env, 5));
    DriveEnds(w5, me, env);
    ExecNothing(w5);
  }

  /** Where a faultless or faulty write of the program leads. */
  function Onward(fault: Fault, onward: Pc): Pc {
    if fault == NoFault then onward else Stopped
  }

  lemma MoveIdle(w: World, me: Token, ch: Choice)
    requires me in w.callers && w.callers[me].pc == Idle
    ensures var (k, w2) := (w.callers[me], MoveCaller(w, me, ch));
            && w2.log == Landed(w.log, AcquireLog(w.log, k.event, me, ch.stale, k.eventStatus), ch.fault)
            && w2.callers[me].pc ==
               var claim := AcquireClaim(w.log, k.event, me, ch.stale, k.eventStatus);
               Onward(ch.fault, if claim.Owned? then Claimed else Done(ResultForClaim(claim)))
  {
    hide AcquireLog, AcquireClaim, ResultForClaim;
  }

  lemma MoveClaimed(w: World, me: Token, ch: Choice)
    requires me in w.callers && w.callers[me].pc == Claimed
    ensures var (k, w2) := (w.callers[me], MoveCaller(w, me, ch));
            var next := if k.fingerprint then Validating else Rejected;
            var reason := if k.fingerprint then None else Some(MissingFingerprint);
            && w2.log == Landed(w.log, AdvanceLog(w.log, k.event, me, next, reason), ch.fault)
            && w2.callers[me].pc ==
               Onward(ch.fault,
                      if !CanAdvance(w.log, k.event, me, next) then Lost
                      else if k.fingerprint then Checking
                      else Done(Answer(false, ARejected, Some(MissingFingerprint))))
  {
    hide AdvanceLog, CanAdvance;
  }

  lemma MoveChecking(w: World, me: Token, ch: Choice)
    requires me in w.callers && w.callers[me].pc == Checking
    ensures var (k, w2) := (w.callers[me], MoveCaller(w, me, ch));
            var next := if ch.refusal.None? then Sending else Rejected;
            && w2.log == Landed(w.log, AdvanceLog(w.log, k.event, me, next, ch.refusal), ch.fault)
            && w2.callers[me].pc ==
               Onward(ch.fault,
                      if !CanAdvance(w.log, k.event, me, next) then Lost
                      else if ch.refusal.None? then Boundary
                      else Done(Answer(false, ARejected, ch.refusal)))
  {
    hide AdvanceLog, CanAdvance;
  }

  lemma MoveLost(w: World, me: Token, ch: Choice)
    requires me in w.callers && w.callers[me].pc == Lost
    ensures var (k, w2) := (w.callers[me], MoveCaller(w, me, ch));
            && w2.log == w.log
            && w2.callers[me].pc == Onward(ch.fault, Done(ResultForClaim(CurrentClaim(w.log, k.event, k.eventStatus))))
  {
    hide CurrentClaim, ResultForClaim;
  }

  lemma MoveRepairing(w: World, me: Token, ch: Choice)
    requires me in w.callers && w.callers[me].pc == Repairing
    ensures var (k, w2) := (w.callers[me], MoveCaller(w, me, ch));
            && w2.log == Landed(w.log, EnsureLog(w.log, k.event, me, ChangedAfterSend), ch.fault)
            && w2.callers[me].pc ==
               if ch.fault != NoFault then Raised(ch.faultText)
               else Done(if EnsureStatus(w.log, k.event) == Delivered then Answer(true, ADelivered, None)
                         else Answer(true, AUncertain, Some(ChangedAfterSend)))
  {
    hide EnsureLog, EnsureStatus;
  }

  lemma MoveRaised(w: World, me: Token, ch: Choice)
    requires me in w.callers && w.callers[me].pc.Raised?
    ensures var (k, w2) := (w.callers[me], MoveCaller(w, me, ch));
            var error := k.pc.error;
            && w2.log == Landed(w.log, AdvanceLog(w.log, k.event, me, Uncertain, Some(error)), ch.fault)
            && w2.callers[me].pc ==
               Onward(ch.fault,
                      if CanAdvance(w.log, k.event, me, Uncertain) then Done(Answer(true, AUncertain, Some(error)))
                      else RaisedRepair(error))
  {
    hide AdvanceLog, CanAdvance;
  }

  lemma MoveRaisedRepair(w: World, me: Token, ch: Choice)
    requires me in w.callers && w.callers[me].pc.RaisedRepair?
    ensures var (k, w2) := (w.callers[me], MoveCaller(w, me, ch));
            && w2.log == Landed(w.log, EnsureLog(w.log, k.event, me, k.pc.error), ch.fault)
            && w2.callers[me].pc == Onward(ch.fault, Done(Answer(true, AUncertain, Some(k.pc.error))))
  {
    hide EnsureLog;
  }

  /** The registration a call answers: the stored one under its logged status, or the fallback. */
  function BoundTo(events: seq<Registration>, log: Log, e: EventId, fallback: Option<Registration>): Option<Registration> {
    match LastRegistration(events, e)
    case Some(r) => Some(r.(status := LatestStatus(log, e, r.status)))
    case None => fallback
  }

  function HasFingerprint(r: Registration): bool {
    r.fingerprint.Some? && Strip(r.fingerprint.value) != ""
  }

  /** A registration with a fingerprint whose event is open to this caller's lease. */
  predicate Deliverable(log: Log, bound: Registration, e: EventId, env: Surroundings) {
    && HasFingerprint(bound) && CanMark(log, e)
    && (Latest(log, e).None? ==> bound.status == Pending)
    && (env.stale || Latest(log, e).None?)
  }

  lemma SpawnedDelivers(w: World, me: Token, e: EventId, es: Status, env: Surroundings, trace: seq<Action>)
    requires me !in w.callers && Foreign(env, me) && Undisturbed(env)
    requires Open(w.log, e, es) && (env.stale || Latest(w.log, e).None?)
    requires me in Apply(w, Spawn(me, e, es, true)).callers
    requires trace == [Spawn(me, e, es, true)] + Drive(Apply(w, Spawn(me, e, es, true)), me, env)
    ensures var w2 := Exec(w, trace);
            Holds(w2, me, e, es, Done(Answer(true, ADelivered, None)), Delivered) && w2.sends == w.sends + [(me, e)]
  {
    hide Exec, Drive, Apply, Open, Latest, Undisturbed, Foreign;
    var spawn := Spawn(me, e, es, true);
    SpawnStep(w, me, e, es);
    ExecAppend(w, [spawn], Drive(Apply(w, spawn), me, env));
    ExecNothing(w);
    ExecSnoc(w, [], spawn);
    assert [] + [spawn] == [spawn];
    DriveDelivers(Apply(w, spawn), me, e, es, env);
  }

  class Session {
    const store: Store.DeliveryStore
    var callers: map<Token, Caller>
    var sends: seq<(Token, EventId)>
    var fenced: set<EventId>

    constructor ()
      ensures fresh(store) && Now() == Init
    {
      store := new Store.DeliveryStore();
      callers, sends, fenced := map[], [], {};
    }

    function Now(): World
      reads this, store
    {
      World(store.deliveries, callers, sends, fenced)
    }

    /** Record the rest of an atomic step whose log write has been made. */
    method Commit(after: World)
      requires store.deliveries == after.log
      modifies this
      ensures Now() == after && unchanged(store)
    {
      callers, sends, fenced := after.callers, after.sends, after.fenced;
    }

    /** One atomic step of the protocol, made with the store's own operations. */
    method Step(a: Action)
      modifies this, store
      ensures store.events == old(store.events)
      ensures Now() == Apply(old(Now()), a)
    {
      var w := Now();
      match a {
        case Spawn(_, _, _, _) =>
        case Mark(e, name, reason) =>
          var marked := store.MarkEvent(e, External(name), reason);
        case Move(c, ch) =>
          if c in w.callers {
            StepCaller(c, ch);
            return;
          }
      }
      Commit(Apply(w, a));
    }

    method StepCaller(c: Token, ch: Choice)
      requires c in callers
      modifies this, store
      ensures store.events == old(store.events)
      ensures Now() == MoveCaller(old(Now()), c, ch)
    {
      var w := Now();
      var k := callers[c];
      match k.pc {
        case Idle => var o := store.AcquireDelivery(k.event, c, ch.stale, k.eventStatus, ch.fault);
        case Claimed =>
          if k.fingerprint {
            var o := store.AdvanceDelivery(k.event, c, Validating, None, ch.fault);
          } else {
            var o := store.AdvanceDelivery(k.event, c, Rejected, Some(MissingFingerprint), ch.fault);
          }
        case Checking =>
          if ch.refusal.None? {
            var o := store.AdvanceDelivery(k.event, c, Sending, None, ch.fault);
          } else {
            var o := store.AdvanceDelivery(k.event, c, Rejected, ch.refusal, ch.fault);
          }
        case Returned => var o := store.AdvanceDelivery(k.event, c, Delivered, None, ch.fault);
        case Repairing => var o := store.EnsureUncertainAfterSend(k.event, c, ChangedAfterSend, ch.fault);
        case Raised(error) => var o := store.AdvanceDelivery(k.event, c, Uncertain, Some(error), ch.fault);
        case RaisedRepair(error) => var o := store.EnsureUncertainAfterSend(k.event, c, error, ch.fault);
        case _ =>
      }
      Commit(MoveCaller(w, c, ch));
    }

    /** Everybody else runs. */
    method Others(me: Token, schedule: seq<Action>)
      requires forall a :: a in schedule ==> !About(a, me)
      modifies this, store
      ensures store.events == old(store.events)
      ensures Now() == Exec(old(Now()), schedule)
      ensures me in old(callers) ==> me in callers && callers[me] == old(callers)[me]
    {
      for i := 0 to |schedule|
        invariant Now() == Exec(old(Now()), schedule[..i]) && store.events == old(store.events)
        invariant me in old(callers) ==> me in callers && callers[me] == old(callers)[me]
      {
        hide Exec, Apply;
        ExecSnoc(old(Now()), schedule[..i], schedule[i]);
        assert schedule[..i + 1] == schedule[..i] + [schedule[i]];
        if me in callers {
          ForeignKeeps(Now(), schedule[i], me);
        }
        Step(schedule[i]);
      }
      assert schedule[..|schedule|] == schedule;
    }

    /** Others run, and then the caller's own step `n` begins. */
    method Interlude(me: Token, env: Surroundings, n: nat, ghost start: World, ghost soFar: seq<Action>)
      returns (ghost trace: seq<Action>)
      requires Foreign(env, me) && me in callers && Now() == Exec(start, soFar)
      modifies this, store
      ensures store.events == old(store.events)
      ensures Now() == Exec(start, trace) && me in callers && callers[me] == old(callers)[me]
      ensures Now() == Exec(old(Now()), env.others(n)) && trace == soFar + env.others(n)
    {
      hide Exec;
      Others(me, env.others(n));
      ExecAppend(start, soFar, env.others(n));
      trace := soFar + env.others(n);
    }

    /** The bookkeeping of the caller's own step `n`. */
    method Own(w: World, me: Token, env: Surroundings, n: nat, ghost start: World, ghost soFar: seq<Action>)
      returns (ghost trace: seq<Action>)
      requires me in w.callers && w == Exec(start, soFar)
      requires store.deliveries == MoveCaller(w, me, ChoiceAt(env, n)).log
      modifies this
      ensures Now() == MoveCaller(w, me, ChoiceAt(env, n)) && Now() == Exec(start, trace) && unchanged(store)
      ensures trace == soFar + [Move(me, ChoiceAt(env, n))]
    {
      hide Exec, MoveCaller;
      Commit(MoveCaller(w, me, ChoiceAt(env, n)));
      ExecSnoc(start, soFar, Move(me, ChoiceAt(env, n)));
      trace := soFar + [Move(me, ChoiceAt(env, n))];
    }

    /** Where a lost compare-and-set leads. */
    method ReadOutcome(me: Token, env: Surroundings, n: nat, ghost start: World, ghost soFar: seq<Action>)
      returns (result: Outcome<Answer>, ghost trace: seq<Action>)
      requires n == 9 && Foreign(env, me) && me in callers && callers[me].pc == Lost && Now() == Exec(start, soFar)
      modifies this, store
      ensures Now() == Exec(start, trace) && me in callers && Ended(result, callers[me].pc)
      ensures trace == soFar + Drive(old(Now()), me, env) && store.events == old(store.events)
    {
      hide MoveCaller, Advance, AcquireClaim, AcquireLog, AdvanceLog, CanAdvance, ResultForClaim, Exec, Drive;
      ghost var w0 := Now();
      trace := Interlude(me, env, n, start, soFar);
      var w := Now();
      MoveLost(w, me, ChoiceAt(env, n));
      var outcome := store.CurrentDelivery(callers[me].event, callers[me].eventStatus, env.fault(n));
      trace := Own(w, me, env, n, start, trace);
      DrivenOut(w0, w, me, env, n, soFar);
      match outcome {
        case Threw => result := Threw;
        case Got(claim) => result := Got(ResultForClaim(claim));
      }
    }

    /** After the boundary: send, then settle. */
    method SendAndSettle(me: Token, env: Surroundings, ghost start: World, ghost soFar: seq<Action>)
      returns (result: Outcome<Answer>, ghost trace: seq<Action>)
      requires Foreign(env, me) && me in callers && callers[me].pc == Boundary && Now() == Exec(start, soFar)
      modifies this, store
      ensures Now() == Exec(start, trace) && me in callers && Ended(result, callers[me].pc)
      ensures trace == soFar + Drive(old(Now()), me, env) && store.events == old(store.events)
    {
      hide Exec;
      ghost var w0 := Now();
      trace := Interlude(me, env, 4, start, soFar);
      var w := Now();
      trace := Own(w, me, env, 4, start, trace);
      Driven(w0, w, me, env, 4, soFar, Drive(Now(), me, env));
      if env.sendError.Some? {
        result, trace := Recover(me, env, start, trace);
      } else {
        result, trace := RecordDelivered(me, env, start, trace);
      }
    }

    method RecordDelivered(me: Token, env: Surroundings, ghost start: World, ghost soFar: seq<Action>)
      returns (result: Outcome<Answer>, ghost trace: seq<Action>)
      requires Foreign(env, me) && me in callers && callers[me].pc == Returned && Now() == Exec(start, soFar)
      modifies this, store
      ensures Now() == Exec(start, trace) && me in callers && Ended(result, callers[me].pc)
      ensures trace == soFar + Drive(old(Now()), me, env) && store.events == old(store.events)
    {
      hide Exec, CanAdvance, AdvanceLog, Drive;
      var e := callers[me].event;
      ghost var w0 := Now();
      trace := Interlude(me, env, 5, start, soFar);
      var w := Now();
      var delivered := store.AdvanceDelivery(e, me, Delivered, None, env.fault(5));
      trace := Own(w, me, env, 5, start, trace);
      if delivered == Got(true) {
        DrivenOut(w0, w, me, env, 5, soFar);
        return Got(Answer(true, ADelivered, None)), trace;
      }
      Driven(w0, w, me, env, 5, soFar, Drive(Now(), me, env));
      if delivered.Got? {
        result, trace := Repair(me, env, start, trace);
      } else {
        result, trace := Recover(me, env, start, trace);
      }
    }

    /** Ownership seems to have changed during the send. */
    method Repair(me: Token, env: Surroundings, ghost start: World, ghost soFar: seq<Action>)
      returns (result: Outcome<Answer>, ghost trace: seq<Action>)
      requires Foreign(env, me) && me in callers && callers[me].pc == Repairing && Now() == Exec(start, soFar)
      modifies this, store
      ensures Now() == Exec(start, trace) && me in callers && Ended(result, callers[me].pc)
      ensures trace == soFar + Drive(old(Now()), me, env) && store.events == old(store.events)
    {
      hide Exec, EnsureLog, EnsureStatus, Drive, MoveCaller;
      var e := callers[me].event;
      ghost var w0 := Now();
      trace := Interlude(me, env, 6, start, soFar);
      var w := Now();
      MoveRepairing(w, me, ChoiceAt(env, 6));
      var durable := store.EnsureUncertainAfterSend(e, me, ChangedAfterSend, env.fault(6));
      trace := Own(w, me, env, 6, start, trace);
      match durable {
        case Threw =>
          Driven(w0, w, me, env, 6, soFar, Drive(Now(), me, env));
          result, trace := Recover(me, env, start, trace);
        case Got(status) =>
          DrivenOut(w0, w, me, env, 6, soFar);
          result := Got(if status == Delivered then Answer(true, ADelivered, None)
                        else Answer(true, AUncertain, Some(ChangedAfterSend)));
      }
    }

    /** The exception handler after the boundary. */
    method Recover(me: Token, env: Surroundings, ghost start: World, ghost soFar: seq<Action>)
      returns (result: Outcome<Answer>, ghost trace: seq<Action>)
      requires Foreign(env, me) && me in callers && callers[me].pc.Raised? && Now() == Exec(start, soFar)
      modifies this, store
      ensures Now() == Exec(start, trace) && me in callers && Ended(result, callers[me].pc)
      ensures trace == soFar + Drive(old(Now()), me, env) && store.events == old(store.events)
    {
      hide Exec, CanAdvance, AdvanceLog, Drive, MoveCaller;
      var e, error := callers[me].event, callers[me].pc.error;
      ghost var w0 := Now();
      trace := Interlude(me, env, 7, start, soFar);
      var w := Now();
      MoveRaised(w, me, ChoiceAt(env, 7));
      var persisted := store.AdvanceDelivery(e, me, Uncertain, Some(error), env.fault(7));
      trace := Own(w, me, env, 7, start, trace);
      if persisted == Got(false) {
        Driven(w0, w, me, env, 7, soFar, Drive(Now(), me, env));
        result, trace := RecoverRepair(me, env, start, trace);
      } else {
        DrivenOut(w0, w, me, env, 7, soFar);
        result := if persisted.Threw? then Threw else Got(Answer(true, AUncertain, Some(error)));
      }
    }

    method RecoverRepair(me: Token, env: Surroundings, ghost start: World, ghost soFar: seq<Action>)
      returns (result: Outcome<Answer>, ghost trace: seq<Action>)
      requires Foreign(env, me) && me in callers && callers[me].pc.RaisedRepair? && Now() == Exec(start, soFar)
      modifies this, store
      ensures Now() == Exec(start, trace) && me in callers && Ended(result, callers[me].pc)
      ensures trace == soFar + Drive(old(Now()), me, env) && store.events == old(store.events)
    {
      hide Exec, EnsureLog, EnsureStatus, Drive, MoveCaller;
      var e, error := callers[me].event, callers[me].pc.error;
      ghost var w0 := Now();
      trace := Interlude(me, env, 8, start, soFar);
      var w := Now();
      MoveRaisedRepair(w, me, ChoiceAt(env, 8));
      var ensured := store.EnsureUncertainAfterSend(e, me, error, env.fault(8));
      trace := Own(w, me, env, 8, start, trace);
      DrivenOut(w0, w, me, env, 8, soFar);
      result := if ensured.Threw? then Threw else Got(Answer(true, AUncertain, Some(error)));
    }

    /**
     Deliver text or keys to the target bound to `e`. A well-formed request for a known
     event becomes a caller with its registration's status and fingerprint, and what it
     does is exactly its program; any other request does nothing.
     */
    method AnswerBoundEvent(me: Token, e: EventId, hasText: bool, hasKeys: bool, fallback: Option<Registration>,
        env: Surroundings)
      returns (result: Outcome<Answer>, ghost trace: seq<Action>)
      requires me !in callers && Foreign(env, me)
      modifies this, store
      ensures Now() == Exec(old(Now()), trace)
      ensures me in callers <==>
                hasText != hasKeys && BoundTo(old(store.events), old(store.deliveries), e, fallback).Some?
      ensures me in callers ==> Ended(result, callers[me].pc)
      ensures me in callers ==>
                var bound := BoundTo(old(store.events), old(store.deliveries), e, fallback).value;
                var spawn := Spawn(me, e, bound.status, HasFingerprint(bound));
                trace == [spawn] + Drive(Apply(old(Now()), spawn), me, env)
      ensures me !in callers ==> trace == []
      ensures me !in callers ==>
                result == Got(Answer(false, ARejected, Some(if hasText == hasKeys then BadRequest else UnknownEvent)))
      ensures store.events ==
                if hasText != hasKeys && LastRegistration(old(store.events), e).None? && fallback.Some?
                then old(store.events) + [fallback.value] else old(store.events)
    {
      hide Exec, Apply, Drive;
      ExecNothing(Now());
      trace := [];
      if hasText == hasKeys {
        return Got(Answer(false, ARejected, Some(BadRequest))), trace;
      }
      var bound := store.Get(e);
      if bound.None? && fallback.Some? {
        store.SaveEvent(fallback.value);
        bound := fallback;
      }
      if bound.None? {
        return Got(Answer(false, ARejected, Some(UnknownEvent))), trace;
      }
      var fingerprint := bound.value.fingerprint.Some? && Strip(bound.value.fingerprint.value) != "";
      var status := bound.value.status;

      // From here on the caller is part of the protocol.
      result, trace := Join(me, e, status, fingerprint, env);
    }

    /**
     The same call in a session that only ever ran the protocol: no event has been sent
     twice, a refusal sent nothing, `delivered` is on record, and a call left alone with
     an event that can still be marked delivers it with one send.
     */
    method AnswerOnce(me: Token, e: EventId, hasText: bool, hasKeys: bool, fallback: Option<Registration>,
        env: Surroundings, ghost prior: seq<Action>)
      returns (result: Outcome<Answer>, ghost trace: seq<Action>)
      requires me !in callers && Foreign(env, me) && Now() == Exec(Init, prior)
      modifies this, store
      ensures Now() == Exec(Init, prior + trace)
      ensures me in callers <==>
                hasText != hasKeys && BoundTo(old(store.events), old(store.deliveries), e, fallback).Some?
      ensures forall i, j :: 0 <= i < j < |sends| ==> sends[i].1 != sends[j].1
      ensures result.Got? && (result.value.status == ARejected || result.value.status == AInProgress) ==> !HasSent(Now(), me)
      ensures result.Got? && result.value.status == ADelivered ==>
                me in callers && HasSent(Now(), me) && LatestStatus(store.deliveries, callers[me].event, Pending) == Delivered
      ensures me in callers && Undisturbed(env)
              && Deliverable(old(store.deliveries), BoundTo(old(store.events), old(store.deliveries), e, fallback).value, e, env) ==>
                result == Got(Answer(true, ADelivered, None)) && sends == old(sends) + [(me, e)]
    {
      ghost var w0 := Now();
      ghost var bound := BoundTo(store.events, store.deliveries, e, fallback);
      result, trace := AnswerBoundEvent(me, e, hasText, hasKeys, fallback, env);
      hide Exec, HasSent, Drive, Apply, BoundTo, HasFingerprint, CanMark, Latest, LatestStatus, Undisturbed, Foreign;
      ExecAppend(Init, prior, trace);
      AtMostOneSend(prior + trace);
      if me !in callers {
        StrangersSendNothing(prior + trace, me);
      } else {
        if result.Got? {
          OutcomeAgreement(prior + trace, me, []);
          assert prior + trace + [] == prior + trace;
        }
        if Undisturbed(env) && Deliverable(w0.log, bound.value, e, env) {
          MarkableIsOpen(prior, e, bound.value.status);
          SpawnedDelivers(w0, me, e, bound.value.status, env, trace);
        }
      }
    }

    /** The call proper, once its registration is known. */
    method Join(me: Token, e: EventId, status: Status, fingerprint: bool, env: Surroundings)
      returns (result: Outcome<Answer>, ghost trace: seq<Action>)
      requires me !in callers && Foreign(env, me)
      modifies this, store
      ensures Now() == Exec(old(Now()), trace) && me in callers && Ended(result, callers[me].pc)
      ensures var spawn := Spawn(me, e, status, fingerprint);
              trace == [spawn] + Drive(Apply(old(Now()), spawn), me, env)
      ensures store.events == old(store.events)
    {
      hide Drive, MoveCaller, Exec;
      ghost var start := Now();
      Commit(Apply(Now(), Spawn(me, e, status, fingerprint)));
      ExecSnoc(start, [], Spawn(me, e, status, fingerprint));
      trace := [] + [Spawn(me, e, status, fingerprint)];
      assert Exec(start, []) == start by {
        ExecNothing(start);
      }
      result, trace := Claiming(me, env, start, trace);
    }

    /** The claim, and the way on if it is granted. */
    method Claiming(me: Token, env: Surroundings, ghost start: World, ghost soFar: seq<Action>)
      returns (result: Outcome<Answer>, ghost trace: seq<Action>)
      requires Foreign(env, me) && me in callers && callers[me].pc == Idle && Now() == Exec(start, soFar)
      modifies this, store
      ensures Now() == Exec(start, trace) && me in callers && Ended(result, callers[me].pc)
      ensures trace == soFar + Drive(old(Now()), me, env) && store.events == old(store.events)
    {
      hide MoveCaller, Advance, AcquireClaim, AcquireLog, AdvanceLog, CanAdvance, CurrentClaim, ResultForClaim, Exec, Drive;
      ghost var w0 := Now();
      trace := Interlude(me, env, 0, start, soFar);
      var w := Now();
      MoveIdle(w, me, ChoiceAt(env, 0));
      var claim := store.AcquireDelivery(callers[me].event, me, env.stale, callers[me].eventStatus, env.fault(0));
      trace := Own(w, me, env, 0, start, trace);
      if claim.Threw? {
        DrivenOut(w0, w, me, env, 0, soFar);
        return Threw, trace;
      }
      if claim.value.Refused? {
        DrivenOut(w0, w, me, env, 0, soFar);
        return Got(ResultForClaim(claim.value)), trace;
      }
      Driven(w0, w, me, env, 0, soFar, Drive(Now(), me, env));
      result, trace := Validate(me, env, start, trace);
    }

    /** The owner's way from its claim to the send boundary. */
    method Validate(me: Token, env: Surroundings, ghost start: World, ghost soFar: seq<Action>)
      returns (result: Outcome<Answer>, ghost trace: seq<Action>)
      requires Foreign(env, me) && me in callers && callers[me].pc == Claimed && Now() == Exec(start, soFar)
      modifies this, store
      ensures Now() == Exec(start, trace) && me in callers && Ended(result, callers[me].pc)
      ensures trace == soFar + Drive(old(Now()), me, env) && store.events == old(store.events)
    {
      hide MoveCaller, Advance, AcquireClaim, AcquireLog, AdvanceLog, CanAdvance, CurrentClaim, ResultForClaim, Exec, Drive;
      var e := callers[me].event;
      ghost var w0 := Now();
      trace := Interlude(me, env, 1, start, soFar);
      var w := Now();
      MoveClaimed(w, me, ChoiceAt(env, 1));
      if !callers[me].fingerprint {
        var rejected := store.AdvanceDelivery(e, me, Rejected, Some(MissingFingerprint), env.fault(1));
        trace := Own(w, me, env, 1, start, trace);
        if rejected == Got(false) {
          Driven(w0, w, me, env, 1, soFar, Drive(Now(), me, env));
          result, trace := ReadOutcome(me, env, 9, start, trace);
          return;
        }
        DrivenOut(w0, w, me, env, 1, soFar);
        return if rejected.Threw? then Threw else Got(Answer(false, ARejected, Some(MissingFingerprint))), trace;
      }
      var validating := store.AdvanceDelivery(e, me, Validating, None, env.fault(1));
      trace := Own(w, me, env, 1, start, trace);
      if validating.Threw? {
        DrivenOut(w0, w, me, env, 1, soFar);
        return Threw, trace;
      }
      Driven(w0, w, me, env, 1, soFar, Drive(Now(), me, env));
      if validating != Got(true) {
        result, trace := ReadOutcome(me, env, 9, start, trace);
        return;
      }
      result, trace := CheckAndCross(me, env, start, trace);
    }

    /** The live check, and the step over the boundary. */
    method CheckAndCross(me: Token, env: Surroundings, ghost start: World, ghost soFar: seq<Action>)
      returns (result: Outcome<Answer>, ghost trace: seq<Action>)
      requires Foreign(env, me) && me in callers && callers[me].pc == Checking && Now() == Exec(start, soFar)
      modifies this, store
      ensures Now() == Exec(start, trace) && me in callers && Ended(result, callers[me].pc)
      ensures trace == soFar + Drive(old(Now()), me, env) && store.events == old(store.events)
    {
      hide MoveCaller, Advance, AcquireClaim, AcquireLog, AdvanceLog, CanAdvance, CurrentClaim, ResultForClaim, Exec, Drive;
      var e := callers[me].event;
      ghost var w0 := Now();
      trace := Interlude(me, env, 2, start, soFar);
      var w := Now();
      MoveChecking(w, me, ChoiceAt(env, 2));
      if env.refusal.Some? {
        var rejected := store.AdvanceDelivery(e, me, Rejected, env.refusal, env.fault(2));
        trace := Own(w, me, env, 2, start, trace);
        if rejected == Got(false) {
          Driven(w0, w, me, env, 2, soFar, Drive(Now(), me, env));
          result, trace := ReadOutcome(me, env, 9, start, trace);
          return;
        }
        DrivenOut(w0, w, me, env, 2, soFar);
        return if rejected.Threw? then Threw else Got(Answer(false, ARejected, env.refusal)), trace;
      }
      var crossed := store.AdvanceDelivery(e, me, Sending, None, env.fault(2));
      trace := Own(w, me, env, 2, start, trace);
      if crossed.Threw? {
        DrivenOut(w0, w, me, env, 2, soFar);
        return Threw, trace;
      }
      Driven(w0, w, me, env, 2, soFar, Drive(Now(), me, env));
      if crossed != Got(true) {
        result, trace := ReadOutcome(me, env, 9, start, trace);
        return;
      }
      result, trace := SendAndSettle(me, env, start, trace);
    }
  }

  /** The caller's program counter agrees with what the call returned. */
  predicate Ended(result: Outcome<Answer>, pc: Pc) {
    match result
    case Got(answer) => pc == Done(answer)
    case Threw => pc == Stopped
  }
}
