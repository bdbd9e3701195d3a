/**
 Undoing a failed worker start. Every stage may fail on its own, and an exception
 between stages may cut the whole thing short so that it is run again.
 */
module WorkerRollback {
  import opened Wrappers
  import opened WorkerProcesses

  datatype Diagnostic =
    | StatusFailed(role: string) | SignalFailed(role: string, sig: int) | NoHandle(role: string)
    | ReapFailed(role: string) | Surviving | RecoveryFailed(role: string)
    | UsedDirect | RestoreFailed | UsedStructured | StructuredFailed | CloseFailed(role: string)

  datatype Outcome = Interrupted | Finished(failures: seq<Diagnostic>)

  /** Which writer, if any, put a complete or an incomplete payload in place. */
  datatype Publication = Atomic | Direct(complete: bool) | StructuredOnly | Nothing

  /** Only an asynchronous exception cuts a stage that writes nothing short, and every one does. */
  ghost predicate Staged(r: Outcome, sys: System, from: Calls, to: Calls) {
    NoWrites(from, to) && (r.Interrupted? <==> Struck(sys, from, to))
  }

  /** No exception landed, and nothing was written. */
  ghost predicate Passive(sys: System, from: Calls, to: Calls) {
    NoWrites(from, to) && !Struck(sys, from, to)
  }

  lemma PassiveNone(sys: System, from: Calls)
    ensures Passive(sys, from, from)
  {
    NoCalls(sys, from);
  }

  lemma PassiveOne(sys: System, from: Calls, b: Calls, c: Call)
    requires Passive(sys, from, b) && c != AskAtomic && c != AskDirect && c != AskInterrupt
    ensures Passive(sys, from, b + [c])
  {
    OneCall(sys, from, b, c);
  }

  lemma PassiveThen(sys: System, a: Calls, b: Calls, to: Calls)
    requires Passive(sys, a, b) && Passive(sys, b, to)
    ensures Passive(sys, a, to)
  {
    Joins(sys, a, b, to);
  }

  /** Between two stages: either the exception lands there, or nothing happened. */
  lemma StopHere(sys: System, from: Calls, b: Calls)
    requires Passive(sys, from, b)
    ensures sys.interrupts(b) ==> Staged(Interrupted, sys, from, b + [AskInterrupt])
    ensures !sys.interrupts(b) ==> Passive(sys, from, b + [AskInterrupt])
  {
    OneCall(sys, from, b, AskInterrupt);
  }

  lemma StagedThen(r: Outcome, sys: System, a: Calls, b: Calls, to: Calls)
    requires Passive(sys, a, b) && Staged(r, sys, b, to)
    ensures Staged(r, sys, a, to)
  {
    Joins(sys, a, b, to);
  }

  lemma PassiveIs(r: Outcome, sys: System, a: Calls, b: Calls)
    ensures Passive(sys, a, b) && r.Finished? ==> Staged(r, sys, a, b)
    ensures Staged(r, sys, a, b) && r.Finished? ==> Passive(sys, a, b)
    ensures Passive(sys, a, b) || Staged(r, sys, a, b) ==> a <= b
  {
  }

  const SIGTERM := 15
  const SIGKILL := 9

  // ---------------------------------------------------------------- descriptors

  function Count(fds: seq<int>, fd: int): nat {
    multiset(fds)[fd]
  }

  /** Each descriptor is still held or has been closed exactly once, never both and never neither. */
  ghost predicate Conserved(owned: seq<OwnedWorker>, sys: System)
    reads sys`closed, owned
  {
    forall i :: 0 <= i < |owned| && owned[i].issued.Some? ==>
      Count(sys.closed, owned[i].issued.value) == if owned[i].pidfd.Some? then 0 else 1
  }

  /** Different children, different descriptors. */
  ghost predicate Separate(owned: seq<OwnedWorker>) {
    && (forall i, j :: 0 <= i < j < |owned| ==> owned[i] != owned[j] && owned[i].pid != owned[j].pid)
    && (forall i, j :: 0 <= i < j < |owned| && owned[i].issued.Some? ==> owned[i].issued != owned[j].issued)
  }

  ghost predicate AllConsistent(owned: seq<OwnedWorker>)
    reads owned
  {
    forall i :: 0 <= i < |owned| ==> owned[i].Consistent()
  }

  ghost predicate Valid(owned: seq<OwnedWorker>, sys: System)
    reads owned, sys`closed
  {
    Separate(owned) && AllConsistent(owned) && Conserved(owned, sys)
  }

  lemma CountSnoc(fds: seq<int>, x: int, fd: int)
    ensures Count(fds + [x], fd) == Count(fds, fd) + if x == fd then 1 else 0
  {
  }

  /** Consume one descriptor; it counts as closed even when close raises. */
  method CloseOne(owned: seq<OwnedWorker>, i: nat, o: OwnedWorker, sys: System) returns (raised: bool)
    requires i < |owned| && o == owned[i] && Valid(owned, sys) && o.pidfd.Some?
    modifies o`pidfd, sys`calls, sys`closed
    ensures Valid(owned, sys) && o.pidfd == None
    ensures raised == sys.faults(old(sys.calls)) && sys.calls == old(sys.calls) + [AskClose]
  {
    hide Count;
    var fd := o.pidfd.value;
    ghost var before := sys.closed;
    raised := sys.Close(fd);
    o.pidfd := None;
    forall k | 0 <= k < |owned| && owned[k].issued.Some?
      ensures Count(sys.closed, owned[k].issued.value) == if owned[k].pidfd.Some? then 0 else 1
    {
      CountSnoc(before, fd, owned[k].issued.value);
      if k < i {
        assert owned[k] != owned[i] && owned[k].issued != owned[i].issued;
      } else if i < k {
        assert owned[i] != owned[k] && owned[i].issued != owned[k].issued;
      }
    }
  }

  /** `_close_owned_pidfds`: consume every descriptor once, going on after failures. */
  method CloseOwned(owned: seq<OwnedWorker>, sys: System) returns (r: Outcome)
    requires Valid(owned, sys)
    modifies owned, sys`calls, sys`closed
    ensures Valid(owned, sys) && forall o :: o in owned ==> o.record == old(o.record)
    ensures r.Finished? ==> Released(owned)
    ensures Staged(r, sys, old(sys.calls), sys.calls)
    ensures r.Interrupted? || r.failures != [] <==> Troubled(sys, old(sys.calls), sys.calls)
    ensures if owned == [] then sys.calls == old(sys.calls) else old(sys.calls) + [AskInterrupt] <= sys.calls
  {
    hide Valid, Passive, Staged, Troubled, Struck, NoWrites, Bad;
    var failures: seq<Diagnostic> := [];
    ghost var from := sys.calls;
    PassiveNone(sys, from);
    NoCalls(sys, from);
    var i := 0;
    while i < |owned|
      invariant 0 <= i <= |owned|
      invariant Valid(owned, sys)
      invariant forall o :: o in owned ==> o.record == old(o.record)
      invariant forall k :: 0 <= k < i ==> owned[k].pidfd == None
      invariant Passive(sys, from, sys.calls) && from <= sys.calls
      invariant failures != [] <==> Troubled(sys, from, sys.calls)
      invariant if i == 0 then sys.calls == from else from + [AskInterrupt] <= sys.calls
    {
      ghost var b := sys.calls;
      OneCall(sys, from, b, AskInterrupt);
      StopHere(sys, from, b);
      BadStop(sys, b);
      var stop := sys.Interruption();
      if stop {
        return Interrupted;
      }
      if owned[i].pidfd.Some? {
        OneCall(sys, from, b + [AskInterrupt], AskClose);
        PassiveOne(sys, from, b + [AskInterrupt], AskClose);
        var raised := CloseOne(owned, i, owned[i], sys);
        if raised {
          failures := failures + [CloseFailed(owned[i].role)];
        }
      }
      i := i + 1;
    }
    r := Finished(failures);
    PassiveIs(r, sys, from, sys.calls);
  }

  lemma BadStop(sys: System, b: Calls)
    ensures Bad(sys, b, AskInterrupt) <==> sys.interrupts(b)
    ensures Bad(sys, b + [AskInterrupt], AskClose) <==> sys.faults(b + [AskInterrupt])
  {
  }

  // ---------------------------------------------------------------- signalling and reaping

  predicate OwnPid(owned: seq<OwnedWorker>, pid: int) {
    exists o :: o in owned && o.pid == pid
  }

  /** Every signal sent since the first `from` went to an owned child. */
  ghost predicate SignalsOwned(owned: seq<OwnedWorker>, sys: System, from: nat)
    reads sys`signalled
  {
    && from <= |sys.signalled|
    && forall k :: from <= k < |sys.signalled| ==> OwnPid(owned, sys.signalled[k].0)
  }

  /** The signal was tried on the child since the first `from`, unless nothing allowed it to be. */
  ghost predicate Tried(o: OwnedWorker, sig: int, sys: System, from: nat)
    reads sys`signalled, sys`mismatched, sys`bare
  {
    from <= |sys.signalled| && ((o.pid, sig) in sys.signalled[from..] || o.pid in sys.mismatched || o.pid in sys.bare)
  }

  predicate Unequal(part: seq<(int, int)>) {
    forall i, j :: 0 <= i < j < |part| ==> part[i] != part[j]
  }

  ghost predicate PidFrom(owned: seq<OwnedWorker>, i: nat, pid: int) {
    exists j :: i <= j < |owned| && owned[j].pid == pid
  }

  /** A stage sent this one signal, at most once to each child, to none before the first `i`. */
  ghost predicate Sent(owned: seq<OwnedWorker>, i: nat, part: seq<(int, int)>, sig: int) {
    && Unequal(part)
    && forall k :: 0 <= k < |part| ==> part[k].1 == sig && PidFrom(owned, i, part[k].0)
  }

  lemma SentStep(owned: seq<OwnedWorker>, i: nat, n: nat, part: seq<(int, int)>, sig: int)
    requires Separate(owned) && n == i + 1 && i < |owned| && Sent(owned, n, part, sig)
    ensures Sent(owned, i, part, sig) && Sent(owned, i, part + [(owned[i].pid, sig)], sig)
  {
    forall k | 0 <= k < |part| ensures part[k].0 != owned[i].pid && PidFrom(owned, i, part[k].0) {
      assert PidFrom(owned, n, part[k].0);
      var j :| n <= j < |owned| && owned[j].pid == part[k].0;
      assert owned[i].pid != owned[j].pid;
    }
    assert PidFrom(owned, i, owned[i].pid);
  }

  lemma SentAll(owned: seq<OwnedWorker>, i: nat, part: seq<(int, int)>, sig: int)
    requires Sent(owned, i, part, sig)
    ensures Sent(owned, 0, part, sig)
  {
    forall k | 0 <= k < |part| ensures PidFrom(owned, 0, part[k].0) {
      assert PidFrom(owned, i, part[k].0);
      var j :| i <= j < |owned| && owned[j].pid == part[k].0;
    }
  }

  /** Termination comes first: no other signal, none twice, and no kill before a termination. */
  predicate TermBeforeKill(part: seq<(int, int)>) {
    && Unequal(part)
    && (forall k :: 0 <= k < |part| ==> part[k].1 == SIGTERM || part[k].1 == SIGKILL)
    && (forall i, j :: 0 <= i < j < |part| && part[i].1 == SIGKILL ==> part[j].1 != SIGTERM)
  }

  lemma TwoStages(owned: seq<OwnedWorker>, first: seq<(int, int)>, second: seq<(int, int)>)
    requires Sent(owned, 0, first, SIGTERM) && Sent(owned, 0, second, SIGKILL)
    ensures TermBeforeKill(first + second)
  {
  }

  predicate Kills(part: seq<(int, int)>) {
    exists k :: 0 <= k < |part| && part[k].1 == SIGKILL
  }

  lemma NoKill(owned: seq<OwnedWorker>, part: seq<(int, int)>)
    requires Sent(owned, 0, part, SIGTERM)
    ensures !Kills(part)
  {
  }

  lemma MoreSignals(before: seq<(int, int)>, after: seq<(int, int)>, from: nat, part: seq<(int, int)>)
    requires from <= |before| && after == before + part
    ensures after[from..] == before[from..] + part
    ensures forall x :: x in before[from..] || x in part ==> x in after[from..]
  {
  }

  /** Exactly when a signal is tried: on a pinned child whose record, if any, still matches, and on a known one without a pin. */
  ghost predicate Signals(o: OwnedWorker, sys: System, c: Calls)
    reads o
  {
    if o.pidfd.Some? then o.record.None? || sys.lifetimes(c) else o.record.Some?
  }

  method SignalOwned(owned: seq<OwnedWorker>, o: OwnedWorker, sig: int, sys: System, ghost from: nat)
    returns (failures: seq<Diagnostic>)
    requires o in owned && o.Consistent() && SignalsOwned(owned, sys, from)
    modifies sys`calls, sys`signalled, sys`mismatched, sys`bare
    ensures SignalsOwned(owned, sys, from) && Tried(o, sig, sys, from) && Passive(sys, old(sys.calls), sys.calls)
    ensures sys.signalled == if Signals(o, sys, old(sys.calls)) then old(sys.signalled) + [(o.pid, sig)] else old(sys.signalled)
    ensures old(sys.mismatched) <= sys.mismatched
    ensures sys.bare == if o.pidfd.None? && o.record.None? then old(sys.bare) + {o.pid} else old(sys.bare)
    ensures o.pidfd.None? && o.record.None? ==> sys.signalled == old(sys.signalled) && failures == [NoHandle(o.role)]
  {
    hide Passive;
    failures := [];
    MoreSignals(sys.signalled, sys.signalled + [(o.pid, sig)], from, [(o.pid, sig)]);
    ghost var from0 := sys.calls;
    PassiveNone(sys, from0);
    PassiveOne(sys, from0, from0, AskLifetime);
    PassiveOne(sys, from0, from0, AskSignal);
    PassiveOne(sys, from0, from0 + [AskLifetime], AskSignal);
    if o.pidfd.Some? {
      if o.record.Some? {
        var same := sys.MatchesLifetime(o.record.value);
        if !same {
          return;
        }
      }
      assert OwnPid(owned, o.pid);
      var r := sys.Signal(o.pid, sig);
      if r.SignalRaised? {
        failures := [SignalFailed(o.role, sig)];
      }
    } else if o.record.Some? {
      assert OwnPid(owned, o.pid);
      var r := sys.Signal(o.pid, sig);
      if r.SignalRaised? {
        failures := [SignalFailed(o.role, sig)];
      }
    } else {
      failures := [NoHandle(o.role)];
      sys.Refuse(o.pid);
    }
  }

  /** Seen to have exited, or tried with the signal. */
  ghost predicate Dealt(o: OwnedWorker, sig: int, sys: System, from: nat)
    reads sys`signalled, sys`mismatched, sys`bare, sys`gone
  {
    o.pid in sys.gone || Tried(o, sig, sys, from)
  }

  ghost predicate AllDealt(owned: seq<OwnedWorker>, sig: int, sys: System, from: nat)
    reads sys`signalled, sys`mismatched, sys`bare, sys`gone
  {
    forall o :: o in owned ==> Dealt(o, sig, sys, from)
  }

  /** What the calls made since the first `from` signals did, however far they came. */
  ghost predicate Graceful(owned: seq<OwnedWorker>, sys: System, from: nat)
    reads sys`signalled, sys`mismatched, sys`bare, sys`gone
  {
    && from <= |sys.signalled|
    && TermBeforeKill(sys.signalled[from..])
    && (Kills(sys.signalled[from..]) ==> AllDealt(owned, SIGTERM, sys, from))
  }

  /** Every child was seen gone or tried with both signals, unless nothing allowed it. */
  ghost predicate Stopped(owned: seq<OwnedWorker>, sys: System, from: nat)
    reads sys`signalled, sys`mismatched, sys`bare, sys`gone
  {
    Graceful(owned, sys, from) && AllDealt(owned, SIGTERM, sys, from) && AllDealt(owned, SIGKILL, sys, from)
  }

  /** The last signals sent did that. */
  ghost predicate StoppedLast(owned: seq<OwnedWorker>, sys: System)
    reads sys`signalled, sys`mismatched, sys`bare, sys`gone
  {
    exists from: nat :: Stopped(owned, sys, from)
  }

  /** A child that the stage's own poll saw exit is not signalled. */
  ghost predicate SparesExited(owned: seq<OwnedWorker>, i: nat, part: seq<(int, int)>, polls: Polls, sig: int) {
    forall k :: i <= k < |owned| ==> owned[k] in polls && (polls[owned[k]] == Exited ==> (owned[k].pid, sig) !in part)
  }

  lemma SparesStep(
      owned: seq<OwnedWorker>, i: nat, n: nat, part: seq<(int, int)>, polls: Polls, sig: int, status: PollResult)
    requires Separate(owned) && n == i + 1 && i < |owned| && Sent(owned, n, part, sig) && SparesExited(owned, n, part, polls, sig)
    ensures SparesExited(owned, i, part, polls[owned[i] := status], sig)
    ensures status != Exited ==> SparesExited(owned, i, part + [(owned[i].pid, sig)], polls[owned[i] := status], sig)
  {
    forall k | 0 <= k < |part| ensures part[k].0 != owned[i].pid {
      assert PidFrom(owned, n, part[k].0);
      var j :| n <= j < |owned| && owned[j].pid == part[k].0;
    }
  }

  method Terminate(owned: seq<OwnedWorker>, sys: System, ghost from: nat)
    returns (r: Outcome, ghost part: seq<(int, int)>)
    requires Separate(owned) && AllConsistent(owned) && from == |sys.signalled|
    modifies sys`calls, sys`signalled, sys`mismatched, sys`bare, sys`gone, sys`lastPoll
    ensures SignalsOwned(owned, sys, from)
    ensures sys.signalled == old(sys.signalled) + part && Sent(owned, 0, part, SIGTERM)
    ensures r.Finished? ==> AllDealt(owned, SIGTERM, sys, from) && SparesExited(owned, 0, part, sys.lastPoll, SIGTERM)
    ensures Staged(r, sys, old(sys.calls), sys.calls)
  {
    hide Passive, Staged, Sent, Separate, SparesExited;
    var failures: seq<Diagnostic> := [];
    ghost var start := sys.calls;
    PassiveNone(sys, start);
    part := [];
    var i := |owned|;
    NothingSent(owned, i, SIGTERM);
    SparesNobody(owned, i, sys.lastPoll, SIGTERM);
    while i > 0
      invariant 0 <= i <= |owned|
      invariant SignalsOwned(owned, sys, from)
      invariant sys.signalled == old(sys.signalled) + part && Sent(owned, i, part, SIGTERM)
      invariant SparesExited(owned, i, part, sys.lastPoll, SIGTERM)
      invariant forall k :: i <= k < |owned| ==> Dealt(owned[k], SIGTERM, sys, from)
      invariant Passive(sys, start, sys.calls)
    {
      SentAll(owned, i, part, SIGTERM);
      SentStep(owned, i - 1, i, part, SIGTERM);
      i := i - 1;
      ghost var b := sys.calls;
      StopHere(sys, start, b);
      var stop := sys.Interruption();
      if stop {
        return Interrupted, part;
      }
      PassiveOne(sys, start, sys.calls, AskPoll);
      SparesStep(owned, i, i + 1, part, sys.lastPoll, SIGTERM, sys.polls(sys.calls));
      var status := sys.Poll(owned[i]);
      if status.PollRaised? {
        failures := failures + [StatusFailed(owned[i].role)];
      }
      if !status.Exited? {
        ghost var polled, before := sys.calls, sys.signalled;
        var more := SignalOwned(owned, owned[i], SIGTERM, sys, from);
        if sys.signalled != before {
          MoreSignals(before, sys.signalled, from, [(owned[i].pid, SIGTERM)]);
          part := part + [(owned[i].pid, SIGTERM)];
        }
        PassiveThen(sys, start, polled, sys.calls);
        failures := failures + more;
      }
    }
    r := Finished(failures);
    PassiveIs(r, sys, start, sys.calls);
  }

  lemma SparesNobody(owned: seq<OwnedWorker>, i: nat, polls: Polls, sig: int)
    requires i == |owned|
    ensures SparesExited(owned, i, [], polls, sig)
  {
  }

  lemma NothingSent(owned: seq<OwnedWorker>, i: nat, sig: int)
    ensures Sent(owned, i, [], sig)
  {
  }

  /** The wait, or a poll after a failing wait, shows that the child has exited. */
  ghost predicate SeenOff(sys: System, c: Calls) {
    sys.waits(c).Reaped? || (sys.waits(c).WaitRaised? && sys.polls(c + [AskWait]).Exited?)
  }

  /** Wait for one child; kill it when the wait times out or fails, and then wait for it again. */
  method ReapOne(owned: seq<OwnedWorker>, o: OwnedWorker, sys: System, ghost from: nat)
    returns (failures: seq<Diagnostic>)
    requires o in owned && o.Consistent() && SignalsOwned(owned, sys, from)
    modifies sys`calls, sys`signalled, sys`mismatched, sys`bare, sys`gone, sys`lastPoll
    ensures SignalsOwned(owned, sys, from) && Dealt(o, SIGKILL, sys, from) && Passive(sys, old(sys.calls), sys.calls)
    ensures sys.signalled == old(sys.signalled) || sys.signalled == old(sys.signalled) + [(o.pid, SIGKILL)]
    ensures if SeenOff(sys, old(sys.calls)) then sys.signalled == old(sys.signalled) && o.pid in sys.gone
            else |sys.calls| > 0 && sys.calls[|sys.calls| - 1] == AskWait && Tried(o, SIGKILL, sys, from)
    ensures old(sys.mismatched) <= sys.mismatched && old(sys.bare) <= sys.bare && old(sys.gone) <= sys.gone
  {
    hide Passive;
    failures := [];
    ghost var start := sys.calls;
    PassiveNone(sys, start);
    PassiveOne(sys, start, start, AskWait);
    PassiveOne(sys, start, start + [AskWait], AskPoll);
    var first := sys.Wait(o);
    if first.Reaped? {
      return;
    }
    if first.WaitRaised? {
      failures := [ReapFailed(o.role)];
      var status := sys.Poll(o);
      if status.PollRaised? {
        failures := failures + [StatusFailed(o.role)];
      }
      if status.Exited? {
        return;
      }
    }
    ghost var b := sys.calls;
    var more := SignalOwned(owned, o, SIGKILL, sys, from);
    failures := failures + more;
    PassiveThen(sys, start, b, sys.calls);
    PassiveOne(sys, start, sys.calls, AskWait);
    var second := sys.Wait(o);
    if !second.Reaped? {
      failures := failures + [ReapFailed(o.role)];
    }
  }

  method Reap(owned: seq<OwnedWorker>, sys: System, ghost from: nat) returns (r: Outcome, ghost part: seq<(int, int)>)
    requires Separate(owned) && AllConsistent(owned) && SignalsOwned(owned, sys, from)
    modifies sys`calls, sys`signalled, sys`mismatched, sys`bare, sys`gone, sys`lastPoll
    ensures SignalsOwned(owned, sys, from)
    ensures sys.signalled == old(sys.signalled) + part && Sent(owned, 0, part, SIGKILL)
    ensures old(sys.mismatched) <= sys.mismatched && old(sys.bare) <= sys.bare && old(sys.gone) <= sys.gone
    ensures old(AllDealt(owned, SIGTERM, sys, from)) ==> AllDealt(owned, SIGTERM, sys, from)
    ensures r.Finished? ==> AllDealt(owned, SIGKILL, sys, from)
    ensures Staged(r, sys, old(sys.calls), sys.calls)
  {
    hide Passive, Staged, Sent, Separate;
    var failures: seq<Diagnostic> := [];
    ghost var start := sys.calls;
    PassiveNone(sys, start);
    part := [];
    var i := |owned|;
    NothingSent(owned, i, SIGKILL);
    while i > 0
      invariant 0 <= i <= |owned|
      invariant SignalsOwned(owned, sys, from)
      invariant sys.signalled == old(sys.signalled) + part && Sent(owned, i, part, SIGKILL)
      invariant old(sys.mismatched) <= sys.mismatched && old(sys.bare) <= sys.bare && old(sys.gone) <= sys.gone
      invariant old(AllDealt(owned, SIGTERM, sys, from)) ==> AllDealt(owned, SIGTERM, sys, from)
      invariant forall k :: i <= k < |owned| ==> Dealt(owned[k], SIGKILL, sys, from)
      invariant Passive(sys, start, sys.calls)
    {
      SentAll(owned, i, part, SIGKILL);
      SentStep(owned, i - 1, i, part, SIGKILL);
      i := i - 1;
      StopHere(sys, start, sys.calls);
      var stop := sys.Interruption();
      if stop {
        return Interrupted, part;
      }
      ghost var b, before := sys.calls, sys.signalled;
      var more := ReapOne(owned, owned[i], sys, from);
      if sys.signalled != before {
        part := part + [(owned[i].pid, SIGKILL)];
        MoreSignals(before, sys.signalled, from, [(owned[i].pid, SIGKILL)]);
      }
      PassiveThen(sys, start, b, sys.calls);
      failures := failures + more;
    }
    r := Finished(failures);
    PassiveIs(r, sys, start, sys.calls);
  }

  // ---------------------------------------------------------------- survivors

  type Polls = map<OwnedWorker, PollResult>

  /** The children whose latest poll did not say they exited. */
  ghost predicate AreSurvivors(owned: seq<OwnedWorker>, survivors: seq<OwnedWorker>, polls: Polls) {
    && (forall o :: o in owned ==> o in polls)
    && (forall o :: o in survivors ==> o in owned && polls[o] != Exited)
    && (forall o :: o in owned && polls[o] != Exited ==> o in survivors)
  }

  /** Every child's latest poll is an answer the system gave between calls `from` and `to`. */
  ghost predicate Answered(owned: seq<OwnedWorker>, sys: System, polls: Polls, from: Calls, to: Calls) {
    forall o :: o in owned ==>
      o in polls && exists n: Calls :: from <= n && n + [AskPoll] <= to && polls[o] == sys.polls(n)
  }

  lemma AnsweredWithin(owned: seq<OwnedWorker>, sys: System, polls: Polls, from: Calls, a: Calls, b: Calls, to: Calls)
    requires from <= a && b <= to && Answered(owned, sys, polls, a, b)
    ensures Answered(owned, sys, polls, from, to)
  {
    forall o | o in owned
      ensures exists n: Calls :: from <= n && n + [AskPoll] <= to && polls[o] == sys.polls(n)
    {
      var n: Calls :| a <= n && n + [AskPoll] <= b && polls[o] == sys.polls(n);
    }
  }

  lemma AnsweredOnce(
      done: seq<OwnedWorker>, o: OwnedWorker, sys: System, polls: Polls, from: Calls, b: Calls)
    requires Answered(done, sys, polls, from, b) && o !in done && from <= b
    ensures Answered(done + [o], sys, polls[o := sys.polls(b)], from, b + [AskPoll])
  {
    AnsweredWithin(done, sys, polls, from, from, b, b + [AskPoll]);
    var all, after := done + [o], polls[o := sys.polls(b)];
    forall w | w in all
      ensures w in after && exists n: Calls :: from <= n && n + [AskPoll] <= b + [AskPoll] && after[w] == sys.polls(n)
    {
      if w != o {
        assert w in done;
      }
    }
  }

  ghost predicate Unrepeated(s: seq<OwnedWorker>) {
    forall i, j :: 0 <= i < j < |s| ==> s[i] != s[j]
  }

  /** The survivors so far. */
  lemma OneMorePolled(
      done: seq<OwnedWorker>, survivors: seq<OwnedWorker>, o: OwnedWorker, polls: Polls, status: PollResult)
    requires AreSurvivors(done, survivors, polls) && Unrepeated(survivors) && o !in done
    ensures status.Exited? ==> AreSurvivors(done + [o], survivors, polls[o := status])
    ensures !status.Exited? ==>
              AreSurvivors(done + [o], survivors + [o], polls[o := status]) && Unrepeated(survivors + [o])
  {
  }

  method FindSurvivors(owned: seq<OwnedWorker>, sys: System)
    returns (r: Outcome, survivors: seq<OwnedWorker>)
    requires Separate(owned)
    modifies sys`calls, sys`lastPoll, sys`gone
    ensures old(sys.gone) <= sys.gone
    ensures r.Finished? ==> AreSurvivors(owned, survivors, sys.lastPoll) && Unrepeated(survivors)
    ensures r.Finished? ==> Answered(owned, sys, sys.lastPoll, old(sys.calls), sys.calls)
    ensures r.Finished? && r.failures == [] ==> survivors == []
    ensures Staged(r, sys, old(sys.calls), sys.calls)
  {
    hide Passive, Staged, AreSurvivors, Answered, Unrepeated;
    var failures: seq<Diagnostic> := [];
    survivors := [];
    ghost var from := sys.calls;
    PassiveNone(sys, from);
    NobodyYet(sys, from);
    var i := 0;
    while i < |owned|
      invariant 0 <= i <= |owned|
      invariant AreSurvivors(owned[..i], survivors, sys.lastPoll) && Unrepeated(survivors)
      invariant old(sys.gone) <= sys.gone && from <= sys.calls && Passive(sys, from, sys.calls)
      invariant Answered(owned[..i], sys, sys.lastPoll, from, sys.calls)
    {
      ghost var b := sys.calls;
      StopHere(sys, from, b);
      var stop := sys.Interruption();
      if stop {
        return Interrupted, survivors;
      }
      assert owned[i] !in owned[..i] && owned[..i + 1] == owned[..i] + [owned[i]];
      AnsweredWithin(owned[..i], sys, sys.lastPoll, from, from, b, sys.calls);
      AnsweredOnce(owned[..i], owned[i], sys, sys.lastPoll, from, sys.calls);
      PassiveOne(sys, from, sys.calls, AskPoll);
      ghost var polls := sys.lastPoll;
      var status := sys.Poll(owned[i]);
      OneMorePolled(owned[..i], survivors, owned[i], polls, status);
      if status.PollRaised? {
        failures := failures + [StatusFailed(owned[i].role)];
      }
      if !status.Exited? {
        survivors := survivors + [owned[i]];
      }
      i := i + 1;
    }
    TakeAll(owned);
    r := Finished(if survivors == [] then failures else failures + [Surviving]);
    PassiveIs(r, sys, from, sys.calls);
  }

  lemma NobodyYet(sys: System, from: Calls)
    ensures forall polls :: AreSurvivors([], [], polls) && Answered([], sys, polls, from, from)
    ensures Unrepeated([])
  {
  }

  /** What the recovery that asks after calls `c` makes of a child: what procfs discloses, or its spawn token. */
  ghost function RecoveredAt(o: OwnedWorker, sys: System, c: Calls): Record {
    var ticks := sys.captures(c + [AskGuard]);
    Record(o.pid, if sys.faults(c) || ticks == None then ClaimedBy(o.token) else Ticks(ticks.value), o.role, o.token, true)
  }

  /** The record is what was recovered of the child between calls `from` and `to`. */
  ghost predicate Recovered(o: OwnedWorker, record: Option<Record>, sys: System, from: Calls, to: Calls) {
    exists c: Calls :: from <= c && c + [AskGuard, AskCapture] <= to && record == Some(RecoveredAt(o, sys, c))
  }

  lemma RecoveredSince(o: OwnedWorker, record: Option<Record>, sys: System, a: Calls, from: Calls, b: Calls, to: Calls)
    requires a <= from && b <= to && Recovered(o, record, sys, from, b)
    ensures Recovered(o, record, sys, a, to)
  {
    var c: Calls :| from <= c && c + [AskGuard, AskCapture] <= b && record == Some(RecoveredAt(o, sys, c));
  }

  /** Every survivor leaves with a record: recovered, or the authority of its spawn token. */
  method RecoverRecords(owned: seq<OwnedWorker>, survivors: seq<OwnedWorker>, sys: System) returns (r: Outcome)
    requires Valid(owned, sys) && forall o :: o in survivors ==> o in owned
    modifies owned, sys`calls
    ensures Valid(owned, sys)
    ensures forall o :: o in owned ==> o.pidfd == old(o.pidfd)
    ensures forall o :: o in owned && old(o.record).Some? ==> o.record == old(o.record)
    ensures r.Finished? ==> forall o :: o in survivors ==> o.record.Some?
    ensures forall o :: o in owned && old(o.record).None? ==> o.record.None? || Recovered(o, o.record, sys, old(sys.calls), sys.calls)
    ensures Staged(r, sys, old(sys.calls), sys.calls)
  {
    hide Valid, Passive, Staged, Recovered;
    var failures: seq<Diagnostic> := [];
    ghost var from := sys.calls;
    PassiveNone(sys, from);
    var i := 0;
    while i < |survivors|
      invariant 0 <= i <= |survivors|
      invariant Valid(owned, sys) && Passive(sys, from, sys.calls)
      invariant forall o :: o in owned ==> o.pidfd == old(o.pidfd)
      invariant forall o :: o in owned && old(o.record).Some? ==> o.record == old(o.record)
      invariant forall k :: 0 <= k < i ==> survivors[k].record.Some?
      invariant forall o :: o in owned && old(o.record).None? ==> o.record.None? || Recovered(o, o.record, sys, from, sys.calls)
    {
      StopHere(sys, from, sys.calls);
      ghost var round := sys.calls;
      var stop := sys.Interruption();
      forall o | o in owned && old(o.record).None? && o.record.Some?
        ensures Recovered(o, o.record, sys, from, sys.calls)
      {
        RecoveredSince(o, o.record, sys, from, from, round, sys.calls);
      }
      if stop {
        return Interrupted;
      }
      assert survivors[i] in owned;
      ghost var b := sys.calls;
      label Before:
      var more := RecoverOne(owned, survivors[i], sys);
      PassiveThen(sys, from, b, sys.calls);
      PassiveBegins(sys, b, sys.calls, from);
      forall o | o in owned && old(o.record).None? && o.record.Some?
        ensures Recovered(o, o.record, sys, from, sys.calls)
      {
        if o == survivors[i] && old@Before(o.record).None? {
          RecoveredSince(o, o.record, sys, from, b, sys.calls, sys.calls);
        } else {
          RecoveredSince(o, o.record, sys, from, from, b, sys.calls);
        }
      }
      failures := failures + more;
      i := i + 1;
    }
    r := Finished(failures);
    PassiveIs(r, sys, from, sys.calls);
  }

  method RecoverOne(owned: seq<OwnedWorker>, o: OwnedWorker, sys: System) returns (failures: seq<Diagnostic>)
    requires Valid(owned, sys) && o in owned
    modifies o`record, sys`calls
    ensures Valid(owned, sys) && o.record.Some? && (old(o.record).Some? ==> o.record == old(o.record))
    ensures Passive(sys, old(sys.calls), sys.calls)
    ensures old(o.record).None? ==> Recovered(o, o.record, sys, old(sys.calls), sys.calls)
  {
    hide Valid, Passive;
    failures := [];
    ghost var from := sys.calls;
    PassiveNone(sys, from);
    if o.record.None? {
      PassiveOne(sys, from, from, AskGuard);
      PassiveOne(sys, from, from + [AskGuard], AskCapture);
      var raised := sys.Raises();
      var ticks := sys.Capture();
      if raised {
        failures := [RecoveryFailed(o.role)];
      }
      KeepRecord(owned, o, if raised || ticks.None? then ClaimedBy(o.token) else Ticks(ticks.value), sys);
      assert from + [AskGuard] + [AskCapture] == from + [AskGuard, AskCapture];
      assert o.record == Some(RecoveredAt(o, sys, from));
    }
  }

  method KeepRecord(owned: seq<OwnedWorker>, o: OwnedWorker, start: Start, sys: System)
    requires Valid(owned, sys) && o in owned
    modifies o`record
    ensures Valid(owned, sys) && o.record == Some(Record(o.pid, start, o.role, o.token, true))
  {
    o.record := Some(Record(o.pid, start, o.role, o.token, true));
  }

  // ---------------------------------------------------------------- the pidfile

  function LinesOf(p: Pidfile): seq<Line> {
    if p.File? then p.lines else []
  }

  /** The survivors' records, as written: provisional. */
  function SurvivorRecords(survivors: seq<OwnedWorker>): (r: seq<Record>)
    requires forall o :: o in survivors ==> o.record.Some?
    reads survivors
    ensures |r| == |survivors|
    ensures forall i :: 0 <= i < |r| ==> r[i] == survivors[i].record.value.(provisional := true)
  {
    if survivors == [] then []
    else
      var n := |survivors| - 1;
      SurvivorRecords(survivors[..n]) + [survivors[n].record.value.(provisional := true)]
  }

  /** Each record names its worker, provisionally. */
  ghost predicate Names(survivors: seq<OwnedWorker>, records: seq<Record>) {
    && |records| == |survivors|
    && forall k :: 0 <= k < |records| ==>
         records[k].pid == survivors[k].pid && records[k].token == survivors[k].token && records[k].provisional
  }

  lemma RecordsName(owned: seq<OwnedWorker>, survivors: seq<OwnedWorker>)
    requires AllConsistent(owned) && forall o :: o in survivors ==> o in owned && o.record.Some?
    ensures Names(survivors, SurvivorRecords(survivors))
  {
    forall k | 0 <= k < |survivors|
      ensures survivors[k].record.value.pid == survivors[k].pid && survivors[k].record.value.token == survivors[k].token
    {
      assert survivors[k] in owned;
      var i :| 0 <= i < |owned| && owned[i] == survivors[k];
      assert owned[i].Consistent();
    }
  }

  /** The original lines, terminated. */
  function Base(original: Pidfile): Pidfile {
    File(LinesOf(original), true)
  }

  /** What a complete restore writes: the original bytes, and after them every survivor. */
  function Restored(original: Pidfile, records: seq<Record>): Pidfile {
    if records == [] then original else File(LinesOf(original) + Entries(records), true)
  }

  predicate Lists(p: Pidfile, pid: int, token: nat) {
    exists i :: 0 <= i < |LinesOf(p)| && LinesOf(p)[i].Entry? &&
                LinesOf(p)[i].record.pid == pid && LinesOf(p)[i].record.token == token && LinesOf(p)[i].record.provisional
  }

  /** The writer left every survivor in the file. */
  predicate Complete(how: Publication) {
    how.Atomic? || how == Direct(true) || how.StructuredOnly?
  }

  /** With records to add, the first step of the write stage builds the complete payload. */
  ghost predicate Built(sys: System, some: bool, c: Calls) {
    !(some && sys.faults(c))
  }

  /** The calls before the first writer is asked, in a write stage that starts after calls `c`. */
  function Ready(some: bool, c: Calls): Calls {
    if some then c + [AskGuard] else c
  }

  /** The calls before the direct writer is asked. Without a complete payload the atomic one is not tried. */
  ghost function ToDirect(sys: System, some: bool, c: Calls): Calls {
    if Built(sys, some, c) then Ready(some, c) + [AskAtomic] else Ready(some, c)
  }

  ghost function ToStructured(sys: System, some: bool, c: Calls): Calls {
    ToDirect(sys, some, c) + [AskDirect]
  }

  /** Which writer gets through in a write stage that starts after calls `c`. */
  ghost function PublicationAt(sys: System, some: bool, c: Calls): Publication {
    if Built(sys, some, c) && sys.writes(Ready(some, c)).Written? then Atomic
    else if sys.writes(ToDirect(sys, some, c)).Written? then Direct(Built(sys, some, c))
    else if some && sys.writes(ToStructured(sys, some, c)).Written? then StructuredOnly
    else Nothing
  }

  /** The calls by the end of that stage. */
  ghost function StageEnd(sys: System, some: bool, c: Calls): Calls {
    match PublicationAt(sys, some, c)
    case Atomic => Ready(some, c) + [AskAtomic]
    case Direct(_) => ToStructured(sys, some, c)
    case _ => if some then ToStructured(sys, some, c) + [AskAtomic] else ToStructured(sys, some, c)
  }

  /** Which payload, if any, was the last to reach the file, whether or not its writer then failed. */
  datatype Landing = Kept | Full | Bare | Structure | Debris(left: Pidfile)

  predicate Lands(w: WriteResult) {
    w.Written? || w.FailedAfter?
  }

  ghost function LandingAt(sys: System, some: bool, c: Calls): Landing {
    var (built, direct) := (Built(sys, some, c), sys.writes(ToDirect(sys, some, c)));
    if built && sys.writes(Ready(some, c)).Written? then Full
    else if !direct.Written? && some && Lands(sys.writes(ToStructured(sys, some, c))) then Structure
    else if Lands(direct) then (if built then Full else Bare)
    else if direct.Scrambled? then Debris(direct.left)
    else if built && Lands(sys.writes(Ready(some, c))) then Full
    else Kept
  }

  /** The pidfile after that stage. */
  ghost function FileAfter(sys: System, original: Pidfile, records: seq<Record>, before: Pidfile, c: Calls): Pidfile {
    match LandingAt(sys, records != [], c)
    case Kept => before
    case Full => Restored(original, records)
    case Bare => Base(original)
    case Structure => Structured(records)
    case Debris(left) => left
  }

  /** A writer that got through is the last whose payload landed. */
  lemma PublishedLands(sys: System, some: bool, c: Calls)
    ensures var how := PublicationAt(sys, some, c);
            && (how.Atomic? || how == Direct(true) ==> LandingAt(sys, some, c) == Full)
            && (how == Direct(false) ==> LandingAt(sys, some, c) == Bare && some)
            && (how.StructuredOnly? ==> LandingAt(sys, some, c) == Structure)
  {
  }

  /** Nothing is published exactly when every writer that has something to write was tried and failed. */
  lemma NothingPublishedIff(sys: System, some: bool, c: Calls)
    ensures PublicationAt(sys, some, c) == Nothing <==>
              if !some then !sys.writes(c).Written? && !sys.writes(c + [AskAtomic]).Written?
              else if sys.faults(c) then
                !sys.writes(c + [AskGuard]).Written? && !sys.writes(c + [AskGuard] + [AskDirect]).Written?
              else
                && !sys.writes(c + [AskGuard]).Written? && !sys.writes(c + [AskGuard] + [AskAtomic]).Written?
                && !sys.writes(c + [AskGuard] + [AskAtomic] + [AskDirect]).Written?
    ensures PublicationAt(sys, some, c) == Nothing ==>
              StageEnd(sys, some, c) ==
                if !some then c + [AskAtomic] + [AskDirect]
                else if sys.faults(c) then c + [AskGuard] + [AskDirect] + [AskAtomic]
                else c + [AskGuard] + [AskAtomic] + [AskDirect] + [AskAtomic]
  {
  }

  /** Three independent writers, each tried only when the one before it failed. */
  method Publish(original: Pidfile, records: seq<Record>, sys: System)
    returns (how: Publication, failures: seq<Diagnostic>)
    modifies sys`calls, sys`pidfile
    ensures how == PublicationAt(sys, records != [], old(sys.calls))
    ensures sys.calls == StageEnd(sys, records != [], old(sys.calls))
    ensures sys.pidfile == FileAfter(sys, original, records, old(sys.pidfile), old(sys.calls))
    ensures failures == [] <==> how.Atomic?
  {
    failures := [];
    var payload := if records == [] then original else Base(original);
    var built := true;
    if records != [] {
      var raised := sys.Raises();
      built := !raised;
      if built {
        payload := File(payload.lines + Entries(records), true);
      }
    }
    if built {
      var ok := sys.WriteAtomic(payload);
      if ok {
        return Atomic, [];
      }
    }
    var direct := sys.WriteDirect(payload);
    if direct {
      return Direct(built), [UsedDirect];
    }
    failures := [RestoreFailed];
    how := Nothing;
    if records != [] {
      var structured := sys.WriteAtomic(Structured(records));
      if structured {
        return StructuredOnly, failures + [UsedStructured];
      }
      failures := failures + [StructuredFailed];
    }
  }

  lemma LineLists(p: Pidfile, i: nat, r: Record)
    requires i < |LinesOf(p)| && LinesOf(p)[i] == Entry(r) && r.provisional
    ensures Lists(p, r.pid, r.token)
  {
  }

  /** Survivors have different pids, so both complete payloads list each of them. */
  lemma CompleteLists(original: Pidfile, records: seq<Record>, p: Pidfile, k: nat)
    requires k < |records| && records[k].provisional && (p == Restored(original, records) || p == Structured(records))
    requires forall i, j :: 0 <= i < j < |records| ==> records[i].pid != records[j].pid
    ensures Lists(p, records[k].pid, records[k].token)
  {
    hide Lists, ByPid;
    if p == Restored(original, records) {
      LineLists(p, |LinesOf(original)| + k, records[k]);
    } else {
      ByPidKeeps(records, k);
      var i :| 0 <= i < |ByPid(records)| && ByPid(records)[i] == records[k];
      LineLists(p, i, records[k]);
    }
  }

  // ---------------------------------------------------------------- one pass of the rollback

  /** One pass: the calls around it, the pidfile around it, and, if it came to its write stage, what it wrote then. */
  datatype Pass = Pass(
    from: Calls, to: Calls, found: Pidfile, left: Pidfile, wrote: bool, at: Calls,
    survivors: seq<OwnedWorker>, records: seq<Record>, polls: Polls)

  /** The write stage is skipped when nothing was touched and nobody survived. */
  predicate Skips(restore: bool, records: seq<Record>) {
    !restore && records == []
  }

  /** The pidfile after the write stage, skipped or not. */
  ghost function Left(
      sys: System, original: Pidfile, restore: bool, records: seq<Record>, before: Pidfile, c: Calls): Pidfile
  {
    if Skips(restore, records) then before else FileAfter(sys, original, records, before, c)
  }

  /** The calls by the end of the write stage. */
  ghost function AfterStage(sys: System, restore: bool, records: seq<Record>, c: Calls): Calls {
    if Skips(restore, records) then c else StageEnd(sys, records != [], c)
  }

  /** The calls by which a pass has asked, after writing, whether an exception lands: it does so before every close. */
  ghost function Closing(owned: seq<OwnedWorker>, c: Calls): Calls {
    if owned == [] then c else c + [AskInterrupt]
  }

  /** A pass that came to its write stage. */
  ghost predicate Wrote(owned: seq<OwnedWorker>, sys: System, original: Pidfile, restore: bool, p: Pass) {
    && p.from <= p.at && Passive(sys, p.from, p.at)
    && AreSurvivors(owned, p.survivors, p.polls) && Unrepeated(p.survivors)
    && Answered(owned, sys, p.polls, p.from, p.at)
    && Names(p.survivors, p.records)
    && p.left == Left(sys, original, restore, p.records, p.found, p.at)
    && p.at <= AfterStage(sys, restore, p.records, p.at) && Closing(owned, AfterStage(sys, restore, p.records, p.at)) <= p.to
    && NoWrites(AfterStage(sys, restore, p.records, p.at), p.to)
    && (Struck(sys, p.from, p.to) <==> Struck(sys, AfterStage(sys, restore, p.records, p.at), p.to))
  }

  /** What one pass did. It is cut short before its write stage only by an asynchronous exception. */
  ghost predicate Ran(owned: seq<OwnedWorker>, sys: System, original: Pidfile, restore: bool, p: Pass) {
    && p.from <= p.to
    && (if p.wrote then Wrote(owned, sys, original, restore, p)
        else p.left == p.found && NoWrites(p.from, p.to) && Struck(sys, p.from, p.to))
  }

  lemma ListedBy(
      owned: seq<OwnedWorker>, survivors: seq<OwnedWorker>, records: seq<Record>, original: Pidfile, p: Pidfile,
      o: OwnedWorker)
    requires Separate(owned) && forall w :: w in survivors ==> w in owned
    requires Unrepeated(survivors) && Names(survivors, records) && o in survivors
    requires p == Restored(original, records) || p == Structured(records)
    ensures Lists(p, o.pid, o.token)
  {
    hide Lists, Restored, Structured;
    var k :| 0 <= k < |survivors| && survivors[k] == o;
    forall i, j | 0 <= i < j < |records|
      ensures records[i].pid != records[j].pid
    {
      assert survivors[i] in survivors && survivors[j] in survivors && survivors[i] != survivors[j];
      DifferentPids(owned, survivors[i], survivors[j]);
    }
    CompleteLists(original, records, p, k);
  }

  lemma DifferentPids(owned: seq<OwnedWorker>, a: OwnedWorker, b: OwnedWorker)
    requires Separate(owned) && a in owned && b in owned && a != b
    ensures a.pid != b.pid
  {
  }

  /**
   When some writer succeeded, a child not observed to have exited is in the pidfile
   unless building the complete payload raised and the direct writer then succeeded;
   in that case only what the original file said of the child is left.
   */
  lemma SurvivorListedIff(
      owned: seq<OwnedWorker>, sys: System, original: Pidfile, restore: bool, p: Pass, o: OwnedWorker)
    requires Separate(owned) && Ran(owned, sys, original, restore, p) && p.wrote
    requires o in owned && p.polls[o] != Exited && PublicationAt(sys, true, p.at) != Nothing
    ensures Lists(p.left, o.pid, o.token) <==>
              !(sys.faults(p.at) && sys.writes(p.at + [AskGuard]).Written?) || Lists(original, o.pid, o.token)
  {
    hide Lists, Restored, Structured, Separate, Unrepeated, Names, Answered, Passive;
    SurvivorNamed(owned, p, o);
    PublishedLands(sys, true, p.at);
    if sys.faults(p.at) && sys.writes(p.at + [AskGuard]).Written? {
      BaseLists(original, o.pid, o.token);
    } else {
      ListedBy(owned, p.survivors, p.records, original, p.left, o);
    }
  }

  lemma SurvivorNamed(owned: seq<OwnedWorker>, p: Pass, o: OwnedWorker)
    requires AreSurvivors(owned, p.survivors, p.polls) && Names(p.survivors, p.records)
    requires o in owned && p.polls[o] != Exited
    ensures o in p.survivors && p.records != [] && forall w :: w in p.survivors ==> w in owned
  {
  }

  lemma BaseLists(original: Pidfile, pid: int, token: nat)
    ensures Lists(Base(original), pid, token) <==> Lists(original, pid, token)
  {
    assert LinesOf(Base(original)) == LinesOf(original);
  }

  /**
   A raw payload that got through keeps the original lines: nothing else is in the file
   without survivors, and otherwise their lines at most come after.
   */
  lemma OriginalIsKept(owned: seq<OwnedWorker>, sys: System, original: Pidfile, restore: bool, p: Pass)
    requires Ran(owned, sys, original, restore, p) && p.wrote && !Skips(restore, p.records)
    requires PublicationAt(sys, p.records != [], p.at).Atomic? || PublicationAt(sys, p.records != [], p.at).Direct?
    ensures LinesOf(original) <= LinesOf(p.left) && |LinesOf(p.left)| <= |LinesOf(original)| + |p.survivors|
    ensures p.survivors == [] ==> p.left == original
  {
    PublishedLands(sys, p.records != [], p.at);
    hide Answered, AreSurvivors, Unrepeated, Struck, NoWrites, Passive, StageEnd, PublicationAt, LandingAt;
  }

  /** Every descriptor has been given up. */
  ghost predicate Released(owned: seq<OwnedWorker>)
    reads owned
  {
    forall o :: o in owned ==> o.pidfd == None
  }

  lemma NothingToAdd(original: Pidfile, survivors: seq<OwnedWorker>)
    requires forall o :: o in survivors ==> o.record.Some?
    ensures survivors == [] <==> SurvivorRecords(survivors) == []
    ensures Restored(original, []) == original
  {
  }

  lemma StageSteps(sys: System, some: bool, c: Calls)
    ensures c <= StageEnd(sys, some, c) && !Struck(sys, c, StageEnd(sys, some, c))
  {
    hide Struck, Troubled, NoWrites, Bad, Built;
    NoCalls(sys, c);
    OneCall(sys, c, c, AskGuard);
    OneCall(sys, c, Ready(some, c), AskAtomic);
    OneCall(sys, c, ToDirect(sys, some, c), AskDirect);
    OneCall(sys, c, ToStructured(sys, some, c), AskAtomic);
  }

  /** The write stage: skipped only when nothing was touched and nobody survived. */
  method Settle(
      owned: seq<OwnedWorker>, survivors: seq<OwnedWorker>, original: Pidfile, restore: bool, sys: System)
    returns (failures: seq<Diagnostic>, ghost records: seq<Record>)
    requires AllConsistent(owned) && forall o :: o in survivors ==> o in owned && o.record.Some?
    modifies sys`calls, sys`pidfile
    ensures Names(survivors, records) && old(sys.calls) <= sys.calls && !Struck(sys, old(sys.calls), sys.calls)
    ensures sys.pidfile == Left(sys, original, restore, records, old(sys.pidfile), old(sys.calls))
    ensures sys.calls == AfterStage(sys, restore, records, old(sys.calls))
    ensures failures == [] && survivors == [] && restore ==> sys.pidfile == original
  {
    RecordsName(owned, survivors);
    NothingToAdd(original, survivors);
    hide Names, Struck, AllConsistent, SurvivorRecords, StageEnd, LandingAt, PublicationAt, Restored;
    failures := [];
    records := SurvivorRecords(survivors);
    NoCalls(sys, sys.calls);
    StageSteps(sys, records != [], sys.calls);
    PublishedLands(sys, records != [], sys.calls);
    if restore || survivors != [] {
      var how;
      how, failures := Publish(original, SurvivorRecords(survivors), sys);
    }
  }

  lemma GracefulNow(
      owned: seq<OwnedWorker>, sys: System, from: nat, first: seq<(int, int)>, second: seq<(int, int)>)
    requires from <= |sys.signalled| && sys.signalled[from..] == first + second
    requires Sent(owned, 0, first, SIGTERM) && Sent(owned, 0, second, SIGKILL)
    requires second != [] ==> AllDealt(owned, SIGTERM, sys, from)
    ensures Graceful(owned, sys, from)
  {
    TwoStages(owned, first, second);
    NoKill(owned, first);
    hide Sent, Unequal, TermBeforeKill, AllDealt;
    if second == [] {
      assert first + second == first;
    }
  }

  /** Signals, waits and the final status checks. */
  method StopChildren(owned: seq<OwnedWorker>, sys: System)
    returns (r: Outcome, survivors: seq<OwnedWorker>)
    requires Separate(owned) && AllConsistent(owned)
    modifies sys`calls, sys`signalled, sys`mismatched, sys`bare, sys`gone, sys`lastPoll
    ensures SignalsOwned(owned, sys, |old(sys.signalled)|) && Graceful(owned, sys, |old(sys.signalled)|)
    ensures r.Finished? ==> Stopped(owned, sys, |old(sys.signalled)|)
    ensures r.Finished? ==> AreSurvivors(owned, survivors, sys.lastPoll) && Unrepeated(survivors)
    ensures r.Finished? ==> Answered(owned, sys, sys.lastPoll, old(sys.calls), sys.calls)
    ensures r.Finished? && r.failures == [] ==> survivors == []
    ensures Staged(r, sys, old(sys.calls), sys.calls)
  {
    hide *;
    survivors := [];
    ghost var from := |sys.signalled|;
    ghost var start := sys.calls;
    r := Signalling(owned, sys);
    PassiveIs(r, sys, start, sys.calls);
    if r.Interrupted? {
      return;
    }
    var failures := r.failures;
    ghost var reaped := sys.calls;
    r, survivors := LastLook(owned, sys, from);
    StagedThen(r, sys, start, reaped, sys.calls);
    if r.Finished? {
      AnsweredWithin(owned, sys, sys.lastPoll, start, reaped, sys.calls, sys.calls);
      PassiveIs(r, sys, start, sys.calls);
      r := Finished(failures + r.failures);
      PassiveIs(r, sys, start, sys.calls);
    }
  }

  /** Terminations, then waits and kills. */
  method Signalling(owned: seq<OwnedWorker>, sys: System) returns (r: Outcome)
    requires Separate(owned) && AllConsistent(owned)
    modifies sys`calls, sys`signalled, sys`mismatched, sys`bare, sys`gone, sys`lastPoll
    ensures SignalsOwned(owned, sys, |old(sys.signalled)|) && Graceful(owned, sys, |old(sys.signalled)|)
    ensures r.Finished? ==> Stopped(owned, sys, |old(sys.signalled)|)
    ensures Staged(r, sys, old(sys.calls), sys.calls)
  {
    hide Separate, AllConsistent, Staged, Passive, Sent, AllDealt, TermBeforeKill, Kills, Graceful;
    ghost var from, before := |sys.signalled|, sys.signalled;
    ghost var start := sys.calls;
    ghost var first, second;
    r, first := Terminate(owned, sys, from);
    PassiveIs(r, sys, start, sys.calls);
    NothingSent(owned, 0, SIGKILL);
    assert first + [] == first;
    GracefulNow(owned, sys, from, first, []);
    if r.Interrupted? {
      return;
    }
    var failures := r.failures;
    ghost var terminated := sys.calls;
    r, second := Reap(owned, sys, from);
    StagedThen(r, sys, start, terminated, sys.calls);
    PassiveIs(r, sys, start, sys.calls);
    assert sys.signalled == before + (first + second);
    GracefulNow(owned, sys, from, first, second);
    if r.Finished? {
      r := Finished(failures + r.failures);
      PassiveIs(r, sys, start, sys.calls);
    }
  }

  /** Looking once more sends nothing. */
  method LastLook(owned: seq<OwnedWorker>, sys: System, ghost from: nat)
    returns (r: Outcome, survivors: seq<OwnedWorker>)
    requires Separate(owned) && SignalsOwned(owned, sys, from) && Stopped(owned, sys, from)
    modifies sys`calls, sys`lastPoll, sys`gone
    ensures SignalsOwned(owned, sys, from) && Graceful(owned, sys, from) && Stopped(owned, sys, from)
    ensures r.Finished? ==> AreSurvivors(owned, survivors, sys.lastPoll) && Unrepeated(survivors)
    ensures r.Finished? ==> Answered(owned, sys, sys.lastPoll, old(sys.calls), sys.calls)
    ensures r.Finished? && r.failures == [] ==> survivors == []
    ensures Staged(r, sys, old(sys.calls), sys.calls)
  {
    hide Separate, Staged, AreSurvivors, Unrepeated, Answered, TermBeforeKill, Kills;
    r, survivors := FindSurvivors(owned, sys);
  }

  lemma ValidParts(owned: seq<OwnedWorker>, sys: System)
    requires Valid(owned, sys)
    ensures Separate(owned) && AllConsistent(owned)
  {
  }

  lemma SurvivorsOwned(owned: seq<OwnedWorker>, survivors: seq<OwnedWorker>, polls: Polls)
    requires AreSurvivors(owned, survivors, polls)
    ensures forall o :: o in survivors ==> o in owned
  {
  }

  lemma CutBeforeWriting(owned: seq<OwnedWorker>, sys: System, original: Pidfile, restore: bool, p: Pass)
    requires !p.wrote && p.left == p.found && Staged(Interrupted, sys, p.from, p.to)
    ensures Ran(owned, sys, original, restore, p)
  {
  }

  /** After the write stage only the closes are left. */
  lemma WroteThenClosed(
      owned: seq<OwnedWorker>, sys: System, original: Pidfile, restore: bool, p: Pass, settled: Calls, r: Outcome)
    requires p.wrote && Passive(sys, p.from, p.at) && settled == AfterStage(sys, restore, p.records, p.at)
    requires p.at <= settled && !Struck(sys, p.at, settled) && Staged(r, sys, settled, p.to)
    requires owned != [] ==> settled + [AskInterrupt] <= p.to
    requires AreSurvivors(owned, p.survivors, p.polls) && Unrepeated(p.survivors) && Names(p.survivors, p.records)
    requires Answered(owned, sys, p.polls, p.from, p.at)
    requires p.left == Left(sys, original, restore, p.records, p.found, p.at)
    ensures Ran(owned, sys, original, restore, p)
    ensures r.Interrupted? <==> Struck(sys, p.from, p.to)
  {
    hide AreSurvivors, Unrepeated, Names, Answered, Left, AfterStage, Struck;
    Joins(sys, p.from, p.at, settled);
    Joins(sys, p.from, settled, p.to);
  }

  /** From the survivors on: their records, the pidfile, the descriptors. */
  method RestoreAndRelease(
      owned: seq<OwnedWorker>, survivors: seq<OwnedWorker>, original: Pidfile, restore: bool, sys: System,
      ghost from: Calls)
    returns (r: Outcome, ghost p: Pass)
    requires Valid(owned, sys) && AreSurvivors(owned, survivors, sys.lastPoll) && Unrepeated(survivors)
    requires Passive(sys, from, sys.calls) && Answered(owned, sys, sys.lastPoll, from, sys.calls)
    modifies owned, sys`calls, sys`pidfile, sys`closed
    ensures Valid(owned, sys)
    ensures forall o :: o in owned && old(o.record).Some? ==> o.record == old(o.record)
    ensures forall o :: o in owned && old(o.record).None? ==> o.record.None? || Recovered(o, o.record, sys, p.from, p.to)
    ensures Ran(owned, sys, original, restore, p)
    ensures p.from == from && p.to == sys.calls && p.found == old(sys.pidfile) && p.left == sys.pidfile
    ensures r.Interrupted? <==> Struck(sys, p.from, p.to)
    ensures p.wrote ==> p.polls == sys.lastPoll && p.survivors == survivors
    ensures r.Finished? ==> p.wrote && Released(owned)
    ensures r.Finished? && r.failures == [] && survivors == [] && restore ==> sys.pidfile == original
  {
    SurvivorsOwned(owned, survivors, sys.lastPoll);
    hide *;
    ghost var found, begun := sys.pidfile, sys.calls;
    r := RecoverRecords(owned, survivors, sys);
    ghost var recovered := sys.calls;
    StagedThen(r, sys, from, begun, sys.calls);
    PassiveIs(r, sys, from, begun);
    PassiveIs(r, sys, from, sys.calls);
    forall o | o in owned && old(o.record).None? && o.record.Some?
      ensures Recovered(o, o.record, sys, from, recovered)
    {
      RecoveredSince(o, o.record, sys, from, begun, recovered, recovered);
    }
    if r.Interrupted? {
      p := Pass(from, sys.calls, found, found, false, from, [], [], map[]);
      CutBeforeWriting(owned, sys, original, restore, p);
      StagedCut(r, sys, from, sys.calls);
      return;
    }
    ValidParts(owned, sys);
    var failures := r.failures;
    ghost var at := sys.calls;
    PassiveBegins(sys, begun, at, from);
    AnsweredWithin(owned, sys, sys.lastPoll, from, from, begun, at);
    ghost var records;
    var more;
    more, records := Settle(owned, survivors, original, restore, sys);
    ghost var settled, left := sys.calls, sys.pidfile;
    r := CloseOwned(owned, sys);
    p := Pass(from, sys.calls, found, left, true, at, survivors, records, sys.lastPoll);
    WroteThenClosed(owned, sys, original, restore, p, settled, r);
    PassiveIs(r, sys, settled, sys.calls);
    forall o | o in owned && old(o.record).None? && o.record.Some?
      ensures Recovered(o, o.record, sys, from, sys.calls)
    {
      RecoveredSince(o, o.record, sys, from, from, recovered, sys.calls);
    }
    if r.Finished? {
      r := Finished(failures + more + r.failures);
    }
  }

  lemma StagedCut(r: Outcome, sys: System, from: Calls, to: Calls)
    requires Staged(r, sys, from, to)
    ensures r.Interrupted? <==> Struck(sys, from, to)
  {
  }

  lemma PassiveBegins(sys: System, a: Calls, b: Calls, from: Calls)
    requires Passive(sys, from, a) && Passive(sys, from, b) && (Passive(sys, a, b) || a <= b)
    ensures from <= a <= b
  {
  }

  /** `_rollback_worker_start`. Only an asynchronous exception between its stages cuts it short. */
  method Rollback(owned: seq<OwnedWorker>, sys: System, original: Pidfile, restore: bool)
    returns (r: Outcome, ghost p: Pass)
    requires Valid(owned, sys)
    modifies owned, sys
    ensures Valid(owned, sys) && SignalsOwned(owned, sys, |old(sys.signalled)|)
    ensures forall o :: o in owned && old(o.record).Some? ==> o.record == old(o.record)
    ensures forall o :: o in owned && old(o.record).None? ==> o.record.None? || Recovered(o, o.record, sys, p.from, p.to)
    ensures Ran(owned, sys, original, restore, p)
    ensures p.from == old(sys.calls) && p.to == sys.calls && p.found == old(sys.pidfile) && p.left == sys.pidfile
    ensures r.Interrupted? <==> Struck(sys, p.from, p.to)
    ensures p.wrote ==> p.polls == sys.lastPoll
    ensures Graceful(owned, sys, |old(sys.signalled)|)
    ensures r.Finished? ==> p.wrote && Released(owned) && Stopped(owned, sys, |old(sys.signalled)|)
    ensures r.Finished? && r.failures == [] ==> p.survivors == [] && (restore ==> sys.pidfile == original)
  {
    ValidParts(owned, sys);
    hide *;
    ghost var from := sys.calls;
    var alive: seq<OwnedWorker>;
    r, alive := StopChildren(owned, sys);
    PassiveIs(r, sys, from, sys.calls);
    if r.Interrupted? {
      p := Pass(from, sys.calls, sys.pidfile, sys.pidfile, false, from, [], [], map[]);
      CutBeforeWriting(owned, sys, original, restore, p);
      StagedCut(r, sys, from, sys.calls);
      return;
    }
    var failures := r.failures;
    r, p := RestoreAndRelease(owned, alive, original, restore, sys, from);
    if r.Finished? {
      r := Finished(failures + r.failures);
    }
  }

  /**
   A system on which a survivor is lost: the child never exits, every guarded step
   raises, and every write succeeds.
   */
  method SurvivorLost() returns (sys: System, o: OwnedWorker)
    ensures (forall n :: sys.writes(n) == Written) && (forall n :: !sys.interrupts(n))
    ensures o in sys.lastPoll && sys.lastPoll[o] == Running
    ensures sys.pidfile == File([], true) && !Lists(sys.pidfile, o.pid, o.token)
  {
    sys := new System(
      Absent, _ => Running, _ => TimedOut, _ => SignalResult.Sent, _ => true, _ => None, _ => Written, _ => true,
      _ => false);
    o := new OwnedWorker("watch", 7, 1, None, Some(3));
    assert Valid([o], sys);
    var r, p := Rollback([o], sys, Absent, false);
    assert o in [o] && p.polls[o] == Running;
    SurvivorNamed([o], p, o);
  }
}
