/** The transactional start: spawn, publish, verify, and undo everything on any failure. */
module WorkerStart {
  import opened Wrappers
  import opened WorkerProcesses
  import opened WorkerRollback

  /** What one spawn attempt produced before its ownership was published. */
  datatype Attempt =
    | NoChild
    | Child(pid: int, token: nat, pidfd: Option<int>, start: Option<string>, interrupted: bool)

  /** The attempt did not end in a pinned and identified child. */
  predicate Flawed(a: Attempt) {
    a.NoChild? || a.pidfd.None? || a.start.None? || a.interrupted
  }

  /** The kernel gives different children different pids and descriptors. */
  ghost predicate Fresh(owned: seq<OwnedWorker>, a: Attempt)
    reads owned
  {
    a.Child? ==>
      forall o :: o in owned ==> o.pid != a.pid && (a.pidfd.Some? ==> o.issued != a.pidfd)
  }

  ghost predicate DistinctAttempts(attempts: seq<Attempt>) {
    forall i, j :: 0 <= i < j < |attempts| && attempts[i].Child? && attempts[j].Child? ==>
      attempts[i].pid != attempts[j].pid && (attempts[i].pidfd.Some? ==> attempts[i].pidfd != attempts[j].pidfd)
  }

  /** The owned workers are exactly the children of the first `n` attempts, each with its descriptor. */
  ghost predicate Owns(owned: seq<OwnedWorker>, roles: seq<string>, attempts: seq<Attempt>, n: nat)
    requires |attempts| == |roles|
  {
    && |owned| <= n <= |attempts|
    && (forall k :: 0 <= k < |owned| ==>
          && attempts[k].Child? && owned[k].role == roles[k]
          && owned[k].pid == attempts[k].pid && owned[k].token == attempts[k].token && owned[k].issued == attempts[k].pidfd)
    && (forall k :: |owned| <= k < n ==> attempts[k].NoChild?)
  }

  /** The first `n` attempts ended in pinned and identified children. */
  predicate Sound(attempts: seq<Attempt>, n: nat) {
    n <= |attempts| && forall k :: 0 <= k < n ==> !Flawed(attempts[k])
  }

  // ---------------------------------------------------------------- the calls a start makes

  /** Is it running; publish it; did it reach its role. */
  const LAUNCH: Calls := [AskPoll, AskAtomic, AskGuard]

  const POLL: Calls := [AskPoll]

  const WRITE: Calls := [AskAtomic]

  function Rep(n: nat, block: Calls): Calls {
    if n == 0 then [] else Rep(n - 1, block) + block
  }

  /** Launch every role, look at everybody again, write the file, and look at everybody once more. */
  function StartCalls(n: nat): Calls {
    Rep(n, LAUNCH) + Rep(n, POLL) + WRITE + Rep(n, POLL)
  }

  /** The calls of `block` were made in order after `from`, as far as `to` goes. */
  ghost predicate Within(from: Calls, block: Calls, to: Calls) {
    from <= to <= from + block
  }

  lemma WithinAll(from: Calls, block: Calls)
    ensures Within(from, block, from) && Within(from, block, from + block)
  {
  }

  lemma WithinFirst(from: Calls, block: Calls, more: Calls, to: Calls)
    requires Within(from, block, to)
    ensures Within(from, block + more, to)
  {
    assert from + (block + more) == from + block + more;
  }

  lemma WithinThen(from: Calls, block: Calls, more: Calls, to: Calls)
    requires Within(from + block, more, to)
    ensures Within(from, block + more, to)
    ensures to == from + block + more ==> to == from + (block + more)
  {
    assert from + (block + more) == from + block + more;
  }

  lemma {:induction false} RepWithin(from: Calls, i: nat, n: nat, block: Calls, to: Calls)
    requires i < n && Within(from + Rep(i, block), block, to)
    ensures Within(from, Rep(n, block), to)
    decreases n - i
  {
    WithinThen(from, Rep(i, block), block, to);
    if i + 1 < n {
      WithinFirst(from, Rep(i + 1, block), block, to);
      RepPrefix(i + 1, n, block);
      assert from + Rep(i + 1, block) <= from + Rep(n, block);
    }
  }

  lemma NoneYet(from: Calls, block: Calls)
    ensures from + Rep(0, block) == from
  {
  }

  lemma OneMoreBlock(from: Calls, i: nat, n: nat, block: Calls)
    requires n == i + 1
    ensures from + Rep(n, block) == from + Rep(i, block) + block
  {
  }

  lemma {:induction false} RepPrefix(i: nat, n: nat, block: Calls)
    requires i <= n
    ensures Rep(i, block) <= Rep(n, block)
  {
    if i < n {
      RepPrefix(i, n - 1, block);
    }
  }

  function OwnedRecords(owned: seq<OwnedWorker>): seq<Record>
    reads owned
  {
    if owned == [] then []
    else
      var n := |owned| - 1;
      OwnedRecords(owned[..n]) + (if owned[n].record.Some? then [owned[n].record.value] else [])
  }

  ghost predicate AllKnown(owned: seq<OwnedWorker>)
    reads owned
  {
    forall i :: 0 <= i < |owned| ==> owned[i].record.Some?
  }

  /** What reading the pidfile back says of a pid. */
  function Recorded(lines: seq<Line>, pid: int): Option<Record> {
    if lines == [] then None
    else
      var last := lines[|lines| - 1];
      if last.Entry? && last.record.pid == pid then Some(last.record) else Recorded(lines[..|lines| - 1], pid)
  }

  /** `owned` gains one child and stays well formed. */
  lemma AddOwner(owned: seq<OwnedWorker>, o: OwnedWorker, sys: System)
    requires Valid(owned, sys) && o !in owned && o.Consistent() && o.pidfd == o.issued
    requires forall w :: w in owned ==> w.pid != o.pid && (o.issued.Some? ==> w.issued != o.issued)
    requires o.issued.Some? ==> Count(sys.closed, o.issued.value) == 0
    ensures Valid(owned + [o], sys)
  {
    hide Count;
    var all := owned + [o];
    assert forall i :: 0 <= i < |owned| ==> all[i] == owned[i] && owned[i] in owned;
  }

  /** The child is claimed before anything else can go wrong. */
  method Claim(role: string, a: Attempt, owned0: seq<OwnedWorker>, sys: System) returns (owned: seq<OwnedWorker>)
    requires a.Child? && Valid(owned0, sys) && Fresh(owned0, a) && sys.closed == []
    ensures Valid(owned, sys) && |owned| == |owned0| + 1 && owned[..|owned0|] == owned0
    ensures var o := owned[|owned0|];
            && fresh(o) && o.role == role && o.pid == a.pid && o.token == a.token
            && o.issued == a.pidfd && o.pidfd == a.pidfd
            && (o.record.Some? <==> a.start.Some?)
  {
    var record := if a.start.Some? then Some(Record(a.pid, Ticks(a.start.value), role, a.token, true)) else None;
    var o := new OwnedWorker(role, a.pid, a.token, record, a.pidfd);
    AddOwner(owned0, o, sys);
    owned := owned0 + [o];
  }

  lemma Kinds(sys: System)
    ensures forall n :: Bad(sys, n, AskPoll) <==> sys.polls(n) != Running
    ensures forall n :: Bad(sys, n, AskAtomic) <==> !sys.writes(n).Written?
    ensures forall n :: Bad(sys, n, AskGuard) <==> sys.faults(n)
  {
  }

  lemma LaunchSteps(from: Calls)
    ensures from + [AskPoll] + [AskAtomic] + [AskGuard] == from + LAUNCH
    ensures Within(from, LAUNCH, from + [AskPoll]) && Within(from, LAUNCH, from + [AskPoll] + [AskAtomic])
    ensures Within(from, LAUNCH, from + LAUNCH)
    ensures from + [AskPoll] != from + LAUNCH && from + [AskPoll] + [AskAtomic] != from + LAUNCH
  {
  }

  /** From a pinned child to a worker that runs its role. */
  method Launch(owned: seq<OwnedWorker>, o: OwnedWorker, preserve: seq<Record>, sys: System)
    returns (ok: bool, touched: bool)
    requires Valid(owned, sys) && o in owned && o.record.Some?
    modifies o`record, sys`calls, sys`lastPoll, sys`gone, sys`pidfile
    ensures Valid(owned, sys) && o.record.Some?
    ensures !touched ==> sys.pidfile == old(sys.pidfile)
    ensures ok ==> !o.record.value.provisional && touched
    ensures old(sys.calls) <= sys.calls && (ok <==> !Troubled(sys, old(sys.calls), sys.calls))
    ensures (touched <==> !NoWrites(old(sys.calls), sys.calls)) && NoStops(old(sys.calls), sys.calls)
    ensures Within(old(sys.calls), LAUNCH, sys.calls) && (ok ==> sys.calls == old(sys.calls) + LAUNCH)
    ensures ok || sys.calls == old(sys.calls) + LAUNCH ==> sys.pidfile == Structured(preserve + old(OwnedRecords(owned)))
  {
    hide *;
    ghost var from := sys.calls;
    LaunchSteps(from);
    WriteLands();
    Kinds(sys);
    NoCalls(sys, from);
    ok, touched := false, false;
    OneCall(sys, from, sys.calls, AskPoll);
    var status := sys.Poll(o);
    if !status.Running? {
      return;
    }
    touched := true;
    OneCall(sys, from, sys.calls, AskAtomic);
    var written := sys.WriteAtomic(Structured(preserve + OwnedRecords(owned)));
    if !written {
      return;
    }
    OneCall(sys, from, sys.calls, AskGuard);
    var late := sys.Raises();
    if late {
      return;
    }
    Confirm(owned, o, sys);
    ok := true;
  }

  /** The record stops being provisional once the worker runs its role. */
  method Confirm(owned: seq<OwnedWorker>, o: OwnedWorker, sys: System)
    requires Valid(owned, sys) && o in owned && o.record.Some?
    modifies o`record
    ensures Valid(owned, sys) && o.record == Some(old(o.record).value.(provisional := false))
  {
    o.record := Some(o.record.value.(provisional := false));
  }

  /** Workers that run the first `n` roles, each with a confirmed record. */
  ghost predicate Launched(owned: seq<OwnedWorker>, roles: seq<string>, n: nat)
    reads owned
  {
    && n <= |roles| && |owned| == n
    && forall k :: 0 <= k < n ==>
         owned[k].role == roles[k] && owned[k].record.Some? && !owned[k].record.value.provisional
  }

  lemma AttemptsFresh(owned: seq<OwnedWorker>, roles: seq<string>, attempts: seq<Attempt>, i: nat)
    requires i < |attempts| == |roles| && DistinctAttempts(attempts) && Owns(owned, roles, attempts, i)
    ensures Fresh(owned, attempts[i])
  {
    hide Flawed;
  }

  /** One more attempt: its child is owned, if there is one. */
  lemma AttemptMade(
      owned0: seq<OwnedWorker>, owned: seq<OwnedWorker>, roles: seq<string>, attempts: seq<Attempt>, i: nat)
    requires i < |attempts| == |roles| && |owned0| == i && Owns(owned0, roles, attempts, i)
    requires Claimed(owned0, owned, roles[i], attempts[i])
    ensures Owns(owned, roles, attempts, i + 1)
  {
    assert attempts[i].Child? ==> owned == owned0 + [owned[|owned0|]];
  }

  /** The owners after an attempt: one more exactly if it made a child. */
  ghost predicate Claimed(owned0: seq<OwnedWorker>, owned: seq<OwnedWorker>, role: string, a: Attempt) {
    match a
    case NoChild => owned == owned0
    case Child(pid, token, pidfd, _, _) =>
      && |owned| == |owned0| + 1 && owned[..|owned0|] == owned0
      && var o := owned[|owned0|];
         o.role == role && o.pid == pid && o.token == token && o.issued == pidfd
  }

  lemma NoneFlawed(attempts: seq<Attempt>, i: nat)
    requires i < |attempts| && Sound(attempts, i) && !Flawed(attempts[i])
    ensures Sound(attempts, i + 1)
  {
    hide Flawed;
  }

  lemma LaunchedOne(owned: seq<OwnedWorker>, roles: seq<string>, i: nat)
    requires i < |roles| && |owned| == i + 1 && Launched(owned[..i], roles, i)
    requires owned[i].role == roles[i] && owned[i].record.Some? && !owned[i].record.value.provisional
    ensures Launched(owned, roles, i + 1)
  {
    assert forall k :: 0 <= k < i ==> owned[..i][k] == owned[k];
  }

  lemma FlawedIf(a: Attempt)
    ensures Flawed(a) <==> a.NoChild? || a.pidfd.None? || a.start.None? || a.interrupted
  {
  }

  lemma ClaimedIf(owned0: seq<OwnedWorker>, role: string, a: Attempt)
    ensures a.NoChild? ==> Claimed(owned0, owned0, role, a)
  {
  }

  lemma ChildClaimed(owned0: seq<OwnedWorker>, owned: seq<OwnedWorker>, role: string, a: Attempt)
    requires a.Child? && |owned| == |owned0| + 1 && owned[..|owned0|] == owned0
    requires var o := owned[|owned0|]; o.role == role && o.pid == a.pid && o.token == a.token && o.issued == a.pidfd
    ensures Claimed(owned0, owned, role, a)
  {
  }

  /** Claim and launch one worker. */
  method SpawnOne(role: string, a: Attempt, owned0: seq<OwnedWorker>, preserve: seq<Record>, sys: System)
    returns (ok: bool, owned: seq<OwnedWorker>, touched: bool)
    requires Valid(owned0, sys) && Fresh(owned0, a) && sys.closed == []
    modifies sys`calls, sys`lastPoll, sys`gone, sys`pidfile
    ensures Valid(owned, sys) && owned0 <= owned && Claimed(owned0, owned, role, a)
    ensures forall o :: o in owned && o !in owned0 ==> fresh(o)
    ensures !touched ==> sys.pidfile == old(sys.pidfile)
    ensures ok ==>
              && |owned| == |owned0| + 1 && owned[|owned0|].role == role && !Flawed(a)
              && owned[|owned0|].record.Some? && !owned[|owned0|].record.value.provisional
    ensures old(sys.calls) <= sys.calls && (ok <==> !Flawed(a) && !Troubled(sys, old(sys.calls), sys.calls))
    ensures (touched <==> !NoWrites(old(sys.calls), sys.calls)) && (ok ==> touched)
    ensures NoStops(old(sys.calls), sys.calls)
    ensures Within(old(sys.calls), LAUNCH, sys.calls) && (ok ==> sys.calls == old(sys.calls) + LAUNCH)
  {
    hide *;
    NoCalls(sys, sys.calls);
    WithinAll(sys.calls, LAUNCH);
    FlawedIf(a);
    ClaimedIf(owned0, role, a);
    ok, owned, touched := false, owned0, false;
    if a.NoChild? {
      return;
    }
    owned := Claim(role, a, owned0, sys);
    ChildClaimed(owned0, owned, role, a);
    if a.pidfd.None? || a.start.None? || a.interrupted {
      return;
    }
    ok, touched := Launch(owned, owned[|owned0|], preserve, sys);
  }

  lemma NothingYet(attempts: seq<Attempt>, roles: seq<string>, sys: System)
    requires |attempts| == |roles|
    ensures Valid([], sys) && Owns([], roles, attempts, 0) && Sound(attempts, 0) && Launched([], roles, 0)
  {
  }

  /** Why not every role was spawned: the last attempt made was flawed, or some call made until then went wrong. */
  ghost predicate Excused(attempts: seq<Attempt>, n: nat, sys: System, from: Calls, to: Calls) {
    0 < n <= |attempts| && Sound(attempts, n - 1) && (Flawed(attempts[n - 1]) || Troubled(sys, from, to))
  }

  lemma SpawnFailed(attempts: seq<Attempt>, i: nat, sys: System, from: Calls, at: Calls, to: Calls)
    requires i < |attempts| && from <= at <= to && Sound(attempts, i) && (Flawed(attempts[i]) || Troubled(sys, at, to))
    ensures Excused(attempts, i + 1, sys, from, to)
  {
    hide Flawed, Sound, Troubled;
    Joins(sys, from, at, to);
  }

  /** The first `i` roles are launched. */
  ghost predicate SpawnedSoFar(owned: seq<OwnedWorker>, roles: seq<string>, attempts: seq<Attempt>, i: nat)
    requires |attempts| == |roles|
    reads owned
  {
    |owned| == i && Owns(owned, roles, attempts, i) && Sound(attempts, i) && Launched(owned, roles, i)
  }

  lemma NothingSpawned(attempts: seq<Attempt>, roles: seq<string>, sys: System)
    requires |attempts| == |roles|
    ensures Valid([], sys) && SpawnedSoFar([], roles, attempts, 0)
  {
    NothingYet(attempts, roles, sys);
  }

  lemma OneMoreSpawned(
      owned0: seq<OwnedWorker>, owned: seq<OwnedWorker>, roles: seq<string>, attempts: seq<Attempt>, i: nat)
    requires i < |attempts| == |roles| && |owned0| == i && Owns(owned0, roles, attempts, i) && Sound(attempts, i)
    requires Claimed(owned0, owned, roles[i], attempts[i]) && |owned| == i + 1 && !Flawed(attempts[i])
    requires owned0 <= owned && Launched(owned0, roles, i)
    requires owned[i].role == roles[i] && owned[i].record.Some? && !owned[i].record.value.provisional
    ensures SpawnedSoFar(owned, roles, attempts, i + 1)
  {
    hide Launched, Flawed, Claimed;
    AttemptMade(owned0, owned, roles, attempts, i);
    NoneFlawed(attempts, i);
    assert owned[..i] == owned0;
    LaunchedOne(owned, roles, i);
  }

  /** `i` launches went well. */
  ghost predicate LaunchedWell(sys: System, from: Calls, i: nat, touched: bool, to: Calls) {
    && to == from + Rep(i, LAUNCH) && !Troubled(sys, from, to)
    && (touched <==> !NoWrites(from, to)) && NoStops(from, to)
  }

  lemma NoLaunchYet(sys: System, from: Calls)
    ensures LaunchedWell(sys, from, 0, false, from)
  {
    NoCalls(sys, from);
    NoneYet(from, LAUNCH);
  }

  lemma OneMoreLaunch(sys: System, from: Calls, i: nat, n: nat, touched: bool, at: Calls, wrote: bool, to: Calls)
    requires LaunchedWell(sys, from, i, touched, at) && i < n && Within(at, LAUNCH, to)
    requires (wrote <==> !NoWrites(at, to)) && NoStops(at, to)
    ensures from <= to && Within(from, Rep(n, LAUNCH), to)
    ensures (touched || wrote <==> !NoWrites(from, to)) && NoStops(from, to)
    ensures to == at + LAUNCH && !Troubled(sys, at, to) ==> LaunchedWell(sys, from, i + 1, touched || wrote, to)
  {
    hide Troubled, NoWrites, NoStops;
    RepWithin(from, i, n, LAUNCH, to);
    OneMoreBlock(from, i, i + 1, LAUNCH);
    Joins(sys, from, at, to);
  }

  lemma AllLaunched(sys: System, from: Calls, n: nat, touched: bool, to: Calls)
    requires LaunchedWell(sys, from, n, touched, to)
    ensures Within(from, Rep(n, LAUNCH), to) && to == from + Rep(n, LAUNCH) && from <= to && !Troubled(sys, from, to)
    ensures (touched <==> !NoWrites(from, to)) && NoStops(from, to)
  {
    WithinAll(from, Rep(n, LAUNCH));
  }

  /** Spawn one role after the other until one fails. */
  method SpawnAll(roles: seq<string>, attempts: seq<Attempt>, preserve: seq<Record>, sys: System)
    returns (ok: bool, owned: seq<OwnedWorker>, touched: bool, ghost made: nat)
    requires |attempts| == |roles| && DistinctAttempts(attempts) && sys.closed == []
    modifies sys`calls, sys`lastPoll, sys`gone, sys`pidfile
    ensures Valid(owned, sys) && Owns(owned, roles, attempts, made) && forall o :: o in owned ==> fresh(o)
    ensures !touched ==> sys.pidfile == old(sys.pidfile)
    ensures ok ==> made == |roles| && Sound(attempts, made) && Launched(owned, roles, |roles|)
    ensures old(sys.calls) <= sys.calls && (ok ==> !Troubled(sys, old(sys.calls), sys.calls))
    ensures !ok ==> Excused(attempts, made, sys, old(sys.calls), sys.calls)
    ensures (touched <==> !NoWrites(old(sys.calls), sys.calls)) && NoStops(old(sys.calls), sys.calls)
    ensures Within(old(sys.calls), Rep(|roles|, LAUNCH), sys.calls)
    ensures ok ==> sys.calls == old(sys.calls) + Rep(|roles|, LAUNCH)
  {
    ok, owned, touched, made := false, [], false, 0;
    hide *;
    ghost var from := sys.calls;
    NoLaunchYet(sys, from);
    NothingSpawned(attempts, roles, sys);
    var i := 0;
    while i < |roles|
      invariant 0 <= i <= |roles|
      invariant Valid(owned, sys) && forall o :: o in owned ==> fresh(o)
      invariant SpawnedSoFar(owned, roles, attempts, i)
      invariant !touched ==> sys.pidfile == old(sys.pidfile)
      invariant LaunchedWell(sys, from, i, touched, sys.calls)
    {
      SoFarMeans(owned, roles, attempts, i);
      AttemptsFresh(owned, roles, attempts, i);
      AllLaunched(sys, from, i, touched, sys.calls);
      ghost var owned0, at, touched0 := owned, sys.calls, touched;
      var launched, wrote;
      launched, owned, wrote := SpawnOne(roles[i], attempts[i], owned, preserve, sys);
      made := i + 1;
      OneMoreLaunch(sys, from, i, |roles|, touched0, at, wrote, sys.calls);
      touched := touched || wrote;
      if !launched {
        AttemptMade(owned0, owned, roles, attempts, i);
        SpawnFailed(attempts, i, sys, from, at, sys.calls);
        return;
      }
      OneMoreSpawned(owned0, owned, roles, attempts, i);
      i := i + 1;
    }
    SoFarMeans(owned, roles, attempts, i);
    AllLaunched(sys, from, i, touched, sys.calls);
    made := i;
    ok := true;
  }

  lemma SoFarMeans(owned: seq<OwnedWorker>, roles: seq<string>, attempts: seq<Attempt>, i: nat)
    requires |attempts| == |roles| && SpawnedSoFar(owned, roles, attempts, i)
    ensures |owned| == i && Owns(owned, roles, attempts, i) && Sound(attempts, i) && Launched(owned, roles, i)
  {
  }

  /** Every owner's last poll said it was running. */
  ghost predicate EverybodyRuns(owned: seq<OwnedWorker>, polls: map<OwnedWorker, PollResult>) {
    forall o :: o in owned ==> o in polls && polls[o] == Running
  }

  /** Nobody has exited since the start. */
  method AllRunning(owned: seq<OwnedWorker>, sys: System) returns (ok: bool)
    modifies sys`calls, sys`lastPoll, sys`gone
    ensures ok ==> EverybodyRuns(owned, sys.lastPoll)
    ensures NoWrites(old(sys.calls), sys.calls) && (ok <==> !Troubled(sys, old(sys.calls), sys.calls))
    ensures NoStops(old(sys.calls), sys.calls)
    ensures Within(old(sys.calls), Rep(|owned|, POLL), sys.calls)
    ensures ok ==> sys.calls == old(sys.calls) + Rep(|owned|, POLL)
  {
    Kinds(sys);
    hide Bad, Troubled, NoWrites, NoStops, Rep, Within;
    ghost var from := sys.calls;
    NoneYet(from, POLL);
    NoCalls(sys, from);
    var i := 0;
    while i < |owned|
      invariant 0 <= i <= |owned| && from <= sys.calls
      invariant NoWrites(from, sys.calls) && NoStops(from, sys.calls) && !Troubled(sys, from, sys.calls)
      invariant forall k :: 0 <= k < i ==> owned[k] in sys.lastPoll && sys.lastPoll[owned[k]] == Running
      invariant sys.calls == from + Rep(i, POLL)
    {
      OneMoreBlock(from, i, i + 1, POLL);
      WithinAll(sys.calls, POLL);
      RepWithin(from, i, |owned|, POLL, sys.calls + POLL);
      OneCall(sys, from, sys.calls, AskPoll);
      var status := sys.Poll(owned[i]);
      if !status.Running? {
        return false;
      }
      i := i + 1;
    }
    WithinAll(from, Rep(i, POLL));
    ok := true;
  }

  /** The pidfile, read back, names every owner by its own record. */
  ghost predicate AllRecorded(owned: seq<OwnedWorker>, p: Pidfile)
    reads owned
  {
    forall o :: o in owned ==> o.record.Some? && Recorded(LinesOf(p), o.pid) == o.record
  }

  method CheckRecorded(owned: seq<OwnedWorker>, p: Pidfile) returns (ok: bool)
    ensures ok <==> AllRecorded(owned, p)
  {
    var lines := LinesOf(p);
    var i := 0;
    while i < |owned|
      invariant 0 <= i <= |owned|
      invariant forall k :: 0 <= k < i ==> owned[k].record.Some? && Recorded(lines, owned[k].pid) == owned[k].record
    {
      if owned[i].record.None? || Recorded(lines, owned[i].pid) != owned[i].record {
        assert owned[i] in owned;
        return false;
      }
      i := i + 1;
    }
    ok := true;
  }

  lemma {:induction false} RecordedFinds(ordered: seq<Record>, r: Record)
    requires Increasing(ordered) && r in ordered
    ensures Recorded(Entries(ordered), r.pid) == Some(r)
  {
    var n := |ordered| - 1;
    var k :| 0 <= k < |ordered| && ordered[k] == r;
    assert Entries(ordered)[..n] == Entries(ordered[..n]);
    if k < n {
      assert ordered[..n][k] == r;
      RecordedFinds(ordered[..n], r);
    }
  }

  lemma {:induction false} OwnedRecordAt(owned: seq<OwnedWorker>, k: nat) returns (at: nat)
    requires AllConsistent(owned) && Separate(owned) && k < |owned|
    requires AllKnown(owned)
    ensures at == k && |OwnedRecords(owned)| == |owned| && OwnedRecords(owned)[k] == owned[k].record.value
    ensures forall j :: k < j < |owned| ==> OwnedRecords(owned)[j].pid != owned[k].pid
  {
    at := k;
    OwnedRecordsList(owned);
    assert owned[k].Consistent();
    forall j | k < j < |owned|
      ensures OwnedRecords(owned)[j].pid != owned[k].pid
    {
      assert owned[j].Consistent() && owned[k].pid != owned[j].pid;
    }
  }

  lemma {:induction false} OwnedRecordsList(owned: seq<OwnedWorker>)
    requires AllKnown(owned)
    ensures |OwnedRecords(owned)| == |owned|
    ensures forall i :: 0 <= i < |owned| ==> OwnedRecords(owned)[i] == owned[i].record.value
  {
    if owned != [] {
      var n := |owned| - 1;
      assert forall i :: 0 <= i < n ==> owned[..n][i] == owned[i];
      OwnedRecordsList(owned[..n]);
    }
  }

  /** A pidfile just written reads back as written, whatever was preserved beside it. */
  lemma ReadBackAgrees(owned: seq<OwnedWorker>, preserve: seq<Record>)
    requires Separate(owned) && AllConsistent(owned) && AllKnown(owned)
    ensures AllRecorded(owned, Structured(preserve + OwnedRecords(owned)))
  {
    var records := preserve + OwnedRecords(owned);
    forall o | o in owned
      ensures o.record.Some? && Recorded(LinesOf(Structured(records)), o.pid) == o.record
    {
      var k :| 0 <= k < |owned| && owned[k] == o;
      var at := OwnedRecordAt(owned, k);
      assert o.Consistent();
      ReadBackOne(preserve, OwnedRecords(owned), k);
    }
  }

  lemma ReadBackOne(preserve: seq<Record>, records: seq<Record>, k: nat)
    requires k < |records| && forall j :: k < j < |records| ==> records[j].pid != records[k].pid
    ensures Recorded(LinesOf(Structured(preserve + records)), records[k].pid) == Some(records[k])
  {
    var all := preserve + records;
    var m := |preserve| + k;
    assert all[m] == records[k];
    forall j | m < j < |all|
      ensures all[j].pid != all[m].pid
    {
      assert all[j] == records[j - |preserve|];
    }
    ByPidKeeps(all, m);
    ByPidIncreases(all);
    RecordedFinds(ByPid(all), records[k]);
  }

  /** The final write, read back and checked against every owner. */
  method WriteBack(owned: seq<OwnedWorker>, preserve: seq<Record>, sys: System) returns (ok: bool)
    requires Separate(owned) && AllConsistent(owned) && AllKnown(owned)
    modifies sys`calls, sys`pidfile
    ensures ok ==> sys.pidfile == Structured(preserve + OwnedRecords(owned)) && AllRecorded(owned, sys.pidfile)
    ensures sys.calls == old(sys.calls) + [AskAtomic] && (ok <==> !Troubled(sys, old(sys.calls), sys.calls))
  {
    hide *;
    Kinds(sys);
    WriteLands();
    TroubledByOne(sys, sys.calls, AskAtomic);
    ReadBackAgrees(owned, preserve);
    ok := sys.WriteAtomic(Structured(preserve + OwnedRecords(owned)));
    if ok {
      ok := CheckRecorded(owned, sys.pidfile);
    }
  }

  lemma WriteIs()
    ensures WRITE == [AskAtomic]
  {
  }

  lemma WriteLands()
    ensures forall before, payload :: AfterAtomic(Written, before, payload) == payload
  {
  }

  /** The pidfile says so, and everybody still runs. */
  method Republish(owned: seq<OwnedWorker>, preserve: seq<Record>, sys: System) returns (ok: bool)
    requires Separate(owned) && AllConsistent(owned) && AllKnown(owned)
    modifies sys`calls, sys`lastPoll, sys`gone, sys`pidfile
    ensures ok ==> sys.pidfile == Structured(preserve + OwnedRecords(owned)) && AllRecorded(owned, sys.pidfile)
    ensures ok ==> EverybodyRuns(owned, sys.lastPoll)
    ensures old(sys.calls) <= sys.calls && (ok <==> !Troubled(sys, old(sys.calls), sys.calls))
    ensures !NoWrites(old(sys.calls), sys.calls) && NoStops(old(sys.calls), sys.calls)
    ensures Within(old(sys.calls), WRITE + Rep(|owned|, POLL), sys.calls)
    ensures ok ==> sys.calls == old(sys.calls) + (WRITE + Rep(|owned|, POLL))
  {
    WriteIs();
    hide *;
    ghost var from := sys.calls;
    NoCalls(sys, from);
    OneCall(sys, from, from, AskAtomic);
    WithinAll(from, WRITE);
    ok := WriteBack(owned, preserve, sys);
    WithinFirst(from, WRITE, Rep(|owned|, POLL), sys.calls);
    ghost var checked := sys.calls;
    if ok {
      ok := AllRunning(owned, sys);
      WithinThen(from, WRITE, Rep(|owned|, POLL), sys.calls);
      LaterCalls(checked, sys.calls);
      Joins(sys, from, checked, sys.calls);
    }
  }

  lemma LaterCalls(a: Calls, b: Calls)
    requires NoWrites(a, b)
    ensures a <= b
  {
  }

  // ---------------------------------------------------------------- undoing a failed start

  /** An asynchronous exception cut the pass short. */
  ghost predicate Cut(sys: System, p: Pass) {
    Struck(sys, p.from, p.to)
  }

  /** The passes that undo a start: a second one exactly when the first is cut short, from where that one stopped. */
  ghost predicate Passes(owned: seq<OwnedWorker>, sys: System, original: Pidfile, restore: bool, passes: seq<Pass>) {
    && 1 <= |passes| <= 2
    && (forall i :: 0 <= i < |passes| ==> Ran(owned, sys, original, restore, passes[i]))
    && (|passes| == 2 <==> Cut(sys, passes[0]))
    && (|passes| == 2 ==> passes[1].from == passes[0].to && passes[1].found == passes[0].left)
  }

  function Last(passes: seq<Pass>): Pass
    requires passes != []
  {
    passes[|passes| - 1]
  }

  /** A rollback cut short is run once more; only a second exception leaves it undone. */
  method UndoStart(owned: seq<OwnedWorker>, sys: System, original: Pidfile, restore: bool)
    returns (undone: bool, ghost passes: seq<Pass>)
    requires Valid(owned, sys)
    modifies owned, sys
    ensures Valid(owned, sys) && Passes(owned, sys, original, restore, passes)
    ensures passes[0].from == old(sys.calls) && passes[0].found == old(sys.pidfile)
    ensures Last(passes).to == sys.calls && Last(passes).left == sys.pidfile
    ensures undone <==> !Cut(sys, Last(passes))
    ensures undone ==> Last(passes).wrote && Last(passes).polls == sys.lastPoll
    ensures undone ==> Released(owned) && StoppedLast(owned, sys)
  {
    hide Valid, Ran, Struck, Released, Stopped, Graceful, SignalsOwned;
    var r: Outcome;
    ghost var p;
    r, p := Rollback(owned, sys, original, restore);
    passes := [p];
    if r.Interrupted? {
      r, p := Rollback(owned, sys, original, restore);
      passes := passes + [p];
    }
    undone := r.Finished?;
  }

  /** The last payload to land puts the original file back. */
  ghost predicate LandsBack(sys: System, original: Pidfile, records: seq<Record>, before: Pidfile, c: Calls) {
    match LandingAt(sys, records != [], c)
    case Kept => before == original
    case Full => records == []
    case Bare => Base(original) == original
    case Structure => Structured(records) == original
    case Debris(left) => left == original
  }

  lemma LandsBackIff(sys: System, original: Pidfile, records: seq<Record>, before: Pidfile, c: Calls)
    ensures FileAfter(sys, original, records, before, c) == original <==> LandsBack(sys, original, records, before, c)
  {
    hide LandingAt, Structured;
    LongerThanBefore(original, records);
  }

  lemma LongerThanBefore(original: Pidfile, records: seq<Record>)
    ensures Restored(original, records) == original <==> records == []
  {
    if records != [] {
      assert |LinesOf(Restored(original, records))| > |LinesOf(original)|;
    }
  }

  /**
   Whether undoing without survivors leaves the file as it was before the start. If the
   start had written, the last pass must put it back. If it had not, no pass writes
   unless the first found survivors, published them and was then cut short.
   */
  ghost predicate PutsBack(sys: System, original: Pidfile, restore: bool, passes: seq<Pass>)
    requires passes != []
  {
    if restore then LandsBack(sys, original, [], Last(passes).found, Last(passes).at)
    else
      || |passes| == 1 || !passes[0].wrote || passes[0].records == []
      || LandsBack(sys, original, passes[0].records, original, passes[0].at)
  }

  /** Exactly when a start undone without survivors leaves the pidfile as it found it. */
  lemma UndoneRestoresIff(
      owned: seq<OwnedWorker>, sys: System, original: Pidfile, restore: bool, passes: seq<Pass>)
    requires Passes(owned, sys, original, restore, passes) && Last(passes).wrote && Last(passes).survivors == []
    requires !restore ==> passes[0].found == original
    ensures Last(passes).left == original <==> PutsBack(sys, original, restore, passes)
  {
    hide FileAfter, LandsBack, Answered, AreSurvivors, Passive, AfterStage, Struck;
    var p := Last(passes);
    assert Ran(owned, sys, original, restore, p);
    assert p.records == [] by { Nobody(p); }
    LandsBackIff(sys, original, [], p.found, p.at);
    if !restore && |passes| == 2 {
      assert Ran(owned, sys, original, restore, passes[0]);
      LandsBackIff(sys, original, passes[0].records, original, passes[0].at);
    }
  }

  lemma Nobody(p: Pass)
    requires Names(p.survivors, p.records) && p.survivors == []
    ensures p.records == []
  {
  }

  /** In particular it does if nothing was written before and no exception landed, or if a writer succeeds. */
  lemma UsuallyRestores(sys: System, original: Pidfile, restore: bool, passes: seq<Pass>)
    requires passes != []
    requires if restore then PublicationAt(sys, false, Last(passes).at) != Nothing else |passes| == 1
    ensures PutsBack(sys, original, restore, passes)
  {
    PublishedLands(sys, false, Last(passes).at);
  }

  datatype StartOutcome = Started | Undone | Abandoned

  /** `records` are exactly the owners' own. */
  ghost predicate OwnersRecords(owned: seq<OwnedWorker>, records: seq<Record>)
    reads owned
  {
    && (forall o :: o in owned ==> o.record.Some? && o.record.value in records)
    && (forall x :: x in records ==> exists o :: o in owned && o.record == Some(x))
  }

  lemma StopAsked(from: Calls, to: Calls)
    requires from + [AskInterrupt] <= to
    ensures !NoStops(from, to)
  {
    assert (from + [AskInterrupt])[|from|] == to[|from|];
  }

  /** Closing the descriptors changes no record. */
  method CloseStarted(owned: seq<OwnedWorker>, roles: seq<string>, records: seq<Record>, sys: System)
    returns (r: Outcome)
    requires Valid(owned, sys) && Launched(owned, roles, |roles|) && AllRecorded(owned, sys.pidfile)
    requires OwnersRecords(owned, records)
    modifies owned, sys`calls, sys`closed
    ensures Valid(owned, sys)
    ensures Launched(owned, roles, |roles|) && AllRecorded(owned, sys.pidfile) && OwnersRecords(owned, records)
    ensures r.Finished? ==> Released(owned)
    ensures NoWrites(old(sys.calls), sys.calls) && (r.Interrupted? <==> Struck(sys, old(sys.calls), sys.calls))
    ensures r.Interrupted? || r.failures != [] <==> Troubled(sys, old(sys.calls), sys.calls)
    ensures Troubled(sys, old(sys.calls), sys.calls) ==> !NoStops(old(sys.calls), sys.calls)
  {
    hide Valid, Recorded, LinesOf, Struck, Troubled, NoWrites, NoStops;
    ghost var from := sys.calls;
    r := CloseOwned(owned, sys);
    if owned == [] {
      NoCalls(sys, from);
    } else {
      StopAsked(from, sys.calls);
    }
    assert forall k :: 0 <= k < |owned| ==> owned[k] in owned;
  }

  /** The rollback after a failing close is not run again; it changes no record that was there. */
  method UndoClosing(owned: seq<OwnedWorker>, roles: seq<string>, sys: System, original: Pidfile)
    returns (undone: bool, ghost p: Pass)
    requires Valid(owned, sys) && Launched(owned, roles, |roles|)
    modifies owned, sys
    ensures Valid(owned, sys) && Launched(owned, roles, |roles|)
    ensures Ran(owned, sys, original, true, p) && p.from == old(sys.calls) && p.to == sys.calls && p.left == sys.pidfile
    ensures undone <==> !Cut(sys, p)
    ensures undone ==> p.wrote && p.polls == sys.lastPoll
    ensures undone ==> Released(owned) && StoppedLast(owned, sys)
  {
    hide Valid, Ran, Released, Struck, Stopped, Graceful, SignalsOwned;
    var r;
    r, p := Rollback(owned, sys, original, true);
    assert forall k :: 0 <= k < |owned| ==> owned[k] in owned;
    undone := r.Finished?;
  }

  /** What the undoing did: `passes` from the calls made when the start failed to the end. */
  ghost predicate UndoneBy(
      owned: seq<OwnedWorker>, sys: System, original: Pidfile, restore: bool, verified: bool, failed: Calls,
      passes: seq<Pass>)
  {
    && passes != [] && passes[0].from == failed
    && (if verified then |passes| == 1 && restore && Ran(owned, sys, original, restore, passes[0])
        else Passes(owned, sys, original, restore, passes))
    && (!restore ==> passes[0].found == original)
  }

  lemma UndoneOutcome(
      owned: seq<OwnedWorker>, sys: System, original: Pidfile, restore: bool, verified: bool, failed: Calls,
      passes: seq<Pass>)
    requires UndoneBy(owned, sys, original, restore, verified, failed, passes)
    ensures failed <= Last(passes).to
    ensures !Cut(sys, Last(passes)) && Last(passes).survivors == [] ==>
              (Last(passes).left == original <==> PutsBack(sys, original, restore, passes))
  {
    hide Wrote, PutsBack, FileAfter, LandsBack, Struck;
    assert Ran(owned, sys, original, restore, passes[0]) && Ran(owned, sys, original, restore, Last(passes));
    if !Cut(sys, Last(passes)) && Last(passes).survivors == [] {
      if verified {
        assert passes == [passes[0]];
        VerifiedRestoresIff(owned, sys, original, passes[0]);
      } else {
        UndoneRestoresIff(owned, sys, original, restore, passes);
      }
    }
  }

  lemma VerifiedRestoresIff(owned: seq<OwnedWorker>, sys: System, original: Pidfile, p: Pass)
    requires Ran(owned, sys, original, true, p) && p.wrote && p.survivors == []
    ensures p.left == original <==> PutsBack(sys, original, true, [p])
  {
    hide FileAfter, LandsBack, Answered, AreSurvivors, Passive, AfterStage, Struck;
    Nobody(p);
    LandsBackIff(sys, original, [], p.found, p.at);
  }

  /** An exception lands right after every write through a temporary. */
  predicate AfterAWrite(n: Calls) {
    n != [] && n[|n| - 1] == AskAtomic
  }

  /** The child runs until the pidfile has been written. */
  function RunsUntilWritten(n: Calls): PollResult {
    if AskAtomic in n then Exited else Running
  }

  /** The first pass of that run finds the child, publishes it, and is cut short. */
  lemma FirstPassPublishes(o: OwnedWorker, sys: System, p: Pass)
    requires Ran([o], sys, Absent, false, p) && p.from == []
    requires sys.interrupts == AfterAWrite && sys.polls == RunsUntilWritten
    requires (forall n :: sys.writes(n) == Written) && (forall n :: !sys.faults(n))
    ensures p.wrote && Cut(sys, p) && Lists(p.left, o.pid, o.token) && AskAtomic in p.to && p.to[|p.to| - 1] != AskAtomic
  {
    hide Lists, Structured, Restored;
    if !p.wrote {
      NoExceptionWithoutWrite(sys, p.from, p.to);
    }
    var n: Calls :| p.from <= n && n + [AskPoll] <= p.at && p.polls[o] == sys.polls(n);
    NoneWritten(p.from, n, p.at);
    assert [o][0] == o;
    SurvivorNamed([o], p, o);
    ListedBy([o], p.survivors, p.records, Absent, p.left, o);
    var settled := p.at + [AskGuard] + [AskAtomic];
    assert settled + [AskInterrupt] <= p.to && AfterAWrite(settled);
    assert p.to[|settled| - 1] == AskAtomic;
  }

  lemma NoneWritten(from: Calls, n: Calls, to: Calls)
    requires NoWrites(from, to) && from <= n <= to && AskAtomic !in from
    ensures AskAtomic !in n
  {
    forall i | 0 <= i < |n|
      ensures n[i] != AskAtomic
    {
      assert n[i] == to[i];
      if i < |from| {
        assert from[i] == to[i] && from[i] in from;
      }
    }
  }

  lemma NoExceptionWithoutWrite(sys: System, from: Calls, to: Calls)
    requires sys.interrupts == AfterAWrite && NoWrites(from, to) && (from == [] || from[|from| - 1] != AskAtomic)
    ensures !Struck(sys, from, to)
  {
    forall n: Calls | from <= n && n + [AskInterrupt] <= to
      ensures !sys.interrupts(n)
    {
      if |n| > |from| {
        assert (n + [AskInterrupt])[|n| - 1] == to[|n| - 1];
      } else {
        assert n == from;
      }
    }
  }

  lemma GoneAfterWrite(o: OwnedWorker, sys: System, polls: Polls, from: Calls, to: Calls)
    requires Answered([o], sys, polls, from, to) && sys.polls == RunsUntilWritten && AskAtomic in from
    ensures o in polls && polls[o] == Exited
  {
    assert [o][0] == o;
    var n: Calls :| from <= n && n + [AskPoll] <= to && polls[o] == sys.polls(n);
    var k :| 0 <= k < |from| && from[k] == AskAtomic;
    assert n[k] == AskAtomic;
  }

  lemma FirstIn(s: seq<OwnedWorker>)
    ensures s == [] || s[0] in s
  {
  }

  lemma NobodyLeft(o: OwnedWorker, p: Pass)
    requires AreSurvivors([o], p.survivors, p.polls) && p.polls[o] == Exited && Names(p.survivors, p.records)
    ensures p.records == []
  {
    FirstIn(p.survivors);
  }

  /** The second pass sees the child gone, and writes nothing. */
  lemma SecondPassWritesNothing(o: OwnedWorker, sys: System, p: Pass)
    requires Ran([o], sys, Absent, false, p)
    requires sys.interrupts == AfterAWrite && sys.polls == RunsUntilWritten
    requires AskAtomic in p.from && p.from[|p.from| - 1] != AskAtomic
    ensures p.wrote && !Cut(sys, p) && p.left == p.found && o in p.polls && p.polls[o] == Exited
  {
    hide Answered, AreSurvivors, Names, Struck, NoWrites, AfterAWrite, RunsUntilWritten, FileAfter, StageEnd;
    if !p.wrote {
      NoExceptionWithoutWrite(sys, p.from, p.to);
    } else {
      GoneAfterWrite(o, sys, p.polls, p.from, p.at);
      NobodyLeft(o, p);
      Joins(sys, p.from, p.at, p.to);
      NoExceptionWithoutWrite(sys, p.from, p.to);
    }
  }

  lemma TwoPasses(owned: seq<OwnedWorker>, sys: System, original: Pidfile, restore: bool, passes: seq<Pass>)
    requires Passes(owned, sys, original, restore, passes)
    ensures passes != [] && Ran(owned, sys, original, restore, passes[0])
    ensures Cut(sys, passes[0]) ==>
              && |passes| == 2 && Ran(owned, sys, original, restore, passes[1])
              && passes[1].from == passes[0].to && passes[1].found == passes[0].left && Last(passes) == passes[1]
  {
    hide Ran, Struck;
  }

  lemma OneOwner(o: OwnedWorker, sys: System)
    requires o.Consistent() && o.pidfd.Some? && o.pidfd == o.issued && sys.closed == []
    ensures Valid([o], sys)
  {
  }

  /**
   A start undone without survivors whose pidfile lists the dead worker, though nothing
   was written before, every write succeeds and nothing fails: the first pass publishes
   the child and is cut short, and the second, which finds it gone, restores nothing.
   */
  method DeadWorkerListed() returns (sys: System, o: OwnedWorker, undone: bool)
    ensures (forall n :: sys.writes(n) == Written) && (forall n :: !sys.faults(n))
    ensures undone && o in sys.lastPoll && sys.lastPoll[o] == Exited
    ensures Lists(sys.pidfile, o.pid, o.token)
  {
    sys := new System(
      Absent, RunsUntilWritten, _ => TimedOut, _ => SignalResult.Sent, _ => true, _ => None, _ => Written, _ => false,
      AfterAWrite);
    o := new OwnedWorker("watch", 7, 1, None, Some(3));
    OneOwner(o, sys);
    hide *;
    ghost var passes;
    undone, passes := UndoStart([o], sys, Absent, false);
    TwoPasses([o], sys, Absent, false, passes);
    FirstPassPublishes(o, sys, passes[0]);
    SecondPassWritesNothing(o, sys, passes[1]);
  }

  /** The start did not go through: not every attempt was made and sound, or a call until then went wrong. */
  ghost predicate Failed(attempts: seq<Attempt>, made: nat, sys: System, from: Calls, to: Calls) {
    (made == |attempts| && Troubled(sys, from, to)) || Excused(attempts, made, sys, from, to)
  }

  lemma StartBegins(from: Calls, n: nat, to: Calls)
    requires Within(from, Rep(n, LAUNCH), to)
    ensures Within(from, StartCalls(n), to)
  {
    hide Within, Rep;
    WithinFirst(from, Rep(n, LAUNCH), Rep(n, POLL) + WRITE + Rep(n, POLL), to);
    assert Rep(n, LAUNCH) + (Rep(n, POLL) + WRITE + Rep(n, POLL)) == StartCalls(n);
  }

  lemma StartPolls(from: Calls, n: nat, to: Calls)
    requires Within(from + Rep(n, LAUNCH), Rep(n, POLL), to)
    ensures Within(from, StartCalls(n), to)
    ensures to == from + Rep(n, LAUNCH) + Rep(n, POLL) ==> to == from + (Rep(n, LAUNCH) + Rep(n, POLL))
  {
    hide Within, Rep;
    WithinThen(from, Rep(n, LAUNCH), Rep(n, POLL), to);
    WithinFirst(from, Rep(n, LAUNCH) + Rep(n, POLL), WRITE + Rep(n, POLL), to);
    assert Rep(n, LAUNCH) + Rep(n, POLL) + (WRITE + Rep(n, POLL)) == StartCalls(n);
  }

  lemma StartPublishes(from: Calls, n: nat, to: Calls)
    requires Within(from + (Rep(n, LAUNCH) + Rep(n, POLL)), WRITE + Rep(n, POLL), to)
    ensures Within(from, StartCalls(n), to)
    ensures to == from + (Rep(n, LAUNCH) + Rep(n, POLL)) + (WRITE + Rep(n, POLL)) ==> to == from + StartCalls(n)
  {
    hide Within, Rep;
    WithinThen(from, Rep(n, LAUNCH) + Rep(n, POLL), WRITE + Rep(n, POLL), to);
    assert Rep(n, LAUNCH) + Rep(n, POLL) + (WRITE + Rep(n, POLL)) == StartCalls(n);
  }

  lemma LaunchedAll(owned: seq<OwnedWorker>, roles: seq<string>, n: nat)
    requires Launched(owned, roles, n)
    ensures |owned| == n
  {
  }

  /** Spawn, check, publish, and check again: the part of the start that is undone when it fails. */
  method BringUp(roles: seq<string>, attempts: seq<Attempt>, preserve: seq<Record>, sys: System)
    returns (ok: bool, owned: seq<OwnedWorker>, touched: bool, ghost made: nat)
    requires |attempts| == |roles| && DistinctAttempts(attempts) && sys.closed == []
    modifies sys`calls, sys`lastPoll, sys`gone, sys`pidfile
    ensures Valid(owned, sys) && Owns(owned, roles, attempts, made) && forall o :: o in owned ==> fresh(o)
    ensures !touched ==> sys.pidfile == old(sys.pidfile)
    ensures ok ==>
              && made == |roles| && Sound(attempts, made) && !Troubled(sys, old(sys.calls), sys.calls)
              && Launched(owned, roles, |roles|) && EverybodyRuns(owned, sys.lastPoll)
              && sys.pidfile == Structured(preserve + OwnedRecords(owned)) && AllRecorded(owned, sys.pidfile)
    ensures old(sys.calls) <= sys.calls && (!ok ==> Failed(attempts, made, sys, old(sys.calls), sys.calls))
    ensures (touched <==> !NoWrites(old(sys.calls), sys.calls)) && (ok ==> touched)
    ensures NoStops(old(sys.calls), sys.calls)
    ensures Within(old(sys.calls), StartCalls(|roles|), sys.calls)
    ensures ok ==> sys.calls == old(sys.calls) + StartCalls(|roles|)
  {
    hide *;
    ghost var from := sys.calls;
    ok, owned, touched, made := SpawnAll(roles, attempts, preserve, sys);
    ghost var spawned := sys.calls;
    StartBegins(from, |roles|, spawned);
    FailedIf(attempts, made, sys, from, spawned);
    if !ok {
      return;
    }
    LaunchedRecords(owned, roles);
    ok := AllRunning(owned, sys);
    ghost var polled := sys.calls;
    LaunchedAll(owned, roles, |roles|);
    StartPolls(from, |roles|, polled);
    LaterCalls(spawned, polled);
    Joins(sys, from, spawned, polled);
    FailedIf(attempts, made, sys, from, polled);
    if !ok {
      return;
    }
    touched := true;
    ValidParts(owned, sys);
    ok := Republish(owned, preserve, sys);
    StartPublishes(from, |roles|, sys.calls);
    Joins(sys, from, polled, sys.calls);
    FailedIf(attempts, made, sys, from, sys.calls);
  }

  /**
   `_spawn_mode_a_workers_locked`. Every role runs and is recorded exactly when every
   attempt was sound and no call went wrong. Otherwise the start is undone, unless
   asynchronous exceptions cut that short: two of them before the start was verified, or
   one while a verified start gives up its descriptors. Whichever it is, no descriptor is
   lost or closed twice; and undone without survivors, the pidfile is what it was exactly
   under the condition `PutsBack`.
   */
  method StartWorkers(roles: seq<string>, attempts: seq<Attempt>, preserve: seq<Record>, sys: System)
    returns (
      r: StartOutcome, owned: seq<OwnedWorker>, records: seq<Record>, restore: bool, verified: bool,
      ghost made: nat, ghost failed: Calls, ghost passes: seq<Pass>)
    requires |attempts| == |roles| && DistinctAttempts(attempts) && sys.closed == []
    modifies sys
    ensures Valid(owned, sys) && Owns(owned, roles, attempts, made)
    ensures r.Started? ==>
              && made == |roles| && Sound(attempts, made) && !Troubled(sys, old(sys.calls), sys.calls)
              && Launched(owned, roles, |roles|) && Released(owned)
              && OwnersRecords(owned, records) && sys.pidfile == Structured(preserve + records)
              && AllRecorded(owned, sys.pidfile)
    ensures !r.Started? ==> old(sys.calls) <= failed <= sys.calls && Failed(attempts, made, sys, old(sys.calls), failed)
    ensures !r.Started? ==>
              (restore <==> !NoWrites(old(sys.calls), failed)) && (verified <==> !NoStops(old(sys.calls), failed))
    ensures r.Undone? ==>
              && UndoneBy(owned, sys, old(sys.pidfile), restore, verified, failed, passes)
              && Last(passes).to == sys.calls && Last(passes).left == sys.pidfile && !Cut(sys, Last(passes))
              && Last(passes).polls == sys.lastPoll
              && Released(owned) && StoppedLast(owned, sys)
    ensures r.Undone? && Last(passes).survivors == [] ==>
              (sys.pidfile == old(sys.pidfile) <==> PutsBack(sys, old(sys.pidfile), restore, passes))
    ensures r.Abandoned? && passes != [] ==>
              && UndoneBy(owned, sys, old(sys.pidfile), restore, verified, failed, passes)
              && Last(passes).to == sys.calls && Last(passes).left == sys.pidfile && Cut(sys, Last(passes))
    ensures r.Abandoned? && passes == [] ==> verified && failed == sys.calls && Struck(sys, old(sys.calls), failed)
    ensures verified ==> Launched(owned, roles, |roles|)
    // Every role is launched, looked at, published and looked at again, in this order and as far as the start comes.
    ensures r.Started? ==> verified && old(sys.calls) + StartCalls(|roles|) <= sys.calls
    ensures !r.Started? ==>
              if verified then old(sys.calls) + StartCalls(|roles|) <= failed
              else Within(old(sys.calls), StartCalls(|roles|), failed)
  {
    hide *;
    var original := sys.pidfile;
    ghost var from := sys.calls;
    records, verified, passes := [], false, [];
    var ok;
    ok, owned, restore, made := BringUp(roles, attempts, preserve, sys);
    forall i | 0 <= i < |owned|
      ensures fresh(owned[i])
    {
      assert owned[i] in owned;
    }
    failed := sys.calls;
    if !ok {
      var undone;
      undone, passes := UndoStart(owned, sys, original, restore);
      UndoneIf(owned, sys, original, restore, failed, passes);
      UndoneOutcome(owned, sys, original, restore, false, failed, passes);
      r := if undone then Undone else Abandoned;
      return;
    }
    verified := true;
    records := OwnedRecords(owned);
    OwnedRecordsExact(owned, sys.pidfile);
    ghost var started := sys.calls;
    var closing := CloseStarted(owned, roles, records, sys);
    failed := sys.calls;
    LaterCalls(started, failed);
    assert old(sys.calls) + StartCalls(|roles|) <= failed;
    Joins(sys, from, started, failed);
    FailedIf(attempts, made, sys, from, failed);
    if closing.Interrupted? {
      r := Abandoned;
      return;
    }
    if closing.failures != [] {
      var undone;
      ghost var p;
      undone, p := UndoClosing(owned, roles, sys, original);
      passes := [p];
      UndoneOnce(owned, sys, original, failed, p);
      UndoneOutcome(owned, sys, original, restore, true, failed, passes);
      r := if undone then Undone else Abandoned;
      return;
    }
    r := Started;
  }

  lemma FailedIf(attempts: seq<Attempt>, made: nat, sys: System, from: Calls, to: Calls)
    ensures made == |attempts| && Troubled(sys, from, to) ==> Failed(attempts, made, sys, from, to)
    ensures Excused(attempts, made, sys, from, to) ==> Failed(attempts, made, sys, from, to)
  {
  }

  lemma UndoneIf(
      owned: seq<OwnedWorker>, sys: System, original: Pidfile, restore: bool, failed: Calls, passes: seq<Pass>)
    requires Passes(owned, sys, original, restore, passes) && passes[0].from == failed
    requires !restore ==> passes[0].found == original
    ensures passes != [] && UndoneBy(owned, sys, original, restore, false, failed, passes)
  {
    hide Passes;
    SomePass(owned, sys, original, restore, passes);
  }

  lemma SomePass(owned: seq<OwnedWorker>, sys: System, original: Pidfile, restore: bool, passes: seq<Pass>)
    requires Passes(owned, sys, original, restore, passes)
    ensures passes != []
  {
  }

  lemma UndoneOnce(owned: seq<OwnedWorker>, sys: System, original: Pidfile, failed: Calls, p: Pass)
    requires Ran(owned, sys, original, true, p) && p.from == failed
    ensures UndoneBy(owned, sys, original, true, true, failed, [p]) && Last([p]) == p
  {
    hide Ran;
  }

  lemma LaunchedRecords(owned: seq<OwnedWorker>, roles: seq<string>)
    requires Launched(owned, roles, |roles|)
    ensures AllKnown(owned)
  {
  }

  lemma OwnedRecordsExact(owned: seq<OwnedWorker>, p: Pidfile)
    requires AllRecorded(owned, p)
    ensures OwnersRecords(owned, OwnedRecords(owned))
  {
    assert forall i :: 0 <= i < |owned| ==> owned[i] in owned;
    OwnedRecordsList(owned);
    forall o | o in owned
      ensures o.record.Some? && o.record.value in OwnedRecords(owned)
    {
      var k :| 0 <= k < |owned| && owned[k] == o;
      assert OwnedRecords(owned)[k] == o.record.value;
    }
    forall x | x in OwnedRecords(owned)
      ensures exists o :: o in owned && o.record == Some(x)
    {
      var k :| 0 <= k < |owned| && OwnedRecords(owned)[k] == x;
      assert owned[k] in owned;
    }
  }

  // ---------------------------------------------------------------- admission

  predicate SameLifetime(a: Record, b: Record) {
    a.pid == b.pid && a.start == b.start && a.role == b.role
  }

  /** The records to keep in the pidfile, or a refusal when a role would be doubled or a live worker is unexpected. */
  function Admit(existing: seq<Record>, preserve: seq<Record>, roles: seq<string>): Option<seq<Record>> {
    if existing == [] then Some(preserve)
    else if exists r :: r in existing && r.role in roles then None
    else if exists r :: r in existing && forall p :: p in preserve ==> !SameLifetime(r, p) then None
    else Some(existing)
  }

  /**
   Beside live workers a start is refused exactly when one of them has a role to be started
   or is not among those the caller knows by pid, start time and role; otherwise the live
   workers are kept. Without any, the caller's list is.
   */
  lemma AdmitsIff(existing: seq<Record>, preserve: seq<Record>, roles: seq<string>)
    ensures Admit(existing, preserve, roles) == None <==>
              exists r :: r in existing &&
                (r.role in roles || forall p :: p in preserve ==> p.pid != r.pid || p.start != r.start || p.role != r.role)
    ensures var kept := Admit(existing, preserve, roles);
            kept.Some? ==> kept.value == if existing == [] then preserve else existing
  {
    if existing != [] {
      assert existing[0] in existing;
    }
  }

  lemma {:induction false} ByPidFrom(records: seq<Record>, x: Record)
    requires x in ByPid(records)
    ensures x in records
  {
    var n := |records| - 1;
    InsertMembers(records[n], ByPid(records[..n]), x);
    if x != records[n] {
      ByPidFrom(records[..n], x);
      assert x in records[..n];
    }
  }

  /** The records a start writes name each child once, and name no kept lifetime. */
  predicate OneEach(records: seq<Record>) {
    forall i, j :: 0 <= i < j < |records| ==> records[i].pid != records[j].pid
  }

  /**
   No role is started twice: the pidfile's records of the started roles are the new ones.
   Beside live workers that always holds; without any it holds exactly when the caller's
   own list, which is then written unchecked, names none of those roles.
   */
  lemma StartedRolesAreNew(existing: seq<Record>, preserve: seq<Record>, roles: seq<string>, records: seq<Record>)
    requires Admit(existing, preserve, roles).Some?
    requires OneEach(Admit(existing, preserve, roles).value + records)
    ensures var p := Structured(Admit(existing, preserve, roles).value + records);
            (forall x :: Entry(x) in LinesOf(p) && x.role in roles ==> x in records) <==>
              (existing != [] || forall k :: 0 <= k < |preserve| ==> preserve[k].role !in roles)
  {
    var kept := Admit(existing, preserve, roles).value;
    var all := kept + records;
    forall x | Entry(x) in LinesOf(Structured(all))
      ensures x in kept || x in records
    {
      var i :| 0 <= i < |LinesOf(Structured(all))| && LinesOf(Structured(all))[i] == Entry(x);
      assert ByPid(all)[i] == x;
      ByPidFrom(all, x);
    }
    if existing == [] {
      forall k | 0 <= k < |preserve|
        ensures Entry(preserve[k]) in LinesOf(Structured(all)) && preserve[k] !in records
      {
        KeptIsWritten(preserve, records, k);
      }
    }
  }

  lemma KeptIsWritten(preserve: seq<Record>, records: seq<Record>, k: nat)
    requires k < |preserve| && OneEach(preserve + records)
    ensures Entry(preserve[k]) in LinesOf(Structured(preserve + records)) && preserve[k] !in records
  {
    var all := preserve + records;
    assert all[k] == preserve[k];
    ByPidKeeps(all, k);
    var i :| 0 <= i < |ByPid(all)| && ByPid(all)[i] == preserve[k];
    assert LinesOf(Structured(all))[i] == Entry(preserve[k]);
    forall j | 0 <= j < |records|
      ensures records[j] != preserve[k]
    {
      assert all[|preserve| + j] == records[j];
    }
  }
}
