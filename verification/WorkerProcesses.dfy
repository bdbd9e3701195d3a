/**
 What a worker start owns: child processes with their lifetime handles, the system
 calls that may fail, and the pidfile.
 */
module WorkerProcesses {
  import opened Wrappers

  /** A lifetime by its procfs start ticks, or by the spawn token chosen before the fork. */
  datatype Start = Ticks(ticks: string) | ClaimedBy(token: nat)

  /** Durable ownership of one worker lifetime. */
  datatype Record = Record(pid: int, start: Start, role: string, token: nat, provisional: bool)

  datatype Line = Raw(text: string) | Entry(record: Record)

  /** `newline` says whether the last line is terminated. */
  datatype Pidfile = Absent | File(lines: seq<Line>, newline: bool)

  datatype PollResult = Exited | Running | PollRaised

  datatype WaitResult = Reaped | TimedOut | WaitRaised

  datatype SignalResult = Sent | NoSuchProcess | SignalRaised

  /** An atomic writer fails before or after the new file is in place; a direct one may leave anything. */
  datatype WriteResult = Written | FailedBefore | FailedAfter | Scrambled(left: Pidfile)

  /** The kinds of call a start makes, and the points at which an asynchronous exception may land. */
  datatype Call =
    | AskPoll | AskWait | AskSignal | AskLifetime | AskCapture | AskGuard | AskClose | AskAtomic | AskDirect
    | AskInterrupt

  /** The calls made so far, in order. */
  type Calls = seq<Call>

  class OwnedWorker {
    const role: string
    const pid: int
    const token: nat
    var record: Option<Record>
    var pidfd: Option<int>
    ghost const issued: Option<int>  // the descriptor ever opened for this worker

    constructor (role: string, pid: int, token: nat, record: Option<Record>, pidfd: Option<int>)
      requires record.Some? ==> record.value.pid == pid && record.value.token == token
      ensures Consistent() && this.pid == pid && this.role == role && this.token == token
      ensures this.record == record && this.pidfd == pidfd && issued == pidfd
    {
      this.role, this.pid, this.token, this.record, this.pidfd, this.issued := role, pid, token, record, pidfd, pidfd;
    }

    /** Its record names it, and its descriptor is the one opened for it. */
    ghost predicate Consistent()
      reads this
    {
      && (record.Some? ==> record.value.pid == pid && record.value.token == token)
      && (pidfd.Some? ==> pidfd == issued)
    }
  }

  /** System calls: each answers by an arbitrary function of the calls that came before it. */
  class System {
    var calls: Calls
    var pidfile: Pidfile
    ghost var closed: seq<int>                      // every descriptor ever passed to close
    ghost var signalled: seq<(int, int)>            // every signal tried: pid and signal number
    ghost var mismatched: set<int>                  // pids whose record no longer matched a running lifetime
    ghost var bare: set<int>                        // pids a signal was refused for, for lack of any handle
    ghost var gone: set<int>                        // pids that a poll or a wait saw exit
    ghost var lastPoll: map<OwnedWorker, PollResult>
    const polls: Calls -> PollResult
    const waits: Calls -> WaitResult
    const signals: Calls -> SignalResult
    const lifetimes: Calls -> bool                    // does the record still match a running lifetime
    const captures: Calls -> Option<string>           // start ticks, when procfs discloses them
    const writes: Calls -> WriteResult
    const faults: Calls -> bool                       // does a guarded step raise
    const interrupts: Calls -> bool                   // does an asynchronous exception land between two stages

    constructor (
        pidfile: Pidfile, polls: Calls -> PollResult, waits: Calls -> WaitResult, signals: Calls -> SignalResult,
        lifetimes: Calls -> bool, captures: Calls -> Option<string>, writes: Calls -> WriteResult, faults: Calls -> bool,
        interrupts: Calls -> bool)
      ensures calls == [] && this.pidfile == pidfile && closed == [] && signalled == [] && mismatched == {} && bare == {} && gone == {}
      ensures this.polls == polls && this.waits == waits && this.signals == signals && this.lifetimes == lifetimes
      ensures this.captures == captures && this.writes == writes && this.faults == faults && this.interrupts == interrupts
    {
      calls, this.pidfile, closed, signalled, lastPoll := [], pidfile, [], [], map[];
      mismatched, bare, gone := {}, {}, {};
      this.polls, this.waits, this.signals, this.lifetimes := polls, waits, signals, lifetimes;
      this.captures, this.writes, this.faults, this.interrupts := captures, writes, faults, interrupts;
    }

    method Poll(o: OwnedWorker) returns (r: PollResult)
      modifies `calls, `lastPoll, `gone
      ensures r == polls(old(calls)) && calls == old(calls) + [AskPoll]
      ensures lastPoll == old(lastPoll)[o := r]
      ensures gone == if r.Exited? then old(gone) + {o.pid} else old(gone)
    {
      r := polls(calls);
      calls := calls + [AskPoll];
      lastPoll := lastPoll[o := r];
      if r.Exited? {
        gone := gone + {o.pid};
      }
    }

    method Wait(o: OwnedWorker) returns (r: WaitResult)
      modifies `calls, `gone
      ensures r == waits(old(calls)) && calls == old(calls) + [AskWait]
      ensures gone == if r.Reaped? then old(gone) + {o.pid} else old(gone)
    {
      r := waits(calls);
      calls := calls + [AskWait];
      if r.Reaped? {
        gone := gone + {o.pid};
      }
    }

    method Signal(pid: int, sig: int) returns (r: SignalResult)
      modifies `calls, `signalled
      ensures r == signals(old(calls)) && calls == old(calls) + [AskSignal]
      ensures signalled == old(signalled) + [(pid, sig)]
    {
      r := signals(calls);
      calls := calls + [AskSignal];
      signalled := signalled + [(pid, sig)];
    }

    ghost method Refuse(pid: int)
      modifies `bare
      ensures bare == old(bare) + {pid}
    {
      bare := bare + {pid};
    }

    method MatchesLifetime(record: Record) returns (b: bool)
      modifies `calls, `mismatched
      ensures b == lifetimes(old(calls)) && calls == old(calls) + [AskLifetime]
      ensures mismatched == if b then old(mismatched) else old(mismatched) + {record.pid}
    {
      b := lifetimes(calls);
      calls := calls + [AskLifetime];
      if !b {
        mismatched := mismatched + {record.pid};
      }
    }

    method Capture() returns (start: Option<string>)
      modifies `calls
      ensures start == captures(old(calls)) && calls == old(calls) + [AskCapture]
    {
      start := captures(calls);
      calls := calls + [AskCapture];
    }

    /** Does an asynchronous exception land between these two stages? */
    method Interruption() returns (b: bool)
      modifies `calls
      ensures b == interrupts(old(calls)) && calls == old(calls) + [AskInterrupt]
    {
      b := interrupts(calls);
      calls := calls + [AskInterrupt];
    }

    /** Does the guarded step raise? */
    method Raises() returns (b: bool)
      modifies `calls
      ensures b == faults(old(calls)) && calls == old(calls) + [AskGuard]
    {
      b := faults(calls);
      calls := calls + [AskGuard];
    }

    /** The descriptor is consumed even when close raises. */
    method Close(fd: int) returns (raised: bool)
      modifies `calls, `closed
      ensures raised == faults(old(calls)) && calls == old(calls) + [AskClose]
      ensures closed == old(closed) + [fd]
    {
      raised := faults(calls);
      calls := calls + [AskClose];
      closed := closed + [fd];
    }

    /** Replace the file through a temporary. */
    method WriteAtomic(payload: Pidfile) returns (ok: bool)
      modifies `calls, `pidfile
      ensures ok == writes(old(calls)).Written? && calls == old(calls) + [AskAtomic]
      ensures pidfile == AfterAtomic(writes(old(calls)), old(pidfile), payload)
    {
      var w := writes(calls);
      calls := calls + [AskAtomic];
      ok := w.Written?;
      if w.Written? || w.FailedAfter? {
        pidfile := payload;
      }
    }

    /** Truncate and write in place. */
    method WriteDirect(payload: Pidfile) returns (ok: bool)
      modifies `calls, `pidfile
      ensures ok == writes(old(calls)).Written? && calls == old(calls) + [AskDirect]
      ensures pidfile == AfterDirect(writes(old(calls)), old(pidfile), payload)
    {
      var w := writes(calls);
      calls := calls + [AskDirect];
      ok := w.Written?;
      match w {
        case Written => pidfile := payload;
        case FailedBefore =>
        case FailedAfter => pidfile := payload;
        case Scrambled(left) => pidfile := left;
      }
    }
  }

  /** The file a writer that goes through a temporary leaves: the payload, or what was there. */
  function AfterAtomic(w: WriteResult, before: Pidfile, payload: Pidfile): Pidfile {
    if w.Written? || w.FailedAfter? then payload else before
  }

  /** The file a writer in place leaves, which may be anything. */
  function AfterDirect(w: WriteResult, before: Pidfile, payload: Pidfile): Pidfile {
    match w
    case Written => payload
    case FailedAfter => payload
    case FailedBefore => before
    case Scrambled(left) => left
  }

  // ---------------------------------------------------------------- runs of calls

  /** An asynchronous exception lands between calls `from` and `to`. */
  ghost predicate Struck(sys: System, from: Calls, to: Calls) {
    exists n: Calls :: from <= n && n + [AskInterrupt] <= to && sys.interrupts(n)
  }

  /** The call of this kind after `n` does not answer with success. */
  ghost predicate Bad(sys: System, n: Calls, c: Call) {
    match c
    case AskPoll => sys.polls(n) != Running
    case AskAtomic => !sys.writes(n).Written?
    case AskDirect => !sys.writes(n).Written?
    case AskGuard => sys.faults(n)
    case AskClose => sys.faults(n)
    case AskInterrupt => sys.interrupts(n)
    case _ => false
  }

  /** Some call between `from` and `to` goes wrong. */
  ghost predicate Troubled(sys: System, from: Calls, to: Calls) {
    exists n: Calls, c :: from <= n && n + [c] <= to && Bad(sys, n, c)
  }

  /** None of the calls between `from` and `to` writes the pidfile. */
  ghost predicate NoWrites(from: Calls, to: Calls) {
    from <= to && forall i :: |from| <= i < |to| ==> to[i] != AskAtomic && to[i] != AskDirect
  }

  /** Between none of them may an exception land. */
  ghost predicate NoStops(from: Calls, to: Calls) {
    from <= to && forall i :: |from| <= i < |to| ==> to[i] != AskInterrupt
  }

  lemma NoCalls(sys: System, from: Calls)
    ensures !Struck(sys, from, from) && !Troubled(sys, from, from) && NoWrites(from, from) && NoStops(from, from)
  {
  }

  /** A call that was made either was made by `b` or came after it. */
  lemma EitherSide(n: Calls, c: Call, b: Calls, to: Calls)
    requires n + [c] <= to && b <= to
    ensures n + [c] <= b || b <= n
  {
    if |n| < |b| {
      assert forall i :: 0 <= i <= |n| ==> (n + [c])[i] == b[i];
    } else {
      assert forall i :: 0 <= i < |b| ==> b[i] == (n + [c])[i];
    }
  }

  lemma StruckJoins(sys: System, a: Calls, b: Calls, to: Calls)
    requires a <= b <= to
    ensures Struck(sys, a, to) <==> Struck(sys, a, b) || Struck(sys, b, to)
  {
    if Struck(sys, a, to) {
      var n: Calls :| a <= n && n + [AskInterrupt] <= to && sys.interrupts(n);
      EitherSide(n, AskInterrupt, b, to);
    }
  }

  lemma TroubledJoins(sys: System, a: Calls, b: Calls, to: Calls)
    requires a <= b <= to
    ensures Troubled(sys, a, to) <==> Troubled(sys, a, b) || Troubled(sys, b, to)
  {
    hide Bad;
    if Troubled(sys, a, to) {
      var n: Calls, c :| a <= n && n + [c] <= to && Bad(sys, n, c);
      EitherSide(n, c, b, to);
    }
  }

  /** Two runs of calls, one after the other. */
  lemma Joins(sys: System, a: Calls, b: Calls, to: Calls)
    requires a <= b <= to
    ensures Struck(sys, a, to) <==> Struck(sys, a, b) || Struck(sys, b, to)
    ensures Troubled(sys, a, to) <==> Troubled(sys, a, b) || Troubled(sys, b, to)
    ensures NoWrites(a, to) <==> NoWrites(a, b) && NoWrites(b, to)
    ensures NoStops(a, to) <==> NoStops(a, b) && NoStops(b, to)
  {
    hide Struck, Troubled;
    StruckJoins(sys, a, b, to);
    TroubledJoins(sys, a, b, to);
  }

  lemma StruckByOne(sys: System, b: Calls, c: Call)
    ensures Struck(sys, b, b + [c]) <==> c == AskInterrupt && sys.interrupts(b)
  {
    if Struck(sys, b, b + [c]) {
      var n: Calls :| b <= n && n + [AskInterrupt] <= b + [c] && sys.interrupts(n);
      assert |n| == |b| && n == b;
      assert (n + [AskInterrupt])[|n|] == (b + [c])[|b|];
    }
  }

  lemma TroubledByOne(sys: System, b: Calls, c: Call)
    ensures Troubled(sys, b, b + [c]) <==> Bad(sys, b, c)
  {
    hide Bad;
    if Troubled(sys, b, b + [c]) {
      var n: Calls, d :| b <= n && n + [d] <= b + [c] && Bad(sys, n, d);
      assert |n| == |b| && n == b;
      assert (n + [d])[|n|] == (b + [c])[|b|];
    }
  }

  /** One call more. */
  lemma OneCall(sys: System, a: Calls, b: Calls, c: Call)
    requires a <= b
    ensures a <= b + [c]
    ensures Struck(sys, a, b + [c]) <==> Struck(sys, a, b) || (c == AskInterrupt && sys.interrupts(b))
    ensures Troubled(sys, a, b + [c]) <==> Troubled(sys, a, b) || Bad(sys, b, c)
    ensures NoWrites(a, b + [c]) <==> NoWrites(a, b) && c != AskAtomic && c != AskDirect
    ensures NoStops(a, b + [c]) <==> NoStops(a, b) && c != AskInterrupt
  {
    hide Struck, Troubled, Bad;
    Joins(sys, a, b, b + [c]);
    StruckByOne(sys, b, c);
    TroubledByOne(sys, b, c);
    assert (b + [c])[|b|] == c;
  }

  function Entries(records: seq<Record>): (r: seq<Line>)
    ensures |r| == |records| && forall i :: 0 <= i < |r| ==> r[i] == Entry(records[i])
  {
    seq(|records|, i requires 0 <= i < |records| => Entry(records[i]))
  }

  /** One record a pid, in pid order: what the structured writer stores. */
  function InsertByPid(r: Record, ordered: seq<Record>): seq<Record> {
    if ordered == [] || r.pid < ordered[0].pid then [r] + ordered
    else if r.pid == ordered[0].pid then [r] + ordered[1..]
    else [ordered[0]] + InsertByPid(r, ordered[1..])
  }

  function ByPid(records: seq<Record>): seq<Record> {
    if records == [] then []
    else InsertByPid(records[|records| - 1], ByPid(records[..|records| - 1]))
  }

  function Structured(records: seq<Record>): Pidfile {
    if records == [] then Absent else File(Entries(ByPid(records)), true)
  }

  lemma {:induction false} InsertMembers(r: Record, ordered: seq<Record>, x: Record)
    ensures r in InsertByPid(r, ordered)
    ensures x in ordered && x.pid != r.pid ==> x in InsertByPid(r, ordered)
    ensures x in InsertByPid(r, ordered) ==> x == r || x in ordered
  {
    if ordered != [] && r.pid > ordered[0].pid {
      InsertMembers(r, ordered[1..], x);
    }
  }

  /** The structured file holds every record that no later one of its pid replaces. */
  lemma {:induction false} ByPidKeeps(records: seq<Record>, k: nat)
    requires k < |records| && forall j :: k < j < |records| ==> records[j].pid != records[k].pid
    ensures records[k] in ByPid(records)
  {
    var n := |records| - 1;
    InsertMembers(records[n], ByPid(records[..n]), records[k]);
    if k < n {
      ByPidKeeps(records[..n], k);
    }
  }

  predicate Increasing(ordered: seq<Record>) {
    forall i, j :: 0 <= i < j < |ordered| ==> ordered[i].pid < ordered[j].pid
  }

  lemma FrontIncreases(r: Record, rest: seq<Record>)
    requires Increasing(rest) && forall x :: x in rest ==> r.pid < x.pid
    ensures Increasing([r] + rest)
  {
    forall i, j | 0 <= i < j < |[r] + rest|
      ensures ([r] + rest)[i].pid < ([r] + rest)[j].pid
    {
      assert rest[j - 1] in rest;
    }
  }

  lemma FirstIsLeast(ordered: seq<Record>)
    requires Increasing(ordered) && ordered != []
    ensures Increasing(ordered[1..]) && forall x :: x in ordered[1..] ==> ordered[0].pid < x.pid && x in ordered
    ensures forall x :: x in ordered ==> ordered[0].pid <= x.pid
  {
  }

  lemma {:induction false} InsertIncreases(r: Record, ordered: seq<Record>)
    requires Increasing(ordered)
    ensures Increasing(InsertByPid(r, ordered))
    ensures forall x :: x in InsertByPid(r, ordered) ==> x == r || x in ordered
  {
    hide Increasing;
    if ordered == [] {
      FrontIncreases(r, []) by {
        NothingIncreases();
      }
    } else {
      FirstIsLeast(ordered);
      if r.pid < ordered[0].pid {
        FrontIncreases(r, ordered);
      } else if r.pid == ordered[0].pid {
        FrontIncreases(r, ordered[1..]);
      } else {
        InsertIncreases(r, ordered[1..]);
        FrontIncreases(ordered[0], InsertByPid(r, ordered[1..]));
      }
    }
  }

  lemma NothingIncreases()
    ensures Increasing([])
  {
  }

  /** One record a pid. */
  lemma {:induction false} ByPidIncreases(records: seq<Record>)
    ensures Increasing(ByPid(records))
  {
    if records != [] {
      ByPidIncreases(records[..|records| - 1]);
      InsertIncreases(records[|records| - 1], ByPid(records[..|records| - 1]));
    }
  }
}
