/**
 Holding back speech while the operator is being recorded: the two polling loops
 that decide when a reply may be played. Time is in microsecond ticks.
 */
module SpeechDeferral {
  import opened Wrappers

  /** One look at whether bound speech capture is open. */
  datatype Capture = Capture(active: bool, reason: Option<string>, sources: seq<string>, mode: string)

  /** A look, and when it was finished. */
  datatype Sighting = Sighting(at: int, active: bool)

  /** A reading of the operator's quiet, and how many looks there had been by then. */
  datatype Reading = Reading(looks: nat, quiet: Option<int>)

  datatype Gate = Idle | Quiet

  datatype Deferral = Deferral(
    deferred: bool, waitMs: int, timedOut: bool, reason: Option<string>, sources: seq<string>,
    gate: Option<Gate>, quiet: Option<int>, minQuiet: Option<int>)

  const MIN_POLL := 20_000
  const MIN_NAP := 10_000

  function Max(a: int, b: int): int {
    if a >= b then a else b
  }

  function Min(a: int, b: int): int {
    if a <= b then a else b
  }

  /** `dict.fromkeys`: the first occurrence of each. */
  function Distinct(s: seq<string>): (r: seq<string>)
    ensures forall x :: x in r <==> x in s
  {
    if s == [] then []
    else
      var n := |s| - 1;
      assert s == s[..n] + [s[n]];
      var r := Distinct(s[..n]);
      if s[n] in r then r else r + [s[n]]
  }

  /**
   The clock, the recorder and the sleeper. What the n-th call sees and how long it
   takes is fixed by arbitrary functions within the given limits.
   */
  class World {
    var now: int
    var calls: nat
    ghost var seen: seq<Sighting>
    ghost var heard: seq<Reading>
    const captures: nat -> Capture
    const quiets: nat -> Option<int>
    const cost: nat -> nat
    const oversleep: nat -> nat
    const maxCost: nat
    const maxOversleep: nat

    constructor (
        captures: nat -> Capture, quiets: nat -> Option<int>, cost: nat -> nat, oversleep: nat -> nat,
        maxCost: nat, maxOversleep: nat)
      requires forall n: nat :: 1 <= cost(n) <= maxCost
      requires forall n: nat :: oversleep(n) <= maxOversleep
      ensures Valid() && seen == [] && heard == []
    {
      now, calls, seen, heard := 0, 0, [], [];
      this.captures, this.quiets, this.cost, this.oversleep := captures, quiets, cost, oversleep;
      this.maxCost, this.maxOversleep := maxCost, maxOversleep;
    }

    ghost predicate Valid()
      reads this
    {
      && (forall n: nat :: 1 <= cost(n) <= maxCost)
      && (forall n: nat :: oversleep(n) <= maxOversleep)
    }

    /** One probe takes at least a tick. */
    method Probe() returns (s: Capture)
      requires Valid()
      modifies `now, `calls, `seen
      ensures Valid() && old(now) + 1 <= now <= old(now) + maxCost
      ensures s == captures(old(calls)) && calls == old(calls) + 1
      ensures seen == old(seen) + [Sighting(now, s.active)]
    {
      s := captures(calls);
      now := now + cost(calls);
      calls := calls + 1;
      seen := seen + [Sighting(now, s.active)];
    }

    /** How long the operator has been quiet, if known. */
    method OperatorQuiet() returns (q: Option<int>)
      requires Valid()
      modifies `now, `calls, `heard
      ensures Valid() && old(now) <= now <= old(now) + maxCost
      ensures q == quiets(old(calls)) && calls == old(calls) + 1
      ensures heard == old(heard) + [Reading(|seen|, q)]
    {
      q := quiets(calls);
      now := now + cost(calls);
      calls := calls + 1;
      heard := heard + [Reading(|seen|, q)];
    }

    method Sleep(ticks: int)
      requires Valid() && ticks >= 0
      modifies `now, `calls
      ensures Valid() && old(now) + ticks <= now <= old(now) + ticks + maxOversleep
    {
      now := now + ticks + oversleep(calls);
      calls := calls + 1;
    }
  }

  /** From sighting `i` on nothing was active, and no two looks were more than `gap` apart. */
  ghost predicate InactiveFrom(seen: seq<Sighting>, i: nat, gap: int) {
    && i < |seen|
    && (forall j :: i <= j < |seen| ==> !seen[j].active)
    && (forall j :: i < j < |seen| ==> seen[j].at - seen[j - 1].at <= gap)
  }

  /** The capture was seen inactive throughout a span of at least `pad` ticks that ends now. */
  ghost predicate Settled(seen: seq<Sighting>, now: int, pad: int, gap: int) {
    exists i: nat :: InactiveFrom(seen, i, gap) && now - seen[i].at >= pad && now - seen[|seen| - 1].at <= gap
  }

  lemma InactiveOneMore(seen: seq<Sighting>, i: nat, gap: int, s: Sighting)
    requires InactiveFrom(seen, i, gap) && !s.active && s.at - seen[|seen| - 1].at <= gap
    ensures InactiveFrom(seen + [s], i, gap)
  {
  }

  /** From sighting `n` on each look came after the one before it, and no more than `gap` after it. */
  ghost predicate Watched(seen: seq<Sighting>, n: nat, gap: int) {
    forall j :: n < j < |seen| ==> seen[j - 1].at < seen[j].at <= seen[j - 1].at + gap
  }

  lemma WatchedOneMore(seen: seq<Sighting>, n: nat, gap: int, s: Sighting)
    requires seen != [] && Watched(seen, n, gap) && seen[|seen| - 1].at < s.at <= seen[|seen| - 1].at + gap
    ensures Watched(seen + [s], n, gap)
  {
  }

  lemma FirstLook(seen: seq<Sighting>, n: nat, gap: int)
    requires n == |seen| - 1
    ensures Watched(seen, n, gap)
  {
  }

  lemma WatchedJoins(before: seq<Sighting>, seen: seq<Sighting>, n: nat, gap: int)
    requires before != [] && before <= seen && Watched(before, n, gap) && Watched(seen, |before| - 1, gap)
    ensures Watched(seen, n, gap)
  {
    forall j | n < j < |seen| ensures seen[j - 1].at < seen[j].at <= seen[j - 1].at + gap {
      if j < |before| {
        assert seen[j] == before[j] && seen[j - 1] == before[j - 1];
      }
    }
  }

  lemma WatchedMore(seen: seq<Sighting>, n: nat, gap: int, wider: int)
    requires Watched(seen, n, gap) && gap <= wider
    ensures Watched(seen, n, wider)
  {
  }

  /** Since sighting `n` the capture was seen active no more than `span` ago. */
  ghost predicate ActiveWithin(seen: seq<Sighting>, n: nat, now: int, span: int) {
    exists j :: n <= j < |seen| && seen[j].active && now - seen[j].at <= span
  }

  lemma LooksRise(seen: seq<Sighting>, n: nat, gap: int, i: nat, j: nat)
    requires Watched(seen, n, gap) && n <= i <= j < |seen|
    ensures seen[i].at <= seen[j].at
    decreases j - i
  {
    if i < j {
      LooksRise(seen, n, gap, i, j - 1);
    }
  }

  /**
   A wait that is still on, or has given up, no more than `span` after a look at an open
   capture: all its looks being inactive from some look on, it is no more than `span` since
   that look. So a capture that stays closed is noticed within the span.
   */
  lemma NoticedWithin(seen: seq<Sighting>, n: nat, gap: int, now: int, span: int, i: nat)
    requires Watched(seen, n, gap) && ActiveWithin(seen, n, now, span)
    requires n <= i < |seen| && forall j :: i <= j < |seen| ==> !seen[j].active
    ensures now - seen[i].at <= span
  {
    var j :| n <= j < |seen| && seen[j].active && now - seen[j].at <= span;
    LooksRise(seen, n, gap, j, i);
  }

  datatype Pad = Completed | Reopened(capture: Capture) | Expired

  /** Within a pad that began at sighting `first`: nothing was active, and the last look was a nap ago at most. */
  ghost predicate Padding(seen: seq<Sighting>, first: nat, start: int, now: int, nap: int, gap: int) {
    && InactiveFrom(seen, first, gap) && Watched(seen, first, gap)
    && seen[first].at == start <= now && 0 <= now - seen[|seen| - 1].at <= nap
  }

  lemma PadBegins(seen: seq<Sighting>, first: nat, now: int, nap: int, gap: int)
    requires first == |seen| - 1 && seen[first] == Sighting(now, false) && nap >= 0
    ensures Padding(seen, first, now, now, nap, gap)
  {
  }

  lemma PadGoesOn(before: seq<Sighting>, first: nat, start: int, round: int, look: int, now: int, nap: int, gap: int)
    requires Padding(before, first, start, round, nap, gap)
    requires round < look <= round + gap - nap && look <= now <= look + nap
    ensures Padding(before + [Sighting(look, false)], first, start, now, nap, gap)
  {
    WatchedOneMore(before, first, gap, Sighting(look, false));
    InactiveOneMore(before, first, gap, Sighting(look, false));
    hide Watched, InactiveFrom;
  }

  lemma PadReopens(before: seq<Sighting>, first: nat, start: int, round: int, look: int, nap: int, gap: int)
    requires Padding(before, first, start, round, nap, gap) && round < look <= round + gap - nap
    ensures var seen := before + [Sighting(look, true)];
            && Watched(seen, first, gap) && seen[|seen| - 1] == Sighting(look, true)
            && (forall j :: first < j < |seen| - 1 ==> !seen[j].active)
            && |seen| >= 2 && !seen[|seen| - 2].active
  {
    WatchedOneMore(before, first, gap, Sighting(look, true));
    hide Watched;
  }

  lemma PadMeans(seen: seq<Sighting>, first: nat, start: int, now: int, nap: int, gap: int)
    requires Padding(seen, first, start, now, nap, gap) && nap <= gap
    ensures first < |seen| && !seen[|seen| - 1].active && Watched(seen, first, gap) && now - seen[|seen| - 1].at <= nap
    ensures forall j :: first < j < |seen| ==> !seen[j].active
    ensures forall quiet :: now - start >= quiet ==> Settled(seen, now, quiet, gap)
  {
    hide Watched;
  }

  /** The trailing quiet: a capture that opens again, or the deadline, aborts it. */
  method SettlePad(w: World, deadline: Option<int>, quiet: int, poll: int) returns (r: Pad)
    requires w.Valid() && quiet > 0 && poll >= MIN_POLL
    requires w.seen != [] && w.seen[|w.seen| - 1] == Sighting(w.now, false)
    modifies w
    ensures w.Valid() && old(w.seen) <= w.seen && w.heard == old(w.heard)
    ensures !r.Reopened? ==> !w.seen[|w.seen| - 1].active
    ensures Watched(w.seen, |old(w.seen)| - 1, poll + w.maxOversleep + w.maxCost)
    ensures w.now - w.seen[|w.seen| - 1].at <= poll + w.maxOversleep
    ensures r.Completed? ==>
              && Settled(w.seen, w.now, quiet, poll + w.maxOversleep + w.maxCost)
              && w.now <= old(w.now) + quiet + poll + w.maxOversleep + w.maxCost
              && (deadline.Some? ==> w.now <= deadline.value + w.maxCost + poll + w.maxOversleep)
    ensures r.Expired? ==>
              && deadline.Some? && w.now >= deadline.value && w.now <= old(w.now) + quiet
              && w.now <= Max(old(w.now), deadline.value + w.maxCost + poll + w.maxOversleep)
    ensures r.Reopened? ==>
              && r.capture.active && w.seen[|w.seen| - 1] == Sighting(w.now, true) && old(w.now) < w.now
              && |w.seen| >= 2 && !w.seen[|w.seen| - 2].active
              && (deadline.Some? ==> w.now <= deadline.value + w.maxCost)
    ensures forall j :: |old(w.seen)| <= j < |w.seen| - 1 ==> !w.seen[j].active
  {
    hide Watched, InactiveFrom, Settled, Padding;
    ghost var nap := poll + w.maxOversleep;
    ghost var gap := nap + w.maxCost;
    ghost var first, start := |w.seen| - 1, w.now;
    var quietDeadline := w.now + quiet;
    PadBegins(w.seen, first, start, nap, gap);
    while w.now < quietDeadline
      invariant w.Valid() && old(w.seen) <= w.seen && w.heard == old(w.heard)
      invariant Padding(w.seen, first, start, w.now, nap, gap)
      invariant start <= w.now <= quietDeadline + gap
      invariant deadline.Some? && w.now > start ==> w.now <= deadline.value + gap
      decreases quietDeadline - w.now
    {
      PadMeans(w.seen, first, start, w.now, nap, gap);
      if deadline.Some? && w.now >= deadline.value {
        return Expired;
      }
      ghost var before, round := w.seen, w.now;
      var s := w.Probe();
      ghost var look := w.now;
      if s.active {
        PadReopens(before, first, start, round, look, nap, gap);
        return Reopened(s);
      }
      w.Sleep(Min(poll, Max(MIN_NAP, quietDeadline - w.now)));
      PadGoesOn(before, first, start, round, look, w.now, nap, gap);
    }
    PadMeans(w.seen, first, start, w.now, nap, gap);
    r := Completed;
  }

  /** How late a capped wait can end: the cap, one poll interval, and a few probes. */
  function LastMoment(start: int, cap: int, poll: int, probes: nat, w: World): int
    reads w
  {
    start + cap + poll + w.maxOversleep + probes * w.maxCost
  }

  /** What a wait that did not time out has seen at its end. */
  ghost predicate SeenIdle(seen: seq<Sighting>, now: int, quiet: int, gap: int) {
    && seen != [] && !seen[|seen| - 1].active
    && (quiet > 0 ==> Settled(seen, now, quiet, gap))
  }

  lemma SettledIsIdle(seen: seq<Sighting>, now: int, quiet: int, gap: int)
    requires Settled(seen, now, quiet, gap)
    ensures SeenIdle(seen, now, quiet, gap)
  {
  }

  /** The longest time from one look to the next, when `calls` calls lie between them. */
  function Gap(pollMs: int, calls: nat, w: World): int {
    Max(MIN_POLL, pollMs * 1000) + w.maxOversleep + calls * w.maxCost
  }

  /**
   No wait outlasts a closed capture: since the first look, sighting `n`, it looked at least
   every `gap` ticks; giving up, it saw the capture active within the pad and one gap; an
   ending it reached by itself comes no more than one gap later; and one still waiting has
   just found the capture open.
   */
  ghost predicate Attentive(seen: seq<Sighting>, n: nat, now: int, quiet: int, gap: int, result: Option<Deferral>) {
    && n < |seen| && Watched(seen, n, gap) && now - seen[|seen| - 1].at <= gap
    && (result.None? ==> seen[|seen| - 1].active)
    && (result.Some? && result.value.timedOut ==> ActiveWithin(seen, n, now, quiet + gap))
    && (result.Some? && result.value.deferred ==> ActiveWithin(seen, n, now, quiet + 2 * gap))
  }

  /**
   What stays the same during one wait: what was seen before it, the index of its first look,
   its start, its cap and its pad, and the longest a sleep, a round after its look, and a call
   may take.
   */
  datatype Watch = Watch(seen0: seq<Sighting>, n: nat, start: int, cap: int, quiet: int, nap: int, slack: int, cost: int)

  predicate Sane(c: Watch) {
    0 <= c.quiet && 0 <= c.nap <= c.slack && 0 <= c.cost && c.n == |c.seen0|
  }

  /** Between two rounds: the last look, a round ago at most, found the capture open. */
  ghost predicate Waiting(c: Watch, seen: seq<Sighting>, now: int) {
    && Sane(c) && c.seen0 < seen && seen[c.n].active && Watched(seen, c.n, c.slack + c.cost)
    && seen[|seen| - 1].active && 0 <= now - seen[|seen| - 1].at <= c.slack
    && (c.cap > 0 ==> now <= c.start + c.cap + c.nap + c.cost)
  }

  /** A wait that began on an open capture, and ended or was left. */
  ghost predicate Ended(c: Watch, seen: seq<Sighting>, now: int, result: Option<Deferral>) {
    && c.n == |c.seen0| && c.seen0 < seen && seen[c.n].active
    && Attentive(seen, c.n, now, c.quiet, c.slack + c.cost, result)
    && (c.cap > 0 ==> now <= c.start + c.cap + c.slack + 2 * c.cost)
  }

  lemma NeverOpen(seen: seq<Sighting>, n: nat, now: int, quiet: int, gap: int, result: Option<Deferral>)
    requires n == |seen| - 1 && now == seen[n].at && gap >= 0
    requires result.Some? && !result.value.deferred && !result.value.timedOut
    ensures Attentive(seen, n, now, quiet, gap, result)
  {
  }

  lemma BeginsWaiting(c: Watch, seen: seq<Sighting>, now: int)
    requires Sane(c) && c.n == |seen| - 1 && c.seen0 < seen && seen[c.n] == Sighting(now, true) && now <= c.start + c.cost
    ensures Waiting(c, seen, now)
  {
  }

  /** A round that found the capture open and slept. */
  lemma WaitsOn(c: Watch, before: seq<Sighting>, round: int, look: int, now: int)
    requires Waiting(c, before, round) && round < look <= round + c.cost && look <= now <= look + c.slack
    requires c.cap > 0 ==> now <= c.start + c.cap + c.nap
    ensures Waiting(c, before + [Sighting(look, true)], now)
  {
    WatchedOneMore(before, c.n, c.slack + c.cost, Sighting(look, true));
    hide Watched;
  }

  /** A look that found the capture closed, and what was seen from then on. */
  ghost predicate Closes(c: Watch, before: seq<Sighting>, round: int, look: int, seen: seq<Sighting>) {
    && round < look <= round + c.cost && before + [Sighting(look, false)] <= seen
    && Watched(seen, |before|, c.nap + c.cost)
  }

  lemma ClosesWatched(c: Watch, before: seq<Sighting>, round: int, look: int, seen: seq<Sighting>)
    requires Waiting(c, before, round) && Closes(c, before, round, look, seen)
    ensures c.n < |before| <= |seen| && seen[|before| - 1] == before[|before| - 1] && c.seen0 < seen && seen[c.n].active
    ensures Watched(seen, c.n, c.slack + c.cost)
  {
    var closed := before + [Sighting(look, false)];
    WatchedOneMore(before, c.n, c.slack + c.cost, Sighting(look, false));
    WatchedMore(seen, |before|, c.nap + c.cost, c.slack + c.cost);
    WatchedJoins(closed, seen, c.n, c.slack + c.cost);
    hide Watched;
    assert seen[|before| - 1] == closed[|before| - 1] && seen[c.n] == closed[c.n];
  }

  lemma NoSightings(c: Watch, before: seq<Sighting>, round: int, look: int)
    requires round < look <= round + c.cost
    ensures Closes(c, before, round, look, before + [Sighting(look, false)])
  {
  }

  /** A round whose pad was cut short by a capture that opened again. */
  lemma OpensAgain(c: Watch, before: seq<Sighting>, round: int, look: int, seen: seq<Sighting>, now: int)
    requires Waiting(c, before, round) && Closes(c, before, round, look, seen)
    requires seen[|seen| - 1] == Sighting(now, true)
    requires c.cap > 0 ==> now <= c.start + c.cap + c.cost
    ensures Waiting(c, seen, now)
  {
    ClosesWatched(c, before, round, look, seen);
    hide Watched;
  }

  lemma LeftWaiting(c: Watch, seen: seq<Sighting>, now: int)
    requires Waiting(c, seen, now)
    ensures Ended(c, seen, now, None)
  {
    hide Watched;
  }

  /** A wait that ended while the capture was open. */
  lemma EndsOpen(c: Watch, before: seq<Sighting>, round: int, look: int, now: int, result: Option<Deferral>)
    requires Waiting(c, before, round) && round < look <= round + c.cost && look <= now <= look + c.slack - c.nap
    ensures Ended(c, before + [Sighting(look, true)], now, result)
  {
    var seen := before + [Sighting(look, true)];
    WatchedOneMore(before, c.n, c.slack + c.cost, Sighting(look, true));
    hide Watched;
    assert seen[|seen| - 1] == Sighting(look, true) && seen[c.n] == before[c.n];
  }

  /** A wait that ended in or after a pad that began at `look`. */
  lemma EndsClosed(
      c: Watch, before: seq<Sighting>, round: int, look: int, seen: seq<Sighting>, now: int, result: Option<Deferral>)
    requires Waiting(c, before, round) && Closes(c, before, round, look, seen)
    requires now - seen[|seen| - 1].at <= c.nap && result.Some?
    requires now <= look + c.quiet + if result.value.timedOut then 0 else c.nap + c.cost
    requires c.cap > 0 ==> now <= Max(look, c.start + c.cap + c.nap + c.cost)
    ensures Ended(c, seen, now, result)
  {
    ClosesWatched(c, before, round, look, seen);
    hide Watched;
    var j := |before| - 1;
    assert seen[j].active && look - seen[j].at <= c.slack + c.cost;
  }

  lemma JustClosed(seen: seq<Sighting>, now: int, quiet: int, gap: int)
    requires seen != [] && !seen[|seen| - 1].active && quiet <= 0
    ensures SeenIdle(seen, now, quiet, gap)
  {
  }

  function Elapsed(start: int, now: int): int {
    (now - start) / 1000
  }

  /** What every finished wait says of itself. */
  ghost predicate Held(w: World, seen0: seq<Sighting>, start: int, cap: int, r: Deferral)
    reads w
  {
    && |seen0| < |w.seen|
    && r.deferred == w.seen[|seen0|].active
    && (!r.deferred ==> !r.timedOut && |w.seen| == |seen0| + 1)
    && (r.timedOut ==> cap > 0 && w.now >= start + cap)
    && (r.deferred ==> r.waitMs == Elapsed(start, w.now))
  }

  /** A wait that ends on a closed capture still names every source of the capture that began it. */
  ghost predicate NamesFirst(w: World, first: Capture, r: Deferral)
    reads w
  {
    r.deferred && w.seen != [] && !w.seen[|w.seen| - 1].active ==>
      (forall x :: x in first.sources ==> x in r.sources) && (first.reason.Some? ==> r.reason.Some?)
  }

  /** What one wait goes by, from its arguments. */
  ghost predicate Fits(c: Watch, w: World, deadline: Option<int>, quiet: int, poll: int)
  {
    && poll >= MIN_POLL && quiet >= 0 && c.quiet == quiet
    && c.nap == poll + w.maxOversleep && c.nap <= c.slack && c.cost == w.maxCost
    && deadline == (if c.cap > 0 then Some(c.start + c.cap) else None)
  }

  /** Whatever a wait reports, this is how it may end. */
  ghost predicate MayEnd(c: Watch, seen: seq<Sighting>, now: int, timedOut: bool) {
    forall r: Deferral :: r.timedOut == timedOut ==> Ended(c, seen, now, Some(r))
  }

  lemma PadMayEnd(c: Watch, before: seq<Sighting>, round: int, look: int, seen: seq<Sighting>, now: int, timedOut: bool)
    requires Waiting(c, before, round) && Closes(c, before, round, look, seen)
    requires now - seen[|seen| - 1].at <= c.nap
    requires now <= look + c.quiet + if timedOut then 0 else c.nap + c.cost
    requires c.cap > 0 ==> now <= Max(look, c.start + c.cap + c.nap + c.cost)
    ensures MayEnd(c, seen, now, timedOut)
  {
    hide Waiting, Closes, Ended;
    forall r: Deferral | r.timedOut == timedOut ensures Ended(c, seen, now, Some(r)) {
      EndsClosed(c, before, round, look, seen, now, Some(r));
    }
  }

  lemma ReportsEnd(c: Watch, seen: seq<Sighting>, now: int, r: Deferral)
    requires MayEnd(c, seen, now, r.timedOut)
    ensures Ended(c, seen, now, Some(r))
  {
    hide Ended;
  }

  /** Of the looks that came after `before` only the last may have found the capture open. */
  ghost predicate ClosedUntilNow(before: seq<Sighting>, seen: seq<Sighting>) {
    before <= seen && forall j :: |before| <= j < |seen| - 1 ==> !seen[j].active
  }

  /** The rest of a round that finds the capture closed: a quiet pad, if one is asked for. */
  method AwaitPad(
      w: World, deadline: Option<int>, quiet: int, poll: int, ghost c: Watch, ghost before: seq<Sighting>, ghost round: int)
    returns (r: Pad)
    requires w.Valid() && Fits(c, w, deadline, quiet, poll) && Waiting(c, before, round)
    requires w.seen == before + [Sighting(w.now, false)] && round < w.now <= round + c.cost
    modifies w
    ensures w.Valid() && ClosedUntilNow(old(w.seen), w.seen) && w.heard == old(w.heard)
    ensures r.Reopened? ==> Waiting(c, w.seen, w.now) && r.capture.active && old(w.now) < w.now
    ensures !r.Reopened? ==> MayEnd(c, w.seen, w.now, r.Expired?)
    ensures r.Expired? ==> deadline.Some? && w.now >= deadline.value
    ensures r.Completed? ==> SeenIdle(w.seen, w.now, quiet, c.nap + c.cost)
    ensures !r.Reopened? ==> !w.seen[|w.seen| - 1].active
  {
    hide Waiting, Closes, Settled, SeenIdle, InactiveFrom, MayEnd, Ended;
    ghost var look := w.now;
    if quiet == 0 {
      NoSightings(c, before, round, look);
      JustClosed(w.seen, w.now, quiet, c.nap + c.cost);
      PadMayEnd(c, before, round, look, w.seen, w.now, false);
      return Completed;
    }
    r := SettlePad(w, deadline, quiet, poll);
    PadCloses(c, before, round, look, w.seen);
    match r {
      case Expired =>
        PadMayEnd(c, before, round, look, w.seen, w.now, true);
      case Reopened(_) =>
        OpensAgain(c, before, round, look, w.seen, w.now);
      case Completed =>
        SettledIsIdle(w.seen, w.now, quiet, c.nap + c.cost);
        PadMayEnd(c, before, round, look, w.seen, w.now, false);
    }
  }

  lemma PadCloses(c: Watch, before: seq<Sighting>, round: int, look: int, seen: seq<Sighting>)
    requires round < look <= round + c.cost && before + [Sighting(look, false)] <= seen
    requires Watched(seen, |before|, c.nap + c.cost)
    ensures Closes(c, before, round, look, seen)
  {
  }

  lemma NeverHeld(w: World, seen0: seq<Sighting>, start: int, cap: int, first: Capture, r: Deferral)
    requires |w.seen| == |seen0| + 1 && !w.seen[|seen0|].active && !r.deferred && !r.timedOut
    ensures Held(w, seen0, start, cap, r) && NamesFirst(w, first, r)
  {
  }

  /** A reason if there was one, and every source there was. */
  predicate Recalls(first: Capture, reason: Option<string>, sources: seq<string>) {
    (first.reason.Some? ==> reason.Some?) && forall x :: x in first.sources ==> x in sources
  }

  lemma RecallsFirst(first: Capture)
    ensures Recalls(first, first.reason, first.sources)
  {
  }

  lemma RecallsMore(first: Capture, reason: Option<string>, sources: seq<string>, again: Capture)
    requires Recalls(first, reason, sources)
    ensures Recalls(first, if again.reason.Some? then again.reason else reason, Distinct(sources + again.sources))
  {
  }

  lemma EndsHeld(w: World, seen0: seq<Sighting>, start: int, cap: int, first: Capture, r: Deferral)
    requires |seen0| < |w.seen| && w.seen[|seen0|].active && r.deferred && r.waitMs == Elapsed(start, w.now)
    requires r.timedOut ==> cap > 0 && w.now >= start + cap
    requires !w.seen[|w.seen| - 1].active ==> Recalls(first, r.reason, r.sources)
    ensures Held(w, seen0, start, cap, r) && NamesFirst(w, first, r)
  {
  }

  /** A wait that ends on an open capture names what its last look, `back` calls ago, said of it. */
  ghost predicate NamesLast(w: World, back: nat, r: Deferral)
    reads w
  {
    r.deferred && w.seen != [] && w.seen[|w.seen| - 1].active && back <= w.calls ==>
      var last := w.captures(w.calls - back);
      (last.sources != [] ==> r.sources == last.sources) && (last.reason.Some? ==> r.reason == last.reason)
  }

  lemma LastNamed(w: World, back: nat, last: Capture, r: Deferral)
    requires back <= w.calls && last == w.captures(w.calls - back)
    requires last.sources != [] ==> r.sources == last.sources
    requires last.reason.Some? ==> r.reason == last.reason
    ensures NamesLast(w, back, r)
  {
  }

  lemma NobodyNamed(w: World, back: nat, r: Deferral)
    requires w.seen != [] && !w.seen[|w.seen| - 1].active
    ensures NamesLast(w, back, r)
  {
  }

  /**
   `wait_until_user_capture_idle`, watched up to `horizon`: a wait with a positive cap
   is over by its last moment, one without may still be waiting.
   */
  method WaitUntilIdle(w: World, cap: int, pollMs: int, quietMs: int, horizon: int)
    returns (result: Option<Deferral>)
    requires w.Valid()
    modifies w
    ensures w.Valid() && old(w.seen) < w.seen
    ensures result.None? ==> w.seen[|old(w.seen)|].active && w.now >= horizon
    ensures cap > 0 ==> w.now <= LastMoment(old(w.now), cap, Max(MIN_POLL, pollMs * 1000), 2, w)
    ensures result.Some? ==> Held(w, old(w.seen), old(w.now), cap, result.value) && result.value.gate in {None, Some(Idle)}
    ensures result.Some? ==> NamesFirst(w, w.captures(old(w.calls)), result.value)
    ensures result.Some? ==> NamesLast(w, 1, result.value)
    ensures result.Some? && result.value.deferred && !result.value.timedOut ==>
              SeenIdle(w.seen, w.now, Max(0, quietMs * 1000), Gap(pollMs, 1, w))
    ensures Attentive(w.seen, |old(w.seen)|, w.now, Max(0, quietMs * 1000), Gap(pollMs, 1, w), result)
  {
    hide Watched, Attentive, ActiveWithin, Settled, InactiveFrom, Held, NamesFirst, NamesLast, Recalls, ClosedUntilNow, Elapsed, Waiting, SeenIdle, MayEnd;
    var poll := Max(MIN_POLL, pollMs * 1000);
    var quiet := Max(0, quietMs * 1000);
    var t0 := w.now;
    var deadline := if cap > 0 then Some(t0 + cap) else None;
    ghost var c := Watch(w.seen, |w.seen|, t0, cap, quiet, poll + w.maxOversleep, poll + w.maxOversleep, w.maxCost);
    var first := w.Probe();
    if !first.active {
      result := Some(Deferral(false, 0, false, None, [], None, None, None));
      NeverOpen(w.seen, c.n, w.now, quiet, c.slack + c.cost, result);
      NobodyNamed(w, 1, result.value);
      NeverHeld(w, old(w.seen), t0, cap, first, result.value);
      return;
    }
    BeginsWaiting(c, w.seen, w.now);
    RecallsFirst(first);
    var reason, sources := first.reason, first.sources;
    while w.now < horizon
      invariant w.Valid() && Waiting(c, w.seen, w.now)
      invariant Recalls(first, reason, sources)
      decreases horizon - w.now
    {
      ghost var before, round := w.seen, w.now;
      var state := w.Probe();
      ghost var look := w.now;
      if !state.active {
        var pad := AwaitPad(w, deadline, quiet, poll, c, before, round);
        match pad {
          case Expired =>
            result := Some(Deferral(true, Elapsed(t0, w.now), true, reason, sources, None, None, None));
            ReportsEnd(c, w.seen, w.now, result.value);
            NobodyNamed(w, 1, result.value);
            EndsHeld(w, old(w.seen), t0, cap, first, result.value);
            return;
          case Reopened(again) =>
            RecallsMore(first, reason, sources, again);
            reason := if again.reason.Some? then again.reason else reason;
            sources := Distinct(sources + again.sources);
          case Completed =>
            result := Some(Deferral(true, Elapsed(t0, w.now), false, reason, sources, None, None, None));
            ReportsEnd(c, w.seen, w.now, result.value);
            NobodyNamed(w, 1, result.value);
            EndsHeld(w, old(w.seen), t0, cap, first, result.value);
            return;
        }
      } else {
        if deadline.Some? && w.now >= deadline.value {
          result := Some(Deferral(
              true, Elapsed(t0, w.now), true, if state.reason.Some? then state.reason else reason,
              if state.sources != [] then state.sources else sources, Some(Idle), None, None));
          LastNamed(w, 1, state, result.value);
          EndsOpen(c, before, round, look, w.now, result);
          EndsHeld(w, old(w.seen), t0, cap, first, result.value);
          return;
        }
        w.Sleep(poll);
        WaitsOn(c, before, round, look, w.now);
      }
    }
    result := None;
    LeftWaiting(c, w.seen, w.now);
  }

  /** A capture that must end by its own silence; `mode` is trimmed and in lower case. */
  predicate SilenceMode(c: Capture) {
    c.active && c.mode == "silence"
  }

  /** The latest call read an operator quiet of at least `need`. */
  ghost predicate QuietMet(w: World, r: Deferral, need: int)
    reads w
  {
    r.quiet.Some? && r.quiet.value >= need && w.calls > 0 && w.quiets(w.calls - 1) == r.quiet
  }

  /** An answer that does not let speech through. */
  predicate TooShort(quiet: Option<int>, need: int) {
    quiet.None? || quiet.value < need
  }

  /** The look before, found open twice in a row, was followed by a reading of the operator's quiet. */
  ghost predicate ReadAfter(heard: seq<Reading>, looks: nat) {
    exists k :: 0 <= k < |heard| && heard[k].looks == looks
  }

  /**
   From sighting `n` and reading `m` on the operator's quiet was read after every look that
   found the capture still open, and was never enough.
   */
  ghost predicate KeptAsking(seen: seq<Sighting>, heard: seq<Reading>, n: nat, m: nat, need: int) {
    && (forall j :: n < j < |seen| && seen[j - 1].active && seen[j].active ==> ReadAfter(heard, j + 1))
    && (forall k :: m <= k < |heard| ==> TooShort(heard[k].quiet, need))
  }

  lemma NothingAsked(seen: seq<Sighting>, heard: seq<Reading>, n: nat, m: nat, need: int)
    requires n == |seen| - 1 && m == |heard|
    ensures KeptAsking(seen, heard, n, m, need)
  {
  }

  lemma AskedOnceMore(
      before: seq<Sighting>, asked: seq<Reading>, n: nat, m: nat, need: int, look: Sighting, quiet: Option<int>)
    requires KeptAsking(before, asked, n, m, need) && TooShort(quiet, need)
    ensures KeptAsking(before + [look], asked + [Reading(|before| + 1, quiet)], n, m, need)
  {
    var seen, heard := before + [look], asked + [Reading(|before| + 1, quiet)];
    assert heard[|asked|].looks == |seen|;
    forall j | n < j < |seen| && seen[j - 1].active && seen[j].active ensures ReadAfter(heard, j + 1) {
      if j < |before| {
        assert before[j] == seen[j] && before[j - 1] == seen[j - 1];
        assert ReadAfter(asked, j + 1);
        var k :| 0 <= k < |asked| && asked[k].looks == j + 1;
        assert heard[k] == asked[k];
      }
    }
  }

  /** Looks that found the capture closed need no reading, nor does the one that found it open again. */
  lemma NotAskedInPad(
      before: seq<Sighting>, asked: seq<Reading>, n: nat, m: nat, need: int, look: Sighting, seen: seq<Sighting>)
    requires KeptAsking(before, asked, n, m, need) && !look.active && ClosedUntilNow(before + [look], seen)
    ensures KeptAsking(seen, asked, n, m, need)
  {
    assert seen[|before|] == (before + [look])[|before|];
    forall j | n < j < |seen| && seen[j - 1].active && seen[j].active ensures ReadAfter(asked, j + 1) {
      if j < |before| {
        assert before[j] == (before + [look])[j] == seen[j] && before[j - 1] == (before + [look])[j - 1] == seen[j - 1];
      }
    }
  }

  datatype Hearing = Met | GaveUp | GoOn

  /** The rest of a round that finds the capture open: ask how quiet the operator is, and give up or sleep. */
  method HearOperator(
      w: World, deadline: Option<int>, need: int, poll: int, ghost c: Watch, ghost before: seq<Sighting>, ghost round: int,
      ghost asked: seq<Reading>, ghost m: nat)
    returns (quiet: Option<int>, r: Hearing)
    requires w.Valid() && Fits(c, w, deadline, c.quiet, poll) && c.slack == c.nap + c.cost && Waiting(c, before, round)
    requires w.seen == before + [Sighting(w.now, true)] && round < w.now <= round + c.cost
    requires w.heard == asked && KeptAsking(before, asked, c.n, m, need)
    modifies w`now, w`calls, w`heard
    ensures w.Valid() && old(w.now) <= w.now
    ensures r.Met? <==> !TooShort(quiet, need)
    ensures !r.GoOn? ==> w.calls == old(w.calls) + 1
    ensures r.Met? ==> w.calls > 0 && w.quiets(w.calls - 1) == quiet && MayEnd(c, w.seen, w.now, false)
    ensures !r.Met? ==> KeptAsking(w.seen, w.heard, c.n, m, need)
    ensures r.GaveUp? ==> deadline.Some? && w.now >= deadline.value && MayEnd(c, w.seen, w.now, true)
    ensures r.GoOn? ==> Waiting(c, w.seen, w.now)
  {
    hide Waiting, Ended, KeptAsking, MayEnd;
    ghost var look := w.now;
    quiet := w.OperatorQuiet();
    OpenMayEnd(c, before, round, look, w.now);
    if quiet.Some? && quiet.value >= need {
      return quiet, Met;
    }
    AskedOnceMore(before, asked, c.n, m, need, Sighting(look, true), quiet);
    if deadline.Some? && w.now >= deadline.value {
      return quiet, GaveUp;
    }
    w.Sleep(poll);
    WaitsOn(c, before, round, look, w.now);
    r := GoOn;
  }

  lemma OpenMayEnd(c: Watch, before: seq<Sighting>, round: int, look: int, now: int)
    requires Waiting(c, before, round) && round < look <= round + c.cost && look <= now <= look + c.slack - c.nap
    ensures MayEnd(c, before + [Sighting(look, true)], now, false) && MayEnd(c, before + [Sighting(look, true)], now, true)
  {
    hide Waiting, Ended;
    forall r: Deferral ensures Ended(c, before + [Sighting(look, true)], now, Some(r)) {
      EndsOpen(c, before, round, look, now, Some(r));
    }
  }

  /** The streaming loop: the operator's quiet, or the end of the capture, lets speech through. */
  method WaitForQuiet(w: World, need: int, cap: int, pollMs: int, quietMs: int, horizon: int)
    returns (result: Option<Deferral>)
    requires w.Valid()
    modifies w
    ensures w.Valid() && old(w.seen) < w.seen
    ensures result.None? ==> w.seen[|old(w.seen)|].active && w.now >= horizon
    ensures cap > 0 ==> w.now <= LastMoment(old(w.now), cap, Max(MIN_POLL, pollMs * 1000), 3, w)
    ensures result.Some? ==> Held(w, old(w.seen), old(w.now), cap, result.value) && result.value.gate == Some(Quiet)
    ensures result.Some? ==> NamesFirst(w, w.captures(old(w.calls)), result.value)
    ensures result.Some? ==> NamesLast(w, 2, result.value)
    ensures result.Some? && result.value.deferred && !result.value.timedOut ==>
              || SeenIdle(w.seen, w.now, Max(0, quietMs * 1000), Gap(pollMs, 1, w))
              || QuietMet(w, result.value, Max(0, need))
    ensures Attentive(w.seen, |old(w.seen)|, w.now, Max(0, quietMs * 1000), Gap(pollMs, 2, w), result)
    ensures result.None? || result.value.timedOut ==>
              KeptAsking(w.seen, w.heard, |old(w.seen)|, |old(w.heard)|, Max(0, need))
  {
    hide Watched, Attentive, ActiveWithin, Settled, InactiveFrom, Held, NamesFirst, NamesLast, Recalls, ClosedUntilNow, Elapsed, Waiting, SeenIdle, MayEnd, KeptAsking;
    var poll := Max(MIN_POLL, pollMs * 1000);
    var quiet := Max(0, quietMs * 1000);
    var needQuiet := Max(0, need);
    var t0 := w.now;
    var deadline := if cap > 0 then Some(t0 + cap) else None;
    ghost var c := Watch(
      w.seen, |w.seen|, t0, cap, quiet, poll + w.maxOversleep, poll + w.maxOversleep + w.maxCost, w.maxCost);
    ghost var m := |w.heard|;
    var first := w.Probe();
    if !first.active {
      result := Some(Deferral(false, 0, false, None, [], Some(Quiet), None, None));
      NeverOpen(w.seen, c.n, w.now, quiet, c.slack + c.cost, result);
      NobodyNamed(w, 2, result.value);
      NeverHeld(w, old(w.seen), t0, cap, first, result.value);
      return;
    }
    BeginsWaiting(c, w.seen, w.now);
    RecallsFirst(first);
    NothingAsked(w.seen, w.heard, c.n, m, needQuiet);
    var reason, sources := first.reason, first.sources;
    while w.now < horizon
      invariant w.Valid() && Waiting(c, w.seen, w.now)
      invariant KeptAsking(w.seen, w.heard, c.n, m, needQuiet)
      invariant Recalls(first, reason, sources)
      decreases horizon - w.now
    {
      ghost var before, asked, round := w.seen, w.heard, w.now;
      var state := w.Probe();
      ghost var look := w.now;
      if !state.active {
        var pad := AwaitPad(w, deadline, quiet, poll, c, before, round);
        NotAskedInPad(before, asked, c.n, m, needQuiet, Sighting(look, false), w.seen);
        match pad {
          case Expired =>
            result := Some(Deferral(true, Elapsed(t0, w.now), true, reason, sources, Some(Quiet), None, Some(needQuiet)));
            ReportsEnd(c, w.seen, w.now, result.value);
            NobodyNamed(w, 2, result.value);
            EndsHeld(w, old(w.seen), t0, cap, first, result.value);
            return;
          case Reopened(again) =>
            RecallsMore(first, reason, sources, again);
            reason := if again.reason.Some? then again.reason else reason;
            sources := Distinct(sources + again.sources);
          case Completed =>
            result := Some(Deferral(true, Elapsed(t0, w.now), false, reason, sources, Some(Quiet), None, Some(needQuiet)));
            ReportsEnd(c, w.seen, w.now, result.value);
            NobodyNamed(w, 2, result.value);
            EndsHeld(w, old(w.seen), t0, cap, first, result.value);
            return;
        }
      } else {
        var why := if state.reason.Some? then state.reason else reason;
        var quietNow, hearing := HearOperator(w, deadline, needQuiet, poll, c, before, round, asked, m);
        if !hearing.GoOn? {
          result := Some(Deferral(
              true, Elapsed(t0, w.now), hearing.GaveUp?, why, if state.sources != [] then state.sources else sources,
              Some(Quiet), quietNow, Some(needQuiet)));
          ReportsEnd(c, w.seen, w.now, result.value);
          LastNamed(w, 2, state, result.value);
          EndsHeld(w, old(w.seen), t0, cap, first, result.value);
          return;
        }
      }
    }
    result := None;
    LeftWaiting(c, w.seen, w.now);
  }

  /**
   `wait_until_tts_play_allowed`, watched up to `horizon`: the quiet gate is for radio
   captures, so a capture first seen in silence mode always holds speech to its end.
   */
  method WaitUntilPlayAllowed(
      w: World, streaming: bool, need: int, cap: int, pollMs: int, quietMs: int, horizon: int)
    returns (result: Option<Deferral>)
    requires w.Valid()
    modifies w
    ensures w.Valid() && old(w.seen) < w.seen
    ensures result.None? ==> w.now >= horizon
    ensures cap > 0 ==> w.now <= LastMoment(old(w.now), cap, Max(MIN_POLL, pollMs * 1000), 4, w)
    ensures result.Some? && result.value.timedOut ==> cap > 0 && result.value.deferred && w.now >= old(w.now) + cap
    ensures result.Some? && !result.value.deferred ==> !w.seen[|w.seen| - 1].active
    ensures result.Some? && result.value.deferred && !result.value.timedOut ==>
              var gap := Max(MIN_POLL, pollMs * 1000) + w.maxOversleep + w.maxCost;
              || SeenIdle(w.seen, w.now, quietMs * 1000, gap)
              || (streaming && QuietMet(w, result.value, Max(0, need)))
    ensures result.Some? && !result.value.timedOut && (!streaming || SilenceMode(w.captures(old(w.calls)))) ==>
              !w.seen[|w.seen| - 1].active
    ensures result.Some? && result.value.deferred ==>
              result.value.gate == Some(if streaming && !SilenceMode(w.captures(old(w.calls))) then Quiet else Idle)
    ensures var asks := streaming && !SilenceMode(w.captures(old(w.calls)));
            && Attentive(w.seen, |old(w.seen)| + (if streaming then 1 else 0), w.now, Max(0, quietMs * 1000),
                         Gap(pollMs, if asks then 2 else 1, w), result)
            && (asks && (result.None? || result.value.timedOut) ==>
                  KeptAsking(w.seen, w.heard, |old(w.seen)| + 1, |old(w.heard)|, Max(0, need)))
  {
    hide Watched, ActiveWithin, KeptAsking, Settled;
    var useStreaming := streaming;
    if useStreaming {
      var first := w.Probe();
      if SilenceMode(first) {
        useStreaming := false;
      }
    }
    if useStreaming {
      result := WaitForQuiet(w, need, cap, pollMs, quietMs, horizon);
    } else {
      result := WaitUntilIdle(w, cap, pollMs, quietMs, horizon);
      if result.Some? && result.value.deferred && result.value.gate.None? {
        result := Some(result.value.(gate := Some(Idle)));
      }
    }
  }
}
