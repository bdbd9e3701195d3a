/**
 What the pending queue is: which registered events are pending, and what makes
 one kept, stale or superseded. The store computes these with loops.
 */
module DeliveryQueue {
  import opened Wrappers
  import opened DeliveryLog
  import opened QueueOrder

  /** Event ids in order of first registration. */
  function Ids(events: seq<Registration>): seq<EventId> {
    if events == [] then []
    else
      var before, id := Ids(events[..|events| - 1]), events[|events| - 1].eventId;
      if id == "" || id in before then before else before + [id]
  }

  /** The latest registration of an id. */
  function LastRegistration(events: seq<Registration>, id: EventId): Option<Registration> {
    if events == [] then None
    else if events[|events| - 1].eventId == id then Some(events[|events| - 1])
    else LastRegistration(events[..|events| - 1], id)
  }

  lemma {:induction false} IdsRegistered(events: seq<Registration>, id: EventId)
    ensures id in Ids(events) <==> id != "" && LastRegistration(events, id).Some?
    ensures LastRegistration(events, id).Some? ==> LastRegistration(events, id).value.eventId == id
  {
    if events != [] {
      IdsRegistered(events[..|events| - 1], id);
    }
  }

  lemma {:induction false} IdsDistinct(events: seq<Registration>)
    ensures forall i, j :: 0 <= i < j < |Ids(events)| ==> Ids(events)[i] != Ids(events)[j]
  {
    if events != [] {
      IdsDistinct(events[..|events| - 1]);
    }
  }

  predicate IsPending(log: Log, r: Registration) {
    LatestStatus(log, r.eventId, r.status) == Pending
  }

  /** The pending events among some ids, in the ids' order. */
  function PendingAmong(ids: seq<EventId>, events: seq<Registration>, log: Log): seq<Registration> {
    if ids == [] then []
    else
      var before := PendingAmong(ids[..|ids| - 1], events, log);
      var r := LastRegistration(events, ids[|ids| - 1]);
      if r.Some? && IsPending(log, r.value) then before + [r.value] else before
  }

  /** All pending events, the latest registration of each. */
  function RawPending(events: seq<Registration>, log: Log): seq<Registration> {
    PendingAmong(Ids(events), events, log)
  }

  lemma {:induction false} PendingAmongMembers(ids: seq<EventId>, events: seq<Registration>, log: Log, r: Registration)
    ensures r in PendingAmong(ids, events, log) <==>
              r.eventId in ids && LastRegistration(events, r.eventId) == Some(r) && IsPending(log, r)
  {
    if ids != [] {
      var id := ids[|ids| - 1];
      PendingAmongMembers(ids[..|ids| - 1], events, log, r);
      IdsRegistered(events, id);
      assert ids == ids[..|ids| - 1] + [id];
    }
  }

  /** An event is pending exactly when its last registration is not settled by the log. */
  lemma RawPendingMembers(events: seq<Registration>, log: Log, r: Registration)
    ensures r in RawPending(events, log) <==>
              r.eventId != "" && LastRegistration(events, r.eventId) == Some(r) && IsPending(log, r)
  {
    PendingAmongMembers(Ids(events), events, log, r);
    IdsRegistered(events, r.eventId);
  }

  lemma {:induction false} PendingAmongDistinct(ids: seq<EventId>, events: seq<Registration>, log: Log)
    requires forall i, j :: 0 <= i < j < |ids| ==> ids[i] != ids[j]
    ensures DistinctIds(PendingAmong(ids, events, log))
  {
    if ids != [] {
      var n := |ids| - 1;
      PendingAmongDistinct(ids[..n], events, log);
      IdsRegistered(events, ids[n]);
      var before := PendingAmong(ids[..n], events, log);
      forall i | 0 <= i < |before| ensures before[i].eventId != ids[n] {
        PendingAmongMembers(ids[..n], events, log, before[i]);
      }
    }
  }

  lemma RawPendingDistinct(events: seq<Registration>, log: Log)
    ensures DistinctIds(RawPending(events, log))
  {
    IdsDistinct(events);
    PendingAmongDistinct(Ids(events), events, log);
  }

  predicate TooOld(r: Registration, now: real, limit: real) {
    limit > 0.0 && (r.createdAt.None? || (if now > r.createdAt.value then now - r.createdAt.value else 0.0) > limit)
  }

  predicate Routable(r: Registration) {
    Strip(r.pane) != ""
  }

  predicate Candidate(r: Registration, now: real, limit: real) {
    Routable(r) && !TooOld(r, now, limit)
  }

  datatype Staleness = NoPane | MaxAge | Superseded | NotAnswerable(why: Reason)

  datatype StaleItem = StaleItem(event: Registration, why: Staleness)

  function Events(stale: seq<StaleItem>): seq<Registration> {
    if stale == [] then [] else Events(stale[..|stale| - 1]) + [stale[|stale| - 1].event]
  }

  lemma {:induction false} EventsIndex(stale: seq<StaleItem>)
    ensures |Events(stale)| == |stale|
    ensures forall i :: 0 <= i < |stale| ==> Events(stale)[i] == stale[i].event
  {
    if stale != [] {
      EventsIndex(stale[..|stale| - 1]);
    }
  }

  /** No candidate for the same target comes later in the queue order. */
  ghost predicate Newest(r: Registration, raw: seq<Registration>, now: real, limit: real) {
    forall s :: s in raw && Candidate(s, now, limit) && Target(s) == Target(r) ==> Before(s, r)
  }

  /** Why an item of `raw` is stale, given what is fresh. */
  ghost predicate Justified(item: StaleItem, kept: seq<Registration>, now: real, limit: real) {
    match item.why
    case NoPane => !Routable(item.event)
    case MaxAge => Routable(item.event) && TooOld(item.event, now, limit)
    case Superseded =>
      && Candidate(item.event, now, limit)
      && exists f :: f in kept && Target(f) == Target(item.event) && f.eventId != item.event.eventId && Before(item.event, f)
    case NotAnswerable(_) => false
  }

  /** A correct split of the raw pending events into fresh and stale ones. */
  ghost predicate Classified(raw: seq<Registration>, kept: seq<Registration>, stale: seq<StaleItem>, now: real,
      limit: real)
  {
    && multiset(kept) + multiset(Events(stale)) == multiset(raw)
    && Sorted(kept)
    && (forall r :: r in kept <==> r in raw && Candidate(r, now, limit) && Newest(r, raw, now, limit))
    && (forall item :: item in stale ==> Justified(item, kept, now, limit))
  }

  /** A sublist of distinct events has distinct events. */
  lemma DistinctByCount(s: seq<Registration>, raw: seq<Registration>)
    requires DistinctIds(raw) && multiset(s) <= multiset(raw)
    ensures DistinctIds(s)
  {
    forall i, j | 0 <= i < j < |s| ensures s[i].eventId != s[j].eventId {
      if s[i].eventId == s[j].eventId {
        assert s[i] in multiset(raw) && s[j] in multiset(raw);
        assert s[i] == s[j] by {
          var a :| 0 <= a < |raw| && raw[a] == s[i];
          var b :| 0 <= b < |raw| && raw[b] == s[j];
        }
        TwiceInSeq(s, i, j);
        OnceInDistinct(raw, s[i]);
      }
    }
  }

  lemma TwiceInSeq(s: seq<Registration>, i: nat, j: nat)
    requires i < j < |s| && s[i] == s[j]
    ensures multiset(s)[s[i]] >= 2
  {
    assert s == s[..j] + [s[j]] + s[j + 1..];
    assert s[..j][i] == s[i];
    assert s[i] in s[..j];
  }

  lemma {:induction false} OnceInDistinct(s: seq<Registration>, r: Registration)
    requires DistinctIds(s)
    ensures multiset(s)[r] <= 1
  {
    if s != [] {
      var n := |s| - 1;
      assert s == s[..n] + [s[n]];
      OnceInDistinct(s[..n], r);
      if r == s[n] {
        assert r !in s[..n];
      }
    }
  }

  /** The fresh list is determined by the raw pending events. */
  lemma FreshUnique(raw: seq<Registration>, f1: seq<Registration>, s1: seq<StaleItem>, f2: seq<Registration>,
      s2: seq<StaleItem>, now: real, limit: real)
    requires DistinctIds(raw)
    requires Classified(raw, f1, s1, now, limit) && Classified(raw, f2, s2, now, limit)
    ensures f1 == f2
  {
    DistinctByCount(f1, raw);
    DistinctByCount(f2, raw);
    assert SameElements(f1, f2);
    SortedUnique(f1, f2);
  }

  /** Fresh events are routable, and no two share a target. */
  lemma OneFreshPerTarget(raw: seq<Registration>, kept: seq<Registration>, stale: seq<StaleItem>, now: real,
      limit: real)
    requires DistinctIds(raw) && Classified(raw, kept, stale, now, limit)
    ensures forall r :: r in kept ==> Routable(r)
    ensures forall i, j :: 0 <= i < j < |kept| ==> Target(kept[i]) != Target(kept[j])
  {
    DistinctByCount(kept, raw);
    forall i, j | 0 <= i < j < |kept| ensures Target(kept[i]) != Target(kept[j]) {
      assert kept[i] in kept && kept[j] in kept;
      BeforeTotal(kept[i], kept[j]);
    }
  }

  /** The elements that satisfy `f`, in order. */
  function Filter<T>(s: seq<T>, f: T -> bool): seq<T> {
    if s == [] then []
    else
      var n := |s| - 1;
      Filter(s[..n], f) + if f(s[n]) then [s[n]] else []
  }

  lemma {:induction false} FilterMembers<T>(s: seq<T>, f: T -> bool, x: T)
    ensures x in Filter(s, f) <==> x in s && f(x)
  {
    if s != [] {
      var n := |s| - 1;
      FilterMembers(s[..n], f, x);
      assert s == s[..n] + [s[n]];
    }
  }

  lemma {:induction false} FilterSame<T>(s: seq<T>, f: T -> bool, g: T -> bool)
    requires forall x :: x in s ==> f(x) == g(x)
    ensures Filter(s, f) == Filter(s, g)
  {
    if s != [] {
      FilterSame(s[..|s| - 1], f, g);
    }
  }

  lemma {:induction false} FilterTwice<T>(s: seq<T>, f: T -> bool, g: T -> bool, both: T -> bool)
    requires forall x :: x in s ==> both(x) == (f(x) && g(x))
    ensures Filter(Filter(s, f), g) == Filter(s, both)
  {
    if s != [] {
      var n := |s| - 1;
      FilterTwice(s[..n], f, g, both);
      if f(s[n]) {
        SnocPrefix(Filter(s[..n], f), s[n]);
      } else {
        assert Filter(s, f) == Filter(s[..n], f);
      }
    }
  }

  lemma {:induction false} FilterKeepsOrder(s: seq<Registration>, f: Registration -> bool)
    requires Sorted(s) && DistinctIds(s)
    ensures Sorted(Filter(s, f)) && DistinctIds(Filter(s, f))
  {
    if s != [] {
      var n := |s| - 1;
      FilterKeepsOrder(s[..n], f);
      var before := Filter(s[..n], f);
      forall i | 0 <= i < |before|
        ensures Before(before[i], s[n]) && before[i].eventId != s[n].eventId
      {
        FilterMembers(s[..n], f, before[i]);
      }
    }
  }

  function Fits(now: real, limit: real): Registration -> bool {
    r => Candidate(r, now, limit)
  }

  function Candidates(raw: seq<Registration>, now: real, limit: real): seq<Registration> {
    Filter(raw, Fits(now, limit))
  }

  lemma CandidatesSnoc(raw: seq<Registration>, r: Registration, now: real, limit: real)
    ensures Candidates(raw + [r], now, limit) == Candidates(raw, now, limit) + if Candidate(r, now, limit) then [r] else []
    ensures Candidates([], now, limit) == []
  {
    SnocPrefix(raw, r);
  }

  lemma CandidatesMembers(raw: seq<Registration>, r: Registration, now: real, limit: real)
    ensures r in Candidates(raw, now, limit) <==> r in raw && Candidate(r, now, limit)
  {
    FilterMembers(raw, Fits(now, limit), r);
  }

  /** Set aside before any grouping. */
  predicate SetAside(item: StaleItem, now: real, limit: real) {
    || (item.why == NoPane && !Routable(item.event))
    || (item.why == MaxAge && Routable(item.event) && TooOld(item.event, now, limit))
  }

  /** The split `classify_pending` returns, with or without target deduplication. */
  ghost predicate SplitOf(raw: seq<Registration>, kept: seq<Registration>, stale: seq<StaleItem>, now: real,
      limit: real, dedupe: bool)
  {
    && (dedupe ==> Classified(raw, kept, stale, now, limit))
    && multiset(kept) + multiset(Events(stale)) == multiset(raw)
    && (!dedupe ==> kept == Candidates(raw, now, limit) && forall item :: item in stale ==> SetAside(item, now, limit))
  }

  /** The events that fail the live check. */
  function Failing(kept: seq<Registration>, check: Registration -> Option<Reason>): seq<Registration> {
    if kept == [] then []
    else
      var before := Failing(kept[..|kept| - 1], check);
      if check(kept[|kept| - 1]).Some? then before + [kept[|kept| - 1]] else before
  }

  lemma {:induction false} FailingWithin(kept: seq<Registration>, check: Registration -> Option<Reason>)
    ensures multiset(Failing(kept, check)) <= multiset(kept)
  {
    if kept != [] {
      FailingWithin(kept[..|kept| - 1], check);
      assert kept == kept[..|kept| - 1] + [kept[|kept| - 1]];
    }
  }

  /** What a prune is going to expire. */
  function Doomed(kept: seq<Registration>, stale: seq<StaleItem>,
      check: Option<Registration -> Option<Reason>>): seq<Registration>
  {
    Events(stale) + if check.Some? then Failing(kept, check.value) else []
  }

  function Passes(check: Option<Registration -> Option<Reason>>): Registration -> bool {
    r => check.Some? ==> check.value(r).None?
  }

  /** The fresh events that the live check lets pass. */
  function Passing(kept: seq<Registration>, check: Option<Registration -> Option<Reason>>): seq<Registration> {
    Filter(kept, Passes(check))
  }

  lemma {:induction false} FailingMembers(kept: seq<Registration>, check: Registration -> Option<Reason>, r: Registration)
    ensures r in Failing(kept, check) <==> r in kept && check(r).Some?
  {
    if kept != [] {
      var n := |kept| - 1;
      FailingMembers(kept[..n], check, r);
      assert kept == kept[..n] + [kept[n]];
    }
  }

  lemma DoomedMembers(kept: seq<Registration>, stale: seq<StaleItem>, check: Option<Registration -> Option<Reason>>,
      r: Registration)
    ensures r in Doomed(kept, stale, check) <==> r in Events(stale) || (r in kept && !Passes(check)(r))
  {
    if check.Some? {
      FailingMembers(kept, check.value, r);
    }
  }

  lemma EitherOrAside(raw: seq<Registration>, kept: seq<Registration>, aside: seq<Registration>, r: Registration)
    requires DistinctIds(raw) && multiset(kept) + multiset(aside) == multiset(raw)
    ensures r in raw <==> r in kept || r in aside
    ensures !(r in kept && r in aside)
  {
    assert r in raw <==> r in multiset(raw);
    assert r in kept <==> r in multiset(kept);
    assert r in aside <==> r in multiset(aside);
    OnceInDistinct(raw, r);
  }

  lemma SameId(raw: seq<Registration>, x: Registration, y: Registration)
    requires DistinctIds(raw) && x in raw && y in raw && x.eventId == y.eventId
    ensures x == y
  {
  }

  /** Of the raw pending events exactly the passing fresh ones are not expired. */
  lemma SparedIff(raw: seq<Registration>, kept: seq<Registration>, stale: seq<StaleItem>,
      check: Option<Registration -> Option<Reason>>, r: Registration)
    requires DistinctIds(raw) && multiset(kept) + multiset(Events(stale)) == multiset(raw) && r in raw
    ensures r.eventId !in EventIds(Doomed(kept, stale, check)) <==> r in kept && Passes(check)(r)
  {
    hide Doomed, Passes, Events, DistinctIds;
    EitherOrAside(raw, kept, Events(stale), r);
    DoomedMembers(kept, stale, check, r);
    if r.eventId in EventIds(Doomed(kept, stale, check)) {
      var x :| x in Doomed(kept, stale, check) && x.eventId == r.eventId;
      DoomedMembers(kept, stale, check, x);
      EitherOrAside(raw, kept, Events(stale), x);
      SameId(raw, x, r);
    }
  }

  /** Exactly the events `doomed` were closed. */
  ghost predicate Closes(log: Log, log2: Log, doomed: set<EventId>) {
    && (forall e :: e in doomed ==> LatestStatus(log2, e, Pending) != Pending)
    && (forall e :: e !in doomed ==> Latest(log2, e) == Latest(log, e))
  }

  lemma ClosedIsNotPending(log: Log, log2: Log, doomed: set<EventId>, r: Registration)
    requires Closes(log, log2, doomed)
    ensures IsPending(log2, r) <==> IsPending(log, r) && r.eventId !in doomed
  {
  }

  lemma {:induction false} PendingShrinks(ids: seq<EventId>, events: seq<Registration>, log: Log, log2: Log, doomed: set<EventId>)
    requires Closes(log, log2, doomed)
    ensures PendingAmong(ids, events, log2) == Filter(PendingAmong(ids, events, log), (r: Registration) => r.eventId !in doomed)
  {
    if ids != [] {
      hide Closes, IsPending, LastRegistration;
      var n := |ids| - 1;
      PendingShrinks(ids[..n], events, log, log2, doomed);
      var before, r := PendingAmong(ids[..n], events, log), LastRegistration(events, ids[n]);
      if r.Some? {
        ClosedIsNotPending(log, log2, doomed, r.value);
        SnocPrefix(before, r.value);
      }
    }
  }

  function Spared(kept: seq<Registration>, check: Option<Registration -> Option<Reason>>): Registration -> bool {
    r => r in kept && Passes(check)(r)
  }

  /** After a prune the raw pending events are the passing fresh ones, in the old order. */
  lemma PrunedRaw(events: seq<Registration>, log: Log, log2: Log, kept: seq<Registration>, stale: seq<StaleItem>,
      check: Option<Registration -> Option<Reason>>)
    requires multiset(kept) + multiset(Events(stale)) == multiset(RawPending(events, log))
    requires Closes(log, log2, EventIds(Doomed(kept, stale, check)))
    ensures RawPending(events, log2) == Filter(RawPending(events, log), Spared(kept, check))
  {
    hide Closes, Doomed, Passes, Filter;
    var raw, doomed := RawPending(events, log), EventIds(Doomed(kept, stale, check));
    RawPendingDistinct(events, log);
    PendingShrinks(Ids(events), events, log, log2, doomed);
    forall r | r in raw
      ensures r.eventId !in doomed <==> Spared(kept, check)(r)
    {
      SparedIff(raw, kept, stale, check, r);
    }
    FilterSame(raw, (r: Registration) => r.eventId !in doomed, Spared(kept, check));
  }

  lemma NothingLeftOver(raw: seq<Registration>, kept: seq<Registration>, stale: seq<StaleItem>)
    requires DistinctIds(raw) && multiset(kept) + multiset(Events(stale)) == multiset(raw)
    requires forall r :: r in raw ==> r in kept
    ensures stale == []
  {
    EventsIndex(stale);
    if stale != [] {
      var x := Events(stale)[0];
      assert x in Events(stale);
      EitherOrAside(raw, kept, Events(stale), x);
    }
  }

  /** With one event a target: the survivors are all still candidates and the newest of their targets. */
  lemma DedupedIsStable(raw: seq<Registration>, raw2: seq<Registration>, kept: seq<Registration>, stale: seq<StaleItem>,
      kept2: seq<Registration>, stale2: seq<StaleItem>, now: real, limit: real, spared: Registration -> bool,
      both: Registration -> bool)
    requires DistinctIds(raw) && DistinctIds(raw2)
    requires raw2 == Filter(raw, both) && forall r :: r in raw ==> both(r) == (r in kept && spared(r))
    requires Classified(raw, kept, stale, now, limit) && Classified(raw2, kept2, stale2, now, limit)
    ensures kept2 == Filter(kept, spared) && forall r :: r in raw2 ==> r in kept2
  {
    var rest := Filter(kept, spared);
    DistinctByCount(kept, raw);
    DistinctByCount(kept2, raw2);
    FilterKeepsOrder(kept, spared);
    forall r
      ensures r in raw2 <==> r in rest
      ensures r in raw2 ==> r in raw && r in kept
    {
      EitherOrAside(raw, kept, Events(stale), r);
      FilterMembers(raw, both, r);
      FilterMembers(kept, spared, r);
    }
    forall r
      ensures r in kept2 <==> r in rest
    {
      if r in rest {
        assert Newest(r, raw2, now, limit);
      }
    }
    assert SameElements(kept2, rest);
    SortedUnique(kept2, rest);
  }

  /** Without: the survivors are all still candidates. */
  lemma CandidatesAreStable(raw: seq<Registration>, raw2: seq<Registration>, kept: seq<Registration>, kept2: seq<Registration>,
      now: real, limit: real, spared: Registration -> bool, both: Registration -> bool)
    requires raw2 == Filter(raw, both) && forall r :: r in raw ==> both(r) == (r in kept && spared(r))
    requires kept == Candidates(raw, now, limit) && kept2 == Candidates(raw2, now, limit)
    ensures kept2 == Filter(kept, spared) && forall r :: r in raw2 ==> r in kept2
  {
    forall r
      ensures r in raw ==> both(r) == (Candidate(r, now, limit) && spared(r))
      ensures r in raw2 ==> r in kept2
    {
      CandidatesMembers(raw, r, now, limit);
      CandidatesMembers(raw2, r, now, limit);
      FilterMembers(raw, both, r);
    }
    FilterTwice(raw, both, Fits(now, limit), both);
    FilterTwice(raw, Fits(now, limit), spared, both);
  }

  /**
   Once what a prune dooms is closed and nothing else has changed, classifying again at
   the same time gives the fresh events that pass the live check, in the same order,
   and nothing stale.
   */
  lemma PruneIsStable(events: seq<Registration>, log: Log, log2: Log, kept: seq<Registration>, stale: seq<StaleItem>,
      kept2: seq<Registration>, stale2: seq<StaleItem>, now: real, limit: real, dedupe: bool,
      check: Option<Registration -> Option<Reason>>)
    requires SplitOf(RawPending(events, log), kept, stale, now, limit, dedupe)
    requires SplitOf(RawPending(events, log2), kept2, stale2, now, limit, dedupe)
    requires Closes(log, log2, EventIds(Doomed(kept, stale, check)))
    ensures kept2 == Passing(kept, check) && stale2 == []
  {
    hide Closes, Doomed, Passes, Filter, Candidates, Classified;
    var raw, raw2 := RawPending(events, log), RawPending(events, log2);
    RawPendingDistinct(events, log);
    RawPendingDistinct(events, log2);
    PrunedRaw(events, log, log2, kept, stale, check);
    if dedupe {
      DedupedIsStable(raw, raw2, kept, stale, kept2, stale2, now, limit, Passes(check), Spared(kept, check));
    } else {
      CandidatesAreStable(raw, raw2, kept, kept2, now, limit, Passes(check), Spared(kept, check));
    }
    NothingLeftOver(raw2, kept2, stale2);
  }
}
