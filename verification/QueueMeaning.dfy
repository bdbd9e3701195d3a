/**
 What the queue's rules mean for the events themselves: when two targets are the same, which
 of two ids comes first, which registration counts, and exactly which events are fresh.
 */
module QueueMeaning {
  import opened Wrappers
  import opened DeliveryLog
  import opened QueueOrder
  import opened DeliveryQueue

  // ---------------------------------------------------------------- targets

  predicate AllSpace(s: string) {
    forall i :: 0 <= i < |s| ==> IsSpace(s[i])
  }

  /** `t` is `s` without the whitespace around it. */
  ghost predicate Trimmed(s: string, t: string) {
    && (t == "" || (!IsSpace(t[0]) && !IsSpace(t[|t| - 1])))
    && exists a, b :: AllSpace(a) && AllSpace(b) && s == a + t + b
  }

  lemma {:induction false} StripLeftIs(s: string) returns (a: string)
    ensures AllSpace(a) && s == a + StripLeft(s) && (StripLeft(s) != "" ==> !IsSpace(StripLeft(s)[0]))
  {
    if s != [] && IsSpace(s[0]) {
      var rest := StripLeftIs(s[1..]);
      a := [s[0]] + rest;
      assert s == [s[0]] + s[1..];
    } else {
      a := "";
    }
  }

  lemma {:induction false} StripRightIs(s: string) returns (b: string)
    ensures AllSpace(b) && s == StripRight(s) + b && (StripRight(s) != "" ==> !IsSpace(StripRight(s)[|StripRight(s)| - 1]))
  {
    if s != [] && IsSpace(s[|s| - 1]) {
      var rest := StripRightIs(s[..|s| - 1]);
      b := rest + [s[|s| - 1]];
      assert s == s[..|s| - 1] + [s[|s| - 1]];
    } else {
      b := "";
    }
  }

  lemma StripIs(s: string)
    ensures Trimmed(s, Strip(s))
  {
    hide IsSpace;
    var a := StripLeftIs(s);
    var b := StripRightIs(StripLeft(s));
    assert s == a + Strip(s) + b;
    assert Strip(s) != "" ==> Strip(s)[0] == StripLeft(s)[0];
  }

  lemma TrimmedOnce(s: string, t: string, u: string)
    requires Trimmed(s, t) && Trimmed(s, u)
    ensures t == u
  {
    hide IsSpace;
    var a, b :| AllSpace(a) && AllSpace(b) && s == a + t + b;
    var c, d :| AllSpace(c) && AllSpace(d) && s == c + u + d;
    if t == "" {
      NothingInSpace(s, a, b, c, u, d);
    } else if u == "" {
      NothingInSpace(s, c, d, a, t, b);
    } else {
      SameStart(s, a, t, b, c, u, d);
      SameStart(s, c, u, d, a, t, b);
      SameEnd(s, a, t, b, c, u, d);
      SameEnd(s, c, u, d, a, t, b);
      assert t == s[|a|..|s| - |b|] && u == s[|c|..|s| - |d|];
    }
  }

  /** Every character of a text in three parts is one of a part's. */
  lemma Parts(s: string, a: string, t: string, b: string)
    requires s == a + t + b
    ensures forall i :: 0 <= i < |a| ==> s[i] == a[i]
    ensures forall i :: |a| <= i < |a| + |t| ==> s[i] == t[i - |a|]
    ensures forall i :: |a| + |t| <= i < |s| ==> s[i] == b[i - |a| - |t|]
    ensures t != "" ==> s[|a|] == t[0] && s[|a| + |t| - 1] == t[|t| - 1]
  {
  }

  lemma NothingInSpace(s: string, a: string, b: string, c: string, u: string, d: string)
    requires AllSpace(a) && AllSpace(b) && s == a + b && s == c + u + d
    requires u == "" || !IsSpace(u[0])
    ensures u == ""
  {
    Parts(s, c, u, d);
    assert AllSpace(s);
  }

  lemma SameStart(s: string, a: string, t: string, b: string, c: string, u: string, d: string)
    requires s == a + t + b && s == c + u + d && AllSpace(c) && t != "" && !IsSpace(t[0]) && u != ""
    ensures |c| <= |a|
  {
    Parts(s, a, t, b);
    Parts(s, c, u, d);
  }

  lemma SameEnd(s: string, a: string, t: string, b: string, c: string, u: string, d: string)
    requires s == a + t + b && s == c + u + d && AllSpace(d) && t != "" && !IsSpace(t[|t| - 1]) && u != ""
    ensures |d| <= |b|
  {
    Parts(s, a, t, b);
    Parts(s, c, u, d);
  }

  /** Session and pane agree once the whitespace around them is gone. */
  ghost predicate SameTarget(r: Registration, s: Registration) {
    exists session, pane ::
      Trimmed(r.session, session) && Trimmed(s.session, session) && Trimmed(r.pane, pane) && Trimmed(s.pane, pane)
  }

  lemma TargetIff(r: Registration, s: Registration)
    ensures Target(r) == Target(s) <==> SameTarget(r, s)
  {
    hide Strip;
    StripIs(r.session);
    StripIs(s.session);
    StripIs(r.pane);
    StripIs(s.pane);
    hide Trimmed;
    if SameTarget(r, s) {
      var session, pane :|
        Trimmed(r.session, session) && Trimmed(s.session, session) && Trimmed(r.pane, pane) && Trimmed(s.pane, pane);
      TrimmedOnce(r.session, Strip(r.session), session);
      TrimmedOnce(s.session, Strip(s.session), session);
      TrimmedOnce(r.pane, Strip(r.pane), pane);
      TrimmedOnce(s.pane, Strip(s.pane), pane);
    }
  }

  // ---------------------------------------------------------------- order

  /** The first `k` characters agree, and there `a` ends or has the lesser character. */
  predicate DiffersAt(a: string, b: string, k: nat) {
    && k <= |a| && k <= |b| && a[..k] == b[..k]
    && (k == |a| || (k < |b| && a[k] < b[k]))
  }

  ghost predicate IdLeq(a: string, b: string) {
    exists k: nat :: DiffersAt(a, b, k)
  }

  lemma {:induction false} TextLeqIff(a: string, b: string)
    ensures TextLeq(a, b) <==> IdLeq(a, b)
  {
    if a == [] {
      assert DiffersAt(a, b, 0);
    } else if b == [] {
      assert forall k: nat :: !DiffersAt(a, b, k);
    } else if a[0] != b[0] {
      assert DiffersAt(a, b, 0) <==> a[0] < b[0];
      forall k: nat ensures DiffersAt(a, b, k) ==> k == 0 {
        FirstAgrees(a, b, k);
      }
    } else {
      TextLeqIff(a[1..], b[1..]);
      if k: nat :| DiffersAt(a[1..], b[1..], k) {
        Longer(a, b, k, k + 1);
      }
      if k: nat :| DiffersAt(a, b, k) {
        if k == 0 {
          assert false;
        } else {
          Shorter(a, b, k - 1, k);
        }
      }
    }
  }

  lemma FirstAgrees(a: string, b: string, k: nat)
    requires a != [] && b != []
    ensures DiffersAt(a, b, k) && k > 0 ==> a[0] == b[0]
  {
    if DiffersAt(a, b, k) && k > 0 {
      assert a[0] == a[..k][0] && b[0] == b[..k][0];
    }
  }

  lemma Longer(a: string, b: string, k: nat, n: nat)
    requires a != [] && b != [] && a[0] == b[0] && n == k + 1 && DiffersAt(a[1..], b[1..], k)
    ensures DiffersAt(a, b, n)
  {
    assert a[..n] == [a[0]] + a[1..][..k] && b[..n] == [b[0]] + b[1..][..k];
  }

  lemma Shorter(a: string, b: string, k: nat, n: nat)
    requires a != [] && b != [] && n == k + 1 && DiffersAt(a, b, n)
    ensures DiffersAt(a[1..], b[1..], k)
  {
    assert a[1..][..k] == a[..n][1..] && b[1..][..k] == b[..n][1..];
  }

  /** Not created after `s`, or at the same time with an id that does not come after its. An unknown time is 0. */
  ghost predicate NoLater(r: Registration, s: Registration) {
    var a := if r.createdAt == None then 0.0 else r.createdAt.value;
    var b := if s.createdAt == None then 0.0 else s.createdAt.value;
    a < b || (a == b && IdLeq(r.eventId, s.eventId))
  }

  lemma BeforeIff(r: Registration, s: Registration)
    ensures Before(r, s) <==> NoLater(r, s)
  {
    TextLeqIff(r.eventId, s.eventId);
    hide TextLeq, IdLeq;
  }

  // ---------------------------------------------------------------- freshness

  /** The pane is not blank, and with an age limit the creation time is known and recent enough. */
  predicate Deliverable(r: Registration, now: real, limit: real) {
    && !AllSpace(r.pane)
    && (limit <= 0.0 || (r.createdAt != None && now - r.createdAt.value <= limit))
  }

  /** Nothing is left of a text exactly when it is all whitespace. */
  lemma NothingLeftIff(s: string)
    ensures Strip(s) == "" <==> AllSpace(s)
  {
    StripIs(s);
    hide Strip, IsSpace;
    var a, b :| AllSpace(a) && AllSpace(b) && s == a + Strip(s) + b;
    if Strip(s) != "" {
      assert s[|a|] == Strip(s)[0];
    }
  }

  lemma CandidateIff(r: Registration, now: real, limit: real)
    ensures Candidate(r, now, limit) <==> Deliverable(r, now, limit)
  {
    NothingLeftIff(r.pane);
    hide Strip, AllSpace;
  }

  /**
   Exactly the fresh events: those that can be delivered, and for whose target no later one
   can. They are in order, and every other pending event is set aside.
   */
  lemma FreshExactly(raw: seq<Registration>, kept: seq<Registration>, stale: seq<StaleItem>, now: real, limit: real)
    requires Classified(raw, kept, stale, now, limit)
    ensures forall r :: r in kept <==>
              && r in raw && Deliverable(r, now, limit)
              && (forall s :: s in raw && Deliverable(s, now, limit) && SameTarget(s, r) ==> NoLater(s, r))
    ensures forall i, j :: 0 <= i < j < |kept| ==> NoLater(kept[i], kept[j])
  {
    forall r ensures Candidate(r, now, limit) <==> Deliverable(r, now, limit) {
      CandidateIff(r, now, limit);
    }
    forall r, s ensures Before(s, r) <==> NoLater(s, r) {
      BeforeIff(s, r);
    }
    forall r, s ensures Target(s) == Target(r) <==> SameTarget(s, r) {
      TargetIff(s, r);
    }
    hide Candidate, Deliverable, Before, NoLater, Target, SameTarget;
  }

  /** An event that is set aside names the rule it fails. */
  lemma StaleExactly(raw: seq<Registration>, kept: seq<Registration>, stale: seq<StaleItem>, now: real, limit: real, item: StaleItem)
    requires Classified(raw, kept, stale, now, limit) && item in stale
    ensures match item.why
            case NoPane => AllSpace(item.event.pane)
            case MaxAge =>
              && !AllSpace(item.event.pane) && limit > 0.0
              && (item.event.createdAt == None || now - item.event.createdAt.value > limit)
            case Superseded =>
              && Deliverable(item.event, now, limit)
              && exists f :: f in kept && SameTarget(f, item.event) && f.eventId != item.event.eventId && NoLater(item.event, f)
            case NotAnswerable(_) => false
  {
    var r := item.event;
    assert Justified(item, kept, now, limit);
    CandidateIff(r, now, limit);
    CandidateIff(r, now, 0.0);
    if item.why.Superseded? {
      var f :| f in kept && Target(f) == Target(r) && f.eventId != r.eventId && Before(r, f);
      TargetIff(f, r);
      BeforeIff(r, f);
    }
    hide Strip, Before, NoLater, Target, SameTarget, AllSpace;
  }

  // ---------------------------------------------------------------- registrations

  /** The registration that counts is the last one under the id. */
  lemma {:induction false} LastRegistrationIs(events: seq<Registration>, id: EventId, k: nat)
    requires k < |events| && events[k].eventId == id && forall m :: k < m < |events| ==> events[m].eventId != id
    ensures LastRegistration(events, id) == Some(events[k])
  {
    if k < |events| - 1 {
      LastRegistrationIs(events[..|events| - 1], id, k);
    }
  }

  lemma {:induction false} NotRegistered(events: seq<Registration>, id: EventId)
    requires forall m :: 0 <= m < |events| ==> events[m].eventId != id
    ensures LastRegistration(events, id) == None
  {
    if events != [] {
      NotRegistered(events[..|events| - 1], id);
    }
  }

  /** The id at `k` is `a`, and `b` has not been seen by then. */
  predicate SeenFirst(events: seq<Registration>, a: EventId, b: EventId, k: nat) {
    k < |events| && events[k].eventId == a && forall m :: 0 <= m <= k ==> events[m].eventId != b
  }

  /** Ids are listed in the order in which they were first registered. */
  lemma {:induction false} IdsInOrder(events: seq<Registration>, i: nat, j: nat) returns (k: nat)
    requires i < j < |Ids(events)|
    ensures SeenFirst(events, Ids(events)[i], Ids(events)[j], k)
  {
    var n := |events| - 1;
    var before := Ids(events[..n]);
    IdsRegistered(events[..n], events[n].eventId);
    if j < |before| {
      k := IdsInOrder(events[..n], i, j);
      assert forall m :: 0 <= m <= k ==> events[..n][m] == events[m];
    } else {
      var a := before[i];
      assert a in before;
      IdsRegistered(events[..n], a);
      k := RegisteredAt(events[..n], a);
      forall m | 0 <= m <= k ensures events[m].eventId != events[n].eventId {
        if events[m].eventId == events[n].eventId {
          assert events[..n][m] == events[m];
          Registered(events[..n], m);
          assert false;
        }
      }
    }
  }

  lemma {:induction false} RegisteredAt(events: seq<Registration>, id: EventId) returns (k: nat)
    requires LastRegistration(events, id).Some?
    ensures k < |events| && events[k].eventId == id
  {
    k := |events| - 1;
    if events[k].eventId != id {
      k := RegisteredAt(events[..k], id);
    }
  }

  lemma {:induction false} Registered(events: seq<Registration>, m: nat)
    requires m < |events|
    ensures LastRegistration(events, events[m].eventId).Some?
  {
    if m < |events| - 1 {
      Registered(events[..|events| - 1], m);
    }
  }
}
