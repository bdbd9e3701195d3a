/**
 Registered events and the order the pending queue is kept in: by creation time,
 then by event id.
 */
module QueueOrder {
  import opened Wrappers
  import opened DeliveryLog

  datatype Registration = Registration(
    eventId: EventId,
    session: string,
    pane: string,
    fingerprint: Option<string>,
    status: Status,
    createdAt: Option<real>)

  predicate IsSpace(c: char) {
    c == ' ' || '\t' <= c <= '\r' || '\U{1c}' <= c <= '\U{1f}'
  }

  function StripLeft(s: string): string {
    if s != [] && IsSpace(s[0]) then StripLeft(s[1..]) else s
  }

  function StripRight(s: string): string {
    if s != [] && IsSpace(s[|s| - 1]) then StripRight(s[..|s| - 1]) else s
  }

  function Strip(s: string): string {
    StripRight(StripLeft(s))
  }

  /** The (session, pane) an event would be delivered to. */
  function Target(r: Registration): (string, string) {
    (Strip(r.session), Strip(r.pane))
  }

  /** Lexicographic order by code point. */
  predicate TextLeq(a: string, b: string) {
    a == [] || (b != [] && (a[0] < b[0] || (a[0] == b[0] && TextLeq(a[1..], b[1..]))))
  }

  lemma {:induction false} TextLeqTotal(a: string, b: string)
    ensures TextLeq(a, b) || TextLeq(b, a)
    ensures TextLeq(a, b) && TextLeq(b, a) ==> a == b
  {
    if a != [] && b != [] && a[0] == b[0] {
      TextLeqTotal(a[1..], b[1..]);
      assert a == [a[0]] + a[1..] && b == [b[0]] + b[1..];
    }
  }

  lemma {:induction false} TextLeqTransitive(a: string, b: string, c: string)
    requires TextLeq(a, b) && TextLeq(b, c)
    ensures TextLeq(a, c)
  {
    if a != [] && a[0] == b[0] && b[0] == c[0] {
      TextLeqTransitive(a[1..], b[1..], c[1..]);
    }
  }

  function Created(r: Registration): real {
    if r.createdAt.Some? then r.createdAt.value else 0.0
  }

  /** The queue order. */
  predicate Before(a: Registration, b: Registration) {
    Created(a) < Created(b) || (Created(a) == Created(b) && TextLeq(a.eventId, b.eventId))
  }

  lemma BeforeTotal(a: Registration, b: Registration)
    ensures Before(a, b) || Before(b, a)
    ensures Before(a, b) && Before(b, a) ==> a.eventId == b.eventId
  {
    TextLeqTotal(a.eventId, b.eventId);
  }

  lemma BeforeTransitive(a: Registration, b: Registration, c: Registration)
    requires Before(a, b) && Before(b, c)
    ensures Before(a, c)
  {
    if TextLeq(a.eventId, b.eventId) && TextLeq(b.eventId, c.eventId) {
      TextLeqTransitive(a.eventId, b.eventId, c.eventId);
    }
  }

  ghost predicate Sorted(s: seq<Registration>) {
    forall i, j :: 0 <= i < j < |s| ==> Before(s[i], s[j])
  }

  ghost predicate DistinctIds(s: seq<Registration>) {
    forall i, j :: 0 <= i < j < |s| ==> s[i].eventId != s[j].eventId
  }

  function EventIds(s: seq<Registration>): set<EventId> {
    set r | r in s :: r.eventId
  }

  lemma EventIdsSnoc(s: seq<Registration>, r: Registration)
    ensures EventIds(s + [r]) == EventIds(s) + {r.eventId}
  {
    var t := s + [r];
    forall e ensures e in EventIds(t) <==> e in EventIds(s) + {r.eventId} {
      if e in EventIds(s) {
        var q :| q in s && q.eventId == e;
        assert q in t;
      }
      assert r in t;
    }
  }

  function Insert(x: Registration, s: seq<Registration>): seq<Registration> {
    if s == [] then [x]
    else if Before(s[|s| - 1], x) then s + [x]
    else Insert(x, s[..|s| - 1]) + [s[|s| - 1]]
  }

  /** The built-in stable sort, by the queue order. */
  function SortQueue(s: seq<Registration>): seq<Registration> {
    if s == [] then [] else Insert(s[|s| - 1], SortQueue(s[..|s| - 1]))
  }

  lemma {:induction false} InsertMultiset(x: Registration, s: seq<Registration>)
    ensures multiset(Insert(x, s)) == multiset(s) + multiset{x}
  {
    if s != [] {
      InsertMultiset(x, s[..|s| - 1]);
      assert s == s[..|s| - 1] + [s[|s| - 1]];
    }
  }

  lemma {:induction false} InsertSorted(x: Registration, s: seq<Registration>)
    requires Sorted(s)
    ensures Sorted(Insert(x, s))
  {
    if s != [] {
      var n := |s| - 1;
      var last := s[n];
      if Before(last, x) {
        forall i | 0 <= i < n ensures Before(s[i], x) {
          BeforeTransitive(s[i], last, x);
        }
      } else {
        InsertSorted(x, s[..n]);
        var t := Insert(x, s[..n]);
        InsertMultiset(x, s[..n]);
        forall i | 0 <= i < |t| ensures Before(t[i], last) {
          assert t[i] in multiset(t);
          if t[i] != x {
            assert t[i] in s[..n];
          } else {
            BeforeTotal(x, last);
          }
        }
      }
    }
  }

  /** Sorting keeps every item and puts them in order. */
  lemma {:induction false} SortQueueSorts(s: seq<Registration>)
    ensures multiset(SortQueue(s)) == multiset(s)
    ensures Sorted(SortQueue(s))
    ensures |SortQueue(s)| == |s|
  {
    if s != [] {
      var n := |s| - 1;
      SortQueueSorts(s[..n]);
      InsertMultiset(s[n], SortQueue(s[..n]));
      InsertSorted(s[n], SortQueue(s[..n]));
      assert s == s[..n] + [s[n]];
    }
    assert |multiset(SortQueue(s))| == |multiset(s)|;
  }

  ghost predicate SameElements(a: seq<Registration>, b: seq<Registration>) {
    forall r :: r in a <==> r in b
  }

  lemma LastAgrees(a: seq<Registration>, b: seq<Registration>)
    requires Sorted(a) && Sorted(b) && DistinctIds(a) && a != [] && b != []
    requires SameElements(a, b)
    ensures a[|a| - 1] == b[|b| - 1]
  {
    var x, y := a[|a| - 1], b[|b| - 1];
    assert x in a && y in b;
    var i :| 0 <= i < |b| && b[i] == x;
    var j :| 0 <= j < |a| && a[j] == y;
    BeforeTotal(x, x);
    hide Before;
    assert Before(x, y) && Before(y, x);
    BeforeTotal(x, y);
  }

  lemma WithoutLast(a: seq<Registration>)
    requires DistinctIds(a) && a != []
    ensures forall r :: r in a[..|a| - 1] <==> r in a && r != a[|a| - 1]
  {
    var a2, x := a[..|a| - 1], a[|a| - 1];
    assert a == a2 + [x];
    forall r | r in a2 ensures r != x {
      var i :| 0 <= i < |a2| && a2[i] == r;
      assert a[i] == r;
    }
  }

  /** Two sorted queues of the same distinct events are the same list. */
  lemma {:induction false} SortedUnique(a: seq<Registration>, b: seq<Registration>)
    requires Sorted(a) && Sorted(b) && DistinctIds(a) && DistinctIds(b)
    requires SameElements(a, b)
    ensures a == b
  {
    if a == [] {
      assert forall i :: 0 <= i < |b| ==> b[i] in b;
    } else {
      assert a[|a| - 1] in b;
      LastAgrees(a, b);
      WithoutLast(a);
      WithoutLast(b);
      var a2, b2 := a[..|a| - 1], b[..|b| - 1];
      forall r ensures r in a2 <==> r in b2 {
        assert r in a <==> r in b;
      }
      SortedUnique(a2, b2);
      assert a == a2 + [a[|a| - 1]] && b == b2 + [b[|b| - 1]];
    }
  }
}
