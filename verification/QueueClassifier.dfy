/**
 The loops of `classify_pending` and `summarize_pending`, over an already read
 list of raw pending events.
 */
module QueueClassifier {
  import opened Wrappers
  import opened DeliveryLog
  import opened QueueOrder
  import opened DeliveryQueue

  type TargetKey = (string, string)

  function OfTarget(s: seq<Registration>, k: TargetKey): seq<Registration> {
    if s == [] then []
    else
      var before := OfTarget(s[..|s| - 1], k);
      if Target(s[|s| - 1]) == k then before + [s[|s| - 1]] else before
  }

  function Without(s: seq<Registration>, done: set<TargetKey>): seq<Registration> {
    if s == [] then []
    else
      var before := Without(s[..|s| - 1], done);
      if Target(s[|s| - 1]) in done then before else before + [s[|s| - 1]]
  }

  lemma {:induction false} OfTargetMembers(s: seq<Registration>, k: TargetKey, r: Registration)
    ensures r in OfTarget(s, k) <==> r in s && Target(r) == k
  {
    if s != [] {
      OfTargetMembers(s[..|s| - 1], k, r);
      assert s == s[..|s| - 1] + [s[|s| - 1]];
    }
  }

  lemma {:induction false} WithoutNone(s: seq<Registration>)
    ensures Without(s, {}) == s
  {
    if s != [] {
      WithoutNone(s[..|s| - 1]);
      assert s == s[..|s| - 1] + [s[|s| - 1]];
    }
  }

  lemma {:induction false} WithoutAll(s: seq<Registration>, done: set<TargetKey>)
    requires forall r :: r in s ==> Target(r) in done
    ensures Without(s, done) == []
  {
    if s != [] {
      assert s[|s| - 1] in s;
      WithoutAll(s[..|s| - 1], done);
    }
  }

  /** Finishing one more target takes exactly its events out of the rest. */
  lemma {:induction false} WithoutOneMore(s: seq<Registration>, done: set<TargetKey>, k: TargetKey)
    requires k !in done
    ensures multiset(Without(s, done)) == multiset(Without(s, done + {k})) + multiset(OfTarget(s, k))
  {
    if s != [] {
      WithoutOneMore(s[..|s| - 1], done, k);
    }
  }

  lemma EventsSnoc(stale: seq<StaleItem>, item: StaleItem)
    ensures Events(stale + [item]) == Events(stale) + [item.event]
  {
    SnocPrefix(stale, item);
  }

  /** Set aside what cannot be routed and what is too old. */
  method SplitStale(raw: seq<Registration>, now: real, limit: real) returns (candidates: seq<Registration>,
      stale: seq<StaleItem>)
    ensures multiset(candidates) + multiset(Events(stale)) == multiset(raw)
    ensures candidates == Candidates(raw, now, limit)
    ensures forall r :: r in candidates <==> r in raw && Candidate(r, now, limit)
    ensures forall item :: item in stale ==> SetAside(item, now, limit)
  {
    hide *;
    candidates, stale := [], [];
    SplitNone(raw, now, limit);
    for i := 0 to |raw|
      invariant SplitSoFar(raw[..i], candidates, stale, now, limit)
    {
      var data := raw[i];
      assert raw[..i + 1] == raw[..i] + [data];
      SplitStep(raw[..i], candidates, stale, now, limit, data);
      if !Routable(data) {
        stale := stale + [StaleItem(data, NoPane)];
      } else if TooOld(data, now, limit) {
        stale := stale + [StaleItem(data, MaxAge)];
      } else {
        candidates := candidates + [data];
      }
    }
    assert raw[..|raw|] == raw;
    SplitMeans(raw, candidates, stale, now, limit);
  }

  ghost predicate SplitSoFar(raw: seq<Registration>, candidates: seq<Registration>, stale: seq<StaleItem>,
      now: real, limit: real)
  {
    && multiset(candidates) + multiset(Events(stale)) == multiset(raw)
    && candidates == Candidates(raw, now, limit)
    && (forall item :: item in stale ==> SetAside(item, now, limit))
  }

  lemma SplitNone(raw: seq<Registration>, now: real, limit: real)
    ensures SplitSoFar(raw[..0], [], [], now, limit)
  {
  }

  lemma SplitStep(raw: seq<Registration>, candidates: seq<Registration>, stale: seq<StaleItem>, now: real,
      limit: real, data: Registration)
    requires SplitSoFar(raw, candidates, stale, now, limit)
    ensures !Routable(data) ==> SplitSoFar(raw + [data], candidates, stale + [StaleItem(data, NoPane)], now, limit)
    ensures Routable(data) && TooOld(data, now, limit) ==> SplitSoFar(raw + [data], candidates, stale + [StaleItem(data, MaxAge)], now, limit)
    ensures Routable(data) && !TooOld(data, now, limit) ==> SplitSoFar(raw + [data], candidates + [data], stale, now, limit)
  {
    hide Routable, TooOld, Events, Candidates;
    EventsSnoc(stale, StaleItem(data, NoPane));
    EventsSnoc(stale, StaleItem(data, MaxAge));
    CandidatesSnoc(raw, data, now, limit);
  }

  lemma SplitMeans(raw: seq<Registration>, candidates: seq<Registration>, stale: seq<StaleItem>, now: real, limit: real)
    requires SplitSoFar(raw, candidates, stale, now, limit)
    ensures multiset(candidates) + multiset(Events(stale)) == multiset(raw)
    ensures candidates == Candidates(raw, now, limit)
    ensures forall r :: r in candidates <==> r in raw && Candidate(r, now, limit)
    ensures forall item :: item in stale ==> SetAside(item, now, limit)
  {
    hide Candidates;
    forall r
      ensures r in candidates <==> r in raw && Candidate(r, now, limit)
    {
      CandidatesMembers(raw, r, now, limit);
    }
  }

  /** Group by target, in order of first appearance. */
  method GroupByTarget(candidates: seq<Registration>) returns (order: seq<TargetKey>,
      groups: map<TargetKey, seq<Registration>>)
    ensures forall i, j :: 0 <= i < j < |order| ==> order[i] != order[j]
    ensures forall k :: k in groups <==> k in order
    ensures forall k :: k in groups ==> groups[k] == OfTarget(candidates, k) && groups[k] != []
    ensures forall r :: r in candidates ==> Target(r) in groups
  {
    hide *;
    order, groups := [], map[];
    NoneGrouped(candidates);
    for i := 0 to |candidates|
      invariant Grouped(candidates[..i], order, groups)
    {
      var item := candidates[i];
      var key := Target(item);
      assert candidates[..i + 1] == candidates[..i] + [item];
      ghost var order0, groups0 := order, groups;
      if key !in groups {
        order := order + [key];
        groups := groups[key := []];
      }
      groups := groups[key := groups[key] + [item]];
      GroupStep(candidates[..i], order0, groups0, item, order, groups);
    }
    assert candidates[..|candidates|] == candidates;
    GroupedMeans(candidates, order, groups);
  }

  ghost predicate Grouped(s: seq<Registration>, order: seq<TargetKey>, groups: map<TargetKey, seq<Registration>>) {
    && (forall a, b :: 0 <= a < b < |order| ==> order[a] != order[b])
    && (forall k :: k in groups <==> k in order)
    && (forall k :: k in groups ==> groups[k] == OfTarget(s, k) && groups[k] != [])
    && (forall r :: r in s ==> Target(r) in groups)
  }

  lemma NoneGrouped(candidates: seq<Registration>)
    ensures Grouped(candidates[..0], [], map[])
  {
  }

  lemma {:induction false} OfTargetNone(s: seq<Registration>, k: TargetKey)
    requires forall r :: r in s ==> Target(r) != k
    ensures OfTarget(s, k) == []
  {
    if s != [] {
      assert s[|s| - 1] in s;
      OfTargetNone(s[..|s| - 1], k);
    }
  }

  lemma OfTargetSnoc(s: seq<Registration>, item: Registration, j: TargetKey)
    ensures OfTarget(s + [item], j) == if j == Target(item) then OfTarget(s, j) + [item] else OfTarget(s, j)
  {
    SnocPrefix(s, item);
  }

  lemma GroupStep(s: seq<Registration>, order: seq<TargetKey>, groups: map<TargetKey, seq<Registration>>,
      item: Registration,
                  order2: seq<TargetKey>, groups2: map<TargetKey, seq<Registration>>)
    requires Grouped(s, order, groups)
    requires order2 == if Target(item) in groups then order else order + [Target(item)]
    requires groups2 == groups[Target(item) := (if Target(item) in groups then groups[Target(item)] else []) + [item]]
    ensures Grouped(s + [item], order2, groups2)
  {
    var k := Target(item);
    if k !in groups {
      OfTargetNone(s, k);
    }
    forall j | j in groups2 ensures groups2[j] == OfTarget(s + [item], j) && groups2[j] != [] {
      OfTargetSnoc(s, item, j);
    }
    hide Target, OfTarget;
    forall r | r in s + [item] ensures Target(r) in groups2 {
      assert r in s || r == item;
    }
  }

  lemma GroupedMeans(s: seq<Registration>, order: seq<TargetKey>, groups: map<TargetKey, seq<Registration>>)
    requires Grouped(s, order, groups)
    ensures forall i, j :: 0 <= i < j < |order| ==> order[i] != order[j]
    ensures forall k :: k in groups <==> k in order
    ensures forall k :: k in groups ==> groups[k] == OfTarget(s, k) && groups[k] != []
    ensures forall r :: r in s ==> Target(r) in groups
  {
  }

  /** The progress of the loop over groups. */
  ghost predicate Picked(candidates: seq<Registration>, done: set<TargetKey>, kept: seq<Registration>,
      older: seq<StaleItem>)
  {
    && multiset(kept) + multiset(Events(older)) + multiset(Without(candidates, done)) == multiset(candidates)
    && (forall f :: f in kept ==> f in candidates && Target(f) in done)
    && (forall f :: f in kept ==> Tops(f, candidates))
    && (forall k :: k in done ==> Covered(k, kept))
    && (forall item :: item in older ==> OlderThan(item, candidates, kept))
  }

  ghost predicate Covered(k: TargetKey, kept: seq<Registration>) {
    exists f :: f in kept && Target(f) == k
  }

  ghost predicate OlderThan(item: StaleItem, candidates: seq<Registration>, kept: seq<Registration>) {
    item.why == Superseded && item.event in candidates && Displaced(item.event, kept)
  }

  /** No other candidate for `f`'s target comes after it. */
  ghost predicate Tops(f: Registration, candidates: seq<Registration>) {
    forall s :: s in candidates && Target(s) == Target(f) ==> Before(s, f)
  }

  ghost predicate PickedAll(candidates: seq<Registration>, kept: seq<Registration>, older: seq<StaleItem>) {
    exists done :: Picked(candidates, done, kept, older) && Without(candidates, done) == []
  }

  ghost predicate Displaced(r: Registration, kept: seq<Registration>) {
    exists f :: f in kept && Target(f) == Target(r) && f.eventId != r.eventId && Before(r, f)
  }

  /** Mark everything but the last of one sorted group as superseded. */
  method Supersede(group: seq<Registration>) returns (items: seq<StaleItem>)
    ensures |items| == |group| && Events(items) == group
    ensures forall i :: 0 <= i < |group| ==> items[i] == StaleItem(group[i], Superseded)
  {
    items := [];
    for i := 0 to |group|
      invariant |items| == i && Events(items) == group[..i]
      invariant forall j :: 0 <= j < i ==> items[j] == StaleItem(group[j], Superseded)
    {
      EventsSnoc(items, StaleItem(group[i], Superseded));
      items := items + [StaleItem(group[i], Superseded)];
      assert group[..i + 1] == group[..i] + [group[i]];
    }
    assert group[..|group|] == group;
  }

  lemma {:induction false} EventsConcat(a: seq<StaleItem>, b: seq<StaleItem>)
    ensures Events(a + b) == Events(a) + Events(b)
  {
    if b == [] {
      assert a + b == a;
    } else {
      assert (a + b)[..|a + b| - 1] == a + b[..|b| - 1];
      EventsConcat(a, b[..|b| - 1]);
    }
  }

  lemma SameMembers(a: seq<Registration>, b: seq<Registration>)
    requires multiset(a) == multiset(b)
    ensures forall r :: r in a <==> r in b
  {
    forall r ensures r in a <==> r in b {
      assert r in a <==> r in multiset(a);
      assert r in b <==> r in multiset(b);
    }
  }

  lemma GroupMembers(candidates: seq<Registration>, k: TargetKey, group: seq<Registration>)
    requires multiset(group) == multiset(OfTarget(candidates, k))
    ensures forall r :: r in group <==> r in candidates && Target(r) == k
  {
    SameMembers(group, OfTarget(candidates, k));
    forall r ensures r in group <==> r in candidates && Target(r) == k {
      OfTargetMembers(candidates, k, r);
    }
  }

  /** The last of a sorted group is the newest of its target. */
  lemma LastIsNewest(candidates: seq<Registration>, k: TargetKey, group: seq<Registration>)
    requires group != [] && Sorted(group) && multiset(group) == multiset(OfTarget(candidates, k))
    ensures var newest := group[|group| - 1];
            newest in candidates && Target(newest) == k && Tops(newest, candidates)
  {
    GroupMembers(candidates, k, group);
    var newest := group[|group| - 1];
    assert newest in group;
    forall s | s in candidates && Target(s) == k ensures Before(s, newest) {
      assert s in group;
      BeforeTotal(newest, newest);
    }
  }

  /** The others of a sorted group are displaced by its last. */
  lemma OthersDisplaced(candidates: seq<Registration>, k: TargetKey, group: seq<Registration>,
      kept2: seq<Registration>, i: nat)
    requires DistinctIds(candidates) && Sorted(group) && multiset(group) == multiset(OfTarget(candidates, k))
    requires i < |group| - 1 && group[|group| - 1] in kept2
    ensures group[i] in candidates && Displaced(group[i], kept2)
  {
    GroupMembers(candidates, k, group);
    WithoutOneMore(candidates, {}, k);
    WithoutNone(candidates);
    DistinctByCount(group, candidates);
    assert group[i] in group && group[|group| - 1] in group;
  }

  lemma GroupCounted(candidates: seq<Registration>, done: set<TargetKey>, kept: seq<Registration>,
      older: seq<StaleItem>,
                     k: TargetKey, group: seq<Registration>, items: seq<StaleItem>)
    requires multiset(kept) + multiset(Events(older)) + multiset(Without(candidates, done)) == multiset(candidates)
    requires k !in done && group != [] && multiset(group) == multiset(OfTarget(candidates, k))
    requires Events(items) == group[..|group| - 1]
    ensures multiset(kept + [group[|group| - 1]]) + multiset(Events(older + items)) + multiset(Without(candidates, done + {k})) == multiset(candidates)
  {
    hide *;
    var n := |group| - 1;
    WithoutOneMore(candidates, done, k);
    EventsConcat(older, items);
    assert group == group[..n] + [group[n]];
    assert multiset(kept + [group[n]]) == multiset(kept) + multiset{group[n]};
    assert multiset(Events(older) + group[..n]) == multiset(Events(older)) + multiset(group[..n]);
    assert multiset(group) == multiset(group[..n]) + multiset{group[n]};
    Reshuffle(multiset(kept), multiset(Events(older)), multiset(Without(candidates, done)), multiset(Without(candidates, done + {k})),
              multiset(group), multiset(group[..n]), multiset{group[n]}, multiset(candidates));
  }

  lemma Reshuffle<T>(a: multiset<T>, b: multiset<T>, w: multiset<T>, w2: multiset<T>, g: multiset<T>,
      g2: multiset<T>, x: multiset<T>, c: multiset<T>)
    requires a + b + w == c && w == w2 + g && g == g2 + x
    ensures (a + x) + (b + g2) + w2 == c
  {
  }

  lemma StillDisplaced(r: Registration, kept: seq<Registration>, newest: Registration)
    requires Displaced(r, kept)
    ensures Displaced(r, kept + [newest])
  {
    var f :| f in kept && Target(f) == Target(r) && f.eventId != r.eventId && Before(r, f);
    assert f in kept + [newest];
  }

  lemma OlderDisplaced(candidates: seq<Registration>, k: TargetKey, group: seq<Registration>,
                       kept: seq<Registration>, older: seq<StaleItem>, items: seq<StaleItem>)
    requires DistinctIds(candidates) && group != [] && Sorted(group) && multiset(group) == multiset(OfTarget(candidates, k))
    requires forall item :: item in older ==> OlderThan(item, candidates, kept)
    requires |items| == |group| - 1 && forall i :: 0 <= i < |items| ==> items[i] == StaleItem(group[i], Superseded)
    ensures forall item :: item in older + items ==> OlderThan(item, candidates, kept + [group[|group| - 1]])
  {
    var newest := group[|group| - 1];
    forall item | item in older + items ensures OlderThan(item, candidates, kept + [newest]) {
      if item in items {
        var i :| 0 <= i < |items| && items[i] == item;
        OthersDisplaced(candidates, k, group, kept + [newest], i);
      } else {
        StillDisplaced(item.event, kept, newest);
      }
    }
  }

  lemma TargetsCovered(kept: seq<Registration>, done: set<TargetKey>, newest: Registration)
    requires forall k :: k in done ==> Covered(k, kept)
    ensures forall k :: k in done + {Target(newest)} ==> Covered(k, kept + [newest])
  {
    forall k | k in done + {Target(newest)} ensures Covered(k, kept + [newest]) {
      if k in done {
        var f :| f in kept && Target(f) == k;
        assert f in kept + [newest];
      } else {
        assert newest in kept + [newest];
      }
    }
  }

  lemma GroupPicked(candidates: seq<Registration>, done: set<TargetKey>, kept: seq<Registration>, older: seq<StaleItem>,
                    k: TargetKey, group: seq<Registration>, items: seq<StaleItem>)
    requires DistinctIds(candidates) && Picked(candidates, done, kept, older)
    requires k !in done && group != [] && Sorted(group) && multiset(group) == multiset(OfTarget(candidates, k))
    requires Events(items) == group[..|group| - 1] && |items| == |group| - 1
    requires forall i :: 0 <= i < |items| ==> items[i] == StaleItem(group[i], Superseded)
    ensures Picked(candidates, done + {k}, kept + [group[|group| - 1]], older + items)
  {
    hide *;
    var newest := group[|group| - 1];
    PickedParts(candidates, done, kept, older);
    GroupCounted(candidates, done, kept, older, k, group, items);
    LastIsNewest(candidates, k, group);
    OlderDisplaced(candidates, k, group, kept, older, items);
    TargetsCovered(kept, done, newest);
    KeptGrows(candidates, done, kept, k, newest);
    AssemblePicked(candidates, done + {k}, kept + [newest], older + items);
  }

  lemma PickedParts(candidates: seq<Registration>, done: set<TargetKey>, kept: seq<Registration>, older: seq<StaleItem>)
    requires Picked(candidates, done, kept, older)
    ensures multiset(kept) + multiset(Events(older)) + multiset(Without(candidates, done)) == multiset(candidates)
    ensures forall f :: f in kept ==> f in candidates && Target(f) in done
    ensures forall f :: f in kept ==> Tops(f, candidates)
    ensures forall k :: k in done ==> Covered(k, kept)
    ensures forall item :: item in older ==> OlderThan(item, candidates, kept)
  {
  }

  lemma AssemblePicked(candidates: seq<Registration>, done: set<TargetKey>, kept: seq<Registration>,
      older: seq<StaleItem>)
    requires multiset(kept) + multiset(Events(older)) + multiset(Without(candidates, done)) == multiset(candidates)
    requires forall f :: f in kept ==> f in candidates && Target(f) in done
    requires forall f :: f in kept ==> Tops(f, candidates)
    requires forall k :: k in done ==> Covered(k, kept)
    requires forall item :: item in older ==> OlderThan(item, candidates, kept)
    ensures Picked(candidates, done, kept, older)
  {
  }

  lemma KeptGrows(candidates: seq<Registration>, done: set<TargetKey>, kept: seq<Registration>, k: TargetKey,
      newest: Registration)
    requires forall f :: f in kept ==> f in candidates && Target(f) in done
    requires forall f :: f in kept ==> Tops(f, candidates)
    requires newest in candidates && Target(newest) == k && Tops(newest, candidates)
    ensures forall f :: f in kept + [newest] ==> f in candidates && Target(f) in done + {k}
    ensures forall f :: f in kept + [newest] ==> Tops(f, candidates)
  {
    hide Tops, Target;
  }

  /** The newest event of every target, and the rest as superseded. */
  method PickNewest(candidates: seq<Registration>) returns (kept: seq<Registration>, older: seq<StaleItem>)
    requires DistinctIds(candidates)
    ensures PickedAll(candidates, kept, older)
  {
    hide *;
    var order, groups := GroupByTarget(candidates);
    kept, older := [], [];
    NonePicked(candidates, order);
    for j := 0 to |order|
      invariant Picked(candidates, Keys(order[..j]), kept, older)
    {
      assert order[j] in order;
      var group := SortQueue(groups[order[j]]);
      SortQueueSorts(groups[order[j]]);
      var n := |group| - 1;
      var items := Supersede(group[..n]);
      KeysSnoc(order, j);
      GroupPicked(candidates, Keys(order[..j]), kept, older, order[j], group, items);
      older := older + items;
      kept := kept + [group[n]];
    }
    AllPicked(candidates, order, kept, older);
  }

  lemma NonePicked(candidates: seq<Registration>, order: seq<TargetKey>)
    ensures Picked(candidates, Keys(order[..0]), [], [])
  {
    WithoutNone(candidates);
    assert Keys(order[..0]) == {};
  }

  lemma AllPicked(candidates: seq<Registration>, order: seq<TargetKey>, kept: seq<Registration>, older: seq<StaleItem>)
    requires forall r :: r in candidates ==> Target(r) in order
    requires Picked(candidates, Keys(order[..|order|]), kept, older)
    ensures PickedAll(candidates, kept, older)
  {
    assert order[..|order|] == order;
    WithoutAll(candidates, Keys(order));
  }

  function Keys(order: seq<TargetKey>): set<TargetKey> {
    set k | k in order
  }

  lemma KeysSnoc(order: seq<TargetKey>, j: nat)
    requires j < |order| && forall a, b :: 0 <= a < b < |order| ==> order[a] != order[b]
    ensures order[j] !in Keys(order[..j])
    ensures Keys(order[..j + 1]) == Keys(order[..j]) + {order[j]}
  {
    assert order[..j + 1] == order[..j] + [order[j]];
  }

  /** The whole split, deduplicated per target and sorted. */
  method Classify(raw: seq<Registration>, now: real, limit: real) returns (kept: seq<Registration>,
      stale: seq<StaleItem>)
    requires DistinctIds(raw)
    ensures Classified(raw, kept, stale, now, limit)
  {
    hide *;
    var candidates, aside := SplitStale(raw, now, limit);
    DistinctByCount(candidates, raw);
    var picked, older := PickNewest(candidates);
    SortQueueSorts(picked);
    kept := SortQueue(picked);
    stale := aside + older;
    PickedIsClassified(raw, candidates, picked, aside, older, now, limit);
    SortedIsClassified(raw, candidates, picked, aside, older, kept, now, limit);
  }

  lemma SortedIsClassified(raw: seq<Registration>, candidates: seq<Registration>, picked: seq<Registration>,
      aside: seq<StaleItem>,
                           older: seq<StaleItem>, kept: seq<Registration>, now: real, limit: real)
    requires multiset(candidates) + multiset(Events(aside)) == multiset(raw)
    requires forall r :: r in picked <==> r in raw && Candidate(r, now, limit) && Newest(r, raw, now, limit)
    requires forall item :: item in aside + older ==> Justified(item, picked, now, limit)
    requires multiset(picked) + multiset(Events(older)) == multiset(candidates)
    requires multiset(kept) == multiset(picked) && Sorted(kept)
    ensures Classified(raw, kept, aside + older, now, limit)
  {
    hide *;
    EventsConcat(aside, older);
    SameMembers(kept, picked);
    JustifiedBy(aside + older, picked, kept, now, limit);
    assert multiset(Events(aside) + Events(older)) == multiset(Events(aside)) + multiset(Events(older));
    Regroup(multiset(candidates), multiset(Events(aside)), multiset(raw), multiset(picked), multiset(Events(older)));
    forall r ensures r in kept <==> r in raw && Candidate(r, now, limit) && Newest(r, raw, now, limit) {
      assert r in kept <==> r in picked;
    }
    MakeClassified(raw, kept, aside + older, now, limit);
  }

  lemma MakeClassified(raw: seq<Registration>, kept: seq<Registration>, stale: seq<StaleItem>, now: real, limit: real)
    requires multiset(kept) + multiset(Events(stale)) == multiset(raw)
    requires Sorted(kept)
    requires forall r :: r in kept <==> r in raw && Candidate(r, now, limit) && Newest(r, raw, now, limit)
    requires forall item :: item in stale ==> Justified(item, kept, now, limit)
    ensures Classified(raw, kept, stale, now, limit)
  {
    hide Candidate, Newest, Justified, Sorted, Events;
  }

  lemma Regroup<T>(c: multiset<T>, a: multiset<T>, raw: multiset<T>, p: multiset<T>, o: multiset<T>)
    requires c + a == raw && p + o == c
    ensures p + (a + o) == raw
  {
  }

  lemma JustifiedBy(stale: seq<StaleItem>, picked: seq<Registration>, kept: seq<Registration>, now: real, limit: real)
    requires forall item :: item in stale ==> Justified(item, picked, now, limit)
    requires forall r :: r in kept <==> r in picked
    ensures forall item :: item in stale ==> Justified(item, kept, now, limit)
  {
  }

  lemma PickedIsClassified(raw: seq<Registration>, candidates: seq<Registration>, picked: seq<Registration>,
                           aside: seq<StaleItem>, older: seq<StaleItem>, now: real, limit: real)
    requires DistinctIds(raw)
    requires forall r :: r in candidates <==> r in raw && Candidate(r, now, limit)
    requires forall item :: item in aside ==> SetAside(item, now, limit)
    requires PickedAll(candidates, picked, older)
    ensures forall r :: r in picked <==> r in raw && Candidate(r, now, limit) && Newest(r, raw, now, limit)
    ensures forall item :: item in aside + older ==> Justified(item, picked, now, limit)
    ensures multiset(picked) + multiset(Events(older)) == multiset(candidates)
  {
    var done :| Picked(candidates, done, picked, older) && Without(candidates, done) == [];
    assert multiset(Without(candidates, done)) == multiset{};
    forall r ensures r in picked <==> r in raw && Candidate(r, now, limit) && Newest(r, raw, now, limit) {
      if r in raw && Candidate(r, now, limit) && Newest(r, raw, now, limit) {
        if Target(r) !in done {
          NotDoneStays(candidates, done, r);
        }
        assert Covered(Target(r), picked);
        var f :| f in picked && Target(f) == Target(r);
        BeforeTotal(f, r);
        assert f.eventId == r.eventId;
      }
    }
    forall item | item in aside + older ensures Justified(item, picked, now, limit) {
      if item in older {
        assert OlderThan(item, candidates, picked);
      }
    }
  }

  lemma {:induction false} NotDoneStays(s: seq<Registration>, done: set<TargetKey>, r: Registration)
    requires r in s && Target(r) !in done
    ensures r in Without(s, done)
  {
    if r != s[|s| - 1] {
      assert s == s[..|s| - 1] + [s[|s| - 1]];
      NotDoneStays(s[..|s| - 1], done, r);
    }
  }

  ghost predicate DistinctTargets(s: seq<Registration>) {
    && (forall r :: r in s ==> Routable(r))
    && (forall i, j :: 0 <= i < j < |s| ==> Target(s[i]) != Target(s[j]))
  }

  /** `targets` lists each routable target of `s` once. */
  ghost predicate Counted(s: seq<Registration>, targets: seq<TargetKey>) {
    && (forall i, j :: 0 <= i < j < |targets| ==> targets[i] != targets[j])
    && (forall k :: k in targets ==> HasTarget(s, k))
    && (forall r :: r in s && Routable(r) ==> Target(r) in targets)
    && |targets| <= |s|
    && (DistinctTargets(s) ==> |targets| == |s|)
  }

  ghost predicate HasTarget(s: seq<Registration>, k: TargetKey) {
    exists r :: r in s && Routable(r) && Target(r) == k
  }

  lemma CountNone(s: seq<Registration>)
    ensures Counted(s[..0], [])
  {
  }

  lemma CountStep(s: seq<Registration>, targets: seq<TargetKey>, p: Registration)
    requires Counted(s, targets)
    ensures Counted(s + [p], if Routable(p) && Target(p) !in targets then targets + [Target(p)] else targets)
  {
    var s2, k := s + [p], Target(p);
    var t2 := if Routable(p) && k !in targets then targets + [k] else targets;
    forall j | j in t2 ensures HasTarget(s2, j) {
      if j in targets {
        var r :| r in s && Routable(r) && Target(r) == j;
        assert r in s2;
      } else {
        assert p in s2;
      }
    }
    forall r | r in s2 && Routable(r) ensures Target(r) in t2 {
      assert r in s || r == p;
    }
    if DistinctTargets(s2) {
      DistinctStep(s, p);
      assert k !in targets;
    }
  }

  lemma DistinctStep(s: seq<Registration>, p: Registration)
    requires DistinctTargets(s + [p])
    ensures DistinctTargets(s) && Routable(p) && !HasTarget(s, Target(p))
  {
    var s2 := s + [p];
    assert p in s2 && s2[|s|] == p;
    forall r | r in s ensures Routable(r) && Target(r) != Target(p) {
      assert r in s2;
      var i :| 0 <= i < |s| && s[i] == r;
      assert s2[i] == r;
    }
    forall i, j | 0 <= i < j < |s| ensures Target(s[i]) != Target(s[j]) {
      assert s2[i] == s[i] && s2[j] == s[j];
    }
  }

  /** The spoken count: distinct routable targets. */
  method CountTargets(pending: seq<Registration>) returns (targets: seq<TargetKey>)
    ensures Counted(pending, targets)
  {
    hide *;
    targets := [];
    CountNone(pending);
    for i := 0 to |pending|
      invariant Counted(pending[..i], targets)
    {
      CountStep(pending[..i], targets, pending[i]);
      assert pending[..i + 1] == pending[..i] + [pending[i]];
      if Routable(pending[i]) && Target(pending[i]) !in targets {
        targets := targets + [Target(pending[i])];
      }
    }
    assert pending[..|pending|] == pending;
  }

  /** The announced count of a fresh list is its length. */
  lemma FreshCount(raw: seq<Registration>, kept: seq<Registration>, stale: seq<StaleItem>, now: real,
      limit: real, targets: seq<TargetKey>)
    requires DistinctIds(raw) && Classified(raw, kept, stale, now, limit) && Counted(kept, targets)
    ensures |targets| == |kept|
  {
    OneFreshPerTarget(raw, kept, stale, now, limit);
  }
}
