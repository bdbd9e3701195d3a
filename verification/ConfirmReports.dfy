/**
 What the bridge scan reports, said without the scan: which left parts are still open at
 a position is read off the transcript, and the reports follow from that.
 */
module ConfirmReports {
  import opened Wrappers
  import opened ConfirmProjection
  import opened ConfirmFacts
  import opened ConfirmBridge

  // ---------------------------------------------------------------- what is open, by the transcript alone

  /** `l` is the last left part that starts before `m`. */
  ghost predicate LastLeft(c: Scene, l: Left, m: nat)
    requires Sized(c)
  {
    LeftAt(c, l) && l.start < m && forall k: Left :: LeftAt(c, k) && k.start < m ==> k.start <= l.start
  }

  /** The raw space at `k` continues the raw space that directly follows the last left part before it. */
  ghost predicate Kept(c: Scene, k: nat)
    requires Sized(c) && k < |c.p.text|
  {
    exists l: Left :: LastLeft(c, l, k) && RawSpace(c, l.end) && SameSource(c, l.end, k)
  }

  /** A right part inside a word, beyond the last left part: it closes whatever is open. */
  ghost predicate Ends(c: Scene, j: nat)
    requires Sized(c)
  {
    Embedded(c, j) && exists l: Left :: LastLeft(c, l, j + 1) && l.end < j
  }

  /** A left part that opens an ordinary candidate. */
  predicate Opens(c: Scene, e: Left)
    requires Sized(c)
  {
    LeftAt(c, e) && (RawSpace(c, e.end) ==> c.p.compat[c.p.rawIndices[e.end]])
  }

  /** Of the left parts before `m`, one that the raw spaces before `spaces` and the right parts before `ends` leave open. */
  ghost predicate Open(c: Scene, e: Left, m: nat, spaces: nat, ends: nat)
    requires Sized(c) && spaces <= |c.p.text|
  {
    && Opens(c, e) && e.start < m
    && (forall k :: e.start < k < spaces && RawSpace(c, k) ==> Kept(c, k))
    && (forall j :: e.start <= j < ends ==> !Ends(c, j))
  }

  /** The last left part before `m`, with only the raw space that directly follows it behind it. */
  ghost predicate SpaceOpen(c: Scene, l: Left, m: nat, spaces: nat, ends: nat)
    requires Sized(c) && spaces <= |c.p.text|
  {
    && LastLeft(c, l, m) && RawSpace(c, l.end)
    && (forall k :: l.start < k < spaces && RawSpace(c, k) ==> SameSource(c, l.end, k))
    && (forall j :: l.start <= j < ends ==> !Ends(c, j))
  }

  // ---------------------------------------------------------------- the scan's states are exactly that

  /** The ordinary candidates are the first and the last that are open. */
  ghost predicate OrdinaryExact(c: Scene, s: State, m: nat, spaces: nat, ends: nat)
    requires Sized(c) && spaces <= |c.p.text|
  {
    && (s.earliest.Some? && s.latest.Some? ==>
          Open(c, s.earliest.value, m, spaces, ends) && Open(c, s.latest.value, m, spaces, ends))
    && (forall e: Left :: Open(c, e, m, spaces, ends) ==>
          s.earliest.Some? && s.latest.Some? && s.earliest.value.start <= e.start <= s.latest.value.start)
  }

  /** The fallback is the last left part, and has a raw space exactly if it is open over its own. */
  ghost predicate FallbackExact(c: Scene, s: State, m: nat, spaces: nat, ends: nat)
    requires Sized(c) && spaces <= |c.p.text|
  {
    && (s.left.Some? ==> LastLeft(c, s.left.value, m) && (s.lastRawSpace.None? ==> s.latest == s.left))
    && (s.left.Some? && s.lastRawSpace.Some? ==>
          SpaceOpen(c, s.left.value, m, spaces, ends) && LatestSpace(c, s.left.value, s.lastRawSpace.value, spaces))
    && (forall l: Left :: SpaceOpen(c, l, m, spaces, ends) ==> s.left == Some(l) && s.lastRawSpace.Some?)
  }

  /** The last raw space reached behind `l`, or the one at its end, reached or not. */
  ghost predicate LatestSpace(c: Scene, l: Left, last: nat, spaces: nat)
    requires Sized(c) && spaces <= |c.p.text|
  {
    && (last == l.end || last < spaces)
    && forall k :: l.end <= k < spaces && RawSpace(c, k) ==> k <= last
  }

  ghost predicate Exact(c: Scene, s: State, m: nat, spaces: nat, ends: nat)
    requires Sized(c) && spaces <= |c.p.text|
  {
    OrdinaryExact(c, s, m, spaces, ends) && FallbackExact(c, s, m, spaces, ends)
  }

  lemma LastIsOne(c: Scene, a: Left, b: Left, m: nat)
    requires Sized(c) && LastLeft(c, a, m) && LastLeft(c, b, m)
    ensures a == b
  {
  }

  /** The last left part before `m` is the last before any position between. */
  lemma StillLast(c: Scene, l: Left, m: nat, k: nat)
    requires Sized(c) && LastLeft(c, l, m) && l.start < k <= m
    ensures LastLeft(c, l, k)
  {
  }

  lemma {:induction false} SomeLast(c: Scene, e: Left, m: nat) returns (l: Left)
    requires Sized(c) && LeftAt(c, e) && e.start < m
    ensures LastLeft(c, l, m) && e.start <= l.start
    decreases m - e.start
  {
    hide LiteralAt;
    if k: Left :| LeftAt(c, k) && e.start < k.start < m {
      l := SomeLast(c, k, m);
    } else {
      l := e;
    }
  }

  lemma KeptBy(c: Scene, l: Left, m: nat, k: nat)
    requires Sized(c) && LastLeft(c, l, m) && l.start < k < m && k < |c.p.text| && Kept(c, k)
    ensures RawSpace(c, l.end) && SameSource(c, l.end, k)
  {
    hide LiteralAt;
    var o: Left :| LastLeft(c, o, k) && RawSpace(c, o.end) && SameSource(c, o.end, k);
    StillLast(c, l, m, k);
    LastIsOne(c, o, l, k);
  }

  /** While anything is open, the last left part is open too: over its own raw space, or as an ordinary candidate. */
  lemma LastIsOpen(c: Scene, e: Left, l: Left, m: nat, spaces: nat, ends: nat)
    requires Sized(c) && spaces <= |c.p.text| && spaces <= m && Open(c, e, m, spaces, ends) && LastLeft(c, l, m)
    ensures RawSpace(c, l.end) ==> SpaceOpen(c, l, m, spaces, ends)
    ensures !RawSpace(c, l.end) ==> Open(c, l, m, spaces, ends)
  {
    hide LiteralAt, Ends, Kept;
    if RawSpace(c, l.end) {
      forall k | l.start < k < spaces && RawSpace(c, k)
        ensures SameSource(c, l.end, k)
      {
        KeptBy(c, l, m, k);
      }
    }
  }

  /** The active candidate is the last left part. */
  lemma ActiveIsLast(c: Scene, s: State, m: nat, spaces: nat, ends: nat) returns (l: Left)
    requires Sized(c) && spaces <= |c.p.text| && spaces <= m && Ordered(c, m, s) && Exact(c, s, m, spaces, ends)
    requires s.earliest.Some? || s.left.Some?
    ensures LastLeft(c, l, m) && ActiveEnd(s) == l.end
  {
    hide LiteralAt, Ends, Kept;
    if s.left.Some? {
      l := s.left.value;
    } else {
      l := SomeLast(c, s.earliest.value, m);
      LastIsOpen(c, s.earliest.value, l, m, spaces, ends);
      assert LeftAt(c, s.latest.value);
    }
  }

  /** A raw space that is kept while something is open is the fallback's own. */
  lemma KeptIsInitial(c: Scene, i: nat, s: State, e: Left)
    requires Sized(c) && i < |c.p.text| && Ordered(c, i, s) && ScanInv(c, i, s) && Exact(c, s, i, i, i)
    requires RawSpace(c, i) && Kept(c, i) && Open(c, e, i, i, i)
    ensures IsInitial(c, i, s)
  {
    hide LiteralAt, Ends, Kept, Owned, OrdinaryInv, OrdinaryExact;
    var o := KeptLeft(c, i);
    LastIsOpen(c, e, o, i, i, i);
    assert SpaceOpen(c, o, i, i, i);
    FallbackSpace(c, i, s);
  }

  lemma KeptLeft(c: Scene, i: nat) returns (o: Left)
    requires Sized(c) && i < |c.p.text| && Kept(c, i)
    ensures LastLeft(c, o, i) && RawSpace(c, o.end) && SameSource(c, o.end, i)
  {
    o :| LastLeft(c, o, i) && RawSpace(c, o.end) && SameSource(c, o.end, i);
  }

  /** The fallback's last raw space is a raw space of its own source. */
  lemma FallbackSpace(c: Scene, i: nat, s: State)
    requires Sized(c) && i <= |c.p.text| && FallbackInv(c, i, s) && s.left.Some? && s.lastRawSpace.Some?
    ensures s.left.value.end < |c.p.text| && s.lastRawSpace.value < |c.p.text|
    ensures SameSource(c, s.left.value.end, s.lastRawSpace.value) && RawSpace(c, s.lastRawSpace.value)
  {
  }

  lemma NoSpaceExact(c: Scene, i: nat, s: State)
    requires Sized(c) && i < |c.p.text| && Ordered(c, i, s) && Exact(c, s, i, i, i) && !RawSpace(c, i)
    ensures Exact(c, s, i, i + 1, i)
  {
    hide LiteralAt, Ends, Kept, LeftAt, LastLeft;
    forall e: Left
      ensures Open(c, e, i, i + 1, i) <==> Open(c, e, i, i, i)
      ensures SpaceOpen(c, e, i, i + 1, i) <==> SpaceOpen(c, e, i, i, i)
    {
    }
  }

  lemma InitialExact(c: Scene, i: nat, s: State)
    requires Sized(c) && i < |c.p.text| && Ordered(c, i, s) && ScanInv(c, i, s) && Exact(c, s, i, i, i)
    requires RawSpace(c, i) && IsInitial(c, i, s)
    ensures Exact(c, s.(lastRawSpace := Some(i)), i, i + 1, i)
  {
    hide LiteralAt, Ends, LeftAt, OrdinaryInv, Owned;
    var l := s.left.value;
    FallbackSpace(c, i, s);
    assert Kept(c, i) by {
      assert LastLeft(c, l, i) && SameSource(c, l.end, i);
    }
    hide Kept, FallbackInv;
    forall e: Left
      ensures Open(c, e, i, i + 1, i) <==> Open(c, e, i, i, i)
    {
    }
    forall e: Left
      ensures SpaceOpen(c, e, i, i + 1, i) <==> SpaceOpen(c, e, i, i, i)
    {
      if SpaceOpen(c, e, i, i, i) {
        LastIsOne(c, e, l, i);
      }
    }
  }

  lemma ClosingExact(c: Scene, i: nat, n: nat, s: State)
    requires Sized(c) && i < |c.p.text| && n == i + 1 && Ordered(c, i, s) && ScanInv(c, i, s) && Exact(c, s, i, i, i)
    requires RawSpace(c, i) && !IsInitial(c, i, s)
    ensures Exact(c, Closed, i, n, i)
  {
    hide LiteralAt, Ends, Kept, LeftAt, OrdinaryInv, Owned;
    forall e: Left
      ensures !Open(c, e, i, n, i)
    {
      if Open(c, e, i, i, i) && Kept(c, i) {
        KeptIsInitial(c, i, s, e);
      }
    }
    forall l: Left
      ensures !SpaceOpen(c, l, i, n, i)
    {
      if SpaceOpen(c, l, i, i, i) {
        FallbackSpace(c, i, s);
      }
    }
  }

  lemma SpacedExact(c: Scene, i: nat, s: State)
    requires Sized(c) && i < |c.p.text| && Ordered(c, i, s) && ScanInv(c, i, s) && Exact(c, s, i, i, i)
    ensures Exact(c, Spaced(c, i, s), i, i + 1, i)
  {
    hide LiteralAt, Ends, Kept, Owned, Exact;
    if !RawSpace(c, i) {
      NoSpaceExact(c, i, s);
    } else if IsInitial(c, i, s) {
      InitialExact(c, i, s);
    } else {
      ClosingExact(c, i, i + 1, s);
    }
  }

  /** Nothing starts at a position without a left part of its own. */
  lemma NothingNew(c: Scene, i: nat, n: nat, spaces: nat)
    requires Sized(c) && i < |c.p.text| && n == i + 1 && spaces <= |c.p.text| && !LeftAt(c, Left(i, i + |c.left|))
    ensures forall e: Left :: LastLeft(c, e, n) <==> LastLeft(c, e, i)
    ensures forall e: Left :: Open(c, e, n, spaces, i) <==> Open(c, e, i, spaces, i)
    ensures forall e: Left :: SpaceOpen(c, e, n, spaces, i) <==> SpaceOpen(c, e, i, spaces, i)
  {
    hide LiteralAt, Ends, Kept, RawSpace, SameSource;
  }

  lemma NoLeftExact(c: Scene, i: nat, n: nat, s: State)
    requires Sized(c) && i < |c.p.text| && n == i + 1 && Exact(c, s, i, n, i) && !LeftAt(c, Left(i, i + |c.left|))
    ensures Exact(c, s, n, n, i)
  {
    NothingNew(c, i, n, n);
    hide LastLeft, LeftAt, LiteralAt, Ends, Kept, Open, SpaceOpen, LatestSpace;
  }

  lemma NewIsLast(c: Scene, i: nat, n: nat, l: Left)
    requires Sized(c) && n == i + 1 && LeftAt(c, l) && l.start == i
    ensures forall k: Left :: LastLeft(c, k, n) <==> k == l
  {
    hide LiteralAt;
  }

  /** A left part opens at its own position, if it is of the kind that does, and closes nothing. */
  lemma NewIsOpen(c: Scene, i: nat, n: nat, l: Left)
    requires Sized(c) && i < |c.p.text| && n == i + 1 && LeftAt(c, l) && l.start == i
    ensures forall e: Left :: Open(c, e, n, n, i) <==> Open(c, e, i, n, i) || (e == l && Opens(c, l))
    ensures forall e: Left :: Open(c, e, i, n, i) ==> e.start < i
  {
    hide LiteralAt, Ends, Kept;
  }

  lemma NewSpaceOpen(c: Scene, i: nat, n: nat, l: Left)
    requires Sized(c) && i < |c.p.text| && n == i + 1 && LeftAt(c, l) && l.start == i
    ensures forall k: Left :: SpaceOpen(c, k, n, n, i) <==> k == l && RawSpace(c, l.end)
    ensures LatestSpace(c, l, l.end, n)
  {
    NewIsLast(c, i, n, l);
    hide LiteralAt, Ends, Kept, LastLeft;
  }

  lemma OrdinaryOpened(c: Scene, i: nat, n: nat, s: State, l: Left)
    requires Sized(c) && i < |c.p.text| && n == i + 1 && Ordered(c, i, s) && OrdinaryExact(c, s, i, n, i)
    requires LeftAt(c, l) && l == Left(i, i + |c.left|)
    ensures OrdinaryExact(c, Opened(c, i, s), n, n, i)
  {
    NewIsOpen(c, i, n, l);
    hide LastLeft, LeftAt, LiteralAt, Open, ExpansionSource, RawSpace;
  }

  lemma FallbackOpened(c: Scene, i: nat, n: nat, s: State, l: Left)
    requires Sized(c) && i < |c.p.text| && n == i + 1 && Ordered(c, i, s)
    requires LeftAt(c, l) && l == Left(i, i + |c.left|)
    ensures FallbackExact(c, Opened(c, i, s), n, n, i)
  {
    NewIsLast(c, i, n, l);
    NewSpaceOpen(c, i, n, l);
    hide LastLeft, LeftAt, LiteralAt, SpaceOpen, ExpansionSource, LatestSpace, RawSpace;
  }

  lemma OpenedExact(c: Scene, i: nat, s: State)
    requires Sized(c) && i < |c.p.text| && Ordered(c, i, s) && Exact(c, s, i, i + 1, i)
    ensures Exact(c, Opened(c, i, s), i + 1, i + 1, i)
  {
    hide LastLeft, LeftAt, LiteralAt, OrdinaryExact, FallbackExact;
    var l := Left(i, i + |c.left|);
    if !LeftAt(c, l) {
      NoLeftExact(c, i, i + 1, s);
    } else {
      OrdinaryOpened(c, i, i + 1, s, l);
      FallbackOpened(c, i, i + 1, s, l);
    }
  }

  /** Closing at a right part inside a word is exactly what leaves nothing open. */
  lemma ShutExact(c: Scene, i: nat, s: State)
    requires Sized(c) && i < |c.p.text| && Ordered(c, i + 1, s) && Exact(c, s, i + 1, i + 1, i)
    ensures Exact(c, Shut(c, i, s).0, i + 1, i + 1, i + 1)
  {
    hide LiteralAt, Kept, LeftAt, RawSpace, SameSource, Report, Embedded, Exact, Ends, ActiveEnd;
    if Ends(c, i) {
      EndedExact(c, i, s);
    } else {
      NotEndedExact(c, i, s);
    }
  }

  lemma ClosedIsExact(c: Scene, i: nat, n: nat)
    requires Sized(c) && i < |c.p.text| && n == i + 1 && Ends(c, i)
    ensures Exact(c, Closed, n, n, n)
  {
    hide LiteralAt, Kept, LeftAt, RawSpace, SameSource, Ends;
    forall e: Left
      ensures !Open(c, e, n, n, n) && !SpaceOpen(c, e, n, n, n)
    {
    }
  }

  lemma EndsIf(c: Scene, i: nat, l: Left)
    requires Sized(c) && LastLeft(c, l, i + 1)
    ensures Ends(c, i) <==> Embedded(c, i) && l.end < i
  {
    hide LiteralAt, LeftAt, Embedded;
    if Ends(c, i) {
      var k: Left :| LastLeft(c, k, i + 1) && k.end < i;
      LastIsOne(c, k, l, i + 1);
    }
  }

  lemma EndsIsEmbedded(c: Scene, i: nat)
    requires Sized(c) && Ends(c, i)
    ensures Embedded(c, i) && LiteralAt(c.u, c.p.text, i, c.right)
  {
  }

  lemma NothingActive(s: State)
    requires s.left.None? && s.latest.None?
    ensures ActiveEnd(s) == -1
  {
  }

  lemma EndedExact(c: Scene, i: nat, s: State)
    requires Sized(c) && i < |c.p.text| && Ordered(c, i + 1, s) && Exact(c, s, i + 1, i + 1, i) && Ends(c, i)
    ensures Exact(c, Shut(c, i, s).0, i + 1, i + 1, i + 1)
  {
    hide LiteralAt, Kept, LeftAt, RawSpace, SameSource, Report, Embedded, Exact, Ends, ActiveEnd;
    ClosedIsExact(c, i, i + 1);
    EndsIsEmbedded(c, i);
    if s.earliest.Some? || s.left.Some? {
      var l := ActiveIsLast(c, s, i + 1, i + 1, i);
      EndsIf(c, i, l);
    } else {
      NothingActive(s);
    }
  }

  /** Unless a right part ends what is open, the same is open after it. */
  lemma SameAfter(c: Scene, i: nat, n: nat)
    requires Sized(c) && i < |c.p.text| && n == i + 1 && !Ends(c, i)
    ensures forall e: Left :: Open(c, e, n, n, n) <==> Open(c, e, n, n, i)
    ensures forall e: Left :: SpaceOpen(c, e, n, n, n) <==> SpaceOpen(c, e, n, n, i)
  {
    hide LiteralAt, Kept, LeftAt, RawSpace, SameSource, Ends;
  }

  lemma SameExact(c: Scene, i: nat, n: nat, s: State)
    requires Sized(c) && i < |c.p.text| && n == i + 1 && Exact(c, s, n, n, i) && !Ends(c, i)
    ensures Exact(c, s, n, n, n)
    ensures s.earliest.None? && s.latest.None? && s.left.None? ==> Exact(c, Closed, n, n, n)
  {
    SameAfter(c, i, n);
    hide LastLeft, LeftAt, LiteralAt, Ends, Kept, Open, SpaceOpen, LatestSpace;
  }

  lemma NotEndedExact(c: Scene, i: nat, s: State)
    requires Sized(c) && i < |c.p.text| && Ordered(c, i + 1, s) && Exact(c, s, i + 1, i + 1, i) && !Ends(c, i)
    ensures Exact(c, Shut(c, i, s).0, i + 1, i + 1, i + 1)
  {
    hide LiteralAt, Kept, LeftAt, RawSpace, SameSource, Report, Embedded, Exact, Ends, ActiveEnd;
    SameExact(c, i, i + 1, s);
    if s.earliest.Some? || s.left.Some? {
      var l := ActiveIsLast(c, s, i + 1, i + 1, i);
      EndsIf(c, i, l);
    }
  }

  lemma NothingOpen(c: Scene)
    requires Sized(c)
    ensures Exact(c, Closed, 0, 0, 0)
  {
  }

  lemma HeldExact(c: Scene, i: nat, s: State)
    requires Sized(c) && i < |c.p.text| && Ordered(c, i, s) && ScanInv(c, i, s) && AlphaInv(c, i, s) && Exact(c, s, i, i, i)
    ensures Exact(c, Held(c, i, s), i + 1, i + 1, i)
  {
    ObservedExact(c, i, s);
    ObservedKeeps(c, i, s);
    hide *;
    SpacedExact(c, i, Observed(c, i, s));
    OpenedExact(c, i, Spaced(c, i, Observed(c, i, s)));
    HeldIs(c, i, s);
  }

  lemma HeldIs(c: Scene, i: nat, s: State)
    requires Sized(c) && i < |c.p.text| && Ordered(c, i, s)
    ensures Held(c, i, s) == Opened(c, i, Spaced(c, i, Observed(c, i, s)))
  {
  }

  lemma ObservedExact(c: Scene, i: nat, s: State)
    requires Sized(c) && i < |c.p.text| && Ordered(c, i, s) && Exact(c, s, i, i, i)
    ensures Exact(c, Observed(c, i, s), i, i, i)
  {
    hide LastLeft, LeftAt, LiteralAt, Ends, Kept, Open, SpaceOpen, LatestSpace;
  }

  /** Every state the scan reaches holds exactly what is open. */
  lemma {:induction false} ReachedExact(c: Scene, n: nat)
    requires Sized(c) && n <= |c.p.text|
    ensures Exact(c, StateAt(c, n), n, n, n)
  {
    hide *;
    if n == 0 {
      NothingScanned(c);
      NothingOpen(c);
    } else {
      var s := StateAt(c, n - 1);
      ReachedExact(c, n - 1);
      Reached(c, n - 1);
      HeldExact(c, n - 1, s);
      ShutExact(c, n - 1, Held(c, n - 1, s));
      OneScanned(c, n - 1);
    }
  }

  // ---------------------------------------------------------------- alphabetic material

  /** Something alphabetic stands between the end of `l` and `to`. */
  ghost predicate HasAlpha(c: Scene, l: Left, to: int)
    requires Sized(c) && to <= |c.p.text|
  {
    exists k :: l.end <= k < to && c.u.alpha(c.p.text[k])
  }

  ghost predicate AlphaExact(c: Scene, s: State, to: int)
    requires Sized(c) && to <= |c.p.text|
  {
    s.left.Some? ==> (s.alphaSeen <==> HasAlpha(c, s.left.value, to))
  }

  lemma ObservedAlpha(c: Scene, i: nat, s: State)
    requires Sized(c) && i < |c.p.text| && Ordered(c, i, s) && AlphaExact(c, s, i - 1)
    ensures AlphaExact(c, Observed(c, i, s), i)
  {
    if s.left.Some? && i > s.left.value.end && c.u.alpha(c.p.text[i - 1]) {
      assert HasAlpha(c, s.left.value, i);
    }
  }

  lemma HeldAlpha(c: Scene, i: nat, s: State)
    requires Sized(c) && i < |c.p.text| && Ordered(c, i, s) && AlphaExact(c, s, i - 1)
    ensures AlphaExact(c, Held(c, i, s), i)
  {
    ObservedAlpha(c, i, s);
    hide LiteralAt, ExpansionSource, Observed;
    assert !HasAlpha(c, Left(i, i + |c.left|), i);
  }

  lemma {:induction false} ReachedAlpha(c: Scene, n: nat)
    requires Sized(c) && n <= |c.p.text|
    ensures AlphaExact(c, StateAt(c, n), n - 1)
  {
    hide *;
    if n == 0 {
      NothingScanned(c);
      NoAlphaYet(c);
    } else {
      ReachedAlpha(c, n - 1);
      HeldAlpha(c, n - 1, StateAt(c, n - 1));
      ShutAlpha(c, n - 1, Held(c, n - 1, StateAt(c, n - 1)));
      OneScanned(c, n - 1);
    }
  }

  lemma NoAlphaYet(c: Scene)
    requires Sized(c)
    ensures AlphaExact(c, Closed, -1)
  {
  }

  lemma ShutAlpha(c: Scene, i: nat, s: State)
    requires Sized(c) && i < |c.p.text| && Ordered(c, i + 1, s) && AlphaExact(c, s, i)
    ensures AlphaExact(c, Shut(c, i, s).0, i)
  {
    hide LiteralAt, Embedded, Report, HasAlpha;
  }

  // ---------------------------------------------------------------- what is reported

  ghost predicate LastAt(c: Scene, l: Left, i: nat)
    requires Sized(c)
  {
    LastLeft(c, l, i + 1)
  }

  /** Open at `i`, its own left part included. */
  ghost predicate OpenAt(c: Scene, e: Left, i: nat)
    requires Sized(c) && i < |c.p.text|
  {
    Open(c, e, i + 1, i + 1, i)
  }

  ghost predicate SpaceOpenAt(c: Scene, l: Left, i: nat)
    requires Sized(c) && i < |c.p.text|
  {
    SpaceOpen(c, l, i + 1, i + 1, i)
  }

  /** A right part at `i` that ends its token beyond the last left part. */
  ghost predicate Shuts(c: Scene, i: nat)
    requires Sized(c)
  {
    && 0 < i && i + |c.right| <= |c.p.text| && LiteralAt(c.u, c.p.text, i, c.right)
    && !c.f.baseAt[i + |c.right|] && !RawSpace(c, i - 1)
    && forall l: Left :: LastAt(c, l, i) ==> l.end < i
  }

  /** The last left part that is open, with visible material behind it that is no apostrophe. */
  ghost predicate LastEvidence(c: Scene, t: Left, i: nat)
    requires Sized(c) && i < |c.p.text|
  {
    && OpenAt(c, t, i) && (forall k: Left :: OpenAt(c, k, i) ==> k.start <= t.start)
    && t.end < i && !Supported(c, Span(t.end, i)) && SpanObservable(c, Span(t.end, i))
  }

  /** From the first left part that is open, with evidence behind it or behind the last. */
  ghost predicate OrdinaryAt(c: Scene, e: Left, i: nat)
    requires Sized(c)
  {
    && Shuts(c, i) && OpenAt(c, e, i) && (forall k: Left :: OpenAt(c, k, i) ==> e.start <= k.start)
    && e.end < i
    && (Unsupported(c, Span(e.end, i)) || exists t: Left :: LastEvidence(c, t, i))
  }

  /** From the last left part over its own raw space, with alphabetic and visible material behind it. */
  ghost predicate FallbackAt(c: Scene, l: Left, i: nat)
    requires Sized(c)
  {
    && Shuts(c, i) && SpaceOpenAt(c, l, i) && l.end < i && !RawSpace(c, i)
    && HasAlpha(c, l, i) && SpanObservable(c, Span(l.end, i))
  }

  /** What is to be reported, by the transcript alone. */
  ghost predicate Due(c: Scene, x: Span)
    requires Sized(c)
  {
    if exists e: Left :: OrdinaryAt(c, e, x.end) then exists e: Left :: OrdinaryAt(c, e, x.end) && e.end == x.start
    else exists l: Left :: FallbackAt(c, l, x.end) && l.end == x.start
  }

  /** The scan's state says what the transcript says. */
  ghost predicate Mirrors(c: Scene, i: nat, s: State)
    requires Sized(c) && i < |c.p.text|
  {
    Ordered(c, i + 1, s) && Exact(c, s, i + 1, i + 1, i) && ScanInv(c, i + 1, s) && AlphaExact(c, s, i)
  }

  /** The right-part step comes to its tests. */
  predicate Tests(c: Scene, i: nat, s: State)
    requires Sized(c)
  {
    i > ActiveEnd(s) && LiteralAt(c.u, c.p.text, i, c.right) && !Embedded(c, i)
  }

  lemma OrdinaryIsDue(c: Scene, i: nat, s: State)
    requires Sized(c) && i < |c.p.text| && Mirrors(c, i, s) && Shutting(c, i, s) && Tests(c, i, s)
    requires OrdinaryReport(c, i, s)
    ensures s.earliest.Some? && OrdinaryAt(c, s.earliest.value, i)
  {
    hide LiteralAt, Open, SpaceOpen, LatestSpace, LeftAt, Supported, SpanHasCompat, SpanObservable, ScanInv, AlphaExact;
    var l := ActiveIsLast(c, s, i + 1, i + 1, i);
    forall k: Left | LastAt(c, k, i)
      ensures k.end < i
    {
      LastIsOne(c, k, l, i + 1);
    }
    hide LastLeft;
    assert OpenAt(c, s.earliest.value, i) && OpenAt(c, s.latest.value, i);
    if !Unsupported(c, Span(s.earliest.value.end, i)) {
      assert LastEvidence(c, s.latest.value, i);
    }
  }

  lemma SameStart(c: Scene, a: Left, b: Left)
    requires Sized(c) && LeftAt(c, a) && LeftAt(c, b) && a.start == b.start
    ensures a == b && !c.f.baseBefore[a.start]
  {
  }

  lemma OpenIsLeft(c: Scene, e: Left, i: nat)
    requires Sized(c) && i < |c.p.text| && OpenAt(c, e, i)
    ensures LeftAt(c, e)
  {
  }

  lemma DueIsOrdinary(c: Scene, i: nat, s: State, e: Left)
    requires Sized(c) && i < |c.p.text| && Mirrors(c, i, s) && OrdinaryAt(c, e, i)
    ensures s.earliest == Some(e) && Tests(c, i, s) && Shutting(c, i, s) && OrdinaryReport(c, i, s)
  {
    hide LiteralAt, Open, SpaceOpen, LatestSpace, LeftAt, Supported, SpanHasCompat, SpanObservable, ScanInv, AlphaExact;
    assert OpenAt(c, e, i) && Open(c, e, i + 1, i + 1, i);
    var l := ActiveIsLast(c, s, i + 1, i + 1, i);
    assert LastAt(c, l, i);
    hide LastLeft;
    var first, last := s.earliest.value, s.latest.value;
    assert OpenAt(c, first, i) && OpenAt(c, last, i);
    OpenIsLeft(c, first, i);
    OpenIsLeft(c, last, i);
    OpenIsLeft(c, e, i);
    SameStart(c, first, e);
    SameStart(c, last, last);
    if t: Left :| LastEvidence(c, t, i) {
      OpenIsLeft(c, t, i);
      SameStart(c, last, t);
    }
  }

  lemma FallbackIsDue(c: Scene, i: nat, s: State)
    requires Sized(c) && i < |c.p.text| && Mirrors(c, i, s) && Shutting(c, i, s) && Tests(c, i, s)
    requires FallbackReport(c, i, s)
    ensures s.left.Some? && FallbackAt(c, s.left.value, i)
  {
    hide LiteralAt, Open, SpaceOpen, LeftAt, Supported, SpanHasCompat, SpanObservable, ScanInv, OrdinaryExact;
    var l := s.left.value;
    forall k: Left | LastAt(c, k, i)
      ensures k.end < i
    {
      LastIsOne(c, k, l, i + 1);
    }
    hide LastLeft, HasAlpha;
    assert SpaceOpenAt(c, l, i);
  }

  lemma DueIsFallback(c: Scene, i: nat, s: State, l: Left)
    requires Sized(c) && i < |c.p.text| && Mirrors(c, i, s) && FallbackAt(c, l, i)
    ensures s.left == Some(l) && Tests(c, i, s) && Shutting(c, i, s) && FallbackReport(c, i, s)
  {
    hide LiteralAt, Open, SpaceOpen, LeftAt, Supported, SpanHasCompat, SpanObservable, OrdinaryExact, OrdinaryInv, Owned,
      HasAlpha;
    assert SpaceOpen(c, l, i + 1, i + 1, i);
    FallbackSpace(c, i + 1, s);
    assert LeftAt(c, l) by {
      assert LastLeft(c, l, i + 1);
    }
    SameStart(c, l, l);
  }

  lemma TestsHold(c: Scene, i: nat, s: State)
    requires Sized(c) && i < |c.p.text| && Ordered(c, i + 1, s) && Tests(c, i, s)
    ensures Shutting(c, i, s) && Shut(c, i, s).1 == Report(c, i, s)
  {
    LiteralInside(c, i);
    hide LiteralAt, Embedded, Report;
  }

  lemma UntestedReportsNothing(c: Scene, i: nat, s: State)
    requires Sized(c) && i < |c.p.text| && Ordered(c, i + 1, s) && !Tests(c, i, s)
    ensures Shut(c, i, s).1 == []
  {
    hide LiteralAt, Embedded, Report;
  }

  lemma MirrorsIsOrdered(c: Scene, i: nat, s: State)
    requires Sized(c) && i < |c.p.text| && Mirrors(c, i, s)
    ensures Ordered(c, i + 1, s)
  {
  }

  lemma OrdinaryStep(c: Scene, i: nat, s: State, e: Left)
    requires Sized(c) && i < |c.p.text| && Mirrors(c, i, s) && OrdinaryAt(c, e, i)
    ensures Ordered(c, i + 1, s) && Shut(c, i, s).1 == [Span(e.end, i)]
    ensures forall k: Left :: OrdinaryAt(c, k, i) ==> k == e
  {
    hide Mirrors, Ordered, LiteralAt, Tests, Shut, OrdinaryReport, OrdinaryAt, Shutting;
    MirrorsIsOrdered(c, i, s);
    DueIsOrdinary(c, i, s, e);
    TestsHold(c, i, s);
    forall k: Left | OrdinaryAt(c, k, i)
      ensures k == e
    {
      DueIsOrdinary(c, i, s, k);
    }
  }

  lemma FallbackStep(c: Scene, i: nat, s: State, l: Left)
    requires Sized(c) && i < |c.p.text| && Mirrors(c, i, s) && FallbackAt(c, l, i)
    requires forall e: Left :: !OrdinaryAt(c, e, i)
    ensures Ordered(c, i + 1, s) && Shut(c, i, s).1 == [Span(l.end, i)]
    ensures forall k: Left :: FallbackAt(c, k, i) ==> k == l
  {
    hide Mirrors, Ordered, LiteralAt, Tests, Shut, OrdinaryReport, FallbackReport, OrdinaryAt, FallbackAt, Shutting;
    MirrorsIsOrdered(c, i, s);
    DueIsFallback(c, i, s, l);
    TestsHold(c, i, s);
    if OrdinaryReport(c, i, s) {
      OrdinaryIsDue(c, i, s);
    }
    forall k: Left | FallbackAt(c, k, i)
      ensures k == l
    {
      DueIsFallback(c, i, s, k);
    }
  }

  lemma QuietStep(c: Scene, i: nat, s: State)
    requires Sized(c) && i < |c.p.text| && Mirrors(c, i, s)
    requires forall e: Left :: !OrdinaryAt(c, e, i) && !FallbackAt(c, e, i)
    ensures Ordered(c, i + 1, s) && Shut(c, i, s).1 == []
  {
    hide Mirrors, Ordered, LiteralAt, Tests, Shut, OrdinaryReport, FallbackReport, OrdinaryAt, FallbackAt, Shutting;
    MirrorsIsOrdered(c, i, s);
    if Tests(c, i, s) {
      TestsHold(c, i, s);
      if OrdinaryReport(c, i, s) {
        OrdinaryIsDue(c, i, s);
      } else if FallbackReport(c, i, s) {
        FallbackIsDue(c, i, s);
      }
    } else {
      UntestedReportsNothing(c, i, s);
    }
  }

  lemma StepEndsHere(c: Scene, i: nat, s: State)
    requires Sized(c) && i < |c.p.text| && Ordered(c, i + 1, s)
    ensures forall x :: x in Shut(c, i, s).1 ==> x.end == i
  {
    hide LiteralAt, Embedded, OrdinaryReport, FallbackReport;
  }

  /** What the right-part step reports is what is due there. */
  lemma StepReportsDue(c: Scene, i: nat, s: State, x: Span)
    requires Sized(c) && i < |c.p.text| && Mirrors(c, i, s)
    ensures Ordered(c, i + 1, s)
    ensures x in Shut(c, i, s).1 <==> x.end == i && Due(c, x)
  {
    hide Mirrors, Ordered, Shut, OrdinaryAt, FallbackAt;
    MirrorsIsOrdered(c, i, s);
    StepEndsHere(c, i, s);
    if x.end == i {
      if e: Left :| OrdinaryAt(c, e, x.end) {
        OrdinaryStep(c, x.end, s, e);
        assert x == Span(e.end, i) <==> x.start == e.end;
      } else if l: Left :| FallbackAt(c, l, x.end) {
        FallbackStep(c, x.end, s, l);
        assert x == Span(l.end, i) <==> x.start == l.end;
      } else {
        QuietStep(c, x.end, s);
      }
    }
  }

  lemma HeldMirrors(c: Scene, i: nat)
    requires Sized(c) && i < |c.p.text|
    ensures Mirrors(c, i, Held(c, i, StateAt(c, i)))
  {
    hide Exact, ScanInv, AlphaExact, AlphaInv, Held, StateAt, Ordered;
    ReachedExact(c, i);
    Reached(c, i);
    ReachedAlpha(c, i);
    HeldExact(c, i, StateAt(c, i));
    HeldKeeps(c, i, StateAt(c, i));
    HeldAlpha(c, i, StateAt(c, i));
  }

  /** The scan reports exactly what is due. */
  lemma {:induction false} ReportsExactlyDue(c: Scene, n: nat, x: Span)
    requires Sized(c) && n <= |c.p.text|
    ensures x in SpansAt(c, n) <==> x.end < n && Due(c, x)
  {
    hide *;
    if n == 0 {
      NothingScanned(c);
    } else {
      ReportsExactlyDue(c, n - 1, x);
      HeldMirrors(c, n - 1);
      StepReportsDue(c, n - 1, Held(c, n - 1, StateAt(c, n - 1)), x);
      OneScanned(c, n - 1);
    }
  }

  // ---------------------------------------------------------------- crossing a raw space

  ghost predicate Crosses(c: Scene, x: Span)
    requires Sized(c) && x.end <= |c.p.text|
  {
    exists k :: x.start <= k < x.end && RawSpace(c, k)
  }

  lemma RightIsInside(c: Scene, i: nat)
    requires Sized(c) && Shuts(c, i)
    ensures i < |c.p.text|
  {
  }

  /** A fallback is over a raw space, and an ordinary candidate open with it is open over the same one. */
  lemma FallbackCrosses(c: Scene, l: Left, i: nat)
    requires Sized(c) && FallbackAt(c, l, i)
    ensures i < |c.p.text| && l.end < i && RawSpace(c, l.end)
    ensures forall e: Left :: OrdinaryAt(c, e, i) ==> e.end <= l.end
  {
    hide LiteralAt, Ends, Kept, HasAlpha, SpanObservable, Supported, SpanHasCompat;
    RightIsInside(c, i);
    assert LastLeft(c, l, i + 1);
  }

  /** A right part shuts an ordinary candidate with a raw space behind it. */
  ghost predicate OrdinaryCrossing(c: Scene, e: Left, i: nat)
    requires Sized(c)
  {
    OrdinaryAt(c, e, i) && exists k :: e.end <= k < i && RawSpace(c, k)
  }

  lemma OrdinaryCrossingIsDue(c: Scene, e: Left, i: nat)
    requires Sized(c) && OrdinaryCrossing(c, e, i)
    ensures i < |c.p.text| && Due(c, Span(e.end, i)) && Crosses(c, Span(e.end, i))
  {
    hide Shuts, OpenAt, Unsupported, LastEvidence;
    RightIsInside(c, i);
    assert OrdinaryAt(c, e, Span(e.end, i).end);
  }

  lemma FallbackIsCrossing(c: Scene, l: Left, i: nat) returns (x: Span)
    requires Sized(c) && FallbackAt(c, l, i)
    ensures i < |c.p.text| && x.end == i && Due(c, x) && Crosses(c, x)
  {
    FallbackCrosses(c, l, i);
    hide OrdinaryAt, FallbackAt;
    x := Span(l.end, i);
    if e: Left :| OrdinaryAt(c, e, x.end) {
      x := Span(e.end, i);
      assert OrdinaryAt(c, e, x.end) && e.end <= l.end < i;
    } else {
      assert FallbackAt(c, l, x.end);
    }
    assert Crosses(c, x) by {
      assert x.start <= l.end < x.end && RawSpace(c, l.end);
    }
  }

  lemma CrossingIsFrom(c: Scene, x: Span)
    requires Sized(c) && x.end < |c.p.text| && Due(c, x) && Crosses(c, x)
    ensures (exists e: Left :: OrdinaryCrossing(c, e, x.end)) || exists l: Left :: FallbackAt(c, l, x.end)
  {
    hide OrdinaryAt, FallbackAt;
    if e: Left :| OrdinaryAt(c, e, x.end) && e.end == x.start {
      assert OrdinaryCrossing(c, e, x.end);
    }
  }

  /**
   Exactly when the scan of a transcript reports a span across a raw space: some right
   part shuts the first open candidate with a raw space behind it, or a fallback.
   */
  lemma CrossesIff(c: Scene)
    requires Sized(c)
    ensures (exists x :: x in SpansAt(c, |c.p.text|) && x.end <= |c.p.text| && Crosses(c, x)) <==>
              || (exists e: Left, i: nat :: OrdinaryCrossing(c, e, i))
              || (exists l: Left, i: nat :: FallbackAt(c, l, i))
  {
    hide *;
    if x :| x in SpansAt(c, |c.p.text|) && x.end <= |c.p.text| && Crosses(c, x) {
      ReportsExactlyDue(c, |c.p.text|, x);
      CrossingIsFrom(c, x);
    }
    if e: Left, i: nat :| OrdinaryCrossing(c, e, i) {
      OrdinaryCrossingIsDue(c, e, i);
      ReportsExactlyDue(c, |c.p.text|, Span(e.end, i));
    }
    if l: Left, i: nat :| FallbackAt(c, l, i) {
      var x := FallbackIsCrossing(c, l, i);
      ReportsExactlyDue(c, |c.p.text|, x);
    }
  }
}
