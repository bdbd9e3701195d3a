/**
 One pass over a projection that finds malformed separators inside a contraction:
 several left sides may be open at once, and only some spaces close them.
 */
module ConfirmBridge {
  import opened Wrappers
  import opened ConfirmProjection
  import opened ConfirmFacts

  /** A left part found at `start`, its separator beginning at `end`. */
  datatype Left = Left(start: nat, end: nat)

  /** A separator span between the two parts of one contraction. */
  datatype Span = Span(start: nat, end: nat)

  /** One scan's fixed inputs: the text, its facts, and the two parts of a contraction. */
  datatype Scene = Scene(
    u: Unicode, raw: Text, p: Projection, f: Facts, left: Text, right: Text, apostrophes: set<char>, expansions: seq<Text>)

  ghost predicate Ready(c: Scene) {
    && Projects(c.u, c.raw, c.p) && FactsOf(c.u, c.raw, c.p, c.f)
    && c.left != [] && c.right != [] && [] !in c.expansions
  }

  /** What the scanner reads of a scene is in range. */
  predicate Sized(c: Scene) {
    var n := |c.p.text|;
    && |c.p.rawIndices| == n && |c.f.rawSpace| == n && |c.p.compat| == |c.raw|
    && |c.f.baseBefore| == n + 1 && |c.f.baseAt| == n + 1 && |c.f.compatPrefix| == |c.raw| + 1
    && |c.f.spacePrefix| == n + 1 && |c.f.significantPrefix| == n + 1 && |c.f.nonAlphaPrefix| == n + 1
    && (forall k :: 0 <= k < n ==> c.p.rawIndices[k] < |c.raw|)
    && (forall j, k :: 0 <= j <= k < n ==> c.p.rawIndices[j] <= c.p.rawIndices[k])
    && c.left != [] && c.right != [] && [] !in c.expansions
  }

  lemma ReadyIsSized(c: Scene)
    requires Ready(c)
    ensures Sized(c)
  {
    AllIndicesInside(c.u, c.raw, c.p);
    forall j, k | 0 <= j <= k < |c.p.text|
      ensures c.p.rawIndices[j] <= c.p.rawIndices[k]
    {
      RawIndicesSorted(c.u, c.raw, c.p, j, k);
    }
  }

  predicate LiteralAt(u: Unicode, text: Text, start: nat, literal: Text) {
    start + |literal| <= |text| && forall i :: 0 <= i < |literal| ==> u.lower(text[start + i]) == literal[i]
  }

  /** A left part that does not start inside a word and is followed by something. */
  predicate LeftAt(c: Scene, l: Left)
    requires Sized(c)
  {
    && l.end == l.start + |c.left| && LiteralAt(c.u, c.p.text, l.start, c.left)
    && l.end < |c.p.text| && !c.f.baseBefore[l.start]
  }

  predicate RawSpace(c: Scene, k: nat)
    requires Sized(c) && k < |c.p.text|
  {
    c.f.rawSpace[k]
  }

  predicate SameSource(c: Scene, j: nat, k: nat)
    requires Sized(c) && j < |c.p.text| && k < |c.p.text|
  {
    c.p.rawIndices[j] == c.p.rawIndices[k]
  }

  /** The space at `k` belongs to a raw space that directly follows some left part. */
  ghost predicate Owned(c: Scene, k: nat)
    requires Sized(c) && k < |c.p.text|
  {
    exists l: Left :: LeftAt(c, l) && RawSpace(c, l.end) && SameSource(c, l.end, k)
  }

  // ---------------------------------------------------------------- span tests

  predicate Supported(c: Scene, s: Span)
    requires Sized(c) && s.start < s.end <= |c.p.text|
  {
    var a, b := c.p.rawIndices[s.start], c.p.rawIndices[s.end - 1] + 1;
    if b - a == 1 then c.raw[a] in c.apostrophes
    else b - a == 2 && c.raw[a] == ' ' && c.raw[a + 1] == '\U{301}'
  }

  predicate SpanHasCompat(c: Scene, s: Span)
    requires Sized(c) && s.start < s.end <= |c.p.text|
  {
    HasCompatSource(c.p, c.f, s.start, s.end)
  }

  predicate SpanObservable(c: Scene, s: Span)
    requires Sized(c) && s.start <= s.end <= |c.p.text|
  {
    Observable(c.f, s.start, s.end)
  }

  predicate Complete(c: Scene, start: nat, end: nat)
    requires Sized(c) && start <= |c.p.text| && end <= |c.p.text|
  {
    !c.f.baseBefore[start] && !c.f.baseAt[end]
  }

  predicate OwnsEdges(c: Scene, start: nat, end: nat)
    requires Sized(c) && start < end <= |c.p.text|
  {
    && (start == 0 || !SameSource(c, start - 1, start))
    && (end == |c.p.text| || !SameSource(c, end, end - 1))
  }

  /** The raw source of a complete declared expansion at `start`. */
  function ExpansionSource(c: Scene, start: nat, i: nat): Option<nat>
    requires Sized(c) && i <= |c.expansions|
    decreases |c.expansions| - i
  {
    if i == |c.expansions| then None
    else
      var e := c.expansions[i];
      var end := start + |e|;
      if end <= |c.p.text| && c.p.text[start..end] == e
        && c.p.rawIndices[end - 1] == c.p.rawIndices[start] && c.p.compat[c.p.rawIndices[start]]
      then Some(c.p.rawIndices[start])
      else ExpansionSource(c, start, i + 1)
  }

  // ---------------------------------------------------------------- one position of the scan

  /** The scan's state between positions: the ordinary candidates, and the fallback's. */
  datatype State = State(
    earliest: Option<Left>, latest: Option<Left>, left: Option<Left>, lastRawSpace: Option<nat>, alphaSeen: bool)

  const Closed := State(None, None, None, None, false)

  predicate Placed(c: Scene, n: nat, l: Left)
    requires Sized(c)
  {
    l.start < n && l.end == l.start + |c.left| && l.end < |c.p.text|
  }

  /** Where the candidates' left parts lie: all before `n`, the earliest first and the fallback's last. */
  predicate Ordered(c: Scene, n: nat, s: State)
    requires Sized(c)
  {
    && (s.earliest.Some? <==> s.latest.Some?)
    && (s.earliest.Some? ==>
          && Placed(c, n, s.earliest.value) && Placed(c, n, s.latest.value)
          && s.earliest.value.start <= s.latest.value.start)
    && (s.left.Some? ==> Placed(c, n, s.left.value))
    && (s.left.Some? && s.latest.Some? ==> s.latest.value.start <= s.left.value.start)
    && (s.left.None? ==> s.lastRawSpace.None? && !s.alphaSeen)
    && (s.lastRawSpace.Some? ==> s.lastRawSpace.value < |c.p.text|)
  }

  /** Alphabetic material behind the fallback's left part. */
  function Observed(c: Scene, i: nat, s: State): (after: State)
    requires Sized(c) && i < |c.p.text| && Ordered(c, i, s)
    ensures Ordered(c, i, after)
  {
    s.(alphaSeen := s.alphaSeen || (s.left.Some? && i > s.left.value.end && c.u.alpha(c.p.text[i - 1])))
  }

  /** The raw space at `i` continues the fallback candidate's own first space. */
  predicate IsInitial(c: Scene, i: nat, s: State)
    requires Sized(c) && i < |c.p.text| && Ordered(c, i, s)
  {
    && s.left.Some? && s.lastRawSpace.Some?
    && RawSpace(c, s.lastRawSpace.value) && RawSpace(c, i) && SameSource(c, s.lastRawSpace.value, i)
  }

  /** Any other raw space closes every candidate. */
  function Spaced(c: Scene, i: nat, s: State): (after: State)
    requires Sized(c) && i < |c.p.text| && Ordered(c, i, s)
    ensures Ordered(c, i, after)
  {
    if !RawSpace(c, i) then s
    else if IsInitial(c, i, s) then s.(lastRawSpace := Some(i))
    else Closed
  }

  function OrFirst(earliest: Option<Left>, l: Left): Option<Left> {
    if earliest.Some? then earliest else Some(l)
  }

  /** A left part opens candidates: before a raw space only the fallback, unless that space is a compatibility one. */
  function Opened(c: Scene, i: nat, s: State): (after: State)
    requires Sized(c) && i < |c.p.text| && Ordered(c, i, s)
    ensures Ordered(c, i + 1, after)
  {
    var l := Left(i, i + |c.left|);
    if !LeftAt(c, l) then s
    else if !RawSpace(c, l.end) then
      State(OrFirst(s.earliest, l), Some(l), if ExpansionSource(c, l.end, 0).Some? then Some(l) else None, None, false)
    else if c.p.compat[c.p.rawIndices[l.end]] then State(OrFirst(s.earliest, l), Some(l), Some(l), Some(l.end), false)
    else State(s.earliest, s.latest, Some(l), Some(l.end), false)
  }

  /** What is open at `i`, its own left part included. */
  function Held(c: Scene, i: nat, s: State): (after: State)
    requires Sized(c) && i < |c.p.text| && Ordered(c, i, s)
    ensures Ordered(c, i + 1, after)
  {
    Opened(c, i, Spaced(c, i, Observed(c, i, s)))
  }

  /** Where the active candidate's left part ends. */
  function ActiveEnd(s: State): int {
    if s.left.Some? then s.left.value.end else if s.latest.Some? then s.latest.value.end else -1
  }

  /** A right part that is still inside a word, and so ends every candidate. */
  predicate Embedded(c: Scene, i: nat)
    requires Sized(c)
  {
    && i + |c.right| <= |c.p.text| && LiteralAt(c.u, c.p.text, i, c.right)
    && c.f.baseAt[i + |c.right|] && OwnsEdges(c, i, i + |c.right|) && !SpanHasCompat(c, Span(i, i + |c.right|))
  }

  predicate Unsupported(c: Scene, s: Span)
    requires Sized(c) && s.start < s.end <= |c.p.text|
  {
    !Supported(c, s) && (SpanHasCompat(c, s) || SpanObservable(c, s))
  }

  /** A right part at `i` shuts the open candidates. */
  predicate Shutting(c: Scene, i: nat, s: State)
    requires Sized(c)
  {
    Ordered(c, i + 1, s) && ActiveEnd(s) < i && i + |c.right| <= |c.p.text|
  }

  predicate OrdinaryReport(c: Scene, i: nat, s: State)
    requires Sized(c) && Shutting(c, i, s)
  {
    s.earliest.Some? && !RawSpace(c, i - 1) && Complete(c, s.latest.value.start, i + |c.right|) &&
    (var (first, last) := (Span(s.earliest.value.end, i), Span(s.latest.value.end, i));
     Unsupported(c, first) || (last != first && !Supported(c, last) && SpanObservable(c, last)))
  }

  predicate FallbackReport(c: Scene, i: nat, s: State)
    requires Sized(c) && Shutting(c, i, s)
  {
    && s.left.Some? && s.lastRawSpace.Some? && i > s.lastRawSpace.value + 1 && !RawSpace(c, i - 1) && s.alphaSeen
    && Complete(c, s.left.value.start, i + |c.right|) && SpanObservable(c, Span(s.left.value.end, i))
  }

  function Report(c: Scene, i: nat, s: State): seq<Span>
    requires Sized(c) && Shutting(c, i, s)
  {
    if OrdinaryReport(c, i, s) then [Span(s.earliest.value.end, i)]
    else if FallbackReport(c, i, s) then [Span(s.left.value.end, i)]
    else []
  }

  /** The right-part step of one position: what is open afterwards, and what is reported. */
  function Shut(c: Scene, i: nat, s: State): (r: (State, seq<Span>))
    requires Sized(c) && i < |c.p.text| && Ordered(c, i + 1, s)
    ensures Ordered(c, i + 1, r.0)
  {
    if i <= ActiveEnd(s) || !LiteralAt(c.u, c.p.text, i, c.right) then (s, [])
    else if Embedded(c, i) then (Closed, [])
    else (s, Report(c, i, s))
  }

  /** The state with every position before `n` scanned. */
  function StateAt(c: Scene, n: nat): (s: State)
    requires Sized(c) && n <= |c.p.text|
    ensures Ordered(c, n, s)
  {
    if n == 0 then Closed else Shut(c, n - 1, Held(c, n - 1, StateAt(c, n - 1))).0
  }

  /** What is reported before position `n`. */
  function SpansAt(c: Scene, n: nat): seq<Span>
    requires Sized(c) && n <= |c.p.text|
  {
    if n == 0 then [] else SpansAt(c, n - 1) + Shut(c, n - 1, Held(c, n - 1, StateAt(c, n - 1))).1
  }

  lemma NothingScanned(c: Scene)
    requires Sized(c)
    ensures StateAt(c, 0) == Closed && SpansAt(c, 0) == []
  {
  }

  lemma OneScanned(c: Scene, n: nat)
    requires Sized(c) && n < |c.p.text|
    ensures var (after, more) := Shut(c, n, Held(c, n, StateAt(c, n)));
            StateAt(c, n + 1) == after && SpansAt(c, n + 1) == SpansAt(c, n) + more
  {
    hide Ordered, Held, Shut;
  }

  // ---------------------------------------------------------------- the scan

  /** `_NormalizedBridgeCandidate`. */
  class BridgeCandidate {
    var left: Option<Left>
    var lastRawSpace: Option<nat>
    var alphaSeen: bool

    constructor ()
      ensures left == None && lastRawSpace == None && !alphaSeen
    {
      left, lastRawSpace, alphaSeen := None, None, false;
    }

    /** The scan's state, given its ordinary candidates. */
    function With(earliest: Option<Left>, latest: Option<Left>): State
      reads this
    {
      State(earliest, latest, left, lastRawSpace, alphaSeen)
    }

    method Start(l: Option<Left>, rawSpace: Option<nat>)
      modifies this
      ensures left == l && lastRawSpace == rawSpace && !alphaSeen
    {
      left, lastRawSpace, alphaSeen := l, rawSpace, false;
    }

    method ObservePrevious(u: Unicode, text: Text, index: nat)
      requires index < |text|
      modifies `alphaSeen
      ensures alphaSeen == (old(alphaSeen) || (left.Some? && index > left.value.end && u.alpha(text[index - 1])))
    {
      if left.Some? && index > left.value.end && u.alpha(text[index - 1]) {
        alphaSeen := true;
      }
    }

    method CrossRawWhitespace(index: nat, initial: bool)
      modifies this
      ensures old(left).None? ==> left == old(left) && lastRawSpace == old(lastRawSpace) && alphaSeen == old(alphaSeen)
      ensures old(left).Some? && !initial ==> left == None && lastRawSpace == None && !alphaSeen
      ensures old(left).Some? && initial ==> left == old(left) && lastRawSpace == Some(index) && alphaSeen == old(alphaSeen)
    {
      if left.Some? {
        if initial {
          lastRawSpace := Some(index);
        } else {
          Start(None, None);
        }
      }
    }
  }

  /** The spaces step of one position. */
  method SpaceStep(c: Scene, index: nat, earliest0: Option<Left>, latest0: Option<Left>, candidate: BridgeCandidate)
    returns (earliest: Option<Left>, latest: Option<Left>)
    requires Sized(c) && index < |c.p.text| && Ordered(c, index, candidate.With(earliest0, latest0))
    modifies candidate
    ensures candidate.With(earliest, latest) ==
            Spaced(c, index, Observed(c, index, old(candidate.With(earliest0, latest0))))
  {
    hide LiteralAt;
    earliest, latest := earliest0, latest0;
    candidate.ObservePrevious(c.u, c.p.text, index);
    if c.f.rawSpace[index] {
      var initial :=
        && candidate.left.Some? && candidate.lastRawSpace.Some?
        && c.f.rawSpace[candidate.lastRawSpace.value]
        && c.p.rawIndices[candidate.lastRawSpace.value] == c.p.rawIndices[index];
      if !initial {
        earliest, latest := None, None;
      }
      candidate.CrossRawWhitespace(index, initial);
    }
  }

  /** The left-part step of one position. */
  method LeftStep(c: Scene, index: nat, earliest0: Option<Left>, latest0: Option<Left>, candidate: BridgeCandidate)
    returns (earliest: Option<Left>, latest: Option<Left>)
    requires Sized(c) && index < |c.p.text| && Ordered(c, index, candidate.With(earliest0, latest0))
    modifies candidate
    ensures candidate.With(earliest, latest) == Opened(c, index, old(candidate.With(earliest0, latest0)))
  {
    hide LiteralAt;
    earliest, latest := earliest0, latest0;
    var l := Left(index, index + |c.left|);
    var isLeftStart := LiteralAt(c.u, c.p.text, index, c.left) && l.end < |c.p.text| && !c.f.baseBefore[index];
    if isLeftStart && c.f.rawSpace[l.end] {
      candidate.Start(Some(l), Some(l.end));
      if c.p.compat[c.p.rawIndices[l.end]] {
        latest := Some(l);
        if earliest.None? {
          earliest := latest;
        }
      }
    } else if isLeftStart {
      latest := Some(l);
      if earliest.None? {
        earliest := latest;
      }
      var expansion := ExpansionSource(c, l.end, 0);
      candidate.Start(if expansion.Some? then latest else None, None);
    }
  }

  /** What a right part at `index` lets the scan report. */
  method RightStep(c: Scene, index: nat, earliest: Option<Left>, latest: Option<Left>, candidate: BridgeCandidate)
    returns (found: seq<Span>)
    requires Sized(c) && Shutting(c, index, candidate.With(earliest, latest))
    ensures found == Report(c, index, candidate.With(earliest, latest))
  {
    hide LiteralAt, Observable, HasCompatSource, Supported;
    var rightEnd := index + |c.right|;
    if earliest.Some? && latest.Some? {
      if !c.f.rawSpace[index - 1] && Complete(c, latest.value.start, rightEnd) {
        var first := Span(earliest.value.end, index);
        var firstIsApostrophe := Supported(c, first);
        if !firstIsApostrophe && SpanHasCompat(c, first) {
          return [first];
        }
        var last := Span(latest.value.end, index);
        var lastIsEvidence := last != first && !Supported(c, last) && SpanObservable(c, last);
        if (!firstIsApostrophe && SpanObservable(c, first)) || lastIsEvidence {
          return [first];
        }
      }
    }
    if candidate.left.Some? && candidate.lastRawSpace.Some? {
      if index > candidate.lastRawSpace.value + 1 && !c.f.rawSpace[index - 1] && candidate.alphaSeen
        && Complete(c, candidate.left.value.start, rightEnd)
        && SpanObservable(c, Span(candidate.left.value.end, index))
      {
        return [Span(candidate.left.value.end, index)];
      }
    }
    found := [];
  }

  /** `_iter_compatibility_bridge_spans` for one contraction. */
  method ScanContraction(c: Scene) returns (spans: seq<Span>)
    requires Sized(c)
    ensures spans == SpansAt(c, |c.p.text|)
  {
    hide Ordered, Observed, Spaced, Opened, LiteralAt, Report, HasCompatSource;
    spans := [];
    var earliest: Option<Left>, latest: Option<Left> := None, None;
    var candidate := new BridgeCandidate();
    var index := 0;
    while index < |c.p.text|
      invariant 0 <= index <= |c.p.text|
      invariant candidate.With(earliest, latest) == StateAt(c, index)
      invariant spans == SpansAt(c, index)
      invariant fresh(candidate)
    {
      earliest, latest := SpaceStep(c, index, earliest, latest, candidate);
      earliest, latest := LeftStep(c, index, earliest, latest, candidate);
      var active := if candidate.left.Some? then candidate.left else latest;
      if (active.None? || index > active.value.end) && LiteralAt(c.u, c.p.text, index, c.right) {
        LiteralInside(c, index);
        var rightEnd := index + |c.right|;
        if c.f.baseAt[rightEnd] && OwnsEdges(c, index, rightEnd) && !SpanHasCompat(c, Span(index, rightEnd)) {
          earliest, latest := None, None;
          candidate.Start(None, None);
        } else {
          var found := RightStep(c, index, earliest, latest, candidate);
          spans := spans + found;
        }
      }
      index := index + 1;
    }
  }

  lemma LiteralInside(c: Scene, index: nat)
    requires Sized(c) && LiteralAt(c.u, c.p.text, index, c.right)
    ensures index + |c.right| <= |c.p.text|
  {
  }

  // ---------------------------------------------------------------- what every reached state keeps

  /** The ordinary candidates, with every position before `n` seen: no raw space but an owned one since. */
  ghost predicate OrdinaryInv(c: Scene, n: nat, s: State)
    requires Sized(c) && n <= |c.p.text|
  {
    s.earliest.Some? && s.latest.Some? ==>
      && LeftAt(c, s.earliest.value) && LeftAt(c, s.latest.value)
      && forall k :: s.earliest.value.end <= k < n && RawSpace(c, k) ==> Owned(c, k)
  }

  /** The fallback candidate: one raw space source, right after its left part, and nothing but that. */
  ghost predicate FallbackInv(c: Scene, n: nat, s: State)
    requires Sized(c) && n <= |c.p.text|
  {
    s.left.Some? ==>
      && LeftAt(c, s.left.value)
      && (s.lastRawSpace.Some? ==>
            && s.lastRawSpace.value < |c.p.text| && RawSpace(c, s.left.value.end) && RawSpace(c, s.lastRawSpace.value)
            && SameSource(c, s.left.value.end, s.lastRawSpace.value))
      && (forall k :: s.left.value.end <= k < n && RawSpace(c, k) ==>
            s.lastRawSpace.Some? && SameSource(c, s.left.value.end, k))
  }

  ghost predicate ScanInv(c: Scene, n: nat, s: State)
    requires Sized(c) && n <= |c.p.text|
  {
    OrdinaryInv(c, n, s) && FallbackInv(c, n, s)
  }

  /** Alphabetic material has been seen between the fallback's left part and `n`. */
  ghost predicate AlphaInv(c: Scene, n: nat, s: State)
    requires Sized(c) && n <= |c.p.text|
  {
    s.alphaSeen ==> s.left.Some? && exists k :: s.left.value.end <= k < n && c.u.alpha(c.p.text[k])
  }

  lemma ObservedKeeps(c: Scene, i: nat, s: State)
    requires Sized(c) && i < |c.p.text| && Ordered(c, i, s) && ScanInv(c, i, s) && AlphaInv(c, i, s)
    ensures ScanInv(c, i, Observed(c, i, s)) && AlphaInv(c, i, Observed(c, i, s))
  {
  }

  lemma SpacedKeeps(c: Scene, i: nat, s: State)
    requires Sized(c) && i < |c.p.text| && Ordered(c, i, s) && ScanInv(c, i, s) && AlphaInv(c, i, s)
    ensures ScanInv(c, i + 1, Spaced(c, i, s)) && AlphaInv(c, i, Spaced(c, i, s))
  {
    hide LeftAt, Owned;
    if RawSpace(c, i) && IsInitial(c, i, s) {
      OwnedThere(c, s.left.value, i);
    }
  }

  lemma OwnedThere(c: Scene, l: Left, k: nat)
    requires Sized(c) && k < |c.p.text| && LeftAt(c, l) && RawSpace(c, l.end) && SameSource(c, l.end, k)
    ensures Owned(c, k)
  {
  }

  lemma OpenedKeeps(c: Scene, i: nat, s: State)
    requires Sized(c) && i < |c.p.text| && Ordered(c, i, s) && ScanInv(c, i + 1, s) && AlphaInv(c, i, s)
    ensures ScanInv(c, i + 1, Opened(c, i, s)) && AlphaInv(c, i, Opened(c, i, s))
  {
    hide Owned, LiteralAt, ExpansionSource;
  }

  lemma HeldKeeps(c: Scene, i: nat, s: State)
    requires Sized(c) && i < |c.p.text| && Ordered(c, i, s) && ScanInv(c, i, s) && AlphaInv(c, i, s)
    ensures ScanInv(c, i + 1, Held(c, i, s)) && AlphaInv(c, i, Held(c, i, s))
  {
    hide OrdinaryInv, FallbackInv, ScanInv, AlphaInv, Observed, Spaced, Opened;
    ObservedKeeps(c, i, s);
    SpacedKeeps(c, i, Observed(c, i, s));
    OpenedKeeps(c, i, Spaced(c, i, Observed(c, i, s)));
  }

  lemma ShutKeeps(c: Scene, i: nat, s: State)
    requires Sized(c) && i < |c.p.text| && Ordered(c, i + 1, s) && ScanInv(c, i + 1, s) && AlphaInv(c, i, s)
    ensures ScanInv(c, i + 1, Shut(c, i, s).0) && AlphaInv(c, i + 1, Shut(c, i, s).0)
  {
    hide Owned, LiteralAt, Embedded, Report;
  }

  lemma ClosedKeeps(c: Scene)
    requires Sized(c)
    ensures ScanInv(c, 0, Closed) && AlphaInv(c, 0, Closed)
  {
  }

  /** Every state the scan reaches keeps the invariant. */
  lemma {:induction false} Reached(c: Scene, n: nat)
    requires Sized(c) && n <= |c.p.text|
    ensures ScanInv(c, n, StateAt(c, n)) && AlphaInv(c, n, StateAt(c, n))
  {
    hide *;
    if n == 0 {
      NothingScanned(c);
      ClosedKeeps(c);
    } else {
      Reached(c, n - 1);
      HeldKeeps(c, n - 1, StateAt(c, n - 1));
      ShutKeeps(c, n - 1, Held(c, n - 1, StateAt(c, n - 1)));
      OneScanned(c, n - 1);
    }
  }

  /**
   In every state the scan reaches, each candidate's left part stands outside any word
   before the position reached, the earliest first and the fallback's last, and no raw
   space lies behind the earliest but one that directly follows some left part.
   */
  lemma EndsInOrder(c: Scene, n: nat)
    requires Sized(c) && n <= |c.p.text|
    ensures var s := StateAt(c, n);
            && (s.earliest.Some? <==> s.latest.Some?)
            && (s.earliest.Some? ==>
                  && LeftAt(c, s.earliest.value) && LeftAt(c, s.latest.value)
                  && s.earliest.value.end <= s.latest.value.end && s.latest.value.start < n
                  && (forall k :: s.earliest.value.end <= k < n && RawSpace(c, k) ==> Owned(c, k))
                  && (s.left.Some? ==> s.latest.value.end <= s.left.value.end))
            && (s.left.Some? ==> LeftAt(c, s.left.value) && s.left.value.start < n)
            && (s.left.None? ==> s.lastRawSpace.None? && !s.alphaSeen)
  {
    hide Held, Shut, LiteralAt;
    Reached(c, n);
  }

  // ---------------------------------------------------------------- what a span that is reported means

  /** Between a left part outside any word and the right part that ends its token. */
  ghost predicate Bridges(c: Scene, s: Span)
    requires Sized(c)
  {
    && s.start < s.end && s.end + |c.right| <= |c.p.text|
    && (exists l: Left :: LeftAt(c, l) && l.end == s.start)
    && LiteralAt(c.u, c.p.text, s.end, c.right) && !c.f.baseAt[s.end + |c.right|]
    && !RawSpace(c, s.end - 1)
  }

  /** From a left part's end to the right part: not an apostrophe, and visibly something else. */
  ghost predicate Malformed(c: Scene, e: nat, end: nat)
    requires Sized(c) && e < end <= |c.p.text|
  {
    && (exists l: Left :: LeftAt(c, l) && l.end == e)
    && !Supported(c, Span(e, end))
    && (SpanHasCompat(c, Span(e, end)) || SpanObservable(c, Span(e, end)))
  }

  /** Malformed within one token, crossing only spaces that directly follow a left part. */
  ghost predicate OrdinaryBridge(c: Scene, s: Span)
    requires Sized(c) && s.start < s.end <= |c.p.text|
  {
    && (exists e: nat :: s.start <= e < s.end && Malformed(c, e, s.end))
    && forall k :: s.start <= k < s.end && RawSpace(c, k) ==> Owned(c, k)
  }

  /** A space, then alphabetic and visible material, with no second raw space. */
  ghost predicate FallbackBridge(c: Scene, s: Span)
    requires Sized(c) && s.start < s.end <= |c.p.text|
  {
    && RawSpace(c, s.start) && SpanObservable(c, s)
    && (forall k :: s.start <= k < s.end && RawSpace(c, k) ==> SameSource(c, s.start, k))
    && exists k :: s.start <= k < s.end && c.u.alpha(c.p.text[k])
  }

  ghost predicate Sound(c: Scene, s: Span)
    requires Sized(c)
  {
    Bridges(c, s) && (OrdinaryBridge(c, s) || FallbackBridge(c, s))
  }

  lemma OrdinaryIsSound(c: Scene, i: nat, s: State)
    requires Sized(c) && i < |c.p.text| && Shutting(c, i, s) && ScanInv(c, i + 1, s)
    requires LiteralAt(c.u, c.p.text, i, c.right) && OrdinaryReport(c, i, s)
    ensures Sound(c, Span(s.earliest.value.end, i))
  {
    hide LiteralAt, Owned, Supported, HasCompatSource, Observable;
    var first := s.earliest.value.end;
    var e := if Unsupported(c, Span(first, i)) then first else s.latest.value.end;
    assert Malformed(c, e, i) by {
      assert LeftAt(c, if e == first then s.earliest.value else s.latest.value);
    }
    assert LeftAt(c, s.earliest.value);
  }

  lemma FallbackIsSound(c: Scene, i: nat, s: State)
    requires Sized(c) && i < |c.p.text| && Shutting(c, i, s) && ScanInv(c, i + 1, s) && AlphaInv(c, i, s)
    requires LiteralAt(c.u, c.p.text, i, c.right) && FallbackReport(c, i, s)
    ensures Sound(c, Span(s.left.value.end, i))
  {
    hide LiteralAt, Owned, Supported, HasCompatSource, Observable, OrdinaryInv;
    assert LeftAt(c, s.left.value);
  }

  lemma ShutIsSound(c: Scene, i: nat, s: State)
    requires Sized(c) && i < |c.p.text| && Ordered(c, i + 1, s) && ScanInv(c, i + 1, s) && AlphaInv(c, i, s)
    ensures forall x :: x in Shut(c, i, s).1 ==> Sound(c, x)
  {
    hide ScanInv, AlphaInv, Sound, LiteralAt, OrdinaryReport, FallbackReport, Embedded;
    if i > ActiveEnd(s) && LiteralAt(c.u, c.p.text, i, c.right) && !Embedded(c, i) {
      LiteralInside(c, i);
      if OrdinaryReport(c, i, s) {
        EarliestThere(c, i, s);
        OrdinaryIsSound(c, i, s);
      } else if FallbackReport(c, i, s) {
        LeftThere(c, i, s);
        FallbackIsSound(c, i, s);
      }
    }
  }

  lemma EarliestThere(c: Scene, i: nat, s: State)
    requires Sized(c) && Shutting(c, i, s) && OrdinaryReport(c, i, s)
    ensures s.earliest.Some?
  {
  }

  lemma LeftThere(c: Scene, i: nat, s: State)
    requires Sized(c) && Shutting(c, i, s) && FallbackReport(c, i, s)
    ensures s.left.Some?
  {
  }

  /** Every span the scan reports is sound. */
  lemma {:induction false} SpansAreSound(c: Scene, n: nat)
    requires Sized(c) && n <= |c.p.text|
    ensures forall x :: x in SpansAt(c, n) ==> Sound(c, x)
  {
    hide *;
    if n == 0 {
      NothingScanned(c);
    } else {
      SpansAreSound(c, n - 1);
      Reached(c, n - 1);
      HeldKeeps(c, n - 1, StateAt(c, n - 1));
      ShutIsSound(c, n - 1, Held(c, n - 1, StateAt(c, n - 1)));
      OneScanned(c, n - 1);
    }
  }

  /** A sound span crosses no raw space but those that directly follow a left part. */
  lemma CrossesOnlyOwned(c: Scene, s: Span)
    requires Sized(c) && Sound(c, s)
    ensures s.start < s.end < |c.p.text|
    ensures forall k :: s.start <= k < s.end && RawSpace(c, k) ==> Owned(c, k)
  {
    hide LiteralAt, Malformed, SpanObservable;
    if FallbackBridge(c, s) {
      var l: Left :| LeftAt(c, l) && l.end == s.start;
      forall k | s.start <= k < s.end && RawSpace(c, k)
        ensures Owned(c, k)
      {
        OwnedThere(c, l, k);
      }
    }
  }

  /** Some left part is directly followed by a raw space. */
  ghost predicate SomeSpacedLeft(c: Scene)
    requires Sized(c)
  {
    exists l: Left :: LeftAt(c, l) && RawSpace(c, l.end)
  }

  /** Without such a left part every reported span stays inside one raw token. */
  lemma StaysInToken(c: Scene, s: Span)
    requires Sized(c) && s in SpansAt(c, |c.p.text|) && !SomeSpacedLeft(c)
    ensures s.start < s.end < |c.p.text|
    ensures forall k :: s.start <= k < s.end ==> !RawSpace(c, k)
  {
    hide Sound, SpansAt, LeftAt;
    SpansAreSound(c, |c.p.text|);
    CrossesOnlyOwned(c, s);
  }

  // ---------------------------------------------------------------- what the scan cannot miss

  /** From the end of `l`, a right part at `i` that ends its token shuts a malformed separator. */
  predicate OpenAndShut(c: Scene, l: Left, i: nat)
    requires Sized(c)
  {
    && LeftAt(c, l) && l.end < i && i + |c.right| <= |c.p.text|
    && LiteralAt(c.u, c.p.text, i, c.right) && !c.f.baseAt[i + |c.right|]
    && Unsupported(c, Span(l.end, i))
  }

  /**
   A malformed contraction within one raw token: no embedded control ends it early, and
   no later left part reaches its right part.
   */
  ghost predicate InToken(c: Scene, l: Left, i: nat)
    requires Sized(c)
  {
    && OpenAndShut(c, l, i)
    && (forall k :: l.start <= k <= i ==> !RawSpace(c, k))
    && (forall k: Left :: LeftAt(c, k) && l.start < k.start <= i ==> k.end < i)
    && (forall j :: l.end < j < i ==> !Embedded(c, j))
  }

  /** Between `l` and every left part before it lies a raw space that directly follows no left part. */
  ghost predicate Leads(c: Scene, l: Left)
    requires Sized(c)
  {
    forall k: Left :: LeftAt(c, k) && k.start < l.start ==>
      exists j :: k.end <= j < l.start && j < |c.p.text| && RawSpace(c, j) && !Owned(c, j)
  }

  /** No character that may stand for an apostrophe decomposes into a left part's last letter. */
  ghost predicate Plain(c: Scene)
    requires c.left != []
  {
    forall ch: char, k :: (ch in c.apostrophes || ch == ' ' || ch == '\U{301}') && 0 <= k < |c.u.decompose(ch)| ==>
      c.u.lower(c.u.decompose(ch)[k]) != c.left[|c.left| - 1]
  }

  /** What the scan holds of `l` until its right part comes. */
  ghost predicate Holding(c: Scene, l: Left, n: nat, s: State)
    requires Sized(c)
  {
    && Ordered(c, n, s) && s.earliest.Some?
    && s.earliest.value.start <= l.start <= s.latest.value.start
    && (s.left.Some? ==> l.start <= s.left.value.start)
    && (Leads(c, l) ==> s.earliest.value == l)
  }

  lemma HoldBegins(c: Scene, l: Left, i: nat)
    requires Sized(c) && InToken(c, l, i)
    ensures l.start < |c.p.text| && Holding(c, l, l.start + 1, Held(c, l.start, StateAt(c, l.start)))
  {
    hide Owned, LiteralAt, ExpansionSource, Embedded, Unsupported;
    var s := StateAt(c, l.start);
    EndsInOrder(c, l.start);
    assert l == Left(l.start, l.start + |c.left|) && !RawSpace(c, l.start) && !RawSpace(c, l.end);
  }

  lemma HoldGoesOn(c: Scene, l: Left, i: nat, n: nat)
    requires Sized(c) && InToken(c, l, i) && l.start < n <= i && n < |c.p.text| && Holding(c, l, n, StateAt(c, n))
    ensures Holding(c, l, n + 1, Held(c, n, StateAt(c, n)))
  {
    hide Owned, LiteralAt, ExpansionSource, Embedded, Unsupported, StateAt, Leads, LeftAt;
    assert !RawSpace(c, n);
  }

  lemma HoldIsKept(c: Scene, l: Left, i: nat, n: nat)
    requires Sized(c) && InToken(c, l, i) && l.start <= n < i && n < |c.p.text|
    requires Holding(c, l, n + 1, Held(c, n, StateAt(c, n)))
    ensures StateAt(c, n + 1) == Held(c, n, StateAt(c, n))
  {
    hide Owned, LiteralAt, Unsupported, Leads, Held, Embedded, Report;
    var s := Held(c, n, StateAt(c, n));
    assert ActiveEnd(s) >= l.end;
    assert n > l.end ==> !Embedded(c, n);
  }

  lemma {:induction false} HoldsUntil(c: Scene, l: Left, i: nat, n: nat)
    requires Sized(c) && InToken(c, l, i) && l.start <= n <= i
    ensures n < |c.p.text| && Holding(c, l, n + 1, Held(c, n, StateAt(c, n)))
  {
    hide Owned, LiteralAt, Unsupported, Leads, Held, Holding, StateAt, RawSpace;
    if n == l.start {
      HoldBegins(c, l, i);
    } else {
      HoldsUntil(c, l, i, n - 1);
      HoldIsKept(c, l, i, n - 1);
      HoldGoesOn(c, l, i, n);
    }
  }

  lemma PositionDecomposes(c: Scene, k: nat) returns (m: nat)
    requires Ready(c) && Sized(c) && k < |c.p.text|
    ensures var d := c.u.decompose(c.raw[c.p.rawIndices[k]]); m < |d| && d[m] == c.p.text[k]
  {
    RawIndexCovers(c.u, c.raw, c.p, k);
    var r := c.p.rawIndices[k];
    assert Occupies(c.u, c.raw, c.p, r);
    var at, d := Offset(c.u, c.raw, r), c.u.decompose(c.raw[r]);
    m := k - at;
    assert c.p.text[at..at + |d|][m] == c.p.text[k];
  }

  /** A span that covers the end of a left part is no apostrophe. */
  lemma PlainIsUnsupported(c: Scene, l: Left, s: Span)
    requires Ready(c) && Sized(c) && Plain(c) && LeftAt(c, l) && s.start < l.end <= s.end <= |c.p.text|
    ensures !Supported(c, s)
  {
    hide Ready;
    var k := l.end - 1;
    var m := PositionDecomposes(c, k);
    assert c.u.lower(c.p.text[k]) == c.left[|c.left| - 1] by {
      assert c.p.text[l.start + (|c.left| - 1)] == c.p.text[k];
    }
    var ch := c.raw[c.p.rawIndices[k]];
    assert ch !in c.apostrophes && ch != ' ' && ch != '\U{301}';
    assert c.p.rawIndices[s.start] <= c.p.rawIndices[k] <= c.p.rawIndices[s.end - 1];
  }

  lemma WiderHasCompat(c: Scene, a: nat, b: nat, end: nat)
    requires Ready(c) && Sized(c) && a <= b < end <= |c.p.text| && SpanHasCompat(c, Span(b, end))
    ensures SpanHasCompat(c, Span(a, end))
  {
    CompatSourceIff(c.u, c.raw, c.p, c.f, b, end);
    CompatSourceIff(c.u, c.raw, c.p, c.f, a, end);
    assert c.p.rawIndices[a] <= c.p.rawIndices[b];
  }

  lemma WiderIsObservable(c: Scene, a: nat, b: nat, end: nat)
    requires Ready(c) && Sized(c) && Sane(c.u) && a <= b <= end <= |c.p.text| && SpanObservable(c, Span(b, end))
    ensures SpanObservable(c, Span(a, end))
  {
    ObservableIff(c.u, c.raw, c.p, c.f, b, end);
    ObservableIff(c.u, c.raw, c.p, c.f, a, end);
  }

  /** A wider span that still ends there is no better supported. */
  lemma WiderIsUnsupported(c: Scene, l: Left, a: nat, i: nat)
    requires Ready(c) && Sized(c) && Sane(c.u) && a <= l.end && OpenAndShut(c, l, i)
    requires a == l.end || Plain(c)
    ensures Unsupported(c, Span(a, i))
  {
    hide Ready, Sane, Plain, LiteralAt, LeftAt, Supported, HasCompatSource, Observable, SpanHasCompat, SpanObservable;
    if a < l.end {
      PlainIsUnsupported(c, l, Span(a, i));
      if SpanHasCompat(c, Span(l.end, i)) {
        WiderHasCompat(c, a, l.end, i);
      } else {
        WiderIsObservable(c, a, l.end, i);
      }
    }
  }

  lemma HeldReports(c: Scene, l: Left, i: nat, s: State)
    requires Ready(c) && Sized(c) && Sane(c.u) && InToken(c, l, i) && (Plain(c) || Leads(c, l))
    requires i < |c.p.text| && Holding(c, l, i + 1, s) && ScanInv(c, i + 1, s)
    ensures Ordered(c, i + 1, s) && s.earliest.Some? && s.earliest.value.end <= l.end && (Leads(c, l) ==> s.earliest.value == l)
    ensures Shut(c, i, s).1 == [Span(s.earliest.value.end, i)]
  {
    hide Ready, Sane, Plain, Leads, Owned, LiteralAt, Supported, HasCompatSource, Observable, SpanHasCompat, SpanObservable,
      Unsupported;
    assert LeftAt(c, s.latest.value) && (s.left.Some? ==> LeftAt(c, s.left.value));
    assert ActiveEnd(s) < i;
    WiderIsUnsupported(c, l, s.earliest.value.end, i);
    assert !RawSpace(c, i - 1);
    assert OrdinaryReport(c, i, s);
  }

  lemma {:induction false} SpansGrow(c: Scene, m: nat, n: nat)
    requires Sized(c) && m <= n <= |c.p.text|
    ensures forall x :: x in SpansAt(c, m) ==> x in SpansAt(c, n)
  {
    hide *;
    if m < n {
      SpansGrow(c, m, n - 1);
      OneScanned(c, n - 1);
    }
  }

  /**
   A malformed contraction within one raw token is always reported: some reported span
   ends at its right part and takes in its whole separator, and it is exactly the
   separator if no earlier candidate can still be open.
   */
  lemma InTokenIsReported(c: Scene, l: Left, i: nat)
    requires Ready(c) && Sized(c) && Sane(c.u) && InToken(c, l, i) && (Plain(c) || Leads(c, l))
    ensures exists e: nat :: e <= l.end && Span(e, i) in SpansAt(c, |c.p.text|)
    ensures Leads(c, l) ==> Span(l.end, i) in SpansAt(c, |c.p.text|)
  {
    hide *;
    InTokenInside(c, l, i);
    HoldsUntil(c, l, i, i);
    Reached(c, i);
    HeldKeeps(c, i, StateAt(c, i));
    var s := Held(c, i, StateAt(c, i));
    HeldReports(c, l, i, s);
    OneScanned(c, i);
    SpansGrow(c, i + 1, |c.p.text|);
    assert Span(s.earliest.value.end, i) in SpansAt(c, i + 1);
  }

  lemma InTokenInside(c: Scene, l: Left, i: nat)
    requires Sized(c) && InToken(c, l, i)
    ensures l.start <= i < |c.p.text|
  {
  }

  /** A compatibility source, or material that normalizing leaves visible. */
  ghost predicate Suspicious(c: Scene, k: nat)
    requires Sized(c) && k < |c.p.text|
  {
    || Evidence(c.u, c.p.text[k])
    || c.u.decompose(c.raw[c.p.rawIndices[k]]) != c.u.canonical(c.raw[c.p.rawIndices[k]])
  }

  /** A compatibility source among a span's raw sources shows at one of its positions. */
  lemma SourceShows(c: Scene, s: Span)
    requires Ready(c) && Sized(c) && Sane(c.u) && s.start < s.end <= |c.p.text| && SpanHasCompat(c, s)
    ensures exists k :: s.start <= k < s.end && Suspicious(c, k)
  {
    CompatSourceIff(c.u, c.raw, c.p, c.f, s.start, s.end);
    var r :| c.p.rawIndices[s.start] <= r <= c.p.rawIndices[s.end - 1] && c.u.decompose(c.raw[r]) != c.u.canonical(c.raw[r]);
    RawIndexCovers(c.u, c.raw, c.p, s.start);
    RawIndexCovers(c.u, c.raw, c.p, s.end - 1);
    var k := if r == c.p.rawIndices[s.start] then s.start else Offset(c.u, c.raw, r);
    if r != c.p.rawIndices[s.start] {
      OffsetsGrow(c.u, c.raw, c.p.rawIndices[s.start] + 1, r);
      OffsetsGrow(c.u, c.raw, r, c.p.rawIndices[s.end - 1]);
      assert Occupies(c.u, c.raw, c.p, r);
    }
    assert c.p.rawIndices[k] == r;
    assert Suspicious(c, k);
  }

  lemma EvidenceShows(c: Scene, s: Span)
    requires Ready(c) && Sized(c) && Sane(c.u) && s.start <= s.end <= |c.p.text| && SpanObservable(c, s)
    ensures exists k :: s.start <= k < s.end && Suspicious(c, k)
  {
    ObservableIff(c.u, c.raw, c.p, c.f, s.start, s.end);
    var k :| s.start <= k < s.end && Evidence(c.u, c.p.text[k]);
    assert Suspicious(c, k);
  }

  lemma StandsOutsideWords(c: Scene, s: Span)
    requires Ready(c) && Sized(c) && Bridges(c, s)
    ensures |c.left| <= s.start < s.end && !BaseBefore(c.u, c.raw, c.p, s.start - |c.left|)
    ensures s.end + |c.right| <= |c.p.text| && !BaseAt(c.u, c.raw, c.p, s.end + |c.right|)
  {
    hide Projects, LiteralAt, BaseBefore, BaseAt;
    var l: Left :| LeftAt(c, l) && l.end == s.start;
  }

  lemma MalformedIsSuspicious(c: Scene, e: nat, end: nat)
    requires Ready(c) && Sized(c) && Sane(c.u) && e < end <= |c.p.text| && Malformed(c, e, end)
    ensures exists k :: e <= k < end && Suspicious(c, k)
  {
    hide Ready, Sane, Suspicious, Supported, LeftAt, SpanHasCompat, SpanObservable;
    if SpanHasCompat(c, Span(e, end)) {
      SourceShows(c, Span(e, end));
    } else {
      EvidenceShows(c, Span(e, end));
    }
  }

  /**
   A reported span holds something suspicious, so prose of letters and spaces that came
   from no compatibility character is never reported; its left part stands outside any word.
   */
  lemma ReportedIsSuspicious(c: Scene, s: Span)
    requires Ready(c) && Sized(c) && Sane(c.u) && Sound(c, s)
    ensures s.start < s.end < |c.p.text|
    ensures exists k :: s.start <= k < s.end && Suspicious(c, k)
    ensures |c.left| <= s.start && !BaseBefore(c.u, c.raw, c.p, s.start - |c.left|)
    ensures s.end + |c.right| <= |c.p.text| && !BaseAt(c.u, c.raw, c.p, s.end + |c.right|)
  {
    StandsOutsideWords(c, s);
    hide Ready, Sane, Suspicious, Bridges, Malformed, Owned, SpanObservable;
    if FallbackBridge(c, s) {
      EvidenceShows(c, s);
    } else {
      var e: nat :| s.start <= e < s.end && Malformed(c, e, s.end);
      MalformedIsSuspicious(c, e, s.end);
      var k :| e <= k < s.end && Suspicious(c, k);
    }
  }

  // ---------------------------------------------------------------- every contraction of a transcript

  /** The two parts of one contraction. */
  datatype Parts = Parts(left: Text, right: Text)

  /** A scene for each contraction over one transcript. */
  function SceneOf(
      u: Unicode, raw: Text, p: Projection, f: Facts, parts: Parts, apostrophes: set<char>, expansions: seq<Text>): Scene {
    Scene(u, raw, p, f, parts.left, parts.right, apostrophes, expansions)
  }

  function Scenes(
      u: Unicode, raw: Text, p: Projection, f: Facts, contractions: seq<Parts>, apostrophes: set<char>,
      expansions: seq<Text>): (r: seq<Scene>)
    ensures |r| == |contractions|
    ensures forall i :: 0 <= i < |r| ==> r[i] == SceneOf(u, raw, p, f, contractions[i], apostrophes, expansions)
  {
    seq(|contractions|, i requires 0 <= i < |contractions| => SceneOf(u, raw, p, f, contractions[i], apostrophes, expansions))
  }

  ghost predicate AllReady(scenes: seq<Scene>) {
    forall i :: 0 <= i < |scenes| ==> Ready(scenes[i]) && Sized(scenes[i])
  }

  /** What all the scans together report. */
  ghost function AllBridges(scenes: seq<Scene>): seq<Span>
    requires AllReady(scenes)
  {
    if scenes == [] then []
    else
      var n := |scenes| - 1;
      AllBridges(scenes[..n]) + SpansAt(scenes[n], |scenes[n].p.text|)
  }

  ghost predicate Reported(c: Scene, s: Span) {
    Ready(c) && Sized(c) && Sound(c, s)
  }

  /** A malformed contraction within one raw token. */
  ghost predicate MustReport(c: Scene, l: Left, i: nat) {
    Ready(c) && Sized(c) && Sane(c.u) && InToken(c, l, i) && (Plain(c) || Leads(c, l))
  }

  /** Whatever is reported is sound for some contraction. */
  lemma {:induction false} BridgesAreReported(scenes: seq<Scene>, s: Span)
    requires AllReady(scenes) && s in AllBridges(scenes)
    ensures exists i :: 0 <= i < |scenes| && Reported(scenes[i], s)
  {
    hide Sound, Ready, Sized, SpansAt;
    if scenes != [] {
      var n := |scenes| - 1;
      if s in AllBridges(scenes[..n]) {
        BridgesAreReported(scenes[..n], s);
        var i :| 0 <= i < n && Reported(scenes[..n][i], s);
        assert Reported(scenes[i], s);
      } else {
        SpansAreSound(scenes[n], |scenes[n].p.text|);
        assert Reported(scenes[n], s);
      }
    }
  }

  lemma {:induction false} ScannedIsBridge(scenes: seq<Scene>, i: nat, s: Span)
    requires AllReady(scenes) && i < |scenes| && s in SpansAt(scenes[i], |scenes[i].p.text|)
    ensures s in AllBridges(scenes)
  {
    hide Ready, Sized, SpansAt;
    if i < |scenes| - 1 {
      ScannedIsBridge(scenes[..|scenes| - 1], i, s);
    }
  }

  /** No malformed contraction within one raw token is missed. */
  lemma MalformedIsBridge(scenes: seq<Scene>, i: nat, l: Left, k: nat)
    requires AllReady(scenes) && i < |scenes| && MustReport(scenes[i], l, k)
    ensures exists s :: s in AllBridges(scenes) && s.start <= l.end && s.end == k
  {
    hide Ready, Sized, Sane, InToken, Plain, Leads, SpansAt, AllBridges;
    InTokenIsReported(scenes[i], l, k);
    var e: nat :| e <= l.end && Span(e, k) in SpansAt(scenes[i], |scenes[i].p.text|);
    ScannedIsBridge(scenes, i, Span(e, k));
  }

  /** Scan for every contraction. */
  method ScanAll(
      u: Unicode, raw: Text, p: Projection, f: Facts, contractions: seq<Parts>, apostrophes: set<char>,
      expansions: seq<Text>)
    returns (spans: seq<Span>)
    requires AllReady(Scenes(u, raw, p, f, contractions, apostrophes, expansions))
    ensures spans == AllBridges(Scenes(u, raw, p, f, contractions, apostrophes, expansions))
  {
    hide *;
    ghost var scenes := Scenes(u, raw, p, f, contractions, apostrophes, expansions);
    spans := [];
    NoBridges();
    var i := 0;
    while i < |contractions|
      invariant 0 <= i <= |contractions|
      invariant AllReady(scenes[..i]) && spans == AllBridges(scenes[..i])
    {
      OneMoreScene(scenes, i);
      var found := ScanContraction(SceneOf(u, raw, p, f, contractions[i], apostrophes, expansions));
      spans := spans + found;
      i := i + 1;
    }
    TakeAll(scenes);
  }

  /** Project, build the facts, and scan; `None` when the projection refuses. */
  method FindBridges(
      u: Unicode, raw: Text, contractions: seq<Parts>, apostrophes: set<char>, expansions: seq<Text>)
    returns (r: Option<seq<Span>>, ghost p: Projection, ghost f: Facts)
    requires [] !in expansions
    requires forall i :: 0 <= i < |contractions| ==> contractions[i].left != [] && contractions[i].right != []
    ensures r.None? <==> Oversized(u, raw)
    ensures r.Some? ==> Projects(u, raw, p) && FactsOf(u, raw, p, f)
    ensures r.Some? ==>
              var scenes := Scenes(u, raw, p, f, contractions, apostrophes, expansions);
              AllReady(scenes) && r.value == AllBridges(scenes)
  {
    hide *;
    var built := BuildRawProjection(u, raw);
    p, f := Projection([], [], []), Facts([], [], [], [], [], [], []);
    if built.None? {
      return None, p, f;
    }
    var facts := BuildProjectionFacts(u, raw, built.value);
    p, f := built.value, facts;
    ScenesAreReady(u, raw, p, f, contractions, apostrophes, expansions);
    var spans := ScanAll(u, raw, built.value, facts, contractions, apostrophes, expansions);
    r := Some(spans);
  }

  lemma NoBridges()
    ensures AllReady([]) && AllBridges([]) == []
  {
  }

  lemma OneMoreScene(scenes: seq<Scene>, i: nat)
    requires AllReady(scenes) && i < |scenes|
    ensures Sized(scenes[i]) && AllReady(scenes[..i]) && AllReady(scenes[..i + 1])
    ensures AllBridges(scenes[..i + 1]) == AllBridges(scenes[..i]) + SpansAt(scenes[i], |scenes[i].p.text|)
  {
    hide Ready, Sized, SpansAt;
    assert scenes[..i + 1][..i] == scenes[..i];
  }

  lemma ScenesAreReady(
      u: Unicode, raw: Text, p: Projection, f: Facts, contractions: seq<Parts>, apostrophes: set<char>,
      expansions: seq<Text>)
    requires Projects(u, raw, p) && FactsOf(u, raw, p, f) && [] !in expansions
    requires forall i :: 0 <= i < |contractions| ==> contractions[i].left != [] && contractions[i].right != []
    ensures AllReady(Scenes(u, raw, p, f, contractions, apostrophes, expansions))
  {
    hide Sized;
    var scenes := Scenes(u, raw, p, f, contractions, apostrophes, expansions);
    forall i | 0 <= i < |scenes|
      ensures Ready(scenes[i]) && Sized(scenes[i])
    {
      ReadyIsSized(scenes[i]);
    }
  }
}
