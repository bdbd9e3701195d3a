/** What the tests of the bridge scan ask, in terms of the raw transcript. */
module ConfirmMeaning {
  import opened Wrappers
  import opened ConfirmProjection
  import opened ConfirmFacts
  import opened ConfirmBridge

  /** A span is supported exactly when its raw material is one apostrophe, or a space and a combining acute. */
  lemma SupportedIff(c: Scene, s: Span)
    requires Sized(c) && s.start < s.end <= |c.p.text|
    ensures var material := c.raw[c.p.rawIndices[s.start]..c.p.rawIndices[s.end - 1] + 1];
            Supported(c, s) <==> material == [' ', '\U{301}'] || (|material| == 1 && material[0] in c.apostrophes)
  {
    var a, b := c.p.rawIndices[s.start], c.p.rawIndices[s.end - 1] + 1;
    var material := c.raw[a..b];
    if |material| == 2 {
      assert material == [c.raw[a], c.raw[a + 1]];
    }
  }

  /** A span owns its edges exactly when nothing outside it comes from a raw character of its own. */
  lemma OwnsEdgesIff(c: Scene, start: nat, end: nat)
    requires Sized(c) && start < end <= |c.p.text|
    ensures OwnsEdges(c, start, end) <==>
              forall j, k :: 0 <= j < |c.p.text| && start <= k < end && !(start <= j < end) ==>
                c.p.rawIndices[j] != c.p.rawIndices[k]
  {
    if OwnsEdges(c, start, end) {
      forall j, k | 0 <= j < |c.p.text| && start <= k < end && !(start <= j < end)
        ensures c.p.rawIndices[j] != c.p.rawIndices[k]
      {
        if j < start {
          assert c.p.rawIndices[j] <= c.p.rawIndices[start - 1] <= c.p.rawIndices[start] <= c.p.rawIndices[k];
        } else {
          assert c.p.rawIndices[k] <= c.p.rawIndices[end - 1] <= c.p.rawIndices[end] <= c.p.rawIndices[j];
        }
      }
    }
  }

  /** The expansion stands at `start`, all of it from one raw character with a compatibility decomposition. */
  predicate ExpandsAt(c: Scene, start: nat, e: Text)
    requires Sized(c)
  {
    && e != [] && start + |e| <= |c.p.text| && c.p.text[start..start + |e|] == e
    && c.p.rawIndices[start + |e| - 1] == c.p.rawIndices[start] && c.p.compat[c.p.rawIndices[start]]
  }

  lemma {:induction false} ExpansionIff(c: Scene, start: nat, i: nat)
    requires Sized(c) && i <= |c.expansions|
    ensures ExpansionSource(c, start, i).Some? <==> exists k :: i <= k < |c.expansions| && ExpandsAt(c, start, c.expansions[k])
    decreases |c.expansions| - i
  {
    if i < |c.expansions| {
      assert c.expansions[i] in c.expansions;
      ExpansionIff(c, start, i + 1);
    }
  }

  // ---------------------------------------------------------------- segments

  /** The raw characters from `j` to `i` belong to one canonical segment. */
  ghost predicate OneSegment(u: Unicode, raw: Text, j: nat, i: nat) {
    i <= |raw| && forall k :: j < k < i ==> Joins(u, SegmentAfter(u, raw, k), raw[k])
  }

  lemma {:induction false} SegmentHolds(u: Unicode, raw: Text, i: nat)
    requires 0 < i <= |raw|
    ensures var n := SegmentAfter(u, raw, i).size; 0 < n <= i && OneSegment(u, raw, i - n, i)
  {
    hide Joins;
    if i > 1 {
      SegmentHolds(u, raw, i - 1);
    }
  }

  lemma {:induction false} SegmentGrows(u: Unicode, raw: Text, j: nat, i: nat)
    requires j < i && OneSegment(u, raw, j, i)
    ensures SegmentAfter(u, raw, i).size >= i - j
    decreases i
  {
    hide Joins;
    if j + 1 < i {
      SegmentGrows(u, raw, j, i - 1);
    }
  }

  /** A transcript is oversized exactly when more than 256 raw characters in a row belong to one canonical segment. */
  lemma OversizedIff(u: Unicode, raw: Text)
    ensures Oversized(u, raw) <==> exists j: nat, i: nat :: i == j + 257 && OneSegment(u, raw, j, i)
  {
    hide Joins;
    if Oversized(u, raw) {
      var i :| 0 <= i <= |raw| && SegmentAfter(u, raw, i).size > MAX_SEGMENT;
      assert i > 0;
      SegmentHolds(u, raw, i);
      assert OneSegment(u, raw, i - 257, i);
    }
    if j: nat, i: nat :| i == j + 257 && OneSegment(u, raw, j, i) {
      SegmentGrows(u, raw, j, i);
    }
  }

  /** A character joins the open segment exactly when its decomposition begins with a mark or composes with what came before. */
  lemma JoinsIff(u: Unicode, s: Segment, c: char)
    ensures Joins(u, s, c) <==>
              && s.size > 0
              && (|| u.decompose(c) == [] || u.combines(u.decompose(c)[0])
                  || (s.tail != None && u.compose(s.tail.value, u.decompose(c)[0]) != None))
  {
  }

  /** What a later character may compose with: nothing after a mark, and otherwise the last character or what it composed to. */
  lemma TailIs(u: Unicode, tail: Option<char>, before: Text, c: char)
    ensures var t := AdvanceTail(u, tail, before);
            AdvanceTail(u, tail, before + [c]) ==
              if u.combines(c) then None
              else if t != None && u.compose(t.value, c) != None then u.compose(t.value, c)
              else Some(c)
    ensures AdvanceTail(u, tail, []) == tail
  {
    assert (before + [c])[..|before|] == before;
  }

  // ---------------------------------------------------------------- words next to a position

  /** The last opaque character of `s` from `lo` up to `hi` is word material. */
  ghost predicate WordEnds(u: Unicode, s: Text, lo: nat, hi: nat) {
    exists j :: lo <= j < hi <= |s| && !u.transparent(s[j]) && u.wordBase(s[j]) && forall m :: j < m < hi ==> u.transparent(s[m])
  }

  /** The first opaque character of `s` from `lo` up to `hi` is. */
  ghost predicate WordBegins(u: Unicode, s: Text, lo: nat, hi: nat) {
    exists j :: lo <= j < hi <= |s| && !u.transparent(s[j]) && u.wordBase(s[j]) && forall m :: lo <= m < j ==> u.transparent(s[m])
  }

  predicate AllTransparent(u: Unicode, s: Text, lo: nat, hi: nat) {
    hi <= |s| && forall m :: lo <= m < hi ==> u.transparent(s[m])
  }

  /**
   A word stands before a projected position: within its own source the projected characters
   say so, and at the source's start, or where those are all transparent, the raw text does.
   */
  lemma BaseBeforeIff(u: Unicode, raw: Text, p: Projection, k: nat)
    requires Projects(u, raw, p) && k < |p.text| && p.rawIndices[k] < |raw|
    ensures var i := p.rawIndices[k];
            var start := Offset(u, raw, i);
            BaseBefore(u, raw, p, k) <==>
              WordEnds(u, p.text, start, k) || (AllTransparent(u, p.text, start, k) && WordEnds(u, raw, 0, i))
  {
    RawIndexCovers(u, raw, p, k);
    var i := p.rawIndices[k];
    BeforeMeans(u, p.text, Offset(u, raw, i), k, RawBefore(u, raw, i));
    BeforeMeans(u, raw, 0, i, false);
  }

  /** A word stands at or after a projected position, in the same way. */
  lemma BaseAtIff(u: Unicode, raw: Text, p: Projection, k: nat)
    requires Projects(u, raw, p) && k < |p.text| && p.rawIndices[k] < |raw|
    ensures var i := p.rawIndices[k];
            var end := Offset(u, raw, i + 1);
            BaseAt(u, raw, p, k) <==>
              if k == Offset(u, raw, i) then WordBegins(u, raw, i, |raw|)
              else WordBegins(u, p.text, k, end) || (AllTransparent(u, p.text, k, end) && WordBegins(u, raw, i + 1, |raw|))
  {
    RawIndexCovers(u, raw, p, k);
    EndInside(u, raw, p, p.rawIndices[k]);
    var i := p.rawIndices[k];
    AfterMeans(u, raw, i, |raw|, false);
    AfterMeans(u, raw, i + 1, |raw|, false);
    if k != Offset(u, raw, i) {
      AfterMeans(u, p.text, k, Offset(u, raw, i + 1), RawAt(u, raw, i + 1));
    }
  }

  /** A span is complete exactly when no word runs into it or out of it. */
  lemma CompleteIff(c: Scene, start: nat, end: nat)
    requires Ready(c) && Sized(c) && start <= |c.p.text| && end <= |c.p.text|
    ensures Complete(c, start, end) <==> !BaseBefore(c.u, c.raw, c.p, start) && !BaseAt(c.u, c.raw, c.p, end)
  {
  }
}
