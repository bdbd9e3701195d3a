/**
 The raw-preserving compatibility view of a transcript: every character is
 decomposed on its own, and each projected character remembers its source.
 */
module ConfirmProjection {
  import opened Wrappers

  type Text = seq<char>

  /** The character database, as far as the classifier asks it. */
  datatype Unicode = Unicode(
    decompose: char -> Text,             // compatibility decomposition of one character
    canonical: char -> Text,             // canonical decomposition of one character
    compose: (char, char) -> Option<char>,
    combines: char -> bool,              // nonzero combining class
    transparent: char -> bool,           // marks and format controls
    wordBase: char -> bool,              // letters, numbers and connectors
    space: char -> bool,
    alpha: char -> bool,
    lower: char -> char)

  /** What the proofs need of it. */
  ghost predicate Sane(u: Unicode) {
    && (forall c: char :: u.decompose(c) != [])
    && (forall c: char :: u.space(c) ==> !u.transparent(c) && !u.alpha(c))
  }

  const MAX_SEGMENT := 256

  datatype Projection = Projection(text: Text, rawIndices: seq<nat>, compat: seq<bool>)

  // ---------------------------------------------------------------- what a projection is

  /** Where the decomposition of raw character `i` starts. */
  function Offset(u: Unicode, raw: Text, i: nat): nat
    requires i <= |raw|
  {
    if i == 0 then 0 else Offset(u, raw, i - 1) + |u.decompose(raw[i - 1])|
  }

  /** The projected characters of each raw index are exactly its decomposition, in order. */
  ghost predicate Projects(u: Unicode, raw: Text, p: Projection) {
    && |p.rawIndices| == |p.text| == Offset(u, raw, |raw|)
    && |p.compat| == |raw|
    && (forall i :: 0 <= i < |raw| ==> p.compat[i] == (u.decompose(raw[i]) != u.canonical(raw[i])))
    && (forall i :: 0 <= i < |raw| ==> Occupies(u, raw, p, i))
  }

  ghost predicate Occupies(u: Unicode, raw: Text, p: Projection, i: nat)
    requires i < |raw|
  {
    var at := Offset(u, raw, i);
    var d := u.decompose(raw[i]);
    && at + |d| <= |p.text| && at + |d| <= |p.rawIndices|
    && p.text[at..at + |d|] == d
    && forall k :: at <= k < at + |d| ==> p.rawIndices[k] == i
  }

  lemma {:induction false} OffsetsGrow(u: Unicode, raw: Text, i: nat, j: nat)
    requires i <= j <= |raw|
    ensures Offset(u, raw, i) <= Offset(u, raw, j)
  {
    if i < j {
      OffsetsGrow(u, raw, i, j - 1);
    }
  }

  /** The raw character whose decomposition covers projected position `k`. */
  lemma {:induction false} Covered(u: Unicode, raw: Text, n: nat, k: nat) returns (i: nat)
    requires n <= |raw| && k < Offset(u, raw, n)
    ensures i < n && Offset(u, raw, i) <= k < Offset(u, raw, i + 1)
  {
    if k >= Offset(u, raw, n - 1) {
      i := n - 1;
    } else {
      i := Covered(u, raw, n - 1, k);
    }
  }

  /** A projected position lies in the decomposition of the raw index it names. */
  lemma RawIndexCovers(u: Unicode, raw: Text, p: Projection, k: nat)
    requires Projects(u, raw, p) && k < |p.text|
    ensures p.rawIndices[k] < |raw|
    ensures Offset(u, raw, p.rawIndices[k]) <= k < Offset(u, raw, p.rawIndices[k] + 1)
  {
    var i := Covered(u, raw, |raw|, k);
    assert Occupies(u, raw, p, i);
  }

  /** Raw indices never decrease along the projection. */
  lemma RawIndicesSorted(u: Unicode, raw: Text, p: Projection, j: nat, k: nat)
    requires Projects(u, raw, p) && j <= k < |p.text|
    ensures p.rawIndices[j] <= p.rawIndices[k]
  {
    RawIndexCovers(u, raw, p, j);
    RawIndexCovers(u, raw, p, k);
    if p.rawIndices[j] > p.rawIndices[k] {
      OffsetsGrow(u, raw, p.rawIndices[k] + 1, p.rawIndices[j]);
    }
  }

  // ---------------------------------------------------------------- bounded segments

  /** The open normalization segment: its size and the character a later one may compose with. */
  datatype Segment = Segment(size: nat, tail: Option<char>)

  function ComposesTo(u: Unicode, tail: Option<char>, c: char): Option<char> {
    if tail.None? then None else u.compose(tail.value, c)
  }

  function TailAfter(u: Unicode, tail: Option<char>, c: char): Option<char> {
    if u.combines(c) then None
    else if ComposesTo(u, tail, c).Some? then ComposesTo(u, tail, c)
    else Some(c)
  }

  function AdvanceTail(u: Unicode, tail: Option<char>, decomposition: Text): Option<char> {
    if decomposition == [] then tail
    else
      var n := |decomposition| - 1;
      TailAfter(u, AdvanceTail(u, tail, decomposition[..n]), decomposition[n])
  }

  predicate Joins(u: Unicode, s: Segment, c: char) {
    var d := u.decompose(c);
    s.size > 0 && (d == [] || u.combines(d[0]) || ComposesTo(u, s.tail, d[0]).Some?)
  }

  /** The segment the next raw character extends: the open one, or a new one. */
  function Extended(u: Unicode, s: Segment, c: char): Segment {
    if Joins(u, s, c) then s else Segment(0, None)
  }

  function SegmentAfter(u: Unicode, raw: Text, i: nat): Segment
    requires i <= |raw|
  {
    if i == 0 then Segment(0, None)
    else
      var from := Extended(u, SegmentAfter(u, raw, i - 1), raw[i - 1]);
      Segment(from.size + 1, AdvanceTail(u, from.tail, u.decompose(raw[i - 1])))
  }

  /** Some canonical segment is longer than the bound. */
  predicate Oversized(u: Unicode, raw: Text) {
    exists i :: 0 <= i <= |raw| && SegmentAfter(u, raw, i).size > MAX_SEGMENT
  }

  method AdvanceCompositionTail(u: Unicode, tail0: Option<char>, decomposition: Text) returns (tail: Option<char>)
    ensures tail == AdvanceTail(u, tail0, decomposition)
  {
    tail := tail0;
    var i := 0;
    while i < |decomposition|
      invariant 0 <= i <= |decomposition|
      invariant tail == AdvanceTail(u, tail0, decomposition[..i])
    {
      var c := decomposition[i];
      assert decomposition[..i + 1][..i] == decomposition[..i];
      if u.combines(c) {
        tail := None;
      } else {
        var composite := ComposesTo(u, tail, c);
        tail := if composite.Some? then composite else Some(c);
      }
      i := i + 1;
    }
    TakeAll(decomposition);
  }

  /** The projection of the first `n` raw characters. */
  ghost predicate Projected(u: Unicode, raw: Text, n: nat, p: Projection)
    requires n <= |raw|
  {
    && |p.rawIndices| == |p.text| == Offset(u, raw, n)
    && |p.compat| == n
    && (forall i :: 0 <= i < n ==> p.compat[i] == (u.decompose(raw[i]) != u.canonical(raw[i])))
    && (forall i :: 0 <= i < n ==> Occupies(u, raw, p, i))
  }

  function Append(u: Unicode, p: Projection, i: nat, c: char): Projection {
    var d := u.decompose(c);
    Projection(p.text + d, p.rawIndices + seq(|d|, _ => i), p.compat + [d != u.canonical(c)])
  }

  lemma AppendProjects(u: Unicode, raw: Text, n: nat, p: Projection)
    requires n < |raw| && Projected(u, raw, n, p)
    ensures Projected(u, raw, n + 1, Append(u, p, n, raw[n]))
  {
    var q := Append(u, p, n, raw[n]);
    var d := u.decompose(raw[n]);
    assert Occupies(u, raw, q, n) by {
      assert q.text[|p.text|..|p.text| + |d|] == d;
    }
    forall i | 0 <= i < n
      ensures Occupies(u, raw, q, i)
    {
      assert Occupies(u, raw, p, i);
      var at := Offset(u, raw, i);
      var e := u.decompose(raw[i]);
      assert q.text[at..at + |e|] == p.text[at..at + |e|];
    }
  }

  /** The segment state after `i` characters, none of the sizes so far over the bound. */
  ghost predicate Bounded(u: Unicode, raw: Text, i: nat, segment: Segment)
    requires i <= |raw|
  {
    && segment == SegmentAfter(u, raw, i)
    && forall k :: 0 <= k <= i ==> SegmentAfter(u, raw, k).size <= MAX_SEGMENT
  }

  lemma SegmentStep(u: Unicode, raw: Text, i: nat, segment: Segment)
    requires i < |raw| && Bounded(u, raw, i, segment)
    ensures var from := Extended(u, segment, raw[i]);
            var to := Segment(from.size + 1, AdvanceTail(u, from.tail, u.decompose(raw[i])));
            if to.size > MAX_SEGMENT then Oversized(u, raw) else Bounded(u, raw, i + 1, to)
  {
    assert SegmentAfter(u, raw, i + 1).size > MAX_SEGMENT ==> Oversized(u, raw);
  }

  lemma BuildStart(u: Unicode, raw: Text)
    ensures Bounded(u, raw, 0, Segment(0, None)) && Projected(u, raw, 0, Projection([], [], []))
  {
  }

  lemma BuildDone(u: Unicode, raw: Text, segment: Segment, p: Projection)
    requires Bounded(u, raw, |raw|, segment) && Projected(u, raw, |raw|, p)
    ensures !Oversized(u, raw) && Projects(u, raw, p)
  {
  }

  /** `_build_raw_projection`: the projection, or nothing when a segment is oversized. */
  method BuildRawProjection(u: Unicode, raw: Text) returns (r: Option<Projection>)
    ensures r.None? <==> Oversized(u, raw)
    ensures r.Some? ==> Projects(u, raw, r.value)
  {
    hide *;
    var segment := Segment(0, None);
    var p := Projection([], [], []);
    BuildStart(u, raw);
    var i := 0;
    while i < |raw|
      invariant 0 <= i <= |raw|
      invariant Bounded(u, raw, i, segment) && Projected(u, raw, i, p)
    {
      var d := u.decompose(raw[i]);
      SegmentStep(u, raw, i, segment);
      segment := Extended(u, segment, raw[i]);
      segment := segment.(size := segment.size + 1);
      if segment.size > MAX_SEGMENT {
        return None;
      }
      var tail := AdvanceCompositionTail(u, segment.tail, d);
      segment := segment.(tail := tail);
      AppendProjects(u, raw, i, p);
      p := Append(u, p, i, raw[i]);
      i := i + 1;
    }
    BuildDone(u, raw, segment, p);
    r := Some(p);
  }
}
