/**
 Constant-time answers about a projection: what word material stands next to a
 position, and what a span contains.
 */
module ConfirmFacts {
  import opened Wrappers
  import opened ConfirmProjection

  // ---------------------------------------------------------------- nearest opaque character

  /** Is the nearest opaque character of s[lo..i] word material? With none there, `base` decides. */
  function Before(u: Unicode, s: Text, lo: nat, i: nat, base: bool): bool
    requires lo <= i <= |s|
  {
    if i == lo then base
    else if !u.transparent(s[i - 1]) then u.wordBase(s[i - 1])
    else Before(u, s, lo, i - 1, base)
  }

  /** The same looking forward through s[i..hi]. */
  function After(u: Unicode, s: Text, i: nat, hi: nat, base: bool): bool
    requires i <= hi <= |s|
    decreases hi - i
  {
    if i == hi then base
    else if !u.transparent(s[i]) then u.wordBase(s[i])
    else After(u, s, i + 1, hi, base)
  }

  lemma {:induction false} BeforeMeans(u: Unicode, s: Text, lo: nat, i: nat, base: bool)
    requires lo <= i <= |s|
    ensures Before(u, s, lo, i, base) <==>
              || (base && forall m :: lo <= m < i ==> u.transparent(s[m]))
              || (exists j :: lo <= j < i && !u.transparent(s[j]) && u.wordBase(s[j]) &&
                              forall m :: j < m < i ==> u.transparent(s[m]))
  {
    if i > lo && u.transparent(s[i - 1]) {
      BeforeMeans(u, s, lo, i - 1, base);
    }
  }

  lemma {:induction false} AfterMeans(u: Unicode, s: Text, i: nat, hi: nat, base: bool)
    requires i <= hi <= |s|
    ensures After(u, s, i, hi, base) <==>
              || (base && forall m :: i <= m < hi ==> u.transparent(s[m]))
              || (exists j :: i <= j < hi && !u.transparent(s[j]) && u.wordBase(s[j]) &&
                              forall m :: i <= m < j ==> u.transparent(s[m]))
    decreases hi - i
  {
    if i < hi && u.transparent(s[i]) {
      AfterMeans(u, s, i + 1, hi, base);
    }
  }

  function RawBefore(u: Unicode, raw: Text, i: nat): bool
    requires i <= |raw|
  {
    Before(u, raw, 0, i, false)
  }

  function RawAt(u: Unicode, raw: Text, i: nat): bool
    requires i <= |raw|
  {
    After(u, raw, i, |raw|, false)
  }

  /** Inside one source its own characters decide; before it, the raw text does. */
  ghost function BaseBefore(u: Unicode, raw: Text, p: Projection, k: nat): bool
    requires Projects(u, raw, p) && k <= |p.text|
  {
    if k == |p.text| then RawBefore(u, raw, |raw|)
    else
      RawIndexCovers(u, raw, p, k);
      var i := p.rawIndices[k];
      Before(u, p.text, Offset(u, raw, i), k, RawBefore(u, raw, i))
  }

  /** At the start of a source the raw text decides; inside it, its remaining characters first. */
  ghost function BaseAt(u: Unicode, raw: Text, p: Projection, k: nat): bool
    requires Projects(u, raw, p) && k <= |p.text|
  {
    if k == |p.text| then false
    else
      RawIndexCovers(u, raw, p, k);
      var i := p.rawIndices[k];
      EndInside(u, raw, p, i);
      if k == Offset(u, raw, i) then RawAt(u, raw, i)
      else After(u, p.text, k, Offset(u, raw, i + 1), RawAt(u, raw, i + 1))
  }

  lemma EndInside(u: Unicode, raw: Text, p: Projection, i: nat)
    requires Projects(u, raw, p) && i < |raw|
    ensures Offset(u, raw, i + 1) <= |p.text|
  {
    OffsetsGrow(u, raw, i + 1, |raw|);
  }

  /** A position starts a source exactly when its predecessor has another raw index. */
  lemma SourceStart(u: Unicode, raw: Text, p: Projection, k: nat)
    requires Projects(u, raw, p) && k < |p.text|
    ensures p.rawIndices[k] < |raw|
    ensures (k == 0 || p.rawIndices[k] != p.rawIndices[k - 1]) <==> k == Offset(u, raw, p.rawIndices[k])
  {
    RawIndexCovers(u, raw, p, k);
    if k > 0 {
      RawIndexCovers(u, raw, p, k - 1);
      var i := p.rawIndices[k];
      if k > Offset(u, raw, i) {
        assert Occupies(u, raw, p, i);
      }
    }
  }

  lemma SourceEnd(u: Unicode, raw: Text, p: Projection, k: nat)
    requires Projects(u, raw, p) && k < |p.text|
    ensures p.rawIndices[k] < |raw|
    ensures (k == |p.text| - 1 || p.rawIndices[k] != p.rawIndices[k + 1]) <==> k + 1 == Offset(u, raw, p.rawIndices[k] + 1)
  {
    RawIndexCovers(u, raw, p, k);
    var i := p.rawIndices[k];
    EndInside(u, raw, p, i);
    if k + 1 < |p.text| {
      RawIndexCovers(u, raw, p, k + 1);
      if k + 1 < Offset(u, raw, i + 1) {
        assert Occupies(u, raw, p, i);
      }
    }
  }

  method RawBeforePass(u: Unicode, raw: Text) returns (r: seq<bool>)
    ensures |r| == |raw| + 1 && forall i :: 0 <= i <= |raw| ==> r[i] == RawBefore(u, raw, i)
  {
    r := [];
    var previous := false;
    var i := 0;
    while i < |raw|
      invariant 0 <= i <= |raw| && |r| == i
      invariant previous == RawBefore(u, raw, i)
      invariant forall k :: 0 <= k < i ==> r[k] == RawBefore(u, raw, k)
    {
      r := r + [previous];
      if !u.transparent(raw[i]) {
        previous := u.wordBase(raw[i]);
      }
      i := i + 1;
    }
    r := r + [previous];
  }

  method RawAtPass(u: Unicode, raw: Text) returns (r: seq<bool>)
    ensures |r| == |raw| + 1 && forall i :: 0 <= i <= |raw| ==> r[i] == RawAt(u, raw, i)
  {
    var a := new bool[|raw| + 1](_ => false);
    var next := false;
    var i := |raw|;
    while i > 0
      invariant 0 <= i <= |raw| && next == RawAt(u, raw, i)
      invariant forall k :: i <= k <= |raw| ==> a[k] == RawAt(u, raw, k)
    {
      i := i - 1;
      if !u.transparent(raw[i]) {
        next := u.wordBase(raw[i]);
      }
      a[i] := next;
    }
    r := a[..];
  }

  lemma BeforeOnce(u: Unicode, s: Text, lo: nat, i: nat, base: bool)
    requires lo <= i < |s|
    ensures Before(u, s, lo, i + 1, base) == if u.transparent(s[i]) then Before(u, s, lo, i, base) else u.wordBase(s[i])
  {
  }

  lemma AfterOnce(u: Unicode, s: Text, i: nat, hi: nat, base: bool)
    requires i < hi <= |s|
    ensures After(u, s, i, hi, base) == if u.transparent(s[i]) then After(u, s, i + 1, hi, base) else u.wordBase(s[i])
    ensures After(u, s, hi, hi, base) == base
  {
  }

  lemma ForwardStep(u: Unicode, raw: Text, p: Projection, k: nat, previous: bool)
    requires Projects(u, raw, p) && k < |p.text|
    requires k > 0 && p.rawIndices[k] == p.rawIndices[k - 1] ==> previous == Carried(u, raw, p, k - 1)
    ensures p.rawIndices[k] < |raw|
    ensures BaseBefore(u, raw, p, k) ==
            if k == 0 || p.rawIndices[k] != p.rawIndices[k - 1] then RawBefore(u, raw, p.rawIndices[k]) else previous
    ensures Carried(u, raw, p, k) ==
            if u.transparent(p.text[k]) then BaseBefore(u, raw, p, k) else u.wordBase(p.text[k])
  {
    SourceStart(u, raw, p, k);
    RawIndexCovers(u, raw, p, k);
    BeforeOnce(u, p.text, Offset(u, raw, p.rawIndices[k]), k, RawBefore(u, raw, p.rawIndices[k]));
  }

  /** What the forward pass carries out of position `k`. */
  ghost function Carried(u: Unicode, raw: Text, p: Projection, k: nat): bool
    requires Projects(u, raw, p) && k < |p.text|
  {
    RawIndexCovers(u, raw, p, k);
    var i := p.rawIndices[k];
    Before(u, p.text, Offset(u, raw, i), k + 1, RawBefore(u, raw, i))
  }

  method BeforePass(u: Unicode, raw: Text, p: Projection, rawBefore: seq<bool>) returns (r: seq<bool>)
    requires Projects(u, raw, p)
    requires |rawBefore| == |raw| + 1 && forall i :: 0 <= i <= |raw| ==> rawBefore[i] == RawBefore(u, raw, i)
    ensures |r| == |p.text| + 1 && forall k :: 0 <= k <= |p.text| ==> r[k] == BaseBefore(u, raw, p, k)
  {
    hide *;
    var a := new bool[|p.text| + 1](_ => false);
    var previous := false;
    ProjectsSizes(u, raw, p);
    var k := 0;
    while k < |p.text|
      invariant 0 <= k <= |p.text|
      invariant k > 0 ==> previous == Carried(u, raw, p, k - 1)
      invariant forall j :: 0 <= j < k ==> a[j] == BaseBefore(u, raw, p, j)
    {
      ForwardStep(u, raw, p, k, previous);
      if k == 0 || p.rawIndices[k] != p.rawIndices[k - 1] {
        previous := rawBefore[p.rawIndices[k]];
      }
      a[k] := previous;
      if !u.transparent(p.text[k]) {
        previous := u.wordBase(p.text[k]);
      }
      k := k + 1;
    }
    a[|p.text|] := rawBefore[|raw|];
    EndValues(u, raw, p);
    r := a[..];
  }

  lemma ProjectsSizes(u: Unicode, raw: Text, p: Projection)
    requires Projects(u, raw, p)
    ensures |p.rawIndices| == |p.text| && |p.compat| == |raw|
  {
  }

  lemma EndValues(u: Unicode, raw: Text, p: Projection)
    requires Projects(u, raw, p)
    ensures BaseBefore(u, raw, p, |p.text|) == RawBefore(u, raw, |raw|)
    ensures BaseAt(u, raw, p, |p.text|) == false
  {
  }

  /** What the backward pass carries into position `k - 1` of the same source. */
  ghost function CarriedBack(u: Unicode, raw: Text, p: Projection, k: nat): bool
    requires Projects(u, raw, p) && k < |p.text|
  {
    RawIndexCovers(u, raw, p, k);
    var i := p.rawIndices[k];
    EndInside(u, raw, p, i);
    After(u, p.text, k, Offset(u, raw, i + 1), RawAt(u, raw, i + 1))
  }

  lemma BackwardStep(u: Unicode, raw: Text, p: Projection, k: nat, next: bool)
    requires Projects(u, raw, p) && k < |p.text|
    requires k + 1 < |p.text| && p.rawIndices[k] == p.rawIndices[k + 1] ==> next == CarriedBack(u, raw, p, k + 1)
    ensures p.rawIndices[k] < |raw|
    ensures var i := p.rawIndices[k];
            var into := if k == |p.text| - 1 || i != p.rawIndices[k + 1] then RawAt(u, raw, i + 1) else next;
            && CarriedBack(u, raw, p, k) == (if u.transparent(p.text[k]) then into else u.wordBase(p.text[k]))
            && BaseAt(u, raw, p, k) ==
               (if k == 0 || i != p.rawIndices[k - 1] then RawAt(u, raw, i) else CarriedBack(u, raw, p, k))
  {
    RawIndexCovers(u, raw, p, k);
    SourceStart(u, raw, p, k);
    SourceEnd(u, raw, p, k);
    EndInside(u, raw, p, p.rawIndices[k]);
    AfterOnce(u, p.text, k, Offset(u, raw, p.rawIndices[k] + 1), RawAt(u, raw, p.rawIndices[k] + 1));
  }

  method AtPass(u: Unicode, raw: Text, p: Projection, rawAt: seq<bool>) returns (r: seq<bool>)
    requires Projects(u, raw, p)
    requires |rawAt| == |raw| + 1 && forall i :: 0 <= i <= |raw| ==> rawAt[i] == RawAt(u, raw, i)
    ensures |r| == |p.text| + 1 && forall k :: 0 <= k <= |p.text| ==> r[k] == BaseAt(u, raw, p, k)
  {
    hide *;
    var a := new bool[|p.text| + 1](_ => false);
    var next := false;
    ProjectsSizes(u, raw, p);
    EndValues(u, raw, p);
    var k := |p.text|;
    while k > 0
      invariant 0 <= k <= |p.text|
      invariant 0 < k < |p.text| && p.rawIndices[k] == p.rawIndices[k - 1] ==> next == CarriedBack(u, raw, p, k)
      invariant forall j :: k <= j <= |p.text| ==> a[j] == BaseAt(u, raw, p, j)
    {
      k := k - 1;
      BackwardStep(u, raw, p, k, next);
      var i := p.rawIndices[k];
      if k == |p.text| - 1 || i != p.rawIndices[k + 1] {
        next := rawAt[i + 1];
      }
      if !u.transparent(p.text[k]) {
        next := u.wordBase(p.text[k]);
      }
      if k == 0 || i != p.rawIndices[k - 1] {
        next := rawAt[i];
      }
      a[k] := next;
    }
    r := a[..];
  }

  // ---------------------------------------------------------------- prefix sums

  function Count(marks: seq<bool>, i: nat): nat
    requires i <= |marks|
  {
    if i == 0 then 0 else Count(marks, i - 1) + if marks[i - 1] then 1 else 0
  }

  /** A difference of prefix sums counts the marks of a span. */
  lemma {:induction false} CountSpan(marks: seq<bool>, a: nat, b: nat)
    requires a <= b <= |marks|
    ensures Count(marks, a) <= Count(marks, b) <= Count(marks, a) + b - a
    ensures Count(marks, b) == Count(marks, a) <==> forall k :: a <= k < b ==> !marks[k]
    ensures Count(marks, b) == Count(marks, a) + b - a <==> forall k :: a <= k < b ==> marks[k]
  {
    if a < b {
      CountSpan(marks, a, b - 1);
    }
  }

  /** Marks that include other marks are counted more often exactly when one is extra. */
  lemma {:induction false} CountExtra(more: seq<bool>, fewer: seq<bool>, a: nat, b: nat)
    requires a <= b <= |more| == |fewer|
    requires forall k :: a <= k < b && fewer[k] ==> more[k]
    ensures Count(more, b) - Count(more, a) >= Count(fewer, b) - Count(fewer, a)
    ensures Count(more, b) - Count(more, a) > Count(fewer, b) - Count(fewer, a) <==>
            exists k :: a <= k < b && more[k] && !fewer[k]
  {
    if a < b {
      CountExtra(more, fewer, a, b - 1);
    }
  }

  method PrefixSums(marks: seq<bool>) returns (prefix: seq<nat>)
    ensures |prefix| == |marks| + 1 && forall i :: 0 <= i <= |marks| ==> prefix[i] == Count(marks, i)
  {
    prefix := [0];
    var i := 0;
    while i < |marks|
      invariant 0 <= i <= |marks| && |prefix| == i + 1
      invariant forall k :: 0 <= k <= i ==> prefix[k] == Count(marks, k)
    {
      prefix := prefix + [prefix[i] + if marks[i] then 1 else 0];
      i := i + 1;
    }
  }

  function Marks(s: Text, f: char -> bool): (r: seq<bool>)
    ensures |r| == |s| && forall i :: 0 <= i < |s| ==> r[i] == f(s[i])
  {
    seq(|s|, i requires 0 <= i < |s| => f(s[i]))
  }

  function Significant(u: Unicode): char -> bool {
    c => !u.transparent(c)
  }

  function NonAlphaSignificant(u: Unicode): char -> bool {
    c => !u.transparent(c) && !u.alpha(c)
  }

  datatype Facts = Facts(
    baseBefore: seq<bool>, baseAt: seq<bool>, rawSpace: seq<bool>, compatPrefix: seq<nat>, spacePrefix: seq<nat>,
    significantPrefix: seq<nat>, nonAlphaPrefix: seq<nat>)

  ghost predicate PrefixOf(prefix: seq<nat>, marks: seq<bool>) {
    |prefix| == |marks| + 1 && forall i :: 0 <= i <= |marks| ==> prefix[i] == Count(marks, i)
  }

  /** Facts that say of a projection what their definitions say. */
  ghost predicate FactsOf(u: Unicode, raw: Text, p: Projection, f: Facts)
    requires Projects(u, raw, p)
  {
    && |f.baseBefore| == |f.baseAt| == |p.text| + 1 && |f.rawSpace| == |p.text|
    && (forall k :: 0 <= k <= |p.text| ==> f.baseBefore[k] == BaseBefore(u, raw, p, k))
    && (forall k :: 0 <= k <= |p.text| ==> f.baseAt[k] == BaseAt(u, raw, p, k))
    && (forall k :: 0 <= k < |p.text| ==> p.rawIndices[k] < |raw| && f.rawSpace[k] == u.space(raw[p.rawIndices[k]]))
    && PrefixOf(f.compatPrefix, p.compat)
    && PrefixOf(f.spacePrefix, Marks(p.text, u.space))
    && PrefixOf(f.significantPrefix, Marks(p.text, Significant(u)))
    && PrefixOf(f.nonAlphaPrefix, Marks(p.text, NonAlphaSignificant(u)))
  }

  /** `_build_projection_facts`. */
  method BuildProjectionFacts(u: Unicode, raw: Text, p: Projection) returns (f: Facts)
    requires Projects(u, raw, p)
    ensures FactsOf(u, raw, p, f)
  {
    var rawBefore := RawBeforePass(u, raw);
    var rawAt := RawAtPass(u, raw);
    var before := BeforePass(u, raw, p, rawBefore);
    var at := AtPass(u, raw, p, rawAt);
    var compat := PrefixSums(p.compat);
    AllIndicesInside(u, raw, p);
    var rawSpace := seq(|p.text|, k requires 0 <= k < |p.text| && k < |p.rawIndices| && p.rawIndices[k] < |raw| => u.space(raw[p.rawIndices[k]]));
    var space := PrefixSums(Marks(p.text, u.space));
    var significant := PrefixSums(Marks(p.text, Significant(u)));
    var nonAlpha := PrefixSums(Marks(p.text, NonAlphaSignificant(u)));
    f := Facts(before, at, rawSpace, compat, space, significant, nonAlpha);
  }

  lemma AllIndicesInside(u: Unicode, raw: Text, p: Projection)
    requires Projects(u, raw, p)
    ensures forall k :: 0 <= k < |p.text| ==> p.rawIndices[k] < |raw|
  {
    forall k | 0 <= k < |p.text|
      ensures p.rawIndices[k] < |raw|
    {
      RawIndexCovers(u, raw, p, k);
    }
  }

  // ---------------------------------------------------------------- queries

  function Difference(prefix: seq<nat>, start: nat, end: nat): int
    requires start < |prefix| && end < |prefix|
  {
    prefix[end] as int - prefix[start] as int
  }

  /** `_projection_span_has_compatibility_source`. */
  predicate HasCompatSource(p: Projection, f: Facts, start: nat, end: nat)
    requires start < end <= |p.rawIndices|
    requires p.rawIndices[start] < |f.compatPrefix| && p.rawIndices[end - 1] + 1 < |f.compatPrefix|
  {
    f.compatPrefix[p.rawIndices[end - 1] + 1] != f.compatPrefix[p.rawIndices[start]]
  }

  /** `_has_observable_normalized_bridge_evidence`. */
  predicate Observable(f: Facts, start: nat, end: nat)
    requires start <= end
    requires end < |f.spacePrefix| && end < |f.significantPrefix| && end < |f.nonAlphaPrefix|
  {
    || Difference(f.significantPrefix, start, end) != end - start
    || Difference(f.nonAlphaPrefix, start, end) > Difference(f.spacePrefix, start, end)
  }

  /** The prefix test finds a compatibility source among the span's raw sources, or none. */
  lemma CompatSourceIff(u: Unicode, raw: Text, p: Projection, f: Facts, start: nat, end: nat)
    requires Projects(u, raw, p) && FactsOf(u, raw, p, f) && start < end <= |p.text|
    ensures p.rawIndices[end - 1] < |raw| && p.rawIndices[start] <= p.rawIndices[end - 1]
    ensures |f.compatPrefix| == |raw| + 1
    ensures HasCompatSource(p, f, start, end) <==>
            exists r :: p.rawIndices[start] <= r <= p.rawIndices[end - 1] && u.decompose(raw[r]) != u.canonical(raw[r])
  {
    RawIndexCovers(u, raw, p, end - 1);
    RawIndicesSorted(u, raw, p, start, end - 1);
    var a, b := p.rawIndices[start], p.rawIndices[end - 1] + 1;
    CountSpan(p.compat, a, b);
    if Count(p.compat, b) != Count(p.compat, a) {
      var r :| a <= r < b && p.compat[r];
      assert u.decompose(raw[r]) != u.canonical(raw[r]);
    }
    if exists r :: a <= r < b && u.decompose(raw[r]) != u.canonical(raw[r]) {
      var r :| a <= r < b && u.decompose(raw[r]) != u.canonical(raw[r]);
      assert p.compat[r];
    }
  }

  predicate Evidence(u: Unicode, c: char) {
    u.transparent(c) || (!u.alpha(c) && !u.space(c))
  }

  /** The two subtractions find a mark, a format control or a nonalphabetic non-space, or none. */
  lemma ObservableIff(u: Unicode, raw: Text, p: Projection, f: Facts, start: nat, end: nat)
    requires Sane(u) && Projects(u, raw, p) && FactsOf(u, raw, p, f) && start <= end <= |p.text|
    ensures Observable(f, start, end) <==> exists k :: start <= k < end && Evidence(u, p.text[k])
  {
    var significant := Marks(p.text, Significant(u));
    var nonAlpha := Marks(p.text, NonAlphaSignificant(u));
    var space := Marks(p.text, u.space);
    CountSpan(significant, start, end);
    CountExtra(nonAlpha, space, start, end);
    if Observable(f, start, end) {
      if Difference(f.significantPrefix, start, end) != end - start {
        var k :| start <= k < end && !significant[k];
        assert Evidence(u, p.text[k]);
      } else {
        var k :| start <= k < end && nonAlpha[k] && !space[k];
        assert Evidence(u, p.text[k]);
      }
    }
    if exists k :: start <= k < end && Evidence(u, p.text[k]) {
      var k :| start <= k < end && Evidence(u, p.text[k]);
      assert !significant[k] || (nonAlpha[k] && !space[k]);
    }
  }
}
