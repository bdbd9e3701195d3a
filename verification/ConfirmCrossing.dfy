/**
 A transcript on which the scan reports a span across a raw space: a left part that a
 raw space directly follows keeps the candidate before it open.
 */
module ConfirmCrossing {
  import opened Wrappers
  import opened ConfirmProjection
  import opened ConfirmFacts
  import opened ConfirmBridge

  predicate Letter(ch: char) {
    'a' <= ch <= 'z'
  }

  function Alike(ch: char): Text {
    [ch]
  }

  function Never(a: char, b: char): Option<char> {
    None
  }

  /** Lower-case letters, spaces and punctuation, none of which decomposes. */
  const Latin := Unicode(Alike, Alike, Never, _ => false, _ => false, Letter, ch => ch == ' ', Letter, ch => ch)

  lemma LatinIsSane()
    ensures Sane(Latin)
  {
  }

  lemma {:induction false} LatinOffset(raw: Text, i: nat)
    requires i <= |raw|
    ensures Offset(Latin, raw, i) == i
  {
    if i > 0 {
      LatinOffset(raw, i - 1);
    }
  }

  function Same(raw: Text): Projection {
    Projection(raw, seq(|raw|, i => i), seq(|raw|, i => false))
  }

  lemma LatinProjects(raw: Text)
    ensures Projects(Latin, raw, Same(raw))
  {
    LatinOffset(raw, |raw|);
    forall i | 0 <= i < |raw|
      ensures Occupies(Latin, raw, Same(raw), i)
    {
      LatinOffset(raw, i);
    }
  }

  function Sums(marks: seq<bool>): seq<nat> {
    seq(|marks| + 1, i requires 0 <= i <= |marks| => Count(marks, i))
  }

  lemma SumsAre(marks: seq<bool>)
    ensures PrefixOf(Sums(marks), marks)
  {
  }

  /** The facts of a projection, written down. */
  ghost function FactsFor(raw: Text): Facts {
    LatinProjects(raw);
    var p := Same(raw);
    Facts(
      seq(|raw| + 1, k requires 0 <= k <= |raw| => BaseBefore(Latin, raw, p, k)),
      seq(|raw| + 1, k requires 0 <= k <= |raw| => BaseAt(Latin, raw, p, k)),
      seq(|raw|, k requires 0 <= k < |raw| => raw[k] == ' '),
      Sums(p.compat), Sums(Marks(raw, Latin.space)), Sums(Marks(raw, Significant(Latin))),
      Sums(Marks(raw, NonAlphaSignificant(Latin))))
  }

  lemma LatinFacts(raw: Text)
    ensures Projects(Latin, raw, Same(raw)) && FactsOf(Latin, raw, Same(raw), FactsFor(raw))
  {
    LatinProjects(raw);
    SumsAre(Same(raw).compat);
    SumsAre(Marks(raw, Latin.space));
    SumsAre(Marks(raw, Significant(Latin)));
    SumsAre(Marks(raw, NonAlphaSignificant(Latin)));
  }

  lemma BesideLetters(raw: Text, k: nat)
    requires k <= |raw|
    ensures |FactsFor(raw).baseBefore| == |FactsFor(raw).baseAt| == |raw| + 1
    ensures FactsFor(raw).baseBefore[k] <==> k > 0 && Letter(raw[k - 1])
    ensures FactsFor(raw).baseAt[k] <==> k < |raw| && Letter(raw[k])
  {
    LatinProjects(raw);
    if k < |raw| {
      RawIndexCovers(Latin, raw, Same(raw), k);
      LatinOffset(raw, k);
      LatinOffset(raw, k + 1);
      assert Same(raw).rawIndices[k] == k;
    }
  }

  const TRANSCRIPT := "can.can xt"

  /** Looking for `can't` in the transcript. */
  ghost function Crossing(): Scene {
    Scene(Latin, TRANSCRIPT, Same(TRANSCRIPT), FactsFor(TRANSCRIPT), "can", "t", {'\''}, [])
  }

  lemma CrossingIsReady()
    ensures Ready(Crossing()) && Sized(Crossing()) && Sane(Crossing().u)
  {
    LatinIsSane();
    LatinFacts(TRANSCRIPT);
    ReadyIsSized(Crossing());
  }

  lemma Letters()
    ensures var t := TRANSCRIPT;
            && |t| == 10 && t[0] == 'c' && t[1] == 'a' && t[2] == 'n' && t[3] == '.' && t[4] == 'c'
            && t[5] == 'a' && t[6] == 'n' && t[7] == ' ' && t[8] == 'x' && t[9] == 't'
  {
  }

  lemma LatinLiteral(raw: Text, i: nat, literal: Text)
    ensures LiteralAt(Latin, raw, i, literal) <==> i + |literal| <= |raw| && raw[i..i + |literal|] == literal
  {
  }

  lemma SliceStarts(raw: Text, i: nat)
    requires i + 3 <= |raw|
    ensures raw[i..i + 3] == "can" <==> raw[i] == 'c' && raw[i + 1] == 'a' && raw[i + 2] == 'n'
  {
  }

  lemma CanStands(i: nat)
    requires i < 10
    ensures |TRANSCRIPT| == 10 && (LiteralAt(Latin, TRANSCRIPT, i, "can") <==> i == 0 || i == 4)
  {
    Letters();
    LatinLiteral(TRANSCRIPT, i, "can");
    hide TRANSCRIPT, LiteralAt;
    if i + 3 <= 10 {
      SliceStarts(TRANSCRIPT, i);
    }
  }

  lemma TeeStands(i: nat)
    requires i < 10
    ensures |TRANSCRIPT| == 10 && (LiteralAt(Latin, TRANSCRIPT, i, "t") <==> i == 9)
  {
    Letters();
    LatinLiteral(TRANSCRIPT, i, "t");
    hide TRANSCRIPT, LiteralAt;
    assert TRANSCRIPT[i..i + 1] == [TRANSCRIPT[i]];
  }

  lemma SpaceStands(i: nat)
    requires i < 10
    ensures |TRANSCRIPT| == 10 && |FactsFor(TRANSCRIPT).rawSpace| == 10 && (FactsFor(TRANSCRIPT).rawSpace[i] <==> i == 7)
  {
    Letters();
  }

  /** Where the transcript has a left part, a right part and a raw space. */
  lemma WhatStands(i: nat)
    requires Sized(Crossing()) && i < 10
    ensures |Crossing().p.text| == 10
    ensures RawSpace(Crossing(), i) <==> i == 7
    ensures LeftAt(Crossing(), Left(i, i + 3)) <==> i == 0 || i == 4
    ensures LiteralAt(Latin, Crossing().p.text, i, "t") <==> i == 9
    ensures Letter(Crossing().p.text[i]) <==> i != 3 && i != 7
  {
    Letters();
    BesideLetters(TRANSCRIPT, i);
    CanStands(i);
    TeeStands(i);
    SpaceStands(i);
    hide TRANSCRIPT, LiteralAt, FactsFor, Sized;
  }

  /** Nothing happens at a position that is no part of anything. */
  lemma Idle(c: Scene, i: nat, s: State)
    requires Sized(c) && i < |c.p.text| && StateAt(c, i) == s
    requires !RawSpace(c, i) && !LeftAt(c, Left(i, i + |c.left|))
    requires s.left.Some? && i > s.left.value.end ==> !c.u.alpha(c.p.text[i - 1])
    requires i <= ActiveEnd(s) || !LiteralAt(c.u, c.p.text, i, c.right)
    ensures StateAt(c, i + 1) == s && SpansAt(c, i + 1) == SpansAt(c, i)
  {
    hide StateAt, SpansAt, LeftAt, LiteralAt, RawSpace;
    OneScanned(c, i);
  }

  const First := State(Some(Left(0, 3)), Some(Left(0, 3)), None, None, false)
  const Both := State(Some(Left(0, 3)), Some(Left(0, 3)), Some(Left(4, 7)), Some(7), false)

  lemma UpToDot()
    requires Sized(Crossing())
    ensures |Crossing().p.text| == 10 && StateAt(Crossing(), 4) == First && SpansAt(Crossing(), 4) == []
  {
    hide LeftAt, RawSpace, LiteralAt, StateAt, SpansAt;
    var c := Crossing();
    NothingScanned(c);
    WhatStands(0);
    WhatStands(1);
    WhatStands(2);
    WhatStands(3);
    OneScanned(c, 0);
    Idle(c, 1, First);
    Idle(c, 2, First);
    Idle(c, 3, First);
  }

  lemma UpToSpace()
    requires Sized(Crossing())
    ensures |Crossing().p.text| == 10 && StateAt(Crossing(), 7) == Both && SpansAt(Crossing(), 7) == []
  {
    hide LeftAt, RawSpace, LiteralAt, StateAt, SpansAt;
    var c := Crossing();
    UpToDot();
    WhatStands(4);
    WhatStands(5);
    WhatStands(6);
    WhatStands(7);
    OneScanned(c, 4);
    Idle(c, 5, Both);
    Idle(c, 6, Both);
  }

  lemma UpToEnd()
    requires Sized(Crossing())
    ensures |Crossing().p.text| == 10 && StateAt(Crossing(), 9) == Both && SpansAt(Crossing(), 9) == []
  {
    hide LeftAt, RawSpace, LiteralAt, StateAt, SpansAt;
    var c := Crossing();
    UpToSpace();
    WhatStands(7);
    WhatStands(8);
    OneScanned(c, 7);
    Idle(c, 8, Both);
  }

  const Last := Both.(alphaSeen := true)

  lemma DotIsMalformed(c: Scene)
    requires c == Crossing() && Ready(c) && Sized(c) && Sane(c.u)
    ensures |c.p.text| == 10 && !Supported(c, Span(3, 9)) && SpanObservable(c, Span(3, 9))
  {
    Letters();
    ObservableIff(c.u, c.raw, c.p, c.f, 3, 9);
    assert Evidence(c.u, c.p.text[3]);
  }

  lemma EndsOutside(c: Scene)
    requires c == Crossing() && Sized(c)
    ensures |c.p.text| == 10 && Complete(c, 0, 10) && !c.f.baseAt[10]
  {
    Letters();
    BesideLetters(TRANSCRIPT, 0);
    BesideLetters(TRANSCRIPT, 10);
  }

  lemma HeldAtEnd(c: Scene)
    requires c == Crossing() && Sized(c)
    ensures |c.p.text| == 10 && StateAt(c, 9) == Both && Held(c, 9, StateAt(c, 9)) == Last
  {
    UpToEnd();
    WhatStands(8);
    WhatStands(9);
    hide LeftAt, RawSpace, LiteralAt, StateAt, SpansAt;
  }

  lemma ShutAtEnd(c: Scene)
    requires c == Crossing() && Ready(c) && Sized(c) && Sane(c.u)
    ensures |c.p.text| == 10 && Ordered(c, 10, Last) && Shut(c, 9, Last) == (Last, [Span(3, 9)])
  {
    HeldAtEnd(c);
    DotIsMalformed(c);
    EndsOutside(c);
    WhatStands(8);
    WhatStands(9);
    hide Ready, Sane, LeftAt, RawSpace, LiteralAt, StateAt, SpansAt, Supported, SpanObservable, SpanHasCompat, Complete, FactsFor,
      TRANSCRIPT;
    assert OrdinaryReport(c, 9, Last);
  }

  lemma DotSeparates(c: Scene)
    requires c == Crossing() && Ready(c) && Sized(c) && Sane(c.u)
    ensures |c.p.text| == 10 && Malformed(c, 3, 9)
  {
    WhatStands(0);
    DotIsMalformed(c);
    hide LeftAt, Supported, SpanObservable, SpanHasCompat, Crossing;
    assert LeftAt(c, Left(0, 3));
  }

  lemma SpaceFollows(c: Scene)
    requires c == Crossing() && Sized(c)
    ensures |c.p.text| == 10 && RawSpace(c, 7) && Owned(c, 7)
  {
    WhatStands(4);
    WhatStands(7);
    hide LeftAt, RawSpace, Crossing, Owned;
    OwnedThere(c, Left(4, 7), 7);
  }

  lemma BridgeIf(c: Scene, s: Span)
    requires Sized(c) && s.start < s.end <= |c.p.text| && Malformed(c, s.start, s.end)
    requires forall k :: s.start <= k < s.end && RawSpace(c, k) ==> Owned(c, k)
    ensures OrdinaryBridge(c, s)
  {
    hide Malformed, Owned, RawSpace;
  }

  lemma OverTheSpace(c: Scene)
    requires c == Crossing() && Ready(c) && Sized(c) && Sane(c.u)
    ensures |c.p.text| == 10 && OrdinaryBridge(c, Span(3, 9)) && RawSpace(c, 7)
  {
    hide *;
    DotSeparates(c);
    SpaceFollows(c);
    OnlyAtSeven(c);
    BridgeIf(c, Span(3, 9));
  }

  lemma OnlyAtSeven(c: Scene)
    requires c == Crossing() && Sized(c)
    ensures |c.p.text| == 10 && forall k :: 0 <= k < 10 && RawSpace(c, k) ==> k == 7
  {
    Letters();
  }

  /** The scan reports the separator from the dot on, over the space, as an ordinary bridge. */
  lemma CrossesRawSpace() returns (c: Scene)
    ensures c.raw == "can.can xt" && c.left == "can" && c.right == "t"
    ensures Ready(c) && Sized(c) && Sane(c.u) && |c.p.text| == 10
    ensures SpansAt(c, 10) == [Span(3, 9)] && OrdinaryBridge(c, Span(3, 9)) && RawSpace(c, 7)
  {
    c := Crossing();
    CrossingIsReady();
    hide LeftAt, RawSpace, StateAt, SpansAt, OrdinaryBridge, FactsFor, Held, Shut, Ready, Sane;
    UpToEnd();
    HeldAtEnd(c);
    ShutAtEnd(c);
    OneScanned(c, 9);
    OverTheSpace(c);
  }
}
