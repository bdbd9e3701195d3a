/**
 From a transcript to match-ready words: rewrite declared apostrophes, fold
 punctuation, split, and peel quotation marks off whole words.
 */
module ConfirmText {
  import opened Wrappers
  import opened WholeWords
  import opened ConfirmReply

  // ---------------------------------------------------------------- declared apostrophes

  /** Left to right, each replaced span that starts where the last one left off becomes an apostrophe. */
  function Rewritten(text: string, spans: map<nat, nat>, cursor: nat): string
    requires cursor <= |text| && Spans(text, spans)
    decreases |text| - cursor
  {
    if cursor == |text| then ""
    else if cursor in spans then "'" + Rewritten(text, spans, spans[cursor])
    else [text[cursor]] + Rewritten(text, spans, cursor + 1)
  }

  /** Every span is non-empty and inside the text. */
  predicate Spans(text: string, spans: map<nat, nat>) {
    forall k :: k in spans ==> k < spans[k] <= |text|
  }

  lemma CopiesUnmarked(text: string, spans: map<nat, nat>, a: nat)
    requires Spans(text, spans) && a < |text| && a !in spans
    ensures Rewritten(text, spans, a) == [text[a]] + Rewritten(text, spans, a + 1)
  {
  }

  lemma SliceFrom<T>(s: seq<T>, a: nat, b: nat, rest: seq<T>)
    requires a < b <= |s|
    ensures s[a..b] + rest == [s[a]] + (s[a + 1..b] + rest)
  {
    assert s[a..b] == [s[a]] + s[a + 1..b];
  }

  lemma {:induction false} NothingToRewrite(text: string, spans: map<nat, nat>, a: nat, b: nat)
    requires Spans(text, spans) && a <= b <= |text| && forall k :: a <= k < b ==> k !in spans
    ensures Rewritten(text, spans, a) == text[a..b] + Rewritten(text, spans, b)
    decreases b - a
  {
    hide *;
    if a < b {
      NothingToRewrite(text, spans, a + 1, b);
      CopiesUnmarked(text, spans, a);
      SliceFrom(text, a, b, Rewritten(text, spans, b));
    }
  }

  /** Up to its first span the text is copied; the span becomes an apostrophe, and the pass goes on behind it. */
  lemma FirstSpanIsApostrophe(text: string, spans: map<nat, nat>, cursor: nat, start: nat)
    requires Spans(text, spans) && cursor <= start && start in spans && forall k :: cursor <= k < start ==> k !in spans
    ensures Rewritten(text, spans, cursor) == text[cursor..start] + "'" + Rewritten(text, spans, spans[start])
  {
    NothingToRewrite(text, spans, cursor, start);
  }

  /** A text without spans, or what is left of it behind the last, is copied. */
  lemma RestIsCopied(text: string, spans: map<nat, nat>, cursor: nat)
    requires Spans(text, spans) && cursor <= |text| && forall k :: cursor <= k < |text| ==> k !in spans
    ensures Rewritten(text, spans, cursor) == text[cursor..]
  {
    NothingToRewrite(text, spans, cursor, |text|);
  }

  function Max(a: nat, b: nat): nat {
    if a >= b then a else b
  }

  /** The pass is at `start`; what it has not copied yet begins at `cursor`. */
  ghost predicate Rewriting(text: string, spans: map<nat, nat>, start: nat, cursor: nat, parts: string)
    requires Spans(text, spans)
  {
    && start <= |text| && cursor <= |text|
    && (forall k :: cursor <= k < start ==> k !in spans)
    && Rewritten(text, spans, 0) == parts + Rewritten(text, spans, cursor)
  }

  lemma RewriteSpan(text: string, spans: map<nat, nat>, start: nat, cursor: nat, parts: string)
    requires Spans(text, spans) && Rewriting(text, spans, start, cursor, parts) && cursor <= start && start in spans
    ensures Rewriting(text, spans, start + 1, spans[start], parts + text[cursor..start] + "'")
  {
    NothingToRewrite(text, spans, cursor, start);
    assert parts + (text[cursor..start] + ("'" + Rewritten(text, spans, spans[start]))) ==
           parts + text[cursor..start] + "'" + Rewritten(text, spans, spans[start]);
  }

  /** `_canonical_input_with_replacements`. */
  method CanonicalInput(text: string, spans: map<nat, nat>) returns (r: string)
    requires Spans(text, spans)
    ensures r == Rewritten(text, spans, 0)
  {
    var parts: string := "";
    var start: nat, cursor: nat := 0, 0;
    assert Rewriting(text, spans, 0, 0, "");
    while start < |text|
      invariant 0 <= start <= |text|
      invariant Rewriting(text, spans, start, cursor, parts)
    {
      if start in spans && start >= cursor {
        RewriteSpan(text, spans, start, cursor, parts);
        parts := parts + text[cursor..start] + "'";
        cursor := spans[start];
      }
      start := start + 1;
    }
    NothingToRewrite(text, spans, cursor, |text|);
    r := parts + text[cursor..];
  }

  // ---------------------------------------------------------------- quotation marks

  predicate Quoted(w: string) {
    |w| >= 2 && w[0] == '\'' && w[|w| - 1] == '\''
  }

  function Peel(w: string): (r: string)
    ensures !Quoted(r) && |r| <= |w|
    ensures IsWord(w) && r != "" ==> IsWord(r)
  {
    if Quoted(w) then Peel(w[1..|w| - 1]) else w
  }

  /** The peeled words, without those that were nothing but quotation marks. */
  function StripQuotes(ws: seq<string>): (r: seq<string>)
    ensures AreWords(ws) ==> AreWords(r)
  {
    if ws == [] then []
    else
      var n := |ws| - 1;
      StripQuotes(ws[..n]) + (if Peel(ws[n]) == "" then [] else [Peel(ws[n])])
  }

  /** `_strip_balanced_token_apostrophe_quotes` on the split words. */
  method StripBalancedQuotes(ws: seq<string>) returns (words: seq<string>)
    ensures words == StripQuotes(ws)
  {
    words := [];
    var i := 0;
    while i < |ws|
      invariant 0 <= i <= |ws|
      invariant words == StripQuotes(ws[..i])
    {
      var token := ws[i];
      while Quoted(token)
        invariant Peel(token) == Peel(ws[i])
        decreases |token|
      {
        token := token[1..|token| - 1];
      }
      assert ws[..i + 1][..i] == ws[..i];
      if token != "" {
        words := words + [token];
      }
      i := i + 1;
    }
    TakeAll(ws);
  }

  /** Peeling again changes nothing. */
  lemma {:induction false} StripQuotesIsIdempotent(ws: seq<string>)
    ensures StripQuotes(StripQuotes(ws)) == StripQuotes(ws)
    ensures forall i :: 0 <= i < |StripQuotes(ws)| ==> !Quoted(StripQuotes(ws)[i]) && StripQuotes(ws)[i] != ""
  {
    if ws != [] {
      var n := |ws| - 1;
      StripQuotesIsIdempotent(ws[..n]);
      var before, w := StripQuotes(ws[..n]), Peel(ws[n]);
      if w != "" {
        assert (before + [w])[..|before|] == before;
      } else {
        assert StripQuotes(ws) == before;
      }
    }
  }

  lemma {:induction false} PeeledIsKept(ws: seq<string>, i: nat)
    requires i < |ws| && Peel(ws[i]) != ""
    ensures Peel(ws[i]) in StripQuotes(ws)
  {
    if i < |ws| - 1 {
      PeeledIsKept(ws[..|ws| - 1], i);
    }
  }

  lemma OneWordRefuses(words: seq<Word>, w: Word, n: nat)
    requires w in words && n < |NEGATE| && NEGATE[n] == [w]
    ensures FindsWords(words, NEGATE)
  {
    hide NEGATE;
    var k :| 0 <= k < |words| && words[k] == w;
    assert words[k..k + 1] == [w];
    assert FoundAt(words, NEGATE[n], k);
  }

  lemma RefusalIsSomething(n: nat, w: Word)
    requires n < |NEGATE| && NEGATE[n] == [w]
    ensures w != ""
  {
    NegateWords();
    hide NEGATE;
    assert NEGATE[n][0] == w;
  }

  /** Quotation marks around a word, however many pairs, cannot hide a refusal. */
  lemma QuotedRefusalNeverApproves(ws: seq<string>, i: nat, n: nat, plain: string, unsupported: bool, rejected: bool)
    requires AreWords(ws) && i < |ws| && n < |NEGATE| && NEGATE[n] == [Peel(ws[i])]
    requires StripQuotes(ws) != IDIOM
    ensures Classify(StripQuotes(ws), plain, unsupported, rejected) != Yes
  {
    hide NEGATE, IDIOM, Classify, FindsWords;
    var w := Peel(ws[i]);
    RefusalIsSomething(n, w);
    PeeledIsKept(ws, i);
    OneWordRefuses(StripQuotes(ws), w, n);
    RefusalDominates(StripQuotes(ws), plain, unsupported, rejected);
  }

  // ---------------------------------------------------------------- splitting

  /** Letters, digits and connectors, and whitespace, as the pattern classes see them. */
  datatype Classes = Classes(word: char -> bool, space: char -> bool)

  /** Punctuation other than the apostrophe becomes a space. */
  function Fold(text: string, c: Classes): (r: string)
    ensures |r| == |text|
  {
    seq(|text|, i requires 0 <= i < |text| =>
      if c.word(text[i]) || c.space(text[i]) || text[i] == '\'' then text[i] else ' ')
  }

  /** Whitespace-separated words. */
  function Split(text: string, c: Classes): seq<string> {
    if text == "" then []
    else
      var n := |text| - 1;
      if c.space(text[n]) then Split(text[..n], c)
      else
        var before := Split(text[..n], c);
        if n > 0 && !c.space(text[n - 1]) && before != []
        then before[..|before| - 1] + [before[|before| - 1] + [text[n]]]
        else before + [[text[n]]]
  }

  /** Characters that folding keeps. */
  predicate Kept(c: Classes, ch: char) {
    c.word(ch) || c.space(ch) || ch == '\''
  }

  predicate AllKept(text: string, c: Classes) {
    forall i :: 0 <= i < |text| ==> Kept(c, text[i])
  }

  /** A word as splitting leaves it: folded, and without any kind of whitespace. */
  predicate Solid(w: string, c: Classes) {
    w != "" && AllKept(w, c) && forall i :: 0 <= i < |w| ==> !c.space(w[i])
  }

  predicate AllSolid(ws: seq<string>, c: Classes) {
    forall i :: 0 <= i < |ws| ==> Solid(ws[i], c)
  }

  lemma {:induction false} SplitGivesSolid(text: string, c: Classes)
    requires AllKept(text, c)
    ensures AllSolid(Split(text, c), c)
  {
    if text != "" {
      SplitGivesSolid(text[..|text| - 1], c);
    }
  }

  lemma SolidAreWords(ws: seq<string>, c: Classes)
    requires AllSolid(ws, c) && c.space(' ')
    ensures AreWords(ws)
  {
    forall i | 0 <= i < |ws|
      ensures IsWord(ws[i])
    {
      assert Solid(ws[i], c);
    }
  }

  lemma {:induction false} PeelIsSolid(w: string, c: Classes)
    requires AllKept(w, c) && forall i :: 0 <= i < |w| ==> !c.space(w[i])
    ensures Peel(w) == "" || Solid(Peel(w), c)
  {
    if Quoted(w) {
      PeelIsSolid(w[1..|w| - 1], c);
    }
  }

  lemma {:induction false} StripIsSolid(ws: seq<string>, c: Classes)
    requires AllSolid(ws, c)
    ensures AllSolid(StripQuotes(ws), c)
  {
    if ws != [] {
      var n := |ws| - 1;
      assert Solid(ws[n], c);
      assert forall i :: 0 <= i < n ==> ws[..n][i] == ws[i];
      StripIsSolid(ws[..n], c);
      PeelIsSolid(ws[n], c);
    }
  }

  lemma SplitStart(x: string, ch: char, c: Classes)
    requires !c.space(ch) && (x != "" ==> c.space(x[|x| - 1]))
    ensures Split(x + [ch], c) == Split(x, c) + [[ch]]
  {
    assert (x + [ch])[..|x|] == x;
  }

  lemma SplitGrow(x: string, ch: char, c: Classes, before: seq<string>, w: string)
    requires !c.space(ch) && x != "" && !c.space(x[|x| - 1]) && Split(x, c) == before + [w]
    ensures Split(x + [ch], c) == before + [w + [ch]]
  {
    assert (x + [ch])[..|x|] == x;
    assert (before + [w])[..|before|] == before;
  }

  /** A word after a space, or at the start, is split off whole. */
  lemma {:induction false} SplitWord(x: string, w: string, c: Classes)
    requires x != "" ==> c.space(x[|x| - 1])
    requires w != "" && forall i :: 0 <= i < |w| ==> !c.space(w[i])
    ensures Split(x + w, c) == Split(x, c) + [w]
  {
    hide Split;
    var n := |w| - 1;
    if n == 0 {
      SplitStart(x, w[0], c);
      assert [w[0]] == w;
    } else {
      var v := w[..n];
      SplitWord(x, v, c);
      assert (x + v)[|x + v| - 1] == v[n - 1];
      SplitGrow(x + v, w[n], c, Split(x, c), v);
      assert v + [w[n]] == w && x + v + [w[n]] == x + w;
    }
  }

  lemma SplitSpace(x: string, c: Classes)
    requires c.space(' ')
    ensures Split(x + " ", c) == Split(x, c)
  {
    assert (x + " ")[..|x|] == x;
  }

  lemma JoinSnoc(ws: seq<Word>, w: Word)
    requires ws != []
    ensures Join(ws + [w]) == Join(ws) + " " + w
  {
    JoinSpaced(ws);
    JoinSpaced(ws + [w]);
    SpacedAppend(ws, [w]);
    assert Spaced([w]) == w + " " + Spaced([]);
    SameBeforeSpace(Join(ws + [w]), Join(ws) + " " + w);
  }

  lemma SameBeforeSpace(a: string, b: string)
    requires a + " " == b + " "
    ensures a == b
  {
    assert a == (a + " ")[..|a|] && b == (b + " ")[..|b|];
  }

  /** Splitting undoes joining. */
  lemma {:induction false} SplitOfJoin(ws: seq<Word>, c: Classes)
    requires AllSolid(ws, c) && c.space(' ')
    ensures Split(Join(ws), c) == ws
  {
    if ws != [] {
      var n := |ws| - 1;
      assert Solid(ws[n], c);
      assert ws == ws[..n] + [ws[n]];
      if n == 0 {
        SplitWord("", ws[0], c);
        assert "" + ws[0] == ws[0];
      } else {
        SplitOfJoin(ws[..n], c);
        JoinSnoc(ws[..n], ws[n]);
        SplitSpace(Join(ws[..n]), c);
        SplitWord(Join(ws[..n]) + " ", ws[n], c);
      }
    }
  }

  lemma {:induction false} JoinIsKept(ws: seq<Word>, c: Classes)
    requires AllSolid(ws, c) && c.space(' ')
    ensures AllKept(Join(ws), c)
  {
    if |ws| > 1 {
      JoinIsKept(ws[1..], c);
      assert Solid(ws[0], c);
    } else if |ws| == 1 {
      assert Solid(ws[0], c);
    }
  }

  /** `_match_ready_confirmation_text`, as words. */
  function MatchReady(text: string, c: Classes): seq<string> {
    StripQuotes(Split(Fold(text, c), c))
  }

  /** Match-ready text is made of words. */
  lemma MatchReadyIsWords(text: string, c: Classes)
    requires c.space(' ')
    ensures AreWords(MatchReady(text, c)) && AllSolid(MatchReady(text, c), c)
  {
    assert AllKept(Fold(text, c), c);
    SplitGivesSolid(Fold(text, c), c);
    StripIsSolid(Split(Fold(text, c), c), c);
    SolidAreWords(MatchReady(text, c), c);
  }

  /** Making match-ready text ready again gives the same words. */
  lemma MatchReadyIsStable(text: string, c: Classes)
    requires c.space(' ')
    ensures MatchReady(Join(MatchReady(text, c)), c) == MatchReady(text, c)
  {
    var words := MatchReady(text, c);
    MatchReadyIsWords(text, c);
    JoinIsKept(words, c);
    assert Fold(Join(words), c) == Join(words);
    SplitOfJoin(words, c);
    StripQuotesIsIdempotent(Split(Fold(text, c), c));
  }

  // ---------------------------------------------------------------- what match-ready words are

  function Marks(n: nat): string {
    if n == 0 then "" else Marks(n - 1) + "'"
  }

  lemma {:induction false} MarksFront(n: nat)
    requires n > 0
    ensures Marks(n) == "'" + Marks(n - 1)
  {
    if n > 1 {
      MarksFront(n - 1);
    }
  }

  lemma Regroup(a: string, x: string, p: string, y: string, b: string)
    ensures a + (x + p + y) + b == (a + x) + p + (y + b)
  {
  }

  lemma QuotedIs(w: string)
    requires Quoted(w)
    ensures w == "'" + w[1..|w| - 1] + "'" && Peel(w) == Peel(w[1..|w| - 1])
  {
  }

  /** Peeling takes the same number of marks off both ends, as many as it can. */
  lemma {:induction false} PeelTakesPairs(w: string) returns (n: nat)
    ensures w == Marks(n) + Peel(w) + Marks(n) && !Quoted(Peel(w))
    decreases |w|
  {
    if Quoted(w) {
      QuotedIs(w);
      var inner := w[1..|w| - 1];
      var k := PeelTakesPairs(inner);
      n := k + 1;
      MarksFront(n);
      Regroup("'", Marks(k), Peel(inner), Marks(k), "'");
      hide Quoted, Peel;
    } else {
      n := 0;
    }
  }

  /** Whitespace and every mark but the apostrophe separate words. */
  predicate Separates(gap: string, c: Classes) {
    forall i :: 0 <= i < |gap| ==> c.space(gap[i]) || !Kept(c, gap[i])
  }

  /** A run of word characters and apostrophes. */
  predicate Token(t: string, c: Classes) {
    t != "" && forall i :: 0 <= i < |t| ==> !c.space(t[i]) && (c.word(t[i]) || t[i] == '\'')
  }

  lemma FoldAppend(x: string, y: string, c: Classes)
    ensures Fold(x + y, c) == Fold(x, c) + Fold(y, c)
  {
  }

  lemma {:induction false} SplitGap(x: string, gap: string, c: Classes)
    requires forall i :: 0 <= i < |gap| ==> c.space(gap[i])
    ensures Split(x + gap, c) == Split(x, c)
  {
    if gap == "" {
      assert x + gap == x;
    } else {
      var n := |gap| - 1;
      assert (x + gap)[..|x + gap| - 1] == x + gap[..n];
      SplitGap(x, gap[..n], c);
    }
  }

  lemma StripQuotesSnoc(ws: seq<string>, w: string)
    ensures StripQuotes(ws + [w]) == StripQuotes(ws) + (if Peel(w) == "" then [] else [Peel(w)])
  {
    SnocPrefix(ws, w);
  }

  /** Separators after a text add nothing to its words. */
  lemma SeparatorsAddNothing(text: string, gap: string, c: Classes)
    requires c.space(' ') && Separates(gap, c)
    ensures MatchReady(text + gap, c) == MatchReady(text, c)
  {
    FoldAppend(text, gap, c);
    SplitGap(Fold(text, c), Fold(gap, c), c);
    hide Split, StripQuotes;
  }

  /**
   A token after separators, or at the start of the text, adds itself without its quotation
   marks, unless it is nothing but those. With the claim before, this says what the
   match-ready words of every text are.
   */
  lemma TokenAddsItself(text: string, gap: string, token: string, c: Classes)
    requires c.space(' ') && Separates(gap, c) && Token(token, c) && (text == "" || gap != "")
    ensures MatchReady(text + gap + token, c) == MatchReady(text, c) + (if Peel(token) == "" then [] else [Peel(token)])
    ensures MatchReady("", c) == []
  {
    FoldAppend(text + gap, token, c);
    FoldAppend(text, gap, c);
    assert Fold(token, c) == token;
    var x := Fold(text + gap, c);
    assert x != "" ==> c.space(x[|x| - 1]) by {
      if gap == "" {
        assert text + gap == "";
      } else {
        assert x[|x| - 1] == Fold(gap, c)[|gap| - 1];
      }
    }
    SplitWord(x, token, c);
    SplitGap(Fold(text, c), Fold(gap, c), c);
    StripQuotesSnoc(Split(x, c), token);
    hide Split, StripQuotes;
  }
}
