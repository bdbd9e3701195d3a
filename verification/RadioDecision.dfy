/**
 What the radio evaluator decides, said over the text alone: where a phrase may end an
 utterance, which kind of phrase wins, and what spelling has to do with it.
 */
module RadioDecision {
  import opened Wrappers
  import opened SpokenText
  import opened ListenEnd
  import opened RadioTranscript

  // ---------------------------------------------------------------- where a phrase may end the text

  /** A word: not empty, and no whitespace in it. */
  predicate IsWord(w: string) {
    w != "" && forall i :: 0 <= i < |w| ==> !Blank(w[i])
  }

  /** `w` is the last word of `s`, after `x`. */
  predicate LastIs(s: string, x: string, w: string) {
    s == x + w && IsWord(w) && (x == "" || Blank(x[|x| - 1]))
  }

  lemma {:induction false} LastWordIs(s: string, x: string, w: string)
    requires LastIs(s, x, w)
    ensures LastWord(s) == w
  {
    var n := |w| - 1;
    assert s[|s| - 1] == w[n] && s[..|s| - 1] == x + w[..n];
    if n > 0 {
      LastWordIs(s[..|s| - 1], x, w[..n]);
    } else {
      assert x + w[..n] == x;
    }
    assert w == w[..n] + [w[n]];
  }

  lemma {:induction false} LastWordExists(s: string) returns (x: string)
    requires s != "" && !Blank(s[|s| - 1])
    ensures LastIs(s, x, LastWord(s))
  {
    var before, c := s[..|s| - 1], s[|s| - 1];
    if before == "" || Blank(before[|before| - 1]) {
      x := before;
      assert LastWord(before) == "";
    } else {
      x := LastWordExists(before);
    }
    assert s == before + [c];
  }

  /** The word before "over" makes it part of a phrasal verb, or of "over and over". */
  ghost predicate Phrasal(x: string, w: string) {
    || (w == "and" && exists y :: LastIs(TrimBlank(x), y, "over"))
    || (TrimWordPunct(w) != "" && TrimWordPunct(w) in OVER_PHRASAL_PREV)
  }

  /** The last word does not go with "over". */
  ghost predicate FreeWord(before: string) {
    exists x, w :: LastIs(before, x, w) && !Phrasal(x, w)
  }

  /**
   A phrase may end the text if it is all of it, or its last words; a guarded one also needs
   the end of a sentence or clause before it, or, for "over", a last word that does not go with
   it.
   */
  ghost predicate MayEnd(text: string, p: string, guarded: seq<string>) {
    && p != "" && Ends(text, p) && (text == p || Blank(text[|text| - |p| - 1]))
    && (p in guarded && text != p ==>
          var before := TrimBlank(Before(text, p));
          || before == "" || before[|before| - 1] in {'.', '!', '?', ',', ';', ':'}
          || (p == "over" && FreeWord(before)))
  }

  lemma OverIs(s: string)
    ensures LastWord(s) == OVER <==> exists y :: LastIs(s, y, "over")
  {
    if y :| LastIs(s, y, "over") {
      LastWordIs(s, y, "over");
    }
    if LastWord(s) == OVER {
      var y := LastWordExists(s);
    }
  }

  lemma ProsignByWord(before: string, x: string, w: string)
    requires LastIs(before, x, w)
    ensures ProsignAfter(before) <==> before[|before| - 1] in {'.', '!', '?', ',', ';', ':'} || !Phrasal(x, w)
  {
    LastWordIs(before, x, w);
    assert Before(before, w) == x;
    OverIs(TrimBlank(x));
    hide TrimBlank, TrimWordPunct, OVER_PHRASAL_PREV, LastWord;
  }

  lemma OneLastWord(before: string, x: string, w: string, y: string, v: string)
    requires LastIs(before, x, w) && LastIs(before, y, v)
    ensures x == y && w == v
  {
    LastWordIs(before, x, w);
    LastWordIs(before, y, v);
    assert before[..|before| - |w|] == x && before[..|before| - |v|] == y;
  }

  lemma ProsignIff(before: string)
    ensures before == "" ==> ProsignAfter(before)
    ensures before != "" && !Blank(before[|before| - 1]) ==>
              (ProsignAfter(before) <==> before[|before| - 1] in {'.', '!', '?', ',', ';', ':'} || FreeWord(before))
  {
    if before != "" && !Blank(before[|before| - 1]) {
      var x := LastWordExists(before);
      var w := LastWord(before);
      ProsignByWord(before, x, w);
      hide ProsignAfter, Phrasal, LastIs, LastWord;
      if FreeWord(before) {
        var y, v :| LastIs(before, y, v) && !Phrasal(y, v);
        OneLastWord(before, x, w, y, v);
      }
    }
  }

  lemma AdmissibleIff(text: string, p: string, guarded: seq<string>)
    ensures Admissible(text, p, guarded) <==> MayEnd(text, p, guarded)
  {
    hide ProsignAfter, FreeWord;
    if p != "" && Ends(text, p) && text != p {
      ProsignIff(TrimBlank(Before(text, p)));
    }
  }

  // ---------------------------------------------------------------- which phrase wins

  /** Some phrase of the list may end the text. */
  ghost predicate Hits(text: string, phrases: seq<string>, guarded: seq<string>) {
    exists i :: 0 <= i < |phrases| && MayEnd(text, Normalize(phrases[i]), Forms(guarded))
  }

  lemma FindIff(text: string, phrases: seq<string>, kind: Kind, guarded: seq<string>, raw: string)
    ensures var r := FindIn(text, phrases, kind, guarded, raw);
            && (r.Some? <==> Hits(text, phrases, guarded))
            && (r.Some? ==> r.value.kind == kind && r.value.raw == raw && r.value.phrase in Forms(phrases))
  {
    hide MayEnd, Admissible, Normalize, Forms, LongestFirst;
    var forms, sf := Forms(phrases), Forms(guarded);
    var p := First(LongestFirst(forms), Admits(text, sf));
    LongestFirstSorts(forms);
    if p.Some? {
      FormsMembers(phrases, p.value);
      AdmissibleIff(text, p.value, sf);
      assert Admits(text, sf)(p.value);
    }
    if Hits(text, phrases, guarded) {
      var i :| 0 <= i < |phrases| && MayEnd(text, Normalize(phrases[i]), sf);
      AdmissibleIff(text, Normalize(phrases[i]), sf);
      MayEndIsSome(text, Normalize(phrases[i]), sf);
      FormsMembers(phrases, Normalize(phrases[i]));
      assert Admits(text, sf)(Normalize(phrases[i]));
    }
  }

  lemma MayEndIsSome(text: string, p: string, guarded: seq<string>)
    requires MayEnd(text, p, guarded)
    ensures p != "" && text != ""
  {
  }

  ghost predicate Cancels(text: string, l: Lists) {
    Hits(text, l.cancel, [])
  }

  ghost predicate Finishes(text: string, l: Lists) {
    Hits(text, l.end, []) || (l.softEnabled && Hits(text, l.soft, l.guarded))
  }

  /** Cancel wins over an end phrase, and an end phrase over a soft one. */
  lemma FormDecides(text: string, l: Lists, raw: string)
    ensures var r := EvaluateForm(text, l, raw);
            && (r.Some? <==> Cancels(text, l) || Finishes(text, l))
            && (r.Some? ==> r.value.raw == raw && (r.value.kind == Cancel <==> Cancels(text, l)))
            && (r.Some? && r.value.kind == Cancel ==> r.value.phrase in Forms(l.cancel))
            && (r.Some? && r.value.kind == End && Hits(text, l.end, []) ==> r.value.phrase in Forms(l.end))
  {
    hide Hits, FindIn, Forms;
    FindIff(text, l.cancel, Cancel, [], raw);
    FindIff(text, l.end, End, [], raw);
    FindIff(text, l.soft, End, l.guarded, raw);
  }

  lemma {:induction false} NothingToHit(phrases: seq<string>, guarded: seq<string>)
    ensures !Hits("", phrases, guarded)
  {
    forall i | 0 <= i < |phrases| ensures !MayEnd("", Normalize(phrases[i]), Forms(guarded)) {
      hide Normalize;
    }
  }

  lemma BlankIsEmpty(s: string)
    requires Bare(s)
    ensures TrimBlank(s) == "" <==> s == ""
  {
  }

  /**
   Exactly what an utterance does: its own words decide if they cancel or finish, and
   otherwise what is left of them without the politeness at their end.
   */
  lemma EvaluateDecides(raw: string, l: Lists)
    ensures var r, said, rest := Evaluate(raw, l), Core(raw), StripCourtesy(raw, l.courtesy);
            var own := Cancels(said, l) || Finishes(said, l);
            && (r.Some? <==> own || Cancels(rest, l) || Finishes(rest, l))
            && (r.Some? ==> r.value.raw == raw)
            && (r.Some? ==> (r.value.kind == Cancel <==> if own then Cancels(said, l) else Cancels(rest, l)))
  {
    var said, rest := Core(raw), StripCourtesy(raw, l.courtesy);
    CoreIsBare(raw);
    ShedAllKeeps(said, LongestFirst(Forms(l.courtesy)));
    BareIsFixed(rest);
    BlankIsEmpty(rest);
    FormDecides(said, l, raw);
    FormDecides(rest, l, raw);
    NothingToHit(l.cancel, []);
    NothingToHit(l.end, []);
    NothingToHit(l.soft, l.guarded);
    hide Hits, EvaluateForm, Core, StripCourtesy, TrimBlank, Forms;
  }

  /** An utterance does the same in any case and with any apostrophe. */
  lemma SpellingDoesNotMatter(s: string, t: string, l: Lists)
    requires SameSpelling(s, t)
    ensures Evaluate(t, l) == match Evaluate(s, l)
                              case None => None
                              case Some(h) => Some(h.(raw := t))
  {
    CoreIgnoresCase(s, t);
    var rest := StripCourtesy(s, l.courtesy);
    assert StripCourtesy(t, l.courtesy) == rest;
    CoreIsBare(s);
    ShedAllKeeps(Core(s), LongestFirst(Forms(l.courtesy)));
    BareIsFixed(rest);
    BlankIsEmpty(rest);
    RawIsCarried(Core(s), l, s, t);
    RawIsCarried(rest, l, s, t);
    NoneOfNothing(l, s);
    NoneOfNothing(l, t);
    hide EvaluateForm, Core, StripCourtesy, TrimBlank;
  }

  lemma NoneOfNothing(l: Lists, raw: string)
    ensures EvaluateForm("", l, raw) == None
  {
    FormDecides("", l, raw);
    NothingToHit(l.cancel, []);
    NothingToHit(l.end, []);
    NothingToHit(l.soft, l.guarded);
  }

  // ---------------------------------------------------------------- what politeness is

  /** `rest` is what remains of `text` after cutting courtesies off its end, each a whole word or phrase. */
  ghost predicate CutsDownTo(text: string, rest: string, courtesy: seq<string>)
    decreases |text|
  {
    || text == rest
    || (exists i :: 0 <= i < |courtesy| && CutsOne(text, Normalize(courtesy[i]))
                    && CutsDownTo(TrimTrailing(Before(text, Normalize(courtesy[i]))), rest, courtesy))
  }

  predicate CutsOne(text: string, p: string) {
    && p != "" && Ends(text, p)
    && (text == p || Blank(text[|text| - |p| - 1]) || text[|text| - |p| - 1] in {'.', '!', '?', ',', ';', ':'})
  }

  lemma CutsOneIff(text: string, p: string)
    ensures Sheds(text, p) <==> CutsOne(text, p)
  {
  }

  lemma {:induction false} ShedAllCuts(text: string, courtesy: seq<string>)
    requires Bare(text)
    ensures CutsDownTo(text, ShedAll(text, LongestFirst(Forms(courtesy))), courtesy)
    decreases |text|
  {
    var ordered := LongestFirst(Forms(courtesy));
    match First(ordered, Shedding(text))
    case None =>
    case Some(p) =>
      assert Shedding(text)(p);
      ShedIs(text, p);
      ShedAllCuts(Shed(text, p), courtesy);
      LongestFirstSorts(Forms(courtesy));
      FormsMembers(courtesy, p);
      CutsOneIff(text, p);
      hide Sheds, Shed, ShedAll, CutsOne, Normalize;
      var i :| 0 <= i < |courtesy| && Normalize(courtesy[i]) == p;
      assert CutsOne(text, Normalize(courtesy[i]));
  }

  /** Stripping cuts off courtesies of the list and nothing else. */
  lemma StripCutsCourtesies(text: string, courtesy: seq<string>)
    ensures CutsDownTo(Core(text), StripCourtesy(text, courtesy), courtesy)
  {
    CoreIsBare(text);
    ShedAllCuts(Core(text), courtesy);
  }
}
