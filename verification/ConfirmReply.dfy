/**
 The decision on a spoken confirmation: refusals win over approvals, and every
 marker of doubt fails closed.
 */
module ConfirmReply {
  import opened Wrappers
  import opened WholeWords

  datatype Verdict = Yes | No | Unclear

  const AFFIRM: seq<seq<Word>> := [
    ["yes"], ["yeah"], ["yep"], ["yup"], ["correct"], ["confirm"], ["confirmed"], ["send"], ["do", "it"],
    ["go", "ahead"], ["affirmative"], ["ok"], ["okay"], ["sure"], ["right"]
  ]

  const NEGATE: seq<seq<Word>> := [
    ["no"], ["nope"], ["not"], ["cannot"], ["can't"], ["cant"], ["won't"], ["wont"], ["cancel"], ["abort"], ["stop"],
    ["don't"], ["dont"], ["do", "not"], ["deny"], ["denied"], ["reject"], ["rejected"], ["decline"], ["declined"],
    ["never", "mind"], ["nevermind"], ["negative"], ["wrong"], ["scratch"]
  ]

  const DEFER: seq<seq<Word>> := [
    ["but"], ["wait"], ["hold", "on"], ["hang", "on"], ["if"], ["unless"], ["after"], ["until"], ["maybe"],
    ["perhaps"], ["later"]
  ]

  const IDIOM: seq<Word> := ["yes", "why", "not"]

  /** The negative contractions a lookalike may imitate. */
  const CONTRACTIONS: seq<Word> := ["can't", "cant", "won't", "wont", "don't", "dont"]

  /** The letters that look like those of a negative contraction. */
  function Lookalike(c: char): char {
    if c == '\U{430}' || c == '\U{3B1}' then 'a'
    else if c == '\U{441}' then 'c'
    else if c == '\U{501}' then 'd'
    else if c == '\U{43E}' || c == '\U{3BF}' then 'o'
    else if c == '\U{3C4}' || c == '\U{442}' then 't'
    else if c == '\U{51D}' then 'w'
    else c
  }

  function Skeleton(w: Word): Word {
    seq(|w|, i requires 0 <= i < |w| => Lookalike(w[i]))
  }

  /** `_has_confusable_negative_contraction`. */
  predicate HasConfusable(ws: seq<Word>) {
    exists i :: 0 <= i < |ws| && Skeleton(ws[i]) != ws[i] && Skeleton(ws[i]) in CONTRACTIONS
  }

  /** Some phrase of the list is found whole in the padded text. */
  predicate FindsPhrase(text: string, phrases: seq<seq<Word>>) {
    exists i :: 0 <= i < |phrases| && Contains(Padded(text), Padded(Join(phrases[i])))
  }

  predicate IsPhrase(text: string, phrases: seq<seq<Word>>) {
    exists i :: 0 <= i < |phrases| && text == Join(phrases[i])
  }

  /** `_reply_has_negate`. */
  predicate HasNegate(text: string) {
    text != "" && (IsPhrase(text, NEGATE) || FindsPhrase(text, NEGATE))
  }

  predicate StartsWith(text: string, prefix: string) {
    prefix <= text
  }

  /** An affirmation is all of the text, or begins or ends it. */
  predicate Affirms(text: string) {
    exists i :: 0 <= i < |AFFIRM| &&
      (text == Join(AFFIRM[i]) || StartsWith(text, Join(AFFIRM[i]) + " ") || EndsWith(text, " " + Join(AFFIRM[i])))
  }

  /**
   `classify_confirm_reply` once the transcript is match-ready: `words` without marks
   and format controls, `plain` with them, `unsupported` when a contraction has a
   malformed separator, `rejected` when normalization was refused.
   */
  function Classify(words: seq<Word>, plain: string, unsupported: bool, rejected: bool): Verdict {
    var t := Join(words);
    if rejected then Unclear
    else if t == "" then Unclear
    else if IsPhrase(t, AFFIRM) then Yes
    else if t == Join(IDIOM) then Yes
    else if HasNegate(t) then (if unsupported && !HasNegate(plain) then Unclear else No)
    else if unsupported then Unclear
    else if HasConfusable(words) then Unclear
    else if FindsPhrase(t, DEFER) then Unclear
    else if Affirms(t) then Yes
    else Unclear
  }

  // ---------------------------------------------------------------- the lexicon by its words

  predicate PhraseList(phrases: seq<seq<Word>>) {
    forall i :: 0 <= i < |phrases| ==> phrases[i] != [] && AreWords(phrases[i])
  }

  /** A word that starts the way a refusal does. */
  predicate Refusing(w: Word) {
    && |w| >= 2
    && (|| w[0] == 'n'
        || (w[0] == 'c' && w[1] == 'a')
        || (w[0] == 'w' && (w[1] == 'o' || w[1] == 'r'))
        || (w[0] == 'a' && w[1] == 'b')
        || (w[0] == 's' && (w[1] == 't' || w[1] == 'c'))
        || (w[0] == 'd' && |w| >= 3)
        || (w[0] == 'r' && w[1] == 'e'))
  }

  predicate SomeRefusing(ws: seq<Word>) {
    exists k :: 0 <= k < |ws| && Refusing(ws[k])
  }

  lemma NegateRefuses(i: nat)
    requires i < |NEGATE|
    ensures SomeRefusing(NEGATE[i])
  {
    var ws := NEGATE[i];
    assert Refusing(ws[0]) || Refusing(ws[1]);
  }

  lemma AffirmDoesNotRefuse()
    ensures forall i, k :: 0 <= i < |AFFIRM| && 0 <= k < |AFFIRM[i]| ==> !Refusing(AFFIRM[i][k])
  {
  }

  lemma AffirmWords()
    ensures PhraseList(AFFIRM)
  {
  }

  lemma NegateWords()
    ensures PhraseList(NEGATE)
  {
  }

  lemma DeferWords()
    ensures PhraseList(DEFER)
  {
  }

  // ---------------------------------------------------------------- the decision in words

  predicate FindsWords(ws: seq<Word>, phrases: seq<seq<Word>>) {
    exists i :: 0 <= i < |phrases| && Sublist(ws, phrases[i])
  }

  /** Padded search over a list is word search over it. */
  lemma FindsPhraseIff(ws: seq<Word>, phrases: seq<seq<Word>>)
    requires AreWords(ws) && ws != [] && PhraseList(phrases)
    ensures FindsPhrase(Join(ws), phrases) <==> FindsWords(ws, phrases)
  {
    forall i | 0 <= i < |phrases|
      ensures Contains(Padded(Join(ws)), Padded(Join(phrases[i]))) <==> Sublist(ws, phrases[i])
    {
      PaddedSearchIsWordSearch(ws, phrases[i]);
    }
  }

  lemma WholeIsSublist(ws: seq<Word>)
    ensures Sublist(ws, ws)
  {
    assert FoundAt(ws, ws, 0);
  }

  lemma IsPhraseIff(ws: seq<Word>, phrases: seq<seq<Word>>)
    requires AreWords(ws) && PhraseList(phrases)
    ensures IsPhrase(Join(ws), phrases) <==> exists i :: 0 <= i < |phrases| && ws == phrases[i]
  {
    forall i | 0 <= i < |phrases|
      ensures Join(ws) == Join(phrases[i]) <==> ws == phrases[i]
    {
      if Join(ws) == Join(phrases[i]) {
        JoinIsInjective(ws, phrases[i]);
      }
    }
  }

  lemma JoinNonempty(ws: seq<Word>)
    requires AreWords(ws)
    ensures Join(ws) == "" <==> ws == []
  {
    if ws != [] {
      JoinSpaced(ws);
      SpacedLength(ws);
    }
  }

  lemma HasNegateIff(ws: seq<Word>)
    requires AreWords(ws)
    ensures HasNegate(Join(ws)) <==> FindsWords(ws, NEGATE)
  {
    NegateWords();
    hide NEGATE;
    JoinNonempty(ws);
    IsPhraseIff(ws, NEGATE);
    if ws != [] {
      FindsPhraseIff(ws, NEGATE);
      WholeIsSublist(ws);
    } else {
      NothingInNothing(NEGATE);
    }
  }

  lemma NothingInNothing(phrases: seq<seq<Word>>)
    requires PhraseList(phrases)
    ensures !FindsWords([], phrases)
  {
  }

  lemma RefusingInside(ws: seq<Word>, ps: seq<Word>)
    requires Sublist(ws, ps) && SomeRefusing(ps)
    ensures SomeRefusing(ws)
  {
    var i: nat :| i <= |ws| && FoundAt(ws, ps, i);
    var k :| 0 <= k < |ps| && Refusing(ps[k]);
    assert ws[i..i + |ps|][k] == ws[i + k];
  }

  /** No affirmation contains a refusal. */
  lemma AffirmHasNoNegate(i: nat)
    requires i < |AFFIRM|
    ensures !FindsWords(AFFIRM[i], NEGATE)
  {
    AffirmDoesNotRefuse();
    forall j | 0 <= j < |NEGATE|
      ensures !Sublist(AFFIRM[i], NEGATE[j])
    {
      NegateRefuses(j);
      hide AFFIRM, NEGATE, Refusing;
      if Sublist(AFFIRM[i], NEGATE[j]) {
        RefusingInside(AFFIRM[i], NEGATE[j]);
        assert false;
      }
    }
  }

  /**
   A refusal anywhere in the words never approves, whatever else is said: the verdict is
   "no", or "unclear" beside a malformed contraction. The idiom "yes why not" is the
   only exception.
   */
  lemma RefusalDominates(words: seq<Word>, plain: string, unsupported: bool, rejected: bool)
    requires AreWords(words) && FindsWords(words, NEGATE) && words != IDIOM
    ensures var v := Classify(words, plain, unsupported, rejected);
            && v != Yes
            && (!rejected && !unsupported ==> v == No)
            && (v == Unclear ==> rejected || (unsupported && !HasNegate(plain)))
  {
    HasNegateIff(words);
    AffirmWords();
    NegateWords();
    IdiomWords();
    hide AFFIRM, NEGATE, DEFER, IDIOM, HasConfusable, Affirms, HasNegate;
    IsPhraseIff(words, AFFIRM);
    JoinNonempty(words);
    if IsPhrase(Join(words), AFFIRM) {
      var i :| 0 <= i < |AFFIRM| && words == AFFIRM[i];
      AffirmHasNoNegate(i);
      assert false;
    }
    if Join(words) == Join(IDIOM) {
      JoinIsInjective(words, IDIOM);
      assert false;
    }
    if words == [] {
      NothingInNothing(NEGATE);
      assert false;
    }
  }

  lemma IdiomWords()
    ensures AreWords(IDIOM)
  {
  }

  /** Inserting a refusal between any words of a transcript never yields an approval. */
  lemma InsertedRefusalNeverApproves(
      before: seq<Word>, after: seq<Word>, n: nat, plain: string, unsupported: bool, rejected: bool)
    requires AreWords(before) && AreWords(after) && n < |NEGATE|
    requires before + NEGATE[n] + after != IDIOM
    ensures Classify(before + NEGATE[n] + after, plain, unsupported, rejected) != Yes
  {
    NegateWords();
    hide NEGATE, IDIOM, AFFIRM, DEFER;
    SliceMiddle(before, NEGATE[n], after);
    RefusalDominates(before + NEGATE[n] + after, plain, unsupported, rejected);
  }

  /** An affirmation is all of the words, or their beginning, or their end. */
  predicate AffirmsWords(ws: seq<Word>) {
    exists i :: 0 <= i < |AFFIRM| && AtEdge(ws, AFFIRM[i])
  }

  predicate AtEdge(ws: seq<Word>, ps: seq<Word>) {
    ps <= ws || (|ps| <= |ws| && ws[|ws| - |ps|..] == ps)
  }

  lemma AffirmsIff(ws: seq<Word>)
    requires AreWords(ws) && ws != []
    ensures Affirms(Join(ws)) <==> AffirmsWords(ws)
  {
    AffirmWords();
    hide AFFIRM;
    forall i | 0 <= i < |AFFIRM|
      ensures AtEdge(ws, AFFIRM[i]) <==>
                (Join(ws) == Join(AFFIRM[i]) || StartsWith(Join(ws), Join(AFFIRM[i]) + " ") || EndsWith(Join(ws), " " + Join(AFFIRM[i])))
    {
      EdgeIff(ws, AFFIRM[i]);
    }
  }

  lemma EdgeIff(ws: seq<Word>, ps: seq<Word>)
    requires AreWords(ws) && AreWords(ps) && ws != [] && ps != []
    ensures AtEdge(ws, ps) <==>
              (Join(ws) == Join(ps) || StartsWith(Join(ws), Join(ps) + " ") || EndsWith(Join(ws), " " + Join(ps)))
  {
    StartIsWords(ws, ps);
    EndIsWords(ws, ps);
    if Join(ws) == Join(ps) {
      JoinIsInjective(ws, ps);
    }
    hide Join;
    assert ps <= ws <==> ps < ws || ps == ws;
    assert |ps| == |ws| ==> (ws[|ws| - |ps|..] == ps <==> ws == ps);
  }

  // ---------------------------------------------------------------- lookalikes

  /** Each letter that passes for a Latin one, with the letter it passes for. */
  const LOOKALIKES: seq<(char, char)> := [
    ('\U{430}', 'a'), ('\U{3B1}', 'a'), ('\U{441}', 'c'), ('\U{501}', 'd'), ('\U{43E}', 'o'), ('\U{3BF}', 'o'),
    ('\U{3C4}', 't'), ('\U{442}', 't'), ('\U{51D}', 'w')
  ]

  predicate PassesFor(c: char, letter: char) {
    exists k :: 0 <= k < |LOOKALIKES| && LOOKALIKES[k] == (c, letter)
  }

  /** Letter by letter `w` is `n` or passes for it, and it is not `n`. */
  predicate Imitates(w: Word, n: Word) {
    && |w| == |n| && w != n
    && forall k :: 0 <= k < |w| ==> w[k] == n[k] || PassesFor(w[k], n[k])
  }

  predicate ImitatesContraction(w: Word) {
    exists n :: 0 <= n < |CONTRACTIONS| && Imitates(w, CONTRACTIONS[n])
  }

  predicate SomeImitation(ws: seq<Word>) {
    exists i :: 0 <= i < |ws| && ImitatesContraction(ws[i])
  }

  predicate Ascii(w: Word) {
    forall k :: 0 <= k < |w| ==> w[k] < '\U{80}'
  }

  lemma PassesForIff(c: char, letter: char)
    requires letter < '\U{80}'
    ensures Lookalike(c) == letter <==> c == letter || PassesFor(c, letter)
    ensures PassesFor(c, letter) ==> '\U{80}' <= c
  {
    var l := LOOKALIKES;
    assert l[0] == ('\U{430}', 'a') && l[1] == ('\U{3B1}', 'a') && l[2] == ('\U{441}', 'c') && l[3] == ('\U{501}', 'd');
    assert l[4] == ('\U{43E}', 'o') && l[5] == ('\U{3BF}', 'o') && l[6] == ('\U{3C4}', 't') && l[7] == ('\U{442}', 't');
    assert l[8] == ('\U{51D}', 'w');
  }

  lemma ContractionsAreAscii()
    ensures forall n :: 0 <= n < |CONTRACTIONS| ==> Ascii(CONTRACTIONS[n])
  {
  }

  lemma SkeletonIff(w: Word, n: Word)
    requires Ascii(n)
    ensures Skeleton(w) == n && w != n <==> Imitates(w, n)
  {
    hide Lookalike, PassesFor;
    if |w| == |n| {
      forall k | 0 <= k < |w| ensures Skeleton(w)[k] == n[k] <==> w[k] == n[k] || PassesFor(w[k], n[k]) {
        PassesForIff(w[k], n[k]);
      }
    }
  }

  /** A word's skeleton is a contraction it is not, exactly when the word imitates one. */
  lemma ConfusableIff(ws: seq<Word>)
    ensures HasConfusable(ws) <==> SomeImitation(ws)
  {
    ContractionsAreAscii();
    hide CONTRACTIONS, Skeleton, Imitates, Ascii;
    forall i, n | 0 <= i < |ws| && 0 <= n < |CONTRACTIONS|
      ensures Skeleton(ws[i]) == CONTRACTIONS[n] && ws[i] != CONTRACTIONS[n] <==> Imitates(ws[i], CONTRACTIONS[n])
    {
      SkeletonIff(ws[i], CONTRACTIONS[n]);
    }
    forall i | 0 <= i < |ws|
      ensures (Skeleton(ws[i]) != ws[i] && Skeleton(ws[i]) in CONTRACTIONS) <==> ImitatesContraction(ws[i])
    {
    }
  }

  lemma ContractionAt()
    ensures |CONTRACTIONS| == 6
    ensures NEGATE[4] == [CONTRACTIONS[0]] && NEGATE[5] == [CONTRACTIONS[1]] && NEGATE[6] == [CONTRACTIONS[2]]
    ensures NEGATE[7] == [CONTRACTIONS[3]] && NEGATE[11] == [CONTRACTIONS[4]] && NEGATE[12] == [CONTRACTIONS[5]]
  {
  }

  lemma ApostrophesAt(i: nat)
    requires i < |NEGATE| && |NEGATE[i]| == 1 && '\'' in NEGATE[i][0]
    ensures i == 4 || i == 6 || i == 11
  {
  }

  /** What can be imitated is a refusal, and every refusal with an apostrophe can be imitated. */
  lemma ContractionsAreRefusals()
    ensures forall n :: 0 <= n < |CONTRACTIONS| ==> [CONTRACTIONS[n]] in NEGATE
    ensures forall i :: 0 <= i < |NEGATE| && |NEGATE[i]| == 1 && '\'' in NEGATE[i][0] ==> NEGATE[i][0] in CONTRACTIONS
  {
    ContractionAt();
    forall i | 0 <= i < |NEGATE| && |NEGATE[i]| == 1 && '\'' in NEGATE[i][0] ensures NEGATE[i][0] in CONTRACTIONS {
      ApostrophesAt(i);
    }
    hide CONTRACTIONS;
  }

  /** An ASCII word imitates nothing. */
  lemma AsciiImitatesNothing(ws: seq<Word>)
    requires forall i :: 0 <= i < |ws| ==> Ascii(ws[i])
    ensures !SomeImitation(ws)
  {
    ContractionsAreAscii();
    hide CONTRACTIONS, PassesFor;
    forall i, n | 0 <= i < |ws| && 0 <= n < |CONTRACTIONS| ensures !Imitates(ws[i], CONTRACTIONS[n]) {
      var w, c := ws[i], CONTRACTIONS[n];
      if Imitates(w, c) {
        forall k | 0 <= k < |w| ensures w[k] == c[k] {
          PassesForIff(w[k], c[k]);
        }
        assert false;
      }
    }
  }

  /** The words say an affirmation or the idiom, and nothing else. */
  predicate ExactApproval(words: seq<Word>) {
    words == IDIOM || exists i :: 0 <= i < |AFFIRM| && words == AFFIRM[i]
  }

  /** Approval by an edge that affirms, with nothing against it. */
  predicate PlainApproval(words: seq<Word>, unsupported: bool) {
    && AffirmsWords(words) && !FindsWords(words, NEGATE) && !unsupported && !SomeImitation(words)
    && !FindsWords(words, DEFER)
  }

  /**
   Exactly when a reply approves: it is an affirmation or the idiom, or it begins or ends
   with an affirmation and holds no refusal, no malformed contraction, no word that imitates
   one and no marker of doubt.
   */
  lemma ApprovesIff(words: seq<Word>, plain: string, unsupported: bool, rejected: bool)
    requires AreWords(words)
    ensures Classify(words, plain, unsupported, rejected) == Yes <==>
              !rejected && (ExactApproval(words) || PlainApproval(words, unsupported))
  {
    HasNegateIff(words);
    ConfusableIff(words);
    AffirmWords();
    DeferWords();
    IdiomWords();
    SomeWords();
    hide AFFIRM, NEGATE, DEFER, IDIOM, HasConfusable, SomeImitation, Affirms, HasNegate, AffirmsWords;
    IsPhraseIff(words, AFFIRM);
    JoinNonempty(words);
    if Join(words) == Join(IDIOM) {
      JoinIsInjective(words, IDIOM);
    }
    if words != [] {
      AffirmsIff(words);
      FindsPhraseIff(words, DEFER);
    } else {
      NoEdgeInNothing();
    }
  }

  /** Exactly when a reply refuses, the idiom aside; what neither approves nor refuses is unclear. */
  lemma RefusesIff(words: seq<Word>, plainWords: seq<Word>, unsupported: bool, rejected: bool)
    requires AreWords(words) && AreWords(plainWords)
    ensures Classify(words, Join(plainWords), unsupported, rejected) == No <==>
              && !rejected && words != IDIOM && FindsWords(words, NEGATE)
              && (unsupported ==> FindsWords(plainWords, NEGATE))
  {
    HasNegateIff(words);
    HasNegateIff(plainWords);
    hide NEGATE, IDIOM, AFFIRM, DEFER, FindsWords, HasNegate, HasConfusable, Affirms, Join;
    if FindsWords(words, NEGATE) && words != IDIOM {
      RefusalDominates(words, Join(plainWords), unsupported, rejected);
    }
    JoinedIdiom(words);
  }

  lemma JoinedIdiom(words: seq<Word>)
    ensures words == IDIOM ==> Join(words) == Join(IDIOM)
  {
    hide Join;
  }

  /**
   A word that imitates a contraction never approves beside an affirmation: if it has the
   contraction's length, agrees with it or shows a lookalike at every position, and is not
   the contraction, only the exact words of an affirmation or the idiom can still approve.
   */
  lemma ImitationNeverApproves(
      words: seq<Word>, i: nat, n: nat, plain: string, unsupported: bool, rejected: bool)
    requires AreWords(words) && i < |words| && n < |CONTRACTIONS|
    requires |words[i]| == |CONTRACTIONS[n]| && words[i] != CONTRACTIONS[n]
    requires forall k :: 0 <= k < |words[i]| ==>
               || words[i][k] == CONTRACTIONS[n][k]
               || (exists m :: 0 <= m < |LOOKALIKES| && LOOKALIKES[m] == (words[i][k], CONTRACTIONS[n][k]))
    ensures Classify(words, plain, unsupported, rejected) == Yes ==> ExactApproval(words)
  {
    hide CONTRACTIONS, LOOKALIKES, IDIOM, AFFIRM, NEGATE, DEFER, Classify, AffirmsWords, FindsWords;
    assert Imitates(words[i], CONTRACTIONS[n]) by {
      forall k | 0 <= k < |words[i]| ensures words[i][k] == CONTRACTIONS[n][k] || PassesFor(words[i][k], CONTRACTIONS[n][k]) {
      }
    }
    assert ImitatesContraction(words[i]);
    ApprovesIff(words, plain, unsupported, rejected);
  }

  /** For ASCII words lookalikes play no part in the decision. */
  lemma AsciiApprovesIff(words: seq<Word>, plain: string, unsupported: bool, rejected: bool)
    requires AreWords(words) && forall i :: 0 <= i < |words| ==> Ascii(words[i])
    ensures Classify(words, plain, unsupported, rejected) == Yes <==>
              && !rejected
              && (|| ExactApproval(words)
                  || (AffirmsWords(words) && !FindsWords(words, NEGATE) && !unsupported && !FindsWords(words, DEFER)))
  {
    hide IDIOM, AFFIRM, NEGATE, DEFER, Classify, AffirmsWords, FindsWords, SomeImitation;
    AsciiImitatesNothing(words);
    ApprovesIff(words, plain, unsupported, rejected);
  }

  lemma SomeWords()
    ensures IDIOM != [] && forall i :: 0 <= i < |AFFIRM| ==> AFFIRM[i] != []
  {
  }

  lemma NoEdgeInNothing()
    ensures !AffirmsWords([])
  {
    SomeWords();
  }
}
