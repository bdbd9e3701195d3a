/** The whole classifier: project the raw transcript, look for malformed contractions, decide. */
module ConfirmClassifier {
  import opened Wrappers
  import opened ConfirmProjection
  import opened ConfirmFacts
  import opened ConfirmBridge
  import opened WholeWords
  import opened ConfirmReply
  import opened ConfirmText

  /** What the classifier is configured with; `normalize` and `strip` stand for the Unicode normal forms. */
  datatype Lexicon = Lexicon(
    contractions: seq<Parts>, apostrophes: set<char>, expansions: seq<Text>, classes: Classes,
    normalize: string -> string, strip: string -> string)

  ghost predicate Proper(x: Lexicon) {
    && [] !in x.expansions && x.classes.space(' ')
    && forall i :: 0 <= i < |x.contractions| ==> x.contractions[i].left != [] && x.contractions[i].right != []
  }

  /** A scene for each contraction of the lexicon. */
  function ScenesFor(u: Unicode, raw: Text, p: Projection, f: Facts, x: Lexicon): seq<Scene> {
    Scenes(u, raw, p, f, x.contractions, x.apostrophes, x.expansions)
  }

  /** One of the contractions stands within a raw token with a malformed separator. */
  ghost predicate SomeMalformed(scenes: seq<Scene>) {
    exists i: nat, l: Left, k: nat :: i < |scenes| && MustReport(scenes[i], l, k)
  }

  /** One of the scans found a sound bridge. */
  ghost predicate SomeReported(scenes: seq<Scene>) {
    exists i: nat, s: Span :: i < |scenes| && Reported(scenes[i], s)
  }

  /** Nothing malformed within a token goes unseen, and nothing is seen but sound bridges. */
  lemma BridgesAreEvidence(scenes: seq<Scene>)
    requires AllReady(scenes)
    ensures SomeMalformed(scenes) ==> AllBridges(scenes) != []
    ensures AllBridges(scenes) != [] ==> SomeReported(scenes)
  {
    hide MustReport, Reported, AllReady, AllBridges;
    if SomeMalformed(scenes) {
      var i: nat, l: Left, k: nat :| i < |scenes| && MustReport(scenes[i], l, k);
      MalformedIsBridge(scenes, i, l, k);
    }
    if AllBridges(scenes) != [] {
      var s := AllBridges(scenes)[0];
      BridgesAreReported(scenes, s);
      var i :| 0 <= i < |scenes| && Reported(scenes[i], s);
    }
  }

  function ReadyWords(canonical: string, x: Lexicon): seq<Word> {
    MatchReady(x.strip(x.normalize(canonical)), x.classes)
  }

  function PlainWords(canonical: string, x: Lexicon): seq<Word> {
    MatchReady(x.normalize(canonical), x.classes)
  }

  function PlainText(canonical: string, x: Lexicon): string {
    Join(PlainWords(canonical, x))
  }

  lemma RejectedIsUnclear(words: seq<Word>, plain: string, unsupported: bool)
    ensures Classify(words, plain, unsupported, true) == Unclear
  {
  }

  /**
   `classify_confirm_reply`. `direct` is what the literal separator patterns found and
   `spans` the decomposed accents they declared. An oversized segment is never decided;
   any other transcript is judged by its words and by `unsupported`, which the patterns
   or a malformed contraction within a raw token set, and nothing but the patterns or a
   sound bridge.
   */
  method ClassifyReply(u: Unicode, raw: string, direct: bool, spans: map<nat, nat>, x: Lexicon)
    returns (v: Verdict, words: seq<Word>, ghost p: Projection, ghost f: Facts, ghost unsupported: bool)
    requires Proper(x) && Spans(raw, spans)
    ensures Oversized(u, raw) ==> v == Unclear
    ensures !Oversized(u, raw) ==>
              && Projects(u, raw, p) && FactsOf(u, raw, p, f)
              && words == MatchReady(x.strip(x.normalize(Rewritten(raw, spans, 0))), x.classes)
              && v == Classify(words, PlainText(Rewritten(raw, spans, 0), x), unsupported, false)
    ensures !Oversized(u, raw) ==>
              var scenes := ScenesFor(u, raw, p, f, x);
              && AllReady(scenes) && (unsupported <==> direct || AllBridges(scenes) != [])
              && (SomeMalformed(scenes) ==> unsupported)
              && (unsupported && !direct ==> SomeReported(scenes))
    ensures v == Yes <==> !Oversized(u, raw) && (ExactApproval(words) || PlainApproval(words, unsupported))
    ensures FindsWords(words, NEGATE) && words != IDIOM ==> v != Yes
    ensures v == No <==>
              && !Oversized(u, raw) && words != IDIOM && FindsWords(words, NEGATE)
              && (unsupported ==> FindsWords(MatchReady(x.normalize(Rewritten(raw, spans, 0)), x.classes), NEGATE))
  {
    hide *;
    var found;
    IsProper(x);
    found, p, f := FindBridges(u, raw, x.contractions, x.apostrophes, x.expansions);
    if found.None? {
      NoWords();
      RejectedIsUnclear([], "", false);
      return Unclear, [], p, f, false;
    }
    ScenesOfLexicon(u, raw, p, f, x);
    BridgesAreEvidence(ScenesFor(u, raw, p, f, x));
    var canonical := CanonicalInput(raw, spans);
    words := ReadyWords(canonical, x);
    ReadyIsWords(canonical, x);
    WordsOf(canonical, x);
    var anything := direct || found.value != [];
    unsupported := anything;
    v := Classify(words, PlainText(canonical, x), anything, false);
    ApprovesBy(words, PlainText(canonical, x), unsupported);
    RefusesBy(words, canonical, unsupported, x);
    if FindsWords(words, NEGATE) && words != IDIOM {
      RefusalDominates(words, PlainText(canonical, x), unsupported, false);
    }
  }

  lemma ApprovesBy(words: seq<Word>, plain: string, unsupported: bool)
    requires AreWords(words)
    ensures Classify(words, plain, unsupported, false) == Yes <==> ExactApproval(words) || PlainApproval(words, unsupported)
  {
    hide Classify, ExactApproval, PlainApproval;
    ApprovesIff(words, plain, unsupported, false);
  }

  lemma RefusesBy(words: seq<Word>, canonical: string, unsupported: bool, x: Lexicon)
    requires Proper(x) && AreWords(words)
    ensures Classify(words, PlainText(canonical, x), unsupported, false) == No <==>
              words != IDIOM && FindsWords(words, NEGATE) && (unsupported ==> FindsWords(PlainWords(canonical, x), NEGATE))
  {
    hide Classify, NEGATE, IDIOM, FindsWords;
    MatchReadyIsWords(x.normalize(canonical), x.classes);
    RefusesIff(words, PlainWords(canonical, x), unsupported, false);
  }

  lemma ScenesOfLexicon(u: Unicode, raw: Text, p: Projection, f: Facts, x: Lexicon)
    ensures ScenesFor(u, raw, p, f, x) == Scenes(u, raw, p, f, x.contractions, x.apostrophes, x.expansions)
  {
  }

  lemma IsProper(x: Lexicon)
    requires Proper(x)
    ensures [] !in x.expansions
    ensures forall i :: 0 <= i < |x.contractions| ==> x.contractions[i].left != [] && x.contractions[i].right != []
  {
  }

  lemma NoWords()
    ensures AreWords([]) && !FindsWords([], NEGATE)
  {
    NegateWords();
    NothingInNothing(NEGATE);
  }

  lemma WordsOf(canonical: string, x: Lexicon)
    ensures ReadyWords(canonical, x) == MatchReady(x.strip(x.normalize(canonical)), x.classes)
    ensures PlainWords(canonical, x) == MatchReady(x.normalize(canonical), x.classes)
  {
  }

  lemma ReadyIsWords(canonical: string, x: Lexicon)
    requires Proper(x)
    ensures AreWords(ReadyWords(canonical, x))
  {
    MatchReadyIsWords(x.strip(x.normalize(canonical)), x.classes);
  }
}
