/** The shipped phrase lists, and why no phrase and no courtesy can be mistaken for one another. */
module RadioDefaults {
  import opened Wrappers
  import opened SpokenText
  import opened ListenEnd
  import opened RadioTranscript

  const END_PHRASES: seq<string> := [
    "okay hark send", "ok hark send", "hark send it", "hark send", "end prompt", "end of prompt", "hark over"
  ]

  const CANCEL_PHRASES: seq<string> := ["hark cancel", "cancel hark", "abort hark send", "hark abort"]

  const SOFT_END_PHRASES: seq<string> := [
    "that's all", "that is all", "thats all", "end of message", "end message", "end of transmission",
    "message done", "that covers it", "that answers it", "done answering", "done answering the question",
    "i'm done answering", "im done answering", "i am done answering", "i'm done answering the question",
    "im done answering the question", "i am done answering the question", "okay send it", "ok send it",
    "okay send", "ok send", "send it", "send that", "over and out", "okay over", "ok over", "over"
  ]

  const TRAILING_COURTESY: seq<string> := [
    "thank you very much", "thanks very much", "thank you so much", "thanks so much", "thanks a lot",
    "and thank you", "and thanks", "thank you", "thanks", "thankyou", "thank u", "thx", "ty", "cheers",
    "much appreciated", "appreciate it", "please", "ta"
  ]

  const DEFAULTS := Lists(CANCEL_PHRASES, END_PHRASES, SOFT_END_PHRASES, true, [OVER], TRAILING_COURTESY)

  predicate Letter(c: char) {
    'a' <= c <= 'z'
  }

  /** How every default phrase ends: its last two to four characters. */
  predicate PhraseShape(p: string) {
    && |p| >= 2
    && var (y, z) := (p[|p| - 2], p[|p| - 1]);
    && Letter(y) && Letter(z)
    && z != 'h' && z != 'u' && z != 's' && z != 'x' && z != 'y' && z != 'a'
    && (z == 'd' ==> y == 'n' && |p| >= 3 && p[|p| - 3] == 'e')
    && (z == 't' ==> y != 'o')
    && (z == 't' && y == 'i' ==> |p| >= 4 && p[|p| - 3] == ' ' && Letter(p[|p| - 4]) && p[|p| - 4] != 'e')
    && (z == 'e' ==> y != 's')
  }

  /** How every default courtesy ends. */
  predicate CourtesyShape(p: string) {
    && |p| >= 2
    && var (y, z) := (p[|p| - 2], p[|p| - 1]);
    || z == 'h' || z == 'u' || z == 's' || z == 'x' || z == 'y' || z == 'a'
    || (z == 'd' && y == 'e')
    || (z == 't' && (y == 'o' || (|p| >= 4 && y == 'i' && p[|p| - 3] == ' ' && p[|p| - 4] == 'e')))
    || (z == 'e' && y == 's')
  }

  lemma ShapesApart(p: string, c: string)
    requires PhraseShape(p) && CourtesyShape(c)
    ensures !Comparable(p, c)
  {
  }

  lemma AndApart(w: string)
    requires PhraseShape(w) || CourtesyShape(w)
    ensures !Comparable("and", w)
  {
  }

  lemma ShapeByIndex()
    ensures forall p :: p in END_PHRASES ==> PhraseShape(p)
    ensures forall p :: p in CANCEL_PHRASES ==> PhraseShape(p)
    ensures forall p :: p in TRAILING_COURTESY ==> CourtesyShape(p)
  {
  }

  lemma SoftShape()
    ensures forall i :: 0 <= i < 14 ==> PhraseShape(SOFT_END_PHRASES[i])
  {
  }

  lemma SoftShapeRest()
    ensures forall i :: 14 <= i < |SOFT_END_PHRASES| ==> PhraseShape(SOFT_END_PHRASES[i])
  {
  }

  /** `c` could end the longer `d`, by its first and its last two characters. */
  predicate Fits(d: string, c: string) {
    && 2 <= |c| < |d|
    && d[|d| - 1] == c[|c| - 1] && d[|d| - 2] == c[|c| - 2] && d[|d| - |c|] == c[0]
  }

  /** Only the two courtesies that begin with "and" end in another courtesy. */
  lemma FitsOnlyAnd(i: nat, j: nat)
    requires i < 9 && j < |TRAILING_COURTESY| && Fits(TRAILING_COURTESY[i], TRAILING_COURTESY[j])
    ensures (i == 5 && j == 7) || (i == 6 && j == 8)
  {
  }

  lemma FitsNoOther(i: nat, j: nat)
    requires 9 <= i < |TRAILING_COURTESY| && j < |TRAILING_COURTESY|
    ensures !Fits(TRAILING_COURTESY[i], TRAILING_COURTESY[j])
  {
  }

  lemma AndPairs()
    ensures |TRAILING_COURTESY| == 18
    ensures TRAILING_COURTESY[5] == "and " + TRAILING_COURTESY[7]
    ensures TRAILING_COURTESY[6] == "and " + TRAILING_COURTESY[8]
  {
  }

  lemma LongerFits(d: string, c: string)
    requires Ends(d, c) && |d| > |c| >= 2
    ensures Fits(d, c)
  {
    var tail := d[|d| - |c|..];
    assert tail[|c| - 1] == d[|d| - 1] && tail[|c| - 2] == d[|d| - 2] && tail[0] == d[|d| - |c|];
  }

  lemma CourtesyHasTwo(c: string)
    requires CourtesyShape(c)
    ensures |c| >= 2
  {
  }

  lemma OnlyAnd(i: nat, j: nat)
    requires i < |TRAILING_COURTESY| && j < |TRAILING_COURTESY|
    requires var (d, c) := (TRAILING_COURTESY[i], TRAILING_COURTESY[j]); Ends(d, c) && |d| > |c|
    ensures Before(TRAILING_COURTESY[i], TRAILING_COURTESY[j]) == "and "
  {
    hide TRAILING_COURTESY, Fits, PhraseShape, CourtesyShape;
    ShapeByIndex();
    AndPairs();
    assert TRAILING_COURTESY[j] in TRAILING_COURTESY;
    CourtesyHasTwo(TRAILING_COURTESY[j]);
    LongerFits(TRAILING_COURTESY[i], TRAILING_COURTESY[j]);
    if i < 9 {
      FitsOnlyAnd(i, j);
    } else {
      FitsNoOther(i, j);
    }
  }

  /** Normalizing keeps how a phrase ends. */
  lemma EndingSurvives(p: string, e: string)
    requires Ends(p, e) && Normal(e) && e != ""
    ensures Ends(Normalize(p), e)
  {
    hide Squashed;
    assert p == Before(p, e) + e;
    assert !Blank(e[0]) && !Blank(e[|e| - 1]) by {
      NormalEnds(e);
    }
    SquashAppend(Before(p, e), e);
    SquashedIsFixed(e);
    AppendKeepsEnd(Squash(Before(p, e)), e);
  }

  lemma NormalEnds(e: string)
    requires Normal(e) && e != ""
    ensures !Blank(e[0]) && !Blank(e[|e| - 1])
  {
  }

  lemma AppendKeepsEnd(x: string, e: string)
    requires e != "" && !Blank(e[|e| - 1])
    ensures TrimBlank(x + e) == x + e && Ends(x + e, e)
  {
    assert (x + e)[|x + e| - 1] == e[|e| - 1];
  }

  /** The characters `PhraseShape` looks at. */
  function ShapeLength(p: string): nat
    requires PhraseShape(p)
  {
    if p[|p| - 1] == 't' && p[|p| - 2] == 'i' then 4 else if p[|p| - 1] == 'd' then 3 else 2
  }

  lemma ShapeEnding(p: string)
    requires PhraseShape(p)
    ensures ShapeLength(p) <= |p| && Normal(p[|p| - ShapeLength(p)..])
  {
  }

  lemma ShapeFromEnding(p: string, q: string)
    requires PhraseShape(p) && ShapeLength(p) <= |p| && Ends(q, p[|p| - ShapeLength(p)..])
    ensures PhraseShape(q)
  {
    var k := ShapeLength(p);
    var (a, b) := (p[|p| - k..], q[|q| - k..]);
    assert forall i :: 0 <= i < k ==> a[i] == b[i] && a[i] == p[|p| - k + i] && b[i] == q[|q| - k + i];
  }

  lemma ShapeSurvives(p: string)
    requires PhraseShape(p)
    ensures PhraseShape(Normalize(p))
  {
    hide PhraseShape, Normal, Normalize;
    ShapeEnding(p);
    var e := p[|p| - ShapeLength(p)..];
    EndingSurvives(p, e);
    ShapeFromEnding(p, Normalize(p));
  }

  lemma CourtesyNormal(i: nat)
    requires i < 4
    ensures Normal(TRAILING_COURTESY[i])
  {
  }

  lemma CourtesyNormalNext(i: nat)
    requires 4 <= i < 10
    ensures Normal(TRAILING_COURTESY[i])
  {
  }

  lemma CourtesyNormalRest(i: nat)
    requires 10 <= i < |TRAILING_COURTESY|
    ensures Normal(TRAILING_COURTESY[i])
  {
  }

  /** The default courtesies are written as they normalize. */
  lemma CourtesyForm(c: string) returns (i: nat)
    requires c in Forms(TRAILING_COURTESY)
    ensures i < |TRAILING_COURTESY| && c == TRAILING_COURTESY[i] && CourtesyShape(c)
  {
    FormsMembers(TRAILING_COURTESY, c);
    i :| i < |TRAILING_COURTESY| && Normalize(TRAILING_COURTESY[i]) == c;
    if i < 4 {
      CourtesyNormal(i);
    } else if i < 10 {
      CourtesyNormalNext(i);
    } else {
      CourtesyNormalRest(i);
    }
    NormalIsFixed(TRAILING_COURTESY[i]);
    ShapeByIndex();
  }

  lemma ListShape(phrases: seq<string>, p: string)
    requires forall i :: 0 <= i < |phrases| ==> PhraseShape(phrases[i])
    requires p in Forms(phrases)
    ensures PhraseShape(p)
  {
    FormsMembers(phrases, p);
    var i :| 0 <= i < |phrases| && Normalize(phrases[i]) == p;
    ShapeSurvives(phrases[i]);
  }

  lemma PhraseForm(p: string)
    requires p in AllPhrases(DEFAULTS)
    ensures PhraseShape(p)
  {
    hide SOFT_END_PHRASES, END_PHRASES, CANCEL_PHRASES, TRAILING_COURTESY;
    ShapeByIndex();
    SoftShape();
    SoftShapeRest();
    if p in Forms(CANCEL_PHRASES) {
      ListShape(CANCEL_PHRASES, p);
    } else if p in Forms(END_PHRASES) {
      ListShape(END_PHRASES, p);
    } else {
      ListShape(SOFT_END_PHRASES, p);
    }
  }

  lemma TrimAnd()
    ensures TrimTrailing("and ") == "and"
  {
    TrailsTrimSame("and", "and ");
  }

  /** The shipped lists keep phrases and courtesies apart. */
  lemma DefaultsUnambiguous()
    ensures Unambiguous(DEFAULTS)
  {
    hide SOFT_END_PHRASES, END_PHRASES, CANCEL_PHRASES, TRAILING_COURTESY;
    var forms := Forms(TRAILING_COURTESY);
    forall p, c | p in AllPhrases(DEFAULTS) && c in forms
      ensures !Comparable(p, c)
    {
      PhraseForm(p);
      var i := CourtesyForm(c);
      ShapesApart(p, c);
    }
    forall c, d, w | c in forms && d in forms && w in AllPhrases(DEFAULTS) + forms && Ends(d, c) && |d| > |c|
      ensures !Comparable(TrimTrailing(Before(d, c)), w)
    {
      var j := CourtesyForm(c);
      var i := CourtesyForm(d);
      OnlyAnd(i, j);
      TrimAnd();
      if w in forms {
        var k := CourtesyForm(w);
      } else {
        PhraseForm(w);
      }
      AndApart(w);
    }
  }

  /** With the shipped lists, any politeness after a finished utterance keeps its kind, phrase and body. */
  lemma DefaultCourtesyKeepsTheHit(text: string, items: seq<Politeness>)
    requires forall i :: 0 <= i < |items| ==> Polite(items[i], Forms(TRAILING_COURTESY))
    requires EvaluateForm(Core(text), DEFAULTS, text).Some?
    ensures var t := Courteous(text, items);
            Evaluate(t, DEFAULTS) == Some(EvaluateForm(Core(text), DEFAULTS, text).value.(raw := t))
  {
    hide SOFT_END_PHRASES, END_PHRASES, CANCEL_PHRASES, TRAILING_COURTESY;
    DefaultsUnambiguous();
    CourtesyKeepsTheHit(text, items, DEFAULTS);
  }

  lemma NoCancelEndsInR()
    ensures forall i :: 0 <= i < |CANCEL_PHRASES| ==> |CANCEL_PHRASES[i]| > 0 && CANCEL_PHRASES[i][|CANCEL_PHRASES[i]| - 1] in "dklt"
  {
  }

  lemma LastSurvives(q: string)
    requires q != "" && q[|q| - 1] in "dklt"
    ensures Normalize(q) != "" && Normalize(q)[|Normalize(q)| - 1] in "dklt"
  {
    EndingSurvives(q, [q[|q| - 1]]);
  }

  lemma CancelForm(p: string)
    requires p in Forms(CANCEL_PHRASES)
    ensures p != "" && p[|p| - 1] in "dklt"
  {
    hide CANCEL_PHRASES, Normalize;
    FormsMembers(CANCEL_PHRASES, p);
    NoCancelEndsInR();
    var i :| 0 <= i < |CANCEL_PHRASES| && Normalize(CANCEL_PHRASES[i]) == p;
    LastSurvives(CANCEL_PHRASES[i]);
  }

  lemma NotOver(core: string, p: string)
    requires Ends(core, OVER) && p != "" && p[|p| - 1] in "dklt"
    ensures !Ends(core, p)
  {
    assert core[|core| - 4..][3] == 'r';
  }

  lemma NoCancelOnOver(text: string)
    requires Ends(Core(text), OVER)
    ensures FindIn(Core(text), CANCEL_PHRASES, Cancel, [], text) == None
  {
    hide CANCEL_PHRASES, Core;
    HitEnds(Core(text), CANCEL_PHRASES, Cancel, [], text);
    forall p | p in Forms(CANCEL_PHRASES)
      ensures !Ends(Core(text), p)
    {
      CancelForm(p);
      NotOver(Core(text), p);
    }
  }

  lemma DefaultLists()
    ensures DEFAULTS.cancel == CANCEL_PHRASES && DEFAULTS.soft == SOFT_END_PHRASES
    ensures DEFAULTS.softEnabled && DEFAULTS.guarded == [OVER]
  {
  }

  lemma WithoutCancel(core: string, l: Lists, raw: string)
    requires FindIn(core, l.cancel, Cancel, [], raw) == None
    ensures var r := EvaluateForm(core, l, raw);
            && (r.Some? ==> r.value.kind == End)
            && (l.softEnabled && FindIn(core, l.soft, End, l.guarded, raw).Some? ==> r.Some?)
  {
  }

  /** One form of an utterance that ends in "over": no cancel, and a hit when "over" is the prosign. */
  lemma OverForm(text: string)
    requires Ends(Core(text), OVER)
    ensures var r := EvaluateForm(Core(text), DEFAULTS, text);
            && (r.Some? ==> r.value.kind == End)
            && (Admissible(Core(text), OVER, Forms([OVER])) ==> r.Some?)
  {
    hide CANCEL_PHRASES, SOFT_END_PHRASES, END_PHRASES, TRAILING_COURTESY, DEFAULTS, Core, Admissible, FindIn, EvaluateForm;
    NoCancelOnOver(text);
    OverIsSoft();
    DefaultLists();
    WithoutCancel(Core(text), DEFAULTS, text);
    if Admissible(Core(text), OVER, Forms([OVER])) {
      FindIsLongest(text, SOFT_END_PHRASES, End, [OVER], text, OVER);
    }
  }

  lemma OverIsPhrase()
    ensures OVER in AllPhrases(DEFAULTS)
  {
    hide SOFT_END_PHRASES, CANCEL_PHRASES, END_PHRASES, TRAILING_COURTESY, Normalize;
    OverIsSoft();
    FormsMembers(SOFT_END_PHRASES, OVER);
  }

  /**
   An utterance that ends in "over", with any politeness after it, never cancels,
   whichever of its two forms is the one that hits; and when that "over" is the radio
   prosign the utterance is finished.
   */
  lemma OverNeverCancels(text: string, items: seq<Politeness>)
    requires Ends(Core(text), OVER) && forall i :: 0 <= i < |items| ==> Polite(items[i], Forms(TRAILING_COURTESY))
    ensures var r := Evaluate(Courteous(text, items), DEFAULTS);
            && (r.Some? ==> r.value.kind == End)
            && (Admissible(Core(text), OVER, Forms([OVER])) ==> r.Some?)
  {
    hide CANCEL_PHRASES, SOFT_END_PHRASES, END_PHRASES, TRAILING_COURTESY, Core, Admissible, EvaluateForm, Polite;
    DefaultsUnambiguous();
    OverIsPhrase();
    OverForm(text);
    if EvaluateForm(Core(text), DEFAULTS, text).Some? {
      CourtesyKeepsTheHit(text, items, DEFAULTS);
    } else {
      CourtesyKeepsTheMiss(text, items, OVER, DEFAULTS);
    }
  }

  lemma OverIsSoft()
    ensures OVER in SOFT_END_PHRASES && Normalize(OVER) == OVER
  {
    assert SOFT_END_PHRASES[26] == OVER;
    NormalIsFixed(OVER);
  }
}
