/**
 `evaluate_radio_transcript`, and the promise that politeness after a finished
 utterance does not change what it finished with.
 */
module RadioTranscript {
  import opened Wrappers
  import opened SpokenText
  import opened ListenEnd

  /** The phrase lists one evaluation is configured with. */
  datatype Lists = Lists(
    cancel: seq<string>, end: seq<string>, soft: seq<string>, softEnabled: bool, guarded: seq<string>,
    courtesy: seq<string>)

  /** One candidate text: cancel, then product end, then soft end. */
  function EvaluateForm(core: string, l: Lists, raw: string): Option<PhraseHit> {
    match FindIn(core, l.cancel, Cancel, [], raw)
    case Some(h) => Some(h)
    case None =>
      match FindIn(core, l.end, End, [], raw)
      case Some(h) => Some(h)
      case None => if l.softEnabled then FindIn(core, l.soft, End, l.guarded, raw) else None
  }

  /** The text as spoken first, then without its trailing politeness. */
  function Evaluate(raw: string, l: Lists): Option<PhraseHit> {
    match EvaluateForm(Core(raw), l, raw)
    case Some(h) => Some(h)
    case None =>
      var stripped := StripCourtesy(raw, l.courtesy);
      if TrimBlank(stripped) == "" && stripped != raw then None
      else EvaluateForm(Core(stripped), l, raw)
  }

  // ---------------------------------------------------------------- politeness after a hit

  /** Trailing separators, then words spoken after them. */
  datatype Politeness = Politeness(separator: string, words: string)

  /** A courtesy of the list in any spelling and spacing that normalizes to it. */
  predicate Polite(item: Politeness, forms: seq<string>) {
    && item.separator != "" && AllTrailing(item.separator)
    && item.words != "" && !Blank(item.words[0]) && Core(item.words) in forms
  }

  function Courteous(text: string, items: seq<Politeness>): string {
    if items == [] then text
    else
      var last := items[|items| - 1];
      Courteous(text, items[..|items| - 1]) + last.separator + last.words
  }

  predicate Comparable(a: string, b: string) {
    Ends(a, b) || Ends(b, a)
  }

  function AllPhrases(l: Lists): seq<string> {
    Forms(l.cancel) + Forms(l.end) + Forms(l.soft)
  }

  /** Phrases and courtesies never end one another. */
  ghost predicate Apart(phrases: seq<string>, forms: seq<string>) {
    forall p, c :: p in phrases && c in forms ==> !Comparable(p, c)
  }

  /** What a longer courtesy puts before a shorter one ends no phrase and no courtesy. */
  ghost predicate NoStraddle(closers: seq<string>, forms: seq<string>) {
    forall c, d, w :: c in forms && d in forms && w in closers && Ends(d, c) && |d| > |c| ==>
      !Comparable(TrimTrailing(Before(d, c)), w)
  }

  ghost predicate Unambiguous(l: Lists) {
    && Apart(AllPhrases(l), Forms(l.courtesy))
    && NoStraddle(AllPhrases(l) + Forms(l.courtesy), Forms(l.courtesy))
  }

  lemma SuffixesCompare(s: string, p: string, q: string)
    requires Ends(s, p) && Ends(s, q)
    ensures Comparable(p, q)
  {
    EndsTwice(s, p, q);
    EndsTwice(s, q, p);
  }

  /** A shorter form that ends a longer text still ends whatever trimming leaves of a longer suffix. */
  lemma TrimmedSuffix(a: string, b: string, q: string)
    requires Trails(a, b) && Ends(b, q) && (a != "" ==> !Trailing(a[|a| - 1]))
    ensures Ends(a, TrimTrailing(q))
  {
    if |q| <= |b| - |a| {
      assert q == b[|a|..][|b| - |a| - |q|..];
      TrailsTrimSame("", q);
    } else {
      var n := |q| - (|b| - |a|);
      var h := q[..n];
      assert h == a[|a| - n..];
      assert q[n..] == b[|a|..];
      TrailsTrimSame(h, q);
      assert h[n - 1] == a[|a| - 1];
    }
  }

  lemma TrailsThrough(a: string, b: string, c: string)
    requires Trails(a, b) && Trails(b, c)
    ensures Trails(a, c)
  {
    assert c[|a|..] == b[|a|..] + c[|b|..];
  }

  lemma TrimAfter(s: string, w: string)
    requires TrimTrailing(w) != ""
    ensures TrimTrailing(s + w) == s + TrimTrailing(w)
  {
    var c := TrimTrailing(w);
    TrimLeavesTrailing(w);
    assert (s + w)[|s + c|..] == w[|c|..];
    assert s + c <= s + w;
    TrailsTrimSame(s + c, s + w);
    assert (s + c)[|s + c| - 1] == c[|c| - 1];
  }

  /** The core of a text followed by one courtesy. */
  lemma PoliteCore(text: string, item: Politeness, forms: seq<string>)
    requires Polite(item, forms) && Core(text) != "" && Core(item.words) != ""
    ensures var s := Squash(text + item.separator);
            && Core(text + item.separator + item.words) == s + Core(item.words)
            && Trails(Core(text), s) && s != "" && Trailing(s[|s| - 1])
  {
    hide Core;
    var s := Squash(text + item.separator);
    SquashAppend(text + item.separator, item.words);
    CoreIs(text);
    CoreIs(item.words);
    CoreIs(text + item.separator + item.words);
    SquashAppendTrailing(text, item.separator);
    TrimLeavesTrailing(Squash(text));
    TrailsThrough(Core(text), Squash(text), s);
    TrimAfter(s, Squash(item.words));
  }

  /** No courtesy longer than the one just spoken can reach back across the separator. */
  lemma NoLongerCourtesy(core: string, s: string, c: string, d: string, w: string, l: Lists)
    requires Unambiguous(l) && c in Forms(l.courtesy) && d in Forms(l.courtesy)
    requires w in AllPhrases(l) + Forms(l.courtesy)
    requires Bare(core) && Ends(core, w) && Trails(core, s)
    requires Ends(s + c, d)
    ensures |d| <= |c|
  {
    var norm := s + c;
    if |d| > |c| {
      assert Ends(norm, c);
      EndsTwice(norm, d, c);
      var q := Before(d, c);
      assert Ends(s, q) by {
        assert d == norm[|norm| - |d|..];
        assert q == s[|s| - |q|..];
      }
      TrimmedSuffix(core, s, q);
      SuffixesCompare(core, TrimTrailing(q), w);
      assert false;
    }
  }

  /** Shedding the courtesy just spoken leaves what came before it. */
  lemma ShedsBack(core: string, s: string, c: string)
    requires Bare(core) && Trails(core, s) && s != "" && Trailing(s[|s| - 1])
    requires c != "" && Bare(s + c)
    ensures Sheds(s + c, c) && Shed(s + c, c) == core
  {
    assert Before(s + c, c) == s;
    ShedIs(s + c, c);
    TrailsTrimSame(core, s);
  }

  /** The courtesy just spoken is the one that is shed. */
  lemma ShedsJustTheCourtesy(core: string, s: string, c: string, w: string, l: Lists)
    requires Unambiguous(l) && c in Forms(l.courtesy) && w in AllPhrases(l) + Forms(l.courtesy)
    requires Bare(core) && Ends(core, w) && Trails(core, s) && s != "" && Trailing(s[|s| - 1])
    requires c != "" && Bare(s + c)
    ensures First(LongestFirst(Forms(l.courtesy)), Shedding(s + c)) == Some(c)
  {
    hide Unambiguous, Bare, Trails;
    var norm := s + c;
    var ordered := LongestFirst(Forms(l.courtesy));
    LongestFirstSorts(Forms(l.courtesy));
    ShedsBack(core, s, c);
    assert Shedding(norm)(c);
    FirstIsLongest(ordered, Shedding(norm), c);
    var d := First(ordered, Shedding(norm)).value;
    assert Sheds(norm, d);
    NoLongerCourtesy(core, s, c, d, w, l);
  }

  /** A text that ends in a phrase or a courtesy still strips to the same text with one courtesy more. */
  lemma StripOneMore(text: string, item: Politeness, w: string, l: Lists)
    requires Unambiguous(l) && Polite(item, Forms(l.courtesy)) && w in AllPhrases(l) + Forms(l.courtesy)
    requires Core(text) != "" && Ends(Core(text), w)
    ensures var t := text + item.separator + item.words;
            && Ends(Core(t), Core(item.words)) && Core(t) != ""
            && StripCourtesy(t, l.courtesy) == StripCourtesy(text, l.courtesy)
  {
    hide Unambiguous, Bare, Trails, Core, Polite, Sheds;
    var c := Core(item.words);
    var s := Squash(text + item.separator);
    CourtesyFormIsSome(item, l);
    PoliteCore(text, item, Forms(l.courtesy));
    CoreIsBare(text);
    CoreIsBare(text + item.separator + item.words);
    ShedsJustTheCourtesy(Core(text), s, c, w, l);
    ShedsBack(Core(text), s, c);
  }

  lemma CourtesyFormIsSome(item: Politeness, l: Lists)
    requires Polite(item, Forms(l.courtesy))
    ensures Core(item.words) != "" && Core(item.words) in Forms(l.courtesy)
  {
    FormsMembers(l.courtesy, Core(item.words));
  }

  /** Politeness all strips off again, and the text it is appended to ends in no phrase. */
  lemma {:induction false} CourtesiesStrip(text: string, items: seq<Politeness>, w: string, l: Lists)
    requires Unambiguous(l) && forall i :: 0 <= i < |items| ==> Polite(items[i], Forms(l.courtesy))
    requires w in AllPhrases(l) && Core(text) != "" && Ends(Core(text), w)
    ensures var t := Courteous(text, items);
            && StripCourtesy(t, l.courtesy) == StripCourtesy(text, l.courtesy)
            && Core(t) != ""
            && (items == [] || exists c :: c in Forms(l.courtesy) && Ends(Core(t), c))
  {
    hide Core, Polite, Unambiguous, StripCourtesy;
    if items != [] {
      var n := |items| - 1;
      CourtesiesStrip(text, items[..n], w, l);
      var t := Courteous(text, items[..n]);
      var v := w;
      if n > 0 {
        v :| v in Forms(l.courtesy) && Ends(Core(t), v);
      }
      StripOneMore(t, items[n], v, l);
      CourtesyFormIsSome(items[n], l);
    }
  }

  /** A text that ends in a phrase sheds nothing. */
  lemma PhraseShedsNothing(text: string, w: string, l: Lists)
    requires Unambiguous(l) && w in AllPhrases(l) && Ends(Core(text), w)
    ensures StripCourtesy(text, l.courtesy) == Core(text)
  {
    var core := Core(text);
    var ordered := LongestFirst(Forms(l.courtesy));
    LongestFirstSorts(Forms(l.courtesy));
    var d := First(ordered, Shedding(core));
    if d.Some? {
      assert Sheds(core, d.value);
      SuffixesCompare(core, w, d.value);
      assert false;
    }
  }

  lemma HitEnds(core: string, phrases: seq<string>, kind: Kind, guarded: seq<string>, raw: string)
    ensures var r := FindIn(core, phrases, kind, guarded, raw);
            r.Some? ==> r.value.phrase in Forms(phrases) && Ends(core, r.value.phrase) && core != ""
  {
    LongestFirstSorts(Forms(phrases));
    var p := First(LongestFirst(Forms(phrases)), Admits(core, Forms(guarded)));
    if p.Some? {
      assert Admissible(core, p.value, Forms(guarded));
    }
  }

  lemma FormHitEnds(core: string, l: Lists, raw: string)
    ensures var r := EvaluateForm(core, l, raw);
            r.Some? ==> r.value.phrase in AllPhrases(l) && Ends(core, r.value.phrase) && core != ""
  {
    HitEnds(core, l.cancel, Cancel, [], raw);
    HitEnds(core, l.end, End, [], raw);
    HitEnds(core, l.soft, End, l.guarded, raw);
  }

  lemma RawIsCarried(core: string, l: Lists, raw: string, other: string)
    ensures var r := EvaluateForm(core, l, raw); var o := EvaluateForm(core, l, other);
            && r.Some? == o.Some?
            && (r.Some? ==> o.value == r.value.(raw := other))
  {
  }

  /**
   Any number of courtesies after an utterance that hits as spoken keep the hit's
   kind, phrase and body.
   */
  lemma CourtesyKeepsTheHit(text: string, items: seq<Politeness>, l: Lists)
    requires Unambiguous(l) && forall i :: 0 <= i < |items| ==> Polite(items[i], Forms(l.courtesy))
    requires EvaluateForm(Core(text), l, text).Some?
    ensures var t := Courteous(text, items);
            Evaluate(t, l) == Some(EvaluateForm(Core(text), l, text).value.(raw := t))
  {
    hide Unambiguous, Core, Polite, StripCourtesy, EvaluateForm;
    var t := Courteous(text, items);
    var h := EvaluateForm(Core(text), l, text).value;
    FormHitEnds(Core(text), l, text);
    CourtesiesStrip(text, items, h.phrase, l);
    PhraseShedsNothing(text, h.phrase, l);
    RawIsCarried(Core(text), l, text, t);
    if items != [] {
      NoHitAfterCourtesy(t, l);
      CoreIs(text);
      NotBlankCore(text);
    }
  }

  /** Courtesies after an utterance that ends in a phrase without a hit bring none about. */
  lemma CourtesyKeepsTheMiss(text: string, items: seq<Politeness>, w: string, l: Lists)
    requires Unambiguous(l) && forall i :: 0 <= i < |items| ==> Polite(items[i], Forms(l.courtesy))
    requires w in AllPhrases(l) && w != "" && Ends(Core(text), w)
    requires EvaluateForm(Core(text), l, text).None?
    ensures Evaluate(Courteous(text, items), l) == None
  {
    hide Unambiguous, Core, Polite, StripCourtesy, EvaluateForm;
    var t := Courteous(text, items);
    CourtesiesStrip(text, items, w, l);
    PhraseShedsNothing(text, w, l);
    RawIsCarried(Core(text), l, text, t);
    CoreIs(text);
    if items != [] {
      NoHitAfterCourtesy(t, l);
    }
  }

  lemma NotBlankCore(text: string)
    requires Core(text) != ""
    ensures TrimBlank(Core(text)) != ""
  {
    CoreIsBare(text);
  }

  lemma NoHitAfterCourtesy(t: string, l: Lists)
    requires Unambiguous(l) && exists c :: c in Forms(l.courtesy) && Ends(Core(t), c)
    ensures EvaluateForm(Core(t), l, t) == None
  {
    hide EvaluateForm, Core;
    var c :| c in Forms(l.courtesy) && Ends(Core(t), c);
    FormHitEnds(Core(t), l, t);
    var r := EvaluateForm(Core(t), l, t);
    if r.Some? {
      SuffixesCompare(Core(t), r.value.phrase, c);
      assert false;
    }
  }
}
