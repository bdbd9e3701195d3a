/**
 The radio end-phrase evaluator: strip trailing politeness, match a phrase only
 where it ends the utterance, and rank cancel over end over soft end.
 */
module ListenEnd {
  import opened Wrappers
  import opened SpokenText

  datatype Kind = End | Cancel

  datatype PhraseHit = PhraseHit(kind: Kind, phrase: string, body: string, raw: string)

  predicate Ends(s: string, p: string) {
    |p| <= |s| && s[|s| - |p|..] == p
  }

  /** What precedes a suffix of length |p|. */
  function Before(s: string, p: string): string
    requires |p| <= |s|
  {
    s[..|s| - |p|]
  }

  lemma EndsTwice(s: string, p: string, q: string)
    requires Ends(s, p) && Ends(s, q)
    ensures |q| <= |p| ==> Ends(p, q)
  {
    if |q| <= |p| {
      assert p[|p| - |q|..] == s[|s| - |q|..];
    }
  }

  // ---------------------------------------------------------------- phrase lists

  /** The normalized, non-blank entries of a phrase list. */
  function Forms(phrases: seq<string>): seq<string> {
    if phrases == [] then []
    else
      var p := Normalize(phrases[0]);
      (if p == "" then [] else [p]) + Forms(phrases[1..])
  }

  function InsertByLength(p: string, ordered: seq<string>): seq<string> {
    if ordered == [] then [p]
    else if |p| >= |ordered[0]| then [p] + ordered
    else [ordered[0]] + InsertByLength(p, ordered[1..])
  }

  /** `sorted(..., key=len, reverse=True)`. */
  function LongestFirst(phrases: seq<string>): seq<string> {
    if phrases == [] then []
    else InsertByLength(phrases[0], LongestFirst(phrases[1..]))
  }

  predicate Descending(ordered: seq<string>) {
    forall i, j :: 0 <= i < j < |ordered| ==> |ordered[i]| >= |ordered[j]|
  }

  lemma {:induction false} InsertKeeps(p: string, ordered: seq<string>)
    requires Descending(ordered)
    ensures Descending(InsertByLength(p, ordered))
    ensures forall q :: q in InsertByLength(p, ordered) <==> q == p || q in ordered
  {
    if ordered != [] && |p| < |ordered[0]| {
      var rest := InsertByLength(p, ordered[1..]);
      InsertKeeps(p, ordered[1..]);
      assert ordered == [ordered[0]] + ordered[1..];
      assert forall i :: 0 <= i < |rest| ==> rest[i] in rest;
      assert forall q :: q in ordered[1..] ==> |q| <= |ordered[0]|;
    }
  }

  /** The order phrases are tried in has the list's members, longest first. */
  lemma {:induction false} LongestFirstSorts(phrases: seq<string>)
    ensures Descending(LongestFirst(phrases))
    ensures forall p :: p in LongestFirst(phrases) <==> p in phrases
  {
    if phrases != [] {
      LongestFirstSorts(phrases[1..]);
      InsertKeeps(phrases[0], LongestFirst(phrases[1..]));
      assert phrases == [phrases[0]] + phrases[1..];
    }
  }

  lemma {:induction false} FormsMembers(phrases: seq<string>, p: string)
    ensures p in Forms(phrases) <==> p != "" && exists i :: 0 <= i < |phrases| && Normalize(phrases[i]) == p
  {
    if phrases != [] {
      FormsMembers(phrases[1..], p);
      if p in Forms(phrases[1..]) {
        var i :| 0 <= i < |phrases[1..]| && Normalize(phrases[1..][i]) == p;
        assert Normalize(phrases[i + 1]) == p;
      }
      if p != "" && exists i :: 0 <= i < |phrases| && Normalize(phrases[i]) == p {
        var i :| 0 <= i < |phrases| && Normalize(phrases[i]) == p;
        if i > 0 { assert Normalize(phrases[1..][i - 1]) == p; }
      }
    }
  }

  /** The first entry, in the order tried, that satisfies `fits`. */
  function First(ordered: seq<string>, fits: string -> bool): (r: Option<string>)
    ensures r.Some? ==> r.value in ordered && fits(r.value)
    ensures r.None? ==> forall p :: p in ordered ==> !fits(p)
  {
    if ordered == [] then None
    else if fits(ordered[0]) then Some(ordered[0])
    else First(ordered[1..], fits)
  }

  lemma {:induction false} FirstIsLongest(ordered: seq<string>, fits: string -> bool, p: string)
    requires Descending(ordered) && p in ordered && fits(p)
    ensures First(ordered, fits).Some? && |First(ordered, fits).value| >= |p|
  {
    if !fits(ordered[0]) {
      FirstIsLongest(ordered[1..], fits, p);
    }
  }

  // ---------------------------------------------------------------- courtesy

  /** A trailing courtesy: the whole text, or a suffix after space or glued punctuation. */
  predicate Sheds(norm: string, p: string) {
    p != "" && Ends(norm, p) && (|norm| == |p| || Trailing(norm[|norm| - |p| - 1]))
  }

  function Shed(norm: string, p: string): (r: string)
    requires Sheds(norm, p)
    ensures |r| < |norm|
  {
    StripTrailPunct(TrimBlank(Before(norm, p)))
  }

  function Shedding(norm: string): string -> bool {
    p => Sheds(norm, p)
  }

  function ShedAll(norm: string, ordered: seq<string>): string
    decreases |norm|
  {
    match First(ordered, Shedding(norm))
    case None => norm
    case Some(p) => ShedAll(Shed(norm, p), ordered)
  }

  /** `strip_trailing_courtesy`. */
  function StripCourtesy(text: string, courtesy: seq<string>): string {
    ShedAll(Core(text), LongestFirst(Forms(courtesy)))
  }

  /** Normalized text with nothing trailing: what both matchers work on. */
  predicate Bare(s: string) {
    Normal(s) && (s != "" ==> !Trailing(s[|s| - 1]))
  }

  lemma CoreIsBare(text: string)
    ensures Bare(Core(text))
  {
    CoreIs(text);
  }

  lemma BareIsFixed(s: string)
    requires Bare(s)
    ensures Core(s) == s
  {
    NormalIsFixed(s);
    StripOfPrefix(s, s);
  }

  lemma ShedIs(norm: string, p: string)
    requires Bare(norm) && Sheds(norm, p)
    ensures Shed(norm, p) == TrimTrailing(Before(norm, p))
    ensures Bare(Shed(norm, p)) && Shed(norm, p) <= norm
  {
    var b := Before(norm, p);
    StripOfPrefix(norm, TrimBlank(b));
    TrimTrailingBlank(b);
  }

  lemma {:induction false} ShedAllKeeps(norm: string, ordered: seq<string>)
    requires Bare(norm)
    ensures Bare(ShedAll(norm, ordered)) && ShedAll(norm, ordered) <= norm
    ensures First(ordered, Shedding(ShedAll(norm, ordered))).None?
    decreases |norm|
  {
    match First(ordered, Shedding(norm))
    case None =>
    case Some(p) =>
      ShedIs(norm, p);
      ShedAllKeeps(Shed(norm, p), ordered);
  }

  /** Stripping only cuts the normalized text short, and leaves no courtesy of the list at its end. */
  lemma StripIsCleanPrefix(text: string, courtesy: seq<string>, p: string)
    requires p in courtesy
    ensures StripCourtesy(text, courtesy) <= Normalize(text)
    ensures !Sheds(StripCourtesy(text, courtesy), Normalize(p))
  {
    CoreIs(text);
    CoreIsBare(text);
    var ordered := LongestFirst(Forms(courtesy));
    ShedAllKeeps(Core(text), ordered);
    var form := Normalize(p);
    FormsMembers(courtesy, form);
    LongestFirstSorts(Forms(courtesy));
    assert Sheds(StripCourtesy(text, courtesy), form) == Shedding(StripCourtesy(text, courtesy))(form);
  }

  /** Stripping twice is stripping once. */
  lemma StripIsIdempotent(text: string, courtesy: seq<string>)
    ensures StripCourtesy(StripCourtesy(text, courtesy), courtesy) == StripCourtesy(text, courtesy)
  {
    CoreIsBare(text);
    ShedAllKeeps(Core(text), LongestFirst(Forms(courtesy)));
    BareIsFixed(StripCourtesy(text, courtesy));
  }

  lemma FirstStep(ordered: seq<string>, i: nat, fits: string -> bool)
    requires i < |ordered|
    ensures First(ordered[i..], fits) == if fits(ordered[i]) then Some(ordered[i]) else First(ordered[i + 1..], fits)
  {
    assert ordered[i..][1..] == ordered[i + 1..];
  }

  lemma FirstStart(ordered: seq<string>, fits: string -> bool)
    ensures First(ordered[0..], fits) == First(ordered, fits)
    ensures First(ordered[|ordered|..], fits) == None
  {
    assert ordered[0..] == ordered;
  }

  ghost predicate Stripping(text: string, courtesy: seq<string>, ordered: seq<string>, norm: string, changed: bool) {
    && ordered == LongestFirst(Forms(courtesy))
    && ShedAll(norm, ordered) == StripCourtesy(text, courtesy)
    && (!changed ==> First(ordered, Shedding(norm)).None?)
  }

  /** No entry among the first `i` sheds. */
  ghost predicate Scanned(ordered: seq<string>, norm: string, i: nat) {
    i <= |ordered| && First(ordered, Shedding(norm)) == First(ordered[i..], Shedding(norm))
  }

  lemma StripStart(text: string, courtesy: seq<string>)
    ensures Stripping(text, courtesy, LongestFirst(Forms(courtesy)), Core(text), true)
  {
  }

  lemma ScanStart(ordered: seq<string>, norm: string)
    ensures Scanned(ordered, norm, 0)
  {
    FirstStart(ordered, Shedding(norm));
  }

  lemma ScanStep(ordered: seq<string>, norm: string, i: nat)
    requires Scanned(ordered, norm, i) && i < |ordered| && !Sheds(norm, ordered[i])
    ensures Scanned(ordered, norm, i + 1)
  {
    FirstStep(ordered, i, Shedding(norm));
  }

  lemma ScanHit(text: string, courtesy: seq<string>, ordered: seq<string>, norm: string, i: nat)
    requires Stripping(text, courtesy, ordered, norm, true)
    requires Scanned(ordered, norm, i) && i < |ordered| && Sheds(norm, ordered[i])
    ensures Stripping(text, courtesy, ordered, Shed(norm, ordered[i]), true)
  {
    FirstStep(ordered, i, Shedding(norm));
  }

  lemma ScanMiss(text: string, courtesy: seq<string>, ordered: seq<string>, norm: string)
    requires Stripping(text, courtesy, ordered, norm, true) && Scanned(ordered, norm, |ordered|)
    ensures Stripping(text, courtesy, ordered, norm, false)
  {
    FirstStart(ordered, Shedding(norm));
  }

  lemma StripDone(text: string, courtesy: seq<string>, ordered: seq<string>, norm: string, changed: bool)
    requires Stripping(text, courtesy, ordered, norm, changed) && (!changed || norm == "")
    ensures norm == StripCourtesy(text, courtesy)
  {
    assert norm == "" ==> forall p :: !Shedding(norm)(p);
  }

  /** The loop: rescan the list from its longest entry after every strip. */
  method StripTrailingCourtesy(text: string, courtesy: seq<string>) returns (norm: string)
    ensures norm == StripCourtesy(text, courtesy)
  {
    hide *;
    norm := Core(text);
    var ordered := LongestFirst(Forms(courtesy));
    StripStart(text, courtesy);
    var changed := true;
    while changed && norm != ""
      invariant Stripping(text, courtesy, ordered, norm, changed)
      decreases |norm|, changed
    {
      changed := false;
      var i := 0;
      ScanStart(ordered, norm);
      while i < |ordered|
        invariant Scanned(ordered, norm, i)
        invariant 0 <= i <= |ordered|
      {
        var p := ordered[i];
        if Sheds(norm, p) {
          ScanHit(text, courtesy, ordered, norm, i);
          norm := Shed(norm, p);
          changed := true;
          break;
        }
        ScanStep(ordered, norm, i);
        i := i + 1;
      }
      if !changed {
        ScanMiss(text, courtesy, ordered, norm);
      }
    }
    StripDone(text, courtesy, ordered, norm, changed);
  }

  // ---------------------------------------------------------------- terminal phrases

  /** `_ends_with_phrase` on a normalized phrase: the whole text or a word-bounded suffix. */
  predicate EndsWithPhrase(norm: string, p: string) {
    && p != "" && norm != ""
    && (norm == p || (Ends(norm, p) && (|norm| == |p| || Blank(norm[|norm| - |p| - 1]))))
  }

  const OVER := "over"

  const OVER_PHRASAL_PREV: set<string> := {
    "it", "them", "him", "her", "this", "that", "take", "start", "go", "look", "get", "roll", "cross", "come",
    "think", "hand", "turn", "flip", "pass", "give", "carry", "switch", "read", "run", "make", "win", "lean",
    "sleep", "move", "slide", "tip", "knock", "bend", "fall", "boil", "paper", "gloss", "smooth", "brush", "rake",
    "check", "watch", "hold", "pull", "push", "put", "bring", "left", "right", "head", "sign", "change", "cut", "break"
  }

  function LastWord(s: string): (r: string)
    ensures |r| <= |s| && (s != "" && !Blank(s[|s| - 1]) ==> r != "")
  {
    if s == "" || Blank(s[|s| - 1]) then "" else LastWord(s[..|s| - 1]) + [s[|s| - 1]]
  }

  predicate WordPunct(c: char) {
    SentencePunct(c) || c == '\'' || c == '"' || c == '\U{201D}' || c == '\U{2019}'
  }

  function TrimWordPunct(s: string): string {
    if s != "" && WordPunct(s[|s| - 1]) then TrimWordPunct(s[..|s| - 1]) else s
  }

  /** `_SENTENCE_END`: the text before a phrase closes a sentence or a clause. */
  predicate ClosesSentence(prefix: string) {
    prefix != "" && SentencePunct(prefix[|prefix| - 1])
  }

  /** `_is_bare_over_prosign` once the text is known to end in "over" after `prefix`. */
  predicate ProsignAfter(prefix: string) {
    if prefix == "" || ClosesSentence(prefix) then true
    else
      var last := LastWord(prefix);
      var earlier := TrimBlank(Before(prefix, last));
      if last == "and" && LastWord(earlier) == OVER then false
      else TrimWordPunct(last) == "" || TrimWordPunct(last) !in OVER_PHRASAL_PREV
  }

  /** What precedes a terminal phrase, without the separating blanks. */
  function Prefix(norm: string, p: string): string
    requires |p| <= |norm|
  {
    TrimBlank(Before(norm, p))
  }

  /** A phrase of the guarded set must be a prosign or close a sentence. */
  predicate GuardedOk(norm: string, p: string)
    requires EndsWithPhrase(norm, p)
  {
    if p == OVER then norm == p || ProsignAfter(Prefix(norm, p))
    else norm == p || Prefix(norm, p) == "" || ClosesSentence(Prefix(norm, p))
  }

  predicate Admissible(norm: string, p: string, guarded: seq<string>) {
    EndsWithPhrase(norm, p) && (p in guarded ==> GuardedOk(norm, p))
  }

  function Admits(norm: string, guarded: seq<string>): string -> bool {
    p => Admissible(norm, p, guarded)
  }

  function Hit(kind: Kind, norm: string, p: string, raw: string): PhraseHit
    requires |p| <= |norm|
  {
    PhraseHit(kind, p, StripTrailPunct(Prefix(norm, p)), raw)
  }

  /** `find_terminal_phrase` on text already normalized and stripped. */
  function FindIn(core: string, phrases: seq<string>, kind: Kind, guarded: seq<string>,
      raw: string): Option<PhraseHit>
  {
    match First(LongestFirst(Forms(phrases)), Admits(core, Forms(guarded)))
    case None => None
    case Some(p) => Some(Hit(kind, core, p, raw))
  }

  /**
   A hit is the longest admissible phrase of the list, and the text is its body,
   then separators, then the phrase.
   */
  lemma FindIsLongest(text: string, phrases: seq<string>, kind: Kind, guarded: seq<string>, raw: string, p: string)
    requires p in phrases && Admissible(Core(text), Normalize(p), Forms(guarded))
    ensures var r := FindIn(Core(text), phrases, kind, guarded, raw);
            r.Some? && |r.value.phrase| >= |Normalize(p)|
  {
    var admits := Admits(Core(text), Forms(guarded));
    FormsMembers(phrases, Normalize(p));
    LongestFirstSorts(Forms(phrases));
    assert admits(Normalize(p));
    FirstIsLongest(LongestFirst(Forms(phrases)), admits, Normalize(p));
  }

  lemma FindSplits(core: string, phrases: seq<string>, kind: Kind, guarded: seq<string>, raw: string)
    requires Bare(core)
    ensures var r := FindIn(core, phrases, kind, guarded, raw);
            r.Some? ==>
              && r.value.phrase in Forms(phrases) && Admissible(core, r.value.phrase, Forms(guarded))
              && Ends(core, r.value.phrase) && Trails(r.value.body, Before(core, r.value.phrase))
              && Bare(r.value.body) && r.value.kind == kind && r.value.raw == raw
  {
    var r := FindIn(core, phrases, kind, guarded, raw);
    LongestFirstSorts(Forms(phrases));
    if r.Some? {
      var p := r.value.phrase;
      assert Admits(core, Forms(guarded))(p);
      var b := Before(core, p);
      StripOfPrefix(core, TrimBlank(b));
      TrimTrailingBlank(b);
      TrimLeavesTrailing(b);
    }
  }

  lemma {:induction false} TrimLeavesTrailing(s: string)
    ensures Trails(TrimTrailing(s), s)
  {
    if s != "" && Trailing(s[|s| - 1]) {
      TrimLeavesTrailing(s[..|s| - 1]);
      var t := TrimTrailing(s);
      assert s[|t|..] == s[..|s| - 1][|t|..] + [s[|s| - 1]];
    }
  }

  /** No entry among the first `i` is admissible; `seen` holds only such entries. */
  ghost predicate Searched(norm: string, ordered: seq<string>, sf: seq<string>, seen: set<string>, i: nat) {
    && i <= |ordered|
    && First(ordered, Admits(norm, sf)) == First(ordered[i..], Admits(norm, sf))
    && forall p :: p in seen ==> !Admissible(norm, p, sf)
  }

  lemma SearchStart(norm: string, ordered: seq<string>, sf: seq<string>)
    ensures Searched(norm, ordered, sf, {}, 0)
  {
    FirstStart(ordered, Admits(norm, sf));
  }

  lemma SearchStep(norm: string, ordered: seq<string>, sf: seq<string>, seen: set<string>, i: nat)
    requires Searched(norm, ordered, sf, seen, i) && i < |ordered|
    requires ordered[i] in seen || !Admissible(norm, ordered[i], sf)
    ensures Searched(norm, ordered, sf, seen + {ordered[i]}, i + 1)
  {
    FirstStep(ordered, i, Admits(norm, sf));
  }

  lemma SearchHit(text: string, phrases: seq<string>, kind: Kind, guarded: seq<string>, raw: string,
      seen: set<string>, i: nat)
    requires var ordered := LongestFirst(Forms(phrases));
             && Searched(Core(text), ordered, Forms(guarded), seen, i) && i < |ordered|
             && Admissible(Core(text), ordered[i], Forms(guarded))
    ensures var p := LongestFirst(Forms(phrases))[i];
            && |p| <= |Core(text)|
            && FindIn(Core(text), phrases, kind, guarded, raw) == Some(Hit(kind, Core(text), p, raw))
  {
    FirstStep(LongestFirst(Forms(phrases)), i, Admits(Core(text), Forms(guarded)));
  }

  lemma SearchMiss(text: string, phrases: seq<string>, kind: Kind, guarded: seq<string>, raw: string, seen: set<string>)
    requires var ordered := LongestFirst(Forms(phrases));
             Searched(Core(text), ordered, Forms(guarded), seen, |ordered|)
    ensures FindIn(Core(text), phrases, kind, guarded, raw) == None
  {
    FirstStart(LongestFirst(Forms(phrases)), Admits(Core(text), Forms(guarded)));
  }

  /** The loop skips repeats and stops at the first admissible entry. */
  method FindTerminalPhrase(text: string, phrases: seq<string>, kind: Kind, guarded: seq<string>)
    returns (r: Option<PhraseHit>)
    ensures r == FindIn(Core(text), phrases, kind, guarded, text)
  {
    hide *;
    var norm := Core(text);
    var sf := Forms(guarded);
    var ordered := LongestFirst(Forms(phrases));
    var seen: set<string> := {};
    var i := 0;
    SearchStart(norm, ordered, sf);
    while i < |ordered|
      invariant 0 <= i <= |ordered|
      invariant Searched(norm, ordered, sf, seen, i)
    {
      var p := ordered[i];
      if p !in seen && Admissible(norm, p, sf) {
        SearchHit(text, phrases, kind, guarded, text, seen, i);
        return Some(Hit(kind, norm, p, text));
      }
      SearchStep(norm, ordered, sf, seen, i);
      seen := seen + {p};
      i := i + 1;
    }
    SearchMiss(text, phrases, kind, guarded, text, seen);
    r := None;
  }
}
