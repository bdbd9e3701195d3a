/**
 The ASCII part of transcript normalization: fold case and apostrophes, collapse
 whitespace, and trim trailing punctuation.
 */
module SpokenText {
  import opened Wrappers

  predicate Blank(c: char) {
    c == ' ' || '\t' <= c <= '\r' || '\U{1c}' <= c <= '\U{1f}'
  }

  predicate SentencePunct(c: char) {
    c == '.' || c == '!' || c == '?' || c == ',' || c == ';' || c == ':'
  }

  /** What the trailing trim removes. */
  predicate Trailing(c: char) {
    Blank(c) || SentencePunct(c)
  }

  function Fold(c: char): char {
    if c == '`' || c == '\U{2019}' then '\''
    else if 'A' <= c <= 'Z' then (c as int + 32) as char
    else c
  }

  /** Fold, drop leading whitespace, and make every run of whitespace one space. */
  function Squash(s: string): string {
    if s == "" then ""
    else SquashOn(Squash(s[..|s| - 1]), s[|s| - 1])
  }

  function SquashOn(done: string, c: char): string {
    if Blank(Fold(c)) then (if done == "" || done[|done| - 1] == ' ' then done else done + " ")
    else done + [Fold(c)]
  }

  function TrimBlank(s: string): (r: string)
    ensures r <= s && (r != "" ==> !Blank(r[|r| - 1]))
  {
    if s != "" && Blank(s[|s| - 1]) then TrimBlank(s[..|s| - 1]) else s
  }

  function TrimTrailing(s: string): (r: string)
    ensures r <= s && (r != "" ==> !Trailing(r[|r| - 1]))
  {
    if s != "" && Trailing(s[|s| - 1]) then TrimTrailing(s[..|s| - 1]) else s
  }

  function TrimLeading(s: string): (r: string)
    ensures |r| <= |s|
  {
    if s != "" && Blank(s[0]) then TrimLeading(s[1..]) else s
  }

  /** `normalize_for_match`. */
  function Normalize(text: string): string {
    TrimBlank(Squash(text))
  }

  /** `_strip_trail_punct`. */
  function StripTrailPunct(s: string): string {
    TrimLeading(TrimTrailing(s))
  }

  /** Text that squashing leaves alone. */
  predicate Squashed(s: string) {
    && (forall i :: 0 <= i < |s| ==> Fold(s[i]) == s[i] && (Blank(s[i]) ==> s[i] == ' '))
    && (s != "" ==> s[0] != ' ')
    && (forall i :: 0 < i < |s| && s[i] == ' ' ==> s[i - 1] != ' ')
  }

  /** Text that normalization leaves alone. */
  predicate Normal(s: string) {
    Squashed(s) && (s != "" ==> s[|s| - 1] != ' ')
  }

  lemma {:induction false} SquashIsSquashed(s: string)
    ensures Squashed(Squash(s))
  {
    if s != "" {
      SquashIsSquashed(s[..|s| - 1]);
    }
  }

  lemma {:induction false} SquashedIsFixed(s: string)
    requires Squashed(s)
    ensures Squash(s) == s
  {
    if s != "" {
      SquashedIsFixed(s[..|s| - 1]);
      assert s == s[..|s| - 1] + [s[|s| - 1]];
    }
  }

  lemma SquashedPrefix(s: string, r: string)
    requires Squashed(s) && r <= s
    ensures Squashed(r)
  {
  }

  lemma NormalizeIsNormal(text: string)
    ensures Normal(Normalize(text))
  {
    SquashIsSquashed(text);
    SquashedPrefix(Squash(text), Normalize(text));
  }

  lemma NormalIsFixed(s: string)
    requires Normal(s)
    ensures Normalize(s) == s
  {
    SquashedIsFixed(s);
    assert s != "" ==> !Blank(s[|s| - 1]);
  }

  /** Squashing continues where it left off, from the start of any word. */
  lemma {:induction false} SquashAppend(s: string, t: string)
    requires t != "" ==> !Blank(t[0])
    ensures Squash(s + t) == Squash(s) + Squash(t)
    ensures t != "" ==> Squash(t) != "" && Squash(t)[0] == Fold(t[0])
  {
    if t == "" {
      assert s + t == s;
    } else {
      var n := |t| - 1;
      assert (s + t)[..|s + t| - 1] == s + t[..n];
      SquashAppend(s, t[..n]);
    }
  }

  predicate AllTrailing(s: string) {
    forall i :: 0 <= i < |s| ==> Trailing(s[i])
  }

  /** `b` is `a` followed by trailing material. */
  predicate Trails(a: string, b: string) {
    a <= b && AllTrailing(b[|a|..])
  }

  lemma {:induction false} TrailsTrimSame(a: string, b: string)
    requires Trails(a, b)
    ensures TrimTrailing(b) == TrimTrailing(a)
    decreases |b|
  {
    if |b| > |a| {
      assert b[|a|..][|b| - |a| - 1] == b[|b| - 1];
      assert b[..|b| - 1][|a|..] == b[|a|..][..|b| - |a| - 1];
      assert AllTrailing(b[..|b| - 1][|a|..]);
      assert a <= b[..|b| - 1];
      TrailsTrimSame(a, b[..|b| - 1]);
    } else {
      assert a == b;
    }
  }

  lemma TrailsOneMore(a: string, b: string, c: char)
    requires Trails(a, b) && Trailing(c)
    ensures Trails(a, SquashOn(b, c))
    ensures b != "" ==> Trailing(SquashOn(b, c)[|SquashOn(b, c)| - 1])
  {
    var d := SquashOn(b, c);
    if d != b {
      assert d[|a|..] == b[|a|..] + [d[|b|]];
    }
  }

  /** Trailing material squashes to trailing material. */
  lemma {:induction false} SquashAppendTrailing(s: string, tail: string)
    requires AllTrailing(tail)
    ensures Trails(Squash(s), Squash(s + tail))
    ensures tail != "" && Squash(s) != "" ==> Trailing(Squash(s + tail)[|Squash(s + tail)| - 1])
  {
    if tail == "" {
      assert s + tail == s;
    } else {
      var n := |tail| - 1;
      assert (s + tail)[..|s + tail| - 1] == s + tail[..n];
      SquashAppendTrailing(s, tail[..n]);
      TrailsOneMore(Squash(s), Squash(s + tail[..n]), tail[n]);
    }
  }

  lemma {:induction false} TrimTrailingBlank(s: string)
    ensures TrimTrailing(TrimBlank(s)) == TrimTrailing(s)
  {
    if s != "" && Blank(s[|s| - 1]) {
      TrimTrailingBlank(s[..|s| - 1]);
    }
  }

  /** On normalized text the trailing strip only trims, and leaves normalized text. */
  lemma StripOfPrefix(s: string, r: string)
    requires Squashed(s) && r <= s
    ensures StripTrailPunct(r) == TrimTrailing(r) && Normal(StripTrailPunct(r))
  {
    var t := TrimTrailing(r);
    SquashedPrefix(s, t);
    if t != "" {
      assert !Blank(t[0]);
      assert Blank(' ');
    }
  }

  /** The text both matchers look at. */
  function Core(text: string): string {
    StripTrailPunct(Normalize(text))
  }

  lemma CoreIs(text: string)
    ensures Core(text) == TrimTrailing(Squash(text))
    ensures Normal(Core(text)) && Core(Core(text)) == Core(text)
    ensures Core(text) <= Normalize(text)
  {
    NormalizeIsNormal(text);
    StripOfPrefix(Normalize(text), Normalize(text));
    TrimTrailingBlank(Squash(text));
    NormalIsFixed(Core(text));
    StripOfPrefix(Core(text), Core(text));
  }

  // ---------------------------------------------------------------- spelling does not matter

  /** The same letter in either case, or one of the three apostrophes. */
  predicate SameLetter(a: char, b: char) {
    || a == b
    || ('A' <= a <= 'Z' && 'a' <= b <= 'z' && b as int - 'a' as int == a as int - 'A' as int)
    || ('A' <= b <= 'Z' && 'a' <= a <= 'z' && a as int - 'a' as int == b as int - 'A' as int)
    || (a in {'\'', '`', '\U{2019}'} && b in {'\'', '`', '\U{2019}'})
  }

  /** Letter by letter the same text, whatever the case of its letters and the form of its apostrophes. */
  predicate SameSpelling(s: string, t: string) {
    |s| == |t| && forall i :: 0 <= i < |s| ==> SameLetter(s[i], t[i])
  }

  lemma SameLetterFolds(a: char, b: char)
    requires SameLetter(a, b)
    ensures Fold(a) == Fold(b)
  {
  }

  lemma {:induction false} SquashIgnoresCase(s: string, t: string)
    requires SameSpelling(s, t)
    ensures Squash(s) == Squash(t)
  {
    if s != "" {
      SquashIgnoresCase(s[..|s| - 1], t[..|t| - 1]);
      SameLetterFolds(s[|s| - 1], t[|t| - 1]);
    }
  }

  /** Whatever case it is spoken in, a text is matched as the same text. */
  lemma CoreIgnoresCase(s: string, t: string)
    requires SameSpelling(s, t)
    ensures Normalize(s) == Normalize(t) && Core(s) == Core(t)
  {
    SquashIgnoresCase(s, t);
  }

  predicate AllBlank(s: string) {
    forall i :: 0 <= i < |s| ==> Blank(s[i])
  }

  lemma {:induction false} SquashGap(s: string, gap: string)
    requires AllBlank(gap) && gap != ""
    ensures Squash(s + gap) == if Squash(s) == "" || Squash(s)[|Squash(s)| - 1] == ' ' then Squash(s) else Squash(s) + " "
  {
    var n := |gap| - 1;
    assert (s + gap)[..|s + gap| - 1] == s + gap[..n];
    if n > 0 {
      SquashGap(s, gap[..n]);
    } else {
      assert s + gap[..n] == s;
    }
  }

  lemma SquashLeadsTo(before: string, s: string)
    requires AllBlank(before) && s != "" && !Blank(s[0])
    ensures Squash(before + s) == Squash(s)
  {
    SquashLeads(before);
    SquashAppend(before, s);
  }

  lemma SquashBetween(x: string, s: string, gap: string, t: string)
    requires Squash(x) == Squash(s) && AllBlank(gap) && gap != "" && t != "" && !Blank(t[0])
    ensures Squash(x + gap + t) == Squash(s + " " + t)
  {
    SquashGap(x, gap);
    SquashGap(s, " ");
    SquashAppend(x + gap, t);
    SquashAppend(s + " ", t);
  }

  lemma TrailingGap(x: string, after: string)
    requires AllBlank(after)
    ensures Normalize(x + after) == Normalize(x)
  {
    if after == "" {
      assert x + after == x;
    } else {
      SquashGap(x, after);
      TrimOneBlank(Squash(x));
    }
  }

  /** Any whitespace between two words is one space, and whitespace around the text is none. */
  lemma GapsDoNotMatter(before: string, s: string, gap: string, t: string, after: string)
    requires AllBlank(before) && AllBlank(gap) && AllBlank(after) && gap != ""
    requires s != "" && !Blank(s[0]) && t != "" && !Blank(t[0])
    ensures Normalize(before + s + gap + t + after) == Normalize(s + " " + t)
  {
    hide Squash, Blank, AllBlank;
    SquashLeadsTo(before, s);
    SquashBetween(before + s, s, gap, t);
    TrailingGap(before + s + gap + t, after);
  }

  lemma TrimOneBlank(s: string)
    ensures TrimBlank(s + " ") == TrimBlank(s)
  {
    assert (s + " ")[..|s + " "| - 1] == s;
  }

  lemma SquashLeads(before: string)
    requires AllBlank(before)
    ensures Squash(before) == ""
  {
    if before != "" {
      assert "" + before == before;
      SquashGap("", before);
    }
  }
}
