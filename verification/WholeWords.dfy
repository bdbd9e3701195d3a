/** Text as words: joining them, and finding phrases among them. */
module WholeWords {
  import opened Wrappers

  type Word = string

  /** A word of match-ready text: something, without spaces. */
  predicate IsWord(w: Word) {
    w != "" && ' ' !in w
  }

  predicate AreWords(ws: seq<Word>) {
    forall i :: 0 <= i < |ws| ==> IsWord(ws[i])
  }

  /** Words joined by single spaces. */
  function Join(ws: seq<Word>): string {
    if ws == [] then ""
    else if |ws| == 1 then ws[0]
    else ws[0] + " " + Join(ws[1..])
  }

  function Padded(text: string): string {
    " " + text + " "
  }

  predicate FoundAt<T(==)>(s: seq<T>, part: seq<T>, i: nat) {
    i + |part| <= |s| && s[i..i + |part|] == part
  }

  predicate Contains(hay: string, needle: string) {
    exists i: nat :: i <= |hay| && FoundAt(hay, needle, i)
  }

  /** `ps` occurs in `ws` as consecutive words. */
  predicate Sublist(ws: seq<Word>, ps: seq<Word>) {
    exists i: nat :: i <= |ws| && FoundAt(ws, ps, i)
  }

  // ---------------------------------------------------------------- padded search is word search

  /** Every word followed by a space. */
  function Spaced(ws: seq<Word>): string {
    if ws == [] then "" else ws[0] + " " + Spaced(ws[1..])
  }

  lemma {:induction false} JoinSpaced(ws: seq<Word>)
    requires ws != []
    ensures Join(ws) + " " == Spaced(ws)
  {
    if |ws| == 1 {
      assert Spaced(ws[1..]) == "";
    } else {
      JoinSpaced(ws[1..]);
      assert Join(ws) + " " == ws[0] + " " + (Join(ws[1..]) + " ");
    }
  }

  lemma {:induction false} SpacedAppend(a: seq<Word>, b: seq<Word>)
    ensures Spaced(a + b) == Spaced(a) + Spaced(b)
  {
    if a == [] {
      assert a + b == b;
    } else {
      SpacedAppend(a[1..], b);
      assert (a + b)[1..] == a[1..] + b;
    }
  }

  lemma NoSpaceIn(w: Word)
    requires IsWord(w)
    ensures forall i :: 0 <= i < |w| ==> w[i] != ' '
  {
    assert forall i :: 0 <= i < |w| ==> w[i] in w;
  }

  /** Words up to their space are determined by the text. */
  lemma FirstWord(w: Word, rest: string, v: Word, more: string)
    requires IsWord(w) && IsWord(v) && v + " " + more <= w + " " + rest
    ensures v == w && more <= rest
  {
    var a, b := w + " " + rest, v + " " + more;
    NoSpaceIn(w);
    NoSpaceIn(v);
    assert a[|w|] == ' ' && b[|v|] == ' ' && a[|v|] == b[|v|];
    assert v == b[..|v|] && w == a[..|w|];
    assert more == b[|v| + 1..] && rest == a[|w| + 1..];
  }

  lemma {:induction false} SpacedPrefix(ws: seq<Word>, ps: seq<Word>)
    requires AreWords(ws) && AreWords(ps) && Spaced(ps) <= Spaced(ws)
    ensures ps <= ws
  {
    if ps != [] {
      assert ws != [];
      FirstWord(ws[0], Spaced(ws[1..]), ps[0], Spaced(ps[1..]));
      SpacedPrefix(ws[1..], ps[1..]);
      assert ws == [ws[0]] + ws[1..] && ps == [ps[0]] + ps[1..];
    }
  }

  lemma SliceAfter<T>(x: seq<T>, r: seq<T>, i: nat, n: nat)
    requires |x| <= i && i + n <= |x| + |r|
    ensures (x + r)[i..i + n] == r[i - |x|..i - |x| + n]
  {
  }

  lemma SliceMiddle<T>(x: seq<T>, y: seq<T>, z: seq<T>)
    ensures FoundAt(x + y + z, y, |x|)
  {
  }

  lemma PadPrefix(a: string, b: string)
    requires FoundAt(" " + a, " " + b, 0)
    ensures b <= a
  {
    assert b == (" " + b)[1..] == (" " + a)[..1 + |b|][1..] == a[..|b|];
  }

  /** A space at `i` in `w + rest` after a pad lies beyond the word. */
  lemma BeyondWord(w: Word, rest: string, i: nat)
    requires IsWord(w) && 0 < i < 1 + |w| + |rest| && (" " + w + rest)[i] == ' '
    ensures i >= 1 + |w|
  {
    NoSpaceIn(w);
    assert forall j :: 1 <= j <= |w| ==> (" " + w + rest)[j] == w[j - 1];
  }

  lemma SpacedFirst(ws: seq<Word>)
    requires ws != []
    ensures " " + Spaced(ws) == (" " + ws[0]) + (" " + Spaced(ws[1..]))
  {
  }

  lemma FoundThere(hay: string, needle: string, i: nat)
    requires FoundAt(hay, " " + needle, i)
    ensures i < |hay| && hay[i] == ' '
  {
    assert hay[i..i + |" " + needle|][0] == (" " + needle)[0];
  }

  /** A padded phrase found after the start is found after the first word. */
  lemma SkipWord(ws: seq<Word>, ps: seq<Word>, i: nat)
    requires AreWords(ws) && ws != [] && i > 0 && FoundAt(" " + Spaced(ws), " " + Spaced(ps), i)
    ensures i >= 1 + |ws[0]| && FoundAt(" " + Spaced(ws[1..]), " " + Spaced(ps), i - 1 - |ws[0]|)
  {
    hide Spaced;
    SpacedFirst(ws);
    FoundThere(" " + Spaced(ws), Spaced(ps), i);
    BeyondWord(ws[0], " " + Spaced(ws[1..]), i);
    SliceAfter(" " + ws[0], " " + Spaced(ws[1..]), i, 1 + |Spaced(ps)|);
  }

  lemma WordsLeft(ws: seq<Word>)
    requires AreWords(ws) && ws != []
    ensures AreWords(ws[1..])
  {
  }

  lemma PrefixFound(ws: seq<Word>, ps: seq<Word>)
    requires ps <= ws
    ensures FoundAt(ws, ps, 0) && Spaced(ws[..0]) == ""
  {
  }

  /** A padded phrase found at offset `i` of the padded words starts at a word. */
  lemma {:induction false} FoundAtWord(ws: seq<Word>, ps: seq<Word>, i: nat) returns (k: nat)
    requires AreWords(ws) && AreWords(ps) && ps != []
    requires FoundAt(" " + Spaced(ws), " " + Spaced(ps), i)
    ensures FoundAt(ws, ps, k) && |Spaced(ws[..k])| == i
  {
    hide *;
    if i == 0 {
      PadPrefix(Spaced(ws), Spaced(ps));
      SpacedPrefix(ws, ps);
      PrefixFound(ws, ps);
      k := 0;
    } else {
      PaddedHasWord(ws, ps, i);
      SkipWord(ws, ps, i);
      WordsLeft(ws);
      k := FoundAtWord(ws[1..], ps, i - 1 - |ws[0]|);
      WordFurther(ws, ps, k);
      k := k + 1;
    }
  }

  lemma WordFurther(ws: seq<Word>, ps: seq<Word>, k: nat)
    requires ws != [] && FoundAt(ws[1..], ps, k)
    ensures FoundAt(ws, ps, k + 1) && Spaced(ws[..k + 1]) == ws[0] + " " + Spaced(ws[1..][..k])
  {
    assert ws == [ws[0]] + ws[1..];
    SliceAfter([ws[0]], ws[1..], k + 1, |ps|);
    assert ws[..k + 1][1..] == ws[1..][..k];
  }

  lemma PaddedHasWord(ws: seq<Word>, ps: seq<Word>, i: nat)
    requires ps != [] && i > 0 && FoundAt(" " + Spaced(ws), " " + Spaced(ps), i)
    ensures ws != []
  {
  }

  lemma SplitAt(ws: seq<Word>, ps: seq<Word>, k: nat)
    requires FoundAt(ws, ps, k)
    ensures Spaced(ws) == Spaced(ws[..k]) + Spaced(ps) + Spaced(ws[k + |ps|..])
  {
    var a, b := ws[..k], ws[k + |ps|..];
    assert ws == a + (ps + b);
    SpacedAppend(a, ps + b);
    SpacedAppend(ps, b);
    assert Spaced(a) + (Spaced(ps) + Spaced(b)) == Spaced(a) + Spaced(ps) + Spaced(b);
  }

  lemma PadBefore(a: string, p: string, b: string)
    requires a != "" ==> a[|a| - 1] == ' '
    ensures Contains(" " + (a + p + b), " " + p)
  {
    var lead := " " + a;
    var pre := lead[..|lead| - 1];
    assert lead == pre + " ";
    assert " " + (a + p + b) == pre + (" " + p) + b by {
      assert " " + (a + p + b) == lead + p + b;
      assert pre + (" " + p) + b == pre + " " + p + b;
    }
    SliceMiddle(pre, " " + p, b);
  }

  lemma SublistIsFound(ws: seq<Word>, ps: seq<Word>, k: nat)
    requires FoundAt(ws, ps, k)
    ensures Contains(" " + Spaced(ws), " " + Spaced(ps))
  {
    SplitAt(ws, ps, k);
    SpacedEnds(ws[..k]);
    PadBefore(Spaced(ws[..k]), Spaced(ps), Spaced(ws[k + |ps|..]));
  }

  lemma {:induction false} SpacedEnds(ws: seq<Word>)
    ensures ws != [] ==> Spaced(ws) != "" && Spaced(ws)[|Spaced(ws)| - 1] == ' '
  {
    if |ws| > 1 {
      SpacedEnds(ws[1..]);
    }
  }

  /** `_contains_whole_phrase`: padded substring search is exactly search for consecutive words. */
  lemma PaddedSearchIsWordSearch(ws: seq<Word>, ps: seq<Word>)
    requires AreWords(ws) && AreWords(ps) && ws != [] && ps != []
    ensures Contains(Padded(Join(ws)), Padded(Join(ps))) <==> Sublist(ws, ps)
  {
    JoinSpaced(ws);
    JoinSpaced(ps);
    assert Padded(Join(ws)) == " " + Spaced(ws) && Padded(Join(ps)) == " " + Spaced(ps);
    if Contains(Padded(Join(ws)), Padded(Join(ps))) {
      var i: nat :| i <= |Padded(Join(ws))| && FoundAt(Padded(Join(ws)), Padded(Join(ps)), i);
      var k := FoundAtWord(ws, ps, i);
    }
    if Sublist(ws, ps) {
      var k: nat :| k <= |ws| && FoundAt(ws, ps, k);
      SublistIsFound(ws, ps, k);
    }
  }

  /** Joining words loses nothing. */
  lemma JoinIsInjective(ws: seq<Word>, vs: seq<Word>)
    requires AreWords(ws) && AreWords(vs) && Join(ws) == Join(vs)
    ensures ws == vs
  {
    if ws != [] && vs != [] {
      JoinSpaced(ws);
      JoinSpaced(vs);
      SpacedPrefix(ws, vs);
      SpacedPrefix(vs, ws);
    } else if ws != [] {
      JoinSpaced(ws);
      SpacedLength(ws);
    } else if vs != [] {
      JoinSpaced(vs);
      SpacedLength(vs);
    }
  }

  lemma SpacedLength(ws: seq<Word>)
    requires AreWords(ws) && ws != []
    ensures |Spaced(ws)| >= 2
  {
  }

  lemma PrefixOfLonger(p: string, t: string)
    requires p <= t
    ensures p <= t + " " && |p| < |t + " "|
  {
  }

  lemma PrefixOfShorter(x: string, y: string, t: string)
    requires t + " " == x + y && y != ""
    ensures x <= t
  {
    assert t == (t + " ")[..|t|] && x == (x + y)[..|x|];
  }

  lemma StartsThere(ws: seq<Word>, ps: seq<Word>)
    requires AreWords(ws) && AreWords(ps) && ws != [] && ps != [] && Join(ps) + " " <= Join(ws)
    ensures ps < ws
  {
    JoinSpaced(ws);
    JoinSpaced(ps);
    PrefixOfLonger(Spaced(ps), Join(ws));
    SpacedPrefix(ws, ps);
    assert |ps| == |ws| ==> ps == ws;
  }

  lemma ThenItStarts(ws: seq<Word>, ps: seq<Word>)
    requires AreWords(ws) && ps != [] && ps < ws
    ensures Join(ps) + " " <= Join(ws)
  {
    var rest := ws[|ps|..];
    JoinSpaced(ws);
    JoinSpaced(ps);
    SpacedAppend(ps, rest);
    assert ws == ps + rest;
    SpacedLength(rest);
    PrefixOfShorter(Spaced(ps), Spaced(rest), Join(ws));
  }

  /** A text starts with a phrase and a space exactly when its words go on after the phrase's. */
  lemma StartIsWords(ws: seq<Word>, ps: seq<Word>)
    requires AreWords(ws) && AreWords(ps) && ws != [] && ps != []
    ensures Join(ps) + " " <= Join(ws) <==> ps < ws
  {
    if Join(ps) + " " <= Join(ws) {
      StartsThere(ws, ps);
    }
    if ps < ws {
      ThenItStarts(ws, ps);
    }
  }

  lemma NothingAfter(ws: seq<Word>, ps: seq<Word>, k: nat)
    requires AreWords(ws) && FoundAt(ws, ps, k) && |Spaced(ws[..k])| + |Spaced(ps)| == |Spaced(ws)|
    ensures k + |ps| == |ws|
  {
    SplitAt(ws, ps, k);
    var rest := ws[k + |ps|..];
    assert |Spaced(rest)| == 0;
    if rest != [] {
      SpacedLength(rest);
    }
  }

  lemma JoinLength(ws: seq<Word>)
    requires ws != []
    ensures |Spaced(ws)| == |Join(ws)| + 1 && Spaced(ws) == Join(ws) + " "
  {
    JoinSpaced(ws);
  }

  lemma EndsThere(ws: seq<Word>, ps: seq<Word>)
    requires AreWords(ws) && AreWords(ps) && ws != [] && ps != [] && EndsWith(Join(ws), " " + Join(ps))
    ensures |ps| < |ws| && ws[|ws| - |ps|..] == ps
  {
    JoinLength(ws);
    JoinLength(ps);
    EndFound(Join(ws), Join(ps));
    var k := FoundAtWord(ws, ps, |Join(ws)| - |Join(ps)|);
    NothingAfter(ws, ps, k);
    NoneBefore(ws, k);
    FoundAtEnd(ws, ps, k);
  }

  lemma NoneBefore(ws: seq<Word>, k: nat)
    requires k <= |ws|
    ensures Spaced(ws[..k]) != "" ==> k > 0
  {
  }

  lemma FoundAtEnd(ws: seq<Word>, ps: seq<Word>, k: nat)
    requires FoundAt(ws, ps, k) && k + |ps| == |ws|
    ensures ws[|ws| - |ps|..] == ps
  {
  }

  lemma ThenItEnds(ws: seq<Word>, ps: seq<Word>)
    requires AreWords(ws) && ps != [] && |ps| < |ws| && ws[|ws| - |ps|..] == ps
    ensures EndsWith(Join(ws), " " + Join(ps))
  {
    hide *;
    var a := ws[..|ws| - |ps|];
    JoinSpaced(ws);
    JoinSpaced(ps);
    SpacedAppend(a, ps);
    assert ws == a + ps;
    SpacedEnds(a);
    EndShows(Spaced(a), Join(ws), Join(ps));
  }

  /** A text ends with a space and a phrase exactly when its words go on before the phrase's. */
  lemma EndIsWords(ws: seq<Word>, ps: seq<Word>)
    requires AreWords(ws) && AreWords(ps) && ws != [] && ps != []
    ensures EndsWith(Join(ws), " " + Join(ps)) <==> |ps| < |ws| && ws[|ws| - |ps|..] == ps
  {
    if EndsWith(Join(ws), " " + Join(ps)) {
      EndsThere(ws, ps);
    }
    if |ps| < |ws| && ws[|ws| - |ps|..] == ps {
      ThenItEnds(ws, ps);
    }
  }

  predicate EndsWith(text: string, suffix: string) {
    |suffix| <= |text| && text[|text| - |suffix|..] == suffix
  }

  lemma EndFound(t: string, p: string)
    requires EndsWith(t, " " + p)
    ensures |p| < |t| && FoundAt(" " + (t + " "), " " + (p + " "), |t| - |p|)
  {
    var pre := t[..|t| - |p| - 1];
    assert t == pre + (" " + p);
    assert " " + (t + " ") == (" " + pre) + (" " + (p + " ")) + "";
    SliceMiddle(" " + pre, " " + (p + " "), "");
  }

  lemma EndShows(a: string, t: string, p: string)
    requires a != "" && a[|a| - 1] == ' ' && t + " " == a + (p + " ")
    ensures EndsWith(t, " " + p)
  {
    assert t == (t + " ")[..|t|] == a + p;
    assert t[|t| - |p| - 1..] == [a[|a| - 1]] + p;
  }
}
