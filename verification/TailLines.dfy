/**
 The backward block reader: read fixed-size blocks from the end of a file until
 the buffer holds more than `n` newlines, then keep the buffer's last `n` lines.
 */
module TailLines {
  import opened Wrappers

  newtype byte = x: int | 0 <= x < 256

  type Bytes = seq<byte>

  const LF: byte := 10
  const CR: byte := 13

  function Newlines(s: Bytes): nat {
    if s == [] then 0 else (if s[0] == LF then 1 else 0) + Newlines(s[1..])
  }

  /** Where the first line break is, or the end. */
  function FirstBreak(s: Bytes): (k: nat)
    ensures k <= |s|
    ensures forall i :: 0 <= i < k ==> s[i] != LF && s[i] != CR
    ensures k < |s| ==> s[k] == LF || s[k] == CR
  {
    if s == [] || s[0] == LF || s[0] == CR then 0 else 1 + FirstBreak(s[1..])
  }

  /** How long the line break at `k` is: CR LF is one break. */
  function BreakLength(s: Bytes, k: nat): (n: nat)
    requires k < |s|
    ensures 1 <= n <= 2 && k + n <= |s|
  {
    if s[k] == CR && k + 1 < |s| && s[k + 1] == LF then 2 else 1
  }

  /** What follows the first line and its break. */
  function AfterBreak(s: Bytes): (rest: Bytes)
    requires FirstBreak(s) < |s|
    ensures |rest| < |s|
  {
    var k := FirstBreak(s);
    s[k + BreakLength(s, k)..]
  }

  /** `bytes.splitlines`: lines without their breaks, and no empty line at the end. */
  function SplitLines(s: Bytes): seq<Bytes>
    decreases |s|
  {
    if s == [] then []
    else if FirstBreak(s) == |s| then [s]
    else [s[..FirstBreak(s)]] + SplitLines(AfterBreak(s))
  }

  function LastN<T>(s: seq<T>, n: nat): seq<T> {
    if |s| <= n then s else s[|s| - n..]
  }

  lemma {:induction false} NewlinesFrom(s: Bytes, k: nat)
    requires k <= |s| && forall i :: 0 <= i < k ==> s[i] != LF
    ensures Newlines(s) == Newlines(s[k..])
  {
    if k > 0 {
      NewlinesFrom(s[1..], k - 1);
      assert s[1..][k - 1..] == s[k..];
    } else {
      assert s[0..] == s;
    }
  }

  lemma NewlinesNone(s: Bytes)
    requires FirstBreak(s) == |s|
    ensures Newlines(s) == 0
  {
    NewlinesFrom(s, |s|);
    assert s[|s|..] == [];
  }

  lemma NewlinesHead(s: Bytes, k: nat)
    requires k < |s|
    ensures Newlines(s[k..]) == (if s[k] == LF then 1 else 0) + Newlines(s[k + 1..])
  {
    assert s[k..][1..] == s[k + 1..];
  }

  /** The first line and its break hold at most one newline. */
  lemma NewlinesAfterBreak(s: Bytes)
    requires FirstBreak(s) < |s|
    ensures Newlines(s) <= 1 + Newlines(AfterBreak(s))
  {
    hide Newlines, FirstBreak;
    var k := FirstBreak(s);
    NewlinesFrom(s, k);
    NewlinesHead(s, k);
    if BreakLength(s, k) == 2 {
      NewlinesHead(s, k + 1);
    }
  }

  /** Each newline ends a line. */
  lemma {:induction false} NewlinesBoundLines(s: Bytes)
    ensures Newlines(s) <= |SplitLines(s)|
    decreases |s|
  {
    if FirstBreak(s) == |s| {
      NewlinesNone(s);
    } else {
      NewlinesAfterBreak(s);
      NewlinesBoundLines(AfterBreak(s));
    }
  }

  lemma {:induction false} FirstBreakIs(s: Bytes, k: nat)
    requires k <= |s| && forall i :: 0 <= i < k ==> s[i] != LF && s[i] != CR
    requires k < |s| ==> s[k] == LF || s[k] == CR
    ensures FirstBreak(s) == k
  {
  }

  ghost predicate EndsWith<T>(s: seq<T>, rest: seq<T>) {
    |rest| <= |s| && s[|s| - |rest|..] == rest
  }

  lemma EndsWithOneMore<T>(x: T, s: seq<T>, rest: seq<T>)
    requires EndsWith(s, rest)
    ensures EndsWith([x] + s, rest)
  {
  }

  /** The first break of the file is in the buffer: it is the buffer's first break. */
  lemma BreakInBuffer(p: Bytes, s: Bytes)
    requires FirstBreak(s) < |s| && FirstBreak(p + s) >= |p|
    ensures FirstBreak(p + s) < |p + s| && AfterBreak(p + s) == AfterBreak(s)
  {
    var f, k := p + s, FirstBreak(s);
    assert f[|p| + k] == s[k];
    assert forall i :: 0 <= i < k ==> f[|p| + i] == s[i];
    FirstBreakIs(f, |p| + k) by {
      forall i | 0 <= i < |p| + k ensures f[i] != LF && f[i] != CR {
        if i >= |p| {
          assert f[i] == s[i - |p|];
        }
      }
    }
    assert k + 1 < |s| ==> f[|p| + k + 1] == s[k + 1];
    var n := BreakLength(s, k);
    assert BreakLength(f, |p| + k) == n && f[|p| + k + n..] == s[k + n..];
  }

  /** The first break of the file is before the buffer, or splits with it. */
  lemma BreakBeforeBuffer(p: Bytes, s: Bytes)
    requires s != [] && FirstBreak(p + s) < |p|
    ensures var j := FirstBreak(p + s);
            && (j + BreakLength(p + s, j) <= |p| ==> AfterBreak(p + s) == p[j + BreakLength(p + s, j)..] + s)
            && (j + BreakLength(p + s, j) > |p| ==> FirstBreak(s) == 0 && BreakLength(s, 0) == 1 && AfterBreak(p + s) == AfterBreak(s))
  {
    var f := p + s;
    var j := FirstBreak(f);
    var m := j + BreakLength(f, j);
    if m > |p| {
      assert f[|p|] == s[0];
      FirstBreakIs(s, 0);
      assert f[m..] == s[1..];
    } else {
      assert f[m..] == p[m..] + s;
    }
  }

  /**
   The lines after the first break of the buffer are lines of the whole file:
   whatever precedes the buffer only changes what comes before them, even when
   it ends inside a line or between a CR and its LF.
   */
  lemma {:induction false} SharedLines(p: Bytes, s: Bytes)
    requires FirstBreak(s) < |s|
    ensures EndsWith(SplitLines(p + s), SplitLines(AfterBreak(s)))
    decreases |p|
  {
    var f := p + s;
    var j := FirstBreak(f);
    if j >= |p| {
      BreakInBuffer(p, s);
    } else {
      BreakBeforeBuffer(p, s);
      var m := j + BreakLength(f, j);
      if m <= |p| {
        SharedLines(p[m..], s);
      }
    }
    assert SplitLines(f) == [f[..FirstBreak(f)]] + SplitLines(AfterBreak(f));
    EndsWithOneMore(f[..FirstBreak(f)], SplitLines(AfterBreak(f)), SplitLines(AfterBreak(s)));
  }

  /** A buffer with more than `n` newlines has the file's last `n` lines. */
  lemma SuffixTail(p: Bytes, s: Bytes, n: nat)
    requires Newlines(s) > n
    ensures LastN(SplitLines(s), n) == LastN(SplitLines(p + s), n)
  {
    if FirstBreak(s) == |s| {
      NewlinesNone(s);
    }
    SharedLines(p, s);
    SharedLines([], s);
    assert [] + s == s;
    NewlinesAfterBreak(s);
    NewlinesBoundLines(AfterBreak(s));
    LastOfSuffix(SplitLines(s), SplitLines(AfterBreak(s)), n);
    LastOfSuffix(SplitLines(p + s), SplitLines(AfterBreak(s)), n);
  }

  lemma LastOfSuffix<T>(s: seq<T>, rest: seq<T>, n: nat)
    requires n <= |rest| && EndsWith(s, rest)
    ensures LastN(s, n) == LastN(rest, n)
  {
    assert s == s[..|s| - |rest|] + rest;
  }

  /**
   The last `n` lines of a file, read backwards in blocks. `blockSize` is 8192 in
   the program; any positive size gives the same lines.
   */
  method Tail(file: Bytes, n: int, blockSize: nat) returns (lines: seq<Bytes>)
    requires blockSize > 0
    ensures lines == if n <= 0 then [] else LastN(SplitLines(file), n)
  {
    if n <= 0 {
      return [];
    }
    var size, data := |file|, [];
    while size > 0 && Newlines(data) <= n
      invariant 0 <= size <= |file| && data == file[size..]
    {
      var step := if blockSize < size then blockSize else size;
      size := size - step;
      data := file[size..size + step] + data;
    }
    lines := LastN(SplitLines(data), n);
    if size > 0 {
      SuffixTail(file[..size], data, n);
      assert file == file[..size] + data;
    }
  }

  predicate Unbroken(line: Bytes) {
    forall i :: 0 <= i < |line| ==> line[i] != LF && line[i] != CR
  }

  /**
   What lines are: a text without breaks is one line, unless it is empty, and a line in front
   of a break, LF or CR or CR LF together, comes before the lines behind it.
   */
  lemma LineThenBreak(line: Bytes, br: Bytes, rest: Bytes)
    requires Unbroken(line)
    requires br == [LF] || br == [CR, LF] || (br == [CR] && (rest == [] || rest[0] != LF))
    ensures SplitLines(line + br + rest) == [line] + SplitLines(rest)
    ensures SplitLines(line) == if line == [] then [] else [line]
  {
    var s := line + br + rest;
    FirstBreakIs(s, |line|);
    FirstBreakIs(line, |line|);
    assert s[|line|] == br[0];
    assert BreakLength(s, |line|) == |br|;
    assert s[|line| + |br|..] == rest && s[..|line|] == line;
  }
}
