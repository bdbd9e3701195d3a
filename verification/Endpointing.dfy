/**
 The silence endpointer: when a capture ends, with or without a smarter turn
 strategy, and what the block loop does with it.
 */
module Endpointing {
  import opened Wrappers

  /** What the strategy does when it is consulted. */
  datatype Verdict = Complete | Incomplete | Undecided | Raises

  datatype Config = Config(endBlocks: nat, minSpeech: nat, probeBlocks: nat, maxBlocks: nat, strategy: bool)

  /** The three fields that change during a capture. */
  datatype State = State(failed: bool, probed: bool, verdict: Option<bool>)

  const START := State(false, false, None)

  function Truncate(x: real): int {
    if x < 0.0 then -((-x).Floor) else x.Floor
  }

  function Blocks(seconds: real, blockSeconds: real): nat
    requires blockSeconds > 0.0
  {
    var n := Truncate(seconds / blockSeconds);
    if n < 1 then 1 else n
  }

  lemma BlocksMonotone(a: real, b: real, blockSeconds: real)
    requires blockSeconds > 0.0 && a <= b
    ensures Blocks(a, blockSeconds) <= Blocks(b, blockSeconds)
  {
    Quotient(a, b, blockSeconds);
    var x, y := a / blockSeconds, b / blockSeconds;
    assert x.Floor <= y.Floor;
  }

  lemma Quotient(a: real, b: real, c: real)
    requires c > 0.0 && a <= b
    ensures a / c <= b / c
  {
    var x, y := a / c, b / c;
    assert x * c == a && y * c == b;
    assert x > y ==> (x - y) * c > 0.0;
  }

  /** A duration in whole blocks, rounded down, and at least one. */
  lemma BlocksIs(seconds: real, blockSeconds: real)
    requires blockSeconds > 0.0
    ensures var n := Blocks(seconds, blockSeconds);
            && n >= 1 && seconds < (n + 1) as real * blockSeconds
            && (n as real * blockSeconds <= seconds || n == 1)
  {
    var n, q := Blocks(seconds, blockSeconds), seconds / blockSeconds;
    assert q * blockSeconds == seconds;
    assert q < (n + 1) as real;
    Scaled(q, (n + 1) as real, blockSeconds);
    if n > 1 {
      assert n as real <= q;
      assert (n as real) * blockSeconds <= q * blockSeconds;
    }
  }

  lemma Scaled(a: real, b: real, c: real)
    requires c > 0.0 && a < b
    ensures a * c < b * c
  {
    assert (b - a) * c > 0.0;
  }

  function OnSpeech(s: State): State {
    s.(probed := false, verdict := None)
  }

  /** Whether the strategy is consulted at this silent block. */
  predicate Consults(c: Config, s: State, silent: nat, speech: nat) {
    speech >= c.minSpeech && c.strategy && !s.failed && c.probeBlocks <= silent < c.maxBlocks && !s.probed
  }

  function Ends(c: Config, s: State, silent: nat, speech: nat, v: Verdict): bool {
    if speech < c.minSpeech then false
    else if !c.strategy || s.failed then silent >= c.endBlocks
    else if silent >= c.maxBlocks then true
    else if silent < c.probeBlocks then false
    else if s.probed then s.verdict.None? && silent >= c.endBlocks
    else if v == Complete then true
    else if v == Incomplete then false
    else silent >= c.endBlocks
  }

  function After(c: Config, s: State, silent: nat, speech: nat, v: Verdict): State {
    if !Consults(c, s, silent, speech) then s
    else if v == Raises then s.(failed := true)
    else s.(probed := true, verdict := if v == Complete then Some(true) else if v == Incomplete then Some(false) else None)
  }

  class SilenceEndpointer {
    const config: Config
    var strategyFailed: bool
    var probedThisSilence: bool
    var probeVerdict: Option<bool>

    constructor (endSilence: real, minSpeech: real, strategy: bool, probeSilence: Option<real>,
        maxSilence: Option<real>, blockSeconds: real)
      requires blockSeconds > 0.0
      ensures Now() == START && config.strategy == strategy
      ensures config.endBlocks == Blocks(endSilence, blockSeconds) && config.minSpeech == Blocks(minSpeech, blockSeconds)
      ensures probeSilence.Some? && probeSilence.value > 0.0 ==> config.probeBlocks == Blocks(probeSilence.value, blockSeconds)
      ensures probeSilence.None? || probeSilence.value <= 0.0 ==>
                config.probeBlocks == Blocks(if endSilence <= 0.6 then endSilence else 0.6, blockSeconds)
      ensures maxSilence.Some? && maxSilence.value > endSilence && maxSilence.value > 0.0 ==>
                config.maxBlocks == Blocks(maxSilence.value, blockSeconds)
      ensures 1 <= config.endBlocks <= config.maxBlocks && 1 <= config.minSpeech && 1 <= config.probeBlocks
      ensures probeSilence.None? || probeSilence.value <= 0.0 || probeSilence.value <= endSilence ==> config.probeBlocks <= config.endBlocks
      ensures maxSilence.None? || maxSilence.value <= 0.0 || maxSilence.value <= endSilence ==> config.maxBlocks == config.endBlocks
    {
      var probe := if probeSilence.None? || probeSilence.value <= 0.0 then (if endSilence < 0.6 then endSilence else 0.6) else probeSilence.value;
      var cap := if maxSilence.None? || maxSilence.value <= 0.0 then endSilence else maxSilence.value;
      var end, most := Blocks(endSilence, blockSeconds), Blocks(cap, blockSeconds);
      config := Config(end, Blocks(minSpeech, blockSeconds), Blocks(probe, blockSeconds), if end < most then most else end, strategy);
      strategyFailed, probedThisSilence, probeVerdict := false, false, None;
      new;
      if probe <= endSilence {
        BlocksMonotone(probe, endSilence, blockSeconds);
      }
      if cap <= endSilence {
        BlocksMonotone(cap, endSilence, blockSeconds);
      } else {
        BlocksMonotone(endSilence, cap, blockSeconds);
      }
    }

    function Now(): State
      reads this
    {
      State(strategyFailed, probedThisSilence, probeVerdict)
    }

    /** A new silence run begins when speech is heard again. */
    method SpeechHeard()
      modifies this
      ensures Now() == OnSpeech(old(Now()))
    {
      probedThisSilence, probeVerdict := false, None;
    }

    /** `strategy` is what a consultation would return; `consulted` says whether it took place. */
    method ShouldEnd(silent: nat, speech: nat, strategy: Verdict) returns (end: bool, consulted: bool)
      modifies this
      ensures end == Ends(config, old(Now()), silent, speech, strategy)
      ensures consulted == Consults(config, old(Now()), silent, speech)
      ensures Now() == After(config, old(Now()), silent, speech, strategy)
    {
      if speech < config.minSpeech {
        return false, false;
      }
      if strategyFailed || !config.strategy {
        return silent >= config.endBlocks, false;
      }
      if silent >= config.maxBlocks {
        return true, false;
      }
      if silent < config.probeBlocks {
        return false, false;
      }
      if probedThisSilence {
        if probeVerdict.None? {
          return silent >= config.endBlocks, false;
        }
        return false, false;
      }
      if strategy == Raises {
        strategyFailed := true;
        return silent >= config.endBlocks, true;
      }
      probedThisSilence := true;
      probeVerdict := if strategy == Complete then Some(true) else if strategy == Incomplete then Some(false) else None;
      if strategy == Complete {
        return true, true;
      }
      if strategy == Incomplete {
        return false, true;
      }
      return silent >= config.endBlocks, true;
    }
  }

  /** The block loop after the capture has opened. */
  datatype Capture = Capture(ended: bool, silent: nat, speech: nat, state: State, consults: seq<nat>)

  function Opened(speech: nat): Capture {
    Capture(false, 0, speech, START, [])
  }

  /** One block: `isSpeech` is the gate's verdict, `v` what the strategy would say at it. */
  function StepBlock(c: Config, k: Capture, i: nat, isSpeech: bool, v: Verdict): Capture {
    if k.ended then k
    else if isSpeech then k.(silent := 0, speech := k.speech + 1, state := OnSpeech(k.state))
    else
      k.(ended := Ends(c, k.state, k.silent + 1, k.speech, v),
         silent := k.silent + 1,
         state := After(c, k.state, k.silent + 1, k.speech, v),
         consults := if Consults(c, k.state, k.silent + 1, k.speech) then k.consults + [i] else k.consults)
  }

  function Run(c: Config, speech: nat, blocks: seq<bool>, strategy: nat -> Verdict): Capture {
    if blocks == [] then Opened(speech)
    else
      var i := |blocks| - 1;
      StepBlock(c, Run(c, speech, blocks[..i], strategy), i, blocks[i], strategy(i))
  }

  predicate ValidConfig(c: Config) {
    1 <= c.endBlocks <= c.maxBlocks && 1 <= c.minSpeech && 1 <= c.probeBlocks
  }

  /** The block loop itself, on an endpointer. */
  method CaptureLoop(ep: SilenceEndpointer, speech0: nat, blocks: seq<bool>, strategy: nat -> Verdict)
    returns (ended: bool, silent: nat, speech: nat, ghost consults: seq<nat>)
    requires ep.Now() == START
    modifies ep
    ensures Run(ep.config, speech0, blocks, strategy) == Capture(ended, silent, speech, ep.Now(), consults)
  {
    ended, silent, speech, consults := false, 0, speech0, [];
    for i := 0 to |blocks|
      invariant Run(ep.config, speech0, blocks[..i], strategy) == Capture(ended, silent, speech, ep.Now(), consults)
    {
      assert blocks[..i + 1][..i] == blocks[..i];
      if !ended {
        if blocks[i] {
          silent, speech := 0, speech + 1;
          ep.SpeechHeard();
        } else {
          silent := silent + 1;
          var consulted;
          ended, consulted := ep.ShouldEnd(silent, speech, strategy(i));
          if consulted {
            consults := consults + [i];
          }
        }
      }
    }
    assert blocks[..|blocks|] == blocks;
  }

  /** What holds between the capture's state and its history. */
  ghost predicate History(blocks: seq<bool>, strategy: nat -> Verdict, k: Capture) {
    && (forall a :: 0 <= a < |k.consults| ==> k.consults[a] < |blocks|)
    && (forall a, b :: 0 <= a < b < |k.consults| ==> Separated(blocks, strategy, k.consults[a], k.consults[b]))
    && (!k.ended && k.state.failed ==> k.consults != [])
    && (forall a :: 0 <= a < |k.consults| && strategy(k.consults[a]) == Raises ==> k.state.failed && a == |k.consults| - 1)
    && (forall a :: 0 <= a < |k.consults| && !k.state.probed && !k.state.failed ==> SpeechSince(blocks, k.consults[a], |blocks|))
  }

  ghost predicate SpeechSince(blocks: seq<bool>, i: nat, j: nat) {
    exists m: nat :: i < m < j && m < |blocks| && blocks[m]
  }

  /** Speech was heard between two consultations, and the first did not raise. */
  ghost predicate Separated(blocks: seq<bool>, strategy: nat -> Verdict, i: nat, j: nat) {
    strategy(i) != Raises && SpeechSince(blocks, i, j)
  }

  lemma SpeechSinceMore(blocks: seq<bool>, b: bool, i: nat, j: nat)
    requires SpeechSince(blocks, i, j)
    ensures SpeechSince(blocks + [b], i, j)
    ensures SpeechSince(blocks + [b], i, |blocks| + 1)
  {
    var m: nat :| i < m < j && m < |blocks| && blocks[m];
    assert (blocks + [b])[m];
  }

  lemma HistoryStep(c: Config, blocks: seq<bool>, strategy: nat -> Verdict, k: Capture, b: bool)
    requires History(blocks, strategy, k)
    ensures History(blocks + [b], strategy, StepBlock(c, k, |blocks|, b, strategy(|blocks|)))
  {
    var blocks2 := blocks + [b];
    var k2 := StepBlock(c, k, |blocks|, b, strategy(|blocks|));
    forall x, y | 0 <= x < y < |k2.consults| ensures Separated(blocks2, strategy, k2.consults[x], k2.consults[y]) {
      if y < |k.consults| {
        assert Separated(blocks, strategy, k.consults[x], k.consults[y]);
        SpeechSinceMore(blocks, b, k.consults[x], k.consults[y]);
      } else {
        SpeechSinceMore(blocks, b, k.consults[x], |blocks|);
      }
    }
    forall x | 0 <= x < |k2.consults| && !k2.state.probed && !k2.state.failed
      ensures SpeechSince(blocks2, k2.consults[x], |blocks2|)
    {
      if b && !k.ended {
        assert blocks2[|blocks|];
      } else {
        SpeechSinceMore(blocks, b, k2.consults[x], |blocks|);
      }
    }
  }

  lemma {:induction false} HistoryHolds(c: Config, speech: nat, blocks: seq<bool>, strategy: nat -> Verdict)
    ensures History(blocks, strategy, Run(c, speech, blocks, strategy))
  {
    if blocks != [] {
      var i := |blocks| - 1;
      HistoryHolds(c, speech, blocks[..i], strategy);
      HistoryStep(c, blocks[..i], strategy, Run(c, speech, blocks[..i], strategy), blocks[i]);
      assert blocks == blocks[..i] + [blocks[i]];
    }
  }

  /** The strategy is consulted at most once per silence run, and never again after it raises. */
  lemma ConsultedOncePerSilence(c: Config, speech: nat, blocks: seq<bool>, strategy: nat -> Verdict, a: nat, b: nat)
    requires a < b < |Run(c, speech, blocks, strategy).consults|
    ensures var consults := Run(c, speech, blocks, strategy).consults;
            && strategy(consults[a]) != Raises
            && exists m: nat :: consults[a] < m < consults[b] && m < |blocks| && blocks[m]
  {
    HistoryHolds(c, speech, blocks, strategy);
    assert Separated(blocks, strategy, Run(c, speech, blocks, strategy).consults[a], Run(c, speech, blocks, strategy).consults[b]);
  }

  // ---------------------------------------------------------------- decisions by what was heard and answered

  /** The answer to the last consultation, if no speech was heard since. */
  ghost function Answer(blocks: seq<bool>, strategy: nat -> Verdict, consults: seq<nat>): Option<Verdict> {
    if consults == [] || SpeechSince(blocks, consults[|consults| - 1], |blocks|) then None
    else Some(strategy(consults[|consults| - 1]))
  }

  predicate GaveOut(strategy: nat -> Verdict, consults: seq<nat>) {
    consults != [] && strategy(consults[|consults| - 1]) == Raises
  }

  function Opinion(v: Verdict): Option<bool> {
    if v == Complete then Some(true) else if v == Incomplete then Some(false) else None
  }

  /** The three fields are what the consultations say. */
  ghost predicate Tells(blocks: seq<bool>, strategy: nat -> Verdict, k: Capture) {
    var answer := Answer(blocks, strategy, k.consults);
    && (forall a :: 0 <= a < |k.consults| ==> k.consults[a] < |blocks|)
    && (k.state.failed <==> GaveOut(strategy, k.consults))
    && (k.state.probed <==> answer.Some? && answer.value != Raises)
    && (k.state.probed ==> k.state.verdict == Opinion(answer.value))
  }

  lemma SpeechSinceSnoc(blocks: seq<bool>, b: bool, i: nat)
    requires i < |blocks|
    ensures SpeechSince(blocks + [b], i, |blocks| + 1) <==> b || SpeechSince(blocks, i, |blocks|)
    ensures !SpeechSince(blocks + [b], |blocks|, |blocks| + 1)
  {
    var more := blocks + [b];
    if b {
      assert more[|blocks|];
    }
    if SpeechSince(blocks, i, |blocks|) {
      SpeechSinceMore(blocks, b, i, |blocks|);
    }
    if SpeechSince(more, i, |blocks| + 1) && !b {
      var m: nat :| i < m < |blocks| + 1 && m < |more| && more[m];
      assert blocks[m];
    }
  }

  lemma TellsStep(c: Config, blocks: seq<bool>, strategy: nat -> Verdict, k: Capture, b: bool)
    requires Tells(blocks, strategy, k) && !k.ended
    ensures Tells(blocks + [b], strategy, StepBlock(c, k, |blocks|, b, strategy(|blocks|)))
  {
    hide SpeechSince;
    if k.consults != [] {
      SpeechSinceSnoc(blocks, b, k.consults[|k.consults| - 1]);
    }
    assert !SpeechSince(blocks + [b], |blocks|, |blocks| + 1) by {
      NoneAfter(blocks, b);
    }
  }

  lemma NoneAfter(blocks: seq<bool>, b: bool)
    ensures !SpeechSince(blocks + [b], |blocks|, |blocks| + 1)
  {
  }

  lemma {:induction false} TellsHolds(c: Config, speech: nat, blocks: seq<bool>, strategy: nat -> Verdict)
    ensures var k := Run(c, speech, blocks, strategy); !k.ended ==> Tells(blocks, strategy, k)
  {
    if blocks != [] {
      var i := |blocks| - 1;
      var k := Run(c, speech, blocks[..i], strategy);
      TellsHolds(c, speech, blocks[..i], strategy);
      if !k.ended {
        TellsStep(c, blocks[..i], strategy, k, blocks[i]);
      }
      assert blocks == blocks[..i] + [blocks[i]];
    }
  }

  /**
   Exactly when one more silent block leads to a consultation, and exactly when it ends the
   capture: by the energy gate without a strategy or once one gave out, and otherwise at the
   hard cap, on a complete answer, or at the gate if this silence's answer is undecided. An
   incomplete answer therefore holds the capture open to the hard cap.
   */
  lemma EndsExactly(c: Config, speech: nat, blocks: seq<bool>, strategy: nat -> Verdict)
    requires !Run(c, speech, blocks, strategy).ended
    ensures var k, k2 := Run(c, speech, blocks, strategy), Run(c, speech, blocks + [false], strategy);
            var n, before := k.silent + 1, Answer(blocks, strategy, k.consults);
            && k2.silent == n && k2.speech == k.speech
            && k2.consults ==
                 (if && k.speech >= c.minSpeech && c.strategy && !GaveOut(strategy, k.consults)
                     && c.probeBlocks <= n < c.maxBlocks && before.None?
                  then k.consults + [|blocks|] else k.consults)
    ensures var k, k2 := Run(c, speech, blocks, strategy), Run(c, speech, blocks + [false], strategy);
            var n, answer := k.silent + 1, Answer(blocks + [false], strategy, k2.consults);
            k2.ended <==>
              && k.speech >= c.minSpeech
              && (if !c.strategy || GaveOut(strategy, k2.consults) then n >= c.endBlocks
                  else if n >= c.maxBlocks then true
                  else if n < c.probeBlocks then false
                  else answer == Some(Complete) || (answer == Some(Undecided) && n >= c.endBlocks))
  {
    TellsHolds(c, speech, blocks, strategy);
    hide SpeechSince, History;
    var k := Run(c, speech, blocks, strategy);
    assert (blocks + [false])[..|blocks + [false]| - 1] == blocks;
    if k.consults != [] {
      SpeechSinceSnoc(blocks, false, k.consults[|k.consults| - 1]);
    }
    NoneAfter(blocks, false);
    if k.state.probed {
      NotComplete(c, speech, blocks, strategy);
    }
  }

  /** A capture still on has not been told that the turn is complete in this silence. */
  lemma {:induction false} NotComplete(c: Config, speech: nat, blocks: seq<bool>, strategy: nat -> Verdict)
    ensures var k := Run(c, speech, blocks, strategy); !k.ended ==> k.state.verdict != Some(true)
  {
    if blocks != [] {
      NotComplete(c, speech, blocks[..|blocks| - 1], strategy);
    }
  }

  /** `n` silent blocks more. */
  function Hush(blocks: seq<bool>, n: nat): seq<bool> {
    if n == 0 then blocks else Hush(blocks, n - 1) + [false]
  }

  lemma IncompleteStays(c: Config, speech: nat, blocks: seq<bool>, strategy: nat -> Verdict)
    requires c.strategy && !Run(c, speech, blocks, strategy).ended
    requires Answer(blocks, strategy, Run(c, speech, blocks, strategy).consults) == Some(Incomplete)
    ensures var k, k2 := Run(c, speech, blocks, strategy), Run(c, speech, blocks + [false], strategy);
            && k2.silent == k.silent + 1
            && (k2.ended ==> k2.silent >= c.maxBlocks)
            && (!k2.ended ==> Answer(blocks + [false], strategy, k2.consults) == Some(Incomplete))
  {
    EndsExactly(c, speech, blocks, strategy);
    hide SpeechSince, Run;
    var k := Run(c, speech, blocks, strategy);
    TellsHolds(c, speech, blocks, strategy);
    SpeechSinceSnoc(blocks, false, k.consults[|k.consults| - 1]);
  }

  /** Once this silence's answer is "incomplete", the capture is on until the hard cap, past the energy gate. */
  lemma {:induction false} IncompleteHoldsOpen(c: Config, speech: nat, blocks: seq<bool>, strategy: nat -> Verdict, n: nat)
    requires c.strategy && !Run(c, speech, blocks, strategy).ended
    requires Answer(blocks, strategy, Run(c, speech, blocks, strategy).consults) == Some(Incomplete)
    requires Run(c, speech, blocks, strategy).silent + n < c.maxBlocks
    ensures var k := Run(c, speech, Hush(blocks, n), strategy);
            && !k.ended && k.silent == Run(c, speech, blocks, strategy).silent + n
            && Answer(Hush(blocks, n), strategy, k.consults) == Some(Incomplete)
  {
    hide Run, Answer;
    if n > 0 {
      IncompleteHoldsOpen(c, speech, blocks, strategy, n - 1);
      IncompleteStays(c, speech, Hush(blocks, n - 1), strategy);
    }
  }

  /** Once enough speech was heard, no capture outlasts the hard cap of silence. */
  lemma {:induction false} EndsByCap(c: Config, speech: nat, blocks: seq<bool>, strategy: nat -> Verdict)
    requires ValidConfig(c)
    ensures var k := Run(c, speech, blocks, strategy);
            k.speech >= c.minSpeech && !k.ended ==> k.silent < c.maxBlocks
  {
    if blocks != [] {
      EndsByCap(c, speech, blocks[..|blocks| - 1], strategy);
    }
  }

  /** A capture ends on silence only, and only with enough speech. */
  lemma {:induction false} EndsNotEarly(c: Config, speech: nat, blocks: seq<bool>, strategy: nat -> Verdict)
    requires ValidConfig(c)
    ensures var k := Run(c, speech, blocks, strategy);
            k.ended ==> k.speech >= c.minSpeech
                        && (k.silent >= c.endBlocks || (k.silent >= c.probeBlocks && k.consults != [] && strategy(k.consults[|k.consults| - 1]) == Complete))
  {
    if blocks != [] {
      EndsNotEarly(c, speech, blocks[..|blocks| - 1], strategy);
    }
  }

  ghost predicate NeverDecides(strategy: nat -> Verdict) {
    forall i :: strategy(i) == Undecided || strategy(i) == Raises
  }

  function EnergyGate(c: Config): Config {
    c.(strategy := false)
  }

  predicate SameDecision(a: Capture, b: Capture) {
    a.ended == b.ended && a.silent == b.silent && a.speech == b.speech
  }

  lemma {:induction false} SameAsGate(c: Config, speech: nat, blocks: seq<bool>, strategy: nat -> Verdict)
    requires ValidConfig(c) && NeverDecides(strategy)
    requires c.probeBlocks <= c.endBlocks || c.maxBlocks == c.endBlocks
    ensures SameDecision(Run(c, speech, blocks, strategy), Run(EnergyGate(c), speech, blocks, strategy))
    ensures Run(c, speech, blocks, strategy).state.verdict.None?
  {
    if blocks != [] {
      SameAsGate(c, speech, blocks[..|blocks| - 1], strategy);
    }
  }

  function Talk(n: nat): seq<bool> {
    if n == 0 then [] else Talk(n - 1) + [true]
  }

  lemma {:induction false} TalkRun(c: Config, n: nat, strategy: nat -> Verdict)
    ensures Run(c, 0, Talk(n), strategy) == Capture(false, 0, n, START, [])
  {
    if n > 0 {
      TalkRun(c, n - 1, strategy);
      assert Talk(n)[..|Talk(n)| - 1] == Talk(n - 1);
    }
  }

  /** After `n` silent blocks short of the probe, only the energy gate could have ended. */
  lemma {:induction false} HushRun(c: Config, n: nat, strategy: nat -> Verdict)
    requires ValidConfig(c) && n <= c.endBlocks && (c.strategy ==> c.endBlocks < c.probeBlocks && c.endBlocks < c.maxBlocks)
    ensures var k := Run(c, 0, Hush(Talk(c.minSpeech), n), strategy);
            k == Capture(!c.strategy && n == c.endBlocks, n, c.minSpeech, START, [])
  {
    if n == 0 {
      TalkRun(c, c.minSpeech, strategy);
    } else {
      HushRun(c, n - 1, strategy);
      var h := Hush(Talk(c.minSpeech), n);
      assert h[..|h| - 1] == Hush(Talk(c.minSpeech), n - 1);
    }
  }

  ghost predicate GateEquivalent(c: Config) {
    forall speech: nat, blocks: seq<bool>, strategy: nat -> Verdict :: NeverDecides(strategy) ==>
      SameDecision(Run(c, speech, blocks, strategy), Run(EnergyGate(c), speech, blocks, strategy))
  }

  /**
   A strategy that only abstains or raises makes exactly the energy gate's
   decisions on every capture if and only if it is first consulted no later than
   the gate would end, or the hard cap leaves it no room.
   */
  lemma FallbackIsEnergyGate(c: Config)
    requires ValidConfig(c) && c.strategy
    ensures GateEquivalent(c) <==> c.probeBlocks <= c.endBlocks || c.maxBlocks == c.endBlocks
  {
    if c.probeBlocks <= c.endBlocks || c.maxBlocks == c.endBlocks {
      forall speech: nat, blocks: seq<bool>, strategy: nat -> Verdict | NeverDecides(strategy)
        ensures SameDecision(Run(c, speech, blocks, strategy), Run(EnergyGate(c), speech, blocks, strategy))
      {
        SameAsGate(c, speech, blocks, strategy);
      }
    } else {
      var strategy := (i: nat) => Undecided;
      HushRun(c, c.endBlocks, strategy);
      HushRun(EnergyGate(c), c.endBlocks, strategy);
      var blocks := Hush(Talk(c.minSpeech), c.endBlocks);
      assert NeverDecides(strategy);
      assert !SameDecision(Run(c, 0, blocks, strategy), Run(EnergyGate(c), 0, blocks, strategy));
    }
  }
}
