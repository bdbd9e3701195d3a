/**
 The language of one event's records.

 `Conforms` says what the record list of one event may look like, as a shape.
 `PhaseOf` is an automaton over the same list. `PhaseIffConforms` proves that
 the automaton accepts exactly that language, so that the protocol proof can
 follow the automaton and conclude about the shape.
 */
module DeliveryGrammar {
  import opened Wrappers
  import opened DeliveryLog

  function Tokens(recs: Log): set<Token> {
    set r | r in recs && r.token.Some? :: r.token.value
  }

  predicate Is(r: Record, s: Status, t: Token) {
    r.status == s && r.token == Some(t)
  }

  /**
   Abandoned attempts: each is `acquired`, or `acquired validating` under one
   token, and no token is used by two attempts.
   */
  predicate Attempts(recs: Log)
    decreases |recs|, 1
  {
    recs == [] || EndsOpen(recs) || EndsChecked(recs)
  }

  /** The last attempt is a bare `acquired`. */
  predicate EndsOpen(recs: Log)
    decreases |recs|, 0
  {
    var n := |recs|;
    && n >= 1
    && recs[n - 1].token.Some?
    && Is(recs[n - 1], Acquired, recs[n - 1].token.value)
    && recs[n - 1].token.value !in Tokens(recs[..n - 1])
    && Attempts(recs[..n - 1])
  }

  /** The last attempt is `acquired validating`. */
  predicate EndsChecked(recs: Log)
    decreases |recs|, 0
  {
    var n := |recs|;
    && n >= 2
    && recs[n - 1].token.Some?
    && Is(recs[n - 1], Validating, recs[n - 1].token.value)
    && recs[n - 2].token == recs[n - 1].token
    && EndsOpen(recs[..n - 1])
  }

  predicate Settles(r: Record, t: Token) {
    Is(r, Delivered, t) || Is(r, Uncertain, t)
  }

  /**
   At most one ending: an owner's rejection, one external terminal mark, or a
   send under one token with at most one outcome.
   */
  predicate Ending(tail: Log, used: set<Token>) {
    || tail == []
    || (|tail| == 1 && tail[0].status.External? && tail[0].token == None)
    || (|tail| >= 2 && tail[0].status == Acquired && tail[0].token.Some? && tail[0].token.value !in used
        && OwnerEnding(tail, tail[0].token.value))
  }

  predicate OwnerEnding(tail: Log, t: Token)
    requires |tail| >= 2
  {
    || (|tail| == 2 && Is(tail[1], Rejected, t))
    || (|tail| == 3 && Is(tail[1], Validating, t) && Is(tail[2], Rejected, t))
    || (|tail| == 3 && Is(tail[1], Validating, t) && Is(tail[2], Sending, t))
    || (|tail| == 4 && Is(tail[1], Validating, t) && Is(tail[2], Sending, t) && Settles(tail[3], t))
  }

  ghost predicate SplitsAt(recs: Log, k: nat) {
    k <= |recs| && Attempts(recs[..k]) && Ending(recs[k..], Tokens(recs[..k]))
  }

  /** The shape of one event's records. */
  ghost predicate Conforms(recs: Log) {
    exists k: nat :: SplitsAt(recs, k)
  }

  /** The automaton's states. */
  datatype Phase =
    | Fresh
    | Leased(owner: Token, checked: bool, used: set<Token>)
    | SendingBy(owner: Token)
    | Settled(owner: Token, delivered: bool)
    | Closed
    | Broken

  function Next(p: Phase, r: Record): Phase {
    match p
    case Fresh =>
      if r.status == Acquired && r.token.Some? then Leased(r.token.value, false, {r.token.value})
      else if r.status.External? && r.token == None then Closed
      else Broken
    case Leased(t, checked, used) =>
      if r.status == Acquired && r.token.Some? && r.token.value !in used then
        Leased(r.token.value, false, used + {r.token.value})
      else if r.status.External? && r.token == None then Closed
      else if Is(r, Rejected, t) then Closed
      else if Is(r, Validating, t) && !checked then Leased(t, true, used)
      else if Is(r, Sending, t) && checked then SendingBy(t)
      else Broken
    case SendingBy(t) =>
      if Is(r, Delivered, t) then Settled(t, true)
      else if Is(r, Uncertain, t) then Settled(t, false)
      else Broken
    case _ => Broken
  }

  function PhaseOf(recs: Log): Phase {
    if recs == [] then Fresh else Next(PhaseOf(recs[..|recs| - 1]), recs[|recs| - 1])
  }

  lemma PhaseSnoc(recs: Log, r: Record)
    ensures PhaseOf(recs + [r]) == Next(PhaseOf(recs), r)
  {
    SnocPrefix(recs, r);
  }

  lemma TokensSnoc(recs: Log, r: Record)
    ensures Tokens(recs + [r]) == if r.token.Some? then Tokens(recs) + {r.token.value} else Tokens(recs)
  {
    var s := recs + [r];
    forall t | t in Tokens(recs) ensures t in Tokens(s) {
      var q :| q in recs && q.token == Some(t);
      assert q in s;
    }
    if r.token.Some? {
      assert r in s;
    }
  }

  /** What the last record is in each state of the automaton. */
  predicate LastIs(recs: Log, p: Phase) {
    var n := |recs|;
    match p
    case Fresh => n == 0
    case Leased(t, checked, used) =>
      n > 0 && Is(recs[n - 1], if checked then Validating else Acquired, t) && used == Tokens(recs)
    case SendingBy(t) => n > 0 && Is(recs[n - 1], Sending, t)
    case Settled(t, d) => n > 0 && Is(recs[n - 1], if d then Delivered else Uncertain, t)
    case Closed => n > 0 && (recs[n - 1].status.External? || recs[n - 1].status == Rejected)
    case Broken => false
  }

  lemma LastStep(recs: Log, p: Phase, r: Record)
    requires LastIs(recs, p) && Next(p, r) != Broken
    ensures LastIs(recs + [r], Next(p, r))
  {
    hide Tokens;
    TokensSnoc(recs, r);
    NoTokens(recs);
    if p.Leased? {
      TokenUsed(recs, |recs| - 1);
    }
  }

  lemma {:induction false} PhaseLast(recs: Log)
    requires PhaseOf(recs) != Broken
    ensures LastIs(recs, PhaseOf(recs))
  {
    if recs != [] {
      hide LastIs, PhaseOf, Next;
      var before, last := recs[..|recs| - 1], recs[|recs| - 1];
      assert recs == before + [last];
      PhaseSnoc(before, last);
      BrokenStays(last);
      PhaseLast(before);
      LastStep(before, PhaseOf(before), last);
    }
  }

  /** The shape that each state of the automaton stands for. */
  predicate Shape(recs: Log, p: Phase) {
    var n := |recs|;
    match p
    case Fresh => n == 0
    case Leased(t, checked, used) =>
      n >= 1 && recs[n - 1].token == Some(t) && (if checked then EndsChecked(recs) else EndsOpen(recs))
    case SendingBy(t) => EndsSending(recs, t)
    case Settled(t, _) => n >= 1 && EndsSending(recs[..n - 1], t) && Settles(recs[n - 1], t)
    case Closed => EndsClosed(recs)
    case Broken => false
  }

  predicate EndsSending(recs: Log, t: Token) {
    var n := |recs|;
    n >= 2 && EndsChecked(recs[..n - 1]) && recs[n - 2].token == Some(t) && Is(recs[n - 1], Sending, t)
  }

  predicate EndsClosed(recs: Log) {
    var n := |recs|;
    && n >= 1
    && Attempts(recs[..n - 1])
    && ((recs[n - 1].status.External? && recs[n - 1].token == None)
        || (n >= 2 && recs[n - 1].status == Rejected && recs[n - 1].token.Some? && recs[n - 1].token == recs[n - 2].token))
  }

  lemma {:induction false} PhaseHasShape(recs: Log)
    requires PhaseOf(recs) != Broken
    ensures Shape(recs, PhaseOf(recs))
    ensures PhaseOf(recs).Leased? ==> PhaseOf(recs).used == Tokens(recs)
  {
    if recs != [] {
      hide Shape, Tokens, PhaseOf, Next;
      var before, last := recs[..|recs| - 1], recs[|recs| - 1];
      assert recs == before + [last];
      PhaseSnoc(before, last);
      BrokenStays(last);
      PhaseHasShape(before);
      PhaseLast(recs);
      ShapeNext(before, last, PhaseOf(before));
    } else {
      hide Shape, Tokens;
      NothingHasShape();
    }
  }

  lemma BrokenStays(r: Record)
    ensures Next(Broken, r) == Broken
  {
  }

  lemma NothingHasShape()
    ensures PhaseOf([]) == Fresh && Shape([], Fresh)
  {
  }

  /** One step of the automaton extends the shape by one record. */
  lemma ShapeNext(recs: Log, r: Record, p: Phase)
    requires Shape(recs, p) && Next(p, r) != Broken
    requires p.Leased? ==> p.used == Tokens(recs)
    ensures Shape(recs + [r], Next(p, r))
  {
    hide Tokens, EndsOpen, EndsChecked, Attempts, EndsClosed;
    SnocPrefix(recs, r);
    if Next(p, r).Leased? && r.status == Acquired {
      OpenNext(recs, r, p);
    } else if Next(p, r).Leased? {
      CheckedNext(recs, r);
    } else if Next(p, r) == Closed {
      ClosedNext(recs, r, p);
    }
  }

  lemma ShapeIsAttempts(recs: Log, p: Phase)
    requires Shape(recs, p) && (p.Fresh? || p.Leased?)
    ensures Attempts(recs)
  {
    hide EndsOpen, EndsChecked, Tokens;
  }

  lemma OpenNext(recs: Log, r: Record, p: Phase)
    requires Shape(recs, p) && Next(p, r).Leased? && r.status == Acquired
    requires p.Leased? ==> p.used == Tokens(recs)
    ensures EndsOpen(recs + [r])
  {
    hide Tokens, EndsChecked, Attempts;
    ShapeIsAttempts(recs, p);
    SnocPrefix(recs, r);
    NoTokens(recs);
  }

  lemma CheckedNext(recs: Log, r: Record)
    requires EndsOpen(recs) && r.status == Validating && r.token.Some? && r.token == recs[|recs| - 1].token
    ensures EndsChecked(recs + [r])
  {
    hide Tokens, EndsOpen, Attempts;
    assert |recs| > 0 by { OpenIsSome(recs); }
    SnocPrefix(recs, r);
  }

  lemma OpenIsSome(recs: Log)
    requires EndsOpen(recs)
    ensures |recs| > 0
  {
  }

  lemma ClosedNext(recs: Log, r: Record, p: Phase)
    requires Shape(recs, p) && Next(p, r) == Closed
    ensures EndsClosed(recs + [r])
  {
    hide Tokens, EndsOpen, EndsChecked, EndsSending, Attempts, EndsClosed;
    ShapeIsAttempts(recs, p);
    ClosesWith(recs, r);
  }

  lemma ClosesWith(recs: Log, r: Record)
    requires Attempts(recs)
    requires (r.status.External? && r.token == None)
          || (recs != [] && r.status == Rejected && r.token.Some? && r.token == recs[|recs| - 1].token)
    ensures EndsClosed(recs + [r])
  {
    hide Attempts;
    SnocPrefix(recs, r);
  }

  lemma NoTokens(recs: Log)
    ensures recs == [] ==> Tokens(recs) == {}
  {
  }

  lemma TokenUsed(recs: Log, i: nat)
    requires i < |recs| && recs[i].token.Some?
    ensures recs[i].token.value in Tokens(recs)
  {
    assert recs[i] in recs;
  }

  lemma {:induction false} AttemptsPhase(recs: Log)
    requires Attempts(recs)
    ensures recs == [] ==> PhaseOf(recs) == Fresh
    ensures recs != [] ==> PhaseOf(recs).Leased? && PhaseOf(recs).used == Tokens(recs)
    ensures EndsOpen(recs) ==> PhaseOf(recs).owner == recs[|recs| - 1].token.value && !PhaseOf(recs).checked
    ensures EndsChecked(recs) ==> PhaseOf(recs).owner == recs[|recs| - 1].token.value && PhaseOf(recs).checked
  {
    if recs != [] {
      hide Tokens, PhaseOf;
      var before, last := recs[..|recs| - 1], recs[|recs| - 1];
      assert EndsChecked(recs) ==> EndsOpen(before);
      AttemptsPhase(before);
      assert recs == before + [last];
      TokensSnoc(before, last);
      PhaseSnoc(before, last);
      if EndsChecked(recs) {
        TokenUsed(before, |before| - 1);
      } else {
        NoTokens(before);
      }
    }
  }

  lemma {:induction false} PhaseThen(recs: Log, m: nat)
    requires 0 < m <= |recs|
    ensures PhaseOf(recs[..m]) == Next(PhaseOf(recs[..m - 1]), recs[m - 1])
  {
    assert recs[..m] == recs[..m - 1] + [recs[m - 1]];
    PhaseSnoc(recs[..m - 1], recs[m - 1]);
  }

  /** The automaton accepts exactly the language. */
  lemma PhaseIffConforms(recs: Log)
    ensures PhaseOf(recs) != Broken <==> Conforms(recs)
  {
    if PhaseOf(recs) != Broken {
      ShapeConforms(recs, PhaseOf(recs));
    }
    if Conforms(recs) {
      var k: nat :| SplitsAt(recs, k);
      EndingAccepted(recs, k);
    }
  }

  lemma ShapeConforms(recs: Log, p: Phase)
    requires PhaseOf(recs) == p != Broken
    ensures Conforms(recs)
  {
    PhaseHasShape(recs);
    hide Tokens, PhaseOf;
    TakeAll(recs);
    match p
    case Fresh => assert SplitsAt(recs, 0);
    case Leased(_, _, _) => assert SplitsAt(recs, |recs|);
    case SendingBy(t) => SendingSplits(recs, t, recs);
    case Settled(t, _) => SendingSplits(recs[..|recs| - 1], t, recs);
    case Closed => ClosedSplits(recs);
  }

  /** A send, and the outcome that may follow it, is an ending. */
  lemma SendingSplits(upTo: Log, t: Token, recs: Log)
    requires EndsSending(upTo, t)
    requires recs == upTo || (|recs| == |upTo| + 1 && recs[..|upTo|] == upTo && Settles(recs[|upTo|], t))
    ensures Conforms(recs)
  {
    hide Tokens;
    var n := |upTo|;
    SplitChecked(upTo[..n - 1]);
    assert upTo[..n - 1][..n - 3] == recs[..n - 3];
    assert forall i :: 0 <= i < n ==> recs[i] == upTo[i];
    assert SplitsAt(recs, n - 3);
  }

  lemma ClosedSplits(recs: Log)
    requires EndsClosed(recs)
    ensures Conforms(recs)
  {
    hide Tokens, SplitsAt, Conforms, Attempts, EndsChecked, EndsOpen;
    if recs[|recs| - 1].status.External? {
      MarkSplits(recs);
    } else {
      LeaseSplits(recs);
    }
  }

  /** An external mark is an ending of its own. */
  lemma MarkSplits(recs: Log)
    requires EndsClosed(recs) && recs[|recs| - 1].status.External?
    ensures Conforms(recs)
  {
    hide Tokens, Attempts;
    assert SplitsAt(recs, |recs| - 1);
  }

  lemma OwnerEnds(recs: Log, k: nat, t: Token)
    requires k + 2 <= |recs| && Is(recs[k], Acquired, t) && OwnerEnding(recs[k..], t)
    requires Attempts(recs[..k]) && t !in Tokens(recs[..k])
    ensures Conforms(recs)
  {
    hide Tokens, Attempts, OwnerEnding;
    assert recs[k..][0] == recs[k];
    assert SplitsAt(recs, k);
  }

  /** A rejection ends the lease it was made under. */
  lemma LeaseSplits(recs: Log)
    requires EndsClosed(recs) && !recs[|recs| - 1].status.External?
    ensures Conforms(recs)
  {
    hide Tokens, EndsOpen, EndsChecked;
    if EndsOpen(recs[..|recs| - 1]) {
      OpenLeaseSplits(recs);
    } else {
      CheckedLeaseSplits(recs);
    }
  }

  lemma OpenLeaseSplits(recs: Log)
    requires EndsClosed(recs) && !recs[|recs| - 1].status.External? && EndsOpen(recs[..|recs| - 1])
    ensures Conforms(recs)
  {
    hide Tokens, Attempts, EndsChecked, Conforms;
    var n := |recs|;
    assert recs[..n - 1][..n - 2] == recs[..n - 2];
    OwnerEnds(recs, n - 2, recs[n - 2].token.value);
  }

  lemma CheckedLeaseSplits(recs: Log)
    requires EndsClosed(recs) && !recs[|recs| - 1].status.External? && EndsChecked(recs[..|recs| - 1])
    ensures Conforms(recs)
  {
    hide Tokens, Attempts, EndsOpen, Conforms;
    var n := |recs|;
    SplitChecked(recs[..n - 1]);
    assert recs[..n - 1][..n - 3] == recs[..n - 3];
    OwnerEnds(recs, n - 3, recs[n - 2].token.value);
  }

  lemma SplitChecked(recs: Log)
    requires EndsChecked(recs)
    ensures var n := |recs|;
            && recs[n - 2].token.Some?
            && recs[n - 2].status == Acquired
            && recs[n - 2].token.value !in Tokens(recs[..n - 2])
            && Attempts(recs[..n - 2])
  {
    assert recs[..|recs| - 1][..|recs| - 2] == recs[..|recs| - 2];
  }

  lemma EndingAccepted(recs: Log, k: nat)
    requires SplitsAt(recs, k)
    ensures PhaseOf(recs) != Broken
  {
    hide PhaseOf, Attempts, Ending, OwnerEnding, Next, Tokens;
    TakeAll(recs);
    AttemptsPhase(recs[..k]);
    NoTokens(recs[..k]);
    if k < |recs| {
      assert recs[k..][0] == recs[k];
      PhaseThen(recs, k + 1);
      FirstOfEnding(PhaseOf(recs[..k]), recs[k..], Tokens(recs[..k]));
      if |recs[k..]| >= 2 {
        OwnerEndingAccepted(recs, k + 1, recs[k].token.value);
      }
    }
  }

  /** The first record of an ending closes the event or leases it once more. */
  lemma FirstOfEnding(p: Phase, tail: Log, used: set<Token>)
    requires (p.Fresh? && used == {}) || (p.Leased? && p.used == used)
    requires tail != [] && Ending(tail, used)
    ensures |tail| == 1 ==> Next(p, tail[0]) == Closed
    ensures |tail| >= 2 ==> tail[0].token.Some? && OwnerEnding(tail, tail[0].token.value)
                            && Next(p, tail[0]) == Leased(tail[0].token.value, false, used + {tail[0].token.value})
  {
  }

  lemma OwnerEndingAccepted(recs: Log, k: nat, t: Token)
    requires 1 <= k < |recs|
    requires PhaseOf(recs[..k]).Leased? && PhaseOf(recs[..k]).owner == t && !PhaseOf(recs[..k]).checked
    requires OwnerEnding(recs[k - 1..], t)
    ensures PhaseOf(recs) != Broken
  {
    hide PhaseOf;
    TakeAll(recs);
    var tail := recs[k - 1..];
    PhaseThen(recs, k + 1);
    assert tail[1] == recs[k];
    if |tail| >= 3 {
      PhaseThen(recs, k + 2);
      assert tail[2] == recs[k + 1];
      if |tail| == 4 {
        PhaseThen(recs, k + 3);
        assert tail[3] == recs[k + 2];
      }
    }
  }

  /** A token superseded by another attempt never appears again. */
  lemma {:induction false} SupersededNeverReturns(recs: Log, i: nat, j: nat, k: nat, t: Token)
    requires Conforms(recs)
    requires i < j < k < |recs|
    requires recs[i].token == Some(t) && recs[j].token.Some? && recs[j].token != Some(t)
    ensures recs[k].token != Some(t)
  {
    PhaseIffConforms(recs);
    PrefixesNotBroken(recs, k);
    PrefixesNotBroken(recs, k + 1);
    assert recs[..k + 1] == recs[..k] + [recs[k]];
    PhaseSnoc(recs[..k], recs[k]);
    OwnerAfter(recs[..k], i, j, t);
  }

  /** A broken prefix breaks the whole list. */
  lemma {:induction false} PrefixesNotBroken(recs: Log, m: nat)
    requires m <= |recs| && PhaseOf(recs) != Broken
    ensures PhaseOf(recs[..m]) != Broken
    decreases |recs| - m
  {
    if m < |recs| {
      PrefixesNotBroken(recs, m + 1);
      assert recs[..m + 1] == recs[..m] + [recs[m]];
      PhaseSnoc(recs[..m], recs[m]);
    } else {
      TakeAll(recs);
    }
  }

  /** After another token has written, the current owner is not `t`, and `t` is used up. */
  lemma {:induction false} OwnerAfter(recs: Log, i: nat, j: nat, t: Token)
    requires PhaseOf(recs) != Broken
    requires i < j < |recs|
    requires recs[i].token == Some(t) && recs[j].token.Some? && recs[j].token != Some(t)
    ensures var p := PhaseOf(recs);
            && (p.Leased? ==> p.owner != t && t in p.used)
            && (p.SendingBy? ==> p.owner != t)
            && !p.Fresh?
    decreases |recs|
  {
    var n := |recs|;
    var before := recs[..n - 1];
    assert recs == before + [recs[n - 1]];
    PhaseSnoc(before, recs[n - 1]);
    if j < n - 1 {
      OwnerAfter(before, i, j, t);
    } else {
      PhaseLast(recs);
      PhaseLast(before);
      assert before[i] == recs[i] && before[i] in before && t in Tokens(before);
      if PhaseOf(before).SendingBy? || PhaseOf(before).Leased? {
        TokensSnoc(before, recs[n - 1]);
      }
    }
  }

  function SendingCount(recs: Log): nat {
    if recs == [] then 0
    else SendingCount(recs[..|recs| - 1]) + if recs[|recs| - 1].status == Sending then 1 else 0
  }

  predicate PastSending(p: Phase) {
    p.SendingBy? || p.Settled?
  }

  /** The `sending` records are one, under the owner's token, or none. */
  ghost predicate SendsShow(recs: Log, p: Phase) {
    && SendingCount(recs) == (if PastSending(p) then 1 else 0)
    && (PastSending(p) <==> exists r :: r in recs && r.status == Sending)
    && (forall r :: r in recs && r.status == Sending ==> PastSending(p) && r.token == Some(p.owner))
  }

  lemma SendsStep(recs: Log, p: Phase, r: Record)
    requires SendsShow(recs, p) && Next(p, r) != Broken
    ensures SendsShow(recs + [r], Next(p, r))
  {
    SnocPrefix(recs, r);
    assert forall q :: q in recs + [r] <==> q in recs || q == r;
    if Next(p, r).SendingBy? {
      assert r.status == Sending;
    }
  }

  /** No event ever has two `sending` records. */
  lemma {:induction false} SendingOnce(recs: Log)
    requires PhaseOf(recs) != Broken
    ensures SendsShow(recs, PhaseOf(recs))
  {
    if recs != [] {
      hide SendsShow, PhaseOf, Next;
      var before, last := recs[..|recs| - 1], recs[|recs| - 1];
      assert recs == before + [last];
      PhaseSnoc(before, last);
      BrokenStays(last);
      SendingOnce(before);
      SendsStep(before, PhaseOf(before), last);
    }
  }
}
