/**
 The open conversation after a wake phrase: a listen per turn until somebody or
 something closes it, and the outer loop that emits whatever the session did not.
 */
module Conversation {
  import opened Wrappers
  import opened SpokenText
  import opened ListenEnd
  import opened RadioTranscript

  datatype EventKind = TurnEvent | Prompt | Cancelled | ConversationEnd | ErrorEvent | Timeout

  datatype Event = Event(
    kind: EventKind, final: bool, id: nat, turn: Option<nat>, turns: Option<nat>, text: Option<string>,
    reason: Option<Reason>)

  datatype Reason =
    | NoOpen | ListenFailed | EmptySpeech | ProviderFailed | MicBusy | ConversationIdle | Shutdown | Reload

  /** Why a listen raised. */
  datatype Failure = Provider | Busy | GateExpired | Internal

  datatype Heard = Raised(failure: Failure, noOpen: bool) | Speech(text: string, cancelled: bool)

  /** The stop requests as read at one moment. */
  datatype Flags = Flags(shutdown: bool, reload: bool) {
    predicate Any() {
      shutdown || reload
    }
  }

  /** One round of the session loop: the guard's flags, the listen, the flags after the turn. */
  datatype Round = Round(before: Flags, heard: Heard, after: Flags)

  datatype Result = Result(
    activated: bool, text: Option<string>, cancelled: bool, failed: bool, kind: Option<EventKind>, id: Option<nat>,
    turn: Option<nat>, reason: Option<Reason>, skipEmit: bool)

  function Strip(s: string): string {
    TrimLeading(TrimBlank(s))
  }

  /** Soft ends never close a session. */
  function SessionLists(l: Lists): Lists {
    l.(soft := [], softEnabled := false)
  }

  function PhraseIn(body: string, l: Lists): Option<PhraseHit> {
    Evaluate(body, SessionLists(l))
  }

  /** The text of a turn: what precedes an end phrase, unless nothing does. */
  function TurnText(body: string, l: Lists): string {
    match PhraseIn(body, l)
    case None => body
    case Some(h) => if h.kind == End && h.body != "" && Strip(h.body) != "" then Strip(h.body) else body
  }

  /** The text of a cancelled turn: what precedes the cancel phrase, unless nothing does. */
  function CancelText(body: string, l: Lists): string {
    match PhraseIn(body, l)
    case None => body
    case Some(h) => if h.body != "" then h.body else body
  }

  /** How one round ends the session, if it does. */
  datatype Ending = GoesOn | StopsBefore | Fails | CancelledThere | EmptyThere | CancelPhrase | EndPhrase

  function RoundEnding(r: Round, l: Lists): Ending {
    if r.before.Any() then StopsBefore
    else if r.heard.Raised? then Fails
    else
      var body := Strip(r.heard.text);
      if r.heard.cancelled then CancelledThere
      else if body == "" then EmptyThere
      else
        match PhraseIn(body, l)
        case None => GoesOn
        case Some(h) => if h.kind == Cancel then CancelPhrase else EndPhrase
  }

  // ---------------------------------------------------------------- what the operator's log must look like

  /** Turns 1 to n, one for each of the first n listens, with that listen's text. */
  predicate Turns(events: seq<Event>, rounds: seq<Round>, l: Lists, n: nat) {
    && n <= |events| && n <= |rounds|
    && (forall i :: 0 <= i < n ==> events[i].kind == TurnEvent && !events[i].final && events[i].turn == Some(i + 1))
    && (forall i :: 0 <= i < n ==> RoundEnding(rounds[i], l) == GoesOn)
    && (forall i :: 0 <= i < n ==> events[i].text == Some(TurnText(Strip(rounds[i].heard.text), l)))
  }

  /** The closing event counts the turns before it, or is itself the next turn. */
  predicate Closing(e: Event, n: nat) {
    && e.final
    && match e.kind
       case ConversationEnd => e.turns == Some(n) && e.turn == None
       case Prompt => e.turn == Some(n + 1) && e.turns == None
       case Cancelled => e.turn == Some(n + 1) && e.turns == None
       case _ => false
  }

  predicate IncreasingIds(events: seq<Event>) {
    forall i, j :: 0 <= i < j < |events| ==> events[i].id < events[j].id
  }

  function Finals(events: seq<Event>): nat {
    if events == [] then 0
    else Finals(events[..|events| - 1]) + if events[|events| - 1].final then 1 else 0
  }

  lemma {:induction false} TurnsAreNotFinal(events: seq<Event>)
    requires forall i :: 0 <= i < |events| ==> !events[i].final
    ensures Finals(events) == 0
  {
    if events != [] {
      TurnsAreNotFinal(events[..|events| - 1]);
    }
  }

  lemma OneFinal(events: seq<Event>, e: Event)
    requires forall i :: 0 <= i < |events| ==> !events[i].final
    requires e.final
    ensures Finals(events + [e]) == 1
  {
    assert (events + [e])[..|events|] == events;
    TurnsAreNotFinal(events);
  }

  /** A closing event after n turns closes the session. */
  lemma Closes(events: seq<Event>, e: Event, rounds: seq<Round>, l: Lists, firstId: nat)
    requires Turns(events, rounds, l, |events|) && Closing(e, |events|)
    requires IncreasingIds(events) && forall k :: 0 <= k < |events| ==> firstId <= events[k].id < e.id
    ensures Closed(events + [e], rounds, l) && Finals(events + [e]) == 1
    ensures IncreasingIds(events + [e])
  {
    hide RoundEnding, TurnText, Strip;
    OneFinal(events, e);
    TurnsExtend(events, e, rounds, l);
  }

  lemma TurnsExtend(events: seq<Event>, e: Event, rounds: seq<Round>, l: Lists)
    requires Turns(events, rounds, l, |events|)
    ensures Turns(events + [e], rounds, l, |events|)
  {
    hide RoundEnding, TurnText, Strip;
    assert forall i :: 0 <= i < |events| ==> (events + [e])[i] == events[i];
  }

  lemma TakesTurn(events: seq<Event>, e: Event, rounds: seq<Round>, l: Lists)
    requires Turns(events, rounds, l, |events|) && |events| < |rounds| && RoundEnding(rounds[|events|], l) == GoesOn
    requires e.kind == TurnEvent && !e.final && e.turn == Some(|events| + 1)
    requires e.text == Some(TurnText(Strip(rounds[|events|].heard.text), l))
    ensures Turns(events + [e], rounds, l, |events| + 1)
  {
  }

  function FailureReason(h: Heard): (r: Reason)
    requires h.Raised?
    ensures r == ProviderFailed <==> h.failure == Provider
    ensures r == MicBusy <==> h.failure == Busy
    ensures r == ConversationIdle <==> h.failure in {GateExpired, Internal} && h.noOpen
    ensures r == ListenFailed <==> h.failure in {GateExpired, Internal} && !h.noOpen
  {
    match h.failure
    case Provider => ProviderFailed
    case Busy => MicBusy
    case _ => if h.noOpen then ConversationIdle else ListenFailed
  }

  function ExitReason(f: Flags): (r: Reason)
    ensures r == Shutdown <==> f.shutdown
    ensures r == Reload <==> f.reload && !f.shutdown
    ensures r in {Shutdown, Reload, ConversationIdle}
  {
    if f.shutdown then Shutdown else if f.reload then Reload else ConversationIdle
  }

  /** The final event of a session that one round closes. */
  predicate EndsAs(e: Event, round: Round, ending: Ending, leaving: Flags, l: Lists) {
    match ending
    case GoesOn => false
    case StopsBefore => e.kind == ConversationEnd && e.reason == Some(ExitReason(leaving))
    case EmptyThere => e.kind == ConversationEnd && e.reason == Some(ExitReason(leaving))
    case Fails => round.heard.Raised? && e.kind == ConversationEnd && e.reason == Some(FailureReason(round.heard))
    case CancelledThere =>
      round.heard.Speech? && e.kind == Cancelled &&
      e.text == if Strip(round.heard.text) == "" then None else Some(Strip(round.heard.text))
    case CancelPhrase => round.heard.Speech? && e.kind == Cancelled && e.text == Some(CancelText(Strip(round.heard.text), l))
    case EndPhrase => round.heard.Speech? && e.kind == Prompt && e.text == Some(TurnText(Strip(round.heard.text), l))
  }

  /** What closes a session after n turns, and what its final event then is. */
  predicate ClosedBy(e: Event, rounds: seq<Round>, n: nat, leaving: Flags, l: Lists) {
    if 0 < n <= |rounds| && rounds[n - 1].after.Any() then e.kind == ConversationEnd && e.reason == Some(ExitReason(leaving))
    else n < |rounds| && EndsAs(e, rounds[n], RoundEnding(rounds[n], l), leaving, l)
  }

  lemma ByRound(e: Event, rounds: seq<Round>, n: nat, ending: Ending, leaving: Flags, l: Lists)
    requires n < |rounds| && (n > 0 ==> !rounds[n - 1].after.Any())
    requires RoundEnding(rounds[n], l) == ending && EndsAs(e, rounds[n], ending, leaving, l)
    ensures ClosedBy(e, rounds, n, leaving, l)
  {
  }

  lemma OnLeaving(e: Event, rounds: seq<Round>, n: nat, leaving: Flags, l: Lists)
    requires Leaves(rounds, n, l) && e.kind == ConversationEnd && e.reason == Some(ExitReason(leaving))
    ensures ClosedBy(e, rounds, n, leaving, l)
  {
  }

  /** The loop is left after n turns: stopped after the last one, before the next listen, or by an empty one. */
  predicate Leaves(rounds: seq<Round>, n: nat, l: Lists) {
    || (0 < n <= |rounds| && rounds[n - 1].after.Any())
    || (n < |rounds| && (n > 0 ==> !rounds[n - 1].after.Any()) && RoundEnding(rounds[n], l) in {StopsBefore, EmptyThere})
  }

  /** A closed session: turns 1..n, then its only final event. */
  predicate Closed(events: seq<Event>, rounds: seq<Round>, l: Lists) {
    && events != []
    && Turns(events, rounds, l, |events| - 1)
    && Closing(events[|events| - 1], |events| - 1)
  }

  /** The result says what the closing event says; one that is no turn of its own recalls the last turn. */
  predicate Reports(r: Result, events: seq<Event>)
    requires events != []
  {
    var n := |events| - 1;
    && r.kind == Some(events[n].kind)
    && (r.cancelled <==> events[n].kind == Cancelled)
    && (r.failed ==> events[n].kind == ConversationEnd && r.reason != Some(ConversationIdle))
    && (if events[n].kind != ConversationEnd then
          r.text == events[n].text && r.turn == events[n].turn && r.id == Some(events[n].id)
        else
          && r.reason == events[n].reason
          && r.text == (if n == 0 then None else events[n - 1].text)
          && r.turn == (if n == 0 then None else Some(n))
          && r.id == Some(if n == 0 then events[n].id else events[n - 1].id))
  }

  /** A session that emitted its closing event: turns, the event its closing round asks for, and a result that says so. */
  predicate ClosedProperly(r: Result, events: seq<Event>, rounds: seq<Round>, leaving: Flags, l: Lists) {
    && events != [] && Closed(events, rounds, l)
    && ClosedBy(events[|events| - 1], rounds, |events| - 1, leaving, l)
    && Reports(r, events)
  }

  lemma IsProper(r: Result, before: seq<Event>, e: Event, rounds: seq<Round>, leaving: Flags, l: Lists)
    requires Closed(before + [e], rounds, l) && ClosedBy(e, rounds, |before|, leaving, l) && Reports(r, before + [e])
    ensures ClosedProperly(r, before + [e], rounds, leaving, l)
  {
  }

  lemma ReportsEnd(r: Result, before: seq<Event>, e: Event)
    requires r.kind == Some(e.kind) && e.kind == ConversationEnd && !r.cancelled && r.reason == e.reason
    requires r.failed ==> r.reason != Some(ConversationIdle)
    requires r.text == (if before == [] then None else before[|before| - 1].text)
    requires r.turn == (if before == [] then None else Some(|before|))
    requires r.id == Some(if before == [] then e.id else before[|before| - 1].id)
    ensures Reports(r, before + [e])
  {
  }

  lemma ReportsTurn(r: Result, before: seq<Event>, e: Event)
    requires r.kind == Some(e.kind) && e.kind != ConversationEnd && (r.cancelled <==> e.kind == Cancelled) && !r.failed
    requires r.text == e.text && r.turn == e.turn && r.id == Some(e.id)
    ensures Reports(r, before + [e])
  {
  }

  /** After `|events|` turns: what was emitted, and what the loop remembers of it. */
  ghost predicate Underway(
      events: seq<Event>, rounds: seq<Round>, l: Lists, firstId: nat, nextId: nat, lastText: Option<string>,
      lastId: Option<nat>)
  {
    && Turns(events, rounds, l, |events|) && Finals(events) == 0 && IncreasingIds(events)
    && firstId <= nextId && (forall k :: 0 <= k < |events| ==> firstId <= events[k].id < nextId)
    && lastText == (if events == [] then None else events[|events| - 1].text)
    && lastId == (if events == [] then None else Some(events[|events| - 1].id))
  }

  /** What has been emitted is in order. */
  ghost predicate InOrder(events: seq<Event>, firstId: nat) {
    IncreasingIds(events) && forall i :: 0 <= i < |events| ==> firstId <= events[i].id
  }

  lemma SetsOut(rounds: seq<Round>, l: Lists, firstId: nat)
    ensures Underway([], rounds, l, firstId, firstId, None, None) && InOrder([], firstId) && Finals([]) == 0
  {
  }

  lemma StillOn(
      events: seq<Event>, rounds: seq<Round>, l: Lists, firstId: nat, nextId: nat, lastText: Option<string>,
      lastId: Option<nat>)
    requires Underway(events, rounds, l, firstId, nextId, lastText, lastId)
    ensures Turns(events, rounds, l, |events|) && Finals(events) == 0 && InOrder(events, firstId)
  {
    hide Turns;
  }

  lemma GoesOnWith(
      events: seq<Event>, e: Event, rounds: seq<Round>, l: Lists, firstId: nat, nextId: nat, lastText: Option<string>,
      lastId: Option<nat>)
    requires Underway(events, rounds, l, firstId, nextId, lastText, lastId)
    requires |events| < |rounds| && RoundEnding(rounds[|events|], l) == GoesOn
    requires e.kind == TurnEvent && !e.final && e.id == nextId && e.turn == Some(|events| + 1)
    requires e.text == Some(TurnText(Strip(rounds[|events|].heard.text), l))
    ensures Underway(events + [e], rounds, l, firstId, nextId + 1, e.text, Some(e.id))
  {
    hide RoundEnding, TurnText, Strip;
    KeepsCount(events, e);
    TakesTurn(events, e, rounds, l);
    assert |events + [e]| == |events| + 1;
  }

  lemma EmittedSoFar(
      events: seq<Event>, rounds: seq<Round>, l: Lists, firstId: nat, nextId: nat, lastText: Option<string>,
      lastId: Option<nat>)
    requires Underway(events, rounds, l, firstId, nextId, lastText, lastId)
    ensures Turns(events, rounds, l, |events|) && IncreasingIds(events) && firstId <= nextId
    ensures forall k :: 0 <= k < |events| ==> firstId <= events[k].id < nextId
    ensures lastText == (if events == [] then None else events[|events| - 1].text)
    ensures lastId == (if events == [] then None else Some(events[|events| - 1].id))
  {
    hide Turns, Finals, IncreasingIds;
  }

  lemma OrderGoesOn(events: seq<Event>, e: Event, firstId: nat)
    requires IncreasingIds(events + [e]) && firstId <= e.id && forall k :: 0 <= k < |events| ==> firstId <= events[k].id
    ensures InOrder(events + [e], firstId)
  {
    hide IncreasingIds;
    assert forall k :: 0 <= k < |events| ==> (events + [e])[k] == events[k];
  }

  /** The session is closed by `e`, and the result says so. */
  lemma ClosesWith(
      r: Result, events: seq<Event>, e: Event, rounds: seq<Round>, leaving: Flags, l: Lists, firstId: nat, nextId: nat,
      lastText: Option<string>, lastId: Option<nat>)
    requires Underway(events, rounds, l, firstId, nextId, lastText, lastId)
    requires e.id == nextId && Closing(e, |events|) && ClosedBy(e, rounds, |events|, leaving, l)
    requires r.kind == Some(e.kind) && (r.cancelled <==> e.kind == Cancelled)
    requires if e.kind == ConversationEnd then
               && r.reason == e.reason && (r.failed ==> r.reason != Some(ConversationIdle)) && r.text == lastText
               && r.turn == (if events == [] then None else Some(|events|))
               && r.id == (if lastId.Some? then lastId else Some(nextId))
             else !r.failed && r.text == e.text && r.turn == e.turn && r.id == Some(e.id)
    ensures ClosedProperly(r, events + [e], rounds, leaving, l)
    ensures InOrder(events + [e], firstId) && Finals(events + [e]) == 1
  {
    hide *;
    EmittedSoFar(events, rounds, l, firstId, nextId, lastText, lastId);
    Closes(events, e, rounds, l, firstId);
    OrderGoesOn(events, e, firstId);
    if e.kind == ConversationEnd {
      ReportsEnd(r, events, e);
    } else {
      ReportsTurn(r, events, e);
    }
    IsProper(r, events, e, rounds, leaving, l);
  }

  /**
   `_conversation_after_wake` over any finite stretch of listens; `None` means the
   session is still open at its end. `leaving` are the flags read on leaving the loop.
   */
  method ConversationAfterWake(rounds: seq<Round>, leaving: Flags, l: Lists, firstId: nat)
    returns (r: Option<Result>, events: seq<Event>)
    ensures InOrder(events, firstId)
    ensures r.None? ==>
              && Turns(events, rounds, l, |rounds|) && |events| == |rounds| && Finals(events) == 0
              && forall i :: 0 <= i < |rounds| ==> !rounds[i].after.Any()
    ensures r.Some? ==> r.value.activated && Finals(events) == if r.value.skipEmit then 1 else 0
    ensures r.Some? && r.value.skipEmit ==> ClosedProperly(r.value, events, rounds, leaving, l)
    ensures r.Some? && !r.value.skipEmit ==>
              events == [] && r.value.kind.None? && r.value.text.None? && r.value.failed && !r.value.cancelled && r.value.turn.None?
    ensures r.Some? && !r.value.skipEmit <==> rounds != [] && RoundEnding(rounds[0], l) in {Fails, EmptyThere}
  {
    hide PhraseIn, TurnText, CancelText, Strip, Finals, InOrder, Turns, Closed, ClosedBy, ClosedProperly, Underway;
    var turn: nat := 0;
    var lastText: Option<string>, lastId: Option<nat> := None, None;
    var nextId := firstId;
    events := [];
    SetsOut(rounds, l, firstId);
    var left := false;
    var i := 0;
    while i < |rounds| && !left
      invariant 0 <= i <= |rounds| && turn == i && |events| == i
      invariant Underway(events, rounds, l, firstId, nextId, lastText, lastId)
      invariant !left ==> forall k :: 0 <= k < i ==> !rounds[k].after.Any()
      invariant left ==> Leaves(rounds, i, l)
      invariant left && i == 0 ==> rounds != [] && RoundEnding(rounds[0], l) == StopsBefore
      invariant i > 0 ==> RoundEnding(rounds[0], l) == GoesOn
      decreases |rounds| - i, !left
    {
      var round := rounds[i];
      if round.before.Any() {
        left := true;
      } else {
        match round.heard {
          case Raised(_, noOpen) =>
            if turn == 0 {
              SetsOut(rounds, l, firstId);
              return Some(Result(
                  true, None, false, true, None, Some(nextId), None, Some(if noOpen then NoOpen else ListenFailed), false)),
                [];
            }
            var reason := FailureReason(round.heard);
            var e := Event(ConversationEnd, true, nextId, None, Some(turn), None, Some(reason));
            ByRound(e, rounds, turn, Fails, leaving, l);
            r := Some(Result(
                true, lastText, false, reason != ConversationIdle, Some(ConversationEnd),
                if lastId.Some? then lastId else Some(nextId), Some(turn), Some(reason), true));
            ClosesWith(r.value, events, e, rounds, leaving, l, firstId, nextId, lastText, lastId);
            return r, events + [e];
          case Speech(text, cancelled) =>
            var body := Strip(text);
            if cancelled {
              var e := Event(Cancelled, true, nextId, Some(turn + 1), None, if body == "" then None else Some(body), None);
              ByRound(e, rounds, turn, CancelledThere, leaving, l);
              r := Some(Result(true, e.text, true, false, Some(Cancelled), Some(nextId), Some(turn + 1), None, true));
              ClosesWith(r.value, events, e, rounds, leaving, l, firstId, nextId, lastText, lastId);
              return r, events + [e];
            }
            if body == "" {
              if turn == 0 {
                SetsOut(rounds, l, firstId);
                return Some(Result(true, None, false, true, None, Some(nextId), None, Some(EmptySpeech), false)), [];
              }
              left := true;
            } else {
              var hit := PhraseIn(body, l);
              if hit.Some? && hit.value.kind == Cancel {
                var said := if hit.value.body != "" then hit.value.body else body;
                CancelTextIs(body, l);
                var e := Event(Cancelled, true, nextId, Some(turn + 1), None, Some(said), None);
                ByRound(e, rounds, turn, CancelPhrase, leaving, l);
                r := Some(Result(true, Some(said), true, false, Some(Cancelled), Some(nextId), Some(turn + 1), None, true));
                ClosesWith(r.value, events, e, rounds, leaving, l, firstId, nextId, lastText, lastId);
                return r, events + [e];
              }
              var turnText := TurnText(body, l);
              turn := turn + 1;
              if hit.Some? {
                var e := Event(Prompt, true, nextId, Some(turn), None, Some(turnText), None);
                ByRound(e, rounds, i, EndPhrase, leaving, l);
                r := Some(Result(true, Some(turnText), false, false, Some(Prompt), Some(nextId), Some(turn), None, true));
                ClosesWith(r.value, events, e, rounds, leaving, l, firstId, nextId, lastText, lastId);
                return r, events + [e];
              }
              var said := Event(TurnEvent, false, nextId, Some(turn), None, Some(turnText), None);
              GoesOnWith(events, said, rounds, l, firstId, nextId, lastText, lastId);
              events := events + [said];
              lastText, lastId := Some(turnText), Some(nextId);
              nextId := nextId + 1;
              i := i + 1;
              left := round.after.Any();
            }
        }
      }
    }
    StillOn(events, rounds, l, firstId, nextId, lastText, lastId);
    if !left {
      return None, events;
    }
    var reason := ExitReason(leaving);
    var e := Event(ConversationEnd, true, nextId, None, Some(turn), None, Some(reason));
    OnLeaving(e, rounds, turn, leaving, l);
    r := Some(Result(
        true, lastText, false, false, Some(ConversationEnd), if lastId.Some? then lastId else Some(nextId),
        if turn == 0 then None else Some(turn), Some(reason), true));
    ClosesWith(r.value, events, e, rounds, leaving, l, firstId, nextId, lastText, lastId);
    events := events + [e];
  }

  lemma CancelTextIs(body: string, l: Lists)
    ensures var hit := PhraseIn(body, l);
            hit.Some? ==> CancelText(body, l) == if hit.value.body != "" then hit.value.body else body
  {
  }

  lemma KeepsCount(events: seq<Event>, e: Event)
    requires !e.final && IncreasingIds(events) && forall k :: 0 <= k < |events| ==> events[k].id < e.id
    ensures Finals(events + [e]) == Finals(events) && IncreasingIds(events + [e])
  {
    assert (events + [e])[..|events|] == events;
  }

  // ---------------------------------------------------------------- the outer loop

  /** The kind `ambient_event_line` gives a result. */
  function LineKind(r: Result): EventKind {
    if r.kind.Some? then r.kind.value
    else if r.activated && r.text.Some? && r.text.value != "" && !r.cancelled then Prompt
    else if r.cancelled then Cancelled
    else if r.activated && r.failed then ErrorEvent
    else if !r.activated then Timeout
    else ErrorEvent
  }

  /** What the outer loop writes for a result, if anything. */
  function OuterEvent(r: Result, freshId: nat, shutdown: bool, surfaceTimeouts: bool): Option<Event> {
    if r.skipEmit then None
    else if r.activated || !shutdown then
      if LineKind(r) == Timeout && !surfaceTimeouts then None
      else Some(Event(LineKind(r), true, if r.id.Some? then r.id.value else freshId, r.turn, None, r.text, r.reason))
    else None
  }

  lemma ClosedIsFinalOnlyLast(events: seq<Event>, rounds: seq<Round>, l: Lists)
    requires Closed(events, rounds, l)
    ensures events[|events| - 1].final && forall i :: 0 <= i < |events| - 1 ==> !events[i].final
  {
  }

  lemma FailedFirstTurn(r: Result, freshId: nat, shutdown: bool, surfaceTimeouts: bool)
    requires r.activated && !r.skipEmit && r.kind.None? && r.text.None? && r.failed && !r.cancelled
    ensures var e := OuterEvent(r, freshId, shutdown, surfaceTimeouts);
            e.Some? && e.value.kind == ErrorEvent && e.value.final && e.value.turn == r.turn
  {
  }

  lemma FinalAlone(e: Event)
    requires e.final
    ensures Finals([e]) == 1
  {
    OneFinal([], e);
    assert [] + [e] == [e];
  }

  /**
   One activated conversation and what the outer loop adds to it: exactly one final
   event in all, written by the session or else, only when its first turn failed, by
   the outer loop as an error.
   */
  method OneConversation(
      rounds: seq<Round>, leaving: Flags, l: Lists, firstId: nat, freshId: nat, shutdown: bool, surfaceTimeouts: bool)
    returns (r: Option<Result>, events: seq<Event>)
    ensures r.Some? ==>
              && Finals(events) == 1 && events != [] && events[|events| - 1].final
              && (forall i :: 0 <= i < |events| - 1 ==> !events[i].final)
    ensures r.Some? ==>
              if rounds != [] && RoundEnding(rounds[0], l) in {Fails, EmptyThere}
              then |events| == 1 && events[0].kind == ErrorEvent && events[0].turn.None?
              else Closed(events, rounds, l)
    ensures r.None? ==> Finals(events) == 0
  {
    hide *;
    r, events := ConversationAfterWake(rounds, leaving, l, firstId);
    if r.Some? {
      var line := OuterEvent(r.value, freshId, shutdown, surfaceTimeouts);
      if r.value.skipEmit {
        ProperIsClosed(r.value, events, rounds, leaving, l);
        SkipsEmission(r.value, freshId, shutdown, surfaceTimeouts);
        ClosedIsFinalOnlyLast(events, rounds, l);
      } else {
        FailedFirstTurn(r.value, freshId, shutdown, surfaceTimeouts);
        FinalAlone(line.value);
        assert events + [line.value] == [line.value];
      }
      if line.Some? {
        events := events + [line.value];
      }
    }
  }

  lemma SkipsEmission(r: Result, freshId: nat, shutdown: bool, surfaceTimeouts: bool)
    requires r.skipEmit
    ensures OuterEvent(r, freshId, shutdown, surfaceTimeouts) == None
  {
  }

  lemma ProperIsClosed(r: Result, events: seq<Event>, rounds: seq<Round>, leaving: Flags, l: Lists)
    requires ClosedProperly(r, events, rounds, leaving, l)
    ensures events != [] && Closed(events, rounds, l)
  {
  }
}
