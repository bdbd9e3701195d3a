/** How one round ends a session, and what a turn says, by the transcript alone. */
module ConversationMeaning {
  import opened Wrappers
  import opened SpokenText
  import opened ListenEnd
  import opened RadioTranscript
  import opened RadioDecision
  import opened Conversation

  lemma {:induction false} LeadingOnly(s: string)
    ensures TrimLeading(s) == "" <==> AllBlank(s)
  {
    if s != "" && Blank(s[0]) {
      LeadingOnly(s[1..]);
      assert s == [s[0]] + s[1..];
    }
  }

  lemma {:induction false} BlankGoes(s: string)
    ensures AllBlank(TrimBlank(s)) <==> AllBlank(s)
  {
    if s != "" && Blank(s[|s| - 1]) {
      BlankGoes(s[..|s| - 1]);
      assert s == s[..|s| - 1] + [s[|s| - 1]];
    }
  }

  /** Nothing is left of a text exactly when it is all whitespace. */
  lemma StripIsEmptyIff(s: string)
    ensures Strip(s) == "" <==> AllBlank(s)
  {
    LeadingOnly(TrimBlank(s));
    BlankGoes(s);
  }

  /** The transcript's own words cancel or end, or what is left of them without politeness does. */
  ghost predicate SaysCancel(body: string, l: Lists) {
    var said, rest := Core(body), StripCourtesy(body, l.courtesy);
    if Hits(said, l.cancel, []) || Hits(said, l.end, []) then Hits(said, l.cancel, []) else Hits(rest, l.cancel, [])
  }

  ghost predicate SaysEnd(body: string, l: Lists) {
    var said, rest := Core(body), StripCourtesy(body, l.courtesy);
    !SaysCancel(body, l) && (Hits(said, l.end, []) || Hits(rest, l.end, []))
  }

  /** Whether a hit is a cancel or an end; no soft end ever closes a session. */
  lemma PhraseInIff(body: string, l: Lists)
    ensures var r := PhraseIn(body, l);
            && (r.Some? && r.value.kind == Cancel <==> SaysCancel(body, l))
            && (r.Some? && r.value.kind == End <==> SaysEnd(body, l))
  {
    EvaluateDecides(body, SessionLists(l));
    hide Hits, Core, StripCourtesy, Evaluate;
  }

  /** Exactly how a round ends the session: by its flags, its failure, or the text that was heard. */
  lemma RoundEndingIff(r: Round, l: Lists)
    ensures var e, stopped := RoundEnding(r, l), r.before.shutdown || r.before.reload;
            && (e == StopsBefore <==> stopped)
            && (e == Fails <==> !stopped && r.heard.Raised?)
            && (e == CancelledThere <==> !stopped && r.heard.Speech? && r.heard.cancelled)
            && (e == EmptyThere <==> !stopped && r.heard.Speech? && !r.heard.cancelled && AllBlank(r.heard.text))
            && (e == CancelPhrase <==>
                  && !stopped && r.heard.Speech? && !r.heard.cancelled && !AllBlank(r.heard.text)
                  && SaysCancel(Strip(r.heard.text), l))
            && (e == EndPhrase <==>
                  && !stopped && r.heard.Speech? && !r.heard.cancelled && !AllBlank(r.heard.text)
                  && SaysEnd(Strip(r.heard.text), l))
  {
    if r.heard.Speech? {
      StripIsEmptyIff(r.heard.text);
      PhraseInIff(Strip(r.heard.text), l);
    }
    hide PhraseIn, SaysCancel, SaysEnd, Strip, AllBlank;
  }

  /** A turn's text is the transcript, or what comes before the end phrase in one of its two forms. */
  lemma TurnTextIs(body: string, l: Lists)
    ensures var t := TurnText(body, l);
            || t == body
            || (&& SaysEnd(body, l)
                && exists core, p ::
                     && core in [Core(body), StripCourtesy(body, l.courtesy)]
                     && MayEnd(core, p, []) && p in Forms(l.end)
                     && t == TrimTrailing(Before(core, p)))
  {
    PhraseInIff(body, l);
    var r := PhraseIn(body, l);
    var s := SessionLists(l);
    if r.Some? && r.value.kind == End && r.value.body != "" && Strip(r.value.body) != "" {
      CoreIsBare(body);
      ShedAllKeeps(Core(body), LongestFirst(Forms(l.courtesy)));
      BareIsFixed(StripCourtesy(body, l.courtesy));
      EndHit(Core(body), s, body);
      EndHit(StripCourtesy(body, l.courtesy), s, body);
      hide EvaluateForm, Core, StripCourtesy, MayEnd, Forms, SaysEnd;
    }
  }

  lemma EndHit(core: string, l: Lists, raw: string)
    requires Bare(core) && !l.softEnabled
    ensures var r := EvaluateForm(core, l, raw);
            r.Some? && r.value.kind == End ==>
              var p := r.value.phrase;
              && MayEnd(core, p, []) && p in Forms(l.end)
              && Strip(r.value.body) == TrimTrailing(Before(core, p))
  {
    FindSplits(core, l.cancel, Cancel, [], raw);
    FindSplits(core, l.end, End, [], raw);
    var r := FindIn(core, l.end, End, [], raw);
    if r.Some? {
      AdmissibleIff(core, r.value.phrase, []);
      BodyIs(core, r.value.body, Before(core, r.value.phrase));
    }
    hide FindIn, Bare, MayEnd, Admissible, Strip, Trails;
  }

  lemma BodyIs(core: string, body: string, before: string)
    requires Bare(body) && Trails(body, before)
    ensures Strip(body) == TrimTrailing(before)
  {
    TrailsTrimSame(body, before);
  }
}
