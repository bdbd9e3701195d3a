# Hark verification model

Hark is a voice bridge. It hears a blocked coding agent's question, takes a spoken
answer, and delivers that answer to exactly one terminal pane. This project models the
parts of Hark whose correctness is a matter of protocol or of text reasoning, in Dafny
4.11, and proves properties of them over all inputs, all runs and all failures.

Verify everything with `dafny verify dfyconfig.toml`.

## What is modelled

**Bound-answer delivery** (`DeliveryLog`, `DeliveryGrammar`, `DeliveryProtocol`,
`DeliverySafety`, `DeliveryLease`, `DeliveryStore`, `Answering`). Any number of callers, external marks and
crashes race over one append-only log. `DeliveryProtocol` is a state machine with one
program counter for each caller; a run is an arbitrary sequence of actions, so a theorem
about all sequences covers all interleavings. A crash needs no action: a crashed caller
never moves again. Lease staleness, live verdicts, send errors and storage errors are
chosen freely, so nothing proved depends on a clock; `DeliveryLease` says what holds while
no lease is called stale, and what each step of a caller answers and writes, over the
event's records alone. `DeliveryStore` is the store as a
class whose loops and branches are proved to do what the log functions say, and
`Answering.Session` is the caller's straight-line program, proved to be a run of the
machine, so the theorems hold of it. `QueueOrder`, `DeliveryQueue` and `QueueClassifier`
treat the pending queue over the same log, and `QueueMeaning` says which events are fresh in
terms of the events' own fields.

**Ambient pause registry** (`PauseOwners`, `PauseRegistry`, `PauseFile`). One marker file
rewritten under a lock. Each locked section is one atomic step with its own clock
reading, its own procfs answers and its own read and write failures; a request that fails
after publication is two sections with other processes' sections in between.
`PauseFile.PauseMarker` is the class that runs the sections.

**Speech deferral** (`SpeechDeferral`). The two polling loops that hold back speech while
the operator is recorded, in integer microseconds. Every probe takes at least a tick and
at most a given maximum, every sleep may overshoot by at most a given maximum. The looks and
the readings of the operator's quiet are on record, so a contract can say what a wait that
gave up had last seen.

**Transactional worker start** (`WorkerProcesses`, `WorkerRollback`, `WorkerStart`). Owned
child processes, descriptors and the pidfile. Polls, waits, signals, captures, closes and
writes fail arbitrarily, and apart from those failures an asynchronous exception may land
between any two guarded stages. Every answer is an arbitrary function of the calls made
before it, kinds and order, and a contract speaks of the very calls that were made: a start
goes through exactly when no call of it went wrong, only an exception cuts a rollback short,
and only a second one during its rerun leaves a start half undone. A `Pass` records what one
run of the rollback saw and wrote.

**Confirmation classifier** (`ConfirmProjection`, `ConfirmFacts`, `ConfirmBridge`,
`ConfirmReports`, `ConfirmCrossing`, `ConfirmMeaning`, `WholeWords`, `ConfirmReply`,
`ConfirmText`, `ConfirmClassifier`). Unicode is a record of functions about which only this is used:
decompositions are not empty, and whitespace is neither transparent nor alphabetic. The
bridge scan is a loop over a mutable candidate, proved equal to a fold over positions
(`StateAt`, `SpansAt`); its invariants, the soundness of what it reports and what it cannot
miss are lemmas about every state the fold reaches. `ConfirmReports` says what is open at a
position by the transcript alone, and proves that the scan reports exactly what is due by
that definition.

**Conversation session, radio end phrases, silence endpointer, log tail**
(`Conversation`, `ConversationMeaning`, `SpokenText`, `ListenEnd`, `RadioTranscript`,
`RadioDecision`, `RadioDefaults`, `Endpointing`, `TailLines`). `RadioDecision` and
`ConversationMeaning` say what an utterance and a listen decide by the text alone.

Where a method is proved equal to a function, what the function computes is stated once more
apart from it: over records, over the looks that were made, over the characters of a text.

## Where the code differs from what it says

These are properties that are false of the code as written. Each has a proved exact
condition.

- After the client send, a failed compare-and-set does not always find `uncertain` in the
  log. It does if and only if no write of `delivered` by that caller landed and then
  raised (`DeliverySafety.FailedSettleFindsUncertain`). In the failing case the caller
  answers `uncertain` about an event the log calls `delivered`
  (`DeliverySafety.HalfWriteAnswersUncertain`).
- A legacy pause owner is not retained fail-closed when the boot id file is absent, though
  the comment at `src/hark/mic_coord.py:273-274` says it is until procfs and the boot id
  can be read. `PauseOwners.DroppedIff` gives the exact condition.
- A refused pause request can leave its own owner in the file, on either of two paths. If
  it failed to publish, it does exactly when the new file was in place and the rollback
  write failed before replacing it. If it had published and was then interrupted, it does
  exactly when its token is still in the file and the withdrawal cannot read the file, does
  not find the owner live, or fails before replacing the file
  (`PauseRegistry.RefusedRequestLeavesOwnerIff`); while the process runs and nobody released
  the token, that is when the withdrawal's read fails or its write fails before replacing
  (`PauseRegistry.RunningRequestLeavesOwnerIff`).
- A rollback in which a pidfile writer succeeded can lose a survivor: a child not seen to
  exit is missing exactly when the step that builds the complete payload raised, the direct
  write that follows it succeeded, and the original file did not list the child
  (`WorkerRollback.SurvivorListedIff`). `WorkerRollback.SurvivorLost` is such a run, in which
  no write fails.
- A start undone without survivors does not always leave the pidfile as it found it. If it
  had written the file, it does exactly when the last payload to land in the last pass was
  the original. If it had not, it does unless the first pass found survivors, published
  them and was then cut short by an asynchronous exception among its closes: the rerun
  finds nobody and writes nothing (`WorkerStart.UndoneRestoresIff`).
  `WorkerStart.DeadWorkerListed` is such a run, in which nothing fails and the file ends up
  listing a worker seen to have exited.
- The comment at `src/hark/confirm_lexicon.py:624-626` says that a bridge candidate is kept
  until a real raw-whitespace boundary, but a candidate outlives a raw space that directly
  follows a later left part. A reported span therefore crosses a raw space exactly when it
  holds one that directly follows a left part (`ConfirmBridge.CrossesOnlyOwned`), and none
  does if no left part is followed by one (`ConfirmBridge.StaysInToken`). A transcript has
  such a span exactly when some right part shuts the first left part still open with a raw
  space behind it, or a fallback over its own raw space (`ConfirmReports.CrossesIff`). The scan of
  `can.can xt` for `can't` reports a span across the space (`ConfirmCrossing.CrossesRawSpace`).
  Keeping a candidate longer is on the fail-closed side.
- Worker admission without live workers does not check the caller's own list: a started role
  may then have another record in the pidfile, exactly when that list names the role
  (`WorkerStart.StartedRolesAreNew`).
- An endpointing strategy that never decides makes the energy gate's decisions if and only
  if it is first consulted no later than the gate would end, or the hard cap equals the
  gate's silence (`Endpointing.FallbackIsEnergyGate`).

## Model

| member | source | states |
|---|---|---|
| DeliverySafety.AtMostOneSend | src/hark/answering.py:161-190 | In every run, over any callers, marks, crashes, lease oracle and storage errors, no event is sent twice. |
| DeliverySafety.SendNeedsSendingRecord | src/hark/delivery.py:253-283 | Every send is backed by exactly one durable `sending` record of its event, written under the sender's own token. |
| DeliverySafety.LogGrammar | src/hark/delivery.py:167-283 | The records of every event are abandoned attempts followed by at most one ending: a rejection by the owner, one external mark, or `sending` under the checked token and at most one outcome. |
| DeliveryGrammar.PhaseIffConforms | src/hark/delivery.py:26-32 | The six-state automaton that the invariants use accepts exactly the record sequences of that declarative grammar. |
| DeliverySafety.SupersededForever | src/hark/delivery.py:167-253 | Once another token has written after it, a token never writes for that event again. |
| DeliverySafety.FinalForever | src/hark/delivery.py:255-283 | A settled or closed event keeps its state in every continuation of every run. |
| DeliverySafety.ExternalFencing | src/hark/delivery.py:393-418 | If an external mark returns true, no send of that event happened before it and none happens in any continuation, even with an owner in mid-validation. |
| DeliverySafety.MarkRefusedIff | src/hark/delivery.py:393-418 | A mark is refused exactly when the event has a `sending`, rejected or external record. |
| DeliverySafety.OutcomeAgreement | src/hark/answering.py:172-223 | A caller told `rejected` or `in_progress` sent nothing; one told `delivered` sent and owns the permanent record; every finished sender leaves `delivered` or `uncertain` under its token, for ever. |
| DeliverySafety.OneDeliveredAnswer | src/hark/answering.py:172-223 | No two callers are both told `delivered` for one event. |
| DeliverySafety.RepairAppendsNothing | src/hark/delivery.py:316-342 | In the closed protocol the post-send repair never appends a record. |
| DeliverySafety.FailedSettleFindsUncertain | src/hark/answering.py:191-221 | After a failed post-send compare-and-set the log says `uncertain` if and only if no write of `delivered` by this caller landed and then raised. |
| DeliverySafety.HalfWriteAnswersUncertain | src/hark/answering.py:183-221 | A run in which it landed and raised: the caller answers `uncertain` about a delivered event. |
| DeliverySafety.OpenEventIsDeliverable | src/hark/answering.py:91-223 | From every reachable state, a new caller left alone delivers any event that can still be marked, with exactly one send. |
| DeliverySafety.DeliveredScansAgree | src/hark/delivery.py:470-484 | On every reachable log the existential scan for `delivered` agrees with the latest status. |
| DeliveryLease.LiveLeaseHolds | src/hark/delivery.py:215-224 | While the last record is active and not stale, a caller that asks writes nothing, sends nothing and is told `in_progress`. |
| DeliveryLease.GrantedIff | src/hark/delivery.py:187-253 | Ownership is granted exactly for a pending event without records, or on a stale lease before the send. |
| DeliveryLease.StaleSendIsUncertain | src/hark/delivery.py:225-239 | A stale `sending` is closed as uncertain under the token that may have sent. |
| DeliveryLease.OneOwnerWithoutTakeover | src/hark/delivery.py:167-253 | In every run in which no lease is called stale, only the first record of an event is an `acquired`, and every token among its records is that owner's. |
| DeliveryLease.ClosedEventAnswers | src/hark/answering.py:37-53 | Whoever asks about an event that is not open, before owning it or after losing it, is told its outcome by the last record, or by the registration if there is none. |
| DeliveryLease.LoserIsToldInProgress | src/hark/delivery.py:308-311 | A caller that lost its lease to another is told `in_progress`. |
| DeliveryLease.OwnerAdvances | src/hark/answering.py:109-172 | Before the send an owner moves on only with a fingerprint and a passed check, and is otherwise rejected on record with that reason. |
| DeliveryLease.LostLeaseStops | src/hark/answering.py:116-172 | An owner whose lease was taken over or closed writes nothing, sends nothing and asks for the outcome. |
| DeliveryLease.OwnerSettles | src/hark/answering.py:172-223 | From the boundary on: one send, then `delivered`, or `uncertain` with the send's error, under the owner's token. |
| DeliveryLease.FaultsStop | src/hark/answering.py:91-223 | A storage error stops a caller before the send and counts as an error of the send after it. |
| DeliveryProtocol.StepKeeps | src/hark/answering.py:91-223 | One step of any caller or marker keeps the protocol's inductive invariant. |
| DeliveryLog.LatestIsLast | src/hark/delivery.py:120-132 | The forward scan's result is the last record of the event. |
| DeliveryStore.DeliveryStore.LatestDelivery | src/hark/delivery.py:120-132 | The scan loop returns the event's last record. |
| DeliveryStore.DeliveryStore.LatestStatuses | src/hark/delivery.py:420-434 | The one-pass dictionary fold holds exactly the events with records, each with the status of its last record. |
| DeliveryStore.DeliveryStore.AlreadyDelivered | src/hark/delivery.py:470-484 | True exactly when some record of the event is `delivered`. |
| DeliveryStore.DeliveryStore.AcquireDelivery | src/hark/delivery.py:167-253 | An active record that is not stale holds: the log stays and the answer is `in_progress`. Ownership is granted exactly for a pending event without records or on a stale lease before the send, by one appended record; a stale `sending` becomes `uncertain` under its own token; a closed event keeps its log. Storage errors come before or after the write. |
| DeliveryStore.DeliveryStore.AdvanceDelivery | src/hark/delivery.py:255-283 | True exactly when the last record carries the token and may move to the next status by the transition table; then exactly that record is appended, and otherwise none. |
| DeliveryStore.DeliveryStore.CurrentDelivery | src/hark/delivery.py:285-314 | Reads the outcome the losing caller reports, which `DeliveryLease` spells out, and changes nothing. |
| DeliveryStore.DeliveryStore.EnsureUncertainAfterSend | src/hark/delivery.py:316-342 | Leaves `delivered` or `uncertain` as the last record and reports which; an outcome that is already there stays as it is. |
| DeliveryStore.DeliveryStore.MarkEvent | src/hark/delivery.py:393-418 | Appends the terminal record with its reason and returns true exactly when there is no record or the last one is pending, `acquired` or `validating`. |
| DeliveryStore.DeliveryStore.Get | src/hark/delivery.py:348-373 | The last registration of the event, under the status the log gives it. |
| DeliveryStore.DeliveryStore.InvalidateTarget | src/hark/delivery.py:436-468 | Every still-pending event of the target ends as invalidated with the given reason, no other event is touched, and none is listed twice despite repeated registrations. |
| DeliveryStore.DeliveryStore.AllPendingRaw | src/hark/delivery.py:486-509 | The pending events, the last registration of each, in order of first registration, without repeats. |
| DeliveryStore.DeliveryStore.ClassifyPending | src/hark/delivery.py:511-583 | The two-pass classification is a correct split of the raw pending events; without deduplication the fresh ones are the routable ones of acceptable age, in their order. |
| DeliveryStore.DeliveryStore.Prune | src/hark/delivery.py:615-660 | Closes every stale event and every fresh one the live check refuses, each with the reason it is listed under, and no other event. |
| DeliveryStore.DeliveryStore.PruneThenClassify | src/hark/cli.py:2395-2407 | Classifying right after a prune, with or without deduplication and live check, gives the fresh events of before that pass the check, in the same order, and nothing stale. |
| QueueClassifier.Classify | src/hark/delivery.py:543-583 | Fresh and stale together are a permutation of the raw events; fresh is sorted and is exactly the newest candidate of each target; each stale event has its reason, and a superseded one a newer fresh event of its target. |
| QueueClassifier.SplitStale | src/hark/delivery.py:527-541 | The first pass sets aside exactly the events without a pane or beyond the age limit, and keeps the others in order. |
| QueueClassifier.PickNewest | src/hark/delivery.py:543-579 | The second pass keeps one event of each target, the greatest by creation time and id, and sets aside the others as superseded. |
| QueueMeaning.FreshExactly | src/hark/delivery.py:511-583 | Exactly the fresh events, by their fields: a pane that is not blank, a known and recent enough creation time under an age limit, and no such event for the same session and pane that is later by time and id; in order. |
| QueueMeaning.StaleExactly | src/hark/delivery.py:527-583 | An event that is set aside names the rule it fails, and a superseded one the later fresh event of its target. |
| QueueMeaning.TargetIff | src/hark/delivery.py:546-552 | Two events have the same target exactly when session and pane agree without the whitespace around them. |
| QueueMeaning.TextLeqIff | src/hark/delivery.py:556-577 | Ids are ordered lexicographically: the first difference decides. |
| QueueMeaning.IdsInOrder | src/hark/delivery.py:486-504 | Ids are listed in the order of their first registrations. |
| QueueMeaning.LastRegistrationIs | src/hark/delivery.py:348-373 | The registration that counts is the last one under the id. |
| DeliveryQueue.OneFreshPerTarget | src/hark/delivery.py:543-583 | No two fresh events share a session and pane. |
| DeliveryQueue.FreshUnique | src/hark/delivery.py:511-583 | The fresh list is determined by the raw pending events. |
| DeliveryQueue.PruneIsStable | src/hark/delivery.py:615-660 | On any log in which exactly what a prune dooms was closed, both splits of the pending events agree in that way. |
| QueueClassifier.CountTargets | src/hark/delivery.py:663-688 | The announced targets are exactly the routable targets of the list, each once. |
| QueueClassifier.FreshCount | src/hark/delivery.py:663-688 | The announced count of a fresh list is its length. |
| Answering.Session.AnswerBoundEvent | src/hark/answering.py:56-223 | A request joins the protocol exactly when it has either text or keys and its event is registered or has a fallback; then what it does is its own program, step for step under the registration's status and fingerprint, with anything running in between, and the answer is where that program ends. Any other request touches nothing and is rejected with its reason. |
| Answering.Session.AnswerOnce | src/hark/answering.py:56-223 | In a session that only ran the protocol: no event was sent twice, a refusal sent nothing, `delivered` is on record, and a request left alone with an event that can still be marked is answered `delivered` after exactly one send. |
| PauseOwners.DroppedIff | src/hark/mic_coord.py:151-207 | Exactly when an owner is dropped, current or legacy: no possible pid, no reason, older than 14400 s or more than 5 s ahead, or procfs disproves it. Otherwise it is kept, under its process identity once procfs tells it. |
| PauseOwners.LegacyOwnerLostWithoutBootFile | src/hark/mic_coord.py:184-192 | A running legacy owner is dropped when the boot id file is absent, though a current owner would be kept. |
| PauseOwners.TidyIsSurvivors | src/hark/mic_coord.py:287-302 | An owner list that is not dirty is exactly its live owners. |
| PauseOwners.SurvivorsAreTidy | src/hark/mic_coord.py:287-302 | A list that is exactly its live owners is not dirty. |
| PauseOwners.NobodySurvivesIff | src/hark/mic_coord.py:286-302 | No owner survives a scan exactly when every entry is malformed, out of age or disproved by procfs. |
| PauseRegistry.StepKeepsOwner | src/hark/mic_coord.py:326-478 | No read, request, withdrawal or release by anyone else unregisters a running owner, whichever reads and writes fail. |
| PauseRegistry.GrantedOwnerHoldsThePause | src/hark/mic_coord.py:352-478 | From the return of its request until its own release, over every interleaving and failure, a running owner within age stays registered and every reader sees a pause. |
| PauseRegistry.LegacyOwnerHoldsThePause | src/hark/mic_coord.py:210-302 | The same for the owner of a singleton file, under one derived token before, during and after migration. |
| PauseRegistry.RegisteredMeansPaused | src/hark/mic_coord.py:348-368 | A reader never reports no pause while a running owner is registered, even when its own write fails. |
| PauseRegistry.FutureSchemaIsUntouched | src/hark/mic_coord.py:273-285 | A marker of an unknown version is never rewritten by any run, and reads as a pause. |
| PauseRegistry.FailedRequestLeavesOthers | src/hark/mic_coord.py:405-423 | A request that fails to publish leaves the live owners and nobody else, and its own owner exactly when its rollback write fails after the new file was in place. |
| PauseRegistry.RefusedRequestLeavesOwnerIff | src/hark/mic_coord.py:402-444 | Exactly when a refused request leaves its own owner in the file, whether it failed to publish or was interrupted afterwards, whatever others did in between. |
| PauseRegistry.RunningRequestLeavesOwnerIff | src/hark/mic_coord.py:424-444 | For a running process whose token nobody released, an interrupted request leaves its owner exactly when the withdrawal cannot read the file or fails before replacing it. |
| PauseRegistry.ClearReleasesExactly | src/hark/mic_coord.py:464-478 | Releasing a token writes back every other live owner in order and nothing else. |
| PauseRegistry.NoPauseLeavesNoMarker | src/hark/mic_coord.py:352-362 | After a reader reports no pause, no marker file is left. |
| PauseRegistry.ReadAnswers | src/hark/mic_coord.py:352-368 | A reader that can read and write answers no pause, and leaves no marker, exactly when every owner is void; otherwise it answers and leaves the live owners. |
| PauseRegistry.OldMarkerGoesAway | src/hark/mic_coord.py:151-176 | A version-2 or singleton marker whose owners are all impossible, older than 14400 s or more than 5 s ahead pauses nobody and goes away, whatever procfs answers. |
| PauseRegistry.ReadRewritesIff | src/hark/mic_coord.py:355-358 | A non-empty version-2 file is rewritten exactly when it is not the live owners. |
| PauseRegistry.ClearOwnReleasesExactly | src/hark/mic_coord.py:447-478 | The tokenless release removes the marker exactly when the sole live owner is this very process. |
| PauseFile.PauseMarker.ReadLiveOwners | src/hark/mic_coord.py:237-302 | The owners that are not out of age and that procfs does not disprove, in order; none exactly when every entry is void; a non-empty version-2 list is dirty exactly when it is not the live owners as they would be written. |
| PauseFile.PauseMarker.ReadAmbientPause | src/hark/mic_coord.py:352-368 | A read that can read and write answers no pause and leaves no marker exactly when every owner is void, and otherwise answers and leaves the live owners. An unreadable marker or an unknown version reads as a pause and stays. |
| PauseFile.PauseMarker.RequestAmbientPause | src/hark/mic_coord.py:371-444 | Granted exactly when the identity is verified, publication succeeds and nothing interrupts; then the owner is registered. Each refusal names its error, and leaves its owner under exactly the condition above. |
| PauseFile.PauseMarker.ClearAmbientPause | src/hark/mic_coord.py:447-478 | The release section with a token. |
| PauseFile.PauseMarker.ClearOwnPause | src/hark/mic_coord.py:447-478 | The release section without a token: it removes the marker exactly when the sole live owner is this very process, and otherwise leaves the live owners. |
| PauseFile.HoldMicrophone | src/hark/mic_coord.py:503-527 | The token is released on every way out: a busy microphone, a failing body or a finished one. |
| SpeechDeferral.SettlePad | src/hark/mic_coord.py:745-780 | The quiet pad completes only if every look over its whole length was inactive, with no long gap between looks, and at most one gap after its length; it expires only within its length; a capture that opens again ends it at that look. |
| SpeechDeferral.WaitUntilIdle | src/hark/mic_coord.py:698-833 | The wait looks at least once every poll and never outlasts a closed capture: a timeout saw the capture active within the quiet pad and one gap, any ending comes within the pad and two gaps of an active look, and at the horizon the last look was active. With a positive cap it ends by the cap, one poll and two probes, without one it never times out, and an ending of its own saw the whole pad inactive. |
| SpeechDeferral.WaitForQuiet | src/hark/mic_coord.py:914-1054 | The same with three probes; besides, a timeout or the horizon means that the operator's quiet was read after every look that found the capture still open and was never long enough, and any other ending saw a completed pad or a long enough quiet. |
| SpeechDeferral.WaitUntilPlayAllowed | src/hark/mic_coord.py:839-902 | A capture first seen in silence mode, or any capture without streaming, lets speech through early only when it was last seen inactive; a timeout, an ending and the horizon mean the same as in the loop that ran. |
| SpeechDeferral.NoticedWithin | src/hark/mic_coord.py:743-833 | A wait that was seen active within a span notices a capture that stays closed within that span. |
| SpeechDeferral.AwaitPad | src/hark/mic_coord.py:744-797 | What a round that finds the capture closed does: nothing without a pad, and otherwise goes through it, ends in time or waits on. |
| SpeechDeferral.HearOperator | src/hark/mic_coord.py:1004-1054 | What a round that finds the capture open does: it lets speech through on enough quiet, gives up exactly at the deadline, and otherwise sleeps. |
| WorkerRollback.CloseOwned | src/hark/daemon.py:420-441 | Every descriptor is either still held or was closed exactly once, whatever raises; a pass finishes exactly when no asynchronous exception lands in it, and then holds none. |
| WorkerRollback.SignalOwned | src/hark/daemon.py:482-508 | A signal goes to the owned child itself, exactly when it is pinned and its record, if any, still matches a running lifetime, or when it has a record and no pin. |
| WorkerRollback.Terminate | src/hark/daemon.py:510-517 | SIGTERM once to every child its own poll did not see exit, and no other signal. |
| WorkerRollback.ReapOne | src/hark/daemon.py:524-549 | A child that a wait, or a poll after a failing wait, sees exit is not signalled; any other is tried with SIGKILL and waited for again. |
| WorkerRollback.StopChildren | src/hark/daemon.py:510-556 | No kill comes before every child was given its SIGTERM, no signal is sent twice, and when finished every child was seen gone or tried with both, unless nothing allowed it. |
| WorkerRollback.FindSurvivors | src/hark/daemon.py:551-556 | The survivors are exactly the children whose last poll did not report an exit; the look is cut short exactly by an asynchronous exception. |
| WorkerRollback.RecoverRecords | src/hark/daemon.py:566-598 | Every survivor leaves with a record: start ticks where procfs discloses them, and otherwise its spawn token; the recovery is cut short exactly by an asynchronous exception. |
| WorkerRollback.Publish | src/hark/daemon.py:602-656 | Which of the three writers gets through, the calls made on the way, and the file afterwards, writers that fail after or while writing included: the last payload that landed. |
| WorkerRollback.NothingPublishedIff | src/hark/daemon.py:602-656 | Nothing is published exactly when every writer that has something to write was asked, in turn, and failed. |
| WorkerRollback.OriginalIsKept | src/hark/daemon.py:602-632 | A raw payload that got through begins with the original lines, and is the original without survivors. |
| WorkerRollback.Rollback | src/hark/daemon.py:444-660 | For any combination of failures the rollback finishes exactly when no asynchronous exception lands in it. Descriptors are conserved and signals stay owned; a finished rollback holds no descriptor and every child was seen gone or tried with SIGTERM, and seen gone or tried with SIGKILL, unless nothing allowed it; finished or not, no kill comes before every child was given its SIGTERM, and no signal is sent twice. Its pass says what became of the pidfile: nothing before the write stage, and afterwards what that stage left. An empty failure list means full restoration. |
| WorkerRollback.SurvivorListedIff | src/hark/daemon.py:602-656 | When some writer succeeded, a child not seen to exit is in the pidfile unless building the complete payload raised and the direct write succeeded; then it is there exactly if the original file already listed it. |
| WorkerRollback.SurvivorLost | src/hark/daemon.py:602-632 | A rollback in which every write succeeds and a running child is in no line of the pidfile. |
| WorkerProcesses.ByPidKeeps | src/hark/daemon.py:640-652 | The structured writer's one-record-a-pid file keeps every record that no later one of its pid replaces. |
| WorkerStart.UndoStart | src/hark/daemon.py:976-1004 | There is a second pass exactly when the first was cut short, starting from the file that one left; the start is undone exactly when the last pass was not cut short, and then no descriptor is held and every child is seen gone or was tried with SIGTERM and then with SIGKILL. |
| WorkerStart.UndoneRestoresIff | src/hark/daemon.py:602-656 | Exactly when a start undone without survivors leaves the pidfile as it was before the start. |
| WorkerStart.UsuallyRestores | src/hark/daemon.py:602-626 | It does if the start had written and a writer of the last pass succeeds, or had not written and no exception cut the first pass short. |
| WorkerStart.DeadWorkerListed | src/hark/daemon.py:976-1004 | An undone start in which nothing fails, nobody survives and the pidfile lists the dead worker. |
| WorkerStart.SpawnAll | src/hark/daemon.py:765-938 | The owners are exactly the children of the attempts made, each with its role, token and descriptor; each is polled, published and waited for in this order, until the first that is flawed or that a failing call stops; the file counts as touched exactly when a write was tried. |
| WorkerStart.Launch | src/hark/daemon.py:892-915 | A child is polled, then published with all owners and the preserved records, then waited for; it is confirmed exactly when none of the three goes wrong. |
| WorkerStart.StartWorkers | src/hark/daemon.py:741-1025 | Every role runs, is confirmed and is recorded in the pidfile read back, exactly when every attempt was sound and no call went wrong. Otherwise the start was undone for exactly the children of the attempts made, and without survivors the pidfile is what it was exactly under the condition above; or it was abandoned: after exceptions in both passes, or, with every role already verified, after one among its closes or in the rollback that follows a failing close. Every role is polled, published and waited for, all are polled again, published and polled once more, in this order and as far as the start comes. No descriptor is lost or closed twice. |
| WorkerStart.ReadBackAgrees | src/hark/daemon.py:930-975 | A pidfile just written reads back as every owner's own record, whatever was preserved beside it. |
| WorkerStart.StartedRolesAreNew | src/hark/daemon.py:683-738 | The pidfile's records of a started role are the new ones, if and only if there were live workers, whose list is checked, or the caller's own list names none of the roles. |
| WorkerStart.AdmitsIff | src/hark/daemon.py:683-738 | Beside live workers a start is refused exactly when one has a role to be started or is unknown to the caller; the list that is kept is theirs, and without any the caller's. |
| ConfirmProjection.BuildRawProjection | src/hark/confirm_lexicon.py:239-280 | Refuses exactly when a canonical segment is oversized; otherwise each raw index owns exactly its decomposition, in order. |
| ConfirmProjection.RawIndicesSorted | src/hark/confirm_lexicon.py:268-280 | Raw indices never decrease along the projection. |
| ConfirmMeaning.OversizedIff | src/hark/confirm_lexicon.py:250-272 | A segment is oversized exactly when more than 256 raw characters in a row join one another. |
| ConfirmMeaning.SupportedIff | src/hark/confirm_lexicon.py:446-468 | A span is supported exactly when its raw material is one apostrophe, or a space with a combining acute. |
| ConfirmMeaning.OwnsEdgesIff | src/hark/confirm_lexicon.py:507-518 | A span owns its edges exactly when no position outside it shares a raw character with one inside. |
| ConfirmMeaning.ExpansionIff | src/hark/confirm_lexicon.py:416-432 | An expansion has a source exactly when some declared one stands there, from a single raw compatibility character. |
| ConfirmMeaning.BaseBeforeIff | src/hark/confirm_lexicon.py:340-353 | A word stands before a projected position exactly when the last opaque character of its own source before it is word material or, with none there, the last opaque raw character before that source is. |
| ConfirmMeaning.BaseAtIff | src/hark/confirm_lexicon.py:356-371 | A word stands at a projected position exactly when the raw text from its source on begins one or, inside a source, the rest of that source does or is transparent before such a raw text. |
| ConfirmFacts.BeforeMeans | src/hark/confirm_lexicon.py:329-354 | The backward-looking recursion is the nearest opaque character. |
| ConfirmFacts.AfterMeans | src/hark/confirm_lexicon.py:336-371 | The forward-looking recursion is the nearest opaque character. |
| ConfirmFacts.BeforePass | src/hark/confirm_lexicon.py:344-354 | The forward pass equals the nearest-opaque definition with the raw source deciding at source edges. |
| ConfirmFacts.AtPass | src/hark/confirm_lexicon.py:356-371 | The backward pass equals its definition. |
| ConfirmFacts.BuildProjectionFacts | src/hark/confirm_lexicon.py:312-402 | All facts are what their definitions say, for every projection. |
| ConfirmFacts.CompatSourceIff | src/hark/confirm_lexicon.py:495-504 | The prefix difference is non-zero exactly when the span has a raw source whose two decompositions differ. |
| ConfirmFacts.ObservableIff | src/hark/confirm_lexicon.py:471-492 | The two subtractions succeed exactly when the span holds a transparent character or one neither alphabetic nor whitespace. |
| ConfirmBridge.EndsInOrder | src/hark/confirm_lexicon.py:640-692 | In every state the scan reaches: the candidates' left parts stand outside any word, the earliest first and the fallback's last, and behind the earliest lies no raw space but one that directly follows a left part. |
| ConfirmBridge.ScanContraction | src/hark/confirm_lexicon.py:619-762 | The loop over a mutable candidate reports exactly the spans of the fold over positions, in order. |
| ConfirmBridge.SpansAreSound | src/hark/confirm_lexicon.py:640-762 | Every span the scan reports stands between the two parts of the contraction and is an ordinary bridge within one token or a fallback over one space. |
| ConfirmBridge.InTokenIsReported | src/hark/confirm_lexicon.py:640-762 | Every malformed contraction within one raw token is reported, wherever it stands in the transcript: some span ends at its right part and takes in its separator, and is the separator itself if a raw space closed every earlier candidate. |
| ConfirmBridge.CrossesOnlyOwned | src/hark/confirm_lexicon.py:521-541 | The only raw spaces in a sound span are those that directly follow a left part. |
| ConfirmBridge.StaysInToken | src/hark/confirm_lexicon.py:619-626 | If no left part is directly followed by a raw space, every reported span stays inside one raw token. |
| ConfirmReports.ReachedExact | src/hark/confirm_lexicon.py:640-710 | In every state the scan reaches, its ordinary candidates are the first and the last left part still open, and its fallback is the last left part open over its own raw space. |
| ConfirmReports.ReportsExactlyDue | src/hark/confirm_lexicon.py:640-762 | The scan reports a span if and only if it is due by the transcript alone. |
| ConfirmReports.CrossesIff | src/hark/confirm_lexicon.py:619-762 | Exactly when a transcript has a reported span that crosses a raw space. |
| ConfirmCrossing.CrossesRawSpace | src/hark/confirm_lexicon.py:645-692 | The scan of `can.can xt` for `can't` reports one span, and it crosses the raw space. |
| ConfirmBridge.ReportedIsSuspicious | src/hark/confirm_lexicon.py:707-762 | A reported span stands between the two parts of one contraction, outside any word, and holds a compatibility source or visible non-letter material. |
| ConfirmBridge.FindBridges | src/hark/confirm_lexicon.py:765-779 | A refusal exactly when a segment is oversized; otherwise the spans of every contraction's scan over a projection and facts that are what their definitions say. |
| ConfirmBridge.BridgesAreReported | src/hark/confirm_lexicon.py:640-762 | Whatever is reported for a transcript is sound for one of the contractions. |
| ConfirmBridge.MalformedIsBridge | src/hark/confirm_lexicon.py:640-762 | No contraction malformed within one raw token goes unreported, whichever contraction it is. |
| WholeWords.PaddedSearchIsWordSearch | src/hark/confirm_lexicon.py:863-865 | Space-padded substring search is exactly search for consecutive words. |
| WholeWords.StartIsWords | src/hark/confirm_lexicon.py:967-968 | A text starts with a phrase and a space exactly when its words go on after the phrase's. |
| WholeWords.EndIsWords | src/hark/confirm_lexicon.py:967-968 | A text ends with a space and a phrase exactly when its words go on before the phrase's. |
| ConfirmReply.HasNegateIff | src/hark/confirm_lexicon.py:902-909 | A reply refuses exactly when a NEGATE phrase occurs in it as consecutive words. |
| ConfirmReply.RefusalDominates | src/hark/confirm_lexicon.py:944-958 | A refusal anywhere never approves: the verdict is no, or unclear beside a malformed contraction; the only exception is the idiom. |
| ConfirmReply.InsertedRefusalNeverApproves | src/hark/confirm_lexicon.py:944-958 | Inserting any NEGATE phrase between any words of any transcript never yields yes, unless the result is the idiom. |
| ConfirmReply.ApprovesIff | src/hark/confirm_lexicon.py:921-969 | Exactly when a reply approves: an affirmation, the idiom, or an affirmation at an edge without refusal, malformed contraction, word that imitates a contraction letter by letter, or marker of doubt. |
| ConfirmReply.RefusesIff | src/hark/confirm_lexicon.py:943-952 | Exactly when a reply refuses: it holds a refusal and is not the idiom, and beside a malformed contraction its words with their marks hold one too. |
| ConfirmReply.ImitationNeverApproves | src/hark/confirm_lexicon.py:912-918 | A word as long as a contraction that agrees with it or shows one of the nine lookalikes at every position, and is not it, never approves beside an affirmation. |
| ConfirmReply.ConfusableIff | src/hark/confirm_lexicon.py:125-143 | The skeleton test holds exactly when some word imitates a contraction. |
| ConfirmReply.AsciiApprovesIff | src/hark/confirm_lexicon.py:921-969 | For ASCII words lookalikes play no part in the decision. |
| ConfirmReply.ContractionsAreRefusals | src/hark/confirm_lexicon.py:118-143 | Whatever can be imitated is a refusal, and every refusal with an apostrophe can be. |
| ConfirmText.CanonicalInput | src/hark/confirm_lexicon.py:283-299 | The pass equals left-to-right replacement of the non-overlapping spans. |
| ConfirmText.FirstSpanIsApostrophe | src/hark/confirm_lexicon.py:283-299 | Up to its first span a text is copied; the span becomes one apostrophe and the pass goes on behind it. |
| ConfirmText.StripBalancedQuotes | src/hark/confirm_lexicon.py:868-887 | The loop peels every word as its definition says. |
| ConfirmText.StripQuotesIsIdempotent | src/hark/confirm_lexicon.py:868-887 | Peeling again changes nothing, and no word is left quoted or empty. |
| ConfirmText.QuotedRefusalNeverApproves | src/hark/confirm_lexicon.py:868-887 | Quotation marks around a word, however many pairs, cannot hide a refusal. |
| ConfirmText.MatchReadyIsWords | src/hark/confirm_lexicon.py:890-899 | Match-ready text is made of folded words without whitespace. |
| ConfirmText.MatchReadyIsStable | src/hark/confirm_lexicon.py:890-899 | Making match-ready text ready again gives the same words. |
| ConfirmText.TokenAddsItself | src/hark/confirm_lexicon.py:868-899 | A token after separators adds itself without its quotation marks, unless it is nothing else. |
| ConfirmText.SeparatorsAddNothing | src/hark/confirm_lexicon.py:890-895 | Whitespace and marks other than the apostrophe add no word. |
| ConfirmText.PeelTakesPairs | src/hark/confirm_lexicon.py:882-886 | Peeling takes equally many marks off both ends, as many as it can. |
| ConfirmText.SplitOfJoin | src/hark/confirm_lexicon.py:890-899 | Splitting undoes joining. |
| ConfirmClassifier.ClassifyReply | src/hark/confirm_lexicon.py:921-969 | An oversized transcript is unclear. Any other is judged by its words and by whether the patterns or the scan found something malformed, which every contraction malformed within a token does and nothing but a sound bridge; it approves exactly when the words are an affirmation or the idiom, or have an affirmation at an edge and nothing against them, and refuses exactly when they hold a refusal, which beside something malformed must also stand in the words with their marks. |
| Conversation.ConversationAfterWake | src/hark/ambient.py:757-1265 | A session emits turns 1 to n, one for each listen with its text, and on closing exactly one final event that reports n turns or is turn n + 1 and whose kind, reason and text are those of the round that closed it; its result says the same and recalls the last turn; it leaves emission to its caller exactly when its first listen failed or was empty. |
| Conversation.OneConversation | src/hark/ambient.py:1883-1900 | Together with the outer loop exactly one final event is emitted for each activated conversation that ends, and it is the last one. |
| ConversationMeaning.RoundEndingIff | src/hark/ambient.py:757-1265 | Exactly how a round ends a session: by its stop flags, its failure, an empty or cancelled listen, or a text that says cancel or end; soft ends never do. |
| ConversationMeaning.TurnTextIs | src/hark/ambient.py:1114-1116 | A turn's text is the transcript, or what stands before the end phrase in one of its two forms. |
| SpokenText.CoreIs | src/hark/listen_end.py:214-223 | Normalizing and stripping is trimming of the squashed text, gives normalized text, and is idempotent. |
| SpokenText.CoreIgnoresCase | src/hark/listen_end.py:214-219 | Texts that differ only in the case of letters or the form of apostrophes are matched as one. |
| SpokenText.GapsDoNotMatter | src/hark/listen_end.py:214-219 | Any whitespace between words is one space, and whitespace around the text is none. |
| ListenEnd.StripTrailingCourtesy | src/hark/listen_end.py:226-265 | The rescanning loop terminates with the longest-first strip of its definition. |
| ListenEnd.StripIsCleanPrefix | src/hark/listen_end.py:226-265 | The result is a prefix of the normalized text at whose end no courtesy of the list is left. |
| ListenEnd.StripIsIdempotent | src/hark/listen_end.py:226-265 | Stripping twice is stripping once, for any courtesy list. |
| RadioDecision.StripCutsCourtesies | src/hark/listen_end.py:226-265 | Stripping cuts off courtesies of the list, each after a space or punctuation, and nothing else. |
| ListenEnd.FindTerminalPhrase | src/hark/listen_end.py:351-397 | The loop with its set of seen phrases finds the first admissible phrase in the order tried. |
| ListenEnd.FindIsLongest | src/hark/listen_end.py:378-397 | A hit is at least as long as every admissible phrase of the list. |
| ListenEnd.FindSplits | src/hark/listen_end.py:394-396 | The text is the hit's body, then separators, then the phrase, and the phrase is an admissible entry of the list. |
| RadioDecision.AdmissibleIff | src/hark/listen_end.py:276-348 | Exactly when a phrase may end a text: it is all of it or its last whole words; a guarded one needs the end of a sentence before it, and "over" only a last word that does not go with it. |
| RadioDecision.FormDecides | src/hark/listen_end.py:421-454 | Some phrase that may end the text is found exactly if there is one; cancel wins over an end phrase and an end phrase over a soft one. |
| RadioDecision.EvaluateDecides | src/hark/listen_end.py:400-454 | Exactly what an utterance does: its own words decide if they cancel or finish, and otherwise what is left of them without politeness. |
| RadioDecision.SpellingDoesNotMatter | src/hark/listen_end.py:400-454 | An utterance does the same in any case and with any apostrophe. |
| RadioTranscript.CourtesyKeepsTheHit | src/hark/listen_end.py:421-454 | For lists that keep phrases and courtesies apart, any number of spoken courtesies after an utterance that hits keep the hit's kind, phrase and body. |
| RadioTranscript.CourtesyKeepsTheMiss | src/hark/listen_end.py:421-454 | Politeness after an utterance that ends in a phrase without being a hit does not make it one. |
| RadioDefaults.DefaultsUnambiguous | src/hark/listen_end.py:37-139 | The shipped lists keep them apart. |
| RadioDefaults.DefaultCourtesyKeepsTheHit | src/hark/listen_end.py:421-454 | The theorem for the shipped lists. |
| RadioDefaults.OverNeverCancels | src/hark/listen_end.py:310-340 | With the shipped lists the evaluation of an utterance ending in "over", with any politeness after it, never cancels, and finishes when that "over" is the radio prosign. |
| Endpointing.SilenceEndpointer.ShouldEnd | src/hark/endpointing.py:139-195 | The decision and the new state, in every branch. |
| Endpointing.CaptureLoop | src/hark/endpointing.py:139-195 | The block loop on the object equals the run over the block sequence. |
| Endpointing.ConsultedOncePerSilence | src/hark/endpointing.py:139-195 | Between two consultations speech was heard, and the first did not raise. |
| Endpointing.EndsByCap | src/hark/endpointing.py:121-123 | Once enough speech was heard no capture outlasts the hard cap of silence. |
| Endpointing.EndsExactly | src/hark/endpointing.py:139-195 | Exactly when one more silent block leads to a consultation and when it ends the capture, by what was heard and what the strategy answered in this silence. |
| Endpointing.IncompleteHoldsOpen | src/hark/endpointing.py:139-195 | After an incomplete answer the capture is held open past the energy gate, to the hard cap. |
| Endpointing.BlocksIs | src/hark/endpointing.py:78-80 | A duration in whole blocks, rounded down and at least one. |
| Endpointing.EndsNotEarly | src/hark/endpointing.py:152-195 | A capture ends only with enough speech, and on enough silence or a complete verdict. |
| Endpointing.FallbackIsEnergyGate | src/hark/endpointing.py:105-130 | A strategy that never decides makes the energy gate's decisions on every capture if and only if it is consulted in time or the hard cap leaves it no room. |
| TailLines.Tail | src/hark/syslog.py:104-128 | Reading backwards in blocks of any size returns the last n lines of the whole file. |
| TailLines.SharedLines | src/hark/syslog.py:114-121 | The lines after a buffer's first break are lines of the file, even when the boundary splits a line or a CR LF pair. |
| TailLines.LineThenBreak | src/hark/syslog.py:120 | What lines are: a break is LF, CR or CR LF together, and no empty line is left at the end. |

## Left out

- Filesystem, locks, fsync, procfs, pidfd and subprocess calls: a locked section is one atomic step, a log append is atomic and whole-line, and every call may fail.
- Torn or malformed log lines, timestamps, pids, thread ids and text payloads of delivery records: they decide nothing but staleness, which is free.
- Owner tokens and uuids are ideal: fresh ones never repeat, and a derived legacy token is an injective function of its three fields.
- The store path for adapters without `acquire_delivery` (`src/hark/answering.py:95-103`), which the durable store never takes.
- `assess_live`, the Herdr client and `hep_kind_from_bound` are not part of this model: a live check is an arbitrary verdict. An exception out of them before the send is a caller that stops.
- `pending_events`, `queue_announcement`, `stale_targets` and the announcement text.
- Environment and configuration parsing, defaults of optional arguments, log messages and metadata dictionaries.
- SpeechDeferral.WaitUntilIdle: watched up to a horizon, because without a cap the loop need not end; with a cap and a later horizon it always has a result. The same holds of the other two waits.
- The signals behind `user_capture_active` and `operator_quiet_s` are not part of this model: a probe may answer anything.
- PauseFile.HoldMicrophone: the polling in `wait_for_mic_free` is a Boolean, and capture cancellation is one of the ways out.
- Floating point: times are integers or reals, so rounding of seconds is not captured.
- SpokenText.CoreIs: NFKC is not modelled, in particular its expansion of U+2026 into three full stops; case folding and whitespace are ASCII.
- ConfirmClassifier.ClassifyReply: the regular-expression pass over literal separators (`src/hark/confirm_lexicon.py:795-818`) is a Boolean input and its declared replacements a map, because it only adds reasons to refuse; NFKC and NFKD of the whole text are arbitrary functions.
- ConfirmBridge.ScanContraction: the generator collects all spans, where the caller stops at the first.
- ConfirmBridge.InTokenIsReported: where an earlier candidate may still be open, it uses that no apostrophe character decomposes into a left part's last letter, which is a fact about the character database and not proved here.
- WorkerStart.StartWorkers: the attempts at establishing authority over one child are summarized by what they produced; discovery of running workers is the list given to admission.
- WorkerProcesses: a direct write that fails leaves arbitrary contents, and record fields that only identify the scope (boot id, pidfile, config) are left out.
- Conversation.ConversationAfterWake: listen policy, logging and the error-detail fields of events; a run is any finite stretch of listens, and one that has not ended emits no final event.
- Endpointing.SilenceEndpointer.ShouldEnd: the strategy's answer is an input, since the audio frame is not modelled.
- TailLines.Tail: decoding and JSON parsing of the lines, and the repeated loop of `logview._tail_mixed`.
- The Smart Turn strategy, TTS and STT providers, wake-word backends, doctor, setup, CLI, site and web UI.
