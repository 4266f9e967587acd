# Verified model of Codor's switchboard core

Codor's switchboard is a local chat server that runs coding agents. This project models, in Dafny,
what happens to one agent turn from its execution on a remote machine to the paged history a reader
sees, and a few self-contained kernels beside it, and proves what each of them promises.
`dafny verify dfyconfig.toml` checks everything.

## What is modelled

**The resident attempt protocol.** A home asks a resident to run an agent turn and collects its
events. `ResidencyProtocol.dfy` gives each handler of the coordinator as a function from a peer's
state to its new state and the packets it sends; `ResidencyCoordinator.dfy` implements those
functions with the classes and loops of the program. `ResidencyWorld.dfy` lets any number of peers
run them. The channel is the set of all packets ever sent, so any packet may arrive never, once or
many times, and in any order; a peer may crash between and inside handlers, also in the middle of a
journal append, and keeps only its journal. An adapter may call the `onStarted` it was given at any
time, also after its turn has ended, and yield any events. `ResidencyFrame.dfy` says what a step leaves
alone. `ResidencyAttempts.dfy` and `ResidencyHome.dfy` hold what is true of residents and homes in every
run, `ResidencyTurns.dfy` what depends on late starts, and `ResidencyChannel.dfy` and
`ResidencyPromise.dfy` what depends on clean appends; `ResidencyResults.dfy` and `ResidencyArrivals.dfy`
hold the results about streams, `ResidencyReconnect.dfy` what a reconnect leads to, `ResidencyProgress.dfy`
whole calls from request to last confirmation, and `ResidencyRuns.dfy` two runs that show what the results need.

**The run journal.** `RunJournal.dfy` models the JSON-lines file as bytes, with the decoder of the
WHATWG Encoding Standard in `Utf8.dfy`; `Blobs.dfy` is the store over it. `JournalFile.dfy` ties it to
the protocol: however appends are cut by crashes, the file reads as the log of the protocol's attempt;
`JournalExample.dfy` has a printer and a parser that are all that is asked of JSON.

**Continuation segmentation.** `ContinuationModel.dfy` and `Continuation.dfy` model the online writer
that gives every event a permanent message row, and the batch projection that rebuilds the rows from
the journal; `ContinuationResults.dfy` says when the two, and a restarted writer, agree, and
`ContinuationText.dfy` what text the rows show.

**Transcript paging.** `TranscriptHistory.dfy` counts text slots and `TranscriptWindow.dfy` selects the
newest window; `TranscriptIndexModel.dfy`, `TranscriptIndex.dfy` and `TranscriptIndexResults.dfy` model
the write-maintained index and prove that it refines a rebuild; `TranscriptPaging.dfy` and
`TranscriptRuns.dfy` prove that, whatever was written, pages read from the index are the pages a scan
of the whole room would give; `TranscriptMessages.dfy` says what the index holds of the messages written.

**The session relay.** `SessionRelayModel.dfy`, `SessionRelay.dfy`, `SessionRelayResults.dfy` and
`SessionRelayDelivery.dfy`: a multiplexer whose host can be replaced while old sockets still linger.

**Kernels.** `RateLimits.dfy` (two limiters), `TerminalKeys.dfy` (a key decoder), `RuntimeInstall.dfy` and
`RuntimeInstaller.dfy` (a staged swap with rollback), `CivilTime.dfy`, `Schedule.dfy`, `ScheduleResults.dfy`
and `ScheduleTexts.dfy` (clock directives), `BodyParser.dfy` and `BodyGrammar.dfy` (mentions).

The outside world enters as parameters: adapters yield any events, the allocator returns any id, every
clock reading, network peer, file-system fault and JSON printer is an argument. Where a result needs
something of them, it is a precondition of that result.

## What the model found

Some properties that the documentation states, or that one would expect, do not hold for all inputs.
Each is proved exactly: a concrete input for which it fails, and the condition under which it holds.

- The `onStarted` that an adapter holds is not tied to its turn: called after the turn's stream has
  ended, it can start a second turn of one attempt or move a finished entry back
  (`LateStartBreaksTheHistory`). Only the last turn begun has started if and only if every late call is
  that of the last turn begun (`OnlyTheLastStartsExactly`), and no entry goes back if and only if no late
  call meets a finished attempt (`JournalGoesForwardExactly`). Whatever adapters do, at most two turns
  are begun and an entry past accepted never is accepted again.
- In any run, no log loses an event and every event sent is what the log holds under its index if and
  only if no event is appended behind an unfinished record (`SentIsLoggedExactly`); then every home's
  stream is a slice of the resident's log. An adapter that yields before it reports a start can lead to
  such an append, and a slice is lost (`SliceNeedsCleanAppends`); one that reports first cannot.
- A restart of the continuation writer is invisible unless a completion takes two open compactions of
  one row off its list: `assign` shifts the list and `observe` then splices it (`RestartCanMoveARow`).
- After a completion that added final text the writer and the projection part, and a second such
  completion creates a row with nothing in it (`SecondCompletionCreatesEmptyRow`). A new row has
  something to show exactly when it had before, or when it was not created for a completion to which
  the projection adds no text (`CreatedRowIsSubstantive`).
- A completed call is forgotten only if its `run.completed` is the last event of the host's log: a log that
  goes on behind it is never confirmed (`LongerLogIsNeverConfirmed`, exactly: `ReconnectSettles`).
- A completion that repeats its final text can add it again: the raw stream is compared before the text
  that is shown, and not at all when it is empty (`RepeatedCompletionCanAddAgain`, exactly:
  `RepeatedCompletionAddsNothing`).
- The current row of a run falls exactly when an event brings an older row with it (`CurrentNeverFalls`).
- The comment on the newest window says that evidence stays with its text on the page before. It does
  exactly when the first cut already fits the limit (`EvidenceCanLeaveItsText`).
- A replacement in the index that raises a room's floor leaves rows under stale keys
  (`RisingFloorLeavesAStaleKey`); the callers never raise it (`RepairsLowerTheFloor`).
- The push relay's table can outgrow its limit through the empty key, because the oldest key is tested
  for truth (`EmptyKeyOutgrowsTheTable`); it stays within it exactly when no call needs room that throwing an entry
  out fails to make (`TableIsBoundedExactly`), and both callers prefix their keys.
- An update that starts after a crash between the two moves can end with no runtime at all. An update
  can be trusted with a runtime, whatever goes wrong, exactly when that runtime is in its place as the
  update starts, or when there is nothing valid to swap in (`UpdateIsSafeExactly`).
- A client number of 2^32 or more is cut by the routing prefix (`FrameRoundTrip`).
- A rewritten clock directive is refused, although still in the future, by a host whose clock is more
  than 365 days behind it (`RewritingKeepsMeaning`).

## Model

| member | source | states |
|---|---|---|
| `ResidencyAttempts.AtMostTwoTurnsBegin` | packages/switchboard/src/residency.ts:462-493 | in every run, with any adapters and with loss, repetition, reordering and crashes: at most two turns of an attempt are ever begun, the first before the second |
| `ResidencyAttempts.NeverAcceptedAgain` | packages/switchboard/src/residency.ts:196-235 | in every such run, over any stretch: an entry that is past accepted never is accepted again and begins no further turn, and turn counts and acknowledgements never fall |
| `ResidencyAttempts.StepKeepsAttempts` | packages/switchboard/src/residency.ts:462-593 | every step of every peer keeps the invariant that ties journal, running turns, held callbacks and the history of begun turns |
| `ResidencyTurns.AtMostOneTurnStarts` | packages/switchboard/src/residency.ts:462-557 | in every run whose late starts are those of the last turn begun: every `onStarted` of an attempt comes from one turn, the last one begun |
| `ResidencyTurns.OnlyTheLastStartsExactly` | packages/switchboard/src/residency.ts:513-522 | in a run with any adapters, at every moment only the last turn begun has started, if and only if every start that comes after its turn's stream has ended is that of the last turn begun |
| `ResidencyTurns.JournalNeverGoesBack` | packages/switchboard/src/residency.ts:165-235 | over any stretch of a run in which no late start meets a finished attempt, a journal entry only moves forward: accepted, started, finished in that order, and a finished entry keeps state and events |
| `ResidencyTurns.JournalGoesForwardExactly` | packages/switchboard/src/residency.ts:513-522 | in a run with any adapters, no step moves a journal entry back if and only if no late start meets a finished attempt |
| `ResidencyRuns.LateStartBreaksTheHistory` | packages/switchboard/src/residency.ts:513-522 | a concrete run, with starts before events and clean appends, in which a late `onStarted` makes two turns of one attempt start and moves a completed entry back to started |
| `ResidencyChannel.StepKeepsChannel` | packages/switchboard/src/residency.ts:595-714 | every step that appends cleanly keeps the invariant that everything in flight, buffered or pushed is what the resident's log holds at its index, and no log loses an event |
| `ResidencyPromise.PromisedStepIsClean` | packages/switchboard/src/residency.ts:513-534 | if adapters report a start before the first event, whatever else they do, no append ever meets an unfinished record |
| `ResidencyHome.CompletionMoves` | packages/switchboard/src/residency.ts:672-677 | completing a call moves it from the open calls to the unconfirmed completions: their sum for a host is unchanged, and does not rise if the call was among the completions before |
| `ResidencyResults.OpenStreamIsLogSlice` | packages/switchboard/src/residency.ts:638-685 | at every moment of a run in which appends are clean, or whose adapters report a start first, an open stream has received exactly the resident's log from the requested start to the next index, in order, with no gap and no repeat |
| `ResidencyResults.EndedStreamIsLogSlice` | packages/switchboard/src/residency.ts:617-677 | the same for every stream that ever ended, and one that ended as complete holds a `run.completed` |
| `ResidencyHome.AcksNameKnownEvents` | packages/switchboard/src/residency.ts:647-684 | in every run, no acknowledgement ever sent names an event that its sender had not pushed, unless it had been asked to start after it |
| `ResidencyHome.TrackingIsBounded` | packages/switchboard/src/residency.ts:342-351 | in every run, open calls and unconfirmed completions of a host together never exceed the configured maximum |
| `ResidencyResults.ForgetsOnlySettledCalls` | packages/switchboard/src/residency.ts:391-415 | in every run, a home that stays up forgets a finished call only after the resident's journal was completed and had recorded an acknowledgement of its last event, the one the home completed at; if no late start meets a finished attempt it still is |
| `ResidencyArrivals.ArrivalOrderIsIrrelevant` | packages/switchboard/src/residency.ts:647-664 | the state of an open call depends only on which indices have arrived: the next index is the least missing one and everything before it was pushed in log order |
| `ResidencyArrivals.TakeEventArrives` | packages/switchboard/src/residency.ts:638-664 | the home's event handler is one such arrival as long as no `run.completed` becomes contiguous |
| `ResidencyResults.SentIsLoggedExactly` | packages/switchboard/src/residency.ts:217-223 | in every run, no log ever loses an event and every event ever sent is what the log holds under its index, if and only if no append meets an unfinished record |
| `ResidencyRuns.SliceNeedsCleanAppends` | packages/switchboard/src/residency.ts:510-533 | a concrete run in which an adapter yields before reporting its start, an append behind a torn record hands one index out twice, and the home pushes an event the log does not hold |
| `ResidencyReconnect.ReconnectAsks` | packages/switchboard/src/residency.ts:435-452 | when a peer comes back, the home asks it, in a packet of its own, about every open call it has with it |
| `ResidencyReconnect.SilentExactly` | packages/switchboard/src/residency.ts:573-593 | the host leaves a call of that question unanswered if and only if its turn may have begun, is still active and has not completed |
| `ResidencyReconnect.ReplyComes` | packages/switchboard/src/residency.ts:584-586 | a host that has completed the attempt does answer |
| `ResidencyReconnect.ReconnectCatchesUp` | packages/switchboard/src/residency.ts:595-677 | reconnecting catches up: for every open call that has pushed the log so far and buffers only events of it, the answer of a host that completed the attempt ends the call as complete, with the log from its start up to the first `run.completed` not yet received, and on through what was buffered directly behind it; however much more the home has received since it asked |
| `ResidencyReconnect.ReconnectEndsTheCall` | packages/switchboard/src/residency.ts:435-677 | the same in every run in which appends are clean or adapters report a start first, with anything else happening between the question, the answer and its arrival |
| `ResidencyReconnect.ReconnectRetriesOrGivesUp` | packages/switchboard/src/residency.ts:573-636 | any other answer makes the home send the delivery once more if the turn cannot have begun and it has not done so before, and otherwise ends the call as ambiguous with its stream as it is |
| `ResidencyReconnect.ReconnectAcknowledges` | packages/switchboard/src/residency.ts:435-438 | a reconnect sends the terminal acknowledgement of every unconfirmed completion of that host again, if it is reachable |
| `ResidencyReconnect.ReconnectSettles` | packages/switchboard/src/residency.ts:391-438 | the terminal acknowledgement repeated on reconnect is confirmed and the call forgotten, if and only if the completion it names is the last event of the log |
| `ResidencyReconnect.LongerLogIsNeverConfirmed` | packages/switchboard/src/residency.ts:391-408 | a concrete completed attempt whose log goes on behind the completion: no acknowledgement the home repeats is ever confirmed |
| `ResidencyReconnect.CompletedExactlyThere` | packages/switchboard/src/residency.ts:531-536 | in every such run the log of a completed attempt holds a `run.completed`, and the stream of an open call holds none |
| `ResidencyProgress.UndisturbedCallCompletes` | packages/switchboard/src/residency.ts:342-714 | from any state of the peers in which nothing stands in the way: these steps can be taken, and the home's stream is the start and then exactly what the adapter yielded, the host's journal holds the same as completed and acknowledged, and the home has forgotten the call |
| `ResidencyProgress.InterruptedTurnEndsTheCall` | packages/switchboard/src/residency.ts:537-556 | a started turn that ends or throws without completing ends the call as ambiguous, with all it said in the stream and in the journal |
| `ResidencyProgress.TwoFailuresEndTheCall` | packages/switchboard/src/residency.ts:541-635 | a turn that ends or throws before anything ran is asked for once more; a second such turn ends the call as ambiguous with an empty stream |
| `ResidencyProgress.RepeatedDeliveryIsAnswered` | packages/switchboard/src/residency.ts:462-479 | a delivery under a known id: refused with other input, answered with the outcome of a finished attempt and all events of a completed one, silent while its turn is active |
| `ResidencyProgress.UnknownAdapterEndsTheTurn` | packages/switchboard/src/residency.ts:485-492 | a turn whose adapter the host does not have is counted, ends as ambiguous at once, and the home is told |
| `ResidencyProgress.RequestOpensExactly` | packages/switchboard/src/residency.ts:342-364 | a request opens a call and is sent if and only if the host is reachable, the call is not open, and its open and unconfirmed calls are fewer than the maximum |
| `ResidencyProgress.EventsAreAcknowledged` | packages/switchboard/src/residency.ts:638-684 | every event of an open call is acknowledged up to where its stream has come |
| `ResidencyProgress.LateEventsAreAcknowledged` | packages/switchboard/src/residency.ts:638-646 | an event that comes again after its call completed gets the terminal acknowledgement again; one of a call the home does not know gets none |
| `ResidencyProgress.AckIsConfirmedExactly` | packages/switchboard/src/residency.ts:391-408 | an acknowledgement raises the acknowledged index, and is confirmed exactly when the attempt is completed and it covers the last event |
| `ResidencyProgress.TimerRepeatsEveryAck` | packages/switchboard/src/residency.ts:709-714 | the timer sends the terminal acknowledgement of every unconfirmed completion whose host is reachable, and nothing else |
| `ResidencyCoordinators.ResidentAttemptJournal.EnsureAttempt` | packages/switchboard/src/residency.ts:165-194 | finds or inserts the entry, and fails, changing nothing, when the id is reused with other input |
| `ResidencyCoordinators.ResidentAttemptJournal.AppendEvent` | packages/switchboard/src/residency.ts:217-223 | returns the number of readable events as the index and appends the event to what the file holds |
| `ResidencyCoordinators.ResidentAttemptJournal.Acknowledge` | packages/switchboard/src/residency.ts:229-235 | the acknowledged index is the maximum of the old and the new one, and no other entry changes |
| `ResidencyCoordinators.RemoteEventStream.Next` | packages/switchboard/src/residency.ts:265-272 | a reader gets the pushed events in order, each once, then the failure or the end, in that precedence |
| `ResidencyCoordinators.ResidencyCoordinator.AcceptResidentDelivery` | packages/switchboard/src/residency.ts:462-483 | the new resident state and the packets sent are those of the protocol's delivery step, for every journal state |
| `ResidencyCoordinators.ResidencyCoordinator.RunResidentAttempt` | packages/switchboard/src/residency.ts:485-512 | beginning a turn counts it, and without an adapter settles the attempt as ambiguous |
| `ResidencyCoordinators.ResidencyCoordinator.OnStarted` | packages/switchboard/src/residency.ts:513-522 | whenever it is called, also after its turn has ended, the journal records the start before the started event is appended and sent |
| `ResidencyCoordinators.ResidencyCoordinator.OnEvent` | packages/switchboard/src/residency.ts:531-534 | each yielded event is appended at the next index and sent with that index |
| `ResidencyCoordinators.ResidencyCoordinator.OnStreamEnd` | packages/switchboard/src/residency.ts:535-546 | the end of the adapter's stream settles the attempt as completed, ambiguous or never started, as the protocol step says |
| `ResidencyCoordinators.ResidencyCoordinator.OnStreamThrow` | packages/switchboard/src/residency.ts:547-556 | the same for an adapter that throws |
| `ResidencyCoordinators.ResidencyCoordinator.ReconcileResident` | packages/switchboard/src/residency.ts:573-593 | answers every asked call from the journal and the active set, and changes no state |
| `ResidencyCoordinators.ResidencyCoordinator.HandleEventAck` | packages/switchboard/src/residency.ts:391-408 | records the acknowledgement and confirms a completed attempt exactly when its last event is covered |
| `ResidencyCoordinators.ResidencyCoordinator.Deliver` | packages/switchboard/src/residency.ts:342-364 | refuses an unreachable host or a full table, joins an open call, or opens a new one and sends its delivery |
| `ResidencyCoordinators.ResidencyCoordinator.DrainBuffer` | packages/switchboard/src/residency.ts:657-664 | the loop pushes every contiguous buffered event and reports the last completion among them |
| `ResidencyCoordinators.ResidencyCoordinator.HandleRemoteEvent` | packages/switchboard/src/residency.ts:638-685 | the home state and the acknowledgements sent are those of the protocol's event step, in every branch |
| `ResidencyCoordinators.ResidencyCoordinator.HandleOutcome` | packages/switchboard/src/residency.ts:617-636 | an outcome delivers its events, retries a call that never started once, or fails the stream |
| `ResidencyCoordinators.ResidencyCoordinator.HandleCompletionAck` | packages/switchboard/src/residency.ts:409-415 | forgets a completion only on a confirmation from its host with its exact index |
| `ResidencyCoordinators.ResidencyCoordinator.RetryCompletionAcks` | packages/switchboard/src/residency.ts:709-714 | repeats the acknowledgement of every unconfirmed completion whose host is reachable |
| `ResidencyCoordinators.ResidencyCoordinator.HandlePeerState` | packages/switchboard/src/residency.ts:435-452 | the packets sent on a reconnect are those of the protocol; what they lead to is `ReconnectCatchesUp`, `ReconnectRetriesOrGivesUp` and `ReconnectSettles` |
| `ResidencyCoordinators.ResidencyCoordinator.HandleEnvelope` | packages/switchboard/src/residency.ts:382-415 | dispatch: the whole node state and all packets sent are those of the protocol's message step |
| `ContinuationResults.AssignmentIsObservation` | packages/switchboard/src/continuation.ts:101-197 | assigning an event leaves the state that observing the journaled event leaves, if and only if a completion does not take two open compactions off the list |
| `ContinuationResults.RestartIsTransparent` | packages/switchboard/src/continuation.ts:93-99 | rebuilding the writer from its journal at any point of a run gives the live writer, if and only if no completion took two open compactions |
| `ContinuationResults.RestartedRunContinues` | packages/switchboard/src/continuation.ts:93-160 | stopping, rebuilding and going on gives the same journal and the same new rows as never stopping |
| `ContinuationResults.RestartCanMoveARow` | packages/switchboard/src/continuation.ts:133-136 | a concrete run with two compactions open on one row after which the live and the rebuilt writer file the next completion under different rows |
| `ContinuationResults.OnlineAgreesWithBatch` | packages/switchboard/src/continuation.ts:162-254 | the writer's text per row, aggregate and raw stream are those of the projection at every point, if and only if no completion so far added final text |
| `ContinuationResults.LiveIsRebuiltButPending` | packages/switchboard/src/continuation.ts:133-193 | in every run the live and the rebuilt writer differ in the list of open compactions at most |
| `ContinuationResults.CompletionDecidedAlike` | packages/switchboard/src/continuation.ts:140-152 | the writer decides whether a completion still has text to show as the projection does |
| `ContinuationResults.CreatedRowIsSubstantive` | packages/switchboard/src/continuation.ts:116-121 | a new row has something to show in the projection if and only if it had before, or its event is not a completion to which the projection adds no text |
| `ContinuationResults.CreatedRowsAreSubstantive` | packages/switchboard/src/continuation.ts:116-121 | over a whole run: every new row has something to show when it is created if and only if none that had nothing was created for such a completion; and then it has for the rest of the run |
| `ContinuationResults.CreatedBeforeFinalTextIsSubstantive` | packages/switchboard/src/continuation.ts:140-152 | as long as no completion has added final text, every row the writer creates has something to show |
| `ContinuationResults.SecondCompletionCreatesEmptyRow` | packages/switchboard/src/continuation.ts:140-152 | a concrete run: told the same final text twice, the writer creates a row in which the projection shows nothing |
| `ContinuationResults.SubstantiveExactly` | packages/switchboard/src/continuation.ts:208-251 | a row has something to show exactly when an event filed under it put it there: any tool or prose item, a compaction, or a completion with text to add |
| `ContinuationResults.SubstantiveStays` | packages/switchboard/src/continuation.ts:208-251 | a row that has something to show keeps it however the journal grows |
| `ContinuationResults.FinalTextIsShown` | packages/switchboard/src/continuation.ts:52-66 | a final text is a suffix of the visible text or of the raw stream followed by the residual, and the residual is a suffix of the final text |
| `ContinuationResults.ProjectionShowsFinalText` | packages/switchboard/src/continuation.ts:245-253 | after a completion that did not fail, the final text ends the aggregate, or the raw stream followed by what the completion added; the aggregate only grows |
| `ContinuationText.RowsSayTheirProse` | packages/switchboard/src/continuation.ts:202-243 | at every point of a journal: each row's text is the non-empty passages filed under it, in journal order, with a paragraph break between neighbours exactly when one of the two is a block; the aggregate is the same of all passages, and the raw stream all of them without breaks; if and only if no completion so far added final text |
| `ContinuationText.WriterShowsThePassages` | packages/switchboard/src/continuation.ts:162-186 | in every run whose completions carry no final text, the live writer's text per row, aggregate and raw stream are those too |
| `ContinuationText.DeltasShowTheRawStream` | packages/switchboard/src/continuation.ts:218-233 | a journal that streams deltas alone shows exactly its raw stream |
| `ContinuationText.CompletionLandsInItsRow` | packages/switchboard/src/continuation.ts:68-74 | what a completion adds to the aggregate lands behind the text of its own row, without a leading paragraph break if the row was empty; no other row changes |
| `ContinuationText.RowsAreThese` | packages/switchboard/src/continuation.ts:208-214 | the rows of a projection are the root and every row an event is filed under, each with a text; the result is in the row of the newest such event |
| `ContinuationText.RepeatedCompletionAddsNothing` | packages/switchboard/src/continuation.ts:52-66 | told the same final text again the projection adds nothing, if and only if the text is empty, or is all that is shown, or the raw stream is neither empty nor its beginning |
| `ContinuationText.RepeatedCompletionCanAddAgain` | packages/switchboard/src/continuation.ts:52-66 | a concrete journal in which a repeated final text is added again |
| `ContinuationResults.AssignmentIsChronological` | packages/switchboard/src/continuation.ts:101-197 | for an event of any kind, with ids above the newest message: the current row falls if and only if the event brings an older row; an event that moves it is filed under it; one that may get a new row is not filed above a newer message; a row is created only after an interleaved one |
| `ContinuationResults.RowsFollowTime` | packages/switchboard/src/continuation.ts:101-160 | over a stretch of a run with events of every kind, none bringing an older row: of two events that move the current row the later is filed under the same or a newer row, and not above a message posted before it |
| `ContinuationResults.CurrentNeverFalls` | packages/switchboard/src/continuation.ts:101-197 | over a whole run with events of every kind, the current row never falls if and only if no event brings a row older than it |
| `ContinuationResults.ToolResultJoinsItsCall` | packages/switchboard/src/continuation.ts:124-127 | a tool result is filed in the row of the latest tool call with its id |
| `Continuation.ContinuationWriter.constructor` | packages/switchboard/src/continuation.ts:93-99 | replays the journal: the state is that of the model's replay |
| `Continuation.ContinuationWriter.ObserveEvent` | packages/switchboard/src/continuation.ts:162-197 | the new state is the model's observation of the event |
| `Continuation.ContinuationWriter.AssignEvent` | packages/switchboard/src/continuation.ts:101-160 | the new state, the event with its row and the created row are the model's assignment |
| `Continuation.ProjectContinuationOutputs` | packages/switchboard/src/continuation.ts:202-263 | the loop computes the model's projection, whose texts are those of `RowsSayTheirProse` |
| `TranscriptHistory.TextSlotIndices` | packages/protocol/src/transcript-history.ts:60-81 | the loops list, in order, exactly the charged units: text, and the last evidence of every family without text |
| `TranscriptHistory.ChargedByKind` | packages/protocol/src/transcript-history.ts:60-81 | messages, prose and settled tails always take a slot; a tool or timeline unit takes one exactly when its family has no prose and no settled tail and none of its kind comes after it |
| `TranscriptHistory.SlotCountIsChargedSize` | packages/protocol/src/transcript-history.ts:83-87 | the number of charged units follows the recursion in which one more unit in front adds no slot or one |
| `TranscriptHistory.ChargedBehind` | packages/protocol/src/transcript-history.ts:70-78 | text put in front frees the fallback slot of its own family and changes no other charge |
| `TranscriptWindow.NewestUnits` | packages/protocol/src/transcript-history.ts:93-113 | both loops end and return the window |
| `TranscriptWindow.WindowIsLongest` | packages/protocol/src/transcript-history.ts:89-92 | the window is the longest suffix within the limit and holds min(limit, total) slots |
| `TranscriptWindow.WindowIsUnique` | packages/protocol/src/transcript-history.ts:98-112 | a suffix that fits and whose extension by one unit does not is the window |
| `TranscriptWindow.CountNeverFalls` | packages/protocol/src/transcript-history.ts:107-111 | lengthening a suffix never lowers its count and adds at most one slot a unit |
| `TranscriptWindow.PagesPartition` | packages/protocol/src/transcript-history.ts:93-113 | taking windows of what is left over cuts the units into non-empty pages that concatenate to them, all full but the oldest |
| `TranscriptWindow.EvidenceStaysWithItsText` | packages/protocol/src/transcript-history.ts:89-92 | the window charges no evidence whose text it left behind, if and only if the first cut already fits the limit |
| `TranscriptWindow.EvidenceCanLeaveItsText` | packages/protocol/src/transcript-history.ts:89-92 | a concrete list for which the stated behaviour fails: the window of two slots holds a tool without its text |
| `TranscriptIndexResults.MaintenanceRefinesRebuild` | packages/switchboard/src/transcript-history-index.ts:144-299 | after any run of installs, replacements and maintenance whose floors only fall, every room holds exactly the rows a rebuild from its entries would store |
| `TranscriptIndexResults.RebuildStoresTheSame` | packages/switchboard/src/transcript-history-index.ts:98-107 | rebuilding a room from its entries changes no row, if and only if every stored key is the one its floor gives |
| `TranscriptIndexResults.ReplaceKeysTheRoom` | packages/switchboard/src/transcript-history-index.ts:171-222 | a replacement leaves all keys of the room right, if and only if no surviving or new row lies between the floor it is keyed by and the floor the room row then names |
| `TranscriptIndexResults.ReplaceStoresExactly` | packages/switchboard/src/transcript-history-index.ts:171-188 | the rows after a replacement are the old ones of other sources and the given entries, and no others |
| `TranscriptIndexResults.InsertSucceeds` | packages/switchboard/src/transcript-history-index.ts:270-299 | an insert succeeds exactly when no primary key is taken, by a stored row or by another entry |
| `TranscriptIndexResults.RepairsLowerTheFloor` | packages/switchboard/src/transcript-history.ts:415-426 | the floor a repair computes is the lowest of the old one and the roots found, so it never rises |
| `TranscriptIndexResults.RisingFloorLeavesAStaleKey` | packages/switchboard/src/transcript-history-index.ts:189-206 | a concrete replacement with a rising floor that leaves a row under its old key |
| `TranscriptIndex.TranscriptHistoryIndex.InstallRoom` | packages/switchboard/src/transcript-history-index.ts:144-169 | the three tables after the transaction, or all unchanged when an insert throws |
| `TranscriptIndex.TranscriptHistoryIndex.Replace` | packages/switchboard/src/transcript-history-index.ts:171-222 | the three tables after the transaction, or all unchanged when an insert throws |
| `TranscriptIndex.TranscriptHistoryIndex.MaintainOrdinaryMessage` | packages/switchboard/src/transcript-history-index.ts:227-255 | whether the message was taken, and the tables it leaves; the insert cannot fail |
| `TranscriptIndex.TranscriptHistoryIndex.MaintainMutableFamily` | packages/switchboard/src/transcript-history-index.ts:259-268 | the tables after a family goes live again |
| `TranscriptIndex.TranscriptHistoryIndex.QueryPage` | packages/switchboard/src/transcript-history-index.ts:303-386 | the page of some order of the room's rows, and with right keys of the only one |
| `TranscriptPaging.KeysOrderLikeTheComparator` | packages/switchboard/src/transcript-history.ts:329-342 | the order of the stored keys is the order of the comparator that sorts a scanned room, and it leaves no ties |
| `TranscriptPaging.SelectedPage` | packages/switchboard/src/transcript-history-index.ts:339-385 | a page is a tail of the rows before the cursor with at most the limit of charged rows, exactly the limit when there is more |
| `TranscriptPaging.WalkReturnsEachRowOnce` | packages/switchboard/src/transcript-history-index.ts:303-386 | following each page's oldest row returns every row below the ceiling once, in order, all pages full but the oldest |
| `TranscriptRuns.NewerWritesChangeNoPage` | packages/switchboard/src/transcript-history-index.ts:144-268 | a run of writes that name only messages above the ceiling changes no page under it, for any cursor and limit |
| `TranscriptPaging.IndexedPageIsScannedPage` | packages/switchboard/src/transcript-history.ts:531-546 | with a sound charged column the page built from the index is the page built from a scan of the whole room, for every ceiling, cursor and limit |
| `TranscriptRuns.PagesAreThoseOfAScan` | packages/switchboard/src/transcript-history.ts:531-589 | whatever was written since the index was empty: every page built from the index is that of a scan, and page after page a client gets the whole visible room, cut into windows |
| `TranscriptMessages.TakenMessageIsStored` | packages/switchboard/src/transcript-history-index.ts:227-256 | a message is taken if and only if its room is indexed and it is no part of a run; then the room holds exactly one row of its source, charged, at its own place and needing nothing newer, and none if it is an ask or an approval; every other row is as it was and the message is dirty no longer |
| `TranscriptMessages.PostedMessageIsServed` | packages/switchboard/src/transcript-history-index.ts:303-373 | an ordinary message posted to a maintained room is the last row of the newest page under its own id, whatever the limit |
| `TranscriptMessages.PageReadsLittle` | packages/switchboard/src/transcript-history-index.ts:342-388 | a page reads its own rows and at most one charged row more than its limit |
| `TranscriptMessages.LastVersionIsHeld` | packages/switchboard/src/transcript-history-index.ts:227-256 | in every run, what the room holds of a message is its last version taken, until something else writes that source |
| `TranscriptMessages.RoomHoldsTheLastVersions` | packages/switchboard/src/transcript-history-index.ts:227-256 | after any messages written to a room indexed when empty, it holds one row for every message whose last version is shown, and nothing else |
| `TranscriptMessages.ChangeMarksTheMessage` | packages/switchboard/src/transcript-history-index.ts:80-96 | a change of a message marks it dirty, and does nothing else |
| `TranscriptMessages.RunningFamilyIsRemoved` | packages/switchboard/src/transcript-history-index.ts:259-270 | a running family's rows are removed and its mark is cleared, and nothing else changes; in a room that is not indexed nothing does |
| `TranscriptMessages.RepairClearsItsMarks` | packages/switchboard/src/transcript-history-index.ts:217-221 | a repair clears the dirty marks it names, and only those |
| `TranscriptMessages.InstallStoresExactly` | packages/switchboard/src/transcript-history-index.ts:144-168 | an install leaves exactly the given entries in its room, complete and clean, and touches no other; it fails exactly when two entries have one key |
| `TranscriptRuns.RunMaintains` | packages/switchboard/src/transcript-history.ts:356-379 | keys, bounds and the charged column stay right in every run of installs, replacements and maintenance whose floors only fall and whose writers compute the column of what they write |
| `TranscriptPaging.ServedPagesPartition` | packages/switchboard/src/transcript-history.ts:531-589 | with a sound column the pages a client is served cut the visible room into windows that concatenate to it |
| `TranscriptRuns.ColumnPerRootIsSound` | packages/switchboard/src/transcript-history.ts:356-379 | computing the charged column one root at a time, in the order of its units, gives a column that is sound for the room, in whatever order its rows are stored |
| `SessionRelayResults.EveryRunIsSafe` | relay-worker/src/session-relay.ts:40-127 | in every run at most one host is open, at most sixteen unretired clients are open, and every forwarded frame joins a host and a client of one host generation with its payload unchanged |
| `SessionRelayResults.StepKeepsInv` | relay-worker/src/session-relay.ts:40-131 | every handler and every change the runtime makes to a socket keeps that invariant |
| `SessionRelayResults.ForwardIsSound` | relay-worker/src/session-relay.ts:74-105 | a forwarded frame goes to an open socket of the sender's generation, prefixed or stripped by exactly four bytes |
| `SessionRelayResults.FrameRoundTrip` | relay-worker/src/session-relay.ts:143-149 | stripping gives the payload back, and the host reads back the client's number if and only if it is below 2^32 |
| `SessionRelayResults.ReplyReachesTheSender` | relay-worker/src/session-relay.ts:86-105 | a reply reaches the client that was named and no other, if and only if its number is below 2^32 |
| `SessionRelayDelivery.ClientMessageReachesTheHost` | relay-worker/src/session-relay.ts:74-85 | in every state of the invariant, a message of a client that is not retired leaves exactly once, for the open host among the sockets, behind the client's number in four big-endian bytes; with no open host nothing happens |
| `SessionRelayDelivery.HostMessageReachesTheClient` | relay-worker/src/session-relay.ts:86-105 | a message of the open host leaves exactly once, without its number, for the served client of that number; without one the host is told so; a message that is too short or of a host no longer open does nothing |
| `SessionRelayDelivery.ExchangeRoundTrips` | relay-worker/src/session-relay.ts:74-105 | a reply under the four bytes of a client's message reaches that client, if and only if its number is below 2^32 |
| `SessionRelayDelivery.HostArrivalSupersedes` | relay-worker/src/session-relay.ts:40-55 | a host that arrives is the one open host; every other socket is no longer open and every earlier client is retired |
| `SessionRelayDelivery.ClientArrivalIsServed` | relay-worker/src/session-relay.ts:57-72 | with fewer than sixteen clients served, the client that arrives is served under a number no one has, and exactly it and the open host are told; otherwise nothing changes |
| `SessionRelayDelivery.ClientLossIsAnnounced` | relay-worker/src/session-relay.ts:117-120 | the open host is told once of a client that closes, if the client was not retired |
| `SessionRelayDelivery.ClosingClosesOne` | relay-worker/src/session-relay.ts:107-131 | a close or an error leaves that socket not open and every other as it was |
| `SessionRelayResults.RetiredClientsAreSilent` | relay-worker/src/session-relay.ts:76-77 | a client of an earlier host generation reaches nobody |
| `SessionRelayResults.HostLossIsAnnounced` | relay-worker/src/session-relay.ts:107-119 | clients are told that the host is gone if and only if no other host is open after the close |
| `SessionRelays.SessionRelay.FrameBytes` | relay-worker/src/session-relay.ts:143-149 | the filled byte array is the four-byte big-endian number followed by the payload |
| `SessionRelays.SessionRelay.HostArrival` | relay-worker/src/session-relay.ts:40-55 | every client is retired and closed, every host closed, and one open host of a new generation added |
| `SessionRelays.SessionRelay.ClientArrival` | relay-worker/src/session-relay.ts:57-72 | admits a client with the next number and the two notices, or turns it away at sixteen |
| `SessionRelays.SessionRelay.Message` | relay-worker/src/session-relay.ts:74-105 | what is forwarded or answered, and nothing else changes |
| `SessionRelays.SessionRelay.PeerClose` | relay-worker/src/session-relay.ts:107-127 | the notices sent and the socket closed |
| `SessionRelays.SessionRelay.SocketError` | relay-worker/src/session-relay.ts:129-131 | closes the socket and changes nothing else |
| `Utf8.DecodeSplits` | packages/switchboard/src/blobs.ts:57-58 | decoding with replacement goes line by line: a newline byte ends whatever character was begun (section 8.1.1 of the WHATWG Encoding Standard) |
| `Utf8.EncodeRoundTrips` | packages/switchboard/src/blobs.ts:50-50 | encoded text decodes to itself, whatever bytes follow it |
| `RunJournalResults.FullReadsAgree` | packages/switchboard/src/blobs.ts:54-98 | splitting the decoded text and decoding the split bytes give the same events, for every byte file |
| `RunJournalResults.SpansReadBack` | packages/switchboard/src/blobs.ts:101-115 | reading the spans returns exactly the events, from the same file and from whatever it grows into |
| `RunJournalResults.SelectedExactly` | packages/switchboard/src/blobs.ts:101-115 | reading spans gives these events exactly when every span lies whole in the file and its line parses to its event; anything else is an error |
| `RunJournalResults.SpansAreDisjoint` | packages/switchboard/src/blobs.ts:83-96 | spans are numbered densely from zero, increasing, apart, and inside the file |
| `RunJournalResults.AppendAddsOneEvent` | packages/switchboard/src/blobs.ts:47-51 | appending to an empty or newline-terminated file adds one event at the end and keeps every span |
| `RunJournalResults.LineIsThere` | packages/switchboard/src/blobs.ts:82-96 | every line lies at the offset the loop computes for it |
| `JournalFile.JournalFileIsTheLog` | packages/switchboard/src/residency.ts:217-227 | after any run of appends, whole or cut by crashes at any byte, the file reads as the attempt's log of the resident protocol |
| `JournalFile.WholeAppend` | packages/switchboard/src/blobs.ts:47-51 | a whole append joins whatever was unfinished and ends the line, as the protocol's attempt says |
| `JournalFile.CutAppend` | packages/switchboard/src/blobs.ts:47-51 | a cut append leaves the line unfinished, as the protocol's attempt says |
| `Blobs.BlobStore.Append` | packages/switchboard/src/blobs.ts:47-51 | the new bytes, and one more event behind a clean file |
| `Blobs.BlobStore.ReadAll` | packages/switchboard/src/blobs.ts:54-67 | the events of the file; none when it was never written |
| `Blobs.BlobStore.ReadAllWithSpans` | packages/switchboard/src/blobs.ts:73-98 | the loop returns the events of the full read and the span of each |
| `Blobs.BlobStore.ReadSelected` | packages/switchboard/src/blobs.ts:101-115 | the events of the spans, or the error of a short read or a line that does not parse |
| `Blobs.BlobStore.SelectedAfterGrowth` | packages/switchboard/src/blobs.ts:100-115 | spans of an earlier state of the file still read back its events |
| `RateLimits.WindowRateLimiter.TakeOne` | relay/src/server.ts:39-66 | decision and table after a call, with the sweep and the eviction of the oldest entry |
| `RateLimits.SizeIsKept` | relay/src/server.ts:47-61 | one call keeps the table within its limit, if and only if it does not need room that eviction fails to make |
| `RateLimits.TableIsBoundedExactly` | relay/src/server.ts:28-71 | in any run and with any clock the table never outgrows its limit, if and only if no call needs room that eviction fails to make |
| `RateLimits.TableStaysBounded` | relay/src/server.ts:28-71 | with keys that are never empty the table never outgrows its limit, in any run and with any clock |
| `RateLimits.EmptyKeyOutgrowsTheTable` | relay/src/server.ts:50-58 | a concrete run with the empty key that does: the oldest key is tested for truth |
| `RateLimits.TwiceTheMaximumAtMost` | relay/src/server.ts:39-66 | in any half-open interval one window long, a key that is not evicted in it is granted at most twice the maximum |
| `RateLimits.OneCall` | relay/src/server.ts:47-65 | a grant opens a window or counts in the open one, and only the window's end or an eviction touches another key's |
| `RateLimits.SweepDropsWhatIsOver` | relay/src/server.ts:39-46 | a call at which a sweep is due leaves no entry that is over and sets the next sweep one window on |
| `RateLimits.TheOldestMakesRoom` | relay/src/server.ts:50-61 | a new key that finds the table full takes the place of an entry that ends no later than any other; every other entry stays |
| `RateLimits.PairingCodeLimiter.Allow` | packages/switchboard/src/server.ts:190-200 | decision and stored times after an attempt, for its connection only |
| `RateLimits.DecidesLikeFullHistory` | packages/switchboard/src/server.ts:190-200 | with a clock that does not go back, the pruned limiter decides as one that never forgets |
| `RateLimits.FiveInAnyMinute` | packages/switchboard/src/server.ts:179-199 | at most five attempts are granted in any sixty seconds |
| `RateLimits.GrantedExactly` | packages/switchboard/src/server.ts:190-200 | an attempt is granted exactly when fewer than five of the sixty seconds before it were, counted call by call |
| `TerminalKeys.ReadsDoNotMatter` | packages/cli/src/terminal-keys.ts:37-60 | for every split of the input into chunks, the keys and the pending text are those of decoding it at once |
| `TerminalKeys.InputIsTokens` | packages/cli/src/terminal-keys.ts:37-60 | the input is a sequence of tokens and an unfinished rest, and the keys are the tokens' keys: no character is lost |
| `TerminalKeys.TokensRoundTrip` | packages/cli/src/terminal-keys.ts:11-60 | printed tokens decode to their keys, as long as no lone escape runs into a bracket |
| `TerminalKeys.ControlSequenceMeans` | packages/cli/src/terminal-keys.ts:11-60 | a control sequence with letter A, B, C or D is the up, down, right or left key, whatever its parameters; any other is swallowed; what follows keeps its meaning |
| `TerminalKeys.CharacterMeans` | packages/cli/src/terminal-keys.ts:22-28 | every other character is a key of its own: control-C and q in either case cancel, carriage return and line feed are enter, the space is space |
| `TerminalKeys.EscapeMeans` | packages/cli/src/terminal-keys.ts:46-55 | an escape before anything but a bracket cancels; one at the end, and a sequence without its letter, wait |
| `TerminalKeys.TerminalKeyDecoder.Decode` | packages/cli/src/terminal-keys.ts:37-60 | keys and pending text are those of the old pending text followed by the chunk, and what is pending is empty, an escape or an unfinished control sequence |
| `TerminalKeys.TerminalKeyDecoder.Flush` | packages/cli/src/terminal-keys.ts:62-67 | empties the pending text; what can be pending gives one cancel or nothing |
| `RuntimeInstall.EveryStateKeepsARuntime` | packages/cli/src/runtime-install.ts:149-168 | starting from an installed runtime, in every state of the disk during an update, whatever throws and wherever the process dies, the old runtime is whole in its place or in the backup, or the validated new one is in its place |
| `RuntimeInstall.CallLeavesOneRuntime` | packages/cli/src/runtime-install.ts:149-178 | what a finished and what a failed call leave in the place and in the backup; the place is left empty exactly when moving the new runtime in threw and moving the old one back threw too, and then the old one is whole in the backup |
| `RuntimeInstall.RollbackRestores` | packages/cli/src/runtime-install.ts:191-198 | rolling back a retained update puts back exactly what was there, and in every state on the way the old runtime is whole in the backup or back in its place |
| `RuntimeInstall.FinalizeKeepsTheRuntime` | packages/cli/src/runtime-install.ts:183-188 | finalising never touches the runtime, and repeating it changes nothing |
| `RuntimeInstall.TransactionEnds` | packages/cli/src/runtime-install.ts:183-198 | finalising removes the backup and nothing else, rolling back succeeds when nothing goes wrong, and neither does anything without a transaction |
| `RuntimeInstall.InstalledVersionIsThere` | packages/cli/src/runtime-install.ts:132-178 | for a source that carries its version: a call that returns has left the version it reports in the place, and asking again without insisting on an update changes nothing |
| `RuntimeInstall.WriteTouchesOnePlace` | packages/cli/src/runtime-install.ts:38-51 | copying and removing touch one place only, whatever goes wrong |
| `RuntimeInstall.UpdateIsSafeExactly` | packages/cli/src/runtime-install.ts:149-168 | for every disk: an update keeps a runtime in every state it goes through, whatever throws, if and only if the runtime is in its place as the update starts, or in the backup with nothing valid to swap in |
| `RuntimeInstall.UpdateAfterACrashCanLoseTheOld` | packages/cli/src/runtime-install.ts:160-167 | a concrete update, after a crash between the two moves, that ends with neither place holding a runtime |
| `RuntimeInstall.QuietUpdateSucceedsExactly` | packages/cli/src/runtime-install.ts:132-178 | when nothing goes wrong an update succeeds if and only if the source is valid: the source is in the place, the old runtime in the backup if asked, nothing is staged, and the outcome names what happened; with an invalid source only the staging place is touched |
| `RuntimeInstall.NothingIsCopiedExactly` | packages/cli/src/runtime-install.ts:121-150 | a call copies nothing if and only if the program is installed already, may keep what it finds, or finds its own version and does not insist; and what it reports in each case |
| `RuntimeInstaller.InstallDurableRuntime` | packages/cli/src/runtime-install.ts:121-178 | disk history and outcome of the calls in sequence are those of the model |
| `RuntimeInstaller.FinalizeDurableRuntimeInstall` | packages/cli/src/runtime-install.ts:183-188 | the same for finalising |
| `RuntimeInstaller.RollbackDurableRuntimeInstall` | packages/cli/src/runtime-install.ts:191-198 | the same for rolling back |
| `ScheduleResults.RewritingKeepsMeaning` | packages/protocol/src/schedule.ts:214-249 | the rewritten body parses under any host offset and at any time to the same instant and text, if and only if the instant is still to come and within the 365-day horizon |
| `ScheduleResults.RewritingIsIdempotent` | packages/protocol/src/schedule.ts:220-249 | a rewritten body is not rewritten again, whenever and wherever |
| `ScheduleResults.NextClockIsTheNext` | packages/protocol/src/schedule.ts:145-151 | a time of day means the first instant after now, within a day, at which the host's clock shows it; which time a text means is `ScheduleTexts.ClockTextMeansItsTime` |
| `ScheduleTexts.ClockTextMeansItsTime` | packages/protocol/src/schedule.ts:131-144 | a text reads as a time of day if and only if it is one of the ways of writing that time: of twenty-four hours, or of twelve with am before noon and pm from noon on; with or without seconds and leading zero, any spaces, any case |
| `ScheduleTexts.ClockMessageIsDueThen` | packages/protocol/src/schedule.ts:130-205 | a message with a written time of day is due at the first instant after now at which the host's clock shows that time, exactly when its text is in order and the host's year is none that `Date.UTC` reads as another |
| `ScheduleTexts.DurationMessageIsDueThen` | packages/protocol/src/schedule.ts:162-205 | a message with a duration is due that long from now, exactly when its text is in order and the duration is within 365 days |
| `ScheduleTexts.WrittenDurationReads` | packages/protocol/src/schedule.ts:101-128 | days, hours, minutes and seconds in this order, any left out, read as their total in milliseconds, if and only if that is positive and a safe integer |
| `ScheduleTexts.RewrittenExactly` | packages/protocol/src/schedule.ts:214-235 | the client rewrites only messages with a leading, complete `send_at` and a written time of day that parse; every other message it leaves as it is |
| `ScheduleTexts.TrimmedIsTheText` | packages/protocol/src/schedule.ts:179-180 | the message's text is what is left when the spaces around it are gone |
| `ScheduleTexts.NoDirectiveExactly` | packages/protocol/src/schedule.ts:166-168 | a text is a directive, well formed or not, exactly when it starts with `[send_in` or `[send_at` in any case and no word character follows |
| `ScheduleTexts.BrokenValuesFail` | packages/protocol/src/schedule.ts:169-178 | a directive whose value is empty or holds a line end is malformed |
| `ScheduleTexts.InstantsNameAnOffset` | packages/protocol/src/schedule.ts:153-159 | a text that is no time of day is an instant only if it ends in `Z` or a numeric offset |
| `ScheduleResults.FriendlyIsWithinADay` | packages/protocol/src/schedule.ts:130-152 | a parsed friendly clock is due within twenty-four hours |
| `ScheduleResults.DurationMeansItsTotal` | packages/protocol/src/schedule.ts:101-128 | a relative duration is amounts with descending units and means their total, if positive and a safe integer; nothing else is a duration |
| `Schedule.ReadDuration` | packages/protocol/src/schedule.ts:101-128 | the loop computes that meaning |
| `CivilTime.DatesRoundTrip` | packages/protocol/src/schedule.ts:146-149 | every date is the date of its day (section 21.4.1 of ECMA-262) |
| `CivilTime.ClocksRoundTrip` | packages/protocol/src/schedule.ts:240-246 | an instant on a whole second is the instant of its local clock |
| `CivilTime.ClockTextReads` | packages/protocol/src/schedule.ts:241-246 | a written local clock is read back as its instant |
| `BodyParser.MentionsAreOrderedAndApart` | packages/protocol/src/body.ts:211-245 | all mentions come in order and never overlap; they are the local and the resolved qualified ones, each once |
| `BodyParser.LocalMentionsAreSound` | packages/protocol/src/body.ts:211-226 | a local mention is `@` and its member's handle as the body has them, and touches neither code nor a qualified token |
| `BodyParser.NoMentionInCode` | packages/protocol/src/body.ts:58-76 | no mention, local or qualified, touches a code span |
| `BodyGrammar.CodeIsThisExactly` | packages/protocol/src/body.ts:58-62 | code is this and nothing else: fenced blocks from three backticks through the next three or to the end, with no fence between blocks; and, in what is left, spans from a backtick through the next one on its line, with only lone backticks between |
| `BodyGrammar.BlankingKeepsLines` | packages/protocol/src/body.ts:64-76 | blanking moves no offset and no line end: what is covered becomes a space unless it ends a line, and the rest stays |
| `BodyGrammar.LocalMentionsExactly` | packages/protocol/src/body.ts:211-226 | the local mentions are exactly these: in what is left of the body, an `@` where a mention can start and behind it the whole handle of a human or agent, the last member of that handle, not a reserved one |
| `BodyGrammar.StartsWhereMatched` | packages/protocol/src/body.ts:215-218 | a scan finds a mention exactly at an `@` before a letter or digit, at the start or behind a character that is no word character, backtick or `@`, and that no earlier mention's handle has taken |
| `BodyParser.MatchesAreTheseExactly` | packages/protocol/src/body.ts:215-218 | an `@` is matched if and only if a handle follows and what precedes it neither blocks nor belongs to the match before |
| `BodyParser.AddressedExactly` | packages/protocol/src/body.ts:215-226 | an `@` addresses a member if and only if it is matched and the handle is an addressable member's |
| `BodyParser.BlankRanges` | packages/protocol/src/body.ts:64-76 | the array loops blank exactly the covered positions, and no offset moves |
| `BodyParser.ParseBody` | packages/protocol/src/body.ts:94-246 | the loops over tokens and matches compute the mentions |

## Left out

- Resident sessions: `session_ref`, the `resident_session` envelope and the session hooks change no modelled state.
- Closing a coordinator, and what the transport throws after it; a send either puts a packet on the channel or, to an unreachable peer where the program asks first, does not.
- The room name on envelopes, which is passed through; and the order of the calls in one reconcile request, modelled as a set.
- Waiting readers of a stream: a poll returns an event, the failure, the end, or nothing yet.
- That the channel ever delivers: progress is stated for the packets that do arrive.
- SQLite, the file system, WebSockets, Hyperswarm and the web server are maps, sequences, sets and steps that may fail; schemas and JSON text are not modelled beyond a printer and a parser that agree.
- The path containment check of the blob store: a file is named by its room and reference.
- Numbers are integers and timestamps are reals, without the limits of doubles, except where the program checks for a safe integer.
- `unitizeRun`, which turns a journal into transcript units, and the assembly of message and journal records around the selected units; a page is modelled as its units.
- The text of legacy rows keyed by a timestamp that is not a number; the table refuses them.
- `TranscriptPaging.IndexedPageIsScannedPage`: the charged column is required to be sound; that every run of the writers keeps it sound is `TranscriptRuns.RunMaintains`, where a writer is required to have computed it over the units it writes.
- The sixteen-client check and the storage of the next client number are one atomic step, as the runtime delivers no other event meanwhile.
- Keepalives, other text messages and close codes of the relay.
- `RuntimeInstall.EveryStateKeepsARuntime`: starts from an installed runtime; when it holds from other states of the disk is `UpdateIsSafeExactly`.
- Resolving where a runtime came from, and reading versions from package files, which is a field of the tree.
- `JournalFile.JournalFileIsTheLog`: that a record cut short or joined to another never parses is required of the JSON printer and parser; `JournalExample.BracesNeverJoin` is an instance.
- `BodyParser.ParseBody`: references, ledger links and the list of unknown handles are left out, and the expression that finds qualified tokens is modelled as an ordered list of ranges, each with its outcome.
- `ScheduleResults.RewritingKeepsMeaning`: the due year has at most four digits on the submitting client's clock; `Date.UTC` reading years below one hundred as the nineteen-hundreds is modelled.
- `Date.parse` on other forms than the one the rewriting produces, and the byte length of a body, are parameters.
- Easy parts: role tables, capability checks, price lookup, slugs, version comparison, the pairing room's counters and the setup wizard.
