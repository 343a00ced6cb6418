# A verified model of the streaming client, the strategy worker and their helpers

The project models seven components of the repository and proves what they promise over whole runs.

* **Conversation reducer and delta buffer** (`Text`, `MessageFilter`, `MessageTexts`, `RunSlice*`, `DeltaTheorems`,
  `DeltaStream`, `OpenMessage`, `FinishedStream`, `EndToEnd`). A browser receives server-sent events at least once,
  coalesces text deltas per animation frame and folds events into a message list. Main results: exactly-once text, as
  an if-and-only-if about the window of a hundred sequence numbers; exactly when the coalesced dispatch equals
  dispatching one delta at a time, replayed deltas included, for the text and for the whole message list; deltas are
  conserved by the buffer over every run; exactly when hook and reducer composed show every delta of a stream once,
  across reconnects, remounts and foreign events; replayed events of a finished stream are invisible among foreign
  ones; exactly when the repeat of an event other than a delta changes the state; every reachable state is well
  formed; what every kind of event shows, by agent and text, and the verdict of a whole run.
* **Strategy task lifecycle** (`Runtime`, `Servicer`, `ServicerTheorems`, `ServicerStatus`, `ServicerAnswers`,
  `ServicerRuns`). A worker is a list of `RunStrategy` calls that advance from one `await` to the next, interleaved
  with cancel, approve and context-cancel steps, and with the tool steps of sub-tasks that a failed strategy leaves
  running. A run is a list of labels. Main results: a call that was hit by a cancel never ends completed, and a call
  whose strategy returns ends completed exactly when nothing hit it; the approval gate; coherence of every response;
  exactly when a terminal status on record stays, while the call is live and after it has answered; what every
  response says, by the step that ended the call; that an approval is used once, and that a cancel by workflow id
  reaches the latest call.
* **Rate limiter** (`RateLimiter`) and **section pipeline** (`Sections`, `SectionResults`) of the Playwright service:
  a sliding-window bound that is tight for every limit and width, an exact account of what a refusal means,
  independence of keys; a local overlap test that implies a global one, and a merge loop that keeps coverage and is a
  fixpoint.
* **Browser session table** (`SessionManager`, `SessionPages`): capacity, accounting of contexts, refinement of a
  plain LRU cache, and exactly when two requests for one id get the same page.
* **Streaming `<think>` removal** (`ThinkFilter`, `ThinkTheorems`): the chunked scanner against one pass and against
  the regular expression, with the exact conditions under which they agree.
* **Cron builder and parser** (`Cron`, `CronTheorems`, `CronWeekdays`): the exact set of configurations that survive a
  round trip; stability of parsed expressions; what the two readers of the weekday field make of every list of days
  and ranges, and exactly when they agree.
* **Seed hash and generator** (`Rng`, `RngValues`): one changed code unit changes the seed; the state has full period.

Each component keeps the source's form. State is held by classes whose methods update fields in place and are proved
equal to functions on values; the theorems are about those functions. Text is a sequence of characters (code units in
`Rng`), integers are unbounded except in `Rng`, and section geometry and clocks are over the reals.

## Where code and promise differ

* `desktop/lib/features/runSlice.ts:341-354`: at the end of a stream the placeholder is meant to read "Finalizing
  response...". It never does: a waiting placeholder itself counts as the workflow's assistant message and is removed
  (`StreamEndRemovesPlaceholder`).
* `desktop/lib/features/runSlice.ts:778-784`: a number repeated inside one coalesced event is shown twice
  (`RepeatInsideFrameIsDoubled`). For non-empty texts, and while numbers recorded before the frame stay in the window,
  coalescing agrees with single dispatch exactly when no number new to the message repeats within the last hundred
  (`CoalescingAgreesExactlyWhenFresh`); without such repeats it agrees exactly when no recorded number has left the
  window before it comes again (`CoalescingAgreesExactlyWhenRecordedStay`). When both fail the two faults can cancel
  (`FaultsCanCancel`).
* `desktop/lib/shannon/stream.ts:108-113`: the coalesced event also carries the metadata of diagnostic and of replayed
  deltas, which dispatched alone would be dropped (`DiagnosticMetadataLeaks`). Where the texts agree the messages are
  equal exactly when each key such a delta writes is written again later or ends with the same value without it,
  metadata does not come from such deltas alone, and a new message takes at most a hundred numbers
  (`CoalescingIsExactExactlyWhenHarmless`).
* `desktop/lib/features/runSlice.ts:912-1014`: a repeated completed event of an agent can add its text once more
  (`RepeatAddsText`), when the first one closed a streamed message without giving a response, or made its id from the
  clock and met another message under it (`CompletedRepeatsExactlyWhen`). No other event but a delta changes anything
  when repeated (`RepeatChangesNothingExactlyWhen`).
* `desktop/lib/features/runSlice.ts:762-767`: directly shown streams of one workflow are not told apart. All their
  deltas build on the one open message, and a number that one of them has brought hides the same number of another
  (`StreamsOfOneWorkflowMerge`, `MergedText`).
* `desktop/lib/features/runSlice.ts:880-885`: the completed final answer removes the message of its stream instead of
  closing it, so a replayed delta opens a second message beside the answer (`FinalAnswerForgetsItsStream`).
* `desktop/lib/features/runSlice.ts:923-931`: a completed event with a diagnostic response forgets its stream, so a
  replayed delta brings the message back (`ReplayIsAbsorbedExactlyWhen`).
* `desktop/lib/features/runSlice.ts:1109-1123`: of two answers without a sequence number the second is lost when both are
  longer than a hundred characters and differ only in the middle (`LikeAnswerIsLost`).
* `python/playwright-service/app.py:463-477`: a refusal is not always preceded by exactly the limit in the last
  window: the previous window may reach into it. The bounds are limit and 2 * limit - 1, both attained for
  every limit and width (`RefusalIsJustified`, `LeastIsAttained`, `BoundIsAttained`).
* `python/langgraph-worker/puerflow_worker/runtime.py:41-56`: a request that names only the task id does not reach
  a task that has a different workflow id (`TaskIdAloneMisses`).
* `python/langgraph-worker/puerflow_worker/servicer.py:298-303`: terminal statuses are not sticky. A cancelled waiter
  can run again, and a late rejection overwrites "completed" on record (`CancelledWaiterRunsAgain`,
  `LateRejectionOverwritesCompleted`). A call that failed or was cancelled can leave sub-tasks of its strategy behind
  (`strategies/dag.py:138`, `strategies/swarm.py:278`), and one that waits for a tool approval sets the status of the
  answered call to "running" again (`SubtaskRevivesAnsweredCall`). Exactly which steps and requests overwrite a
  terminal status is said by `TerminalStaysExactlyWhen`, for runs by `StatusStaysExactlyWhen`; a call that completed,
  or that never entered its strategy, keeps its status exactly when it is cancelled or no rejection reaches it
  (`AnsweredStatusStaysExactlyWhen`). Safety rests on the cancel event alone.
* `python/playwright-service/session_manager.py:188-203`: `is_expired` reads the clock once per session, so a session
  read later can be evicted before an older one (`LaterReadingEvictsYounger`). The victim is the least recently
  accessed session up to the time the readings take (`VictimIsLeastRecentWithin`).
* `python/llm-service/llm_provider/minimax_provider.py:251-258`: an opening tag cut by a chunk boundary leaks its
  block (`CutTagLeaks`), and a block left open is dropped where the regular expression keeps it. The flush after the
  last chunk never has anything to yield (`NothingLeftToFlush`).
* `desktop/components/schedule-builder.tsx:79-91`: hour 0 reads back as 9 (`MidnightReadsAsNine`), and a weekday
  field with a dash is read as one range, from its first number to the end of its first range (`ReadersRead`). A day
  after a range is lost exactly when it lies outside (`RangeThenDayAgrees`); of a day before a range, as in `1,3-5`,
  the days in between are invented, unless the range starts at the day or right after it (`DayThenRangeAgrees`).

## Model

| member | source | states |
|---|---|---|
| `RunSlice.RunStore.FindStreaming` | desktop/lib/features/runSlice.ts:762-767 | the backward search finds the streaming assistant message of the workflow that stands last, or none |
| `RunSlice.RunStore.RecordSeqs` | desktop/lib/features/runSlice.ts:797-799 | the loop over new sequence numbers appends and caps each in turn |
| `RunSlice.RunStore.AddDelta` | desktop/lib/features/runSlice.ts:735-843 | a delta event changes the message list as the delta transition says, all early returns included |
| `RunSlice.RunStore.AddCompleted` | desktop/lib/features/runSlice.ts:912-1014 | a completed event closes, removes or inserts a message as the completed transition says |
| `RunSlice.RunStore.AddStatusMessage` | desktop/lib/features/runSlice.ts:268-320 | the workflow's pill is replaced, or kept when the text is not shown |
| `RunSlice.RunStore.CompleteWorkflow` | desktop/lib/features/runSlice.ts:359-410 | only the main workflow, or a completion notice without one, completes the run; afterwards the workflow has no pill, and every message of another workflow is still there |
| `RunSlice.RunStore.FailRun` | desktop/lib/features/runSlice.ts:411-414 | a failed workflow leaves exactly the messages that are neither placeholder nor pill |
| `RunSlice.RunStore.EndStream` | desktop/lib/features/runSlice.ts:324-358 | the run has ended unless it had failed, and no pill of any workflow is left |
| `RunSlice.RunStore.UpdateStatus` | desktop/lib/features/runSlice.ts:296-414 | pills and run status after a status, completion, failure or end-of-stream event, in the order of the branches |
| `RunSlice.RunStore.UpdateSwarm` | desktop/lib/features/runSlice.ts:631-672 | swarm state after any event: creation on demand, task list, agents, lead status; registered agents stay and keep their colours |
| `RunSlice.RunStore.AddFinalCompleted` | desktop/lib/features/runSlice.ts:858-910 | a completed final answer replaces drafts and stands under the final id, as the final transition says |
| `RunSlice.RunStore.AddFinalOutput` | desktop/lib/features/runSlice.ts:1030-1075 | the same for the answer sent as LLM output, unless a final message exists |
| `RunSlice.RunStore.AddAnswer` | desktop/lib/features/runSlice.ts:1102-1151 | an answer is added under its stable id unless it is diagnostic or already shown |
| `RunSlice.RunStore.AddWorkflowResult` | desktop/lib/features/runSlice.ts:1153-1185 | interim messages go, and a substantive result is added only without an assistant message |
| `RunSlice.RunStore.UpdateMessageMetadata` | desktop/lib/features/runSlice.ts:1338-1353 | the backward search merges metadata into the last assistant message of the task |
| `RunSlice.RunStore.RemoveGeneratingPlaceholder` | desktop/lib/features/runSlice.ts:1444-1450 | exactly the assistant placeholders of the task are removed |
| `RunSlice.RunStore.AddEvent` | desktop/lib/features/runSlice.ts:212-1185 | one dispatched event takes the modelled state to the state the reducer function gives |
| `RunSlice.RunStore.AddMessage` | desktop/lib/features/runSlice.ts:1329-1333 | a message is appended unless its id is present |
| `RunSliceRepeat.AddedThenRemoved` | desktop/lib/features/runSlice.ts:1329-1337 | adding a message under a new id and removing that id restores the list |
| `RunSlice.RunStore.SetSwarmMode` | desktop/lib/features/runSlice.ts:1481-1494 | swarm state is created or dropped with the mode |
| `RunSlice.RunStore.ResetRun` | desktop/lib/features/runSlice.ts:1262-1292 | the modelled fields return to their initial values |
| `RunSliceShown.OthersAreNotHeard` | desktop/lib/features/runSlice.ts:686-732 | deltas, completed messages and LLM outputs of every agent but the unnamed one, simple-agent, final_output and swarm-lead leave the conversation as it was |
| `RunSliceShown.TitleIsFirstGenerated` | desktop/lib/features/runSlice.ts:848-856 | the session title is the first text that title_generator completes, also in history, and nothing else sets it |
| `RunSliceShown.DeltaOpens` | desktop/lib/features/runSlice.ts:743-843 | the first visible delta of those four agents opens a message with its text and sender, before the workflow's placeholder or at the end, and changes no other |
| `RunSliceShown.DeltaExtends` | desktop/lib/features/runSlice.ts:776-812 | a delta extends the open message by its text, number and metadata, unless it is diagnostic or its number is on the list |
| `RunSliceShown.CompletedCloses` | desktop/lib/features/runSlice.ts:923-942 | a completed event settles the open message with its response, or removes it for a diagnostic one |
| `RunSliceShown.CompletedShows` | desktop/lib/features/runSlice.ts:943-1014 | without an open message its text is shown as a new message unless empty, diagnostic, a mere status or standing there already; exactly the placeholders a simple answer replaces are gone |
| `RunSliceShown.AnswerShows` | desktop/lib/features/runSlice.ts:1102-1151 | an LLM answer, payload text before message, stands afterwards under its text or id; when new it is the last message, and only placeholders a simple answer replaces are gone |
| `RunSliceShown.AnswerIdsDiffer` | desktop/lib/features/runSlice.ts:1118-1119 | answers with different numbers, or one with and one without, have different ids |
| `RunSliceShown.LikeAnswerIsLost` | desktop/lib/features/runSlice.ts:1109-1123 | a second answer without a number is dropped when it has the fingerprint of the first |
| `RunSliceShown.SameIdExactlyWhen` | desktop/lib/features/runSlice.ts:1109-1119 | answers without numbers share an id if and only if their fingerprints are equal: the text, or its ends when long, without white space |
| `RunSliceShown.InterimShows` | desktop/lib/features/runSlice.ts:1077-1100 | an interim reply stands under its own id with the latest text, marked as interim, and no other message changes |
| `RunSliceShown.FinalOutputShows` | desktop/lib/features/runSlice.ts:1030-1075 | in every reachable list the final LLM output becomes the answer: drafts are gone, every other message is kept |
| `RunSliceShown.FinalCompletedShows` | desktop/lib/features/runSlice.ts:858-910 | the completed final answer does the same unless empty, diagnostic or a mere status |
| `RunSliceShown.MetadataIsMerged` | desktop/lib/features/runSlice.ts:1338-1353 | metadata is merged key by key into the last assistant message of the task and into no other |
| `RunSliceShown.KeysDiffer` | desktop/lib/features/runSlice.ts:769-774 | the key of a delta without a stream id is never that of a completed event, and differs with the clock |
| `RunSliceVerdicts.StatusShows` | desktop/lib/features/runSlice.ts:268-320 | a status of at most 150 characters replaces the workflow's pill by one with the trimmed text at the end; another one changes nothing |
| `RunSliceVerdicts.StreamEndLeaves` | desktop/lib/features/runSlice.ts:324-358 | exactly which messages the end of the stream leaves |
| `RunSliceVerdicts.WorkflowEndLeaves` | desktop/lib/features/runSlice.ts:359-410 | exactly which messages the end of a workflow leaves, its result of lines 1153-1185 included, and whether the run is completed |
| `RunSliceVerdicts.RunVerdict` | desktop/lib/features/runSlice.ts:321-414 | over any run of a main workflow: failed if and only if some failure was not followed by its completion, completed if and only if it ended otherwise; sub-workflows decide nothing |
| `RunSliceVerdicts.SwarmReadsItsLastEvents` | desktop/lib/features/runSlice.ts:635-671 | over any run the lead status, the task list and every agent's status are those last reported, and the agents are those there before and those started |
| `RunSliceVerdicts.AgentJoins` | desktop/lib/features/runSlice.ts:642-653 | a new agent gets the next colour and its role |
| `MessageTexts.StatusMessageIs` | desktop/lib/utils/message-filter.ts:13-43 | a text is a mere status if and only if, trimmed and in lower case, it is short and matches the expression for bare outcomes or holds a stock phrase |
| `RunSliceInvariant.DeltaKeeps` | desktop/lib/features/runSlice.ts:735-843 | a delta keeps ids distinct and at most one streaming message, pill and final message per workflow |
| `RunSliceInvariant.CompletedKeeps` | desktop/lib/features/runSlice.ts:912-1014 | a completed event keeps the same |
| `RunSliceInvariant.LlmOutputKeeps` | desktop/lib/features/runSlice.ts:1015-1152 | an LLM_OUTPUT event keeps the same |
| `RunSliceInvariant.WorkflowResultKeeps` | desktop/lib/features/runSlice.ts:1153-1185 | a workflow result keeps the same: its clock-based id cannot clash, because it is added only without an assistant message |
| `RunSliceInvariant.SwarmKeeps` | desktop/lib/features/runSlice.ts:635-671 | colour indices stay a bijection from registered agents onto 0..nextColorIndex-1, and no agent changes colour |
| `RunSliceInvariant.ReachableStatesAreWellFormed` | desktop/lib/features/runSlice.ts:212-1494 | the invariant holds after any sequence of events and modelled store actions from any state that has it |
| `RunSliceInvariant.EveryRunIsWellFormed` | desktop/lib/features/runSlice.ts:212-1494 | the invariant holds in every state reachable from the initial one |
| `RunSliceInvariant.ColoursAreStable` | desktop/lib/features/runSlice.ts:642-657 | an agent keeps its colour over any run that does not drop the swarm |
| `RunSliceInvariant.StreamEndRemovesPlaceholder` | desktop/lib/features/runSlice.ts:334-358 | no generating assistant message of the workflow survives the end of the stream, and the "Finalizing" text is never set |
| `RunSliceReplay.DeltaDelivers` | desktop/lib/features/runSlice.ts:735-843 | on the whole list, with id, place and sender, a delta does exactly what a three-field account of one message says |
| `RunSliceReplay.DeliverEachAccepts` | desktop/lib/features/runSlice.ts:778-812 | delivering deltas one at a time yields the text, merged metadata and window of exactly those accepted by the sliding window |
| `DeltaTheorems.CoalescingRefines` | desktop/lib/shannon/stream.ts:28-46 | for a frame, replayed deltas included, that repeats no new number within the window and whose recorded numbers stay in it, one coalesced event shows the text that dispatching each part shows |
| `DeltaTheorems.ShortFramesAgree` | desktop/lib/shannon/stream.ts:28-46 | it is enough that the frame repeats no new number and that the message's list has room for it |
| `DeltaTheorems.CoalescingAgreesExactlyWhenFresh` | desktop/lib/shannon/stream.ts:28-46 | for non-empty texts, while recorded numbers stay in the window, the two forms give the same text if and only if no number new to the message repeats within the window |
| `DeltaTheorems.CoalescingAgreesExactlyWhenRecordedStay` | desktop/lib/shannon/stream.ts:28-46 | for non-empty texts without such repeats, they do if and only if no recorded number has left the window when it comes again |
| `DeltaTheorems.FaultsCanCancel` | desktop/lib/utils/message-filter.ts:70-82 | witness: outside both conditions the two forms can show the same text by coincidence |
| `DeltaTheorems.MergedExactlyWhenHarmless` | desktop/lib/shannon/stream.ts:108-113 | metadata merged with and without the deltas that are not taken is equal if and only if each key they write is overwritten later or ends the same without them |
| `DeltaTheorems.CoalescingIsExactExactlyWhenHarmless` | desktop/lib/shannon/stream.ts:28-46 | where both forms take the same deltas, the messages are equal, metadata and numbers included, if and only if nothing is taken, or that holds and the list of a new message needs no cap |
| `DeltaTheorems.DiagnosticMetadataLeaks` | desktop/lib/features/runSlice.ts:743-812 | metadata that only a diagnostic delta carries reaches the message in the coalesced form and not in the simple one |
| `DeltaTheorems.RepeatInsideFrameIsDoubled` | desktop/lib/features/runSlice.ts:778-784 | a number repeated inside one event is shown twice by the coalesced form and once by the simple form |
| `DeltaTheorems.CoalescingRefinesReducer` | desktop/lib/features/runSlice.ts:735-843 | the whole message list is the same in both forms under the same condition |
| `DeltaTheorems.AcceptsFirstArrivals` | desktop/lib/features/runSlice.ts:776-785 | when repeats arrive within the window, the accepted deltas are the distinct shown ones in order of first arrival |
| `DeltaTheorems.ExactlyOnceText` | desktop/lib/features/runSlice.ts:735-843 | a stream delivered with such repeats shows the concatenation of its distinct shown deltas in first-arrival order |
| `DeltaTheorems.ExactlyOnceNeedsTheWindow` | desktop/lib/utils/message-filter.ts:70-82 | for non-empty texts, exactly-once text holds if and only if every repeat arrives within the window |
| `DeltaTheorems.StreamsOfOneWorkflowMerge` | desktop/lib/features/runSlice.ts:762-812 | deltas of any directly shown agents and streams of a workflow build on its one open message, under its id and sender |
| `DeltaTheorems.MergedText` | desktop/lib/features/runSlice.ts:762-812 | the merged text is what was shown, then the deltas of all streams in order of arrival that the shared window accepts |
| `DeltaTheorems.CompletedSettles` | desktop/lib/features/runSlice.ts:923-943 | a completed event closes the stream's message under its id, or restores the list as it was when the response is diagnostic |
| `DeltaTheorems.FinishedStreamAbsorbsReplay` | desktop/lib/features/runSlice.ts:813-973 | after a non-diagnostic completion any replay of the stream's deltas and completed events, in any order and length, changes nothing |
| `DeltaTheorems.DiagnosticCompletionForgets` | desktop/lib/features/runSlice.ts:924-932 | after a diagnostic completion one replayed delta changes the list |
| `DeltaTheorems.ReplayIsAbsorbedExactlyWhen` | desktop/lib/features/runSlice.ts:813-973 | replay is absorbed if and only if the response was not diagnostic |
| `DeltaTheorems.ReducerReplays` | desktop/lib/features/runSlice.ts:212-1014 | for a directly shown agent the whole reducer changes messages as the delta and completed transitions say |
| `RunSliceRepeat.FinalCompletedAnswers` | desktop/lib/features/runSlice.ts:858-910 | a substantive final answer stands afterwards under the final id in place of all drafts, other messages are kept, and a repeat changes nothing |
| `RunSliceRepeat.LlmOutputTwice` | desktop/lib/features/runSlice.ts:1015-1152 | the same LLM_OUTPUT event twice leaves the messages as once did, in the final, interim and answer branches |
| `RunSliceRepeat.StreamEndTwice` | desktop/lib/features/runSlice.ts:324-358 | a second end of stream changes no message |
| `RunSliceRepeat.WorkflowDoneTwice` | desktop/lib/features/runSlice.ts:359-410 | a second end of a workflow changes no message, at any later clock, the result of lines 1153-1185 included |
| `RunSliceRepeat.RepeatAddsText` | desktop/lib/features/runSlice.ts:912-1014 | witness: a run in which a repeated completed event adds its text beside the streamed one |
| `RunSliceRepeat.CompletedRepeatsExactlyWhen` | desktop/lib/features/runSlice.ts:912-1014 | a repeated completed event of an agent changes the list if and only if it brings a text the first one did not show |
| `RunSliceRepeat.RepeatChangesNothingExactlyWhen` | desktop/lib/features/runSlice.ts:212-1185 | for every event but deltas, at any later clock, an immediate repeat leaves the whole state unchanged if and only if it is not such a completed event |
| `RunSliceRepeat.EveryRunAbsorbsRepeats` | desktop/lib/features/runSlice.ts:212-1494 | so it is in every state a run of the store reaches |
| `DeltaStream.StreamHook.FlushDeltaBuffer` | desktop/lib/shannon/stream.ts:28-46 | a flush dispatches one event per slot in insertion order and empties the buffer |
| `DeltaStream.StreamHook.HandleDelta` | desktop/lib/shannon/stream.ts:101-125 | a delta joins the slot of its stream, merges metadata and schedules at most one frame |
| `DeltaStream.StreamHook.DispatchAfterFlush` | desktop/lib/shannon/stream.ts:127-132 | another event is dispatched after a flush of what is held |
| `DeltaStream.StreamHook.Handle` | desktop/lib/shannon/stream.ts:74-281 | every input (delta, other event, frame, error, done, unmount) takes the hook to the specified state |
| `DeltaStream.RunConserves` | desktop/lib/shannon/stream.ts:28-281 | over any run from any scheduled state, per stream, dispatched plus held deltas are those before plus those received, in order |
| `DeltaStream.DeltasAreConserved` | desktop/lib/shannon/stream.ts:28-281 | from the start every received delta is dispatched exactly once in order or still held, and a held one has a pending frame |
| `DeltaStream.FrameDrains` | desktop/lib/shannon/stream.ts:121-123 | when the remembered frame fires, all received deltas have been dispatched |
| `DeltaStream.DeltasPrecedeOtherEvents` | desktop/lib/shannon/stream.ts:127-132 | any other event, an error and the end of the stream are dispatched after all deltas received before |
| `DeltaStream.OneFramePerStretch` | desktop/lib/shannon/stream.ts:121-123 | at most one frame is requested for every stretch of deltas between other inputs |
| `DeltaStream.BufferKeysDiffer` | desktop/lib/shannon/stream.ts:101-103 | deltas without a stream id are buffered apart when their numbers differ, or one has none |
| `OpenMessage.ForeignStep` | desktop/lib/features/runSlice.ts:212-1185 | an event that does not belong to the stream leaves its open message, text, metadata and window as they are |
| `FinishedStream.ReplaysAreInvisible` | desktop/lib/features/runSlice.ts:212-1014 | events of a finished stream, in any order and mixed with foreign events, leave no trace: the whole state is the one the foreign events alone lead to |
| `FinishedStream.FinishedStreamAbsorbsReplayAmongOthers` | desktop/lib/features/runSlice.ts:212-1014 | the same from the state with the open message, through its completed event |
| `FinishedStream.FinalAnswerForgetsItsStream` | desktop/lib/features/runSlice.ts:858-910 | after the completed final answer the stream has no message, and one replayed delta opens a new one |
| `EndToEnd.FlushStep` | desktop/lib/features/runSlice.ts:776-812 | one flushed frame whose repeats are recorded adds exactly its first arrivals to the text and to the window |
| `EndToEnd.RunShows` | desktop/lib/shannon/stream.ts:28-281 | from any standing of hook and reducer, and whatever numbers repeat, the rest of a run shows the text so far plus what its frames add |
| `EndToEnd.FramesShow` | desktop/lib/features/runSlice.ts:776-812 | frames show at least the first arrivals, and for non-empty texts no more if and only if each repeated number is on the message's list when its frame is reduced |
| `EndToEnd.ShowsEveryDeltaOnceExactlyWhen` | desktop/lib/shannon/stream.ts:59-282 | hook and reducer composed, for any directly shown agent and non-empty texts: over every interleaving of deltas, frames, reconnects, stream ends, remounts, deltas of other streams and foreign events, every distinct shown delta stands in the conversation exactly once, in order, if and only if that holds in every frame |
| `EndToEnd.ShowsEveryDeltaOnce` | desktop/lib/shannon/stream.ts:59-282 | it does when no frame brings a new number twice and a repeated number arrives before a hundred newer ones |
| `EndToEnd.ReconnectsShowEveryDeltaOnce` | desktop/lib/shannon/stream.ts:59-282 | it does when no one connection repeats a number, repeats come with reconnects or remounts, and arrive within the window |
| `Runtime.TaskState.RequestCancel` | python/langgraph-worker/puerflow_worker/runtime.py:62-66 | cancelling sets the event always, and status, message and code only from a non-terminal status |
| `Runtime.TaskState.RecordDecision` | python/langgraph-worker/puerflow_worker/servicer.py:285-308 | a decision is recorded unless bound to another request; a rejection cancels, an approval resumes a waiter |
| `Runtime.TaskState.AddTokens` | python/langgraph-worker/puerflow_worker/budget.py:38-41 | a charge is added first, then the call raises exactly when the budget is used up |
| `Runtime.TaskRegistry.Create` | python/langgraph-worker/puerflow_worker/runtime.py:44-47 | a task is registered under its workflow id, else its task id, replacing an older one |
| `Runtime.TaskRegistry.Get` | python/langgraph-worker/puerflow_worker/runtime.py:49-56 | a request reaches the task under its own key, else the one under its task id |
| `Runtime.TaskRegistry.RequestCancel` | python/langgraph-worker/puerflow_worker/runtime.py:58-75 | cancel changes the task the request reaches and no other |
| `Runtime.FindsExactly` | python/langgraph-worker/puerflow_worker/runtime.py:41-56 | exactly which requests reach a registered task |
| `Runtime.ChargesStayWithinOneCall` | python/langgraph-worker/puerflow_worker/budget.py:33-41 | usage is the sum of charges, below budget until the first raise, whose overshoot is less than its own charge |
| `Runtime.ReportAgreesWithTiers` | python/langgraph-worker/puerflow_worker/servicer.py:310-324 | a report is never both hard stop and degrade, and near_limit holds exactly when a large request would be lowered |
| `Runtime.TierIs` | python/langgraph-worker/puerflow_worker/budget.py:15-25 | a tier is lowered by one if and only if at least four fifths of a budget, rounded down, are used; unknown names count as the smallest |
| `Servicer.RunCall.Begins` | python/langgraph-worker/puerflow_worker/servicer.py:149-174 | up to the first await: the call is answered for an unknown strategy, waits for approval, or enters its strategy |
| `Servicer.RunCall.Wakes` | python/langgraph-worker/puerflow_worker/servicer.py:185-191 | a woken waiter proceeds or answers by the decision then on record |
| `Servicer.RunCall.TimesOut` | python/langgraph-worker/puerflow_worker/servicer.py:180-184 | a timed-out waiter answers with the timeout code |
| `Servicer.RunCall.StrategyReturns` | python/langgraph-worker/puerflow_worker/servicer.py:228-240 | after the strategy the call completes unless its cancel event is set |
| `Servicer.RunCall.StrategyRaises` | python/langgraph-worker/puerflow_worker/servicer.py:207-226 | each kind of exception sets its status and code and answers at once or after the awaited emit |
| `Servicer.RunCall.FailureIsEmitted` | python/langgraph-worker/puerflow_worker/servicer.py:219-226 | the answer after the emit is built from the state of that moment |
| `Servicer.RunCall.WatchContext` | python/langgraph-worker/puerflow_worker/servicer.py:193-204 | a cancelled context sets the cancel event and nothing else |
| `ServicerTheorems.LabelsTouchOnlyTheirTarget` | python/langgraph-worker/puerflow_worker/servicer.py:242-308 | a step or request changes at most the call it reaches |
| `ServicerTheorems.CancelledCallNeverCompletes` | python/langgraph-worker/puerflow_worker/servicer.py:156-240 | once a cancel, a rejection or a cancelled context reaches a live call, no continuation lets it end completed |
| `ServicerTheorems.CancelEventRecordsHits` | python/langgraph-worker/puerflow_worker/runtime.py:58-66 | the cancel event of a live call is set if and only if something hit it |
| `ServicerTheorems.ReturnCompletesExactlyWhenNotHit` | python/langgraph-worker/puerflow_worker/servicer.py:228-240 | a call whose strategy returns ends completed, with that content, if and only if nothing hit it since its creation |
| `ServicerTheorems.EveryResponseIsCoherent` | python/langgraph-worker/puerflow_worker/servicer.py:359-378 | in every response of every run status OK, task completed, code OK and absent hint are equivalent |
| `ServicerAnswers.EveryAnswerSays` | python/langgraph-worker/puerflow_worker/servicer.py:145-240 | over every run, a response was given by one ending step of the call and has the status, code, message and hint of that ending |
| `ServicerAnswers.FailureAnswers` | python/langgraph-worker/puerflow_worker/servicer.py:214-226 | a raised budget answers BUDGET_EXCEEDED without failover, any other exception STRATEGY_FAILED with failover exactly for dag, research and swarm, unless a request took the code away during the emit; then CANCELLED |
| `ServicerTheorems.StrategyRunsOnlyApproved` | python/langgraph-worker/puerflow_worker/servicer.py:158-191 | a call that needs approval starts its strategy, or has dangerous tools allowed, only after waking to an approval recorded on it |
| `ServicerTheorems.KnownDecisionsWereRecorded` | python/langgraph-worker/puerflow_worker/servicer.py:281-308 | a decision a call knows was recorded on it by some request of the run |
| `ServicerRuns.ApprovalIsUsedOnce` | python/langgraph-worker/puerflow_worker/tools/registry.py:100-209 | after a tool has asked or settled, a waiter goes on only with an approving decision recorded since |
| `ServicerRuns.EveryCallIsOrderly` | python/langgraph-worker/puerflow_worker/servicer.py:156-191 | over every run dangerous tools are allowed if and only if the call needed approval and passed its gate, a waiter wakes only to a recorded decision, and a decision on record always answers the pending request |
| `ServicerRuns.LatestStartIsReached` | python/langgraph-worker/puerflow_worker/runtime.py:41-56 | over any run, requests under a workflow id reach the call last started under it |
| `ServicerRuns.CancelByIdStops` | python/langgraph-worker/puerflow_worker/runtime.py:58-66 | so a cancel by that id keeps it from ever completing, unless it has answered before |
| `ServicerRuns.CancelReasonIsAnswered` | python/langgraph-worker/puerflow_worker/servicer.py:228-232 | a call cancelled while running answers with the reason |
| `ServicerRuns.UsageIsCharged` | python/langgraph-worker/puerflow_worker/budget.py:38-41 | until its strategy ends a call has used exactly what it was charged during the run |
| `ServicerStatus.TerminalStaysExactlyWhen` | python/langgraph-worker/puerflow_worker/servicer.py:156-308 | a terminal status survives a step or request if and only if that is none of the listed steps under their guards, and no rejection of a call not cancelled |
| `ServicerStatus.StatusStaysExactlyWhen` | python/langgraph-worker/puerflow_worker/servicer.py:156-308 | over a whole run of the worker a terminal status stays if and only if none of these reaches the call |
| `ServicerStatus.LiveStatusRun` | python/langgraph-worker/puerflow_worker/servicer.py:156-240 | in every run a live call with a terminal status is cancelled with its event set, or failed while the failure is being emitted |
| `ServicerStatus.CancelledStaysExactlyWhen` | python/langgraph-worker/puerflow_worker/servicer.py:149-240 | a live call of any run that reads cancelled goes on doing so exactly until one of the reviving steps |
| `ServicerStatus.AnsweredCallsFollow` | python/langgraph-worker/puerflow_worker/tools/registry.py:175-209 | an answered call keeps its response, and its status follows the requests and the tool steps of sub-tasks left behind, label by label |
| `ServicerStatus.AnsweredIsOverwrittenExactlyWhen` | python/langgraph-worker/puerflow_worker/tools/registry.py:175-209 | after the answer a terminal status is overwritten by a rejection, or by a left-over sub-task that asks for approval or goes on with a matching one, and by nothing else |
| `ServicerStatus.AnsweredStatusAfter` | python/langgraph-worker/puerflow_worker/servicer.py:300-303 | for a call that completed or never entered its strategy, the status on record becomes cancelled exactly when a rejection reaches it |
| `ServicerStatus.AnsweredStatusStaysExactlyWhen` | python/langgraph-worker/puerflow_worker/servicer.py:300-303 | the terminal status of such a call is the same after a run if and only if it is cancelled or no rejection reached it |
| `ServicerStatus.SubtaskRevivesAnsweredCall` | python/langgraph-worker/puerflow_worker/strategies/dag.py:131-138 | witness: a run from the idle worker in which an answered, cancelled call reads running again |
| `ServicerStatus.CancelledWaiterRunsAgain` | python/langgraph-worker/puerflow_worker/servicer.py:298-299 | witness: a run in which a cancelled, then approved waiter runs with its cancel event still set |
| `ServicerStatus.LateRejectionOverwritesCompleted` | python/langgraph-worker/puerflow_worker/servicer.py:300-303 | witness: a run in which a late rejection changes the recorded status of a completed call, not its response |
| `RateLimiter.FixedWindowRateLimiter.Admit` | python/playwright-service/app.py:463-477 | one call decides and updates the key's counter as specified |
| `RateLimiter.SlidingBound` | python/playwright-service/app.py:463-477 | on any non-decreasing clock no half-open interval of the window's width holds more than 2 * limit - 1 admissions of a key |
| `RateLimiter.RefusalIsJustified` | python/playwright-service/app.py:469-475 | a refusal has between limit and 2 * limit - 1 admissions in the last window, and exactly limit if and only if the window before left none in reach |
| `RateLimiter.BoundIsAttained` | python/playwright-service/app.py:463-477 | for every positive limit and width a run holds 2 * limit - 1 admissions in one interval, and a refusal sees that many |
| `RateLimiter.LeastIsAttained` | python/playwright-service/app.py:463-477 | for every positive limit and width some refusal sees exactly limit admissions |
| `RateLimiter.NoLimitAdmitsAll` | python/playwright-service/app.py:463-466 | a limit that is not positive admits every call of every run and counts none |
| `RateLimiter.KeysDoNotInterfere` | python/playwright-service/app.py:460-477 | decisions and counter of a key are those of the key calling alone |
| `Sections.ChunkPage` | python/playwright-service/app.py:899-911 | the fallback loop produces the specified chunks |
| `Sections.Dedupe` | python/playwright-service/app.py:915-926 | the loop keeps a section unless it overlaps the last kept one by more than half |
| `Sections.SectionBox.Absorb` | python/playwright-service/app.py:936-937 | a kept section is extended in place to the end of the next one |
| `Sections.MergeNext` | python/playwright-service/app.py:930-939 | one round of the merge joins in place or appends |
| `Sections.Merge` | python/playwright-service/app.py:929-939 | the in-place merge of the deduplicated list gives the specified list |
| `Sections.SortSorts` | python/playwright-service/app.py:914-914 | sorting by y orders the sections and loses none |
| `Sections.LocalTest` | python/playwright-service/app.py:919-924 | for positive heights in y order the local test fails exactly when the next section starts and ends later and shares at most half |
| `Sections.DroppedOverlapKept` | python/playwright-service/app.py:916-926 | every dropped section overlaps a kept one by more than half |
| `Sections.DedupeSeparates` | python/playwright-service/app.py:914-926 | every two kept sections, not just neighbours, share at most half of the smaller one, in order of y and of end, and a second pass keeps everything |
| `Sections.MergePreservesCoverage` | python/playwright-service/app.py:929-939 | merging covers every section and nothing beyond, keeps order and separation, bounds what it joins, and is a fixpoint |
| `SectionResults.NoSmallNeighbours` | python/playwright-service/app.py:929-939 | the merge leaves no two neighbours below the threshold that are less than 100 apart |
| `SectionResults.AloneStandsUnchanged` | python/playwright-service/app.py:929-939 | a section at least as high as the threshold, or 100 or more from both neighbours, comes out unchanged |
| `SectionResults.JoinedAreMarked` | python/playwright-service/app.py:936-937 | every other section of the result is marked as merged and as wide as the one it starts with |
| `SectionResults.CandidatesExactly` | python/playwright-service/app.py:870-911 | with three tall boxes the candidates are exactly the tall boxes in their order, otherwise the chunks |
| `SectionResults.ChunkGrid` | python/playwright-service/app.py:899-911 | chunks start at multiples of 800, reach 800 down or to the end of the page, and are as wide as the viewport |
| `SectionResults.CaptureKeepsTopmost` | python/playwright-service/app.py:941-943 | the cap keeps the topmost sections and as many as allowed |
| `Sections.ChunksTile` | python/playwright-service/app.py:899-911 | chunks lie on the 800 grid and cover the page down to the last stretch below the minimum height |
| `Sections.CaptureSeparates` | python/playwright-service/app.py:870-943 | whatever boxes a page reports, the result is ordered, separated and within the cap |
| `Sections.CaptureLosesNothing` | python/playwright-service/app.py:870-939 | before the cap every candidate is covered, or overlaps by more than half a candidate that is |
| `SessionManager.BrowserSessionManager.CloseSession` | python/playwright-service/session_manager.py:168-186 | closing removes the session and reports whether it existed, also when the browser fails |
| `SessionManager.BrowserSessionManager.EvictOldest` | python/playwright-service/session_manager.py:188-203 | both branches evict the specified victim |
| `SessionManager.BrowserSessionManager.GetOrCreateSession` | python/playwright-service/session_manager.py:99-157 | the table and the outcome after a request, in every browser outcome |
| `SessionManager.BrowserSessionManager.GetSession` | python/playwright-service/session_manager.py:159-166 | a hit touches the session, a miss changes nothing |
| `SessionManager.BrowserSessionManager.CleanupExpired` | python/playwright-service/session_manager.py:216-229 | all expired sessions, and no others, are closed |
| `SessionManager.VictimIsLeastRecent` | python/playwright-service/session_manager.py:188-203 | with one clock reading for all sessions, the victim of either branch is the least recently accessed session of the whole table |
| `SessionManager.VictimIsLeastRecentWithin` | python/playwright-service/session_manager.py:188-203 | with one reading per session it is so up to the time the readings take |
| `SessionManager.LaterReadingEvictsYounger` | python/playwright-service/session_manager.py:194-197 | witness: two sessions at the edge of expiry, read one after the other, of which the younger is evicted |
| `SessionManager.GetOrCreateKeeps` | python/playwright-service/session_manager.py:129-133 | the maximum-reached error is unreachable |
| `SessionPages.HitGetsOwnPage` | python/playwright-service/session_manager.py:121-126 | a request for an id that a session holds gets the page of that session, which is touched; all others stay |
| `SessionPages.MissOpensOwnPage` | python/playwright-service/session_manager.py:128-157 | otherwise an opened page stands in the table under the id, in a context no session of the table has |
| `SessionPages.EveryRunKeepsContextsApart` | python/playwright-service/session_manager.py:99-229 | in every run no two live sessions share a context |
| `SessionPages.LostExactlyWhen` | python/playwright-service/session_manager.py:99-229 | a session leaves the table if and only if it is closed, cleaned up after 300 seconds, or evicted at 50 sessions |
| `SessionPages.SamePageExactlyWhenHeld` | python/playwright-service/session_manager.py:99-229 | two requests for one id get the same context if and only if the session was not lost in between, whatever requests came |
| `SessionManager.EveryRunIsBounded` | python/playwright-service/session_manager.py:99-229 | over any run capacity is kept, and contexts opened equal those live, closed and lost to browser errors |
| `SessionManager.FaultlessRunsLeakNothing` | python/playwright-service/session_manager.py:135-186 | when closes succeed and pages open, contexts opened equal live plus closed |
| `SessionManager.TableRefinesLru` | python/playwright-service/session_manager.py:99-229 | with a clock that moves between requests the table holds what a plain LRU cache with idle expiry holds |
| `ThinkFilter.FindIsFirst` | python/llm-service/llm_provider/minimax_provider.py:246-252 | find gives the first occurrence, or none |
| `ThinkFilter.ScanChunk` | python/llm-service/llm_provider/minimax_provider.py:240-262 | the inner loop yields and buffers what the recursive scanner says |
| `ThinkFilter.StreamComplete` | python/llm-service/llm_provider/minimax_provider.py:232-277 | the chunk loop with its final flush yields what feeding the chunks in turn yields |
| `ThinkTheorems.PassAgainstRegex` | python/llm-service/llm_provider/minimax_provider.py:31-31 | one pass equals the regular expression up to a block left open, which the expression keeps and the scanner drops |
| `ThinkTheorems.OnePieceEqualsRegexExactlyWhenClosed` | python/llm-service/llm_provider/minimax_provider.py:48-50 | text in one piece: the stream equals the expression if and only if every opened block is closed |
| `ThinkTheorems.Split` | python/llm-service/llm_provider/minimax_provider.py:238-262 | reading two parts in turn is one pass when the seam cuts no acting opening tag; closing tags may be cut |
| `ThinkTheorems.CutYieldsMore` | python/llm-service/llm_provider/minimax_provider.py:251-262 | a seam that cuts such a tag makes the rest yield strictly more |
| `ThinkTheorems.ChunkingIsHarmlessExactlyWhenUncut` | python/llm-service/llm_provider/minimax_provider.py:232-277 | chunked and whole text are streamed alike if and only if no chunk ends inside an opening tag that starts a block |
| `ThinkTheorems.StreamEqualsRegexExactlyWhenUncut` | python/llm-service/llm_provider/minimax_provider.py:232-277 | for text whose blocks are closed the stream equals the expression if and only if no chunk ends inside such a tag |
| `ThinkTheorems.StreamEqualsRegexExactlyWhenClosed` | python/llm-service/llm_provider/minimax_provider.py:232-277 | for such chunkings it equals the expression if and only if every opened block is closed |
| `ThinkTheorems.UncutWhenNothingStraddled` | python/llm-service/llm_provider/minimax_provider.py:232-262 | it is enough that no boundary falls inside any occurrence of the opening tag |
| `ThinkTheorems.NothingLeftToFlush` | python/llm-service/llm_provider/minimax_provider.py:275-277 | the flush after the last chunk yields nothing |
| `ThinkTheorems.CutTagLeaks` | python/llm-service/llm_provider/minimax_provider.py:251-258 | a family of chunked texts that the expression empties and the stream does not |
| `Cron.ExpandRange` | desktop/components/schedule-builder.tsx:86-91 | the loop expands the range between the first two pieces around dashes |
| `Cron.ParseDayOfWeekField` | desktop/components/schedule-builder.tsx:159-180 | the loop reads a list of days and ranges |
| `Cron.ParseCronToConfig` | desktop/components/schedule-builder.tsx:53-139 | the branches give the specified configuration or none |
| `Cron.ScheduleConfig.BuildCronFromConfig` | desktop/components/schedule-builder.tsx:142-156 | the expression built, and the sorting of the configuration's own days |
| `CronTheorems.ParsePrint` | desktop/components/schedule-builder.tsx:79-80 | parseInt reads back every printed integer |
| `CronTheorems.NumbersOfJoin` | desktop/components/schedule-builder.tsx:94-94 | splitting and reading a printed list gives the list |
| `CronTheorems.WeekdaysSortNumerically` | desktop/components/schedule-builder.tsx:149-149 | the textual sort orders one-digit days numerically and keeps them all |
| `CronTheorems.ParsesBackTo` | desktop/components/schedule-builder.tsx:53-156 | what building and then parsing makes of every configuration with printable days |
| `CronTheorems.RoundTripExactlyWhen` | desktop/components/schedule-builder.tsx:53-156 | building and parsing gives the same schedule if and only if hour and day are not 0 and weekdays are present and not negative |
| `CronTheorems.ParsedConfigIsStable` | desktop/components/schedule-builder.tsx:53-156 | for every text that parses, building and parsing again gives the same configuration, weekdays sorted |
| `CronTheorems.ParsesExactlyWhen` | desktop/components/schedule-builder.tsx:53-139 | exactly which five-field expressions parse, and to which schedule; months, both kinds of day, empty weekday fields and minute steps are refused |
| `CronTheorems.NumberThenRest` | desktop/components/schedule-builder.tsx:79-80 | a number is read up to the first character that is no digit, also after a sign |
| `CronTheorems.DaysAreNonNegative` | desktop/components/schedule-builder.tsx:84-95 | no weekday field yields a negative day |
| `CronTheorems.ReadersAgree` | desktop/components/schedule-builder.tsx:84-180 | both readers read a field that is a range or a list alike |
| `CronTheorems.RebuiltFieldKeepsDays` | desktop/components/schedule-builder.tsx:84-180 | rebuilding a weekly expression lists the days the parser saw, sorted; they are the days of a field that is not a mixture |
| `CronTheorems.MidnightReadsAsNine` | desktop/components/schedule-builder.tsx:79-79 | every schedule at hour 0 that is not hourly reads back at hour 9 |
| `CronWeekdays.ReadersRead` | desktop/components/schedule-builder.tsx:84-180 | of every list of days and ranges one reader takes all parts, the other the one range from its first number to the end of its first range |
| `CronWeekdays.ReadersAgreeExactlyWhen` | desktop/components/schedule-builder.tsx:84-180 | both readers see the same days if and only if there is no range, or the parts lie in that stretch and leave no gap in it |
| `CronWeekdays.RangeThenDayAgrees` | desktop/components/schedule-builder.tsx:84-180 | a range and then a day: if and only if the day lies in the range |
| `CronWeekdays.DayThenRangeAgrees` | desktop/components/schedule-builder.tsx:84-180 | a day and then a range: if and only if the range starts at the day or right after it, or is empty and ends at the day |
| `Rng.SeedFromString` | desktop/lib/radar/rng.ts:4-14 | the loop computes the specified hash |
| `Rng.RoundInjective` | desktop/lib/radar/rng.ts:7-8 | a round distinguishes any two words and any two code units |
| `Rng.FinishInjective` | desktop/lib/radar/rng.ts:10-13 | the finaliser distinguishes any two words |
| `Rng.RoundsInjective` | desktop/lib/radar/rng.ts:6-9 | the rounds over a fixed string distinguish any two words |
| `Rng.SharedEndNeverDecides` | desktop/lib/radar/rng.ts:4-14 | strings of one length with a shared end collide if and only if the words reached before it are equal |
| `Rng.OneUnitChangesSeed` | desktop/lib/radar/rng.ts:4-14 | equal-length strings that differ in exactly one code unit get different seeds |
| `Rng.Mulberry32.Next` | desktop/lib/radar/rng.ts:19-25 | a draw advances the state by the increment and lies in [0, 1) |
| `Rng.StateRepeatsExactly` | desktop/lib/radar/rng.ts:17-22 | two states of a run agree if and only if their step counts agree modulo 2^32 |
| `Rng.EveryStateIsReached` | desktop/lib/radar/rng.ts:17-22 | from any state every state is reached within 2^32 steps |
| `RngValues.XorBits` | desktop/lib/radar/rng.ts:5-13 | the exclusive or of the model is one bit by bit |
| `RngValues.OrBits` | desktop/lib/radar/rng.ts:8-8 | so is the or |
| `RngValues.ShiftDivides` | desktop/lib/radar/rng.ts:8-13 | a shift to the right divides by a power of two |
| `RngValues.RoundIs` | desktop/lib/radar/rng.ts:7-8 | one round of the hash in products and quotients |
| `RngValues.FinishIs` | desktop/lib/radar/rng.ts:10-13 | the finaliser in products and quotients |
| `RngValues.DrawIs` | desktop/lib/radar/rng.ts:22-24 | a draw in products and quotients of the advanced state |

## Left out

Conversation reducer and stream hook

- RunSlice.RunStore.AddEvent: does not model the event timeline, stream errors, connection state, browser and tool
  history, pause and cancel events, research plans, screenshots and approval notices; messages pushed under a
  `Date.now()` id without a duplicate test do not have distinct ids. For the same reason the actions setPaused,
  setCancelling and setCancelled are left out; resetRunFull is resetRun on the modelled fields.
- RunSlice.RunStore.AddMessage: a page may add any message whose id fits its flags and which is neither a pill nor
  streaming; other payloads are outside the invariant.
- RunSlice.RunStore.UpdateMessageMetadata: in the invariant, added metadata does not make a message an interim one.
- RunSlice.RunStore.AddDelta: wall-clock timestamps are left out, and a delta without a stream id takes the clock value
  as a parameter; the exactly-once theorems are about deltas with a stream id.
- RunSlice.RunStore.AddCompleted: response and content are text; values of other types are not modelled.
- RunSliceInvariant.ReachableStatesAreWellFormed: the same actions and events are not among the steps, nor are they in
  RunSliceInvariant.EveryRunIsWellFormed and RunSliceRepeat.EveryRunAbsorbsRepeats.
- RunSliceRepeat.RepeatChangesNothingExactlyWhen: is about an immediate repeat of a modelled event; repeats of deltas, at
  any distance, are the subject of the window theorems.
- A message id is a prefix kind and the rest of its text, so that ids of different kinds never coincide; two ids of one
  kind that differ only in where a dash falls do coincide, as in the source.
- Lower-casing is ASCII, registry keys that are names of object prototype members are not special, and lengths count
  characters, not UTF-16 code units.
- DeltaStream.StreamHook.Handle: the remembered event id, reconnect attempts and their delays are left out; a
  connection is whatever inputs it delivers, and text that does not parse is an input with no effect.
- EndToEnd.ShowsEveryDeltaOnceExactlyWhen: follows one stream with a stream id until something of its workflow closes its
  message. A completed message of a directly shown agent of that workflow does, so does a final answer when the stream
  is itself of the final_output agent, and so does the end of the workflow when a delta carries the interim mark. A
  second directly shown stream of the same workflow is outside (`MergedText` says what becomes of it), and so is
  another stream under the same buffer key or message id. Every delta event of a run is reduced with one clock value.

Strategy worker

- Servicer.RunCall.Begins: session, tools, context, progress and current step are not modelled; the strategy
  behind `strategy.run` is any sequence of charges, status changes of its own approval requests, yields, returns and
  exceptions. Steps of sub-tasks left behind are allowed after every answer of an entered strategy that is not a
  success, also where its tasks have all ended.
- Runtime.TaskRegistry.RequestCancel: the published event and its possible failure are left out.
- Runtime.ChargesStayWithinOneCall: budgets and charges are not negative, and the 80% threshold is the exact floor of
  four fifths of the budget; floating-point rounding is not modelled.
- Health, Ready, GetStatus, GetFailoverHint and InjectSessionContext only read or replace data without an invariant.

Playwright service

- RateLimiter.FixedWindowRateLimiter.Admit: the lock is the atomicity of one call; the clock is a parameter.
- Sections.CaptureSeparates: the boxes a page reports are arbitrary inputs; visibility tests, slide decks, cropping and
  encoding are left out, and arithmetic is exact.
- SessionManager.BrowserSessionManager.GetOrCreateSession: the browser's outcome (context refused, page refused, opened)
  and whether a close fails are parameters; stealth set-up, statistics and the timing of the clean-up task are left out.
- SessionManager.TableRefinesLru: needs a clock that moves between requests, because equal timestamps are resolved by
  insertion order, and reads it once per request; the source reads it once per session.

Helpers

- ThinkFilter.StreamComplete: usage records, the final strip of the whole-text form and errors of the provider are left
  out; a stream is the concatenation of what it yields.
- Cron.ParseCronToConfig: numbers are unbounded integers, so texts of numbers beyond 2^53 are read exactly.
- Cron.ScheduleConfig.BuildCronFromConfig: the configuration owns its list of days; sharing that array with another
  configuration is not modelled.
- CronTheorems.RebuiltFieldKeepsDays: the days a mixed field denotes are kept exactly when its two readings agree, which
  CronWeekdays.ReadersAgreeExactlyWhen decides for printed lists of days and ranges.
- The preview of next runs depends on local time and is left out.
- Rng.Mulberry32.Next: the result is the exact quotient; the wrappers that scale it are left out.
