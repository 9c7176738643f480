# Native forwarder: a Dafny model

Omnigent's native forwarders read an unreliable, replayed and interleaved stream of
agent steps, mirror it into a server that does not dedupe, and put the agent's
permission and question gates to a human on the side. This project models that
machinery and proves what it keeps over whole runs.

| module | what it holds |
|---|---|
| `Steps`, `Mapper` | agy steps, outbound events, the FIFO tool-call id allocator, the step-to-event mapper, step keys, the settled and turn-close tests |
| `Mirror` | the committed path as a specification over the history of sightings: first settled sighting per key, status edges, usage, model changes, tool-call pairing |
| `Timeline` | everything a run sends, deltas and posts in one sequence |
| `Contents` | what a run posts, said from the fields of the steps it saw and nothing else |
| `Deltas`, `Scheduling` | live text and reasoning deltas; hand-over, withdrawal and re-scan of interactions |
| `Reader` | the state classes that run all of the above step by step; their invariants are equalities with those specifications |
| `Pairing` | which ids can receive more outputs than results carry them |
| `Delivery`, `Transcript` | posting with retries against a server commit log; transcript safety end to end |
| `DeadLetter`, `Startups` | the rotating dead-letter file, its replay, and replay over many startups |
| `Bridge` | the detect / elicit / deliver loop of one interaction |
| `Framing`, `ProcessTree` | Connect stream framing and reassembly; the bounded search for agy below a tmux pane |
| `Reattach` | the permission hook's re-attaching long-poll and its budgets |
| `Rotation` | detection of a newer conversation, the detector, and the adopt / rotate loop |
| `Lifetime` | commits over many passes of that loop |
| `Reconcile` | the windowed newest-first walk over the durable transcript |

The main theorems are `Contents.RunContents`, `Transcript.TranscriptSafety` with `Transcript.TranscriptCompleteIff`, `Startups.ReplayAtMostOnceIff`,
`Mirror.StatusEdges`, `Mirror.ToolCallPairing`, `Pairing.ExactIffNotMinted`, `Mirror.PostedUsageGrows`,
`Scheduling.SingleInFlight`, `Scheduling.RescansDrain`,
`Deltas.LiveDeltas`, `Deltas.FaithfulIffGrowing`,
`Bridge.NoGateSurfacesTwice`, `Framing.StreamAgentStateUpdates` with
`Framing.StreamTable` and `Framing.EncodedPayloadsRoundTrip`, `ProcessTree.AgyPidInPaneSubtree`,
`Reattach.PostBound` with `Reattach.PostBoundAttained`,
`Reattach.RepostsOnTimeIff`, `Rotation.RedetectionIsStable`,
`Lifetime.NeverTwiceIff` and `Reconcile.ExactIff`.

Snapshots, stream frames, HTTP outcomes, clocks, verdicts and process tables are
adversarial inputs: total functions or arbitrary sequences that every theorem
quantifies over. A JSON step is a record of the fields the code reads. JSON parsing is
a parameter, elicitation ids are injective by construction, durations are reals and
activity times are integers. The server is the commit log assumed at
`omnigent/_native_post_delivery.py:141-152`: a 2xx answer commits, any other status or
a connection never established commits nothing, any other transport failure may have
committed, at the adversary's choice.

## Where the code and its comments differ

The model follows the code.

- Dedup lasts for one `supervise_reader` run; a failed rotation starts again with an empty set and can commit an item again (`Lifetime.FailedRotationCommitsTwice`). "Once" is claimed per run; over a whole life it holds exactly when at most one pass served the cascade (`Lifetime.NeverTwiceIff`).
- The first settled sighting of a key decides what is mapped and counted; a later, different sighting of the same key is ignored.
- A reasoning segment whose first `thinking` is empty loses its `started` marker (`Deltas.EmptyFirstFrameLosesMarker`); `Deltas.StartedMarker` says exactly when it is carried.
- A frame that shrinks and regrows re-emits the regrown part (`Deltas.ShrinkAndRegrowRepeats`); `Deltas.FaithfulIffGrowing` is the exact condition.
- Ambiguity stops retries only for conversation items; status, usage and model events may commit twice (`Delivery.AtMostOnceIff`), and their dead-letter records are not marked ambiguous, so replay can commit them again (`Startups.ReplayAtMostOnceIff`).
- A re-POST answered with any status below 400 counts as delivered on replay, so a redirect loses the record (`Startups.LostIff`).
- A step without an index gets the elicitation id of index 0, whatever its discriminator, so two keys can share a card and withdraw it twice (`Scheduling.CardsUniqueIff`).
- A real tool-call id that happens to lie in the minted namespace can receive one extra output, and exactly such ids can (`Pairing.ExactIffNotMinted`).
- The pinned lookup of a gate does not check its kind: right as long as kinds are fixed (`Bridge.DeliveredKind`), wrong when a gate changes kind (`Bridge.ChangedKindMisdelivers`). A gate that waits again can be surfaced twice (`Bridge.ReturningGateSurfacesTwice`); the no-repeat theorem assumes fixed kinds and no return.
- The live block is said to be retired by the committed message; a frame of that step delivered again later streams the whole text once more (`Timeline.LateFrameRepeats`), as does exactly every frame whose index has shown nothing since its last clear (`Timeline.WholeTextIff`).
- The stream client turns a JSON decode error into an RPC error or a clean stop; any other exception of the parser (bytes that are not text, an integer with too many digits, nesting too deep) escapes it (`Framing.ParseErrorEscapesIff`).
- The hook's docstring promises that the day-long ceiling bounds the total wait on every path. It bounds when re-POSTs go out, and even that only if fresh headers cannot be minted (`Reattach.RepostsOnTimeIff`); the wait is bounded by the ceiling plus the last POST (`Reattach.WaitBound`) and by nothing else (`Reattach.WaitIsUnbounded`, `Reattach.HeldPollsExceedCeiling`).
- The timestamp parser's docstring says that a bound conversation without activity blocks rotation; the detector lets any used sibling win (`Rotation.UnusedBoundRotates`), so "strictly newer" holds exactly when the bound conversation has an activity time (`Rotation.StrictlyNewerIff`).

## Model

| member | source | states |
|---|---|---|
| `Steps.ToolCallIdAllocator.ClaimCallId` | omnigent/antigravity_native_steps.py:121-130 | mints the next claim id and queues it, as the value-level `Claim` |
| `Steps.ToolCallIdAllocator.MatchOutputId` | omnigent/antigravity_native_steps.py:132-143 | pops the oldest queued claim, or mints the next orphan id |
| `Steps.DigitsInjective` | omnigent/antigravity_native_steps.py:121-143 | decimal rendering of counters is injective, so ids built from it are |
| `Steps.MintedIdsDistinct` | omnigent/antigravity_native_steps.py:121-143 | no two claims, no two orphans, and no claim and orphan share an id |
| `Steps.IdFormats` | omnigent/antigravity_native_steps.py:121-143 | the literal formats of claim and orphan ids, both numbered from zero |
| `Steps.FifoPairing` | omnigent/antigravity_native_steps.py:89-143 | over every history of calls: claims numbered in order, results take claimed ids in claim order each once, the rest are orphans in order |
| `Steps.OutputIdsDistinct` | omnigent/antigravity_native_steps.py:132-143 | no minted id is handed to two results |
| `Steps.PendingOf` | omnigent/antigravity_native_steps.py:323-386 | an interaction is reported exactly for a WAITING step with a trajectory and a known request, and carries its trajectory, index (zero if missing), kind and spec |
| `Mapper.FunctionCallEvents` | omnigent/antigravity_native_steps.py:697-773 | the loop over tool calls computes the specified events and allocator |
| `Mapper.CallItems` | omnigent/antigravity_native_steps.py:697-773 | one item per valid call, in order, with its own name, arguments and id; id-less calls take consecutive claim ids; invalid calls leave no trace |
| `Mapper.MapStepToEvents` | omnigent/antigravity_native_steps.py:876-1082 | the mutating mapper computes the specified events and allocator; `Contents.StepShown` says what those are from the fields |
| `Contents.StepShown` | omnigent/antigravity_native_steps.py:937-1082 | from the fields: a user text gives one user message unless empty; a DONE planner one assistant message, moderated text first, and then its valid calls; an ERROR planner one visible marker; a finished tool step one result, its output, an error marker or nothing; anything else no item |
| `Contents.ResponseIds` | omnigent/antigravity_native_steps.py:389-400 | items other than user messages are filed under the step's index, or zero without one |
| `Mapper.UnsettledMapsToNothing` | omnigent/antigravity_native_steps.py:937-1082 | an unsettled step emits nothing, leaves the allocator alone and closes no turn: the fact dedup rests on |
| `Mapper.MapFollowsOps` | omnigent/antigravity_native_steps.py:1046-1079 | mapping a step performs exactly its claims and at most one match on the allocator |
| `Mapper.TurnCloseMeaning` | omnigent/antigravity_native_reader.py:535-607 | the turn-close test is: a planner that is ERROR, or DONE with no tool calls |
| `Mirror.KeptKeys` | omnigent/antigravity_native_reader.py:1365-1390 | the recorded keys are those of the kept sightings, and no key is kept twice |
| `Contents.KeysIdentifySteps` | omnigent/antigravity_native_reader.py:496-518 | two sightings share a key exactly if trajectory and index agree, and the discriminator where there is no index |
| `Contents.KeptAreFirsts` | omnigent/antigravity_native_reader.py:1413-1433 | a run keeps exactly the first sighting of each step that is a user input, DONE or ERROR, whatever WAITING or other sightings came before |
| `Mirror.ReplayKeepsNothing` | omnigent/antigravity_native_reader.py:1365-1390 | re-reading recorded or unsettled steps, in any number and order, keeps nothing new |
| `Mirror.UnsettledIsInert` | omnigent/antigravity_native_reader.py:1331-1433 | an unsettled sighting posts nothing and changes none of the committed state |
| `Mirror.SightingEffect` | omnigent/antigravity_native_reader.py:1331-1410 | one more sighting on either path advances the specification by exactly one step or not at all |
| `Mirror.ClassesOfPosts` | omnigent/antigravity_native_reader.py:1669-1710 | a step's items are the mapper's output and its statuses its two edges, whatever else it posts |
| `Contents.RunShown` | omnigent/antigravity_native_reader.py:1331-1433 | for kept steps, everything posted, in order: opening edge, items, closing edge, model change, totals, each said from the fields |
| `Contents.RunContents` | omnigent/antigravity_native_reader.py:1331-1433 | everything a run posts, read without ids, is what the first final sighting of each step gives by its fields |
| `Contents.FirstFinalIsPosted` | omnigent/antigravity_native_reader.py:1345-1390 | the items of the first DONE, ERROR or user-input sighting of a step are posted, whatever other sightings of it surround it |
| `Mirror.TurnActiveMeaning` | omnigent/antigravity_native_reader.py:1694-1710 | the turn flag holds exactly when some user input has no close after it |
| `Mirror.ExpectedEdgesAlternate` | omnigent/antigravity_native_reader.py:1694-1710 | status edges strictly alternate from running, and a turn is open iff the last edge is running |
| `Mirror.StatusEdges` | omnigent/antigravity_native_reader.py:1694-1710 | the statuses posted in any run are exactly the expected edges, failed iff the closing step is an ERROR planner |
| `Mirror.UsageConservation` | omnigent/antigravity_native_reader.py:256-293 | each running total is the sum of positive per-call counts over the kept DONE planners |
| `Mirror.PostedUsageGrows` | omnigent/antigravity_native_reader.py:2038-2080 | posted totals never decrease over a run and never exceed the running totals |
| `Mirror.AllocFollowsOps` | omnigent/antigravity_native_steps.py:1046-1079 | the run's allocator is the one its kept steps' claims and matches lead to |
| `Mirror.ToolCallPairing` | omnigent/antigravity_native_steps.py:1046-1079 | an id receives one output per kept settled result carrying it, plus one if it was matched to an id-less result |
| `Mirror.RealIdPairing` | omnigent/antigravity_native_steps.py:1046-1079 | an id outside the minted namespace gets exactly one output per kept result carrying it, DONE or ERROR |
| `Pairing.OutputsAreMinted` | omnigent/antigravity_native_steps.py:132-143 | an id handed to an id-less result is a claim id or an orphan id of the conversation |
| `Pairing.MintedIdOvercounts` | omnigent/antigravity_native_steps.py:1046-1079 | for every mintable id there is a history in which it gets more outputs than results carry it |
| `Pairing.ExactIffNotMinted` | omnigent/antigravity_native_steps.py:1046-1079 | an id gets exactly one output per kept result carrying it in every history, if and only if the allocator cannot mint it |
| `Pairing.StampedMintedId` | omnigent/antigravity_native_steps.py:1046-1079 | an id-less call, its id-less result and a result stamped with the minted id: two outputs for one result |
| `Deltas.IndexesAreIndependent` | omnigent/antigravity_native_reader.py:1470-1501 | in any interleaving, an index's tracker and deltas are those of its own frames and clears alone |
| `Deltas.ClearStartsAfresh` | omnigent/antigravity_native_reader.py:1470-1501 | what follows a clear is a segment of its own |
| `Deltas.DeltasRebuildText` | omnigent/antigravity_native_reader.py:1582-1605 | the text at a re-anchor followed by all later deltas is the latest text |
| `Deltas.FaithfulIffGrowing` | omnigent/antigravity_native_reader.py:1582-1605 | deltas spell every frame's text if and only if every frame extends the one before |
| `Deltas.StartedMarker` | omnigent/antigravity_native_reader.py:1639-1666 | `started` is on the first delta of a segment whose first frame is non-empty, and nowhere else |
| `Deltas.ChannelFields` | omnigent/antigravity_native_reader.py:1504-1553 | which step fields feed which channel, and which observations clear or leave a tracker |
| `Deltas.OneDeltaPerExtension` | omnigent/antigravity_native_reader.py:1593-1605 | a frame sends one delta, the part it adds, exactly when it properly extends the text before it |
| `Deltas.LiveDeltas` | omnigent/antigravity_native_reader.py:1470-1501 | over every history and index: the deltas since the index was last cleared are those of its own texts, rebuild the latest text from any re-anchor on, and carry `started` on the first only, exactly if the first text is non-empty |
| `Deltas.EmptyFirstFrameLosesMarker` | omnigent/antigravity_native_reader.py:1646-1666 | a concrete segment whose marker is lost |
| `Deltas.ShrinkAndRegrowRepeats` | omnigent/antigravity_native_reader.py:1593-1605 | a concrete segment whose deltas repeat text |
| `Timeline.TraceViews` | omnigent/antigravity_native_reader.py:1436-1501 | the one sequence of everything a run sends has the committed posts and, per channel, the deltas as its two views |
| `Timeline.WholeTextIff` | omnigent/antigravity_native_reader.py:1582-1605 | a GENERATING frame sends its whole text if and only if its index has shown nothing since it was last cleared |
| `Timeline.LateFrameRepeats` | omnigent/antigravity_native_reader.py:1487-1501 | a GENERATING frame delivered again after its step was committed on the stream sends the whole text again, after the message |
| `Scheduling.RunValid` | omnigent/antigravity_native_reader.py:1770-1838 | every interleaving of sightings, completions, late callbacks and re-scans keeps the scheduling invariant |
| `Scheduling.SingleInFlight` | omnigent/antigravity_native_reader.py:1770-1838 | at most one bridge unfinished; each step key handed over at most once, and withdrawn at most once and only if handed over |
| `Scheduling.WithdrawnIffLeftWaiting` | omnigent/antigravity_native_reader.py:1897-1948 | a card is withdrawn if and only if its step was seen not WAITING after its hand-over |
| `Scheduling.ResolvedAreCards` | omnigent/antigravity_native_reader.py:1897-1948 | in every interleaving the withdrawals posted are the elicitation ids of the withdrawn keys, in order |
| `Scheduling.CardsWithdrawnOnceIff` | omnigent/antigravity_native_reader.py:1897-1948 | within one run, no elicitation id is withdrawn twice if and only if no two withdrawn keys share trajectory and index-or-zero |
| `Scheduling.SharedCardWithdrawnTwice` | omnigent/antigravity_native_interactions.py:170-195 | two gates told apart by key but not by elicitation id are withdrawn under the same id twice |
| `Scheduling.CardsUniqueIff` | omnigent/antigravity_native_reader.py:1770-1792 | for any set of step keys: no run over steps of these keys withdraws an elicitation id twice, if and only if no two different gate keys among them share trajectory and index-or-zero |
| `Scheduling.IdleRescan` | omnigent/antigravity_native_reader.py:1841-1894 | an idle re-scan hands over exactly one deferred gate if there is one, else changes nothing |
| `Scheduling.RoundDrainsOne` | omnigent/antigravity_native_reader.py:1807-1838 | completion, callback and successful re-scan lower the number of deferred gates by one |
| `Scheduling.RescansDrain` | omnigent/antigravity_native_reader.py:1807-1838 | on a fixed snapshot, as many successful re-scans as deferred gates hand over all of them |
| `Reader.CommittedPath.EmitStep` | omnigent/antigravity_native_reader.py:1669-1710 | opening edge, mapped items, closing edge, in that order, and the turn flag after |
| `Reader.CommittedPath.MaybeEmitModelChange` | omnigent/antigravity_native_reader.py:2083-2125 | posts a model change exactly when the requested model differs from the last posted |
| `Reader.CommittedPath.MaybeEmitSessionUsage` | omnigent/antigravity_native_reader.py:2005-2080 | adds the call's counts and posts the new totals when the call reports any |
| `Reader.CommittedPath.Sight` | omnigent/antigravity_native_reader.py:1331-1410 | after any sighting, posts, seen set, turn flag, totals and allocator equal the specification of the whole history |
| `Reader.DeltaTrackers.EmitPartialDelta` | omnigent/antigravity_native_reader.py:1556-1605 | text tracker and deltas advance as specified |
| `Reader.DeltaTrackers.EmitPartialReasoningDelta` | omnigent/antigravity_native_reader.py:1608-1666 | reasoning tracker and deltas advance as specified |
| `Reader.DeltaTrackers.Generate` | omnigent/antigravity_native_reader.py:1470-1485 | a GENERATING frame keeps both trackers equal to the specification of the history |
| `Reader.DeltaTrackers.Retire` | omnigent/antigravity_native_reader.py:1487-1501 | a committed stream step clears its index on both channels |
| `Reader.Interactions.MaybeHandleInteraction` | omnigent/antigravity_native_reader.py:1726-1838 | defers while a bridge runs, else hands the key over once |
| `Reader.Interactions.MaybeWithdrawInteraction` | omnigent/antigravity_native_reader.py:1897-1948 | withdraws a surfaced card when its step is no longer WAITING |
| `Reader.Interactions.Sight` | omnigent/antigravity_native_reader.py:1391-1410 | the slot, surfaced cards and hand-overs equal the scheduling specification of all actions |
| `Reader.Interactions.BridgeFinishes` | omnigent/antigravity_native_reader.py:1793-1794 | a bridge that completes stops being in flight and leaves its callback to run |
| `Reader.Interactions.ClearSlotCallback` | omnigent/antigravity_native_reader.py:1807-1838 | a late callback frees the slot only if it still holds that bridge |
| `Reader.Interactions.ResurfacePendingInteraction` | omnigent/antigravity_native_reader.py:1841-1894 | the re-scan of a snapshot is the specified one |
| `Reader.ReaderState.Commit` | omnigent/antigravity_native_reader.py:1331-1410 | the committed state and the scheduling advance together by one sighting |
| `Reader.ReaderState.PollStep` | omnigent/antigravity_native_reader.py:1331-1410 | a polled step keeps committed state, trackers and scheduling equal to their specifications |
| `Reader.ReaderState.StreamStep` | omnigent/antigravity_native_reader.py:1436-1501 | a streamed step does so too: deltas while generating, the committed path otherwise |
| `Reader.ReaderState.ObserveAll` | omnigent/antigravity_native_reader.py:1156-1304 | a whole run of mixed stream and poll sightings keeps all of them, and its scheduling actions are those of the observations, in order |
| `Reader.TracedReader.See` | omnigent/antigravity_native_reader.py:1436-1501 | everything posted and streamed, appended as each observation sends it, is the specified trace |
| `Reader.MirrorPosts` | omnigent/antigravity_native_reader.py:1331-1433 | a run posts exactly: settled sightings, first per key, mapped in order |
| `Delivery.ItemCommittedAtMostOnce` | omnigent/_native_post_delivery.py:253-299 | whatever the network does, one call commits a conversation item at most once |
| `Delivery.OtherEventsMayRepeat` | omnigent/_native_post_delivery.py:253-299 | with two or more attempts some network commits any other event twice |
| `Delivery.AtMostOnceIff` | omnigent/_native_post_delivery.py:253-299 | one call commits an event at most once on every network if and only if the event is an item or is never retried |
| `Delivery.Server.PostWithRetry` | omnigent/_native_post_delivery.py:213-300 | the retry loop appends to the server's log exactly the specified commits; its answer is the status of the attempt that ended the call, and none exactly when that attempt raised |
| `Delivery.CallEnds` | omnigent/_native_post_delivery.py:253-299 | every call has a last attempt: earlier ones were retryable, and it is not, or is the last allowed |
| `Delivery.LandsFrom` | omnigent/_native_post_delivery.py:253-299 | an item's attempts commit exactly when one does and all earlier ones were retryable statuses or never connected |
| `Transcript.Forward` | omnigent/antigravity_native_reader.py:629-656 | posting a list of events in order leaves the specified commit log |
| `Transcript.CommittedItemsInOrder` | omnigent/_native_post_delivery.py:253-299 | item receipts have strictly increasing post numbers and carry that post's item: no post commits its item twice |
| `Transcript.PostedItemsAreMapped` | omnigent/antigravity_native_reader.py:1669-1710 | the items posted in a run are the mapper's outputs on the kept steps |
| `Transcript.MappedOrigins` | omnigent/antigravity_native_reader.py:496-518 | each mapped item has its own origin: a step key and a place in that step's output |
| `Transcript.ReceiptsHaveOrigins` | omnigent/antigravity_native_reader.py:1365-1390 | each item receipt is traced by its post number to one mapped output with the same contents; receipts take outputs in order and no two share a step key and place |
| `Transcript.TranscriptSafety` | omnigent/antigravity_native_reader.py:1365-1390 | for every run and every failure schedule, committed items are an in-order selection from the mapper's output on first settled sightings, and no two committed items share a step key and place |
| `Transcript.LandedItems` | omnigent/_native_post_delivery.py:253-299 | the server holds at most one receipt per item post, and one for each exactly when every item post lands |
| `Transcript.LandsIff` | omnigent/_native_post_delivery.py:253-299 | with the reader's constants: an item lands exactly when one of three attempts commits and each earlier one was 408, 409, 425, 429, 500, 502, 503, 504 or never connected |
| `Transcript.TranscriptCompleteIff` | omnigent/antigravity_native_reader.py:1365-1390 | the committed origins are the mapper's whole output on first settled sightings if and only if every item post lands |
| `Transcript.MirrorRun` | omnigent/antigravity_native_reader.py:1331-1433 | the running classes end to end leave such a commit log, complete exactly when every item post lands |
| `DeadLetter.DeadLetterFile.AppendDeadLetter` | omnigent/_native_post_delivery.py:89-116 | one append rotates at the cap and keeps backup and current equal to the specification of all appends |
| `DeadLetter.AppendKeepsSuffix` | omnigent/_native_post_delivery.py:89-116 | backup then current is what remains after dropping some oldest lines |
| `DeadLetter.FileBounds` | omnigent/_native_post_delivery.py:89-116 | each file stays below the cap plus one line |
| `DeadLetter.RotationLaws` | omnigent/_native_post_delivery.py:89-116 | a suffix of the history, at most 2*(cap-1+longest) bytes, and at least the cap or everything |
| `DeadLetter.DrainFile` | omnigent/_native_post_delivery.py:500-556 | the loop over one file re-POSTs its replayable records in order until the budget ends, each once, and keeps, drops and reclassifies entries as their answers say |
| `DeadLetter.DeadLetterDir.ReplayDeadLetters` | omnigent/_native_post_delivery.py:424-556 | the records re-POSTed are a prefix of the replayable ones, backup before current, cut only by the budget; both files are what the answers leave; the return value counts the delivered |
| `DeadLetter.RecordBudget` | omnigent/_native_post_delivery.py:477-542 | no replay posts more than `max_records` |
| `DeadLetter.CandidatesMeaning` | omnigent/_native_post_delivery.py:354-375 | the replayable records are those with session, type and payload, classified as not ambiguous, with no status or a retryable one |
| `DeadLetter.PostedRecords` | omnigent/_native_post_delivery.py:500-542 | only such records are re-POSTed, and all of them unless the budget ends the run |
| `DeadLetter.UnclassifiedIsNeverPosted` | omnigent/_native_post_delivery.py:364-365 | a record without the classification field is never re-POSTed |
| `DeadLetter.ReplayConserves` | omnigent/_native_post_delivery.py:500-556 | nothing but delivered entries is lost, order is kept, survivors change only in the two classification fields |
| `DeadLetter.ReplayedCount` | omnigent/_native_post_delivery.py:500-556 | the two files together lose exactly as many entries as the replay returns |
| `Startups.FateReplayable` | omnigent/_native_post_delivery.py:328-375 | a record stays replayable exactly after an attempt proven undelivered, and such an attempt committed nothing |
| `Startups.LostIff` | omnigent/codex_native_forwarder.py:6179-6207 | a re-POSTed record is removed without a commit if and only if the answer is a status below 400 outside 200..299 |
| `Startups.RedirectLosesRecord` | omnigent/codex_native_forwarder.py:6179-6207 | a 302 answer removes a record the server never committed |
| `Startups.ReplayLeavesSurvivors` | omnigent/codex_native_forwarder.py:6179-6210 | with reposts classified from HTTP outcomes, a file afterwards is the survivors of those outcomes |
| `Startups.TriesMade` | omnigent/_native_post_delivery.py:500-542 | re-POSTing a prefix of the replayable records makes exactly the tries of the many-startups model |
| `Startups.ReplayIsStartup` | omnigent/_native_post_delivery.py:424-556 | a finished replay is one startup: the two files are its survivors and the re-POSTs made are its tries |
| `Startups.RunStartup` | omnigent/codex_native_forwarder.py:6179-6215 | the forwarder's replay against a network: every re-POST it makes is in `tries` with its outcome, and the files are the survivors |
| `Startups.ReplayInLife` | omnigent/_native_post_delivery.py:424-556 | running the replay method advances a life by exactly its files and its recorded re-POSTs |
| `Startups.StartupPerEvent` | omnigent/_native_post_delivery.py:500-542 | one startup tries an event at most once, only if its record is replayable, and leaves at most one record of it |
| `Startups.ReplayAtMostOnce` | omnigent/_native_post_delivery.py:328-375 | over any number of startups, appends and rotations, an item whose record does not claim "undelivered" when the live post committed it is committed at most once, and no re-POST follows an ambiguous, rejected or successful one |
| `Startups.OtherRecordsMayRepeat` | omnigent/codex_native_forwarder.py:6179-6207 | every replayable record of another event has an honest life that commits it twice: a lost answer that reached the server, then a successful re-POST |
| `Startups.ReplayAtMostOnceIff` | omnigent/_native_post_delivery.py:328-375 | dead-lettered events of a class are committed at most once in every honest life if and only if the class is conversation items |
| `Bridge.FreshestWaiting` | omnigent/antigravity_native_interactions.py:234-272 | the highest-index WAITING interaction of the kind past the bound, or proof that there is none |
| `Bridge.WaitingStepAt` | omnigent/antigravity_native_interactions.py:275-301 | the WAITING interaction at exactly that gate, or proof that it does not wait |
| `Bridge.GatesIdentify` | omnigent/antigravity_native_interactions.py:290-301 | a gate is a trajectory and an index |
| `Bridge.ChooseTarget` | omnigent/antigravity_native_interactions.py:389-402 | the verdict goes to its own gate while that waits, else to the freshest of its kind; none iff neither exists |
| `Bridge.RetryAbove` | omnigent/antigravity_native_interactions.py:448-472 | the retry is the highest waiting gate of the kind strictly above the one that timed out |
| `Bridge.DeliverVerdict` | omnigent/antigravity_native_interactions.py:389-472 | one delivery attempt: its target, its result, and the retry gate only after a timeout |
| `Bridge.BridgeInteraction` | omnigent/antigravity_native_interactions.py:360-478 | surfacings and deliveries alternate, no delivery without a verdict, targets are pinned, at most `max_retries` deliveries, only a timed-out one is followed by another, and the run ends only for a stated reason, an exception of a read or a delivery included |
| `Bridge.NoGateSurfacesTwice` | omnigent/antigravity_native_interactions.py:360-478 | if a gate that stopped waiting never waits again and kinds are fixed, no gate is surfaced twice in a run |
| `Bridge.SuccessIsLast` | omnigent/antigravity_native_interactions.py:404-447 | at most one delivery succeeds and it ends the run |
| `Bridge.ReturningGateSurfacesTwice` | omnigent/antigravity_native_interactions.py:448-472 | a run whose gate vanishes for one read, while a lower one waits, and then returns, surfaces it twice |
| `Bridge.DeliveredKind` | omnigent/antigravity_native_interactions.py:275-301 | with fixed kinds, whatever waits at a delivery's target is of the kind the verdict was asked for |
| `Bridge.ChangedKindMisdelivers` | omnigent/antigravity_native_interactions.py:275-301 | a gate that changes kind gets the verdict asked for the other kind |
| `Framing.EncodeConnectEnvelope` | omnigent/antigravity_native_rpc.py:812-826 | encodes exactly the payloads shorter than 2^32 bytes, as one data frame the decoder reads back whole |
| `Framing.ByteWeights` | omnigent/antigravity_native_rpc.py:826-826 | lengths are written most significant byte first |
| `Framing.JoinOfSplit` | omnigent/antigravity_native_rpc.py:937-947 | every byte string is its frames followed by an incomplete one |
| `Framing.SplitOfJoin` | omnigent/antigravity_native_rpc.py:937-947 | encoded frames come back exactly, whatever bytes follow |
| `Framing.TakeFrame` | omnigent/antigravity_native_rpc.py:940-947 | cuts off the complete frame whose encoding starts the buffer, or waits |
| `Framing.HandleFrame` | omnigent/antigravity_native_rpc.py:948-977 | yields iff both flag bits are clear and the payload is an object; stops cleanly iff an error-free trailer |
| `Framing.DrainBuffer` | omnigent/antigravity_native_rpc.py:940-977 | the inner loop takes whole frames off the buffer until one ends the stream or bytes are missing, preserving the meaning of the whole |
| `Framing.StreamAgentStateUpdates` | omnigent/antigravity_native_rpc.py:932-977 | updates and final status are the meaning of the concatenated bytes, however they are chunked |
| `Framing.EncodedPayloadsRoundTrip` | omnigent/antigravity_native_rpc.py:825-826 | a stream of encoded object payloads yields exactly those updates in order, then what the rest means |
| `Framing.NothingAfterTrailer` | omnigent/antigravity_native_rpc.py:953-964 | nothing is yielded after a trailer and what follows it is irrelevant |
| `Framing.MoreBytesOnlyAdd` | omnigent/antigravity_native_rpc.py:937-977 | more bytes never retract an update and never change a stream a frame has ended |
| `Framing.FirstStopDecides` | omnigent/antigravity_native_rpc.py:937-977 | the final status is that of the first frame that ends the stream, else the transport's |
| `Framing.ReactionMeaning` | omnigent/antigravity_native_rpc.py:948-977 | what one frame does, by its flag modulo four and its document |
| `Framing.StreamTable` | omnigent/antigravity_native_rpc.py:937-977 | the updates are the unwrapped objects before the first frame that ends the stream, and the status is that frame's by a table on flag and document, or the transport's |
| `Framing.TrailerErrorIff` | omnigent/antigravity_native_rpc.py:953-964 | the stream ends with an RPC error `e` if and only if the frame that ends it is an uncompressed trailer whose object carries `e` |
| `Framing.MalformedDataIff` | omnigent/antigravity_native_rpc.py:965-970 | the stream ends as malformed data if and only if the frame that ends it is an uncompressed data frame whose payload does not parse |
| `Framing.CompressedFrameIff` | omnigent/antigravity_native_rpc.py:948-952 | the stream ends as compressed if and only if the frame that ends it has an odd flag |
| `Framing.TransportEndIff` | omnigent/antigravity_native_rpc.py:937-977 | the stream reads as closed or severed if and only if no frame ended it |
| `Framing.ParseErrorEscapesIff` | omnigent/antigravity_native_rpc.py:948-977 | an exception of the parser other than a JSON decode error escapes if and only if the frame that ends the stream is uncompressed and its payload (non-empty for a trailer) makes the parser raise it |
| `Framing.ParseErrorStream` | omnigent/antigravity_native_rpc.py:848-854 | one data frame or trailer with such a payload ends the stream with the escaped exception |
| `ProcessTree.ReachesIffWalk` | omnigent/antigravity_native_rpc.py:1207-1223 | distance in the model is the existence of a path in the process table |
| `ProcessTree.ScanLevel` | omnigent/antigravity_native_rpc.py:1214-1222 | one level visits every child of the frontier unless an agy pid turns up |
| `ProcessTree.AgyPidInPaneSubtree` | omnigent/antigravity_native_rpc.py:1202-1224 | ends on every table, returns a nearest agy pid, and none exactly when none lies within 32 levels |
| `Reattach.PostOnce` | omnigent/claude_native_hook.py:706-760 | one POST, by its fields: answered on 2xx, bounced on 401, 403 or a login redirect while re-minting is possible and unused, refused on any other status below 500, hard on 5xx, no connection or an early drop, held on a drop after the floor |
| `Reattach.PostHookWithReattach` | omnigent/claude_native_hook.py:696-784 | terminates for every world and configuration, and names the budget that ran out |
| `Reattach.ReauthenticatesAtMostOnce` | omnigent/claude_native_hook.py:709-727 | fresh headers are used at most once |
| `Reattach.HardRunMeaning` | omnigent/claude_native_hook.py:761-766 | the counter reaches n exactly when the last n failures were all hard |
| `Reattach.CapNeedsHardFailures` | omnigent/claude_native_hook.py:767-774 | the cap ends a run only when its last N failures were all hard |
| `Reattach.SumBackoffClosed` | omnigent/claude_native_hook.py:775-777 | n >= 5 backoffs sum to 31 + 30(n-5) seconds |
| `Reattach.PostBound` | omnigent/claude_native_hook.py:696-784 | at most 2885 POSTs, for every cap and floor an operator may set |
| `Reattach.PostBoundAttained` | omnigent/claude_native_hook.py:696-784 | 2885 POSTs do happen |
| `Reattach.DefaultPostBound` | omnigent/claude_native_hook.py:127-147 | with the default cap 8 and floor 10 s, at most 2770 POSTs |
| `Reattach.DefaultPostBoundAttained` | omnigent/claude_native_hook.py:127-147 | 2770 POSTs do happen with the default cap and floor |
| `Reattach.BounceIgnoresDeadline` | omnigent/claude_native_hook.py:709-727 | after an auth bounce the retry goes out however late it is |
| `Reattach.RepostsOnTimeIff` | omnigent/claude_native_hook.py:704-784 | on every world each re-POST follows a clock reading below the ceiling, if and only if fresh headers cannot be minted |
| `Reattach.WaitBound` | omnigent/claude_native_hook.py:704-784 | the total wait is below the ceiling plus the last POST, a bounced POST right before it, and one last sleep |
| `Reattach.WaitBoundHeld` | omnigent/claude_native_hook.py:696-784 | if no POST takes longer than h, the wait is below the ceiling plus 2h (plus h without a bounce) and one last sleep |
| `Reattach.WaitIsUnbounded` | omnigent/claude_native_hook.py:704-729 | the ceiling does not bound the wait itself: a first POST may be answered at any time |
| `Reattach.HeldPollsExceedCeiling` | omnigent/claude_native_hook.py:704-784 | with defaults and no re-minting, a poll dropped after 86390 s and the next answered after 86000 s is a legal run |
| `Rotation.DetectRotatedCascade` | omnigent/antigravity_native_reader.py:447-480 | returns the first root sibling of maximal activity when the bound cascade is listed and older or unused, and nothing exactly when no sibling is newer |
| `Rotation.DetectionUnique` | omnigent/antigravity_native_reader.py:457-480 | the specification of detection admits one answer |
| `Rotation.DetectsMeaning` | omnigent/antigravity_native_reader.py:405-480 | detection by the fields: the last used root other than the bound one, user input time before modification time, first of equals, and strictly later than the bound one if that was used |
| `Rotation.RedetectionIsStable` | omnigent/antigravity_native_reader.py:447-480 | bound to the detected cascade, the same summaries call for no rotation |
| `Rotation.UnusedBoundRotates` | omnigent/antigravity_native_reader.py:466-480 | a listed bound cascade without activity does not block rotation: any used sibling is detected, however old |
| `Rotation.UnusedBoundBlocksIff` | omnigent/antigravity_native_reader.py:466-480 | beside an unused bound cascade nothing is detected if and only if no root sibling was ever used |
| `Rotation.StrictlyNewerIff` | omnigent/antigravity_native_reader.py:466-480 | a detected cascade is strictly newer than the bound one if and only if the bound one has an activity time |
| `Rotation.WatchForRotation` | omnigent/antigravity_native_reader.py:789-829 | signals the first poll that calls for a cascade not skipped, or nothing if none does |
| `Rotation.OnePass` | omnigent/antigravity_native_reader.py:2709-2757 | adopts in place iff nothing was committed, else rotates or records the failure; writes the bridge state accordingly |
| `Rotation.RunReaderWithBridge` | omnigent/antigravity_native_reader.py:2705-2757 | any beginning of the loop's life is a run of justified passes, ending only when a pass signals nothing |
| `Rotation.BridgeStateFollows` | omnigent/antigravity_native_reader.py:2705-2757 | at every loop head the bridge state's session is the loop's current session |
| `Rotation.FailedRotationIsFinal` | omnigent/antigravity_native_reader.py:2752-2756 | a cascade whose rotation failed is never attempted again |
| `Rotation.NewTarget` | omnigent/antigravity_native_reader.py:819-829 | what is adopted or rotated to is neither bound nor failed |
| `Rotation.FailedNewestKeepsBinding` | omnigent/antigravity_native_reader.py:819-821 | while a failed cascade stays newest, nothing is signalled and the binding stays |
| `Lifetime.CommitsBoundedByServing` | omnigent/antigravity_native_reader.py:2705-2757 | over a whole life, an item of a step is committed at most once per pass that serves its cascade, that is, discovers it and does not end in adoption |
| `Lifetime.ServingAttained` | omnigent/antigravity_native_reader.py:2705-2757 | over every justified log there is a life whose item is committed once per serving pass |
| `Lifetime.NeverTwiceIff` | omnigent/antigravity_native_reader.py:2705-2757 | whatever its readers see, a life never commits an item of the cascade twice if and only if at most one pass served it |
| `Lifetime.BindingStaysIff` | omnigent/antigravity_native_reader.py:2741-2757 | the next pass is bound to the same cascade if and only if the rotation failed |
| `Lifetime.FailedRotationCommitsTwice` | omnigent/antigravity_native_reader.py:2752-2756 | a pass whose rotation fails and the next pass both serve the cascade, and an item is committed twice |
| `Lifetime.FailedRotationHappens` | omnigent/antigravity_native_reader.py:2747-2756 | from every state such a failed rotation can occur |
| `Reconcile.ResponseOutputText` | omnigent/chat.py:2532-2548 | the nested loops join the text parts of the messages in order, and none gives no text |
| `Reconcile.PersistedTurnText` | omnigent/chat.py:2594-2619 | the newest-first walk returns the text of the part of the current turn inside the window; none when unreachable |
| `Reconcile.ReverseAnswers` | omnigent/chat.py:2608-2618 | collecting newest first and reversing is collecting in order |
| `Reconcile.TextsMeaning` | omnigent/chat.py:2609-2616 | the text is that of text parts of completed assistant messages, in order, and of nothing else |
| `Reconcile.FittingTurnText` | omnigent/chat.py:2594-2619 | a fitting turn gives the concatenation of those texts, and no text if there are none |
| `Reconcile.FittingTurnIsExact` | omnigent/chat.py:2594-2619 | a turn that fits in the window is returned whole |
| `Reconcile.HistoryIsIgnored` | omnigent/chat.py:2604-2616 | nothing before the last user message influences the result |
| `Reconcile.ExactIff` | omnigent/chat.py:2594-2619 | a turn of any length is returned whole if and only if the cut-off part holds no text, or only empty text beside some in the window |

## Left out

- HTTP, TLS, event-loop scheduling, threads, subprocesses, tmux, `lsof` and `/proc`: replaced by outcome sequences, snapshots, clocks and a child function that does not change during one search.
- JSON, UTF-8, SHA-256 and timestamp parsing: parse functions, injective ids and parsed integers instead.
- Transcript.MirrorRun: the posts of one run are forwarded after it, in order, because the code awaits each post before the next step.
- Startups.ReplayAtMostOnce: assumes that each startup's replay finishes and that the live post classified the record honestly.
- DeadLetter.DeadLetterDir.ReplayDeadLetters: files are sequences of entries; the text layer, where a line that is a bare JSON string is rewritten without its quotes, and the temporary-file swap are not modelled.
- DeadLetter.DeadLetterFile.AppendDeadLetter: appends that fail with an operating-system error are not modelled.
- Bridge.BridgeInteraction: payload building, elicitation parameters and the key sequence typed into the terminal are not modelled; the verdict is carried unchanged.
- Rotation.OnePass: session creation, binding, terminal transfer and the recorded external session id are one step that succeeds or fails.
- Reattach.WaitIsUnbounded: the HTTP client's own timeouts, which cut a silent POST, are not modelled; `Reattach.WaitBoundHeld` takes any such limit as a parameter.
- Reattach.PostOnce: exceptions outside the HTTP client's error family, and errors raised by the re-mint call, are not modelled.
- `_ReaderState` is split into three component classes that share one history; `Timeline` orders posts and deltas, and withdrawals are a sequence of their own.
- Stream reconnection backoff, discovery of the RPC port, elicitation posting retries and the model catalogue fetch.
- Pane scraping, launch plumbing, audit, environment compatibility, and the rest of `chat.py`: screen heuristics, argument assembly and wiring with no state of their own.
