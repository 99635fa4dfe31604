# Ciao agent sessions in Dafny

This project models how the Ciao host keeps a live agent session and hands it to a phone, and
proves what that machinery promises over every run and every input.

- **Snapshots and deltas.** A session is a snapshot; changes travel as revision-fenced deltas that
  every copy folds in the same way. What an applied delta leaves in each field and each list is read
  off its changes (`Protocol`, `Reducer`, `Replica`, `WindowRefinement`, `PendingInteractions`,
  `CommandReceipts`, `DeltaFields`, `Validity`, `Refusals`).
- **Fitting the wire.** Entries, snapshots, session lists and long bodies are cut to fit 64 KiB
  frames, each cut named, and long bodies are fetched in chunks and put back together (`Text`,
  `Encoding`, `Fitting`, `SnapshotFitting`, `SessionList`, `BodyChunks`, `BodyTransfers`).
- **Framing and line reading.** Length-prefixed frames and bounded transcript lines, read through
  buffers that split anywhere (`FrameReader`, `LineReader`).
- **Transcript history.** Claude transcripts are mapped to timeline entries in one streaming pass
  that keeps the newest part within a bound, and each entry's contents are read off the records that
  name its source (`HistoryEntries`, `HistoryMapper`, `HistoryRefinement`, `HistoryRows`, `Calendar`).
- **Adapters.** One dispatcher orders adapter events against snapshot bursts; the Pi extension on
  the other side bounds its snapshots and executes commands at most once while it remembers them
  (`Dispatcher`, `PiSnapshot`, `PiReceipts`, `PiApplications`, `PiBridge`, `PiOnce`, `PiEvidence`,
  `PiAnswers`).

`Numbers`, `Sequences`, `Best`, `Suffixes` and `Indexing` hold what several of these need: searching and
stable sorting, the last element to name something, the best of what was offered, the longest suffix within
a bound, and an index into a list whose front is dropped.

Code that updates an object in place is a class here (`AgentSession`, `EntryBodyAssembly`,
`AgentFrameReader`, `BufferedSource`, `Mapper`, `AdapterEventContext`, `CiaoAgentBridge`). Each
method is proved equal to a specification function, and the theorems are about those functions.

## Where the code and its description differ

- The comment at `crates/ciao-host/src/claude_history.rs:405-407` says that bounding while
  streaming keeps the same suffix as bounding at the end, because an entry only ever grows. A later
  record with the same source may be shorter. `ShrinkingLosesHistory` names such a transcript, and
  `StreamingEqualsBatchExactly` gives the condition under which the claim holds.
- The rule at `crates/ciao-host/src/agent_protocol.rs:1716` says that no delta may fabricate a terminal
  route onto a managed session. The check comes after the route and the revision are written, so a
  refused route stays (`ManagedSessionGetsARoute`). It also refuses deltas that fabricate nothing
  (`ReleasedSessionRefusesEverything`). `RefusedExactly` gives the condition for a refusal and for a
  route being left, both ways and for every delta.
- Applying a valid delta to a valid snapshot can leave an invalid one, for stored and adopted sessions
  only. `AdoptedSessionLosesItsRoute` and `StoredSessionTakesAnInteraction` give such deltas for every
  such session, and `AppliedIsValidExactly` the condition, both ways.
- The evidence check in `upsert_receipt` (`crates/ciao-host/src/agent_protocol.rs:1669-1701`)
  cannot fail for a delta that passed validation: `ReceiptKeepsValid` needs no hypothesis about it.
- A Pi command runs a second time once 128 newer receipts have pushed its own out
  (`ForgottenCommandRunsAgain`). `PiIsCalledExactlyWhen` states exactly when Pi is called.

## Model

| member | source | states |
|---|---|---|
| Text.FitsIffShorter | crates/ciao-host/src/agent_protocol.rs:2484-2520 | A prefix fits a byte or JSON budget exactly when it is no longer than the longest one that does |
| Text.JsonLenBounds | crates/ciao-host/src/agent_protocol.rs:2484-2499 | Escaping (section 7 of RFC 8259) never shrinks UTF-8 (section 3 of RFC 3629) and grows it at most sixfold, the factor the fast path relies on |
| Text.FloorCharBoundary | crates/ciao-host/src/agent_protocol.rs:2512-2520 | Stepping a byte limit down to a character boundary yields the longest whole-character prefix within it |
| Text.JsonPrefixWithin | crates/ciao-host/src/agent_protocol.rs:2501-2510 | The scan stops at the end of the longest prefix whose JSON encoding fits the budget |
| Sequences.StableSortSorts | crates/ciao-host/src/agent_protocol.rs:1614-1646 | The sort the window uses orders by key and permutes what it was given |
| Sequences.StableSortIsStable | crates/ciao-host/src/agent_protocol.rs:2050-2060 | Elements with equal keys keep their order |
| Sequences.LastByPosition | crates/ciao-host/src/agent_protocol.rs:1560-1603 | The value read as the last one named is that of the element that names one and is followed by none that does |
| Best.FirstBestIs | crates/ciao-host/src/agent_protocol.rs:1648-1667 | Nothing offered outranks the first best, and nothing offered before it ranks as high |
| Best.LastBestIs | crates/ciao-host/src/agent_protocol.rs:1669-1701 | Nothing offered outranks the last best, and nothing offered after it ranks as high |
| Reducer.AgentSession.constructor | crates/ciao-host/src/agent_protocol.rs:1294-1341 | The session object holds exactly the given snapshot |
| Reducer.AgentSession.UpsertEntry | crates/ciao-host/src/agent_protocol.rs:1614-1646 | The in-place upsert leaves the window that the specification of one upsert names, and touches nothing else |
| Reducer.AgentSession.PutInteraction | crates/ciao-host/src/agent_protocol.rs:1648-1667 | In-place insertion or replacement of an interaction, or refusal at the bound with nothing changed |
| Reducer.AgentSession.DropInteraction | crates/ciao-host/src/agent_protocol.rs:1538-1612 | Removal keeps every other interaction, in order |
| Reducer.AgentSession.PutReceipt | crates/ciao-host/src/agent_protocol.rs:1669-1701 | In-place receipt update: foreign ones ignored, older ones ignored, the oldest dropped at the bound |
| Reducer.AgentSession.ApplyRoutes | crates/ciao-host/src/agent_protocol.rs:1538-1612 | The first pass applies every route and capability change, in order |
| Reducer.AgentSession.ApplyContents | crates/ciao-host/src/agent_protocol.rs:1538-1612 | The second pass applies content changes in order and stops at the first failure, keeping what it wrote |
| Reducer.AgentSession.EnforceInvariants | crates/ciao-host/src/agent_protocol.rs:1703-1721 | Enforcement after a delta, including the refusal of a fabricated route |
| Reducer.AgentSession.ApplyDelta | crates/ciao-host/src/agent_protocol.rs:1538-1612 | The in-place reducer is the specification of one delta: same result, same state, in every branch |
| Replica.OutcomeByPosition | crates/ciao-host/src/agent_protocol.rs:1549-1558 | After k deltas of a log, the next is applied, the last is a duplicate, earlier ones are stale, later ones ask for a resync |
| Replica.ReplicaConverges | crates/ciao-host/src/agent_protocol.rs:1538-1612 | Under any loss, repetition, reordering and pollution a replica is the fold of exactly the longest log prefix that arrived in order |
| Replica.RedeliveryReproducesTheHost | crates/ciao-host/src/agent_protocol.rs:1538-1612 | Any delivery that contains the log as a subsequence reproduces the host's snapshot |
| WindowRefinement.WindowRefinesTimeline | crates/ciao-host/src/agent_protocol.rs:1614-1646 | After any run of upserts the window is the newest 64 of the unbounded timeline, and `has_older` and `truncated` each say whether they said so before or the timeline outgrew the window |
| WindowRefinement.TimelineHoldsTheBest | crates/ciao-host/src/agent_protocol.rs:1614-1646 | The unbounded timeline holds exactly the entries held or upserted, each at the first of the highest revisions offered for it |
| WindowRefinement.NewestIsUnique | crates/ciao-host/src/agent_protocol.rs:1614-1646 | A timeline has only one newest part, so the refinement fixes the window's contents |
| WindowRefinement.FloorOnlyRises | crates/ciao-host/src/agent_protocol.rs:1614-1646 | A full window stays full and its oldest sequence never falls |
| WindowRefinement.EvictedNeverReturns | crates/ciao-host/src/agent_protocol.rs:1614-1646 | An entry the window let go of never comes back, whatever revisions of it arrive |
| WindowRefinement.AppliedDeltaRefinesTimeline | crates/ciao-host/src/agent_protocol.rs:1538-1646 | The same refinement for a whole applied delta, with the window's first and last sequences marked and its boundary kept |
| Validity.ReceiptKeepsValid | crates/ciao-host/src/agent_protocol.rs:1669-1701 | A valid receipt is never refused and leaves the receipts valid |
| PendingInteractions.PendingIsWhatLingers | crates/ciao-host/src/agent_protocol.rs:1538-1612 | After a content pass an interaction is pending exactly when it was held and never removed, or was raised and not removed since |
| PendingInteractions.PendingInOrder | crates/ciao-host/src/agent_protocol.rs:1648-1667 | What stays pending is what was there less the removed, in its order; what comes after it is in the order it was raised |
| PendingInteractions.HeldIsTheBestOffered | crates/ciao-host/src/agent_protocol.rs:1648-1667 | After a content pass the interaction held under an identifier is the first of the highest revisions among the one held, if never removed, and those raised since the last removal |
| PendingInteractions.OffersByPosition | crates/ciao-host/src/agent_protocol.rs:1648-1667 | What counts as offered, by position: what is raised after the last removal, or with no removal the one held and everything raised |
| CommandReceipts.HeldIsTheNewest | crates/ciao-host/src/agent_protocol.rs:1669-1701 | After a content pass the commands with a receipt are the newest 128 by insertion, in that order |
| CommandReceipts.HeldIsTheLatest | crates/ciao-host/src/agent_protocol.rs:1669-1701 | The receipt held for a command is the last of the most recently updated among the one held and those of this session put since it was inserted |
| CommandReceipts.OffersByPosition | crates/ciao-host/src/agent_protocol.rs:1669-1701 | What counts as put since insertion, by position: while a command stays among the newest 128, every receipt of this session put for it, in order |
| CommandReceipts.NothingOfferedWhenForgotten | crates/ciao-host/src/agent_protocol.rs:1669-1701 | A command past the newest 128 has nothing offered, so a receipt put later for it starts over |
| DeltaFields.RoutedFields | crates/ciao-host/src/agent_protocol.rs:1560-1572 | The first pass leaves the last route and the last capabilities named, and changes nothing else |
| DeltaFields.FilledFields | crates/ciao-host/src/agent_protocol.rs:1574-1607 | The second pass leaves observation, turn, permission mode, model, effort and catalogue as the last change naming each says, else as held, and nothing but the lists differs otherwise |
| DeltaFields.BlocksExactly | crates/ciao-host/src/agent_protocol.rs:1703-1721 | An unresolved blocking interaction is left exactly when the foremost interaction offered under some identifier is one |
| Validity.AppliedFields | crates/ciao-host/src/agent_protocol.rs:1538-1721 | Every field of an applied delta's result but its three lists, read off the changes: the last value named or the one held, the turn by what still blocks, the continuity by the last route |
| Validity.AppliedInteractions | crates/ciao-host/src/agent_protocol.rs:1538-1667 | The interactions an applied delta leaves: whose, in which order, and the foremost offered for each |
| Validity.AppliedReceipts | crates/ciao-host/src/agent_protocol.rs:1538-1701 | The receipts an applied delta leaves: for the newest 128 commands, and the latest put for each |
| Validity.WindowStaysValid | crates/ciao-host/src/agent_protocol.rs:1196-1229 | An applied delta keeps the window ordered, bounded, and marked with its own first and last sequences |
| Validity.AppliedIsValidExactly | crates/ciao-host/src/agent_protocol.rs:1342-1415 | After an applied delta the snapshot is valid if and only if the delta keeps an adopted session resumable and a stored one quiet |
| Validity.EveryRunStaysValid | crates/ciao-host/src/agent_protocol.rs:1342-1415 | Over every clean log, every state along the way is valid if and only if every delta is admissible in the state it meets, and the window is the newest part of everything told either way |
| Validity.UnrestrictedRun | crates/ciao-host/src/agent_protocol.rs:1342-1415 | A session that is neither stored nor adopted admits every delta of every clean log |
| PendingInteractions.PendingByChanges | crates/ciao-host/src/agent_protocol.rs:1648-1667 | How often an identifier is pending after some changes, read off the changes alone: held and never removed, or raised and not removed since |
| PendingInteractions.FailsExactly | crates/ciao-host/src/agent_protocol.rs:1538-1612 | The content pass fails if and only if some change raises an interaction that is not pending while sixteen are |
| Refusals.RefusedExactly | crates/ciao-host/src/agent_protocol.rs:1538-1612 | The delta a snapshot waits for is applied if and only if no change is one interaction too many and no route is left on a managed session; its last route is written either way, its revision unless the content pass failed |
| Refusals.RefusedRouteStaysBehind | crates/ciao-host/src/agent_protocol.rs:1703-1721 | Every delta refused for its route leaves route and revision written, and resending it is answered as a duplicate that changes nothing |
| Refusals.ManagedSessionGetsARoute | crates/ciao-host/src/agent_protocol.rs:1703-1721 | Any valid managed session that is not stored has no route, refuses a delta naming any route, and is left with that route |
| Refusals.FailedContentStaysBehind | crates/ciao-host/src/agent_protocol.rs:1538-1612 | A delta that fails part-way leaves exactly what came before its first failing change, keeps the revision, and fails again when resent |
| Refusals.ReleasedSessionRefusesEverything | crates/ciao-host/src/agent_protocol.rs:1703-1721 | A released session that can still be resumed refuses every delta that names no route, though none of them fabricates one |
| Refusals.AdoptedSessionLosesItsRoute | crates/ciao-host/src/agent_protocol.rs:1342-1415 | Taking the route from any valid adopted session is applied and leaves it invalid |
| Refusals.StoredSessionTakesAnInteraction | crates/ciao-host/src/agent_protocol.rs:1342-1415 | A delta that gives up the route and raises any interaction is applied to any valid stored session and leaves it invalid |
| Encoding.AloneBound | crates/ciao-host/src/agent_protocol.rs:2528-2557 | An entry's frame is at most six times its decoded bytes plus four KiB |
| Fitting.CutToHead | crates/ciao-host/src/agent_protocol.rs:2512-2526 | Cutting in place keeps the longest whole-character head and names the whole size |
| Fitting.FitEntryToFrame | crates/ciao-host/src/agent_protocol.rs:2411-2482 | The fitting loop computes the specified fit for any frame measure |
| Fitting.RefitShortens | crates/ciao-host/src/agent_protocol.rs:2411-2482 | Fitting ends with a frame that fits or nothing left to give up, and only ever keeps a prefix or drops previews |
| Fitting.ToolGivesUpInOrder | crates/ciao-host/src/agent_protocol.rs:2465-2478 | A tool gives up its result, then its input too, and neither unless the frame is too long with it, for any measure |
| Fitting.FitIsValid | crates/ciao-host/src/agent_protocol.rs:933-956 | Fitting any retained entry gives a valid wire entry that still names the size of its whole body |
| Fitting.FitIsIdempotent | crates/ciao-host/src/agent_protocol.rs:2411-2482 | Fitting a fitted entry changes nothing |
| Fitting.ExactFit | crates/ciao-host/src/agent_protocol.rs:2440-2470 | An over-long text is cut at most twice, to the longest head both envelopes allow, and then fits |
| Fitting.ExactFitIsLongest | crates/ciao-host/src/agent_protocol.rs:2440-2470 | A head fits with its cut named exactly when it is no longer than the one fitting chose |
| Fitting.FastPathRefinesSlowPath | crates/ciao-host/src/agent_protocol.rs:2528-2557 | Returning a small entry unmeasured is what measured fitting would have returned |
| Fitting.NamingACutGrowsTheEnvelope | crates/ciao-host/src/agent_protocol.rs:2440-2470 | Naming a cut on an uncut text entry never makes its frame's envelope smaller |
| Fitting.AloneAlwaysFits | crates/ciao-host/src/agent_protocol.rs:2528-2557 | Every retained text entry alone fits one frame after at most two cuts |
| Fitting.AloneHeadIsLongest | crates/ciao-host/src/agent_protocol.rs:2528-2557 | Alone, an uncut text is sent whole exactly when that fits, and else as a head such that a head fits if and only if it is no longer |
| SnapshotFitting.FitEveryEntry | crates/ciao-host/src/agent_protocol.rs:2564-2590 | The loop fits each entry of the window on its own, in place |
| SnapshotFitting.FitSnapshotToFrame | crates/ciao-host/src/agent_protocol.rs:2559-2601 | The dropping loop computes the specified snapshot fit |
| SnapshotFitting.FitSnapshotKeepsTheNewest | crates/ciao-host/src/agent_protocol.rs:2574-2601 | What is kept is the first fitted suffix that fits, and a non-empty window never loses its newest entry |
| SnapshotFitting.FitsOrIrreducible | crates/ciao-host/src/agent_protocol.rs:2574-2601 | Either the frame fits, or one entry with nothing more to give up is left |
| SnapshotFitting.FitsWhenTheSmallestDoes | crates/ciao-host/src/agent_protocol.rs:2574-2601 | For any body and any measure, the frame fits whenever it would with the newest entry at its smallest, named as cut or not |
| SnapshotFitting.FitSnapshotIsValid | crates/ciao-host/src/agent_protocol.rs:2559-2601 | The fitted window is a valid wire window whose `has_older`, `truncated` and newest sequence are truthful, and nothing outside the window changes |
| SessionList.BoundedSessionList | crates/ciao-host/src/agent_protocol.rs:2050-2080 | The list is the longest newest-first prefix of at most 64 whose frame fits, or empty; listed plus omitted adds up while the count fits its field |
| SessionList.ListedAreTheNewest | crates/ciao-host/src/agent_protocol.rs:2050-2080 | Listed and left out partition the sessions, nothing left out is newer than anything listed, ties keep their order |
| BodyChunks.CutChunk | crates/ciao-host/src/agent_protocol.rs:2620-2650 | The re-measuring loop takes the most characters that fit both the decoded and the frame bound, and at least one |
| BodyChunks.EntryBodyFrames | crates/ciao-host/src/agent_protocol.rs:2603-2661 | The frames produced are a start, the host's cutting of the body, and an end |
| BodyChunks.ChunksFitAndAreMaximal | crates/ciao-host/src/agent_protocol.rs:2603-2661 | Every chunk is non-empty, within both bounds, and could not carry one more character |
| BodyChunks.EntryBodyAssembly.Receive | crates/ciao-host/src/agent_protocol.rs:3541-3647 | In-place assembly takes exactly the specified step, faults included |
| BodyChunks.HostileDeliveryNeverCorrupts | crates/ciao-host/src/agent_protocol.rs:3541-3647 | However the frames are lost, repeated, reordered and mixed with frames of other entries, a body that is returned is the body |
| BodyChunks.MixedAnswersMislead | crates/ciao-host/src/agent_protocol.rs:3541-3647 | Started by one answer and filled by a chunk of another answer for the same entry, the assembly returns that chunk |
| BodyChunks.OverBoundNeverStarts | crates/ciao-host/src/agent_protocol.rs:3541-3647 | A body above the retained bound never begins to assemble |
| BodyChunks.InOrderDeliveryReturnsTheBody | crates/ciao-host/src/agent_protocol.rs:2603-2661 | In order, the host's frames for any retained body assemble to exactly it |
| BodyTransfers.TakenExactly | crates/ciao-host/src/agent_protocol.rs:3541-3647 | A frame is taken exactly when it is the start that answers, a chunk that continues within the total, or the end at it; refused, it changes nothing |
| BodyTransfers.ReturnedWasSent | crates/ciao-host/src/agent_protocol.rs:3541-3647 | Whatever frames arrive, a body that is returned is what one start answering the request and chunks after it, each continuing the ones before, spell, at the length announced |
| BodyTransfers.SentIsReturned | crates/ciao-host/src/agent_protocol.rs:3541-3647 | Any such start, chunks and end, however cut, return what they spell |
| FrameReader.TakeOfEncoded | crates/ciao-host/src/agent_protocol.rs:2663-2685 | Taking from an encoded frame followed by anything gives the body and leaves the rest |
| FrameReader.EncodedExactlyWhenDeliverable | crates/ciao-host/src/agent_protocol.rs:2663-2685 | A body is encoded if and only if a reader with the same bound delivers it, and then it is taken back whatever follows |
| FrameReader.TakenIsEncoded | crates/ciao-host/src/agent_protocol.rs:2764-2786 | Encoding what was taken, followed by the rest, is what was buffered |
| FrameReader.DecodeOfEncoded | crates/ciao-host/src/agent_protocol.rs:2663-2786 | Decoding any encoded frames followed by anything gives them back first |
| FrameReader.AgentFrameReader.TakeFrame | crates/ciao-host/src/agent_protocol.rs:2764-2786 | Taking in place accounts for every byte: what was delivered, encoded, plus what is buffered is what was consumed |
| FrameReader.AgentFrameReader.Next | crates/ciao-host/src/agent_protocol.rs:2744-2762 | A call ends as specified for what was buffered and read, for any reads, failures and drops, and accounts for every byte |
| FrameReader.LeftBuffered | crates/ciao-host/src/agent_protocol.rs:2744-2762 | A call that is truncated, fails or is dropped leaves neither a frame nor a refused header buffered, and says which read ended it |
| FrameReader.DroppedCallResumes | crates/ciao-host/src/agent_protocol.rs:2742-2762 | A call dropped while waiting and made again ends as one call would have |
| FrameReader.AgentFrameReader.DeliveredIsDecoded | crates/ciao-host/src/agent_protocol.rs:2744-2786 | What the reader has delivered is the decoding of what it consumed |
| FrameReader.SplittingIsInvisible | crates/ciao-host/src/agent_protocol.rs:2744-2786 | Two readers that consumed the same bytes, split any two ways, delivered the same frames and hold the same rest |
| FrameReader.WrittenFramesAreDelivered | crates/ciao-host/src/agent_protocol.rs:2663-2786 | A reader part-way through what was written has delivered a prefix of the frames written |
| FrameReader.RefusalIsFinal | crates/ciao-host/src/agent_protocol.rs:2744-2786 | Over any run of calls, once one refuses a header every later one refuses it the same way, reads nothing and changes nothing |
| LineReader.SplitSpellsTheStream | crates/ciao-host/src/claude_history.rs:326-364 | Splitting at newlines loses nothing, and only a non-empty last line can lack its newline |
| LineReader.ReadBoundedLine | crates/ciao-host/src/claude_history.rs:326-364 | For any buffering, what is read and what is left depend on the stream alone; at most the limit is ever held; a line is oversized exactly when longer |
| LineReader.ReadAllIsSplit | crates/ciao-host/src/claude_history.rs:268-324 | Reading to the end reports each line of the stream, in order, and never merges or skips one |
| LineReader.TailIsASuffix | crates/ciao-host/src/claude_history.rs:268-324 | Starting anywhere in the file and dropping the partial line leaves exactly the lines of the file from some line on |
| LineReader.ReadRest | crates/ciao-host/src/claude_history.rs:294-309 | Reading line by line to the end, through any buffering, reports what the stream alone determines |
| LineReader.ReadFrom | crates/ciao-host/src/claude_history.rs:280-309 | A bounded read from any offset, through any buffering, reports each line of the file from some line on, oversized exactly past the limit, and never holds more than the limit |
| Calendar.CivilDaysIsNaive | crates/ciao-host/src/claude_history.rs:968-977 | The era formula equals adding up years and months one at a time, for every year, month and day number, including days past a month's end |
| Calendar.EpochIsZero | crates/ciao-host/src/claude_history.rs:968-977 | 1970-01-01 is day zero in both counts |
| Calendar.TomorrowIsOneMore | crates/ciao-host/src/claude_history.rs:968-977 | Every calendar day is one more than the day before, across months, leap years and centuries |
| Calendar.SpellingsAgree | crates/ciao-host/src/claude_history.rs:956-979 | The seconds of an instant are the same at whatever offset its clock is read |
| Calendar.ParseOfSpelling | crates/ciao-host/src/claude_history.rs:921-967 | Parsing a spelling of section 5.6 of RFC 3339 gives its fields back, with either mark, any run of fraction digits and any zone |
| Calendar.ParsedIsSpelled | crates/ciao-host/src/claude_history.rs:921-967 | Nothing else parses: whatever does is such a spelling of the fields it parses to |
| Calendar.EverySpellingIsRead | crates/ciao-host/src/claude_history.rs:921-980 | An instant written at any offset and precision reads as itself, or as nothing when it is before the epoch |
| HistoryEntries.UpdatedIsValid | crates/ciao-host/src/claude_history.rs:746-840 | Mapping a valid operation onto nothing or onto a valid entry gives a valid entry |
| HistoryEntries.SettledIsValid | crates/ciao-host/src/claude_history.rs:702-728 | Settling at the end keeps an entry valid and leaves no tool running |
| HistoryMapper.Mapper.constructor | crates/ciao-host/src/claude_history.rs:429-443 | A new mapper is empty, with its index, sizes and counter in agreement |
| HistoryMapper.Mapper.EvictOldest | crates/ciao-host/src/claude_history.rs:682-693 | Eviction removes the oldest row from list, index and counter, and remembers its source |
| HistoryMapper.Mapper.ReadHole | crates/ciao-host/src/claude_history.rs:695-700 | An unreadable record empties the mapper and marks it truncated |
| HistoryMapper.Mapper.Upsert | crates/ciao-host/src/claude_history.rs:594-627 | The indexed in-place upsert, with eviction, is the specified streaming step |
| HistoryMapper.Mapper.Finish | crates/ciao-host/src/claude_history.rs:702-728 | Finishing settles every row; an invalid one discards what came before it |
| HistoryRefinement.StreamingRefinesBatch | crates/ciao-host/src/claude_history.rs:405-443 | Over every transcript the stream's rows are a suffix of the unbounded batch, within both bounds, with exactly the sources before it evicted |
| HistoryRefinement.StreamingEqualsBatchExactly | crates/ciao-host/src/claude_history.rs:405-407 | For every read, holes included, streaming keeps what bounding the finished batch past its last hole keeps if and only if no prefix was cut later than that |
| HistoryRefinement.StreamingEqualsBatchWhenEntriesGrow | crates/ciao-host/src/claude_history.rs:405-407 | In particular when no row ever gets smaller |
| HistoryRefinement.ShrinkingLosesHistory | crates/ciao-host/src/claude_history.rs:405-407 | A named transcript of valid records whose last entry shrinks: all five rows fit at the end, and the stream has lost one |
| HistoryRefinement.NothingBeforeAHoleSurvives | crates/ciao-host/src/claude_history.rs:695-700 | No row from before an unreadable record is kept |
| HistoryRefinement.ToolHistoryIsMonotone | crates/ciao-host/src/claude_history.rs:629-680 | Over the rest of any transcript a tool row stays a tool row, a finished one finished, a cut one cut |
| HistoryRefinement.EveryRowIsValid | crates/ciao-host/src/claude_history.rs:594-680 | Every row of every transcript is a valid entry |
| HistoryRefinement.FinishedHistory | crates/ciao-host/src/claude_history.rs:702-728 | The history returned is the settled suffix, nothing in it is running, and it is complete exactly when nothing was left out |
| HistoryRows.RowFollowsItsSteps | crates/ciao-host/src/claude_history.rs:594-627 | The batch has a row for a source exactly when a record names it, and that row is the fold of the records naming it |
| HistoryRows.RowsInOrder | crates/ciao-host/src/claude_history.rs:594-627 | Rows stand in the order their sources were first named |
| HistoryRows.FoldedFrame | crates/ciao-host/src/claude_history.rs:594-627 | Every row has its last record's timestamp and kind, is complete, and is numbered by how many records it took |
| HistoryRows.ProseRow | crates/ciao-host/src/claude_history.rs:797-805 | A prose row holds the longest prefix of its last text within the retained bound, and names a cut by the whole size |
| HistoryRows.UnsupportedRow | crates/ciao-host/src/claude_history.rs:832-840 | A row last written as unsupported holds that record's reason and names no cut |
| HistoryRows.ToolRow | crates/ciao-host/src/claude_history.rs:629-680 | A tool row is named as last named, or `tool`; its status is the last one, a finished call never running again; its previews are the bounded forms of the last input and result given |
| HistoryRows.ToolRowCut | crates/ciao-host/src/claude_history.rs:629-680 | A call that cuts a preview names the sizes behind both; one that cuts nothing leaves what the row said before |
| HistoryRows.CutIsRemembered | crates/ciao-host/src/claude_history.rs:671-677 | A cut is still named after any number of calls that cut nothing |
| HistoryRows.FinishedEntry | crates/ciao-host/src/claude_history.rs:702-728 | Every entry of a finished history is the fold of the records on its source, with a running call settled as unknown and nothing else changed |
| Dispatcher.AdapterEventContext.constructor | crates/ciao-host/src/agent_bridge.rs:124-145 | A fresh context has no open snapshot and has told the supervisor nothing |
| Dispatcher.AdapterEventContext.Apply | crates/ciao-host/src/agent_bridge.rs:205-454 | Applying an event in place is the specified step, refusals included |
| Dispatcher.RunIsMeaning | crates/ciao-host/src/agent_bridge.rs:205-454 | A connection goes on if and only if its stream is well ordered, bounded and taken; then every replacement holds exactly the entries since its start and all else is told once, in order |
| Dispatcher.RunEndsAt | crates/ciao-host/src/agent_bridge.rs:205-454 | A stream ends at the first event that may not follow, by that event: the session's end, a shutdown with whether the process exited, or a refusal; and has told exactly what came before |
| Dispatcher.ReplacementByPosition | crates/ciao-host/src/agent_bridge.rs:212-236 | Between a start and the end that closes it an accepted stream holds only entries and session-level events, and the replacement told at that end is those entries, by position |
| Dispatcher.SessionLevelIsInvisible | crates/ciao-host/src/agent_bridge.rs:284-296 | Session-level events change neither whether a burst is open nor what it holds |
| Dispatcher.MixedBurstReplacesOnce | crates/ciao-host/src/agent_bridge.rs:212-236 | However session-level events are mixed into a burst, its timeline effect is one replacement with its entries |
| Dispatcher.BurstIsAccepted | crates/ciao-host/src/agent_bridge.rs:212-236 | Every burst within the count and byte bounds is accepted to its end |
| PiSnapshot.FitEntryFrame | integrations/pi/ciao-agent-session.ts:422-467 | The extension's fitting loop computes the specified fit for any frame size and measure |
| PiSnapshot.FitReduces | integrations/pi/ciao-agent-session.ts:417-467 | What is sent is a prefix of the text or a tool with fewer previews, anything cut is named with at least its whole size, and the frame fits or nothing is left to give up |
| PiSnapshot.HeadedIsLongest | integrations/pi/ciao-agent-session.ts:427-436 | Text longer than the daemon keeps, 48 KiB or one MiB by the frame it granted, is cut to the longest prefix it does keep, named with its size |
| PiSnapshot.ToolGivesUpInOrder | integrations/pi/ciao-agent-session.ts:455-464 | A tool gives up its result, then its input too, and neither unless the frame is too long with it |
| PiSnapshot.CountIsTight | integrations/pi/ciao-agent-session.ts:728-741 | What is counted for an entry is what is kept of it, or up to three bytes more |
| PiSnapshot.FitIsLongest | integrations/pi/ciao-agent-session.ts:442-454 | An over-long text keeps the longest prefix that fits beside the larger of its two envelopes |
| PiSnapshot.BoundSnapshot | integrations/pi/ciao-agent-session.ts:728-741 | The backward loop keeps the longest suffix within both bounds, and is complete exactly when it keeps everything |
| PiSnapshot.PiSnapshotIsAccepted | integrations/pi/ciao-agent-session.ts:1168-1184 | Whatever history Pi holds, the daemon accepts the burst it sends, its snapshot becomes exactly the fitted newest entries, and a granting daemon is told complete exactly when nothing was left out |
| PiReceipts.RememberKeepsOrderly | integrations/pi/ciao-agent-session.ts:1358-1365 | The receipt map holds the newest 128 inserted keys, in order, each with its command's latest receipt |
| PiReceipts.HeldExactly | integrations/pi/ciao-agent-session.ts:1358-1365 | A receipt is held if and only if fewer than 128 keys were inserted after it |
| PiReceipts.ResendRepeatsTheLatest | integrations/pi/ciao-agent-session.ts:1271-1276 | A held command is answered with the receipt last decided for it |
| PiApplications.ObserveKeepsQuiet | integrations/pi/ciao-agent-session.ts:982-993 | Hearing an input keeps the pending list equal to the open sends, every confirmation evidenced, and duplicates served oldest first |
| PiApplications.ObserveKeepsSending | integrations/pi/ciao-agent-session.ts:982-993 | The same while a send is under way, which stays last and unaccepted |
| PiOnce.CommandsRunAtMostOnceWhileRemembered | integrations/pi/ciao-agent-session.ts:1271-1365 | Over every run, two calls into Pi for one command are separated by more than 128 inserted receipts |
| PiOnce.RetryRepeatsTheReceipt | integrations/pi/ciao-agent-session.ts:1271-1276 | A retry of a remembered command calls nothing, decides nothing, and repeats its latest receipt |
| PiOnce.PiIsCalledExactlyWhen | integrations/pi/ciao-agent-session.ts:1271-1348 | Pi is called if and only if the command's receipt is not among the newest 128 and the surface is usable for an interrupt of a busy agent, a prompt with a text to an idle one, or a steer or follow-up with a text to a busy one |
| PiOnce.ForgottenCommandRunsAgain | integrations/pi/ciao-agent-session.ts:1271-1365 | A named run: any command sent, then 128 distinct others that are turned away, then the first again, calls Pi for it twice |
| PiEvidence.AppliedMeansHeard | integrations/pi/ciao-agent-session.ts:982-993 | Over every run, applied-as-input receipts equal confirmed sends; each confirmed send has its own later extension input with its message; an older copy never waits behind a newer |
| PiAnswers.AnswersExactly | integrations/pi/ciao-agent-session.ts:1271-1348 | Over every run, the receipts decided for a command not remembered, with their reasons; the message handed over carries `steer`, `followUp` or nothing by its kind; and what becomes of it by whether the call throws and more echoes than older copies came back |
| PiAnswers.InputAnswers | integrations/pi/ciao-agent-session.ts:982-993 | Over every run, an input between commands applies the oldest message waiting for it, and no other |
| PiAnswers.UnawaitedInputAnswers | integrations/pi/ciao-agent-session.ts:982-993 | An input nothing waits for decides nothing |
| PiBridge.CiaoAgentBridge.RememberAndSend | integrations/pi/ciao-agent-session.ts:1358-1365 | The in-place map update is the specified one |
| PiBridge.CiaoAgentBridge.ApplyPending | integrations/pi/ciao-agent-session.ts:1350-1356 | Applying removes that pending application and no other, and decides its receipt |
| PiBridge.CiaoAgentBridge.ObserveInput | integrations/pi/ciao-agent-session.ts:982-993 | Observing an input in place is the specified step |
| PiBridge.CiaoAgentBridge.HandleCommand | integrations/pi/ciao-agent-session.ts:1271-1348 | Handling a command in place is the specified step, in every branch, and leaves nothing half-settled |
| PiBridge.CiaoAgentBridge.Stop | integrations/pi/ciao-agent-session.ts:866-880 | Stopping drops everything pending and keeps every receipt |

## Left out

- Sockets, `select` loops, timers, retries and the file system: reads arrive as any sequence of byte pieces, and files are byte sequences.
- JSON decoding and the mapping of transcript and vendor records to operations: the model starts from the operations those records yield.
- The supervisor's own reconcile and backfill logic: the dispatcher model records what it is told and takes its refusals as input.
- Alerts, whereabouts text, history reads and drift tallies that some events also set off in the dispatcher.
- Routing, installers, digests of source identifiers, version classification and process discovery.
- The full JSON size of a snapshot or a session list: any measure of the frame is allowed, and the results that need more say what they need of it.
- Tool previews of JSON documents: the previewer is a parameter, required only to keep its previews within their bound where validity depends on it.
- Slot records of the mapper: kept as two parallel lists, rows and sizes, not as one list of pairs.
- Lone surrogates in Pi's strings: a character is a Unicode scalar value.
- Pi's write queue, coalescing timers and a failure to encode a receipt.
- Numbering of entries: that one entry keeps one sequence and no two share one is how the host assigns them (`crates/ciao-host/src/agent_session.rs:2764-2788`), and is a hypothesis of the window results.
- Error texts: errors are told apart by kind.
- CommandReceipts.HeldIsTheLatest: speaks of commands the snapshot lists at most once, because a snapshot that lists one twice keeps the second receipt untouched.
- HistoryRows.ToolRow: takes the previewer to keep its previews within their bound, so that bounding a preview again changes nothing.
- HistoryRefinement.ToolHistoryIsMonotone: takes prose and tool sources to be apart, as the source prefixes make them.
- PiEvidence.AppliedMeansHeard: does not cover the receipt an interrupt is given, whose evidence is the abort call itself.
- BodyChunks.HostileDeliveryNeverCorrupts: leaves out frames of a second answer for the same entry, because a chunk names no revision; `MixedAnswersMislead` shows what they can do.
