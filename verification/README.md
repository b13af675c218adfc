# KVCrucible, modelled and proved in Dafny

KVCrucible rebuilds a view of an LLM serving engine's KV cache from a stream of
events that may be lost, repeated or reordered, and judges whether a faulted
delivery of a trace converges with the pristine one. This project models its
logic in Dafny and proves what its answers are worth.

The files follow the program:

- `Cache`, `StreamSpec`, `StreamState`: cache mutations, the change overlay, and
  the consumer of one publisher stream. `StreamSpec` says on plain values what
  one delivery does; the class `StreamState` mutates its fields the way the
  program does and is proved against it.
- `Ledger`, `Reports`, `Horizon`, `Window`, `Counters`: what every reachable consumer
  state keeps, which one report is due for a delivery and what it changes, and what
  the diagnostics mean.
- `Truth`, `Confluence`, `Verdict`, `Unanimity`: what an authoritative view means,
  on what the final state depends, what a comparison of two runs can conclude, and
  what a wide fingerprint window adds to that.
- `Arena`, `DeliveryArena`, `Planner`, `Faults`: the linked list of deliveries, the plain
  sequence it stands for, the planner that never sees the list, and what each fault
  does to the deliveries around it.
- `Trace`, `Normalizer`, `Assembler`, `Execution`, `Oracle`: from accepted records
  to reported verdicts, end to end.
- `Bits`, `Lzw`, `Spelling`, `GifCodec`, `GifBoundary`, `Zlib`: the media codecs;
  `Spelling` says without a decoder what a code list spells.
- `Framing`, `NumberScan`, `NumberGrammar`: the byte-level scanners.

Three results in short. Whenever a view is called authoritative it is the plain
fold of everything the publisher did up to the frontier, whatever was lost,
repeated or reordered. On a sealed trace a comparison fails only when a cache
limit or counter is exceeded, never reports a divergence for a consistently issued
stream, nor for any stream whose issued cursors all fit the fingerprint window, and
for a trusted stream under sufficient limits its verdict is decided by which cursors
are still live; with a window one cursor too short, whatever its size, some sealed
trace is reported as diverged by a schedule of two moves. The GIF decoder inverts the encoder on every index string up to the canvas size except
exactly those after which the encoder's next free code is a power of two below
4096 whose exponent agrees, modulo eight, with the number of times the dictionary
was restarted. Both functions accept any index string. The auditor always expects a
whole canvas, and one that is written but not read back is given: nine stripes.

`dafny verify dfyconfig.toml` checks everything.

## Model

| member | source | states |
|---|---|---|
| Cache.BoundedFoldMeaning | src/state.rs:804-895 | a bounded run that succeeds gives exactly the unbounded set fold, counts exactly the removals of absent keys, and ends within both ceilings |
| Cache.MutationMeaning | src/state.rs:804-831 | a stored run adds exactly the keys of its hashes, a removed run takes exactly those away, and a clear leaves nothing |
| Cache.BoundedFoldSucceeds | src/state.rs:833-895 | a bounded run succeeds if and only if no membership on the way exceeds a ceiling and the absent removals can be counted |
| Cache.BoundedFoldFails | src/state.rs:833-895 | otherwise it stops at the first operation that leads beyond one, and the error names that ceiling and the size that was not allowed |
| Cache.FoldForgets | src/state.rs:897-903 | after a clear, the membership that preceded a run no longer matters |
| Cache.CacheTransaction.Store | src/state.rs:833-871 | storing through the overlay is storing in the projected set, with both ceilings tested in the source's order |
| Cache.CacheTransaction.Take | src/state.rs:873-895 | removing through the overlay is removing from the projected set; both subtractions are safe and an absent key is counted |
| Cache.CacheTransaction.ClearAll | src/state.rs:897-903 | clearing leaves an empty projection and keeps the count of absent removals |
| Cache.CacheTransaction.Apply | src/state.rs:804-831 | a mutation list acts as its key operations one by one, stopping at the first failure |
| Cache.CacheTransaction.Finish | src/state.rs:910-919 | the plan represents the projection and its counters are its exact cardinality and byte sum |
| Cache.CommitPlan | src/state.rs:931-945 | committing a fitting plan turns the base view into the projection, byte total included |
| StreamSpec.ClearPosition | src/state.rs:549-552 | the position of the first clear, if and only if there is one |
| StreamSpec.DrainEnd | src/state.rs:1484-1499 | draining takes the longest clean contiguous run below the horizon, and stops only where it must |
| StreamStates.StreamState.constructor | src/state.rs:1082-1113 | a fresh state stands for the start value and satisfies every invariant |
| StreamStates.StreamState.Admit | src/state.rs:1124-1136 | one public admission is the specified transition, keeps every invariant, and a failure changes nothing but the failed flag |
| StreamStates.StreamState.AdmitInner | src/state.rs:1236-1272 | the branches taken are those of the specified transition; an error leaves the state as it was |
| StreamStates.StreamState.AdmitInOrder | src/state.rs:1267-1271 | a delivery at, beyond or below the expected cursor is applied, buffered or treated as past, as specified |
| StreamStates.StreamState.HandlePendingRedelivery | src/state.rs:1274-1324 | a redelivery of a pending cursor is a duplicate, a first conflict or a repeated one; the byte total stays exact |
| StreamStates.StreamState.HandlePastDelivery | src/state.rs:1326-1385 | a delivery at or below the frontier is judged by the window and costs authority when it conflicts |
| StreamStates.StreamState.EligibleBarrier | src/state.rs:1387-1401 | the barrier test on the fields is the specified one, whose cases `Reports.ReportsExactly` fixes |
| StreamStates.StreamState.UnavailableBlocks | src/state.rs:1623-1636 | agrees with the specified horizon test |
| StreamStates.StreamState.Buffer | src/state.rs:1403-1437 | a delivery beyond the expected cursor is kept, or discarded with its limit reported |
| StreamStates.StreamState.ApplySource | src/state.rs:1439-1463 | applying is all or nothing: the committed value, or the unchanged state and the cache error |
| StreamStates.StreamState.PlanApplication | src/state.rs:1465-1508 | planning succeeds exactly when the bounded fold over the delivery and its clean suffix does, and changes nothing |
| StreamStates.StreamState.DrainPending | src/state.rs:1484-1499 | the drain loop folds exactly the clean suffix and lists its facts in order |
| StreamStates.StreamState.CommitApplication | src/state.rs:1510-1576 | committing yields the specified state, barrier or not |
| StreamStates.StreamState.InstallFacts | src/state.rs:1547-1559 | each applied fact leaves the ledger and enters the window, oldest first |
| StreamStates.StreamState.RetainFingerprint | src/state.rs:1578-1584 | the eviction loop keeps the newest cursors up to the window size |
| StreamStates.StreamState.SetEquivocation | src/state.rs:1592-1601 | the equivocation ceiling only rises and poison follows it |
| StreamStates.StreamState.SetUnavailable | src/state.rs:1603-1613 | the horizon's floor only falls and its ceiling only rises |
| StreamStates.StreamState.RecomputePoison | src/state.rs:1615-1621 | poison is the greater of the two ceilings |
| StreamStates.StreamState.RecomputeCertainty | src/state.rs:1638-1646 | certainty is unknown, exact or recovering by the source's rule |
| StreamStates.StreamState.Finish | src/state.rs:1202-1234 | finalizing gives the specified summary, with an unclosed gap reported |
| StreamStates.SumPending | src/state.rs:1836-1843 | the checked byte loop gives the order-independent sum of candidate bytes if and only if it fits 64 bits |
| StreamStates.StreamState.DiscardThrough | src/state.rs:1517-1526 | what a barrier supersedes leaves the ledger, its byte sum always fits 64 bits, and the total stays exact |
| Ledger.AdmitKeepsInv | src/state.rs:1124-1272 | every delivery keeps the ledger, horizon, window, dispute, authority and size invariants |
| Ledger.RunKeepsInv | src/state.rs:1124-1272 | and so does every run |
| Ledger.FallbackUnreachable | src/state.rs:1267-1271 | the arms for an expected cursor that is absent or ahead of the delivery are dead |
| Ledger.AdmitByRoute | src/state.rs:1236-1272 | a delivery that belongs to its stream takes one of five routes, and nothing that carries a clear is ever buffered |
| Reports.ReportsExactly | src/state.rs:1236-1463 | a delivery of the stream is reported as the one thing that is due by the pending map, the ceilings, the frontier and the window; only a cache refusal is reported otherwise |
| Reports.ChangesExactly | src/state.rs:1236-1576 | and it changes exactly what belongs to its report; a refusal raises the failed flag alone |
| Reports.NextClearKeepsWindow | src/state.rs:1397-1400 | a clear that is merely next on an undoubted view is applied, not taken for a barrier: the window keeps what still fits |
| Ledger.CommittedInv | src/state.rs:1510-1576 | an application leaves no clean candidate at the next cursor and nothing at or below the frontier |
| Ledger.CommittedWindow | src/state.rs:1538-1584 | an application leaves a contiguous window of the right size with the applied digests |
| Ledger.OnlyCacheFails | src/state.rs:1236-1272 | a delivery that reached its own stream can be refused only by the cache limits |
| Ledger.RunAppend | src/scenario.rs:514-524 | running two delivery lists one after the other is running their concatenation |
| Ledger.FailureIsFinal | src/state.rs:1125-1127 | a failed state never changes again |
| Horizon.DeliveryMovesHorizon | src/state.rs:1603-1636 | the frontier never retreats, the floor only falls, the ceiling only rises, and only a clear above the ceiling removes both |
| Horizon.DiscardedEvidenceIsNeverPassed | src/state.rs:1254-1262 | without such a clear, no run ever reaches discarded evidence or reports an exact view |
| Horizon.DiscardIsReported | src/state.rs:1403-1437 | evidence is thrown away only with a report, and every report starts or extends the horizon; without one the floor and the ceiling stay as they are or are both gone |
| Window.WindowIsExact | src/state.rs:1578-1584 | the window covers exactly the last min(window, applied) cursors up to the frontier |
| Window.PastDeliveryIsExact | src/state.rs:1326-1385 | inside the window a redelivery is a duplicate exactly when it matches what was applied at its cursor or the first delivery that has differed from that since; outside it changes only a counter |
| Window.RunCovers | src/state.rs:1326-1584 | in every reachable state the window holds what was applied at exactly the last cursors, each with the first delivery that contradicted it |
| Counters.DeliveryCounts | src/state.rs:1030-1046 | one delivery moves each counter by what it adds to that counter's total, clamped at the ceiling: one report of its kind, or the absent removals of an authoritative or of a partial application |
| Counters.RunCounts | src/state.rs:1124-1272 | over a run each counter, both counts of absent removals included, is its true total cut off at the ceiling, and exact unless truncation is flagged |
| Counters.RunTruncates | src/state.rs:1030-1046 | truncation is flagged if and only if some total passed the ceiling |
| Truth.ClearForgets | src/state.rs:897-903 | from its first clear on, a mutation list means the same from any view, and the same as the whole list |
| Truth.BarrierMeaning | src/state.rs:1439-1463 | applying from the first clear on gives the true membership from any view whatever |
| Truth.SpanMeaning | src/state.rs:1484-1499 | draining a clean run extends the truth cursor by cursor |
| Truth.ApplicationMeaning | src/state.rs:1465-1508 | an authoritative application folds to the truth at the last cursor it reaches |
| Truth.RunKeepsTruth | src/state.rs:1236-1576 | every run keeps the view truthful |
| Truth.AuthoritativeViewIsTrue | src/state.rs:1236-1576 | an authoritative view is the fold of the whole true history up to the frontier, even across gaps, and for unknown baselines whatever the real initial membership was |
| Confluence.RunSettles | src/state.rs:1236-1576 | every delivered cursor is applied, pending or inside the horizon, and the applied run starts at the initial cursor or at a clear |
| Confluence.ExactMeansSettled | src/state.rs:1638-1646 | with nothing discarded, exact certainty means that the delivered cursors form one such run, and the frontier is its end |
| Confluence.RunDiscardsNothing | src/state.rs:1403-1437 | limits that can hold every cursor out of order never discard one |
| Confluence.OutcomeBySet | src/state.rs:1236-1576 | the outcome of a run is decided by the set of delivered cursors |
| Confluence.SameCursorsSameOutcome | src/state.rs:1236-1576 | order and repetition change neither frontier, pending cursors nor certainty |
| Verdict.EligibleMeansExact | src/scenario.rs:843-849 | in every reachable summary the five eligibility tests hold exactly when certainty is exact |
| Verdict.SummaryMeans | src/state.rs:1202-1234 | a summary gives each reason for doubt by itself, the view, and how many deliveries and fingerprints are left |
| Verdict.ComparisonMeans | src/scenario.rs:819-841 | a comparison says of each side by itself whether it is inexact, and exact sides at one frontier are decided by their memberships |
| Verdict.AgreeingSidesNeverDiverge | src/scenario.rs:819-841 | two runs that agree with one history are never reported as diverged |
| Verdict.VerdictBySet | src/scenario.rs:819-841 | converged exactly when both cursor sets are settled at the same cursor, ineligible otherwise |
| Verdict.SettledRunsConverge | src/scenario.rs:819-841 | runs settled together are both exact at the greatest cursor delivered and show one view |
| Verdict.SameCursorsConverge | src/scenario.rs:819-841 | reordering and repetition never change the verdict of a settled trusted stream |
| Unanimity.StepSound | src/state.rs:1236-1576 | under a window that can hold every cursor heard, each payload heard stays superseded by a barrier, held against the view, applied or waiting |
| Unanimity.RunSound | src/state.rs:1236-1576 | so over every run, and a certain view is the replay of the applied payloads from the start or from a clear |
| Unanimity.SameReplay | src/scenario.rs:819-841 | two records that end at one cursor and answer the same claims give the same membership, wherever they start |
| Unanimity.WideWindowNeverDiverges | src/scenario.rs:819-841 | when the window can hold every cursor of a stream, a side that heard no more than the other never diverges from it, even if the publisher contradicts itself |
| Unanimity.ForgottenConflictDiverges | src/scenario.rs:819-841 | under every window size, exchanging two contradicting deliveries around a run that outlasts the window is reported as diverged, whatever else arrives at their cursor afterwards |
| Unanimity.ContradictionExists | src/state.rs:1326-1385 | such a contradiction exists for every window size, wherever its cursors exist and one key fits the cache |
| Arena.LiveIsListed | src/scenario.rs:1045-1055 | a key is in the delivery order exactly when its node is live, and then at that node's place |
| Arena.LiveCountIsLength | src/scenario.rs:1063-1100 | the list holds exactly as many nodes as are live |
| DeliveryArenas.DeliveryArena.constructor | src/scenario.rs:912-930 | a new arena lists the prefix in order |
| DeliveryArenas.DeliveryArena.AppendOriginal | src/scenario.rs:932-951 | appends a fresh key, refuses a known one |
| DeliveryArenas.DeliveryArena.ResolveLive | src/scenario.rs:1045-1055 | succeeds exactly on live keys |
| DeliveryArenas.DeliveryArena.Unlink | src/scenario.rs:1028-1043 | takes one node out of the links and leaves the rest |
| DeliveryArenas.DeliveryArena.DropDelivery | src/scenario.rs:953-958 | removes the key from the order, or refuses a key that is not live |
| DeliveryArenas.DeliveryArena.Duplicate | src/scenario.rs:960-981 | splices the copies right behind the target, all of them exactly when the block is fresh, and otherwise those before the first that cannot be taken |
| DeliveryArenas.DeliveryArena.InsertAfter | src/scenario.rs:1006-1026 | inserts one fresh key behind a live node |
| DeliveryArenas.DeliveryArena.MoveBefore | src/scenario.rs:983-1004 | removes the target and puts it back before the anchor, the adjacent case included |
| DeliveryArenas.DeliveryArena.Materialize | src/scenario.rs:1057-1102 | the walk from the head yields every live delivery once, in order, and fails exactly on a key outside the prefix or one of the source lists |
| Planner.AcceptedIsCarriedOut | src/trace.rs:682-787 | whatever the planner accepts the list carries out, and the planner's counters describe the list exactly |
| Planner.DeliveryCount | src/scenario.rs:851-902 | a schedule delivers the prefix plus its copies minus its drops, no key twice, every occurrence within 16 bits |
| Faults.PerformMeans | src/scenario.rs:953-1004 | a fault is carried out exactly when it is possible: a drop takes one delivery out, copies stand right behind their target in order, a move puts the target right before its anchor, and the others keep their order |
| Faults.AcceptsExactly | src/trace.rs:682-787 | the planner accepts exactly what the list can do, with the next free occurrences for copies |
| Trace.CheckedLimit | src/trace.rs:938-957 | a total is granted exactly when it fits, and otherwise the limit and the total are named |
| Trace.PlanIsAccepted | src/trace.rs:682-787 | a schedule that resolves to numbers is acceptable action by action |
| Trace.PlanFollows | src/trace.rs:682-787 | a plan is the one made for a schedule if and only if it says what the schedule says: each action with its kind, the keys of the envelopes named as target and anchor, and copies numbered behind those already planned |
| Trace.TraceValidator.Push | src/trace.rs:452-461 | failures are final and leave history and plans alone; an accepted record adds exactly its own names, scope and identity bytes, a schedule exactly the one plan made over everything before it, and the first record is the header |
| Trace.TraceValidator.CheckOrder | src/trace.rs:509-546 | one header, first, within the record limit; a refusal says which of these failed |
| Trace.TraceValidator.FinishPlanned | src/trace.rs:482-507 | no plan before the whole trace was accepted |
| Trace.TraceValidator.PushStream | src/trace.rs:548-588 | an accepted declaration is new in name and scope and is recorded |
| Trace.TraceValidator.CheckStream | src/trace.rs:548-575 | exactly when a declaration is acceptable, and otherwise the first reason against it |
| Trace.TraceValidator.PushEnvelope | src/trace.rs:590-631 | an accepted envelope is new, belongs to a declared stream and is recorded |
| Trace.TraceValidator.CheckEnvelope | src/trace.rs:590-623 | exactly when an envelope is acceptable, its token evidence included, and otherwise the first reason against it |
| Trace.ValidateRedaction | src/trace.rs:877-921 | token evidence is accepted exactly when every disclosed kind is the one the header announces, and otherwise the first offender is named |
| Trace.TraceValidator.PushSchedule | src/trace.rs:633-680 | exactly when a schedule is accepted, how it is then retained and counted, and that the retained plan says what the schedule says |
| Trace.TraceValidator.AdmitSchedule | src/trace.rs:633-664 | exactly when a schedule fits the trace-wide limits, and otherwise the first limit against it |
| Trace.TraceValidator.PlanSchedule | src/trace.rs:682-787 | planning succeeds exactly when every action is acceptable in turn and the totals fit, and the plan then says action by action what the schedule says over the envelopes seen so far; it fails only when no plan does or a total is exceeded |
| Trace.TraceValidator.PlanAction | src/trace.rs:702-787 | one action becomes its numbers and the bookkeeping after it; a refusal names the action, the role and the reason |
| Trace.TraceValidator.ResolveDelivery | src/trace.rs:789-825 | a reference resolves to its key or to the precise reason why not |
| Trace.StreamRecorded | src/trace.rs:548-588 | a new declaration disturbs no earlier record and no retained plan |
| Trace.SourceRecorded | src/trace.rs:590-631 | nor does a new envelope |
| Normalizer.EnvelopeNormalizer.Prepare | src/state.rs:401-410 | an admissible envelope is prepared or refused by its fingerprint alone; any failure closes the session |
| Normalizer.EnvelopeNormalizer.PrepareInner | src/state.rs:490-581 | the budget, identity and count tests decide, and a failure changes nothing |
| Normalizer.Fingerprinted | src/state.rs:523-545 | a fingerprint is granted exactly when it fits the line and the rest of the trace budget; a refusal names the limit that is exceeded, the trace budget as a whole |
| Normalizer.EnvelopeNormalizer.RegisterStream | src/state.rs:425-455 | a registrable stream is bound; only an unsupported trust decision leaves the session open |
| Normalizer.EnvelopeNormalizer.BindStream | src/state.rs:599-655 | an identical repetition returns the same contract, anything else must be new and fit |
| Normalizer.EnvelopeNormalizer.Seal | src/state.rs:464-482 | only an open session seals |
| Assembler.TraceAssembler.Push | src/scenario.rs:169-242 | after the validator accepts a record the normalizer can refuse only an unsupported trust decision or a fingerprint that does not fit; an accepted schedule adds exactly its own plan, which says what the schedule says |
| Assembler.TraceAssembler.FinishTrace | src/scenario.rs:194-206 | finishing fails exactly after an earlier failure or when no record was accepted, never by an internal mismatch, and yields a sound sealed trace that holds the declarations, envelopes and plans that were accepted, in order |
| Assembler.BindOwned | src/scenario.rs:434-486 | binding succeeds exactly when identities, sessions and limits match and every source names a stream |
| Assembler.LayersMatch | src/scenario.rs:448-460 | what the two layers hold at the end always belongs together |
| Assembler.SealedIsBound | src/scenario.rs:462-486 | routes are those of the declarations and every retained plan stays inside its prefixes |
| Execution.MaterializeSchedule | src/scenario.rs:851-902 | succeeds exactly under the stated conditions and yields what the plain sequence operations yield |
| Execution.ScheduleMaterializes | src/scenario.rs:851-902 | every schedule of a sealed trace materializes |
| Execution.StartState | src/state.rs:354-362 | a blueprint starts a fresh state only for its own sealed session |
| Execution.DeliverAll | src/scenario.rs:514-524 | each stream ends as if its own deliveries had been run alone, in order |
| Execution.Execute | src/scenario.rs:488-544 | every summary is that of the stream's own run; on routed deliveries only a cache limit or counter can fail it |
| Execution.Paired | src/scenario.rs:794-816 | executions of one schedule are compared stream by stream, others refused |
| Execution.CompareSchedule | src/scenario.rs:377-407 | on a sealed trace succeeds exactly when no side exceeds a cache limit or counter; it then reports the pristine execution with the prefix, the faulted one with the deliveries of the schedule, each with the summaries of its own runs, and the comparison of every stream |
| Oracle.NeverFalselyDiverged | src/scenario.rs:377-407 | no schedule, window or pending limit makes a consistently issued stream diverge |
| Oracle.WideWindowHidesNothing | src/scenario.rs:377-407 | no schedule makes a stream diverge whose issued cursors all fit the fingerprint window, consistent or not |
| Oracle.NarrowWindowDiverges | src/scenario.rs:377-407 | that bound cannot be lowered: under every window size there is a sealed trace with one issued cursor more, all envelope names distinct, that a schedule of two moves makes diverge |
| Oracle.VerdictBySurvivors | src/scenario.rs:377-407 | the verdict depends only on which cursors were issued and which are still live |
| Oracle.SurvivorsConverge | src/scenario.rs:377-407 | a dense trusted stream that keeps every cursor alive ends exact at its last cursor on both sides and converges |
| Oracle.NothingDroppedKeepsAll | src/trace.rs:702-787 | a schedule of duplicates and moves keeps every cursor alive |
| Bits.UnpackPacked | tools/render_readme_media.py:896-909 | reading packed bits back gives the bits and their zero padding |
| Lzw.CodeFits | tools/render_readme_media.py:899-901 | no code is ever too large for its width |
| Lzw.PendingIsRead | scripts/verify_readme_media.py:735-752 | the decoder understands the pending code, even one it is about to define, and completes its table |
| Lzw.InsertKeepsStep | tools/render_readme_media.py:883-888 | both sides widen at the same moment, although each tests a different counter |
| Lzw.ReadsEnd | scripts/verify_readme_media.py:723-734 | the end code is read unless the decoder widened and no bit is left |
| Lzw.Simulates | scripts/verify_readme_media.py:697-754 | from any reachable pair of states the decoder completes the string unless it is stranded |
| Spelling.DecodesExactly | scripts/verify_readme_media.py:697-754 | a bit string decodes to a canvas if and only if it begins with a code list that spells it, table and widths being closed forms of the strings since the last clear |
| GifCodec.WriteSubblocks | tools/render_readme_media.py:849-856 | the blocks of a payload |
| GifCodec.ReadSubblocks | scripts/verify_readme_media.py:680-694 | what reading blocks from a position gives, every error included; a payload is accepted exactly when a chain of counted blocks with an empty one at its end carries it |
| GifCodec.SubblocksReadBack | scripts/verify_readme_media.py:680-694 | blocks are read back wherever they stand |
| GifCodec.ReadsExactly | scripts/verify_readme_media.py:680-694 | reading gives a payload and an end if and only if such a chain leads there |
| GifCodec.EmitCodes | tools/render_readme_media.py:866-894 | the dictionary loop emits the specified code stream |
| GifCodec.PackCodes | tools/render_readme_media.py:896-909 | packing succeeds exactly when every code fits and yields the stream's bits |
| GifCodec.LzwEncode | tools/render_readme_media.py:863-910 | every valid index string is encoded; the width check never fires |
| GifCodec.ReadCode | scripts/verify_readme_media.py:711-721 | the next bits as a number, or nothing when too few are left |
| GifCodec.LzwDecode | scripts/verify_readme_media.py:697-754 | whatever the payload, an accepted one has minimum four and is a code list, closed by the end code, that spells a whole canvas of palette symbols, which is the result; a refused one spells no such canvas, and the error is the precise one |
| GifCodec.StreamBound | scripts/verify_readme_media.py:36-37 | every frame stays below the code and byte limits |
| GifCodec.CodesReadBack | scripts/verify_readme_media.py:697-754 | decoding inverts encoding if and only if the frame is readable |
| GifCodec.FrameRoundTrip | scripts/verify_readme_media.py:833-838 | the same for a frame anywhere in a file |
| GifBoundary.StreamLength | tools/render_readme_media.py:866-894 | the bits of any code stream follow from the last free code and the number of restarts alone |
| GifBoundary.UnreadableMeans | scripts/verify_readme_media.py:723-754 | a frame is unreadable if and only if the next free code ends at a power of two below 4096 whose exponent equals the number of restarts modulo eight |
| GifBoundary.BlankFrameIsUnreadable | tools/render_readme_media.py:863-910 | 28680 equal pixels cannot be read back |
| GifBoundary.StripedCanvasIsUnreadable | scripts/verify_readme_media.py:833-838 | nor can one full canvas of nine stripes, of the size that the auditor expects |
| Zlib.AdlerDeferred | tools/render_readme_media.py:717-727 | the checksum with its modulus deferred to chunks of 5552 bytes |
| Zlib.ModulusIsLargestPrime | tools/render_readme_media.py:717-727 | the modulus of the checksum is the largest prime below 65536 |
| Zlib.AdlerStepwise | scripts/verify_readme_media.py:533-539 | the same checksum reduced at every byte |
| Zlib.StoredZlib | tools/render_readme_media.py:730-742 | the stored stream of any data |
| Zlib.InflateStored | scripts/verify_readme_media.py:542-571 | what reading a stored stream gives, every error included; it returns data if and only if the payload is the header, one to 33 stored blocks that join to the data with only the last marked final, and the big-endian checksum of the data |
| Zlib.StoredRoundTrip | scripts/verify_readme_media.py:542-571 | reading inverts writing exactly on at most 33 full blocks; longer streams are refused |
| Zlib.AcceptsExactly | scripts/verify_readme_media.py:542-571 | the same for the specified reader: nothing else is accepted |
| Framing.JsonlReader.ReadRecord | src/jsonl.rs:193-277 | one record, or one error, depends on the bytes alone, and the source is consumed by exactly the bytes counted |
| Framing.JsonlReader.Next | src/jsonl.rs:172-187 | the iterator stops for good at the end and at the first error, with exactly the counted bytes consumed |
| Framing.JsonlReader.ScanBuffers | src/jsonl.rs:199-276 | payload, error, byte count and remaining input are those of a split on line feeds that strips one carriage return |
| Framing.JsonlReader.TakeByte | src/jsonl.rs:220-264 | one byte of the machine, each limit met at the point the bytes dictate |
| Framing.JsonlReader.PushBounded | src/jsonl.rs:314-328 | a byte is appended unless the line is full |
| Framing.ReadAll | src/jsonl.rs:169-190 | a whole input yields the same records and error however it is buffered |
| Framing.TraceIsLines | src/jsonl.rs:169-306 | an input is read without error exactly when it fits every limit, and then line for line with its line numbers; otherwise line for line up to the first line that gives an error, and the reported one fits that line and what is left of the budgets; no yielded record is longer than a line may be |
| Framing.WrittenLines | src/jsonl.rs:193-277 | lines written with either terminator, mixed at will, are split back, and an unended tail is a line with all its bytes |
| Framing.EverythingIsWritten | src/jsonl.rs:193-277 | every input is written so, whence its lines are known |
| NumberScan.ScanNumber | src/codec.rs:352-400 | the token at a position, or nothing |
| NumberScan.ClassifyNumbers | src/codec.rs:289-342 | the walk over a text finds what the specified scan finds |
| NumberScan.ExceedsMeansUnsafe | src/codec.rs:409-413 | comparing digit strings decides whether the magnitude exceeds 2^53 - 1 |
| NumberScan.NumberIsScanned | src/codec.rs:352-400 | a number of the grammar is scanned as exactly that number |
| NumberScan.ScansExactly | src/codec.rs:352-400 | a token is scanned if and only if a delimited number of the grammar stands there |
| NumberGrammar.BodyPassed | src/codec.rs:296-307 | whatever a string contains is passed over up to its closing quote |
| NumberGrammar.ValuePlaced | src/codec.rs:319-336 | in a JSON tree every number stands where the scan looks for one |
| NumberGrammar.ScanAgreesWithGrammar | src/codec.rs:289-342 | on every text that spells a tree the scan reports its first number that is no safe integer |
| NumberGrammar.AcceptedMeansSafe | src/codec.rs:289-342 | a text is accepted exactly when all its numbers are safe integers |

## Left out

- SHA-256, canonical serialization and serde: a fingerprint is an injective function of the mutation list, and the canonical serializer is any function from mutations to a length or a refusal.
- Mutation fields outside cache identity (token counts and contents, metadata, parents) are one opaque evidence value that only fingerprints see; of the token evidence only its kind is kept.
- Allocation failures, atomics and shared ownership: the session is a three-valued status, and capacity errors do not occur.
- Record-local validation in `src/ir.rs` beyond duplicate copies between one and the limit and distinct move operands.
- Error texts, error codes, getters, the summary counters of a trace and the command line.
- I/O errors of the JSON Lines source, and the record decoder behind it, which is any predicate on payloads.
- The serde visitor of `src/codec.rs`: the pre-scan is related to the grammar of RFC 8259, not to that parser.
- GIF, PNG and SVG drawing, containers other than the modelled blocks, and manifests.
- Oracle.VerdictBySurvivors: stated for trusted streams under limits that can hold every issued cursor; for other streams NeverFalselyDiverged and WideWindowHidesNothing are the claims.
