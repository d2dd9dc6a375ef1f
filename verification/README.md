# Verified model of the remote-operation agent and the audio output path

This project models six components of the station software and proves what they promise, for all inputs, all runs and all
reachable states. Each component is a pure state model with its theorems, and, where the program updates state in place, a
class or a loop proved to compute that model.

- **Audit log** (`TokenBucket`, `TokenRates`, `AuditEncoding`, `AuditStorage`, `AuditHistory`, `AuditLog`, `AuditRuns`,
  `AuditPlacement`, `AuditAccounting`, `AuditHealth`, `AuditProgress`, `AuditReading`, `AuditReports`, `AuditWriter`).
  The file slots (four in production) are optional byte sequences. An oracle decides, for every storage step of every
  call, whether it fails and how much of a failed write reaches the file. `landed` is the history of records that
  reached a file whole and were not rolled back, `dropped` of those removed with an oldest archive, `cut` of bytes
  removed by normalization. The results: the files read back as exactly `landed` without `dropped`, nothing recorded is
  lost otherwise, every omission is counted, every file stays within its cap, a reader gets back what was written, and
  the integer token bucket is an ideal rational one.
- **Output ring** (`OutputRing`, `OutputRingRuns`, `OutputRingReplaced`, `OutputRingAnswers`, `OutputChannel`). The
  manager's thread and the device callback interleave one atomic load, store or index move at a time, with the fate of
  every sample as history. Verdicts on play marks and the flush handshake are right in every interleaving.
- **Armed TX** (`Arm`, `ArmRuns`, `ArmReasons`, `Capability`, `ArmAuthority`). Three clocks that may step or run
  backwards, signed horizons, heartbeats and consent. The gate is proved equal to a log that only remembers events, and
  the grant verifier and the state machine are composed.
- **Multi-peer session** (`MultiSession`, `MultiSessionRuns`, `MultiSessionDelivery`, `MultiSessionCipher`). Admission,
  eviction, the transport latch and per-peer nonces over every script; the demultiplexer refines independent sessions.
- **Linear resampler** (`LinearResampler`, `ResamplerSamples`). The nested loops with carried state equal a closed form
  and do not depend on how the input is cut into batches. `position` is an exact multiple of one over the target rate.
- **Fingerprint** (`Fingerprint`). The shift-and-mask loop slices the big-endian numeral into 5-bit digits.

`Prelude` holds shared value types and the program's integer widths, `Arith` nonlinear arithmetic facts.

Five properties hold only under a condition, and each carries it:

- The integer bucket answers as the ideal one, and keeps its windows within the allowance, if and only if the refill rate is
  zero, divides 1,000,000 or is a multiple of it; at every other rate a run from a new log is overpaid
  (`TokenRates.IdealExactlyAtExactRates`).
- Every write of a record keeps the byte cap if and only if the record fits a file (`AuditHistory.CapKeptExactlyWhen`).
- A wall-clock horizon that has passed is permanent once a tick or heartbeat has observed it; unobserved, the permit can
  return if and only if no elapsed limit was reached and the other gates are open
  (`ArmRuns.ObservedHorizonIsPermanent`, `ArmRuns.UnobservedHorizonReopensExactlyWhen`).
- A verdict on the latest mark is right; on a played mark it turns wrong once the next buffer has been queued and heard, from
  every reachable state at rest (`OutputRingRuns.EveryVerdictIsRight`, `OutputRingReplaced.AskBeforeQueueing`).
- A send nonce counts accepted frames if and only if no frame was refused for a reason other than the transport
  (`MultiSessionRuns.NonceLaw`).

Where the program's own comments and code differ, the model follows the code: the gate's comment
(pancetta-agent/src/arm.rs:786-791) speaks of the monotonic clock alone, while the code measures lifetime and silence on the
suspend-aware clock as well.

## Model

| member | source | states |
|---|---|---|
| `TokenBucket.Refill` | pancetta-agent/src/audit.rs:677-694 | the refilled bucket never exceeds the burst and its mark never moves past the clock sample or backwards |
| `TokenBucket.CarryExact` | pancetta-agent/src/audit.rs:683-695 | for an exact rate, the time converted is worth exactly the milli-tokens it was converted into |
| `TokenBucket.CarryExactOnlyThen` | pancetta-agent/src/audit.rs:683-695 | the time charged for the tokens earned is exact for every elapsed time if and only if the rate is zero, divides 1,000,000 or is a multiple of it |
| `TokenRates.InexactRateMintsTokens` | pancetta-agent/src/audit.rs:677-703 | at every inexact rate some run from a new, full bucket is admitted more than a burst plus the refill of its time |
| `TokenRates.IdealExactlyAtExactRates` | pancetta-agent/src/audit.rs:677-703 | for every rate: all runs from a new bucket, of any burst, get the ideal bucket's answers, and all their windows stay within the allowance, if and only if the rate is exact |
| `TokenBucket.TakeRefinesIdeal` | pancetta-agent/src/audit.rs:677-703 | one call gives the ideal rational bucket's answer and keeps the correspondence, whatever the clock sample |
| `TokenBucket.RunRefinesIdeal` | pancetta-agent/src/audit.rs:677-703 | over any sequence of clock samples, also backwards ones, every answer is the ideal bucket's |
| `TokenBucket.NewBucketRefinesIdeal` | pancetta-agent/src/audit.rs:397-404 | a new log's full bucket starts in correspondence, so all its answers are the ideal ones |
| `TokenBucket.WindowBound` | pancetta-agent/src/audit.rs:677-703 | between any two calls one kind is admitted at most burst plus rate times the seconds the clock advanced |
| `AuditEncoding.TruncateField` | pancetta-agent/src/audit.rs:986-1000 | the result is within the cap, and unchanged when it already fits |
| `AuditEncoding.TruncateFieldLoop` | pancetta-agent/src/audit.rs:986-1000 | the backward boundary search computes the truncation |
| `AuditEncoding.BoundaryIsLongestFit` | pancetta-agent/src/audit.rs:996-999 | in valid UTF-8 the boundary found ends the longest run of whole code points that fits |
| `AuditEncoding.TruncationKeepsText` | pancetta-agent/src/audit.rs:986-1000 | a cut field is whole code points plus the marker when it fits, and wastes at most three bytes |
| `AuditEncoding.LineIsRecord` | pancetta-agent/src/audit.rs:1016-1018 | escaping leaves no raw newline: every rendered event is exactly one line |
| `AuditEncoding.EncodeRecord` | pancetta-agent/src/audit.rs:1003-1031 | a successful encoding is one line within the record cap; what it says is `RecordReadsBack` |
| `AuditEncoding.EncodeRecordLoop` | pancetta-agent/src/audit.rs:1003-1031 | the halving loop terminates for all limits and gives the record of `RecordReadsBack` |
| `AuditReading.LineRead` | pancetta-agent/src/audit.rs:1010-1018 | a reader defined on its own gets back timestamp, kind, operator and detail from every rendered event, whatever bytes they hold |
| `AuditReading.StringRead` | pancetta-agent/src/audit.rs:1016-1016 | an escaped string is read back up to its closing quote, whatever its bytes |
| `AuditReading.RecordReadsBack` | pancetta-agent/src/audit.rs:1003-1031 | an encoded record reads back as its event, the operator cut at its cap and the detail at the longest halving of its cap with which the record fits |
| `AuditReading.ProductionReadsBack` | pancetta-agent/src/audit.rs:1003-1031 | under production limits only the operator past 64 bytes and the detail past 1,024 are lost |
| `AuditReading.CountsReadBack` | pancetta-agent/src/audit.rs:949-966 | the six counts are read back from a count summary, kind by kind, with their timestamps and saturation flag |
| `AuditReading.CutReadsBack` | pancetta-agent/src/audit.rs:968-984 | slot, reason and bytes of a cut are read back from a retention summary |
| `AuditReports.RecordedEventIsReadable` | pancetta-agent/src/audit.rs:481-527 | in every production run, under every fault, a recorded event is read back from the files in its place with its own fields, unless dropped with an oldest archive |
| `AuditReports.SummaryIsReadable` | pancetta-agent/src/audit.rs:585-608 | in every production run each confirmed summary is a landed record from which its counts or its cut are read back |
| `AuditEncoding.EncodeFailsExactlyWhen` | pancetta-agent/src/audit.rs:1019-1029 | encoding fails if and only if the record with an empty detail is over the cap |
| `AuditEncoding.FirstPassFits` | pancetta-agent/src/audit.rs:1003-1031 | under production limits every event is encoded on the first pass despite worst-case escaping |
| `AuditEncoding.CountsDetailFits` | pancetta-agent/src/audit.rs:949-966 | a count summary is at most 883 bytes for all counter values and is never truncated |
| `AuditStorage.CompleteLen` | pancetta-agent/src/audit.rs:766-782 | the complete prefix ends in a newline and leaves no newline behind it |
| `AuditStorage.CompleteUnique` | pancetta-agent/src/audit.rs:766-782 | it is the only such cut |
| `AuditStorage.CompletePrefixLen` | pancetta-agent/src/audit.rs:766-782 | the backward scan in chunks finds it, for every chunk size |
| `AuditHistory.NormalizeFits` | pancetta-agent/src/audit.rs:731-764 | from any files, a normalization that succeeds leaves every file within the cap, and a failed one undoes no earlier normalization |
| `AuditStorage.FindFree` | pancetta-agent/src/audit.rs:820-826 | the probe answers the lowest free slot, all below it occupied, or that every archive slot is occupied, and changes no file |
| `AuditStorage.MakeRoom` | pancetta-agent/src/audit.rs:853-864 | the length reported for the write is the active file's length after any rotation; when it rotates is `WriteInPlace` and `WriteAfterRotation` |
| `AuditStorage.OpenActive` | pancetta-agent/src/audit.rs:865-873 | opening creates an absent file empty and keeps an existing one's length |
| `AuditHistory.LinesJoin` | pancetta-agent/src/audit.rs:766-782 | lines never straddle a join after a complete part |
| `AuditHistory.AppendRecord` | pancetta-agent/src/audit.rs:874-876 | a whole record appended to a complete file is exactly one more line |
| `AuditHistory.AppendPartial` | pancetta-agent/src/audit.rs:904-912 | a partly written record is no line, and the complete prefix is the file before the write |
| `AuditHistory.TrimKeepsLines` | pancetta-agent/src/audit.rs:749-757 | cutting an unterminated tail loses no line |
| `AuditHistory.RenameKeepsRead` | pancetta-agent/src/audit.rs:836-841 | a rename into a free slot leaves the order of all records unchanged |
| `AuditHistory.ReadySound` | pancetta-agent/src/audit.rs:848-850 | repair keeps the history, and when it succeeds every file holds whole records |
| `AuditHistory.RotateSound` | pancetta-agent/src/audit.rs:807-843 | rotation, interrupted anywhere, keeps the history, overwrites nothing and removes no archive early; success empties the active slot |
| `AuditHistory.CommitSound` | pancetta-agent/src/audit.rs:865-901 | open, write, flush, sync and rollback, failing anywhere, keep the history; a confirmed write adds exactly its record |
| `AuditHistory.RollbackSound` | pancetta-agent/src/audit.rs:888-899 | cutting back to the length before the write undoes the write |
| `AuditHistory.WriteSound` | pancetta-agent/src/audit.rs:847-902 | every write transaction keeps the history; a confirmed one ends it with its record |
| `AuditHistory.WriteFits` | pancetta-agent/src/audit.rs:847-902 | from any files, a write keeps every normalized file within the byte cap, also when its rollback fails |
| `AuditPlacement.WriteInPlace` | pancetta-agent/src/audit.rs:853-901 | on repaired files a record that fits goes behind what the active file holds, under every fault: no archive touched, none dropped; a failed write leaves the file as it was unless its rollback failed too, and only then is the tail marked invalid |
| `AuditPlacement.WriteNamesItsFault` | pancetta-agent/src/audit.rs:853-901 | such a write succeeds exactly when inspect, open, write, flush and sync all do, and otherwise names the first that failed; the tail is invalid exactly when the rollback failed as well |
| `AuditPlacement.RotationShifts` | pancetta-agent/src/audit.rs:807-843 | a rotation that succeeds moves the active file to the newest archive and the archives below the lowest free slot one up; only with no slot free is the oldest gone |
| `AuditPlacement.WriteAfterRotation` | pancetta-agent/src/audit.rs:855-864 | a record that does not fit is written alone into a new active file, and the old one becomes the newest archive |
| `AuditPlacement.FittingRunNeverRotates` | pancetta-agent/src/audit.rs:853-864 | in every run from empty files, whatever fails: while all records it tried to write would fit one file, no archive exists and nothing is dropped |
| `AuditHistory.CapKeptExactlyWhen` | pancetta-agent/src/audit.rs:853-854 | all writes of a record keep the cap if and only if the record fits a file |
| `AuditHistory.RotationDropsOnlyWhenFull` | pancetta-agent/src/audit.rs:803-843 | only a rotation that found all archives occupied drops one, the oldest; a failure after the removal leaves a free slot |
| `AuditHistory.RetriedRotationDropsOnce` | pancetta-agent/src/audit.rs:803-806 | however often a rotation is interrupted and retried, it costs at most the one oldest archive |
| `AuditLog.AppendDenied` | pancetta-agent/src/audit.rs:503-514 | an event over its allowance is coalesced, or fails as unavailable, and touches no file |
| `AuditLog.AppendAdmitted` | pancetta-agent/src/audit.rs:515-525 | an admitted event is never reported as coalesced or unavailable, and spends nothing further |
| `AuditRuns.WriteStaysClean` | pancetta-agent/src/audit.rs:847-902 | a confirmed write ends repaired; from repaired files a write raises no notice and cuts nothing |
| `AuditRuns.HistoryIsKept` | pancetta-agent/src/audit.rs:731-902 | in every run from empty files with faults anywhere, reading from the oldest archive down gives the landed records less the dropped ones; no overwrite, no early removal, byte cap, whole records |
| `AuditRuns.RecordedStays` | pancetta-agent/src/audit.rs:481-527 | a record reported as recorded is read back in its place after any later calls and faults unless dropped with an oldest archive |
| `AuditRuns.RecordedInOrder` | pancetta-agent/src/audit.rs:487-527 | recorded events are read back in the order of their calls |
| `AuditRuns.SummariesLand` | pancetta-agent/src/audit.rs:585-608 | every confirmed summary is a landed record spelling out its report, untruncated for counts under production limits |
| `AuditRuns.CapHolds` | pancetta-agent/src/audit.rs:731-764 | from any files, once normalized, every managed file stays within the cap in every run, and stays normalized |
| `AuditAccounting.CountsAreConserved` | pancetta-agent/src/audit.rs:487-527 | per kind, coalesced and failed outcomes are those in confirmed summaries plus the pending ones; the saturation flag is set exactly when some event went uncounted |
| `AuditAccounting.FlushKeepsTotals` | pancetta-agent/src/audit.rs:585-620 | a maintenance pass, failing anywhere, moves counts from pending to confirmed and loses none |
| `AuditAccounting.DescribesOneMore` | pancetta-agent/src/audit.rs:271-297 | counting one more event extends the count, the earliest and the latest timestamp exactly |
| `AuditAccounting.PendingDescribesUnreported` | pancetta-agent/src/audit.rs:271-297 | in every run the pending counts give exactly the number, earliest and latest timestamp of the events not yet reported |
| `AuditAccounting.CutsAreConserved` | pancetta-agent/src/audit.rs:731-764 | in every run the bytes cut from a file are those of confirmed retention summaries plus its pending notice |
| `AuditAccounting.CutIsWhatIsGone` | pancetta-agent/src/audit.rs:731-764 | the bytes counted as cut from a file are exactly those it no longer holds, however far a normalization got |
| `AuditAccounting.NoticeSaysWhy` | pancetta-agent/src/audit.rs:737-757 | an oversized file is emptied and noticed as reset; a trimmed one is not called reset |
| `AuditAccounting.NoticeAccounted` | pancetta-agent/src/audit.rs:585-600 | a notice is cleared by exactly the summary that reports it |
| `AuditHealth.HealthCountsFailures` | pancetta-agent/src/audit.rs:645-658 | the failure counter is the number of appends that returned a failure, and the last failure the latest error's step |
| `AuditHealth.EpisodeStaysVisible` | pancetta-agent/src/audit.rs:622-643 | a failure episode stays visible at every clock sample short of one interval after its start |
| `AuditHealth.RecoveryMeansRepaired` | pancetta-agent/src/audit.rs:538-582 | an episode ends only by a maintenance call that left the files repaired and nothing pending, at least one interval after it began |
| `AuditHealth.EpisodeEndsExactlyWhen` | pancetta-agent/src/audit.rs:574-643 | an episode ends if and only if a maintenance pass was due, succeeded, and came at least one interval after its start |
| `AuditHealth.FlushReaches` | pancetta-agent/src/audit.rs:609-619 | a successful pass has opened the active file, also when it had nothing to report |
| `AuditProgress.CalmPassSucceeds` | pancetta-agent/src/audit.rs:538-643 | once no storage step fails any more, a due maintenance call succeeds from every state of log and files, reports everything pending, reopens the active file, and ends the episode exactly when it has lasted an interval |
| `AuditProgress.CalmAppendSucceeds` | pancetta-agent/src/audit.rs:487-527 | and an append then fails only for a summary kind or for being over its allowance in an open episode |
| `AuditProgress.CalmRotate` | pancetta-agent/src/audit.rs:807-843 | rotation without faults succeeds from any archives and leaves the active slot empty |
| `AuditHealth.PassRunsExactlyWhen` | pancetta-agent/src/audit.rs:556-571 | a maintenance call runs a pass exactly when a count, a notice, an invalid tail or an open episode is waiting and the last pass is an interval less 250 ms ago; any other call changes nothing |
| `AuditHealth.DenialSaysWhy` | pancetta-agent/src/audit.rs:503-514 | an event over its allowance is coalesced only while storage works and fails as unavailable only in an open episode |
| `AuditHealth.PassesAreSpaced` | pancetta-agent/src/audit.rs:562-572 | after a pass no call at a clock sample short of the interval less the slack starts another or confirms a summary |
| `AuditHealth.KindsAreLimitedApart` | pancetta-agent/src/audit.rs:503-503 | each kind is let through exactly as its own bucket decides; other kinds, faults and summaries neither cost nor earn it tokens |
| `AuditHealth.LogWindowBound` | pancetta-agent/src/audit.rs:677-703 | so in every run of the log one kind is let through at most burst plus rate times elapsed between any two of its appends |
| `AuditWriter.LogWriter.constructor` | pancetta-agent/src/audit.rs:397-424 | a new log over any files is the initial state of the model |
| `AuditWriter.LogWriter.Normalize` | pancetta-agent/src/audit.rs:731-764 | the slot loop ends in the repair of `ReadySound` and `NormalizeFits` |
| `AuditWriter.LogWriter.RotateFiles` | pancetta-agent/src/audit.rs:807-843 | the probe and rename loops end in the rotation of `RotateSound` and `RetriedRotationDropsOnce` |
| `AuditWriter.LogWriter.Write` | pancetta-agent/src/audit.rs:847-902 | the write transaction ends in the files, flags and notices of `WriteSound`, `WriteFits` and `WriteInPlace` |
| `AuditWriter.LogWriter.TakeToken` | pancetta-agent/src/audit.rs:677-703 | the source's saturating steps change only the kind's own bucket, to the state and answer of `TakeRefinesIdeal` |
| `AuditWriter.LogWriter.Append` | pancetta-agent/src/audit.rs:487-527 | ends in the step of the runs in `HistoryIsKept`, `CountsAreConserved` and `HealthCountsFailures`, with its outcome |
| `AuditWriter.LogWriter.Flush` | pancetta-agent/src/audit.rs:585-620 | ends in the pass of `FlushKeepsTotals`, `FlushAccounted` and `FlushRepairs`, with its result |
| `AuditWriter.LogWriter.Recover` | pancetta-agent/src/audit.rs:622-643 | the episode is closed once it has lasted an interval |
| `AuditWriter.LogWriter.Maintain` | pancetta-agent/src/audit.rs:545-583 | ends in the maintenance step of the same runs, with its outcome |
| `OutputRingRuns.EveryRunKeepsInv` | pancetta-audio/src/ringbuffer_comm.rs:203-300 | every interleaving of atomic steps keeps the positions, flush, blame, mark and playback invariants |
| `OutputRingRuns.EveryVerdictIsRight` | pancetta-audio/src/ringbuffer_comm.rs:94-102 | after every interleaving, played means the marked sample left by a pop; discarded, for the latest mark, that it left by a flush; waiting, that its retirement is not published |
| `OutputRingRuns.EveryVerdictIsFinal` | pancetta-audio/src/ringbuffer_comm.rs:94-102 | in every run a verdict other than waiting never changes while ring and mark are current |
| `OutputRingReplaced.AskBeforeQueueing` | pancetta-audio/src/manager.rs:425-427 | from every reachable state at rest with room, in which the latest mark's sample was played: asking now answers played, and asking after one more buffer was queued and heard answers discarded |
| `OutputRingRuns.ReplacedMarkMayBeMisreported` | pancetta-audio/src/manager.rs:425-427 | the same misreport when the next call arms its mark between a pop and its report: a concrete interleaving |
| `OutputRingRuns.EveryMarkNamesItsSample` | pancetta-audio/src/manager.rs:473-518 | in every run each returned mark names the call's first sample, really published, even if the callback freed space in between |
| `OutputRingRuns.SamplesComeWithMarks` | pancetta-audio/src/manager.rs:473-518 | in every run samples enter the ring exactly in the steps whose caller is told their mark, which is the number of the first of them |
| `OutputRingRuns.EveryFlushIsComplete` | pancetta-audio/src/ringbuffer_comm.rs:135-146 | once a token reads as completed, all samples published before its request have left and none is played later |
| `OutputRingRuns.EveryDiscardNeedsLaterFlush` | pancetta-audio/src/ringbuffer_comm.rs:285-300 | a sample queued after a confirmed flush is discarded only by a flush requested later, even if earlier ones timed out |
| `OutputRingRuns.EveryRunConserves` | pancetta-audio/src/ringbuffer_comm.rs:208-283 | in every run, outside a retire step, pushed equals retired plus buffered |
| `OutputRingAnswers.ReplacedRingIsDiscarded` | pancetta-audio/src/manager.rs:520-530 | in every run, once the output has been reopened, a question about a mark of the earlier ring is answered discarded at once |
| `OutputRingAnswers.FlushAnswerIsRight` | pancetta-audio/src/manager.rs:441-453 | in every run a call told that the flush it asked for completed: all requests are served and all samples published before them have left |
| `OutputRingAnswers.RequestedFlushEmpties` | pancetta-audio/src/manager.rs:441-453 | in every run, once the token a call got reads as completed, every sample in the ring before the call has left and none of them is played later |
| `OutputRingAnswers.QueuedAfterFlushSurvives` | pancetta-audio/src/manager.rs:441-518 | in every run the samples of a call that saw its own flush complete are discarded only by a flush requested after they were queued |
| `OutputRingAnswers.ConfirmedExactlyWhen` | pancetta-audio/src/manager.rs:443-449 | a flush counts as confirmed exactly when the call's own token had completed when it stopped waiting |
| `OutputRingAnswers.PushesWhatFits` | pancetta-audio/src/ringbuffer_comm.rs:208-221 | in every run a marked call publishes its samples in order, all or as many as the room it found |
| `OutputRingAnswers.CallbackTakesWhatIsThere` | pancetta-audio/src/ringbuffer_comm.rs:263-300 | a callback takes as many samples as it wants or as there are, in order; a flush takes all |
| `OutputChannel.AudioComm.Retire` | pancetta-audio/src/ringbuffer_comm.rs:269-283 | what a retirement publishes, and that nothing happens for zero samples |
| `OutputChannel.AudioComm.PopAudioSlice` | pancetta-audio/src/ringbuffer_comm.rs:263-267 | an uninterrupted pop ends where the protocol's steps do and plays what it returns |
| `OutputChannel.AudioComm.DrainPendingFlush` | pancetta-audio/src/ringbuffer_comm.rs:290-300 | an uninterrupted drain ends where the protocol's steps do and plays nothing |
| `OutputChannel.AudioComm.FillOutputBuffer` | pancetta-audio/src/stream.rs:629-641 | the device buffer holds the popped samples in order and silence after them |
| `OutputChannel.AudioComm.PushMarkedOutput` | pancetta-audio/src/manager.rs:473-518 | an uninterrupted push ends where the protocol's steps do |
| `OutputChannel.AudioComm.QueueOutputMarked` | pancetta-audio/src/manager.rs:427-497 | an uninterrupted queueing call ends where the protocol's steps do |
| `Arm.ArmState.ArmGrant` | pancetta-agent/src/arm.rs:547-610 | one step of the state machine that every run proves equal to the event log; a refused arm leaves the existing one untouched |
| `Arm.ArmState.Heartbeat` | pancetta-agent/src/arm.rs:644-693 | the same for heartbeats: an expired arm is removed before jti or seq is looked at |
| `Arm.ArmState.DisarmWithReason` | pancetta-agent/src/arm.rs:703-716 | the same for disarms; nothing happens without an arm |
| `Arm.ArmState.SetChannelConsent` | pancetta-agent/src/arm.rs:721-741 | only the named channel's bit changes, audited only on change |
| `Arm.ArmState.SetLocalKill` | pancetta-agent/src/arm.rs:748-760 | the kill bit changes, audited only on change, and the arm stays |
| `Arm.ArmState.Tick` | pancetta-agent/src/arm.rs:765-783 | the same for ticks: an expired arm is removed and announced with its reason |
| `ArmRuns.LifetimeIsExact` | pancetta-agent/src/arm.rs:569-581 | the accepted lifetime is the exact remaining authority: saturation never shows |
| `ArmRuns.ExpiryIsNotAlive` | pancetta-agent/src/arm.rs:403-434 | an arm expires exactly when the event log says it is no longer alive |
| `ArmRuns.RunMatches` | pancetta-agent/src/arm.rs:547-783 | after every run the stored session is the event log's arm, field by field |
| `ArmRuns.GateIsConjunction` | pancetta-agent/src/arm.rs:786-848 | after every run and at every sample of the three clocks, TX is permitted on a channel if and only if all gates of the event log are open |
| `ArmRuns.HeartbeatCoverage` | pancetta-agent/src/arm.rs:623-693 | whenever TX is permitted after n accepted heartbeats, they name this arm with rising seq and gaps under 30 s, and less than (n+1) windows have passed on both elapsed clocks |
| `ArmRuns.RefusedHeartbeatNeverHelps` | pancetta-agent/src/arm.rs:623-686 | a heartbeat for another arm or with a used seq, anywhere in any run, never permits what would be denied without it |
| `ArmRuns.ElapsedExpiryIsPermanent` | pancetta-agent/src/arm.rs:396-442 | once the lifetime or silence limit is reached, with or without a tick, no later sample is permitted before an accepted arm |
| `ArmRuns.DisarmedStaysDenied` | pancetta-agent/src/arm.rs:810-814 | with no arm stored no run permits TX until an arm is accepted |
| `ArmRuns.ObservedHorizonIsPermanent` | pancetta-agent/src/arm.rs:417-424 | a wall-clock horizon is permanent once a tick or heartbeat has observed it, even if all clocks then run backwards |
| `ArmRuns.UnobservedHorizonReopensExactlyWhen` | pancetta-agent/src/arm.rs:417-434 | a horizon passed but unobserved: stepping the wall clock back restores the permit if and only if no elapsed limit has been reached and the other gates are open |
| `ArmRuns.UnobservedHorizonIsNot` | pancetta-agent/src/arm.rs:422-424 | a concrete run of that kind from a new state |
| `ArmReasons.EveryAnswerIsPrescribed` | pancetta-agent/src/arm.rs:802-848 | after every run the gate gives at every sample exactly the answer the event log prescribes: a permit, or the first condition that fails by name, with 30,000 ms of silence |
| `ArmReasons.EveryEffectIsPrescribed` | pancetta-agent/src/arm.rs:547-783 | in every run each event has exactly the effects the event log prescribes: who, when, what and why |
| `ArmReasons.EndsForReason` | pancetta-agent/src/arm.rs:403-434 | an arm ends for the reason the log gives: the earliest horizon, the lifetime and its cause, or silence, in that order |
| `ArmRuns.DisarmIsAnnounced` | pancetta-agent/src/arm.rs:703-783 | a step announces a disarm exactly when it removes the arm, and then once |
| `ArmRuns.EveryArmEndsOnce` | pancetta-agent/src/arm.rs:547-783 | in every run the disarms announced are the arms started less the one still stored |
| `ArmRuns.ChannelsDoNotInterfere` | pancetta-agent/src/arm.rs:721-741 | runs that differ only in WSJT-X consent hold the same arm and give the same station-agent answer |
| `ArmRuns.WsjtxAloneNeverArms` | pancetta-agent/src/arm.rs:556-567 | without station-agent consent no arm is ever stored |
| `ArmAuthority.TokenAcceptedExactlyWhen` | pancetta-agent/src/capability.rs:308-472 | a token verifies if and only if it is well formed, signed by a pinned key, for this agent, in its times, and complete |
| `ArmAuthority.GrantMintedExactlyWhen` | pancetta-agent/src/capability.rs:500-688 | a grant uses up its jti if and only if it is admissible, and is minted if and only if its callsign also matches; any other call leaves the replay set as it was |
| `ArmAuthority.TokenRefusalIsTrue` | pancetta-agent/src/capability.rs:308-472 | a token is refused only for a fault it has, and the refusal names that fault |
| `ArmAuthority.GrantRefusalIsTrue` | pancetta-agent/src/capability.rs:500-688 | a grant is refused only for a fault it has, and the refusal names that fault |
| `ArmAuthority.ReplayReportedExactlyWhen` | pancetta-agent/src/capability.rs:659-668 | a replay is reported exactly when nothing but the used jti stands against the grant |
| `ArmAuthority.VerifiedCarriesClaims` | pancetta-agent/src/capability.rs:430-472 | scopes in order, client key, jti, horizons and callsign of a verified token are its claims' own |
| `ArmAuthority.MintedGrantIsSigned` | pancetta-agent/src/capability.rs:606-687 | window, cadence, callsign, jti and key of a minted grant are the signed request's fields, its horizons the token's expiry, and the token lists the TX scope |
| `Capability.ArmDesk.Mint` | pancetta-agent/src/capability.rs:500-688 | the field-by-field method mints the grant of `MintedGrantIsSigned`, exactly when `GrantMintedExactlyWhen` says, and leaves that replay set |
| `ArmAuthority.MintedGrantIsBounded` | pancetta-agent/src/capability.rs:606-687 | a minted grant has TX scope, at most an hour, equal token horizons within 24 h of issue, a 5 to 15 s cadence, a listed client and an unused jti |
| `ArmAuthority.PermitStaysWithinAuthority` | pancetta-agent/src/arm.rs:569-606 | a permit implies that less time has passed on both elapsed clocks than was left at verification until the signed window or the token's expiry, at most an hour, and that the wall clock is before both |
| `ArmAuthority.EnablementBlamedExactlyWhen` | pancetta-agent/src/arm.rs:216-224 | an accepted arm can never expire by enablement if and only if its capability ties or precedes it or the arm window ends earlier |
| `ArmAuthority.EnablementExpiryUnreachable` | pancetta-agent/src/capability.rs:407-428 | in runs of minted grants no denial or disarm ever names the enablement horizon |
| `ArmAuthority.MintedIsUnseen` | pancetta-agent/src/capability.rs:659-668 | a jti minted at any later call was not in the replay set |
| `ArmAuthority.EachJtiMintsOnce` | pancetta-agent/src/capability.rs:659-668 | over any calls sharing one replay set, each with its own client key, no jti is minted twice |
| `MultiSession.MultiPeerSession.TransmitFrame` | pancetta-agent/src/multi_session.rs:209-218 | a latched session refuses without the socket; a transport error sets the latch |
| `MultiSession.MultiPeerSession.Bootstrap` | pancetta-agent/src/multi_session.rs:345-380 | the step whose runs establish only proven, listed peers (`FreshSessionAdmitted`); nothing is stored unless every check and the reply succeed |
| `MultiSession.MultiPeerSession.Demux` | pancetta-agent/src/multi_session.rs:268-340 | the step of `EveryStreamIsRead`, `AdmissionAnswersRight` and `DemuxRefinesIndependent` |
| `MultiSession.MultiPeerSession.PollNext` | pancetta-agent/src/multi_session.rs:234-264 | the step of every script; a latched session does not read the socket |
| `MultiSession.MultiPeerSession.SendPlaintext` | pancetta-agent/src/multi_session.rs:385-410 | the step whose nonces obey `NonceLaw`; a send error keeps the peer |
| `MultiSession.MultiPeerSession.EncryptPhase` | pancetta-agent/src/multi_session.rs:428-450 | the first loop queues one frame for each selected peer or marks it failed, as `EncryptAllExact` states |
| `MultiSession.MultiPeerSession.SendPhase` | pancetta-agent/src/multi_session.rs:451-459 | the second loop fails exactly the peers whose frame was not accepted, as `SendAllExact` states |
| `MultiSession.MultiPeerSession.BroadcastTo` | pancetta-agent/src/multi_session.rs:419-465 | both loops together end where `FanOutIsExact` describes, for every walking order |
| `MultiSession.MultiPeerSession.ReplaceAdmission` | pancetta-agent/src/multi_session.rs:482-495 | the eviction of `ReplaceEvictsExactly`, with exactly the evicted ids as result, sorted |
| `MultiSessionRuns.FreshSessionAdmitted` | pancetta-agent/src/multi_session.rs:142-158 | in every run established peers are on the allow-list, at most eight, each keyed by the id its proof yields for its authenticated static key |
| `MultiSessionRuns.StepKeepsAdmitted` | pancetta-agent/src/multi_session.rs:234-495 | every operation keeps that |
| `MultiSessionRuns.EnvIsIsolated` | pancetta-agent/src/multi_session.rs:268-340 | a frame from one peer leaves every other peer's transport unchanged |
| `MultiSessionRuns.LatchIsFinal` | pancetta-agent/src/multi_session.rs:204-218 | after a transport error the latch never clears and nothing is read, sent or encrypted |
| `MultiSessionRuns.LatchIsExact` | pancetta-agent/src/multi_session.rs:209-224 | in every run the latch is set if and only if some send met a transport error |
| `MultiSessionRuns.NonceLaw` | pancetta-agent/src/multi_session.rs:385-465 | before the latch each peer's send nonce is its accepted frames plus those refused for another reason, so the accepted ones alone if and only if none was refused so |
| `MultiSessionRuns.RoomForListed` | pancetta-agent/src/multi_session.rs:303-318 | with at most eight listed ids a listed peer always has room |
| `MultiSessionRuns.DemuxRefinesIndependent` | pancetta-agent/src/multi_session.rs:234-380 | in any interleaved script the outcomes for a peer are those of a session sent only its frames, and capacity is never the refusal |
| `MultiSessionRuns.FreshSessionsIndependent` | pancetta-agent/src/multi_session.rs:161-172 | the same from a new session |
| `MultiSessionCipher.EveryStreamIsRead` | pancetta-agent/src/multi_session.rs:278-302 | whatever other peers send and whatever is sent meanwhile, the answers to a peer's frames while it stays established are its own stream decrypted on from its position, ending at the first frame that fails there |
| `MultiSessionCipher.EstablishedStreamIsRead` | pancetta-agent/src/multi_session.rs:268-380 | from its establishment on a peer's first frame is decrypted at position 0 of its handshake's transport, the next at 1, and so on |
| `MultiSessionCipher.EveryFrameIsInPosition` | pancetta-agent/src/multi_session.rs:385-465 | in every run the frames sent to an established peer are its plaintexts, in order, encrypted under its own handshake at positions 0, 1, 2; none of another peer's reaches it |
| `MultiSessionCipher.SendAnswersRight` | pancetta-agent/src/multi_session.rs:385-407 | a send succeeds exactly when the socket accepted its frame, each error names its cause, and no peer is dropped for a failed send |
| `MultiSessionCipher.AdmissionAnswersRight` | pancetta-agent/src/multi_session.rs:303-380 | an unknown peer is refused unlisted, refused as the ninth, or established exactly when its proven handshake was answered; nothing is sent before the proof and a refusal leaves no peer |
| `MultiSessionCipher.RefusalNamesProof` | pancetta-agent/src/multi_session.rs:345-365 | a refusal for the proof says whether it was missing, bad or for another id |
| `MultiSessionCipher.PresenceAnswersRight` | pancetta-agent/src/multi_session.rs:246-252 | a presence notice removes exactly the established peer it reports down |
| `MultiSessionCipher.OtherPollsAnswerRight` | pancetta-agent/src/multi_session.rs:234-264 | every other frame or socket event gets its own answer and touches no peer |
| `MultiSessionDelivery.FanOutIsExact` | pancetta-agent/src/multi_session.rs:419-465 | in any walking order, unselected peers are untouched; a selected peer stays, one nonce further, if and only if the socket accepted its one frame; the result counts the accepted frames |
| `MultiSessionDelivery.EncryptAllExact` | pancetta-agent/src/multi_session.rs:428-450 | the first phase queues one frame for each selected peer or marks it failed, and leaves the others alone |
| `MultiSessionDelivery.SendAllExact` | pancetta-agent/src/multi_session.rs:451-459 | the second phase fails exactly the queued peers whose frame was not accepted and counts the rest |
| `MultiSessionDelivery.ReplaceEvictsExactly` | pancetta-agent/src/multi_session.rs:482-495 | exactly the established peers still listed stay, with their transport unchanged |
| `MultiSessionDelivery.EvictedNeedsHandshake` | pancetta-agent/src/multi_session.rs:477-495 | an evicted peer is back, after any operations, only by a new handshake under a list that contains it again |
| `MultiSession.LessExactlyWhen` | pancetta-agent/src/multi_session.rs:492-492 | the order of ids: after their longest common beginning the first ends or has the smaller character |
| `MultiSession.InOrder` | pancetta-agent/src/multi_session.rs:492-492 | the ids sorted: each before the next, and exactly those given |
| `MultiSessionDelivery.RecvNonceLaw` | pancetta-agent/src/multi_session.rs:268-302 | in every script a peer's receive nonce is the number of plaintexts delivered from it since its establishment |
| `LinearResampler.Converter.New` | pancetta-audio/src/converter.rs:39-59 | which parameters are refused, and the empty history of a new converter |
| `LinearResampler.Converter.Process` | pancetta-audio/src/converter.rs:62-126 | a batch is refused exactly when it is not whole frames; otherwise the nested loops emit exactly the closed form's next frames, whose samples are those of `LineStaysLine` and `EqualRatesPassThrough` |
| `LinearResampler.Converter.Reset` | pancetta-audio/src/converter.rs:141-145 | a reset converter is a new one: no history, nothing buffered, position and previous samples zero |
| `ResamplerSamples.EqualRatesPassThrough` | pancetta-audio/src/converter.rs:62-126 | with equal rates a new converter's output is its input without the last frame |
| `ResamplerSamples.LineStaysLine` | pancetta-audio/src/converter.rs:79-103 | if an input channel carries a straight line, output frame k carries its value at k times source over target |
| `ResamplerSamples.SamplesLieBetween` | pancetta-audio/src/converter.rs:79-103 | every output sample lies between the two input samples around its position |
| `ResamplerSamples.OutputLengthIsReached` | pancetta-audio/src/converter.rs:129-133 | the announced length is reached by a batch that follows one frame, so it is the least bound |
| `LinearResampler.ReadsArrivedFrames` | pancetta-audio/src/converter.rs:79-107 | output frame k is emitted if and only if both input frames it reads have arrived |
| `LinearResampler.ChunksJoin` | pancetta-audio/src/converter.rs:62-126 | two batches emit what the joined batch emits |
| `LinearResampler.ChunkLength` | pancetta-audio/src/converter.rs:129-133 | one call emits whole frames, their exact number, at most the announced output length |
| `Fingerprint.WordsFromBytes` | pancetta-agent/src/fingerprint.rs:79-98 | the shift-and-mask loop gives the words of the bitstream's 5-bit digits |
| `Fingerprint.WindowIsField` | pancetta-agent/src/fingerprint.rs:84-94 | the two-byte window's shift and mask is the 5-bit field of the zero-extended big-endian numeral |
| `Fingerprint.FieldsReassemble` | pancetta-agent/src/fingerprint.rs:79-98 | the fields put back together are the first bits of the stream |
| `Fingerprint.FewerWordsArePrefix` | pancetta-agent/src/fingerprint.rs:79-98 | fewer words are a prefix of more words |
| `Fingerprint.WordsSeparateKeys` | pancetta-agent/src/fingerprint.rs:79-98 | words tell all inputs of a length apart if and only if 5 times the count covers 8 times the length |

## Left out

- Token parsing (splitting, base64, JSON) and signatures: a token or grant arrives as decoded claims, and a signature is a
  given predicate over them, evaluated where the program checks it.
- Noise, X25519 and SHA-256: the handshake, the identity proof and the per-peer cipher are given functions of the message,
  the ephemeral and the nonce.
- Floating point rounding: samples and interpolation weights are exact reals, and the resampler's position an exact fraction.
- Weak memory orders: the ring's steps are sequentially consistent. Its dropped, processed and callback counters, the
  resampling inside the queueing call and a missing output producer are not modelled.
- OutputChannel.AudioComm.QueueOutputMarked: runs with no callback in between, so a flush it asks for times out; the waiting
  loop that meets a callback is in the interleaved model (`OutputRing`), as are aliasing and order between the threads.
- Serialization failures of a frame or an event, which the program's types rule out.
- Audit text carried by arm effects: structured here, not rendered.
- Audit writer lock contention and poisoning, tracing, and the spacing of repeated error reports
  (pancetta-agent/src/audit.rs:659-674); a maintenance call that finds the writer busy is one that is not in the run.
- The file system: storage steps are atomic and either fail without effect or succeed, except a write, which may leave any
  proper part of its record. Non-regular files, external writers and crashes between steps are not modelled. Reading the
  tail for repair is one step that may fail, rather than one per chunk.
- File lengths beyond 64 bits, and the saturating sum of length and record size at that limit.
- AuditAccounting.CutsAreConserved: equality of cut and reported bytes is stated below 2^64 bytes per file; past that the
  program's notice saturates without a flag, and only the inequality is kept.
- LinearResampler.Converter.New: sample rates and channel counts are unbounded naturals.
- The sinc resampler (pancetta-audio/src/converter.rs:243-299): it trims its history to 32 frames before a loop that runs only
  with 33, so it never emits a sample and has no streaming behaviour to state.
- Device enumeration and stream creation: they only drive the audio hardware and hold no protocol state.
- Latency tracking: a rolling mean over the last measurements, for display.
- Configuration: independent range checks and merges of single fields.
- Pairing and key storage: the agent's keys enter the model as the given pinned keys, key ids and identity proofs.
- The relay connection and its authentication exchange: the socket is a given sequence of received frames and send results.
- The single-peer session: a reference implementation that the multi-peer session replaced.
