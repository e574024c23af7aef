# A verified model of the message broker

The broker is one process: producers `SEND` to queues or `PUBLISH` to topics, consumers take messages and `ACK` or
`NACK` them, background sweeps put back what timed out, and every message is appended to a segmented log that a
restart reads again. This project models that behaviour in Dafny and proves what holds over every run.

**The durable log.** `BigEndian` and `Codec` are the record format, with strings as their UTF-8 bytes. `StoreModel`
is the store as a value: files, segment list, index, rolling, reading, and the two recovery paths. `Recovery` proves
what a scan finds in any bytes and in a log cut anywhere; `StoreRuns` proves what holds after any run of appends and
restarts; `TornTails` what appending behind a torn tail does. `Formats` spells out records, names and ids byte by
byte, and what the store answers in each case. `Persistence` holds the classes that change files and index in place,
each method proved equal to its `StoreModel` operation.

**The message lifecycle.** `Lifecycle` is the broker as a value: one function per command or sweep, each one atomic
step, with a trace of what happened. `LifecycleInvariant`, `LifecycleActions` and `LifecycleRuns` establish one
invariant across registry, queues, dead-letter store and trace; `LifecycleTheorems`, `Requeueing`, `DeadLetters` and
`Topics` draw the results from it. `Outcomes` says of each command and sweep, field by field, what
it answers, what it changes and what it leaves. `TtlRuns`, `Finality` and `LifecycleStranding` are about runs with
TTL sweeps among the commands: what stays in one place, what is final, and what is lost. `Witnesses` holds short
runs that reach the states in which messages are lost, come back, or expire in a queue. `Managers` and `Server` hold
the mutable classes (messages, queue manager, ACK manager, router, server); every method is proved to take the whole
broker where the `Lifecycle` function takes it and to answer the same, so the results about runs are results about
these methods.

**Both together.** `Restarting` joins them: SEND and PUBLISH append what they register, and a new process registers
what the log kept. `Utf8Text` carries strings to the bytes of the log and back.

**The smaller parts.** `MessageIds` and `Order` (ids, decimal digits, string order, sorting), `Groups` (round-robin
selection), `Framing` (line buffering), `Text` and `Protocol` (command parsing).

A message that is PENDING but in no queue is called *unplaced*. It arises when a send is refused after registration,
when a message is published or restored, or when a requeue does not get the message into a queue. The last kind loses
it to consumers: no command touches it any more, and only a TTL sweep that finds it expired moves it, to the dead-letter
store, from where REPLAY can bring it back. It happens when the message's queue is gone or full; and a timeout sweep
ends at the first message that is refused, so it also drops all behind that one, whatever queue they aim at. (A body a
queue refuses counts as well, but can be met there only after a TTL sweep has buried a message that SEND had refused.)

Where the code and its documents differ, the model follows the code:

- The design document on persistence promises that a crash is followed by a scan of the whole log; the code trusts
  any non-empty index file, so an index older than the log hides the rest (`StoreRuns.StaleIndexHides`,
  `StoreRuns.StaleIndexLosesOne`).
- It also promises that an incomplete last record is discarded; the code leaves its bytes in the file and appends behind
  them, so a later scan can recover a record that nobody wrote (`TornTails.PhantomIsRecovered`).
- An acknowledgement is documented as final; the acknowledgement of a message that expired in its queue is not
  (`Finality.AckedIsFinalIff`, `Witnesses.AckCanBeUndone`).
- A SEND whose append fails is answered with an error, but its message stays in the queue
  (`Restarting.FailedAppendStaysQueued`).
- `recover` is documented to return the unacknowledged messages; it returns all, so acknowledged and dead messages are
  PENDING again after a restart (`Restarting.RestartRestores`).
- `ACK` answers OK for a message that is not out for delivery at all (`LifecycleTheorems.AckOkMeans` spells out the
  cases).
- The acknowledgement document promises redelivery after a timeout; a message whose requeue is refused is stranded instead
  (`LifecycleStranding.SweepStrands`, `Witnesses.SweepLosesBehindFullQueue`).
- The TTL sweep leaves an expired id in its queue (`DeadLetters.TtlSweepKeepsOnePlace`), and a TTL of -1 falls back
  to the default instead of meaning "never" (`DeadLetters.NeverExpires`).
- The queue name pattern ends in `$`, which also accepts one trailing newline.
- `MessageStatus` is used in `src/server.py` without being imported, and `check_timeouts` takes its lock twice; the
  model follows the evident intent in both places.

## Model

| member | source | states |
|---|---|---|
| BigEndian.SignedRoundTrip | src/persistence.py:44-74 | a signed field in range comes back from its two's-complement bytes |
| BigEndian.SignedRoundTripBack | src/persistence.py:77-123 | any field bytes are the encoding of the in-range number read from them |
| Codec.DeserializeExact | src/persistence.py:77-123 | `deserialize` yields a record exactly when that record's packed fields stand behind a four-byte header; header value and trailing bytes play no part |
| Codec.RoundTrip | src/persistence.py:44-74 | all six durable fields of any packable message survive, whatever bytes follow |
| Codec.RoundTripBack | src/persistence.py:77-123 | raw bytes that decode, with a header equal to the field lengths and no spare byte, serialize back to themselves |
| Codec.DecodeMonotone | src/persistence.py:77-123 | what decodes decodes to the same record when more bytes follow, and took at least 28 bytes |
| Codec.PartialNeverDecodes | src/persistence.py:77-123 | no proper prefix of a record decodes |
| Codec.PrefixFree | src/persistence.py:44-74 | no record is a proper prefix of another, and equal bytes mean equal records |
| Codec.LogSplitsUniquely | src/persistence.py:44-74 | a log of concatenated records splits into records in one way only |
| Formats.SerializeExact | src/persistence.py:44-74 | the bytes of a record field by field, with the two's complement written out; text without an encoding is refused first, then fields that do not fit |
| Formats.FitsExact | src/persistence.py:63-73 | which records fit: the widths of `struct` as numbers |
| Formats.FourBytes | src/persistence.py:63-73 | a four-byte integer has its most significant byte first |
| Formats.EightBytes | src/persistence.py:63-73 | so has an eight-byte one |
| Formats.DeserializeFails | src/persistence.py:77-123 | of the ways to fail, undecodable text is the one reported exactly when everything before it is there and decodes, and it is there itself |
| Formats.ReadExact | src/persistence.py:393-409 | which bytes of which file are parsed, and which of the failures escape |
| Recovery.ScanReads | src/persistence.py:438-467 | on arbitrary bytes each record the scan accepts takes at least 28 bytes and reads back from the offset indexed for it |
| Recovery.RecoverArbitraryBytes | src/persistence.py:415-472 | on arbitrary segment contents a recovery without index succeeds, and `read` then gives for every id the last recovered message with that id |
| Recovery.ScanTorn | src/persistence.py:443-467 | a torn record yields nothing and ends the scan of its segment |
| Recovery.CountWholeIsWholeBefore | src/persistence.py:438-467 | the number of records kept by a cut is the only one whose records end at or before the cut and whose next record does not |
| Recovery.ScanCut | src/persistence.py:438-467 | the scan of a segment cut at any byte finds exactly the records wholly before the cut, each at its own offset |
| Recovery.PlacedFromAt | src/persistence.py:458-462 | the offset of each record is the total length of those before it |
| Recovery.ScanCutFiles | src/persistence.py:438-467 | over several segments, each with its own cut, the scan finds the whole records of each, in order: a torn tail never hides a later segment |
| Formats.SegmentNameReads | src/persistence.py:193-194 | a segment name is "mq-", the number zero-padded to four digits, ".log" |
| Formats.SegmentFilesMatch | src/persistence.py:207-211 | the files taken for segments are those the glob pattern matches |
| Formats.OpenExact | src/persistence.py:207-224 | the state after start-up on any directory: all matching files in order and the last resumed at its length, or one new segment |
| Formats.AppendAnswers | src/persistence.py:319-350 | the answer of `append`, error by error in the order they are found, with the limit of a hundred segments, else the offset |
| Formats.EntriesExact | src/persistence.py:425-433 | recovery by the index returns, in index order and each once, the records of exactly the entries that can be read; it fails exactly when undecodable text stands behind one |
| Formats.RecoverExact | src/persistence.py:415-472 | which index recovery starts from for each state of the index file, and that the log is scanned and indexed exactly when that has no entry |
| Dicts.PutExact | src/persistence.py:239-241 | an index entry that is overwritten keeps its place in the order |
| StoreRuns.ListingIsCreationOrder | src/persistence.py:207-224 | the sorted directory listing of segment files is their creation order |
| StoreRuns.AppendHolds | src/persistence.py:319-350 | an append succeeds exactly for a packable message with disk space and a free segment if one is needed; then it adds that record at the returned offset of the log's end, else nothing |
| StoreRuns.RestartHolds | src/persistence.py:499-509 | a clean close and restart always succeeds and leaves files, index and active segment as they were |
| StoreRuns.RunExtends | src/persistence.py:319-350 | from any held log, appends and clean restarts add exactly the accepted records behind it and move no earlier record |
| StoreRuns.RunHolds | src/persistence.py:319-350 | after any run of appends and clean restarts from an empty directory the files hold exactly the accepted records, in order |
| StoreRuns.IndexRefinesMap | src/persistence.py:367-391 | after any run, across rolls and restarts, `read(id)` is the last message accepted under that id, or None if there is none |
| StoreRuns.RecoveryPathsAgree | src/persistence.py:415-472 | the index path and the full scan return the same messages in the same order if and only if no id repeats in the log; the scan always returns the whole log |
| StoreRuns.PathsAgreeAfterRuns | src/persistence.py:415-472 | the same after any run and a clean close, in terms of the accepted appends |
| StoreRuns.RollingBounds | src/persistence.py:183-205 | after any run segments are 1, 2, ... up to 100; earlier ones hold at least the size limit, each without its last record is below it; the active size is the active file's length |
| StoreRuns.CutRecovery | src/persistence.py:415-472 | a held log cut anywhere and left without a usable index: recovery returns exactly the records wholly before the cuts, indexes each at its offset, and `read` finds each |
| StoreRuns.EveryCutKeeps | src/persistence.py:438-467 | any directory of prefixes of the files is such a cut: each file keeps the whole records its length leaves |
| StoreRuns.CrashRecovery | src/persistence.py:415-472 | after any run and any crash that leaves a prefix of each file and no usable index, recovery returns exactly the accepted records that lie wholly in those prefixes, in order, and `read` finds each |
| StoreRuns.StaleIndexHides | src/persistence.py:425-433 | with an index saved after the first n records (n > 0) recovery is complete if and only if nothing was appended since and no id repeats; with distinct ids it returns just those n |
| StoreRuns.CrashAfterRestart | src/persistence.py:425-433 | after a clean restart, any appends and a crash with all files whole, recovery is complete if and only if the restart found an empty log, or no append was accepted since and no id repeats |
| StoreRuns.StaleIndexLosesOne | src/persistence.py:425-433 | the failing run: one append, a clean restart, one append, a crash with all files whole; the second record is not recovered |
| TornTails.AppendsBehindTear | src/persistence.py:319-350 | after any run, any crash without usable index, recovery and any appends behind the torn tails, `read` finds the last of the surviving and appended records under each id; after a clean close the index path recovers them all exactly when no id repeats |
| TornTails.TearMakesPhantom | src/persistence.py:44-74 | a record torn behind its head and the record appended behind it can together be byte for byte a third record |
| TornTails.PhantomIsRecovered | src/persistence.py:438-467 | the failing run: a write torn by a crash, recovery, two appends, a crash without index; the scan recovers a record nobody wrote in place of the first append, and the second append |
| Persistence.SegmentManager.ScanExistingSegments | src/persistence.py:207-224 | start-up lists the segment files in name order and resumes the last, or rolls the first |
| Persistence.SegmentManager.RollSegment | src/persistence.py:183-205 | a roll creates the next numbered, empty, active segment or refuses at the limit and changes nothing |
| Persistence.SegmentManager.GetActiveSegment | src/persistence.py:150-155 | rolls exactly when the active segment has reached the limit |
| Persistence.IndexManager.Recover | src/persistence.py:261-276 | a saved file replaces the index, in saved order; a damaged one empties it; a missing one leaves it as it was |
| Persistence.PersistenceLayer.Append | src/persistence.py:319-350 | takes files, sizes and index to the modelled append's state, with its offset or error |
| Persistence.PersistenceLayer.ReadLocation | src/persistence.py:393-409 | the record at one location; None for a missing file, short data or a bad layout, an escaping error for undecodable text |
| Persistence.PersistenceLayer.Read | src/persistence.py:367-391 | reads through the index, None for an unindexed id |
| Persistence.PersistenceLayer.Recover | src/persistence.py:415-472 | index and returned messages are those of the modelled recovery, on both paths |
| Persistence.PersistenceLayer.RecoverFromIndex | src/persistence.py:425-433 | the loop over index entries returns their records in index order, skipping unreadable ones |
| Persistence.PersistenceLayer.RebuildFromLog | src/persistence.py:435-470 | the loop over segments returns all scanned records and indexes each, later ones winning |
| Persistence.PersistenceLayer.RebuildFromSegment | src/persistence.py:443-467 | the inner loop scans one segment to its first undecodable record |
| Persistence.PersistenceLayer.Close | src/persistence.py:499-509 | the index file holds the index, files unchanged |
| Formats.MakeIdReads | src/models.py:39-46 | an id is "M", the milliseconds in decimal, and the counter zero-padded to six digits |
| MessageIds.IdInjective | src/models.py:39-46 | for 13-digit clocks, two ids are equal exactly when clock and counter are: distinct counters never collide, even with a backwards clock |
| MessageIds.CreationOrder | src/models.py:39-46 | with counters up to 999999 and a clock that does not go back, string order is creation order |
| MessageIds.NextIdSortsAfter | src/models.py:39-46 | for any counter, the next id sorts after this one if and only if the clock moved or the counter did not gain a digit beyond the sixth |
| MessageIds.SameWidthOrder | src/models.py:39-46 | within one millisecond ids of any counters sort in creation order as long as no counter in between gained a digit |
| MessageIds.NewWidthSortsFirst | src/models.py:39-46 | the failing family: at counter 10^w, w >= 6, in the same millisecond the new id sorts first |
| MessageIds.IdGenerator.GenerateId | src/models.py:39-46 | bumps the shared counter by one and formats clock and counter |
| Outcomes.CreateQueueOutcome | src/queue_manager.py:76-97 | reply and state of CREATE_QUEUE: invalid name, existing name, or an empty queue with the asked capacity if positive, else the default |
| Outcomes.NamesMatch | src/queue_manager.py:177-184 | a valid name is 1 to 256 of the listed letters, digits, "_" and "-", and at most one newline behind them |
| Outcomes.DeleteQueueOutcome | src/queue_manager.py:99-114 | reply and state of DELETE_QUEUE: missing, not empty, or gone |
| Outcomes.BodyOutcome | src/queue_manager.py:186-193 | a body is refused when empty, or when its UTF-8 encoding is longer than the limit |
| Outcomes.SendExact | src/server.py:345-361 | the reply of SEND in each case, in the code's order, the new record field by field, registry and queue |
| Outcomes.PublishExact | src/message_router.py:37-46 | reply of PUBLISH, the new record field by field, and that the body is not checked |
| Outcomes.RestoreExact | src/message_router.py:219-226 | a recovered message joins the registry, PENDING unless acknowledged, unless its id is known |
| Outcomes.RecoveredExact | src/server.py:76-81 | the record start-up registers, field by field |
| Outcomes.ConsumeExact | src/message_router.py:72-112 | CONSUME hands out the first registered id with its own body, takes exactly the entries up to it from the queue, and changes that record alone: out to this consumer since now; otherwise null and an empty queue, or an unknown queue |
| Outcomes.ConsumedBodyWasSent | src/server.py:364-383 | after any run, what CONSUME hands out is the body given to SEND, PUBLISH or restored under that id |
| Outcomes.AckExact | src/server.py:412-423 | reply and state of ACK in terms of status and holder |
| Outcomes.AckBatchExact | src/server.py:439-453 | ACK_BATCH over any list: a message is ACKED afterwards exactly when it was, or is listed and was out to the consumer; nothing else changes; the reply is OK or the ids that failed |
| Outcomes.UnackableExact | src/server.py:439-453 | the failed ids are those unregistered, or neither acknowledged nor out to the consumer, each as often as listed |
| Outcomes.NackExact | src/server.py:425-437 | reply and state of NACK in each case: not the holder, a retry that is queued, refused or has no queue, or the dead-letter store once retries are used up |
| Outcomes.SweepExact | src/ack_manager.py:91-118 | the timeout sweep counts a failed delivery for exactly the messages that are out, with a delivery time, for longer than their own timeout or else the default; every other record is unchanged |
| Outcomes.ConsumedThenSwept | src/ack_manager.py:91-118 | a message taken at time t is failed by a sweep if and only if more than its timeout has passed since t |
| Outcomes.TtlSweepExact | src/ack_manager.py:124-144 | the TTL sweep makes a record dead, with its target remembered, exactly when it is PENDING or DELIVERED and older than its TTL, its own or else the default, if that is not negative; every other record and all queues are unchanged |
| Outcomes.SentThenExpired | src/ack_manager.py:124-144 | a message just sent is buried by a TTL sweep if and only if the default TTL is not negative and more than that has passed since |
| Outcomes.HandBackExact | src/server.py:230-240 | hand-back releases exactly the messages out to the consumer up to the first refused one; every other record is unchanged |
| Outcomes.ReplayExact | src/server.py:510-518 | reply and state of REPLAY: unknown id, queued, refused, or no queue |
| Outcomes.FetchExact | src/message_router.py:114-151 | topic consumption returns the body of the message at the offset in id order and moves the offset by one, or does nothing |
| Outcomes.SetOffsetExact | src/message_router.py:179-188 | a negative offset is refused, any other stored under topic, colon and consumer |
| LifecycleRuns.StepGood | src/server.py:329-527 | every command and sweep keeps the invariant over registry, queues, dead letters and trace, forgets no message, changes no home or body, and leaves acknowledged and unplaced messages alone |
| LifecycleTheorems.ReachableInv | src/server.py:329-527 | the invariant holds in every state any run reaches |
| LifecycleTheorems.LegalIffNoReissue | src/message_router.py:200-212 | for 13-digit clocks that may run backwards, no run issues an id already registered if and only if no new message gets the clock and number of one restored before it |
| LifecycleTheorems.NextIdInUse | src/message_router.py:200-212 | in any reachable state the next id is in use exactly when it is the id of a restored message |
| LifecycleTheorems.ClockedRunIsLegal | src/message_router.py:200-212 | in particular no id collides when every new clock is past those of the restored ids |
| LifecycleTheorems.ExactlyOnePlace | src/message_router.py:48-112 | in every reachable state each message is exactly one of: in its own target's queue, out for delivery, acknowledged, dead, unplaced; dead-letter keys are exactly the messages with status DLQ |
| LifecycleTheorems.NoIdTwice | src/queue_manager.py:130-162 | no id occurs twice in all queues together, and every queued id is registered |
| LifecycleTheorems.AckedIsFinal | src/ack_manager.py:39-59 | in runs without TTL sweeps, once acknowledged a message's record never changes again; it is never queued, buried or delivered again |
| LifecycleTheorems.UnplacedStays | src/message_router.py:219-226 | in runs without TTL sweeps nothing touches an unplaced message |
| LifecycleTheorems.DeliveryAccounting | src/ack_manager.py:75-85 | deliveries = (max_retries+1) per replay + retry count + hand-backs + 1 if acknowledged or out; with neither replay nor hand-back at most max_retries+1 |
| LifecycleTheorems.HomeAndRetries | src/ack_manager.py:150-182 | a message belongs to the target it was registered with for good; its retry count is at most max_retries outside the dead-letter store and max_retries+1 inside |
| LifecycleTheorems.QueueOrderAndCapacity | src/queue_manager.py:130-162 | per queue lifetime, ids dequeued followed by ids still queued are the ids enqueued, in order; capacity is never exceeded |
| LifecycleRecords.SendOutcome | src/message_router.py:48-66 | the whole outcome of SEND in each case: refused body or missing queue leaves the message registered, a full queue withdraws it, otherwise it joins the tail |
| Requeueing.RequeueEachOutcome | src/server.py:523-526 | a loop of requeues over any mix of queues: the messages before the first refusal join theirs in order, the refused one and all behind it join none |
| Requeueing.QueuedAfterJoin | src/server.py:523-526 | so afterwards queued are those queued before and those that came through and whose queue exists |
| Requeueing.CheckTimeoutsExact | src/ack_manager.py:91-118 | the timeout pass fails each overdue message once and lists those with a retry left in registry order |
| Requeueing.HandBackEachOutcome | src/server.py:230-240 | hand-back releases and requeues in registry order; the first refused is released into no queue, and those behind it stay with the lost consumer |
| LifecycleStranding.NackStrands | src/server.py:425-437 | NACK strands a message if and only if its holder sends it with a retry left and its queue is gone, full, or refuses its body |
| LifecycleStranding.SweepStrands | src/server.py:208-218 | the timeout sweep strands exactly the overdue messages with a retry left whose queue is gone, or that stand at or behind the first refusal |
| LifecycleStranding.HandBackStrands | src/server.py:230-240 | hand-back strands exactly the released messages whose queue is gone, and the first refused |
| LifecycleStranding.ReplayStrands | src/server.py:510-518 | REPLAY strands a dead message if and only if its home queue is gone, full, or refuses its body |
| LifecycleStranding.ReplayAllStrands | src/server.py:520-527 | REPLAY_ALL strands exactly those at or behind the first refusal, or all when the queue is gone |
| LifecycleStranding.BodiesFitWithoutTtl | src/message_router.py:48-66 | in runs without TTL sweeps no requeue is refused for its body |
| LifecycleStranding.StepStrands | src/server.py:329-527 | the unplaced messages after any command or ACK-timeout sweep are those before it, those it strands by the state it meets, and the new one if it starts in no queue |
| LifecycleStranding.RunStrands | src/server.py:202-228 | over any run, TTL sweeps that find nothing expired in a queue included, a message is unplaced at the end if and only if at some point it was so from the start, or a step stranded it or started it so, and no TTL sweep since found it expired |
| LifecycleStranding.UnplacedInRun | src/server.py:202-228 | the same from the empty broker |
| LifecycleStranding.NeverStranded | src/server.py:202-228 | a registered message that has a place is without one at the end of a run if and only if some step strands it and no TTL sweep since then finds it expired |
| LifecycleStranding.LapsedComesBack | src/ack_manager.py:124-182 | an expired unplaced message becomes a dead letter at the next TTL sweep, and REPLAY then queues it if and only if its queue has room |
| Finality.StepRests | src/server.py:329-527 | no command or ACK-timeout sweep touches a message that is acknowledged or PENDING, in no queue and not a dead letter, in whatever state the rest of the broker is |
| Finality.RestsUntilLapse | src/ack_manager.py:124-144 | over any run with TTL sweeps such a message stays as it is if and only if no TTL sweep finds its record expired |
| Finality.UnplacedUntilLapse | src/ack_manager.py:124-144 | in particular an unplaced message |
| Finality.TtlSweepUnplaces | src/ack_manager.py:124-144 | the unplaced messages after a TTL sweep are exactly those before it that had not expired |
| Finality.AckedIsFinalIff | src/ack_manager.py:39-59 | in any state, an acknowledged message is final against every run if and only if it is in no queue and not a dead letter |
| Finality.ExpiredHeadAckIsNotFinal | src/ack_manager.py:124-182 | how it fails: a queue head expires, is handed out and acknowledged, and REPLAY makes it PENDING again |
| Finality.AckedIsFinalWithTtl | src/ack_manager.py:39-59 | what is acknowledged after a run whose TTL sweeps found nothing expired in a queue keeps its record through every continuation |
| Witnesses.LostComesBack | src/ack_manager.py:124-182 | nine commands, a TTL sweep and a REPLAY: a message lost by NACK is in its queue again |
| Witnesses.AckCanBeUndone | src/ack_manager.py:124-182 | four commands, a TTL sweep, CONSUME, ACK and REPLAY: an acknowledged message is PENDING again |
| Witnesses.SweepLosesBehindFullQueue | src/server.py:208-218 | a sweep strands a message whose own queue is empty, because another queue ahead of it is full |
| Witnesses.HandBackLoses | src/server.py:230-240 | hand-back strands one message and leaves the next out to the consumer that is gone |
| Witnesses.NackLoses | src/server.py:425-437 | NACK into a full queue strands the message |
| Witnesses.ReplayLoses | src/server.py:510-518 | REPLAY into a full queue takes the message out of the dead-letter store and strands it |
| Witnesses.FullAgainReaches | src/server.py:303-383 | for any 13-digit clock, a run of seven commands reaches the state these start from: two messages out to one consumer, one of their queues full again |
| Witnesses.LossesAreReachable | src/server.py:425-437 | so with a retry allowed, that legal run and one command more ends in a loss, by NACK, by hand-back or by the sweep |
| DeadLetters.ReplayAllExact | src/server.py:520-527 | REPLAY_ALL takes exactly the dead letters whose old target is this one out, each PENDING, home again and with no retries used, and appends them in store order as far as there is room; it reports their number if and only if all fit or the queue is missing |
| DeadLetters.TtlSweepKeepsOnePlace | src/ack_manager.py:124-144 | wherever queues, dead letters and statuses agree, the TTL sweep keeps them so if and only if no queued message has expired |
| TtlRuns.StepKept | src/server.py:329-527 | every command and ACK-timeout sweep keeps each message in one place, with no assumption on how the dead died |
| TtlRuns.OnePlaceIffHarmless | src/server.py:202-228 | over any run with TTL sweeps, messages stay in one place throughout if and only if no TTL sweep finds an expired message in a queue |
| TtlRuns.ExactlyOnePlaceWithTtl | src/server.py:202-228 | in such runs each message is exactly one of queued, out, acknowledged, dead or unplaced |
| DeadLetters.ExpiredHeadIsDeliveredAndDead | src/ack_manager.py:124-144 | the failure: an expired queue head is handed out next while it stays in the dead-letter store |
| Witnesses.ExpiredHeadIsReachable | src/ack_manager.py:124-144 | four commands and a late clock reach that failure |
| DeadLetters.NeverExpires | src/ack_manager.py:133-135 | a message with no positive TTL never expires if and only if the default is negative |
| Topics.OffsetKeyInjective | src/message_router.py:179-194 | distinct (topic, consumer) pairs have distinct offset keys when consumer ids have no colon |
| Topics.TopicIdsArePosts | src/message_router.py:130-140 | the sorted ids that consumption works on are the publish sequence if and only if the ids ascend |
| Topics.StepTopic | src/message_router.py:37-46 | every step keeps the topic's order and adds at most its own new post, at the end |
| Topics.FetchesFollowPosts | src/message_router.py:114-151 | under any interleaving a consumer gets the publish sequence from its offset on, no gap, no repeat; nobody else moves its offset |
| Topics.OrderedClocksRespect | src/message_router.py:138 | they do ascend when the clock does not go back and moves whenever the counter gains a digit beyond the sixth |
| Topics.TopicConsumptionIsPrefix | src/message_router.py:114-151 | from an empty broker, for any number of ids under such a clock, what a consumer has got is a prefix of what was published, and its offset is the length of it |
| Topics.SixDigitRunsMove | src/models.py:39-46 | up to 999999 issued ids that condition on the clock holds by itself |
| Managers.QueueManager.CreateQueue | src/queue_manager.py:76-97 | a valid unused name gets an empty queue with the asked or default capacity; other names are refused unchanged |
| Managers.QueueManager.DeleteQueue | src/queue_manager.py:99-114 | only an existing empty queue goes |
| Managers.QueueManager.Enqueue | src/queue_manager.py:130-148 | the four refusals in the code's order, else the id joins the tail |
| Managers.QueueManager.Dequeue | src/queue_manager.py:150-162 | takes the head of a non-empty queue, else changes nothing |
| Managers.AckManager.Ack | src/ack_manager.py:39-59 | acknowledges the holder's delivered message, accepts an acknowledged one, refuses the rest unchanged |
| Managers.AckManager.Nack | src/ack_manager.py:61-85 | only the holder's delivered message counts a failure, which retries or buries it |
| Managers.AckManager.CheckTimeouts | src/ack_manager.py:91-118 | the loop fails exactly the overdue deliveries and returns those that are PENDING again, in registry order |
| Managers.AckManager.CheckTtl | src/ack_manager.py:124-144 | the loop takes registry and dead letters where the modelled TTL sweep takes them and lists, in registry order, exactly the messages that had expired |
| Managers.AckManager.MoveToDlq | src/ack_manager.py:150-157 | the message remembers its target and is stored once under its id |
| Managers.AckManager.ReplayFromDlq | src/ack_manager.py:168-182 | a stored message leaves the store, home again and with a clean record; an absent id changes nothing |
| Managers.AckManager.ReplayAllFromDlq | src/ack_manager.py:184-196 | the loop revives exactly the dead letters from the target, in store order |
| Server.MessageRouter.RouteToTopic | src/message_router.py:37-46 | registers a published message under a new id, or refuses an unknown topic |
| Server.MessageRouter.RouteToQueue | src/message_router.py:48-66 | registers, enqueues, and on a full queue withdraws, leaving the registry as before |
| Server.MessageRouter.ConsumeFromQueue | src/message_router.py:72-112 | the loop skips unregistered ids, terminates, and delivers the first registered one to the consumer |
| Server.MessageRouter.ConsumeFromTopic | src/message_router.py:114-151 | returns the message at the consumer's offset in sorted order and moves only that offset |
| Server.MessageRouter.SetOffset | src/message_router.py:179-188 | refuses a negative offset, else sets only this consumer's |
| Server.MessageRouter.RestoreMessage | src/message_router.py:219-226 | registers a recovered message as PENDING unless it was acknowledged; a known id is left alone |
| Server.MQServer.CreateQueue | src/server.py:303-312 | whole broker state and reply of CREATE_QUEUE |
| Server.MQServer.DeleteQueue | src/server.py:314-322 | whole broker state and reply of DELETE_QUEUE |
| Server.MQServer.Send | src/server.py:345-361 | whole broker state and reply of SEND |
| Server.MQServer.Publish | src/server.py:329-343 | whole broker state and reply of PUBLISH |
| Server.MQServer.RestoreRecord | src/server.py:76-81 | start-up puts each recovered record into the registry and into no queue |
| Restarting.AppendedExact | src/server.py:329-361 | a message is appended exactly when SEND or PUBLISH is answered with its id, and as it was registered |
| Restarting.StoredExact | src/persistence.py:44-74 | the bytes a message is stored as, with its texts encoded |
| Restarting.ServeAllHolds | src/server.py:329-361 | after any run of commands with their appends, over any number of clean restarts, the log holds exactly the messages whose append was accepted, in order, each still registered under its own id, target and body |
| Restarting.RestartRestores | src/server.py:76-81 | after any such run a clean restart recovers every message ever made durable, in order, and the new registry is exactly those messages as they were sent, all PENDING and unplaced, whatever had become of them |
| Restarting.FailedAppendStaysQueued | src/server.py:345-361 | a SEND whose append fails leaves its message in the queue and nothing in the log |
| Utf8Text.EncodeCharExact | src/persistence.py:51-53 | the bytes of one character are the UTF-8 patterns, with the bits written out |
| Utf8Text.TextRoundTrip | src/persistence.py:44-123 | every string has a well-formed UTF-8 encoding and comes back from it |
| Utf8Text.BytesRoundTrip | src/persistence.py:77-123 | every well-formed byte sequence is the encoding of the string read from it |
| Utf8Text.EncodedLength | src/queue_manager.py:186-193 | the length the body limit is checked against is that of the encoding |
| Server.MQServer.Consume | src/server.py:364-383 | whole broker state and reply of a CONSUME without waiting |
| Server.MQServer.SetOffset | src/server.py:403-409 | whole broker state and reply of SET_OFFSET |
| Server.MQServer.Ack | src/server.py:412-423 | whole broker state and reply of ACK |
| Server.MQServer.Nack | src/server.py:425-437 | whole broker state and reply of NACK, the refused requeue included |
| Server.MQServer.AckBatch | src/server.py:439-453 | the loop acknowledges each id it can and reports the others in order |
| Server.MQServer.Sweep | src/server.py:208-218 | the ACK-timeout part of the checker: sweep, then requeue in order until one is refused |
| Server.MQServer.SweepTtl | src/server.py:220-221 | the TTL part of the checker |
| Server.MQServer.HandBack | src/server.py:230-240 | the loop hands back exactly what the consumer holds, in registry order until one requeue is refused |
| Server.MQServer.Replay | src/server.py:510-518 | whole broker state and reply of REPLAY |
| Server.MQServer.ReplayAll | src/server.py:520-527 | whole broker state and reply of REPLAY_ALL |
| Groups.PicksCount | src/consumer_group.py:139-158 | which members the first so many selections reach, from any stored index: those fewer places ahead than the remainder once more than the rest |
| Groups.RoundRobinFair | src/consumer_group.py:139-158 | any k selections on n members select each floor(k/n) or ceil(k/n) times, from any stored index |
| Groups.EachOnce | src/consumer_group.py:139-158 | any n consecutive selections select each member exactly once |
| Groups.EvictExact | src/consumer_group.py:121-133 | removing a consumer takes it out of every group reached and touches nobody else |
| Groups.GroupsOfAppend | src/consumer_group.py:121-133 | the groups reported for a consumer are in the order of all groups |
| Groups.GroupsOfOne | src/consumer_group.py:121-133 | and a group is reported exactly when the consumer is in it |
| Groups.EvictedNeverPicked | src/consumer_group.py:121-158 | a removed consumer is never selected; the others of its groups stay and still are |
| Groups.ConsumerGroupManager.JoinGroup | src/consumer_group.py:96-107 | adds one member to one existing group, or refuses unchanged |
| Groups.ConsumerGroupManager.LeaveGroup | src/consumer_group.py:109-119 | removes one member from one existing group, or refuses unchanged |
| Groups.ConsumerGroupManager.RemoveConsumerFromAllGroups | src/consumer_group.py:121-133 | the loop evicts the consumer from every group and names those it was in |
| Groups.ConsumerGroupManager.NextConsumer | src/consumer_group.py:139-158 | selects from the sorted members at the stored index and advances it; empty or unknown groups give None |
| Framing.RawLinesExact | src/server.py:154-156 | the lines taken and the buffer left are the text: nothing lost, each line ends at the first line end, none is left over |
| Framing.SplitsUnique | src/server.py:154-156 | those conditions admit one splitting only |
| Framing.DispatchedOne | src/server.py:154-159 | one complete line is dispatched, stripped, unless it is blank |
| Framing.RawLinesAppend | src/server.py:143-159 | splitting a text at once or in two parts through the buffer is the same, wherever it is divided, also between `\r` and `\n` |
| Framing.HandleClient | src/server.py:143-159 | for every division into chunks, the dispatched lines and the buffer left are those of the whole text |
| Protocol.ParseExact | src/protocol.py:79-118 | for a command word and space-free arguments: which words exist with 0, 1 and 2 arguments, that a line is accepted exactly when its word is one of them with as many arguments, and what it then yields; the errors otherwise |
| Protocol.EveryLineDivides | src/protocol.py:90-102 | every non-blank line is, once stripped, such a word and such arguments |
| Text.StripUnique | src/protocol.py:90 | `strip` takes all whitespace from both ends and nothing else, and there is only one such result |
| Text.SpaceCodes | src/protocol.py:90 | which characters are whitespace |
| Text.SplitJoin | src/protocol.py:95 | space-free parts joined by spaces split into those parts again |
| Text.UpperLetters | src/protocol.py:96 | which letters `upper` changes, and to what |
| Protocol.JoinParsed | src/protocol.py:79-118 | name and arguments of an accepted line, joined by spaces, are the stripped line up to the case of the command word |
| Protocol.RenderParse | src/protocol.py:90-118 | a rendered PUBLISH or SEND parses back to the same target and body if and only if the target has no space and the body is non-empty without trailing whitespace |
| Order.LessExact | src/message_router.py:138 | string order: a proper prefix comes first, else the first difference decides |
| Order.SortedUnique | src/message_router.py:138 | a set of ids has only one increasing listing, so `sorted` is determined |
| Order.SortSet | src/consumer_group.py:139-158 | insertion of all elements yields that listing |

## Left out

- Server.MQServer.Send: requires the new id to be unused, which `generate_id` never checks; for 13-digit clocks `LifecycleTheorems.LegalIffNoReissue` says exactly when that holds of a run, and `LifecycleTheorems.ClockedRunIsLegal` that it does once every new clock is past those of the restored ids. Its append to the log is in `Restarting`, on values; the text of the error reply when that append fails is not modelled.
- Server.MQServer.Publish: requires the new id to be unused, for the same reason and with the same proofs; its append likewise.
- Server.MessageRouter.RouteToQueue: requires the new id to be unused; the source would overwrite the older message, which a queue or the dead-letter store may still hold.
- Server.MessageRouter.RouteToTopic: requires the new id to be unused, as RouteToQueue does.
- Server.MQServer.Consume: the waiting form of CONSUME and its argument error are not modelled; it repeats the modelled attempt until its deadline.
- Server.MessageRouter.ConsumeFromQueue: the waiting form is not modelled, as for CONSUME.
- Server.MessageRouter.ConsumeFromTopic: no command of the server reaches it, so it has no handler here.
- Managers.QueueManager.Dequeue: returns the id alone; the body copy beside it is not kept, since nothing reads it.
- LifecycleTheorems.ReachableInv: runs without TTL sweeps, which break its retry and delivery accounts; TtlRuns and Finality have what survives them.
- Restarting.RestartRestores: runs without TTL sweeps; ids are assumed fresh over all lifetimes, which `LifecycleTheorems.LegalIffNoReissue` decides within one.
- StoreRuns.CrashRecovery: one crash after a run without crashes. What a second scan finds behind a torn tail is not described beyond the witness in `TornTails`.
- LifecycleTheorems.ExactlyOnePlace: unplaced means PENDING outside its queue, a defined place rather than a set kept by hand; the LifecycleStranding results say which exits create it.
- Topics.TopicConsumptionIsPrefix: for topics no queue is named after and runs without TTL sweeps and restored messages; `MessageIds.NewWidthSortsFirst` shows what breaks when the clock stands still while the counter gains a digit.
- Protocol.JoinParsed: the command word's case change is modelled for ASCII only.
- Threads and locks: each command and each sweep is one atomic step.
- A restored message enters the registry and no queue, as in the code; its later consumption is not described because there is none.
- `cleanup_segments` and `delete_segment`: the cleanup unpacks pairs from triples and cannot finish on a non-empty index.
- Fsync is taken as done, the disk-space test is a boolean input, and JSON is an order-preserving map with an "unreadable" case.
- Decoding of received bytes to text, chunk by chunk, with replacement characters.
- `src/topic_manager.py`: whether a topic exists is an input. Response formatting and error-code text are not modelled.
- Consumer-group heartbeats and their timeout, the wiring of CONSUME_GROUP, and the consumer registry of the server.
- `src/main.py`, `client.py`, sockets and logging.
