# Elyra: verified model of the stateful cores

Elyra is a host-security engine. It decides on process executions before they happen (fanotify),
watches processes while they run (eBPF, Windows directory changes), correlates what it sees into one
score and one recommended action per process generation, executes that action, moves files into
quarantine and back, and writes every decision to a tamper-evident log.

This project models those cores in Dafny and proves what they promise. Code that changes objects in
place is a class whose methods are proved against functions on values; code that computes is functions;
parsers and scans are loops with invariants. What many calls add up to is proved as lemmas about those
functions: invariants over every run, a fast form that refines a simple one, round trips, conservation. What a
function decides is also said a second time without it: in the numbers of a policy, the fields of a record, the
bytes of a file, or the writer of a format.

`dafny verify dfyconfig.toml` checks everything.

## Modules

| files | what they model |
|---|---|
| `AuditText`, `AuditRecords`, `AuditTamper`, `AuditChain`, `AuditLogger`, `AuditRuns`, `AuditCalls`, `AuditLegacy`, `AuditTraps`, `AuditOverflow` | the hash-chained segmented log: text lines, verifier, tamper evidence, what a chain is, logger instances that share a directory, whole runs with crashes and failures, what the calls said, logs begun by earlier writers, and where the promises stop |
| `QuarantineFs`, `QuarantineSpec`, `Quarantine`, `QuarantineRuns` | a small file system in which every call may fail, the quarantine, restore and delete transactions on it, and the life of an item |
| `Correlation`, `CorrelationTheorems`, `CorrelationEngine`, `CorrelationRuns`, `CorrelationMeaning`, `CorrelationSteps` | one process generation, its closed form and reachability, the table of live states, runs of the engine, and what each event, record and expiry does in the policy's own numbers |
| `ResponseEngine`, `ResponseMeaning` | owned descriptors, bindings, ranks, and the outcome of every response |
| `OrderedMaps`, `Collector`, `CollectorMeaning` | rename suppression, ancestry filter, bounded queue |
| `Entropy` | streaming block entropy |
| `Pe`, `PeImage` | bounded PE header inspection, and the format written out and read back |
| `Ipc`, `IpcCutting` | newline framing of the daemon's socket, and when the way a stream is cut matters |
| `WindowsNotify` | native notification records and rename pairing |
| `Fanotify`, `FanotifyFormat` | event parsing and the record format, the reader's batches and the one-response guarantee |
| `Calibration` | optimal threshold search |

## What the code does not promise

Each of these is a place where the code and its comments, or the code and a natural reading of it,
part ways. Each has a lemma that gives the exact condition or a concrete input.

- With `backup_count` 0, `rotate()` removes the only segment, so the next record restarts the chain at
  genesis: exactly in that case (`AuditTraps.RotateForgets`).
- From index 1000000 on a rotated segment has a name of seven digits and is no longer listed
  (`AuditOverflow.IndexOverflow`, for every directory). A writer gets there (`OverflowReached`). The rotation
  then loses the active segment's records without a trace: the verifier accepts the shorter log and
  the next record reuses a sequence number (`OverflowIsSilent`); each later rotation takes the same
  index again and replaces the hidden segment (`OverflowOverwrites`).
- The tail is read through a window of one mebibyte, and `max_record_bytes` has no upper bound. In any
  directory a run can leave, `record()` can read the tail exactly when the last record fits the window
  (`AuditTraps.TailReadable`). A longer record is accepted and then blocks every instance, rotated or not,
  while the log still verifies (`AuditTraps.LongRecordBlocks`); no step of any instance adds a record again
  (`AuditTraps.BlockedForever`).
- After a failed append the log can go on without reopening exactly when the append wrote nothing or the
  whole line (`AuditTraps.FailedAppendExactly`). Otherwise any instance refuses every record or writes a log
  that no longer verifies (`AuditTraps.FailedAppendNeedsReopen`).
- A rotation that fails or crashes while it prunes leaves more segments than configured. The next one that ends
  removes them all; until then the log verifies and grows as always (`AuditRuns.SharedLog`, `AuditRuns.RotateKeeps`).
- The repair copies the torn fragment with one `os.write`, so the saved artifact may be a proper prefix
  of it; the log itself is repaired either way (`AuditRuns.CrashAtomic`).
- If the directory sync after the payload's unlink fails, deletion reports a safe failure and restores metadata
  for a payload that is gone. A sound item is sound after a delete that ends without an incomplete rollback
  exactly when that sync did not fail (`Quarantine.QuarantineManager.DeletePermanently`). From every sound and
  deletable item a run of calls leads there, and the item can then be neither restored nor deleted
  (`QuarantineRuns.LostDeleteBreaks`, with a concrete store in `QuarantineRuns.LostDeleteExample`).
- The comment at lines 165-167 of `correlation/engine.py` claims that a runtime-only process can reach every
  transition. The check counts the full maxima of two rules of which such a process collects nothing, or one
  child execution at its creation at most. `CorrelationTheorems.QuarantineReachable` gives the exact condition,
  `ValidationIsWeaker` a policy that passes the check and fails the claim.
- The correlation engine ranks a denial above everything, the response engine ranks it below terminate and
  quarantine: the orders disagree on exactly those pairs (`ResponseEngine.RankOrders`). An escalation is
  suppressed as a duplicate exactly when it is a denial after either (`ResponseEngine.EscalationSuppressed`).
- The pruned rename cache answers like an unbounded one on streams in timestamp order (`Collector.SameAnswers`).
  For a late event the answers differ exactly when its fingerprint was last forwarded inside the window before
  the event but outside the window before the last forwarded rename (`Collector.LateAnswers`).
- The socket's answers depend on how a stream was cut exactly when its first line of more than 65536 bytes ends
  less than one receive, 4096 bytes, beyond that limit and something after that line is answered. The decoder and
  the framing refuse such a line with the same message, but only the decoder's refusal leaves the connection
  open, so the number of responses then depends on the cut (`IpcCutting.CuttingMatters`).
- A denial whose write to the kernel raises is recorded as an allow: exactly then the record differs from the
  response attempted (`Fanotify.Controller.HandleEvent`).
- Only an OSError of the read is caught in the reader's loop. A read that raises anything else (as `select` does
  for a descriptor out of its range), a refused submission to the worker pool, a saturated answer whose write
  raises, or an audit or queue error outside the three caught kinds ends the reader's thread:
  the reader is alive if and only if none of these happened (`Fanotify.OneResponseEach`). The rest of the batch is
  then never answered or closed (`Fanotify.RestAbandoned`, `Fanotify.AbandonedExample`), and nothing more is
  read (`Fanotify.DeadReader`).

## Model

| member | source | states |
|---|---|---|
| `AuditText.SplitConcat` | elyra-engine/src/elyra/audit/audit_logger.py:203-217 | text after a line-feed boundary cannot change the lines before it |
| `AuditText.SplitRender` | elyra-engine/src/elyra/audit/audit_logger.py:645-662 | the lines written by appends are the lines read back |
| `AuditText.BreakMeaning` | elyra-engine/src/elyra/audit/audit_logger.py:219 | a line feed, a carriage return or both together end a line, whatever follows |
| `AuditText.SpaceMeaning` | elyra-engine/src/elyra/audit/audit_logger.py:219-221 | which bytes make a line blank |
| `AuditText.TailLineExact` | elyra-engine/src/elyra/audit/audit_logger.py:574-600 | the tail window shows the true last record if and only if that record with its line break fits it |
| `AuditRecords.VerifyDirectory` | elyra-engine/src/elyra/audit/audit_logger.py:169-363 | the loop over segments and lines, with its early returns, reports exactly what the fold over all lines reports; `AuditChain.VerdictMeaning` says what that is |
| `AuditRecords.WalkAccepts` | elyra-engine/src/elyra/audit/audit_logger.py:272-350 | the walk ends without a fault if and only if every line is an object and every record links, hashes and numbers correctly |
| `AuditTamper.HashInputInjective` | elyra-engine/src/elyra/audit/audit_logger.py:88-98 | a legacy text never equals a v2 text and each text fixes its record |
| `AuditTamper.ChainsAgree` | elyra-engine/src/elyra/audit/audit_logger.py:272-350 | two accepted chains with one last hash are suffixes of one another, or a collision is produced |
| `AuditTamper.ReportMeaning` | elyra-engine/src/elyra/audit/audit_logger.py:351-363 | a report is valid if and only if all lines are records forming an accepted chain, and what its fields then say |
| `AuditTamper.TamperEvidence` | elyra-engine/src/elyra/audit/audit_logger.py:272-363 | two valid directories with the same last hash hold the same records up to the oldest ones one of them pruned, or a collision is produced |
| `AuditTamper.FullCoverageDetermined` | elyra-engine/src/elyra/audit/audit_logger.py:351-363 | full coverage and the last hash determine every record, or a collision or a preimage of the genesis value is produced |
| `AuditChain.ChainIsAccepted` | elyra-engine/src/elyra/audit/audit_logger.py:88-98 | the verifier's conditions on a list of records are those of the writers: legacy records hashed over previous hash and legacy text, schema 2.0 over canonical text, each linked and numbered |
| `AuditChain.VerdictMeaning` | elyra-engine/src/elyra/audit/audit_logger.py:169-363 | for any bytes: valid if and only if whole lines hold objects forming such a chain, and what each report field then is; otherwise the first line at fault, which fault it is, and what was counted before it |
| `AuditChain.LoggedIsOnDisk` | elyra-engine/src/elyra/audit/audit_logger.py:230-363 | the records of a valid directory are the objects on its non-blank lines, in order |
| `AuditLogger.AuditLogger.Rotate` | elyra-engine/src/elyra/audit/audit_logger.py:612-643 | rotation in place equals the rotation step on directory values, prune loop included; where it fails, the directory is untouched or holds the renamed segment and what was not pruned yet |
| `AuditLogger.AuditLogger.TailState` | elyra-engine/src/elyra/audit/audit_logger.py:574-610 | the newest segment with a record decides hash and sequence; a bad last line is an error |
| `AuditLogger.AuditLogger.AppendBytes` | elyra-engine/src/elyra/audit/audit_logger.py:645-662 | the write loop appends a prefix of the line, the whole of it on success |
| `AuditLogger.AuditLogger.Record` | elyra-engine/src/elyra/audit/audit_logger.py:664-722 | a record is planned from the tail on disk, rotates when needed, and memory follows only a complete append; on success the active segment ends in a record that carries what the caller said and the hash returned; how far a failed one got |
| `AuditLogger.AuditLogger.RepairTrailingPartial` | elyra-engine/src/elyra/audit/audit_logger.py:510-544 | exactly the bytes after the last line feed are cut off and set aside |
| `AuditLogger.AuditLogger.StartUp` | elyra-engine/src/elyra/audit/audit_logger.py:375-453 | opening with repair and corrupt-chain quarantine leaves the directory and the memory these steps describe, also when the recovery record cannot be written |
| `AuditRuns.CrashAtomic` | elyra-engine/src/elyra/audit/audit_logger.py:510-544 | an append cut at any byte and repaired is the old directory or the new one, with the torn fragment set aside |
| `AuditRuns.RotateKeeps` | elyra-engine/src/elyra/audit/audit_logger.py:620-638 | rotation, finished or stopped in its pruning, keeps segment bounds, canonical text and the retained end of the history; a finished one brings the number of segments back to the configured one |
| `AuditRuns.StoppedIsCut` | elyra-engine/src/elyra/audit/audit_logger.py:620-638 | every directory that a failing rotation can leave is a rotation with some number of segments left to prune |
| `AuditRuns.PlanFollows` | elyra-engine/src/elyra/audit/audit_logger.py:698-718 | whatever a stale instance remembers, its next record continues the true history |
| `AuditRuns.RunKeeps` | elyra-engine/src/elyra/audit/audit_logger.py:612-722 | every interleaving, by any number of instances, of record, rotate, reopen, a rotation or record that fails or crashes in the pruning, an append that fails after nothing or the whole line, and a crash inside a line with its repair (one step) keeps the directory invariant; records longer than the window included when no ending of a record is JSON text |
| `AuditRuns.SharedLog` | elyra-engine/src/elyra/audit/audit_logger.py:289-363 | after any run the verifier accepts, sequences are consecutive, coverage is full if and only if nothing was pruned, and the segment bounds hold; more segments than configured only as the last rotation's pruning left them |
| `AuditCalls.LogSaysWhatWasSaid` | elyra-engine/src/elyra/audit/audit_logger.py:664-722 | after any run the records on disk carry, in order and under consecutive numbers, the source, subject, payload, time and identifier of the last completed calls |
| `AuditCalls.JustRecorded` | elyra-engine/src/elyra/audit/audit_logger.py:664-722 | right after a step that completes a call the last record on disk is that of the call |
| `AuditLegacy.Continued` | elyra-engine/src/elyra/audit/audit_logger.py:574-722 | record() after any valid log, legacy or mixed: the entry says what the caller said and links to the last line; the log verifies afterwards if and only if the number it continues from is not below what the kept records count |
| `AuditLegacy.OpenedContinues` | elyra-engine/src/elyra/audit/audit_logger.py:604-608 | an instance opened on a legacy log continues it with the next number, and the log verifies |
| `AuditTraps.RotateForgets` | elyra-engine/src/elyra/audit/audit_logger.py:634-637 | rotation empties the listing if and only if no backup is kept, and then the chain restarts |
| `AuditOverflow.IndexOverflow` | elyra-engine/src/elyra/audit/audit_logger.py:131-138 | for every directory: below index 1000000 the listing keeps the active segment and loses only what pruning removes; from there it loses the active segment too, and pruning leaves one file more |
| `AuditOverflow.OverflowReached` | elyra-engine/src/elyra/audit/audit_logger.py:612-638 | a run of one writer ends before the overflowing rotation with records in the active segment |
| `AuditOverflow.OverflowIsSilent` | elyra-engine/src/elyra/audit/audit_logger.py:612-643 | the overflowing rotation drops the active records from the log; the verifier accepts what is left and the next record of any instance reuses a sequence number |
| `AuditOverflow.OverflowOverwrites` | elyra-engine/src/elyra/audit/audit_logger.py:612-638 | every later rotation takes the same index and replaces the hidden segment |
| `AuditTraps.TailAfterCut` | elyra-engine/src/elyra/audit/audit_logger.py:578-606 | what the tail read finds after an append stopped at each byte |
| `AuditTraps.FailedAppendNeedsReopen` | elyra-engine/src/elyra/audit/audit_logger.py:645-718 | going on after a torn append without reopening refuses the record or breaks the log |
| `AuditTraps.FailedAppendExactly` | elyra-engine/src/elyra/audit/audit_logger.py:645-718 | after a failed append any instance can go on, with a log that verifies, if and only if nothing or the whole line was written |
| `AuditTraps.TailReadable` | elyra-engine/src/elyra/audit/audit_logger.py:574-610 | in any directory of a run the tail read fails if and only if the last record does not fit the window; the log verifies either way |
| `AuditTraps.LongRecordBlocks` | elyra-engine/src/elyra/audit/audit_logger.py:574-718 | a record longer than the window is accepted, and afterwards every instance refuses every record, rotated or not |
| `AuditTraps.BlockedForever` | elyra-engine/src/elyra/audit/audit_logger.py:574-718 | in every run, nothing that happens after such a record adds another one |
| `AuditTraps.RecoveryVerifies` | elyra-engine/src/elyra/audit/audit_logger.py:546-572 | after a corrupt chain is set aside the fresh log verifies from genesis |
| `Quarantine.QuarantineManager.WriteAll` | elyra-engine/src/elyra/response/quarantine_manager.py:582-600 | the write loop appends the chunk, whatever sizes the writes take |
| `Quarantine.QuarantineManager.CopyBetween` | elyra-engine/src/elyra/response/quarantine_manager.py:582-600 | a copy that ends gives the destination all source bytes and returns their hash and length |
| `Quarantine.QuarantineManager.WriteMetadata` | elyra-engine/src/elyra/response/quarantine_manager.py:644-693 | at every instant the metadata name holds the old record or the whole new one; temporary names stay only if their removal failed |
| `Quarantine.QuarantineManager.Rollback` | elyra-engine/src/elyra/response/quarantine_manager.py:850-878 | a rollback that reports success has the source back at its path on the same inode and none of the manager's names |
| `Quarantine.QuarantineManager.QuarantineFile` | elyra-engine/src/elyra/response/quarantine_manager.py:109-265 | all or nothing under a failure at any call; at every instant the bytes are at the source, the holding name or a verified payload, and every copy and metadata file is closed to group and others; on success payload and metadata have mode 0600; with no failed call a source that meets the expectations is quarantined |
| `Quarantine.QuarantineManager.RestoreFile` | elyra-engine/src/elyra/response/quarantine_manager.py:276-373 | no existing path is altered at any instant; success delivers the verified bytes, a plain failure leaves no target and the old metadata; with no failed call it succeeds if and only if the item is restorable, and an incomplete rollback takes two failed calls |
| `Quarantine.QuarantineManager.DeletePermanently` | elyra-engine/src/elyra/response/quarantine_manager.py:375-415 | unless the directory sync after the unlink failed, the payload has a name or the metadata says deleted at every instant; a sound item stays sound if and only if that sync did not fail; with no failed call it succeeds if and only if the item is deletable, and an incomplete rollback takes two failed calls |
| `QuarantineRuns.QuarantineDone` | elyra-engine/src/elyra/response/quarantine_manager.py:150-242 | a committed quarantine creates an item whose metadata matches its payload |
| `QuarantineRuns.QuarantineFailed` | elyra-engine/src/elyra/response/quarantine_manager.py:248-262 | a plain failure leaves every item as it was |
| `QuarantineRuns.RestoreDone` | elyra-engine/src/elyra/response/quarantine_manager.py:323-334 | a completed restore changes only status and restore fields of its item; the payload stays |
| `QuarantineRuns.RestoreFailed` | elyra-engine/src/elyra/response/quarantine_manager.py:336-361 | a plain failure of a restore leaves every item as it was |
| `QuarantineRuns.DeleteEnded` | elyra-engine/src/elyra/response/quarantine_manager.py:394-405 | a completed delete marks its item deleted and removes the payload; a plain failure before the unlink leaves every item as it was, one after it leaves the item broken |
| `QuarantineRuns.LostDeleteBreaks` | elyra-engine/src/elyra/response/quarantine_manager.py:389-408 | from every sound and deletable item the calls of a delete, with only the sync after the unlink failing, lead to a reported safe failure whose item has no payload and can be neither restored nor deleted |
| `QuarantineRuns.LostDeleteExample` | elyra-engine/src/elyra/response/quarantine_manager.py:389-408 | the same on one concrete store, with the whole state it ends in |
| `QuarantineRuns.Lifecycle` | elyra-engine/src/elyra/response/quarantine_manager.py:276-415 | over any run: status is not deleted if and only if a matching payload is present, everything stored stays closed to group and others, deleted is absorbing, identity and payload never change |
| `QuarantineRuns.RoundTrip` | elyra-engine/src/elyra/response/quarantine_manager.py:283-373 | quarantine, any run, restore: the same bytes with the original permission bits |
| `Correlation.DeliveredKeeps` | elyra-engine/src/elyra/correlation/engine.py:518-591 | one event keeps counts, scores and ladder sound; score and action never drop; denial neither appears nor fades |
| `Correlation.LateJoinedKeeps` | elyra-engine/src/elyra/correlation/engine.py:430-441 | late binding raises a zero pre-score once and cannot happen again |
| `Correlation.Ladder` | elyra-engine/src/elyra/correlation/engine.py:366-401 | over a generation the score never drops, the action is deny if and only if it was denied and else the one whose thresholds of the policy the score lies between, and at most five linked transitions exist |
| `CorrelationTheorems.ScoreIsClosedForm` | elyra-engine/src/elyra/correlation/engine.py:493-591 | the incremental score is the capped weighted sum of the sizes of the distinct sets |
| `CorrelationTheorems.OrderDoesNotMatter` | elyra-engine/src/elyra/correlation/engine.py:554-591 | reordering or repeating write, rename and connect events changes neither scores nor action |
| `CorrelationTheorems.QuarantineReachable` | elyra-engine/src/elyra/correlation/engine.py:165-175 | a process known only from eBPF can reach quarantine if and only if the three observable maxima plus its child rule do |
| `CorrelationTheorems.ValidationIsWeaker` | elyra-engine/src/elyra/correlation/engine.py:168-175 | a policy that passes validation under which no such process reaches quarantine |
| `CorrelationEngine.ExecutionCorrelationEngine.Expire` | elyra-engine/src/elyra/correlation/engine.py:597-608 | collecting and archiving stale states in place equals archiving them one by one |
| `CorrelationEngine.ExecutionCorrelationEngine.NewState` | elyra-engine/src/elyra/correlation/engine.py:311-357 | a full table first loses its least recently seen state; the generation counter moves on |
| `CorrelationEngine.ExecutionCorrelationEngine.RegisterPreExecution` | elyra-engine/src/elyra/correlation/engine.py:408-455 | late binding inside its window, else the current state is superseded |
| `CorrelationEngine.ExecutionCorrelationEngine.IngestRuntimeEvent` | elyra-engine/src/elyra/correlation/engine.py:518-591 | a later execution replaces the generation; every other event goes to the live state |
| `CorrelationEngine.ExecutionCorrelationEngine.RecordActionResult` | elyra-engine/src/elyra/correlation/engine.py:611-627 | the result and its status are stored in the state of that process if it has that identifier; otherwise the call says no and changes nothing |
| `CorrelationRuns.ResultMeaning` | elyra-engine/src/elyra/correlation/engine.py:611-627 | in every reachable table a result reaches exactly the generation it names; one that comes after its generation has left changes nothing |
| `CorrelationRuns.RunKeeps` | elyra-engine/src/elyra/correlation/engine.py:311-627 | over every run of registrations, events, results and expiries: table and archive bounded, every live state sound, one state per process, identifiers used once, archived generations older |
| `CorrelationRuns.RunLadder` | elyra-engine/src/elyra/correlation/engine.py:366-401 | in every table of every run the action is deny if and only if that generation was denied earlier in the run, and else the one whose thresholds its score lies between; at most five linked transitions |
| `CorrelationMeaning.RunRecommends` | elyra-engine/src/elyra/correlation/engine.py:366-401 | the ladder over runs with the score it rests on: weights times counts, capped twice, against the three thresholds of the policy |
| `CorrelationMeaning.EventMeaning` | elyra-engine/src/elyra/correlation/engine.py:538-591 | what one event makes of a live generation, field by field: which rule fires and counts, what is collected and seen, the score and action that follow |
| `CorrelationMeaning.TransitionMeaning` | elyra-engine/src/elyra/correlation/engine.py:385-401 | one event enters at most one transition, from the action before it to the one after it |
| `CorrelationSteps.IngestEffect` | elyra-engine/src/elyra/correlation/engine.py:465-591 | which generation an event reaches and its effect there; how a new one begins, which parent it inherits and when the child rule fires |
| `CorrelationSteps.RegisterEffect` | elyra-engine/src/elyra/correlation/engine.py:408-455 | a record joins a joinable state with everything collected kept, or begins a generation with its clamped score and denial |
| `CorrelationSteps.ExpiryMeaning` | elyra-engine/src/elyra/correlation/engine.py:597-608 | a state stays if and only if it is not overdue, in the policy's own times |
| `CorrelationSteps.EveryRung` | elyra-engine/src/elyra/correlation/engine.py:366-401 | for every validated policy each score has a run that ends with it, so every action of the ladder is recommended in some run |
| `CorrelationRuns.NeverReturns` | elyra-engine/src/elyra/correlation/engine.py:359-364 | an identifier that left the table never returns; while live it names one generation whose score and action only rise |
| `CorrelationRuns.IngestMeaning` | elyra-engine/src/elyra/correlation/engine.py:518-536 | a live process keeps its identifier unless the event is an execution later than the recorded one; an unknown process, or such an execution, gets the next unused identifier |
| `CorrelationRuns.RegisterMeaning` | elyra-engine/src/elyra/correlation/engine.py:408-455 | a record joins the live state exactly inside the late-binding window of a runtime-only state and otherwise starts a generation with the next unused identifier |
| `CorrelationRuns.ShortMaximaNeverQuarantine` | elyra-engine/src/elyra/correlation/engine.py:165-175 | when the observable maxima and one child execution fall short, no run recommends quarantine for an eBPF-only process |
| `CorrelationRuns.ExpiredMeaning` | elyra-engine/src/elyra/correlation/engine.py:597-608 | expiry removes exactly the stale states |
| `ResponseEngine.Engine.Bind` | elyra-engine/src/elyra/response/engine.py:417-466 | binding replaces the previous one, evicts the oldest beyond 1024, and owns exactly the descriptors of its bindings on every outcome |
| `ResponseEngine.Engine.Close` | elyra-engine/src/elyra/response/engine.py:474-478 | releasing over a snapshot of the keys keeps every descriptor owned by exactly one binding until it is closed |
| `ResponseEngine.Engine.ExecuteRecommendation` | elyra-engine/src/elyra/response/engine.py:522-611 | one call's effect on bindings, ranks and descriptors for every answer of the environment; ownership is kept on all of them |
| `ResponseEngine.DestructiveMeaning` | elyra-engine/src/elyra/response/engine.py:590-699 | terminate and quarantine succeed if and only if nothing as strong succeeded, automatic actions are on, a live binding of this correlation holds the identity, the file is not protected and the environment complied |
| `ResponseMeaning.OutcomeMeaning` | elyra-engine/src/elyra/response/engine.py:522-699 | the outcome of every action for every answer of the environment: nothing counts without its audit record, suppression by an equal or stronger success, acknowledged denials, disabled, broken off or refused actions |
| `ResponseMeaning.ExecuteEffect` | elyra-engine/src/elyra/response/engine.py:522-699 | what a call leaves behind: the success entered, and the binding given up exactly after a quarantine that was tried and did not break off |
| `ResponseMeaning.BindMeaning` | elyra-engine/src/elyra/response/engine.py:417-466 | when binding is refused or broken off without effect; otherwise the correlation has exactly the new binding and only the oldest of 1024 others may go |
| `ResponseEngine.RunKeeps` | elyra-engine/src/elyra/response/engine.py:449-611 | over every run: no descriptor leaks or is closed twice, at most 1024 bindings, successful ranks strictly rise per correlation, suppression only after an equal or stronger success |
| `ResponseEngine.CloseEmpties` | elyra-engine/src/elyra/response/engine.py:474-478 | after closing nothing is bound or open |
| `ResponseEngine.QuarantineIsLast` | elyra-engine/src/elyra/response/engine.py:648-699 | after a successful quarantine its correlation has no binding and gets no further response |
| `ResponseEngine.RankOrders` | elyra-engine/src/elyra/response/engine.py:283-290 | the response order agrees with the correlation order except exactly on denials after terminate or quarantine |
| `ResponseEngine.EscalationSuppressed` | elyra-engine/src/elyra/response/engine.py:536-550 | after a success, an escalation of the correlation engine is suppressed as a duplicate if and only if it is a denial after terminate or quarantine |
| `Collector.Walk` | elyra-engine/src/elyra/monitor/ebpf/collector.py:52-59 | the ancestry walk ends on any parent map and finds a monitored process if and only if one is reachable through positive ids |
| `Collector.Accepts` | elyra-engine/src/elyra/monitor/ebpf/collector.py:40-59 | the filter accepts exactly the wanted events |
| `Collector.SameAnswers` | elyra-engine/src/elyra/monitor/ebpf/collector.py:404-416 | on ordered streams the pruned cache answers like a map that forgets nothing |
| `Collector.CacheInWindow` | elyra-engine/src/elyra/monitor/ebpf/collector.py:409-416 | the cache is in timestamp order and inside the window |
| `Collector.ForwardedApart` | elyra-engine/src/elyra/monitor/ebpf/collector.py:404-416 | two forwarded renames of one fingerprint are more than the window apart |
| `CollectorMeaning.SuppressedExactly` | elyra-engine/src/elyra/monitor/ebpf/collector.py:404-416 | of renames in time order one is suppressed if and only if one of the same process, user and name went on at most ten milliseconds before it |
| `Collector.LateAnswers` | elyra-engine/src/elyra/monitor/ebpf/collector.py:404-416 | after an ordered stream a rename at any time gets a different answer from the pruned cache than from a full one if and only if its fingerprint was last forwarded inside its own window but outside the window before the last forwarded rename |
| `Collector.EBPFCollector.PublishEvent` | elyra-engine/src/elyra/monitor/ebpf/collector.py:403-437 | an event is queued if and only if it is no repeated rename, the filter wants it on the updated ancestry and the queue has room; every other accepted event raises the drop count |
| `Collector.EBPFCollector.GetEvent` | elyra-engine/src/elyra/monitor/ebpf/collector.py:439-443 | events leave in the order accepted; with the class invariant nothing is lost except the counted drops |
| `Collector.AgreesOn` | elyra-engine/src/elyra/monitor/ebpf/collector.py:417-424 | through executions, exits and pruning the ancestry never names a parent that the full record does not |
| `Collector.AncestryMeaning` | elyra-engine/src/elyra/monitor/ebpf/collector.py:417-424 | an execution stands last over the newest other entries that fit the bound, an exit removes its own entry alone, and any other event changes nothing |
| `Collector.NoFalseDescent` | elyra-engine/src/elyra/monitor/ebpf/collector.py:417-422 | pruning the ancestry never makes the filter see a descent that is not there |
| `Entropy.AnalyzeStream` | elyra-engine/src/elyra/analyzer/entropy.py:168-287 | for any short or full reads the report is that of the whole file in memory, or the read or size failure |
| `Entropy.BlocksOf` | elyra-engine/src/elyra/analyzer/entropy.py:206-231 | full blocks and a shorter carry are exactly the blocks of their concatenation |
| `Entropy.BlockBounds` | elyra-engine/src/elyra/analyzer/entropy.py:211-213 | block i is bytes i times the size up to the next multiple or the end |
| `Entropy.HistogramAdds` | elyra-engine/src/elyra/analyzer/entropy.py:203-205 | the whole-file histogram is the sum of the block histograms |
| `Entropy.ReportedExactly` | elyra-engine/src/elyra/analyzer/entropy.py:220-230 | the k-th sample is the block at k times the stride |
| `Entropy.ReportBounded` | elyra-engine/src/elyra/analyzer/entropy.py:174-178 | at most the configured number of samples, truncated if and only if the stride exceeds one, and ceil(n / size) blocks |
| `Entropy.ReportMeaning` | elyra-engine/src/elyra/analyzer/entropy.py:168-287 | the whole report of the bytes of the file: each block's entropy, how many reach the threshold, how often each byte occurs, each sample at its place with its flag |
| `Entropy.StrideLeast` | elyra-engine/src/elyra/analyzer/entropy.py:174-178 | no smaller stride would keep the samples within the configured number |
| `Pe.SortDecides` | elyra-engine/src/elyra/analyzer/pe.py:190-193 | sorting and comparing neighbours decides whether all ranges are pairwise disjoint |
| `Pe.CheckOverlap` | elyra-engine/src/elyra/analyzer/pe.py:190-193 | the overlap check passes if and only if all non-empty raw ranges are pairwise disjoint |
| `Pe.CheckCertificate` | elyra-engine/src/elyra/analyzer/pe.py:195-205 | the certificate check passes if and only if there is none or it lies in the file clear of headers and sections |
| `Pe.Inspector.Read` | elyra-engine/src/elyra/analyzer/pe.py:58-68 | which failures a bounded read has and when the budget error occurs |
| `Pe.Inspector.LayOut` | elyra-engine/src/elyra/analyzer/pe.py:156-205 | the section checks accept a table if and only if it is well laid out |
| `Pe.Inspector.Analyze` | elyra-engine/src/elyra/analyzer/pe.py:71-233 | every field read is in bounds and the budget error cannot occur; the verdict is valid if and only if the file's headers are acceptable and its section table is well laid out, and then headers and sections are the file's; otherwise verdict, status and anomalies are those of the first failing check |
| `PeImage.ImageReadsBack` | elyra-engine/src/elyra/analyzer/pe.py:71-180 | any image that the format prints within the limits, PE32 or PE32+, is read back: its headers, certificate directory and sections |
| `PeImage.ForeignMeaning` | elyra-engine/src/elyra/analyzer/pe.py:71-74 | a file is no candidate exactly when it does not start with MZ |
| `Ipc.HandleClient` | elyra-engine/src/elyra/service/ipc_server.py:147-192 | the loop answers like the chunk-by-chunk form up to the first failed send; the buffer bound holds and the check at line 181 never fires |
| `Ipc.ChunkingIrrelevant` | elyra-engine/src/elyra/service/ipc_server.py:147-186 | within the limits any two ways of cutting one stream give the responses of the newline-split stream |
| `IpcCutting.CuttingMatters` | elyra-engine/src/elyra/service/ipc_server.py:147-192 | for every stream and ending: two cuts with different responses exist if and only if the first overlong line ends less than one receive beyond the limit and something after it is answered, and then their number differs; otherwise every cut gives the same known responses |
| `IpcCutting.LinesMeaning` | elyra-engine/src/elyra/service/ipc_server.py:175-177 | the lines are what lies between line feeds and the rest what follows the last one |
| `IpcCutting.StreamAnswered` | elyra-engine/src/elyra/service/ipc_server.py:147-186 | however a stream of short lines is cut, each line is answered in order and then the ending, up to the first response that cannot be sent |
| `WindowsNotify.ParseNativeRecords` | elyra-engine/src/elyra/monitor/windows/backends.py:433-457 | the loop ends, and every accepted record lies inside the buffer where the one before it points |
| `WindowsNotify.RoundTrip` | elyra-engine/src/elyra/monitor/windows/backends.py:433-457 | parsing a printed buffer returns its records, whatever the padding |
| `WindowsNotify.WatchRoot` | elyra-engine/src/elyra/monitor/windows/backends.py:352-401 | the watcher's outputs, and the one old name an early return can lose |
| `WindowsNotify.OldNamesConserved` | elyra-engine/src/elyra/monitor/windows/backends.py:372-401 | each valid old name is used exactly once, in order, as a previous path or as one deletion |
| `WindowsNotify.ChangeMeaning` | elyra-engine/src/elyra/monitor/windows/backends.py:372-401 | what each action of the API emits, and what becomes of a pending old name |
| `WindowsNotify.LossesReported` | elyra-engine/src/elyra/monitor/windows/backends.py:352-376 | every read that failed or overflowed and every change outside the root is reported once, in order |
| `Fanotify.ParseEvents` | elyra-engine/src/elyra/monitor/fanotify/syscalls.py:243-291 | events of at least 24 bytes each tile the buffer up to less than one header |
| `FanotifyFormat.EventsReadBack` | elyra-engine/src/elyra/monitor/fanotify/syscalls.py:243-291 | a buffer of whole records, written field by field, is parsed into the events they stand for |
| `FanotifyFormat.FirstMeaning` | elyra-engine/src/elyra/monitor/fanotify/syscalls.py:243-291 | what any buffer begins with, whole or not: length taken, link and error |
| `FanotifyFormat.MaskMeaning` | elyra-engine/src/elyra/monitor/fanotify/syscalls.py:46-48 | which bits of the mask make a permission event and an overflow |
| `Fanotify.Controller.SendResponse` | elyra-engine/src/elyra/monitor/fanotify/syscalls.py:293-309 | every non-negative event descriptor is closed once whatever the write does |
| `Fanotify.Controller.HandleEvent` | elyra-engine/src/elyra/monitor/fanotify/controller.py:213-271 | exactly one response attempt and one close at any exception point; the kernel is told deny if and only if a denial is due, by a clean timely analysis or by a failure under a fail-closed policy, with enforcement on at the end; what the record says, and exactly when an exception escapes |
| `Fanotify.DenyMeaning` | elyra-engine/src/elyra/monitor/fanotify/controller.py:273-353 | a denial comes from a timely clean analysis or from a fail-closed path under enforcement |
| `Fanotify.DenyExactly` | elyra-engine/src/elyra/monitor/fanotify/controller.py:273-353 | the two ways to a denial, in both directions, over every answer of the environment |
| `Fanotify.RaisedExactly` | elyra-engine/src/elyra/monitor/fanotify/controller.py:273-353 | what is raised before the answer, at the first point that raises |
| `Fanotify.Controller.ReadBatch` | elyra-engine/src/elyra/monitor/fanotify/controller.py:151-186 | the loop over one batch acts on its events in order and ends the thread at the first event whose handling raises, leaving the rest |
| `Fanotify.OneResponseEach` | elyra-engine/src/elyra/monitor/fanotify/controller.py:151-186 | over every interleaving each event read is waiting, in flight, ended (a permission event answered once and closed once), stranded or abandoned; slots are the events in flight plus the stranded one; the reader is alive if and only if nothing raised out of its loop |
| `Fanotify.DeadReader` | elyra-engine/src/elyra/monitor/fanotify/controller.py:151-170 | after the reader ended nothing is read and no stranded or abandoned event is ever answered |
| `Fanotify.RestAbandoned` | elyra-engine/src/elyra/monitor/fanotify/controller.py:158-170 | the event that ends the reader abandons exactly the rest of its batch |
| `Fanotify.AbandonedExample` | elyra-engine/src/elyra/monitor/fanotify/controller.py:165-170 | two permission events and a refused submission: the second gets no response |
| `Calibration.CalibrateDenyThreshold` | elyra-engine/src/elyra/measurement/calibration.py:15-39 | each answer is correct: refusals, coverage, none feasible, or the least feasible observed score with its rates |
| `Calibration.BestIsLeast` | elyra-engine/src/elyra/measurement/calibration.py:38-38 | the best candidate is the least score that meets the target |
| `Calibration.NoBetterThreshold` | elyra-engine/src/elyra/measurement/calibration.py:29-38 | no threshold up to the largest score, observed or not, meets the target with higher recall |
| `Calibration.NoneMeets` | elyra-engine/src/elyra/measurement/calibration.py:36-37 | no observed score meets the target if and only if no threshold up to the largest score does |
| `Calibration.RateMeaning` | elyra-engine/src/elyra/measurement/calibration.py:29-34 | a rate is the share of a class whose scores reach the threshold |

## Left out

- SHA-256, the JSON printers and parser, UTF-16, path normalisation and Shannon's formula are function parameters; a lemma that needs a law of one of them (injective printing, printing then parsing) requires it.
- Identifiers, temporary metadata names and descriptor numbers are fresh when handed out: UUIDs do not repeat and the kernel never returns a descriptor that is open.
- Locks are atomic steps: the audit directory lock, the correlation lock and the response lock. Response calls are serialized, since the rank read at line 538 and the write at line 610 of `response/engine.py` are not one step.
- Durability across a power failure: a sync changes nothing in the file-system model, it can only fail.
- The process umask: files are created with the mode asked for.
- Interference by other processes in the middle of a quarantine transaction, and the device, owner, permission, link-type and time-stamp comparisons that guard against it; the inode, size and hash comparisons are modelled.
- The link-and-unlink fallback of `_move_noreplace` where `renameat2` is missing; the move is one atomic step that never replaces.
- AuditRuns.CrashAtomic: the saved artifact is a prefix of the torn fragment when the repair's single write is short, because the source does not loop there.
- AuditRuns.RunKeeps: a crash inside a line and the reopening that repairs it are one step, because no instance keeps the log sound in between: `AuditTraps.FailedAppendExactly` says what any instance meets on the torn segment.
- QuarantineRuns.Lifecycle: runs are made of operations that did not end in an incomplete rollback, and of changes to other names; the states inside an operation are covered by the methods' own contracts.
- Validation of audit record input, and numbers such as NaN that the verifier's printer rejects with another exception.
- The listing, status and iteration queries of the audit logger, the quarantine manager and the correlation engine, and schema versions of quarantine metadata.
- Evidence, descriptions, decisions and reasons that a correlation state carries for display; wall-clock stamps of transitions.
- Each operation of the correlation engine reads its clock once; `ExecutionState` objects are values inside the engine's table.
- A negative `max_tracked_processes`, with which the collector's eviction loop fails on an empty dictionary.
- Entropy.AnalyzeStream: rounding to six digits and the minimum, maximum and mean over the block entropies are left to the list of entropies; `math.ceil` of a float quotient is exact division, which holds below 2 to the power 53.
- Packer indicators, names, timestamps and other display fields of the PE summary.
- Decoding, authorization and handling of one request line, and the slots and threads of the socket server.
- The Windows handle guard, callbacks that fail, and overflow counters; the provider through pywin32.
- Fanotify marks, initialization and shutdown; process ancestry, path rules and the analyzer are answers that the environment gives, with an exception possible at each.
- Calibration.CalibrateDenyThreshold: rates are real quotients instead of floating-point ones.
- The graphical interface, updaters, machine learning, metadata tables, scoring rules and installation checks: plumbing or one-branch facts.
