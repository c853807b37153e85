# PerformanceEvidenceProbe: a verified model of the evidence pipeline

PerformanceEvidenceProbe observes a process and leaves evidence behind: collectors put process,
sample and event records on one bounded queue, a writer appends them to three NDJSON streams, a
reader recovers the streams after a crash, and a validator rebuilds the summary from them. This
project models those stages and proves how they agree with each other.

- **Validator and summary** (`Records`, `SummarySpec`, `Availability`, `SamplePass`, `Summariser`,
  `Accounting`, `EvidenceRules`, `SummaryFields`, `Order`, `Folds`, `RowOrder`). `SummarySpec` says
  over a whole bundle which bundles are accepted and what each summary field means. The methods of
  `Availability`, `SamplePass` and `Summariser` follow the reader's loops, with its checked
  arithmetic and early errors, and are proved equivalent to that specification. `EvidenceRules` and
  `SummaryFields` say both things a second time, on the raw fields of the records, and are proved to
  agree.
- **Collectors** (`Journal`, `DirectRoot`, `DirectRootAcceptance`, `DirectRootRecords`,
  `Collectors`, `Ticks` for Linux and macOS; `Discovery`, `WindowsRun`, `WindowsIdentity`,
  `WindowsRelisting`, `WindowsLedger`, `WindowsAcceptance`, `WindowsTurns`, `WindowsBehaviour`,
  `WindowsConservation`, `WindowsRecords`, `WindowsObserver` for Windows). Operating-system answers
  are arguments and may be anything; a failed send may strike at any message. `WindowsRun` is the
  Windows loop as a transition system, and the class `WindowsObserver.Observer` carries the loop's
  mutable state and is proved to follow it, turn by turn as `WindowsTurns` says.
- **Transport** (`Utf8`, `Json`, `JsonLaws`, `JsonGrammar`, `JsonValue`, `Schema`, `SchemaNames`,
  `Ndjson`, `Transport`, `Recovery`). Bytes, a compact JSON printer, recogniser and value reader
  after sections 2 to 7 of RFC 8259 with its grammar, the record shapes and field readers, the line
  reader, a step model of producer, queue and writer that may stop after any byte, and the way from
  the bytes back to typed records.
- **Text formats** (`CommandLine`, `ProcStat`, `Decimal`). Windows argument quoting against the C
  runtime's parsing rules, and the proc(5) stat record.
- **Whole pipeline** (`CrashVerdict`, `Pipeline`). Collect then summarise, what a crash or a finish
  leaves on disk and what the validator makes of it, and the summary of the bytes on disk.

## Where the code and its documentation differ

The model follows the code.

- docs/MILESTONE-1-ARCHITECTURE.md:11 says a handle is released when its process exits. A PID that is
  relisted while an earlier handle for it is still retained replaces that handle without any exit or
  release event (src/runtime/windows.rs:506-507). `WindowsRelisting.RelistingLosesHandle` gives such a
  launched run and `WindowsIdentity.HandlesConserved` the exact condition. The same line says the registry is
  keyed by PID, start time and boot identity; the code keys by PID.
- docs/MILESTONE-1-ARCHITECTURE.md:15 says a reader discards exactly one malformed final fragment after
  a crash. A fragment that ends inside a multi-byte character makes the whole stream invalid UTF-8, and
  an empty stream is an error rather than zero records (src/ndjson.rs:46-62). `Ndjson.ReadTorn` and
  `Transport.StreamRecovery` state both cases.
- docs/EVIDENCE-SCHEMA-DRAFT.md lists PROCESS as a subject kind. No declaration with it is ever
  accepted, because semantic reasons require RUN and operational ones a sample
  (`Accounting.OmissionsAreConserved`).
- docs/EVIDENCE-SCHEMA-DRAFT.md promises checked arithmetic for the two witnesses. The Windows
  collector sums with plain addition, which wraps in a release build; the validator then refuses the
  bundle (`WindowsAcceptance.SumsExactly`).

## Model

| member | source | states |
|---|---|---|
| `Summariser.RegenerateSummary` | src/summary.rs:222-523 | A summary comes out if and only if the whole bundle satisfies the declarative `Accepted`, which for v2 evidence is the second account `EvidenceRules.Rules`; every field then means what `Describes` says and reports what the records hold; processes without an observed identity are there exactly with a job and make up, with the distinct ids, the job's total, or are none. |
| `EvidenceRules.AcceptedIffRules` | src/summary.rs:222-523 | A bundle with a v2 sample is accepted if and only if its records obey rules written out on their own fields, without the reader's helpers: complete identities, paired reasons and subjects, every cell a number in range that nothing covers or absent and covered once, exact sums, jobs in order, one root exit, a manifest that repeats the status. |
| `EvidenceRules.KeysAreDistinct` | src/summary.rs:608-611 | The duplicate check never decides alone: two declarations under one key would both cover the cell that either is for. |
| `EvidenceRules.ReasonsPairWithSubjects` | src/summary.rs:569-590 | In every accepted v2 bundle, on the raw fields: unsupported, not_applicable and semantic_mismatch occur with RUN only; authority_unavailable and sampling_degraded only with SAMPLE on a probe or system metric or PROCESS_SAMPLE on a process metric. |
| `EvidenceRules.MispairedIsRefused` | src/summary.rs:569-590 | One declaration that breaks that pairing makes a v2 bundle unacceptable. |
| `SummaryFields.SummaryReports` | src/summary.rs:464-517 | The summary of accepted v2 evidence, field by field against the records: first and last time, largest gap, largest recorded sums and the last live ones, peak utilisation over jobs that follow each other, row counts, distinct row ids, probe handles, the root's exit, both status fields. |
| `SummaryFields.JobIsReported` | src/summary.rs:417-438 | The totals are those of the last sample with a job, all absent without one; with w the processes without identity, d the distinct ids and t the job's total, d + w = t when t is at least d, and w = 0 otherwise. |
| `SamplePass.FoldSamples` | src/summary.rs:265-409 | The pass over the samples succeeds exactly when every sample is well formed and accounted for and the job points are ordered; its accumulators are the declared maxima, last-live values and utilisations. |
| `SamplePass.FoldMemory` | src/summary.rs:343-378 | Peaks are the largest per-sample sum and exist only while every sample has one; last-live value and time are replaced together by the newest live sample, even by nothing. |
| `SamplePass.FoldJob` | src/summary.rs:388-408 | A job sample is taken exactly when its two CPU counters add up within u64, time has not gone back, and CPU has not shrunk while time advanced. |
| `SamplePass.PeakOf` | src/summary.rs:479 | The reduction of the utilisations is their maximum, absent when there are none. |
| `Summariser.RootTerminal` | src/summary.rs:674-701 | At most one root exit and only with identity authority in v2; the chosen event is the first root exit, in v1 otherwise the first exit at all. |
| `Summariser.ValidateManifest` | src/summary.rs:702-721 | A manifest passes exactly when it is absent, of another schema, or agrees with both status fields of the reconstructed v2 summary. |
| `Availability.ProcessAuthority` | src/summary.rs:660-673 | Fails exactly on an unreadable record; an id has authority exactly when one single record carries it and that record has pid, start time and boot identity. |
| `Availability.ParseUnavailable` | src/summary.rs:525-621 | The declarations parse exactly when each is well formed for its domain, subject and reason, refers to an existing sample and an identified process in it, and no two share a key; order is kept. |
| `Availability.ParseDeclarationIsExact` | src/summary.rs:536-607 | Reading one declaration branch by branch succeeds exactly when the declarative `DeclarationOk` holds and yields the declared metric, subject, reason, process and sample. |
| `Availability.CheckCell` | src/summary.rs:311-334 | One metric cell passes exactly when it is readable and a numeric value has no explanation while an absent one has exactly one; the omission flags say which kind was seen. |
| `Availability.CheckAvailability` | src/summary.rs:288-336 | The nested scan over metrics and rows passes exactly when every cell of the sample is numeric and unexplained or absent and explained once. |
| `Availability.EventExplainsAny` | src/summary.rs:633-659 | True exactly when the declaration applies to some absent cell of some sample. |
| `Availability.ParsedExplanations` | src/summary.rs:623-632 | Counting the matches among the parsed declarations equals counting them among the raw events, for every metric, ordinal and process. |
| `Accounting.CompleteIffNoDeclarations` | src/summary.rs:327 | Of an accepted v2 bundle: COMPLETE exactly when there is no `metric_unavailable` event at all. |
| `Accounting.DegradedIffOperationalEvent` | src/summary.rs:328-333 | Of an accepted v2 bundle: DEGRADED exactly when a retention degradation event exists or some declaration has an operational reason, so one pass over the events gives the status. |
| `Accounting.RunDeclarationIsExclusive` | src/summary.rs:311-334 | A RUN declaration is the only declaration of its metric, and every cell of that metric in every sample is absent. |
| `Accounting.ExplanationIsUnique` | src/summary.rs:319-326 | Two events that explain the same absent cell are one event. |
| `Accounting.DeclaredCellsAreOpenCells` | src/summary.rs:319-335 | The cells named by sample-scoped declarations are exactly the absent cells that no RUN declaration covers. |
| `Accounting.DeclaredCellsAreDistinct` | src/summary.rs:608-611 | Two sample-scoped declarations that name the same cell are one event. |
| `Accounting.OmissionsAreConserved` | src/summary.rs:411-415 | The number of sample-scoped declarations equals the number of absent cells outside RUN declarations, and no PROCESS-scoped declaration survives. |
| `Order.SummaryIsDetermined` | src/summary.rs:464-517 | Two summaries that describe the same accepted bundle are equal in every field. |
| `Order.OrderIsIrrelevant` | src/summary.rs:525-621 | Permuting the event stream and the process stream of a v2 bundle keeps acceptance and every summary field. |
| `Folds.SumIsExact` | src/summary.rs:751-761 | The optional sum fails exactly when a value is malformed or the values before the first absent one exceed u64; it is absent only if some value is; otherwise it is the exact sum. |
| `Folds.SumDependsOnRowOrder` | src/summary.rs:751-757 | Some reordering of the rows changes the outcome if and only if every value is readable, some row lacks the field, and the exact total exceeds u64. |
| `Folds.ThreeRowsInTwoOrders` | src/summary.rs:751-757 | Three rows that are summed to absent in one order and rejected for overflow in another. |
| `RowOrder.RowOrderExactly` | src/summary.rs:343-348 | Every reordering of the rows of an accepted bundle is accepted if and only if, in each sample and for both byte counts, no row lacks the count or all counts together fit u64. |
| `RowOrder.AcceptedReordered` | src/summary.rs:265-409 | A reordering of the rows of an accepted bundle is accepted exactly when its sums still exist: nothing else looks at the order. |
| `RowOrder.SummaryKept` | src/summary.rs:464-517 | Two accepted bundles that differ only in the order of rows have the same summary in every field. |
| `RowOrder.CollectorOrderIsIrrelevant` | src/runtime/windows.rs:560-567 | For samples as the collectors write them the order of the rows decides neither acceptance nor any summary field. |
| `Folds.CpuBelowPeak` | src/summary.rs:394-404 | Over strictly advancing job points, CPU consumed up to any point is at most the peak utilisation times the time between. |
| `Folds.AverageBelowPeak` | src/summary.rs:476-479 | With a job on every sample, the average utilisation exceeds the peak by at most the first sample's CPU divided by the elapsed time. |
| `Journal.AccountIsFinal` | src/evidence.rs:343-347 | In a write-ahead message sequence, later messages never change how often a cell of an earlier sample is explained. |
| `Journal.EveryPrefixAccounts` | src/evidence.rs:426-431 | In every prefix of a write-ahead sequence each sample it contains is fully and uniquely accounted for by declarations in that prefix. |
| `Journal.SettledJournalDeclarations` | src/summary.rs:410-416 | A write-ahead sequence whose declarations are all well formed and used passes the parser's duplicate check and the idle check, and accounts for every sample. |
| `DirectRoot.SemanticCount` | src/runtime/linux.rs:615-640 | The 22 RUN declarations explain each metric that is not measured exactly once and no measured metric. |
| `DirectRoot.RoundCount` | src/runtime/linux.rs:262-300 | How often the declarations of one round explain any metric, sample and process: once per unmeasured metric in the first round, once per failed read's metric in its own round, never otherwise. |
| `DirectRoot.RunIsWriteAhead` | src/runtime/linux.rs:230-366 | For every sequence of read outcomes, the messages of a run are write-ahead. |
| `DirectRootAcceptance.RunIsAccepted` | src/runtime/linux.rs:230-383 | Every finished run or attach with a sample is accepted, is DECLARED_PARTIAL, and is DEGRADED exactly when a target or probe read failed. |
| `DirectRoot.PersistedEvents` | src/runtime/linux.rs:262-300 | The events of a run are exactly the declarations of its rounds. |
| `DirectRootRecords.FinishedShows` | src/runtime/linux.rs:262-381 | A finished stream on its raw fields: the root's identity; per round one row with both CPU times and the threads of the target under their own names, the probe's times, nothing else; authority_unavailable for a denied read and sampling_degraded for a failed one; 22 semantic mismatches; the exit code. |
| `Collectors.EvidenceWriter.Send` | src/evidence.rs:343-347 | A send appends the message or, once the writer accepts no more, fails and changes nothing; when that happens is arbitrary. |
| `Collectors.EvidenceWriter.SendEvents` | src/runtime/linux.rs:263-299 | Sending events in turn stops at the first failure, leaving a prefix of them sent. |
| `Collectors.PersistRound` | src/runtime/linux.rs:262-364 | One turn sends its declarations, converts its ticks, sends its sample; a failure at any point leaves a write-ahead sequence. |
| `Collectors.LinuxRun` | src/runtime/linux.rs:221-381 | The Linux loop over arbitrary polls: a normal end has sent exactly the finished stream of the rounds its polls gave, with the exit they gave; it fails only on a poll that fails it or a full writer; any end leaves a write-ahead sequence. |
| `Collectors.LinuxAttach` | src/runtime/linux.rs:488-603 | An attach sends the finished stream of its one revalidated observation, or fails for a named reason leaving a write-ahead sequence. |
| `Collectors.ObserveCompleteSample` | src/runtime/macos.rs:352-440 | A macOS observation sends a complete round, or an end-of-observation event and no sample, or fails; always write-ahead. |
| `Collectors.MacosCollect` | src/runtime/macos.rs:216-331 | A successful macOS run or attach saw the root live before and after and has sent exactly the finished stream of one round, with the exit event for a run only; it fails only for a named reason. |
| `Ticks.ConversionIsExact` | src/runtime/linux.rs:673-691 | The conversion is floor(ticks x 10^9 / rate), and fails exactly when that value or the sub-second product exceeds u64. |
| `Ticks.NoSpuriousFailure` | src/runtime/linux.rs:681-690 | At a given rate the conversion fails for exactly the ticks whose exact result exceeds u64 if and only if (rate - 1) x 10^9 fits a u64. |
| `Ticks.SpuriousFailure` | src/runtime/linux.rs:685-688 | At every other rate, one tick short of a second fails although its result is below a second. |
| `Ticks.ConversionIsMonotone` | src/runtime/linux.rs:673-691 | More ticks never convert to less time. |
| `Collectors.ReadingIsExact` | src/runtime/linux.rs:319-333 | A stat read that converts is recorded with floor(ticks x 10^9 / rate) of its user and of its kernel ticks and with its thread count; a denied and a failed read stay apart. |
| `Utf8.DecodeCutText` | src/ndjson.rs:46 | A text cut after any number of bytes decodes to the characters it wholly contains, or is invalid when the cut is inside a character. |
| `Utf8.DecodeIsSound` | src/ndjson.rs:46 | Only encodings of texts decode, and they decode to that text. |
| `JsonGrammar.RecognisedExactly` | src/ndjson.rs:63-64 | The recogniser accepts exactly the texts of the JSON grammar: no leading zeros, no trailing commas, no raw control characters, escaped surrogates only in pairs, white space only between tokens. |
| `JsonLaws.RecordIsJson` | src/evidence.rs:446-448 | Every compact record is one JSON object for the recogniser, whatever its members. |
| `JsonLaws.CutRecordIsNotJson` | src/ndjson.rs:63-69 | No strict prefix of a compact record is JSON. |
| `JsonLaws.PrintNoControl` | src/evidence.rs:446-452 | A compact record holds no control character, so no raw newline. |
| `Ndjson.ReadCompleteRecords` | src/ndjson.rs:44-79 | The reader's loop over physical lines returns exactly the records the reader function specifies, or the kind of error. |
| `Ndjson.ReadTorn` | src/ndjson.rs:52-77 | Whole records followed by any byte-prefix of one more read back as the whole records, plus the last if its text is complete; rejected when empty or cut inside a character. |
| `Ndjson.ReadWhole` | src/ndjson.rs:44-79 | Whole records read back exactly; no records at all is an error. |
| `Ndjson.ReadLines` | src/ndjson.rs:44-79 | Any complete lines that are JSON, each with or without a carriage return, yield exactly their texts; the part after the last newline yields its record, or is dropped when it is none, and a stream without lines or with a bare carriage return there is refused. |
| `Ndjson.CorruptLineIsRefused` | src/ndjson.rs:59-77 | A complete line that is no JSON record, wherever it stands, makes the stream unreadable. |
| `Transport.StepKeepsInv` | src/evidence.rs:422-452 | Every step of producer, queue and writer keeps: queue within capacity, disk equal to the completed records plus a byte-prefix of the current one, nothing sent lost or reordered. |
| `Transport.RunKeepsInv` | src/evidence.rs:422-452 | The same over every run. |
| `Transport.StreamRecovery` | src/ndjson.rs:44-79 | Wherever a run stops, each stream is rejected if it is empty or torn inside a character and otherwise reads back as exactly the durable records of that stream. |
| `Transport.CrashSafety` | src/evidence.rs:422-452 | For a write-ahead producer, at every moment the durable records are a prefix of what was sent, each stream recovers exactly its share, and each durable sample is accounted for by durable declarations. |
| `Transport.FinishedRecovery` | src/evidence.rs:349-355 | After a successful finish every non-empty stream reads back as its whole projection. |
| `Transport.Writer.Send` | src/evidence.rs:343-347 | A send succeeds exactly when the queue has room, and is one send step of the model. |
| `Transport.Writer.WriteRecord` | src/evidence.rs:446-452 | Writing a record appends its text and then its newline to its own stream, each a step of the model, and completes it. |
| `Transport.Writer.WriterLoop` | src/evidence.rs:422-438 | Draining the queue leaves every stream reading back as everything sent to it. |
| `Discovery.DiscoverDescendants` | src/runtime/windows.rs:441-452 | The in-place passes end, with the least set that holds the root and is closed under a parent in the set or already known. |
| `Discovery.DescendantsAreChains` | src/runtime/windows.rs:444-448 | That set is exactly the root and every process with a chain of listed parents to the root or a known process, also with cyclic links. |
| `Discovery.DiscoveryIgnoresOrder` | src/runtime/windows.rs:444-448 | Snapshots with the same entries in any order or number give the same set. |
| `WindowsIdentity.StepKeepsIdentity` | src/runtime/windows.rs:319-322 | Every step keeps: record k has id k + 1, a named parent is an earlier record, the root's PID maps to 1, known and retained PIDs map to their own records, and root plus retained handles stay within the limit. |
| `WindowsIdentity.RunKeepsIdentity` | src/runtime/windows.rs:424-523 | The same over every run below u64 saturation. |
| `WindowsIdentity.AncestorsDescend` | src/runtime/windows.rs:458-460 | Following parent links strictly lowers the id, so they are acyclic. |
| `WindowsIdentity.StepKeepsLife` | src/runtime/windows.rs:491-547 | Every step keeps the life of every id: announced only while retained or dropped, otherwise unannounced or announced, exited and released in that order. |
| `WindowsIdentity.HandlesConserved` | src/runtime/windows.rs:386-395 | Once nothing is retained, every announced id has exactly one exit followed by one release if and only if no step retained a process under a PID still retained. |
| `WindowsIdentity.OnlyAnnouncedReleased` | src/runtime/windows.rs:537-547 | Whatever happens, a released child id was announced and seen to exit before, once each. |
| `WindowsRelisting.RelistingLosesHandle` | src/runtime/windows.rs:506-512 | A launched run in which a snapshot misses a running process, the next lists it again while its handle is retained, and the first id is never released. |
| `WindowsRelisting.AttachNeverRelists` | src/runtime/windows.rs:281 | An attach keeps no handle but the root's, so none of its steps relists. |
| `WindowsConservation.ListedIsNotRelisted` | src/runtime/windows.rs:435-439 | If every snapshot lists each PID retained when it is taken, no step of the run relists. |
| `WindowsConservation.NoReturnNoRelisting` | src/runtime/windows.rs:424-523 | If no PID that has vanished from the snapshots is listed again, no step of any run over those turns relists. |
| `WindowsLedger.CellExplained` | src/runtime/windows.rs:357-383 | The declarations of a sample explain each of its cells once if its thread count is missing and not at all otherwise. |
| `WindowsLedger.StepKeepsLedger` | src/runtime/windows.rs:341-385 | Every step keeps: the declarations sent are exactly those owed for the samples sent, all before their sample, and rows never repeat an id. |
| `WindowsLedger.RunKeepsLedger` | src/runtime/windows.rs:323-397 | The same over every run, including the write-ahead discipline. |
| `WindowsAcceptance.AcceptedExactly` | src/runtime/windows.rs:308-398 | The finished stream of any run with a sample is accepted if and only if the environment behaved: valid root identity, sums and job CPU within u64, clock and job CPU not going back, and an identity on record for each process whose thread count went missing. |
| `WindowsAcceptance.StatusExactly` | src/runtime/windows.rs:357-383 | An accepted run is DECLARED_PARTIAL exactly when a thread count was missing and DEGRADED exactly when that happened or retention hit its limit. |
| `WindowsAcceptance.ElapsedIsSumOfGaps` | src/runtime/windows.rs:597-599 | With a clock that never goes back, the summary's elapsed time is the sum of the recorded gaps and at most the largest gap times the number of intervals. |
| `WindowsAcceptance.SumsExactly` | src/runtime/windows.rs:572-591 | The wrapping sums pass the validator's checked recomputation exactly when they did not wrap. |
| `WindowsObserver.Observer.constructor` | src/runtime/windows.rs:316-322 | The loop starts with the root known under id 1, nothing retained and next id 2. |
| `WindowsObserver.Observer.Forget` | src/runtime/windows.rs:435-439 | Exactly the known PIDs that are still listed stay known. |
| `WindowsObserver.Observer.Meet` | src/runtime/windows.rs:457-520 | Registering a process is one step of the model whatever opening it gave; a failed send leaves a prefix of that step's messages. |
| `WindowsTurns.ParentOf` | src/runtime/windows.rs:440-458 | The parent of a listed PID is the one that the last snapshot entry for it names; a PID that is not listed has parent zero. |
| `WindowsRecords.MeetIsRecorded` | src/runtime/windows.rs:457-513 | Over every run: the record of a registered process has the next id, its PID, its start time or zero, and a parent exactly when the listed parent is known, by the id of the earlier record with that PID. |
| `WindowsObserver.Observer.DiscoverChildren` | src/runtime/windows.rs:424-523 | The steps taken are the turn's discovery: the vanished PIDs are forgotten, then exactly the new members of the least closed set are registered, each with the parent and opening of this snapshot, in any order; each registered step has the parent of the last snapshot entry for its PID, and its record names that parent, by the id of the record with the parent's PID, exactly when the parent is known at that step. |
| `WindowsObserver.Observer.FinalizeExitedChildren` | src/runtime/windows.rs:525-549 | Exactly the children whose query says they are gone are finalized, each with the exit code and counters the query gave, and leave the retained map; the events then hold, for each of them, an exit with the code and the like-named counters that its status gave, followed at once by its release. |
| `WindowsObserver.Observer.TakeSample` | src/runtime/windows.rs:341-385 | One sample is taken, and every part of it is the turn's: the root's row and a row for exactly the retained children that could be read, probe, system, job, clock, wall time and liveness; its declarations are sent before it; the sample sent shows them cell by cell, and each missing thread count is declared as degraded sampling. |
| `WindowsRecords.TakenShows` | src/runtime/windows.rs:546-607 | A sample shows the turn's reading cell by cell: twelve counters per row with the root's first, eight of the probe, seven of the system, seven of the job; the two sums are those of the rows modulo 2^64; the gap is exact, none for the first sample and never negative. |
| `WindowsRecords.DeclaredShow` | src/runtime/windows.rs:356-384 | Every missing thread count is declared as sampling_degraded, under the row's id or for the probe. |
| `WindowsObserver.Observer.SampleRows` | src/runtime/windows.rs:560-567 | The rows are the root's and those of the readable retained children, no id twice, in any order. |
| `WindowsObserver.Observer.Declare` | src/runtime/windows.rs:357-383 | Row by row and then for the probe, exactly the owed declarations are sent, or a prefix of them on failure. |
| `WindowsObserver.Observer.ObserveUntilExit` | src/runtime/windows.rs:308-398 | A normal end has no retained child, and its steps are those of the turns up to the root's exit and of the polls after it; it fails only on a full writer or in the first turn or poll not completed, on a query made there, of a child retained then; every end leaves a write-ahead sequence. |
| `WindowsObserver.Observer.ObserveOnce` | src/runtime/windows.rs:323-396 | One turn takes exactly the steps that its snapshot, openings, exit queries and readings give. |
| `WindowsObserver.Observer.AwaitChildren` | src/runtime/windows.rs:386-395 | The polls after the root's exit take exactly the steps their exit queries give, until no child is left. |
| `WindowsObserver.CollectWindows` | src/runtime/windows.rs:187-226 | A successful run or attach has sent exactly the finished stream of the run that its turns and later polls give, every retained handle released; it fails only for a full writer, a query of the turn or poll that the run had reached, or answers that stop before the run does; the stream opens with the root's identity and ends with its exit, code and counters as given, and its release. |
| `WindowsBehaviour.RanSamples` | src/runtime/windows.rs:341-385 | Sample by sample, what a run recorded is what its turns gave, up to the turn that saw the root gone. |
| `WindowsBehaviour.WellBehavedIsEnough` | src/runtime/windows.rs:308-398 | Turns with a clock and job CPU that never go back, counters that fit, a valid root identity, and known thread counts or readable start times make every run of theirs an accepted one. |
| `WindowsBehaviour.AcceptedClock` | src/runtime/windows.rs:339-349 | Only turns whose clock and job CPU do not go back, under a valid root identity, are accepted. |
| `WindowsBehaviour.RunKeepsValid` | src/runtime/windows.rs:487-504 | If every opened process has a PID and a readable start time, every retained and every sampled process has a complete identity on record. |
| `WindowsBehaviour.SmallCountersFit` | src/runtime/windows.rs:572-591 | Counters below a u64 divided by the handle limit fit in whatever combination of children is sampled. |
| `Pipeline.SummariseLinuxRun` | src/runtime/linux.rs:198-383 | Collecting the rounds that the polls give and then summarising always yields a summary when the run ended with a sample, with the status the failed reads dictate; the terminal section is the exit code alone, and every round holds the exact times of its poll. |
| `Pipeline.SummariseWindowsRun` | src/runtime/windows.rs:187-227 | Collecting the run that the turns give and then summarising yields a summary exactly when the environment behaved, always for turns in order, with the run's status; handles are conserved exactly when nothing was relisted, which snapshots without returning PIDs make sure of; the terminal section is the root's code and its user, kernel, read and write counters. |
| `Pipeline.ManifestRepeatsStatus` | src/evidence.rs:361-420 | A completed bundle is accepted again exactly when its manifest repeats the status of its own summary. |
| `Pipeline.DirectRootCrashSafe` | src/runtime/linux.rs:262-301 | For any capacity, interleaving, read outcomes and moment of a crash, every durable sample of a Linux or macOS run is accounted for by durable declarations. |
| `Pipeline.WindowsCrashSafe` | src/runtime/windows.rs:357-385 | The same for every run of the Windows collector. |
| `Pipeline.DirectRootReadsBack` | src/ndjson.rs:47-62 | No finished Linux or macOS bundle with a sample is refused for an empty stream: all three streams read back whole. |
| `Pipeline.WindowsReadsBack` | src/ndjson.rs:47-62 | The same for finished Windows bundles. |
| `Pipeline.SummariseDisk` | src/summary.rs:222-230 | The bundle is recovered exactly when the line reader accepts all three streams; summarising yields a summary exactly when, besides, the recovered bundle is accepted, and it describes that bundle; v2 evidence obeys the rules and the summary reports its records. |
| `Pipeline.DirectRootEndToEnd` | src/runtime/linux.rs:382-383 | After a successful finish, the bytes of the serialised records read back as exactly the run, and it is accepted with the status the failed reads dictate. |
| `Pipeline.WindowsEndToEnd` | src/runtime/windows.rs:226-227 | After a successful finish, the bytes of the serialised records read back as exactly the run, accepted if and only if the environment behaved. |
| `Pipeline.DirectRootCrashVerdict` | src/runtime/linux.rs:221-383 | Wherever a crash stops a run's bytes, they are refused or read back as a cut of the run, accepted exactly when a sample is there and no declaration names the sample after the last, and DEGRADED exactly when a read failed in a round that was kept. |
| `Pipeline.WindowsCrashVerdict` | src/runtime/windows.rs:187-227 | The same for Windows, where the environment must also have behaved up to the cut and the status is decided by the missing thread counts and retention events before it. |
| `CrashVerdict.DirectRootVerdict` | src/summary.rs:566-568 | Every cut of a Linux or macOS stream is accepted if and only if a sample is there and no declaration names the sample after the last. |
| `CrashVerdict.WindowsVerdict` | src/summary.rs:566-568 | Every cut of a Windows stream is accepted if and only if, besides, the environment behaved up to the cut and a recorded root exit has a valid root identity. |
| `CrashVerdict.DirectRootCutStatus` | src/summary.rs:450-459 | An accepted cut of a Linux or macOS stream is DECLARED_PARTIAL, and DEGRADED exactly when a read failed in a round that was kept. |
| `CrashVerdict.WindowsCutStatus` | src/summary.rs:450-459 | An accepted cut of a Windows stream is DECLARED_PARTIAL exactly when a kept sample misses a thread count, and DEGRADED exactly when that happened or retention degraded before the cut. |
| `Pipeline.DirectRootWritable` | src/runtime/linux.rs:221-381 | Every message of a finished Linux or macOS run, exit included, has a serialised object that reads back as that message. |
| `Pipeline.WindowsWritable` | src/runtime/windows.rs:187-225 | Every message of a finished Windows run, the root's exit and release included, has one too. |
| `JsonValue.ValueReads` | src/summary.rs:826-836 | Reading printed JSON gives back the printed value, whatever follows it: strings with any characters, numbers, nested arrays and objects. |
| `JsonValue.RecordReads` | src/evidence.rs:446-448 | The text of a compact record stands for exactly that record. |
| `JsonValue.Utf16EscapeReads` | src/summary.rs:833-841 | Every character is read from its escaped UTF-16 form: one unit, or a surrogate pair. |
| `JsonValue.TextHasValue` | src/summary.rs:826-836 | Exactly the lines that the recogniser accepts have a value. |
| `Schema.ProcessRoundTrip` | src/evidence.rs:15-25 | A process record serialised with any discovery texts is read back field by field as it was, an absent parent included. |
| `Schema.SampleRoundTrip` | src/evidence.rs:46-148 | A sample with all eleven job counters is read back as it was: every numeric cell, every omitted one, rows in order, sums, job, liveness. |
| `Schema.EventRoundTrip` | src/evidence.rs:150-196 | An event of every kind, with all the details that collectors add to it, is read back as it was. |
| `Schema.MetricNameFound` | src/summary.rs:72-208 | The summariser's table finds each metric, and no other, under the name the collectors print. |
| `SchemaNames.MetricsAreNamed` | src/summary.rs:72-208 | Each of the 27 metric names as a literal is found in the table as the metric it names. |
| `SchemaNames.SharedCellsRead` | src/evidence.rs:46-108 | The eight cells common to rows and probe are read under their literal keys, for every object. |
| `SchemaNames.RowCellsRead` | src/evidence.rs:59-66 | The four cells that only rows have are read under their literal keys. |
| `SchemaNames.SystemCellsRead` | src/evidence.rs:110-126 | The seven system cells are read under their literal keys. |
| `SchemaNames.LastKeyIsRead` | src/summary.rs:769-780 | Of repeated keys the last one is read, and only a key that does not occur is missing. |
| `SchemaNames.ProcessIsWritten` | src/evidence.rs:15-25 | A process record is written under its literal keys. |
| `SchemaNames.JobIsWritten` | src/evidence.rs:75-88 | Each job counter is written under its literal key. |
| `SchemaNames.SampleIsWritten` | src/evidence.rs:128-148 | A sample is written under its literal keys, with the v2 schema name and its record type. |
| `SchemaNames.DeclarationIsWritten` | src/evidence.rs:171-180 | A declaration is written with its metric, subject, reason, process and ordinal under their literal keys. |
| `SchemaNames.ExitIsWritten` | src/runtime/windows.rs:787-811 | An exit is written with its code, both times, both byte counts and their fidelity under their literal keys. |
| `Recovery.RecoveredIsDurable` | src/summary.rs:223-228 | Wherever the writer stopped, the bundle on disk is refused when a stream is empty or torn inside a character, and otherwise holds exactly the durable messages, record for record. |
| `Recovery.RecoverExactly` | src/summary.rs:826-843 | A bundle is recovered exactly when the line reader accepts all three streams. |
| `Recovery.PacketsAreFaithful` | src/evidence.rs:15-196 | The packets that a collector queues for writable messages all read back as those messages. |
| `Recovery.BodiesAreFaithful` | src/evidence.rs:15-196 | What a collector serialises for a message reads back as that message. |
| `CommandLine.QuoteWindowsArgument` | src/runtime/windows.rs:1055-1077 | The character loop produces the quoted form of the argument that the parsing lemmas invert. |
| `CommandLine.QuotedExactly` | src/runtime/windows.rs:1056-1058 | An argument is passed unchanged exactly when it is not empty and has none of the 25 white-space characters and no quote; otherwise quotes enclose it. |
| `CommandLine.BuildWindowsCommandLine` | src/runtime/windows.rs:1044-1054 | Refused exactly when some argument holds NUL; otherwise the quoted arguments joined by single spaces and a final NUL. |
| `CommandLine.ArgumentRoundTrip` | src/runtime/windows.rs:1055-1077 | One quoted argument, with any backslashes, quotes, blanks or nothing in it, parses back exactly, under both variants of the doubled-quote rule. |
| `CommandLine.CommandLineRoundTrip` | src/runtime/windows.rs:1044-1077 | The whole command line parses back to the argument vector if and only if the program name has no quote and, when it is quoted, no trailing backslash. |
| `ProcStat.StatRoundTrip` | src/runtime/linux.rs:92-130 | For every command name, with any spaces, digits, newlines and parentheses, a printed record parses to the PID, times, threads and start time it was printed from, exactly when the PID matches and the values fit. |
| `ProcStat.ShortRecordRefused` | src/runtime/linux.rs:110-123 | A record with fewer than twenty fields after the command name is refused. |
| `ProcStat.BootIdExactly` | src/runtime/linux.rs:66-80 | A boot identity is accepted exactly when it has 36 characters, dashes at 8, 13, 18 and 23 and hexadecimal digits elsewhere, with or without one final newline. |
| `ProcStat.BootIdIsStable` | src/runtime/linux.rs:66-80 | An accepted boot identity is accepted again unchanged, with or without its final newline. |
| `Decimal.ParseDecimal` | src/runtime/linux.rs:103-106 | Decimal printing and parsing are inverse up to the range of the target type. |
| `Decimal.ParseExactly` | src/runtime/linux.rs:103-116 | A text is read as a number exactly when it is that number in decimal after any zeros and at most one plus sign, and the number is in range. |

## Left out

- The typed records carry the fields that the validator reads. Discovery source, acquisition result,
  scheduled time, delay, the other job counters and the other event details appear only as arbitrary
  details of the serialised objects, untied to the run.
- Error messages and error kinds: an error is `Err` or `None`, except the two kinds of reader error.
- f64 rounding: utilisations are real numbers.
- `Ndjson.ReadCompleteRecords`: serde_json also refuses nesting deeper than 127 levels and numbers beyond
  the range of f64; the recogniser accepts both.
- JSON numbers that are no unsigned integers are one value in `JsonValue`: no reader tells them apart and no
  collector writes one.
- The v1 reader is kept as a branch of the validator and fold, without properties of its own.
- Operating-system write errors, and data lost from the disk cache after a flush, are not modelled.
- `Collectors.EvidenceWriter.Send`: fails from an arbitrary message on, which stands for a queue that stays
  full and for a writer that has gone away; the queue itself is in `Transport`.
- `Transport.Writer.Send`: a full queue fails at once; the 250 ms during which the writer may make room are
  not modelled.
- `Transport.Writer.WriteRecord`: the program appends the text and the newline in one piece each; pieces of
  any size appear in the step relation of `Transport` and in the crash theorems.
- Windows sums model a release build; a debug build stops at the overflow instead.
- Process-local ids and sample ordinals are modelled below u64 saturation.
- `WindowsObserver.Observer.ObserveUntilExit`: states safety on return only; that waiting for the last
  children ends depends on the environment. Polls beyond the given ones end as still running.
- `CommandLine.BuildWindowsCommandLine`: characters stand for UTF-16 units; the encoding is left out.
- `ProcStat.StatRoundTrip`: the 8 KiB bound on the record and its UTF-8 check come before parsing and
  are left out.
- Identity comparison, macOS start-time and command checks, the job and handle calls of Win32, libproc,
  sysctl, sleeping, timestamps, host and platform documents, signal names, the command-line
  interface, and the fixed retention counter in src/contract.rs: plumbing, or answers that enter as
  arguments.
