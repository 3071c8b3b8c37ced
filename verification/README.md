# Verified model of the RemnaPlus node agent

A Dafny model of the stateful core of the node agent that runs next to the Xray proxy,
with proofs of what its protocols, crash procedures and codecs promise. `dafny verify
dfyconfig.toml` checks everything.

Code that updates state in place is modelled by classes and methods whose contracts give
the whole new state; code that computes is modelled by functions; code that runs
concurrently (the core's lifecycle, the geodata pool) is a state machine over its atomic
steps. Whatever the outside world decides (whether an I/O call fails, how far a write
gets, what the clock shows, which goroutine moves next) is an arbitrary choice, so every
contract holds for all of them. Where calls may fail, the contracts also say what happens
when none does (`reliable`), so that no operation can get by with failing. Go's integer
wrap-around is written out wherever it can be observed.

## What is modelled

**Accounting** (`CounterNames`, `Aggregation`, `Accounting`, `AccountingRuns`). The durable
journal that hands out one traffic sample at a time, replays it until it is acknowledged
or quarantined, and rebaselines on a new core or a counter that runs backwards. A journal
write can fail before or after its rename; a process death is such a failure. The runs
are over an idealised client that applies each sample id once; sample ids are fresh.

**Log pipeline** (`Lines`, `ChunkReader`, `LogWriter`, `Rotation`, `RotatedLog`, `SegmentNames`, `Cleaner`).
The writer that cuts complete lines off a byte stream and seals full files under a
rotation journal, the crash recovery of that journal, the reader that pages through a
growing file, and the retention that removes old segments. In `Rotation` a power loss may
keep or lose every directory operation that has not been synced, each on its own.

**User hash mirror** (`HashedSets`, `HashText`, `HashState`, `Handlers`). The exclusive-or
set hash over UTF-16 code units (section 2.1 of RFC 2781), its printed form, the decision
to skip a restart, and the four user handlers that keep the hash in step with the core
while any core call may fail. A core call that fails changes nothing; adding a user the
inbound already holds fails. Handlers run one at a time.

**Core lifecycle** (`Lifecycle`). Start, Stop, Health and RunningConfig calls in any number,
and one monitor for each core. A core fetches its configuration over the internal socket some
time after it was spawned, and answers pings only after that and while it is alive.

**ASN database** (`Asn`). The binary writer and the binary-search reader. A prefix is its
address bytes and a length.

**Artifacts** (`CoreLoader`, `Geodata`). Installation of a custom core as a sequence of
file-system steps that may stop anywhere, and the bounded pool that downloads geodata.

## What the proofs found

These are cases in which the code does not do what one would hope for. Each has a lemma
with the exact condition or a concrete witness.

- Recovery that finds no journal syncs nothing. A process killed between the removal of
  the journal and the directory sync that follows leaves a state from which a later power
  loss can produce a rotation collision, and only that does
  (`Rotation.OpenLogCollidesIff`, `Rotation.KilledSealCanCollide`); a file
  system that keeps directory operations in order never does.
- Every rotation and every first start leave an active file whose directory entry is not
  synced. A power loss before the next directory sync can lose all its bytes, for instance
  after the next seal has written its journal. This is the only way: at each crash point
  one copy survives every power loss if and only if the entry was durable when the seal
  started or the seal's first directory sync is done (`Rotation.SealKeepsOneCopyIff`,
  `Rotation.SealedLogIsEndangered`, `Rotation.UnsyncedActiveCanBeLost`). Kills never lose
  anything (`Rotation.KilledSealRecovers`).
- A seal that fails after it created its journal, or after it closed the file, cannot be
  repeated: no segment is sealed until the next start, and with the file closed every Write
  only adds to the pending bytes (`LogWriter.SegmentedLogWriter.Seal`,
  `LogWriter.SegmentedLogWriter.Write`).
- A seal killed between creating its journal and writing it leaves a journal at which every
  later start stops (`Rotation.KillTearsJournalIff`, `Rotation.TornJournalIsForever`).
- The first gap record after the gap journal is created is not protected against power
  loss until the directory is synced, which happens only after the segments are gone
  (`Cleaner.PowerLossKeepsGapsIff`, `Cleaner.UnlinkedJournalCanLoseGap`).
- A gap record written in part makes the gap journal unreadable for good, and with it every
  later clean-up reports an error although it removes segments (`Cleaner.TornAppendIsForever`).
- A counter that vanishes and comes back within one core process is credited from zero
  (`AccountingRuns.VanishingCounterIsOvercredited`); the books stay balanced if and only if
  the counter continues (`AccountingRuns.FreshIsBalancedIff`). A counter with no spelling
  left gives 0 even if its old sum was negative (`Aggregation.DeltaIsClampedDifference`).
- An ASN with more than 65535 prefixes of one family does not read back (`Asn.RoundTrip`).
- `xrayOnline` can stay true with no core alive (`Lifecycle.OnlineMayBeStale`): exactly when
  a Health or Start call writes it after the process has been cleared
  (`Lifecycle.OnlineMeansProcessIff`).
- A start request that does not list an inbound with users leaves the hash mirror wrong from
  the start (`Handlers.MirrorAfterStartIff`, `Handlers.UnlistedInboundIsNotMirrored`).
- If a new custom core has the size and modification time of the old one, the old
  specification still counts as installed until the new marker is written
  (`CoreLoader.OldMarkerMisleadsIff`, `CoreLoader.OldMarkerInstance`).

## Model

| member | source | states |
|---|---|---|
| `Lines.SplitCompleteLinesWithOffsets` | internal/auditlog/service.go:502-521 | the loop reports the complete lines with the absolute offset of each, and as next offset the start of the unfinished tail |
| `Lines.CompleteLinesExact` | internal/auditlog/service.go:502-521 | a line is reported if and only if it is a newline-free stretch of the text between line starts, without its CR, not empty, at its own offset |
| `Lines.CompleteLinesConcat` | internal/auditlog/service.go:502-521 | splitting two texts of which the first ends in a newline gives the lines of the one followed by the lines of the other: a cut at a line end loses nothing |
| `Lines.LineAlone` | internal/auditlog/service.go:502-521 | one line with its newline: a CR before the newline is no part of it, and a blank line is no line; with the concatenation law this fixes the lines of every text |
| `Lines.TailIsIrrelevant` | internal/auditlog/service.go:502-521 | bytes after the last newline contribute no line and do not move the next offset |
| `Lines.OffsetsIncrease` | internal/auditlog/service.go:508-518 | reported offsets strictly increase and stay inside the text that was read |
| `ChunkReader.ReadChunk` | internal/auditlog/service.go:106-219 | a missing file, a changed inode, an empty window, a failing read and a successful one each have their exact result. Without a timestamp: a first request reports exactly the lines that start within the last tail bytes (1000000 by default), beyond the first of them, or all lines of a shorter log, and goes on at its unfinished tail; a request from an offset reports the complete lines up to the end asked for, the end of the log or the limit (5000000 by default) |
| `ChunkReader.NewestAreRead` | internal/auditlog/service.go:136-191 | the window and the text of a first request amount to the newest lines, to the end of the log, whether the tail starts inside a line, on a line end or before the log |
| `ChunkReader.RestIsRead` | internal/auditlog/service.go:136-191 | the window and the text of a request from an offset amount to the complete lines between that offset and the nearest of end, log end and limit |
| `ChunkReader.RecentLinesStay` | internal/auditlog/service.go:192-205 | the timestamp filter keeps exactly the lines that are not older than the timestamp or bear none |
| `ChunkReader.RecentLinesStayInOrder` | internal/auditlog/service.go:192-205 | and keeps them in their order |
| `ChunkReader.InitialTailIsSuffix` | internal/auditlog/service.go:137-191 | an initial tail, whose partial first line is dropped, reports the last lines of the file up to its window with their true offsets, never part of a line |
| `ChunkReader.DropLandsOnLineStart` | internal/auditlog/service.go:485-495 | what remains after dropping a partial first line starts a line, whether a CRLF or an LF comes first |
| `ChunkReader.FollowOnce` | internal/auditlog/service.go:136-217 | a call of the reader for a follower's request is one step of the follower that the run theorems are about |
| `ChunkReader.PollKeepsExact` | internal/auditlog/service.go:143-191 | following NextOffset keeps exactly the lines before the offset collected, and never goes back |
| `ChunkReader.FollowingLosesNothing` | internal/auditlog/service.go:136-217 | for any run of polls with any limits while the file grows: the lines collected, then the lines of the rest, are the lines of one split of the first EndOffset bytes |
| `ChunkReader.FollowingRefinesOneShot` | internal/auditlog/service.go:136-217 | when every limit admits the longest line, each poll advances, at most EndOffset polls reach the tail, and lines and offsets then equal those of one split |
| `ChunkReader.ServedFollowerIsExact` | internal/httpserver/audit.go:16-145 | for every follower the audit endpoint can serve, whose limits it caps, on a log below 2^62 bytes, both run theorems hold with no bound left to check |
| `ChunkReader.WrappedLimitSkipsLines` | internal/auditlog/service.go:158-176 | the boundary of the exported function, outside what the endpoint admits: with lines left to read, a poll of a file that may have grown stays exact if and only if offset plus limit fits an int64 |
| `ChunkReader.WrappedLimitInstance` | internal/auditlog/service.go:158-176 | a three-byte file and a limit of 2^63-1 for which the reader skips a line |
| `LogWriter.RestIsShort` | internal/xray/logrotate.go:89-117 | what stays pending has no newline, is shorter than the flush limit and is the end of the input |
| `LogWriter.UnitsAreLines` | internal/xray/logrotate.go:93-115 | units and rest are the pending bytes; each unit is one line of at most 1048576 bytes with its newline, or a newline-free run of at least that many; the rest is shorter and has no newline |
| `LogWriter.NextUnitIsLine` | internal/xray/logrotate.go:93-115 | in a stream of short lines the unit cut off next is exactly the next line with its newline |
| `LogWriter.SegmentedLogWriter.AfterRecovery` | internal/xray/logrotate.go:49-87 | opening keeps every file, starts with the active file's size and counts the sealed segments as the generation |
| `LogWriter.SegmentedLogWriter.NextGeneration` | internal/xray/logrotate.go:136-145 | the search for a free name stops at the first unused generation, however many are taken |
| `LogWriter.SegmentedLogWriter.Seal` | internal/xray/logrotate.go:131-194 | sealing moves the old active bytes to one name that was free, changes no other file and opens an empty one; if it fails anywhere no stored byte is lost; where an earlier seal left its journal or a closed file, no seal succeeds any more; otherwise it succeeds on a disk that never fails |
| `LogWriter.SegmentedLogWriter.MakeRoom` | internal/xray/logrotate.go:120-124 | the active file is sealed exactly when the unit or the day demands it, under its old day, and otherwise nothing changes; afterwards the file is of the day of the write |
| `LogWriter.SegmentedLogWriter.WriteLine` | internal/xray/logrotate.go:119-129 | a unit of the same day that fits is appended without a seal; any other goes alone into a new file, the old one sealed under its day; after it the active file is of the day of the write, and within the limit or that one unit; every byte in a sealed segment was written on the day in its name; on failure at most a prefix of the unit was added |
| `LogWriter.SegmentedLogWriter.Write` | internal/xray/logrotate.go:89-117 | segments, active file and pending bytes together grow by exactly the bytes written; after an error what is pending and what is stored overlap but leave nothing out; once a failed seal has closed the file, nothing is stored any more and everything written is added to the pending bytes; on a disk that never fails it never does |
| `LogWriter.SegmentedLogWriter.Close` | internal/xray/logrotate.go:196-209 | closing without an error leaves every byte ever written in the files |
| `LogWriter.LinesOfAlignedFiles` | internal/auditlog/service.go:502-521 | the lines found file by file are the lines of the files run together, if every file ends in a newline |
| `LogWriter.RotationSplitsNoLine` | internal/xray/logrotate.go:89-194 | after any run of the writer without an I/O error on a stream of short lines, reading the sealed segments in order and then the active file gives exactly the lines of the whole stream, and the pending bytes are its unfinished tail |
| `LogWriter.RetentionKeepsLaterDays` | internal/auditlog/service.go:386-395 | a segment that retention may remove holds no byte, written by its writer, of a day that had not begun before the cutoff |
| `Rotation.LogDirectory.Seal` | internal/xray/logrotate.go:146-193 | wherever an operation fails, the disk has gone through the first of the steps the crash theorems range over; it succeeds when none fails |
| `Rotation.LogDirectory.Recover` | internal/xray/logrotate.go:211-260 | recovery's verdict and the disk states it goes through, wherever an operation fails; without a failure the verdict is the answer |
| `Rotation.RecoveryFinishesIff` | internal/xray/logrotate.go:211-260 | from any disk at all recovery finishes if and only if there is no journal, or it can be read and exactly one of the two files is there; then that file has its journalled name and the journal is durably gone; a collision, a loss or a torn journal changes nothing |
| `Rotation.RecoveryLosesNothing` | internal/xray/logrotate.go:240-259 | from any disk at all and wherever it stops, recovery keeps every segment with its bytes, and the active bytes under their own or the journalled name: it never overwrites |
| `Rotation.PowerLossKeepsOneCopyIff` | internal/xray/logrotate.go:146-193 | during a rotation every image a power loss may leave has exactly one copy of the bytes if and only if no creation of the active file is unsynced; either way the earlier segments are untouched |
| `Rotation.SealHolds` | internal/xray/logrotate.go:146-193 | at every crash point of seal, from any open log, the running process sees exactly one copy, the journal names where it goes, and the active entry is durable from the first directory sync on; the whole seal leaves an open log with the bytes under the name |
| `Rotation.SealKeepsOneCopyIff` | internal/xray/logrotate.go:146-193 | at crash point k every power-loss image keeps one copy if and only if the first directory sync is done or the active entry was durable at the start |
| `Rotation.SealIsSafeIff` | internal/xray/logrotate.go:146-193 | a whole seal is safe against power loss at all its crash points if and only if the active entry was durable at the start |
| `Rotation.KilledSealRecovers` | internal/xray/logrotate.go:131-260 | with kills alone, from any disk whose active file the process sees, whatever has reached it: seal and its recoveries cut anywhere, and the next recovery finds no collision and no loss, and seals the bytes if the journal was written |
| `Rotation.KillTearsJournalIff` | internal/xray/logrotate.go:154-160 | a kill during seal leaves a torn journal if and only if it falls between creating the journal and writing it |
| `Rotation.TornJournalIsForever` | internal/xray/logrotate.go:211-226 | recovery from a torn journal changes nothing, so every later opening, after any number of kills, stops at it again |
| `Rotation.RestartKeepsHeld` | internal/xray/logrotate.go:211-260 | after a kill, or a power loss with the active entry durable, the bytes, a durable entry and a synced journal are still there |
| `Rotation.RecoveryHolds` | internal/xray/logrotate.go:211-260 | every crash point of recovery holds the bytes too; its verdict is never a collision or a loss, only a torn journal that was never synced; it ends with the bytes under the sealed name and no journal |
| `Rotation.AttemptsHold` | internal/xray/logrotate.go:211-260 | any number of recoveries, each cut short anywhere, keeps the bytes held |
| `Rotation.DurableSealIsNeverEndangered` | internal/xray/logrotate.go:131-260 | from a durable start, or once the first directory sync of the seal is done, every pattern of kills and power losses is covered by the crash theorem |
| `Rotation.RotationSurvivesCrashes` | internal/xray/logrotate.go:131-260 | seal cut anywhere, then any number of interrupted recoveries, then one undisturbed, with power losses only while the active entry is durable: no collision, no loss, one copy of the bytes and all earlier segments; with the journal still there they end under exactly the journalled name |
| `Rotation.RotationsConserveBytes` | internal/xray/logrotate.go:89-260 | over any number of rotations, undisturbed or crashed and recovered, with writes, directory syncs and kills between them: the log is open again, every sealed segment stands under its name, and segments and active file hold exactly the initial bytes and all that was written |
| `Rotation.OpenLogCollidesIff` | internal/xray/logrotate.go:180-216 | for every open log, whatever has been written to it: a power loss can leave the last journal, the active file and a sealed segment it names if and only if that journal is still on the disk, its removal unsynced |
| `Rotation.ReopenCollidesIffRemovalUnsynced` | internal/xray/logrotate.go:211-216 | after a recovery that found no journal, creating the active file makes a later collision possible if and only if the journal's removal was not yet synced |
| `Rotation.OrderedJournalingNeverCollides` | internal/xray/logrotate.go:211-216 | no such collision when directory operations reach the disk in order |
| `Rotation.KilledSealCanCollide` | internal/xray/logrotate.go:180-191 | a seal killed just after it removed its journal is such a disk, and stays one whatever is then written |
| `Rotation.SealedLogIsEndangered` | internal/xray/logrotate.go:183-193 | after every seal, whatever is then written, the active entry is not durable until a directory sync |
| `Rotation.UnsyncedActiveCanBeLost` | internal/xray/logrotate.go:146-193 | from every open log whose active entry is not durable, whatever it holds, a power loss during seal can leave the journal and neither file |
| `RotatedLog.SealsAgree` | internal/xray/logrotate.go:131-194 | the files the writer has after a seal are what the crash model shows after its last step |
| `RotatedLog.CrashKeepsWritersBytes` | internal/xray/logrotate.go:89-260 | cut a writer's seal anywhere and let it recover: its sealed segments and its active bytes are on the disk, and together they are what it had stored |
| `SegmentNames.EligibleReadsWritersDay` | internal/auditlog/service.go:381-395 | a segment named by the writer may be removed if and only if it is allowed and its opening day started before the cutoff: retention reads back the day the writer wrote |
| `SegmentNames.EligibleInNumbers` | internal/auditlog/service.go:381-395 | the same in numbers: the day before that of the cutoff, or that day when the cutoff is past its midnight |
| `SegmentNames.NameDayReads` | internal/auditlog/service.go:381-395 | a day is read from every name of the form prefix, eight characters, dash, anything, suffix |
| `SegmentNames.NameDayMeans` | internal/auditlog/service.go:381-395 | and from no other name |
| `SegmentNames.ParsedIff` | internal/auditlog/service.go:393-395 | eight characters are a day if and only if they are digits of a day of the Gregorian calendar, year first |
| `SegmentNames.DayTextIsNumber` | internal/xray/logrotate.go:138 | the eight digits the writer prints are that number |
| `SegmentNames.NameInstance` | internal/xray/logrotate.go:138 | the third segment of 2 January 2024 of access.log, letter by letter |
| `SegmentNames.SegmentNameInjective` | internal/xray/logrotate.go:138 | different days or generations never share a segment name, also beyond six digits |
| `SegmentNames.LogsShareNoSegment` | internal/auditlog/service.go:352-385 | no file counts as a segment of two logs unless one log's name begins with the other's |
| `SegmentNames.ActiveIsNotEligible` | internal/auditlog/service.go:339-342 | the active file is never eligible |
| `Cleaner.JournalReadsIff` | internal/auditlog/service.go:440-463 | the gap journal can be read if and only if no record in it was written in part, but for a missing last newline; it then gives every record in order |
| `Cleaner.TornAppendIsForever` | internal/auditlog/service.go:364-379 | after one partial record the journal cannot be read again, whatever is appended |
| `Cleaner.PowerLossKeepsGapsIff` | internal/auditlog/service.go:364-428 | when every removed segment has a synced record, no power loss loses a gap if and only if the journal's directory entry is durable or nothing has been removed |
| `Cleaner.UnlinkedJournalCanLoseGap` | internal/auditlog/service.go:364-413 | with a journal whose entry is not durable, the steps for one segment reach a moment at which a power loss can leave neither segment nor gap |
| `Cleaner.CleaningSurvivesPowerLoss` | internal/auditlog/service.go:343-438 | at any moment of a clean-up that began with a durable journal, every image a power loss may leave has each segment or its gap, and only eligible segments are missing |
| `Cleaner.LogDirectory.CleanSegment` | internal/auditlog/service.go:398-419 | the gap record is whole and synced before the segment goes; at every step in between either nothing or just this segment is gone |
| `Cleaner.LogDirectory.CleanSealedSegments` | internal/auditlog/service.go:343-438 | at every moment, with the log writer running beside it, every segment ever sealed is there or has its gap synced with name and full size, and nothing but eligible segments is gone; success means that exactly the eligible segments listed were removed, once each, with matching counts and bytes |
| `Cleaner.ReturnedGaps` | internal/auditlog/service.go:426-437 | the gaps returned for a log are those it had in the journal, in order, and then what has just gone |
| `Cleaner.OfSourceConcat` | internal/auditlog/service.go:430-436 | filtering by source keeps the order of the journal |
| `Cleaner.SourcesAre` | internal/auditlog/service.go:353-356 | access.log is the access log, every other file the error log |
| `Cleaner.LogDirectory.CleanLogsAt` | internal/auditlog/service.go:318-337 | the same over the access and the error log, which share the directory and the gap journal: every moment is good, and success means that exactly the segments eligible when their log was listed were removed, with summed counts and bytes and the gaps read back for each log |
| `Cleaner.LogDirectory.EligibleIsRecorded` | internal/auditlog/service.go:318-337 | a segment eligible for either log at the start has its gap with its full size, whichever turn it went in |
| `CounterNames.ParseExact` | internal/stats/accounting_snapshot.go:282-303 | a name parses to a counter if and only if it is one of that counter's two spellings; names that are empty, hold the separator or end in its first character have none |
| `CounterNames.SpelledNamesParse` | internal/stats/accounting_snapshot.go:282-303 | the three kinds and the two directions, in letters: each clean name of either spelling parses to its counter |
| `CounterNames.AccountingNamesAre` | internal/stats/accounting_snapshot.go:305-308 | what counts as an accounting name, in letters |
| `CounterNames.SpellingsAreDistinct` | internal/stats/accounting_snapshot.go:282-303 | no two counters share a spelling, and a counter's two spellings differ |
| `CounterNames.RowKeyInjective` | internal/stats/accounting_snapshot.go:233-251 | rows of different kinds or names never share the key they are collected under |
| `Aggregation.Collect` | internal/stats/accounting_snapshot.go:196-231 | in any iteration order the sums are, for each counter, the sum over both spellings of the entries that are numbers, and the unsupported names are counted |
| `Aggregation.Rows` | internal/stats/accounting_snapshot.go:232-251 | in any iteration order each user, inbound and outbound gets one row with the non-negative difference of either direction |
| `Aggregation.AccountingResponse` | internal/stats/accounting_snapshot.go:185-280 | the response has exactly the non-zero rows of the sample, one for each name, sorted by name in each of its lists, and its diagnostics in order |
| `Aggregation.RowsInLetters` | internal/stats/accounting_snapshot.go:185-280 | for any sample and each kind: a row is in the list if and only if its name is clean, its two numbers are what the two counters of that name, in letters and over both spellings, have grown by, and one of them has |
| `Aggregation.OneCounterOneRow` | internal/stats/accounting_snapshot.go:185-280 | a sample whose one counter grew by n has exactly one row, under its kind and name, with n in its direction, for either spelling; with n = 0 it has none |
| `Aggregation.SpellingsAdd` | internal/stats/accounting_snapshot.go:199-231 | a counter spelt both ways counts as the sum |
| `Aggregation.ShrunkIsNothing` | internal/stats/accounting_snapshot.go:233-250 | a counter that shows less than before counts as no traffic |
| `Aggregation.UnsupportedIsCounted` | internal/stats/accounting_snapshot.go:199-280 | a counter of one of the kinds that does not parse makes no row and one diagnostic, any other neither |
| `Aggregation.LessIff` | internal/stats/accounting_snapshot.go:252-256 | the order of the rows: a proper beginning, or smaller where two names first differ |
| `Aggregation.RenderingIsUnique` | internal/stats/accounting_snapshot.go:252-280 | those conditions determine the response: no iteration order can change it |
| `Aggregation.DeltaIsClampedDifference` | internal/stats/accounting_snapshot.go:233-250 | a row's value is max(0, To minus From) over both spellings, if and only if a spelling is left in To or the old sum was not negative |
| `Aggregation.RespellingIsFree` | internal/stats/accounting_snapshot.go:199-279 | if any set of counters changes its spelling, either way, and nothing else changes, every list of the response is empty |
| `Accounting.AccountingSnapshotService.Snapshot` | internal/stats/accounting_snapshot.go:92-183 | the journal left on disk and the reply, for every acknowledgement, quarantine, failing read and failing write, are those of the protocol's one-call specification, and a reply renders the pending sample |
| `Accounting.AccountingSnapshotService.WriteJournal` | internal/stats/accounting_snapshot.go:321-354 | the journal is the old one or the new one, and the new one may be there although an error is reported |
| `Accounting.AccountingSnapshotService.CounterDropped` | internal/stats/accounting_snapshot.go:164-171 | the loop detects exactly that some counter reads less than at the last acknowledged sample |
| `Accounting.AccountingSnapshotService.EncodeCounters` | internal/stats/accounting_snapshot.go:155-158 | the sample's end point holds every counter that was read and nothing else |
| `AccountingRuns.CallCases` | internal/stats/accounting_snapshot.go:92-183 | a call either leaves the journal alone, acknowledges (and perhaps takes the next sample), quarantines, or takes a sample: there is no other change |
| `AccountingRuns.JournalIsChained` | internal/stats/accounting_snapshot.go:106-182 | in every journal any run can leave on disk, a pending sample is a baseline of equal ends or starts where the acknowledged one ended, in the same core process, with no counter running backwards |
| `AccountingRuns.PendingIsReplayed` | internal/stats/accounting_snapshot.go:104-150 | until its id is acknowledged or quarantined the pending sample stays on disk and is what every reply shows |
| `AccountingRuns.RepeatedAckIsIdempotent` | internal/stats/accounting_snapshot.go:106-115 | repeating an acknowledgement changes nothing and raises no diagnostic |
| `AccountingRuns.RepeatedQuarantineIsIdempotent` | internal/stats/accounting_snapshot.go:116-147 | a quarantine that the journal names changes nothing when repeated and raises no diagnostic |
| `AccountingRuns.QuarantineIsRemembered` | internal/stats/accounting_snapshot.go:116-147 | two calls: a quarantine of the pending sample that reached the disk, whatever became of its reply, is named by the journal, so the same call again shows the sample pending by then, changes nothing and raises no diagnostic |
| `AccountingRuns.AckIsRemembered` | internal/stats/accounting_snapshot.go:106-115 | two calls: the same for an acknowledgement, with or without a new sample |
| `AccountingRuns.CallsAreAnswered` | internal/stats/accounting_snapshot.go:92-183 | with a readable journal, readable counters and writes that succeed every call is answered |
| `AccountingRuns.WhatRepliesComplainOf` | internal/stats/accounting_snapshot.go:106-150 | the one diagnostic a reply adds: both actions at once are invalid, and an acknowledgement or a quarantine is unknown exactly when it is neither pending nor remembered |
| `AccountingRuns.WhatASampleSpans` | internal/stats/accounting_snapshot.go:151-178 | a new sample ends at the counters just read and starts where the acknowledged one ended if and only if the core still runs and no counter fell; otherwise it is a baseline that says why |
| `AccountingRuns.WhatAQuarantineLeaves` | internal/stats/accounting_snapshot.go:116-143 | a quarantine leaves the counters just read as the new baseline and names the sample set aside |
| `AccountingRuns.DeltaIsExactIff` | internal/stats/accounting_snapshot.go:233-250 | a row equals the true difference if and only if that is not negative and the counter is still there, or it never counted |
| `AccountingRuns.FreshIsBalancedIff` | internal/stats/accounting_snapshot.go:155-182 | taking a sample keeps a counter's books balanced if and only if it is a baseline, or the counter is still there and has not shrunk, or it is gone and was 0 |
| `AccountingRuns.NoVanishingContinues` | internal/stats/accounting_snapshot.go:161-176 | a counter none of whose own spellings vanishes satisfies that, whatever other counters do |
| `AccountingRuns.StepBalanceIff` | internal/stats/accounting_snapshot.go:92-183 | from balanced books any call, whatever fails, leaves them balanced if and only if the sample it takes, if any, is a baseline or continues |
| `AccountingRuns.BaselineBalances` | internal/stats/accounting_snapshot.go:134-140 | a call that puts a baseline on the disk balances the books, whatever they were before |
| `AccountingRuns.CreditsAreConserved` | internal/stats/accounting_snapshot.go:92-183 | over every run of an idealised client with lost replies, repeated or stale acknowledgements, failing reads, writes and crashes: if the counter continues in the samples taken since the last baseline, the bytes credited since then are the last acknowledged total minus the baseline total, plus the pending sample if it was applied |
| `AccountingRuns.QuarantinedIsNeverCredited` | internal/stats/accounting_snapshot.go:116-147 | in every run of an idealised client, whatever the counters do, no quarantined sample is ever applied |
| `AccountingRuns.VanishingCounterIsOvercredited` | internal/stats/accounting_snapshot.go:92-183 | a run of three calls with an idealised client in which a counter vanishes and returns: it is credited what it showed before once more and the books are out of balance |
| `HashedSets.HashedSet.Add` | internal/xray/hashedset.go:25-33 | a member more, and both words remain the exclusive or over all members; a duplicate changes nothing |
| `HashedSets.HashedSet.Delete` | internal/xray/hashedset.go:35-44 | a member less, the words again the exclusive or over the rest; reports whether it was there |
| `HashedSets.HashedSet.FromItems` | internal/xray/hashedset.go:17-23 | the set of the items, whatever their order and repetitions |
| `HashedSets.FoldTakesAny` | internal/xray/hashedset.go:25-44 | the words of a set do not depend on the order in which members are taken |
| `HashedSets.Djb2Dual` | internal/xray/hashedset.go:63-73 | the wrapping loop over UTF-16 units computes 5381*33^n + sum u_i*33^(n-1-i) and 5387*65^n + 37*sum u_i*65^(n-1-i) modulo 2^32 |
| `HashedSets.HashGrows` | internal/xray/hashedset.go:63-73 | what one more character does to both words, in numbers: one step for each of its UTF-16 units, a surrogate pair beyond the basic plane |
| `HashedSets.SmallFolds` | internal/xray/hashedset.go:17-44 | the words of no and of one member, and an exclusive or bit by bit |
| `HashText.WordTextReads` | internal/xray/hashedset.go:50-61 | a signed, zero-padded word can be read back |
| `HashText.WordTextShape` | internal/xray/hashedset.go:50-61 | a word prints as 8 characters, or 9 with a leading minus, and never ends in a minus |
| `HashText.Hash64StringInjective` | internal/xray/hashedset.go:50-61 | equal hash texts have equal words although the two printed words have no fixed split point |
| `HashText.PairReads` | internal/xray/hashedset.go:50-61 | the text reads back word by word, the high word first, wherever the split falls |
| `HashText.Prints` | internal/xray/hashedset.go:51-59 | a word below 2^31 prints as its digits behind zeros |
| `HashText.PrintsNegative` | internal/xray/hashedset.go:51-59 | a greater one as a minus sign and what is missing to 2^32 |
| `HashText.PrintedPairs` | internal/xray/hashedset.go:50-61 | printed pairs in letters, with and without signs |
| `HashState.State.ExtractUsers` | internal/xray/hashstate.go:8-44 | tracks the non-empty client ids of each inbound that has a tag the request names, a later inbound replacing an earlier one, and exactly those tags |
| `HashState.ExtractedIff` | internal/xray/hashstate.go:8-44 | an inbound is tracked if and only if it has a tag, the request names it and the configuration has it |
| `HashState.LastEntryCounts` | internal/xray/hashstate.go:24-44 | its users are the non-empty ids of the last entry with that tag |
| `HashState.State.IsNeedRestartCore` | internal/xray/hashstate.go:46-84 | no restart if and only if there is a base hash, it is unchanged, as many inbounds came as are tracked, and for each tracked tag the first entry carries the hash of the users tracked there |
| `HashState.SkippedIff` | internal/xray/hashstate.go:46-84 | the verdict in other words: a start is skipped if and only if the base hash is known and the same and the request lists every tracked inbound once, no other, each with the printed hash of its users |
| `HashState.SkippedInstance` | internal/xray/hashstate.go:46-84 | one tracked inbound with the single user A: the request whose entry reads 0002b5e600056130 is skipped |
| `HashState.SkipMeansSameWords` | internal/xray/hashstate.go:46-84 | when the restart is skipped, the words the dashboard's entry prints equal the words of the users tracked for that tag |
| `HashState.SkipMeansSameInbounds` | internal/xray/hashstate.go:46-84 | when the restart is skipped, the request lists exactly the tracked inbounds: no new inbound goes unseen |
| `HashState.State.AddUserToInboundHash` | internal/xray/hashstate.go:86-106 | adds one user to one inbound and its tag to the tags, changes nothing else, ignores empty arguments |
| `HashState.State.RemoveUserFromInboundHash` | internal/xray/hashstate.go:108-125 | removes one user from one inbound, forgets an inbound and its tag with the last user, changes nothing else |
| `HashState.State.AddInboundTag` | internal/xray/inbounds.go:35-45 | adds a tag without touching the tracked users |
| `Handlers.RemoveKeepsMirror` | internal/nodehandler/handler.go:74-83 | removing a user at the core and its uuid from the hash keeps every inbound's hashed set equal to the uuids of the users held there, and every inbound with users among the tags |
| `Handlers.AddKeepsMirror` | internal/nodehandler/handler.go:92-97 | the same for an addition |
| `Handlers.SkipMeansSameUsers` | internal/xray/hashstate.go:46-84 | when the restart is skipped and the mirror holds, each inbound in which the core holds users has an incoming entry with the hash of exactly those users' recorded uuids |
| `Handlers.MirrorAfterStartIff` | internal/xray/hashstate.go:8-44 | right after a start the mirror holds if and only if the request lists every inbound that has users |
| `Handlers.UnlistedInboundIsNotMirrored` | internal/xray/hashstate.go:8-44 | a start whose request does not list an inbound with a user, after which the mirror does not hold |
| `Handlers.NodeHandler.RemoveEverywhere` | internal/nodehandler/handler.go:69-83 | whichever removals fail, other users stay where they were and the mirror holds; if none failed the user is in no known inbound, mirrored or not, and with the mirror nowhere; it reports a failure if and only if the core refused |
| `Handlers.NodeHandler.AddTo` | internal/nodehandler/handler.go:88-98 | whichever additions fail the mirror holds; if none failed the user is in exactly the requested inbounds; if the core refused nothing, every list of known kinds and distinct inbounds the user is not in succeeds |
| `Handlers.NodeHandler.HandleAddUser` | internal/nodehandler/handler.go:49-101 | for well-formed requests the mirror holds afterwards whatever failed; success leaves the user in exactly the requested inbounds under the new uuid; other users are untouched. From any state, success is reported only if the core refused nothing, and then for every servable request |
| `Handlers.NodeHandler.HandleAddUsers` | internal/nodehandler/handler.go:130-171 | the mirror holds after any batch of distinct users; success leaves every one of them in exactly its inbounds under its new uuid; it is reported only if the core refused nothing, and then for every servable batch |
| `Handlers.NodeHandler.HandleRemoveUser` | internal/nodehandler/handler.go:103-128 | the mirror holds; success, reported if and only if the core refused nothing, leaves the user in no inbound and others untouched |
| `Handlers.NodeHandler.HandleRemoveUsers` | internal/nodehandler/handler.go:173-202 | the same for every user of a batch |
| `Lifecycle.NextKeepsInv` | internal/xray/manager.go:192-682 | every step of every call, core exit and monitor keeps the invariant from which the following are drawn |
| `Lifecycle.AtMostOneCore` | internal/xray/manager.go:574-682 | in every interleaving a core not yet waited for is the manager's process, so no two cores are alive at once, even after a stop that timed out |
| `Lifecycle.RunningIsWhatWasServed` | internal/xray/manager.go:237-318 | a recorded running configuration is the one the last core was spawned with and the one it fetched, through skips, failed starts, timed-out stops and crashes |
| `Lifecycle.RunningConfigIsTrue` | internal/xray/running_config.go:14-31 | a configuration is reported as running only while a core is alive that fetched exactly it |
| `Lifecycle.StoppedMeansNoCore` | internal/xray/manager.go:357-375 | when Stop reports success no core is alive and no configuration is left |
| `Lifecycle.StartedMeansAnswered` | internal/xray/manager.go:237-301 | over any run: a Start reports success only if a living core with its configuration answered one of its own pings |
| `Lifecycle.StartedMeansServed` | internal/xray/manager.go:237-301 | on success a skipped start has only replaced the configuration; any other is on line with its configuration recorded as running, the one the last core was spawned with and fetched |
| `Lifecycle.StepWrites` | internal/xray/manager.go:192-455 | which steps write the current and the running configuration and the on-line flag, and what; no other does |
| `Lifecycle.StartCanSucceed` | internal/xray/manager.go:192-301 | a first Start and then an identical one do reach success, the second by skipping |
| `Lifecycle.HealthIsWhatWasAnswered` | internal/xray/manager.go:427-461 | Health reports and writes down the core's answer, and is off line without asking when there is no process and none was on line |
| `Lifecycle.RunningIsReportedIff` | internal/xray/running_config.go:14-31 | RunningConfig reports the recorded configuration if and only if the core is on line and answers and there is one |
| `Lifecycle.StopGoesOn` | internal/xray/manager.go:357-375 | Stop succeeds at once without a process, and as soon as the exit of one is reported |
| `Lifecycle.StartsExcludeEachOther` | internal/xray/manager.go:201-220 | at most one Start is past the flag, and at most one call owns the lifecycle lock |
| `Lifecycle.StopperCanGoOn` | internal/xray/manager.go:641-682 | a call that waits for a core while holding mu is never waiting for a monitor that waits for mu |
| `Lifecycle.SomeCallCanGoOn` | internal/xray/manager.go:192-375 | with mu free, some unfinished call can always take a step |
| `Lifecycle.CallsAreFinite` | internal/xray/manager.go:192-461 | every step of a call brings it closer to its end |
| `Lifecycle.StaleIff` | internal/xray/manager.go:192-594 | a step makes the manager count as online without a process if and only if a Health or Start call writes it after the process has been cleared |
| `Lifecycle.OnlineMeansProcessIff` | internal/xray/manager.go:192-594 | over a whole run: some state is online without a process if and only if some action of the run is such a write |
| `Lifecycle.OnlineMeansProcess` | internal/xray/manager.go:192-594 | in a run without such a write, online means that there is a process |
| `Lifecycle.OnlineMayBeStale` | internal/xray/manager.go:289-297 | it happens: a Start whose core exits between the last ping and the step that records success |
| `Asn.NormalizePrefixes` | internal/asn/writer.go:66-79 | the valid prefixes of one family, masked, in order |
| `Asn.MaskedIs` | internal/asn/writer.go:72 | masking leaves of every byte the greatest multiple of 2^n it holds, n being how many of its bits lie beyond the prefix length |
| `Asn.OneNormalized` | internal/asn/writer.go:68-77 | one prefix: kept, masked, if it is valid and of the family, dropped otherwise |
| `Asn.NormalizedConcat` | internal/asn/writer.go:66-79 | prefixes are taken one by one, in order |
| `Asn.NormalizedTwice` | internal/asn/writer.go:66-79 | normalising again changes nothing, so a database rebuilt from its own answers is the same |
| `Asn.Write` | internal/asn/writer.go:19-64 | what is written is a beginning of the image of the entries in ASN order, all of it if no write failed, and none fails where there is room |
| `Asn.ImageInstance` | internal/asn/writer.go:19-64 | a database of one ASN with one prefix, byte by byte |
| `Asn.PrefixesByASN` | internal/asn/db.go:69-95 | on any file the loop gives what the binary search specifies, or nothing if a read failed; on a file that never fails it is the former |
| `Asn.SearchFinds` | internal/asn/db.go:75-94 | in an ordered index the search finds an entry with the ASN if and only if there is one |
| `Asn.ImageHas` | internal/asn/writer.go:31-57 | each index entry and each blob of the image is where its running offset says |
| `Asn.FollowWritten` | internal/asn/db.go:97-120 | following a written entry gives its prefixes back if and only if both counts fit in 16 bits |
| `Asn.RoundTrip` | internal/asn/writer.go:19-64 | for distinct ASNs in any input order, a lookup in the written bytes gives an entry's masked prefixes of each family in order, if and only if neither list has more than 65535 |
| `Asn.AbsentIsEmpty` | internal/asn/db.go:69-95 | an ASN that was not written gives nothing |
| `Asn.OrderedIsUnique` | internal/asn/writer.go:22-23 | with distinct ASNs the sorted order is unique, so the order of the input does not matter |
| `CoreLoader.InstalledMeansDigest` | internal/xray/core_loader.go:141-160 | a core that counts as installed has the digest of its specification, and the link resolves to it |
| `CoreLoader.InstalledIsOne` | internal/xray/core_loader.go:141-160 | at most one specification counts as installed |
| `CoreLoader.OldMarkerMisleadsIff` | internal/xray/core_loader.go:185-203 | between the rename and the new marker the old specification counts as installed if and only if size and modification time coincide |
| `CoreLoader.OldMarkerInstance` | internal/xray/core_loader.go:185-203 | two cores of one size and one instant, of which the second counts as an installation of the first |
| `CoreLoader.CoreDirectory.Install` | internal/xray/core_loader.go:162-208 | at every step the link resolves if it did before; success means installed with the right digest and a version check passed; failure leaves the old custom core or a checked one |
| `CoreLoader.CoreDirectory.RestoreStock` | internal/xray/core_loader.go:210-235 | success leaves a link, if there is one, at the stock core; an error changes nothing; with an executable stock core and no failing call it succeeds, and marker and custom core are gone |
| `CoreLoader.CoreDirectory.Prepare` | internal/xray/core_loader.go:72-96 | malformed or unmanaged requests change nothing; a failed installation is no error; every step keeps the link resolving and the marker truthful; when no call fails the requested core is installed, nothing changes if it was, and without a request the link is at the stock core |
| `CoreLoader.CoreDirectory.Run` | internal/xray/core_loader.go:72-266 | over any number of calls, each cut short after any of its steps, the link keeps resolving and the marker never vouches for a file it was not written for |
| `Geodata.GroupGeodataAssets` | internal/xray/geodata.go:83-95 | the loop gives one group for each file, with all and only its assets in their configured order |
| `Geodata.FirstSourceWins` | internal/xray/geodata.go:140-160 | a file keeps content it has, otherwise gets that of its first source that answers, otherwise at most an empty stub |
| `Geodata.NoSourceAnswers` | internal/xray/geodata.go:152-160 | when no source answers a file that is there stays, and a missing one is an empty stub if and only if one could be made |
| `Geodata.NextInv` | internal/xray/geodata.go:35-78 | every step of dispatcher, workers and cancellation keeps the pool's invariant |
| `Geodata.OneWorkerPerFile` | internal/xray/geodata.go:53-69 | never more than five workers, and no two of them on the same file |
| `Geodata.PoolSize` | internal/xray/geodata.go:50-66 | the pool starts with a worker for each file, at most five |
| `Geodata.CancelledBeginsNothing` | internal/xray/geodata.go:58-76 | once it is cancelled no worker begins with another source |
| `Geodata.AttemptsInOrder` | internal/xray/geodata.go:58-69 | at every moment, cancelled or not, the sources tried for a file are the first ones configured for it, in order, and its content is what they made of it |
| `Geodata.AllAttempted` | internal/xray/geodata.go:35-78 | when the pool ends without cancellation every source was tried in order, and the result does not depend on how the workers interleaved |
| `Geodata.CanGoOn` | internal/xray/geodata.go:53-77 | until the pool has ended the dispatcher or a worker can take a step |
| `Geodata.EveryStepCounts` | internal/xray/geodata.go:53-77 | every step leaves less to do, so dispatcher and workers end |

## Left out

- HTTP, gRPC, TLS, process execution, sockets, clocks and randomness: arbitrary choices or parameters of the steps.
- JSON, SHA-256, regular expressions and time layouts: journals and markers are values, a digest is part of a file, the timestamp of a log line is a parameter of the reader. Undecodable accounting journals are modelled only as unreadable ones.
- The dashboard: not part of this model beyond an idealised client that applies each sample once and acknowledges what it applied.
- Path and identifier checks of the reader (`pathForSegment`), the segment catalogue, metadata windows and rotation journals whose paths name another log: easy members.
- LogWriter.SegmentedLogWriter.Write: under I/O errors conservation is one-sided, because the failed unit stays pending and may be stored twice.
- Rotation.RotationsConserveBytes: its crashes strike during a seal or a recovery, kills also between rotations. What a power loss between rotations does to bytes that the active file has not synced yet is not modelled.
- Rotation.SealHolds: an open log is one that starts, writes, syncs and rotations lead to; a disk with other unsynced operations is covered only for kills (`Rotation.KilledSealRecovers`).
- LogWriter.RotationSplitsNoLine: order is the order of sealing, not of names, because the generation is counted anew from the files that survive.
- LogWriter.RetentionKeepsLaterDays: speaks of what was written since the log was opened. What an earlier process left in the active file, the last bytes it flushed on closing among them, is sealed under the day of the opening, as in the code.
- LogWriter.SegmentedLogWriter.AfterRecovery: the generation is unbounded; a uint64 cannot run out in practice.
- ChunkReader.FollowingRefinesOneShot: a line longer than the read limit stops the follower, as it does in the code.
- Concurrent reader and writer of one file beyond growth by appending: truncation in place is not modelled.
- Accounting.AccountingSnapshotService.Snapshot: does not model a power loss that undoes a rename whose directory sync failed; a write takes effect or not, once and for all. The `sampledAt` time of a sample is left out, and concurrent calls are serialised by the service's lock.
- Cleaner.LogDirectory.CleanLogsAt: one clean-up runs at a time; two concurrent ones could interleave their journal appends. The time of a gap is left out.
- Handlers.NodeHandler.HandleAddUser: the mirror is claimed only for requests that carry the uuid recorded for the user; core calls that fail after taking effect, handlers running concurrently and the dropping of connections are not modelled.
- HashedSets.Djb2Dual: strings are sequences of Unicode scalar values; Go strings with invalid UTF-8 are not modelled.
- Lifecycle: the persisted start request, version probing, log pumps and the hash state that Start and Stop refresh under the same locks; reading hashes and pinging are arbitrary answers. The log pipe may not drain on stop, and nothing is claimed about it.
- Asn.RoundTrip: claimed for files whose size fits a signed 64-bit offset and fewer than 2^32 entries. Rendering a prefix as text is left out.
- CoreLoader.CoreDirectory.Run: the process may stop anywhere, but power loss is not modelled, since the directory is never synced. A link that points at the loader's own staging file, and temporary files of downloads, links and markers, are left out; a download is one step that yields a file of the expected digest with a fresh modification time.
- Geodata.AllAttempted: assets are attempted one at a time within a file, each as one step, since no other worker touches the file. Parsing the request is left out.
- Rewriting of the API and WARP configuration, plugin schemas, SNI checks, parsers of vnstat and proc, backtrace sorting, CIDR merging, configuration loading, JWT and certificate checks, installers: easy or bound to libraries.
