# The gokvx command log, its marker and its slots, in Dafny

gokvx keeps every command in a file-backed log (`internal/storage`) from which
its state is rebuilt after a crash. This project models that log as a state
machine over a disk that can lose unflushed data, proves what its documentation
promises of every run, and proves that methods written the way the Go code is
written take the steps of that machine. Two smaller parts are modelled beside
it: the `storage_version` marker, a second crash protocol, and the partition-key
rule of `internal/shard`.

## How it is built

| module | contents |
|---|---|
| `ByteStrings`, `Options`, `Sequences` | little-endian integers and sequences taken apart from their end |
| `Crc32c`, `CrcReference` | the bitwise CRC32C and what it detects; long division by the generator of section 12.1 of RFC 3720, and that it is the same |
| `Codecs` | the laws the protocol needs from a record format: what decodes is what was encoded |
| `Record`, `RecordDamage` | the on-disk record, lawful under any checksum; `encodeRecord` and `hasLaterRecord` as methods |
| `SegmentScan`, `Corruption` | reading one segment, its verdict, and damage to a segment |
| `SegmentNames` | file names and `listSegments` |
| `Disks` | files with a durable length, unflushed truncations, directory entries, machine crashes |
| `LogSpec` | the state machine: append, rotate, fsync, tick, the two phases of close, open, crash, exit |
| `LogInvariant`, `LogRecovery`, `LogDurability` | one invariant, kept by every operation, by crashes and by recovery; what an fsync covers |
| `LogRuns` | the crash-safety theorems over whole runs |
| `LogRefusals`, `LogKills` | where the code does less than its documentation says, with exact conditions |
| `LogExits` | which endings of a process make the next opening hazardous |
| `LogReopening`, `LogVerification` | recovery is idempotent and restartable; when a log opens |
| `LogSessions`, `LogPacking`, `LogReplay` | sticky failure, closing, crash points inside an append; how full segments are; replay |
| `Directories`, `CommandLog` | a directory of named files and the class `Log`, whose methods refine `LogSpec` |
| `MarkerText`, `VersionMarker` | what a marker says; the marker protocol, its runs, and the class that follows it |
| `Slots` | `HashInput` and `Slot` |

A system call that can fail is a parameter that says how it ends: success,
failure, or a write that puts down only some of its bytes. Each locked section
of the log is one step, so a run is any interleaving of appenders, the syncer
and closers. A machine crash keeps, of every file, some prefix that covers its
durable bytes, and may lose a directory entry that was not flushed; a crash in
the middle of an append is an append that fails there followed by a crash
(`LogSessions.EveryPointIsAnOutcome`).

The theorems about the log hold for every `Codec` that is `Lawful`;
`Record.RecordCodecIsLawful` shows that the format of `record.go` is one
whatever the checksum function is. Only the detection of damaged commands uses
CRC32C itself.

## Where the code and its documentation differ

1. **A torn tail does not always open.** `docs/engineering/storage-format.md`
   classifies an interrupted last write as a torn tail. `hasLaterRecord` also
   searches the bytes of the interrupted command itself, so a command that
   contains an intact record with a later index makes its own beginning look
   like corruption. `LogRefusals.TornWriteRefusedIff` gives the exact condition,
   `LogRefusals.EmbeddedRecordIsRefused` such a command for every healthy log,
   and `LogRefusals.CrashIsNeverCorruption` shows that this is the only case: the
   command that the crash interrupted, at its own index.
2. **Under `always` a machine crash can lose an acknowledged command.** The
   repository's `README.md` says that it loses nothing that was acknowledged, and
   `docs/engineering/storage-format.md` that every policy flushes when a segment
   is rotated. `recover` flushes neither the last file nor the directory, and
   leaves `dirty` false. So after a process ended without a machine crash, what
   was not flushed then may not be flushed by the next process either:
   - `createSegment` made the file and failed to flush the directory. The next
     opening accepts the empty file; the commands appended to it are flushed and
     acknowledged; and a crash takes the file away (`LogKills.UnlinkedRun`).
   - `truncateTail` cut a torn tail and failed to flush the cut. The next opening
     finds nothing to repair; the first rotation does not flush; and a crash that
     brings the tail back leaves damage before an acknowledged record, so the log
     refuses to open (`LogKills.InterruptedRepair`).
   - A process was killed between a write and its fsync. Again the first rotation
     does not flush, and a crash leaves a gap before an acknowledged record
     (`LogKills.KilledBeforeFsync`).

   `LogKills.ReopeningIsSafeIff` decides for every disk and every configuration
   which openings do harm: those of a file that is not linked, or that is not
   flushed and so full that the first append may start a new segment.
   `LogExits.ExitIsSafeIff` and `LogExits.FailedOpeningIsHazardousIff` tell it from
   how the process before ended.
   The theorems of `LogRuns` are about runs in which a log that opens has nothing
   left to flush, as after every machine crash, clean close or completed repair;
   openings that fail may happen at any time.
3. **A visible marker may not be durable.** If the directory flush at the end of
   writing the marker fails, the next attempt accepts the marker without flushing
   it. `VersionMarker.AcceptedIsDurableIff` and
   `VersionMarker.UnflushedIffPending` give the exact condition on the outcomes of
   the attempts, and `VersionMarker.UnflushedMarkerIsAccepted` a run that gets
   there.

## Model

| member | source | states |
|---|---|---|
| `LogRuns.CrashRecovers` | internal/storage/log_recovery.go:20-98 | after any run, a machine crash and an attempt to open, however it ends, the commands on disk are a prefix of those written, a subsequence of those sent, and include all that a completed fsync covers; what the log's opening found together with every command acknowledged since was on disk up to at most one command more, and under `always` still is; an opened log's last index counts its commands |
| `LogRuns.AcknowledgedIsForever` | internal/storage/log.go:120-161 | a command acknowledged under `always` is durable at its index after any further events of any run, crashes and failed openings included |
| `LogRuns.SyncedIsForever` | internal/storage/log.go:259-272 | whatever a completed fsync covers stays a prefix of what is durable through any further events |
| `LogRuns.TickedIsForever` | internal/storage/log.go:324-336 | under every policy, what a log found and acknowledged before a successful tick is durable after any further events of any run |
| `LogRuns.ClosedIsForever` | internal/storage/log.go:235-245 | and so is what it found and acknowledged before a close whose fsync succeeds |
| `LogRuns.NextKeeps` | internal/storage/log.go:60-92 | every event, including crashes and openings that fail, refuse or repair, keeps the invariant: files are exactly the records of consecutive segments, inner files fully durable, and the fields of an open log agree with them |
| `LogRuns.NextSafe` | internal/storage/log.go:120-161 | no single event shortens or changes what is durable, and none adds a command but the one it sends |
| `LogRuns.RunKeeps` | internal/storage/log.go:60-92 | both of these over runs of any length |
| `LogRuns.StoredWasSent` | internal/storage/log_recovery.go:77-89 | after any run the commands on disk are a subsequence of those sent: none invented, repeated or reordered |
| `LogRuns.RunCounts` | internal/storage/log.go:75-77 | after any run the commands that the last index of an open log counts are what its opening found and every command acknowledged since, under every policy |
| `LogInvariant.PerformKeeps` | internal/storage/log.go:123-336 | append, tick and both phases of close keep the invariant whatever their system calls do |
| `LogInvariant.AppendKeeps` | internal/storage/log.go:123-161 | the same for an append with its rotation, in every outcome |
| `LogInvariant.RotatedKeeps` | internal/storage/log.go:276-293 | a rotation leaves a log ready for the next record, or one that is failed and otherwise intact |
| `LogInvariant.CreateAppends` | internal/storage/log.go:295-307 | a new segment never has the name of an existing one and always comes after all of them |
| `LogRecovery.CrashKeeps` | internal/storage/log_recovery.go:29-42 | a machine crash at any moment leaves a disk that satisfies the invariant and has nothing to flush |
| `LogRecovery.OpenKeeps` | internal/storage/log_recovery.go:20-121 | opening a disk that the log wrote, flushed or not, leaves such a disk, however it ends; the opened log satisfies the invariant if nothing is left to flush |
| `LogRecovery.StaleOpens` | internal/storage/log_recovery.go:44-50 | a disk whose truncated last file was not flushed opens as it is, without a flush |
| `LogRecovery.AcceptableIff` | internal/storage/log_recovery.go:91-97 | a disk that the log wrote is accepted exactly when the incomplete last record does not itself contain an intact later one; no other check can fail |
| `LogDurability.CrashCommands` | internal/storage/log_recovery.go:77-97 | a crash keeps a prefix of the commands, at least those covered by an fsync, and invents none |
| `LogDurability.OpenChangesNoCommand` | internal/storage/log_recovery.go:20-121 | opening any disk at all, however it ends, neither adds nor removes a command, and takes away nothing that was durable |
| `LogDurability.LastIndexCounts` | internal/storage/log.go:75-77 | the last index counts the commands on disk, except one written and not acknowledged after a failure |
| `LogDurability.AckedAppends` | internal/storage/log.go:138-160 | an acknowledged append adds exactly its command at its index, durable at once under `always` |
| `LogDurability.AppendReturns` | internal/storage/log.go:123-161 | under every policy: which append is too large, which is refused, which is acknowledged because all its system calls succeed, and that any other fails the log |
| `LogDurability.CleanIsDurable` | internal/storage/log.go:78-79 | a log that is neither failed nor dirty has every byte on disk |
| `LogDurability.TickFlushes` | internal/storage/log.go:327-336 | a successful tick of a log that is neither failed nor closed leaves every record durable and the log clean |
| `LogDurability.TickLeaves` | internal/storage/log.go:327-336 | a tick leaves a clean, failed or closed log alone, and fails a dirty one exactly if its fsync fails |
| `LogDurability.CloseFlushes` | internal/storage/log.go:235-245 | a close whose fsync succeeds leaves every record durable, and returns an error only if the file cannot be closed |
| `LogDurability.CloseReturns` | internal/storage/log.go:220-245 | only the first call does the work; the second phase returns no error exactly if the file closed and the flush, if one was due, succeeded; a failed flush fails the log |
| `LogDurability.PerformExtends` | internal/storage/log.go:123-336 | operations only add: no file but the last changes, and that one and what is certain of it only grow |
| `LogDurability.PerformCommands` | internal/storage/log.go:123-336 | an operation adds at most the command it sends, which a failed append may add without acknowledging it |
| `LogDurability.PerformCounts` | internal/storage/log.go:158-160 | the commands that the last index counts grow by exactly the command acknowledged |
| `LogRefusals.CrashIsNeverCorruption` | internal/storage/log_recovery.go:29-42 | after any run and crash, a log is refused as corrupt only if some command sent, at the very index after the commands on disk, embeds a later record |
| `LogRefusals.CrashRefusedIff` | internal/storage/log_recovery.go:91-97 | after any run and crash, opening refuses if and only if the bytes after the last file's records contain an intact later record; those bytes are the beginning of a sent command's record at the next index |
| `LogRefusals.EmbedsIff` | internal/storage/record.go:75-94 | the condition on a command is decided by its record cut short by one byte |
| `LogRefusals.TornWriteRefusedIff` | internal/storage/log_recovery.go:94-96 | an interrupted write, in a new segment or not, is refused if and only if the bytes it left contain an intact later record |
| `LogRefusals.AppendRefusedIff` | internal/storage/log_recovery.go:94-96 | of a healthy log under `always` and any command: some outcome of its append and some crash lead to a refused log if and only if the command embeds a later record at the index it would get |
| `LogRefusals.NextRecordEmbeds` | internal/storage/record.go:81-94 | a command holding the encoding of the next record satisfies that condition, under any checksum |
| `LogRefusals.EmbeddedRecordIsRefused` | internal/storage/log_recovery.go:94-96 | every healthy log has a command whose write, one byte short, and a crash that keeps it all make the log refuse to open, whether or not it starts a new segment |
| `LogRefusals.RefusedRun` | internal/storage/log_recovery.go:94-96 | a run of a new log that ends so, for any checksum |
| `LogKills.ReopeningIsSafeIff` | internal/storage/log_recovery.go:44-50 | for any disk the log can have written, any segment size and any successful opening under `always`: some operations and crash then lose an acknowledged command, or leave a log refused with no embedded record to blame, if and only if the opened log's last file is not linked, or is not flushed and so full that the largest command would start a new segment |
| `LogKills.SessionIsSafe` | internal/storage/log.go:120-161 | no operations and no crash do such harm to a log that satisfies the invariant |
| `LogKills.FlushedInTime` | internal/storage/log.go:138-156 | nor to one whose last file is not flushed, if its first append cannot start a new segment: the first acknowledgment flushes it |
| `LogKills.UnlinkedRun` | internal/storage/log.go:295-307 | a first opening that cannot flush the directory, a second that succeeds, and an append: it is acknowledged, and a crash leaves an empty directory |
| `LogKills.InterruptedRepair` | internal/storage/log_recovery.go:100-121 | a repair interrupted between cut and flush, an opening, and an append that rotates: it is acknowledged, and a crash makes the log refuse to open, for every segment size at which it can rotate |
| `LogKills.KilledBeforeFsync` | internal/storage/log.go:146-156 | the same after a process killed between the write and the fsync of an append |
| `LogExits.ExitIsSafeIff` | internal/storage/log.go:220-245 | after any run, the next opening under `always` can do such harm if and only if the process ended with a segment file whose directory entry it failed to flush, or with whole records in a file full enough to rotate that were not flushed, as its `dirty` or a failed whole write tells |
| `LogExits.FailedOpeningIsHazardousIff` | internal/storage/log_recovery.go:53-63 | after an opening that failed on a flushed disk, the next one is hazardous if and only if the first failed in the directory flush of a new log, or in the flush of a cut that leaves a file full enough to rotate |
| `LogExits.RunFlags` | internal/storage/log.go:73-82 | after any run, `dirty` says exactly whether counted bytes of the active file are not durable, and bytes beyond `activeSize` come from a failed write |
| `LogReopening.OpenIsIdempotent` | internal/storage/log_recovery.go:69-121 | opening what was just opened changes nothing and yields the same log, for any disk |
| `LogReopening.OpenIsRestartable` | internal/storage/log_recovery.go:100-121 | if the records that verification accepts are durable, a crash between cutting a torn tail and flushing the cut leaves a disk from which opening ends exactly as it would have |
| `LogVerification.OpensIff` | internal/storage/log_recovery.go:20-51 | for any outcomes of the system calls: opening reports corruption if and only if the directory is readable and some file does not start where the one before ends or does not pass, and then leaves the disk alone; it opens if and only if all pass and no call fails |
| `LogVerification.OnlyLastIsEmpty` | internal/storage/log_recovery.go:29-34 | in an accepted log only the last segment can be empty or torn |
| `LogVerification.CorruptionIsRefused` | internal/storage/log_recovery.go:91-98 | a log with an overwritten record before an untouched one in any segment does not open, and its disk is left alone |
| `LogSessions.SessionKeeps` | internal/storage/log.go:60-92 | the invariant and growth over any operations of one opening |
| `LogSessions.SessionCommands` | internal/storage/log.go:138-160 | what the last index counts after any operations is what it counted before and exactly the commands acknowledged, in order, under every policy |
| `LogSessions.FailureIsSticky` | internal/storage/log.go:80-82 | after a failure no operations change any file, the segment list or the last index, and no append succeeds |
| `LogSessions.ClosingIsQuiet` | internal/storage/log.go:220-235 | between the two phases of `Close` nothing that runs changes anything |
| `LogSessions.CloseIsComplete` | internal/storage/log.go:219-245 | when the closing call returns no error on a log that has not failed, every record is durable under every policy |
| `LogSessions.EveryPointIsAnOutcome` | internal/storage/log.go:138-156 | the disk at each point between the system calls of an append is one that a failed append leaves |
| `LogPacking.SessionPacks` | internal/storage/log.go:138-150 | without failures every segment fits `SegmentBytes` or holds one record, and no two neighbours would fit in one |
| `LogPacking.PackingBound` | internal/storage/log.go:23-26 | so there are at most 2 * bytes / `SegmentBytes` + 1 segments |
| `LogPacking.RunIsPacked` | internal/storage/log_recovery.go:53-63 | both for a new log after any number of openings, sessions and closes without failure or crash |
| `LogReplay.ReplayIsSnapshot` | internal/storage/log.go:174-217 | replay, reading each file after any number of further operations, calls its callback once for each index from `from` to the last index at its snapshot, in order, with the command there |
| `LogReplay.RunReplays` | internal/storage/log.go:170-189 | at any moment of any run those commands are what the log's opening found and what it acknowledged since, and nothing that this opening wrote and did not acknowledge |
| `LogReplay.UnreadableIsReported` | internal/storage/log.go:193-196 | replay ends without an error only if it could read every segment its range overlaps, and otherwise has made a prefix of the snapshot's calls |
| `LogReplay.InterruptedIs` | internal/storage/log.go:209-213 | a failing callback ends replay after that call, with an error |
| `LogReplay.CallsAre` | internal/storage/log.go:170-173 | those calls, spelled out index by index |
| `CommandLog.Log.constructor` | internal/storage/log.go:109-109 | a log not yet opened, with the record format of the given checksum |
| `CommandLog.Log.Append` | internal/storage/log.go:123-161 | keeps the directory and the fields tied together and takes exactly the state machine's step and result |
| `CommandLog.Log.Write` | internal/storage/log.go:146-160 | the write, the fsync under `always` and the bookkeeping, including a short write |
| `CommandLog.Log.Encoded` | internal/storage/log.go:139-139 | the filled buffer is the record's encoding |
| `CommandLog.Log.Rotate` | internal/storage/log.go:276-293 | flush, close and create in order, stopping at the first failure |
| `CommandLog.Log.CreateSegment` | internal/storage/log.go:297-307 | creates under a name no file has and flushes the directory |
| `CommandLog.Log.Sync` | internal/storage/log.go:262-272 | makes the active file durable and clears `dirty`, or fails for good |
| `CommandLog.Log.SyncIfDirty` | internal/storage/log.go:327-336 | one tick of the syncer |
| `CommandLog.Log.BeginClose` | internal/storage/log.go:220-227 | the first locked phase, and which call does the work |
| `CommandLog.Log.FinishClose` | internal/storage/log.go:235-245 | the second locked phase |
| `CommandLog.Log.Recover` | internal/storage/log_recovery.go:20-51 | refuses a directory with other entries and leaves it alone; otherwise ends as the state machine's opening of the one disk the directory holds |
| `CommandLog.Log.StartFirstSegment` | internal/storage/log_recovery.go:53-63 | the same for an empty directory |
| `CommandLog.Log.VerifySegments` | internal/storage/log_recovery.go:29-42 | the loop over the segments refuses exactly the unacceptable logs and collects the segment list |
| `CommandLog.Log.TruncateTail` | internal/storage/log_recovery.go:100-121 | cuts the tail and flushes the cut, or stops between |
| `CommandLog.Log.OpenLast` | internal/storage/log_recovery.go:39-50 | repairs the last segment if needed and sets the fields |
| `CommandLog.Log.Replay` | internal/storage/log.go:174-189 | the loop over the copied segment list makes exactly the specified calls and ends at the first bad or unreadable segment or failing call |
| `CommandLog.Log.ReplayFile` | internal/storage/log.go:192-217 | the loop over one segment's records likewise |
| `Directories.MirrorIsUnique` | internal/storage/segment.go:53-81 | a directory of segment files determines the disk it holds |
| `SegmentScan.ScanRecords` | internal/storage/log_recovery.go:75-89 | the verification loop computes the scan and terminates |
| `SegmentScan.VerifySegment` | internal/storage/log_recovery.go:69-98 | next index, valid size and verdict of a segment |
| `SegmentScan.ScanPrints` | internal/storage/log_recovery.go:75-89 | what verification accepts re-encodes to the bytes read, and it stops only at the end or at bytes that are not the next record |
| `SegmentScan.ScanIsUnique` | internal/storage/log_recovery.go:75-89 | nothing but its result accounts for a segment's bytes in that way |
| `SegmentScan.ScanEncoded` | internal/storage/log_recovery.go:75-89 | verification of concatenated encodings returns those records and goes on behind them |
| `SegmentScan.ScanMonotone` | internal/storage/log_recovery.go:75-89 | a shorter file yields a prefix of the records |
| `SegmentScan.CutRecords` | internal/storage/log_recovery.go:65-68 | records cut anywhere are fewer whole records and the beginning of the next |
| `SegmentScan.RepairIsRestartable` | internal/storage/log_recovery.go:91-97 | any length between the cut and the damaged file gets the same repair |
| `SegmentScan.RepairIsIdempotent` | internal/storage/log_recovery.go:91-97 | a repaired segment is healthy and holds the same records |
| `Corruption.CorruptionIsNeverRepaired` | internal/storage/log_recovery.go:77-97 | a segment overwritten in place, whose record j no longer reads as itself while a later record m is untouched, is refused, last or not |
| `Corruption.IntactRecordAfterDamage` | internal/storage/record.go:81-94 | an intact record in the index window behind the damage is always found |
| `Corruption.OffsetsSpread` | internal/storage/record.go:81-94 | later records lie at least 16 bytes apart each, so their indexes are inside that window |
| `Corruption.DamagedCommandIsNeverRead` | internal/storage/record.go:64-72 | under CRC32C a change within four consecutive bytes of a record's body stops reading right before that record, and the segment is refused unless it was the very last |
| `Crc32c.BurstChangesChecksum` | internal/storage/record.go:30-31 | any change within four consecutive bytes of a string of any length changes its CRC32C |
| `CrcReference.ChecksumIff` | internal/storage/record.go:30-31 | the checksum is the one 32-bit number whose bits are the complemented remainder of long division by the generator of section 12.1 of RFC 3720, for every string |
| `RecordDamage.BodyDamageIsDetected` | internal/storage/record.go:64-72 | such a change to a record's body is reported as a bad checksum |
| `Record.EncodeRecord` | internal/storage/record.go:42-51 | filling the buffer body first gives the specified encoding |
| `Record.RecordSpelled` | internal/storage/record.go:11-28 | the bytes of a record by place value: length, checksum and index little-endian, then the command |
| `Record.DecodeIffPrefix` | internal/storage/record.go:56-73 | decoding yields a record if and only if the buffer starts with the encoding of that record and it is storable |
| `Record.RecordCodecIsLawful` | internal/storage/record.go:42-73 | encoding and decoding satisfy every law the protocol uses, for any checksum |
| `Record.CutIsTorn` | internal/storage/record.go:33-39 | a record cut anywhere is reported as torn |
| `Record.SizeGuardIsExact` | internal/storage/log.go:127-130 | the size guard of `Append` admits exactly the commands whose records decode: up to 64 MiB less the index |
| `Record.HasLaterRecord` | internal/storage/record.go:81-94 | the search with its index filter and bound finds a record if and only if there is an intact one at some offset from 1 with an index in the window |
| `Codecs.DecodeMonotone` | internal/storage/record.go:56-73 | bytes that follow never change what was decoded |
| `Codecs.HasLaterMonotone` | internal/storage/record.go:81-94 | cutting a tail short never makes the search succeed |
| `Codecs.HasLaterIff` | internal/storage/record.go:75-94 | the search is for the encoding of a record at some offset from 1 with an index in the window above the damaged one, as long as the tail is |
| `SegmentNames.ParseIffName` | internal/storage/segment.go:34-51 | parsing inverts naming on all 64-bit indexes and accepts no other name |
| `SegmentNames.NameSpelled` | internal/storage/segment.go:14-37 | a name is twenty characters, each the digit of its power of ten, and `.log` |
| `SegmentNames.NamesSortByIndex` | internal/storage/segment.go:14-16 | byte order of names is order of indexes |
| `SegmentNames.ListSegments` | internal/storage/segment.go:56-81 | refuses exactly the directories with another entry; otherwise returns exactly the segments present, ascending |
| `MarkerText.AcceptedIff` | internal/storage/version.go:62-76 | accepted are exactly white space, at most a plus sign, zeros, a one and white space, white space being Unicode code points in UTF-8 |
| `VersionMarker.PrepareReads` | internal/storage/version.go:51-60 | an attempt that finds a marker, whole or not, leaves the directory alone, and is ready exactly if the marker is such a spelling, and incompatible otherwise |
| `VersionMarker.PrepareWrites` | internal/storage/version.go:81-116 | an attempt that finds none reports foreign data exactly if there is another entry than the temporary marker, and is ready exactly if every system call succeeds |
| `VersionMarker.PrepareFails` | internal/storage/version.go:57-59 | an attempt that cannot read the marker or the directory changes nothing |
| `VersionMarker.PrepareKeeps` | internal/storage/version.go:46-116 | however an attempt ends, no view of the directory shows a partial marker |
| `VersionMarker.CrashKeeps` | internal/storage/version.go:95-116 | a crash leaves the whole marker or none, and cannot remove a flushed one |
| `VersionMarker.InitializationConverges` | internal/storage/version.go:46-116 | from an empty directory, after any failures and crashes, an attempt that meets none succeeds, as long as data is added only beside a marker that cannot be lost |
| `VersionMarker.ForeignDataIsLeftAlone` | internal/storage/version.go:81-93 | a directory with data and no marker has none after any run, and is never accepted |
| `VersionMarker.SuccessIsForever` | internal/storage/version.go:98-116 | after an attempt that puts the marker in place succeeds, no attempts, data or crashes ever show the directory without a `storage_version` of the bytes `1` and newline |
| `VersionMarker.AcceptedIsDurableIff` | internal/storage/version.go:46-116 | after any attempt on a directory without data or marker the next one succeeds, and its marker survives every crash if and only if the first did not fail in its very last call, the directory flush |
| `VersionMarker.UnflushedIffPending` | internal/storage/version.go:51-54 | after any run a marker is in place that a crash can take away if and only if it was put there by an attempt whose directory flush failed, with no crash since |
| `VersionMarker.DataWithoutMarkerIff` | internal/storage/version.go:51-54 | data put beside the marker can then, and only then, be found without it after a crash, and is refused from there on |
| `VersionMarker.UnflushedMarkerIsAccepted` | internal/storage/version.go:51-54 | one failed directory flush leads to an accepted marker that a crash can take away |
| `VersionMarker.DataDirectory.PrepareDataDir` | internal/storage/version.go:46-60 | ends as the marker protocol says |
| `VersionMarker.DataDirectory.InitializeDataDir` | internal/storage/version.go:81-93 | its loop refuses exactly the directories with an entry other than the temporary marker |
| `VersionMarker.DataDirectory.WriteFileAtomic` | internal/storage/version.go:98-116 | create, write, flush, rename and directory flush in order, each with its failure |
| `Slots.PartitionKeyIsHashed` | internal/shard/slot.go:53-77 | every key prefix{p}suffix with a brace-free prefix and a non-empty p without a closing brace hashes p |
| `Slots.OtherwiseTheWholeKey` | internal/shard/slot.go:53-77 | the whole key is hashed if and only if it has no such form |
| `Slots.WholeKeySlot` | internal/shard/slot.go:45-51 | every key without a partition key gets the slot of its own CRC32C |
| `Slots.HashInputIsIdempotent` | internal/shard/slot.go:67-77 | the hash input of a hash input is itself |
| `Slots.Colocated` | internal/shard/slot.go:33-51 | keys with one partition key share one slot, that of the partition key itself: its CRC32C modulo the slot count |

## Left out

- LogRuns.CrashRecovers: like the other theorems of its module it is about runs in which a log that opens has nothing left to flush and indexes stay below 2^64. Openings with something left are decided by `LogKills.ReopeningIsSafeIff`, for the first such opening of a run; the harmless ones among them are covered there under `always` and not in `LogRuns`.
- LogReopening.OpenIsRestartable: needs the records to be durable, as they are after a machine crash; a crash could take others away.
- CommandLog.Log.Append: needs the next index to be below 2^64, where the original would wrap.
- CommandLog.Log.Replay: a cancelled context, which ends it early, is not modelled.
- CommandLog.Log.ReplayFile: likewise.
- CommandLog.Log.Recover: a directory, file or listing that cannot be read is one outcome, tried before any segment is looked at.
- The goroutine, ticker and channels of the syncer: a tick is a step that can happen at any time.
- A crash that reorders or scrambles unflushed bytes: of each file some prefix survives.
- A segment file named for index 0, whose empty segment would have a wrapped last index: indexes in the model are integers and `first - 1` is then -1.
- The test vectors of Appendix B.4 of RFC 3720: the CRC is proved to be the remainder the RFC defines, but no value of it is computed.
- `LogConfig.Validate`, `OpenLog`'s creation of the directory and the durability of the directory's own entry.
- Error texts, logging, file modes, path joining, context cancellation and the `onSync` hook.
- `internal/storage/pebble.go`, `internal/storage/engine.go`, `internal/config`, `internal/kverr`, `internal/observability`, `gen` and `cmd`: wrappers, tables and wiring that would only add easy members.
