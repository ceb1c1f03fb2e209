# Sarc: a model and its proofs

Sarc writes encrypted archives: one-pass archives with a trailing directory, split volumes, signed
archives, and incremental archives that grow by sessions. This project models the parts of it that
are hardest to get right and proves, for all inputs, runs and schedules, what they promise.

* **Incremental archives.** `Chunker`, `Pack`, `SessionWriter`, `Snapshots` and `Backup` model a
  backup run; `ArchiveFile`, `LogReading`, `Loader`, `CrashSafety` and `Undo` the file, loading it
  and every point at which a run or its undo can be cut off; `ChunkStore`, `Assembly`, `Restore`
  and `Extraction` what is restored, and `Provenance` where it comes from. The main results are `Extraction.BackupThenExtract`, `Backup.History`,
  `CrashSafety.UpdateCrashPoint`, `Undo.UndoCrashSafeIff` and `Extraction.ExtractDamaged`.
* **Ordered parallel pipelines.** `OrderedPipeline`, with `PipelineSteps` and `PipelineRuns`, is
  one transition system for the encrypting, memory-mapped and decrypting pipelines under an
  arbitrary scheduler; `Encryption` and `Decryption` instantiate it; `ArchiveJobs` is the worker
  pool of the concurrent archiver.
* **Container framing.** `Container` is entry framing and extraction at byte level, `Unpacking`
  what the items then come to, `Truncation` an archive that was cut off; `Directory`
  and `Listing` the trailing directory and its agreement with a scan (`ListingExample` builds such
  an archive); `Volume`, `Checksum` and `Signature` the state machines around an archive.
* **Codecs.** `Bytes`, `Format`, `Streams`, `Varint`, `Names`, `Attributes`, `SolidStream`,
  `SessionIndex`, `IndexCodec`, and `Panics` for the inputs on which two parsers panic.

Assumptions, stated as parameters or preconditions where they are used: sealing opens to what was
sealed and anything else fails to open; chunk IDs are injective on the chunks that occur; zstd
decoding undoes encoding; a hash state absorbs bytes piecewise and is restored from its marshaled
form; a reader makes progress; names within one run are distinct. `ChunkStore.SoundEnvExists`,
`Checksum.SoundHashExists` and `ListingExample` show that they can be met. For crash
safety writes land in program order, torn bytes never read as a sealed entry, a checkpoint or a
signature trailer (a file is a sequence of cells, each the k-th byte of one written object), and
the 36-byte count write is atomic.

Four places where the code does not do what one would expect, each with its exact condition and
an input:

* Undoing a failed session (`restore` in io/incremental_write.go:398-419) is not crash safe once
  the session is in place: its tail complete at the end of the file, as when the truncation after
  it fails on an unsigned archive, or the file already cut behind it, as when the sync after the
  truncation fails on any archive. After the first byte of the undo a session without packs leaves
  a file that does not load, and one with packs a file that loads as the new state with its first
  pack gone: `Undo.UndoCrashSafeIff`, `Undo.IntactUndoIff`, `Undo.UndoAfterCompleteWrite`. Such an
  undo, or one over a file with a complete stale checkpoint behind its tail, is called exposed.
* An attributes length of 2^63 or more in an index or directory record is not refused but turns
  into a negative slice bound, which panics: `Panics.IndexPanicIff`, `Panics.DirectoryPanicIff`.
* Volume numbers are 32 bits wide, so a split of 2^32 volumes or more does not join:
  `Volume.SplitJoins`.
* checkVolumeSet adds up a volume's declared size as int64, so a payload length of 2^64-32 or more
  passes on a volume that is too short: `Volume.CheckedSetFailsIff`, `Volume.WrappedSizePasses`.

`dafny verify dfyconfig.toml` checks the whole project.

## Model

| member | source | states |
|---|---|---|
| `Names.ValidNameStaysInside` | archive/names.go:15-25 | A name that passes ValidEntryName, walked element by element from a directory, never leaves it and never stays at it. |
| `Varint.UvarintRoundTrip` | archive/incremental.go:220-228 | Reading an unsigned varint undoes appending it, whatever follows. |
| `Varint.VarintRoundTrip` | archive/incremental.go:230-238 | The same for signed (zig-zag) varints. |
| `Varint.DeltaRoundTrip` | archive/incremental.go:133-137 | Adding a stored difference back with 64-bit wrap-around gives the chunk number, for every pair of uint64 values. |
| `Attributes.ParseIffEncode` | archive/attributes.go:91-189 | Bytes parse to attributes exactly when the attributes are valid and the bytes are their encoding: parse undoes append, accepted bytes are canonical, and both sides validate alike. |
| `Attributes.EncodeLength` | archive/attributes.go:91-118 | Valid attributes encode within MaxAttributesSize. |
| `Attributes.AppendAttributes` | archive/attributes.go:91-118 | The appending loop produces the specified encoding, or refuses exactly the invalid attributes. |
| `Attributes.Decoder.Take` | archive/attributes.go:197-207 | Takes the next bytes or records the first truncation, which sticks. |
| `Attributes.ParseAttributes` | archive/attributes.go:153-189 | The decoder object with its sticky error computes the specified parse. |
| `SolidStream.ParseIffEncode` | archive/solid.go:49-109 | Non-empty lists of valid members and accepted record streams correspond one to one. |
| `SolidStream.AppendSolidRecord` | archive/solid.go:49-66 | Appends the specified record, or refuses exactly the invalid members. |
| `SolidStream.ParseSolidStream` | archive/solid.go:70-109 | The loop over the offset computes the specified parse. |
| `SessionIndex.RoundTrip` | archive/incremental.go:96-198 | What Marshal writes, ParseSessionIndex reads back if and only if the index is well formed (session not 0, chunks inside listed packs and bounds, files referring to known chunks); no count guard rejects a marshaled index. |
| `SessionIndex.ParsedIsWellFormed` | archive/incremental.go:160-198 | Every index that parses is well formed, so no later lookup by chunk or pack number is out of range. |
| `SessionIndex.Count` | archive/incremental.go:242-249 | An accepted element count times the minimum element size never exceeds the remaining bytes. |
| `SessionIndex.DeltasRoundTrip` | archive/incremental.go:318-326 | Wrapping signed deltas of arbitrary chunk numbers below the limit decode to the numbers. |
| `IndexCodec.MarshalIndex` | archive/incremental.go:96-150 | The growing-buffer form equals the specified Marshal, refusals included. |
| `IndexCodec.ParseSessionIndex` | archive/incremental.go:160-198 | The stateful decoder computes the specified parse on all bytes, panics included. |
| `Panics.IndexPanicIff` | archive/incremental.go:304-311 | ParseSessionIndex panics, instead of refusing, if and only if the bytes read as an index up to some file whose name is valid and whose attributes length is 2^63 or more. |
| `Panics.IndexPanics` | archive/incremental.go:304-311 | One such index. |
| `IndexCodec.IndexDecoder.ReadChunk` | archive/incremental.go:282-302 | Reads one checked chunk record, or leaves the sticky error. |
| `IndexCodec.IndexDecoder.ReadFile` | archive/incremental.go:304-331 | Reads one file version; deltas, the chunk limit and the directory-or-link rule as specified. |
| `IndexCodec.IndexDecoder.ReadDeltas` | archive/incremental.go:318-326 | The loop over signed differences computes the specified numbers and stops at the first unknown chunk. |
| `Directory.DirectoryRoundTrip` | archive/directory.go:67-107 | Parsing a directory gives back the records appended to it. |
| `Directory.ParsedRecordsAreValid` | archive/directory.go:94-137 | An accepted directory holds only records that could have been appended, with known buckets and codecs. |
| `Panics.DirectoryPanicIff` | archive/directory.go:109-117 | ParseDirectory panics if and only if the bytes are a directory that reads up to some record whose name is valid and whose attributes length is 2^63 or more. |
| `Panics.DirectoryPanics` | archive/directory.go:109-117 | One such directory. |
| `Directory.ReadAll` | archive/directory.go:94-107 | ParseDirectory's loop computes the specified parse. |
| `Directory.DirectoryBuilder.Add` | io/directory.go:25-39 | The builder holds exactly the records added, as long as they can be encoded and fit into MaxDirectorySize, and then stays full. |
| `Chunker.SplitRejoins` | archive/chunker.go:47-90 | The pieces of the recursive cut concatenate to the input. |
| `Chunker.SplitSizes` | archive/chunker.go:47-90 | All pieces but the last are 256 KiB to 4 MiB; the last is non-empty and at most 4 MiB. |
| `Chunker.HashWindow` | archive/chunker.go:69-90 | The 64-bit gear hash depends on at most the last 64 bytes. |
| `Chunker.CutStable` | archive/chunker.go:69-90 | A cut found before the end of the data survives any change after it. |
| `Chunker.SharedSuffix` | archive/chunker.go:47-90 | Inputs that share a boundary and everything after it are cut identically from there. |
| `Chunker.SharedPrefix` | archive/chunker.go:47-90 | Inputs that share a prefix are cut identically as long as the cuts fall inside it. |
| `Chunker.EditLocality` | archive/chunker.go:47-90 | An edit between a common prefix and a common suffix changes only the pieces around it. |
| `Chunker.CutPoint` | archive/chunker.go:69-90 | The two loops find the one cut of `Chunker.IsCut`: the whole of up to 256 KiB, else after the first byte past them where the 64-bit sum of the doubled gear values of the last 64 bytes at most has its top 22 bits zero, 18 from 1 MiB on, or the end. |
| `Chunker.CutIs` | archive/chunker.go:69-90 | The specified cut is that one. |
| `Chunker.SplitIs` | archive/chunker.go:47-90 | Every piece of the split is cut there, from the next 4 MiB. |
| `Chunker.Resync` | archive/chunker.go:47-90 | In two streams with a common end, a place in it whose last 64 bytes match, at least 256 KiB and 64 bytes and at most 4 MiB behind a boundary of each with no match since, is a boundary of both, and from there on they are cut alike. |
| `Chunker.Chunker.Next` | archive/chunker.go:47-67 | Under any pattern of short reads, Next returns what is pending up to its one cut, and keeps the rest. |
| `Chunker.Drain` | archive/chunker.go:47-67 | Calling Next to the end yields the stream cut up piece by piece; on a read error exactly the pieces that began at least a full buffer before it, the one that began exactly that far depending on whether the error comes with the last bytes. |
| `Pack.PackWriter.Write` | io/incremental_write.go:688-713 | Whatever block sizes are drawn, every byte written is kept in order, in full blocks of the drawn sizes and a rest shorter than the next. |
| `Pack.PackWriter.Close` | io/incremental_write.go:727-743 | The sealed blocks concatenate to everything written; only the last may be short. |
| `Pack.ChunkRouter.Feed` | io/incremental_restore.go:303-333 | Feeding more plaintext keeps: each needed chunk passed so far was delivered once, in order, as its exact bytes; otherwise it stopped at an overlap or a refused chunk. |
| `Pack.Route` | io/incremental_restore.go:184-200 | For every slicing of the stream, routing succeeds if and only if the needed chunks fit in order without overlap and all are accepted; overlap or shortfall is always reported. |
| `Pack.PackedChunksFit` | io/incremental_write.go:578-614 | Chunks stored back to back fit and slice back exactly, for every increasing choice of them. |
| `Pack.PackThenRoute` | io/incremental_write.go:688-743 | Writing chunks into a pack and routing its blocks to any of them gives each back as it went in. |
| `ArchiveFile.ChainIsContiguous` | io/incremental.go:141-169 | Any index chain that reads is sessions 1..N in order at strictly increasing offsets. |
| `LogReading.ReadsChain` | io/incremental.go:141-169 | In any file that begins with a valid log, the chain read from the newest index is exactly the log's indexes. |
| `LogReading.ScansLog` | io/incremental.go:236-266 | Scanning forward over a valid log finds its newest index and the offset just past it. |
| `LogReading.LoadsLocated` | io/incremental.go:71-95 | A file in which checkpoint or scan locates a log's end loads exactly the state of that log. |
| `Loader.ReverseInPlace` | io/incremental.go:164-167 | Swapping ends reverses the chain. |
| `Loader.ReadIndexChain` | io/incremental.go:141-169 | The loop from the newest index back, then reversed, computes the specified chain, and terminates. |
| `Loader.ScanForLastIndex` | io/incremental.go:236-266 | The entry loop computes the specified scan. |
| `Loader.State.ApplySession` | io/incremental.go:271-300 | Mutating the chunk list and file map gives the specified next state, or refuses exactly when it does; every chunk lookup is in range. |
| `Loader.LoadIncremental` | io/incremental.go:71-95 | The whole loader computes the specified load for every file. |
| `CrashSafety.SafeLoads` | io/incremental.go:71-117 | A safe file loads exactly its log's state, and the sealed count never exceeds the newest session. |
| `CrashSafety.UpdateCrashPoint` | io/incremental_write.go:385-433 | At every byte written by an update, from any accepted file, the file is safe for exactly the old log or exactly the new one; for the old one until the last entry of the session is complete. |
| `CrashSafety.UpdateCompletes` | io/incremental_write.go:385-433 | A completed update is an intact archive of the new log. |
| `CrashSafety.RepairCrashPoint` | io/incremental_write.go:337-368 | At every byte of a repair the file stays safe for the same log. |
| `CrashSafety.RepairCompletes` | io/incremental_write.go:337-368 | A completed repair is an intact archive of the same log. |
| `CrashSafety.SignatureCrashPoint` | io/signature.go:148-157 | At every byte of writing a signature over any accepted file, whatever lies behind its tail, the file stays safe for the same log. |
| `CrashSafety.SignatureCompletes` | io/signature.go:148-157 | A completed signature leaves the archive proper as it was and the file accepted. |
| `Undo.UndoRestores` | io/incremental_write.go:398-419 | Undoing a failed session restores the file byte for byte, wherever the writing stopped and whether or not the file had been cut behind it. |
| `Undo.UndoKeeps` | io/incremental_write.go:398-419 | At every byte of an undo that is not exposed the file is safe for the old log; only before its first byte it may be safe for the new one. |
| `Undo.BareSessionLost` | io/incremental_write.go:398-419 | With the new tail in place at the end of the file and the first byte of the undo written, a session without packs leaves a file that does not load. |
| `Undo.FirstPackLost` | io/incremental_write.go:398-419 | There, a session with packs leaves a file that loads as the new state, but whose first new pack no longer reads. |
| `Undo.UndoCrashSafeIff` | io/incremental_write.go:370-419 | For every accepted file and every failing write: at every byte of the undo the file loads as the old or the new log with all packs readable, if and only if the new session was not yet in place (its tail complete at the very end of the file, or the file cut behind it before the sync failed) and no complete stale checkpoint leads elsewhere. |
| `Undo.StaleInsideLog` | io/incremental.go:97-117 | A stale checkpoint that points into the old log leads to the old archive if and only if it points at its newest index. |
| `Undo.IntactUndoIff` | io/incremental_write.go:370-419 | For an archive as its last write left it: unsigned, the undo is crash safe exactly when the session was not completely written; signed, exactly when the file was not cut and the new tail does not end where the damaged signature did. |
| `Undo.UndoAfterCompleteWrite` | io/incremental_write.go:370-419 | The failing families: a session completely written over an unsigned archive whose truncation or sync then fails, and one over any archive whose truncation took effect and whose sync failed; what the file loads as, and what is lost. |
| `Undo.StaleServesIff` | io/incremental_write.go:398-419 | While an undo has put a stale checkpoint back but is not done, the file serves the old or the new archive if and only if that checkpoint leads to it. |
| `ChunkStore.PackReads` | io/incremental_restore.go:165-209 | Every pack of a valid log is readable at its recorded offset, with its payload. |
| `ChunkStore.PacksExtend` | io/incremental_write.go:578-614 | A new session's packs never collide with older ones. |
| `ChunkStore.SoundEnvExists` | io/incremental_write.go:538-576 | Chunk IDs and a codec as assumed exist for any fewer than 2^256 chunks, which nothing else can then imitate. |
| `SessionWriter.SessionWriter.constructor` | io/incremental_write.go:507-535 | Builds the ID map over all chunks of the archive. |
| `SessionWriter.SessionWriter.StoreChunk` | io/incremental_write.go:578-614 | A new chunk goes to a pack that stays within MaxPackSize, under the next number, restores to its bytes, and keeps IDs distinct and chunks apart. |
| `SessionWriter.SessionWriter.AddFile` | io/incremental_write.go:538-576 | The recorded version restores to exactly the bytes read; a read error records nothing; everything recorded before still restores. |
| `Snapshots.NextIsPromised` | io/incremental_write.go:268-307 | Diffing and applying gives, name by name, the promised snapshot. |
| `Snapshots.NextTook` | io/incremental_write.go:268-331 | Field by field: a readable input that is new, or whose attributes or size differ from the record, is recorded with its attributes and exactly its bytes; any other keeps its record; a name without an input goes, unless it is or lies under one that could not be read. |
| `Snapshots.TookDetermines` | io/incremental_write.go:268-331 | That determines the snapshot. |
| `Snapshots.DiffInputs` | io/incremental_write.go:268-307 | The loops compute exactly the changed inputs in order, and exactly the deleted names, in byte order. |
| `Backup.EmittedIsWellFormed` | io/incremental_write.go:626-640 | Every index a session writer emits passes ParseSessionIndex's checks. |
| `Backup.EmittedApplies` | io/incremental.go:271-300 | Every emitted index applies, and gives the recorded files and chunk locations. |
| `Backup.SessionExtendsLog` | io/incremental_write.go:442-490 | Appending the emitted session to a valid log gives a valid log that represents the new snapshot. |
| `Backup.Archive.constructor` | io/incremental_write.go:105-160 | A created archive, signed or not, is accepted and represents its first snapshot. |
| `Backup.Archive.Update` | io/incremental_write.go:173-233 | With a signer or without, with a failing write or not: a run leaves the promised snapshot unless it failed before the session was in place, and then the old one; a run that failed so, and an unsigned one that appends nothing, leaves an undamaged file as it was; every state the file went through holds the old or the new archive, except those of an exposed undo. |
| `Backup.Archive.Commit` | io/incremental_write.go:385-433 | With a session to write, the run fails with the old archive in place if and only if writing or cutting it failed, and fails with the new one in place if and only if the count or the signature did. |
| `Backup.Archive.Reseal` | io/incremental_write.go:420-429 | Raising the sealed count, or failing to, keeps the archive intact. |
| `Backup.Archive.Sign` | io/signature.go:148-157 | Signing, or failing to after any bytes, keeps the log through safe states only; a finished signature follows the archive proper as it was. |
| `Backup.Archive.FinishUnchanged` | io/incremental_write.go:238-262 | A run that records nothing keeps a signature that holds and signs again otherwise, keeping the log through safe states only. |
| `Backup.Archive.Drop` | io/incremental_write.go:398-415 | A session in which nothing could be recorded, or that cannot be completed, is undone after any part of its packs was written: the file is as before, through states that hold the old archive. |
| `Backup.Archive.Repair` | io/incremental_write.go:337-352 | Repair leaves an intact archive of the same log, through safe states only. |
| `Backup.Archive.Append` | io/incremental_write.go:385-419 | Writing the session and the tail and cutting the file leaves the new archive, through states safe for the old or the new log. |
| `Backup.Archive.FailAndUndo` | io/incremental_write.go:398-419 | After a write that failed after any number of bytes, or after the file was cut, the file is exactly as before, through states that hold the old or the new log, except those of an exposed undo. |
| `Backup.Archive.Interrupted` | io/incremental_write.go:173-233 | Stopping at any state of a succeeding, signing, failing or undone run, except inside an exposed undo, leaves the old snapshot or the new one. |
| `Backup.History` | io/incremental_write.go:77-233 | After any sequence of created, signed or unsigned, finished, failed (early or late) and interrupted runs the archive is valid and holds the snapshot the history promises. |
| `Provenance.HistoryFrom` | io/incremental_write.go:77-233 | After any history, crashes and failures included, every record is what some readable input of that name read to in some run. |
| `Provenance.LastRunIsThere` | io/incremental_write.go:268-307 | After a last run that did not fail, if size and attributes tell contents apart, every readable regular file of that run is recorded with the bytes it has now. |
| `Assembly.WriteStep` | io/incremental_restore.go:225-235 | Writing a new position of a file keeps all positions written before and counts it once. |
| `Restore.Restorer.constructor` | io/incremental_restore.go:97-132 | Maps every chunk to exactly the positions it fills, once each, for the files whose temporary file could be created. |
| `Restore.Restorer.Deliver` | io/incremental_restore.go:213-236 | A verified chunk is written to every position that uses it, and no position is written twice, even when a chunk repeats within and across files. |
| `Restore.Restorer.RestorePack` | io/incremental_restore.go:165-209 | A pack that does not verify, or whose needed chunks do not, marks every file that uses it; otherwise all its needed chunks are delivered. |
| `Assembly.GoodIffRouted` | io/incremental_restore.go:184-200 | The router succeeds exactly when every needed chunk is present, verified and overlaps no other. |
| `Restore.Restorer.AllSettled` | io/incremental_restore.go:76-89 | After all packs, a file is without error if and only if nothing went wrong for it, and then it is complete, so the missing-chunks error is never reached. |
| `Restore.Restorer.PublishRestores` | io/incremental_restore.go:254-274 | Exactly the files nothing went wrong for are renamed into place, each holding its verified chunks in order. |
| `Extraction.LoadedIsUsable` | io/incremental.go:271-300 | Whatever bytes a file holds, a state loaded from it has every chunk number in range and every file adding up to its size. |
| `Extraction.LoadedPacksInside` | io/incremental.go:271-300 | ... and every chunk in a pack between the header and the newest index. |
| `Extraction.NoRollback` | io/incremental.go:84-88 | A file whose newest session is older than its sealed count never loads. |
| `Extraction.ExtractFiles` | io/incremental_restore.go:39-91 | For every load result, damage and failure: a regular file is published if and only if its pack reads and writes all succeed, with exactly its verified chunks and recorded size; directories come before hard links before symlinks. |
| `Extraction.PublishedIsRecorded` | io/incremental_restore.go:211-236 | Whatever the packs now hold, every published file has exactly the recorded content. |
| `Extraction.UndamagedRestoresAll` | io/incremental_restore.go:33-38 | From an undamaged archive without file system failures, the published files are exactly the recorded regular files. |
| `Extraction.ExtractBackup` | io/incremental_restore.go:39-91 | Extracting a backup archive publishes exactly its snapshot's regular files. |
| `Extraction.ExtractDamaged` | io/incremental_restore.go:39-91 | With packs damaged in any way, what is published is still what was recorded. |
| `Extraction.BackupThenExtract` | io/incremental_write.go:77-233 | Backup histories followed by extraction give back the snapshot the history promises, to the byte: every file as some run read it, and, if size and attributes tell contents apart, every file the last run could read as it was then. |
| `PipelineSteps.StepKeeps` | io/pipeline.go:178-260 | Every step of dispatcher, worker or consumer keeps the pipeline invariant. |
| `PipelineRuns.NotStuck` | io/pipeline.go:247-262 | No state that satisfies the invariant is stuck before the consumer has returned, also after a failing send. |
| `PipelineRuns.StepDecreases` | io/pipeline.go:203-262 | Every step decreases a bound on the steps to come. |
| `PipelineRuns.EveryReachableState` | io/pipeline.go:167-271 | For every schedule: the output is a prefix of the sequential output, every buffer is in exactly one place, no two blocks in flight share one, and something can move until the consumer returns. |
| `PipelineRuns.EveryFinishedRun` | io/pipeline.go:247-271 | However scheduled, a finished run has the sequential output and failure, all buffers back, all threads ended, and, unless cancelled, its whole plan dispatched. |
| `Encryption.SameBlocks` | io/mmap_pipeline.go:88-116 | Streamed and memory-mapped, a file is cut into the same blocks with the same nonces for the same random source. |
| `Encryption.PlanCoversData` | io/pipeline.go:67-97 | The blocks cover the file in order; a complete plan covers all of it. |
| `Encryption.PlanDraws` | io/pipeline.go:67-97 | Every block has the size and the nonce the random source gives for it, each drawn once, in order; only the last is shorter, and a plan stops early only where no nonce can be drawn. |
| `Encryption.NoncesDiffer` | io/pipeline.go:67-97 | No nonce seals two blocks, if the source gives none twice. |
| `Encryption.Encrypts` | io/pipeline.go:49-128 | The blocks up to the first failing send are sent, and without one all of them; the result is the HMAC of exactly the file unless reading or a nonce failed. |
| `Encryption.EncryptAndStream` | io/pipeline.go:49-128 | The reference form sends the plan's blocks up to the first failing send, with the HMAC over exactly the plaintext. |
| `Encryption.EncryptMmapSequential` | io/mmap_pipeline.go:147-182 | The sequential memory-mapped form sends the same and returns the same result. |
| `Encryption.ParallelRefinesSequential` | io/pipeline.go:167-271 | For every schedule and worker count the parallel pipelines send the sequential blocks in order, sealed, with the same result, and return all workers*4 buffers. |
| `Decryption.DecryptBlocksSequential` | io/decrypt_pipeline.go:123-145 | Calls the sink on the blocks before the first failure, consumes the whole stream, and returns a read error over a block error. |
| `Decryption.ClassOfStream` | io/extractor.go:603-618 | A read error is reported before anything else; without one the first failing block decides: forged, not decompressing, or not written; the sink has had exactly the plaintexts before it. |
| `Decryption.ParallelAgreesWithSequential` | io/decrypt_pipeline.go:59-119 | For every schedule and worker count: the same sink calls, the whole stream consumed, and the same error after streamDataBlocks's classification. |
| `Decryption.HelpersAgreeIff` | io/decrypt_pipeline.go:99-145 | For every finished schedule the two helpers return the same unclassified error if and only if there is not both a read error and a block error. |
| `Decryption.HelpersOrderErrorsDifferently` | io/decrypt_pipeline.go:99-145 | One bad block followed by a read error: whatever the schedule, the parallel helper reports the block, the sequential one the read error. |
| `ArchiveJobs.PlanJobs` | io/concurrent.go:229-244 | One job per individual file, then one per solid group, indexed in order; only large individual files are inline. |
| `ArchiveJobs.MoveKeeps` | io/concurrent.go:110-163 | Every move of dispatcher, worker or writer keeps the pool invariant. |
| `ArchiveJobs.NotStuck` | io/concurrent.go:110-163 | Something can move until the writer has returned and the dispatcher and every worker have ended. |
| `ArchiveJobs.EverySchedule` | io/concurrent.go:110-172 | For every schedule: entries in job order, at most workers+2 jobs dispatched but not consumed, a bounded number of moves, never stuck. |
| `ArchiveJobs.EveryCompleteSchedule` | io/concurrent.go:146-172 | Without a fatal error every job is written; otherwise exactly the jobs before the first fatal one. |
| `Checksum.CanonicalAppend` | archive/checksum.go:44-75 | Once the header is known, later bytes only append to what is hashed. |
| `Checksum.RewriteCount` | archive/checksum.go:64-71 | Rewriting the sealed count in place does not change what is hashed. |
| `Checksum.CanonicalSeesTheRest` | archive/checksum.go:59-73 | Files hashed alike are equal outside the sealed count. |
| `Checksum.CanonicalIs` | archive/checksum.go:55-75 | Byte by byte: exactly the 36 bytes of the sealed count of a version 2 header with its incremental flag set are hashed as zeros; every other header is hashed as it is. |
| `Checksum.ArchiveChecksum.Write` | archive/checksum.go:44-51 | The object stays in step with all bytes written so far. |
| `Checksum.ArchiveChecksum.FlushHeader` | archive/checksum.go:55-75 | Hashes the held header, masked exactly when it is an incremental header, as soon as its layout is known. |
| `Checksum.ArchiveChecksum.Sum` | archive/checksum.go:78-83 | The digest of everything written with an incremental count zeroed. |
| `Checksum.ArchiveChecksum.MarshalBinary` | archive/checksum.go:87-92 | Gives the state exactly once the header has been hashed. |
| `Checksum.ChecksumOf` | archive/checksum.go:44-83 | For every slicing of the writes the result is that of the concatenation. |
| `Checksum.CheckpointRoundTrip` | archive/incremental.go:344-372 | Parsing a marshaled checkpoint gives back its index offset and hash state. |
| `Checksum.IncrementalFile.AppendSession` | archive/writer.go:58-78 | The checksum resumed from the checkpoint ends in the right footer for the longer archive. |
| `Checksum.IncrementalFile.Repair` | io/incremental_write.go:337-352 | Rehashing rebuilds a right tail whatever followed the sessions. |
| `Checksum.IncrementalFile.RewriteSealedCount` | io/incremental_write.go:420-426 | Resealing the count keeps checkpoint and footer right. |
| `Checksum.Life` | archive/writer.go:156-169 | After any number of sessions, repairs and count rewrites the footer equals a fresh checksum of the whole file before it. |
| `Checksum.SoundHashExists` | archive/checksum.go:29-42 | Hashes as assumed (absorbing piecewise, restorable from at most 128 bytes) exist. |
| `Checksum.CountedHeaderExists` | archive/checksum.go:59-71 | The shortest header whose count is masked. |
| `Signature.SignThenSplit` | archive/signature.go:32-40 | A signed archive splits back into the archive and its signature. |
| `Signature.UnsignedDoesNotSplit` | archive/signature.go:43-52 | An archive ending in its footer never splits. |
| `Signature.HeldSplitsAlike` | io/signature.go:77-109 | The held-back end of a stream splits as the whole file does by random access. |
| `Signature.VerifyArchive` | io/signature.go:41-73 | For every file and read pattern: the signature is the one behind the archive proper, and the checksum is right if and only if the 32 bytes at 64 before its end are the digest of everything before them, an incremental count zeroed. |
| `Signature.FooterVerifies` | io/signature.go:41-73 | An archive that ends in the footer of its content, signed or not, verifies. |
| `Signature.IncrementalVerifies` | io/signature.go:41-73 | So does an incremental archive after any of its operations. |
| `Signature.ChangeIsReported` | io/signature.go:60-73 | A change to any byte before the footer outside the sealed count is reported, if the digest tells the contents apart. |
| `Signature.CountIsNotReported` | archive/checksum.go:64-71 | A change inside the sealed count is not. |
| `Volume.HeaderRoundTrip` | archive/volume.go:52-92 | Parsing a marshaled header gives it back, except index 0, which is refused. |
| `Volume.HeaderCanonical` | archive/volume.go:72-92 | Only marshaled headers are accepted. |
| `Volume.PayloadsSplit` | io/volume.go:81-106 | Payloads rejoin to the stream, all but the last are exactly full, and there are max(1, ceil(len/capacity)). |
| `Volume.CreateVolumes` | io/volume.go:66-75 | Sizes below 64 KiB are refused; otherwise payload capacity is the size less the framing. |
| `Volume.VolumeWriter.Write` | io/volume.go:81-106 | For every sequence of writes the volumes so far and the open one hold the stream, cut at capacity. |
| `Volume.VolumeWriter.Close` | io/volume.go:110-168 | The files written are exactly the volumes of the stream, only the last one flagged. |
| `Volume.VolumeReader.Read` | io/volume.go:260-287 | For every buffer size, short read and read error, the bytes returned and the bytes to come are the bytes that were to come, ending in the same error or EOF. |
| `Volume.ReadAll` | io/volume.go:260-354 | Reading to the end in pieces of any size gives the joined stream and its failure. |
| `Volume.SplitJoins` | io/volume.go:81-354 | Joining the volumes of a stream gives back the stream if and only if there are fewer than 2^32; otherwise volume 2^32, whose number wraps to 0, is refused. |
| `Volume.StreamJoins` | io/volume.go:248-250 | The same when the volumes arrive back to back in one stream, followed by anything. |
| `Volume.WrongVolume` | io/volume.go:302-337 | A missing volume or one with a wrong header ends in an error naming its index, after exactly the payloads before it. |
| `Volume.ForeignVolume` | io/volume.go:329-337 | A volume of another archive is reported as foreign. |
| `Volume.ReorderedVolume` | io/volume.go:329-337 | A volume in the wrong place is reported with the number it says. |
| `Volume.CheckVolumeSet` | io/volume.go:359-381 | The header loop computes the specified check of the whole set, its declared sizes added up as int64. |
| `Volume.CheckFinds` | io/volume.go:359-405 | With all volumes before it in place, the check names the first that is missing, cut, foreign, out of order or of the wrong size, with its index and problem, and passes a last volume in place. |
| `Volume.CheckedSetJoins` | io/volume.go:359-381 | A set that passes the check can afterwards only fail by a checksum mismatch, or at the first volume whose declared size wraps, which ends too soon. |
| `Volume.CheckedSetFailsIff` | io/volume.go:372-373 | After a passed check only a checksum mismatch can occur, if and only if no payload length is 2^64-32 or more, or a volume before the first such has a wrong checksum. |
| `Volume.WrappedSizePasses` | io/volume.go:372-373 | A 71-byte volume that declares 2^64-1 bytes passes the check, and then ends too soon. |
| `Volume.WrittenSetPasses` | io/volume.go:359-381 | The volumes of a stream pass the check. |
| `Volume.SplitThenJoin` | io/volume.go:81-354 | Any writes, then any reads: the stream comes back. |
| `Container.EntryExtracts` | io/extractor.go:365-458 | Whatever the keys open or refuse, extracting a well-framed file or solid entry yields what its own contents and the output tree say, and leaves the reader right behind it unless the output tree as a whole fails. |
| `Container.OnlyTheTreeAborts` | io/extractor.go:404-476 | The contents of an entry never end the run: only a fatal failure of the output tree does. |
| `Unpacking.ArchiveThenExtract` | io/extractor.go:197-218 | Entries that open to their items, extracted without file system failures, give exactly these back in order: a file its name, attributes and the concatenation of its pieces, a group one file per member with its name, bytes and attributes. |
| `Unpacking.ExtractedIsConfirmed` | io/extractor.go:419-458 | For all bytes, keys and failures: an entry publishes a file only if the trailer read last opens to the HMAC and size of exactly its bytes, and group members only if it opens to those of exactly their record stream. |
| `Unpacking.RunIsConfirmed` | io/extractor.go:197-218 | So for everything a run publishes. |
| `Unpacking.FileRefused` | io/extractor.go:404-458 | A file entry is refused for the first thing wrong with it, under its own code. |
| `Unpacking.LockedRefused` | io/extractor.go:368-397 | An entry whose metadata or name does not open is refused as such. |
| `Unpacking.GroupRefused` | io/solid.go:288-336 | A solid group likewise, as a whole. |
| `Truncation.TruncationStops` | io/extractor.go:197-218 | Cut off at any byte of any entry: the entries before come out as ever, that one not at all, and the run ends by reporting the truncation. |
| `Truncation.OversizedBlock` | io/extractor.go:562-656 | A block that claims more than the largest size ends the run, read or skipped. |
| `Container.BodySkips` | io/extractor.go:500-540 | An entry's body can be skipped without any key, to its end. |
| `Container.BlocksSkip` | io/extractor.go:637-656 | Skipping blocks counts their payload and stops behind the sentinel. |
| `Container.BlocksRead` | io/extractor.go:562-595 | Reading blocks gives exactly the blocks written and stops at the same place. |
| `Container.TrailerReads` | io/extractor.go:660-686 | Reading a trailer consumes it to its end before anything is verified. |
| `Container.SolidReads` | io/solid.go:288-336 | Reading a solid group yields its members or a recoverable error, and stops behind the entry. |
| `Container.ExtractsEveryEntry` | io/extractor.go:197-218 | Extraction visits every entry at its boundary and yields what each says by itself, up to the first at which the output tree as a whole fails. |
| `Container.DamageIsolation` | io/extractor.go:197-218 | With any entries replaced by damaged ones of the same length, extraction stops at the same boundaries and every other entry yields the same, as far as both runs go; both go to the end unless the output tree as a whole fails. |
| `Container.SafeExtractor.SkipBlocks` | io/extractor.go:637-656 | The loop computes the specified skip on all bytes. |
| `Container.SafeExtractor.PullBlocks` | io/extractor.go:562-595 | Calling the block reader to its end computes the specified blocks on all bytes. |
| `Container.SafeExtractor.NextType` | io/extractor.go:334-363 | The loop finds the next file or solid entry or the end, passing over a directory and its locator. |
| `Container.SafeExtractor.Extract` | io/extractor.go:197-218 | The entry loop yields the specified outcomes: it goes on after recoverable failures and stops at fatal ones. |
| `Container.LocatorRoundTrip` | archive/directory.go:140-154 | Parsing a locator gives back the directory's offset. |
| `Listing.EntryLists` | io/extractor.go:800-849 | Listing an entry gives its own rows and leaves the reader behind it. |
| `Listing.ScanList` | io/extractor.go:774-797 | The scan loop computes the specified rows. |
| `Listing.ArchiveWriter.WriteFileEntry` | archive/writer.go:172-199 | Appends exactly the entry's framing; LastEntry is its offset and its ciphertext without tags. |
| `Listing.StoredIsPayload` | io/solid.go:130-138 | A group's stored size is the length of its decrypted payload. |
| `Listing.ItemAgrees` | io/directory.go:53-88 | A written entry's directory records list exactly what scanning the entry lists, proportional sizes included. |
| `Listing.DirectoryListing` | io/directory.go:164-178 | The loop lists each record. |
| `Listing.DirectoryReads` | io/directory.go:114-161 | Reading the directory by random access gives back the records written. |
| `Listing.TrailEnds` | io/directory.go:182-200 | A sequential scan passes over the directory and its locator to the end marker. |
| `Listing.ListBothWays` | io/directory.go:92-108 | A file with a directory results if and only if the archive stays below 2^63 bytes and its records can be encoded and fit; then, signed or not, the directory listing equals the scan listing record for record, and both hold what the items say. |
| `Listing.RowsListed` | io/extractor.go:837-861 | One row per file and group member, in order: name, kind, mode, link target, time and codec as archived; a file's recorded size and bucket and the size its blocks seal; a member's own size and bucket, and its share of the group's sealed size in proportion, rounded down. |
| `Listing.PlainFileListed` | io/extractor.go:851-861 | A file without attributes lists as a regular file with its permission bits. |
| `Listing.DirectoryIsConfined` | io/directory.go:114-161 | Whatever the bytes, records that are read point between the header and the directory and could have been written. |
| `ListingExample.ItemsOpen` | io/extractor.go:404-458 | Entries that open to a file and to a group, as `Unpacking.ArchiveThenExtract` assumes, exist. |
| `ListingExample.ArchivesExist` | io/directory.go:92-108 | Keys, entries and seals as assumed there exist, and a file results: a file, a solid group and every directory up to its size limit. |

## Left out

- AES-GCM, PBKDF2, HKDF, age, SSH signatures, SHA-256 and zstd are parameters.
- Random padding, salts, nonces and drawn block sizes are arbitrary inputs; only the order in which they are drawn is modelled.
- Progress of encryptAndStream after a failing send: it waits for the other goroutine without draining its channel (io/pipeline.go:113-119), so the two stages are taken one block at a time and only their blocks and result are stated.
- Backup.Archive.Update: a repair or an undo whose own write fails stops where it is, which is what Backup.Archive.Interrupted states.
- Backup.Archive.Interrupted: a run that would stop inside an exposed undo is taken to its end; what it leaves there is stated in Undo.UndoCrashSafeIff and the lemmas beside it.
- SignArchiveFile, and that finishUnchanged refuses to sign an archive whose checksum does not hold.
- Backup.RecordOne: files are read as one byte string that may end in an error; a file changing while it is read is whatever bytes were read.
- SessionWriter.SessionWriter.OpenPack: a session of 2^32 packs or more fails instead of wrapping the pack number.
- Restore.Restorer.RestorePack: chunks are routed first and written afterwards; the source writes each as it is cut out, with the same effect, since writing does not influence acceptance.
- Restoring: a fatal error while creating a temporary file aborts before anything is published and is not modelled; file names are restored in any order.
- OrderedPipeline: a decrypting pipeline's blocks each have their own buffer; sync.Pool and goroutine start-up are not modelled.
- ArchiveJobs.EverySchedule: what a job's entry contains and the byte totals are not modelled.
- Container.EntryExtracts: version 2 entries only; version 1 archives, attribute application, ownership and output confinement are left out.
- Archives whose directory outgrew its limit are listed by scanning only (Listing.ScanList).
- Removing stale volumes before writing a new set.
- Volume.ForeignVolume: a foreign first volume sets the archive ID, so the second volume is the one reported.
- Solid group planning, compression decisions, cloud backends, range reads, progress reports, the command line and mmap calls: easy next to the above.
