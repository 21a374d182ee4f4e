# URP reducers: a verified model

URP reduces stored bytes, context tokens and model calls "without silently
changing the result". This project models the parts of the reference runtime
where that promise is a hard invariant, and proves the invariants over every
input, every run and every crash point the model has. Each module is one source
file, and has its file's form: a loop over changing state is a method proved
against a function, a class keeps its fields, expressions stay functions.

| module | what it models |
|---|---|
| `Common`, `Text`, `Bits` | results, bytes, a collision-free SHA-256 as a term, `split`/`join`, masks as remainders |
| `Chunking` | the 32-bit rolling-hash chunker in Python and in Rust, and fixed blocks |
| `ChunkStore`, `Executor` | the deduplicating, compressing chunk store; storing an object and restoring it whole or by range |
| `Checkpoints` | full and delta checkpoints over blocks, chains of any depth |
| `Ledger`, `EdgeSync` | the hash-chained JSONL ledger with its backward tail scan; cursor replication to a sink |
| `Multipart` | the S3 multipart upload life cycle |
| `Contracts`, `Policy`, `PolicyRules`, `Planner` | the action registry, bundle evaluation, what a decision means for one rule or action, plan construction |
| `Context`, `Base64`, `Encoding` | the context compiler and the JSON envelope codec |
| `Recovery` | backup, verified extraction, replace with rollback, merge |
| `Cache`, `Similarity`, `SemanticCache`, `SemanticExpiry`, `Gateway`, `GatewayRules` | expiring caches, similarity search, when expiry shows, the chat gateway over both, and what one call may do |

Hashes and MACs are terms over what they cover, so equal hashes mean equal
content without any axiom. Compression is an arbitrary pair of functions with
`inflate(deflate(x)) == x` for each codec, and zstandard is installed or not for each call. Files are maps, an atomic write or rename is one
step, and crashes fall between steps. The 8192-byte scan block, chunk sizes,
`avg_bits`, clock readings, stack room, provider answers and I/O failures are parameters.

## What turned out not to hold as promised

Each of these is proved, with the exact condition under which the promise does hold.

- A tenant bound to the process filters the ledger that edge sync reads. A batch
  passes the sink if and only if no other tenant's event lies within its span
  (`EdgeSync.TenantBatchAcceptedIff`); `EdgeSync.TenantFilterBreaksChain` has two
  events that no retry with the same limit gets across.
- `_replace_state` that raises keeps the old state if and only if there was none or
  the step that raised is neither the final clean-up nor the rollback rename
  (`Recovery.ReplaceOutcome`). After a crash, a second replace under the same
  process id leaves neither the old files nor either archive's if and only if the
  crash fell between the two renames and the second one raised, or crashed, before
  it had moved its own files in (`Recovery.RetryLosesIff`, `Recovery.SecondCrashLosesIff`;
  `Recovery.EmptyIffDestroyed` over any number of replaces).
- Dropping expired semantic entries is unobservable, over all runs about a set of
  questions, if and only if no two texts that may be stored tie for one of them
  (`SemanticExpiry.UnobservableIffNoTies`; `Similarity.TiesExist` gives ties). A tie
  does harm only after a key whose entry has expired is stored again
  (`SemanticExpiry.ExpiryUnobservable`).
- A put is a dedupe hit if and only if the same tenant stored the same bytes in the same
  namespace before, for tenants whose name has no NUL (`ChunkStore.HitIffPutBefore`,
  `ChunkStore.SharedIffSame`). One with a NUL shares chunks with a tenant whose name and
  namespace join to the same text (`ChunkStore.NulTenantsShare`).
- A segment compressed by zstandard can be read, and its chunk put again, if and only
  if zstandard is installed for the process that does so
  (`ChunkStore.SegmentsStayReadable`, `ChunkStore.MissingCodecIsReachable`); an
  execution and a restore need it exactly when they touch such a segment
  (`Executor.ExecuteStoresPayload`, `Executor.RestoreReads`).
- A ledger that appends wrote verifies if and only if every event had an id and a
  time, and the schema check lets an empty time through (`Ledger.VerifiesIffComplete`,
  `Ledger.UndatedEventBreaksChain`).
- A cached answer is replayed unchanged if and only if it is clean in the sense of
  the JSON codec (`Gateway.ExactHitReplays`, `Gateway.SemanticHitReplays`). One that
  does not load makes every later lookup of its key raise, and every semantic lookup
  of its scope (`Gateway.UnloadableAnswerSticks`, `Gateway.SemanticLookupRaisesIff`).
- An accepted backup unpacks to what its table describes if and only if names that
  fold to one path, such as `a` and `./a`, agree on the content, and to as many files
  if and only if no two names fold to one path (`Recovery.AcceptedIsTable`,
  `Recovery.TwoNamesOneFile`). Exports and archives that carry an export's signature
  never have such names (`Recovery.ExportImports`, `Recovery.SignatureFixesContent`).
- Where the hash test may cut, it is independent of the chunk's start if and only
  if `min_size` is at least min(avg_bits, 32) (`Chunking.LocalIffMinSize`).
- The Rust chunker follows Python for all sizes and data if and only if `avg_bits`
  is at most 31 (`Chunking.RustAgreesIff`). Beyond that a build with overflow checks
  panics, and any other chunks as for `avg_bits` modulo 32
  (`Chunking.RustContentDefinedChunks`).
- A delta put that succeeds reads back if and only if its id is neither its base
  nor an ancestor of it; otherwise no read of it ends (`Checkpoints.DeltaReadsBackIff`,
  `Checkpoints.LoopIsReachable`).
- A checkpoint can be read if and only if the interpreter's stack has room for its
  chain (`Checkpoints.SoundReads`, `Checkpoints.ShortStackIsReachable`). Puts by the same caller never build a longer
  one (`Checkpoints.PutsReadBack`).
- A multipart upload stores one object for each put that raised after it had stored
  its manifest, and one more if a put returned (`Multipart.ObjectsStored`), so it
  stores at most one if and only if these are at most one together.
- A JSON value survives the codec if and only if it holds no tuple, no non-string
  key and no dictionary shaped like the bytes envelope (`Encoding.RoundTripIffClean`).
- The first rule to match, even one that only denies, replaces the safe default by
  the kind's baseline. It adds nothing to what was allowed if and only if the work
  is not AI work, asks for the semantic contract, or has the whole baseline denied
  (`Policy.FirstDenyOnlyShrinksIff`; `Policy.DenyOnlyShrinks` for bundles that decide).
- Exact-cache eviction is unobservable at given clock readings if and only if they
  never go back (`Cache.UnobservableIffNeverBack`).

## Model

| member | source | states |
|---|---|---|
| Bits.BitAndMask | python/urp/chunking.py:46-53 | the bitwise and with an all-ones mask is the remainder by a power of two, for the mask and the 32-bit wrap alike |
| Chunking.ContentDefinedChunks | python/urp/chunking.py:31-62 | the loop with its running hash, size and start yields the parts that `PartsIffHashChunking` characterises, with their offsets and digests; empty data gives no chunks before sizes are checked, bad sizes or a negative shift raise |
| Chunking.PartsAreChunking | python/urp/chunking.py:49-61 | the parts concatenate to the data, each but the last ends at the first byte where the cut rule holds, and no part has a cut inside; `PartsIffHashChunking` says the same in terms of the hash alone |
| Chunking.PartsIffHashChunking | python/urp/chunking.py:46-61 | a list of parts is the chunker's if and only if it concatenates to the data and each part but the last is from `min_size` to `max_size` long and, below `max_size`, ends where the hash is a multiple of 2^min(avg_bits, 32), and no shorter prefix of any part of at least `min_size` does either |
| Chunking.ChunkingUnique | python/urp/chunking.py:49-61 | there is only one list of parts with those properties |
| Chunking.ChunkSizes | python/urp/chunking.py:52-53 | all but the last have sizes from `min_size` to `max_size`, the last at most `max_size`, none is empty |
| Chunking.LocatedContiguous | python/urp/chunking.py:55-57 | chunk records start where the previous one ended and carry the digest of their own bytes |
| Chunking.AppendKeepsClosed | python/urp/chunking.py:50-58 | reading more input never alters a chunk closed by a cut |
| Chunking.Restart | python/urp/chunking.py:57-58 | after a cut the rest is scanned as if it were a new input |
| Chunking.PartsAfterCut | python/urp/chunking.py:54-61 | when a prefix ends in a cut, the chunks of the whole are those of the prefix followed by those of the rest |
| Chunking.HashIsLocal | python/urp/chunking.py:46-53 | whether the hash test fires depends on the last min(avg_bits, 32) bytes only, whatever came before them in the chunk |
| Chunking.Resync | python/urp/chunking.py:46-58 | inputs that share those bytes and what follows both cut there, once both chunks are past `min_size` and min(avg_bits, 32) bytes long, and chunk the rest identically |
| Chunking.LocalIffMinSize | python/urp/chunking.py:46-53 | for every rule, the hash test on parts of at least `min_size` bytes is independent of what precedes them if and only if `min_size` reaches min(avg_bits, 32) |
| Chunking.RollIsWrapping | crates/urp-chunker/src/lib.rs:39-42 | the wrapping shift and adds on u32 step exactly as the masked unbounded arithmetic of Python |
| Chunking.RustContentDefinedChunks | crates/urp-chunker/src/lib.rs:23-62 | the Rust loop yields the same parts (`PartsIffHashChunking`) for avg_bits up to 31; from 32 on it panics with overflow checks and otherwise chunks as for avg_bits modulo 32; bad sizes panic |
| Chunking.RustAgreesIff | crates/urp-chunker/src/lib.rs:34 | without overflow checks Rust and Python agree on all sizes and data if and only if avg_bits is at most 31 |
| Chunking.FixedParts | python/urp/chunking.py:65-72 | the blocks concatenate to the data, all but the last have exactly the block size and none is empty |
| Chunking.FixedChunks | python/urp/chunking.py:65-72 | the stepping loop yields those blocks with offsets and digests; a size of zero or less raises |
| ChunkStore.LocalChunkStore.PutChunk | python/urp/chunk_store.py:65-110 | a chunk known for its tenant and namespace (`HitIffPutBefore`) is verified and returned as a hit, otherwise the payload is written and then the index, by a process with or without zstandard |
| ChunkStore.LocalChunkStore.Read | python/urp/chunk_store.py:115-127 | missing file, missing codec, failed decompression and digest mismatch raise in that order; bytes that are returned are those the recorded digest covers |
| ChunkStore.LocalChunkStore.Rehydrate | python/urp/chunk_store.py:129-130 | the join of all segments in order, or the first segment's exception |
| ChunkStore.HitIffPutBefore | python/urp/chunk_store.py:65-110 | over any run from an empty store, for tenants without a NUL, a put is a dedupe hit if and only if an earlier completed put had the same tenant, namespace and bytes |
| ChunkStore.SharedIffSame | python/urp/chunk_store.py:52-71 | two segments share a file if and only if they were issued for the same tenant, namespace and bytes, in any stores and by any processes |
| ChunkStore.NulTenantsShare | python/urp/chunk_store.py:53-70 | two tenants, one with a NUL in its name, share a chunk: the second put is a hit on the first one's file |
| ChunkStore.NewChunkSize | python/urp/transforms.py:45-58 | a new chunk takes the shorter of its bytes and their compressed form, by zstandard where it is installed and zlib otherwise, or its bytes where compression is off |
| ChunkStore.WriteKeepsEntries | python/urp/chunk_store.py:88-96 | a payload write, even one followed by a crash, leaves every index entry decoding as before |
| ChunkStore.PutKeepsEntries | python/urp/chunk_store.py:65-110 | a put of an honest chunk alters no earlier entry; it raises if and only if the chunk is stored already in a codec this process lacks, and otherwise returns a segment this process can decode |
| ChunkStore.IssuedIsReadable | python/urp/transforms.py:45-68 | an issued segment reads back its bytes if and only if its codec is installed for the reader, and is stored in no more bytes than they take |
| ChunkStore.RunExtends | python/urp/chunk_store.py:65-113 | any run of puts by any tenants and processes, compressed or not, crashed or not, keeps the store consistent and every indexed file and entry as it was |
| ChunkStore.SegmentsStayReadable | python/urp/chunk_store.py:65-130 | a segment issued anywhere in such a run decodes to its bytes at the end for every reader that has its codec and for no other, and is never larger than they are |
| ChunkStore.MissingCodecIsReachable | python/urp/transforms.py:45-58 | any chunk zstandard shortens, stored where it is installed, makes a later put and read without it raise |
| ChunkStore.ReadNeverLies | python/urp/chunk_store.py:124-127 | with arbitrary files, a read that returns gives the bytes of the recorded digest |
| Executor.ExactExecutor.ExecuteExactObject | python/urp/executor.py:147-257 | the new chunk store, the new manifests and the result are those of the execution, in each mode and on each error path |
| Executor.ExactExecutor.StoreChunks | python/urp/executor.py:157-163 | the loop leaves the store after all puts and returns the segments in order, or stops at the first exception |
| Executor.ExactExecutor.RehydrateManifest | python/urp/executor.py:260-272 | unknown manifest, segment failure and whole-digest mismatch raise; otherwise the joined bytes |
| Executor.ExactExecutor.RehydrateManifestRange | python/urp/executor.py:275-309 | the sorted, clipped loop over overlapping segments with its range, size and gap errors |
| Executor.ExecuteLaysOut | python/urp/executor.py:149-224 | a stored manifest has a segment for each part of the planned layout in order, for the tenant, in its namespace or in shadow mode one of its own, uncompressed where the plan does not compress and the chunk is new |
| Executor.ExecuteRefuses | python/urp/executor.py:147-200 | work that lacks its approval, or needs a verifier other than the restore check, is refused; an observation is planned and stores nothing |
| Executor.RestoreRaises | python/urp/executor.py:260-309 | missing files, wrong digests or sizes and gaps all surface as a failed rehydration; only a missing codec and the decompressor's own error do not |
| Executor.ExecuteRestores | python/urp/executor.py:164-183 | whatever the store held before, tampered with or not, a manifest that is written restores to the payload at once |
| Executor.SortIs | python/urp/executor.py:286 | the range loop goes through all segments of a manifest in the order of their starts, and those with one start in the manifest's order |
| Executor.RangeReadsTouched | python/urp/executor.py:286-300 | a range restore depends on the files of the segments that have a byte in the range, and on no other file |
| Executor.RangeNeedsTouched | python/urp/executor.py:286-302 | and raises if the file of one of these is missing |
| Executor.ExecuteStoresPayload | python/urp/executor.py:149-224 | an approved enforce or shadow execution succeeds if and only if every required verifier is implemented and no part is stored already in a codec this process lacks; its manifest covers the payload without gap, bytes_in = bytes_stored + bytes_avoided with the clamp unused, and nothing stored earlier changes |
| Executor.ClipAllIsVisible | python/urp/executor.py:286-300 | whatever the files hold, the clipped pieces join to exactly the part of the payload inside the range, or an exception |
| Executor.RestoreNeverLies | python/urp/executor.py:260-309 | with arbitrary chunk files, whole and range restores return the stored payload and its exact slice, or raise |
| Executor.RestoreReads | python/urp/executor.py:260-309 | with the files the store wrote, a whole restore and a range restore succeed if and only if the reader has the codecs of the segments they touch |
| Executor.StoredObjectReadsBack | python/urp/executor.py:149-309 | an object that was stored reads back whole and by every range after any later puts and crashes, for every reader that has those codecs and for no other |
| Executor.ObservationIsNotRestorable | python/urp/executor.py:147-148 | observe mode stores nothing, and restoring its manifest raises unless nothing is asked for |
| Checkpoints.CheckpointDeltaStore.PutBase | python/urp/checkpoints.py:21-28 | the bytes and then the manifest are written; a bad id raises and changes nothing |
| Checkpoints.CheckpointDeltaStore.PutDelta | python/urp/checkpoints.py:30-57 | the blocks that differ (`DeltaHoldsChanged`) are written one by one and recorded, or the exception of reading the base, a full stack included |
| Checkpoints.CheckpointDeltaStore.ReadCheckpoint | python/urp/checkpoints.py:59-79 | the recursive read equals its specification for every chain, loops included, and every stack size |
| Checkpoints.CheckpointDeltaStore.Apply | python/urp/checkpoints.py:67-79 | padding, overwriting each changed block and cutting to size, with the three checksum errors |
| Checkpoints.DeltaRebuilds | python/urp/checkpoints.py:34-79 | applying the recorded delta to the base rebuilds the target for longer, shorter and equal lengths |
| Checkpoints.BytesAvoidedIsUnchanged | python/urp/checkpoints.py:54 | `bytes_avoided` is the total size of the blocks that equal the base's at the same index, and the clamp never acts |
| Checkpoints.DeltaHoldsChanged | python/urp/checkpoints.py:34-56 | a delta records a block, and its put writes that block's file, if and only if the base has no block at the index or another one; every other block file stays as it was |
| Checkpoints.EqualDataTakesNothing | python/urp/checkpoints.py:37-54 | a delta of the same bytes holds no block and avoids all of them |
| Checkpoints.CrashedDiffIsPart | python/urp/checkpoints.py:37-56 | a delta put that crashed has written the first block files that the whole call writes, as many as it came to, and no manifest |
| Checkpoints.RebuildGives | python/urp/checkpoints.py:71-79 | a rebuild returns bytes of the recorded digest from intact blocks, or raises: a missing file only where one is missing, otherwise a checksum error |
| Checkpoints.ValidIdIs | python/urp/storage.py:18-30 | an id is 1 to 128 letters, digits, dots, underscores and dashes, the first a letter or a digit, so it names no other directory |
| Checkpoints.FileNamesApart | python/urp/checkpoints.py:23-41 | no two files of one checkpoint or of two are rendered to the same name, nor is one called like a manifest |
| Checkpoints.SoundReads | python/urp/checkpoints.py:59-79 | in a sound store a checkpoint reads back its bytes if and only if the stack has room for its chain, and overflows it otherwise |
| Checkpoints.StepSound | python/urp/checkpoints.py:21-57 | every put of a fresh id, complete or crashed between files, keeps the store sound and earlier contents unchanged, and a put that succeeds makes a chain that the same stack can read |
| Checkpoints.PutsReadBack | python/urp/checkpoints.py:21-79 | with fresh ids, over any run of puts and crashes, a put that succeeded reads back its bytes at the end, for every caller with at least the stack the puts had |
| Checkpoints.ReadMatchesManifest | python/urp/checkpoints.py:64-79 | with arbitrary files, a read that returns gives the bytes of the manifest's digest |
| Checkpoints.RunKeepsOwnFiles | python/urp/checkpoints.py:39 | over any run, ids reused or not, each delta refers only to block files named after itself |
| Checkpoints.OffChainUnchanged | python/urp/checkpoints.py:21-79 | after any run, no call under any id, fresh or not, changes a read whose chain does not hold that id |
| Checkpoints.DeltaReadsBackIff | python/urp/checkpoints.py:30-79 | after any run, ids reused or not, a delta put that succeeds reads back if and only if its id is neither its base nor an ancestor of it; otherwise no read ends |
| Checkpoints.LoopIsReachable | python/urp/checkpoints.py:30-57 | for any two ids and any bytes: a base, a delta on it, then the base's id as a delta on that delta; the put succeeds and no read of it ends |
| Checkpoints.ShortStackIsReachable | python/urp/checkpoints.py:59-67 | the delta just put reads back with room for two nested reads and overflows with room for one |
| Ledger.AppendKeepsChain | python/urp/ledger.py:26-29 | an event chained to the last hash keeps the list verified |
| Ledger.HeadDeterminesHistory | python/urp/contracts.py:320-339 | two verified lists with the same last hash are the same list |
| Ledger.SliceIsChained | python/urp/ledger.py:103-109 | any contiguous run of a verified list verifies from the hash before it |
| Ledger.ReadRendered | python/urp/ledger.py:45-51 | reading the lines that appends wrote gives the events back, but for an id or time that was missing |
| Ledger.VerifiesIffComplete | python/urp/contracts.py:303-318 | a file that appends wrote verifies if and only if every event had an id and a time |
| Ledger.UndatedEventBreaksChain | python/urp/contracts.py:316 | any single event with an empty time breaks the chain of its file |
| Ledger.TailOfSuffix | python/urp/ledger.py:59-67 | once the stripped buffer holds a line break, the last line does not depend on what precedes the buffer |
| Ledger.TailIsLastEvent | python/urp/ledger.py:53-69 | on every file appends can produce, the tail is the last event of the full read, or None exactly when there is none |
| Ledger.TailLineIs | python/urp/ledger.py:53-69 | whatever the file holds, the tail line is what stands between a line feed or the start and the breaks at its end, if that is not empty |
| Ledger.BlankLinesSkipped | python/urp/ledger.py:45-51 | a line of blanks, wherever it stands in a file, is as if it were not there |
| Ledger.VisibleJoins | python/urp/ledger.py:39-43 | what a bound tenant sees of two runs of events is what it sees of one and then of the other |
| Ledger.AdmittedIff | specs/urp_ledger_event.schema.json:13-22 | an event is let through if and only if it has a tenant and an id of `evt_` and plain characters, with one line feed after them or none |
| Ledger.JSONLLedger.LastEventUnlocked | python/urp/ledger.py:53-69 | for any file and any positive block size the backward block loop ends and finds the file's last line |
| Ledger.JSONLLedger.Append | python/urp/ledger.py:20-37 | appends exactly one event chained to the last and keeps the chain; a foreign tenant, or an id or tenant the schema refuses, raises and changes nothing |
| Ledger.JSONLLedger.ReadUnlocked | python/urp/ledger.py:45-51 | the line loop yields every non-blank line as an event, or the first exception, for any file |
| Ledger.JSONLLedger.Read | python/urp/ledger.py:39-43 | all events of any file, or those of the bound tenant, in order |
| Ledger.JSONLLedger.VerifyChain | python/urp/ledger.py:99-110 | for any file, whether its events chain, or the exception of reading it |
| Ledger.VerifyEvents | python/urp/ledger.py:99-110 | the loop answers true if and only if every event links to its predecessor and carries its own hash |
| EdgeSync.LocalLedgerSink.Accept | python/urp/edge_sync.py:86-105 | mirrors the longest verified run of the bound tenant's events in order and acknowledges it, or raises for the chain, the tenant or the schema having mirrored just that run |
| EdgeSync.MirrorDeterminesSource | python/urp/edge_sync.py:91-103 | a mirrored event determines the site and the event it came from, with all the history that event's hash covers |
| EdgeSync.PendingRaisesIff | python/urp/edge_sync.py:42-77 | the sender raises if and only if the limit is out of range, the file does not read or chain, the cursor is another site's, or no visible event has its id |
| EdgeSync.TakenRunIff | python/urp/ledger.py:20-29 | the sink's ledger takes the first n events if and only if each has a tenant, the bound one where there is one, and the next has not |
| EdgeSync.CrashedSyncSends | python/urp/edge_sync.py:57-69 | a crash can leave recorded any leading part of what a whole sync sends, and nothing else, with the cursor where it was |
| EdgeSync.DelayedLedgerSync.Pending | python/urp/edge_sync.py:42-55 | the first `limit` visible events after the last match of the cursor, or the error of the limit, an unreadable or unchained file, a foreign cursor or a missing one |
| EdgeSync.DelayedLedgerSync.Sync | python/urp/edge_sync.py:57-69 | the cursor moves to the batch's last event exactly when the sink took the whole batch, whatever the local file holds |
| EdgeSync.SettledIsStep | python/urp/edge_sync.py:57-69 | on a ledger that appends of complete events wrote, and with no tenant bound, such a call is the sync step of the runs below |
| EdgeSync.AcceptedIffContiguous | python/urp/edge_sync.py:87-104 | events picked from a verified ledger pass the sink if and only if they stand next to each other |
| EdgeSync.TenantBatchAcceptedIff | python/urp/ledger.py:39-43 | with a tenant bound, a batch passes if and only if no other tenant's event lies within its span |
| EdgeSync.TenantFilterBreaksChain | python/urp/edge_sync.py:46-55 | three events of two tenants for which a sync of the first and third can never be accepted |
| EdgeSync.BatchIsNextRun | python/urp/edge_sync.py:42-55 | after any run from an empty site, the pending batch is the contiguous ledger run right after the cursor and passes the sink |
| EdgeSync.SyncStepOk | python/urp/edge_sync.py:57-69 | a sync delivers exactly that run and moves the cursor to its end |
| EdgeSync.CrashStepOk | python/urp/edge_sync.py:62-68 | a crash after any part was recorded and before the cursor write keeps the invariant and the cursor |
| EdgeSync.AtLeastOnceInOrder | python/urp/edge_sync.py:42-105 | from an empty site, over every interleaving of appends, syncs and crashes, every event up to the cursor was delivered, and nothing but ledger events, each after its predecessor |
| EdgeSync.ExactlyOnceWithoutCrashes | python/urp/edge_sync.py:42-105 | from an empty site and without crashes the delivered sequence is exactly the ledger up to the cursor |
| EdgeSync.SyncProgress | python/urp/edge_sync.py:57-69 | after any run from an empty site, each sync lowers the backlog by min(limit, backlog) |
| Multipart.LocalS3Adapter.CreateMultipartUpload | python/urp/adapters.py:85-111 | a fresh upload is open and empty, others unchanged; a blank bucket or empty key raises |
| Multipart.LocalS3Adapter.UploadPart | python/urp/adapters.py:113-129 | the part file and its record are replaced while open; bad number, unknown id, foreign tenant and not-open raise and change nothing |
| Multipart.LocalS3Adapter.BeginComplete | python/urp/adapters.py:135-153 | verifies every part, fixes the body and locks the upload, or raises and leaves it |
| Multipart.LocalS3Adapter.ReadParts | python/urp/adapters.py:143-151 | the loop gathers verified bodies in ascending part number, or stops at the first bad one |
| Multipart.LocalS3Adapter.CompleteMultipartUpload | python/urp/adapters.py:131-173 | the whole complete, with the put returning, raising, or raising after it stored the object |
| Multipart.LocalS3Adapter.AbortMultipartUpload | python/urp/adapters.py:175-179 | an open upload is removed, a missing one is ignored, any other raises |
| Multipart.Ascending | python/urp/adapters.py:144 | the part numbers strictly ascending, each exactly once |
| Multipart.UploadTakesIff | python/urp/adapters.py:113-129 | a part is taken if and only if its number is in range and the upload is there, the tenant's and open; then its file and its record change and nothing else |
| Multipart.BeginTakesIff | python/urp/adapters.py:131-153 | completing begins if and only if the upload is the tenant's and open, has parts, and every part file is what was recorded |
| Multipart.AbortTakesIff | python/urp/adapters.py:175-179 | a missing upload aborts at once, any other if and only if it is the tenant's and open, and then it is gone |
| Multipart.CompleteIsThreeSteps | python/urp/adapters.py:131-173 | a complete that nothing interferes with is its three steps of the interleaved run, for every outcome of the put |
| Multipart.CrashedRemovalIsPart | python/urp/adapters.py:266-278 | a removal that crashed has left any of the files that a whole one removes, and written nothing |
| Multipart.BeginAssembles | python/urp/adapters.py:143-151 | what completing takes is the ascending concatenation of the last recorded body of each part |
| Multipart.StoredIsAssembled | python/urp/adapters.py:113-179 | from an upload's creation, over every interleaving of uploads, completes, aborts and crashes, every stored object is the concatenation of the parts recorded when its complete began, only the last can come from a put that returned and then holds the last recorded parts, and at most one complete succeeds |
| Multipart.ObjectsStored | python/urp/executor.py:224-225 | from its creation an upload stores one object per put that raised after storing, and one more if a put returned |
| Multipart.CompletingIsLocked | python/urp/adapters.py:123-139 | while completing, no upload, complete or abort succeeds or changes anything |
| Multipart.FailedPutRestores | python/urp/adapters.py:163-169 | a put that raises leaves the upload open with its parts unchanged, so completing again stores the same body again |
| Multipart.CompleteIsOnce | python/urp/adapters.py:266-278 | a successful complete stores one body and removes the upload, and completing again raises |
| Multipart.TornPart | python/urp/adapters.py:126-149 | after a crash between part file and record, completing succeeds if and only if the part was unrecorded or the bytes are the recorded ones, and then with the right body; otherwise it raises the verification error |
| Contracts.ValidatePlanActions | python/urp/action_registry.py:34-43 | raises if and only if some action is denied, unknown or does not support the contract |
| Policy.SelectContract | python/urp/policy.py:130-133 | the strictest contract the matching rules name, else the defaults' or the requested one; an unknown word raises |
| Policy.ExtendControls | python/urp/policy.py:134-150 | the accumulating loop collects exactly the grants, denials, verifiers and approval of all matching rules |
| Policy.EvaluateBundle | python/urp/policy.py:117-179 | no decision without match and defaults; otherwise a decision that is faithful to every rule, or an exception for a misspelt contract |
| Policy.EvaluatePolicy | python/urp/policy.py:65-114 | legal hold first, then the bundle, then the safe default |
| Policy.LastModelsWin | python/urp/policy.py:161-166 | the last matching rule's non-empty model list wins, then the defaults', then all models |
| Policy.Models | python/urp/policy.py:165-166 | the list is never empty, so its check cannot raise |
| Policy.FaithfulUnique | python/urp/policy.py:117-179 | faithfulness, stated without order, fixes contract, allowed, denied, verifiers and approval |
| Policy.RuleOrderIrrelevant | python/urp/policy.py:124-179 | bundles with the same rules in any order or repetition decide, fail and grant alike |
| Policy.PermutedRules | python/urp/policy.py:122-127 | every permutation of a bundle's rules is such a bundle |
| Policy.DenyOnlyShrinks | python/urp/policy.py:143-160 | on a bundle that decides, a deny-only rule keeps the contract and, if it matches, removes exactly its denied actions |
| Policy.FirstDenyOnlyAllows | python/urp/policy.py:128-169 | on a bundle that did not decide, a first matching deny-only rule allows exactly the kind's baseline without what it denies |
| Policy.FirstDenyOnlyShrinksIff | python/urp/policy.py:84-114 | and adds nothing to the safe default if and only if the work is not AI work, asks for the semantic contract, or has the whole baseline denied |
| PolicyRules.ForeignRuleIrrelevant | python/urp/policy.py:215-227 | a rule that states a kind, namespace or tenant other than the work's, or a tag it lacks or has with another value, can be taken out of the bundle without any effect on the outcome |
| PolicyRules.RuleInForce | python/urp/policy.py:138-150 | a rule whose every condition is a field of the work makes the bundle decide; its denials are denied, its grants allowed unless denied, its verifiers and its approval required |
| PolicyRules.StrictestWins | python/urp/policy.py:130-133 | no contract is taken when a rule in force names a stricter one, nor one that none names when some rule does |
| PolicyRules.FallbackContract | python/urp/policy.py:131 | where no rule in force names a contract, the word of the defaults counts, or else what was asked for |
| PolicyRules.DeniedIff | python/urp/policy.py:134-170 | an action is denied if and only if it is one of the five never allowed, or semantic reuse outside prompts and completions, or denied by a rule in force or by the defaults |
| PolicyRules.AllowedIff | python/urp/policy.py:138-169 | an action is allowed if and only if it is one of the kind's own or granted by a rule in force, and not denied |
| PolicyRules.NoBundleGrants | python/urp/policy.py:182-200 | whatever its rules grant, a bundle never allows cross-tenant sharing, summaries, lossy transcoding or deletion, nor semantic reuse outside prompts and completions |
| PolicyRules.SafeDefaultIs | python/urp/policy.py:88-114 | without a bundle, semantic reuse is allowed exactly for prompts and completions under the semantic contract whose caller opted in, and denied otherwise |
| Planner.FilterActions | python/urp/planner.py:210-223 | raises if and only if a mandatory action is denied, otherwise keeps the permitted ones in order |
| Planner.PlanWorkUnit | python/urp/planner.py:10-127 | the filter, the inserted fallback and the registry check, for each kind of work |
| Planner.PlanIsSound | python/urp/planner.py:66-108 | every planned action supports the decided contract and, but for the exact fallback, is undenied and allowed, shadow-allowed or mandatory |
| Planner.PlanHoldsIff | python/urp/planner.py:210-223 | a plan that is made holds an action if and only if the kind of work asks for it and it is undenied and mandatory, allowed, or in shadow mode allowed as a shadow |
| Planner.ShadowStaysShadow | python/urp/planner.py:220-222 | outside shadow mode no action is planned that the policy allows as a shadow alone |
| Planner.PlansAreStaged | python/urp/planner.py:22-105 | every plan goes through its stages in order: the caches before the provider, verification before the store |
| Planner.ObjectPlanShape | python/urp/planner.py:90-106 | object plans begin with the hash, hold manifest and restore check, and exactly one storage layout action |
| Planner.ObjectPlanFailsIff | python/urp/planner.py:103-106 | object planning raises exactly for derived and tombstone contracts or a denied safety action |
| Planner.PromptPlanFailsIff | python/urp/planner.py:54-67 | prompt planning raises exactly for storage-only contracts, a denied safety action, or semantic reuse permitted off the semantic contract |
| Planner.LegalHoldPrompts | python/urp/policy.py:67-75 | under a legal hold a prompt plan verifies and records, nothing else |
| Planner.LegalHoldObjects | python/urp/policy.py:67-75 | under a legal hold objects always get a plan of exact storage actions |
| Context.CompileContext | python/urp/context.py:45-64 | the loop over chunks equals the compile function, counters included |
| Context.CompileOpenAiMessages | python/urp/context.py:76-85 | collecting, compiling and filtering by position equals the specification |
| Context.KeptFits | python/urp/context.py:51-64 | kept chunks are a subsequence with distinct fingerprints whose token sum is `tokens_after`, within the budget |
| Context.RemovedForCause | python/urp/context.py:55-60 | a chunk is removed exactly when it repeats one kept earlier or exceeds the remaining budget |
| Context.CompiledIsOnePass | python/urp/context.py:67-85 | three passes joined by message positions equal one pass with a running budget |
| Context.CompileIsIdempotent | python/urp/context.py:76-85 | compiling the output again changes nothing |
| Context.OthersSurvive | python/urp/context.py:80-84 | messages that are not context all survive in order |
| Context.SamePrintIff | python/urp/context.py:15-19 | two chunks have the same print if and only if they have the same words in the same order and the same role |
| Context.ConversationSurvives | python/urp/context.py:76-85 | a message of another role than system, developer and tool is there as often as before |
| Context.RepeatedContextGoes | python/urp/context.py:45-85 | of two such messages with the same words the second goes where the first fits, and both go where neither does |
| Base64.EncodeDecodes | python/urp/encoding.py:14-28 | decoding the encoding of any bytes gives them back, with padding as in section 4 of RFC 4648 |
| Base64.GroupBits | python/urp/encoding.py:14 | the 24 bits of a group of letters are those of its three bytes, first byte first |
| Encoding.EnvelopeShapedIff | python/urp/encoding.py:26 | a dictionary is taken for an envelope if and only if it has the two keys, no other, and the first names base 64 |
| Encoding.OddEnvelopes | python/urp/encoding.py:26-30 | an envelope need not hold text: around None, True or a number whose digits are base 64 it decodes to bytes |
| Base64.DecodesLetters | python/urp/encoding.py:28 | what decodes consists of letters of the alphabet in groups of four, with at most two signs of padding at its end |
| Encoding.BytesRoundTrip | python/urp/encoding.py:13-28 | a bytes leaf survives the envelope |
| Encoding.RoundTripIffClean | python/urp/encoding.py:12-34 | a value survives encode and decode if and only if it has no tuple, no non-string key and no envelope-shaped dictionary |
| Recovery.ExportState | python/urp/disaster_recovery.py:44-73 | the archive holds exactly the included files, each once, under a signed table of their digests and sizes |
| Recovery.ExportedIff | python/urp/disaster_recovery.py:160-171 | an export holds a file, with its bytes, if and only if its path begins at an included name, at any depth, it is not the archive itself, and its name neither ends like a lock or a database side file nor starts like a backup |
| Recovery.ExtractVerified | python/urp/disaster_recovery.py:97-128 | the entry loop with each of its exceptions, for names with empty parts and dots as they come, a file in the way of a directory included |
| Recovery.ExtractedIff | python/urp/disaster_recovery.py:116-127 | extraction goes through if and only if every entry is good and the paths the names fold to form a directory tree, and then unpacks them all |
| Recovery.AcceptedIff | python/urp/disaster_recovery.py:97-128 | an archive is accepted if and only if it is within the limits, lists no name twice, carries a valid table of exactly its files, signed where a key is set, and every file is regular, safely named, as described, and in nobody's way |
| Recovery.NameOkIff | python/urp/disaster_recovery.py:208-211 | a name is let through if and only if it does not start at the root, never goes up, and has some other part than dots |
| Recovery.AcceptedIsTable | python/urp/disaster_recovery.py:112-127 | an accepted archive unpacks to the paths its table's names fold to; every name finds the content its table describes if and only if names that fold to one path agree on it, and there are as many files as names if and only if no two fold to one path |
| Recovery.TwoNamesOneFile | python/urp/disaster_recovery.py:208-211 | an unsigned archive that lists `a` and `./a` is accepted and unpacks one file, the later one |
| Recovery.AcceptedIsWalked | python/urp/disaster_recovery.py:112-127 | an accepted archive whose table is that of files from a directory walk unpacks to just these files |
| Recovery.ExportImports | python/urp/disaster_recovery.py:44-128 | an export of a directory is accepted exactly when it is within the extraction limits, and then unpacks to the included files |
| Recovery.ExportedStateComesBack | python/urp/disaster_recovery.py:44-157 | merged into an empty directory or replacing any state, an accepted export leaves exactly the included files |
| Recovery.SignatureFixesContent | python/urp/disaster_recovery.py:191-198 | with a signing key, an archive carrying a real export's signature unpacks to that export |
| Recovery.ReplaceOutcome | python/urp/disaster_recovery.py:131-145 | success leaves exactly the archive; an exception leaves the old state if and only if there was none or the step was neither clean-up nor rollback |
| Recovery.RetryLosesIff | python/urp/disaster_recovery.py:131-145 | for every crash point of a replace and every fault of a second one by the same process id, the old files and both archives are gone if and only if the crash fell between the renames and the second raised at moving its files in |
| Recovery.SecondCrashLosesIff | python/urp/disaster_recovery.py:131-145 | the same for every crash point of the second: just after it removed what the first had set aside |
| Recovery.EmptyIffDestroyed | python/urp/disaster_recovery.py:131-145 | over any run of replaces by one process id, with any faults and crashes, every copy is gone at some moment if and only if some replace started with only the set-aside files and stopped right after removing them |
| Recovery.MergeKeepsExisting | python/urp/disaster_recovery.py:148-157 | however a merge ends, no existing file is changed or removed and only archive files are added |
| Recovery.MergeSucceedsIff | python/urp/disaster_recovery.py:150-157 | without write errors a merge succeeds if and only if no existing file differs or stands in the way of a directory, and then every archive file is there |
| Recovery.ObstructedIff | python/urp/disaster_recovery.py:150-157 | what stands in the way of a file is another content there, or a file above or below it |
| Recovery.FailedWriteRaises | python/urp/disaster_recovery.py:157 | a write that fails makes the merge raise, at whichever file it comes |
| Recovery.MergeIsUnion | python/urp/disaster_recovery.py:148-157 | success gives the union of both, in whatever order the files are visited |
| Recovery.StateDirectory.ReplaceState | python/urp/disaster_recovery.py:131-145 | the renames, the rollback and the clean-up, for each step that may raise, with the disk after every one of them |
| Recovery.StateDirectory.MergeState | python/urp/disaster_recovery.py:148-157 | the copying loop with its conflict and write errors |
| Recovery.StateDirectory.ImportState | python/urp/disaster_recovery.py:76-94 | nothing is touched unless the whole archive verified; then exactly a replace or a merge |
| Cache.URPCache.PutEntry | python/urp/cache.py:50-68 | unverified, unscoped and expired entries raise and change nothing; otherwise the key holds the entry |
| Cache.URPCache.GetValue | python/urp/cache.py:96-110 | a value only for the same tenant, namespace and sources, verified and alive; an expired entry in scope is dropped |
| Cache.URPCache.PurgeExpired | python/urp/cache.py:120-130 | exactly the expired entries go, and their number is returned |
| Cache.GetAnswersIff | python/urp/cache.py:96-110 | a get answers, with the stored value, if and only if the entry is the tenant's and the namespace's, of the same sources where any are named, verified, and alive |
| Cache.ExpiryUnobservable | python/urp/cache.py:96-130 | with a clock that does not go back, eviction and purging never change any answer of any run, against a store that drops nothing |
| Cache.BackwardClockObservable | python/urp/cache.py:107-109 | any readings that go back somewhere have a store and calls whose answers differ |
| Cache.UnobservableIffNeverBack | python/urp/cache.py:96-130 | at given clock readings eviction is unobservable for all stores and calls if and only if the readings never go back |
| Similarity.JaccardRange | python/urp/semantic_cache.py:274-279 | the Jaccard index is symmetric, in [0, 1], and 1 exactly on equal sets |
| Similarity.ScoreRange | python/urp/semantic_cache.py:262-286 | similarity is symmetric, in [0, 1], and 1 exactly on equal word and trigram sets, so on equal texts |
| Similarity.TrigramsAre | python/urp/semantic_cache.py:282-286 | the trigrams of a text are every run of three characters in its words joined by single blanks, or the whole of that when it is no longer |
| Text.SplitJoin | python/urp/semantic_cache.py:283 | splitting what was joined gives the words back |
| Similarity.TiesExist | python/urp/semantic_cache.py:262-286 | a question of two words is equally similar to either word |
| SemanticCache.SemanticCache.PutEntry | python/urp/semantic_cache.py:60-79 | an accepted live entry takes its key's place or goes last; others raise |
| SemanticCache.SemanticCache.LookupHit | python/urp/semantic_cache.py:167-200 | the search loop, which drops expired entries as it goes, ends with the best entry of the listed order and drops it if the output check rejects it |
| SemanticCache.BestIsOptimal | python/urp/semantic_cache.py:184-195 | the hit is in scope, alive, of the same sources, accepted and at the threshold, with no eligible entry scoring higher; none exactly when none is eligible |
| SemanticCache.BestIgnoresOrder | python/urp/semantic_cache.py:192-193 | without ties the hit depends only on which entries are alive |
| SemanticCache.TieGoesToFirst | python/urp/semantic_cache.py:192-193 | among equals the one stored earlier wins |
| SemanticCache.LookupLeaves | python/urp/semantic_cache.py:167-207 | a lookup drops the expired entries of its tenant, namespace and task, and the best one if it is refused; nothing else |
| SemanticExpiry.ExpiryUnobservable | python/urp/semantic_cache.py:167-207 | with a forward clock, dropping expired entries never changes any later lookup, ties or not, until an expired key is stored again; after that it does not as long as no lookup ties |
| SemanticExpiry.ExpiryObservableOnTie | python/urp/semantic_cache.py:184-193 | for any two tied texts, one run of five calls whose last lookup differs from the ideal store's |
| SemanticExpiry.UnobservableIffNoTies | python/urp/semantic_cache.py:113-207 | for a set of questions with thresholds and the texts that may be stored, dropping is unobservable over all forward runs if and only if no two of the texts tie for a question whose threshold is valid |
| Gateway.ChatGateway.HandleChatCompletion | python/urp/ai_gateway.py:159-477 | the state machine of refusal, exact hit, semantic hit and miss, with both caches, the questions asked and the answer stored; the lemmas of `GatewayRules` say when each happens |
| Gateway.ChatGateway.AskProvider | python/urp/ai_gateway.py:321-370 | the miss branch: one question, one fallback, verification, then both stores |
| Gateway.ChatGateway.ReadExact | python/urp/cache.py:96-110 | the row is loaded before anything about it is checked; a live answer that no longer passes the shape check is deleted |
| Gateway.ChatGateway.ReadSemantic | python/urp/semantic_cache.py:177-200 | an invalid threshold or an unloadable row of the scope raises; otherwise the best usable answer |
| Gateway.ReplyIsVerified | python/urp/ai_gateway.py:226-387 | every returned response passes the shape check; the provider is asked at most twice, never on a hit, and the reply is its first answer, or its second exactly when the first was rejected |
| Gateway.OnlyEnforceTouchesCaches | python/urp/ai_gateway.py:225-350 | observe and shadow calls leave both caches unchanged and never answer from them |
| Gateway.HandleKeepsDistinct | python/urp/semantic_cache.py:60-79 | the semantic cache holds no key twice after any call |
| Gateway.HandleKeepsBacked | python/urp/ai_gateway.py:226-350 | every exact entry after a call is one that an enforce call stored of a provider answer it had verified |
| Gateway.RunKeepsBacked | python/urp/ai_gateway.py:226-350 | so over every run of calls |
| Gateway.LogIsFromCalls | python/urp/ai_gateway.py:347-350 | every store of a run was made by one of its calls |
| Gateway.ExactHitReplays | python/urp/ai_gateway.py:226-247 | from empty caches, an exact hit replays, through the JSON envelope, the answer of an earlier enforce call with the same tenant, namespace, request and sources, verified there, stored less than that call's TTL ago; it is that very answer if and only if the answer is clean |
| Gateway.RepeatIsHit | python/urp/ai_gateway.py:226-247 | once a call stored an answer that loads and passes the checks, every enforce call with its key whose plan looks the cache up gets it back, unasked, until its TTL ends |
| Gateway.SemanticHitIsEligible | python/urp/ai_gateway.py:260-275 | a semantic hit needs enforce mode, opt-in and the semantic contract, and answers an eligible entry that no other outscores |
| Gateway.RunKeepsSemantic | python/urp/ai_gateway.py:347-360 | over every run, every semantic entry is one that some call stored of a verified provider answer |
| Gateway.SemanticHitReplays | python/urp/ai_gateway.py:260-300 | from empty caches, a semantic hit replays, through the JSON envelope, a verified provider answer of an earlier enforce call in the same tenant, namespace and sources, whose question scores at least the call's threshold or else 0.82, stored less than that call's TTL ago; it is that very answer if and only if the answer is clean |
| Gateway.UnloadableIsAccepted | python/urp/encoding.py:26-30 | there is an answer that passes the shape check and that the caches cannot load |
| Gateway.UnloadableAnswerSticks | python/urp/cache.py:132-154 | once a call stored such an answer, every later call with its key that may use the exact cache raises and leaves it there |
| Gateway.SemanticLookupRaisesIff | python/urp/semantic_cache.py:209-227 | a semantic lookup raises, and changes nothing, if and only if its threshold is invalid or some row of its scope does not load |
| GatewayRules.HitsNeed | python/urp/ai_gateway.py:227-275 | a hit needs enforce mode, a positive lifetime and the planned lookup; a semantic one also the caller's opt-in and the semantic contract |
| GatewayRules.SemanticHitIsNearest | python/urp/ai_gateway.py:267-275 | a semantic hit answers a live entry of the same tenant, namespace, task and sources that scores at least the call's threshold, or else 0.82, and no such entry scores higher |
| GatewayRules.AsksIffAllDistant | python/urp/ai_gateway.py:267-317 | a call that comes to the semantic lookup asks the provider when every such entry scores below that number, and never when some entry reaches it and all are usable |
| GatewayRules.FirstAskedIs | python/urp/ai_gateway.py:223-317 | the first question has compiled messages and the routed model only where enforced and planned, otherwise the caller's messages and model, or the frontier model, or the last one allowed |
| GatewayRules.SecondAskedIs | python/urp/ai_gateway.py:337 | the second has the caller's own messages, for the frontier model or the last one allowed |
| GatewayRules.AnswerAcceptedIff | python/urp/ai_gateway.py:882-887 | an answer with a content passes the shape check if and only if the content's text is not blank |
| GatewayRules.BlankAnswersFallBack | python/urp/ai_gateway.py:319-369 | a blank first answer is never returned: the provider is asked once more, and a blank second answer raises |
| GatewayRules.VerifiersHold | python/urp/ai_gateway.py:890-917 | every verifier required of a returned response is implemented, and where citations are required and sources named, it cites |
| GatewayRules.UncachedReturnsIff | python/urp/ai_gateway.py:316-387 | outside enforce mode the reply is the provider's first answer if that is accepted, else its second if that is, and raises otherwise or where a required verifier does not hold |
| GatewayRules.MeetsRequiredIff | python/urp/ai_gateway.py:890-917 | the required verifiers let a response through if and only if all are implemented, in whatever version, it is not blank where that is required, and cites where that is required and sources are named |
| GatewayRules.AnswerIsStored | python/urp/ai_gateway.py:342-343 | a returned provider answer is what the exact cache took where the store is planned, in enforce mode with a positive lifetime |
| GatewayRules.AnswerIsStoredSemantically | python/urp/ai_gateway.py:344-353 | and, where semantic reuse is planned, in the semantic cache under its question, for its lifetime |
| GatewayRules.SharedExactIff | python/urp/ai_gateway.py:226 | two calls share an exact entry if and only if tenant, namespace, request and sources are the same |

## Left out

- Checkpoints.PutsReadBack: assumes ids not put before, which the code does not enforce; `DeltaReadsBackIff` says what a delta put of a used id does, and `OffChainUnchanged` says what no put of a used id touches, and any other read can only return digest-matching bytes or raise (`ReadMatchesManifest`).
- EdgeSync.AtLeastOnceInOrder: assumes distinct event ids, non-empty times and no tenant bound to the process; `TenantBatchAcceptedIff` says when a bound tenant stops it.
- SHA-256, HMAC, zstd and zlib themselves: hashes and MACs are perfect terms, compression an arbitrary lossless pair.
- OS locks, fsync, lock-file races and torn single writes: a locked body and an atomic write are one step.
- Logs, traces, metrics, JSON-schema checks other than the event's, and the ledger rows that the executor and the gateway write beside their result: no property here rests on them.
- SQL statements, the Postgres backend, the HTTP sink, embeddings, text completions and live providers: stores are maps, a provider is its two possible answers. The gateway's caches are its default SQLite ones, whose rows hold the JSON envelope of an answer; that the JSON text itself keeps that envelope, up to the order of keys, is not proved.
- The gateway's request normalisation, source fingerprints, routing text, policy, plan and chosen route enter a call as its inputs; the citation marker test is a predicate on responses.
- Floating point: scores, clocks and lifetimes are reals, NaN lifetimes are not modelled, payload entropy is one comparison, plan scores and plan ids are absent.
- `casefold` and non-ASCII white space: texts are taken as already normalised, white space is the ASCII set and the four separators.
- The interpreter's stack is a number of nested reads it has room for; frames of helper calls below the deepest read are part of neither side.
- Chunk stores are given chunks labelled with their own digest, as both chunkers label them (`LocatedContiguous` shows they do).
- Identifiers drawn by `new_id`: manifest, upload and event ids are fresh and non-empty, an upload id is well formed; checkpoint ids are fresh where a lemma says so.
- The line encoding of ledger events is any one without line breaks that gives back complete events, and puts something else for a missing id or time; that `json.dumps`, `json.loads` and `from_dict` are such a pair is not proved, and neither is the schema's date format, which an optional package checks.
- Base64 decoding is strict about padding and alphabet; how Python treats text its encoder cannot produce is not modelled.
- Failures inside one rename, removal or directory walk: each is a single step that happens or raises. Empty directories, which can also stand in a file's way, are not represented.
- ZIP central-directory details, file modes, SQLite checkpointing before export: an archive is its list of entries and its manifest.
- Policy match conditions and contract words outside the schema's own keys; bundle schema validation; approvals, which are one flag.
- The Rust `fixed_chunks`, the POSIX and mock adapters, object listing and deletion, lakehouse, training and log reducers: each is a single branch or a thin wrapper over code that is modelled.
