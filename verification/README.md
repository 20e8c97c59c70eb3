# Verification of the Aether-Vault staging core

Aether-Vault stores versioned artifacts as content-addressed objects. This project models, in Dafny, the parts
of it whose correctness is hardest to see by reading, and proves what its documentation and tests promise of
them. Everything is stated for all inputs, all runs or all interleavings.

- **SHA-256** (`Sha256Fips`, `Sha256Scalar`, `Sha256ShaNi`, `Sha256Stream`, `Sha256Backend`). `Sha256Fips` is
  FIPS 180-4 itself, its constants derived from the roots of the first primes. The portable kernel and the SHA-NI
  kernel are both proved equal to the standard's compression function, the second from definitions of the
  processor's instructions; the streaming hasher is proved equal to the standard's padding and chaining for every
  way of splitting the input.
- **Content-defined chunking** (`Cdc`, `CdcStaging`). `Cdc` is the meaning of a cut, with the bounds, restart,
  stability and locality theorems. `CdcStaging` is the code: the cutter, the two-pass chunker and the fused
  single-pass stager, which refine it.
- **Safetensors staging** (`Safetensors`). The layer-by-layer splitter and the fused sequential stager.
- **The object directory** (`ObjectStore`, `Publish`). First one writer at a time, then any number of them,
  interleaved step by step and killed anywhere.
- **Concurrency** (`ThreadPool`, `Window`, `Collectors`). The pool with its mutex, condition variable and
  destructor as a transition system; above it the bounded window, the cancel flag, and their three users.
- **Client and repair** (`Client`, `Export`, `Restore`, `Doctor`, `AuditChain`). Verified downloads and paged
  listings, resumable backup and restore, pointer repair with its dry run, and the audit chain.

`Options` holds the option datatype.

Methods follow the source's loops and updates and are proved against functions; lemmas then prove the promised
properties of those functions. A concurrent protocol is a step function with an invariant, and the theorems are
about every sequence of enabled steps. An "error return" stands for the source's exception.

## Where the code and its documentation differ

- The cap on chunk sizes (`src/README.md:62-64`) holds for every file exactly if `2 * min <= max + 1`, which
  the code does not check (`Cdc.CapIffParams`). The floor holds for every file of at least `min` bytes.
- The cutter's constructor does not end for averages from 2^63 on (`Cdc.MaskLoopEndsIff`).
- `SHA256::set_backend` is documented to leave the backend unchanged when it returns false
  (`src/sha256.h:31-33`); it stores the automatic choice instead (`Sha256Backend.RefusedNameLeavesBackendIff`).
- `list_refs` is documented to cope with servers that ignore paging (`python/av_cli/client.py:224-228`); against
  such a server with 5000 refs or more it never returns (`Client.OldServerWalkEndsIff`). A failure on a later page
  yields a partial mapping without a sign (`Client.FailureTruncates`).
- `av registry restore` counts no failure for items that its state file claims, so its verdict is right exactly if
  the registry, when the run begins, has what that file claims (`Restore.NoFailuresMeansAllAcceptedIff`,
  `Restore.StaleStateFile`).
- An export is announced to hold commits, refs, runs and objects (`python/av_cli/cmd_registry.py:107-109`); of more
  than a thousand runs it holds the newest thousand, without a sign (`Export.RunsAllThereIff`).
- `publish_object_bytes` promises atomic publication (`src/core.cpp:516-519`) but does not see bytes lost when its
  stream is closed. The directory stays intact exactly if none are (`Publish.IntactIffComplete`,
  `Publish.LostAtClose`).
- The fused safetensors stager refuses "overlapping" layers; it also refuses an empty layer that the sort places after
  one starting at the same byte, and the sort may place it either way (`Safetensors.OverlapMeans`,
  `Safetensors.TieDecides`).
- An export does not verify what it finds already in the output directory, so the archive is intact afterwards
  exactly if it was before (`Export.IntactIffItWas`).
- Deleting audit rows is documented to break verification from there on
  (`docs/enterprise-operator-guide.md:126-127`); rows cut off the end are not missed
  (`AuditChain.DeletionUnnoticedIffAtEnd`). Nor is a missing time stamp replaced by the text "None"
  (`AuditChain.MissingTimestampUnnoticed`).

## Model

| member | source | states |
|---|---|---|
| Sha256Fips.ConstantsAreCubeRoots | src/sha256_backend.cpp:66-75 | the 64 round constants are the first 32 fractional bits of the cube roots of the first 64 primes |
| Sha256Fips.InitialAreSquareRoots | src/sha256.cpp:32-39 | the eight initial words are the first 32 fractional bits of the square roots of the first eight primes |
| Sha256Scalar.RoundMacros | src/sha256_backend.cpp:58-62 | the shift-and-or macros of the rounds are the rotations and choices of the standard |
| Sha256Fips.ChChooses | src/sha256_backend.cpp:59-59 | CH takes each bit from its second word where the first has a one, and from its third elsewhere |
| Sha256Fips.MajIsMajority | src/sha256_backend.cpp:60-60 | MAJ has exactly the bits that two of its words have |
| Sha256Scalar.ScheduleMacros | src/sha256_backend.cpp:63-64 | so are those of the message schedule |
| Sha256Scalar.Blocks | src/sha256_backend.cpp:79-99 | the portable kernel leaves in `state` exactly the words that section 6.2.2 of FIPS 180-4 prescribes for the block |
| Sha256Scalar.Schedule | src/sha256_backend.cpp:82-85 | its table holds the 64 schedule words of the block |
| Sha256Scalar.RunRounds | src/sha256_backend.cpp:87-95 | its loop performs the 64 rounds of the standard in order |
| Sha256ShaNi.Rnds2IsTwoRounds | src/sha256_shani.cpp:127-131 | one SHA256RNDS2 on the packed state is two rounds of the standard, with the two results in the two registers |
| Sha256ShaNi.ExtendIsSchedule | src/sha256_shani.cpp:132-135 | MSG1, alignment, addition and MSG2 together produce the next four schedule words |
| Sha256ShaNi.FourRounds | src/sha256_shani.cpp:127-131 | one AV_SHA_RND takes the packed state four rounds further |
| Sha256ShaNi.FirstGroups | src/sha256_shani.cpp:137-148 | after groups 0 to 3 the state has 16 rounds and the message registers hold what the next group expects |
| Sha256ShaNi.MiddleGroups | src/sha256_shani.cpp:149-164 | four groups with register rotation advance any intermediate state by 16 rounds and keep the message registers' meaning |
| Sha256ShaNi.LastGroups | src/sha256_shani.cpp:181-195 | the last four groups, which extend less and less, complete round 64 |
| Sha256ShaNi.LoadMessage | src/sha256_shani.cpp:87-112 | the byte shuffle turns the loaded block into the first sixteen schedule words |
| Sha256ShaNi.Pack | src/sha256_shani.cpp:89-94 | the prologue packs a..h into the two registers in the order the instructions expect |
| Sha256ShaNi.Unpack | src/sha256_shani.cpp:203-206 | the epilogue undoes the packing |
| Sha256ShaNi.Blocks | src/sha256_shani.cpp:78-210 | the SHA-NI kernel leaves exactly the state the portable kernel leaves, for every state and block |
| Sha256Stream.Hasher.Update | src/sha256.cpp:71-104 | appends the bytes to the message whatever is pending and however long they are; whole blocks have been chained, the rest is buffered |
| Sha256Stream.Hasher.TopUp | src/sha256.cpp:81-93 | the first phase completes a pending block or consumes all the input |
| Sha256Stream.Hasher.Pad | src/sha256.cpp:111-120 | the block(s) end with a one bit and just as many zeros as section 5.1.1 of FIPS 180-4 asks for |
| Sha256Stream.Hasher.Digest | src/sha256.cpp:110-136 | the digest is the standard's hash of everything fed, as eight big-endian words |
| Sha256Fips.DigestBytesAreWords | src/sha256.cpp:125-134 | every four bytes of a digest, read most significant first, are one word of the final state |
| Sha256Stream.ToString | src/sha256.cpp:138-148 | the text form is lower-case hexadecimal: each pair of digits has the value of its byte |
| Sha256Fips.HexMeans | src/sha256.cpp:138-148 | the text of a digest is its bytes in base sixteen, in order, in lower case |
| Sha256Stream.HashBytesSplit | src/core.cpp:247-260 | every sequence of split sizes gives the digest of the whole message |
| Sha256Fips.HexInjective | src/sha256.cpp:138-148 | different digests have different names |
| Sha256Backend.PadSingleBlock | src/sha256_backend.cpp:107-115 | for at most 55 bytes the helper's block is the message followed by the standard's padding |
| Sha256Backend.OneBlockIsWholeHash | src/sha256_backend.cpp:129-142 | so the self-test's single kernel call computes the whole hash of its messages |
| Sha256Backend.Pick | src/sha256_backend.cpp:162-191 | an accelerated kernel is picked only if the processor has it and it passed its self-test; a usable forced name wins; otherwise the fastest usable one |
| Sha256Backend.Selection.EnsureReady | src/sha256.cpp:18-26 | the backend is picked from the environment once; later calls change nothing |
| Sha256Backend.Selection.SetBackend | src/sha256.cpp:55-69 | reports whether the asked name was resolved, and in every case installs what was resolved |
| Sha256Backend.RefusedNameLeavesBackendIff | src/sha256.cpp:57-68 | a refused name leaves the backend alone if and only if the current one is the automatic choice |
| Sha256Backend.RefusedNameMayChangeBackend | src/sha256.cpp:57-68 | a pinned scalar backend is replaced by a misspelt request on a processor with SHA extensions |
| CdcStaging.Cutter.constructor | src/core.cpp:487-493 | the mask is one less than the largest power of two not above the average |
| CdcStaging.Cutter.Feed | src/core.cpp:497-513 | one byte advances the rolling hash of the current chunk, and the answer is the cut predicate at the new position |
| Cdc.MaskLoopEndsIff | src/core.cpp:489-490 | in 64-bit arithmetic the constructor's loop ends if and only if the average is below 2^63 |
| Cdc.ChunksTile | src/core.cpp:557-598 | the chunks, in order and without gaps, are the file |
| Cdc.ChunksAreSlices | src/core.cpp:594-631 | every chunk is the stretch of the file that its offset and size name |
| Cdc.ChunkBounds | src/core.cpp:497-513 | a chunk that is not last is within both bounds and leaves at least a minimum behind; the exact case in which the last one exceeds the cap |
| Cdc.CapIffParams | src/core.cpp:497-513 | every chunk of every file is at most the maximum if and only if 2 min <= max + 1 |
| Cdc.FloorIffLongEnough | src/core.cpp:497-513 | the minimum is a floor on every chunk, the last included, exactly for files of at least that size |
| Cdc.ForcedCutOnlyWhenNeeded | src/core.cpp:504-506 | without a content boundary a cut falls only at the cap, or at the last position when leaving the rest whole would exceed the cap |
| Cdc.Restart | src/core.cpp:507-510 | from any cut on the chunks are those of the rest as a file of its own, shifted |
| Cdc.Resynchronise | src/core.cpp:507-510 | two files with a common suffix that begins at a cut in both have the same chunks from there on |
| Cdc.AppendStable | src/core.cpp:495-513 | two files agreeing on their first k bytes have the same cuts up to k, short of a minimum before either end |
| Cdc.HashIsLocal | src/core.cpp:499-503 | under 64-bit wraparound and a k-bit mask the rolling hash depends only on the last k bytes of the chunk |
| Cdc.GearHashIsSum | src/core.cpp:499-499 | the rolling hash of a chunk is the sum of its bytes' gear values, each doubled once for every later byte, modulo 2^64 |
| CdcStaging.FindOffsets | src/core.cpp:571-587 | pass 1 finds the starts of the chunks, however the reads split the file |
| CdcStaging.HashAll | src/core.cpp:594-631 | pass 2 gives hash, size and offset of every chunk |
| CdcStaging.ChunkAndHash | src/core.cpp:557-641 | the two-pass chunker rejects exactly the bad size triples and otherwise returns the chunks' results |
| CdcStaging.Staging.Flush | src/core.cpp:724-738 | a flushed chunk is in the store and in the parts, counted as written exactly if it was new, and a failure leaves the store as it was |
| CdcStaging.StageBuffer | src/core.cpp:742-765 | each byte of a read buffer reaches both hashes and the chunk buffer exactly once, across cuts and run boundaries |
| CdcStaging.StageCdc | src/core.cpp:699-775 | in a reliable directory the fused stager fails only on bad sizes; for every read size its parts, whole hash, written bytes and store are those of the chunks; an input-output failure leaves a prefix of them stored; no temporary file is left |
| CdcStaging.ChunkBothWays | src/README.md:85-92 | both chunkers on one file, with any buffer sizes: they reject the same sizes, and the fused parts, without names and flags, are the two-pass results in order |
| CdcStaging.StagedFileReadsBack | src/core.cpp:724-738 | without hash collisions, fetching the parts in order and concatenating them gives the file |
| CdcStaging.ChunksWithinCap | src/README.md:62-64 | with the documented parameter condition every staged part is within the cap |
| CdcStaging.StagedSizes | src/core.cpp:727-735 | under the documented parameter condition every part is within the cap, and at least the minimum for files of at least the minimum |
| CdcStaging.PartsCoverFile | src/core.cpp:727-735 | the part sizes add up to the file size |
| Safetensors.ReadLayers | src/core.cpp:301-358 | the header checks give the sorted layer table or the source's error: too small, header longer than the file, unparsable, reversed or out-of-range offsets, truncated |
| Safetensors.LengthInverts | src/core.cpp:310-312 | the number read from a length prefix is n if and only if the bytes are n's digits in base 256, least significant first |
| Safetensors.PrefixedFileIsRead | src/core.cpp:310-358 | a file of a length prefix, that many header bytes and any rest yields the header pseudo-layer and one layer per tensor at its offset, or the error of a bad entry |
| Safetensors.HeaderComesFirst | src/core.cpp:940-947 | after sorting, the header pseudo-layer is first, every other layer starts after it, and all lie within the file |
| Safetensors.HashLayer | src/core.cpp:365-404 | a layer task returns the layer's digest, size and offset, or fails exactly if the file is too short |
| Safetensors.SplitAndHash | src/core.cpp:299-419 | the splitter returns every layer's result in table order, or the error of a layer that is cut off |
| Safetensors.Walk.ConsumeGap | src/core.cpp:972-982 | bytes between layers reach the whole hash and no layer |
| Safetensors.Walk.ReadLayer | src/core.cpp:989-1033 | a layer's bytes reach both hashes and either memory or the temporary file, which is removed on a truncated read or a failed write |
| Safetensors.Walk.ConsumeLayer | src/core.cpp:989-1075 | one layer is read, published or found present, and recorded, on either side of the buffer cap |
| Safetensors.Walk.Header | src/core.cpp:948-963 | the header's bytes are hashed and published from memory, not read again |
| Safetensors.Stage | src/core.cpp:854-1089 | for every gap layout, buffer cap and read size: parts, whole hash of the file, written bytes and store are functions of the table alone; overlaps are refused; in a reliable directory every other table over a file that is not truncated is staged; failures leave a prefix of the layers and no temporary file |
| Safetensors.StagersAgree | src/README.md:93-112 | the fused parts agree with the splitter in name, hash, size, offset and order |
| Safetensors.StageBothWays | src/README.md:93-112 | both stagers on one file, with any buffer sizes and cap: where the fused one returns, the splitter returns its layers; it refuses more only for an overlap, a truncated file or a failing file system |
| Safetensors.NeighbourCheckSuffices | src/core.cpp:925-930 | comparing neighbours in the sorted table fails if and only if some layer starts inside an earlier one |
| Safetensors.OverlapMeans | src/core.cpp:925-930 | the check refuses a table if and only if two layers share a byte or an empty layer is placed after one that it starts inside |
| Safetensors.VerdictIsStable | src/core.cpp:919-930 | however the sort breaks ties the verdict is the same, unless an empty layer starts where one with bytes does |
| Safetensors.TieDecides | src/core.cpp:919-930 | two layers that share no byte are accepted in one order and refused in the other |
| ObjectStore.Directory.Publish | src/core.cpp:520-552 | true exactly if the name was absent; the store then holds the content; an error happens only in an unreliable directory and leaves the store alone; no temporary file stays |
| ObjectStore.Directory.Rename | src/core.cpp:1047-1061 | a failed rename is a duplicate exactly if the object is there by then, an error otherwise |
| ObjectStore.PutAllKeeps | src/core.cpp:517-519 | publishing keeps every object and its bytes, adds every content, and keeps the store intact |
| ObjectStore.PutAllAddsOnly | src/core.cpp:517-519 | every new name is the hash of a published content |
| ObjectStore.PutAllAgain | src/core.cpp:517-519 | staging contents a second time changes nothing and writes nothing |
| ObjectStore.GrowthIsBytesWritten | src/core.cpp:733-733 | the bytes counted as written are exactly the growth of the store, repeats inside one file counted once |
| ObjectStore.ReadBack | src/core.cpp:724-738 | without collisions every published content is read back from its name |
| Publish.RunInv | src/core.cpp:520-552 | every interleaving of publishers, streamed layers and downloads, killed anywhere and losing bytes at any close, keeps the writer invariant and every published name |
| Publish.PublishedStays | src/core.cpp:520-552 | no published name disappears; whoever returned true or false finds its object; writers that ended by themselves leave no temporary file |
| Publish.IntactIffComplete | src/core.cpp:529-551 | a run keeps the directory intact at every moment if and only if no rename publishes a file that a close has left short |
| Publish.FlushedRunStaysIntact | src/core.cpp:520-552 | a run in which no C++ publisher loses bytes at a close keeps every name mapped to bytes that hash to it, at every moment, whatever else is killed or fails |
| Publish.LostAtClose | src/core.cpp:529-551 | a run in which the close loses the end of an object, publish_object_bytes returns true, and the name stands for a part of the bytes |
| Publish.NewNamesArePublished | src/core.cpp:538-551 | every name that appears was published by a writer that returned true |
| Publish.FailsOnlyByMishap | src/core.cpp:538-551 | whatever the others do, a writer fails only through a failed operation of its own or a download with the wrong hash; losing a race is no failure |
| Publish.ExistingIsNotRewritten | src/core.cpp:517-525 | a publisher that starts when its object is there never reports a write, and one from memory creates no temporary file |
| Publish.ContentNeverChanges | src/core.cpp:538-551 | without collisions and lost bytes a published object never changes, although rename overwrites |
| Publish.BothMayReturnTrue | src/core.cpp:525-551 | a run in which two racing publishers of one object both return true |
| ThreadPool.RunInv | src/thread_pool.h:29-73 | every interleaving with spurious wakeups keeps mutual exclusion, FIFO order, exactly-once, no lost wakeup and orderly shutdown |
| ThreadPool.StepNoLostWakeup | src/thread_pool.h:57-63 | a non-empty queue always has an awake worker or a notification on its way, though notify_one is outside the lock |
| ThreadPool.StepExactlyOnce | src/thread_pool.h:36-43 | a taken task is finished or runs in exactly one worker |
| ThreadPool.DequeuedInOrder | src/thread_pool.h:40-41 | tasks leave the queue in the order of acceptance, none skipped, none twice |
| ThreadPool.EndedOnce | src/thread_pool.h:43-43 | no task ends twice |
| ThreadPool.StopIsFinal | src/thread_pool.h:57-61 | once stopped the pool accepts nothing |
| ThreadPool.EverySubmissionAccepted | src/thread_pool.h:57-61 | over every run the accepted tasks are as many as the calls that found the pool running |
| ThreadPool.EnqueueWorks | src/thread_pool.h:50-64 | an enqueue on a running pool appends exactly its task, and on a stopped pool changes nothing |
| ThreadPool.ExitedIsFinal | src/thread_pool.h:33-46 | a worker that has returned stays returned, whoever is notified |
| ThreadPool.DestructorDrains | src/thread_pool.h:66-73 | when the destructor has returned, each task submitted to the running pool has been taken, in order, and has ended exactly once |
| ThreadPool.RunsEnd | src/thread_pool.h:33-46 | without new calls and spurious wakeups every run is finite |
| ThreadPool.NoDeadlock | src/thread_pool.h:33-73 | until everything is done some thread can move |
| ThreadPool.RestMeansDone | src/thread_pool.h:33-73 | whenever all threads are at rest, every submitted task has finished, and a started destructor has returned |
| Window.RunInv | src/core.cpp:180-198 | every schedule of workers and consumer keeps the window bound, the order of results and the explanation of the cancel flag |
| Window.StepExplained | src/core.cpp:150-166 | a raised cancel flag always has an exception that the consumer has caught or still has to receive |
| Window.CancelledStartsNothing | src/core.cpp:150-151 | once the cancel flag is raised, no task that has not started does any work |
| Window.RunIsComplete | src/core.cpp:362-418 | a returned list is all values in task order, without placeholders, and then no task fails; an exception means that some task fails or crashed; at most `window` tasks are outstanding |
| Window.ReturnsIffNoTaskFails | src/core.cpp:362-418 | whatever the schedule, a collector that has ended without a crash has returned if and only if no task fails |
| Window.RaisedIsIdle | src/core.cpp:192-198 | after the windowed collector has thrown, none of its tasks is queued or running |
| Window.NoFailureNoException | src/core.cpp:184-191 | if no task fails nothing is cancelled and nothing is thrown |
| Window.RunsEnd | src/core.cpp:184-191 | every run of a collector is finite |
| Window.NoDeadlock | src/core.cpp:184-191 | until it has returned or thrown, the consumer or a task it waits for can move |
| Collectors.PiecesTile | src/core.cpp:147-161 | the chunk ranges partition the file, none is empty and all but the last are full |
| Collectors.TreeHashAgrees | src/core.cpp:133-203 | for every pool size and schedule a tree hash that returns is the hash of the in-order concatenation of the chunk digests, with at most four tasks outstanding; it throws only with all tasks ended, and without a crash only if a task cannot open the file |
| Collectors.LayersCollected | src/core.cpp:361-418 | for every schedule the concurrent collection returns the sequential splitter's list, and throws exactly where that one reports a truncated layer, failed opens and crashes apart |
| Collectors.ChunksCollected | src/core.cpp:589-641 | for every schedule the returned chunk list is the sequential one, an exception over the unchanged file means a failed open or a crash, and over a file too short for some chunk nothing is returned |
| Client.DownloadObject | python/av_cli/client.py:109-143 | publishes exactly if all bytes arrive, hash to the name and every file operation succeeds, and raises exactly for a failing file; otherwise the store is unchanged; never leaves its temporary file, whichever operation fails; keeps an intact store intact whatever the server sends |
| Client.WalkRefs | python/av_cli/client.py:223-249 | the loop returns where the walk ends: after a short page with everything merged, or at the first reply that is no page |
| Client.ListRefs | python/av_cli/client.py:223-249 | returns what was merged; only 401 raises |
| Client.UpdateTakesLast | python/av_cli/client.py:243-243 | merging a page gives every name the commit of its last row |
| Client.UpdateKeepsOthers | python/av_cli/client.py:243-243 | and leaves the names that the page lacks as they were |
| Client.RefMapIs | python/av_cli/client.py:223-249 | the mapping of all refs has exactly their names, each with its commit |
| Client.PagingWalkIsComplete | python/av_cli/client.py:224-228 | a paging server's refs are all returned, after exactly one short page |
| Client.OldServerWalkEndsIff | python/av_cli/client.py:227-228 | against a server without paging the walk ends if and only if there are fewer than 5000 refs |
| Client.FailureTruncates | python/av_cli/client.py:240-249 | a failure on page k yields exactly the refs of the pages before it |
| Export.CollectHashes | python/av_cli/cmd_registry.py:78-104 | the parts of split entries and the own hash of the others, and nothing else |
| Export.FetchCommits | python/av_cli/cmd_registry.py:137-149 | paging by 200 returns every commit once, in order |
| Export.ExportOne | python/av_cli/cmd_registry.py:179-199 | an object already there is kept; another is added only verified; only a denied request raises |
| Export.ExportObjects | python/av_cli/cmd_registry.py:172-204 | wherever it is killed, the object loop keeps what was there, adds only wanted, verified objects, and records only objects that are there |
| Export.Export | python/av_cli/cmd_registry.py:114-218 | a finished run writes the manifest of commits, refs, the first thousand runs and the object outcomes, and reports as many failures as it lists; a reliable resumed run is complete; it ends otherwise only if it is killed, denied or cannot list |
| Export.RunsAllThereIff | python/av_cli/cmd_registry.py:164-168 | the manifest has every run if and only if there are at most a thousand; of more it has the newest thousand |
| Export.NoFailuresMeansAllThere | python/av_cli/cmd_registry.py:170-204 | an export reports no failures if and only if every object the commits need is in the archive |
| Export.ResumedIsUninterrupted | python/av_cli/cmd_registry.py:110-113 | any number of killed or failing runs followed by a complete one leave the archive of one uninterrupted run |
| Export.IntactIffItWas | python/av_cli/cmd_registry.py:181-195 | a run leaves an intact archive if and only if it found one |
| Restore.Restore | python/av_cli/cmd_registry.py:229-338 | for every pattern of answers and every point where it is killed: exactly the verdict, failure count, registry and state file of the run described item by item |
| Restore.RunReached | python/av_cli/cmd_registry.py:247-332 | wherever it is killed, a run sends only verified manifest objects, commits equal to the manifest's in every field but the timestamp, and refs, nothing that its state claims, and its state file claims no more than before or than this registry accepted |
| Restore.UnhinderedRunIsClean | python/av_cli/cmd_registry.py:229-338 | a run whose items can be sent and are served reports no failures unless it is killed; one whose state claims everything sends nothing |
| Restore.NoFailuresMeansAllAcceptedIff | python/av_cli/cmd_registry.py:247-260 | a run without failures has got everything accepted if and only if, when it began, the registry had everything that the state file claims |
| Restore.StaleStateFile | python/av_cli/cmd_registry.py:247-260 | an object restored into one registry and then, with that run's state file, into an empty one: the second run reports no failures and sends nothing |
| Restore.ResumedRestoreIsComplete | python/av_cli/cmd_registry.py:222-228 | from no state file, any number of killed or failing attempts followed by one without failures get the whole manifest accepted and send nothing else |
| Restore.RoundTrip | python/av_cli/cmd_registry.py:229-233 | a failure-free export restored without failures into an empty registry, in one attempt or several, yields the collected objects and no others, every commit with its hash, body and tree but no timestamp, and the refs |
| Doctor.OrphanMeans | python/av_cli/cmd_maintenance.py:262-279 | an orphan has a pointer and lacks a layer, or, without layers, a chunk, or, without either, its object |
| Doctor.Workspace.RecoverOrphan | python/av_cli/cmd_maintenance.py:282-302 | the three modes of one orphan: report, predict, download up to the first failure |
| Doctor.Workspace.RelinkPointer | python/av_cli/cmd_maintenance.py:331-359 | the three modes of one stale pointer, from parsing to the index entry |
| Doctor.Workspace.Repair | python/av_cli/cmd_maintenance.py:275-359 | what each mode lists, judged on the state before any repair, and the index and store it leaves |
| Doctor.Workspace.DryRunThenFix | python/av_cli/cmd_maintenance.py:275-359 | a dry run followed by a fix prints the same lists twice, although repairs share parts and change the store midway, and leaves the repaired state |
| Doctor.RepairedOutcome | python/av_cli/cmd_maintenance.py:286-294 | after other repairs a repair succeeds exactly if it was judged possible before them all; a failed one is stuck at a part nobody has |
| Doctor.OrphansAfterFix | python/av_cli/cmd_maintenance.py:275-302 | after the fix the orphans are exactly the ones it did not recover, in order |
| Doctor.SecondFixRecoversNothing | python/av_cli/cmd_maintenance.py:275-359 | a second fix recovers nothing and changes neither index nor store |
| AuditChain.ComputeChainHash | python/av_server/audit_chain.py:13-37 | the hash takes the text of the time stamp and the other five columns as they are |
| AuditChain.VerifyExport | python/av_cli/audit_chain_verify.py:10-44 | reports the first row that does not extend its predecessor, with the rows and signatures counted before it, or accepts with the totals; a last row without an id key fails |
| AuditChain.LastHashDeterminesExport | python/av_server/audit_chain.py:1-6 | two accepted exports with the same last chain hash have the same length and chained fields, or contain a collision |
| AuditChain.DeletionUnnoticedIffAtEnd | docs/enterprise-operator-guide.md:126-127 | deleting rows from an accepted export goes unnoticed if and only if they are its last, collisions apart |
| AuditChain.EditReportedThere | python/av_cli/audit_chain_verify.py:19-28 | an edit that the chain hash can see is reported at its row, or is a collision |
| AuditChain.EditUnnoticedIffShownAlike | python/av_server/audit_chain.py:24-36 | an edit goes unnoticed if and only if it changes none of the six columns, or the time stamp only between missing and the text None, collisions apart |
| AuditChain.MissingTimestampUnnoticed | python/av_server/audit_chain.py:24-36 | replacing a missing time stamp by the text None goes unnoticed |
| AuditChain.TruncationAccepted | python/av_cli/audit_chain_verify.py:40-44 | every prefix of an accepted export is accepted |

## Left out

- Python bindings, the interpreter lock, path decoding, missing input files, `hash_and_copy`,
  `compare_metadata` and `get_file_metadata`: no algorithm.
- JSON parsing of the safetensors header is a parameter that yields the tensors with two offsets or fails, and
  `std::sort` is any one sorting function by start, the same for both stagers.
- The header checks that the two safetensors functions repeat word for word are written once (`ReadLayers`).
- Offsets and file sizes are natural numbers, so a wrap-around of `base_offset + end` in 64 bits is not modelled.
- The chunkers read a file whose length does not change; truncated reads are modelled for safetensors only.
- The gear table is any table of naturals, and `hash & mask` is the remainder by a power of two.
- CPUID, the ARM kernel (which does not exist yet) and the two self-test digests are not evaluated: a machine says
  which kernels it has and which pass.
- Stagers use an abstract digest; `Sha256Stream` shows that the digest depends only on the bytes fed.
- Messages of 2^61 bytes or more, for which the standard defines no digest, are hashed with their length in
  bits reduced modulo 2^64, as in the code.
- Groups 4 to 7 and 8 to 11 of the SHA-NI kernel are the same text with other constants and share one method.
- File system failures other than a failed open, write, rename or truncated read, such as a failed removal; bytes
  lost at a close are in `Publish` only. Temporary names are distinct by assumption.
- Layer and chunk tasks run one after the other inside the stagers' methods; their concurrency is in `Window` and
  `Collectors`, where workers are not numbered, since `ThreadPool` shows that every queued task runs.
- `hash_file_parallel` with a chunk size of zero, which divides by zero.
- A kill in the middle of one download leaves a temporary file in the archive, which the export's contents do not show.
- Export.Export: the counts of present and of resumed objects are not returned; the first is the number
  of items minus the failures.
- Restore.Restore: the counts of duplicates and of resumed items are not returned.
- A connection that breaks off in the middle of a restore ends the run, as a kill between two items does.
- The server is stable and intact where a theorem says so. Its handlers are reduced to what a client sees; the
  request that a registry accepts a ref only for a commit it has is part of "is this request served".
- Doctor's other checks, its messages, an authentication failure that ends the command, and the pending-push queue.
- The serialisation inside the chain hash and the signature scheme: both are parameters, except that a missing time
  stamp and the text "None" enter alike. Time stamps are texts or missing, and a row without a chain
  hash counts as one whose chain hash is null.
- Policy and improver gates, stash, checkout, commit, the server's routes and the web interface.
