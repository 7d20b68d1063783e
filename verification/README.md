# dnfs verification

A Dafny model of the stateful cores of the dnfs NFSv3 server, with proofs of what they promise. The model
follows the code: the same branches, limits, wrap-arounds and error exits. Where a promise does not hold of
the code, the exact condition under which it does is proved instead, with an input, or a run, that shows the
failure.

Check everything with `dafny verify dfyconfig.toml`.

## What is modelled

* **Duplicate reply cache** (`ReplyCacheKey`, `ReplyCacheTree`, `ReplyCacheSpec`, `ReplyCacheExact`,
  `ReplyCacheImpl`, `ReplyCacheRuns`, `RequestChecksum`). A class with the buckets' search trees and LRU lists
  and the two global totals, changed in place, is proved against functions on values; runs of lookup, update, shrinker
  and clock steps over any number of requests and buckets are a state machine over those functions. Main
  results: `ReplyCacheRuns.AtMostOneExecution`, `ReplyCacheRuns.EveryAnswerRight`,
  `ReplyCacheRuns.EveryUpdateRight`, `ReplyCacheRuns.EveryPruneRight`, `ReplyCacheRuns.EveryRunSafe`.
* **Share reservations and I/O counting** (`ShareReservation`, `IoWork`). Five wrapping 32-bit counters
  against a set of holders; the WRITE and COMMIT handlers as threads interleaved at single atomic and lock
  operations on a signed 32-bit io_work. Main results: `ShareReservation.ConflictIsClash`,
  `ShareReservation.EveryStepSafeIff`, `ShareReservation.EveryRunSafe`, `IoWork.HandlerAccounting`,
  `IoWork.ZeroOnlyUnderMutex`, `IoWork.StableWriteSyncs`, `IoWork.LocksKeptIff`.
* **READDIRPLUS** (`ReaddirPlus`, `ReaddirPlusWire`). The nested loop over chunks of records, the client that
  follows the cookies, and the reply on the wire. Main results: `ReaddirPlus.Readdirplus`, what one call
  returns by the limits themselves, and, both if-and-only-if: `ReaddirPlus.PagingExact`, a page that ends on
  cookie 1 or 2 sends the client back to the start for ever, and `ReaddirPlusWire.ReplyWithinIff`, when replies keep to the size the client asked for.
* **XDR codecs** (`Xdr`, `NfsXdr`, `XdrStream`, `MountXdr`). A codec is an encoder that may refuse and a
  decoder that returns the rest of its input; struct, union, optional data and list are ways to combine
  codecs that keep the codec laws. A codec is lawful when decoding an encoding before any suffix gives the
  value and the suffix, encodings are whole units, decoding never adds bytes, and encoding again what was
  decoded gives the same bytes exactly when padding was zero, booleans were 0 or 1 and strings held no zero
  byte. The MOUNT list codecs are loops over linked nodes and a moving stream. Main results: `NfsXdr.CreateArgsLawful`,
  `NfsXdr.CreateArgsSpells`, `NfsXdr.CreateResLawful`, `NfsXdr.DirListLawful`, `NfsXdr.DirListSpells`,
  `MountXdr.ExportsOverTheWire`.
* **LRU cache** (`LruList`, `Lru`, `LruRuns`). Real doubly linked nodes and an index of node references.
  Main results: `LruRuns.EveryRun`, `LruRuns.CachedIff`, `LruRuns.EvictsLeastRecentlyUsed`, and
  `Lru.Cache.Add`, which states exactly when an add keeps list and index in agreement.
* **Log buffer** (`LogBuffer`, `LogBufferRuns`, `LogBufferImpl`, `LogBufferOrder`). Adds, flushes, output passes and setters
  interleaved at their critical sections; the drain and emit loops as code whose turns are those steps. Main
  results: `LogBufferRuns.EveryRun`, `LogBufferRuns.FlushedIsEmpty`, and `LogBufferOrder.ThreadOrderIff`, the
  exact condition for a thread's messages to come out in its own order.
* **CityHash** (`CityMix`, `CityMix64`, `CityReader`, `CityHash32`, `CityHash64`, `CityHash128`, `CityWords`,
  `CityKnown`, `CityKnown64`). A reader that records every byte it gives out; mixing steps as programs that
  can be undone. Main results: `CityHash128.CityHash128`, `CityWords.Words128Long`, `CityHash32.OneWordOf24`,
  `CityHash32.OneWordOf12`, `CityHash32.OneWordOfABlock`, `CityHash64.SameEndOf4to7`.

Where the code falls short of its documentation or intent:

* READDIRPLUS does not keep its replies within maxcount. It charges a pointer for each entry and not what the
  entry takes (`ReaddirPlusWire.ReplyWithinIff`, `ReaddirPlusWire.ThousandBytesExceeded`), and a maxcount below
  104 wraps to no limit at all (`ReaddirPlus.MemAvailIff`).
* A page that ends on cookie 1 or 2 starts the listing over (`ReaddirPlus.SmallRestarts`), and a change of
  ctime by a multiple of 2^32 seconds goes unseen (`ReaddirPlus.UnseenChange`).
* A buffered reply is stored in whole words, so one whose length is not a multiple of four would not come
  back whole (`ReplyCacheRuns.ReplayIsWhole`, `ReplyCacheRuns.ShortReplyIsCut`). This is about the function on its
  own: XDR encoders only produce whole words.
* 2^32 denials wrap a share counter to zero (`ShareReservation.WrappedCounterLetsWriterIn`), and 2^31 failed
  requests make io_work negative (`IoWork.NegativeAfterFailures`).
* The conflict exit of fsal_start_global_io unlocks a second time (`IoWork.SecondUnlockFreesAnother`).
* Messages are sorted by the wall clock, in microseconds, and the sort promises nothing for equal times. Messages
  of one thread may therefore change places when their times are equal, and do when the clock was set back
  between them (`LogBufferOrder.TwoComeOutSwapped`, `LogBufferOrder.RunOutOfOrder`).
* csum_partial over chunks that start at odd offsets does not give the sum of the whole
  (`RequestChecksum.SplitIff`, `RequestChecksum.OddSplitMatters`).

## Model

| member | source | states |
|---|---|---|
| `ReplyCacheKey.LessIsStrictTotalOrder` | kernel-version/tools/dnfsd/dnfscache.c:321-332 | the byte-wise key comparison is irreflexive, transitive and total, and is zero only for equal keys |
| `ReplyCacheKey.MemCmpMeans` | kernel-version/tools/dnfsd/dnfscache.c:321-332 | two keys are in the order of the first byte in which they differ |
| `ReplyCacheTree.FindIff` | kernel-version/tools/dnfsd/dnfscache.c:339-380 | on an ordered tree the search finds an entry exactly when one with that key is in the tree |
| `ReplyCacheTree.FindOrLinkIsMapInsert` | kernel-version/tools/dnfsd/dnfscache.c:339-380 | find-or-insert on the tree is find-or-insert on a plain map, and the tree stays strictly ordered |
| `ReplyCacheTree.EraseIsMapRemove` | kernel-version/tools/dnfsd/dnfscache.c:119-134 | erasing an entry is removal from the map, and the order is kept |
| `ReplyCacheTree.FindOrInsert` | kernel-version/tools/dnfsd/dnfscache.c:339-380 | the descent loop returns the entry of that key, or the new one linked at the leaf it reached |
| `ReplyCacheSpec.EarlyBreakIsSafe` | kernel-version/tools/dnfsd/dnfscache.c:227-247 | on a list sorted by timestamp, if the oldest finished entry is fresh then none is expired |
| `ReplyCacheSpec.PruneUnrolls` | kernel-version/tools/dnfsd/dnfscache.c:227-247 | the closed form of how many entries a prune frees obeys the scan's own stop and go |
| `ReplyCacheSpec.PruneMeaning` | kernel-version/tools/dnfsd/dnfscache.c:227-247 | in-progress entries stay in order; finished ones go oldest first, each for being expired or over the limit; after it no finished entry is left, or the count is within the maximum and none is expired |
| `ReplyCacheSpec.FreeKeeps` | kernel-version/tools/dnfsd/dnfscache.c:119-134 | freeing an entry keeps tree and list in agreement and takes exactly its weight from the totals |
| `ReplyCacheSpec.FreeOldestKeeps` | kernel-version/tools/dnfsd/dnfscache.c:227-247 | so does freeing the oldest finished ones |
| `ReplyCacheSpec.LookupKeeps` | kernel-version/tools/dnfsd/dnfscache.c:397-482 | a lookup keeps the bucket's invariant and the balance of entries and memory |
| `ReplyCacheSpec.UpdateKeeps` | kernel-version/tools/dnfsd/dnfscache.c:504-558 | so does an update, on each of its exits |
| `ReplyCacheSpec.CloseKeeps` | kernel-version/tools/dnfsd/dnfscache.c:432-440 | a section balanced on its own bucket keeps both totals exact over all buckets |
| `ReplyCacheSpec.LookupCacheKeeps` | kernel-version/tools/dnfsd/dnfscache.c:397-482 | the whole-cache invariant survives a lookup |
| `ReplyCacheSpec.UpdateCacheKeeps` | kernel-version/tools/dnfsd/dnfscache.c:504-558 | and an update |
| `ReplyCacheSpec.PruneCacheKeeps` | kernel-version/tools/dnfsd/dnfscache.c:253-287 | and a prune of any bucket |
| `ReplyCacheImpl.ReplyCache.constructor` | kernel-version/tools/dnfsd/dnfscache.c:157-192 | the table starts with empty buckets and zero totals |
| `ReplyCacheImpl.ReplyCache.FreeLocked` | kernel-version/tools/dnfsd/dnfscache.c:119-134 | the fields after it are the cache with that entry freed, or unchanged for one that never entered a bucket |
| `ReplyCacheImpl.ReplyCache.PruneBucket` | kernel-version/tools/dnfsd/dnfscache.c:227-247 | the scan with its skip and early break frees exactly the oldest finished entries of the specification: each expired or over the limit, none used after one that stays, until no finished one is left or the count is within the maximum and none is expired |
| `ReplyCacheImpl.ReplyCache.PruneCacheEntries` | kernel-version/tools/dnfsd/dnfscache.c:253-287 | pruning all buckets leaves none with an expired finished entry while within the maximum, and the count falls by what it returns |
| `ReplyCacheImpl.ReplyCache.LookupRequest` | kernel-version/tools/dnfsd/dnfscache.c:397-482 | the answer by the request and the live entries: without a cacheable type or memory, execute uncached and change nothing; drop exactly when a live entry with the key is in progress; a new entry exactly when no live one has the key; otherwise the stored status or words, or one of the code's outs. And the entries it leaves: a hit is only refreshed; a miss adds one entry and takes only expired or surplus finished ones of its bucket, oldest first |
| `ReplyCacheImpl.ReplyCache.AnswerFound` | kernel-version/tools/dnfsd/dnfscache.c:447-482 | the hit path: refresh, give the spare entry back, answer |
| `ReplyCacheImpl.ReplyCache.CountNew` | kernel-version/tools/dnfsd/dnfscache.c:432-440 | the miss path: link, count, prune |
| `ReplyCacheImpl.ReplyCache.UpdateRequest` | kernel-version/tools/dnfsd/dnfscache.c:504-558 | the entry stays exactly when there is a reply of at most 64 words, its type is not RC_NOCACHE, and a buffered one got its buffer; it then holds the four bytes of the status, or the whole words of the reply; every other entry stays as it was, and count and memory move by exactly that |
| `ReplyCacheImpl.ReplyCache.Shutdown` | kernel-version/tools/dnfsd/dnfscache.c:194-214 | both totals come to zero |
| `ReplyCacheExact.LookupExact` | kernel-version/tools/dnfsd/dnfscache.c:397-482 | the answer and the entries left, as stated for LookupRequest, in every state that keeps the invariant |
| `ReplyCacheExact.PruneExact` | kernel-version/tools/dnfsd/dnfscache.c:227-247 | the entries a prune takes and leaves, as stated for PruneBucket |
| `ReplyCacheExact.UpdateExact` | kernel-version/tools/dnfsd/dnfscache.c:504-558 | the entry kept and its bytes, as stated for UpdateRequest |
| `ReplyCacheExact.TotalMemExact` | kernel-version/tools/dnfsd/dnfscache.c:119-134 | the memory that the entries weigh is the fixed size times their number and the bytes of the buffered replies |
| `ReplyCacheRuns.EveryRunSafe` | kernel-version/tools/dnfsd/dnfscache.c:397-558 | in every state of every run: tree and list agree and are in order, the count is the entries and the memory is their fixed size and their buffers, no finished entry has type RC_NOCACHE, and an entry in progress is held by exactly one request whose pointer is live |
| `ReplyCacheRuns.AtMostOneExecution` | kernel-version/tools/dnfsd/dnfscache.c:397-578 | while an entry is live only its creator executes with it; a repeat is dropped while it is in progress, and afterwards gets the head of its own reply and then exactly the four status bytes, or the whole words, that the creator handed in, save for the code's own outs |
| `ReplyCacheRuns.EveryAnswerRight` | kernel-version/tools/dnfsd/dnfscache.c:397-482 | in every reachable state a lookup answers and leaves the entries as stated for LookupRequest |
| `ReplyCacheRuns.EveryUpdateRight` | kernel-version/tools/dnfsd/dnfscache.c:504-558 | and an update keeps or frees the entry of its request as stated for UpdateRequest |
| `ReplyCacheRuns.EveryPruneRight` | kernel-version/tools/dnfsd/dnfscache.c:253-287 | and the shrinker takes only the oldest finished entries of a bucket, and stops when it should |
| `ReplyCacheRuns.ClockIs` | kernel-version/tools/dnfsd/dnfscache.c:227-247 | the time that entries are stamped with and expire by is the time that has passed |
| `ReplyCacheRuns.ReplayIsWhole` | kernel-version/tools/dnfsd/dnfscache.c:504-578 | a buffered reply is replayed whole if and only if its length is a multiple of four |
| `ReplyCacheRuns.ShortReplyIsCut` | kernel-version/tools/dnfsd/dnfscache.c:504-578 | a reply of three bytes is cached, and replayed as nothing |
| `RequestChecksum.CacheCsum` | kernel-version/tools/dnfsd/dnfscache.c:291-319 | the walk feeds csum_partial exactly the first min(head + page_len, 256) bytes, in order and once each; every chunk that is not empty starts at an even offset if and only if the head's length is even where pages follow it, and page_base is even where the walk takes two pages |
| `RequestChecksum.SplitDoesNotMatter` | kernel-version/tools/dnfsd/dnfscache.c:304-317 | for any ones' complement sum of 16-bit words, requests with the same bytes in chunks that start at even offsets have the same checksum modulo 65535, however they lie in their pages |
| `RequestChecksum.SplitIff` | kernel-version/tools/dnfsd/dnfscache.c:304-317 | for given chunk sizes, the sum is that of the whole for all contents if and only if every chunk that is not empty starts at an even offset |
| `RequestChecksum.OddSplitMatters` | kernel-version/tools/dnfsd/dnfscache.c:304-317 | split after an odd length, the same bytes have another checksum |
| `ShareReservation.Share.UpdateShareCounters` | src/nfs/nfs_utils.cpp:430-469 | each counter moves by what its flag gained or lost, modulo 2^32 |
| `ShareReservation.KnownModes` | src/nfs/nfs_utils.cpp:430-469 | which counter each open flag, by its value, counts in: a mandatory write denial in two |
| `ShareReservation.Share.CheckShareConflict` | src/nfs/nfs_utils.cpp:476-523 | denies exactly on the five conflicts of the code |
| `ShareReservation.Share.CheckShareConflictAndUpdate` | src/nfs/nfs_utils.cpp:525-540 | a refusal changes nothing; otherwise the counters shift |
| `ShareReservation.SumsShift` | src/nfs/nfs_utils.cpp:430-469 | the update keeps the counters equal to the per-flag sums over the holders |
| `ShareReservation.SumsDrop` | src/nfs/nfs_utils.cpp:430-469 | also when a holder closes |
| `ShareReservation.SumsExact` | src/nfs/nfs_utils.cpp:430-469 | the counters are the plain sums if and only if no sum reaches 2^32 |
| `ShareReservation.ConflictIsClash` | src/nfs/nfs_utils.cpp:476-523 | the counters refuse exactly the requests that clash with some current holder, if and only if the holders are countable: the number of readers, of writers, of read denials and of mandatory write denials, and, while there is no mandatory one, of write denials, is no positive multiple of 2^32 |
| `ShareReservation.EveryStepSafeIff` | src/nfs/nfs_utils.cpp:476-540 | from a safe state every step is safe if and only if the holders are countable |
| `ShareReservation.UnseenTakeIsUnsafe` | src/nfs/nfs_utils.cpp:476-540 | where they are not, a step that breaks safety |
| `ShareReservation.DenialsGranted` | src/nfs/nfs_utils.cpp:430-540 | any number of mandatory denials are granted one after the other, from no holders on |
| `ShareReservation.WrappedCounterLetsWriterIn` | src/nfs/nfs_utils.cpp:476-523 | a run from no holders: after 2^32 mandatory denials a writer is let in against them |
| `ShareReservation.EveryRunSafe` | src/nfs/nfs_utils.cpp:430-540 | in every run the five counters are the sums modulo 2^32; while the holders are countable, no holder writes against another's mandatory deny, and any other clash is by an access taken later with bypass |
| `ShareReservation.NoBypassNoClash` | src/nfs/nfs_utils.cpp:476-540 | without bypass, while the holders are countable, no holder has what another denies |
| `ShareReservation.BypassCanClash` | src/nfs/nfs_utils.cpp:476-540 | with bypass it can |
| `IoWork.HandlerAccounting` | src/nfs/nfs_write.cpp:92-138 | for any interleaving: io_work is, as a signed 32-bit number, the operations in flight plus the calls that failed in the run, and negative exactly when that sum modulo 2^32 is 2^31 or more; the write counter is the reservations held plus the WRITEs whose call failed; no deny counter moves, so the conflict exit is never reached; every lock is held by at most one thread |
| `IoWork.NegativeAfterFailures` | src/nfs/nfs_commit.cpp:79-104 | 2^31 failed COMMITs in a row leave io_work negative with no operation in flight |
| `IoWork.Quiescent` | src/nfs/nfs_commit.cpp:79-104 | with all handlers back, what is still counted, wrapped, is exactly the number of WRITE and COMMIT calls that failed in the run, and of WRITE calls alone in the write counter |
| `IoWork.ZeroOnlyUnderMutex` | src/nfs/nfs_utils.cpp:599-649 | io_work goes from one to zero exactly when dec-and-lock returns true to that thread, which then holds work_mutex; otherwise only an increment that wraps brings it to zero |
| `IoWork.StableWriteSyncs` | src/nfs/nfs_write.cpp:117-127 | in any interleaving, a WRITE that is to be stable completes only after an fsync of its own that succeeded |
| `IoWork.CommitSyncs` | src/nfs/nfs_commit.cpp:84-104 | so does every COMMIT |
| `IoWork.WriteBegins` | src/nfs/nfs_write.cpp:92-117 | step by step, alone on a file: a WRITE takes its reservation under the lock and is counted before its pwritev |
| `IoWork.WriteGoesOn` | src/nfs/nfs_write.cpp:117-138 | a failed call ends it with both counters still up; otherwise it goes on to the fsync if stable, and to its completion |
| `IoWork.CommitBegins` | src/nfs/nfs_commit.cpp:79-104 | a COMMIT is counted and synced, or left counted if the fsync fails |
| `IoWork.CountsOut` | src/nfs/nfs_utils.cpp:599-649 | the last operation is counted out under the mutex |
| `IoWork.CountsOutEarly` | src/nfs/nfs_utils.cpp:599-649 | any other by one compare-exchange without it, tried again if the count has moved |
| `IoWork.CountsOutLate` | src/nfs/nfs_utils.cpp:599-649 | and under the mutex, without coming to zero, if others came in meanwhile |
| `IoWork.WriteEnds` | src/nfs/nfs_write.cpp:134-137 | the reservation is given back under the lock |
| `IoWork.RunKeeps` | src/nfs/nfs_utils.cpp:559-649 | the invariant behind these over every run of atomic steps, from any share counters |
| `IoWork.LocksKeptIff` | src/nfs/nfs_utils.cpp:559-584 | with two threads or more, every run keeps the locks exclusive if and only if no write is denied at its start |
| `IoWork.SecondUnlockFreesAnother` | src/nfs/nfs_utils.cpp:559-584 | where one is, the second unlock of the conflict exit frees a lock that another thread holds, and two threads are in the section at once |
| `ReaddirPlus.PageSizeBound` | src/nfs/nfs_readdirplus.cpp:82-98 | a page holds at least one and at most max(1, dircount) entries |
| `ReaddirPlus.PageFullIff` | src/nfs/nfs_readdirplus.cpp:215-222 | the page limit test first succeeds at the page size |
| `ReaddirPlus.MemAvailIff` | src/nfs/nfs_readdirplus.cpp:82-89 | 104 bytes of the size are set aside if and only if the size is at least 104; below that the limit is the maximum |
| `ReaddirPlus.VerifierIff` | src/nfs/nfs_readdirplus.cpp:122-126 | two verifiers agree exactly when the nanoseconds agree and the seconds agree in 32 bits |
| `ReaddirPlus.VerifierIs` | src/nfs/nfs_readdirplus.cpp:122-126 | the verifier is the 32 bits of seconds times 10^9 and the nanoseconds, in eight bytes, the least significant first |
| `ReaddirPlus.ReadEntries` | src/nfs/nfs_utils.cpp:376-396 | one read gives the records after the position that fit the buffer, at least one if any is left; after the last one it ends, or fails if the directory is broken |
| `ReaddirPlus.WalkChunk` | src/nfs/nfs_readdirplus.cpp:178-226 | the inner loop closes the page of the specification, or leaves the outer loop exactly the records up to the chunk's end |
| `ReaddirPlus.FillPage` | src/nfs/nfs_readdirplus.cpp:163-232 | the nested loops return the page of the specification, or its error when an entry cannot be described or a read fails |
| `ReaddirPlus.Readdirplus` | src/nfs/nfs_readdirplus.cpp:82-239 | the whole call, however the kernel cuts the directory into chunks. NOTDIR and BAD_COOKIE exactly when they should be; otherwise the records after the cookie, up to the least count n of at least one with n >= dircount, n >= the configured maximum or 8n + 4 >= min(64 MiB, min(configured size, maxcount) - 104), 64 MiB when that size is below 104; eof exactly at the end; a failed request exactly when a record within that count cannot be described; BADHANDLE only for a directory that does not open or whose reads fail before the page is full |
| `ReaddirPlus.ServeExact` | src/nfs/nfs_readdirplus.cpp:66-239 | the same of the specification, for every handle, directory and argument |
| `ReaddirPlus.PageShape` | src/nfs/nfs_readdirplus.cpp:163-232 | a page before the end is full and not empty, never above the limit; eof comes exactly with the last records |
| `ReaddirPlus.PagingExact` | src/nfs/nfs_readdirplus.cpp:82-232 | following the cookies returns every record once, in order, and then eof if and only if the first page does not end on cookie 1 or 2; otherwise it never ends |
| `ReaddirPlus.ServerIsServe` | src/nfs/nfs_readdirplus.cpp:82-239 | the server that the client of these results calls is the call itself, with that cookie and verifier |
| `ReaddirPlus.BrokenNeverComplete` | src/nfs/nfs_readdirplus.cpp:170-175 | a client never takes the listing of a broken directory for complete |
| `ReaddirPlus.SmallRestarts` | src/nfs/nfs_readdirplus.cpp:142-232 | a directory of three records and a dircount of 1 for which the listing never ends |
| `ReaddirPlus.PagingExactAboveTwo` | src/nfs/nfs_readdirplus.cpp:82-232 | with all offsets above 2 it is exact whatever the limits |
| `ReaddirPlus.ChangeIsDetected` | src/nfs/nfs_readdirplus.cpp:122-140 | a continued listing gets BAD_COOKIE exactly when the ctime changed in what the verifier carries |
| `ReaddirPlus.UnseenChange` | src/nfs/nfs_readdirplus.cpp:122-140 | a change of ctime by 2^32 seconds that is not detected |
| `ReaddirPlusWire.ResOkLawful` | src/nfs/nfs_readdirplus.cpp:304-313 | the body of a successful reply round-trips before any suffix |
| `ReaddirPlusWire.ReplySize` | src/nfs/nfs_readdirplus.cpp:276-313 | the reply that carries a page encodes exactly when every name and every handle fits, and then takes 104 bytes and, for each entry, 120 bytes and its name and handle in whole units |
| `ReaddirPlusWire.EveryReplyWithin` | src/nfs/nfs_readdirplus.cpp:82-232 | if 104 bytes and a full page of the largest entries are within maxcount, so is every reply, wherever its page starts |
| `ReaddirPlusWire.ReplyWithinIff` | src/nfs/nfs_readdirplus.cpp:82-232 | the first reply is within maxcount for every directory with names up to a given length if and only if that holds |
| `ReaddirPlusWire.ThousandBytesExceeded` | src/nfs/nfs_readdirplus.cpp:82-98 | asked for at most 1000 bytes, under the default limits, a page of 112 entries and a reply of 14440 bytes |
| `Xdr.PrefixFree` | src/nfs/nfs_xdr.cpp:20-327 | for any lawful codec distinct values have distinct, prefix-free encodings |
| `Xdr.BoolReads` | src/libntirpc/ntirpc/rpc/xdr_inline.h:380-393 | a boolean reads as false when its four bytes are zero and as true otherwise |
| `Xdr.U64Reads` | src/nfs/nfs_xdr.cpp:26-31 | a 64-bit integer is two words, the upper half first |
| `Xdr.CountedReads` | src/nfs/nfs_xdr.cpp:138-144 | counted bytes are read exactly when the count is within the maximum and they are there up to a whole unit, whatever fills it |
| `Xdr.StringReads` | src/nfs/nfs_xdr.cpp:165-169 | a string is what stands before the first zero among its counted bytes |
| `Xdr.OptionalReads` | src/nfs/nfs_xdr.cpp:122-136 | after a zero nothing, after any other word one value |
| `Xdr.U32Lawful` | src/nfs/nfs_xdr.cpp:20-25 | 32-bit integers round-trip before any suffix |
| `Xdr.U64Lawful` | src/nfs/nfs_xdr.cpp:26-31 | 64-bit integers likewise |
| `Xdr.BoolLawful` | src/libntirpc/ntirpc/rpc/xdr_inline.h:380-393 | booleans likewise, any nonzero word reading as true, and only 0 and 1 being written back as they were |
| `Xdr.OpaqueLawful` | src/nfs/nfs_create.cpp:169-173 | fixed opaque data likewise, whatever its padding, and only zero padding being written back as it was |
| `Xdr.CountedLawful` | src/nfs/nfs_xdr.cpp:138-144 | counted bytes up to a maximum likewise |
| `Xdr.StringLawful` | src/nfs/nfs_xdr.cpp:165-169 | C strings up to a maximum likewise |
| `Xdr.PairLawful` | src/nfs/nfs_xdr.cpp:187-193 | one field after another with an early exit keeps the laws |
| `Xdr.ConvLawful` | src/nfs/nfs_xdr.cpp:38-44 | so does reading the fields into a record |
| `Xdr.SwitchLawful` | src/nfs/nfs_create.cpp:175-192 | so does a union, whatever its arms |
| `Xdr.OptionalLawful` | src/nfs/nfs_xdr.cpp:122-136 | so does a union switched by a boolean |
| `Xdr.ListLawful` | src/libntirpc/src/xdr_reference.c:115-128 | so does a list of optional data, of any length |
| `NfsXdr.Fattr3Lawful` | src/nfs/nfs_xdr.cpp:91-120 | attributes round-trip before any suffix, in whole units |
| `NfsXdr.Fattr3Layout` | src/nfs/nfs_xdr.cpp:91-120 | they are always encodable, as 21 words in the order of section 2.5 of RFC 1813 |
| `NfsXdr.PostOpAttrLawful` | src/nfs/nfs_xdr.cpp:122-136 | optional attributes round-trip |
| `NfsXdr.WccDataLawful` | src/nfs/nfs_xdr.cpp:195-227 | weak cache consistency data round-trips |
| `NfsXdr.WccDataLayout` | src/nfs/nfs_xdr.cpp:195-227 | its words, in the order of section 2.5 of RFC 1813 |
| `NfsXdr.SetTimeLawful` | src/nfs/nfs_xdr.cpp:277-311 | a settable time round-trips, any code but the client-time one standing alone |
| `NfsXdr.SetTimeAccepts` | src/nfs/nfs_xdr.cpp:283-311 | every settable time is encodable but the code 2 without a time |
| `NfsXdr.SetTimeReads` | src/nfs/nfs_xdr.cpp:277-311 | exactly the code 2 has seconds and nanoseconds after it; any other is taken as it is |
| `NfsXdr.Sattr3Lawful` | src/nfs/nfs_xdr.cpp:229-327 | settable attributes round-trip |
| `NfsXdr.Sattr3Accepts` | src/nfs/nfs_xdr.cpp:229-327 | they are encodable exactly when no client-time code lacks its time |
| `NfsXdr.Sattr3Layout` | src/nfs/nfs_xdr.cpp:229-327 | their words: mode, uid, gid, size, atime, mtime, each behind its discriminant |
| `NfsXdr.PostOpFhLawful` | src/nfs/nfs_xdr.cpp:138-185 | optional file handles round-trip |
| `NfsXdr.HowLawful` | src/nfs/nfs_create.cpp:163-192 | the CREATE mode union round-trips and refuses other modes |
| `NfsXdr.HowReads` | src/nfs/nfs_create.cpp:163-192 | 0 and 1 have attributes after them, 2 eight bytes of verifier, and no other code is read |
| `NfsXdr.CreateArgsLawful` | src/nfs/nfs_create.cpp:194-205 | CREATE3args round-trip before any suffix, in whole units |
| `NfsXdr.CreateArgsAccepts` | src/nfs/nfs_create.cpp:194-205 | and are encodable exactly when handle, name, verifier and times fit |
| `NfsXdr.CreateArgsSpells` | src/nfs/nfs_create.cpp:163-205 | byte by byte: directory handle, name, mode and the arm of the mode |
| `NfsXdr.CreateResLawful` | src/nfs/nfs_create.cpp:207-237 | CREATE3res round-trip |
| `NfsXdr.CreateResReads` | src/nfs/nfs_create.cpp:207-237 | a status of 0 has a success after it, and any other a failure with that status |
| `NfsXdr.CreateResAccepts` | src/nfs/nfs_create.cpp:207-237 | and are encodable exactly when a success has a fitting handle and a failure a failing status |
| `NfsXdr.CreateResSpells` | src/nfs/nfs_create.cpp:207-237 | byte by byte: status, then handle, attributes and cache data, or only the latter |
| `NfsXdr.EntryLawful` | src/nfs/nfs_readdirplus.cpp:276-292 | a directory entry round-trips |
| `NfsXdr.DirListLawful` | src/nfs/nfs_readdirplus.cpp:276-302 | an entry list of any length and its eof flag round-trip |
| `NfsXdr.DirListAccepts` | src/nfs/nfs_readdirplus.cpp:276-302 | and are encodable exactly when each name and handle fits |
| `NfsXdr.EntrySpells` | src/nfs/nfs_readdirplus.cpp:276-292 | byte by byte: file id, name, cookie, attributes, handle |
| `NfsXdr.DirListSpells` | src/nfs/nfs_readdirplus.cpp:276-302 | byte by byte: each entry behind a one, then a zero and the eof flag |
| `MountXdr.EncodeNodes` | src/mnt/mnt_dump.cpp:49-83 | the loop over linked nodes emits the recursive optional-data encoding, or fails exactly when an element does not encode |
| `MountXdr.DecodeNodes` | src/mnt/mnt_export.cpp:68-102 | the loop builds new linked nodes that hold what the recursive decoder gives, leaving what follows |
| `MountXdr.EncodeExport` | src/mnt/mnt_export.cpp:104-117 | an export is its directory and then its groups |
| `MountXdr.DecodeExport` | src/mnt/mnt_export.cpp:104-117 | and is decoded so into a new node |
| `MountXdr.EncodeExports` | src/mnt/mnt_export.cpp:119-153 | the outer loop with the inner one emits the nested recursive encoding |
| `MountXdr.DecodeExports` | src/mnt/mnt_export.cpp:119-153 | the outer loop rebuilds the nested list in new nodes |
| `MountXdr.ExportsAccepts` | src/mnt/mnt_export.cpp:55-153 | a list is encodable exactly when every directory and group name fits |
| `MountXdr.ExportsLawful` | src/mnt/mnt_export.cpp:68-153 | the nested recursive encoding round-trips before any suffix |
| `MountXdr.MountsAccepts` | src/mnt/mnt_dump.cpp:34-83 | a mount list is encodable exactly when every name fits |
| `MountXdr.ExportsOverTheWire` | src/mnt/mnt_export.cpp:68-153 | encode loop then decode loop, before any suffix: the same list in new nodes, the suffix untouched, and success exactly when every name fits |
| `MountXdr.MountsOverTheWire` | src/mnt/mnt_dump.cpp:34-83 | the same for mount lists |
| `LruList.LinkedList.Unlink` | include/cache/lru.h:101-109 | erasing through an iterator removes that node and value and keeps all links |
| `LruList.LinkedList.PushFront` | include/cache/lru.h:58-61 | a new node goes in front |
| `LruList.LinkedList.Refresh` | include/cache/lru.h:90-97 | splice moves that same node to the front |
| `Lru.Cache.Add` | include/cache/lru.h:48-63 | a list of exactly the capacity loses its last value, which is returned, and any other loses nothing; the value then stands in front of what is left; index and list stay in agreement if and only if the value is not still cached |
| `Lru.Cache.Access` | include/cache/lru.h:90-97 | the indexed node moves to the front, agreement is kept, and an absent value changes nothing |
| `Lru.Cache.Remove` | include/cache/lru.h:101-109 | the indexed node goes, agreement is kept, and an absent value changes nothing |
| `Lru.AgreeMeans` | include/cache/lru.h:37-39 | agreement is exactly: no value twice, and the map's keys are the list's values |
| `LruRuns.EveryRun` | include/cache/lru.h:48-109 | after every run that adds absent values: list order is recency order, no value twice, size within capacity |
| `LruRuns.EvictsLeastRecentlyUsed` | include/cache/lru.h:48-63 | a full cache evicts, of all it holds, the value whose last use is longest ago, and keeps the others in their order |
| `LruRuns.CachedIff` | include/cache/lru.h:48-109 | over every run that adds absent values: a cached value goes only when it is removed, or when an add finds exactly capacity values with it last; and only an add brings one in |
| `LruRuns.OnlyList` | include/cache/lru.h:48-109 | the list after a run is the only one with those values in order of last use |
| `LruRuns.AddPresentDuplicates` | include/cache/lru.h:48-63 | adding a value that stays cached always leaves it twice, and nothing else does |
| `LruRuns.Drive` | include/cache/lru.h:48-109 | the linked structure driven through a run agrees with its index and holds the run's state |
| `LogBuffer.StepConserves` | src/log/log_buffer.cpp:55-135 | every step keeps emitted, drained and queued messages together equal to those added |
| `LogBufferRuns.EveryRun` | src/log/log_buffer.cpp:31-135 | in every reachable state: nothing lost or repeated, each pass sorted by time, every message emitted under the attributes it was added under |
| `LogBufferRuns.ThreadOrder` | src/log/log_buffer.cpp:55-135 | a thread whose times are steady (of two messages added under the same attributes the later has the later time, or is the same) has its messages emitted in its own order over the whole run |
| `LogBufferRuns.SortKeepsOrder` | src/log/log_buffer.cpp:116-120 | any sort by time keeps the order of a thread whose times are steady |
| `LogBufferOrder.SortKeepsOrderIff` | src/log/log_buffer.cpp:116-120 | every sort by time keeps a thread's order if and only if its times are steady |
| `LogBufferOrder.AddedInVersions` | src/log/log_buffer.cpp:55-74 | in every run a thread's messages are added under attribute versions that never go down |
| `LogBufferOrder.RunOutOfOrder` | src/log/log_buffer.cpp:55-135 | for messages of a thread whose times are not steady, in any versions that never go down, a run from the start that emits all of them in another order |
| `LogBufferOrder.ThreadOrderIff` | src/log/log_buffer.cpp:55-135 | such messages come out in their order in every run, whoever else logs and flushes, if and only if their times are steady |
| `LogBufferOrder.TwoComeOutSwapped` | src/log/log_buffer.cpp:55-135 | two messages with one time, or with the clock set back between them: a run that emits the second first |
| `LogBufferRuns.FlushedIsEmpty` | src/log/log.cpp:208-223 | once a setter's flush is over, queues and drained list are empty until it lets go, and all that was added is out |
| `LogBufferRuns.StepBarrier` | src/log/log.cpp:344-358 | no step lets a message be emitted under newer attributes |
| `LogBufferImpl.Buffer.AddLogBuffer` | src/log/log_buffer.cpp:55-74 | the message goes to the end of the queue of its thread's number modulo ten, under the current attributes, and nothing else changes |
| `LogBufferImpl.Buffer.DrainQueues` | src/log/log_buffer.cpp:105-114 | the loop is ten drain steps and leaves all queues empty |
| `LogBufferImpl.Buffer.EmitPending` | src/log/log_buffer.cpp:122-133 | the loop emits the drained messages in order, one step each |
| `LogBufferImpl.Buffer.Flush` | src/log/log_buffer.cpp:90-135 | a whole pass is a run of the machine and ends with everything empty |
| `LogBufferImpl.Buffer.SetAttributes` | src/log/log.cpp:296-310 | a setter is such a run around its change |
| `CityMix.Rotate32Inverse` | src/utils/city_hash.cpp:140-143 | every rotation is undone by the opposite one |
| `CityMix.ShiftMixInverse` | src/utils/city_hash.cpp:265-267 | ShiftMix is its own inverse |
| `CityMix.TimesInverse` | src/utils/city_hash.cpp:130-156 | a multiplier is undone by its inverse modulo 2^32 |
| `CityMix.ProgramInverse` | src/utils/city_hash.cpp:130-156 | any sequence of the mixing steps can be undone |
| `CityMix.ProgramInjective` | src/utils/city_hash.cpp:130-156 | so it is a permutation of the words |
| `CityHash32.FmixInjective` | src/utils/city_hash.cpp:130-138 | fmix is a permutation |
| `CityHash32.MurInjective` | src/utils/city_hash.cpp:148-156 | Mur is a permutation in each argument |
| `CityHash32.Hash32Len0to4` | src/utils/city_hash.cpp:170-179 | the byte loop computes the fold and reads each byte and no other |
| `CityHash32.Hash32Len5to12` | src/utils/city_hash.cpp:181-187 | three overlapping words cover the input, and no byte outside it |
| `CityHash32.Hash32Len13to24` | src/utils/city_hash.cpp:158-168 | six overlapping words cover the input, and no byte outside it |
| `CityHash32.CityHash32` | src/utils/city_hash.cpp:189-256 | for every length the hash is the specified one, every byte is read and none outside |
| `CityHash32.BlockPermutes` | src/utils/city_hash.cpp:218-244 | for given words a block permutes the 96 bits of state |
| `CityHash32.OneWordOf24` | src/utils/city_hash.cpp:158-168 | 24-byte inputs that differ in one of their six words never collide |
| `CityHash32.OneWordOf12` | src/utils/city_hash.cpp:181-187 | 12-byte inputs that differ in one of their three words never collide |
| `CityHash32.FirstWordOf8to12` | src/utils/city_hash.cpp:181-187 | inputs of one length from 8 to 12 that differ only in their first four bytes never collide |
| `CityHash32.OneWordOfABlock` | src/utils/city_hash.cpp:189-256 | for every length over 24, inputs that differ only in the third or fourth word of a block clear of the last twenty bytes never collide |
| `CityKnown.FmixIs` | src/utils/city_hash.cpp:130-138 | the program of fmix is its five operations |
| `CityKnown.MurIs` | src/utils/city_hash.cpp:148-156 | and that of Mur its operations |
| `CityKnown.KnownEmpty` | src/utils/city_hash.cpp:170-179 | the hash of no bytes |
| `CityKnown.KnownByte` | src/utils/city_hash.cpp:170-179 | the hash of one byte above 127, which counts as negative |
| `CityKnown.KnownFive` | src/utils/city_hash.cpp:181-187 | the hash of five bytes |
| `CityKnown.KnownFifteen` | src/utils/city_hash.cpp:158-168 | the hash of fifteen |
| `CityKnown.KnownLong` | src/utils/city_hash.cpp:189-256 | and of 25: the last twenty bytes, one block and the end |
| `CityMix64.OddInverse` | src/utils/city_hash.cpp:273-281 | every odd multiplier has an inverse modulo 2^64 |
| `CityMix64.HashMulInjective` | src/utils/city_hash.cpp:273-281 | with an odd multiplier HashLen16 is a permutation of its first word, for every second one |
| `CityMix64.Mix4to7Injective` | src/utils/city_hash.cpp:292-296 | for a length and last word, so is the hash of four to seven bytes of their first word |
| `CityHash64.SameEndOf4to7` | src/utils/city_hash.cpp:283-306 | inputs of four to seven bytes of one length and with the same last four bytes never collide |
| `CityHash64.HashLen0to16` | src/utils/city_hash.cpp:283-306 | the words taken at each length cover the input and nothing else |
| `CityHash64.HashLen17to64` | src/utils/city_hash.cpp:310-364 | likewise for 17 to 64 bytes |
| `CityHash64.CityHash64` | src/utils/city_hash.cpp:366-402 | for every length every byte is read and none outside, and each mixing step gets the words the code gives it |
| `CityHash128.CityMurmur` | src/utils/city_hash.cpp:415-443 | the same for CityMurmur |
| `CityHash128.CityHash128WithSeed` | src/utils/city_hash.cpp:445-506 | the same for the seeded 128-bit hash, its backward tail included |
| `CityHash128.CityHash128` | src/utils/city_hash.cpp:508-513 | the same for the 128-bit hash |
| `CityWords.Load64Halves` | src/utils/city_hash.cpp:111-117 | a 64-bit load is two 32-bit ones, the second in the upper half |
| `CityWords.Words64Long` | src/utils/city_hash.cpp:366-402 | over 64 bytes the hash is the end of as many blocks, each once and in order, as leave one to 64 bytes, from a start on the last 64 bytes and the first word |
| `CityWords.WordsMurmur` | src/utils/city_hash.cpp:415-443 | CityMurmur over 16 bytes likewise, in pairs of words |
| `CityWords.TurnsAreBlocks` | src/utils/city_hash.cpp:386-399 | the block loop is the blocks counted from the first |
| `CityWords.TailTurnsAreChunks` | src/utils/city_hash.cpp:488-499 | the tail loop is chunks of 32 bytes counted backwards from the end |
| `CityWords.Words128Long` | src/utils/city_hash.cpp:445-506 | from 128 bytes on: a start on three words, pairs of blocks, and then that tail |
| `CityKnown64.KnownHashLen16` | src/utils/city_hash.cpp:269-281 | HashLen16 of two words, worked out |
| `CityKnown64.Known17to32` | src/utils/city_hash.cpp:310-318 | the mixing for 17 to 32 bytes at one place |
| `CityKnown64.Known33to64` | src/utils/city_hash.cpp:345-364 | and for 33 to 64 |
| `CityKnown64.KnownTurn` | src/utils/city_hash.cpp:388-399 | and of a block |

## Left out

- ReplyCacheRuns.EveryRunSafe: each section under a bucket's lock is one step. drc_mem_usage is changed under different bucket locks in the code, and the races between them are not modelled.
- ReplyCacheTree.FindOrInsert: the tree is an ordered binary tree, without the library's red-black rotations.
- RequestChecksum.CacheCsum: csum_partial is any function of a chunk and the sum so far, and in RequestChecksum.SplitDoesNotMatter any that adds up 16-bit words in ones' complement, where sums are compared modulo 65535. hash_32 and int_sqrt are abstract too (a hash known only to stay in range), and jiffies is an unbounded clock.
- Reply cache statistics and the slab: counters that are only printed, and allocation.
- IoWork.HandlerAccounting: io_work wraps where the code's signed addition at the ends of its range is undefined in C++. The branch of fsal_start_io for a state is not modelled, since the handlers pass none.
- NFS handlers other than WRITE, COMMIT and READDIRPLUS, and what system calls do: their outcomes are arbitrary, and a directory is a sequence of records.
- ReaddirPlus.ReadEntries: reads of a broken directory fail from some record on, for good; a failure that comes and goes is not modelled.
- ReaddirPlus.FillPage: byte offsets into the record buffer are positions in a sequence of records whose sizes add up.
- NfsXdr.Fattr3Lawful, NfsXdr.Sattr3Lawful, NfsXdr.CreateArgsLawful, NfsXdr.CreateResLawful, NfsXdr.DirListLawful: codecs of structures are modelled on values, and the stream takes a whole structure as one step; the fields that a failed decode has already written, and the lookahead flag of CREATE, are not modelled.
- MountXdr.EncodeNodes, MountXdr.EncodeExports: the XDR_FREE direction is left out; it follows a link inside a node already released.
- MountXdr.DecodeNodes, MountXdr.DecodeExports: nothing is said of the half-built list of a failed decode.
- Lru.Cache.Add: requires a capacity other than zero, with which the code would take the back of an empty list; a negative one never evicts.
- LogBufferRuns.EveryRun: the counters and the notification of the output thread are left out, as passes may start at any time; formatting and writing a message is one step.
- CityHash64.CityHash64, CityHash128.CityHash128: proved to feed their mixing the right words; the mixing arithmetic itself is a definition (`City`), of which ShiftMix and HashLen16, in its first word, are proved to be permutations and every function is worked out at one place (`CityKnown64`). Loads are little-endian, the order that the code produces on every machine.
- The CRC variants of CityHash, bin_log, the smart pointers and the object handle pool, start-up, configuration and sockets.
