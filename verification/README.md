# Verification of the CRC engine, the shared-memory cache proxy and the distributed file service

This project models the three systems of the repository that have the most state or
arithmetic, and proves what they promise. `dafny verify dfyconfig.toml` checks all of it.

**CRC engine and file checksum.** A word of the C type is a sequence of bits, lowest first; type
width, CRC width, polynomial, initial value, final XOR and both reflections are all free. The loops
of `CRC.h` (`Crc.dfy`, `CrcTable.dfy`) are proved against one bit-serial register (`CrcModel.dfy`,
`Division.dfy`), and the register is proved to be polynomial division over GF(2)
(`Polynomials.dfy`, `CrcTheorems.dfy`): a word is what the engine computes if and only if it is
the remainder of data * x^W + start * x^(8n) by x^W + polynomial; and so for the finished checksum.
`BurstErrors.dfy` says exactly
which parameter sets detect every burst as wide as the CRC, `AppendCondition.dfy` which ones allow
multi-part checksums. `Crc32.dfy` holds CRC-32 and `FileChecksum.dfy` follows
`dfs_file_checksum` through its reused buffer and says what it really feeds to the engine.

**Shared-memory transfer.** `Transfer.dfy` is one handler and one cache worker on one segment, with
three semaphores and byte-by-byte copies; `ProxyCache.dfy` is any number of handlers and workers
around a pool, a mutex, a condition variable, a message queue, a boss and a counted request queue;
`ProxyRuns.dfy` proves safety over every interleaving, freedom from deadlock, and that once
requests stop arriving all of them are answered, with the right bytes, in a bounded number of
steps. `Steque.dfy` is the linked list under both queues.

**Distributed file service, part 2.** `DfsTransfer.dfy` and `DfsNodes.dfy` are the chunked store and
fetch, the lock table and the listing, as two classes. `DfsSync.dfy` is the synchronization pass of
`HandleCallbackList`, with the exact condition under which it brings the two sides into step.
`DfsLocks.dfy` and `DfsLockRuns.dfy` are the same server calls cut into interleaved steps.
`CallData.dfy`, `CallDataRuns.dfy` and `CallDataReplies.dfy` are the asynchronous listeners, their threads,
the queue of tags and the completion queue.

## Where the code and its documentation differ

The model follows the code.

- `CRC.h:559-564` says that `UndoFinalize` after `Finalize`, and the other way round, always gives the
  value back. `CrcTheorems.UndoAfterFinalize` and `CrcTheorems.FinalizeAfterUndo` say exactly when.
- `CRC.h:444` offers multi-part CRCs for all parameter sets. With input reflection and constants that
  have bits above the width they can be wrong. `AppendCondition.AppendExactly` says exactly when, for
  every width: each eight-bit slice of those bits has to be a multiple of the generator. From a width
  of eight bits on that means that there are no such bits (`AppendCondition.AppendExactlyInMask`).
- `dfs-utils.h:87` feeds the whole buffer after a short last read, so the checksum of a file covers
  stale bytes of the chunk before. It is the CRC-32 of the file itself exactly when the buffer divides
  the size and the chunk count fits in 32 bits (`FileChecksum.FedIsFile`); `FileChecksum.FiveIsNotItsCrc`
  is a file of five bytes for which it is not. A file and the same file extended by its stale bytes are
  fed alike exactly when the buffer chosen for the longer one divides its size
  (`FileChecksum.StaleTailCollision`), as it always does from 4096 bytes on
  (`FileChecksum.LargeFilesCollide`). Beyond 2^32 - 1 chunks the count wraps and only a beginning of the
  file is covered.
- `shm_create` sets a segment up again without asking whether the worker of its last use has taken its
  last token. That worker can still finish exactly when it has (`Transfer.ResetSparesWorkerExactly`), and
  for every non-empty file some interleaving gets there before it has (`Transfer.ResetStrandsWorker`).
- A store whose stream breaks off without having been seen as cancelled gives its lock back and leaves
  part of its file behind: `DfsLockRuns.UnlockedFile`, `DfsLockRuns.CutLeavesBeginning`.
- `dfslib-clientnode-p2.cpp:516` takes the local checksum of the bare file name instead of the path under
  the mount point. `DfsSync.ConvergesExactly` is about the code as it is, for any working directory;
  `DfsSync.IntendedPassConverges` is the case in which the checksum is that of the mounted file, and
  `DfsSync.StaleCopyHidden` shows what can go wrong otherwise.
- `Fetch` promises ALREADY_EXISTS for an unchanged file and reports NOT_FOUND, and a cancelled fetch
  removes the local copy: `DfsNodes.Client.Fetch`.
- `deleteFile` removes the file before it asks for the lock; streams into a removed file go on without a
  name. The lock machine has this order.

## Model

| member | source | states |
|---|---|---|
| Crc.Reflect | pr4-gRPC/part2/src/CRC.h:519-530 | the loop leaves the low bits of the value read backwards and no other bit |
| Crc.ReflectedByte | pr4-gRPC/part2/src/CRC.h:619-638 | XORing a byte in and shifting eight times right is eight steps of the bit-serial register on that byte, lowest bit first |
| Crc.UnreflectedByte | pr4-gRPC/part2/src/CRC.h:649-699 | the same for the left-shifting loops of both widths, highest bit first, whatever leftovers sit above the register |
| Crc.CalculateRemainder | pr4-gRPC/part2/src/CRC.h:601-705 | all three branches compute the register over the whole data, from any start value |
| Crc.Finalize | pr4-gRPC/part2/src/CRC.h:542-554 | the finalized value: low bits turned if asked, XORed, masked |
| Crc.UndoFinalize | pr4-gRPC/part2/src/CRC.h:574-588 | the un-finalized value, with the bits above the width that the code leaves behind |
| Crc.Calculate | pr4-gRPC/part2/src/CRC.h:434-441 | the checksum of the data |
| Crc.CalculateFrom | pr4-gRPC/part2/src/CRC.h:454-463 | the continuation of an earlier CRC over more data |
| CrcTable.RemainderOfByte | pr4-gRPC/part2/src/CRC.h:405-417 | the entry of a byte is its masked remainder, moved up for narrow CRCs |
| CrcTable.Table.InitTable | pr4-gRPC/part2/src/CRC.h:390-422 | the do/while with its wrapping counter fills all 256 entries |
| CrcTable.StepReflected | pr4-gRPC/part2/src/CRC.h:722-738 | one lookup in the reflected loop equals eight register steps |
| CrcTable.StepWide | pr4-gRPC/part2/src/CRC.h:739-748 | one lookup in the wide loop equals eight register steps on the low bits |
| CrcTable.StepNarrow | pr4-gRPC/part2/src/CRC.h:749-763 | one lookup in the narrow loop equals eight register steps |
| CrcTable.Table.CalculateRemainder | pr4-gRPC/part2/src/CRC.h:718-766 | the table-driven remainder is the bit-by-bit one, in all three branches, given only a filled table |
| CrcTable.Table.Calculate | pr4-gRPC/part2/src/CRC.h:475-484 | the table computes the same checksum |
| CrcTable.Table.CalculateFrom | pr4-gRPC/part2/src/CRC.h:498-509 | the table computes the same continuation |
| CrcModel.RemainderIsRegister | pr4-gRPC/part2/src/CRC.h:617-702 | reflected, wide and narrow branches are one register of exactly W bits; the remainder stays within the mask |
| Division.DivideLinear | pr4-gRPC/part2/src/CRC.h:617-638 | the register is GF(2)-linear in start value and data together |
| Division.Preload | pr4-gRPC/part2/src/CRC.h:622-651 | XORing bits in ahead of time and feeding zeros is the same as feeding the bits |
| Division.ByteAtATime | pr4-gRPC/part2/src/CRC.h:724-747 | eight steps are a shift XORed with the remainder of the top byte alone |
| Division.DivideEmbed | pr4-gRPC/part2/src/CRC.h:676-701 | a register scaled by a power of x, as narrow and reflected CRCs use it, gives the scaled remainder |
| Division.DivideInjective | pr4-gRPC/part2/src/CRC.h:617-638 | with a constant term in the polynomial no two registers are merged by the same data |
| Polynomials.DivideIsRemainder | pr4-gRPC/part2/src/CRC.h:601-705 | the register ends as a remainder of the dividend polynomial, with an explicit quotient |
| Polynomials.RemainderUnique | pr4-gRPC/part2/src/CRC.h:601-705 | a polynomial has only one remainder of lower degree than a monic divisor |
| CrcTheorems.RemainderIsPolynomialRemainder | pr4-gRPC/part2/src/CRC.h:601-705 | a word is the engine's remainder if and only if it is the remainder of data * x^W + start * x^(8n) by x^W + polynomial |
| CrcTheorems.ReflectedInvolution | pr4-gRPC/part2/src/CRC.h:519-530 | reflecting twice gives the value back exactly if it lies within the mask |
| CrcTheorems.ReflectedIsMirror | pr4-gRPC/part2/src/CRC.h:617-668 | the reflected algorithm is the reflection of the unreflected one on bit-reversed bytes from the reflected start value |
| CrcTheorems.UndoAfterFinalize | pr4-gRPC/part2/src/CRC.h:556-588 | UndoFinalize gives the remainder back exactly if its bits above the width are those that come back |
| CrcTheorems.FinalizeAfterUndo | pr4-gRPC/part2/src/CRC.h:556-588 | Finalize gives the CRC back exactly if the CRC lies within the mask |
| CrcTheorems.ChecksumIsPolynomialRemainder | pr4-gRPC/part2/src/CRC.h:434-441 | a checksum is the remainder of the data as a polynomial, reversed if and only if reflectOutput is set, XORed with the final XOR, and nothing above the width; it is so for no other word |
| CrcTheorems.RemainderConcat | pr4-gRPC/part2/src/CRC.h:601-705 | the remainder of two pieces of data is the remainder of the second from the remainder of the first |
| CrcTheorems.AppendToChecksum | pr4-gRPC/part2/src/CRC.h:442-463 | a checksum continued over more data is the checksum of both together |
| CrcTheorems.AppendToContinued | pr4-gRPC/part2/src/CRC.h:442-463 | the same for a value that is itself a continuation of any value |
| AppendCondition.HighBitsMove | pr4-gRPC/part2/src/CRC.h:617-638 | above the width a reflected remainder is the start value moved down by one bit for each bit of data, whatever the data |
| AppendCondition.NeverShowsExactly | pr4-gRPC/part2/src/CRC.h:617-638 | a difference of start values above the width never reaches the low bits if and only if one zero byte clears each of its eight-bit slices |
| AppendCondition.VanishesIsDivisibility | pr4-gRPC/part2/src/CRC.h:617-638 | a zero byte clears a slice if and only if the generator divides it |
| AppendCondition.SlicesVanishFinitely | pr4-gRPC/part2/src/CRC.h:442-463 | the condition on a constant is a check of the bytes that its type has |
| AppendCondition.AppendOnce | pr4-gRPC/part2/src/CRC.h:442-463 | one continuation is right if and only if what the round trip through the CRC lost does not show after its bytes |
| AppendCondition.AppendExactly | pr4-gRPC/part2/src/CRC.h:442-463 | for every width, appending is right for all data if and only if, with input reflection, the generator divides every eight-bit slice of the initial value and of what UndoFinalize leaves above the width |
| AppendCondition.AppendExactlyInMask | pr4-gRPC/part2/src/CRC.h:442-463 | from a width of eight bits on: if and only if those constants have no bits above the width |
| BurstErrors.ChecksumsDifferByRegister | pr4-gRPC/part2/src/CRC.h:434-441 | two inputs of one length collide exactly if the register over their difference ends at zero |
| BurstErrors.BurstDetected | pr4-gRPC/part2/src/CRC.h:434-441 | inputs that differ only within W consecutive bits and have one checksum are equal |
| BurstErrors.BlindSpotMissed | pr4-gRPC/part2/src/CRC.h:434-441 | without a constant term some change of at most W consecutive bits goes unnoticed |
| BurstErrors.BurstsDetectedExactlyWithConstantTerm | pr4-gRPC/part2/src/CRC.h:434-441 | every such burst is detected if and only if the polynomial's low bit is set |
| Crc32.Crc32InHex | pr4-gRPC/part2/src/CRC.h:1553-1569 | the three words are the hexadecimal constants of the source, both reflections are on, and type and CRC have 32 bits |
| Crc32.Crc32IsComplementedRemainder | pr4-gRPC/part2/src/CRC.h:1553-1569 | for all data the CRC-32 is, bit by bit, the complement of the reversed remainder by x^32 + 0x04C11DB7, and of no other word |
| FileChecksum.Crc32Constants | pr4-gRPC/part2/src/CRC.h:1553-1569 | CRC_32 meets what appending and burst detection need, and a running value of 0 stands for its initial value |
| FileChecksum.BufferSize | pr4-gRPC/part2/src/dfs-utils.h:55-66 | one byte below two bytes, half the size below 4096 and 4096 from there on; never empty nor larger than the file |
| FileChecksum.FedIsFileAndTail | pr4-gRPC/part2/src/dfs-utils.h:55-94 | the engine is fed the file and then the stale bytes of its last full chunk, if and only if the chunk count fits in 32 bits |
| FileChecksum.LastChunk | pr4-gRPC/part2/src/dfs-utils.h:77-92 | a partial chunk is the last one and never the first, so no uninitialised byte is read |
| FileChecksum.Read | pr4-gRPC/part2/src/dfs-utils.h:78-85 | a short read replaces the beginning of the buffer and leaves the rest |
| FileChecksum.ReadChunk | pr4-gRPC/part2/src/dfs-utils.h:77-92 | each round keeps the account of what has been fed so far |
| FileChecksum.FeedChunks | pr4-gRPC/part2/src/dfs-utils.h:77-92 | the running CRC, seeded with 0, is the one-shot CRC-32 of everything fed |
| FileChecksum.Compute | pr4-gRPC/part2/src/dfs-utils.h:38-96 | the function returns 0 for a missing or unreadable path and the CRC-32 of the fed bytes otherwise |
| FileChecksum.FedIsFile | pr4-gRPC/part2/src/dfs-utils.h:55-94 | the checksum is taken of the file itself if and only if the buffer divides its size and the count fits in 32 bits |
| FileChecksum.FedWhenHalved | pr4-gRPC/part2/src/dfs-utils.h:55-94 | a file under 4096 bytes of even size, or of at most three bytes, is fed as it is |
| FileChecksum.FedWhenOdd | pr4-gRPC/part2/src/dfs-utils.h:55-94 | a file of odd size n from 5 to 4095 is fed with its bytes from (n + 1) / 2 to n - 1 after it |
| FileChecksum.FedWhenLarge | pr4-gRPC/part2/src/dfs-utils.h:55-94 | from 4096 bytes on, the file is fed with the rest of its last full 4096 bytes after it |
| FileChecksum.FedWhenWrapped | pr4-gRPC/part2/src/dfs-utils.h:68-92 | beyond 2^32 - 1 chunks only a beginning of the file is fed, as long as the wrapped count says |
| FileChecksum.StaleTailCollision | pr4-gRPC/part2/src/dfs-utils.h:55-92 | a file and the same file extended by its stale tail are fed alike if and only if the buffer chosen for the longer one divides its size, and then their checksums are equal |
| FileChecksum.LargeFilesCollide | pr4-gRPC/part2/src/dfs-utils.h:55-92 | every file of 4096 bytes or more whose size is no multiple of 4096 collides with itself extended by its stale tail |
| FileChecksum.FiveIsNotItsCrc | pr4-gRPC/part2/src/dfs-utils.h:55-92 | the checksum of one file of five bytes is not its CRC-32 |
| FileChecksum.FileBurstDetected | pr4-gRPC/part2/src/dfs-utils.h:38-96 | a burst of at most 32 bits that spares the bytes fed twice changes the file's checksum |
| Steque.Steque.Enqueue | pr3-SharedMemoryIPC/cache/steque.c:26-40 | the item is appended and the list stays a chain of N distinct nodes ending at back |
| Steque.Steque.Push | pr3-SharedMemoryIPC/cache/steque.c:42-54 | the item is put in front |
| Steque.Steque.Pop | pr3-SharedMemoryIPC/cache/steque.c:64-84 | the first item is taken off; underflow exactly on an empty list |
| Steque.Steque.Size | pr3-SharedMemoryIPC/cache/steque.c:56-58 | N is the number of items |
| Steque.Steque.IsEmpty | pr3-SharedMemoryIPC/cache/steque.c:60-62 | true exactly when there are no items |
| Steque.Steque.Front | pr3-SharedMemoryIPC/cache/steque.c:96-104 | the first item, left in place; underflow exactly on an empty list |
| Steque.Steque.Cycle | pr3-SharedMemoryIPC/cache/steque.c:86-94 | rotation by one, the one-node self-link included |
| Steque.Steque.Destroy | pr3-SharedMemoryIPC/cache/steque.c:106-109 | terminates with an empty list |
| Steque.Steque.Follow | pr3-SharedMemoryIPC/cache/steque.c:26-94 | following next from the front visits N nodes, the last being back, and stops |
| Steque.RotatedSplits | pr3-SharedMemoryIPC/cache/steque.c:86-94 | k cycles move the first k items to the end |
| Steque.FullCycleIsIdentity | pr3-SharedMemoryIPC/cache/steque.c:86-94 | N cycles are the identity |
| Transfer.CreatedInv | pr3-SharedMemoryIPC/cache/shm_channel.c:10-25 | a freshly created segment satisfies the invariant, whatever bytes lie in its buffer |
| Transfer.HandlerStepKeepsInv | pr3-SharedMemoryIPC/cache/handle_with_cache.c:31-62 | every step of the handler keeps the invariant of the segment |
| Transfer.WorkerStepKeepsInv | pr3-SharedMemoryIPC/cache/simplecached.c:64-93 | every step of the worker keeps it |
| Transfer.BufferExclusive | pr3-SharedMemoryIPC/cache/handle_with_cache.c:45-62 | handler and worker are never in the buffer together |
| Transfer.ChunksInOrder | pr3-SharedMemoryIPC/cache/simplecached.c:79-92 | no chunk is overwritten before it is read or read twice; what was sent is a prefix of the file |
| Transfer.FinishedDelivers | pr3-SharedMemoryIPC/cache/handle_with_cache.c:31-69 | a finished handler has sent the whole file, and reports nothing found exactly for a missing or empty one |
| Transfer.LoopsRunOncePerChunk | pr3-SharedMemoryIPC/cache/handle_with_cache.c:45-62 | both loops run ceil(L / 3499) times |
| Transfer.NeverStuck | pr3-SharedMemoryIPC/cache/simplecached.c:64-93 | from the worker's arrival on, one side can move until both have finished |
| Transfer.WorkerFinishesAlone | pr3-SharedMemoryIPC/cache/simplecached.c:79-93 | a worker whose handler has finished needs nobody |
| Transfer.WorkerAfterHandler | pr3-SharedMemoryIPC/cache/simplecached.c:87-92 | with a finished handler the worker has its last token still to take if and only if semWriter is 1, and has delivered everything otherwise |
| Transfer.ResetSparesWorkerExactly | pr3-SharedMemoryIPC/cache/shm_channel.c:19-23 | after setting the segment up again the worker of its last use can finish by its own steps if and only if semWriter was 0 |
| Transfer.ResetStrandsWorker | pr3-SharedMemoryIPC/cache/shm_channel.c:19-23 | for every non-empty file some interleaving ends with a finished handler and a worker that setting the segment up again would strand |
| Transfer.HandlerStepDecreases | pr3-SharedMemoryIPC/cache/handle_with_cache.c:31-62 | every step of the handler lowers the measure of bytes left and program counters |
| Transfer.WorkerStepDecreases | pr3-SharedMemoryIPC/cache/simplecached.c:64-93 | every step of the worker lowers it |
| ProxyCache.StepKeepsInv | pr3-SharedMemoryIPC/cache/handle_with_cache.c:9-70 | every step of every thread keeps the invariant of mutex, pool, condition variable, segments, requests, queue, workers and answers |
| ProxyRuns.RunKeepsInv | pr3-SharedMemoryIPC/cache/webproxy.c:146-153 | it holds in every state of every run from start-up |
| ProxyRuns.StartUp | pr3-SharedMemoryIPC/cache/webproxy.c:146-153 | there is a start-up state for any number of handlers, segments and workers |
| ProxyRuns.MessagesBounded | pr3-SharedMemoryIPC/cache/shm_channel.c:96-104 | the message queue never holds more than ten messages |
| ProxyRuns.AnswersAreRight | pr3-SharedMemoryIPC/cache/handle_with_cache.c:31-69 | every answer of every run is the bytes that the cache holds under its path, with their number, and empty with length 0 for a path that is not there |
| ProxyRuns.RequestsInOrder | pr3-SharedMemoryIPC/cache/simplecached.c:32-50 | workers take requests in the order in which they were posted |
| ProxyRuns.PopNeverUnderflows | pr3-SharedMemoryIPC/cache/simplecached.c:46-50 | a worker past sem_wait always finds a request |
| ProxyRuns.SegmentsPartitioned | pr3-SharedMemoryIPC/cache/handle_with_cache.c:18-70 | each segment is free once or held by exactly one handler |
| ProxyRuns.NoLostWakeup | pr3-SharedMemoryIPC/cache/handle_with_cache.c:18-67 | while a handler sleeps, free segments are at most as many as handlers about to look or to signal |
| ProxyRuns.SegmentsAreSafe | pr3-SharedMemoryIPC/cache/handle_with_cache.c:45-62 | in every segment of every reachable state the buffer is used by one side and the bytes sent are a prefix of the file |
| ProxyRuns.NoDeadlock | pr3-SharedMemoryIPC/cache/handle_with_cache.c:9-70 | while any handler is at work some thread can take a step |
| ProxyRuns.StepDecreases | pr3-SharedMemoryIPC/cache/handle_with_cache.c:9-70 | every step but an arrival or a spurious wakeup leaves strictly less to do |
| ProxyRuns.RunCountsAnswers | pr3-SharedMemoryIPC/cache/handle_with_cache.c:9-70 | for every path, the answers given and the requests in hand are together the requests that have arrived |
| ProxyRuns.EveryRequestAnswered | pr3-SharedMemoryIPC/cache/handle_with_cache.c:9-70 | once requests stop, a bounded number of steps remains, and where none is left every path has been answered as often as it was requested, each time with the cached bytes or with none |
| ProxyRuns.RunsToRest | pr3-SharedMemoryIPC/cache/handle_with_cache.c:9-70 | from every reachable state the threads can, without anything from outside, reach rest with every request answered |
| DfsTransfer.ChunkCount | pr4-gRPC/part2/dfslib-clientnode-p2.cpp:151-170 | there are ceil(n / 4000) chunks |
| DfsTransfer.ChunkAt | pr4-gRPC/part2/dfslib-servernode-p2.cpp:304-331 | chunk i holds the bytes from 4000 i on |
| DfsTransfer.ChunkSizes | pr4-gRPC/part2/dfslib-servernode-p2.cpp:304-331 | no chunk is empty or over 4000 bytes, and all but the last are full |
| DfsTransfer.JoinChunks | pr4-gRPC/part2/dfslib-clientnode-p2.cpp:226-245 | the chunks put together are the file |
| DfsTransfer.WrittenBytes | pr4-gRPC/part2/dfslib-servernode-p2.cpp:278-280 | a write at an offset changes exactly the bytes it covers, and fills a gap with zeros |
| DfsTransfer.SendChunks | pr4-gRPC/part2/dfslib-servernode-p2.cpp:304-331 | the sending loop, with its clipped read length and one buffer, sends exactly the chunks, or those before the round that finds it cancelled |
| DfsNodes.Server.Lock | pr4-gRPC/part2/dfslib-servernode-p2.cpp:382-388 | the lock is given to its holder or if free, and refused otherwise without a trace |
| DfsNodes.Server.Unlock | pr4-gRPC/part2/dfslib-servernode-p2.cpp:390-396 | the lock is gone; an absent one is reported |
| DfsNodes.Server.StoreFile | pr4-gRPC/part2/dfslib-servernode-p2.cpp:255-285 | for any messages: refused, unchanged, or replaced by the chunks written at running offsets; a cancelled store leaves the chunks so far and keeps the lock |
| DfsNodes.Server.FetchFile | pr4-gRPC/part2/dfslib-servernode-p2.cpp:288-334 | an empty message for a missing or equal file, the chunks otherwise, cut short when cancelled |
| DfsNodes.Server.DeleteFile | pr4-gRPC/part2/dfslib-servernode-p2.cpp:405-419 | unless cancelled, the file is gone whatever the lock says, and the lock is given back if it could be taken |
| DfsNodes.Server.ProcessCallback | pr4-gRPC/part2/dfslib-servernode-p2.cpp:192-198 | the listing has every file with its checksum |
| DfsNodes.Client.Store | pr4-gRPC/part2/dfslib-clientnode-p2.cpp:137-187 | the server ends with the client's file byte for byte, or untouched when it is empty, locked by another or of equal checksum |
| DfsNodes.Client.Receive | pr4-gRPC/part2/dfslib-clientnode-p2.cpp:226-266 | for any messages: the chunks before the first empty or equal one are written; if there is none, the status decides between keeping and removing the file |
| DfsNodes.Client.Fetch | pr4-gRPC/part2/dfslib-clientnode-p2.cpp:214-267 | the client ends with the server's file byte for byte, untouched when it is missing, empty or of equal checksum, or without the file when cancelled |
| DfsNodes.Client.Delete | pr4-gRPC/part2/dfslib-clientnode-p2.cpp:292-316 | the local copy is removed exactly when the server reports success |
| DfsSync.SyncOne | pr4-gRPC/part2/dfslib-clientnode-p2.cpp:507-528 | one listed name is fetched, stored or left as its decision says; a stored name is unlocked afterwards, every other entry of the lock table is as it was |
| DfsSync.HandleCallbackList | pr4-gRPC/part2/dfslib-clientnode-p2.cpp:504-548 | in whatever order the names come, each ends as it would by itself, unlisted names are gone from the client, stored names are unlocked and no lock appears or changes hands |
| DfsSync.ConvergesExactly | pr4-gRPC/part2/dfslib-clientnode-p2.cpp:504-548 | after a pass the client has exactly the server's names and checksums if and only if every listed name was ready for it |
| DfsSync.InStepIsStable | pr4-gRPC/part2/dfslib-clientnode-p2.cpp:504-548 | once in step, a further pass changes no file on either side, whatever the times and the working directory |
| DfsSync.IntendedPassConverges | pr4-gRPC/part2/dfslib-clientnode-p2.cpp:504-548 | with the checksum of the mounted file, free locks and non-empty files of non-zero checksum, every pass converges and the later version wins |
| DfsSync.NextClientSyncable | pr4-gRPC/part2/dfslib-clientnode-p2.cpp:504-548 | a pass over free locks leaves them free, and the server ready for the pass of any other client |
| DfsSync.ComparedIsPathCrc | pr4-gRPC/part2/dfslib-servernode-p2.cpp:270-271 | what is compared is what dfs_file_checksum returns for the path, 0 if there is no file |
| DfsSync.StaleCopyHidden | pr4-gRPC/part2/dfslib-clientnode-p2.cpp:516-518 | a working directory that holds the server's bytes hides a stale copy from every pass |
| DfsSync.InStepCatchesBursts | pr4-gRPC/part2/dfslib-clientnode-p2.cpp:516-518 | with the real checksum, files in step that differ by a burst of at most 32 bits outside the stale bytes are equal |
| DfsLocks.WriteAdvances | pr4-gRPC/part2/dfslib-servernode-p2.cpp:278-280 | writing the next chunk at the running offset extends the written beginning of the image |
| DfsLocks.StepKeeps | pr4-gRPC/part2/dfslib-servernode-p2.cpp:255-419 | every step of a store, a delete or a lock request keeps the invariant of locks, streams and files |
| DfsLockRuns.OneWriter | pr4-gRPC/part2/dfslib-servernode-p2.cpp:255-285 | over every run no two clients are inside the locked part of a store or delete of one file |
| DfsLockRuns.UnlockedIsWhole | pr4-gRPC/part2/dfslib-servernode-p2.cpp:255-285 | while streams end only when done or cancelled, an unlocked file has the checksum of a whole image, one that was there or one that a store sent |
| DfsLockRuns.UnlockedIsExact | pr4-gRPC/part2/dfslib-servernode-p2.cpp:255-285 | an unlocked file that no interrupted store left behind is such an image byte for byte |
| DfsLockRuns.UnlockedFile | pr4-gRPC/part2/dfslib-servernode-p2.cpp:255-285 | over every run an unlocked file has the checksum of a whole image, or its last interruption was a broken-off stream and it is a proper beginning of an image |
| DfsLockRuns.RunRecordsCut | pr4-gRPC/part2/dfslib-servernode-p2.cpp:261-284 | what the state records as left by a broken-off stream is what the history of steps says was last interrupted that way |
| DfsLockRuns.CancelledStaysLocked | pr4-gRPC/part2/dfslib-servernode-p2.cpp:262-264 | what a cancelled store leaves behind is a proper beginning of an image and keeps its lock |
| DfsLockRuns.StoppedStoreStops | pr4-gRPC/part2/dfslib-servernode-p2.cpp:261-284 | from any state, a store that stops after j chunks leaves those bytes, with its lock kept when cancelled and given back when broken off |
| DfsLockRuns.CutLeavesBeginning | pr4-gRPC/part2/dfslib-servernode-p2.cpp:261-284 | from any state every store of more than one chunk can break off after any of its chunks but the last and leave that part unlocked |
| DfsLockRuns.StoreAloneStores | pr4-gRPC/part2/dfslib-servernode-p2.cpp:255-285 | taken without interruption, the steps of a store do what the sequential storeFile does |
| DfsLockRuns.StoppedBeforeFirst | pr4-gRPC/part2/dfslib-servernode-p2.cpp:261-284 | cancelled or broken off before its first message, a store leaves files and locks alone |
| DfsLockRuns.RequestLockTakes | pr4-gRPC/part2/dfslib-servernode-p2.cpp:378-388 | the requester holds the lock afterwards if and only if it was free or its own, and nothing else changes |
| DfsLockRuns.DeleteAloneDeletes | pr4-gRPC/part2/dfslib-servernode-p2.cpp:405-419 | taken without interruption, the steps of a delete do what deleteFile does, and touch other requests only by unlinking streams into the file |
| CallData.StepKeepsInv | pr4-gRPC/part2/src/dfslibx-call-data.h:74-124 | every step of a thread, the runtime or the processor keeps the invariant of instances, queue, registrations and events |
| CallData.NeverCreate | pr4-gRPC/part2/src/dfslibx-call-data.h:87-123 | an event never carries an instance that is still to be queued, so Proceed acts on it as PROCESS or FINISH |
| CallData.GuardEmptiesQueue | pr4-gRPC/part2/dfslib-servernode-p2.cpp:225-243 | one pass of the processor registers and erases every queued tag |
| CallDataRuns.ListenersConserved | pr4-gRPC/part2/src/dfslibx-call-data.h:101-114 | between Proceed calls the instances waiting for a client are as many as the started threads |
| CallDataRuns.AlwaysAListener | pr4-gRPC/part2/src/dfslibx-service-runner.h:58-85 | from the first thread on there is a listener or one about to be queued |
| CallDataRuns.QueuedOrRegistered | pr4-gRPC/part2/dfslib-servernode-p2.cpp:152-160 | a waiting instance is queued once or registered once, and not both |
| CallDataRuns.AtMostOnce | pr4-gRPC/part2/src/dfslibx-call-data.h:87-123 | each instance is registered, finished and deleted at most once, in that order |
| CallDataRuns.DeletedIsUnreachable | pr4-gRPC/part2/src/dfslibx-call-data.h:115-123 | a deleted instance is in no thread's hands, event, pending operation or entry to be registered |
| CallDataReplies.DeletedWasAnswered | pr4-gRPC/part2/src/dfslibx-call-data.h:108-123 | over every run an instance is deleted only after its reply has gone out and a thread has taken the event for it |
| CallDataReplies.ReplyStaysPending | pr4-gRPC/part2/src/dfslibx-call-data.h:110-114 | once Finish has been called the reply is pending until it has gone out |
| CallDataReplies.EveryInstanceCanReply | pr4-gRPC/part2/src/dfslibx-call-data.h:87-114 | from every reachable state, every instance that has not replied can still come to reply, with no thread to start and no client but its own to call |
| CallDataReplies.FirstReply | pr4-gRPC/part2/src/dfslibx-service-runner.h:58-85 | with one thread or more there is a run in which the first instance replies |

## Left out

- Crc.CalculateRemainder: the bits above the width of an unreflected remainder are not specified; every caller masks them away.
- CrcTable.Table.CalculateRemainder: the same bits are not specified.
- DfsSync.HandleCallbackList: one pass against a server that nobody else uses, with successful calls; "." and ".." and unreadable files are not listed, and a failed call or a callback that is not ok is not modelled.
- CallDataRuns.ListenersConserved: completion events that are not ok, after which the code keeps the instance forever, are not part of a run.
- The named parameter sets of CRC.h other than CRC_32: constants; all parameters are symbolic.
- A file that changes while its checksum is computed or while it is sent: file contents are fixed during a call, except for concurrent stores and deletes in the lock machine.
- The transfer assumes that gfs_send and pread complete in full, that a file length fits in an int, and that a segment is large enough for shm_object; the exit for a negative read length cannot be taken because shm_read_data returns a constant.
- Queue operations of the cache daemon are single steps; the daemon enqueues under one mutex and pops under another, so the code itself does not give this.
- A segment is set up again only when semWriter is 0, so after its last worker has taken its last token; that worker may still be on its way out. shm_create does not check it: Transfer.ResetSparesWorkerExactly says that this is exactly what is needed.
- Messages between proxy and daemon carry path and segment unchanged: their formatting with sprintf and sscanf is not modelled.
- The start-up shm_create of every segment sets the length to -1; unused segments here show 0, which nobody reads.
- Threads, locks and listeners are modelled on values, as states and steps: what the C and C++ objects alias in memory is not captured, except that a deleted listener is never used again.
- Spurious wakeups are modelled, but a run with infinitely many of them need not end.
- lock and unlock are single steps, one request per client is in flight, file names are not empty, and a failed Read leaves the last message in place; the map behind the locks is not synchronised in the code.
- The integer N of the steque does not overflow.
- Empty files are never streamed; contracts say that store and fetch leave them alone.
- A message never claims more bytes than it carries, as its senders never do; the code would read past them. A cancelled call stays cancelled, and the client's Store and Delete, and the synchronization pass, are modelled without cancellation.
- Modification times are two given numbers to be compared; clocks are not modelled.
- Sockets, gRPC transport, inotify, libcurl, mmap, message queue and signal calls, option parsing, log output, listing and status calls, the warm-up programs and part 1: no property of their own.
