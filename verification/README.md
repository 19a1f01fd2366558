# Kyuzen OS core, modelled and verified in Dafny

This project models the parts of the Kyuzen OS kernel where correctness is hardest to see from
the code, and proves properties of them for all inputs, all runs and all reachable states.
`dafny verify dfyconfig.toml` checks everything.

**KyuzenFS** (`Kfs*.dfy`). The disk is a sequence of typed sectors, the FAT an array, and the
driver a class `Volume` whose methods follow the C functions. A ghost layout names the chain,
directory or file behind every start sector; `View` gives what a path denotes. Every operation is
specified by one relation between the states before and after (`CreateResult`, `FolderResult`,
`DeleteResult`), with its exact success condition and, for creation and deletion, what every path
denotes afterwards. `KfsDriver.Execute` runs any list of operations, formats and remounts on a
`Volume` and keeps its invariant; on names that fit an entry the volume refines a model that knows
only paths. Facts found on the way, each stated as an if-and-only-if or with its
exact guard: a final name of more than 22 characters is stored cut and never found again, so the
same creation succeeds twice, and in an earlier empty slot it hides the object that has the cut
name; a parent path of more than 127 characters is cut; a file of more than 2^32 - 512 bytes gets no
sector at all, and its creation is exactly the one that leaves a disk no layout fits; a creation that runs out of space leaves no free sector behind (the partial chain
leaks); the folder rollback leaves the table on disk different from the one in memory, exactly when
the directory is full and one sector is left.

**Physical memory, paging, allocators** (`Pmm.dfy`, `Page*.dfy`, `Paging*.dfy`, `UHeap*.dfy`,
`KHeap*.dfy`). The page bitmap is an array of bytes; page tables are frames of 512 entries;
`Translate` is the four-level walk of section 4.5 of the Intel SDM, Volume 3A, large pages
included. Tables are named by their place in the hierarchy, kernel tables once for all address
spaces. `PagingDriver.Execute` runs any list of requests over the live address spaces: the tables
stay sound, the kernel half stays shared, and the tables are the partial maps the operations build.
The user heap and the kernel heap are classes on top of the paging class, and the user heap keeps
its region nodes in the kernel heap, so their rollback and conservation results speak about the
allocator's bitmap, the page tables and the block list. `UHeapRuns.RunProcess` creates an address
space, makes any list of heap calls and tears everything down: what stays in use is what was in use
and exactly the frames the kernel heap took for nodes, which the kernel holds.
`SystemBoot.BootAndRun` (`SystemBoot.dfy`) joins the parts, from the boot loader's memory map and
page tables to any number of processes. The heap's zone is slot 288 of the PML4, as the comment at
`kernel/paging.c:83` has it; the kernel image lies in slot 511 and keeps its translation.

**Synchronisation** (`WaitQueue.dfy`, `Semaphore.dfy`, `Monitor.dfy`). Semaphore, mutex and
condition variable are step systems over any number of tasks. A section under a wait-queue lock is
one step, blocking is two, and the condition variable's own lock is explicit. Beside the invariants
stand the laws of a run, stated on its steps and states alone: what each operation does, the
conservation of units, and first queued, first woken.

**DEFLATE and PNG** (`BitReverse.dfy`, `HuffmanCode.dfy`, `Huffman.dfy`, `Inflate.dfy`,
`BitStream.dfy`, `InflateStream.dfy`, `DeflateTokens.dfy`, `DeflateEncoder.dfy`, `PngUnfilter.dfy`,
`Adam7.dfy`). The Huffman tables against the canonical code of section 3.2.2 of RFC 1951, and a
whole block from the bytes of its input (the stream is one number, its lowest bit first) to its
output, which is the expansion of the tokens it says: literals and copies, read from symbols by the
arithmetic of section 3.2.5 of RFC 1951 and not by the decoder's tables. An encoder written from the
RFC gives the round trip from tokens over bytes to output (`DeflateEncoder.RoundTrip`). Unfiltering
is the inverse of the filters of section 6 of RFC 2083, for rows and for whole pictures, and the
seven interlacing passes partition the picture along the RFC's pattern. The check for input that ended too early misses zero bits that refilling the buffer
supplied, for codes and for extra bits alike (`InflateStream.EndCheck`), so a truncated block can
count as finished (`InflateStream.FinishPastEnd`); memory permitting, a block finishes without such
bits if and only if the input holds it whole (`InflateStream.FinishedIff`).

**Display** (`Rects.dfy`, `Grid.dfy`, `Display.dfy`). Rectangle arithmetic with 32-bit extents,
the dirty list, clipped fills and the row-copy viewport render against per-pixel definitions.

Where a comment promises more than the code does, the model follows the code: `include/display.h:84`
calls a collapsed list's box the bounding box of everything marked, which holds exactly while all
marks fit one 32-bit box (`Rects.ListCoversIff`); `kernel/kyuzenfs.c:130` takes components of more
than 22 characters to be impossible, yet creation accepts them as final names
(`KfsNames.LongNamesDuplicate`); the guard of `stbi__fill_bits` (`include/stb_image.h:4205`) can
never fire.

Lock acquisition, TLB flushes and console output do not appear: each call is one atomic step under
its lock. Results of code outside the model are parameters: sector reads and writes succeed, and
`memory` says whether a reallocation of the decoder's output succeeded.

## Model

| member | source | states |
|---|---|---|
| KfsDriver.Execute | kernel/kyuzenfs.c:40-348 | executes any list of formats, creations, folder creations, deletions and remounts, failing ones included: the volume stays valid, every step is the one specified, and on names that fit an entry every path denotes what the reported results say |
| KfsDriver.Perform | kernel/kyuzenfs.c:206-348 | one operation on the volume; a remount throws the memory away and reads the disk back |
| KfsRuns.ValidChains | kernel/kyuzenfs.c:47-116 | under the invariant the root chain and every live entry's chain are in range, acyclic, end in FAT_EOF, hold no free sector, and are pairwise disjoint |
| KfsRuns.RunRefines | kernel/kyuzenfs.c:121-348 | after any run on names that fit an entry, every path denotes what the reported results say: created bytes and folders are there, deleted files are gone, every other path is as before |
| KfsRuns.StepRefines | kernel/kyuzenfs.c:273-348 | one operation changes the meaning of at most the path it names, and keeps names unique per directory |
| KfsRuns.CreateThenDeleteRestores | kernel/kyuzenfs.c:83-116 | creating a file and deleting it restores the FAT if and only if the parent directory had an empty slot |
| KfsNames.LongNamesDuplicate | kernel/kyuzenfs.c:307-309 | after a creation under a name of more than 22 characters the path denotes nothing, the same creation succeeds again exactly when sectors are left for it, and then two live entries of one directory have the same stored name |
| KfsNames.LongNameTwice | kernel/kyuzenfs.c:307-309 | on a fresh volume with three free sectors the name of 23 letters is created twice |
| KfsNames.CreationLosesNothingIff | kernel/kyuzenfs.c:83-116 | a creation leaves the meaning of every existing path alone if and only if the stored name was free, or its entry stands before the slot used, or is what would be created |
| KfsDriver.HideAFile | kernel/kyuzenfs.c:307-309 | a run on a fresh volume: create, create a name of 22 letters, delete, create the name of 23 letters; all succeed and the file of 22 letters is out of reach |
| KfsOps.EntryCreated | kernel/kyuzenfs.c:83-116 | what every path denotes after an entry was put into the first empty slot, for every name: hidden, or shown with nothing below it; exactly one slot came to life |
| KfsOps.SectorCountIsExactIff | kernel/kyuzenfs.c:282-282 | the 32-bit sector count is right if and only if size + 511 fits 32 bits; above it is 0 |
| KfsDisk.SizeFits | kernel/kyuzenfs.c:282-282 | a file has the fewest sectors of 512 bytes that hold it, and at least one |
| KfsDisk.FatCovers | kernel/kyuzenfs.c:169-170 | the table has an entry for every sector, in the fewest sectors that do |
| KfsOps.StoredName | kernel/kyuzenfs.c:308-309 | a stored name is the name itself up to 22 characters and its first 22 beyond |
| KfsOps.CreatableIffAbsent | kernel/kyuzenfs.c:273-318 | a creation succeeds exactly if there is a final name, its parent denotes a folder, the path denotes nothing, and enough sectors are free, one more for a full parent |
| KfsOps.DeletableIffFile | kernel/kyuzenfs.c:320-328 | a deletion succeeds exactly if the path denotes a file |
| KfsLoose.CreationKeepsValidIff | kernel/kyuzenfs.c:273-318 | a creation leaves a disk that some layout fits if and only if it fails or size + 511 fits 32 bits |
| KfsLoose.LooseIsInvalid | kernel/kyuzenfs.c:282-313 | the entry made without a sector points at sector 0, which no layout allows, wherever its directory lies |
| KfsRuns.EmptyVolumeViews | kernel/kyuzenfs.c:206-240 | a formatted volume denotes the root folder and nothing else |
| KfsTree.WalkInjective | kernel/kyuzenfs.c:121-141 | two component lists that lead to the same folder are equal |
| KfsTree.ViewInserted | kernel/kyuzenfs.c:83-116 | what every path denotes after an entry was added anywhere: nothing changes if an earlier entry has its name, else its path denotes the new object, the paths below it nothing, all others what they did |
| KfsTree.ViewRemoved | kernel/kyuzenfs.c:338-342 | clearing a file entry changes no path outside its name; a unique name then denotes nothing |
| KfsTree.ViewAfterRemoval | kernel/kyuzenfs.c:338-342 | what every path denotes after the first entry of a name was cleared: the next entry of that name in slot order, if there is one, what that one has below it, and all else as before |
| KfsTree.RemovedIffSole | kernel/kyuzenfs.c:338-342 | the deleted name is no longer found in its directory if and only if no second entry carried it |
| KfsPath.ComponentsOfJoin | kernel/kyuzenfs.c:121-141 | components of a joined path are those of its parts for any placement of repeated slashes |
| KfsPath.SplitAgreesWithComponents | kernel/kyuzenfs.c:146-161 | parent part and final name together have the components of the whole path |
| KfsPath.TargetIsThePath | kernel/kyuzenfs.c:150-155 | parent and final name denote the path itself if and only if nothing but slashes stands in the parent from character 127 on |
| KfsPath.LongParentIsCut | kernel/kyuzenfs.c:153-153 | a concrete parent of 130 characters is cut and denotes another path |
| KfsDisk.FilesCountsLiveEntries | kernel/kyuzenfs.c:315-316 | total_files equals the number of live entries over all directories |
| KfsEffects.AllocationKeepsWellFormed | kernel/kyuzenfs.c:287-305 | taking and linking free sectors disturbs no chain, directory or file |
| KfsEffects.ReuseKeepsWellFormed | kernel/kyuzenfs.c:110-114 | writing an entry into an empty slot keeps everything stored and registers the new object |
| KfsEffects.ExtendKeepsWellFormed | kernel/kyuzenfs.c:99-108 | extending a full directory by a sector keeps everything stored and registers the new object |
| KfsEffects.DeleteKeepsWellFormed | kernel/kyuzenfs.c:330-345 | freeing the victim's chain and clearing its entry keeps every other object stored |
| KfsDurable.RemountKeepsTree | kernel/kyuzenfs.c:242-271 | the table reloaded from disk has every chain of the tree, so the tree is unchanged |
| KfsDurable.AllocateOne | kernel/kyuzenfs.c:287-298 | one allocation step takes one free sector, appends it to the chain, and leaves one free sector fewer |
| KfsDurable.SyncCleans | kernel/kyuzenfs.c:40-45 | writing one table sector makes the disk agree with memory for that sector's links |
| KfsOps.MountedIsValid | kernel/kyuzenfs.c:256-268 | mounting a volume whose disk table lags only at leaked sectors gives a valid volume with the same tree |
| KfsOps.FormattedIsValid | kernel/kyuzenfs.c:206-240 | formatting establishes the invariant |
| KfsOps.FoundIsView | kernel/kyuzenfs.c:383-411 | the entry found for a path has the size, bytes and kind the path denotes |
| KfsOps.RollbackEnds | kernel/kyuzenfs.c:520-525 | the folder rollback keeps the invariant and leaves the freed sector marked used on disk |
| KfsVolume.BehindLastSlash | kernel/kyuzenfs.c:147-149 | the scan finds the start of the final name |
| KfsVolume.Volume.SetLink | kernel/kyuzenfs.c:291-294 | one link changes and is noted as not yet on disk |
| KfsVolume.Volume.WriteSector | kernel/kyuzenfs.c:302-302 | one sector outside the table changes |
| KfsVolume.Volume.SyncFat | kernel/kyuzenfs.c:40-45 | the table sector of an in-range index is written; memory is unchanged |
| KfsVolume.Volume.FindFreeSector | kernel/kyuzenfs.c:47-53 | the lowest free sector above the root, or 0 exactly when none is free |
| KfsVolume.Volume.FindEntryIn | kernel/kyuzenfs.c:56-78 | finds the first live entry of that name along the chain, with its sector and index, if there is one |
| KfsVolume.Volume.ScanFor | kernel/kyuzenfs.c:65-73 | the first live entry of that name in one sector, or none |
| KfsVolume.Volume.FindEmptySlot | kernel/kyuzenfs.c:88-97 | the first empty slot along the chain, or the last sector of a full one |
| KfsVolume.Volume.ScanEmpty | kernel/kyuzenfs.c:91-93 | the first empty entry of one sector, or none |
| KfsVolume.Volume.InsertDirEntry | kernel/kyuzenfs.c:83-116 | reuses the first empty slot, else extends the chain, else fails with nothing changed and no sector free |
| KfsVolume.Volume.GrowDir | kernel/kyuzenfs.c:99-108 | links a free sector behind a full directory and puts the entry there |
| KfsVolume.Volume.ResolveDir | kernel/kyuzenfs.c:121-141 | succeeds if and only if the components lead through folders, and returns that folder |
| KfsVolume.Volume.SplitLast | kernel/kyuzenfs.c:146-161 | succeeds if and only if there is a final name and the (cut) parent resolves |
| KfsVolume.Volume.AllocateFile | kernel/kyuzenfs.c:281-305 | allocates and fills the counted sectors of the padded chain, or stops with no free sector left; for every 32-bit size |
| KfsVolume.Volume.CreateMountedFile | kernel/kyuzenfs.c:277-317 | for every 32-bit size: succeeds exactly when creatable; then every path denotes what `AfterCreate` says, one chain of the right length is added and the free sectors shrink by exactly what was needed; where the sector count wraps, the entry alone is inserted; a failure leaves the tree and, before allocation, everything unchanged |
| KfsVolume.Volume.CreateFile | kernel/kyuzenfs.c:273-318 | the same, formatting first when nothing is mounted |
| KfsVolume.Volume.CreateFolder | kernel/kyuzenfs.c:498-530 | succeeds exactly when creatable, with the same frame for paths, chains and free sectors; a failure changes nothing, except that disk and memory tables part exactly in the rollback case |
| KfsVolume.Volume.GiveUpFolder | kernel/kyuzenfs.c:520-525 | the rollback frees the sector in memory only |
| KfsVolume.Volume.FreeChain | kernel/kyuzenfs.c:330-336 | every sector of the chain becomes free, no other link changes |
| KfsVolume.Volume.DeleteFile | kernel/kyuzenfs.c:320-348 | succeeds exactly for an existing file; then exactly its chain is freed, its slot is empty, and every path denotes what `ViewWithout` says |
| KfsVolume.Volume.ReadChain | kernel/kyuzenfs.c:395-408 | returns the first `size` bytes stored along the chain |
| KfsVolume.Volume.ReadToBuffer | kernel/kyuzenfs.c:383-411 | succeeds if and only if the path denotes something that fits the buffer, and returns exactly its bytes |
| KfsVolume.Volume.GetFileList | kernel/kyuzenfs.c:533-561 | the live entries of the folder in slot order, cut at the limit; the first item of each name has the kind and size of what the folder's path with that name denotes, and a list short of the limit has every such name |
| KfsOps.ListingIsView | kernel/kyuzenfs.c:533-561 | a full listing tells exactly what the paths one name below the folder denote |
| KfsVolume.Volume.Format | kernel/kyuzenfs.c:206-240 | an empty valid volume whose free sectors are those behind the root |
| KfsVolume.Volume.Init | kernel/kyuzenfs.c:242-271 | mounts a formatted disk with its tree, formats anything else |
| KfsVolume.Volume.constructor | kernel/kyuzenfs.c:256-263 | an unmounted volume over a disk image |
| WaitQueueModel.WaitQueue.Enqueue | kernel/wait.c:47-51 | appends, or refuses exactly when full |
| WaitQueueModel.WaitQueue.ShiftDown | kernel/wait.c:70-73 | removes one index and keeps the order of the rest |
| WaitQueueModel.WaitQueue.Dequeue | kernel/wait.c:55-63 | removes and returns the head, or nothing when empty |
| WaitQueueModel.WaitQueue.Remove | kernel/wait.c:67-78 | removes the first occurrence, if there is one |
| SemaphoreProtocol.StepKeepsInv | kernel/sync.c:55-77 | every step keeps the queue and the wake-up invariant, and a non-negative count |
| SemaphoreProtocol.RunKeepsInv | kernel/sync.c:55-77 | over every interleaving the queue holds exactly the parked tasks, count is never negative from a non-negative start, and with tasks queued is at most the number of woken tasks still to retry |
| SemaphoreProtocol.UnitsConserved | kernel/sync.c:49-77 | count is the initial value plus the posts among the steps minus the steps at which a task asked and a unit was there |
| SemaphoreProtocol.PostWakesFirst | kernel/sync.c:72-77 | a post adds one unit and wakes the first of the queue and nobody else |
| SemaphoreProtocol.ReturnsIffUnit | kernel/sync.c:55-70 | a wait, a retry or a try-wait returns with a unit exactly when count was positive; otherwise the task is queued last, or a try-wait changes nothing; nobody else moves |
| SemaphoreProtocol.AbortTakesOut | kernel/wait.c:128-139 | an abort wakes the task from wherever it is queued, keeps the order of the rest, and does nothing to a task that is not queued |
| SemaphoreProtocol.WokenInOrder | kernel/sync.c:55-77 | without aborts the queue is everybody who was ever parked, in that order, less as many as posts found somebody waiting |
| SemaphoreProtocol.UnlessParkedGoesOn | kernel/sync.c:55-70 | a task that is not queued can always ask for a unit |
| SemaphoreProtocol.NoStrandedWaiter | kernel/sync.c:55-77 | a unit left over with tasks queued means some woken task will take it |
| SemaphoreProtocol.QueueNeverOverflows | include/wait.h:16-63 | the queue holds at most one entry per task |
| MonitorProtocol.StepKeepsInv | kernel/sync.c:18-107 | every step of mutex and condition variable keeps ownership, queues, lock and order invariants |
| MonitorProtocol.RunKeepsInv | kernel/sync.c:18-107 | the same over every interleaving, with barging lockers, try-locks and spurious returns |
| MonitorProtocol.ReleaseFrees | kernel/sync.c:39-45 | after an unlock, or the release inside a wait, by the owner the mutex is unlocked without an owner, exactly the task queued first is woken, and an unlocker is idle |
| MonitorProtocol.OwnsIffFree | kernel/sync.c:18-37 | whoever asks owns the mutex afterwards if it was free; otherwise a try-lock changes nothing and everybody else is queued last; nobody else moves |
| MonitorProtocol.WaitSteps | kernel/sync.c:89-95 | the other steps of a wait move its own task only and never the mutex: taking the lock, being queued last while giving it up, returning |
| MonitorProtocol.SignalMovesWaiters | kernel/sync.c:97-107 | a signal moves the first waiter and nobody else, a broadcast the waiters and nobody else; neither touches the mutex |
| MonitorProtocol.LockersInOrder | kernel/sync.c:18-45 | the mutex's queue is everybody who ever had to queue, in that order, less as many as releases found somebody queued |
| MonitorProtocol.UnlessParkedGoesOn | kernel/sync.c:18-107 | a task that is not queued has a step to take, or waits for the condition variable's lock whose holder has one |
| MonitorProtocol.MutualExclusion | kernel/sync.c:18-45 | at most one task owns the mutex, it is locked, and `owner` names that task |
| MonitorProtocol.NoStrandedLocker | kernel/sync.c:18-45 | an unlocked mutex with waiters has a woken task whose retry gets it |
| MonitorProtocol.SignalIsNotLost | kernel/sync.c:86-107 | when a signal or broadcast happens nobody is between releasing the mutex and being queued; a signal wakes the earliest releaser, a broadcast all of them |
| MonitorProtocol.WaitReturnsOwning | kernel/sync.c:89-95 | a wait ends only with its caller owning the mutex |
| MonitorProtocol.QueuesNeverOverflow | include/wait.h:16-63 | both queues hold at most one entry per task |
| BitReverse.BitReverse16IsRev | include/stb_image.h:4107-4114 | the four mask-and-shift swaps reverse the low sixteen bits |
| BitReverse.BitReverseBitsIsRev | include/stb_image.h:4116-4122 | shifting the sixteen-bit reversal reverses the low `bits` bits |
| BitReverse.RevRev | include/stb_image.h:4107-4122 | reversing twice gives the low bits back |
| HuffmanCode.FitsIffKraft | include/stb_image.h:4138-4149 | all per-length overflow checks pass if and only if the Kraft sum of the lengths is at most one |
| HuffmanCode.MatchUnique | include/stb_image.h:4124-4168 | at most one symbol's code starts a given bit window |
| HuffmanCode.PrefixFree | include/stb_image.h:4124-4168 | no code is a prefix of another symbol's code |
| HuffmanCode.Canonical | include/stb_image.h:4138-4157 | codes of one length are consecutive in symbol order, shorter codes come before longer ones, and the first code is zero |
| HuffmanCode.RfcExample | include/stb_image.h:4138-4157 | the example of section 3.2.2 of RFC 1951 gets its codes |
| HuffmanCode.BetweenLimitsMatch | include/stb_image.h:4224-4241 | a window between two consecutive limits starts with a code of exactly that length |
| HuffmanCode.RankInjective | include/stb_image.h:4152-4156 | symbols get distinct places in the sorted tables |
| HuffmanCode.RankBounded | include/stb_image.h:4152-4156 | and places within the tables |
| Huffman.FastHitIsMatch | include/stb_image.h:4157-4163 | a nine-bit index hits a symbol exactly when its code starts the window |
| Huffman.FastDecodes | include/stb_image.h:4263-4269 | a non-zero fast entry names the matching symbol and its length; zero means only longer codes can match |
| Huffman.SlowDecodes | include/stb_image.h:4230-4241 | the slow path's index yields the matching symbol |
| Huffman.NoCodeBeyond | include/stb_image.h:4233-4233 | past the last limit no code matches |
| Huffman.ZHuffman.CountSizes | include/stb_image.h:4130-4134 | counts the symbols of every length |
| Huffman.ZHuffman.CheckSizes | include/stb_image.h:4135-4137 | accepts exactly when no length has more symbols than codes |
| Huffman.ZHuffman.FillLevels | include/stb_image.h:4138-4151 | fills first codes, limits and first symbols; fails exactly when the codes do not fit |
| Huffman.ZHuffman.Stripe | include/stb_image.h:4159-4163 | sets exactly the entries congruent to the start modulo the stride |
| Huffman.ZHuffman.EnterSymbol | include/stb_image.h:4152-4166 | enters one symbol in value, size and fast tables |
| Huffman.ZHuffman.Build | include/stb_image.h:4124-4168 | succeeds if and only if the Kraft sum is at most one, and then the tables are those of the canonical code |
| Huffman.ZHuffman.Decode | include/stb_image.h:4263-4270 | returns the unique symbol whose code starts the bit buffer and its length, or -1 exactly when there is none |
| Huffman.ZHuffman.DecodeSlowly | include/stb_image.h:4224-4241 | the same for codes longer than nine bits |
| Inflate.LengthsTile | include/stb_image.h:4294-4300 | length symbols with extra bits cover 3 to 258 without a gap |
| Inflate.DistancesTile | include/stb_image.h:4302-4307 | distance symbols with extra bits cover 1 to 32768, each once |
| Inflate.MatchIsPeriodic | include/stb_image.h:4348-4354 | every byte of a match equals the byte `dist` before it |
| Inflate.Output.Expand | include/stb_image.h:4273-4292 | doubles until the bytes fit and keeps the contents; fails exactly for a fixed buffer, no memory, or a size past 32 bits |
| Inflate.GrownIsDoubling | include/stb_image.h:4281-4285 | the new size is the least doubling that fits, and there is none exactly if that passes 32 bits |
| Inflate.Output.CopyMatch | include/stb_image.h:4348-4354 | appends the last `dist` bytes repeated to the match length, also when source and destination overlap and on the one-byte path |
| Inflate.Output.Apply | include/stb_image.h:4313-4355 | one symbol does to the output what `After` says, which is what its token says (`DeflateTokens.AfterIsToken`), with every error case; memory failure only when the buffer is too short and cannot be doubled |
| Inflate.Output.AppendMatch | include/stb_image.h:4340-4354 | a match is appended, refused for a bad distance, or does not fit; its length and distance are those of the token (`DeflateTokens.MatchIsToken`) |
| DeflateTokens.LengthTable | include/stb_image.h:4294-4300 | a length symbol with its extra value means the length that the arithmetic of section 3.2.5 of RFC 1951 gives |
| DeflateTokens.DistTable | include/stb_image.h:4302-4307 | a distance symbol with its extra value means the distance that the same section gives |
| DeflateTokens.MatchIsToken | include/stb_image.h:4337-4354 | a length symbol appends, byte by byte, `len` bytes from `dist` back, and is corrupt exactly if that reaches before the output |
| DeflateTokens.AfterIsToken | include/stb_image.h:4313-4355 | a symbol goes on exactly if it says a literal or a copy that applies, and extends the output by it; 256 ends the block; everything else is corrupt |
| DeflateTokens.EventOf | include/stb_image.h:4294-4307 | every literal, and every copy of 3 to 258 bytes from 1 to 32768 back, is said by some symbols within their extra bits |
| DeflateTokens.OneSpelling | include/stb_image.h:4294-4307 | by only one choice of symbols, apart from the length 258 |
| DeflateTokens.AfterAllIsExpansion | include/stb_image.h:4313-4355 | symbols go on exactly if they say tokens that apply, and their output is the tokens' expansion |
| BitStream.BitReader.Refill | include/stb_image.h:4202-4212 | buffers bytes, zeros past the end, without changing what is still to be read |
| BitStream.BitReader.Receive | include/stb_image.h:4214-4222 | returns the next bits of the stream as a number and consumes them |
| BitStream.BitReader.Decode | include/stb_image.h:4243-4271 | decodes the next symbol of the stream by the canonical code and consumes its bits; gives up early only after bits past the end were consumed |
| InflateStream.NextEvent | include/stb_image.h:4313-4342 | the next symbol of the stream with its extra bits, its distance and that one's extra bits |
| InflateStream.InflateBlock | include/stb_image.h:4309-4357 | decodes a block from its bytes: the output is the expansion of the tokens that the symbols in the stream say, up to the end symbol, the first corrupt one, the end of the input, or a buffer that cannot grow; the bits consumed are counted; the loop ends |
| InflateStream.OutcomeSays | include/stb_image.h:4309-4357 | a finished block is the end symbol behind tokens, and its output is their expansion |
| DeflateEncoder.CodeRead | include/stb_image.h:4243-4266 | a symbol's code, written most significant bit first in front of anything, is decoded as that symbol |
| DeflateEncoder.WrittenRead | include/stb_image.h:4313-4342 | a symbol written with its extra values is the next one read, and leaves what is behind it |
| DeflateEncoder.WrittenBlockHolds | include/stb_image.h:4309-4357 | what is written for tokens that expand is a block that the input holds |
| DeflateEncoder.EncodedBlockDecodes | include/stb_image.h:4309-4357 | decoding it gives the expansion and stops right behind the block, or memory runs out |
| DeflateEncoder.RoundTrip | include/stb_image.h:4309-4357 | tokens written as bytes with any two codes that fit, and decoded with tables built from the same lengths, give the expansion of the tokens, or memory runs out |
| InflateStream.FinishedIff | include/stb_image.h:4309-4357 | memory permitting, the decoder finishes without a bit past the end if and only if the input holds a whole block |
| InflateStream.HeldBlockFinishes | include/stb_image.h:4309-4357 | a block the input holds is decoded to exactly its output, and exactly its bits are consumed, or memory runs out |
| InflateStream.ReadsUnique | include/stb_image.h:4309-4342 | the stream determines its symbols and their extra bits |
| InflateStream.ReadsBounded | include/stb_image.h:4337-4342 | extra values stay below what the extra-bit tables allow |
| InflateStream.EndCheck | include/stb_image.h:4326-4332 | bits past the end were consumed exactly when more zeros were supplied than are still buffered; the check fires only then and misses it exactly when sixteen bits are buffered or the decoder has not padded |
| InflateStream.FinishPastEnd | include/stb_image.h:4309-4357 | a one-byte input and a code of nine bits for the end symbol: the block is finished with a bit past the end, unseen by the check |
| PngUnfilter.PaethAgrees | include/stb_image.h:4657-4668 | the rearranged predictor equals the one of section 6.6 of RFC 2083 |
| PngUnfilter.FilterTypes | include/stb_image.h:4638-4646 | for filter types 0, 1, 2, 3 and 4 each reconstructed byte is the raw one plus nothing, the byte to the left, the one above, the half of their sum, or the Paeth predictor |
| PngUnfilter.ReconInvertsFilter | include/stb_image.h:4754-4784 | reconstruction gives a row if and only if the raw bytes are that row filtered as sections 6.2 to 6.6 of RFC 2083 have the encoder do it |
| PngUnfilter.EncodedDecodes | include/stb_image.h:4737-4787 | a picture sent with any filter type for each row decodes to the picture |
| PngUnfilter.ImageDecodes | include/stb_image.h:4737-4787 | scanlines are accepted exactly with filter types 0 to 4, and the picture given encodes to them |
| PngUnfilter.NextByteIsRecon | include/stb_image.h:4754-4784 | each filter's byte formula is the specified reconstruction |
| PngUnfilter.FirstRowIsRecon | include/stb_image.h:4648-4655 | the first-row filter table reconstructs as with a zero row above |
| PngUnfilter.UnfilterRow | include/stb_image.h:4754-4784 | reconstructs one row in place and touches nothing else |
| PngUnfilter.NextRow | include/stb_image.h:4739-4752 | the half-buffers alternate so that each row sees its predecessor |
| PngUnfilter.UnfilterImage | include/stb_image.h:4737-4787 | fails exactly on a filter byte above 4, else gives the picture that the encoder, with the filter types found, turns into the scanlines |
| PngUnfilter.FilterCoversScanline | include/stb_image.h:4737-4743 | the filtered bytes of a row are all bytes of its scanline, the fewest that hold its bits |
| Adam7.SizesAreExact | include/stb_image.h:4880-4881 | the computed pass sizes count exactly the positions inside the picture |
| Adam7.Partition | include/stb_image.h:4874-4895 | every pixel belongs to exactly one position of exactly one pass |
| Adam7.PassIsPattern | include/stb_image.h:4874-4877 | a pixel's pass is the one in the 8 by 8 pattern of section 2.6 of RFC 2083 |
| Adam7.Deinterlace | include/stb_image.h:4873-4900 | after all passes every pixel holds the value of its own pass position |
| Adam7.ScatterPass | include/stb_image.h:4888-4895 | one pass puts its pixels in place and keeps those of the earlier ones |
| PageAllocator.SetBit | kernel/pmm.c:47-49 | setting a bit changes that bit only |
| PageAllocator.ClearBit | kernel/pmm.c:51-53 | clearing a bit changes that bit only |
| PageAllocator.FindHighest | kernel/pmm.c:86-93 | the least bound of the ends of the usable regions |
| PageAllocator.PlaceBitmap | kernel/pmm.c:110-132 | the first usable region with room above 72 MB, if any |
| PageAllocator.BitmapFits | kernel/pmm.c:102-106 | the bitmap has a bit for every page, in the fewest whole pages that do |
| PageAllocator.BitmapInsideOffered | kernel/pmm.c:110-132 | the bitmap lies in offered pages above the kernel zone |
| PageAllocator.Pmm.constructor | kernel/pmm.c:149-150 | all pages start locked |
| PageAllocator.Pmm.FreeRegion | kernel/pmm.c:152-168 | frees exactly the tracked pages that start in the region |
| PageAllocator.Pmm.LockRange | kernel/pmm.c:170-178 | locks exactly the given pages, as far as the bitmap reaches |
| PageAllocator.Pmm.CountUsed | kernel/pmm.c:185-189 | counts the set bits |
| PageAllocator.InitDynamic | kernel/pmm.c:82-191 | after boot exactly the offered pages above 72 MB and outside the bitmap are free, and counter and hint are right; the two halts are the only failures |
| PageAllocator.Pmm.Mark | kernel/pmm.c:47-49 | one page joins the used set |
| PageAllocator.Pmm.Unmark | kernel/pmm.c:51-53 | one page leaves the used set |
| PageAllocator.Pmm.Test | kernel/pmm.c:55-57 | tells membership in the used set |
| PageAllocator.Pmm.AllocPage | kernel/pmm.c:208-246 | the lowest free page, never below 72 MB; null exactly when nothing is free; the wrap scan never finds a page |
| PageAllocator.Pmm.OwnsPage | kernel/pmm.c:307-314 | true exactly for the address of a tracked page in use |
| PageAllocator.Pmm.FreePage | kernel/pmm.c:254-298 | releases exactly an aligned, tracked, used page above 72 MB; everything else changes nothing |
| PageTables.WalkSame | kernel/paging.c:142-184 | a translation depends only on the entries it meets |
| PageTables.LargePageFrames | kernel/paging.c:142-184 | the pages of a 1 GB or 2 MB page are consecutive frames from an aligned one |
| PageTables.TableLink | kernel/paging.c:149-179 | a linked table is present, writable, open to the user and no large page, so that it restricts nothing below it |
| PagingSteps.TranslateIs | kernel/paging.c:142-184 | a translation continues at every table of the hierarchy it reaches |
| PagingSteps.InstallKeepsTables | kernel/paging.c:143-150 | linking a fresh zeroed table keeps the structure of all hierarchies |
| PagingSteps.InstallKeepsTranslations | kernel/paging.c:143-150 | and changes no translation of any address space |
| PagingSteps.WriteTranslates | kernel/paging.c:183-184 | storing an entry changes exactly the translations that read it |
| PagingSteps.DropKeepsTranslations | kernel/paging.c:552-564 | unlinking an empty table changes no translation |
| PagingSteps.KernelHalfShared | kernel/paging.c:81-91 | every address space translates every kernel address as the kernel does |
| PagingSteps.NewRootTranslates | kernel/paging.c:465-478 | a cloned root has the kernel's mappings and no user page; the others see nothing |
| PagingSpaces.UnmapOnlySpace | kernel/paging.c:545-550 | clearing a page and freeing its frame takes that frame, and no other, from the space |
| PagingSpaces.DropOnlySpace | kernel/paging.c:552-564 | unlinking and freeing a table takes that frame, and no other, from the space |
| PagingSpaces.MapAdopts | kernel/paging.c:183-184 | mapping a private frame at an absent page moves it from the rest of the system to the space |
| PagingTeardown.EmptiedSubtree | kernel/paging.c:516-560 | emptying and unlinking a subtree extends the emptied slots by one and touches nothing outside the table |
| PagingBoot.PrefillKeepsTranslations | kernel/paging.c:92-100 | filling the kernel half with empty tables maps and unmaps nothing |
| PagingBoot.BootIsTables | kernel/paging.c:81-100 | the filled boot hierarchy satisfies the structure every later operation keeps |
| PagingBoot.MinimalBoot | kernel/paging.c:72-79 | a boot state with an empty PML4 satisfies what initialisation expects |
| SystemBoot.BootKernel | kernel/kernel.c:125-134 | page allocator, kernel half and kernel heap from the boot loader's hand-over: a system that comes up has a valid empty heap and translates every address as before |
| SystemBoot.BootAndRun | kernel/kernel.c:125-134 | boot, then any processes with any heap calls: what is in use is what was in use after boot and what the kernel heap took and holds, no node stays, and every address outside the heap's slot, the kernel image among them, translates as the boot loader had it |
| SystemBoot.HandoverIsBoot | kernel/pmm.c:82-191 | pages that are not offered are never free, so the boot tables are safe from the allocator |
| SystemBoot.ImageHandover | linker.ld:15-16 | a hand-over with the kernel image mapped at its link address meets the assumptions |
| PagingOps.StoppedWalk | kernel/paging.c:410-435 | a walk stopped before the last level decides whether the address is mapped by a large page |
| Paging.Vmm.constructor | kernel/paging.c:72-79 | the boot PML4 is the kernel's root |
| Paging.Vmm.Init | kernel/paging.c:72-101 | fills every absent kernel slot, keeps the others and all translations, and establishes the invariant |
| Paging.Vmm.AllocTable | kernel/paging.c:107-113 | a zeroed frame that was free, or none exactly when none is free |
| Paging.Vmm.Level | kernel/paging.c:142-181 | one level of a map: the linked table, a fresh one, or failure on a large page or lack of frames |
| Paging.Vmm.MapInto | kernel/paging.c:130-188 | success changes exactly one page, in one root or, for a kernel page, in all; failure changes no translation and comes from a large page or lack of frames |
| Paging.Vmm.IsMapped | kernel/paging.c:401-443 | agrees with the translation, for pages of all sizes |
| Paging.Vmm.UnmapFrom | kernel/paging.c:323-361 | removes exactly one 4 KB page and returns its frame; otherwise nothing changes |
| Paging.Vmm.AllocAndMap | kernel/paging.c:370-383 | maps a frame that was free, or hands it back and leaves at most empty tables; fails only for a large page in the way or when no other frame is free |
| Paging.Vmm.AllocInto | kernel/paging.c:370-383 | the same, with a null target meaning the kernel's PML4 |
| Paging.Vmm.Create | kernel/paging.c:460-482 | a new root sharing the kernel half, holding only its own frame; 0 exactly when no frame is free |
| Paging.Vmm.Release | kernel/paging.c:548-548 | gives back exactly a frame the allocator manages and has in use |
| Paging.Vmm.EmptyTable | kernel/paging.c:504-560 | empties a user table and everything below it, freeing each frame, and touches nothing else |
| Paging.Vmm.EmptySlot | kernel/paging.c:529-555 | the same for one slot |
| Paging.Vmm.Destroy | kernel/paging.c:496-576 | every other space keeps translations and frames; exactly the frames the space held are freed |
| PagingDriver.Execute | kernel/paging.c:130-576 | executes any list of map, unmap, allocate, create and destroy requests over the live spaces: the tables stay sound, every space translates kernel addresses as the kernel does, and the tables are the partial maps that the operations build up |
| PagingDriver.Serve | kernel/paging.c:130-576 | one request becomes the operation it asks for, with the invariant and the list of live roots kept |
| PagingRuns.StepRefines | kernel/paging.c:130-576 | each operation is an update, removal, creation or deletion of partial maps |
| PagingRuns.RunRefines | kernel/paging.c:130-576 | whole runs refine runs of partial maps |
| PagingRuns.WorkStaysInside | kernel/paging.c:370-383 | allocations in one space, some failing part-way, change only that space's account |
| PagingRuns.LifetimeConserves | kernel/paging.c:460-576 | create, any change confined to the space, destroy: the used set, the roots and all other spaces are as before |
| PagingRuns.Conservation | kernel/paging.c:460-576 | create, any allocations, destroy: the used set, the roots and all other spaces are as before |
| UHeapRuns.RunProcess | kernel/sched/lifecycle.c:438-463 | an address space created, any list of heap calls, the heap reset, the space destroyed: the used set grows by exactly the frames the kernel heap took, which the kernel holds; other spaces translate and hold what they did; no node stays allocated |
| UHeapRuns.ProcessConserves | kernel/uheap.c:35-111 | a run confined to the space and the kernel heap leaves behind what the kernel heap took and nothing else; with nothing taken the used set is what it was |
| UHeapRuns.RunCalls | kernel/uheap.c:35-111 | any list of heap calls changes the process's own space and what the kernel heap took, and nobody else's nodes |
| UHeapRuns.ConfinedGrows | kernel/heap.c:131-174 | growth of the kernel heap during a call adds exactly its frames to what is used outside the process |
| UHeapNodes.NodeServed | kernel/uheap.c:45-46 | a node adds one used block to its heap's and leaves everybody else's as they were |
| UHeapNodes.NodeFreed | kernel/uheap.c:79-79 | freeing a node takes it from its heap and from nobody else |
| UHeapPages.RangeReason | kernel/uheap.c:49-57 | a range that could not be mapped had a large page in the way, or after the rollback no more frames are free than it has pages |
| UHeapPages.MappedStep | kernel/uheap.c:49-59 | one more page mapped to a frame that was free |
| UHeapPages.UnmappedStep | kernel/uheap.c:28-33 | one more page unmapped and its frame free |
| UHeapPages.RolledBack | kernel/uheap.c:51-57 | mapping and unmapping a range restores every translation and page holding |
| UHeapLayout.GuardPages | kernel/uheap.c:42-43 | the pages on both sides of a live region are unmapped |
| UHeapLayout.NewSpaceHasEmptyHeap | kernel/uheap.c:39-39 | a new address space starts with an empty, unmapped heap window |
| UHeapLayout.GrowKeepsHeap | kernel/uheap.c:61-66 | a new region at the break keeps the window exactly mapped and regions apart |
| UHeapLayout.ShrinkKeepsHeap | kernel/uheap.c:74-80 | freeing a region keeps the same |
| UHeapLayout.FreedFramesAreFree | kernel/uheap.c:28-33 | every frame of a freed region is free again |
| UHeapBytes.WriteByte | kernel/uheap.c:103-108 | a store through the translation changes one readable byte only |
| UserHeap.RollbackAddsOnlyTables | kernel/uheap.c:51-57 | what a failed allocation leaves in use is page tables, never data frames |
| UserHeap.Pages | kernel/uheap.c:40-40 | a region has the fewest pages that hold its size |
| UserHeap.UHeap.constructor | include/uheap.h:44-45 | an empty heap |
| UserHeap.UHeap.UnmapRange | kernel/uheap.c:28-33 | unmaps the pages and frees their frames |
| UserHeap.UHeap.MapRange | kernel/uheap.c:48-59 | maps zeroed pages on fresh frames, or rolls everything back because a large page is in the way or too few frames are free |
| UserHeap.UHeap.Undo | kernel/uheap.c:53-54 | the rollback restores translations and page holdings |
| UserHeap.UHeap.Alloc | kernel/uheap.c:35-68 | a zeroed region at the break with its guard page and a node from the kernel heap, other regions' bytes kept; or 0 with every region and translation as before, only for a bad size, a full window, no node, a large page in the way, or too few frames; what the kernel heap took for the node is stated |
| UserHeap.UHeap.TakeNode | kernel/uheap.c:45-46 | asks the kernel heap for a node; growth of the kernel heap leaves this heap as it is |
| UserHeap.UHeap.DropNode | kernel/uheap.c:55-55 | gives the node back and changes nobody else's blocks |
| UserHeap.UHeap.MapRegion | kernel/uheap.c:48-67 | maps and links the region, or gives the node back |
| UserHeap.GrewKeepsHeap | kernel/uheap.c:45-46 | growth of the kernel heap keeps the window and the regions |
| UserHeap.GrewKeepsBytes | kernel/uheap.c:45-46 | and every byte of them |
| UserHeap.UHeap.FindRegion | kernel/uheap.c:90-92 | the first region with that base, if there is one |
| UserHeap.UHeap.Free | kernel/uheap.c:70-82 | frees exactly the region with that base, if there is one; any other pointer changes nothing |
| UserHeap.UHeap.RemoveRegion | kernel/uheap.c:76-79 | unmaps the region, unlinks it and frees its node |
| UserHeap.UHeap.Reset | kernel/uheap.c:113-123 | frees every node: the kernel heap's used blocks are those of the others |
| UserHeap.UHeap.Copy | kernel/uheap.c:103-108 | copies bytes between disjoint user ranges and changes no other byte |
| UserHeap.UHeap.Realloc | kernel/uheap.c:84-111 | keeps the first min(old, new) bytes whether it stays or moves, zeroes the rest of a moved region, keeps all other regions; failure leaves the old region; the kernel heap is asked only when the region must move |
| UserHeap.UHeap.MoveRegion | kernel/uheap.c:100-110 | allocate, copy, free |
| KHeapBlocks.TilingTotal | kernel/heap.c:131-174 | block sizes plus headers add up to the heap length |
| KHeapBlocks.TilingAligned | kernel/heap.c:177-179 | headers and payloads are 16-byte aligned and inside the heap |
| KHeapBlocks.TilingOrdered | kernel/heap.c:177-230 | blocks are address-ordered and disjoint |
| KHeapBlocks.CarveKeepsTiling | kernel/heap.c:203-229 | splitting keeps the tiling |
| KHeapBlocks.CarveUses | kernel/heap.c:203-229 | serving adds one used block and keeps the others |
| KHeapBlocks.ServedTight | kernel/heap.c:203-225 | a served block is larger than the request by at most 32 bytes; any more is cut off as a free block |
| KHeapBlocks.CoalesceKeepsTiling | kernel/heap.c:283-315 | coalescing keeps the tiling |
| KHeapBlocks.CoalesceKeepsUsed | kernel/heap.c:283-315 | and every used block |
| KHeapBlocks.CoalesceSeparates | kernel/heap.c:283-315 | and leaves no two free neighbours |
| KHeapList.CarveRepresents | kernel/heap.c:203-229 | the header writes of a split represent the carved list |
| KHeapList.MergeRepresents | kernel/heap.c:310-311 | the header write of a merge represents the merged list |
| KHeapList.AppendRepresents | kernel/heap.c:158-171 | the header writes of an append represent the longer list |
| KHeapPages.KPageInjective | kernel/heap.c:45-45 | distinct heap pages are distinct virtual pages |
| KHeapPages.RolledBack | kernel/heap.c:142-153 | a rolled-back expansion restores every translation in every address space and leaves only tables in use |
| KHeapPages.GrowthReason | kernel/heap.c:138-156 | a failed expansion had a large page in the way, or after the rollback no more frames are free than it asked for pages |
| KHeapPages.MappedGrew | kernel/heap.c:138-156 | an expansion is invisible outside the heap's zone and to what user spaces hold; the frames it took the kernel holds |
| KernelHeap.KmallocGrew | kernel/heap.c:177-256 | the same for every request, whatever its outcome |
| KernelHeap.ServedGives | kernel/heap.c:177-256 | a served request is an aligned payload of at least the requested size and adds exactly one used block |
| KernelHeap.KmallocGives | kernel/heap.c:177-256 | a request gets an aligned used block of at least the size asked for and less than 48 bytes more, and no other block becomes used |
| KernelHeap.KmallocFirstFit | kernel/heap.c:183-256 | from the lowest free block that is large enough; the heap grows, or the request fails, only if there is none |
| KernelHeap.ServedKeepsSeparation | kernel/heap.c:177-256 | serving never creates two free neighbours, even when the heap grows |
| KernelHeap.FreedGives | kernel/heap.c:259-318 | freeing removes one used block, keeps the others and the tiling, and leaves no two free neighbours |
| KernelHeap.FreshFits | kernel/heap.c:132-134 | the pages of an expansion hold the request and its header |
| KernelHeap.KHeap.constructor | kernel/heap.c:124-126 | an empty heap |
| KernelHeap.KHeap.FindFit | kernel/heap.c:183-194 | the first free block that is large enough, or none |
| KernelHeap.KHeap.Serve | kernel/heap.c:203-230 | carves the block and returns its payload |
| KernelHeap.KHeap.LastBlock | kernel/heap.c:168-169 | the tail of the list |
| KernelHeap.KHeap.AppendBlock | kernel/heap.c:158-171 | appends the new block |
| KernelHeap.KHeap.MapPages | kernel/heap.c:138-156 | maps the pages on fresh frames, or restores what was there because a large page is in the way or too few frames are free |
| KernelHeap.KHeap.RollBack | kernel/heap.c:146-153 | unmaps the pages and frees their frames |
| KernelHeap.KHeap.Expand | kernel/heap.c:131-174 | appends a free block of whole pages that holds the request, with the page tables and frames it took, or changes no block and no translation, with the reason |
| KernelHeap.KHeap.Kmalloc | kernel/heap.c:177-256 | serves first fit, growing once if nothing fits, and then the retry succeeds; states the pages gained; 0 leaves the heap as it was and means size 0, or no fit and a large page in the way or too few frames |
| KernelHeap.KHeap.GrowAndRetry | kernel/heap.c:249-255 | after a successful expansion, whose pages it states, the request is served from the new block |
| KernelHeap.KHeap.Kfree | kernel/heap.c:259-318 | marks the block free and coalesces |
| KernelHeap.KHeap.Coalesce | kernel/heap.c:283-315 | the loop computes the coalesced list |
| KernelHeap.KHeap.Copy | kernel/heap.c:329-329 | copies between disjoint ranges and changes no other byte |
| KernelHeap.KHeap.Krealloc | kernel/heap.c:321-343 | serves, stating the pages gained, and frees the old block; every byte that both sizes have is in the new block what it was in the old one, when the old size is within the block, and no other byte changes; failure keeps the old block |
| KernelHeap.KHeap.MoveBlock | kernel/heap.c:325-330 | the move itself, with the same statement on the bytes |
| Rects.ClipToBuffer | kernel/display.c:5-23 | the clipped rectangle has exactly the pixels of the area inside the buffer; none if there are none |
| Rects.Intersect | kernel/display.c:103-117 | the intersection has exactly the common pixels; none exactly if there are none |
| Rects.UnionCoversIff | kernel/display.c:119-133 | the union covers both rectangles if and only if its spans fit 32 bits |
| Rects.UnionIsLeast | kernel/display.c:119-133 | a fitting union is the least rectangle around both |
| Rects.UnionCanLosePixels | kernel/display.c:130-130 | a concrete union that wraps and loses a pixel |
| Rects.ListCoversIff | kernel/display.c:141-160 | every mark lies in a listed region if and only if the list never collapsed or all marks fit one 32-bit box |
| Rects.PixelsListedIff | kernel/display.c:141-160 | no marked pixel is missing from the list under exactly the same condition |
| Rects.BoxIsAround | kernel/display.c:150-152 | the box of fitting marks is spanned by them and holds every one |
| Rects.LoseOnePixel | kernel/display.c:141-160 | a concrete run of 65 marks whose last pixel is not listed |
| Rects.DirtyRegionList.constructor | kernel/display.c:135-139 | an empty list |
| Rects.DirtyRegionList.Clear | kernel/display.c:135-139 | an empty list |
| Rects.DirtyRegionList.BoundingBox | kernel/display.c:150-152 | the union of everything listed and the new mark, one after another |
| Rects.DirtyRegionList.Mark | kernel/display.c:141-160 | the list holds exactly the marks since the last clear while they are at most 64, and afterwards their box alone |
| Display.DisplayBuffer.FillRow | kernel/display.c:95-98 | the pixels at the row's 32-bit offset take the colour and no others, whether the offset wraps or not |
| Display.DisplayBuffer.FillRect | kernel/display.c:90-101 | exactly the positions the rows' offsets lead to take the colour; if those offsets fit 32 bits these are exactly the buffer's pixels inside the area; the clipped area is marked |
| Display.FilledIff | kernel/display.c:90-101 | a fill with something to change fills its area if and only if the offset of its last row fits 32 bits |
| Display.WrappedRow | kernel/display.c:95-95 | with 65536 pixels to a row, row 65536 is painted over row 0 |
| Display.RangeIsVisible | kernel/display.c:177-191 | the clip range of one axis holds exactly the positions inside bounds, source and target |
| Display.CopyRow | kernel/display.c:195-199 | one row copy shows the source pixels |
| Display.Render | kernel/display.c:173-201 | the clip-once row copy equals the per-pixel clipped copy for every scroll, bounds and stride, with all indices in range |

## Left out

- Sector encoding: sectors are typed (header, table part, directory, data); byte layouts of entries and header are not modelled.
- KyuzenFS calls on an unmounted volume other than creation (which formats) and mounting.
- KfsDriver.Execute: file sizes of at most 2^32 - 512 bytes, since a longer file's creation leaves an invalid volume (`KfsLoose.CreationKeepsValidIff`) and what the driver does on one is not modelled.
- KfsDriver.Perform: the same bound.
- kfs_exists, kfs_get_file_size, kfs_list_files and space statistics: they follow from what the modelled lookups state.
- Crash consistency between single sector writes: every call is taken as finished.
- SemaphoreProtocol.RunKeepsInv: count is an unbounded integer, so overflow of the 32-bit counter is not modelled.
- SemaphoreProtocol.UnitsConserved: the same.
- wait_abort is a step of the semaphore model only; the full-queue and early-wake returns of wait_block_locked appear as spurious returns of the condition variable only.
- Unlocking by a task that does not own the mutex.
- Huffman.ZHuffman.Decode: takes the bit buffer as it stands after refilling; the reader around it is `BitStream.BitReader.Decode`.
- Inflate.Output.Apply: takes the symbol with its extra bits as given; `InflateStream.InflateBlock` reads them from the stream.
- Inflate: stored blocks, the code-length alphabet and the zlib header; an output buffer of size 0, for which the doubling loop would not end, is excluded.
- PngUnfilter.UnfilterRow: one loop with the filter selected per byte stands for the per-filter loops with their separate head loops; expansion of depths below 8, alpha insertion and 16-bit swapping are not modelled.
- DeflateEncoder: the repository has no encoder; this one is written from RFC 1951 and chooses neither tokens nor codes.
- Adam7.Deinterlace: takes the seven reduced pictures as given, one element per pixel.
- PageAllocator.InitDynamic: memory map ends below 2^64; statistics output and pmm_set_total_ram are not modelled.
- Paging.Vmm.EmptyTable: one recursive method stands for the four nested loops; the visiting order is the same.
- Paging.Vmm.Destroy: managed frames are assumed to be mapped in one user space only (`Exclusive`), as every caller in the kernel does; with a shared frame the second owner would keep a freed page.
- Paging: flags above bit 11, permission bits along the walk, and TLB and CR3 handling; vmm_map_page and vmm_unmap_page repeat the modelled functions for the kernel root.
- PagingRuns.Conservation: covers allocations on absent pages; mapping over a present page drops its frame.
- PagingDriver.Execute: a request to map a caller's own frame into a user half is executed only for frames the allocator does not manage; the kernel's callers map fresh frames there, which is the allocation request.
- PagingDriver.Serve: the same.
- UserHeap.UHeap: a node's fields are kept in the list of regions, only its block lives in the kernel heap; frame contents are tracked for the process's pages only. The break never moves down, so freed address space is not reused.
- UserHeap.UHeap.Alloc: the kernel heap's zone has room for one more node.
- KernelHeap.KHeap.Kmalloc: requests for which the heap would leave its 512 GB slot are excluded, the source has no bound of its own; block headers live in a map of their own beside the payload bytes, so a stray write into a header is outside the model; the magic check and its panic are left out.
- KernelHeap.KHeap.Kfree: requires a payload address of the list, as the source does; a stale pointer is outside the model.
- display_buffer_create, wrap, destroy, single-pixel writes and viewport_scroll would add easy members.
- Scheduler, networking, drivers, user interface, ELF loading, the rest of stb_image (JPEG and other formats, zlib stored blocks).
