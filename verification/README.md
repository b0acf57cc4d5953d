# BoredOS memory management, FAT32, LZ4 and paths: a verified model

This project models the memory-management stack of BoredOS and the parts of its file systems that have the most
intricate state, and proves what they promise. Every module follows one component of the kernel. Code that changes
state in place is a class with the fields of the C structures, and its methods are proved against functions on
values; the theorems are about those functions and about whole runs of them.

| module | component |
|---|---|
| `CopyOnWrite` | fork and page faults over all address spaces at once, with fault handlers in flight |
| `BuddyAllocator`, `Pow2` | the zoned buddy allocator with per-processor stacks |
| `PageTable` | the four-level page table as a flat map of pages |
| `Areas` | the areas of an address space, as a list and a search tree |
| `Rwsem` | the reader/writer semaphore under every interleaving |
| `RadixTree` | the radix tree with tags and ordered lookup |
| `SlabCache` | slabs, magazines and the depot, and the layout of a slab |
| `FatTable`, `FatFile`, `FatNames` | the allocation table, appending and reading, directory names |
| `Lz4` | the LZ4 block and frame decoder |
| `Paths`, `Mounts` | path normalisation and the mount table |
| `Basics`, `Arithmetic` | optional values, sequences, products and quotients |

## Where the code does not do what one would expect

Each of these is stated as an exact condition:

- `CopyOnWrite.StaleNotPresentFault` and `StepSettles`: the not-present branch of the fault handler does not look at
  the entry again.
- `BuddyAllocator.FlagsDecide` and `FrameAllocator.FlaggedFrame`: a single frame requested with the free flag, as
  dev/usbms.c:59 does by passing a zone number, breaks coalescing once it is released.
- `BuddyAllocator.FrameAllocator.InitPercpu`: a second call would lose the frames on the stacks.
- `FatFile.SeekThenWrite`: a write after a seek to an interior cluster boundary goes one cluster too far.
- `FatNames.ComesBackIff`: names that start with byte 0xE5 are taken for deleted ones, long entry or not, and names with
  spaces, with a trailing dot or with a late last dot do not survive as short names.
- `PageTable.RollbackRestores`: undoing a partial map of several pages also removes mappings that were there before.
- `RadixTree.Radix.Insert` and `Radix.Delete`: the first item of an empty tree has to go to index 0; a tree of height 2 or more
  keeps its root when the last item goes.
- `Areas.NoMemoryForSplit` and `WrappedUnmap`: an unmap in the middle of an area reports success although it ran out
  of memory, and one whose end wraps around at 2^64 leaves areas that begin above the wrapped end.
- `Lz4.DecodesIff` and `FrameIff`: lengths, positions and sizes are added at 32 bits; sums of 2^31 and above pass the
  tests. The inputs are in `LiteralsWrap`, `MatchWraps` and `FrameWraps`, and `ShortFits` says which blocks are safe.
- `Mounts.DistinctIff`: mount paths above 255 characters are compared in full and stored in part.
- `Paths.Idempotent`: a name cut at the end of the buffer can become a dot entry; the condition says where in the input.
- `SlabCache.NoObjectsIff`, `PlainRuleIff` and `ObjectCache.AllocFromLists`: a cache for objects larger than a page can
  be made; it gives no object, with constructors an address that is none, and keeps its slab on the partial list.

## Model

| member | source | states |
|---|---|---|
| CopyOnWrite.StartInv | mem/vmm.c:122-146 | the invariant holds before the first address space is made |
| CopyOnWrite.CreateKeepsInv | mem/vmm.c:148-166 | a new address space keeps it |
| CopyOnWrite.EnterKeepsInv | mem/vmm.c:478-606 | the fault handler, up to its return or to the moment it holds a private copy and also when a not-present code is stale, keeps every frame's reference count equal to the entries, the handlers and the lost references that it stands for, and a writable entry the only one on its frame |
| CopyOnWrite.CommitKeepsInv | mem/vmm.c:608-642 | the compare-and-swap keeps the same invariant, with any number of handlers in flight and whatever it finds; it reports success when every handler of the space finds its entry as it was or writable |
| CopyOnWrite.CopyIsPrivate | mem/vmm.c:599-632 | between copy and swap no entry and no other handler knows the private copy |
| CopyOnWrite.DropKeepsInv | mem/vmm.c:312-324 | unmapping or destroying drops exactly one reference per mapped page |
| CopyOnWrite.CloneKeepsInv | mem/mmu.c:710-785 | fork keeps the counts exact although both sides end up read-only; a child entry for which table memory runs out leaves a lost reference |
| CopyOnWrite.MapKeepsInv | mem/vmm.c:244-290 | a new area maps nothing yet |
| CopyOnWrite.WritableIsSole | mem/vmm.c:591-597 | a writable entry is the only entry on its frame, over all address spaces |
| CopyOnWrite.StoreKeepsInv | mem/vmm.c:548-642 | a store through a writable entry keeps the invariant |
| CopyOnWrite.StoreKeepsTrue | mem/vmm.c:548-642 | and the copies that handlers have already taken true |
| CopyOnWrite.StepKeepsInv | mem/vmm.c:148-642 | every step of every thread keeps the invariant, stale error codes included |
| CopyOnWrite.EnterSeen | mem/vmm.c:548-606 | behind a handled fault without the present bit the page is all zeros, behind any other it looks as before |
| CopyOnWrite.EnterKeepsImages | mem/vmm.c:478-606 | a fault changes what a space sees only if it is a stale one of that space that disturbs it |
| CopyOnWrite.EnterKeepsTrue | mem/vmm.c:548-606 | a fault leaves the copies of handlers true unless it puts back the very entry a handler copied |
| CopyOnWrite.CommitKeepsImages | mem/vmm.c:608-642 | the swap of a true copy changes what no address space sees |
| CopyOnWrite.StoreKeepsImages | mem/vmm.c:548-642 | a store in one address space is invisible in all others |
| CopyOnWrite.CloneImages | mem/vmm.c:208-242 | fork leaves every image alone, and the child sees the parent's memory wherever its entry could be made, zeros elsewhere |
| CopyOnWrite.StepKeepsImages | mem/vmm.c:148-642 | no step changes what a space sees except its own stores, its own mappings and its own disturbing stale faults; those of others never do |
| CopyOnWrite.StepKeepsTrue | mem/vmm.c:148-642 | no step, of the space itself or of others, makes the copy of a handler untrue but such a fault |
| CopyOnWrite.RunKeepsInv | mem/vmm.c:148-642 | the invariant holds after every interleaving of create, map, fault, store, unmap, fork and destroy |
| CopyOnWrite.Safety | mem/vmm.c:122-642 | in every state reachable from the start: counts are exact, a writable entry shares its frame with no entry of any space, and a handler's copy is its own |
| CopyOnWrite.RunIsolation | mem/vmm.c:148-642 | over every run that does not disturb a space it sees the same memory |
| CopyOnWrite.RunKeepsTrue | mem/vmm.c:148-642 | over every run without such a fault the copies stay true |
| CopyOnWrite.Isolation | mem/vmm.c:122-642 | in the life of the kernel from its start: a space sees the same memory for as long as nothing disturbs it, at any moment reached without such a fault |
| CopyOnWrite.ForkIsSnapshot | mem/vmm.c:208-242 | whatever everybody else does after a fork, the child keeps the parent's memory of that moment, with zeros on the pages whose entry could not be made |
| CopyOnWrite.StepRefines | mem/vmm.c:122-642 | sharing is invisible: contents and rights that the processes see change in a step as in a kernel that copies all memory at fork and shares no frame |
| CopyOnWrite.RunRefines | mem/vmm.c:122-642 | the same over every run without a disturbing stale fault |
| CopyOnWrite.ForkByCopying | mem/vmm.c:122-642 | from the start of the kernel, over every such interleaving: what every process sees is what it would see if fork copied |
| CopyOnWrite.StaleNotPresentFault | mem/vmm.c:548-570 | the not-present branch overwrites an entry without a look: a reference is lost if and only if the page had a frame of its own, the image changes if and only if the page was not all zeros, handlers on the page keep finding an entry they can deal with if and only if the new one is writable or the one they copied, and their copies stay true if and only if none of them is given its old entry back over other bytes |
| CopyOnWrite.PopulatesIff | mem/vmm.c:536-570 | the not-present branch, outcome by outcome: it succeeds if and only if the area allows the access and a write gets a frame, and then maps the zero page read-only, or the new frame with the rights of the area |
| CopyOnWrite.PresentIff | mem/vmm.c:572-606 | the present branch, outcome by outcome: only writes the area allows are served; a page on a sole reference becomes writable and stays the same otherwise, any other is copied to the frame given; every refusal changes nothing |
| CopyOnWrite.CommitIff | mem/vmm.c:608-642 | the swap succeeds if and only if the handler finds its entry writable or as it was, and then the page is writable, in the second case on the copy and with the executability of the area; a third value stays |
| CopyOnWrite.AloneIff | mem/vmm.c:572-642 | both together without interruption: when a present write fault succeeds, for want of what it fails, and the exact entry it leaves |
| CopyOnWrite.WriteIff | mem/vmm.c:478-642 | a write, to a page present or not, succeeds if and only if its area allows it and a frame is there; the page is then writable, and where it is not yet the next fault needs no frame |
| CopyOnWrite.ForkRights | mem/vmm.c:208-242 | after a fork both sides have every area with the same rights, caught on write where it is writable, and every entry read-only on the same frame with the same executability |
| CopyOnWrite.WriteAfterFork | mem/vmm.c:208-642 | so whatever could be written before a fork can be written by parent and child after it: with a frame at hand the fault succeeds and makes the page writable |
| CopyOnWrite.StepSettles | mem/vmm.c:608-642 | a handler comes to find a third value, and its write fails with -EFAULT, only through a stale fault, and through one if and only if that leaves it neither writable nor as it was |
| CopyOnWrite.RunSettles | mem/vmm.c:608-642 | over every run without such a fault handlers find their entry as it was or writable |
| CopyOnWrite.SwapsSucceed | mem/vmm.c:122-642 | in the life of the kernel from its start: without such a fault of a space no swap of its handlers fails with -EFAULT |
| CopyOnWrite.FaultAloneSwaps | mem/vmm.c:599-642 | an undisturbed write fault ends with the page on a private copy |
| CopyOnWrite.Kernel.constructor | mem/vmm.c:122-146 | start-up gives the start of the model |
| CopyOnWrite.Kernel.CreateSpace | mem/vmm.c:148-166 | as code, the creation of the model |
| CopyOnWrite.Kernel.DemandPage | mem/vmm.c:548-570 | the not-present branch as code is that of the model, with its error cases |
| CopyOnWrite.Kernel.DropPages | mem/vmm.c:178-195 | the loop over the pages of a space drops one reference per mapped page |
| CopyOnWrite.Kernel.UnmapPages | mem/vmm.c:292-362 | unmap as code is the unmap of the model and keeps the invariant |
| CopyOnWrite.Kernel.DestroySpace | mem/vmm.c:168-206 | destroy as code is the destroy of the model and keeps the invariant |
| CopyOnWrite.Kernel.CloneEntries | mem/mmu.c:710-785 | the clone loop downgrades the parent's entries, hands out read-only twins and counts each |
| CopyOnWrite.Kernel.CloneSpace | mem/vmm.c:208-242 | fork as code is the fork of the model, whose rights and entries `ForkRights` states, and keeps the invariant |
| CopyOnWrite.Kernel.BreakSharing | mem/vmm.c:572-642 | the write-fault branch as code, for every area: refusal, reuse of a frame with one reference, or copy and swap, with the outcome and the entry that `AloneIff` states; keeps the invariant |
| Pow2Blocks.AlignedMeans | mem/pmm.c:112-122 | the recursive test for alignment is divisibility by the block size |
| Pow2Blocks.BuddyMeans | mem/pmm.c:347-348 | the buddy is the other half of the block of twice the size: above a block at an even place, below one at an odd place |
| BuddyAllocator.ZoneLimits | mem/pmm.c:70-74 | a block of the lowest zone ends at or below frame 0x1000, one of the lowest two at or below frame 0x100000 |
| BuddyAllocator.BuddyIsHead | mem/pmm.c:347-356 | stale descriptors inside larger blocks never mislead coalescing: a usable buddy is the head of a block of no larger order |
| BuddyAllocator.MergeTest | mem/pmm.c:349-356 | the test on the buddy's descriptor holds if and only if the buddy is on the free list of that zone and order |
| BuddyAllocator.TakeKeeps | mem/pmm.c:213-216 | taking a block off its list keeps the partition into aligned blocks, the lists and the descriptors |
| BuddyAllocator.SplitKeeps | mem/pmm.c:218-229 | so does every split |
| BuddyAllocator.MergeKeeps | mem/pmm.c:358-363 | so does every merge |
| BuddyAllocator.PutKeeps | mem/pmm.c:366-370 | so does putting the merged block on its list |
| BuddyAllocator.GrowCoalesced | mem/pmm.c:347-370 | a block put on a list once its buddy is not free creates no pair of free buddies |
| BuddyAllocator.ShrinkCoalesced | mem/pmm.c:211-238 | taking blocks away creates none either |
| BuddyAllocator.SplitHolds | mem/pmm.c:218-229 | while splitting, the frames missing from the free lists are exactly those of the block in hand |
| BuddyAllocator.GiveHandsOut | mem/pmm.c:231-235 | the caller's block is the only change to the free frames |
| BuddyAllocator.MergeReturns | mem/pmm.c:347-364 | while merging, the block in hand has absorbed free blocks only |
| BuddyAllocator.PutReturns | mem/pmm.c:366-370 | a free adds exactly the caller's frames to the free frames |
| BuddyAllocator.Conservation | mem/pmm.c:240-419 | free pages of all zones, frames on processor stacks and frames with callers add up to the usable frames |
| BuddyAllocator.NeverMisled | mem/pmm.c:347-370 | while the invariant holds, no block that is freed absorbs a buddy that is on no free list |
| BuddyAllocator.FlagsDecide | mem/pmm.c:373-413 | when the last reference to a frame is dropped and it goes to a stack, some block's coalescing test is misled if and only if the frame was requested with the free flag and its neighbour is usable |
| BuddyAllocator.FlaggedMisleads | mem/pmm.c:349-356 | it is then the neighbour that is misled |
| BuddyAllocator.HeldApart | mem/pmm.c:240-330 | references held at the same time are to one block or share no frame |
| BuddyAllocator.RangeInBlock | mem/pmm.c:343-371 | without free buddies, an aligned range of free frames lies inside one free block |
| BuddyAllocator.CoalescedUnique | mem/pmm.c:107-371 | the same usable frames, all free and without free buddies, are cut into the same blocks |
| BuddyAllocator.Run | mem/pmm.c:82-436 | a whole life from start-up: whatever is requested, shared and released on any processors is served or refused for its reason, and when everything was given back and the stacks are empty the free blocks are those of the start again |
| BuddyAllocator.FrameAllocator.constructor | mem/pmm.c:129-186 | before memory is ingested every frame is reserved and nothing is free |
| BuddyAllocator.FrameAllocator.FindOrder | mem/pmm.c:212-215 | the smallest order with a free block, and none if and only if the zone has no free block of the order or above |
| BuddyAllocator.FrameAllocator.AllocFromZone | mem/pmm.c:211-238 | hands out one aligned block of the zone, the front of its smallest free block that is large enough, and fails if and only if the zone has none |
| BuddyAllocator.FrameAllocator.SplitDown | mem/pmm.c:218-229 | splits the found block down to the request |
| BuddyAllocator.FrameAllocator.FreeToZone | mem/pmm.c:343-371 | gives the block back, merged as far as buddies are free; if no two free buddies existed, none exist after |
| BuddyAllocator.FrameAllocator.FetchBatch | mem/pmm.c:265-280 | fetches up to sixteen frames for a refill, all from the zone asked for, fewer only if it has no more |
| BuddyAllocator.FrameAllocator.Refill | mem/pmm.c:265-298 | refills an empty stack with at most fifteen frames and keeps one more for the caller, all of the normal zone, or of the zone below if the normal one has no free page; fails if and only if that zone has no frame |
| BuddyAllocator.FrameAllocator.AllocFromZones | mem/pmm.c:301-329 | tries the zones from the highest allowed down: fails if and only if no block lies in the frames the flags allow, below 0x1000, below 0x100000 or anywhere; takes a lower zone only if those above have none, and there the smallest block |
| BuddyAllocator.FrameAllocator.AllocOrder | mem/pmm.c:240-330 | hands out a block nobody else has, aligned, inside the frames the flags allow, for every set of flags; fails only if no such block is free; takes the top of the stack, refills it when it is empty, or searches the zones, each under its exact condition |
| BuddyAllocator.FrameAllocator.PopBatch | mem/pmm.c:398-402 | the sixteen frames drained from a full stack are all of the normal zone |
| BuddyAllocator.FrameAllocator.FreeToCpu | mem/pmm.c:388-413 | a freed frame of the normal zone goes to the stack; the drain never misfiles a frame of another zone |
| BuddyAllocator.FrameAllocator.FreeOrder | mem/pmm.c:373-419 | drops one reference; the last one gives back exactly the caller's block, to the stack or to the zone under its exact condition, and keeps the invariant, except for a frame that carries the free flag and goes to a stack, for which the exact new state is given |
| BuddyAllocator.FrameAllocator.FlaggedFrame | dev/usbms.c:59 | the run that goes wrong: a frame requested with the free flag while the normal zone has one, and released, is on a stack while its neighbour's coalescing test would absorb it |
| BuddyAllocator.FrameAllocator.PageRef | mem/pmm.c:432-436 | one more reference to a caller's block |
| BuddyAllocator.FrameAllocator.InitPercpu | mem/pmm.c:84-89 | emptying and enabling the stacks keeps every frame if and only if they were empty |
| BuddyAllocator.FrameAllocator.AddFreeBlock | mem/pmm.c:91-105 | adds one aligned block to the usable frames |
| BuddyAllocator.FrameAllocator.LargestOrder | mem/pmm.c:112-122 | the largest aligned block that stays inside the range and inside one zone |
| BuddyAllocator.FrameAllocator.IngestRange | mem/pmm.c:107-127 | the usable frames grow by exactly the range, all of them free; a range that touches no usable frame brings no free buddies |
| BuddyAllocator.FrameAllocator.IngestRegion | mem/pmm.c:187-208 | a region is ingested around the frames of the descriptor array, with the same promises |
| BuddyAllocator.FrameAllocator.Init | mem/pmm.c:129-209 | after start-up exactly the frames of the usable regions outside the descriptor array are usable, all are free, and if no two regions touch no two buddies are |
| BuddyAllocator.FrameAllocator.Serve | mem/pmm.c:82-436 | after any requests, shared references and releases on any processors: partition, lists, descriptors, stacks and counts hold, every held block is counted as often as it is held, every request was served or refused for its reason, the usable frames are the same, and no pair of free buddies has appeared |
| FatTable.SetWordMeans | fs/fat32.c:292-295 | setting an entry changes the low 28 bits of that entry and nothing else |
| FatTable.EntryIs | fs/fat32.c:256-272 | an entry is the low 28 bits of its word in its sector |
| FatTable.ClosedWalk | fs/fat32.c:773-783 | a walk never leaves a set of clusters that is closed under links |
| FatTable.FreedAll | fs/fat32.c:773-783 | what the release loop visited is exactly what was reachable |
| FatTable.Table.Load | fs/fat32.c:260-265 | the cached sector is the sector of the first copy |
| FatTable.Table.NextCluster | fs/fat32.c:256-272 | follows a link; a free or self-referring entry ends the chain |
| FatTable.Table.SetFatEntry | fs/fat32.c:274-302 | all copies stay equal, the cache equals the first, one entry changes |
| FatTable.Table.AllocateCluster | fs/fat32.c:742-771 | takes the first free entry from the last one taken on, or from 3 if that is below, and then round from 2; marks it the end of a chain and changes nothing else; fails if and only if no entry from 2 on is free |
| FatTable.Table.FreeClusterChain | fs/fat32.c:773-783 | zeroes exactly the clusters reachable from the start and ends on cyclic tables too |
| FatFile.PutChunk | fs/fat32.c:890-910 | a cluster rewritten from the end of file on makes the chain hold the old bytes and the chunk |
| FatFile.ChainGrows | fs/fat32.c:831-839 | a fresh cluster linked behind the last one makes a longer acyclic chain |
| FatFile.OthersKept | fs/fat32.c:799-918 | chains disjoint from the file's keep their links and their bytes |
| FatFile.KeptTrans | fs/fat32.c:799-918 | and do so over any number of steps |
| FatFile.FullStays | fs/fat32.c:799-918 | appending never frees a cluster: a full disk stays full |
| FatFile.SeekThenWrite | fs/fat32.c:828-840 | a write after a seek goes to the cluster of its position if and only if the position is 0, inside a cluster, or the end of the last cluster |
| FatFile.SeekToEnd | fs/fat32.c:1643-1671 | a seek to the end leaves the handle ready to append |
| FatFile.Volume.Extend | fs/fat32.c:833-837 | links one more cluster, or the disk is full |
| FatFile.Volume.Advance | fs/fat32.c:828-840 | moves to the next cluster as the write loop does, extending the chain when it is used up |
| FatFile.Volume.Seek | fs/fat32.c:1643-1671 | positions a handle, clamped to the size |
| FatFile.Volume.FindRun | fs/fat32.c:844-863 | finds clusters side by side behind the first and links them; it stops short only before one that is not adjacent or on a full disk |
| FatFile.Volume.WriteBurst | fs/fat32.c:842-888 | the fast path over adjacent clusters, at most 64 of them and whole ones only, lands the bytes in chain order |
| FatFile.Volume.WritePart | fs/fat32.c:890-910 | part of a cluster keeps the bytes before the end of file and what lies behind the part; a fresh cluster is zero elsewhere |
| FatFile.Volume.FirstCluster | fs/fat32.c:814-825 | a file without clusters gets its first |
| FatFile.Volume.Write | fs/fat32.c:799-918 | an append adds exactly the bytes reported written; a short count means a full disk; other chains keep links and bytes |
| FatFile.Volume.Read | fs/fat32.c:619-660 | returns exactly the bytes at the position, up to the size asked for or the end of file |
| FatFile.Volume.AppendAll | fs/fat32.c:799-918 | any number of appends of any sizes leaves the old bytes followed by all bytes reported written; a count falls short only if the disk ends up full |
| FatFile.OtherEnds | fs/fat32.c:799-918 | a file with clusters of its own still ends where it did after a write to another file |
| FatFile.Volume.AppendTo | fs/fat32.c:799-918 | an append to one of several open files leaves every file at its end, with its own bytes, and no two sharing a cluster; a short count means a full disk |
| FatFile.Volume.AppendMany | fs/fat32.c:799-918 | any interleaving of appends to any number of open files gives each its old bytes followed by exactly the bytes reported written to it; a count falls short only if the disk ends up full |
| FatFile.Volume.ReadBack | fs/fat32.c:619-660 | reading from the start returns those bytes |
| FatNames.WriteEntries | fs/fat32.c:378-420 | the entries carry the parts of the name, last part first and marked |
| FatNames.CarriesIs | fs/fat32.c:398-418 | what each of the thirteen characters of a long entry is: the character of the name, the end mark, or padding |
| FatNames.ExtractChars | fs/fat32.c:1072-1092 | one entry's characters go to their place up to the end mark or padding |
| FatNames.PartsRun | fs/fat32.c:511-519 | the parts of a name, last part first, fill the buffer from the end, whatever it held |
| FatNames.SlotRun | fs/fat32.c:503-530 | the records of a file give its name, those of a deleted or volume record none, whatever came before |
| FatNames.ScanCluster | fs/fat32.c:503-530 | the loop over the records of a cluster is the scan of the model |
| FatNames.ScanDirectory | fs/fat32.c:1115-1152 | a scan of a directory of any number of clusters finds exactly the names of its files, in order; a listing ends at the first record never used, a search goes on in the next cluster |
| FatNames.CreateEntry | fs/fat32.c:348-443 | creating a file writes the records of its name |
| FatNames.ToDos | fs/fat32.c:306-338 | the eleven characters: eight before the last dot, three behind it, in capitals |
| FatNames.DosCharIs | fs/fat32.c:306-338 | what each of the eleven characters is: one of the first eight before the last dot or of the three behind it, in capitals, or a space |
| FatNames.TestLong | fs/fat32.c:352-376 | a long name is chosen if and only if the name has a small letter, more than eight characters before its first dot or more than three behind it |
| FatNames.ResolveName | fs/fat32.c:72-88 | the long name if one was collected, else the short one |
| FatNames.ShortIff | fs/fat32.c:306-338 | the eleven characters spell a name that needs no long entry if and only if it has no space, its last dot is within the first nine characters and something follows that dot |
| FatNames.ComesBackIff | fs/fat32.c:503-530 | a file comes back under its name if and only if it does not start with byte 0xE5 nor, in a listing, with a dot that is not its last, and its name gets a long entry or fits a short one; it is not seen at all if and only if it starts so |
| FatNames.HiddenNames | fs/fat32.c:506-509 | two names that are lost, one with a long entry and one that fits a short one |
| FatNames.WriteAndRead | fs/fat32.c:348-530 | a file created among others: a scan finds the others as before and the new one under the condition above |
| PageTable.IndexIs | mem/mmu.c:50-53 | the four indices of a page are the nine-bit digits of its number |
| PageTable.UnlinkLink | mem/mmu.c:262-345 | undoing the creation of a table restores all tables and the free frames |
| PageTable.GrowKeeps | mem/mmu.c:258-357 | a map keeps the tree, touches no table above and makes its page translate to the new entry |
| PageTable.GrowOther | mem/mmu.c:258-357 | and changes the translation of no other page |
| PageTable.GrowTrim | mem/mmu.c:258-357 | a map leaves no empty table behind |
| PageTable.ShrinkClears | mem/mmu.c:369-447 | an unmap clears every page behind its entry |
| PageTable.ShrinkOther | mem/mmu.c:369-447 | and changes the translation of no other page |
| PageTable.ShrinkTrim | mem/mmu.c:428-444 | an unmap in the lower half leaves no empty table |
| PageTable.ShrinkGrow | mem/mmu.c:258-447 | table by table, unmapping undoes mapping |
| PageTable.MapRefines | mem/mmu.c:258-357 | a successful map changes the flat translation at its page only; one that fails for memory or for a large page in the way changes nothing; no frame is lost |
| PageTable.UnmapRefines | mem/mmu.c:369-447 | an unmap clears exactly its page, or the 512 pages of a managed 2 MiB page, and nothing where neither is mapped; no frame is lost |
| PageTable.UnmapUndoesMap | mem/mmu.c:258-447 | in the lower half, map and unmap of a page that was not mapped give back the very same tables and the same set of free frames |
| PageTable.ProtectRefines | mem/mmu.c:488-552 | a change of protection gives exactly the new flags to its page, or to the 512 pages of a 2 MiB page, on the same frame, and changes no other translation |
| PageTable.RunSound | mem/mmu.c:258-552 | every run of maps, unmaps and protection changes keeps the tree, leaves no empty table and conserves the frames |
| PageTable.RunTranslates | mem/mmu.c:258-552 | after every run of maps, unmaps and protection changes, large pages included, every page translates to what the calls, by their result codes, leave of a flat table |
| PageTable.OutcomeIff | mem/mmu.c:258-357 | a map fails if and only if a large page is in the way, or fewer frames are free than tables are missing |
| PageTable.EntryDepth | mem/mmu.c:554-622 | a page translates to a 4 KiB, a 2 MiB or a 1 GiB page, found at that depth, or to nothing |
| PageTable.PhysicalIs | mem/mmu.c:585-622 | the physical address: frame plus offset for 4 KiB, 2 MiB and 1 GiB pages |
| PageTable.KeepsDistance | mem/mmu.c:585-622 | addresses behind one entry, large or small, keep their distance in physical memory |
| PageTable.RollbackRestores | mem/mmu.c:458-475 | a failed map of several pages restores every translation if and only if none of the pages before the failing one was mapped |
| PageTable.AddressSpace.constructor | mem/mmu.c:157-176 | a new address space translates nothing in the half it owns |
| PageTable.AddressSpace.Descend | mem/mmu.c:268-345 | one level down, with a new table, an error for a large page, or an error for memory |
| PageTable.AddressSpace.MapPage | mem/mmu.c:258-357 | the code with its rollbacks is the map of the model: on an error the state is the old one |
| PageTable.AddressSpace.IsEmpty | mem/mmu.c:117-122 | a table is empty if and only if all its entries are |
| PageTable.AddressSpace.UnmapPage | mem/mmu.c:369-447 | the code with its clean-up is the unmap of the model; it fails if and only if a 1 GiB page is in the way |
| PageTable.AddressSpace.MapPages | mem/mmu.c:458-475 | maps all pages, or unmaps those already mapped and returns the code of the map that failed |
| PageTable.AddressSpace.ProtectPage | mem/mmu.c:488-552 | the code is the change of protection of the model; it succeeds if and only if a 4 KiB or a 2 MiB page is there |
| PageTable.AddressSpace.VirtToPhys | mem/mmu.c:554-622 | frame plus offset of the flat translation, whatever the size of the page; 0 if there is none |
| RadixTree.Fits | mem/radix_tree.c:11-21 | the table of largest indices says which height an index needs |
| RadixTree.Reaches | mem/radix_tree.c:115-137 | the walk from the root passes every node that stands on its way |
| RadixTree.PushView | mem/radix_tree.c:55-71 | growing the tree changes no cell |
| RadixTree.PushKeeps | mem/radix_tree.c:55-71 | and keeps counts, links and tags above tagged nodes |
| RadixTree.LinkView | mem/radix_tree.c:94-105 | a new node changes no cell |
| RadixTree.UnlinkView | mem/radix_tree.c:199-203 | freeing a node without slots changes no cell |
| RadixTree.PokeTags | mem/radix_tree.c:216-278 | a node may lose a tag bit where nothing below has it, and gain one where its parent has it |
| RadixTree.LeafStep | mem/radix_tree.c:107-112 | a change of one leaf slot shows at one index |
| RadixTree.CollapseStep | mem/radix_tree.c:207-211 | the tree that lost its last item becomes empty |
| RadixTree.BitClear | mem/radix_tree.c:280-300 | below a clear tag bit nothing is tagged |
| RadixTree.Radix.constructor | mem/radix_tree.c:35-40 | a new tree holds nothing and has all blocks free |
| RadixTree.Radix.Extend | mem/radix_tree.c:42-74 | grows the tree to the least height that holds the index without changing a cell, or runs out of memory; an empty tree only gets its height |
| RadixTree.Radix.Insert | mem/radix_tree.c:76-113 | adds one cell; a refusal leaves every cell alone and has one of three reasons; a missing root is followed if and only if the tree is empty and the index is not 0 |
| RadixTree.Radix.Lookup | mem/radix_tree.c:115-137 | the item at the index, or null if and only if there is none |
| RadixTree.Radix.Delete | mem/radix_tree.c:139-214 | takes out one cell with its tags and nothing else, and returns the item; afterwards no node on the way to it is empty and no tag bit on the way lacks a tag below, but for the root, which a tree of height 2 or more keeps |
| RadixTree.Radix.Tidy | mem/radix_tree.c:184-203 | on the way up tag bits without tags below go, and so does an empty child; no cell and no other node changes |
| RadixTree.Radix.Ascend | mem/radix_tree.c:184-205 | the clean-up above a deleted item changes no other cell and leaves every node below the root tidy |
| RadixTree.Radix.TagSet | mem/radix_tree.c:216-235 | tags the item at the index and no other; nothing is kept in a tree of height 0 |
| RadixTree.Radix.TagClear | mem/radix_tree.c:237-278 | untags the item at the index and no other; on the way to it no tag bit is left without a tag below |
| RadixTree.Radix.TagGet | mem/radix_tree.c:280-300 | says yes for a tagged item, and for no other unless an absent index was tagged |
| RadixTree.Radix.GangNode | mem/radix_tree.c:302-327 | the items asked for below a node, in index order, until there are enough |
| RadixTree.Radix.GangLookup | mem/radix_tree.c:329-347 | exactly the first items at or above the index, all or with a tag, in ascending order; fewer than asked for only if there are no more |
| RadixTree.Radix.Serve | mem/radix_tree.c:42-278 | every call does to the tree what it does to a finite map from index to item and tags; nodes in use and free blocks are together the same blocks |
| RadixTree.Run | mem/radix_tree.c:35-278 | a whole life of a tree: after any calls it is the map that the calls make of the empty one, no block is lost or used twice, and every call that is not done has its reason: the index is there, is too large, finds no node or is a first one above 0; nothing is there to be tagged or the tree has height 0 |
| Areas.CutOneIs | mem/vmm.c:301-353 | what is left of one area, case by case: all, nothing, its left or its right part, or both, with their file offsets |
| Areas.CutLook | mem/vmm.c:300-354 | unmapping a range clears its addresses and leaves type, flags, file and effective file offset of all others |
| Areas.NoMemoryForSplit | mem/vmm.c:329-340 | without memory for a second area the range ends up unmapped if and only if no area holds it in its middle |
| Areas.EndIff | mem/vmm.c:295-296 | the 64-bit end of the range to unmap is right, and above its start, if and only if it is below 2^64 |
| Areas.WrappedUnmap | mem/vmm.c:295-354 | when it has wrapped around, everything from the start on ends up unmapped if and only if each area that reaches above the start begins below the wrapped end, and there is memory where one has to be split |
| Areas.CutSorted | mem/vmm.c:300-354 | the areas stay in order and apart |
| Areas.GraftInorder | mem/vma.c:126-142 | a node added at the end of the search keeps the tree in list order |
| Areas.EraseInorder | mem/vma.c:165-180 | a node taken out keeps the tree in list order |
| Areas.AddedLook | mem/vma.c:119-163 | a new area gives its addresses their meaning and leaves the others alone |
| Areas.RunLooks | mem/vmm.c:244-362 | over any run of maps and unmaps, the meaning of every address is what the calls, by the places they got, leave of a flat map |
| Areas.NextGap | mem/vma.c:103-114 | the gap behind an area takes the range, or the range has to lie behind the next area |
| Areas.AreaSet.Find | mem/vma.c:63-79 | the area that holds the address, or none if and only if no area does |
| Areas.AreaSet.FindFree | mem/vma.c:81-117 | the lowest page at which the range fits, or 0 if and only if there is none |
| Areas.AreaSet.Insert | mem/vma.c:119-163 | adds the area to list and tree if and only if no area overlaps it |
| Areas.AreaSet.Remove | mem/vma.c:165-180 | takes the area out of list and tree |
| Areas.AreaSet.Map | mem/vmm.c:244-290 | maps at the address asked for or at the lowest free place, for every 64-bit hint and length; fails only for want of room, of memory or of a free range; a length that rounds to none makes one page at an address inside a page |
| Areas.AreaSet.UnmapOne | mem/vmm.c:301-353 | the four cases of one area: gone, split, trimmed left, trimmed right |
| Areas.AreaSet.Unmap | mem/vmm.c:292-362 | list and tree afterwards hold the areas with the range cut out, for every 64-bit address and length, wrapped ends included |
| Areas.AreaSet.Serve | mem/vmm.c:244-362 | any run of maps and unmaps: every mapping goes where it was asked for or to the lowest free place, and every address ends up as the flat map of `RunLooks` says |
| Lz4.LengthRead | fs/lz4.c:21-28 | a length written as runs of 255 is read back |
| Lz4.LengthWritten | fs/lz4.c:21-28 | a length that was read is written just so |
| Lz4.CopyMore | fs/lz4.c:70-72 | the copy, overlapping or not, goes byte by byte |
| Lz4.CopyIs | fs/lz4.c:70-72 | every byte of a match is the one that many places before it, overlapping or not |
| Lz4.Complete | fs/lz4.c:17-74 | the format: every block of the grammar whose expansion is defined and fits stands for that expansion |
| Lz4.Sound | fs/lz4.c:17-74 | the format: whatever stands for an output is a block of the grammar written just like the input |
| Lz4.MeansIff | fs/lz4.c:17-74 | the format: an input stands for an output if and only if it is a block of the grammar that expands to it and fits |
| Lz4.Refusals | fs/lz4.c:17-74 | for each of the six result codes of a broken block, an input that is refused with it |
| Lz4.BlocksComplete | fs/lz4.c:123-158 | the format: every list of pieces whose contents fit stands for their concatenation |
| Lz4.BlocksSound | fs/lz4.c:123-158 | the format: whatever stands for an output is a list of independent pieces written just like the input |
| Lz4.PieceRefused | fs/lz4.c:123-158 | a piece that runs over the input, over the room or over its checksum is refused with its result code |
| Lz4.HeadRead | fs/lz4.c:80-118 | a header written from version, flags, content size and dictionary number is read back, whatever follows |
| Lz4.HeadWritten | fs/lz4.c:80-118 | a header that was read was written just so |
| Lz4.HeadRefused | fs/lz4.c:80-118 | each of the six result codes of a broken header, with its exact condition on the bytes |
| Lz4.FrameMeansIff | fs/lz4.c:80-167 | the format: a frame stands for an output if and only if it is a header of the grammar and pieces that, each on its own, expand to what fits |
| Lz4.WrapIff | fs/lz4.c:26 | a 32-bit sum is right if and only if it is below 2^31; just above it is negative |
| Lz4.GuardIff | fs/lz4.c:135-140 | the test of a position and a size against a limit is right if and only if their sum is below 2^31 |
| Lz4.FitsAgrees | fs/lz4.c:17-74 | with 32-bit lengths the code decodes as the format says when every length it reads is below 2^31 |
| Lz4.UnfitFails | fs/lz4.c:17-74 | when one is not, the input stands for nothing |
| Lz4.DecodesIff | fs/lz4.c:17-74 | for every input: the code succeeds with lengths that fit if and only if the input is a block of the grammar that expands and fits, and when it succeeds its output is right if and only if the lengths fit |
| Lz4.ShortFits | fs/lz4.c:21-28 | in every input of at most 8421505 bytes the lengths fit |
| Lz4.LiteralsWrap | fs/lz4.c:21-38 | one byte more can go wrong: literals of length 2^31 are taken for none, and the code reports success |
| Lz4.MatchWraps | fs/lz4.c:53-72 | a match whose length comes out negative is skipped, and the code reports success |
| Lz4.SumsAgree | fs/lz4.c:123-158 | where every sum of position, size and length fits, the code decodes the pieces of a frame as the format says |
| Lz4.SumsUnfit | fs/lz4.c:123-158 | where one does not, the code does not succeed on pieces that stand for something |
| Lz4.FrameIff | fs/lz4.c:80-167 | for every frame: where the sums fit, the code succeeds if and only if the frame stands for that output; when it succeeds, the output is right if and only if the sums fit; a frame that stands for something is decoded if and only if they fit |
| Lz4.FrameWraps | fs/lz4.c:135-137 | a frame of eleven bytes whose size field passes the test, which the format refuses with -16 |
| Lz4.TakeLength | fs/lz4.c:21-28 | reads a length, which wraps at 32 bits, or runs out of input |
| Lz4.PutMatch | fs/lz4.c:65-72 | the copy loop writes the match and nothing before the block |
| Lz4.DecompressBlock | fs/lz4.c:11-75 | result code and output are those of the 32-bit decoder that `DecodesIff` compares with the grammar, for every input, and nothing before the block is touched |
| Lz4.TakeHeader | fs/lz4.c:80-118 | position and flags behind the header, or the code of what is wrong with it, as `HeadRead`, `HeadWritten` and `HeadRefused` state |
| Lz4.DecompressFrame | fs/lz4.c:80-167 | result code and output are those of the 32-bit decoder that `FrameIff` compares with the format, for every input, up to a size that its test lets through |
| SlabCache.PopKeeps | mem/slab.c:482-489 | an object leaves a magazine for a caller and is nowhere else |
| SlabCache.PushKeeps | mem/slab.c:578-583 | an object leaves a caller for a magazine |
| SlabCache.SwapKeeps | mem/slab.c:491-501 | exchanging the two magazines moves no object |
| SlabCache.LoadKeeps | mem/slab.c:503-515 | a full magazine from the depot moves no object |
| SlabCache.StoreKeeps | mem/slab.c:593-601 | nor does a full magazine to the depot |
| SlabCache.PickReady | mem/slab.c:428-445 | a slab with an object to give is found on the partial list, taken from the empty list or made |
| SlabCache.TakeKeeps | mem/slab.c:447-467 | an object leaves its slab, which goes to the full list when it was the last |
| SlabCache.ReturnReady | mem/slab.c:535-551 | an object comes back to its slab, which leaves the full list |
| SlabCache.SettleKeeps | mem/slab.c:553-563 | an empty slab is kept or given up; none of its objects is anywhere else |
| SlabCache.InuseIsOut | mem/slab.c:461-467 | a slab's count is the number of its objects in magazines and with callers |
| SlabCache.LiveAlone | mem/slab.c:473-605 | a live object is in no magazine, on no free list and with no second caller |
| SlabCache.ObjectsApart | mem/slab.c:284-306 | whatever the colour, no object reaches into the header or out of the page and no two overlap |
| SlabCache.ColoursFit | mem/slab.c:304-306 | every slab of a cache, however many came before, has a colour that fits |
| SlabCache.LayoutIs | mem/slab.c:389-403 | where header and objects lie: off the page from 1024 bytes on, else the header rounded to 16 at the end, with two bytes per object if there is a constructor, and as many objects as fit |
| SlabCache.ColourIs | mem/slab.c:304-306 | the colour of the n-th slab in closed form |
| SlabCache.ShapeIs | mem/slab.c:381-403 | objects per slab, and the magazine size for small, middle and large objects |
| SlabCache.FreshAt | mem/slab.c:308-324 | the order in which a new slab gives its objects: ascending with a constructor, descending without |
| SlabCache.NoObjectsIff | mem/slab.c:389-403 | a cache has no object in a slab if and only if its objects are larger than a page |
| SlabCache.PlainRuleIff | mem/slab.c:425-471 | slabs are on the empty list without objects out, on the full one with all out and on the partial one otherwise if and only if the cache has objects |
| SlabCache.HeldOnce | mem/slab.c:473-605 | callers never hold one object twice |
| SlabCache.Run | mem/slab.c:355-635 | a whole life of a cache: any allocations, frees and reaps; callers hold each object once, an allocation is refused only with nothing anywhere, and none succeeds in a cache for objects larger than a page |
| SlabCache.ObjectCache.constructor | mem/slab.c:355-414 | a new cache has no object anywhere, and the magazines given to it empty |
| SlabCache.ObjectCache.AllocFromLists | mem/slab.c:425-471 | gives an object nobody has, the first one of the first partial, else empty, else new slab; fails only if there is neither and no page; with a page it gives an object of a slab if and only if the cache has any |
| SlabCache.ObjectCache.FreeToLists | mem/slab.c:526-566 | takes an object back to its slab, which moves to the list its count says; at most four empty slabs are kept |
| SlabCache.ObjectCache.Alloc | mem/slab.c:473-524 | gives an object nobody has: the top of the loaded magazine, else of the previous, else of a full one from the depot, else one from a slab; fails only if there is nothing anywhere and no page; never one from a cache without objects and constructors |
| SlabCache.ObjectCache.AllocCached | mem/slab.c:480-515 | serves from magazines and depot if and only if one of them has an object, and touches no slab |
| SlabCache.ObjectCache.Free | mem/slab.c:568-605 | takes the object from the caller and from nobody else: to the loaded magazine, else the previous, else an empty one, else to its slab |
| SlabCache.ObjectCache.ReapMagazine | mem/slab.c:611-619 | returns every object of a magazine |
| SlabCache.ObjectCache.Reap | mem/slab.c:607-635 | returns all magazines of the depot and all empty slabs, reports how many pages, and touches no live object and no processor |
| SlabCache.ObjectCache.Serve | mem/slab.c:473-635 | after any run the objects out are exactly those the callers hold, and an allocation was refused only with nothing anywhere |
| Paths.SplitRender | fs/vfs_path.c:45-51 | a path falls into the pieces it was made of |
| Paths.MeaningNames | fs/vfs_path.c:53-74 | neither dots nor empty names survive |
| Paths.DotsMean | fs/vfs_path.c:53-74 | one dot stays, two dots undo the name before, a name goes down, and nothing is above the root |
| Paths.RelativeMeans | fs/vfs_path.c:20-43 | a relative path means what the absolute path made of the working directory and it means |
| Paths.AbsoluteMeans | fs/vfs_path.c:20-43 | an absolute path does not depend on the working directory, and no path at all is the working directory |
| Paths.NormalMeaning | fs/vfs_path.c:44-85 | when nothing is cut the normal form is the canonical path of the stack the components mean |
| Paths.FoldOk | fs/vfs_path.c:44-75 | whatever the path, only a last component cut at the end of the buffer can be a dot entry |
| Paths.DotLeft | fs/vfs_path.c:53-74 | a dot entry is left at the end if and only if some component was cut down to it and none after it goes up |
| Paths.CanonicalStays | fs/vfs_path.c:15-85 | a canonical path that fits is its own normal form, wherever it starts from |
| Paths.Idempotent | fs/vfs_path.c:15-85 | normalising twice is normalising once, unless a component is cut by the end of the buffer right behind its leading dots and no later one goes up; then it is not |
| Paths.TwiceDiffers | fs/vfs_path.c:66-73 | paths for which it differs: 1020 characters and a name that begins with a dot |
| Paths.Up | fs/vfs_path.c:55-61 | two dots remove the last name of the buffer, and nothing at the root |
| Paths.Append | fs/vfs_path.c:62-74 | a name is added behind a slash, cut at the end of the buffer |
| Paths.Normalize | fs/vfs_path.c:15-85 | the result is always rooted and fits the buffer; from a canonical directory it is the normal form, cut paths included |
| Mounts.CutIs | fs/vfs_mount.c:26-50 | what a slot keeps of a path or a device: all of it if it fits, else its first characters |
| Mounts.DistinctIff | fs/vfs_mount.c:17-61 | a new mount keeps the paths distinct if and only if its path fits the 255 characters kept, or no mount has those |
| Mounts.Rebuilt | fs/vfs_path.c:116-125 | mount path and remainder make up the path again |
| Mounts.OverIffPrefix | fs/vfs_path.c:104-111 | over canonical paths a mount holds a path if and only if its names are the first names of the path |
| Mounts.MountTable.constructor | fs/vfs_internal.h:23 | an empty table |
| Mounts.MountTable.MountAt | fs/vfs_mount.c:17-61 | updates the mount of that path, its device only if one is given, or takes the first free slot; refused if and only if there is neither; the count stays exact |
| Mounts.MountTable.MountPath | fs/vfs_mount.c:8-61 | the same at the normal form of the path; the mount points are the old ones and this one, and distinct and whole paths stay so, if it fits |
| Mounts.MountTable.Unmount | fs/vfs_mount.c:75-129 | takes away the first mount whose path is the normal form of the path given or whose device is named by it, and no other; refused if and only if there is none or files are open on it; keeps paths distinct and the count exact |
| Mounts.MountTable.Serve | fs/vfs_mount.c:8-129 | after any run of mounts and unmounts every request did to the table what `MountAt` and `Unmount` say of its path, device and open files; when the paths fit, the table holds each mount point of the list so made once and counts them |
| Mounts.MountTable.Resolve | fs/vfs_path.c:92-128 | the mount with the longest path of all that hold the path; with distinct paths it is the only one so long |
| Rwsem.StepKeeps | mem/vmm.c:60-120 | every lock section keeps the count and both wait counters exact |
| Rwsem.Roles | mem/vmm.c:60-120 | a step moves only its own thread, from idle over waiting or holding back to idle, as reader or as writer |
| Rwsem.Admission | mem/vmm.c:60-110 | a reader is admitted if and only if no writer holds or waits, a writer if and only if nobody holds |
| Rwsem.RunKeeps | mem/vmm.c:60-120 | after every interleaving the counters are exact |
| Rwsem.WriterAlone | mem/vmm.c:51-120 | after every interleaving from the start, a writer is alone and the count is -1 |
| Rwsem.Semaphore.TryRead | mem/vmm.c:62-72 | one turn of the reader's loop |
| Rwsem.Semaphore.EndReadWait | mem/vmm.c:74-78 | the end of a reader's wait |
| Rwsem.Semaphore.UpRead | mem/vmm.c:80-90 | a reader leaves; writers are woken if and only if it was the last and one waits |
| Rwsem.Semaphore.TryWrite | mem/vmm.c:94-104 | one turn of the writer's loop |
| Rwsem.Semaphore.EndWriteWait | mem/vmm.c:106-110 | the end of a writer's wait |
| Rwsem.Semaphore.UpWrite | mem/vmm.c:112-120 | a writer leaves; whoever waits is woken |

## Left out

- CopyOnWrite: covers private anonymous memory; file, shared and device mappings, stack growth, `brk` and failure to allocate an area during fork are not modelled; the shared zero page is always there.
- CopyOnWrite: copying a page is one step, and the release of the old frame is one step with the swap.
- CopyOnWrite.ForkByCopying: covers runs without a disturbing stale not-present fault, for the reason `StaleNotPresentFault` states.
- CopyOnWrite.EnterKeepsInv: an error code that says a page is present although its entry has gone, by an unmap and a new mapping in between, is not modelled.
- BuddyAllocator: free lists are sequences, so list links are not modelled; every call is one step, and zeroing of frames is left out.
- BuddyAllocator.FrameAllocator.FreeOrder: requires room on the stack for a frame that carries the free flag; what a drain does after such a release is not modelled.
- BuddyAllocator.FrameAllocator.Serve: requires that requests with the free flag are for larger blocks or lower zones, for the reason `FlagsDecide` states, and that the stacks are set up once, for the reason `InitPercpu` states.
- BuddyAllocator.FrameAllocator.Init: the search for a place of the descriptor array is left out; its frames are a parameter.
- FatFile.Volume.Write: covers handles at the end of their file, below the 2 GiB and 4 GiB limits of the types; truncation and directory updates on delete are left out.
- FatFile.Volume.Valid: every entry of the table has a data cluster; the kernel allocates from all entries of the table's sectors (fs/fat32.c:746), also those behind the last data cluster of a volume whose table is longer.
- FatTable: disk errors are left out.
- FatTable.Table.FreeClusterChain: requires links that stay inside the table, as an out-of-range link would be read from an unrelated sector.
- FatNames: the case-insensitive comparison, the checksum, the search for free directory slots and the paging of a listing are left out; files, deleted records and labels do not go over the end of a cluster.
- FatNames.ExtractChars: requires an entry whose characters stay inside the 256 bytes of the buffer.
- PageTable: mapping of 2 MiB pages is left out; a misaligned request leaves new tables behind. Entries for large pages may be present.
- PageTable.AddressSpace.constructor: the copy of the kernel's upper half is left out.
- PageTable: the tables of the upper half shared between address spaces, dirty bits and translation caches are left out; page numbers are 36 bits wide.
- RadixTree.Radix.Serve: requires that tags are set on present items only, and an item at index 0 first, for the reason `Insert` states; `RadixTree.Run` makes no such calls.
- Areas: the tree is a plain search tree without rebalancing and without the gap field, which no search reads; merging and splitting of areas and `vmm_protect` are left out.
- Areas.AreaSet.FindFree: covers page alignment and page-aligned bounds above 0, as its caller uses it; a range longer than the bounds is refused first, so its sums stay below 2^64.
- Areas.AreaSet.Map: requires a limit at least one page below 2^64, as every address space has.
- Areas.AreaSet.Serve: requires lengths of at most 2^64 - 4096 and unmapped ranges that end below 2^64; `Map`, `EndIff` and `WrappedUnmap` say what happens otherwise.
- Areas.AreaSet.Unmap: the release of the frames behind the range is part of `CopyOnWrite`.
- Lz4: a signed sum that overflows is taken to wrap around; address arithmetic on pointers does not.
- Lz4.DecompressFrame: what is read and written after a size has wrongly passed its test is not modelled; the result says that it has.
- SlabCache: a magazine is a value, so two references to one magazine are not modelled; every call is one step; constructors, destructors, zeroing and large allocations are left out.
- SlabCache.Run: requires objects of at most a page in a cache with constructors; `ObjectCache.AllocFromLists` says what is given out otherwise.
- Paths.Normalize: says only that the result is rooted and fits when a working directory that is used is not canonical or does not fit.
- Mounts.MountTable.Resolve: requires mounts that keep their whole path.
- Mounts.MountTable.Serve: says what the table is by mount point only when the normal forms of the paths fit a slot, for the reason `DistinctIff` states.
- Mounts: file-system operations behind a mount and the list of open files are left out; open files are a parameter.
- Rwsem: which waiter a wake-up reaches is left to the interleaving; progress is not stated.
- Drivers, networking, ext4, procfs, the page cache, tmpfs, graphics and boot code are left out.
