# A Dafny model of GWKernel

A Dafny model of the parts of GWKernel, a small x86_64 kernel, that are hard to get right: the FAT32 file
system, the page allocator and the heap on top of it, the page tables, the TCP client, the NVMe queues, the
scheduler with its context switch, the RAM file system and the Internet checksum. Each part keeps the form of
the C code: its loops are loops, its state is the fields of a class, its in-place updates are updates of
arrays, sectors, words or linked records. Every method is proved against a specification over plain values,
and the theorems are about those values, over every input and every run.

## What is proved, part by part

**FAT32** (`Fat*.dfy`). The disk is an array of 512-byte sectors and every access goes through the one shared
sector buffer. An abstract volume, FAT entries and clusters, is read off the sectors; a forest of chains,
one per file or directory, accounts for it. Every completed call keeps the chains in range, terminated,
disjoint and away from the FAT, changes what it is about and nothing else, and balances the free clusters.
A write or mkdir that is not rejected succeeds if and only if there are clusters for it, counted exactly. Paths and
names are pinned byte by byte: every path is cut at `/`, `\` and runs of them and after fifteen bytes, starts at the
root or the current directory, and is followed name by name (`FatNames.dfy`).
`FatSession.Session` carries out any sequence of calls, failing ones included: each has the result that the
volume before it decides and does what its own path, name and data say, so an entry to which no call's path leads
keeps its slot and its bytes, and the free clusters are accounted for call by call. What the code does not keep is
stated exactly: a replacement that runs out of space leaves a dangling entry if and only if the old file began at
cluster 2 (`FatDangling.ReplaceA` is such a call on such a volume);
a name whose first byte is 0xE5 cannot be found again; `chdir("..")` succeeds if and only if the current
directory has a subdirectory whose 8.3 name is that of `..`, so it fails in a directory that mkdir has
just made; removing the current directory is the one unlink that spoils the driver.

**Pages and heap** (`Pmm.dfy`, `Heap*.dfy`). The bitmap allocator is refined to "the leftmost run of n free
pages", and after pmm_init a page is free if and only if a usable region offers it and it holds none of the bytes
that must be kept, which are then never handed out. The heap's headers and links live in 4 GiB of byte memory; its
free list, found by following the links, is sorted and together with the live blocks tiles exactly the pages taken
from the page allocator.
From that follow the counters, the single expansion, the meaning of NULL and the freedom of every live byte,
over every run of allocations, frees and writes into held bytes: each call is served as the state before it
decides, and every holder reads back what it wrote last. Three promises of the header file are not kept. Each has its
exact condition and a run of calls that breaks it: 16-byte alignment (`KmallocAligned`; the first kmalloc after
heap_init breaks it, `FirstKmalloc`), detection of a second free (`SecondFree`; a block that was handed out again
is taken from its new holder, `FreeTwice`), and the free of an over-aligned pointer (`ReleasesOwnBlock`; a run
from pmm_init on whose last pointer frees a block that does not exist, `MisreadRun`). Freed neighbours are not always
joined either: `InsertLoose` says when, and `LeavesTouching` frees three blocks so that two stay apart.

**Page tables** (`PageTables.dfy`, `Vmm.dfy`). The tables are words of physical memory; a walk as the
processor does it (section 4.5 of the Intel SDM volume 3A) is the identity or unmapped for every 48-bit
address, after any sequence of calls, also ones that run out of pages midway. vmm_init succeeds if and only if six
pages are free, and no range is left unfinished while a page is.

**Network** (`Checksum.dfy`, `Net.dfy`, `Tcp*.dfy`). The checksum is one's-complement arithmetic (section 1 of
RFC 1071) and verifies itself. The receiver faces a network that loses, repeats and reorders the segments of
an honest peer and mixes in foreign packets (section 3.4 of RFC 9293): the application gets the peer's bytes in
order if and only if nothing overflowed the 8192-byte buffer, which the advertised window of 16384 does not
prevent, and then exactly as far as its segments have brought the stream: nothing that arrived in turn is left out. A
FIN is acknowledged if and only if it comes without data, and one that overtakes data loses it (`FinStep`,
`FinOvertakes`).

**NVMe** (`Nvme*.dfy`). Host and controller move independently (section 4.6 of the NVM Express Base
Specification 1.4): the controller fetches, transfers sector by sector and answers whenever it likes. Counts of
placed, fetched, posted and consumed entries explain every phase bit, so no stale entry is taken, each command
gets its own status, and success means that this command, and nothing else, has been carried out, until the
first timeout. Whether a command times out, fails or succeeds is decided by the controller's moves alone, and stated
as such.

**Threads** (`RunQueue.dfy`, `Context.dfy`, `Sched*.dfy`). The linked run queue holds exactly the ready threads,
waiting is bounded, and a resumed thread has the registers, return address and stack pointer it gave up, over
every run of switches between disjoint stacks. `SchedulerRuns.Session` drives the kernel itself, linked queue,
saved stack pointers and memory, through any sequence of creations, computations, yields and exits: each move does
what it is decided to do in the state before it, so a thread at position j of the linked queue runs once j + 1
moves have taken a turn, and not before.

**RAM file system** (`RamTree.dfy`, `RamFs.dfy`). First-child and sibling links form a tree with unique names
(except for names that start with `C:`, exactly; `DriveNameTwice` gives one twice), over every run, with or without
memory, a file that no call of a run hits is found under its path with its bytes, and the path parser undoes the
path printer. A file that was created without memory makes a later short write go through a null pointer; the exact
condition is one on the tree before the call for every path of at most 255 characters, and for longer ones on the
tree as vfs_create_file leaves it (`CutPathFaults` shows the difference).

`Bytes.dfy` and `Links.dfy` hold what the parts share. C's masks and shifts are written as division and
remainder; 16-, 32- and 64-bit wrap-around is written out where the code can reach it.

## Model

| member | source | states |
|---|---|---|
| `FatVolume.ClusterInData` | kernel/fs/fat.c:79-81 | the sectors of every cluster lie on the disk, in the data area, and never inside the FAT |
| `FatVolume.ClustersApart` | kernel/fs/fat.c:79-81 | sectors of two different clusters never coincide |
| `FatVolume.ViewFatSet` | kernel/fs/fat.c:92-102 | rewriting four bytes of a FAT sector changes exactly one 28-bit entry of the abstract volume, no cluster, and no entry's top four bits |
| `FatVolume.ViewDataSet` | kernel/fs/fat.c:79-81 | rewriting a data sector changes exactly one sector of one cluster of the abstract volume and no FAT entry |
| `FatDir.LookupAfterStore` | kernel/fs/fat.c:125-150 | storing a slot makes lookup behave like a map update: the stored name gives the new slot, every other name what it gave before |
| `FatDir.TidyStore` | kernel/fs/fat.c:153-180 | storing into the first free slot, or over an existing one, keeps every slot behind the first never-used one never-used |
| `FatDir.SlotsAfterPut` | kernel/fs/fat.c:502-512 | patching 32 bytes of one sector of a chain changes exactly one slot of the directory it holds |
| `FatDir.SlotLayout` | kernel/fs/fat.c:502-512 | name, attribute, both halves of the first cluster and the size lie at their offsets in the slot, low byte first |
| `FatDir.AttributeBits` | kernel/fs/fat.c:134-141 | bit 3 of the attribute hides a slot, bit 4 marks a directory |
| `FatChain.FreedExactly` | kernel/fs/fat.c:114-121 | on every table, even a cyclic one, freeing zeroes exactly the clusters reachable from the argument |
| `FatChain.FreedChain` | kernel/fs/fat.c:114-121 | freeing a well-formed chain zeroes its clusters, changes no other entry and gives back exactly its length |
| `FatChain.AllLinksWalk` | kernel/fs/fat.c:114-121 | a table whose entries are all in range never leads a walk out of range, so the freeing loop ends on it |
| `FatChain.ChainStep` | kernel/fs/fat.c:479-483 | claiming a free cluster and linking it behind a chain gives a chain one longer, with one free cluster less |
| `FatChain.SpareFreed` | kernel/fs/fat.c:104-121 | freeing a chain makes as many clusters available to allocation as it has, not counting cluster 2 |
| `FatForest.SoundGrow` | kernel/fs/fat.c:167-176 | linking a zeroed cluster behind a directory keeps the volume a forest of disjoint, in-range, terminated chains |
| `FatForest.SoundFree` | kernel/fs/fat.c:114-121 | freeing the chain of an entry that is about to be rewritten leaves all other chains sound |
| `FatForest.SoundAdopt` | kernel/fs/fat.c:473-500 | a fresh chain built from free clusters joins the forest without touching any other chain |
| `FatForest.SoundStore` | kernel/fs/fat.c:502-512 | writing a slot that refers to its chain restores the full invariant |
| `FatPath.ResolveSound` | kernel/fs/fat.c:185-227 | every resolved path ends in a directory of the forest |
| `FatNames.TokensOfSpelled` | kernel/fs/fat.c:194-201 | names with any runs of slashes and backslashes before, between and behind them are cut into exactly those names, ones of more than fifteen bytes into pieces of fifteen |
| `FatNames.EverySpelling` | kernel/fs/fat.c:194-201 | every path is spelled in this way |
| `FatNames.FromRoot` | kernel/fs/fat.c:185-192 | a path that begins with 0x2F or 0x5C leads, whatever the current directory, where the rest leads from the root |
| `FatNames.FirstPart` | kernel/fs/fat.c:211-223 | the first of several names: `.` stays, `..` goes to the root, any other leads on from the directory its slot refers to, or the path fails |
| `FatNames.LastPart` | kernel/fs/fat.c:202-210 | a single name, with or without a slash behind it, names that entry of the current directory |
| `FatNames.DottedName` | kernel/fs/fat.c:34-51 | a base of at most eight bytes, a dot and an extension: eight and three bytes, small letters made capital, padded with blanks, the extension cut to three |
| `FatNames.UndottedName` | kernel/fs/fat.c:34-51 | the same without a dot: the ninth to eleventh byte become the extension |
| `FatEffect.ChangedOthers` | kernel/fs/fat.c:459-520 | a completed change to one name of one directory leaves every other name's entry and every other file's bytes as they were |
| `FatOps.FinishFile` | kernel/fs/fat.c:473-512 | from data in a fresh chain to the committed entry: the name gives the new slot, its bytes are the data, everything else is as before |
| `FatOps.FinishDir` | kernel/fs/fat.c:389-438 | from the prepared cluster to the committed directory entry: the new directory is empty but for its dots, everything else is as before |
| `FatOps.FinishUnlink` | kernel/fs/fat.c:555-560 | after the mark is written the name is absent and all others are unmoved |
| `FatOps.WriteAborted` | kernel/fs/fat.c:459-520 | running out of clusters while replacing a file leaves a sound volume unless the file began at cluster 2, which allocation never reuses |
| `FatOps.DanglingIsUnsound` | kernel/fs/fat.c:459-520 | an entry that still names the freed cluster 2 makes the volume unsound, however its chains are accounted for, as long as the directory it is in is one |
| `FatOps.DanglingRoot` | kernel/fs/fat.c:459-520 | in the root directory such an entry rules out every account of the chains |
| `FatOps.StoredExactly` | kernel/fs/fat.c:473-500 | file data is stored if and only if there are enough free clusters from 3 up |
| `FatOps.MadeExactly` | kernel/fs/fat.c:389-438 | a directory is made if and only if there is a free cluster from 3 up for it, and one more if its parent is full |
| `FatDangling.DiskSound` | kernel/fs/fat.c:459-520 | a volume with its root at cluster 3, a file at cluster 2 and nothing free meets the invariant |
| `FatDangling.ReplaceA` | kernel/fs/fat.c:459-520 | on that volume writing one byte to the file fails and leaves it naming a free cluster, and no account of the chains fits the volume any more |
| `FatOps.VacantFindsNothing` | kernel/fs/fat.c:536-553 | a directory the emptiness test passes contains no name a path could use |
| `FatOps.ClustersForChain` | kernel/fs/fat.c:473-500 | a chain that just holds len bytes has ceil(len / (512 * sec_per_cluster)) clusters |
| `FatTheorems.RoundTrip` | kernel/fs/fat.c:440-520 | after a successful write the same path leads to a file with exactly the written bytes, if and only if its last component does not start with byte 0xE5 |
| `FatTheorems.OtherPathKept` | kernel/fs/fat.c:459-520 | a path to any other file still leads to it, with the same bytes |
| `FatTheorems.PathSpared` | kernel/fs/fat.c:185-227 | after any call, removing a directory included, a path that resolved still does, to the same place, unless it leads through the entry the call is about |
| `FatTheorems.RunPathSpared` | kernel/fs/fat.c:185-227 | over every run a path that resolved still does, to the same place, unless a call was about an entry it leads through or removed the directory it starts in |
| `FatTheorems.PathKept` | kernel/fs/fat.c:185-227 | after a change to an entry that is not a directory every path that resolved still resolves to the same directory and last component |
| `FatTheorems.WayUp` | kernel/fs/fat.c:329-356 | chdir("..") succeeds if and only if the current directory has a subdirectory under the 8.3 form of ".." |
| `FatTheorems.NoWayUp` | kernel/fs/fat.c:329-356 | in a directory that mkdir has just made chdir("..") fails, although its ".." slot is there |
| `FatTheorems.MkdirOpensWayUp` | kernel/fs/fat.c:329-438 | after mkdir("..") it does |
| `FatTheorems.EventSpares` | kernel/fs/fat.c:389-566 | one call leaves every entry it is not about, and that file's bytes, unchanged |
| `FatTheorems.RunSpares` | kernel/fs/fat.c:389-566 | over every run of calls, an entry no call was about keeps its slot and its file's bytes |
| `FatTheorems.EventConserves` | kernel/fs/fat.c:104-121 | write, mkdir and unlink change the number of free clusters by exactly what they claim and release, also when they run out of space |
| `FatTheorems.RunConserves` | kernel/fs/fat.c:104-121 | over every run, aborted calls included, the free clusters are accounted for to the last one |
| `FatDriver.To83` | kernel/fs/fat.c:34-50 | the two copy-and-pad loops compute the padded upper-case 8.3 name |
| `FatDriver.Eq83` | kernel/fs/fat.c:52-56 | the comparison is equality of 8.3 names |
| `FatDriver.Driver.FatGet` | kernel/fs/fat.c:83-90 | reads the 28-bit entry of the abstract table |
| `FatDriver.Driver.FatSet` | kernel/fs/fat.c:92-102 | one entry changes; the top four bits of every entry, all other entries and all clusters stay |
| `FatDriver.Driver.FatAllocCluster` | kernel/fs/fat.c:104-112 | claims the lowest free cluster from 3 up; 0 only if there is none |
| `FatDriver.Driver.FatFreeChain` | kernel/fs/fat.c:114-121 | ends on every in-range table and computes Freed, keeping the reserved bits |
| `FatDriver.Driver.DirFind` | kernel/fs/fat.c:125-150 | over any chain of sectors it is lookup among the slots before the first never-used one, which in a tidy directory are all, and says where the slot lies on disk |
| `FatDriver.Driver.DirAllocSlot` | kernel/fs/fat.c:153-180 | finds the first free slot, or extends a full directory by one zeroed cluster and gives its first slot; on failure nothing changes |
| `FatDriver.Driver.WriteData` | kernel/fs/fat.c:473-500 | puts the bytes into a fresh chain, exactly as long as needed, touching no cluster that was in use; on failure no cluster from 3 up is free |
| `FatDriver.Driver.ResolveParent` | kernel/fs/fat.c:185-227 | the loops give the directory and last name that the laws of FatNames describe, or fail |
| `FatDriver.Driver.ReadFile` | kernel/fs/fat.c:440-457 | returns exactly the first maxlen bytes of the file the path names, -1 for no file or a directory |
| `FatDriver.Driver.WriteFile` | kernel/fs/fat.c:459-520 | a rejected call changes nothing; any other succeeds if and only if there are clusters for it, and then stores the data and nothing else; a failed one has used up every cluster from 3 up, leaves the other entries alone, and the driver usable if and only if the replaced file did not begin at cluster 2 |
| `FatDriver.Driver.Mkdir` | kernel/fs/fat.c:389-438 | not rejected, it succeeds if and only if there are clusters for it, and then adds an empty directory under the name and nothing else; failure uses up every cluster from 3 up and leaves all names as they were |
| `FatDriver.Driver.Unlink` | kernel/fs/fat.c:522-566 | exactly when it is not rejected, the name goes and its chain is given back; the driver stays usable if and only if it was not the current directory |
| `FatDriver.Driver.Chdir` | kernel/fs/fat.c:329-356 | moves exactly when the path leads to a directory; the path ".." sets the root |
| `FatSession.WriteThenRead` | kernel/fs/fat.c:440-520 | for every path and all data, a successful write read back through the driver gives the data, unless the name starts with 0xE5 |
| `FatBoot.SelfTest` | kernel/core/kmain.c:79-101 | for all names, either separator and all data: mkdir succeeds if and only if the name is new and there is room; a write under a path through the new directory then puts the file there and not into the current one, and it is read back |
| `FatBoot.MakeAndEnter` | kernel/fs/fat.c:329-438 | chdir into a directory that mkdir has made succeeds and moves there |
| `FatBoot.MakeAndRemove` | kernel/fs/fat.c:389-566 | unlink undoes mkdir: the entry is gone, the others are as they were, and so are the free clusters but for one by which the parent may have grown |
| `FatBoot.WriteAndRemove` | kernel/fs/fat.c:459-566 | unlink removes a file just written and leaves the other entries as they were |
| `FatSession.Perform` | kernel/fs/fat.c:329-566 | a call has the result that the volume and the current directory before it decide; it is no event if refused, and otherwise the one event its own path, name and data describe; the driver stays usable if and only if the call neither removed the current directory nor failed to replace a file that began at cluster 2 |
| `FatSession.Session` | kernel/fs/fat.c:329-566 | any sequence of calls through the sector buffer is carried out call by call in this way, up to the first of those two |
| `FatSession.SessionRuns` | kernel/fs/fat.c:329-566 | the events of a session, joined, are a run from its first state to its last, so the theorems about runs hold of it |
| `FatSession.SessionSpares` | kernel/fs/fat.c:329-566 | over every session an entry to which no call's path leads keeps its slot and its file's bytes |
| `FatSession.SessionConserves` | kernel/fs/fat.c:104-121 | over every session, failing calls included, the free clusters change by what the calls cost, each computed from the call and the state before it |
| `Pmm.Allocator.MarkRangeUsed` | kernel/mm/pmm.c:71-82 | exactly the pages of the range become used, with 64-bit wrap-around and the cut at the end of the bitmap |
| `Pmm.Allocator.Init` | kernel/mm/pmm.c:88-183 | afterwards a page is used if and only if no region of type 1 to 4 or 7 gives it or it holds a byte of the first MiB, of the MiB from the kernel's base on, of the boot record's page or of the memory map, and the counter agrees |
| `Pmm.ProtectedMeans` | kernel/mm/pmm.c:149-169 | the ranges set aside cover a page if and only if it holds such a byte |
| `Pmm.RegionCovers` | kernel/mm/pmm.c:71-75 | a range's first page is marked if and only if rounding up its end does not wrap |
| `Pmm.MaxEndExactly` | kernel/mm/pmm.c:109-115 | the managed range ends at the end of the highest region |
| `Pmm.Allocator.AllocPage` | kernel/mm/pmm.c:185-196 | the lowest free page, 0 only if there is none |
| `Pmm.Allocator.AllocPages` | kernel/mm/pmm.c:198-221 | the leftmost run of n free pages, 0 only if none exists; exactly that run becomes used |
| `Pmm.Allocator.FreePage` | kernel/mm/pmm.c:223-236 | frees exactly one managed, aligned, used page and ignores everything else |
| `Pmm.Allocator.FreePages` | kernel/mm/pmm.c:238-241 | frees exactly the managed pages among the first count from the address on, going on from the end of the 64-bit address space at page 0 |
| `Pmm.Allocator.GetFreePages` | kernel/mm/pmm.c:251-254 | equals the number of clear bits in the managed range; the saturating branch is never taken |
| `Pmm.CountPrefix` | kernel/mm/pmm.c:185-241 | changing one bit changes the count of used pages by exactly one |
| `Pmm.ScanStep` | kernel/mm/pmm.c:204-219 | the running count of the scan is the length of the free run that ends here, and no longer run has been passed |
| `Pmm.ServeKeepsSafe` | kernel/mm/pmm.c:185-241 | one request never hands out a page that is protected or held |
| `Pmm.RunNeverReuses` | kernel/mm/pmm.c:185-241 | over every run, while callers free only what they were given, protected pages are never handed out and no page is held twice |
| `Pmm.Ask` | kernel/mm/pmm.c:185-241 | one allocation or release on the bitmap is one step of such a run; a release of pages that are not all held is not made |
| `Pmm.Session` | kernel/mm/pmm.c:88-241 | from the bitmap that pmm_init leaves, with nothing held, every sequence of requests is such a run, request by request: at every point the page of every byte that must be kept is used and not handed out, and no page is that is still held |
| `HeapTiles.InsertSorted` | kernel/mm/heap.c:52-93 | inserting and joining keeps the free list sorted and without overlap |
| `HeapTiles.InsertSum` | kernel/mm/heap.c:52-93 | joining gains and loses no byte: headers turn into payload |
| `HeapTiles.InsertTiled` | kernel/mm/heap.c:52-93 | free and live blocks tile the heap's pages before and after an insertion |
| `HeapTiles.AllocTiled` | kernel/mm/heap.c:165-175 | taking a block, split or whole, keeps the tiling and the byte sum |
| `HeapTiles.CutExactly` | kernel/mm/heap.c:165-178 | a block is cut if and only if at least 32 bytes are left behind a new header; otherwise less than 56 bytes are wasted |
| `HeapTiles.FreeTiled` | kernel/mm/heap.c:240-246 | freeing a live block keeps the tiling and the byte sum |
| `HeapTiles.GrowTiled` | kernel/mm/heap.c:95-112 | new pages, disjoint from the heap's, extend the tiling by exactly themselves |
| `HeapTiles.InsertLoose` | kernel/mm/heap.c:66-92 | no two neighbours touch after an insertion if and only if the block did not touch both of its neighbours; the early return joins one side only |
| `HeapTiles.FirstThirdSecond` | kernel/mm/heap.c:66-92 | three neighbours inserted in the order first, third, second do touch in the end |
| `HeapTiles.NeedEight` | kernel/mm/heap.c:143-153 | block sizes stay multiples of eight while over-aligned requests ask for multiples of eight |
| `HeapTiles.AlignExactly` | kernel/mm/heap.c:135-145 | powers of two from 16 up are taken as they are, any other alignment as 16 |
| `HeapTiles.SameAgain` | kernel/mm/heap.c:52-199 | a request that was cut off a larger block, given back and made again, is served with the same block |
| `HeapMemory.LinkedPut` | kernel/mm/heap.c:77-78 | linking a block into the field that leads to its position is insertion into the list |
| `HeapMemory.LinkedDrop` | kernel/mm/heap.c:166-166 | unlinking through the same pointer is removal from the list |
| `HeapMemory.LinkedJoin` | kernel/mm/heap.c:85-91 | widening a block over its successor is joining the two in the list |
| `HeapMemory.LinkedAbsorb` | kernel/mm/heap.c:67-75 | a block that swallows its successor takes its place in the list |
| `HeapState.AllocSane` | kernel/mm/heap.c:165-196 | handing out a block keeps the whole heap invariant, counters included, and the address is new |
| `HeapState.FreeSane` | kernel/mm/heap.c:240-246 | giving a block back keeps the whole heap invariant |
| `HeapState.GrowSane` | kernel/mm/heap.c:95-112 | expanding keeps the whole heap invariant |
| `HeapState.UserWrite` | kernel/include/gw/heap.h:9-20 | a holder that writes only the bytes it asked for cannot damage the heap |
| `HeapState.ReleasesOwnBlock` | kernel/mm/heap.c:206-231 | a pointer that was handed out frees its own block if and only if it is not over-aligned with a block at address ~HEAP_MAGIC_ALLOC and a stray magic in front of it; an even block address suffices |
| `HeapState.OneHolder` | kernel/mm/heap.c:135-247 | no two pointers that are out share a header, so a free releases the block of one holder |
| `HeapState.SecondFree` | kernel/include/gw/heap.h:17-19 | on every heap a second kfree of a plain pointer has an effect if and only if its header is taken again, or the word in front of it leads to a taken header; a block handed out again is released under its new holder, and for a header that still says free that word is the canary and padding |
| `HeapState.EightReleases` | kernel/mm/heap.c:206-247 | while all blocks are 8-aligned every live pointer frees exactly its own block |
| `HeapRuns.Step` | kernel/mm/heap.c:135-247 | one allocation, free or write: what the client then holds and the heap are what the call, the pointer returned and the state before decide, and every holder finds its bytes; a free is not made if and only if it would be misread |
| `Heap.KernelHeap.InsertFree` | kernel/mm/heap.c:52-93 | the list walks compute the insertion, and write to no byte outside the block and the header of the block in front of it |
| `Heap.KernelHeap.ExpandHeap` | kernel/mm/heap.c:95-112 | takes the leftmost run of pages and adds it as one block; without a run nothing changes |
| `Heap.KernelHeap.HeapInit` | kernel/mm/heap.c:114-129 | the leftmost run of sixteen pages becomes the one free block; -1 only without such a run |
| `Heap.KernelHeap.SearchFit` | kernel/mm/heap.c:156-199 | finds the lowest-addressed block that fits; the corruption report is unreachable |
| `Heap.KernelHeap.TakeBlock` | kernel/mm/heap.c:166-179 | unlinks the block and returns its unneeded tail to the list |
| `Heap.KernelHeap.KmallocAligned` | kernel/mm/heap.c:135-204 | at most one expansion; NULL exactly for size 0, an uninitialised heap, or no fit and no run of pages; otherwise a new pointer, poisoned, in the lowest block that fits, and no live byte changes; over-aligned as asked, and a plain one 16-aligned if and only if that block lies at 8 modulo 16 |
| `Heap.KernelHeap.Kfree` | kernel/mm/heap.c:206-247 | releases exactly the block the address leads to, whoever holds it, the holder's own if it is not misread; an address that leads to no taken header changes nothing; the saturating branch is never taken |
| `Heap.KernelHeap.HeapFreeBytes` | kernel/mm/heap.c:250-255 | the walk sums the free list, and with heap_used it makes up heap_total |
| `HeapRuns.Run` | kernel/mm/heap.c:114-256 | over every run of allocations, frees and writes, call by call and up to a free that would be misread, the heap stays tiled, the client's pointers are the replay of its calls and exactly the live ones, every holder reads back what it wrote last, and the counters add up; if over-aligned requests are multiples of eight no free is ever misread |
| `HeapRuns.Boot` | kernel/mm/heap.c:114-256 | the same from the one block of sixteen pages that heap_init makes, which fails if and only if there is no such run of free pages |
| `HeapRuns.ReadsFill` | kernel/include/gw/heap.h:9-20 | a write inside the bytes one holder asked for is read back by it and changes no byte of another |
| `HeapRuns.KmallocOffEight` | kernel/include/gw/heap.h:10-12 | while every free block starts on a page no plain pointer is 16-aligned |
| `HeapRuns.FirstKmalloc` | kernel/include/gw/heap.h:10-12 | the first kmalloc after heap_init never is |
| `HeapRuns.FreeTwice` | kernel/include/gw/heap.h:17-19 | kmalloc, kfree, kmalloc of the same size gives the same pointer, and freeing the first one again takes the block from its new holder |
| `HeapRuns.LeavesTouching` | kernel/mm/heap.c:66-92 | three kmallocs freed in the order first, third, second leave two free blocks that touch |
| `HeapRuns.MisreadForeseen` | kernel/mm/heap.c:181-231 | a new over-aligned pointer that needed no new pages will be misread if and only if its block lies at ~HEAP_MAGIC_ALLOC, the alignment is at least 64, and the magic already lay 24 bytes in front of it |
| `HeapRuns.MisreadRun` | kernel/mm/heap.c:135-247 | a run of six calls from pmm_init on whose last pointer, 0x5EEF4080, would free a header that belongs to nobody |
| `PageTables.PathIdentity` | kernel/mm/vmm.c:59-62 | the three indices of an address lead back to it if and only if it is below 2^48 |
| `PageTables.WalkIsIdentity` | kernel/mm/vmm.c:26-82 | in every tree the code builds the hardware walk of every 48-bit address, for a write from user mode, ends at that address or nowhere |
| `PageTables.AttachTree` | kernel/mm/vmm.c:63-78 | hanging a zeroed page into an empty slot keeps the tree |
| `PageTables.AttachLeaves` | kernel/mm/vmm.c:63-78 | hanging in an empty table maps and unmaps nothing |
| `PageTables.LeafLeaves` | kernel/mm/vmm.c:79-80 | storing a leaf maps its own 2 MiB page and no other |
| `Vmm.AddressSpace.AllocTable` | kernel/mm/vmm.c:18-24 | the lowest free page, zeroed and with every other word unchanged; 0 if and only if none is free |
| `Vmm.AddressSpace.Init` | kernel/mm/vmm.c:26-47 | succeeds if and only if at least six pages are free, takes exactly six and maps exactly the first 4 GiB; after a failure no page is free |
| `Vmm.AddressSpace.MapPage` | kernel/mm/vmm.c:58-80 | maps exactly one more page, or nothing if no page is left for a table |
| `Vmm.AddressSpace.MapRange` | kernel/mm/vmm.c:54-82 | maps exactly the pages from the rounded start to where it stopped, reports success if and only if it reached the end, and otherwise no page is free |
| `Vmm.RangeWalk` | kernel/mm/vmm.c:54-82 | after a call every address translates to itself if it did before or was reached, and to nothing otherwise |
| `Vmm.InitWalk` | kernel/mm/vmm.c:26-47 | after vmm_init an address translates to itself if and only if it is below 4 GiB |
| `Vmm.RangeCovers` | kernel/mm/vmm.c:56-57 | the rounded end covers the request if and only if the 64-bit sum does not wrap |
| `Vmm.BeyondBreaks` | kernel/mm/vmm.c:58-80 | from 2^48 on the store meant to map an address maps a lower address to it |
| `Vmm.MapAll` | kernel/mm/vmm.c:54-82 | over any sequence of calls, also ones that run out midway, the map stays the identity, mapped addresses stay mapped, and every successful range is mapped in the end |
| `Checksum.Fold` | kernel/net/net.c:50-50 | the fold loop ends at the one's-complement sum |
| `Checksum.IpChecksum` | kernel/net/net.c:42-52 | computes the complement of the word sum for even and odd lengths without 32-bit overflow |
| `Checksum.TcpChecksum` | kernel/net/tcp.c:38-54 | the same over pseudo header and segment |
| `Checksum.PseudoWords` | kernel/net/tcp.c:41-46 | the sum starts with the words of the pseudo header: both addresses, a zero, 6 and the length |
| `Checksum.WordsPut` | kernel/net/net.c:42-52 | storing a word at an even offset changes the sum by exactly the difference |
| `Checksum.SelfVerifies` | kernel/net/net.c:215-217 | recomputing over the bytes with the checksum stored gives zero |
| `Checksum.ChangedWord` | kernel/net/net.c:42-52 | a changed word goes unnoticed if and only if it went between 0x0000 and 0xFFFF, unless all the other words are zero |
| `Net.Ipv4Packet` | kernel/net/net.c:199-221 | the datagram has a verifying header with the right fields and carries the payload unchanged; -1 exactly when it would exceed 1500 bytes |
| `Net.EchoReply` | kernel/net/net.c:130-149 | the reply is the request with type 0, and both of its checksums verify |
| `TcpWire.BuildSegment` | kernel/net/tcp.c:56-85 | ports, numbers, flags and window lie at their offsets, what is sent parses back to what was meant and its checksum verifies |
| `TcpWire.VerifiesMeans` | kernel/net/tcp.c:38-54 | a segment verifies if and only if the one's-complement sum over pseudo header and segment is 0xFFFF |
| `TcpWire.FlagBits` | kernel/net/tcp.c:107-139 | the flag tests are those of the masks 0x01, 0x02 and 0x12 |
| `TcpWire.ParseOptions` | kernel/net/tcp.c:101-105 | the payload starts behind the options |
| `TcpStream.DataStep` | kernel/net/tcp.c:125-137 | a segment of the peer keeps the stream in order if and only if it fits into the buffer |
| `TcpStream.ArriveStep` | kernel/net/tcp.c:87-150 | any packet at all keeps the order if and only if it does not overflow the buffer |
| `TcpStream.RunInOrder` | kernel/net/tcp.c:107-137 | over every loss, repetition and reordering, delivered bytes plus waiting bytes are a prefix of the peer's stream at every point, if and only if nothing overflowed |
| `TcpStream.RunProgress` | kernel/net/tcp.c:107-137 | over every run without overflow the bytes delivered and buffered are the peer's stream up to exactly where its segments have brought it, counted in stream bytes alone |
| `TcpStream.ArrivedInTurn` | kernel/net/tcp.c:107-137 | once the segments of a stream cut once have arrived in order, whatever came between them, all their bytes are there |
| `TcpStream.RecutIsDropped` | kernel/net/tcp.c:125-137 | a segment cut anew that reaches back behind the count is not taken, even if it holds the next bytes too |
| `TcpStream.FinStep` | kernel/net/tcp.c:125-148 | the peer's FIN ends the stream; it is counted if and only if it comes without data |
| `TcpStream.FinOvertakes` | kernel/net/tcp.c:125-148 | after a FIN that overtook data no segment of the stream is taken any more |
| `TcpStream.CountFromRcvNxt` | kernel/net/tcp.c:110-130 | that prefix has (rcv_nxt - irs - 1) mod 2^32 bytes, across any wrap of the sequence numbers |
| `TcpStream.WindowTooWide` | kernel/net/tcp.c:76-77 | a peer that respects the advertised window can overflow the buffer |
| `Tcp.Connection.OnTcp` | kernel/net/tcp.c:87-150 | the callback does what Arrived says, answers exactly the packets Answers counts, and the last answer acknowledges the new rcv_nxt |
| `Tcp.Hear` | kernel/net/tcp.c:125-131 | the peer's next bytes, if they fit, are buffered behind what is there, and the one answer acknowledges exactly them |
| `Tcp.Connection.Connect` | kernel/net/tcp.c:152-189 | success leaves the connection as the packets after the SYN make it; failure leaves it closed; the SYN that went out verifies |
| `Tcp.Connection.Send` | kernel/net/tcp.c:191-205 | the data goes out in non-empty pieces of at most 800 bytes with consecutive sequence numbers, between the connection's ports, with PSH and ACK and the acknowledgement of what has been heard so far, whatever arrives meanwhile, up to the first piece that the layer below turns down; success if and only if none is |
| `Tcp.CarryPayloads` | kernel/net/tcp.c:191-205 | the pieces put together are the data |
| `Tcp.Connection.Recv` | kernel/net/tcp.c:207-227 | returns the first waiting bytes after the earliest poll that leaves any, moves the others up, and times out only when nothing came |
| `Tcp.Connection.Close` | kernel/net/tcp.c:229-244 | an open connection sends a FIN and then a RST with the next number; in any case it is closed and deaf afterwards |
| `Tcp.Session` | kernel/net/tcp.c:87-227 | a run of the connection does what the steps of the stream model do, so while nothing overflows its bytes come out in order and as far as the segments have brought them |
| `Tcp.Converse` | kernel/net/tcp.c:87-227 | from tcp_connect on, whatever arrives after the SYN and however it is read, an honest peer's bytes come out in order at every point if and only if nothing overflows, and then as far as its segments have brought them |
| `NvmeQueue.ReadyExactly` | kernel/drivers/nvme.c:62-66 | the phase test passes if and only if the controller has posted an entry the host has not read: a stale entry never passes |
| `NvmeQueue.ConsumeSound` | kernel/drivers/nvme.c:67-72 | the entry read carries the status and identifier of the command placed last; head and phase advance with the count; the drive has changed by some of that command's sectors, by all if the status is success |
| `NvmeQueue.ControllerSound` | kernel/drivers/nvme.c:60-109 | every move of the controller, fetching, transferring a sector or answering, keeps the protocol's invariant |
| `NvmeQueue.RanStands` | kernel/drivers/nvme.c:60-109 | how far a command gets, fetched, so many sectors moved, or answered with a status, is what the controller's moves alone decide |
| `NvmeQueue.Prompt` | kernel/drivers/nvme.c:60-109 | a controller that fetches the command, moves all its sectors and posts success, and refuses nothing before that, has answered with success |
| `NvmeDrive.PartialNext` | kernel/drivers/nvme.c:251-276 | moving one sector after another is reading or writing that many sectors |
| `NvmeQueue.PlaceSound` | kernel/drivers/nvme.c:82-89 | placing a command keeps it |
| `NvmeQueue.LateAnswer` | kernel/drivers/nvme.c:92-99 | after a timeout the late answer to the earlier command is read as the answer to the next one, nothing of which has been carried out |
| `Nvme.QueuePair.PollCq` | kernel/drivers/nvme.c:60-77 | it gives up if and only if no look finds an answer, and otherwise takes the first one: status, head, phase and doorbell are those of that moment, for every interleaving with the controller |
| `Nvme.QueuePair.Submit` | kernel/drivers/nvme.c:79-109 | whether it times out, and whether it succeeds, is what the controller's moves decide; unless it times out it returns the status of the very command it placed; success means all of its sectors, and nothing else, were transferred |
| `Nvme.QueuePair.SubmitAll` | kernel/drivers/nvme.c:60-109 | over any sequence of commands up to the first timeout the i-th command placed is the i-th given, with its identifier, and the i-th result is the status posted for it, which its own moves decide; the drive changes by the commands in order, by all of one that succeeded; after k completions head is k mod 16 and the phase flips each lap |
| `Nvme.Driver.DoRw` | kernel/drivers/nvme.c:251-276 | a call for one to eight sectors succeeds if and only if the controller answers with success within the looks, and has then written exactly the given sectors, or delivered exactly the stored ones; after a failure or a timeout a prefix of them may have been written |
| `Nvme.Driver.WriteThenRead` | kernel/drivers/nvme.c:251-283 | if and only if both commands are answered with success, what is written is what is read, and no other sector changes |
| `RunQueue.TimerOrderly` | kernel/sched/sched.c:63-94 | a scheduling step keeps the queue duplicate-free and equal to the set of READY threads, with one running thread outside it |
| `RunQueue.CreateOrderly` | kernel/sched/thread.c:38-102 | creating a thread keeps that invariant |
| `RunQueue.ExitOrderly` | kernel/sched/thread.c:117-120 | so does marking the current thread dead |
| `RunQueue.BoundedWait` | kernel/sched/sched.c:20-94 | a thread at position k runs after k + 1 scheduling steps and not before, whatever is created meanwhile |
| `Scheduler.Kernel.Add` | kernel/sched/sched.c:20-29 | the walk to the end of the list appends the thread |
| `Scheduler.Kernel.PickNext` | kernel/sched/sched.c:40-54 | the first ready thread among the first sixteen; what precedes it is dropped |
| `Scheduler.Kernel.OnTimer` | kernel/sched/sched.c:63-94 | the first waiting thread takes over with its saved context, the running one goes to the end, an empty queue changes nothing |
| `Scheduler.Kernel.Start` | kernel/sched/sched.c:96-109 | the boot thread hands over to the first thread |
| `Scheduler.Kernel.Create` | kernel/sched/thread.c:38-102 | takes the first unused slot, builds its frame and appends it; fails exactly without a slot or a stack |
| `Scheduler.Kernel.Exit` | kernel/sched/thread.c:117-128 | the dead thread is never queued again and the next one takes over |
| `SchedulerRuns.SwitchMirrors` | kernel/sched/sched.c:63-94 | a scheduling step of the pool is a switch of the abstract machine to the head of the queue |
| `SchedulerRuns.Booted` | kernel/sched/sched.c:56-59 | a kernel that has just been set up is in a state from which such runs start |
| `SchedulerRuns.Session` | kernel/sched/sched.c:20-109 | any sequence of creations, computations, yields and exits is made on the kernel move by move, each with the effect that the state before it decides, up to one that no thread can make; a thread at position j of the linked queue runs once j + 1 of the moves have taken a turn, and not before |
| `SchedulerRuns.SessionQueues` | kernel/sched/sched.c:20-94 | the moves of a session are a legal run of the queue, with one scheduling step for each move that takes a turn |
| `SchedulerRuns.WaitsItsTurn` | kernel/sched/sched.c:40-94 | at every moment of a session, a thread that waited at position j runs if and only if exactly j + 1 turns have been taken |
| `SchedulerRuns.SessionSwitches` | kernel/sched/sched.c:63-94 | the moves of a session are a run of context switches, each to the head of the queue |
| `SchedulerRuns.ResumedInSession` | kernel/sched/sched.c:63-94 | a thread that hands over in one move and is next handed the processor in another continues with the registers, at the instruction and with the stack pointer it had |
| `Context.Machine.ContextSwitch` | kernel/arch/x86_64/cpu/switch.S:15-38 | saves the caller's frame below its stack pointer and continues in the context the other frame holds |
| `Context.Machine.BuildFrame` | kernel/sched/thread.c:71-92 | writes exactly the nine words of a new thread's frame; the bad-frame branch is unreachable |
| `Context.Machine.Trampoline` | kernel/arch/x86_64/cpu/switch.S:44-49 | enters the word above the argument with the argument in RDI |
| `Context.SwitchGood` | kernel/arch/x86_64/cpu/switch.S:15-38 | switching to a suspended thread resumes exactly the promised context and keeps every other suspended frame |
| `Context.Resumed` | kernel/arch/x86_64/cpu/switch.S:15-50 | over every run with disjoint stacks a resumed thread has the registers, return address and stack pointer it had when it switched away |
| `Context.FirstRun` | kernel/sched/thread.c:71-86 | a new thread first finds itself in the trampoline with its own argument and entry on top of its stack |
| `Context.FirstCall` | kernel/arch/x86_64/cpu/switch.S:44-49 | from there it enters its entry point with its argument in RDI |
| `RamTree.GrowTree` | kernel/vfs/vfs.c:35-47 | a new first child keeps the nodes a tree |
| `RamTree.GrowUnique` | kernel/vfs/vfs.c:204-220 | sibling names stay unique if and only if the new one was not taken |
| `RamTree.AbsentName` | kernel/vfs/vfs.c:217-218 | the existence test rules out every clash except for names that start with C: |
| `RamTree.NewIsFound` | kernel/vfs/vfs.c:75-98 | a new node is what its name leads to in its directory |
| `RamTree.PrefixGrown` | kernel/vfs/vfs.c:75-98 | in a tree with one more file, a path that led to its directory leads there or, through a clash of names, nowhere |
| `RamTree.PlainGrown` | kernel/vfs/vfs.c:75-98 | a path without separators leads where it led before, or to nothing, the new file or its directory, over-long names included |
| `RamTree.UnlinkTree` | kernel/vfs/vfs.c:301-307 | leading the link past a leaf keeps the nodes a tree |
| `RamTree.PathStays` | kernel/vfs/vfs.c:204-309 | making or removing a node leaves the path of every other node unchanged |
| `RamTree.PartsOfJoin` | kernel/vfs/vfs.c:75-98 | the path parser undoes the path printer |
| `RamNames.PartsOfSpelled` | kernel/vfs/vfs.c:75-98 | names with any runs of slashes and backslashes before, between and behind them are walked one by one, ones of more than 63 characters in pieces |
| `RamNames.FromDrive` | kernel/vfs/vfs.c:50-146 | a path behind C: or c: and any slashes leads from the root, whatever the current directory and drive |
| `RamNames.FromRoot` | kernel/vfs/vfs.c:68-148 | so does one behind slashes or backslashes on the C: drive |
| `RamNames.FromHere` | kernel/vfs/vfs.c:68-152 | any other leads from the current directory |
| `RamNames.Drives` | kernel/vfs/vfs.c:50-66 | a call goes to the FAT drive if and only if the path says D:, or says no drive and D: is the current one |
| `RamTree.PrintedPathLeads` | kernel/vfs/vfs.c:75-138 | the printed path of every live node leads from the root to that node |
| `RamFs.Ram.LookupFrom` | kernel/vfs/vfs.c:75-98 | the loops compute the walk along the parts of the path, over-long names included |
| `RamFs.Ram.GetCwd` | kernel/vfs/vfs.c:104-138 | prints C:/ and the last eight names, cut to the buffer |
| `RamFs.Ram.Chdir` | kernel/vfs/vfs.c:155-185 | moves exactly when the path leads to a directory |
| `RamFs.Ram.PrintAndReturn` | kernel/vfs/vfs.c:104-185 | chdir of what getcwd printed returns to the same directory from anywhere, at depth at most 8 and when the path fits |
| `RamFs.Ram.SplitParent` | kernel/vfs/vfs.c:187-202 | parent and last name of the path, cut to 255 and 63 characters |
| `RamFs.Ram.Mkdir` | kernel/vfs/vfs.c:204-220 | succeeds exactly when the name is new in an existing directory and a slot is free, and then adds that one node |
| `RamFs.DriveNameTwice` | kernel/vfs/vfs.c:204-220 | mkdir of a name such as C:a, made twice in the root of a new file system, gives two siblings of one name |
| `RamFs.Ram.CreateFile` | kernel/vfs/vfs.c:222-241 | the same for files; without memory the call fails and leaves a hollow file behind |
| `RamFs.Ram.Write` | kernel/vfs/vfs.c:243-271 | the result and the whole tree after the call: the file the path names then holds exactly the bytes, at most 16384, and no other node changes, or the call fails and at most a new file is left; it goes through a null pointer if and only if the path leads to a hollow file, in the tree before the call for every path of at most 255 characters, and the bytes fit its capacity |
| `RamFs.OpenedNull` | kernel/vfs/vfs.c:187-271 | for such a path the file that a write creates cannot turn the lookup into one of a hollow file |
| `RamFs.HollowFaults` | kernel/vfs/vfs.c:222-271 | a file created without memory, then a short write to it: the write faults |
| `RamFs.CutPathFaults` | kernel/vfs/vfs.c:187-271 | a path longer than 255 characters that led nowhere before a write leads it to a hollow file |
| `RamFs.Ram.Read` | kernel/vfs/vfs.c:273-288 | returns the first maxlen bytes of the file |
| `RamFs.Ram.WriteThenRead` | kernel/vfs/vfs.c:243-288 | what is written is read back, up to 16384 bytes |
| `RamFs.Ram.Unlink` | kernel/vfs/vfs.c:290-309 | removes exactly the named leaf; the current directory stays live if and only if it was not the one removed |
| `RamFs.Session` | kernel/vfs/vfs.c:155-309 | every run of calls, with or without memory, is carried out call by call, with the results and states that the calls decide, up to the first that goes through such a null pointer; the nodes stay a tree with unique names |
| `RamFs.SessionSpares` | kernel/vfs/vfs.c:155-309 | over every run a node that no call writes or removes is found under its printed path at the end, with its bytes |
| `RamFs.CallHome` | kernel/vfs/vfs.c:155-309 | one call keeps the current directory in the tree if and only if it does not remove it |
| `RamFs.SessionHome` | kernel/vfs/vfs.c:155-309 | the current directory stays one of the tree over every run that does not remove it |

## Left out

- FatDriver.Driver.WriteFile: volumes are assumed to have a FAT of at least total_clusters + 2 entries (`Geometry.Fits`); the clamp at kernel/fs/fat.c:310 alone allows two entries too many.
- FatDriver.Driver.FatSet: only the first copy of the FAT is written by the code, so nothing is claimed about the mirrors.
- FatDriver.Driver.Chdir: the displayed path string is not modelled.
- Pmm.Allocator.Init: pmm_total and the stride between memory map descriptors are not modelled; descriptors are a list.
- Heap.KernelHeap.KmallocAligned: request sizes are bounded so that the size computations do not wrap; is_power_of_two and align_up are written with division instead of masks.
- Heap.KernelHeap.Kfree: what an address leads to must be a block that is out, if it looks like a taken header at all (a misread one corrupts the heap, and the model stops there); an address beyond the modelled 4 GiB reads as no block, where the machine would fault.
- HeapRuns.MisreadForeseen: stated for requests that need no new pages; for the others Foretold decides at the time of the free.
- Vmm.AddressSpace.MapRange: a range below 512 GiB requires that vmm_init got as far as slot 0 of the root, which is never filled here (the code would write to physical page 0), and the rounded end is at most 2^48; loading CR3 is left out.
- TcpStream.RunInOrder: stops before the peer's FIN; what a FIN does is stated by FinStep and FinOvertakes.
- Tcp.Connection.OnTcp: the code ignores the checksum of received segments, and so does the model.
- Tcp.Connection.Send: handing a segment down is atomic; re-entry through ARP is left out.
- Tcp.Connection.Connect: sending either always works or never does; so it is in Close.
- Nvme.QueuePair.Submit: claims nothing about calls after a timeout beyond LateAnswer.
- Nvme.Driver.DoRw: sectors are transferred in order; what the controller does after a timeout is left out.
- Scheduler.Kernel.Create: thread names, and where stacks come from beyond their being disjoint, are left out.
- SchedulerRuns.Session: a thread computes one word at a time, within its own stack or outside of all stacks.
- Context.Resumed: threads are assumed to stay within their stacks.
- HeapRuns.Run: the client writes only into bytes it holds, and frees only what it holds.
- RamFs.Session: the calls stay on the C: drive, and no new node has a name that starts with C:.
- RamFs.Ram.Write: kmalloc is a parameter; the D: drive is modelled in the FAT part only, and a call for it is only recognised here.
- Failing disk reads and writes: sector input and output always succeeds.
- fat_mount, fat_list and vfs_list: geometry parsing and printing.
- Device registers, interrupts, boot loader, console, timers, the NE2000, ATA, AHCI, USB and PCI drivers: hardware access.
- ARP, DNS, HTTP, packages, system calls, the ELF loader and the keyboard ring: thin glue beside the parts above.
