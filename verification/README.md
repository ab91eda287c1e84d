# Proofs about mirix

A Dafny model of four parts of the system, with proofs. Each module is named after the part it models.

**tmpfs** (`TmpfsDir`, `TmpfsTree`, `TmpfsNames`, `TmpfsEdits`, `TmpfsMem`, `TmpfsBill`, `TmpfsMount`, `TmpfsRuns`,
`TmpfsFile`, `TmpfsVolume`). A mount is a graph of nodes whose directories hold ordered lists of entries, an account in
a pool shared by all mounts, and operations that create, link, remove, rename, resize, list, flag, reclaim and unmount.
Shown for every operation, on every success and failure path: directories stay a tree, link counts and sizes stay
exact, names stay unique, lookup caches agree with the scans they replace, and the account equals the bytes of the
graph. The one exception, a link into a removed directory, is characterised exactly. Rename has its exact condition of
success and its exact effect on all name bindings. A paged listing misses and repeats nothing although others edit the
directory, the entry at its cursor included. The paged file store with its one kept mapping is a byte sequence. Over
whole runs of operations, reads and writes: names stay bound until an operation is about them, a listing in progress
stays exact, a file reads back what was written to it wherever it has been moved, and the account covers names and
bytes in every state.

**The default pager** (`PagerGate`, `PagerParts`, `PagerMap`, `PagerSystem`, `PagerStore`, `PagerRuns`). The gate is a
step relation over any number of handler threads with an explicit lock and condition variables; safety, freedom from
deadlock, a bound on the steps of every run and termination under every scheduler are shown. The storage side is
imperative: bitmaps, page maps that grow, reads and writes in pieces, relocation off a dying partition. In every run a
page reads back what was last written to it.

**MIG** (`Mig`). The stub compiler's request checks are a small program with an interpreter. For every argument list
and every message the program reads only inside the message and accepts exactly the messages of the right size.

**Boot-time storage** (`BlockMap`, `Kalloc`). The block map with its cache per level against the uncached walk, for any
interference while the lock is dropped; the reader on top of it; the power-of-two allocator with lists threaded through
free memory, including what other threads do while it waits for space.

## How to read it

State that the C code changes in place is held in classes (`Mount`, `Pool`, `RegFile`, `Volume`, `DefaultPager`,
`File`, `Allocator`). Their methods are specified by functions on values: `T()` is the graph of a mount, `S()` the
storage of the pager or the state of the allocator, `Contents()` the bytes of a file. Invariants are conjunctions of
small predicates over one element or one pair, and each elementary change has a lemma that keeps them. An invariant
takes a set of things in transit (directories, blocks, mapped space) where an operation or a thread holds something
that is temporarily nobody's.

Nodes, entries and memory frames are identified by numbers instead of addresses. Outcomes that come from outside
(credentials, vnodes, device transfers, user-memory faults, answers of the virtual memory system, what other threads
did) are parameters, and the contracts hold for all of them.

Eight places where the code and an expectation differ:

- Renaming a directory onto itself is refused with EINVAL; `TmpfsMount.Mount.RenameOnto` says that exactly directories
  are, and `TmpfsMount.RenameOntoItself` gives the steps.
- The assertion in tmpfs_mount that the root node can be allocated fails for an unlimited mount on a nearly full pool;
  `TmpfsMount.MountFs` gives the exact condition and `TmpfsMount.MountOnEmptyPool` an input.
- A file can be linked into a directory that has been removed; `TmpfsMount.Mount.Link` says that exactly this breaks the
  file system's invariant, and `TmpfsMount.LinkIntoRemoved` gives the steps.
- A partition is accepted into slot 255 although that byte stands for "no partition", and with more than 2^24 pages
  although map entries cannot name the last ones; `PagerStore.DefaultPager.CreatePartition` gives the exact condition,
  `PagerStore.OnePartitionTooMany` and `PagerStore.OnePageTooMany` the inputs.
- Relocating a page does not notice a short transfer and can lose its tail; `PagerStore.CarriedExact` says when, and
  `PagerStore.ShortReadLoses` gives an input.
- A failed device read can leave the boot file reader's buffer stale; `BlockMap.File.Fill` says exactly when, and
  `BlockMap.StaleBuffer` gives an input.
- The rounded name comparison may call equal names different; `TmpfsMem.NeqlenExact` says when.
- MIG's size expression is not rounded when the element size is a multiple of four, so a message can be accepted
  unpadded; `Mig.PaddedExact` says when.

## Model

| member | source | states |
|---|---|---|
| `PagerGate.InvStep` | mach/bootstrap/default_pager.c:1653-1746 | every step of every handler, and every delivery of a request, keeps the gate invariant: who holds the lock, who is past the gate, what the counters count, and that a satisfied sleeper has a broadcast coming |
| `PagerGate.InvInRuns` | mach/bootstrap/default_pager.c:1653-1746 | the invariant holds in every state of every run with any number of threads |
| `PagerGate.GateOrder` | mach/bootstrap/default_pager.c:1653-1674 | at most one handler is past the sequence-number gate; all lower numbers have left it and all higher ones are still held |
| `PagerGate.CountersExact` | mach/bootstrap/default_pager.c:1676-1748 | readers and writers are the numbers of transfers in flight, in every state of every run |
| `PagerGate.NoStaleRead` | mach/bootstrap/default_pager.c:2212-2260 | while a read is in flight, every write with a smaller sequence number has finished its transfer |
| `PagerGate.TerminateQuiet` | mach/bootstrap/default_pager.c:2058-2110 | terminate clears the ports only when no read and no write is in flight |
| `PagerGate.NotAllAsleep` | mach/bootstrap/default_pager.c:1653-1746 | with the lock free and a request unfinished, some thread is neither finished nor asleep: no broadcast is lost |
| `PagerGate.NoDeadlock` | mach/bootstrap/default_pager.c:1653-1746 | while a delivered request is unfinished some handler step is enabled |
| `PagerGate.StepDecreases` | mach/bootstrap/default_pager.c:2212-2421 | every handler step decreases a well-founded measure over all threads |
| `PagerGate.PotentialFalls` | mach/bootstrap/default_pager.c:1653-1746 | every handler step lowers a potential that a further delivery raises by a fixed amount |
| `PagerGate.RunBound` | mach/bootstrap/default_pager.c:1653-1746 | in every run, deliveries included, the handlers take at most (13d + 2p)(2d + 1) + 2d steps for d requests of p pages together |
| `PagerGate.AllRequestsFinish` | mach/bootstrap/default_pager.c:2212-2421 | under every scheduler, which may look at the whole past, from every reachable state all delivered requests finish, within a number of steps the state fixes |
| `PagerGate.SchedulerExists` | mach/bootstrap/default_pager.c:1653-1746 | there are such schedulers: one that runs some thread that can run |
| `PagerGate.StuckIsDone` | mach/bootstrap/default_pager.c:1653-1746 | a run in which no handler can move has finished all its requests |
| `PagerGate.DoneIsQuiet` | mach/bootstrap/default_pager.c:1679-1746 | when all requests are done both counters are zero, the lock is free and the gate stands after the last request |
| `PagerParts.FreeMeansClear` | mach/bootstrap/default_pager.c:299-324 | a positive free count means a clear block in range, so the panics of the allocator are unreachable |
| `PagerParts.FindClear` | mach/bootstrap/default_pager.c:305-325 | the word scan and the bit scan find the lowest clear block, and it is in range |
| `PagerParts.TakenOk` | mach/bootstrap/default_pager.c:315-330 | taking a clear block changes that bit only and keeps the free count exact |
| `PagerParts.GivenOk` | mach/bootstrap/default_pager.c:339-365 | giving back a marked block changes that bit only and keeps the free count exact |
| `PagerMap.PutAt` | mach/bootstrap/default_pager.c:1114-1155 | a store into the direct or two-level map changes the binding of that page only |
| `PagerMap.WithSecondAt` | mach/bootstrap/default_pager.c:1071-1112 | supplying an empty second-level block changes no binding |
| `PagerMap.ExtendedAt` | mach/bootstrap/default_pager.c:620-768 | growing a map, in each of its three cases, keeps every binding and adds only empty ones |
| `PagerMap.FreshAt` | mach/bootstrap/default_pager.c:483-500 | a new map has no bindings |
| `PagerMap.DoubleUp` | mach/bootstrap/default_pager.c:638-647 | the doubling ends at an admissible size that covers the request and overshoots by less than a factor of two |
| `PagerMap.InitialSize` | mach/bootstrap/default_pager.c:471-478 | the size given to a new object is admissible and covers the request |
| `PagerMap.Extend` | mach/bootstrap/default_pager.c:620-768 | the copying loops of pager_extend build exactly the extended map, large enough for the request |
| `PagerSystem.TakeInv` | mach/bootstrap/default_pager.c:277-334 | a block taken from a partition is held by the operation; ownership and all page contents are otherwise as before |
| `PagerSystem.GiveInv` | mach/bootstrap/default_pager.c:339-365 | a held block given back leaves ownership and all page contents as before |
| `PagerSystem.StoreInv` | mach/bootstrap/default_pager.c:1404-1430 | writing a block changes the contents of the one page that owns it |
| `PagerSystem.ReshapeInv` | mach/bootstrap/default_pager.c:620-768 | a map replaced by one with the same bindings keeps ownership and contents |
| `PagerSystem.BindInv` | mach/bootstrap/default_pager.c:1152-1154 | binding a held block to an unbound page keeps: marked blocks are exactly the named ones, each named once |
| `PagerSystem.UnbindInv` | mach/bootstrap/default_pager.c:826-838 | invalidating an entry makes its block a held one and keeps ownership of all others |
| `PagerSystem.MoveInv` | mach/bootstrap/default_pager.c:853-910 | taking a block, filling it, releasing the old one and re-pointing the entry keeps ownership; the page holds what the new block was filled with and every other page is as before |
| `PagerSystem.SetAwayInv` | mach/bootstrap/default_pager.c:1559-1566 | marking a partition as going away, or not, disturbs nothing |
| `PagerSystem.NewPartInv` | mach/bootstrap/default_pager.c:175-218 | a new partition with a clear bitmap disturbs nothing |
| `PagerSystem.DropPartInv` | mach/bootstrap/default_pager.c:1608-1618 | a partition that no map and no object refers to has an empty bitmap and can be dropped without loss |
| `PagerSystem.DropPagerInv` | mach/bootstrap/default_pager.c:1170-1216 | an object without blocks can be dropped without loss |
| `PagerStore.PackExact` | mach/bootstrap/default_pager.c:392-404 | exactly the entries that survive the packing into 8 bits of partition and 24 bits of block |
| `PagerStore.EntriesSurvive` | mach/bootstrap/default_pager.c:392-404 | in every valid state every map entry survives the packing and none reads as "no block" |
| `PagerStore.DefaultPager.constructor` | mach/bootstrap/default_pager.c:153-157 | an empty list of partitions is a valid state |
| `PagerStore.DefaultPager.ChoosePartition` | mach/bootstrap/default_pager.c:231-270 | the first partition that exists, is not to be avoided, is not going away and is big enough; none only if there is none |
| `PagerStore.DefaultPager.AllocPage` | mach/bootstrap/default_pager.c:276-334 | succeeds exactly on a usable partition with a free block, and takes the lowest clear one |
| `PagerStore.DefaultPager.DeallocPage` | mach/bootstrap/default_pager.c:338-365 | clears the bit and raises the free count of one block of one partition |
| `PagerStore.DefaultPager.PickPartition` | mach/bootstrap/default_pager.c:1037-1051 | fails exactly when the object has no partition and no partition has a free block |
| `PagerStore.DefaultPager.MakeRoom` | mach/bootstrap/default_pager.c:1053-1112 | afterwards the page has a map entry, and no binding and no contents have changed |
| `PagerStore.DefaultPager.GetRoom` | mach/bootstrap/default_pager.c:1115-1150 | falls back to any other partition; fails exactly when every partition is full or going away |
| `PagerStore.DefaultPager.WriteOffset` | mach/bootstrap/default_pager.c:1010-1164 | returns the page's block, taken now if it had none, touching no other page; "no block" exactly when there is no space and none was bound, or the object has no partition |
| `PagerStore.DefaultPager.ReleaseOffset` | mach/bootstrap/default_pager.c:820-844 | the page becomes absent, its block free, all other pages as before |
| `PagerStore.DefaultPager.Read` | mach/bootstrap/default_pager.c:1291-1376 | the panic exactly for a page beyond the object; absent exactly for pages without a block; a success delivers the page however the device splits the transfer; an error only if the device failed, and then nothing changed |
| `PagerStore.DefaultPager.Write` | mach/bootstrap/default_pager.c:1378-1434 | a success makes the page hold the data; an error happens only without space or on a device failure and leaves a prefix of the new data over the old page; other pages never change |
| `PagerStore.DefaultPager.CreatePartition` | mach/bootstrap/default_pager.c:164-223 | takes the lowest empty slot of a list that doubles when full and moves no page; the storage stays valid exactly if eight bits can name the slot and 24 bits every block |
| `PagerStore.OnePageTooMany` | mach/bootstrap/default_pager.c:164-223 | an input on which it does not: an empty pager and a partition of 2^24 + 1 pages, whose last block the packed entry cannot name |
| `PagerStore.OnePartitionTooMany` | mach/bootstrap/default_pager.c:104-223 | the other input: 256 partitions of one page, the last of which gets the slot number that marks "no partition" |
| `PagerStore.DefaultPager.CreatePager` | mach/bootstrap/default_pager.c:1826-1858 | a new object of the requested size, all of its pages absent |
| `PagerStore.DefaultPager.DestroyPager` | mach/bootstrap/default_pager.c:1170-1216 | every block of the object is freed exactly once and no other page changes, for direct and two-level maps |
| `PagerStore.DefaultPager.MovePage` | mach/bootstrap/default_pager.c:853-910 | the panic exactly if one of its transfers fails; refuses exactly when no other partition has a free block; otherwise the page goes to the lowest clear block of a partition that stays, as far as the two transfers carried it |
| `PagerStore.CarriedExact` | mach/bootstrap/default_pager.c:853-910 | a page carried by one read and one write arrives intact exactly if the bytes that did not come over were the same at the destination |
| `PagerStore.ShortReadLoses` | mach/bootstrap/default_pager.c:853-910 | an input on which it does not: a page of ones read one byte short onto a block of zeros |
| `PagerStore.DefaultPager.Realloc` | mach/bootstrap/default_pager.c:1225-1273 | moves all pages of an object off a partition; pages that were elsewhere keep their contents always, the moved ones if every transfer was whole; the panic exactly if a transfer failed; on success neither its map nor its current partition names the partition; failing means no other partition has room |
| `PagerStore.DefaultPager.Evacuate` | mach/bootstrap/default_pager.c:1584-1606 | the same for every object, in any order |
| `PagerStore.DefaultPager.DestroyPartition` | mach/bootstrap/default_pager.c:1542-1629 | unknown exactly when no partition has the name; the panic exactly if a transfer failed; removed means no page is on it any more; a failure puts it back and means there was no room; no page appears or goes, pages elsewhere keep their contents, and so do the moved ones if every transfer was whole |
| `PagerRuns.Perform` | mach/bootstrap/default_pager.c:1291-1434 | every operation keeps the storage valid, changes only the contents of pages it touches, and answers an error only when the device failed or, for a write, when there was no space; a removal of a partition can end in a panic exactly when a transfer fails |
| `PagerRuns.RunAll` | mach/bootstrap/default_pager.c:1291-1629 | any list of operations on the pager: the states and answers form a run, each operation that makes sense is in it at its place, each other one is passed over, and after a panic nothing follows |
| `PagerRuns.Undisturbed` | mach/bootstrap/default_pager.c:1291-1434 | in every run a page keeps its contents while nothing touches it, whatever objects come and go and whatever partitions are removed with whole transfers |
| `PagerRuns.StillReaches` | mach/bootstrap/default_pager.c:779-816 | in every run an object keeps covering a page it has covered while nothing touches that page |
| `PagerRuns.ReadYourWrites` | mach/bootstrap/default_pager.c:1291-1434 | in every run a read returns what the last successful write of that page stored, or an error exactly because the device failed on it; it is never answered "absent" |
| `PagerRuns.ReleasedReadsAbsent` | mach/bootstrap/default_pager.c:1360-1363 | in every run a page released by a read is answered "absent" until it is touched again |
| `TmpfsDir.AttachOk` | bsd/tmpfs/tmpfs_subr.c:632-655 | attaching keeps sequence numbers strictly increasing below the next one, and the reader cache valid |
| `TmpfsDir.DetachOk` | bsd/tmpfs/tmpfs_subr.c:657-675 | so does detaching, although it reuses the number of the last entry |
| `TmpfsDir.Rename` | bsd/tmpfs/tmpfs_vfnops.c:1542-1554 | changing a name in place keeps order, numbers and cache |
| `TmpfsDir.DirLookup` | bsd/tmpfs/tmpfs_subr.c:581-602 | the scan finds the first entry with the name |
| `TmpfsDir.LookupIs` | bsd/tmpfs/tmpfs_subr.c:581-602 | with distinct names it finds exactly the entry that bears the name |
| `TmpfsDir.LookupBySeq` | bsd/tmpfs/tmpfs_subr.c:680-702 | the cached entry or the scan: the entry with that number, or none if there is none |
| `TmpfsDir.SeqUnique` | bsd/tmpfs/tmpfs_subr.c:680-702 | at most one entry bears a number, so cache and scan agree |
| `TmpfsDir.GetDotEnts` | bsd/tmpfs/tmpfs_subr.c:708-751 | emits the virtual entries that are due and stops only for lack of room or a fault |
| `TmpfsDir.GetEntries` | bsd/tmpfs/tmpfs_subr.c:790-847 | the copying loop emits consecutive entries and at least one if it can be moved |
| `TmpfsDir.GetDents` | bsd/tmpfs/tmpfs_subr.c:753-861 | the records of a call are a stretch of the listing from the offset on, the new offset names the record after it, and unknown offsets are rejected |
| `TmpfsDir.RefusedExactly` | bsd/tmpfs/tmpfs_subr.c:680-702 | an offset is refused exactly if it is not one of the three fixed ones and no entry bears it |
| `TmpfsDir.DetachRefuses` | bsd/tmpfs/tmpfs_subr.c:657-675 | detaching an entry makes its own number refused and no other |
| `TmpfsDir.AttachAccepts` | bsd/tmpfs/tmpfs_subr.c:632-655 | attaching makes exactly the number it gives out acceptable |
| `TmpfsDir.CursorComesBack` | bsd/tmpfs/tmpfs_subr.c:657-675 | the last number is refused after its entry is detached and accepted again after the next attach |
| `TmpfsDir.EditKeepsOk` | bsd/tmpfs/tmpfs_subr.c:632-675 | any attach, detach or rename by others keeps a listing in progress consistent, the entry at the cursor included |
| `TmpfsDir.CallKeepsOk` | bsd/tmpfs/tmpfs_subr.c:753-861 | a call adds records in order behind all earlier ones, or is refused and adds none |
| `TmpfsDir.ListingInOrder` | bsd/tmpfs/tmpfs_subr.c:753-861 | for any sequence of calls, buffer sizes, refusals and edits the records received are in order and without repetition |
| `TmpfsDir.NoneSkipped` | bsd/tmpfs/tmpfs_subr.c:753-861 | an entry present throughout that lies behind the cursor has been reported |
| `TmpfsDir.CompleteAtEof` | bsd/tmpfs/tmpfs_subr.c:753-861 | end of directory appears only after every entry present throughout has been reported exactly once, under whatever name it had |
| `TmpfsDir.List` | bsd/tmpfs/tmpfs_subr.c:753-861 | any list of calls and edits carried out on a directory is a listing in this sense; act by act it is the call with its buffer, or the edit, that was asked for |
| `TmpfsDir.EvolvesByMove` | bsd/tmpfs/tmpfs_vfnops.c:1476-1554 | what a rename does to the list of a target directory is at most three edits of this kind |
| `TmpfsTree.AttachInv` | bsd/tmpfs/tmpfs_subr.c:479-519 | attaching an entry keeps the tree of directories, link counts, sizes and hints exact |
| `TmpfsTree.DetachInv` | bsd/tmpfs/tmpfs_subr.c:529-573 | detaching an entry keeps them exact, the directory leaving the tree excepted |
| `TmpfsTree.AllocInv` | bsd/tmpfs/tmpfs_subr.c:103-210 | a new node without entries keeps them exact |
| `TmpfsTree.DropDotInv` | bsd/tmpfs/tmpfs_vfnops.c:893-911 | an empty directory that loses the link of its own "." ends with no links |
| `TmpfsTree.FreeInv` | bsd/tmpfs/tmpfs_vfnops.c:1062-1068 | a node without links can be freed: no entry and no parent refers to it |
| `TmpfsTree.AncestorNotEmpty` | bsd/tmpfs/tmpfs_vfnops.c:866-878 | a directory that lies above another has an entry, so the test for emptiness keeps it from being removed |
| `TmpfsTree.TouchInv` | bsd/tmpfs/tmpfs_subr.c:868-935 | changing attributes or size only keeps the graph |
| `TmpfsNames.ReachesIffOnPath` | bsd/tmpfs/tmpfs_vfnops.c:1917-1966 | the ancestors of a directory are exactly the nodes on its one chain to the root |
| `TmpfsNames.Genealogy` | bsd/tmpfs/tmpfs_vfnops.c:1917-1966 | the climb ends and returns exactly the child of the source directory above the target, or none |
| `TmpfsNames.CycleIff` | bsd/tmpfs/tmpfs_vfnops.c:1813-1819 | comparing the source with that child refuses the move exactly when it would close a cycle |
| `TmpfsNames.TargetStaysRooted` | bsd/tmpfs/tmpfs_vfnops.c:2177-2237 | a target outside the moved directory still hangs from the root when that is detached |
| `TmpfsNames.OneEntryPerDirectory` | bsd/tmpfs/tmpfs_subr.c:39-56 | an attached directory has exactly one entry anywhere, in its parent's list |
| `TmpfsNames.TreeShape` | bsd/tmpfs/tmpfs_subr.c:39-56 | every attached directory hangs from the root by exactly one chain, without repetition |
| `TmpfsNames.CachedIsLookup` | bsd/tmpfs/tmpfs_subr.c:610-627 | a cached entry is the entry the linear scan finds |
| `TmpfsNames.DirectoriesCached` | bsd/tmpfs/tmpfs_subr.c:610-627 | an attached directory always has a cached entry |
| `TmpfsNames.MovedWithinOk` | bsd/tmpfs/tmpfs_vfnops.c:1476-1554 | rename inside one directory: tree, counts and distinct names kept, exact effect on all bindings |
| `TmpfsNames.MovedAcrossOk` | bsd/tmpfs/tmpfs_vfnops.c:1476-1554 | rename between directories: the same |
| `TmpfsEdits.WithinSteps` | bsd/tmpfs/tmpfs_vfnops.c:1476-1554 | a rename inside a directory changes every list by such edits, and no node but by its list, links, parent and size |
| `TmpfsEdits.AcrossSteps` | bsd/tmpfs/tmpfs_vfnops.c:1476-1554 | so does a rename between directories |
| `TmpfsMem.RoundName` | bsd/tmpfs/tmpfs_mem.c:182-200 | the least multiple of 32 that holds a name |
| `TmpfsMem.NeqlenSound` | bsd/tmpfs/tmpfs_mem.c:207-214 | the rounded comparison reports equality only for equal names, when a terminator follows each |
| `TmpfsMem.NeqlenIncomplete` | bsd/tmpfs/tmpfs_mem.c:207-214 | two equal names that it reports as different |
| `TmpfsMem.NeqlenExact` | bsd/tmpfs/tmpfs_mem.c:207-214 | it reports equality exactly if the names are equal and the bytes up to the end of the quantum agree |
| `TmpfsMem.Pool.Incr` | bsd/tmpfs/tmpfs_mem.c:99-122 | succeeds exactly if the room suffices, then charges one account; global use stays reservations plus use of unlimited mounts |
| `TmpfsMem.Pool.Decr` | bsd/tmpfs/tmpfs_mem.c:124-133 | refunds one account and nothing else |
| `TmpfsMem.Pool.Open` | bsd/tmpfs/tmpfs_vfsops.c:140-147 | a limited mount takes its rounded reservation at once, and is refused exactly if the pool cannot cover it |
| `TmpfsMem.Pool.Close` | bsd/tmpfs/tmpfs_vfsops.c:251-255 | an account at zero is closed and its reservation returned |
| `TmpfsBill.AttachBytes` | bsd/tmpfs/tmpfs_subr.c:435-457 | an entry adds exactly the bytes that were charged for it and its name |
| `TmpfsBill.DetachBytes` | bsd/tmpfs/tmpfs_subr.c:460-468 | removing it takes away the same bytes |
| `TmpfsBill.RenamedBytes` | bsd/tmpfs/tmpfs_vfnops.c:1542-1554 | a new name trades rounded lengths |
| `TmpfsBill.WithNodeBytes` | bsd/tmpfs/tmpfs_subr.c:103-210 | a node adds its own bytes and a symlink's target |
| `TmpfsBill.WithoutNodeBytes` | bsd/tmpfs/tmpfs_subr.c:216-263 | freeing it takes away the same bytes and the pages of a file |
| `TmpfsMount.Mount.constructor` | bsd/tmpfs/tmpfs_vfsops.c:157-181 | a fresh mount holds one root directory and is charged for exactly one node |
| `TmpfsMount.Mount.DirAttach` | bsd/tmpfs/tmpfs_subr.c:479-519 | the in-place steps give exactly the graph with the entry attached |
| `TmpfsMount.Mount.DirDetach` | bsd/tmpfs/tmpfs_subr.c:529-573 | the in-place steps give exactly the graph with the entry detached |
| `TmpfsMount.Mount.AllocNode` | bsd/tmpfs/tmpfs_subr.c:103-210 | succeeds exactly with a node to spare, memory for it and its target, and a backing object; a failure charges nothing |
| `TmpfsMount.Mount.FreeNode` | bsd/tmpfs/tmpfs_subr.c:216-263 | requires what the code asserts, that the list is empty and a directory other than the root has no parent; refunds exactly what the node was charged for |
| `TmpfsMount.Mount.DrainAll` | bsd/tmpfs/tmpfs_vfsops.c:226-245 | once all entries are detached every node satisfies what tmpfs_free_node asserts |
| `TmpfsMount.Mount.AllocDirent` | bsd/tmpfs/tmpfs_subr.c:435-457 | succeeds exactly with memory for entry and name; a failure charges nothing |
| `TmpfsMount.Mount.FreeDirent` | bsd/tmpfs/tmpfs_subr.c:460-468 | refunds entry and name |
| `TmpfsMount.Mount.AllocFile` | bsd/tmpfs/tmpfs_subr.c:368-429 | create, mknod, mkdir and symlink: exactly when they succeed, the new graph, its cost and the one new binding, all invariants kept; every failure leaves nodes and account as they were |
| `TmpfsMount.Mount.Link` | bsd/tmpfs/tmpfs_vfnops.c:749-814 | exactly when it succeeds, one more link and one new binding, the account exact; the file system stays sound exactly if it failed or the directory had not been removed; every failure undone |
| `TmpfsMount.LinkedInv` | bsd/tmpfs/tmpfs_vfnops.c:785-801 | a link keeps tree and counts exactly if the directory it goes into still has a parent |
| `TmpfsMount.LinkIntoRemoved` | bsd/tmpfs/tmpfs_vfnops.c:749-814 | mount, create a file and a directory, remove the directory, link the file into it: the link succeeds and the file system is no longer sound |
| `TmpfsMount.Mount.Remove` | bsd/tmpfs/tmpfs_vfnops.c:681-744 | exactly when it succeeds, the new graph, one link fewer and exactly that binding gone |
| `TmpfsMount.Mount.Rmdir` | bsd/tmpfs/tmpfs_vfnops.c:837-918 | exactly when it succeeds; the directory was empty, ends with no links and no parent, and exactly that binding is gone |
| `TmpfsMount.Mount.RenameEnter` | bsd/tmpfs/tmpfs_vfnops.c:1598-1832 | succeeds exactly when both directories are linked and can be searched, the source exists, source and target vnodes can be had and are no mount points, the target is not the source directory and no cycle would close; each error code has its own cause: ENOENT, EACCES for a directory that may not be searched, ENFILE for a vnode that cannot be had, EBUSY for a mount point, ENOTEMPTY, EINVAL |
| `TmpfsMount.Mount.EnterCommon` | bsd/tmpfs/tmpfs_vfnops.c:1660-1770 | the same when source and target directory are one |
| `TmpfsMount.Mount.EnterBeside` | bsd/tmpfs/tmpfs_vfnops.c:1993-2140 | the same when the source directory is not above the target: target first, ENOTEMPTY if it is the source directory |
| `TmpfsMount.Mount.EnterBelow` | bsd/tmpfs/tmpfs_vfnops.c:1993-2140 | the same when the target is below the source directory: source first, EINVAL if it is the target directory or above it |
| `TmpfsMount.Mount.AttachDetach` | bsd/tmpfs/tmpfs_vfnops.c:2177-2237 | its steps give exactly the shuffled graph |
| `TmpfsMount.Mount.CheckReplace` | bsd/tmpfs/tmpfs_vfnops.c:2290-2403 | accepts exactly sources and targets of matching kinds, empty target directories, unflagged nodes and permitted callers |
| `TmpfsMount.Mount.RenameOver` | bsd/tmpfs/tmpfs_vfnops.c:1502-1554 | replaces or creates the target: the exact effect on all bindings, memory for the name spent exactly on success |
| `TmpfsMount.Mount.RenameOnto` | bsd/tmpfs/tmpfs_vfnops.c:1476-1500 | when both names lead to one node at most the source entry goes; EINVAL exactly for directories |
| `TmpfsMount.Mount.Rename` | bsd/tmpfs/tmpfs_vfnops.c:1375-1574 | succeeds exactly when the lookups, the kinds, the flags, the credentials and the memory for the name allow it; EINVAL for a directory renamed onto itself; on success the target name leads to the source node, the source name is gone unless it is the same entry, all other bindings are unchanged and lists change by edits only; every failure leaves nodes and account as they were |
| `TmpfsMount.RenameOntoItself` | bsd/tmpfs/tmpfs_vfnops.c:1476-1485 | an input for that: make a directory and rename it to its own name |
| `TmpfsMount.Mount.Resize` | bsd/tmpfs/tmpfs_subr.c:868-935 | pages follow the size and the account follows the pages; fails exactly when growth cannot be paid or made, and then changes nothing |
| `TmpfsMount.Mount.Readdir` | bsd/tmpfs/tmpfs_vfnops.c:948-983 | nothing from a directory without links; EINVAL exactly for an offset that is refused, which changes nothing; otherwise a stretch of the listing; only the reader cache changes |
| `TmpfsMount.Mount.SetFlags` | bsd/tmpfs/tmpfs_subr.c:937-972 | exactly who may set the flags: not on a read-only mount; the superuser unless system flags are set and the security level is raised; the owner while no system flag is set or asked for; every binding stays |
| `TmpfsMount.Mount.Reclaim` | bsd/tmpfs/tmpfs_vfnops.c:1041-1070 | a node goes away exactly if it has no links, with everything it was charged for |
| `TmpfsMount.Mount.Unmount` | bsd/tmpfs/tmpfs_vfsops.c:210-262 | all entries and nodes go, every assertion on the way holds, those of tmpfs_free_node included; the account ends at zero and the reservation is returned |
| `TmpfsMount.DetachAssertions` | bsd/tmpfs/tmpfs_subr.c:529-545 | the assertions of tmpfs_dir_detach hold for every entry of every reachable graph |
| `TmpfsMount.NoEntryForAncestor` | bsd/tmpfs/tmpfs_vfnops.c:2085-2094 | a directory never holds an entry for one of its ancestors, as tmpfs_rename_lock asserts |
| `TmpfsMount.MoveIsSafe` | bsd/tmpfs/tmpfs_vfnops.c:1813-1819 | the comparison with the child keeps the target out of the moved subtree |
| `TmpfsMount.NodeLimit` | bsd/tmpfs/tmpfs_vfsops.c:149-155 | the limit on nodes lies between 3 and INT_MAX |
| `TmpfsMount.MountFs` | bsd/tmpfs/tmpfs_vfsops.c:122-202 | refused exactly if the reservation does not fit; the assertion on the root node fails exactly for an unlimited mount on a pool with less than one node of room |
| `TmpfsMount.MountOnEmptyPool` | bsd/tmpfs/tmpfs_vfsops.c:168-172 | an input on which that assertion fails: a pool of limit 0 |
| `TmpfsMount.LinkCountsExact` | bsd/tmpfs/tmpfs_subr.c:39-56 | a file has as many links as entries, a linked directory two plus its subdirectories, a removed one none; a directory's size is its entries times the entry size |
| `TmpfsRuns.Perform` | bsd/tmpfs/tmpfs_vfnops.c:681-1070 | every operation: exactly when it succeeds, what it does to the graph, no other binding changed, failures without effect; afterwards the mount is sound exactly unless a link went into a removed directory |
| `TmpfsRuns.RunAll` | bsd/tmpfs/tmpfs_vfnops.c:681-1070 | any list of operations makes a trace: each operation that makes sense is carried out with its exact effect and answer, each other one is passed over, and every state is sound |
| `TmpfsRuns.Life` | bsd/tmpfs/tmpfs_vfsops.c:122-262 | a mount opened, put through any operations and closed leaves the pool exactly as it was; refusal and assertion failure under the exact conditions of mounting, and otherwise the operations form such a trace from a bare root |
| `TmpfsRuns.NameKept` | bsd/tmpfs/tmpfs_vfnops.c:681-1070 | in every trace a name keeps its binding until an operation is about that name |
| `TmpfsRuns.FoundAfterCreate` | bsd/tmpfs/tmpfs_subr.c:368-429 | in every trace a created name is found, leading to a node that was new, until an operation is about that name |
| `TmpfsRuns.FoundAfterMove` | bsd/tmpfs/tmpfs_vfnops.c:1375-1574 | in every trace the target of a rename leads to the node the source led to, until an operation is about that name |
| `TmpfsRuns.EffectEvolves` | bsd/tmpfs/tmpfs_subr.c:632-675 | every operation changes a directory that outlives it by attach, detach, rename and cache edits only |
| `TmpfsRuns.ReaderIsListing` | bsd/tmpfs/tmpfs_vfnops.c:948-983 | a reader among the operations of a trace, each of whose calls starts where the one before ended, is a listing |
| `TmpfsRuns.ListingOverRun` | bsd/tmpfs/tmpfs_vfnops.c:948-983 | whatever else a mount goes through, the reader gets records in order and without repetition, and at the end every entry that stayed, exactly once |
| `TmpfsFile.ReadBack` | bsd/tmpfs/tmpfs_vfnops.c:576-653 | reading a range that was just written gives back the data |
| `TmpfsFile.PutAll` | bsd/tmpfs/tmpfs_subr.c:1248-1262 | copying into a mapping of pages overwrites exactly those bytes of the store |
| `TmpfsFile.GetAll` | bsd/tmpfs/tmpfs_subr.c:1248-1262 | copying out of a mapping gives exactly those bytes of the store |
| `TmpfsFile.GrownContents` | bsd/tmpfs/tmpfs_subr.c:919-933 | old slack zeroed to its page end plus zero pages is padding with zeros |
| `TmpfsFile.PartialWrite` | bsd/tmpfs/tmpfs_vfnops.c:633-646 | a failed write cut back to the old length is the old contents overlaid by what arrived |
| `TmpfsFile.RegFile.Uncache` | bsd/tmpfs/tmpfs_subr.c:1196-1204 | dropping the kept mapping changes no byte |
| `TmpfsFile.RegFile.UioMove` | bsd/tmpfs/tmpfs_subr.c:1220-1265 | one transfer through the kept or a new mapping moves at least a byte and exactly the bytes it reports, or fails for a fault or for lack of mappings |
| `TmpfsFile.RegFile.FindWindow` | bsd/tmpfs/tmpfs_subr.c:1228-1256 | the kept mapping is used only for the page it maps; a new one covers the transfer |
| `TmpfsFile.RegFile.Resize` | bsd/tmpfs/tmpfs_subr.c:868-935 | truncation takes a prefix or pads with zeros, also after an earlier shrink; fails exactly when growth is refused, changing nothing |
| `TmpfsFile.RegFile.Write` | bsd/tmpfs/tmpfs_vfnops.c:576-653 | overwrites with any gap zero-filled; a failed write restores the length and keeps what had arrived inside it |
| `TmpfsFile.RegFile.Read` | bsd/tmpfs/tmpfs_vfnops.c:527-573 | delivers the slice, or an initial part of it after a fault; nothing changes |
| `TmpfsVolume.Volume.constructor` | bsd/tmpfs/tmpfs_vfsops.c:122-202 | a mount without files, as it is after mounting, is a volume without bytes |
| `TmpfsVolume.Volume.Resize` | bsd/tmpfs/tmpfs_subr.c:868-935 | size, pages, account and bytes together: succeeds exactly if growth can be paid for and made, and then truncates or pads that file; names, other files and, on failure, everything are as before |
| `TmpfsVolume.Volume.Write` | bsd/tmpfs/tmpfs_vfnops.c:576-653 | the same for a write; one that fails half-way leaves what had arrived inside the old length and gives back all it grew by |
| `TmpfsVolume.Volume.Read` | bsd/tmpfs/tmpfs_vfnops.c:527-573 | delivers the slice, or an initial part of it after a fault; no file changes |
| `TmpfsVolume.Volume.Do` | bsd/tmpfs/tmpfs_vfnops.c:681-1070 | any operation on names: besides its effect on the graph, new files are empty, truncated ones cut or padded and all others keep their bytes |
| `TmpfsVolume.Volume.RunAll` | bsd/tmpfs/tmpfs_vfnops.c:527-1070 | any list of operations, reads and writes makes a history: each with its exact effect and answer, and in every state the graph is sound, exactly the regular files have bytes, as many as their size, their pages are the rounded sizes and the account covers all of it |
| `TmpfsVolume.BytesKept` | bsd/tmpfs/tmpfs_vfnops.c:527-1070 | in every history a file keeps its bytes until it is written, truncated or let go |
| `TmpfsVolume.ReadsWhatWasWritten` | bsd/tmpfs/tmpfs_vfnops.c:527-653 | in every history a read gets what the last write put there, whatever happens meanwhile to names, directories and other files |
| `BlockMap.NotInFileExact` | mach/bootstrap/ext2_file_io.c:174-191 | a block is outside the map exactly past the direct blocks and all the trees |
| `BlockMap.Ext2Reach` | mach/bootstrap/ext2_file_io.c:142-165 | for twelve direct blocks and three levels that is 12 + n + n^2 + n^3 |
| `BlockMap.File.constructor` | mach/bootstrap/ext2_file_io.c:472-500 | the level table holds the powers of the fan-out, and fits a signed word |
| `BlockMap.File.ChooseTree` | mach/bootstrap/ext2_file_io.c:182-191 | the loop picks the tree the block lies in, or none |
| `BlockMap.File.IndexBlock` | mach/bootstrap/ext2_file_io.c:206-259 | the index block's contents, from the cache or the device, whatever other threads do to the cache while the lock is dropped |
| `BlockMap.File.Descend` | mach/bootstrap/ext2_file_io.c:201-269 | from the root of a tree the cached descent is the uncached walk |
| `BlockMap.File.MapBlock` | mach/bootstrap/ext2_file_io.c:124-285 | for every block, every cache and every interference the answer is the uncached recursive walk's, holes included |
| `BlockMap.File.Fill` | mach/bootstrap/ext2_file_io.c:311-343 | the buffer holds the block exactly when it can be read; after a failed read it is stale exactly if it held a block and the map was readable |
| `BlockMap.StaleBuffer` | mach/bootstrap/ext2_file_io.c:311-343 | an input on which it is: a file of a hole and an unreadable block, read in that order |
| `BlockMap.File.BufRead` | mach/bootstrap/ext2_file_io.c:291-361 | where a byte is in the buffer and how much follows; at least one byte, never past the block or the file |
| `BlockMap.File.Read` | mach/bootstrap/ext2_file_io.c:787-821 | succeeds exactly if the range lies in the file in readable blocks, and then delivers its bytes across block boundaries, holes as zeros |
| `Kalloc.ClassUnique` | mach/bootstrap/kalloc.c:185-193 | allocation and release of one size use the same class |
| `Kalloc.ListInRange` | mach/bootstrap/kalloc.c:55-59 | the array of lists is long enough for every class that indexes it |
| `Kalloc.PoppedInv` | mach/bootstrap/kalloc.c:200-208 | taking the head of a list makes a free block live and keeps lists threaded, blocks disjoint and accounts exact |
| `Kalloc.PushedInv` | mach/bootstrap/kalloc.c:239-243 | releasing a live block to its own list keeps them |
| `Kalloc.PopUndoesPush` | mach/bootstrap/kalloc.c:200-243 | release followed by allocation from the class gives the same block back and restores everything but its first word |
| `Kalloc.CarveInv` | mach/bootstrap/kalloc.c:162-163 | cutting from the tail gives a block that overlaps nothing |
| `Kalloc.InstalledInv` | mach/bootstrap/kalloc.c:143-159 | bringing in mapped space, adjoining or not, keeps all blocks and all space held by other threads disjoint, and the accounts exact |
| `Kalloc.ClientWriteInv` | mach/bootstrap/kalloc.c:200-208 | clients writing words of their own blocks disturb no list |
| `Kalloc.NewBlockKeeps` | mach/bootstrap/kalloc.c:172-220 | a new block leaves the kept blocks as they were and overlaps none of them |
| `Kalloc.PushKeeps` | mach/bootstrap/kalloc.c:239-243 | the word that threads a released block lies in no other live block |
| `Kalloc.Accounts` | mach/bootstrap/kalloc.c:61-65 | space brought in is live plus free plus tail plus wasted |
| `Kalloc.Allocator.constructor` | mach/bootstrap/kalloc.c:77-104 | the allocator starts empty, with an empty tail that does not begin at 0 |
| `Kalloc.Allocator.SizeClass` | mach/bootstrap/kalloc.c:185-193 | the doubling loop finds the smallest class that holds the request |
| `Kalloc.Allocator.FindSpace` | mach/bootstrap/kalloc.c:115-160 | one answer of the virtual memory system is always enough; fails exactly if it was asked and refused |
| `Kalloc.Allocator.GetSpace` | mach/bootstrap/kalloc.c:109-170 | a block cut from sound space, whatever other threads do while the lock is dropped |
| `Kalloc.Allocator.Alloc` | mach/bootstrap/kalloc.c:172-220 | a block of at least the request that was not in use; blocks the other threads leave alone while the lock is dropped stay live with every word in them, and the new block overlaps none of them; 0 only if memory was refused |
| `Kalloc.Allocator.Free` | mach/bootstrap/kalloc.c:222-251 | a small block goes to the head of its own list, a large one is unmapped; every other live block keeps its place and every word |
| `Mig.Full` | mach/mig/type.c:150-173 | type size plus padding is the size rounded up to words |
| `Mig.FindSize` | mach/mig/routine.c:364-388 | the fixed size of a request, always whole words, so that aligning long descriptors adds nothing |
| `Mig.CheckVariable` | mach/mig/routine.c:1114-1161 | positions in the request and in the reply count the variable fields before, implicit arguments follow their parents; VarNeeded is added exactly to out-arguments that lie behind a variable field of the reply and are not copied |
| `Mig.CheckSimple` | mach/mig/routine.c:336-362 | whether the request must, may or cannot be complex |
| `Mig.WriteChecks` | mach/mig/server.c:655-686 | the loop with its pending variable argument emits exactly the program analysed here |
| `Mig.DeltaExact` | mach/mig/server.c:459-495 | the emitted size of a field never exceeds its padded size and equals it exactly if it is rounded or has nothing to round |
| `Mig.AdvanceOk` | mach/mig/server.c:644-653 | the adjusted message pointer is where the next argument needs it; implicit arguments never move it |
| `Mig.ReadOk` | mach/mig/server.c:409-457 | the descriptor of each argument is read at its true offset and inside the message |
| `Mig.TypeCheckOk` | mach/mig/server.c:409-457 | the type check passes exactly descriptors as declared, word for word for quickly checked arguments |
| `Mig.SizeCheckOk` | mach/mig/server.c:497-550 | the emitted size checks of one argument reject only bad messages and never subtract below zero |
| `Mig.ChecksExact` | mach/mig/server.c:384-407 | for every argument list and message: no read outside, no underflow; accepted exactly if all descriptors and the complex bit are as declared and the size is the fixed size plus the emitted sizes; then every message pointer reaches its argument |
| `Mig.PaddedExact` | mach/mig/server.c:477-490 | an accepted message has the padded size exactly if no unrounded field ends inside a word |
| `Mig.PaddedPlace` | mach/mig/server.c:477-490 | a message pointer reaches the padded offset of its argument exactly if no earlier unrounded field ends inside a word |
| `Mig.UnpaddedAccepted` | mach/mig/server.c:477-490 | an accepted message that is not padded: five bytes in an array with four-byte elements |

## Left out

- tmpfs: vnode locking and races with reclaim, kqueue notes, the name cache, timestamps, ownership and modes; the outcome of credential checks is a parameter.
- tmpfs: the file size limit (EFBIG), inode numbers, generations and file handles; which directories may not be searched, which nodes are mount points and which vnodes cannot be had are parameters of a rename.
- tmpfs: the byte sizes of a node (360), an entry (48) and a page (4096) are constants of the model; the head-room of LINK_MAX in rename is not checked by the code and not modelled.
- tmpfs: the variant of rename that follows POSIX for two links to one file (`posixly_correct`), and flags other than the system and user flags for immutable and append-only.
- tmpfs: a failure to map the page that tmpfs_zeropg clears, which is a panic.
- TmpfsFile.RegFile: one file; whether it can be charged is a parameter here and decided in `TmpfsVolume.Volume`.
- TmpfsVolume.Volume: a file is taken up and put back as a value around each operation on it, and files live until their node goes.
- TmpfsMount.Mount.Link: requires a node that is not a directory, as the caller guarantees.
- TmpfsRuns.RunAll: passes over links into removed directories, after which the mount is not sound; `TmpfsRuns.Perform` carries them out.
- TmpfsVolume.Volume.RunAll: the same.
- PagerGate: waits on name references, the no-senders handler, lock_completed and wrap-around of the sequence number.
- PagerStore.DefaultPager: operations are atomic; concurrent extension of one map and the retry when an object's lock is busy are not modelled, nor is the partition lock that the failing exit of destroy_paging_partition keeps.
- PagerStore.DefaultPager.MakeRoom: the allocation of a second-level block succeeds; when it fails no_paging_space panics (default_pager.c:3314-3322), so the exit behind it is never taken. `PagerStore.DefaultPager.WriteOffset` inherits this.
- PagerStore.DefaultPager.WriteOffset: no exit for a failed allocation, for the same reason.
- PagerRuns.RunAll: passes over a partition that would get slot 255 and one of more than 2^24 pages, after which the storage is not valid.
- PagerStore.DefaultPager.Read: pages are whole and aligned, as the callers pass them; the checksum build is not modelled.
- default pager: the lists of objects and of their page offsets, paging space messages, names of partitions (an id stands for the hashed name).
- BlockMap.File: block numbers are non-negative, so that none equals the mark of an empty cache slot; the fan-out is small enough for the level table to fit a signed word.
- BlockMap.File.Read: a failed device read leaves the buffer stale under the condition that `BlockMap.File.Fill` states; such a file has to be closed.
- BlockMap: super-block and inode reading, path lookup, symbolic links, writing and the direct file interface; the FFS and Minix readers are instances of the parameters.
- Kalloc.Allocator.Free: requires the size the block was allocated with; large blocks are passed through to the virtual memory system.
- Kalloc: addresses do not wrap, and the virtual memory system gives fresh space.
- Mig: the reply message but for its positions, user stubs and text output; 32-bit words, items of 8 to 32 bits, no wrap-around in sizes.
