# MoQiOS kernel state machines

A Dafny model of the parts of the MoQiOS kernel that keep several books in step: physical frames and swap slots against page
tables, region tables against pages, descriptor tables against reference counts, directory records against link counts, bytes
sent against bytes received, signals against masks, CPU ticks against process totals. The kernel is written in Zig
(`kernel/`); the programs under `user/` are small C probes, each of which pins down what one group of calls promises. The
model follows the Zig code; the probes say which properties matter. Nothing was executed.

Three shapes recur. A protocol is a state machine over values: an operation, when it is accepted, what it does, an invariant
every step keeps, and theorems over every run. A loop or an object of the source is a method or a class, proved against a
specification function. A fast or indirect form has a plain one beside it (page tables beside a flat map per process, paged
files beside flat bytes, ring buffers beside sequences, region tables beside a map from page to attributes) and a proof that
the two agree.

## The modules

| file | what it models |
|---|---|
| `PteBits.dfy` | page-table entries field by field and the abstract leaf each stands for |
| `PagedMemory.dfy` | frames, reference counts, swap slots, leaves of all processes; map, unmap, protect, faults, reclaim, fork, exit |
| `PlainMemory.dfy` | a machine without frames, slots or sharing, and when the kernel's machine behaves like it |
| `MemoryTheorems.dfy`, `MemoryRuns.dfy` | whole-run consequences: a child leaves no trace, what loads and stores are served; runs from boot |
| `SwapDrain.dfy` | swapon, swapoff and the drain loop |
| `Churn.dfy` | the sliding-window churn of `user/hello100.c` as a client of the memory machine |
| `RegionTable.dfy`, `AddressSpace.dfy`, `MremapTable.dfy` | the table of mapped regions and its two limits: munmap, mprotect, MAP_FIXED, mremap |
| `Mseal.dfy` | sealed address ranges, and every call that changes mappings beside them |
| `TmpfsFile.dfy`, `MemfdSeals.dfy` | paged tmpfs files, and seals on them |
| `TmpfsTree.dfy`, `TmpfsCalls.dfy`, `TmpfsPaths.dfy` | the tmpfs name space: a tree under every rename and exchange; where a name created through a descriptor lands |
| `ParentTree.dfy` | trees given by a parent map, and the two bounded climbs |
| `Ext2Links.dfy`, `Ext2Counts.dfy`, `Ext2Tree.dfy`, `Ext2Names.dfy`, `Ext2Dots.dfy` | the ext2 name space: records, "." and "..", link counts and the table of open files; counts, tree and names in every run |
| `Ext2Paths.dfy` | directory descriptors on ext2: the path rebuilt from an inode, and where a name created through a descriptor lands |
| `PathNames.dfy` | paths as lists of names, joined and collapsed |
| `ByteRing.dfy`, `StreamPair.dfy`, `StreamCalls.dfy`, `RecordQueue.dfy` | local sockets: ring buffer, stream pair, write and sendto on it, datagram and seqpacket records |
| `ScmRights.dfy`, `RightsQueue.dfy` | SCM_RIGHTS messages byte by byte, and descriptor sets queued with stream data |
| `RightsFlight.dfy`, `RightsLedger.dfy` | sockets, the pool of sets in flight, the threads that hold sets, and the descriptor tables: where every copy is |
| `RightsCalls.dfy`, `RightsRings.dfy` | the calls that hold sets, and when one returns with a set in its hands; sockets sent over sockets |
| `Descriptors.dfy`, `OpenFiles.dfy` | descriptors in tables and in flight, shared offsets, pipe end of file |
| `Signals.dfy` | masks, handlers, frames, temporary masks |
| `Credentials.dfy` | user ids and capabilities |
| `CpuTime.dfy` | CPU time of threads, processes and waited-for children |
| `Basics.dfy` | options and minima |
| `Decimal.dfy` | the interrupt-time report and the program that prints and reads decimal numbers |

## Where the code is not the plain machine

Each of these is a property one would expect and that the code does not have. The code is modelled as it is; a lemma says
exactly when the property holds, and another (named second) gives a run from the start state that shows the failure.

- Fork copies present pages only: a page of the parent that is swapped out or reserved is missing from the child
  (`PlainMemory.ForkExactly`, `MemoryRuns.ForkDropsEvicted`).
- mprotect to no access leaves a swapped-out page as it is, and mprotect without write access leaves a copy-on-write page
  writable through the fault handler (`PlainMemory.ProtectShownExactly`, `MemoryTheorems.RevokedSwappedPageReadable`,
  `MemoryRuns.ReadOnlyCopyWritable`).
- mprotect to read-write on a frame that fork shared without the copy-on-write marker makes the shared frame writable
  (`PlainMemory.ProtectExclusiveExactly`, `MemoryTheorems.SharedWriteSeen`, `MemoryTheorems.ForkedReadOnlyPageShared`).
- MADV_DONTNEED leaves the contents of a page that is not present (`PlainMemory.DontNeedExactly`,
  `MemoryRuns.DontNeedKeepsEvicted`).
- The slot of a swap entry has 36 bits; the comment beside it says 40 (`PteBits.SwapEntryRoundTrip`).
- MAP_FIXED asks for the limits and the frames when what it lands on is already gone: a refused call leaves the range empty
  (`AddressSpace.Space.MapFixed`, `AddressSpace.RefusedMapDropsOld`).
- mremap that grows the front part of a file mapping overwrites the length of the whole record: the pages behind the new end
  drop out of the table and stay charged (`MremapTable.Mremap`, `MremapTable.GrowDropsPages`).
- mremap that grows a private writable file mapping charges the address space before it asks the limit on data, and does not
  refund it when refused (`MremapTable.ResizeWhole`, `MremapTable.RefusalStaysCharged`).
- A write beyond the end of a tmpfs file that finds no frame reports no byte written and still makes the file longer
  (`TmpfsFile.File.Pwrite`, `TmpfsFile.GapStays`).
- The first page of a tmpfs file behind the 64 direct ones takes two frames. With one left the write fails, and the frame
  stays in the table of indirect pages (`TmpfsFile.File.PageAtAlloc`, `TmpfsFile.TableTakesFrame`).
- A write-sealed memfd can be changed in three ways: a shared mapping made between counting such mappings and adding the seal;
  a page of a private read-only mapping, which is the file's own frame without a copy-on-write marker, made writable by
  mprotect; a page of a shared mapping that mremap left behind without a record, which the count misses
  (`MemfdSeals.StepInvExactly`, `MemfdSeals.FreshCountSafe`; `MemfdSeals.StaleCountLeavesWriter`,
  `MemfdSeals.PrivatePageChangesSealed`, `MemfdSeals.LeftPageChangesSealed`).
- Sealed pages are taken by a shrinking break, by shmdt, by the end of a driver buffer and by mremap that grows the front of
  their file mapping, and a forked child lacks those that were not in a frame (`Mseal.StepKeepsExactly`,
  `Mseal.ChildSealedExactly`; `Mseal.BreakTakesSealed`, `Mseal.DetachTakesSealed`, `Mseal.GrowthTakesSealed`).
- A blocking send that is interrupted after some bytes went out reports the interruption and not the bytes. write(2) sends in
  chunks of 4096 bytes and reports the chunks before the interrupted one (`StreamCalls.ReportExactly`,
  `StreamCalls.WriteHidesBytes`, `StreamCalls.SendtoHidesBytes`).
- recvmsg that has taken a set of descriptors returns without installing or releasing it when another thread has closed the
  socket meanwhile (`RightsCalls.ReturnsEmptyExactly`, `RightsCalls.LostUnderClose`).
- On tmpfs a name created through a descriptor of a directory lands elsewhere when a directory on the way bears a dot name:
  the path is rebuilt and then its dots are collapsed (`TmpfsPaths.PathLeadsBack`, `TmpfsPaths.DotNameMisleads`).
- On ext2 rmdir and rename take "." and ".." as the last name of the path they work on, remove that record and leave the
  directory's real name; and open(O_CREAT) or mkdir of a dot name adds a record when the table of open files is full
  (`Ext2Tree.StepInvExactly`; `Ext2Dots.RmdirDotLeavesName`, `Ext2Dots.RenameDotDoublesDirectory`,
  `Ext2Dots.RenameDotDotDoublesDirectory`, `Ext2Dots.FullTableAddsDot`).
- On ext2 a descriptor of a directory that was removed stands for whatever directory has its inode number or its opening path
  now (`Ext2Paths.LandsExactly`, `Ext2Paths.LandsInSuccessor`).
- A copied descriptor shares offset and flags only for files, and only while the pool of shared offsets has room
  (`OpenFiles.CopyLinksExactly`, `OpenFiles.FullPoolUnlinks`).
- On ext2 a directory can hold a name twice. Renaming a file onto another of its own links does it. So do open(O_CREAT) and
  mkdir of a name that is there, when the table of open files is full or the name is a symbolic link that leads nowhere: the
  lookup that should find the name fails, and adding a record does not look again (`Ext2Names.UniqueExactly`,
  `Ext2Names.RenameDoublesName`, `Ext2Names.FullTableDoublesName`).
- On ext2 a call that reports failure may have added its record or used up an inode (`Ext2Names.FailureExactly`).
- On ext2 a new directory stays open for ever when it gets slot 0 of the table of open files, because 0 is taken for "no
  slot to close" (`Ext2Names.MkdirSlotsExactly`).
- On ext2 an exchange cannot always be taken back: the second call refuses a place 64 or more levels deep
  (`Ext2Tree.ExchangeTwiceExactly`, `Ext2Names.ExchangeNotTakenBack`).
- A wait with a temporary mask that a handled signal ended may return without running the handler, when a lower signal that
  is ignored is pending too, and ends the task when the mask lets any fatal signal through, also a higher one
  (`Signals.WaitRunsHandlerExactly`; `Signals.HandlerLeftWaiting`, `Signals.FatalEndsWait`).

## Model

| member | source | states |
|---|---|---|
| PteBits.TeardownMatchesLeaf | kernel/mm/pte_kind.zig:31-65 | tearing an entry down drops a frame reference, a slot or nothing, exactly as the leaf it stands for holds one |
| PteBits.SwapEntryRoundTrip | kernel/mm/pte_kind.zig:67-75 | the slot written into a swap entry is read back if and only if it has at most 36 bits |
| PteBits.SharedCommutes | kernel/mm/cow_pte.zig:24-45 | sharing an entry at fork is sharing its leaf, and brings no swap marker onto a present entry |
| PteBits.SwapOutCommutes | kernel/mm/swap.zig:205-262 | the swapped-out word decodes to the swapped-out leaf, permissions and copy-on-write marker included |
| PteBits.SwapInCommutes | kernel/mm/swap.zig:265-298 | the word a fault writes decodes to the leaf brought back on the new frame |
| PteBits.ProtectCommutes | kernel/mm/mprotect.zig:218-298 | mprotect's rewrite of any live word is the rewrite of its leaf, copy of a shared frame included; no present word gets the swap marker |
| PteBits.ProtectSwapped | kernel/mm/mprotect_policy.zig:47-54 | the same for a swapped-out entry, which stays swapped out |
| PteBits.CowBreakCommutes | kernel/arch/x86_64/idt.zig:1397-1475 | breaking copy-on-write on the word is breaking it on the leaf |
| PteBits.SwapRoundTrip | kernel/mm/swap.zig:205-298 | eviction and fault give back permissions, copy-on-write marker and no-execute bit |
| PagedMemory.InitInv | kernel/mm/pmm.zig:319-368 | the empty machine has exact books |
| PagedMemory.PutLeafInv | kernel/mm/pmm.zig:530-574 | replacing one leaf keeps every reference count equal to the number of leaves naming the frame and every used slot named by exactly one swap leaf |
| PagedMemory.DelLeafInv | kernel/mm/mmap.zig:83-209 | the same for removing a leaf |
| PagedMemory.ForkInv | kernel/proc/fork.zig:427-482 | fork's walk keeps the books and leaves exactly the shared form of the parent's present leaves on both sides |
| PagedMemory.ExitInv | kernel/mm/user_space.zig:151-272 | exit's walk keeps the books and removes exactly the leaves of that process |
| PagedMemory.StepInv | kernel/mm/swap.zig:134-171 | every step (map, unmap, protect, swap-in, copy-on-write fault, store, reclaim, MADV_DONTNEED, fork, exit, swapon, drain) keeps the books exact |
| PagedMemory.RunInv | user/hello100.c:162-266 | in every state of every run of any processes, reference counts and swap bitmap are exact: nothing leaks, nothing is freed twice |
| PagedMemory.FromBoot | kernel/mm/pmm.zig:319-368 | from boot: after any run a count is the number of leaves naming the frame, and a slot is in use if and only if a leaf, and then one only, names it |
| PlainMemory.SoleOwner | kernel/mm/pmm.zig:602-630 | a frame with count one has one owner: the test that lets a fault handler write in place is sound |
| PlainMemory.MapRefines | kernel/mm/mmap.zig:1386-1435 | mapping a page adds one zeroed page with the asked permissions and changes no other page of any process |
| PlainMemory.UnmapRefines | kernel/mm/mmap.zig:83-209 | unmapping removes that page and nothing else |
| PlainMemory.SwapInRefines | kernel/mm/swap.zig:265-298 | a swap-in shows nowhere |
| PlainMemory.ReclaimRefines | kernel/mm/swap.zig:340-427 | an eviction shows nowhere |
| PlainMemory.CowRefines | kernel/arch/x86_64/idt.zig:1397-1475 | breaking copy-on-write, by copy or in place, shows nowhere |
| PlainMemory.OwnFrameAbs | kernel/mm/pmm.zig:602-630 | new contents of a frame with one owner change that owner's page alone |
| PlainMemory.StoreRefines | user/hello100.c:184-210 | a store changes one byte of one page of one process |
| PlainMemory.ProtectShownExactly | kernel/mm/mprotect.zig:218-298 | mprotect keeps contents and shows the asked permissions if and only if it neither revokes all access from a swapped-out page nor write access from a copy-on-write page |
| PlainMemory.ProtectExclusiveExactly | kernel/mm/mprotect.zig:257-296 | no two leaves share a writable frame afterwards if and only if write access is not granted on a frame shared without the copy-on-write marker |
| PlainMemory.DontNeedExactly | kernel/mm/mmap.zig:1555-1590 | MADV_DONTNEED zeroes the page if and only if it is present or zero already |
| PlainMemory.ForkExactly | kernel/proc/fork.zig:427-482 | the child has the parent's pages, contents and permissions, if and only if all of them are present at that moment |
| PlainMemory.ForkExclusive | kernel/proc/fork.zig:444-482 | after fork no frame named twice is writable |
| PlainMemory.ExitRefines | kernel/mm/user_space.zig:151-234 | exit removes the pages of one process and changes no other |
| PlainMemory.StepExactly | user/hello100.c:156-266 | a step from a good state is the plain machine's step if and only if the guard holds, which a caller can check |
| PlainMemory.RunRefinesPlain | user/hello101.c:199-229 | in every state of every guarded run contents and permissions of every page of every process are the plain machine's: swapping, sharing and draining are invisible |
| MemoryTheorems.SameHoldsSameCounts | kernel/mm/pmm.zig:558-574 | equal holdings mean equal counts and an equal bitmap |
| MemoryTheorems.OwnRunLocal | user/hello100.c:219-266 | a run of steps on one process's pages leaves the leaves of all others alone |
| MemoryTheorems.ChildLeavesNoTrace | user/hello100.c:219-266 | fork, any run of the child, exit: every reference count and every swap slot is back, and the parent's leaves differ by the copy-on-write marker only |
| MemoryTheorems.MarkersHoldNothing | kernel/mm/cow_pte.zig:36-45 | the copy-on-write marker holds no frame and no slot |
| MemoryTheorems.ReadServed | kernel/arch/x86_64/idt.zig:1144-1180 | with a frame to spare a read is served if and only if the plain machine permits it, and sees its contents; serving it changes no page |
| MemoryTheorems.CowServed | kernel/arch/x86_64/idt.zig:1368-1475 | the same for the copy-on-write fault of a write |
| MemoryTheorems.WriteServed | kernel/arch/x86_64/idt.zig:906-1023 | the same for a write from any kind of page |
| MemoryTheorems.LoadIsPlain | user/hello101.c:199-229 | a load in any state of a guarded run returns the plain machine's word |
| MemoryTheorems.SharedWriteSeen | kernel/mm/mprotect.zig:265-293 | on a frame shared without the marker, mprotect and a store on one side change the other side's page |
| MemoryTheorems.ForkedReadOnlyPageShared | kernel/mm/cow_pte.zig:36-41 | the same from boot: map read-only, fork, mprotect, store |
| MemoryTheorems.RevokedSwappedPageReadable | kernel/mm/mprotect_policy.zig:47-54 | a page swapped out when access is revoked is read afterwards |
| MemoryRuns.ForkDropsEvicted | kernel/proc/fork.zig:427-482 | from boot: map, write, evict, fork; the parent has the page, the child does not |
| MemoryRuns.DontNeedKeepsEvicted | kernel/mm/mmap.zig:1572-1573 | from boot: map, write, evict, MADV_DONTNEED; the contents stay |
| MemoryRuns.ReadOnlyCopyWritable | kernel/mm/mprotect.zig:265-298 | from boot: map, fork, make the child's copy read-only; the child's next write is served |
| SwapDrain.DrainingShrinks | kernel/mm/swap_policy.zig:83-95 | while the area drains no step of anyone adds a swapped page or a used slot |
| SwapDrain.DrainingRunShrinks | kernel/mm/swap_policy.zig:83-95 | the same over runs, with the books exact throughout |
| SwapDrain.DrainAmongOthers | kernel/mm/swap.zig:494-529 | however other processes' steps interleave with the drain, if every page swapped out at its start is visited at some step, no slot is in use at the end and the area is disabled |
| SwapDrain.SwapInDrains | kernel/mm/swap.zig:535-575 | bringing one page back uses one frame, frees one slot and shows nowhere |
| SwapDrain.DrainOutcome | kernel/mm/swap.zig:457-480 | how a drain ended says exactly whether every swapped page was covered and there were as many free frames as used slots |
| SwapDrain.Kernel.DrainSpace | kernel/mm/swap.zig:535-575 | one space: no swap entry left, or no frame left |
| SwapDrain.Kernel.DrainRound | kernel/mm/swap.zig:510-529 | one pass over the spaces, same alternatives |
| SwapDrain.Kernel.DrainAll | kernel/mm/swap.zig:494-508 | rounds, each over a snapshot of its own, until nothing is left, no frame is left, or four rounds find nothing |
| SwapDrain.Kernel.SwapOff | kernel/arch/x86_64/syscall_entry.zig:6131-6171 | the result code for every case; success if and only if the live spaces cover every swapped page and free frames suffice; no outcome changes what any process sees; a failed drain re-arms the area |
| SwapDrain.Kernel.SwapOn | kernel/arch/x86_64/syscall_entry.zig:6089-6116 | the result code for every case; arms a disabled area with every slot free, else changes nothing |
| Churn.FaultsKeepPages | kernel/mm/swap.zig:205-298 | swapping, copy-on-write and stores add and remove no page |
| Churn.AroundEmpty | user/hello100.c:397-429 | with nothing of the churn mapped, page tables, counts and slots are those of before |
| Churn.WindowPut | user/hello100.c:371-395 | one window entry changes the live pages by exactly its region |
| Churn.LogUnmap | user/hello100.c:371-395 | the log of which rounds were unmapped stays exact when a region leaves the window |
| Churn.LogMap | user/hello100.c:371-395 | and when one enters |
| Churn.Process.FindFreeRange | kernel/mm/mmap.zig:715-731 | the first free range, or none exists |
| Churn.Process.MapRegion | kernel/mm/mmap.zig:1386-1435 | maps a whole region or gives back every page of it |
| Churn.Process.Round | user/hello100.c:371-395 | map, touch, unmap keeps the machine at the old pages plus the window's |
| Churn.Process.ChurnRounds | user/hello100.c:371-429 | for every number of rounds and every schedule of memory pressure: each region is unmapped exactly once, the window ends empty, tables are back, and counts and slots too when nothing old was swapped out |
| RegionTable.PutRegion | kernel/mm/mmap.zig:309-359 | writing a slot moves exactly its pages in and out of the page map |
| RegionTable.PiecesAreRegions | kernel/mm/mmap.zig:259-285 | counted pieces of a cut are the regions that remain |
| RegionTable.MergeInto | kernel/mm/mmap.zig:247-256 | merging an adjacent anonymous range adds exactly its pages |
| RegionTable.InsertAt | kernel/mm/mmap.zig:335-357 | a new region in a free slot adds exactly its pages |
| RegionTable.TrimOk | kernel/mm/mmap.zig:384-498 | cutting an end, or a whole region, removes exactly the overlap and needs no slot |
| RegionTable.SplitOk | kernel/mm/mmap.zig:384-498 | cutting the middle removes exactly the overlap and takes one slot |
| RegionTable.AllTrimmed | kernel/mm/mmap.zig:384-498 | when nothing overlaps any more, exactly the range is gone |
| AddressSpace.SplitInvisible | kernel/mm/mprotect.zig:36-66 | splitting a region shows at no page, file offsets included |
| AddressSpace.ProtectWhole | kernel/mm/mprotect.zig:315-360 | changing a region's protection changes exactly its pages |
| AddressSpace.AllChanged | kernel/mm/mprotect.zig:315-360 | when every region is done, exactly the file pages of the range carry the new protection |
| AddressSpace.Space.FreeSlots | kernel/mm/mmap.zig:232-242 | counts the free slots |
| AddressSpace.Space.SlotsNeeded | kernel/mm/munmap_policy.zig:29-41 | counts the slots a cut or a protection change needs before anything changes |
| AddressSpace.Space.FindSlot | kernel/mm/mmap.zig:335-357 | the lowest free slot |
| AddressSpace.Space.CanTrack | kernel/mm/mmap.zig:232-242 | true if and only if a slot is free or an anonymous neighbour takes the range |
| AddressSpace.Space.Track | kernel/mm/mmap.zig:309-359 | the page map grows by exactly the new range, and a writable private one is charged to the data ledger |
| AddressSpace.Space.CutRegion | kernel/mm/mmap.zig:384-498 | one region loses its overlap with the range, and what it had charged for it is refunded |
| AddressSpace.Space.Untrack | kernel/mm/mmap.zig:384-498 | exactly the range leaves the page map; the slots left free and the data charge afterwards are known beforehand |
| AddressSpace.Space.Munmap | kernel/mm/mmap.zig:1594-1637 | refused with nothing changed if and only if the range meets an attachment or a seal or the split does not fit, each with its code; else exactly the range goes |
| AddressSpace.Space.SplitAt | kernel/mm/mprotect.zig:36-66 | two regions for one, one slot less, no page changed |
| AddressSpace.Space.ProtectRegion | kernel/mm/mprotect.zig:315-360 | one region's part in the range gets the protection, the rest is split off unchanged |
| AddressSpace.Space.GrantsAll | kernel/mm/mprotect.zig:126-148 | true if and only if every shared file mapping of the range may be written, by its descriptor and its seals, or no write access is asked |
| AddressSpace.Space.ProtectPass | kernel/mm/mprotect.zig:309-360 | exactly the file pages of the range carry the new protection |
| AddressSpace.Space.Mprotect | kernel/mm/mprotect.zig:69-190 | the code of every refusal in its order, with nothing changed; else exactly the file pages of the range change, and a hole is reported after that |
| AddressSpace.Space.FixedReplaceable | kernel/mm/mmap.zig:797-820 | true if and only if no device region, untracked page or attachment is in the way, the cut fits and a slot remains for the new region |
| AddressSpace.Space.MapFixed | kernel/mm/mmap.zig:1280-1435 | each refusal with its code; a refused call leaves the page map alone if and only if the range was empty, the call was refused before the old mappings went, or it was an exchange of anonymous memory in place; an accepted one leaves exactly the new mapping in the range |
| AddressSpace.Space.SwapInPlace | kernel/mm/mmap.zig:822-893 | anonymous memory over exactly one private anonymous region: new pages for all of it, or a refusal with nothing changed |
| AddressSpace.Space.Replace | kernel/mm/mmap.zig:1309-1371 | the old mappings go; the new one comes if and only if both limits, after the refund, and the frames admit it |
| AddressSpace.RefusedMapDropsOld | kernel/mm/mmap.zig:1360-1363 | ten pages, a limit of fifteen, twenty mapped over them: refused, and the ten are gone |
| MremapTable.JoinInvisible | kernel/mm/mmap.zig:1745-1757 | putting two neighbours back together shows at no page |
| MremapTable.SplitOut | kernel/mm/mmap.zig:1723-1741 | part of a region becomes a region of its own and no page changes |
| MremapTable.ResizePart | kernel/mm/mmap.zig:1770-1788 | resizing part of an anonymous region: refused with nothing changed if and only if the split does not fit, a limit refuses the growth, the range to grow over is taken or frames are short; else exactly the pages behind the new end go, or those up to it come |
| MremapTable.ResizeWhole | kernel/mm/mmap.zig:1791-1877 | the same of a file region; the charge stays exact if and only if the caller named all of it and the limit on data was not what refused its growth |
| MremapTable.Mremap | kernel/mm/mmap.zig:1641-1940 | the call without leave to move: its code, the page map and the charge afterwards, for every range and all limits |
| MremapTable.GrowDropsPages | kernel/mm/mmap.zig:1836-1877 | two of ten file pages grown to four: the call succeeds and eight pages are charged that the table no longer knows |
| MremapTable.RefusalStaysCharged | kernel/mm/mmap.zig:1864-1874 | ten private writable file pages at the limit on data, one more asked for: refused, and eleven are charged |
| Mseal.TouchesExactly | kernel/mm/mseal_policy.zig:30-39 | the interval test of the table is the page-by-page test |
| Mseal.AddSealsRange | kernel/mm/mseal_policy.zig:41-52 | adding a range seals exactly its pages besides those sealed before |
| Mseal.StepKeepsExactly | kernel/mm/mseal.zig:11-30 | a sealed page keeps mapping, protection and seal through any call if and only if the call is not a break that shrinks over it, a shmdt of its attachment, the end of its driver buffer, or an mremap that grows the front of its file record while the page is not in a frame |
| Mseal.SealedForever | user/hello120.c:85-135 | the same over every run of mmap, munmap, mprotect, mremap, madvise, mseal, brk, shmat, shmdt, driver buffers, paging and fork |
| Mseal.ChildSealedExactly | kernel/proc/fork.zig:109-112 | a forked child has a sealed page of its parent, then and in every later state, if and only if the page was in a frame or is read from a file |
| Mseal.PartlySealedRefused | kernel/mm/mmap.zig:1594-1637 | a range that meets a sealed page anywhere is refused as a whole, by the seal or by an attachment that is tested first |
| Mseal.BreakTakesSealed | kernel/mm/brk.zig:129-137 | grow the heap, seal it, shrink it: the sealed page is gone |
| Mseal.DetachTakesSealed | kernel/ipc/sysv_shm.zig:409-457 | attach, seal, detach: the sealed page is gone |
| Mseal.GrowKeepsExactly | kernel/mm/mmap.zig:1836-1877 | growing part of a file record leaves a page mapped as it was if and only if it does not lie behind the new end without a frame |
| Mseal.GrowthTakesSealed | kernel/mm/mmap.zig:1836-1877 | map ten file pages, seal the last, grow the first two to four: the sealed page is gone |
| TmpfsFile.FlatWriteJoin | kernel/fs/file_io.zig:262-278 | two adjacent writes are one |
| TmpfsFile.File.PageAtAlloc | kernel/fs/tmpfs.zig:110-136 | allocating a page changes no byte of the file and succeeds if and only if the frames it needs, one or with the indirect table two, are left; a failure leaves none, and no frame gets lost |
| TmpfsFile.File.Write | kernel/fs/tmpfs.zig:395-432 | page-by-page writing is one flat write of a prefix of the data, short only at the size limit or out of frames, and of nothing if and only if the frames are too few for the first page |
| TmpfsFile.File.Pwrite | kernel/fs/file_io.zig:252-281 | an empty write never changes the file; what is reported is in the file as one flat write; a report of 0 hides a change if and only if bytes were asked for beyond the end |
| TmpfsFile.GapStays | kernel/fs/tmpfs.zig:411-431 | one byte beyond the end of an empty file with no frame left: 0 reported, and the file is longer |
| TmpfsFile.TableTakesFrame | kernel/fs/tmpfs.zig:119-135 | one frame left, one byte at page 64 of an empty file: 0 reported, the frame gone, the file longer |
| TmpfsFile.File.Read | kernel/fs/tmpfs.zig:359-392 | page-by-page reading over holes returns exactly the flat bytes in the range |
| TmpfsFile.File.Truncate | kernel/fs/tmpfs.zig:478-515 | shrinking and growing again reads zeros; every frame is the file's or free, and truncating to nothing gives all back |
| MemfdSeals.StepInvExactly | kernel/fs/memfd_policy.zig:34-77 | no page lets a store through to a write-sealed file after a step if and only if the step neither adds the write seal while one does nor grants write access on a page that is the file's frame, unmarked and in no shared record |
| MemfdSeals.RunInv | user/hello118.c:148-202 | the same in every state of a run of such steps |
| MemfdSeals.FromEmpty | kernel/fs/memfd_policy.zig:57-77 | from a world without files: in such runs no store through any mapping reaches a write-sealed file |
| MemfdSeals.StepKeeps | kernel/fs/tmpfs.zig:437-476 | what each seal forbids does not happen in one step from such a state |
| MemfdSeals.SealedForever | user/hello118.c:148-202 | under WRITE, GROW and SHRINK the bytes never change again in such runs |
| MemfdSeals.SizeSealed | kernel/fs/memfd_policy.zig:42-55 | GROW and SHRINK each bound the size for ever, in any run |
| MemfdSeals.StaleCountLeavesWriter | kernel/fs/fcntl.zig:80-91 | from a world without files: a mapping made between count and seal changes the sealed file |
| MemfdSeals.FreshCountSafe | kernel/proc/task.zig:1009-1030 | with a fresh count, adding the write seal is safe if and only if no page that lets stores through lies outside every shared record |
| MemfdSeals.ReprotectFine | kernel/mm/mprotect.zig:252-296 | mprotect lets a store through a page reach a write-sealed file if and only if it grants write access on the file's own frame without the marker, in no shared record |
| MemfdSeals.RemapInv | kernel/mm/mmap.zig:1836-1877 | growing the front of a file record opens no way to a sealed file by itself |
| MemfdSeals.PrivatePageChangesSealed | kernel/arch/x86_64/idt.zig:1248-1254 | seal, map private and read-only, read, mprotect, store: the sealed file has changed |
| MemfdSeals.LeftPageChangesSealed | kernel/mm/mmap.zig:1836-1877 | a shared page left without a record by mremap, the rest unmapped, seal, store: the sealed file has changed |
| TmpfsTree.MoveOk | kernel/fs/tmpfs.zig:670-741 | moving an entry to a directory not below it keeps a rooted tree with unique names |
| TmpfsTree.ExchangeOk | kernel/fs/tmpfs.zig:670-741 | exchanging two entries neither of which is above the other's directory does too |
| TmpfsTree.ExchangeTwice | user/hello119.c:204-256 | exchanging twice changes nothing |
| TmpfsTree.DepthBound | kernel/fs/tmpfs.zig:644-653 | no chain of parents is as long as the table, so the bounded climb is complete |
| TmpfsTree.RemoveOk | kernel/fs/tmpfs.zig:585-632 | removing a childless entry keeps the tree |
| TmpfsTree.CreateOk | kernel/fs/tmpfs.zig:812-829 | adding a name keeps the tree |
| TmpfsCalls.FindIs | kernel/fs/tmpfs.zig:143-156 | looking a name up finds the one entry that has it |
| TmpfsCalls.AncestorExact | kernel/fs/tmpfs.zig:644-653 | the bounded climb finds an ancestor if and only if there is one |
| TmpfsCalls.RenameOk | kernel/fs/rename_policy.zig:48-60 | whatever the rename rules accept keeps the tree, for each mode |
| TmpfsCalls.StepOk | kernel/fs/tmpfs.zig:585-829 | every call keeps the tree |
| TmpfsCalls.RunOk | user/hello119.c:156-256 | every run does |
| TmpfsPaths.PathLeadsBack | kernel/fs/at_path.zig:97-131 | after any run the path read off a directory's parents resolves to it; a name created through a descriptor of it lands there if and only if no directory on the way bears a dot name and the joined path fits |
| TmpfsPaths.WalkIsPath | kernel/fs/tmpfs.zig:168-211 | a path that leads to a directory is the path read off its parents |
| TmpfsPaths.DotNameMisleads | kernel/fs/at_join_policy.zig:48-74 | mkdir /tmp/a, mkdir /tmp/a/..: a name created through a descriptor of the latter lands in /tmp |
| PathNames.NormalizeAbs | kernel/fs/mount_path_policy.zig:10-39 | the loop collapses the dots as specified |
| PathNames.NormalNoDots | kernel/fs/mount_path_policy.zig:10-39 | a collapsed path has no dot names |
| PathNames.NormalSame | kernel/fs/mount_path_policy.zig:10-39 | and one without dot names is left alone |
| TmpfsPaths.RemovedStaysEmpty | kernel/fs/tmpfs.zig:874-882 | a directory removed while open has no entry in any later state |
| TmpfsPaths.RenameMoves | user/hello119.c:156-182 | a rename moves the source to the new name, leaves nothing under the old and every other entry in place |
| TmpfsPaths.ExchangeCallTwice | user/hello119.c:204-256 | repeating an accepted exchange call is accepted and restores the table |
| TmpfsPaths.Tmpfs.FindEntry | kernel/fs/tmpfs.zig:143-156 | the scan finds what the specification finds |
| TmpfsPaths.Tmpfs.IsAncestorOrSelf | kernel/fs/tmpfs.zig:644-653 | the climb computes the ancestor relation |
| TmpfsPaths.Tmpfs.Resolve | kernel/fs/tmpfs.zig:168-211 | walking the path gives its parent directory, or nothing |
| TmpfsPaths.Tmpfs.Errno | kernel/fs/tmpfs.zig:214-234 | the errno is that of the first name that fails |
| TmpfsPaths.Tmpfs.EntryPath | kernel/fs/tmpfs.zig:887-916 | builds the path of a live entry, none for a removed one |
| TmpfsPaths.Tmpfs.RenameCall | kernel/fs/tmpfs.zig:670-741 | result and table of the specification, tree kept |
| ParentTree.ClimbReaches | kernel/fs/ext2.zig:3225-3240 | following ".." from any directory reaches the root in as many steps as it is deep |
| ParentTree.MoveOk | kernel/fs/ext2.zig:3205-3275 | moving a directory to a place that is not below it keeps the tree |
| ParentTree.MoveOutside | kernel/fs/ext2.zig:3205-3275 | what is not below it keeps its ancestors and its depth |
| ParentTree.ChainExact | kernel/fs/ext2.zig:3225-3240 | the climb with its limit finishes if and only if the place is not too deep, and then meets exactly the ancestors |
| ParentTree.OnChainExact | kernel/fs/ext2.zig:3322-3338 | the same of the climb that takes "too deep" for a yes |
| Ext2Counts.WithFileBooks | kernel/fs/ext2.zig:2405-2460 | a new file keeps counts, records and open files in step |
| Ext2Counts.WithDirBooks | kernel/fs/ext2.zig:2562-2664 | so does a new directory: its count is two, its parent's one more |
| Ext2Counts.WithSymlinkBooks | kernel/fs/ext2.zig:3441-3495 | so does a symbolic link |
| Ext2Counts.WithLinkBooks | kernel/fs/ext2.zig:3402-3435 | so does a hard link |
| Ext2Counts.UnlinkedBooks | kernel/fs/ext2.zig:2919-2955 | so does removing a name: the last one frees the inode, or leaves that to the last close |
| Ext2Counts.ReleasedBooks | kernel/fs/ext2.zig:3016-3040 | dropping a link of a file that was overwritten |
| Ext2Counts.WithoutDirBooks | kernel/fs/ext2.zig:3343-3391 | removing a directory without records by the record that names it corrects its parent |
| Ext2Counts.FileReplacedBooks | kernel/fs/ext2.zig:3061-3147 | renaming a file over another |
| Ext2Counts.FileMovedBooks | kernel/fs/ext2.zig:3061-3147 | renaming a file to a new name |
| Ext2Counts.DirMovedBooks | kernel/fs/ext2.zig:3205-3275 | moving a directory: both parents exact, ".." agrees with the record |
| Ext2Counts.DirReplacedBooks | kernel/fs/ext2.zig:3205-3275 | moving a directory over an empty one |
| Ext2Counts.ExchangedBooks | kernel/fs/ext2.zig:3281-3320 | exchanging any two entries, in one directory or two |
| Ext2Counts.ReclaimedBooks | kernel/fs/ext2.zig:1155-1211 | the last close of an inode without a name frees it |
| Ext2Tree.ClimbExact | kernel/fs/ext2.zig:3225-3240 | the kernel's climb finds the moved directory above its new parent if and only if it is there, within 64 steps, and accepts nothing else |
| Ext2Tree.ExchangedTree | kernel/fs/ext2.zig:3281-3320 | an accepted exchange keeps the tree and leaves both places where they were |
| Ext2Tree.CreateInv | kernel/fs/ext2.zig:2405-2460 | open(O_CREAT), whatever the state of the table of open files: counts and tree |
| Ext2Tree.MkdirInv | kernel/fs/dir_ops.zig:245-265 | mkdir, with what its caller does to the slot it gets back: counts and tree |
| Ext2Tree.RenameInv | kernel/fs/ext2.zig:3061-3147 | rename by a record's name, in every mode, with all refusals: counts and tree |
| Ext2Tree.ExchangeInv | kernel/fs/ext2.zig:3281-3320 | exchange, with all refusals: counts and tree |
| Ext2Tree.RmdirDotTears | kernel/fs/ext2.zig:3343-3391 | rmdir by a dot name changes something if and only if the directory is empty, and then a dot record is gone |
| Ext2Tree.RenameDotTears | kernel/fs/ext2.zig:3205-3275 | rename by a dot name changes something if and only if the climb admits it and the target is free or another empty directory, and then a dot record is gone |
| Ext2Tree.StepInvExactly | kernel/fs/rename_policy.zig:62-98 | a call keeps counts, tree, open files and dot records in step if and only if it is not an rmdir or rename that takes a dot record away, nor a create or mkdir that adds one unseen |
| Ext2Tree.RunInv | user/hello124.c:137-163 | exact counts, ".." that agrees with the records, one tree under the root and no nameless inode that is not open, in every state of a run if and only if no call of it tears a dot record |
| Ext2Tree.FromBare | user/hello124.c:137-163 | from a bare root, after any run that tears no dot record: a directory's count is two plus its subdirectories and ".." leads from it to the root; any other count is the number of names; an inode without a name is open |
| Ext2Tree.ExchangeTwiceExactly | user/hello119.c:209-213 | the same exchange again is accepted if and only if neither directory must go back to a place 64 or more levels deep, and then restores everything |
| Ext2Tree.ExchangeDecides | kernel/fs/ext2.zig:3281-3338 | an exchange of two inodes is accepted if and only if neither directory would come below itself as the climb sees it |
| Ext2Names.UnseenExactly | kernel/fs/ext2.zig:559-651 | a name that is there is not found if and only if no open slot is left or it is a symbolic link that leads nowhere |
| Ext2Names.UniqueExactly | kernel/fs/ext2.zig:2405-2460 | no directory gets a name twice if and only if the call is neither a rename of a file onto another of its links nor a create or mkdir of a name that is there and not found |
| Ext2Names.FailureExactly | kernel/fs/ext2.zig:2562-2664 | a failing call changes nothing if and only if it is neither a create or mkdir that added its record before the slots ran out nor a mkdir or symlink that took an inode before room for the record ran out |
| Ext2Names.MkdirSlotsExactly | kernel/fs/dir_ops.zig:245-265 | mkdir leaves a slot open if and only if slot 0 was free |
| Ext2Names.RenameDoublesName | kernel/fs/ext2.zig:3089-3147 | create, link, rename: the name is there twice |
| Ext2Names.FullTableDoublesName | kernel/fs/ext2.zig:2567-2664 | sixteen open files, mkdir of a name that is there: it fails, and the name is there twice |
| Ext2Names.ExchangeNotTakenBack | kernel/fs/ext2.zig:3281-3338 | a file at the root and a directory 65 levels down change places once and not back |
| Ext2Names.PlainNamesNeverTear | kernel/fs/ext2.zig:702-767 | runs whose creates, mkdirs, rmdirs and rename sources end in no dot name tear no dot record |
| Ext2Dots.RmdirDotLeavesName | kernel/fs/ext2.zig:3343-3391 | mkdir /a, rmdir /a/.: accepted; the inode is gone, the name and the root's count stay |
| Ext2Dots.RenameDotDoublesDirectory | kernel/fs/ext2.zig:3061-3275 | mkdir /a, rename /a/. to /b: accepted; one directory has two names and the counts are wrong |
| Ext2Dots.RenameDotDotDoublesDirectory | kernel/fs/ext2.zig:3061-3275 | mkdir /a and /a/b, rename /a/b/.. to /c: the same, and b has lost its ".." |
| Ext2Dots.FullTableAddsDot | kernel/fs/ext2.zig:2562-2664 | sixteen open files, mkdir of ".": it fails and leaves a record of that name |
| Ext2Paths.RebuiltExactly | kernel/fs/ext2.zig:866-898 | the path is rebuilt from the inode if and only if it is a directory at most 32 levels down whose path has at most 255 bytes, and is its path |
| Ext2Paths.PathLeadsBack | kernel/fs/ext2_dirpath.zig:38-58 | with names unique that path leads back to the directory and has no dot names |
| Ext2Paths.LandsExactly | kernel/fs/at_path.zig:73-95 | a name created through a descriptor lands in the directory it was opened on if and only if that directory is still there and its rebuilt path takes the name or, when none can be rebuilt, its opening path still leads there and does |
| Ext2Paths.AliveExactly | kernel/fs/ext2.zig:901-906 | the directory is still there if and only if it was there in every state since; one that got its inode number later is another |
| Ext2Paths.DescriptorFollows | user/hello147.c:124-183 | both together over every run that tears no dot record and leaves names unique: a descriptor follows its directory across renames |
| Ext2Paths.LandsInSuccessor | kernel/fs/at_path.zig:80-86 | mkdir g, open, rmdir g, mkdir g: a name created through the old descriptor lands in the new directory |
| ByteRing.Ring.Put | kernel/net/unix_socket.zig:39-48 | appends as much as fits, wrapping, disturbing nothing stored |
| ByteRing.Ring.CopyIn | kernel/net/unix_socket.zig:39-48 | one or two copies lay the bytes out around the end |
| ByteRing.Ring.Peek | kernel/net/unix_socket.zig:52-61 | shows the front and changes nothing |
| ByteRing.Ring.Take | kernel/net/unix_socket.zig:52-61 | takes the front; the rest is what was behind it |
| StreamPair.StepInv | kernel/net/unix_socket.zig:730-800 | into an open end, bytes accepted are bytes delivered followed by bytes queued, in order, within the ring |
| StreamPair.RunInv | user/hello150.c:100-141 | in every state of every run |
| StreamPair.FromFresh | kernel/net/unix_socket.zig:353-387 | from a fresh pair: what an open end has received is a prefix of what its peer sent, and the queue is the rest |
| StreamPair.OutQueueIsUnread | kernel/net/unix_socket.zig:932-941 | the queued count is accepted minus delivered in every state |
| StreamPair.PeekShowsNext | kernel/net/unix_socket.zig:902-927 | a peek shows what the next receive takes |
| StreamPair.EofMeansAllDelivered | user/hello153.c:102-142 | from a fresh pair: a receive reports end of file if and only if every byte the peer got accepted has been delivered and none can follow; that stays so, and every later receive reports it too |
| StreamPair.NoMoreForever | user/hello153.c:102-142 | once nothing can follow, nothing does, in any run |
| StreamPair.HalfCloseIsHalf | kernel/net/unix_socket.zig:1429-1461 | shutting one direction leaves the other alone |
| StreamPair.WritesPrefix | kernel/net/unix_socket.zig:1324-1377 | a write puts a prefix of its data on the stream, in order, whatever others do while it waits |
| StreamPair.InterruptedExactly | kernel/net/unix_socket.zig:1217-1284 | of one send: the report differs from the bytes sent if and only if a signal or a vanished socket ends a wait in which bytes had already gone out |
| StreamPair.Writer.SendBlocking | kernel/net/unix_socket.zig:1324-1377 | the loop of one send: all of that, one attempt if non-blocking, everything sent if blocking unless it fails, times out or is interrupted |
| StreamCalls.ReportExactly | kernel/fs/file_io.zig:55-77 | what write(2) reports is the number of bytes sent, or an error with none sent, if and only if no chunk is interrupted after some of its bytes went out |
| StreamCalls.HiddenBytes | kernel/fs/file_io.zig:63-77 | a wrong report names whole chunks and hides fewer than 4096 bytes, or is the first chunk's error |
| StreamCalls.ChunksPrefix | kernel/fs/file_io.zig:55-77 | the bytes on the stream are a prefix of the data in order, whatever others do before and between the chunks |
| StreamCalls.NonblockingIsOneSend | kernel/fs/file_io.zig:55-77 | undisturbed, a non-blocking write of any length is one send of all its data: the chunks do not show |
| StreamCalls.BlockingSendsAll | kernel/fs/file_io.zig:55-77 | a blocking write that reports less than it was given met a broken stream, a timeout or an interruption |
| StreamCalls.Socket.WriteChunks | kernel/fs/file_io.zig:55-77 | the loop computes the specified chunks |
| StreamCalls.Socket.Write | kernel/fs/file_io.zig:32-80 | write(2): all of that |
| StreamCalls.WriteHidesBytes | kernel/fs/file_io.zig:55-77 | one byte queued, a write of 8192, a signal: 4096 reported, 8191 sent |
| StreamCalls.SendtoHidesBytes | kernel/net/socket_syscall.zig:466-486 | one byte queued, a sendto of 8192 or more, a signal: -4 reported, 8191 sent |
| RecordQueue.HeadIsFirst | kernel/net/unix_socket.zig:820-876 | framing is unambiguous whatever bytes records hold |
| RecordQueue.RunInv | user/hello165.c:140-154 | the ring holds exactly the frames of the records accepted and not taken |
| RecordQueue.FromEmpty | kernel/net/unix_socket.zig:820-876 | from an empty ring: after any run the bytes are the frames of the records not yet taken |
| RecordQueue.ReceiveWhole | kernel/net/unix_socket.zig:1040-1080 | a receive gets a prefix of the oldest record and its full length and removes it whole; a peek removes nothing |
| ScmRights.LeRoundTrip | kernel/net/scm_policy.zig:47-76 | little-endian words are read back |
| ScmRights.I32RoundTrip | kernel/net/scm_policy.zig:47-76 | signed descriptors, negative ones included, are read back |
| ScmRights.ManyMessages | kernel/net/scm_policy.zig:47-76 | any messages laid out one behind the other read as one list in order, refused as a whole beyond the limit |
| ScmRights.SendRoundTrip | user/hello142.c:95-142 | what a sender lays out the kernel reads back |
| ScmRights.ParseRights | kernel/net/scm_policy.zig:47-76 | the loop computes the specified parse, every error included |
| ScmRights.CollectWords | kernel/net/scm_policy.zig:62-76 | all descriptors of one message, or none when they do not fit |
| ScmRights.Fitting | kernel/net/scm_policy.zig:89-103 | the largest number of descriptors whose message fits |
| ScmRights.BuildRights | kernel/net/scm_policy.zig:89-103 | writes exactly the message of the longest prefix that fits and says whether it was cut |
| ScmRights.ReceivesPrefix | user/hello142.c:289-302 | with any control buffer the receiver decodes exactly that prefix |
| RightsQueue.ScanIs | kernel/net/unix_socket.zig:273-290 | the pass over the pool finds the least two positions and the slot of the first |
| RightsQueue.NearestTwo | kernel/net/unix_socket.zig:273-290 | the loop computes that |
| RightsQueue.PlanPassesNothing | kernel/net/scm_policy.zig:145-152 | a planned read passes no set but the one it delivers, and delivers one if and only if it rides on the first byte |
| RightsQueue.PlanIsGenerous | kernel/net/scm_policy.zig:145-152 | a plan stops early only at a set |
| RightsFlight.QueueOk | kernel/net/unix_socket.zig:730-862 | a send, with or without a set, keeps the sets of a socket on different bytes that are queued there, records included |
| RightsFlight.ReceiveExactly | kernel/net/unix_socket.zig:966-1065 | what a receive does to each waiting set: asked for, the one on the first byte read is handed over and no other is touched; not asked for, those whose byte is read are given up |
| RightsFlight.NotPassed | kernel/net/unix_socket.zig:984-996 | a receive that asks never runs past another set, on streams and on message sockets |
| RightsFlight.ReceivedOk | kernel/net/unix_socket.zig:966-1065 | a receive keeps all that, and announces what is to be released |
| RightsFlight.ClosedOk | kernel/net/unix_socket.zig:1085-1103 | so does a close: no set of a closed socket can be delivered |
| RightsFlight.ReapedOk | kernel/net/unix_socket.zig:245-270 | so does the reaper, which leaves only when nothing is left to release |
| RightsLedger.SocketCallsConserve | kernel/net/unix_socket.zig:182-290 | the calls on sockets move copies between the pool and a thread's hands and neither make nor lose one |
| RightsLedger.StepInv | kernel/net/socket_syscall.zig:929-1005 | every step keeps every copy in exactly one place, known to the descriptor tables while it is in flight |
| RightsLedger.RunInv | user/hello142.c:221-252 | in every state of every run |
| RightsLedger.EndsOnce | kernel/net/socket_syscall.zig:1008-1140 | from boot: every copy ever made has been installed once, or released once, or is in flight once, in the pool or held by a thread; no two sets of a socket ride on one byte |
| RightsLedger.QuietLeavesNothing | kernel/net/unix_socket.zig:228-270 | once no thread holds or seeks a set, a copy is in flight if and only if it waits at an open socket; with all sockets closed everything sent was installed or released, and the tables hold no copy in flight |
| RightsCalls.StepInv | kernel/net/socket_syscall.zig:930-1140 | every step of sendmsg, recvmsg with MSG_WAITALL, and the release of sets keeps what is held by threads equal to what calls in progress hold and what calls returned with |
| RightsCalls.RunInv | user/hello142.c:221-252 | in every state of every run |
| RightsCalls.ReturnsEmptyExactly | kernel/net/socket_syscall.zig:1091-1095 | a call returns with copies in its hands if and only if it is a recvmsg that has taken a set and finds its socket closed |
| RightsCalls.EndsOnce | kernel/net/socket_syscall.zig:1008-1140 | from boot: every copy is installed once, released once, in the pool once, in the hands of one call in progress, or lost; none is lost if and only if no socket is closed under a recvmsg that has taken a set |
| RightsCalls.AtRest | kernel/net/unix_socket.zig:228-270 | with every call returned, the copies in flight are those that wait at open sockets and those lost |
| RightsCalls.LostUnderClose | kernel/net/socket_syscall.zig:1095-1095 | from boot: one thread receives a descriptor while another closes the socket; all calls have returned and the copy is counted for ever |
| RightsRings.PoolEmptiesExactly | kernel/net/unix_socket.zig:1085-1103 | sockets being there as long as a descriptor refers to them: closing every table entry empties the pool if and only if no set in flight leads back to its own socket |
| Descriptors.AddCounts | kernel/fs/vfs.zig:2383-2399 | a new copy keeps every object's count equal to its descriptors or tables plus copies in flight |
| Descriptors.RemoveCounts | kernel/fs/vfs.zig:2016-2120 | so does closing one |
| Descriptors.InstallCounts | kernel/fs/vfs.zig:2442-2449 | so does moving one from flight into a table that may hold the object already |
| Descriptors.ShareInv | kernel/fs/vfs.zig:602-613 | promoting an offset to the pool takes a slot nobody uses |
| Descriptors.CopyInv | kernel/fs/vfs.zig:2211-2266 | dup and passing keep counts, pool and origins |
| Descriptors.ForkInv | kernel/fs/vfs.zig:870-915 | fork's pass over the table does |
| Descriptors.ExitInv | kernel/fs/vfs.zig:2457-2506 | exit's pass does |
| Descriptors.StepInv | kernel/fs/vfs.zig:2377-2449 | every call does |
| Descriptors.RunInv | user/hello142.c:221-252 | in every state of every run references are exact, for kinds counted per descriptor and kinds counted per table |
| Descriptors.FromBoot | kernel/fs/shared_offset.zig:10-60 | from boot: after any run references and pool counts are the holders and sharers there are |
| OpenFiles.HeldExactly | kernel/fs/vfs.zig:1941-2003 | a count is zero if and only if nobody holds the object |
| OpenFiles.PipeEofExactly | kernel/fs/vfs.zig:221-296 | a drained pipe reads end of file if and only if no write end is left in any table or in flight |
| OpenFiles.FlightEndsOnce | kernel/fs/vfs.zig:2402-2449 | what installing or dropping one copy in flight does to the counts |
| OpenFiles.OthersKeep | user/hello130.c:99-126 | no open, dup, pass, install, close, fork, exit, pread or pwrite changes what a surviving descriptor reports |
| OpenFiles.WriteReaches | user/hello129.c:123-170 | a seek, read, write or flag change shows at exactly the descriptors that share the slot; close-on-exec at one |
| OpenFiles.LinkedForever | user/hello129.c:123-170 | linked descriptors agree in every later state |
| OpenFiles.ShareLinksExactly | kernel/fs/shared_offset.zig:10-60 | an offset is shared if and only if the kind has one and it is shared already or the pool has room |
| OpenFiles.CopyLinksExactly | kernel/fs/vfs.zig:602-655 | a copy is linked to its original under exactly that condition |
| OpenFiles.FullPoolUnlinks | kernel/fs/shared_offset.zig:10-60 | from boot: after 512 opens and dups the next copy is not linked, and a seek through one does not show at the other |
| Signals.PendingActionable | kernel/proc/signal.zig:269-280 | true if and only if some pending unblocked signal would be acted on |
| Signals.PendingFatal | kernel/proc/signal.zig:240-250 | the lowest pending unblocked signal that ends the task, none if and only if there is none |
| Signals.RunInv | user/hello109.c:126-144 | no mask ever holds KILL or STOP and nothing is installed for them |
| Signals.FromStart | kernel/proc/signal_delivery_policy.zig:18-33 | from the start of a task: no mask in force or to be restored ever holds KILL or STOP |
| Signals.KillAndStopPrevail | kernel/proc/signal_syscall.zig:124-224 | KILL and STOP cannot be blocked, caught or ignored in any run |
| Signals.DeliverLowest | kernel/proc/signal.zig:285-292 | delivery takes exactly the lowest unblocked pending signal and acts on it; blocked ones stay |
| Signals.PushShape | kernel/proc/signal_delivery_policy.zig:18-33 | a handler runs with exactly the interrupted mask, its own mask and its own signal blocked |
| Signals.FramesKept | kernel/proc/signal.zig:369-490 | frames below the current handler are untouched by anything it does |
| Signals.ReturnRestoresMask | user/hello136.c:118-161 | whatever happens while a handler runs, its return restores the mask in force at delivery |
| Signals.TempMaskUndone | kernel/proc/signal_syscall.zig:381-406 | a temporary mask is undone at once or when the handler returns |
| Signals.WaitRunsHandlerExactly | kernel/proc/signal_syscall.zig:399-406 | a wait that a caught signal ended: the task ends if and only if the temporary mask lets a fatal signal through; else a handler runs if and only if the lowest signal let through has one, and otherwise the caught one is blocked and pending as before |
| Signals.HandlerLeftWaiting | kernel/fs/poll.zig:112-163 | from a new task: two signals blocked and pending, the lower ignored; sigsuspend ends for the higher and returns without its handler |
| Signals.FatalEndsWait | kernel/fs/poll_wake.zig:38-63 | from a new task: 10 caught, 15 left alone, both blocked and pending; sigsuspend under an empty mask ends the task without running the handler |
| Signals.TimedWaitTakesLowest | kernel/proc/signal_syscall.zig:434-495 | sigtimedwait takes the lowest of its set and runs nothing |
| Credentials.RunShrinks | kernel/proc/cred_policy.zig:70-108 | permitted capabilities never grow and effective ones stay among them |
| Credentials.IdsStay | kernel/proc/cred_policy.zig:22-65 | without CAP_SETUID permitted no run reaches a new id |
| Credentials.RootReachableExactly | kernel/proc/credentials.zig:34-75 | a process without id 0 can be uid 0 again if and only if CAP_SETUID is permitted |
| Credentials.DroppedFromRoot | user/hello115.c:134-173 | launched as root, whenever no id is 0 every capability is gone |
| Credentials.DroppedForGood | user/hello115.c:319-352 | and no later run brings back uid 0 or a capability |
| Credentials.TemporaryDropExactly | user/hello116.c:36-47 | a temporary drop restores everything if and only if effective was the whole permitted set |
| CpuTime.TickInv | kernel/proc/cpu_time_policy.zig:28-39 | a tick is counted once |
| CpuTime.SlotInv | kernel/proc/task.zig:1374-1390 | starting, reclaiming and ending threads keep the totals |
| CpuTime.ForkInv | kernel/proc/task.zig:1336-1361 | a new process starts at zero |
| CpuTime.WaitKids | kernel/proc/task.zig:1868-1885 | a wait adds exactly what the child and its waited-for children ran |
| CpuTime.WaitPlaced | kernel/proc/task.zig:1868-1885 | and no process is counted at two places |
| CpuTime.AutoReapInv | kernel/proc/reap_policy.zig:67-85 | a child nobody waits for is counted nowhere |
| CpuTime.RunInv | user/hello170.c:127-202 | in every run a process's own total is what its threads ran, and its children's total what the processes that reached it through waits ran, each exactly once; all ticks are accounted for |
| CpuTime.FromBoot | kernel/proc/cpu_time_policy.zig:1-62 | from one fresh process: own time is what was run, children's time what the absorbed processes ran, and nobody is absorbed twice |
| CpuTime.ReclaimKeepsTotals | kernel/proc/cpu_time_policy.zig:41-47 | reclaiming a thread changes no total |
| CpuTime.GrandchildReaches | user/hello170.c:127-202 | a grandchild's time reaches the grandparent after both waits and not before |
| Decimal.NumeralRoundTrip | user/hello108.c:114-122 | every printed number is read back as itself |
| Decimal.ValueRoundTrip | user/hello108.c:211-212 | every digit string without a superfluous zero is printed again as itself |
| Decimal.NumeralFits | user/hello108.c:114-122 | how many digits a number needs, exactly |
| Decimal.ReverseFirst | user/hello108.c:119-120 | reverses the digits in place and leaves the rest of the buffer |
| Decimal.PrintDec | user/hello108.c:114-122 | prints the numeral of every 64-bit value that can be negated, within 24 bytes |
| Decimal.AppendStr | kernel/fs/procfs.zig:573-581 | appends as much as there is room for |
| Decimal.AppendDec | kernel/fs/procfs.zig:589-611 | appends the numeral of any unsigned 64-bit value, clipped |
| Decimal.GenerateIrqTime | kernel/fs/procfs.zig:475-503 | the whole report clipped as one text |
| Decimal.FindFirst | user/hello108.c:206-215 | the search finds the first occurrence that begins on the line, and fails only if there is none |
| Decimal.PrefixValue | user/hello108.c:211-212 | while digits are read the value never exceeds the final one |
| Decimal.ReadKey | user/hello108.c:206-216 | the loop computes the value behind the first occurrence of the key, or -1 |
| Decimal.ReportReadBack | user/hello108.c:194-219 | for any CPUs and any cut from sixty characters on, the program reads exactly the two numbers of CPU 0's line |
| Decimal.ReadIrqTime | user/hello108.c:194-219 | the same of the program's two searches |

## Left out

- Huge pages and their demotion; the accessed bit and the order in which reclaim picks pages (the choice is part of the step).
- Saturation of the 16-bit reference count and of 64-bit CPU time; the model counts without bound.
- Read errors of the swap device, and memory that runs out inside a page-table walk.
- Word-packed bitmaps: the frame and slot bitmaps are sets; the region table keeps its array.
- mlock, file-backed page faults outside `MemfdSeals`, shared anonymous memory, and the move of a mapping by mremap:
  `MremapTable.Mremap` is the call without MREMAP_MAYMOVE, and `Mseal` has the move as a step on pages.
- Resource limits other than RLIMIT_AS and RLIMIT_DATA on mmap and mremap: the limits on locked memory, files, file size and
  processes, and both limits as brk applies them. What mprotect does to the data ledger (nothing) makes it a number only; the
  address-space ledger is exact.
- TLB shootdown, locks and the interleaving inside one call; a call is one step except where the source drops its lock and the
  model has two steps (draining, counting and sealing, waiting for room).
- Splitting of path strings and permission checks (a parameter here) on tmpfs and ext2; the name cache, disk errors and on-disk
  layout of ext2; mounted volumes. Where a symbolic link leads is a parameter. The 255-byte path limit is modelled where a name
  is joined to a descriptor's path.
- Dot names: `TmpfsTree` and `TmpfsCalls` know no special names, as tmpfs does not. On ext2 a directory's own "." and ".." are
  modelled, and states after one of them is gone are reached but nothing is promised of them.
- Bound names, listen, connect and accept of local sockets; epoll wake-ups; writev and aio, which send in the same chunks.
- Group ids, supplementary groups and inheritable capabilities.
- siginfo, alternate stacks, floating-point state and registers in a signal frame; a frame edited by the handler.
- TCP, UDP and device drivers; the scheduler; the gap accumulator of `user/hello108.c`.
- Decimal.PrintDec: does not take the smallest 64-bit value, whose negation overflows in C.
- Decimal.ReadKey: digits are read into an unbounded integer; `Decimal.PrefixValue` shows that a final value in range was in range throughout.
- SwapDrain.Kernel.DrainAll: no other process's steps in between, so every snapshot lists the same spaces.
- SwapDrain.Kernel.SwapOff: drains with no other process's steps in between; `SwapDrain.DrainAmongOthers` covers the interleaving.
- Churn.Process.ChurnRounds: a round that finds no room ends the churn with the window still mapped, as the probe's failure path does.
- Descriptors.StepInv: opening a second table entry for one socket or disk file is a dup; two opens of one disk file are two objects.
- AddressSpace.Space.MapFixed: the flags of huge and locked regions, which also refuse an exchange in place, are part of `ready`.
- MremapTable.Mremap: the limit on locked memory is not asked.
- MemfdSeals.StepInvExactly: a store behind the end of the file in its last page is not followed; swapping and PROT_NONE entries
  are pages that do not change.
- TmpfsFile.File.Truncate: a frame that is also mapped goes back only when the mapping ends; the file here is not mapped.
- RightsRings.PoolEmptiesExactly: that a socket goes with its last descriptor is assumed of the state, not proved over runs.
- Ext2Paths.LandsExactly: names are unique; `Ext2Names.UniqueExactly` says which calls keep them so.
- Mseal.StepKeepsExactly: a call is one step; what it runs out of is its `fits` or `stop` parameter, and of the error codes only
  those of seals and attachments are exact.
- RightsLedger.StepInv: the kinds of descriptor that cannot be passed are not told apart; listen, connect and accept are not
  steps, and a send names the socket it reaches.
- Signals.RunInv: one thread; signals directed at a process rather than a thread are delivered to that thread.
