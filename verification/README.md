# Thuban in Dafny

A model of the storage, memory and text layers of the Thuban kernel, and proofs about it.

**FAT32.** The disk is a sequence of 512-byte sectors that the driver reads and writes one at a time.
`Fat32Layout` reads it as a table and clusters, after the "FAT Data Structure" and "FAT Directory
Structure" sections of the Microsoft FAT32 File System Specification 1.03. `Fat32State` says when such a
disk is consistent: every named chain is in range, acyclic and terminated, chains are disjoint, sizes are
backed by clusters, and nothing is live after a directory's end mark. `Fat32Abs` reads a consistent disk as
a finite map from heads to folders and files. `Fat32Moves` shows what single table and slot updates do to
both. `Fat32Volume` is the class with the sectors; the remaining files are the operations on it, each
proved against the abstract file system; `Fat32Quota` counts the
clusters of every object and the unused slots of every directory; `Fat32Run` and `Fat32Paths` are about whole runs. A ghost trace of all sector
states carries the argument about stopping in the middle of an operation; `Fat32Reading` says what holds of every
structure such a disk can be read as. `Vfs` and `ShellCopy` add descriptors
and `copy_file`.

**Memory.** `Pmm` is the bitmap with its counter. `PageWalk` gives 4-level tables the meaning of a flat page
map (section 4.5 of the Intel SDM, volume 3A), including the sharing that the boot tables set up, `FrameReach`
says when frames lie where the kernel can write tables, and `Vmm` is the manager over frames from `Pmm`. `HeapList` treats the heap's blocks as a sequence, `Heap` is the class
with the linked headers in memory and a ghost list of the regions it was given, `HeapForeign` what a byte stored
by others does to a header, `HeapRun` a client with pointers in slots, `HeapGrants` the heap on the manager.

**Text.** `Terminal` is the screen, `LineKeys` says what keys mean, `LineEditor` is the editor
behind `fgets`. `Numerals` writes numbers, `FormatPieces` says what the pieces of a format mean, and `Format` is the
bounded formatter.

Conventions: C objects updated in place are classes with fields; cluster buffers, nodes, headers and page
tables are values that the methods reassign. 32-bit and 64-bit wrap-around is written out. Where the code
does not do what its comments or callers expect, the model follows the code: truncation on open never
reaches the disk, a name that starts with 0xE5 leaks its cluster, a write beyond the end that stores no byte
records a size that no cluster backs unless the clusters up to the offset reach it, `coalesce` merges across arenas, `heap_get_free` wraps when no block is free,
`pmm_free` of an address inside page 0 frees page 0, and a line that reaches column 80 puts screen and editor
out of step. The bitmap covers 4 GiB, not the 128 MiB its comment says. Payloads are 8-byte aligned: the
first one is 8 modulo 16.

Hypotheses that the FAT32 results rest on: the volume was freshly formatted and is changed only by this
driver, sector transfers succeed, and a node used for writing still matches its slot.

## Model

| member | source | states |
|---|---|---|
| Fat32Layout.NoWrap | fs/fat32/fat32.c:813-819 | mount geometry computed in 32 bits is the true geometry when the data area starts inside the volume |
| Fat32Layout.MountSound | fs/fat32/fat32.c:803-819 | a sound boot sector mounts to a sound geometry whose clusters end within the volume |
| Fat32Layout.MountRefused | fs/fat32/fat32.c:803-812 | mounting is refused exactly for another sector size or FAT12 and FAT16 fields |
| Fat32Layout.CountLargest | fs/fat32/fat32.c:813-819 | the clusters counted are the most that fit behind the FAT copies |
| Fat32Layout.Places | fs/fat32/fat32.c:15-65 | cluster 2 starts the data area and clusters follow one another; entry c of the table is at byte 4c |
| Fat32Layout.FatBytes | fs/fat32/fat32.c:48-65 | an entry is 28 bits of four bytes, least significant first |
| Fat32Layout.ClusterBytes | fs/fat32/fat32.c:22-33 | where each byte of a cluster is on the disk |
| Fat32Layout.ClusterBounds | fs/fat32/fat32.c:15-46 | cluster ranges lie after every FAT copy and inside the volume |
| Fat32Layout.ClustersDisjoint | fs/fat32/fat32.c:15-46 | different clusters occupy disjoint sector ranges |
| Fat32Layout.FatEntryPlace | fs/fat32/fat32.c:48-80 | table entries lie in the first FAT, inside one sector, and those of different clusters never overlap |
| Fat32Layout.PatchEntry | fs/fat32/fat32.c:82-84 | the patched sector has the new 28-bit value, the old top four bits and every other byte as before |
| Fat32Layout.PatchView | fs/fat32/fat32.c:67-92 | writing the patched sector back changes exactly one 28-bit entry of the table and no cluster |
| Fat32Layout.BackupView | fs/fat32/fat32.c:86-90 | writing a sector of the second FAT changes nothing the driver reads |
| Fat32Layout.SectorView | fs/fat32/fat32.c:35-46 | writing one sector of a cluster overwrites 512 bytes of that cluster and nothing else |
| Fat32Layout.MirroredWrite | fs/fat32/fat32.c:84-90 | writing the same sector in both FAT copies keeps them equal |
| Fat32Layout.CopiesKept | fs/fat32/fat32.c:35-46 | cluster writes leave both FAT copies alone |
| Fat32Chain.ReachIs | fs/fat32/fat32.c:120-129 | the set a walk meets is characterised by closure under the links and reachability, for every table |
| Fat32Volume.Volume.GetNext | fs/fat32/fat32.c:48-65 | the next cluster is the 28-bit entry, from the cache when there is one |
| Fat32Volume.Volume.SetFatEntry | fs/fat32/fat32.c:67-92 | one 28-bit entry of the table changes; both FAT copies and the cache agree again; every intermediate disk state shows the old or the new table |
| Fat32Volume.Volume.ReadCluster | fs/fat32/fat32.c:22-33 | the bytes of the cluster; clusters below 2 are refused |
| Fat32Volume.Volume.WriteCluster | fs/fat32/fat32.c:35-46 | one cluster is replaced; every intermediate disk state is that cluster half written, sector by sector; clusters below 2 are refused and nothing changes |
| Fat32Volume.Volume.AllocCluster | fs/fat32/fat32.c:94-109 | the lowest free cluster, marked as a chain end; 0 exactly when none is free, and then nothing changed |
| Fat32Volume.Volume.FreeCluster | fs/fat32/fat32.c:111-118 | exactly that entry becomes free |
| Fat32Volume.Volume.FreeChain | fs/fat32/fat32.c:120-129 | on every table, cyclic and rho-shaped ones included, it stops and frees exactly the in-range clusters met from the start, the start itself before any other |
| Fat32Name.RoundTrip | fs/fat32/fat32.c:131-181 | packing a name and reading it back returns it exactly when it is canonical |
| Fat32Name.DistinctFields | fs/fat32/fat32.c:131-148 | different canonical names have different 8.3 fields |
| Fat32Name.FirstByte | fs/fat32/fat32.c:131-148 | when the field of a name starts with the free mark or the deleted mark |
| Fat32Name.FieldBytes | fs/fat32/fat32.c:131-148 | byte by byte: before and behind the last dot, letters in capitals, other bytes as they are, blanks to fill, the rest dropped |
| Fat32Name.NoSmallLetters | fs/fat32/fat32.c:137-147 | a field has no small letters |
| Fat32Name.CaseBlind | fs/fat32/fat32.c:131-148 | names that differ in case only have the same field |
| Fat32Name.PartReads | fs/fat32/fat32.c:150-181 | reading a part: up to a blank or 0, unprintable bytes left out, capitals made small |
| Fat32Name.NameReads | fs/fat32/fat32.c:150-181 | the name is the first part, then a dot and the second part unless that is empty |
| Fat32Name.NameTo83 | fs/fat32/fat32.c:131-148 | the loops build the field the specification function gives |
| Fat32Name.NameFrom83 | fs/fat32/fat32.c:150-181 | the loops read the name the specification function gives |
| Fat32State.SlotStore | fs/fat32/fat32.c:343-366 | storing 32 bytes into a directory cluster replaces that one slot of the directory |
| Fat32State.ChainAppend | fs/fat32/fat32.c:369-383 | linking a cluster behind a chain appends its bytes and its slots |
| Fat32Dir.SlotFields | fs/fat32/fat32.c:343-366 | the bytes of first cluster and size in a slot, and when it is live |
| Fat32Dir.NewSlotBytes | fs/fat32/fat32.c:343-366 | every byte of a new slot |
| Fat32Dir.SlotChanges | fs/fat32/fat32.c:449-620 | erasing and resizing change no other byte of a slot |
| Fat32Moves.AllocMove | fs/fat32/fat32.c:94-109 | marking a free cluster keeps the volume consistent, with one unnamed chain more |
| Fat32Moves.LinkMove | fs/fat32/fat32.c:369-383 | linking an unnamed one-cluster chain behind another chain keeps the volume consistent |
| Fat32Moves.AttachMove | fs/fat32/fat32.c:343-366 | storing a slot for an unnamed chain keeps the volume consistent: chains disjoint, acyclic, terminated, sizes backed, nothing live after the end mark |
| Fat32Moves.DetachMove | fs/fat32/fat32.c:449-547 | erasing a slot keeps the volume consistent; its chain becomes unnamed |
| Fat32Moves.FreeMove | fs/fat32/fat32.c:120-129 | freeing an unnamed chain keeps the volume consistent |
| Fat32Moves.ReachChain | fs/fat32/fat32.c:120-129 | the walk over a well-formed chain meets exactly its clusters |
| Fat32Moves.ScarMove | fs/fat32/fat32.c:343-366 | a slot that reads as deleted names nothing: the chain it should have named stays unnamed |
| Fat32Abs.AbsAttach | fs/fat32/fat32.c:343-366 | naming a blank chain adds one entry to one folder and one empty object |
| Fat32Abs.AbsDetach | fs/fat32/fat32.c:449-547 | erasing a slot removes one entry from one folder and the object it named |
| Fat32Abs.AbsResize | fs/fat32/fat32.c:595-620 | recording a size changes that file alone |
| Fat32Scan.ScanDir | fs/fat32/fat32.c:225-292 | the loop along a directory chain finds the first slot that matches, and misses only when no live slot matches |
| Fat32Tree.Lookup | fs/fat32/fat32.c:217-294 | lookup answers exactly for the names of the folder, with a node that matches its slot |
| Fat32Create.GrowDir | fs/fat32/fat32.c:369-383 | a directory that grows by a cluster keeps its slots, gains blank ones and keeps the end-mark invariant; stopped between linking and blanking, the disk reads as the file system before exactly when the stale slots are harmless |
| Fat32Create.EnterName | fs/fat32/fat32.c:326-392 | the slot goes to the first unused place, or to a new cluster; failing for lack of space restores the table |
| Fat32Create.Create | fs/fat32/fat32.c:296-394 | succeeds exactly when the name is acceptable, absent and there is space; failure leaves table and file system as they were; success adds exactly one name and one empty object, takes one cluster, or two when no slot of the directory is unused, and leaves exactly the unused slots and chain lengths that follow; the bytes of the slot on disk are the name in capitals, the kind, the first cluster and size 0; stopped after any sector write, the disk reads as the file system before or after, unless the directory is just being lengthened |
| Fat32Create.ValidNameIs | fs/fat32/fat32.c:183-194 | a name is refused exactly when it is empty, longer than 255 bytes or has one of nine characters |
| Fat32Create.FullIs | fs/fat32/fat32.c:313-375 | there is too little space exactly when fewer clusters are free than the creation takes |
| Fat32Reading.StaleReads | fs/fat32/fat32.c:369-383 | with a stale cluster linked behind a directory, some structure reads the disk as the file system before exactly when none of its slots is live and nothing follows an end mark |
| Fat32Reading.OneReading | fs/fat32/fat32.c:48-65 | the table leaves no choice: a head has at most one chain |
| Fat32Remove.Unlink | fs/fat32/fat32.c:492-547 | succeeds exactly on a file of that name; then that name and file alone are gone, exactly its clusters are free and one more slot of the directory is unused; stopped after any sector write, the slot is still there and names a free cluster, or the removal is done |
| Fat32Remove.Rmdir | fs/fat32/fat32.c:395-490 | succeeds exactly on an empty directory of that name; then that name and directory alone are gone, exactly its clusters are free and one more slot of the parent is unused; stopped half way, as for unlink |
| Fat32Remove.HalfRemoved | fs/fat32/fat32.c:456-534 | where a removal stopped before its slot was erased, no structure that has the folder reads the disk as consistent; erasing that slot gives a consistent disk with everything else as it was |
| Fat32Free.CountFreed | fs/fat32/fat32.c:120-129 | freeing a chain adds exactly its length to the free clusters |
| Fat32File.Read | fs/fat32/fat32.c:552-593 | exactly the requested slice of the file, cut at its end |
| Fat32Crash.WriteSafe | fs/fat32/fat32.c:665-712 | overwriting a cluster inside the range of a write leaves an acceptable disk |
| Fat32Crash.TornSlot | fs/fat32/fat32.c:595-620 | a half-written directory cluster that changes one slot shows the old slots or the new ones |
| Fat32Write.AppendCluster | fs/fat32/fat32.c:667-684 | marking before linking: every disk state while a file grows is acceptable, with at worst a leaked cluster |
| Fat32Write.SeekCluster | fs/fat32/fat32.c:639-664 | walks to the cluster of the offset and grows a file that is too short to exactly that length; fails exactly when chain and free clusters together do not reach it |
| Fat32Write.StoreAll | fs/fat32/fat32.c:665-705 | exactly the bytes there is room for are stored; chain plus free clusters is conserved; the chain ends as long as it was, or as the clusters that hold the data |
| Fat32Write.ClustersForIs | fs/fat32/fat32.c:665-705 | the clusters counted for a number of bytes are the fewest that hold them |
| Fat32Write.UpdateEntry | fs/fat32/fat32.c:595-620 | the slot gets the new 32-bit size; the volume stays consistent exactly when clusters back that size |
| Fat32Write.Write | fs/fat32/fat32.c:622-713 | the bytes go to the offset, exactly as many as there is room for in the clusters the file has and those that are free; it fails exactly when the offset is beyond these; the chain ends with exactly the clusters that hold the data, if these are more than it had; others unchanged; the volume stays mounted exactly under a condition on offset, size, chain length and free clusters before the call; stopping after any sector write leaves consistent chains, every other object, and old bytes outside the range |
| Fat32Write.ExtendStock | fs/fat32/fat32.c:667-684 | marking and linking a cluster conserves chain length plus free clusters |
| Fat32Write.RoomWhen | fs/fat32/fat32.c:636-684 | there is room exactly when the cluster of the offset is there or can be had |
| Fat32Write.BackedIs | fs/fat32/fat32.c:706-710 | the recorded size is backed exactly under the condition stated before the call |
| Fat32Write.WriteNothing | fs/fat32/fat32.c:639-712 | writing nothing one byte behind the only cluster of a file records a size that no cluster backs: no structure that has the folder reads the disk as consistent, and none at all if the folder is the root |
| Fat32Write.OverhangShows | fs/fat32/fat32.c:595-620 | a recorded size that no cluster backs makes the disk inconsistent in every reading that has the folder |
| Fat32Readdir.Readdir | fs/fat32/fat32.c:715-781 | the entries from the descriptor position on, as many as fit, and the position after them; each tells the place of a live slot, its name, and the head and kind of the object it names in the file system; with names not repeated, listing and lookup agree |
| Fat32Readdir.SlotTells | fs/fat32/fat32.c:767-771 | the first cluster and the directory bit of a live slot are the head and kind of an object of the file system |
| Fat32Readdir.ListComplete | fs/fat32/fat32.c:715-781 | the listing holds exactly the live slots |
| Fat32Readdir.ListOrdered | fs/fat32/fat32.c:715-781 | each once, in slot order |
| Fat32Readdir.ListedNames | fs/fat32/fat32.c:217-294 | lookup finds a name exactly when the listing shows it |
| Fat32Readdir.ListAll | fs/fat32/fat32.c:715-781 | for any positive buffer sizes, the results until 0 concatenate to the whole listing |
| Fat32Run.FreshIsMounted | fs/fat32/fat32.c:783-865 | a freshly formatted volume is consistent, leaks nothing and is one empty folder |
| Fat32Run.FreshIs | fs/fat32/fat32.c:783-865 | its snapshot: an empty root of one cluster with every slot unused, and all other clusters free |
| Fat32Run.MountFresh | fs/fat32/fat32.c:783-865 | mounting it gives a volume in that state |
| Fat32Run.Resolve | fs/vfs.c:183-278 | resolving names one by one follows the folders of the file system |
| Fat32Quota.UnusedNone | fs/fat32/fat32.c:326-375 | no slot of a directory is unused exactly when all are live |
| Fat32Quota.AttachedQuota | fs/fat32/fat32.c:326-392 | naming a chain in an unused slot takes that slot and, for a directory, brings a cluster of unused ones |
| Fat32Quota.DetachedQuota | fs/fat32/fat32.c:456-534 | erasing a slot makes it unused and forgets the object |
| Fat32Run.Determined | fs/fat32/fat32.c:296-713 | the snapshot before an operation decides the snapshot after it, up to the head of a new object |
| Fat32Run.Run | fs/fat32/fat32.c:296-713 | every run of create, mkdir, unlink, rmdir and write keeps the volume consistent with nothing leaked; with canonical names it is, step by step, a run of the abstract file system from the snapshot of the disk before to that of the disk after; a snapshot is the files, the number of free clusters, the length of every chain and the number of unused slots of every directory, and it decides what is done, left undone or cut short |
| Fat32Paths.Tree | fs/fat32/fat32.c:296-713 | in every state of every run from a fresh volume each object is reached from the root by exactly one path |
| Vfs.Vfs.AllocFd | fs/vfs.c:332-347 | the lowest free descriptor; -1 exactly when all are taken |
| Vfs.Vfs.Close | fs/vfs.c:349-457 | exactly that descriptor is freed; refused exactly when it is not open |
| Vfs.Vfs.Open | fs/vfs.c:371-446 | succeeds exactly when a descriptor is free and the name is a file or can be created; creation adds only that name, and stays when no descriptor is free; truncation forgets the size in memory only |
| Vfs.Vfs.Read | fs/vfs.c:459-470 | the slice at the offset of the descriptor, which advances past it |
| Vfs.Vfs.Write | fs/vfs.c:472-487 | the file is overwritten at the offset, or at its end when appending, by exactly the bytes there is room for; offset and size follow; others unchanged |
| Vfs.Vfs.Lseek | fs/vfs.c:489-513 | the offset becomes the given one, the current one plus it, or the size plus it; refused exactly for a bad descriptor, a bad origin or a negative result |
| Vfs.SeekThenRead | fs/vfs.c:459-513 | reading after a seek gives the bytes counted from the start, from the position or from the end of the file |
| Vfs.WriteThenRead | fs/vfs.c:459-513 | write, seek back and read returns exactly the bytes the write took |
| ShellCopy.OpenBoth | kernel/interface/shell.c:655-663 | both files are open, or neither and no descriptor is used; open exactly when both can be |
| ShellCopy.CopyLoop | kernel/interface/shell.c:664-675 | the loop ends; it comes up short exactly when the source is larger than the clusters the target has and could get, and then only the target differs |
| ShellCopy.CopyFile | kernel/interface/shell.c:637-679 | 0 exactly when both files can be opened and the source fits; then every other object is as before, descriptors are restored, and the target equals the source exactly when the source is non-empty or the target was empty; a copy given up removes the target and leaves all else; a copy not begun changes nothing, except that with one free descriptor a missing target is created |
| Pmm.OneBit | mm/pmm.c:27-48 | setting or clearing a bit of a word changes that bit and no other |
| Pmm.SetMarks | mm/pmm.c:27-48 | on the whole bitmap: exactly one page is marked or unmarked |
| Pmm.Pmm.FindFreePage | mm/pmm.c:54-64 | the lowest free page; -1 exactly when there is none |
| Pmm.Pmm.FindFreePages | mm/pmm.c:70-97 | the lowest start of a free run of that length; -1 exactly when there is none |
| Pmm.KernelPagesIs | mm/pmm.c:115-123 | the pages set aside are the fewest that hold the first megabyte and the kernel |
| Pmm.Pmm.Init | mm/pmm.c:102-132 | exactly the low megabyte and the kernel are used |
| Pmm.Pmm.Alloc | mm/pmm.c:137-155 | the lowest free page becomes used; NULL and no change when all are used |
| Pmm.Pmm.AllocPages | mm/pmm.c:160-191 | the lowest free run becomes used; NULL and no change for no pages or no such run |
| Pmm.Pmm.Free | mm/pmm.c:196-223 | that page becomes free; nothing for NULL or an address out of range |
| Pmm.Pmm.FreePages | mm/pmm.c:228-234 | exactly the pages of the range become free, with 64-bit wrap-around of addresses |
| Pmm.Pmm.Memory | mm/pmm.c:250-267 | used memory counts the set bits, free memory the clear ones below the limit |
| Pmm.TouchedIs | mm/pmm.c:228-234 | the pages freed are those in range of the addresses, one page apart and modulo 2^64, that are not 0 |
| Pmm.TouchedRange | mm/pmm.c:228-234 | for a range inside memory these are its pages, page 0 excepted |
| Pmm.AlignedMissesZero | mm/pmm.c:196-234 | page-aligned frees never concern page 0 |
| Pmm.PageZero | mm/pmm.c:196-234 | page 0 stays used throughout a run exactly when no call frees an address strictly inside it |
| Pmm.NeverZero | mm/pmm.c:137-191 | while page 0 is used no call hands it out, and NULL means failure |
| Pmm.FreeUndoes | mm/pmm.c:160-234 | freeing a fresh allocation restores every bit exactly when it did not start at page 0 |
| Pmm.Run | mm/pmm.c:137-234 | every run keeps the count equal to the number of set bits |
| PageWalk.PathIsPage | mm/vmm.c:30-33 | addresses have the same table indices exactly when they are in the same page of the 48-bit space |
| PageWalk.PageNumber | mm/vmm.c:30-33 | the indices are the digits of the page number in base 512 |
| PageWalk.OrBit | mm/vmm.c:107-107 | or, bit by bit |
| PageWalk.PteBits | mm/vmm.c:107-107 | every bit of the stored entry: present, the flags, and from bit 12 on the address |
| PageWalk.PteValue | mm/vmm.c:107-107 | with flags below 4096 the entry is frame, flags and present bit |
| PageWalk.PteFrame | mm/vmm.c:107-107 | the stored entry is present and its frame is the or of the frame bits of address and flags |
| PageWalk.PtHome | mm/vmm.c:26-81 | the last-level table on a path hangs at that path and at no other, up to the sharing of boot tables |
| PageWalk.GrowMap | mm/vmm.c:35-46 | adding an empty table changes no translation |
| PageWalk.StoreMap | mm/vmm.c:98-107 | writing the entry changes that page of the flat map and no other |
| Vmm.BootShape | arch/x86_64/boot.s:36-57 | the boot tables have the shape every later state has |
| Vmm.InWindow | mm/vmm.c:17-33 | addresses from 0xFFFFFFFFC0000000 on are the pages of one p3 slot, outside the boot mapping |
| Vmm.DirectMap | mm/vmm.c:44-48 | a frame is reached at the kernel offset exactly when it lies in the first gigabyte |
| FrameReach.ServedIs | mm/vmm.c:40-45 | the next tables all lie in the first gigabyte exactly when enough low frames are free or no high one is |
| FrameReach.TableInReach | mm/vmm.c:40-45 | a new table can be reached exactly when a frame below one gigabyte is free |
| FrameReach.RunReached | mm/vmm.c:139-156 | decides before an allocation whether the tables it makes will lie in the first gigabyte |
| Vmm.NeededNext | mm/vmm.c:142-166 | mapping a page makes exactly the tables it misses; those of all later pages are missing as before |
| Vmm.NeededAtMost | mm/vmm.c:142-166 | a range of pages misses at most one directory and its page tables |
| FrameReach.RunServed | mm/vmm.c:139-156 | so it is with one gigabyte of memory, or while used pages, pages asked for and tables needed come to at most 262144 |
| Vmm.Vmm.GetPte | mm/vmm.c:26-81 | the place of the entry; succeed or fail part-way it changes no translation and takes only table frames, all within reach; creating fails only when no page is free |
| Vmm.Vmm.Map | mm/vmm.c:94-112 | exactly one page of the flat map changes, to an entry with exactly the bits of address, flags and present, or none when no page is free for a table |
| Vmm.Vmm.Unmap | mm/vmm.c:117-134 | exactly that page is unmapped |
| Vmm.Vmm.GetPhys | mm/vmm.c:202-217 | the frame of the flat map with the page offset; 0 for an unmapped page |
| Vmm.ReadBack | mm/vmm.c:94-217 | reading a mapping back gives the mapped page exactly when the flags set no foreign frame bit |
| Vmm.Vmm.PagingGetPhys | mm/paging.c:101-149 | agrees with the other walker wherever no huge entry is on the path; the low 30 bits in the boot mapping |
| Vmm.Vmm.Alloc | mm/vmm.c:139-173 | fresh pages at the end of the window mapped to the lowest free run with exactly the flags asked for; NULL, even part-way, leaves mappings below and data frames as before, and exactly the pages mapped so far stay mapped, to freed frames |
| Vmm.Vmm.Free | mm/vmm.c:178-197 | exactly these pages are unmapped and their frames freed |
| Vmm.Accounting | mm/vmm.c:139-197 | used pages are the reserved ones, the tables beyond those of boot and the mapped data frames |
| Vmm.UsedAtMost | mm/vmm.c:139-197 | used pages are at most the reserved ones, the tables and the pages of the window handed out so far |
| Vmm.Step | mm/vmm.c:139-197 | an allocation or free in reach is made: pages at the next address on the lowest free run, or nothing but tables when frames run out; freed pages gone; one out of reach is not made |
| Vmm.Run | mm/vmm.c:139-197 | with up to 4 GiB of memory, every run, failures included, keeps the mapping below the next address one-to-one, each frame used and no table, every table within reach, and the count exact; every mapped page carries the flags of the call that allocated it |
| HeapList.ReplaceOrdered | mm/heap.c:91-158 | replacing blocks by blocks within their span keeps all blocks disjoint, in order and 8-byte aligned |
| HeapList.TiledTotal | mm/heap.c:36-85 | blocks without gaps cover exactly the total size from the first block on |
| HeapList.AbsorbSound | mm/heap.c:91-112 | a merge stays between its neighbours, and covers just the two blocks exactly when they touch |
| HeapList.SplitLinked | mm/heap.c:144-157 | the header writes of a split are the doubly linked list of the split sequence |
| HeapList.AbsorbLinked | mm/heap.c:93-111 | the header writes of a merge are the doubly linked list of the merged sequence |
| HeapList.AppendLinked | mm/heap.c:65-80 | the header writes of an expansion are the doubly linked list with one block more |
| HeapList.AllocatedIs | mm/heap.c:139-161 | the list after an allocation: the block in use, split exactly when a header and 64 bytes are left over |
| HeapList.FreedIs | mm/heap.c:91-112 | the list after a free: one free block for the block and its free neighbours |
| HeapList.AllocatedSums | mm/heap.c:139-161 | an allocation conserves the total and moves exactly its block to the used size |
| HeapList.FreedPacked | mm/heap.c:247-278 | after a free no two neighbours are both free |
| HeapList.AllocatedLive | mm/heap.c:139-165 | an allocation adds one live block and touches no other |
| HeapList.FreedLive | mm/heap.c:247-278 | a free takes away exactly its block |
| HeapList.FreedFitted | mm/heap.c:91-112 | after a free all blocks lie in the memory the heap was given exactly when the free list neighbours of the block touched it before |
| HeapList.AppendFitted | mm/heap.c:55-85 | new pages above the heap keep its blocks filling its memory |
| HeapList.AllocatedFitted | mm/heap.c:139-165 | an allocation keeps the blocks filling their memory |
| HeapList.LiveApart | mm/heap.c:117-180 | live payloads overlap neither one another nor any header |
| Heap.AlignFits | mm/heap.c:124-124 | the rounded size is large enough exactly up to 2^64 - 16 |
| Heap.PagesFit | mm/heap.c:57-67 | the new pages hold the block exactly up to 2^64 - 4136 bytes |
| Heap.PagesFewest | mm/heap.c:57-57 | they are the fewest pages that do |
| Heap.AlignLeast | mm/heap.c:124-124 | the rounded size is the least multiple of 16 that is large enough |
| Heap.PagesNone | mm/heap.c:57-57 | above, no page is asked for up to 2^64 - 48 bytes, and one page beyond |
| Heap.PagedPacked | mm/heap.c:172-179 | pages asked for one after the other are not merged: no two free neighbours are left exactly when none was given, or one behind a block in use |
| Heap.Heap.constructor | mm/heap.c:36-49 | one free block of 256 KiB less a header |
| Heap.Heap.Expand | mm/heap.c:55-85 | a new last block of whole pages, or nothing |
| Heap.Heap.Coalesce | mm/heap.c:91-112 | the list becomes the merged list; headers stay linked and counters exact |
| Heap.Heap.FindFit | mm/heap.c:128-169 | the first free block that is large enough; corruption is never reported |
| Heap.Heap.Malloc | mm/heap.c:117-180 | first fit; pages are asked for only when every free block is too small; for sizes up to 2^64 - 48 the retry then succeeds from them without asking again; for larger ones the page count wraps to one: page after page is added until one is refused, and NULL is returned (up to 2^64 - 16), or NULL after one page (above, where the size wraps to 0); one live block more, no live byte disturbed |
| Heap.Heap.Free | mm/heap.c:247-278 | nothing for NULL or a free block; else exactly that block stops being live, and all blocks still lie in the memory the heap was given exactly when its free neighbours touch it |
| Heap.Heap.Realloc | mm/heap.c:201-242 | the old bytes are at the new place, which is large enough; failure changes nothing live; other blocks undisturbed; pointer, list and memory are those of malloc and free one after the other, or the block stays when it is large enough; all blocks stay in the memory of the heap exactly when the block is not moved or its free neighbours that malloc has not taken touch it |
| Heap.Heap.GetFree | mm/heap.c:305-311 | free bytes less one header; it wraps exactly when no block is free |
| HeapRun.Run | mm/heap.c:36-311 | every run, with others writing outside the memory of the heap between calls, until one of their stores changes a header of the list: every call with a size up to 2^64 - 48 does to list, memory and pointer exactly what first fit, split and merge say, list linked, counters exact, no two neighbours free, what was stored through a pointer into that memory reads back, blocks tile the heap while new pages touch it; such a store unlinks the list; all blocks stay in the memory of the heap exactly when blocks are given back with touching free neighbours only, and then no store of others hits the list |
| HeapRun.StaysInside | mm/heap.c:91-278 | over a run with free and realloc: all blocks stay in the heap memory exactly when every block given back has touching free neighbours, and then no store outside that memory hits a header |
| HeapRun.OthersStore | mm/heap.c:117-278 | what others store outside the heap memory changes nothing recorded in the slots |
| HeapRun.MergeAcrossGap | mm/heap.c:91-112 | across a gap between arenas a merged block runs past its arena and lies in none |
| HeapRun.StrayHeader | mm/heap.c:91-165 | after such a merge a split puts a header between the arenas, where one foreign byte unlinks the list |
| HeapForeign.StrikesUnlinks | mm/heap.c:16-23 | a foreign byte leaves the list linked exactly when it changes no byte of a header in the list |
| HeapForeign.HeaderLayout | mm/heap.c:16-23 | where the fields of a header lie in its 40 bytes |
| HeapForeign.StruckIs | mm/heap.c:16-23 | a byte stored into the 40 of a header changes it exactly when it differs and is not one of the eight of padding |
| HeapForeign.HousedUnstruck | mm/heap.c:16-23 | while all blocks lie in the heap memory, stores outside it change no header |
| HeapGrants.AskOnce | mm/heap.c:55-63 | the pages given to the heap are at the next address, and writable |
| HeapGrants.Ask | mm/heap.c:55-63 | the answers of vmm_alloc, with other callers in between, are the grants the heap relies on |
| HeapGrants.Malloc | mm/heap.c:117-180 | malloc on top of vmm_alloc keeps the heap memory below the next address; new pages never touch an array that ends below the window |
| HeapGrants.Run | mm/heap.c:55-278 | every run of the heap on the manager, with others allocating, freeing and writing in between: vmm_alloc is asked once per call, exactly when no block is large enough, its answers suit the heap, and with them the calls are a run of the heap as above; the memory of the heap is the initial array, which new pages never touch, and memory in the window below the next address |
| Terminal.Terminal.ScrollUp | drivers/video/vga.c:158-172 | every row moves up one and the last is blank |
| Terminal.Terminal.Putchar | lib/stdio.c:26-113 | the effect of one character on cells and position |
| Terminal.MoveIs | lib/stdio.c:76-107 | newline, carriage return and backspace: where the cursor goes, and no cell changes but by scrolling |
| Terminal.CharIs | lib/stdio.c:46-112 | a character is in its cell, all others as before; the cursor steps on, from the last column to the next line |
| Terminal.TabIs | lib/stdio.c:89-97 | a tab blanks the cells up to the next multiple of four and moves there, from the last stop to the next line |
| LineEditor.EditSane | lib/stdio.c:198-296 | for every key sequence: cursor within the text, text within the buffer, printable characters only |
| LineEditor.EditInStep | lib/stdio.c:198-296 | while the line has stayed left of column 80, the row shows exactly the text, vacated cells are blank, the rest of the screen is untouched and the column is start plus cursor |
| LineEditor.AlwaysRight | lib/stdio.c:198-296 | every key sequence leaves the screen right exactly when start column plus buffer room is at most 79 |
| LineEditor.Overflows | lib/stdio.c:46-60 | a line that fills the row puts the screen out of step |
| LineEditor.Erase | lib/stdio.c:243-269 | backspace: the text loses the character before the cursor and the redraw is the one specified |
| LineEditor.Type | lib/stdio.c:270-292 | a character is inserted at the cursor and the redraw is the one specified |
| LineEditor.Fgets | lib/stdio.c:198-296 | it is the pure editor with room for size - 1 characters; the buffer holds the text that the keys mean, ended by 0 on Enter |
| LineEditor.StrokeEdit | lib/stdio.c:210-292 | the codes of one key are taken together and change the line as that key should: ESC [ D left, ESC [ C right, 8 backspace, 32 to 126 themselves, anything else nothing |
| LineEditor.EditKeyed | lib/stdio.c:198-296 | every sequence of codes is a sequence of keys up to Enter or an unfinished escape, and the editor holds the line these keys make |
| LineKeys.InTheMiddle | lib/stdio.c:210-292 | after typing s and n times left, a character goes before the last n, backspace removes the one before them, right steps over one, other keys change nothing |
| LineKeys.ArrowsUndo | lib/stdio.c:217-232 | left and right undo each other, and stop at the ends |
| LineKeys.BackUndoes | lib/stdio.c:243-292 | backspace undoes a typed character |
| Numerals.NumeralValue | lib/stdio.c:912-943 | a numeral in base 8, 10 or 16 reads back as its number |
| Numerals.NumeralWrites | lib/stdio.c:912-943 | the numeral of a number has digits of one case, no leading zero, and reads as the number |
| Numerals.DecimalWrites | lib/stdio.c:852-898 | the same with a minus sign exactly for negative numbers |
| Numerals.OneText | lib/stdio.c:912-969 | no other string does: a number has one numeral, and one string of a given number of digits |
| Numerals.DigitTable | lib/stdio.c:922-936 | the digit characters, in order, small for x and p and capital for X |
| Numerals.NumeralLength | lib/stdio.c:915-937 | a 64-bit number takes at most 22 digit cells |
| Numerals.DigitLoop | lib/stdio.c:863-937 | the digit buffer, reversed, is the numeral |
| Numerals.DecimalValue | lib/stdio.c:852-898 | a signed numeral reads back as its number |
| Numerals.SignedLength | lib/stdio.c:863-890 | a signed 64-bit number with its sign takes at most 22 digit cells |
| Numerals.HexValue | lib/stdio.c:946-969 | all 16 digits of a pointer read back as it |
| Format.ConvertedValue | lib/stdio.c:828-980 | every numeric conversion, signed ones included, reads back as its argument and takes at most 22 cells |
| Format.SpecRead | lib/stdio.c:751-826 | a directive made of flags, width, precision, length and conversion, however written, is read as just that: where it ends, which arguments its stars take, its precision, and 64 bits exactly for l, ll, z and t |
| Format.PiecesOf | lib/stdio.c:738-826 | every complete format is a list of plain characters and such directives |
| Format.ConvertedPrints | lib/stdio.c:828-980 | each conversion prints what its argument means: the string up to the precision, "(null)" for NULL, one byte, the signed or unsigned value of 64 or 32 bits in its base and case, 0x and 16 digits for a pointer, and any other character itself |
| Format.ExpandPrints | lib/stdio.c:738-986 | a format is complete exactly when every directive finds one argument for its conversion and one for each star; its output is then what the pieces print, one after the other |
| FormatPieces.AllPrintOne | lib/stdio.c:738-986 | that determines the output: two texts that the pieces print are equal |
| Format.Scan | lib/stdio.c:751-826 | flags, width, precision and length modifiers are parsed as specified |
| Format.Formatter.Putc | lib/stdio.c:725-733 | the buffer keeps as much of the output as fits before its last cell |
| Format.Formatter.Vprintf | lib/stdio.c:738-986 | the whole output is sent, and its length returned |
| Format.Vsnprintf | lib/stdio.c:1022-1041 | the output is what the pieces of the format mean; the prefix of it that fits, then 0, the rest of the buffer untouched; the result is the length of the whole output; nothing for size 0 |

## Left out

- ATA and block device drivers: the device is the sequence of sectors; a failed transfer is not modelled.
- Scratch buffers and node lifetimes: nodes and cluster buffers are values, so frees of them, also repeated ones, are not captured.
- Date, time and permission fields, and the permission checks of the VFS layer.
- Path strings: paths are lists of names; ".", "..", mount points and a directory as target of `copy_file` are not modelled.
- FAT copies beyond the second: mount accepts them, the driver writes only the first two.
- Locks, interrupts and several cores: every locked section is one step.
- TLB invalidation, VGA ports and colours, keyboard scancodes.
- `calloc`, `paging_map`, `paging_unmap`, the screen's own `printf`, `gets` and `scanf`.
- Multiboot, modules, panic screen, usermode and the other shell commands.
- Fat32Volume.Volume.ReadCluster: clusters at or above the limit read whatever sectors the arithmetic gives, which is not stated; the table never names one.
- Fat32Write.Write: the offset is required to be below 2^32 clusters, because the code keeps the cluster index in 32 bits.
- Fat32Run.Run: names to create do not start with 0xE5, since those leak; stores beyond the end of a file are skipped, since what then shows in the gap is not part of the file system.
- HeapGrants.Malloc: sizes up to 2^64 - 48; requests out of reach of the manager count as refused.
- HeapGrants.Run: the same; the initial array ends below the window.
- Fat32Remove.Unlink: that only the named file goes is stated for directories without repeated names, which canonical names guarantee.
- Fat32Remove.Rmdir: what remains after success is stated for such directories too.
- Fat32Abs.AbsDetach: the same, since with a repeated name the other slot would come to light.
- Fat32Run.Resolve: lists of names to directories; "." and ".." are not modelled.
- Vfs.Vfs.Write: stated for positions at or below the end of the file, where no gap appears.
- Vfs.Vfs.Open: names that start with 0xE5 are excluded; the exact condition for success is stated for canonical names and for opening without creation, because other names are packed differently from how they are looked up.
- ShellCopy.CopyFile: the target name is canonical and source and target are different files; a read error is not modelled.
- Pmm.Pmm.Init: the kernel must end within the 4 GiB the bitmap covers, since the code marks its pages unchecked.
- Vmm.Vmm.GetPte: addresses inside the boot mapping are excluded, because the code would take a 2 MiB page for a table; when tables are missing, the next free frames must lie in the first gigabyte, because the code writes them through its fixed offset.
- Vmm.Vmm.Map: the same addresses are excluded, and missing tables need frames within reach.
- Vmm.Vmm.Unmap: the same addresses are excluded.
- Vmm.Vmm.GetPhys: the same addresses are excluded.
- Vmm.Vmm.Free: ranges below the next address, as `vmm_alloc` gave them out; above it a failed allocation may have left entries to freed frames.
- Vmm.Vmm.Alloc: flags below 4096, before the window is used up, and while the tables needed find frames in the first gigabyte; the code checks none of these.
- Vmm.Run: allocations out of reach are skipped: those past the end of the window, and those whose missing tables would not all find frames in the first gigabyte.
- Heap.Heap.Malloc: pages granted lie above all memory granted before, as `vmm_alloc` gives them.
- Heap.Heap.Free: pointers come from the list of blocks; what the magic number shows elsewhere depends on user data.
- Heap.Heap.Realloc: sizes above 2^64 - 16, which round to 0, are excluded, because the copy would then overrun.
- HeapRun.Run: sizes up to 2^64 - 48, since beyond them free neighbours are left unmerged; calls on a slot in the wrong state, and `realloc` to size 0, which is `free`, are skipped; nothing is claimed of bytes stored through a block that left the heap's memory; after a foreign store has changed a header the run ends, since what the code then does depends on the bytes it finds.
- LineEditor.Fgets: the key codes that have arrived are a sequence; waiting for the next one is its end.
- Format.Vsnprintf: formats are complete and arguments fit them; a directive cut off by the end of the format makes the code read past it; the count is not cut to 31 bits.
