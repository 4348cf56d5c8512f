# Verification of a small i386 kernel: file system, paths, scheduler, heap, editor and checksums

This project models the parts of the kernel with the most state and branching, and proves what they keep.

* **ext2 file system** (`kernel/fs/ext2.c`). `VolumeState` says what a volume means: allocation maps, inodes, data blocks.
  `DiskLayout` says where these sit in the bytes of a disk, and `Ext2Volume.Volume` is the mounted volume: a disk of blocks
  with the cached free counters. On it run the operations in the order of the original: block lookup and allocation
  (`FileMethods`), releasing and truncating (`FreeMethods`), directory searches (`DirScan`), directory records
  (`DirMethods`) and the calls built on them (`FsMethods`). Each method is proved equal to a function on the meaning of the
  volume (`BlockMap`, `FileMap`, `FileData`, `Shrink`, `DirRecords`, `DirData`, `DirOps`, `DirRemoval`, `FsOps`, `FsSteps`);
  `FileTheorems`, `FullWrites`, `DirTheorems`, `AppendTheorems`, `EntryListings`, `Links`, `LinkTheorems`, `RenameLinks`,
  `FailedCalls`, `FsRuns`, `LinkRuns` and `NameRuns` prove what the source promises about those functions, call by call and
  over whole runs. `DirCells` and `CellSteps` follow a directory record by record, and `Witness` builds a small volume and
  the runs on it that end where the code falls short.
* **Paths** (`kernel/shell/commands.c`, `kernel/fs/vfs.c`): lexical normalisation against resolution through real `.` and
  `..` entries. `VolumeTree` reads the tree that is walked off a volume, and proves its dot entries right over whole runs.
* **Memory** (`kernel/mm`): `Frames` is the physical frame bitmap, `VirtualHeap` the page tables and the page-granular heap.
* **Scheduler** (`kernel/task/sched.c`): runs of tick, yield, exit and add.
* **Editor** (`kernel/shell/editors.c`): the line table of nano as a refinement of flat text.
* **Checksums** (`kernel/net/network.c`): the Internet checksum of section 1 of RFC 1071, as IPv4 (section 3.1 of RFC 791) and
  TCP (section 3.1 of RFC 793) use it.

## How to read it

`Sound` (module `FsOps`) is the invariant of runs: every pointer of a live inode leads to a data block in use, no block is
reached from two places, and the records of every directory tile its blocks behind two dot records. `Linked` (module
`Links`) adds, for every directory, its link count, that it lists each dot name once, for itself and its parent, that its
parent is a directory which lists it, and that its names are C strings; `Named` (module `NameRuns`) adds that every entry
stands for a live inode of its kind and no inode has two entries. "Live" means that the inode's bitmap bit is set. `Sound`
survives every call, successful or not, on entries that stand for live inodes; `Named` survives orderly calls and yields
what such calls need to know about their entries. A run of calls that all succeed can break it (`ListedWithoutInode`), so
the condition on entries cannot be dropped from arbitrary runs. Orderly are failing calls that link nothing, adds and
removals that change the listing by their own record only (`AddsOnly`, `RemovesOnly`: no record is cut in two by the size,
and an append neither uncovers nor replaces records) and renames between whole directories; whole directories with room
always qualify (`RoomAddsOnly`, `WholeRemovesOnly`). A disk is read and written in whole blocks or sectors and never
fails; block sizes are 1024 and 2048, byte offsets stay below 2^32, metadata and the padding of the last group are marked
used. Inodes that mkfs reserves for itself (`Geometry.reserved`, such as the resize inode) may have a double-indirect table
without a single one; other inodes never do in a volume this kernel writes.

Where the code does less than its callers may hope for, the exact condition is proved:

* a short write keeps the bytes it reports and no more (`WriteReadAgreement`), and the count it reports is given for every
  write (`WriteReaches`): a call obtains one new block at most, so a write to a whole file is complete exactly when it stays
  in the blocks there are or needs one more and can have it (`WriteIsFullWhen`);
* a created name is found exactly when its record ends below the size, or its block hangs where readers come by before an
  older record of the name (`CreatedIsFound`, for every directory; `AppendLists` gives the whole listing). It is lost after
  the directory was emptied (`FirstFileAfterEmptying`, `FreshRootLoses`), after the last block was emptied
  (`LostAfterRemoval`), and when the single-indirect table is full (`FullTableLoses`);
* a deleted record of the same name in front makes a removal report success without removing (`RemoveIsExact`); for a file
  the inode goes and the entry stays (`RemoveFileBehindTombstone`, reached by eight calls in `ListedWithoutInode`);
* a directory created where its record does not show is counted by its parent all the same: link counts and names stay
  right exactly when it shows; a file created so is merely not found (`CreateDirNamed`, `CreateFileNamed`);
* a failed append keeps the block it had allocated (`FailedAddLeaks`), and a failed directory creation leaves the parent's
  link count one too high exactly when an inode and a block could be had (`FailedCreateDirMiscounts`, reached in
  `LinkCountTooHigh`); a failed rename leaves the new name linked if it could be (`RenameOutcome`);
* the two searches for a name agree exactly when the name found has at most 63 bytes and no longer name in front begins with
  it (`SearchesAgree` for listings, `RunSearchesAgree` for every live directory in every state of an orderly run);
* a path with a name of 48 characters, or one that is 33 names deep, can open another file or directory once normalised
  (`LongNameIsCut`, `DeepNameIsDropped`);
* a cut into the single-indirect range loses what a double-indirect table maps (`TruncateLosesNone`), and one that is refused
  has already freed the upper tables (`RefusedCutDangles`);
* freeing a block, inode or frame that is free already makes the counters wrong (`FreeBlock`, `FreeInode`, `Free`), and an
  allocation with too few frames succeeds and shares frame 0 (`Vmalloc`);
* merging two editor lines loses the end of the lower one exactly when both do not fit (`MergeKeepsAll`).

## Model

| member | source | states |
|---|---|---|
| InodeCodec.EncodeDecode | include/ext2.h:84-104 | an inode copied into its 128 bytes and back is the same inode |
| DiskLayout.WrittenInode | kernel/fs/ext2.c:332-354 | an inode written to its slot reads back unchanged |
| DiskLayout.InodesApart | kernel/fs/ext2.c:122-147 | slots of distinct inodes never overlap, across groups and inside a shared block |
| DiskLayout.OtherInode | kernel/fs/ext2.c:332-354 | writing one inode leaves every other inode readable as before, also in the same sector |
| DiskLayout.SectorOfInode | kernel/fs/ext2.c:122-147 | the sector the kernel computes holds the whole inode, and patching that sector is patching the inode's block |
| DiskLayout.BlockFound | kernel/fs/ext2.c:450-468 | division and remainder lead from a block number to its own group and bit |
| DiskLayout.ConsistentBlockBit | kernel/fs/ext2.c:397-468 | flipping one block bit together with its group's and the superblock's counter keeps every counter equal to the clear bits it stands for |
| DiskLayout.ConsistentInodeBit | kernel/fs/ext2.c:524-590 | the same for inode bits and inode counters |
| DiskLayout.CountersDetermined | kernel/fs/ext2.c:397-468 | the counters are a function of the maps: whatever restores the maps restores every counter |
| DiskLayout.FreeCounted | kernel/fs/ext2.c:397-468 | the superblock's free count is the number of blocks the allocator may hand out |
| DiskLayout.ConsistentHidden | kernel/fs/ext2.c:421-437 | rewriting the superblock or the descriptors changes no bitmap, inode or data block |
| DiskLayout.FreeUndoesAlloc | kernel/fs/ext2.c:397-468 | freeing what was just allocated gives the volume back |
| DiskLayout.MapSetBack | kernel/fs/ext2.c:450-468 | clearing a bit just set gives the bitmap block back byte for byte |
| Ext2Volume.Volume.FindClear | kernel/fs/ext2.c:397-448 | the word-and-bit scan over all groups stops at the first clear bit, and finds none only if all are set; skipping groups by their counter is safe |
| Ext2Volume.Volume.AllocBlock | kernel/fs/ext2.c:397-448 | fails exactly when the free count is 0; otherwise takes the lowest-numbered free block, lowers the counts by one, and leaves the same counts in the superblock and descriptors on the disk |
| Ext2Volume.Volume.FreeBlock | kernel/fs/ext2.c:450-468 | exactly that block becomes free, the counts rise by one; block 0 is ignored; the counts stay right exactly if the block was in use |
| Ext2Volume.Volume.AllocInode | kernel/fs/ext2.c:524-572 | fails exactly when no inode is free; otherwise takes the lowest-numbered free inode, and leaves the new counts in the superblock and descriptors on the disk |
| Ext2Volume.Volume.FreeInode | kernel/fs/ext2.c:574-590 | exactly that inode becomes free, the counts rise by one; they stay right exactly if the inode was live |
| Ext2Volume.Volume.Persist | kernel/fs/ext2.c:421-437 | superblock and group descriptors on the disk get the cached free counts, and the volume means what it meant |
| Ext2Volume.Volume.ReadInode | kernel/fs/ext2.c:122-147 | refuses numbers out of range, otherwise returns the inode of that number |
| Ext2Volume.Volume.WriteInode | kernel/fs/ext2.c:332-354 | refuses numbers out of range (also 0, by wrap-around), otherwise changes that inode and nothing else of the volume |
| Ext2Volume.Volume.ReadBlock | kernel/fs/ext2.c:149-163 | block 0 is no block; any other reads as its contents |
| Ext2Volume.Volume.WriteBlock | kernel/fs/ext2.c:165-178 | block 0 is no block; any other changes to the new contents, and nothing else changes |
| FileMethods.GetBlockFromPtr | kernel/fs/ext2.c:181-212 | one or two levels of tables are followed to the entry of the index; a missing table or an index out of range gives 0 |
| FileMethods.BlockLookup | kernel/fs/ext2.c:215-234 | direct, single- and double-indirect places are looked up; beyond them there is nothing |
| FileMethods.FileAllocBlock | kernel/fs/ext2.c:470-519 | the block behind an index, with a fresh zeroed table and a fresh block where they are missing, also when only the table can be had |
| FileMap.FileAllocLookup | kernel/fs/ext2.c:470-519 | if a block is returned the lookup of that index is that block and every other lookup is unchanged; if 0 is returned no lookup changes |
| FileMap.FileAllocGrows | kernel/fs/ext2.c:470-519 | growing a file keeps ownership, everybody's mapped contents and all other inodes' pointers |
| FileMap.StaleInodeOwned | kernel/fs/ext2.c:1316-1333 | when the grown inode is never written back, the inode left on the disk is still consistent |
| FileMethods.ReadBytes | kernel/fs/ext2.c:241-281 | the read loop returns the file's bytes from the offset up to the size or the first hole |
| FileData.ReadEndIsFirstHole | kernel/fs/ext2.c:241-281 | a read ends at the size or at the first unmapped byte, and all bytes before it are mapped |
| FileMethods.WriteBytes | kernel/fs/ext2.c:283-330 | the write loop, block by block with read-modify-write, computes WriteFrom with its short counts and its early size |
| FileData.ChunkWrote | kernel/fs/ext2.c:283-330 | one round stores its bytes, keeps all other mapped bytes and all other files, and keeps ownership; no progress only over an unmapped byte |
| FileMethods.NodeRead | kernel/fs/ext2.c:1305-1314 | node_read returns what reading the inode's bytes returns |
| FileMethods.NodeWriteAt | kernel/fs/ext2.c:1316-1333 | node_write stores the inode again only if the bytes written reach past the old end |
| FileTheorems.WriteReadAgreement | kernel/fs/ext2.c:1305-1333 | if node_write returns d, the file is the old bytes with exactly d bytes replaced or appended, has no hole, and node_read returns those d bytes |
| FileTheorems.WriteInsideIsFull | kernel/fs/ext2.c:283-330 | a write that stays inside the file is never short |
| FullWrites.WriteReaches | kernel/fs/ext2.c:283-330 | the count the write loop returns, for every file, offset and request: up to the first hole inside the file, and past the end as far as one new block goes |
| FullWrites.NodeWriteReaches | kernel/fs/ext2.c:1316-1333 | the same for node_write |
| FullWrites.WriteIsFullWhen | kernel/fs/ext2.c:283-330 | a write to a file without holes is complete if and only if it stays in the file's blocks, or needs one more, does not start at an end inside a block, and a block (and a table) can be had |
| FileTheorems.WriteLeavesOthers | kernel/fs/ext2.c:283-330 | every other live file keeps its inode, its mapping and its bytes |
| FileTheorems.NodeWriteOwned | kernel/fs/ext2.c:1316-1333 | ownership survives complete, short and failing writes |
| FreeMethods.FreeInodeBlocks | kernel/fs/ext2.c:1043-1057 | every block reachable through direct, single and double tables is freed exactly once: the free count rises by their number and exactly their bits are cleared |
| FreeMethods.FreeIndirectChains | kernel/fs/ext2.c:983-1039 | the nested loops free exactly the blocks behind the three table pointers, counted, and clear the pointers |
| Shrink.FreeAllOwned | kernel/fs/ext2.c:1043-1057 | releasing all blocks of an inode takes nothing from anybody else |
| FreeMethods.TruncateFile | kernel/fs/ext2.c:1222-1297 | truncation grows by size only, shrinks to at most twelve blocks or into the single-indirect range, and refuses the rest, in one case only after freeing the upper tables |
| Shrink.TruncateKeeps | kernel/fs/ext2.c:1222-1297 | below the cut every lookup is unchanged, from the cut on it is 0, and the bytes below the new size are preserved |
| Shrink.TruncateFrees | kernel/fs/ext2.c:1222-1297 | exactly the blocks past the cut and all tables become free when at most twelve blocks are kept; otherwise those the single table maps past the cut, and the double and triple tables themselves |
| Shrink.TruncateLosesNone | kernel/fs/ext2.c:1250-1283 | every block past the cut becomes free exactly when at most twelve are kept or the double table mapped none |
| Shrink.RefusedCutDangles | kernel/fs/ext2.c:1250-1272 | a cut refused for want of a single table leaves the inode pointing to a freed block exactly when it had an upper table |
| Shrink.TruncateOwned | kernel/fs/ext2.c:1222-1297 | ownership survives every truncation, shrinking, growing or refused |
| Shrink.TruncateLeavesOthers | kernel/fs/ext2.c:1222-1297 | no other live file loses or changes anything |
| DirRecords.SplitInserts | kernel/fs/ext2.c:640-663 | splitting a record's slack inserts the new record right behind it in the listing and keeps the tiling |
| DirRecords.MergeRemoves | kernel/fs/ext2.c:956-964 | merging a record into its predecessor takes exactly it out of the listing and keeps the tiling |
| DirRecords.TombstoneRemoves | kernel/fs/ext2.c:965-971 | zeroing a record's inode takes exactly it out of the listing and keeps the tiling |
| DirMethods.AddDirEntry | kernel/fs/ext2.c:595-728 | the record walk with its split, direct-append, indirect-append and failing cases computes AddEntry |
| DirOps.AddKeeps | kernel/fs/ext2.c:595-728 | adding an entry, successful or not, keeps ownership, tiling and every other inode |
| DirTheorems.AddInserts | kernel/fs/ext2.c:595-728 | in the split and both append cases the ordered live listing gains exactly the new record, and the directory stays well formed |
| DirTheorems.InsertionLookups | kernel/fs/ext2.c:595-728 | after a successful add of a new name that name is found with its inode, and every other name is found as before |
| DirTheorems.CreatedButHidden | kernel/fs/ext2.c:619-663 | an add into slack reports success, but the name is found exactly when its record ends below the size, which is not raised |
| CellSteps.FirstFileAfterEmptying | kernel/fs/ext2.c:619-663 | create, remove, create in a directory that was empty: all three calls succeed and the second file is not found |
| AppendTheorems.AppendLists | kernel/fs/ext2.c:667-725 | the listing after an append, for every directory: the new record stands where the block count hangs its block, in place of the block there, or nowhere, and the old map shows one block more |
| AppendTheorems.CreatedIsFound | kernel/fs/ext2.c:595-728 | after any successful add the name stands for the new entry if and only if the record ends below the size, or its block hangs before any older record of the name; otherwise for what the append brings to light |
| AppendTheorems.LostAfterRemoval | kernel/fs/ext2.c:595-728 | after the only record of the last block was removed, the next append reports success and the directory lists what it listed |
| DirTheorems.FullTableLoses | kernel/fs/ext2.c:688-725 | with a full indirect table an append reports success and lists nothing new; below that limit the name is listed last |
| EntryListings.AddLists | kernel/fs/ext2.c:595-728 | where the size cuts no record and an append uncovers and replaces none, the ordered listing after a successful add gains exactly the record, or nothing if it does not show, also in directories that are not whole |
| EntryListings.AddedIsFound | kernel/fs/ext2.c:595-728 | and the name is found afterwards exactly when the record shows |
| EntryListings.RoomAddsOnly | kernel/fs/ext2.c:595-728 | whole directories with room are such directories, and there every record shows |
| DirMethods.RemoveDirEntry | kernel/fs/ext2.c:896-979 | the removal walk, which does not skip deleted records, computes RemoveEntry |
| DirRemoval.RemoveIsExact | kernel/fs/ext2.c:896-979 | exactly the named entry leaves the ordered listing in the merge, tombstone and shrink cases; with a deleted record of the name in front nothing leaves; the directory stays well formed unless its last record went |
| DirRemoval.RemoveKeeps | kernel/fs/ext2.c:896-979 | removing an entry, successful or not, keeps ownership, tiling, the allocation map and every other inode |
| DirTheorems.RemovalLookups | kernel/fs/ext2.c:896-979 | after a removal every other name is found as before |
| DirTheorems.SizeAfterRemoval | kernel/fs/ext2.c:953-977 | the size stays when the record is not the last; otherwise it drops by the record length modulo 2^32, which is the record's offset exactly when the record ended at the size |
| EntryListings.RemoveLists | kernel/fs/ext2.c:896-979 | exactly the named entry leaves the ordered listing of any directory, whole or not, whose first record of the name is live and not cut by the size |
| DirScan.LookupEntry | kernel/fs/ext2.c:845-891 | the chunked search finds the first live record of the name, or fails when no live record has it |
| DirScan.NodeReaddir | kernel/fs/ext2.c:1335-1398 | index k yields the k-th live record in order, and past the last one the enumeration stops |
| DirScan.NodeFinddir | kernel/fs/ext2.c:1400-1418 | searching by readdir finds the first live record whose clipped name reads as the name |
| DirScan.SearchesAgree | kernel/fs/ext2.c:1400-1418 | with NUL-free names both searches return the same record or both fail if and only if the name found has at most 63 bytes and no longer name in front begins with it |
| DirScan.SearchesAgreeWhen | kernel/fs/ext2.c:1400-1418 | the same for names with NUL bytes in them: what counts is how a record's name reads in a node |
| DirScan.ShortNamesAgree | kernel/fs/ext2.c:1400-1418 | names of fewer than 63 bytes are looked up alike in every listing |
| DirScan.DirectorySearchesAgree | kernel/fs/ext2.c:1400-1418 | the same exact condition for the inodes that finddir and the lookup answer on a directory, where no name too long for a node shares its inode with a later one of exactly 63 bytes |
| DirScan.LongNameIsMissed | kernel/fs/ext2.c:1400-1418 | a listed longer name is found by the lookup and missed by finddir, which finds it under its first 63 bytes instead |
| FsMethods.CreateFileIn | kernel/fs/ext2.c:733-764 | create_file on the disk computes CreateFile, failing paths included |
| FsMethods.CreateDirIn | kernel/fs/ext2.c:766-837 | create_dir on the disk computes CreateDir, failing paths included |
| FsMethods.RemoveFileIn | kernel/fs/ext2.c:1060-1086 | remove_file on the disk computes RemoveFile |
| FsMethods.DirIsEmpty | kernel/fs/ext2.c:1108-1132 | the chunked emptiness check, which looks at records of twelve bytes or more, decides whether only dot entries are live |
| FsMethods.RemoveDirIn | kernel/fs/ext2.c:1089-1150 | remove_dir on the disk computes RemoveDir |
| FsMethods.RenameIn | kernel/fs/ext2.c:1153-1218 | rename on the disk computes Rename, including the rewritten ".." and link counts |
| FsMethods.MovableStaysReadable | kernel/fs/ext2.c:1153-1218 | between whole directories with room rename can always be carried out: its parents stay legible after the new name is linked |
| FsSteps.CreateDirSound | kernel/fs/ext2.c:766-837 | create_dir, successful or failing, keeps the run invariant |
| FsSteps.RemoveDirSound | kernel/fs/ext2.c:1089-1150 | remove_dir, successful or failing, keeps the run invariant |
| FsRuns.RenameSound | kernel/fs/ext2.c:1153-1218 | rename, successful or failing half way, keeps the run invariant |
| FsRuns.StepSound | kernel/fs/ext2.c:733-1297 | every call on live inodes, successful or failing, keeps the run invariant |
| FsRuns.FreshSound | Makefile:84-87 | a volume with nothing but an empty root directory meets the invariant, so runs can start |
| FsRuns.RunOwned | kernel/fs/ext2.c:595-1297 | in every state of every run of create, write, truncate, remove and rename, what live inodes reach is in use and no metadata, and no block is reached from two places |
| FailedCalls.FailedAddLeaks | kernel/fs/ext2.c:672-704 | a failing add changes no inode; if it failed while appending, the block it took stays in use without an owner, in every other case nothing changed |
| FailedCalls.FailedCreateDirMiscounts | kernel/fs/ext2.c:818-832 | after a failing create_dir the listing of the parent is unchanged and its link count is right exactly if an inode or a block could not be had |
| FailedCalls.CreateDirNeedsTwo | kernel/fs/ext2.c:789-832 | with one free block and a parent that has to grow create_dir fails |
| FailedCalls.FailedCreateFileSame | kernel/fs/ext2.c:749-762 | a failing create_file leaves every directory's listing, parent and link count and every file's inode as they were |
| FailedCalls.FailedRemovalSame | kernel/fs/ext2.c:1060-1150 | a failing remove_file or remove_dir leaves the volume as it was, if its name stands for a live inode |
| FailedCalls.NothingLinkedSame | kernel/fs/ext2.c:1153-1184 | so does, for all listings, a rename that ends before its new name is linked |
| CellSteps.RemoveFileBehindTombstone | kernel/fs/ext2.c:1060-1086 | with a deleted record of the name in front remove_file succeeds, the listing stays, and the inode goes exactly when it had one link |
| Witness.FreshExists | Makefile:84-87 | a volume with an empty root and any number of free blocks up to 80, from which runs can start |
| Witness.ListedWithoutInode | kernel/fs/ext2.c:896-979 | eight successful calls from that volume, after which a name is listed whose inode is free |
| Witness.LinkCountTooHigh | kernel/fs/ext2.c:789-832 | four calls from that volume, the last one a failing create_dir, after which the root's link count is wrong |
| Witness.FreshRootLoses | kernel/fs/ext2.c:619-663 | create, remove, create in the root of any fresh volume loses the second file |
| LinkTheorems.CreateDirLinked | kernel/fs/ext2.c:766-837 | a successful create_dir whose record shows keeps links_count = 2 + number of subdirectories for every directory, its dot names, and its parent listing it |
| LinkTheorems.RemoveDirLinked | kernel/fs/ext2.c:1089-1150 | a successful remove_dir keeps the same bookkeeping, and nobody lists the directory removed |
| LinkTheorems.EmptyIsChildless | kernel/fs/ext2.c:1108-1132 | a directory that passes the emptiness check lists no subdirectory, although the check skips the last bytes |
| RenameLinks.RenameLinked | kernel/fs/ext2.c:1153-1218 | a successful rename, within one parent or between two, keeps the same bookkeeping, and moves exactly the entry renamed |
| RenameLinks.RenameOutcome | kernel/fs/ext2.c:1153-1218 | a rename succeeds exactly when the new name can be linked and the old one is no dot name; failing, it leaves the new name linked if it could be |
| LinkRuns.CreateFileLinked | kernel/fs/ext2.c:733-764 | a successful create_file, found afterwards or not, leaves the bookkeeping of all directories right |
| LinkRuns.RemoveFileLinked | kernel/fs/ext2.c:1060-1086 | a successful remove_file leaves the bookkeeping of all directories right |
| LinkRuns.FreshLinked | Makefile:84-87 | the empty root has the right link count and dot names and is its own parent |
| NameRuns.FreshNamed | Makefile:84-87 | and its names are in order, so orderly runs can start |
| NameRuns.NameStandsFor | kernel/fs/ext2.c:733-1218 | in a volume with its names in order every entry but the dot names stands for a live inode, a directory exactly if it says so |
| NameRuns.DotStandsFor | kernel/fs/ext2.c:791-812 | and the dot names stand for the directory itself and for its parent, which is a live directory |
| NameRuns.NamesDiffer | kernel/fs/ext2.c:733-1218 | and two entries of whatever directories stand for different inodes |
| NameRuns.CreateFileNamed | kernel/fs/ext2.c:733-764 | a successful create_file keeps the names in order, and the new one is found if and only if its record shows |
| NameRuns.CreateDirNamed | kernel/fs/ext2.c:766-837 | after a successful create_dir names and link counts are right if and only if its record shows |
| NameRuns.RemoveFileNamed | kernel/fs/ext2.c:1060-1086 | a successful remove_file keeps the names in order |
| NameRuns.RenameNamed | kernel/fs/ext2.c:1153-1218 | a successful rename keeps the names in order |
| NameRuns.NamedIsEnabled | kernel/fs/ext2.c:733-1297 | with the names in order no call needs a further promise about what its name stands for |
| NameRuns.StepNamed | kernel/fs/ext2.c:733-1297 | every orderly call, successful or failing, keeps the names in order and every root a root |
| NameRuns.OrderlyIsRun | kernel/fs/ext2.c:733-1297 | every orderly run is a run, so whole-run ownership holds for it with nothing assumed about names |
| NameRuns.RunLinked | kernel/fs/ext2.c:733-1297 | in every state of an orderly run link counts, dot names and parents of all directories are right |
| NameRuns.RunNames | kernel/fs/ext2.c:733-1297 | in every state of an orderly run every entry stands for a live inode of its kind, and no inode has two |
| NameRuns.RunRooted | kernel/fs/ext2.c:733-1297 | a directory that is its own parent stays one through every orderly run |
| VolumeTree.FindIsFinddir | kernel/fs/vfs.c:67-72 | a step of the walk over the tree of a volume is finddir on a live directory, and nothing is found elsewhere |
| VolumeTree.FoundStandsFor | kernel/fs/ext2.c:1335-1398 | what finddir finds is handled as a directory exactly if its inode is a live directory, whose parent is then the one searched |
| VolumeTree.TreeIsRight | kernel/fs/ext2.c:1400-1418 | in a volume with its names in order "." leads back, ".." of every child leads to its lister, ".." of the root to the root, and no entry is nameless |
| VolumeTree.RunTreeIsRight | kernel/fs/ext2.c:733-1418 | so it is in every state of an orderly run that starts with a root |
| VolumeTree.RunOpensResolved | kernel/shell/commands.c:441-528 | in every such state a path that opens opens the same inode once normalised, if it is not cut |
| VolumeTree.RunSearchesAgree | kernel/fs/ext2.c:1400-1418 | in every state of an orderly run, on every live directory and for every name, finddir and the lookup answer the same inode or none if and only if the name found has at most 63 bytes and no longer name in front begins with it |
| Paths.CanonicalIdempotent | kernel/shell/commands.c:441-500 | normalising twice is normalising once, for every path |
| Paths.CanonicalResolvesSame | kernel/shell/commands.c:441-500 | a path that resolves in a tree with right dot entries resolves to the same node after normalisation |
| Paths.LongNameIsCut | kernel/shell/commands.c:456-465 | in a tree with right dot entries a path with a name of 48 characters opens one file as it is and another one normalised |
| Paths.DeepNameIsDropped | kernel/shell/commands.c:478-479 | in such a tree a path of 33 names opens a file as it is, and the directory that holds it normalised |
| Paths.CanonicalIsOpenable | kernel/shell/commands.c:441-500 | a normalised path stays printable and its components fit the walk's buffer |
| Paths.OpenResolved | kernel/shell/commands.c:502-528 | an absolute path handed to a command is opened normalised, and to the node it has unnormalised |
| Paths.OpenEitherWay | kernel/shell/commands.c:502-528 | vfs_open_node on the path and on the resolved path give the same node whenever the first gives one |
| Paths.Canonicalize | kernel/shell/commands.c:441-500 | the loops compute the normal form, and a path of at most 254 characters never outgrows the buffers |
| Paths.TrimRight | kernel/shell/commands.c:433-439 | all trailing occurrences of the character go, and nothing else |
| Paths.NextComponent | kernel/fs/vfs.c:28-38 | exactly the first component is copied, and the rest of the path keeps all others |
| Paths.FindParent | kernel/fs/vfs.c:75-106 | the node reached by walking all components but the last, with the last as leaf |
| Paths.OpenNode | kernel/fs/vfs.c:204-219 | opening a path is walking its components from the root; an empty path fails |
| Frames.BitsDetermine | include/memory.h:25-38 | a word is determined by its bits |
| Frames.FrameSet | include/memory.h:25-38 | mmap_set and mmap_unset change exactly the one frame's bit |
| Frames.InitialFrames | kernel/mm/pmm.c:11-23 | after pm_init exactly the first 1024 frames are taken and the counter agrees |
| Frames.FrameMap.FirstFree | kernel/mm/pmm.c:25-39 | the lowest free frame is found although full words are skipped; none is found only if none is free |
| Frames.FrameMap.Alloc | kernel/mm/pmm.c:90-106 | returns 0 exactly when no frame is free, otherwise takes the lowest one, and counts it |
| Frames.FrameMap.Free | kernel/mm/pmm.c:108-114 | exactly that frame's bit is cleared and the counter lowered; they agree afterwards exactly if the frame was taken and is one that is scanned |
| VirtualHeap.SetFrame | include/memory.h:106-109 | the frame bits become the address and the present bit stays |
| VirtualHeap.FlipPresent | include/memory.h:96-99 | the exclusive or flips the present bit and keeps the frame |
| VirtualHeap.Memory.InitTables | kernel/mm/vmm.c:18-40 | afterwards exactly the first 8 MiB are mapped, the first 4 MiB one to one, and 1024 more frames are used |
| VirtualHeap.Memory.FindFree | kernel/mm/vmm.c:105-138 | the lowest start of n consecutive unmapped pages, also across page tables; 0 exactly when there is no such run |
| VirtualHeap.Memory.MapPage | kernel/mm/vmm.c:67-89 | one page maps to the frame, every other entry is unchanged |
| VirtualHeap.Memory.FreePage | kernel/mm/vmm.c:58-65 | the page is unmapped and its frame given back |
| VirtualHeap.Memory.Vmalloc | kernel/mm/heap.c:16-40 | fails exactly when there is no run of pages; otherwise the lowest run gets frames nobody had, as far as there are any, and frame 0 after that; the heap, headers included, stays in order exactly if there were enough |
| VirtualHeap.Memory.Vfree | kernel/mm/heap.c:11-14 | exactly the pages of the allocation are unmapped and exactly their frames given back |
| VirtualHeap.Memory.Vsize | kernel/mm/heap.c:6-9 | of every live allocation the size it was asked for, whatever was allocated and freed since |
| VirtualHeap.Memory.LiveAllocationsApart | kernel/mm/heap.c:16-40 | two live allocations share no page and no frame |
| VirtualHeap.GivenReturned | kernel/mm/heap.c:11-40 | giving pages and returning them restores the frame bitmap and the present bits |
| VirtualHeap.Memory.VmallocVfree | kernel/mm/heap.c:11-40 | vfree(vmalloc(s)) restores present bits, frame bitmap and counter |
| Scheduler.NextRunnableIsNearest | kernel/task/sched.c:23-34 | the slot picked is the runnable one nearest ahead of the round-robin pointer |
| Scheduler.PickGood | kernel/task/sched.c:23-45 | a pick is a runnable task whenever there is one, and the current task otherwise |
| Scheduler.StepGood | kernel/task/sched.c:87-197 | every step keeps exactly one running task, the current one, and the kernel task live |
| Scheduler.StepFramed | kernel/task/sched.c:117-197 | a switch hands out the frame saved when that task last lost the CPU, or its initial frame |
| Scheduler.RunGood | kernel/task/sched.c:65-197 | over every run from sched_init: one running task, the kernel task never a zombie, no exit of a user task halts, every switch resumes where the task was left |
| Scheduler.ExitNeverHalts | kernel/task/sched.c:170-197 | an exiting user task always hands over to another runnable task |
| Scheduler.HaltsWhenAlone | kernel/task/sched.c:180-187 | an exit reaches the halt loop exactly when no task is runnable |
| Scheduler.PickProgress | kernel/task/sched.c:23-45 | each pick dispatches a waiting task or brings it strictly nearer, measured by its distance from the pointer |
| Scheduler.EveryoneIsServed | kernel/task/sched.c:23-45 | a runnable task gets the CPU within as many picks as there are slots |
| Scheduler.Cpu.Init | kernel/task/sched.c:65-85 | sched_init reaches the initial state of runs |
| Scheduler.Cpu.PickSlot | kernel/task/sched.c:23-45 | the two scans compute Pick and move only the round-robin pointer |
| Scheduler.Cpu.AddTask | kernel/task/sched.c:87-115 | the lowest empty or zombie slot becomes runnable with its initial frame; without one nothing changes |
| Scheduler.Cpu.TimerTick | kernel/task/sched.c:117-145 | sched_tick computes the tick step, and before sched_init only hands the frame back |
| Scheduler.Cpu.YieldCpu | kernel/task/sched.c:147-168 | sched_yield computes the yield step |
| Scheduler.Cpu.ExitTask | kernel/task/sched.c:170-197 | sched_exit computes the exit step, and a user task never halts the machine |
| NanoEditor.InsertRefines | kernel/shell/editors.c:53-67 | a character put into a line is put into the flat text at the cursor |
| NanoEditor.DeleteRefines | kernel/shell/editors.c:74-80 | a character taken out of a line is taken out of the flat text before the cursor |
| NanoEditor.JoinRefines | kernel/shell/editors.c:81-105 | joining two lines takes the newline before the cursor out of the flat text |
| NanoEditor.SplitRefines | kernel/shell/editors.c:108-138 | splitting a line puts a newline into the flat text |
| NanoEditor.MergeKeepsAll | kernel/shell/editors.c:81-105 | a merge deletes just the newline if and only if both lines fit one row |
| NanoEditor.Nano.InsertChar | kernel/shell/editors.c:53-67 | on the NUL-terminated table: the flat text gains the character at the cursor, unless the line is full |
| NanoEditor.Nano.Backspace | kernel/shell/editors.c:69-106 | the flat text loses the character before the cursor; at a line start the lines merge as far as they fit |
| NanoEditor.Nano.Newline | kernel/shell/editors.c:108-138 | the flat text gains a newline at the cursor, unless the table is full |
| NanoEditor.Nano.ClampCursor | kernel/shell/editors.c:306-326 | the cursor comes back into its line and the window shows it |
| Checksum.FoldedIsModulo | kernel/net/network.c:449-450 | folding keeps the sum modulo 65535 and gives 0 for 0 only |
| Checksum.OnesComplement | kernel/net/network.c:824-829 | the 32-bit fold loop ends and computes the complement of the folded sum |
| Checksum.IpChecksum | kernel/net/network.c:437-452 | for even and odd lengths below 2^17 the loop computes the checksum of the bytes without overflow |
| Checksum.TcpChecksum | kernel/net/network.c:831-849 | the checksum over pseudo-header and segment |
| Checksum.StoredChecksOut | kernel/net/network.c:482-484 | a computed checksum stored big-endian in a zeroed field at an even offset makes the recomputation 0, whatever the data and the pseudo-header |
| Checksum.ChangeIsSeen | kernel/net/network.c:437-452 | a changed word changes the checksum, unless the two forms of zero are swapped |
| Checksum.IpHeader | kernel/net/network.c:471-484 | the header ipv4_send builds checks out, and holds length, protocol and addresses |
| Checksum.SealSegment | kernel/net/network.c:851-873 | a segment tcp_send_seg completes checks out at the receiver, and only the checksum field was changed |

## Left out

- RenameLinks.RenameLinked: assumes that a directory that changes parents is neither of the two parents; moving a directory below itself is not checked by the code and breaks the tree.
- FsRuns.RunOwned: assumes of each removal and rename that its entry stands for a live inode; runs do not keep that (`ListedWithoutInode`), orderly runs do. Covers file writes and truncations only on inodes that are no directories and not reserved, as the callers of the file system issue them.
- FsSteps.RemoveDirSound: makes the same assumption about its entry; StepNamed does not.
- FsRuns.RenameSound: makes the same assumption about its entry; StepNamed does not.
- FsRuns.StepSound: makes the same assumption about its entry; StepNamed does not.
- NameRuns.RunNames: covers adds and removals that change the listing by their own record, renames between whole directories (of whole directories, if they change parents), and failing calls that link nothing. Of the others FailedCreateDirMiscounts, CreateDirNamed, RemoveFileBehindTombstone and RenameOutcome say what they break, AppendLists what an append uncovers.
- NameRuns.RunLinked: covers the same calls.
- VolumeTree.RunSearchesAgree: covers the same calls.
- EntryListings.AddLists: does not give the listing where an append uncovers or replaces records; AppendLists does.
- EntryListings.RemoveLists: does not cover a record that the size cuts in two, for which SizeAfterRemoval gives the new size.
- Shrink.TruncateOwned: does not cover reserved inodes, for which RefusedCutDangles gives the exact condition.
- FullWrites.WriteIsFullWhen: assumes a file without holes and without blocks past its end; WriteReaches gives the count for every file.
- FileMethods.NodeRead: does not model inodes that are not live, whose pointers may lead anywhere.
- DirScan.LookupEntry: assumes that no live name is cut off by the directory's size, where the code would compare leftover buffer bytes; whole directories always satisfy it.
- DirScan.NodeReaddir: makes the same assumption about leftover buffer bytes.
- DirScan.NodeFinddir: makes the same assumption about leftover buffer bytes.
- DirMethods.RemoveDirEntry: makes the same assumption about leftover buffer bytes.
- FsMethods.DirIsEmpty: makes the same assumption about leftover buffer bytes.
- FsMethods.RemoveFileIn: makes the same assumption about leftover buffer bytes.
- FsMethods.RemoveDirIn: makes the same assumption about leftover buffer bytes.
- FsMethods.RenameIn: makes the same assumption, also after the new name is linked; MovableStaysReadable proves it for whole directories with room.
- DirMethods.AddDirEntry: assumes fewer blocks than the 1024 entries of the code's table buffer; beyond it the code writes outside the buffer.
- FsMethods.CreateFileIn: makes the same assumption about the parent.
- FsMethods.CreateDirIn: makes the same assumption about the parent.
- Ext2Volume.Volume.FreeBlock: does not cover block numbers of metadata, which the code would free without a check.
- Ext2Volume.Volume.FreeInode: assumes a number in range; beyond it the code indexes past its descriptors.
- VirtualHeap.Memory.Vmalloc: does not model that pages sharing frame 0 also share its bytes.
- VirtualHeap.Memory.FreePage: covers mapped pages whose frame is taken and not 0, as every page of an allocation in order has.
- VirtualHeap.Memory.VmallocVfree: assumes enough free frames, without which the heap is not in order in between.
- Paths.CanonicalResolvesSame: covers paths whose names fit 47 characters and whose stack fits 32 names; beyond them LongNameIsCut and DeepNameIsDropped.
- Paths.OpenResolved: covers absolute paths; relative ones are joined to the working directory first.
- Scheduler.RunGood: covers exits of user tasks; for the kernel task HaltsWhenAlone says when an exit halts.
- The counters on the disk after a block or inode was freed: the code writes them back with the next allocation only.
- The exact value of inode.blocks for files, which the code counts inconsistently; for directories it is modelled because it is the append index.
- Hard links, sparse files and triple-indirect blocks, which the code does not support.
- Removing whole trees (vfs_rmtree), which skips entries while it deletes.
- Multi-page physical allocation and kmalloc, whose run search skips full words without resetting its run.
- Mount tables, file descriptors, the rotating node buffers and the node interface above them: inode numbers stand for nodes.
- Task names, thread stacks' contents and the TSS write; saved stack pointers stand for frames.
- The copies of the editor routines in vi, and loading, saving and drawing in nano.
- Page directory entries that are absent: after initialisation all 1024 are present.
- Disk failures, ports, interrupts, the network stack around the checksums, the shell commands around path normalisation.
