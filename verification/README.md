# A verified model of the kernel's filesystem, frames, keyboard and console

The repository is a small 32-bit x86 kernel. This project models the four parts of it that keep state, in the form
the source gives them (objects with fields, arrays written in place, loops), and proves what each of them keeps over
every run.

**EXT2 (`src/filesystem/ext2.c` over the RAM disk of `src/external/external-inserter.c`).** Three layers:

1. *Bytes.* `RamDisks.RamDisk` is the image array; `Ext2Driver.Ext2` holds the cached superblock and descriptor, and
   its methods are the functions of `ext2.c` with their loops, down to bits, little-endian words and record headers.
2. *Volume.* `Volumes.Vol` is what the bytes say: the set bits of both bitmaps, and under each inode number a
   directory (its blocks and their record chains) or a file (its size, blocks, indirect table and data).
   `Coupling.Repr` says when a disk holds a volume; `DiskFacts.DiskDetermines` proves that it holds at most one.
   Every method proves that the new volume and the answer are those of a function in `Operations`.
3. *Tree.* `Trees.Tree` is the plain namespace: directories with a parent and a map from names to numbers, files with
   bytes. `Refinement.FreshRunRefines` proves that every run on a fresh volume answers as the tree does, and
   `Syscalls.BootAndServe` carries that down to the driver and its bytes.

`Operations.Inv` is the invariant that no line of the source states: who owns which block, that records tile every
directory block, that names are distinct, that every entry tells the kind of its object, that the counters are exact,
and that the namespace is a tree. It holds
after every operation, also after a write that runs out of blocks or inodes or cannot add its entry.

Two things one might expect of `write` are false of the code, and the model says exactly when. A write that answers 0
need not have stored all of its data: the loops of `src/filesystem/ext2.c:626-668` stop when no block is left
(`Space.KeptWhole` has the exact condition, `Shortage.ShortWrite` an input). A write that answers -1 need not leave the
volume as it was: the object is stored before its entry is added (`Space.WriteAnswers`, `Shortage.LeakingWrite`).
No later operation brings such an object back (`Leaks.RunDrifts`). `Accounts` therefore refines runs without room too, to
a machine that knows the tree, the lengths of the directory records (`Pages`) and the blocks held, and computes every
answer from them.

**Page frames (`src/memory/paging.c`).** One frame map shared by any number of page directories. Ownership, isolation
and conservation over all runs, and when the admission check tells the truth: exactly for amounts up to
2^32 - 2^22 bytes, because the rounding in `paging_allocate_check` wraps beyond that.

**Keyboard (`src/driver/keyboard.c`).** The getter is split into the steps between which an interrupt can fire
(vector 0x80 is a trap gate, so interrupts stay on); a run is any interleaving of interrupts, toggles and steps.

**Console (`src/cpu/interrupt.c`).** PUTCHAR and PUTS over 2000 cells, proved to be the window of an unbounded page.

Sizes are the compiled ones. `GROUPS_COUNT` is not parenthesised in `src/header/filesystem/ext2.h:27-33`, so
`BLOCKS_PER_GROUP` comes out as 256 and `TOTAL_BLOCKS` as 2048; there are 64 inodes in group 0 and 512 in all.
The comment of `paging_allocate_user_page_frame` promises a physical address; the code returns a truth value, and so
does the model. The header's colour comment holds only for characters below 0x80: `char` is signed on x86,
so the sign extension of a larger one overwrites the attribute byte (`Console.CellOf`).

Names in the model follow the source (`AllocateNode` is `allocate_node`). Where the source repeats a loop or a few
lines in place, the model has one helper method (`StoreRun`, `FlushCounters`, `Scroll`, `Backspace`). Ghost parameters
carry what a loop is scanning. The precondition of the operations says what the code needs of its callers: the parent of
a write is an attached directory and its name has 1 to 255 bytes (the names of `delete` are not the dots); a new
directory finds a block free; a file's size leaves room for the rounding in 32 bits.

## Model

| member | source | states |
|---|---|---|
| `Syscalls.BootAndServe` | src/kernel.c:59 | From the bytes of a disk without the signature: boot formats it, and every request of any legal sequence then leaves with its caller (code, buffer, size, kind, and number and kind of each name listed) what the run answers; that run is the one of the tree with its block accounts and, with room, of a plain tree that starts with a bare root |
| `Syscalls.Session` | src/cpu/interrupt.c:71-226 | The same from any running system: each outcome has the code of its answer, the bytes of a file or the entries of a directory at the front of a buffer otherwise as the request found it, and the kind and size of a stat, of directories too |
| `Syscalls.Serve` | src/cpu/interrupt.c:71-226 | One read, write, delete, stat or directory read: volume, code, buffer, and size and kind as stat stores them; of a directory the raw bytes of its blocks |
| `Syscalls.ToldAt` | src/cpu/interrupt.c:71-226 | Outcome i of a session is answer i over the buffer that request i found |
| `Accounts.RunAccounts` | src/filesystem/ext2.c:512-784 | Every legal run, with room or without, gives answer by answer what a machine computes that knows only a tree, the name and length of every directory record, the blocks each file holds and the free count; it decides by arithmetic on those lengths whether an entry is split from a record, its directory grows, or the object stays without a name |
| `Accounts.StepAccounts` | src/filesystem/ext2.c:512-784 | One operation is one step of that machine, sizes of directories and entries listed included |
| `Accounts.StoreSteps` | src/filesystem/ext2.c:621-709 | Storing a new object: the first record whose length, less what its own name needs, holds what the new name needs is split; with none the directory grows if a block beyond those of the object is left and it has fewer than 12; else the answer is -1 and the object stays |
| `Accounts.DeleteSteps` | src/filesystem/ext2.c:738-765 | A delete gives back exactly the blocks the account says the node holds; its record is absorbed by the one before it in its block, or goes out of use at the head of one |
| `Accounts.StatSteps` | src/filesystem/ext2.c:770-784 | stat of a directory tells 512 bytes for each block it holds, of a file its size |
| `Accounts.ListSteps` | src/filesystem/ext2.c:512-541 | Reading a directory copies as many bytes as fit of the blocks it holds; in the whole blocks among them are exactly the names in use there, each with the number the tree has and type 2 if that is a directory, 1 if it is a file, and the two dots with type 2 |
| `Accounts.DotDotIsDirectory` | src/filesystem/ext2.c:683-695 | In an attached directory what `..` leads to is a directory indeed, as its type byte says |
| `Accounts.FreshAccount` | src/filesystem/ext2.c:314-398 | A fresh disk has a bare root of one block with records of 12 and 500 bytes, and 234 blocks free |
| `Packing.FortyNamesFit` | src/filesystem/ext2.c:236-266 | On a fresh disk up to 53 different names of at most four bytes can be created under the root, each answered with 0, and the root then has one block, and stat of it says 512, if and only if there are at most 40 |
| `Pages.InsertIsPut` | src/filesystem/ext2.c:236-263 | Where first fit puts a record, and the two lengths it leaves, are those of the arithmetic on names and lengths |
| `Pages.RemoveFromIsDrop` | src/filesystem/ext2.c:277-299 | The same for absorbing a record into the one before it, or putting the head out of use |
| `Pages.AnySpareIs` | src/filesystem/ext2.c:240-246 | A directory has a record with room exactly when some length, less 8 and its name in multiples of 4, is at least 8 and the new name in multiples of 4 |
| `Invariants.WriteKinds` | src/filesystem/ext2.c:701-706 | Every answer of a write leaves each live entry, in every directory, with type byte 2 if its inode is a directory and 1 if it is a file |
| `Invariants.DeleteKinds` | src/filesystem/ext2.c:738-765 | So does every answer of a delete: no entry is left that leads to the inode freed |
| `Leaks.RunAttached` | src/filesystem/ext2.c:599-765 | After a legal run from a volume where every object is attached, every object is attached if and only if no write of the run leaked one |
| `Leaks.RunDrifts` | src/filesystem/ext2.c:599-765 | An object that nothing names stays so through every legal run, unchanged, with its blocks and its inode still marked used |
| `Leaks.StepAttached` | src/filesystem/ext2.c:599-765 | One step keeps everything attached exactly when it is no leaking write |
| `Leaks.WriteAttaches` | src/filesystem/ext2.c:599-709 | A write attaches what was attached, and the new object exactly when it answers 0 |
| `Leaks.FreshAttached` | src/filesystem/ext2.c:314-398 | On a fresh disk every object is attached |
| `Undo.CreateThenDelete` | src/filesystem/ext2.c:599-765 | The driver's write and then its delete: the volume is as before or the directory keeps one dead record, and in the first case both bitmap blocks and all 16 blocks of the inode table are the same bytes, as are the superblock and descriptor structs |
| `Refinement.FreshRunRefines` | src/filesystem/ext2.c:512-784 | From a fresh format, every legal run of write, delete, read, stat and directory reads with room enough gives, answer by answer, what the plain tree gives (it knows neither sizes of directories nor what fits a buffer), and ends in the tree's state |
| `Refinement.FreshAcceptsWrite` | src/filesystem/ext2.c:314-398 | On a fresh disk any file of up to 140 blocks, and any directory, can be created under the root: the request is legal, has room, and answers 0 |
| `Refinement.RunRefines` | src/filesystem/ext2.c:543-784 | The same from any sound volume |
| `Refinement.RunKeepsInv` | src/filesystem/ext2.c:599-765 | Every reachable volume, with or without room, keeps ownership, tiling, distinct names, exact bitmaps, the type byte of every entry, and tree shape |
| `Refinement.LegalExtends` | src/filesystem/ext2.c:599-765 | A legal run can always be continued by a legal request |
| `Refinement.StepRefines` | src/filesystem/ext2.c:543-784 | One operation does to the tree, and answers, what the tree's operation does if and only if it is no write about to store something without room for all of it and for its entry |
| `Refinement.StepKeepsInv` | src/filesystem/ext2.c:599-765 | One operation, whatever it answers, keeps the invariant |
| `Refinement.WriteRefines` | src/filesystem/ext2.c:599-709 | Write attaches one node with all of its data under the lowest free inode number, or answers 1, 2 or -1, as the tree does, if and only if there is room |
| `Refinement.DeleteRefines` | src/filesystem/ext2.c:738-765 | Delete detaches exactly the named node, or answers 1, 2, 3 or -1 and changes nothing, as the tree does |
| `Refinement.ReadRefines` | src/filesystem/ext2.c:543-597 | Read answers and copies what the tree's read does |
| `Refinement.StatRefines` | src/filesystem/ext2.c:770-784 | Stat answers what the tree's stat does, and the size of a directory is in `Accounts.StatSteps` |
| `Refinement.LookupMatches` | src/filesystem/ext2.c:131-157 | Finding a name in a directory, dots included, is finding it in the tree |
| `Refinement.DotDotReachesRoot` | src/filesystem/ext2.c:683-695 | `.` names the directory itself, and from every attached directory finitely many `..` lead to inode 2 |
| `Refinement.FreshMatches` | src/filesystem/ext2.c:415-442 | The inode number handed out is the lowest from 12 to 64 that no node has, 0 when they all have one |
| `Space.WriteAnswers` | src/filesystem/ext2.c:599-709 | Each answer of write, if and only if: 2 for parent 0, 1 for a name in use, 0 when an inode is left and some record is long enough for its own name and the new one, or a block beyond those the object wants is left in a directory below 12 blocks, -1 without change when no inode is left, -1 with an object nobody names otherwise |
| `Space.NamingCount` | src/filesystem/ext2.c:210-266 | Adding the new entry succeeds exactly in the case just said, in terms of the free count before the write |
| `Space.KeptWhole` | src/filesystem/ext2.c:621-671 | How many bytes a write keeps, as a function of length and free count; it keeps them all if and only if they fit 140 blocks and those blocks, and the table's, are free |
| `Space.NewFileCount` | src/filesystem/ext2.c:621-671 | A file takes the smaller of the blocks it wants and the blocks free; the thirteenth holds the table |
| `Space.AllocManyCount` | src/filesystem/ext2.c:159-187 | n allocations in a row give the smaller of n and the number of clear bits, all distinct and free |
| `Space.FullCard` | src/filesystem/ext2.c:159-187 | No block is left exactly when 256 bits are set |
| `Space.InodesFull` | src/filesystem/ext2.c:415-442 | No inode is left exactly when 64 bits are set |
| `Shortage.NearlyFullIsScarce` | src/filesystem/ext2.c:599-709 | One file of 140 blocks on a fresh disk leaves 93 blocks free and 224 bytes of slack in the root |
| `Shortage.ShortWrite` | src/filesystem/ext2.c:621-671 | There, a write of 100 blocks under a one-byte name answers 0; stat says 51200 bytes, read gives the first 47104 |
| `Shortage.LeakingWrite` | src/filesystem/ext2.c:701-706 | There, the same write under a name of 255 bytes answers -1, and yet an inode and all 93 blocks are gone and nothing names them |
| `RoundTrip.WriteThenRead` | src/filesystem/ext2.c:555-671 | After a write that answers 0, read with room n gives the first min(n, kept) bytes of the data, where kept is a function of length and free count; all of the data is kept if and only if the whole file found room; stat gives the full length |
| `RoundTrip.WriteThenLookup` | src/filesystem/ext2.c:599-709 | After a write that answers 0 the name leads to the new inode, which holds the new object |
| `RoundTrip.WriteFrame` | src/filesystem/ext2.c:599-709 | No answer of write changes another object, or the meaning of another name |
| `RoundTrip.DeleteFrame` | src/filesystem/ext2.c:738-765 | Delete changes no object but parent and target and no other name; on success the name and the object are gone |
| `RoundTrip.WriteThenDelete` | src/filesystem/ext2.c:599-765 | Deleting what was just written restores both bitmaps, every inode and every chain, except that a directory that grew keeps one block with one dead record |
| `RoundTrip.InsertThenRemove` | src/filesystem/ext2.c:246-292 | Removing the entry just split into slack restores every record of every chain |
| `RoundTrip.GrowThenRemove` | src/filesystem/ext2.c:219-292 | Removing the entry of a block the directory grew by leaves that block with one dead record |
| `RoundTrip.DeleteFrees` | src/filesystem/ext2.c:444-489 | A successful delete raises the free block count by exactly the inode's `i_blocks` |
| `RoundTrip.WriteTakes` | src/filesystem/ext2.c:621-709 | A successful write lowers it by exactly the blocks of the object, and one more if the directory grew |
| `RoundTrip.ReplaceDeletes` | src/external/external-inserter.c:126-132 | When write answers 1, delete succeeds exactly if the name is no directory, and the write may be repeated |
| `RoundTrip.ReplaceFrame` | src/external/external-inserter.c:123-132 | Replacing a file leaves every other object and name as before |
| `RoundTrip.ReplaceRead` | src/external/external-inserter.c:134-151 | After a replacement read gives the new bytes, all of them if and only if they found room once the old file was gone |
| `RoundTrip.ReplaceCount` | src/external/external-inserter.c:123-132 | A replacement changes the free count by the difference of the two footprints, less one if the directory grew |
| `Invariants.WriteEffect` | src/filesystem/ext2.c:599-709 | What each answer of write means: 2 for parent 0, 1 for a name in use, 0 for one new node, -1 for no change if the inode table is full and else for one object nobody names |
| `Invariants.WriteKeepsInv` | src/filesystem/ext2.c:599-709 | Write keeps the invariant on every answer, running out included |
| `Invariants.DeleteEffect` | src/filesystem/ext2.c:738-765 | The answers of delete; any answer but 0 changes nothing, and 0 removes exactly one childless node |
| `Invariants.DeleteKeepsInv` | src/filesystem/ext2.c:738-765 | Delete keeps the invariant on every answer |
| `Invariants.AddEntryOK` | src/filesystem/ext2.c:210-266 | Adding an entry adds exactly one name to one directory and keeps ownership and tiling, or changes nothing |
| `Invariants.RemoveEntryOK` | src/filesystem/ext2.c:268-302 | Removing an entry removes exactly that name and keeps ownership and tiling |
| `Invariants.DiscardOK` | src/filesystem/ext2.c:444-489 | Freeing an inode with its blocks keeps ownership exact |
| `Invariants.DiscardSized` | src/filesystem/ext2.c:444-489 | Blocks 0 to 21 and inodes 1 to 11 are never freed |
| `Invariants.EmptyNode` | src/filesystem/ext2.c:711-736 | The emptiness scan says true exactly when the directory has no child |
| `Invariants.DotsInKids` | src/filesystem/ext2.c:683-695 | `.` leads to the directory and `..` to its parent, however the directory has changed since |
| `Invariants.NewFileBytes` | src/filesystem/ext2.c:621-671 | The blocks a file write fills read back as a prefix of the data |
| `Operations.LookupTarget` | src/filesystem/ext2.c:131-157 | A live name other than the dots leads to an allocated inode above 11 that is not its own directory |
| `Trees.AttachWf` | src/filesystem/ext2.c:701-708 | Naming a new node keeps the tree a tree |
| `Trees.LeakWf` | src/filesystem/ext2.c:701-706 | So does an object that could not be named |
| `Trees.DetachWf` | src/filesystem/ext2.c:751-762 | So does removing a childless node |
| `Trees.DetachUp` | src/filesystem/ext2.c:751-762 | No path of `..` from another attached directory goes through the node removed |
| `Trees.ParentAttached` | src/filesystem/ext2.c:683-708 | The parent of an attached directory is an attached directory that names it |
| `DiskFacts.BlockOwnership` | src/filesystem/ext2.c:159-208 | On the disk, a bitmap bit from 22 to 255 is set exactly when a pointer slot (direct, table, or table entry) of an allocated inode holds that block |
| `DiskFacts.HeldIsUsed` | src/filesystem/ext2.c:159-208 | A block in any slot is marked and lies in 21 to 255; block 21 is held only by the root |
| `DiskFacts.SoleHolder` | src/filesystem/ext2.c:159-208 | No block sits in two slots, of one inode or of two |
| `DiskFacts.CountersExact` | src/filesystem/ext2.c:173-206 | On the disk, the group's free counts equal the clear bits of its bitmaps and the superblock's differ from them by the constants of the seven other groups |
| `DiskFacts.AllocationFails` | src/filesystem/ext2.c:159-187 | Allocating a block or an inode fails exactly when no bit of the range is clear |
| `DiskFacts.DiskDetermines` | src/filesystem/ext2.c:399-410 | The bytes of a disk hold at most one volume |
| `DiskFacts.MetadataDetermined` | src/filesystem/ext2.c:314-366 | The volume determines the bytes of both bitmap blocks (given the bits past the group) and of the inode table |
| `RawBytes.HeaderFields` | src/filesystem/ext2.c:321-349 | Superblock and descriptor of any reachable disk, field by field at their byte offsets: totals, free counts, magic, sizes, places |
| `RawBytes.InodeFields` | src/filesystem/ext2.c:81-129 | The record of an inode at its byte offset: mode, size, links, blocks and the pointers, as the object has them |
| `RawBytes.StoredBytes` | src/filesystem/ext2.c:633-641 | Block k of a new file holds 512 bytes of the data, and zeros past its end |
| `RawBytes.SignatureBytes` | src/filesystem/ext2.c:33-36 | The boot block reads RENDANGOS FS v1., zeros, Ok |
| `RawBytes.BitValues` | src/header/stdlib/utils.h:5-27 | Bit k of a bitmap byte is worth 2 to the k |
| `DiskFacts.ListingDecodes` | src/filesystem/ext2.c:512-541 | A reader that walks the copied bytes by `rec_len` finds, for any buffer size, exactly the records of the whole blocks copied: each live name with the number of its inode and type 2 exactly for a directory, and with room for all blocks exactly the names of the directory |
| `Ext2Driver.Ext2.Write` | src/filesystem/ext2.c:599-709 | Answer and new volume are those of `Operations.Write`, the disk holds that volume, and caches and invariant are kept; -1 and no change before initialisation |
| `Ext2Driver.Ext2.Delete` | src/filesystem/ext2.c:738-765 | The same for `Operations.Delete` |
| `Ext2Driver.Ext2.Read` | src/filesystem/ext2.c:543-597 | Answer and copied bytes are those of `Operations.Read`; the rest of the buffer and the volume are untouched |
| `Ext2Driver.Ext2.Stat` | src/filesystem/ext2.c:770-784 | Answer, size and kind are those of `Operations.Stat` |
| `Ext2Driver.Ext2.ReadDirectory` | src/filesystem/ext2.c:512-541 | Copies the first bytes of the directory's blocks, as many as fit, and nothing else |
| `Ext2Driver.Ext2.CreateExt2` | src/filesystem/ext2.c:314-398 | Formatting leaves a disk that holds the fresh volume |
| `Ext2Driver.Ext2.Initialize` | src/filesystem/ext2.c:399-410 | Without the signature: the fresh volume. With it: no block is rewritten, the caches are the structs on the disk, the driver starts exactly if bytes 56 and 57 of block 1 are 0x53 and 0xEF, and a sound volume on the disk is the volume then |
| `Ext2Driver.Remount` | src/filesystem/ext2.c:399-410 | Initialising again from the disk of a running system restores the same caches and volume and writes nothing |
| `Ext2Driver.Ext2.FindEntryInDir` | src/filesystem/ext2.c:131-157 | The scan over up to 12 blocks finds what the directory, read as a map, holds under the name |
| `Ext2Driver.Ext2.AddEntryToDir` | src/filesystem/ext2.c:210-266 | First fit over all blocks, or growth by one block, as `Operations.AddEntry` says |
| `Ext2Driver.Ext2.RemoveEntryFromDir` | src/filesystem/ext2.c:268-302 | Merge or kill of the first live record of the name, as `Operations.RemoveEntry` says; -1 when there is none |
| `Ext2Driver.Ext2.IsDirectoryEmpty` | src/filesystem/ext2.c:711-736 | True exactly when the inode is no directory or every record past the dots is dead |
| `Ext2Driver.Ext2.AllocateBlock` | src/filesystem/ext2.c:159-187 | Hands out the lowest clear bit, or 0; bitmap, counters and disk move together |
| `Ext2Driver.Ext2.DeallocateSingleBlock` | src/filesystem/ext2.c:189-208 | Clears one bit and counts it once; nothing for block 0 or a bit already clear |
| `Ext2Driver.Ext2.AllocateNode` | src/filesystem/ext2.c:415-442 | Hands out the lowest free inode number, or 0 |
| `Ext2Driver.Ext2.DeallocateNode` | src/filesystem/ext2.c:444-489 | Frees the inode, its direct and indirect blocks and its table, and nothing else; nothing for inode 0 or before initialisation |
| `Ext2Driver.Ext2.StoreFile` | src/filesystem/ext2.c:621-671 | The allocation and copy loops leave the file that `Volumes.NewFile` describes, and its inode |
| `Ext2Driver.Ext2.StoreDir` | src/filesystem/ext2.c:673-699 | A new directory's block and inode |
| `Ext2Driver.Ext2.ReadInode` | src/filesystem/ext2.c:95-111 | Decodes the record of the inode's object, zeros if it has none; false for 0 |
| `Ext2Driver.Ext2.WriteInode` | src/filesystem/ext2.c:113-129 | Rewrites one slot of one table block; nothing for inode 0 |
| `Ext2Driver.FirstClearBit` | src/filesystem/ext2.c:168-169 | The scan of both allocators finds the first clear bit of the range |
| `DirectoryBlocks.FindInBlock` | src/filesystem/ext2.c:141-154 | The byte scan of one block finds the first live record of the name and stays in bounds |
| `DirectoryBlocks.AddToBlock` | src/filesystem/ext2.c:236-263 | The byte-level split of the first record with room leaves a tiled block holding the split chain; it happens exactly if some record is long enough for its own name and the new one |
| `DirectoryBlocks.RemoveInBlock` | src/filesystem/ext2.c:277-299 | The byte-level merge or kill leaves a tiled block without the first live record of the name |
| `DirectoryBlocks.AllDeadFrom` | src/filesystem/ext2.c:722-733 | The scan says whether every record from an offset on is dead |
| `DirectoryBlocks.FirstChildOffset` | src/filesystem/ext2.c:73-79 | The offset just past the two dot records |
| `Directories.InsertKids` | src/filesystem/ext2.c:246-258 | A split gives the directory exactly one more name and keeps names distinct; every other name keeps its answer |
| `Directories.GrowKids` | src/filesystem/ext2.c:219-237 | So does growing by a block |
| `Directories.RemoveFromKids` | src/filesystem/ext2.c:286-293 | A merge or a dead head record takes exactly one name away |
| `Directories.InsertTiled` | src/filesystem/ext2.c:246-258 | After a split every block is still tiled by well-formed records |
| `Directories.RemoveFromTiled` | src/filesystem/ext2.c:286-293 | So it is after a removal |
| `Directories.EmptyDirKids` | src/filesystem/ext2.c:711-736 | All records past the dots are dead exactly when only the dots are left as names |
| `Records.SplitKeepsChain` | src/filesystem/ext2.c:243-258 | Splitting the bytes of a record with room leaves records tiling the 512 bytes, each as long as its name needs and a multiple of 4 |
| `Records.MergeKeepsChain` | src/filesystem/ext2.c:288-289 | Absorbing a record into the one before it keeps the tiling |
| `Records.KillKeepsChain` | src/filesystem/ext2.c:290-292 | Marking the head record dead keeps the tiling |
| `Records.SegUnique` | src/filesystem/ext2.c:59-66 | The bytes of a block determine its record chain |
| `Records.RemoveKids` | src/filesystem/ext2.c:277-299 | Removing the first live record of a name removes exactly that name of the block |
| `Volumes.AllocManyFresh` | src/filesystem/ext2.c:626-668 | A run of allocations gives distinct free blocks from 22 up and stops early only on a full disk |
| `Volumes.NextInodeFresh` | src/filesystem/ext2.c:415-442 | An inode number handed out lies in 12 to 64 and was free |
| `Volumes.NextBlockFresh` | src/filesystem/ext2.c:159-187 | A block handed out lies in 22 to 255 and is the lowest that was free |
| `Layout.InodeSlots` | src/filesystem/ext2.c:81-129 | Writing inode n and reading inode m gives the written record if m = n, the old one otherwise, for all 1 to 64 |
| `Layout.InodeRoundTrip` | src/filesystem/ext2.c:110-127 | Decoding an encoded inode record gives it back |
| `Bytes.SetBit` | src/header/stdlib/utils.h:11-16 | Exactly one bit of the bitmap becomes 1 |
| `Bytes.ClearBit` | src/header/stdlib/utils.h:23-27 | Exactly one bit of the bitmap becomes 0 |
| `Bytes.WordsRoundTrip` | src/filesystem/ext2.c:176-181 | A packed struct copied into a buffer reads back word for word |
| `RamDisks.RamDisk.ReadBlocks` | src/external/external-inserter.c:15-23 | Gives the bytes of consecutive blocks |
| `RamDisks.RamDisk.WriteBlocks` | src/external/external-inserter.c:25-33 | Stores consecutive blocks and touches no other |
| `Format.FreshInv` | src/filesystem/ext2.c:314-398 | The fresh volume satisfies every invariant and its namespace is a bare root |
| `Inserter.Insert` | src/external/external-inserter.c:123-151 | The write, delete, write, read sequence: the file written to a volume cleared of its old version; the comparison succeeds exactly when the part without blocks was all zeros, and there is no such part if and only if the file found room |
| `Inserter.ReadBack` | src/external/external-inserter.c:137-151 | The byte comparison says whether the bytes read, then zeros, are the source |
| `Inserter.ClearedReady` | src/external/external-inserter.c:126-132 | After the delete the write is legal again; only a directory of that name still stands in the way |
| `Paging.RunKeepsInv` | src/memory/paging.c:50-134 | After any sequence of allocations and frees on any set of directories: the free count equals the clear map entries, each used frame but 0 has exactly one present entry, and every present entry is the kernel's or a user entry of a used frame |
| `Paging.Perform` | src/memory/paging.c:50-134 | Any sequence of calls on any directory objects that share no table is, state and answers, a run of the machine, and keeps that invariant |
| `Paging.BootAndPerform` | src/memory/paging.c:6-134 | From a new manager, the kernel's directory and any number of zeroed ones, every sequence of calls gives the answers and state of the machine's run from boot, owns frames exactly, and leaves the kernel's two words at 0x83 |
| `Paging.Boot` | src/memory/paging.c:6-33 | These objects are the machine at boot |
| `Paging.PerformOne` | src/memory/paging.c:50-134 | One call is one step of the machine over all directories |
| `Paging.BootInv` | src/memory/paging.c:6-33 | The compiled-in state satisfies it |
| `Paging.KernelDirectoryStays` | src/memory/paging.c:6-33 | After every run from boot, kernel entries 0 and 0x300 are as compiled in: the words 0x83 |
| `Paging.KernelEntriesStay` | src/memory/paging.c:99-134 | An entry for frame 0 survives every run in every directory |
| `Paging.Isolation` | src/memory/paging.c:85-92 | Two user addresses with the same physical byte, as the processor reads the words, are the same address of the same directory; none reaches frame 0 or past 128 MiB |
| `Paging.WordsAfterRun` | src/memory/paging.c:83-91 | After every run from boot a word that is present is the kernel's 0x83, out of reach of user code, or one user code reaches and writes: a 4 MiB page, low bits 0x87 |
| `Paging.ReachedWord` | src/memory/paging.c:83-91 | A page user code reaches is writable by it, and its word is 0x87 + 2^22 times the number of a used frame |
| `Paging.AllocatedWord` | src/memory/paging.c:60-91 | An allocation writes the word 0x87 + 2^22 f for the lowest free frame f above 0, and marks that frame only |
| `Paging.FreedWord` | src/memory/paging.c:108-128 | A free writes the word 0 and gives back the frame the word named, and that frame only |
| `Paging.StepFrame` | src/memory/paging.c:50-134 | A call changes the entry of no other page |
| `Paging.Outcomes` | src/memory/paging.c:50-120 | Allocation succeeds exactly where the word is not present while a frame is left; freeing exactly for a page user code reaches, as the processor reads the word |
| `Paging.Conservation` | src/memory/paging.c:22-33 | User mappings over all directories and free frames always add up to 31 |
| `Paging.AllocateThenFree` | src/memory/paging.c:50-134 | Allocating and freeing restores map, count and tables if and only if the entry was all zero |
| `Paging.EnoughFrames` | src/memory/paging.c:50-97 | Requests for distinct unmapped pages all succeed exactly when there are as many free frames |
| `Paging.AdmissionExact` | src/memory/paging.c:41-48 | Up to 2^32 - 2^22 bytes the check is true if and only if ceil(amount / 4 MiB) such allocations would all succeed |
| `Paging.AdmissionLimit` | src/memory/paging.c:41-48 | The check agrees with the frames needed if and only if the amount is at most 2^32 - 2^22 |
| `Paging.AdmissionWraps` | src/memory/paging.c:41-48 | 2^32 - 1 bytes are admitted with no frame free, though they need 1024 |
| `Paging.PageManager.AllocateCheck` | src/memory/paging.c:41-48 | Computes the check in 32-bit arithmetic; up to 2^32 - 2^22 bytes it says whether the frames needed are free |
| `Paging.PageManager.AllocateUserPageFrame` | src/memory/paging.c:50-97 | First fit from frame 1; map, count and the one table end as the machine's step says, and the entry is the word 0x87 + 2^22 times that frame |
| `Paging.PageManager.FreeUserPageFrame` | src/memory/paging.c:99-134 | The same for freeing, refusals included |
| `Paging.PageDirectory.Kernel` | src/memory/paging.c:6-22 | The kernel's directory: two entries for frame 0, zeros elsewhere |
| `Paging.PageDirectory.Zeroed` | src/header/memory/paging.h:62-64 | A directory in zeroed memory maps nothing |
| `Keyboard.InterruptSafe` | src/driver/keyboard.c:43-69 | For every interleaving of interrupts with the getter's steps: nonzero answers followed by what waits are the kept characters in order; one is dropped exactly when 255 wait; an answer is 0 exactly when nothing waited at the head read |
| `Keyboard.RunInv` | src/driver/keyboard.c:43-112 | Every step of getter, interrupt and toggles keeps the protocol invariant |
| `Keyboard.HandsOut` | src/driver/keyboard.c:50-54 | The end of a call hands out the oldest character, uncorrupted and never 0 |
| `Keyboard.IsrQueues` | src/driver/keyboard.c:56-112 | An interrupt appends its character unless 255 wait, and never moves the tail |
| `Keyboard.KeyPressed` | src/driver/keyboard.c:71-112 | For every byte in every state, what the handler appends, key by key: the characters on the rows of an unshifted keyboard, and after the prefix the four arrows and delete |
| `Keyboard.ReleaseIsSilent` | src/driver/keyboard.c:106-111 | A byte from 0x80 up, with or without a prefix before it, leaves the waiting characters as they are |
| `Keyboard.AddQueues` | src/driver/keyboard.c:56-69 | Adding to the ring is appending to the queue it represents; it is full at 255 |
| `Keyboard.PopDequeues` | src/driver/keyboard.c:50-54 | The slot at the tail is the oldest character, and moving the tail removes just that one |
| `Keyboard.DecodesStream` | src/driver/keyboard.c:71-112 | For every schedule the characters offered are the decoding of the bytes received, position by position from a byte below 0x80 and the one before it |
| `Keyboard.ComesFromPress` | src/driver/keyboard.c:71-112 | Every character decoded from a stream comes from one press, in order, and is the character on that key |
| `Keyboard.DecodedStep` | src/driver/keyboard.c:71-112 | One more byte adds the character of its key if it is a press, and nothing if it is a release, a prefix or a key without one |
| `Keyboard.OffIsDeaf` | src/driver/keyboard.c:34-41 | Bytes that arrive while input is off leave no trace in the characters offered |
| `Keyboard.RepeatedPrefix` | src/driver/keyboard.c:79-82 | A repeated 0xE0 counts once |
| `Keyboard.Decoded` | src/driver/keyboard.c:71-112 | No decoded character is 0 |
| `Keyboard.GetterAlone` | src/driver/keyboard.c:43-54 | Without interrupts the steps of a call amount to the method's effect |
| `Keyboard.KeyboardDriver.GetKeyboardBuffer` | src/driver/keyboard.c:43-54 | Answers 0 on an empty queue, else takes its head off |
| `Keyboard.KeyboardDriver.KeyboardIsr` | src/driver/keyboard.c:71-112 | The handler's effect on the driver state for each byte; the waiting characters grow by the one on the key pressed, if any, unless 255 wait |
| `Keyboard.KeyboardDriver.AddChar` | src/driver/keyboard.c:56-69 | The ring after an add, dropping when full |
| `Console.FeedShows` | src/cpu/interrupt.c:108-199 | For every character sequence the 25 by 80 screen and cursor are the window of the unbounded page the sequence was typed on |
| `Console.ScreenIsWindow` | src/cpu/interrupt.c:108-199 | The same from any screen contents |
| `Console.TypeShows` | src/cpu/interrupt.c:114-149 | One character: wrap, newline, backspace and scroll agree with the page |
| `Console.DownShows` | src/cpu/interrupt.c:133-149 | A new line at the bottom shows as an exact one-row shift with a blank last row |
| `Console.HistoryIsFinal` | src/cpu/interrupt.c:115-122 | Lines that scrolled off are never changed again |
| `Console.TypeThenErase` | src/cpu/interrupt.c:115-131 | A printable character and a backspace return the cursor to the same cell of the page, across wrap and scroll, and change only that cell |
| `Console.FeedSplits` | src/cpu/interrupt.c:154-199 | PUTS of a string equals PUTS of its parts, down to one PUTCHAR a character |
| `Console.CellOf` | src/driver/framebuffer.c:17-23 | The low byte is the character; below 0x80 the high byte has the background in its upper and the foreground in its lower half, from 0x80 up it is 0xFF |
| `Console.ColorLost` | src/driver/framebuffer.c:17-23 | The character 0x80 in colour 7 is stored as 0xFF80: the attribute shown is 0xFF, not 7 |
| `Console.Terminal.PutChar` | src/cpu/interrupt.c:108-152 | Cells and cursor after one character; the hardware cursor follows, inside the screen |
| `Console.Terminal.Puts` | src/cpu/interrupt.c:154-199 | Cells and cursor after a string are those of PUTCHAR of its first character, then of its second, and so on |
| `Console.PutsAsItReads` | src/cpu/interrupt.c:154-199 | A printable string below 0x80 that fits on the screen: cell i after the cursor has the character i and the colour, every other cell is unchanged, and the cursor is behind it |
| `Console.PutAllFeeds` | src/cpu/interrupt.c:154-199 | A string in one colour is the sequence of its characters in that colour |
| `Console.PutBackspace` | src/cpu/interrupt.c:115-122 | A backspace goes one cell back, unless in the first, leaves a space in its colour there and changes nothing else |
| `Console.PutNewline` | src/cpu/interrupt.c:123-149 | A new line goes to the start of the next row; below the last one every row moves up and the last turns to 0x0720 |
| `Console.Terminal.Scroll` | src/cpu/interrupt.c:133-149 | The in-place copy loops shift every row up by one and blank the last |
| `Console.Terminal.FramebufferWrite` | src/driver/framebuffer.c:17-23 | Stores one cell |

## Left out

Stated weaker than one might wish:

- Ext2Driver.Ext2.Write: the parent is an attached directory, a new directory finds a free block and the size is at most 0xFFFFFE00; with another parent, without a block (`src/filesystem/ext2.c:674-675`) or with a larger size the code goes on and leaves malformed structures.
- Ext2Driver.Ext2.Delete: `.` and `..` are excluded, as the code would free a directory in use, and so are parents above inode 64, whose descriptors were never filled in.
- Ext2Driver.Ext2.Read: parents above inode 64 are excluded for that reason.
- Ext2Driver.Ext2.Stat: parents above inode 64 are excluded for that reason.
- Ext2Driver.Ext2.ReadDirectory: inodes above 64 are excluded for that reason.
- Ext2Driver.Ext2.FindEntryInDir: inodes above 64 are excluded for that reason.
- Ext2Driver.Ext2.ReadInode: inodes above 64 are excluded for that reason.
- Ext2Driver.Ext2.WriteInode: inodes above 64 are excluded for that reason.
- Ext2Driver.Ext2.IsDirectoryEmpty: inodes above 64 are excluded for that reason.
- Ext2Driver.Ext2.AddEntryToDir: the parent is a directory; the code would split records in the data of a file.
- Ext2Driver.Ext2.RemoveEntryFromDir: the parent is a directory, for the same reason.
- Ext2Driver.Ext2.StoreDir: some block is free; the code skips the block otherwise and leaves a directory without records.
- Ext2Driver.Ext2.DeallocateSingleBlock: only blocks 22 to 255 and 0, which is all that callers pass; clearing a reserved bit breaks the volume.
- Ext2Driver.Ext2.DeallocateNode: inode 0, or an inode above 11 that holds an object, which is all that callers pass.
- Ext2Driver.Ext2.Initialize: a signed disk that holds no sound volume is loaded as it is; what later calls do on it is not modelled.
- Refinement.StatRefines: a plain tree has no block counts, so the size of a directory is compared in `Accounts.StatSteps` instead.
- Inserter.Insert: reading host files, command-line handling and messages are left out; the image is the array.

Not modelled:

- Local block buffers are values; the code's in-place edits of a buffer before it is written back become updates of a sequence.
- Bytes of blocks 1 and 2 past the structs are unspecified, and descriptors 1 to 7 are unused; the source reads 512 bytes into smaller structs and only the struct-sized prefix is decoded.
- Crash consistency between block writes: each call is one step.
- Link counts, timestamps, `bg_used_dirs_count`, double and triple indirect blocks, and the stubs of `src/filesystem/ext2.c:491-502`: the code does not maintain them.
- Disk ports, port I/O, GDT, IDT, TSS, PIC and assembly: plumbing and bit packing.
- The TLB flush has no effect on the state modelled; of the cursor ports only the position written is kept.
- The keyboard's interrupt handler is one step: its gate masks interrupts. Reading head and tail in one comparison is two steps.
- `src/process/process.c`, `src/filesystem/test.c` and the shell: not built, or user interface.
