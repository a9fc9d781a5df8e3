# OS/161: proofs about the kernel and its library

A model of the parts of the OS/161 teaching kernel and C library that keep
intricate state, with machine-checked proofs about every run of it.

The file system. `SfsLayout` is the on-disk format, `SfsState` the meaning of a
volume: a disk, a free map and the loaded vnodes, of which `Slot`, `Node` and
`FByte` read inodes, block pointers and file contents. Beside it goes a map `own`
from blocks to the slot that owns them. `Blocks(s, own)` says that every named
block has exactly one owner, lies in the data area and is marked; `Leaked` are the
marked blocks without an owner. `SfsDir` reads the root directory as a list of
entries; `Consistent` says that names are unique and that every link count is the
number of names (the root has one more). `SfsFile` and `SfsTruncate` say what
writing and truncating mean for files as byte strings, `SfsCache`, `SfsTable` and
`SfsView` what the vnode table adds. The class `Sfs.Sfs` holds the mounted system
with its fields updated in place; `SfsOps`, `SfsMount`, `SfsMake` and `SfsRun` add
directory operations, mounting, mksfs and whole runs. `SfsSpec` says what each
operation does to names, byte strings and references, and what lasts over whole
histories of operations; `SfsExamples` is a small volume on which things go wrong. Any disk
transfer and any memory allocation may fail, as the function `fault` chooses;
`faults` counts how many did, and what holds only without faults is stated under
`faults == old(faults)`. What a failure does to files and names is stated too.

The allocators. `Malloc` is the C library's heap: an array of eight-byte cells in
which headers lie, tied to a map of blocks. `Kheap` is the kernel's: memory by
words, page references in two linked lists, free lists threaded through the
blocks. Programs may store anything in what they are given.

Two protocols. `Stoplight` (an intersection of four quadrants) and `CatMouse` (two
bowls, one lock, two condition variables) are step systems for any number of
threads; one step is one call of P, V, lock, condition variable or queue
function, which the kernel runs with interrupts off, or a piece of code between
two such calls. A blocked call is a step that is not enabled. `Queue` is the ring
buffer under the waitlists, `Rings` what it and the generator's table share.

Formatting and random numbers. `Printf` and `Atoi` follow sections 7.19.6.1,
7.19.6.5 and 7.20.1.2 of C99 (ISO/IEC 9899:1999) as far as the library does;
`Random` and `Pseudorand` are the two generators.

## What the code does not keep

Where a property one would expect fails, the model keeps the code and states when
it holds.

- Truncation keeps one block too many when the new length ends in the indirect
  range (`SfsTruncate.TruncExact`, in bytes `SfsTruncate.TruncBytes`), and does not clear the rest of the last block
  (`SfsTruncate.TruncTail`), so that extending the file later shows old bytes
  (`SfsExamples.OldByte`).
- When the indirect block cannot be written back, truncation has already freed
  the blocks it still names on disk (`SfsTruncate.TornBreaks`). When that happens
  is exact (`Sfs.Sfs.Truncate`), and it does happen (`SfsExamples.TornTruncation`).
- The root directory can be given further names by link. Renaming such a name
  then fails an assertion (`SfsOps.Rename`, `SfsExamples.DeadRename`). Runs that do
  not link the root, and meet no fault, are safe (`SfsRun.Run`).
- Every operation on the root directory fetches its vnode first, and the kernel
  panics if that needs a transfer or memory and fails (`SfsRun.GetRoot`).
- A write that fails, or that moves nothing, past the end of a file still sets its
  size. A failed write may count bytes it did not store (`SfsFile.WrittenGap`).
- `sfs_sync` ignores failures of single vnodes, so that Ok alone promises only
  that the map is on the disk (`SfsMount.Sync`).
- Mounting a disk that ends before its superblock or its free map is a panic, not
  an error. A volume of more than 0xfffff000 blocks is mounted with an empty map
  (`SfsMount.Mount`, `SfsMount.MapBitsExact`).
- `uiomove` overruns a request that is shorter than its iovec (`Uio.Uio.Move`), and
  so does `uiomovezeros` unless the request is a multiple of sixteen bytes
  (`Uio.Uio.MoveZeros`); the file system never asks for either.
- `setstate` to the current state is documented as harmless. It goes back to where
  the state was last stored, so that it is harmless only if the pointers are
  there (`Random.State.SetState`, `Random.StoredWordStale`).
- `malloc` of more than 2^32 - 8 bytes returns a block without data. From
  2^31 - 15 bytes up to there, when no free block fits, it passes `sbrk` a number that
  is zero or negative as an `int`: the break stays or is lowered, and a header is
  written past it (the result `Wild`; `Malloc.RoundedExact`, `Malloc.WildRequest`).
  `free` refuses a live pointer exactly if its block is empty and at the very top
  (`Malloc.Heap.Free`, `Malloc.FreeNothing`).
- `kmalloc` of more than 2^32 - 4096 bytes asks for no pages (`Kheap.PagesExact`).
- A `%d` field with both `-` and `0` fills with zeros on the right, which changes
  every nonzero number that is shorter than the field (`Printf.RoundTrip`).

## Model

| member | source | states |
|---|---|---|
| `SfsRun.Boot` | os161/kern/fs/sfs/sfs_vnode.c:60-261 | From mksfs on any device, mount and any sequence of operations under any pattern of disk and memory faults: every block in use has one owner and is marked, links match names, unless a truncation was torn by a fault, and each operation up to the end has its effect; when no request fails and no operation links the root, the volume mounts, the kernel lives, nothing is torn and no marked block is ownerless |
| `SfsRun.Run` | os161/kern/fs/sfs/sfs_vnode.c:1183-1379 | Every run of creat, link, remove, rename, lookup, read, write, truncate, close and sync keeps the whole invariant and is a history in which each operation has its effect on names, contents and references, faults or not, up to the operation it stops at; a fault-free run leaks nothing, tears nothing, and if it never links the root and no name stood for it before, the kernel lives |
| `SfsRun.Step` | os161/kern/fs/sfs/sfs_vnode.c:856-924 | One operation keeps the invariant and does not leak without a fault; without a fault the kernel dies exactly in the rename of a name of the root, and with one only in an operation on the root directory; a file is torn exactly under the condition of a torn truncation; an operation that comes back has its effect on names and contents, or none for a stated reason; without a fault the reference counts are those of before, one more for what was created or looked up and one less for what was closed |
| `SfsRun.Cycle` | os161/kern/fs/sfs/sfs_fs.c:80-145 | Sync followed by a mount of the resulting disk: same names, same contents, same free map as before the sync; leaks appear exactly if there were some or a loaded file had no name left |
| `SfsRun.Read` | os161/kern/fs/sfs/sfs_vnode.c:929-936 | read: exactly the bytes of the file up to its end, holes as zeros, offset and residue advanced by as much; nothing else changes; EISDIR exactly on the root, EINVAL only past the largest file |
| `SfsRun.Write` | os161/kern/fs/sfs/sfs_vnode.c:941-948 | write: those bytes of that file and its size, and nothing in any other file or the directory; EISDIR exactly on the root; without a fault it stops short only past the largest file or at a hole in a full volume |
| `SfsRun.Cut` | os161/kern/fs/sfs/sfs_vnode.c:1061-1157 | truncate as a whole operation: directory and other files keep everything, the file every byte below the new length, no leak; torn exactly if an indirect entry stays and another goes, the indirect block can be read and cannot be written back |
| `SfsRun.Close` | os161/kern/fs/vfs/vnode.c:73-98 | Giving up a reference: one of several only counts down; the last one, without a fault, unloads the vnode, and if the file has no links it is gone and every block it had is free; the directory and every other file stay, and nothing leaks without a fault |
| `SfsRun.GetRoot` | os161/kern/fs/sfs/sfs_vnode.c:1656-1670 | The root vnode is obtained without touching names or files; the kernel dies exactly if the root is not loaded and a request fails |
| `SfsRun.Begin` | os161/kern/fs/sfs/sfs_fs.c:208-311 | mksfs and mount give an empty volume in order, and do so whenever the name is legal, the device has a fitting size and no request fails |
| `SfsSpec.ContentLasts` | os161/kern/fs/sfs/sfs_vnode.c:856-1379 | A file keeps its name, size and every byte through any history, without a fault, of operations on other names and other files |
| `SfsSpec.Lasts` | os161/kern/fs/sfs/sfs_vnode.c:856-1379 | The same for one operation: creating, linking, removing, renaming, writing or truncating something else leaves it alone |
| `SfsSpec.OnlyLinkNamesRoot` | os161/kern/fs/sfs/sfs_vnode.c:1243-1264 | No operation but a link of the root gives the root a name |
| `SfsSpec.RefsAround` | os161/kern/fs/sfs/sfs_vnode.c:1656-1670 | Fetching the root before an operation and giving it up after leaves its reference count alone |
| `SfsExamples.Described` | os161/kern/fs/sfs/sfs_fs.c:208-311 | The blocks of the small volume are a disk that mounts: superblock, root directory with one entry, full map, and a file of two indirect blocks |
| `SfsExamples.InBlocks` | os161/kern/fs/sfs/sfs_vnode.c:115-261 | Every block of that volume has its one owner and is marked |
| `SfsExamples.InTree` | os161/kern/fs/sfs/sfs_vnode.c:523-550 | Its directory, names and link counts are in order |
| `SfsExamples.TornTruncation` | os161/kern/fs/sfs/sfs_vnode.c:1122-1147 | There the file is truncated to 8192 bytes and one write fails: the truncation is torn and no ownership of blocks is right any more |
| `SfsExamples.OldByte` | os161/kern/fs/sfs/sfs_vnode.c:1063-1157 | There, without a fault, the file cut to 7690 bytes and extended to 8192 has an old byte at 7700 |
| `SfsExamples.DeadRename` | os161/kern/fs/sfs/sfs_vnode.c:1305-1379 | There, without a fault, linking the root and renaming that link kills the kernel |
| `SfsState.OneOwner` | os161/kern/fs/sfs/sfs_vnode.c:115-261 | A block is named at most once in all live inodes and indirect blocks |
| `SfsState.SlotOwned` | os161/kern/fs/sfs/sfs_vnode.c:94-103 | A named block is inside the volume, outside superblock and map, marked, and owned by that very slot: the "not marked" panic is unreachable |
| `SfsState.AllocOk` | os161/kern/fs/sfs/sfs_vnode.c:60-78 | Marking a free block and clearing it disturbs no file and adds exactly that block to the ownerless ones; it is never the superblock or a map block |
| `SfsState.LinkOk` | os161/kern/fs/sfs/sfs_vnode.c:149-158 | Putting an ownerless block in an empty slot gives it one owner and keeps all the others |
| `SfsState.UnlinkOk` | os161/kern/fs/sfs/sfs_vnode.c:83-89 | Emptying slots and unmarking what they named keeps one owner per marked block and leaks nothing |
| `SfsState.GrowDirect` | os161/kern/fs/sfs/sfs_vnode.c:149-158 | Attaching a block to a direct slot changes no byte of any file |
| `SfsState.GrowIndirect` | os161/kern/fs/sfs/sfs_vnode.c:203-223 | Attaching an indirect block changes no byte of any file |
| `SfsState.GrowEntry` | os161/kern/fs/sfs/sfs_vnode.c:237-252 | Rewriting the indirect block with one more entry changes no byte of any file |
| `SfsState.DataWrite` | os161/kern/fs/sfs/sfs_vnode.c:277-347 | Writing a data block changes that block of that file only, and no inode or indirect block |
| `SfsState.RoomCount` | os161/kern/fs/sfs/sfs_vnode.c:60-103 | Free, owned and ownerless blocks add up to the data blocks of the volume |
| `SfsState.TooLittle` | os161/kern/fs/sfs/sfs_vnode.c:115-261 | When a block of a file is not to be had, there were fewer free blocks before than it and its indirect block take |
| `SfsState.ShedAll` | os161/kern/fs/sfs/sfs_vnode.c:856-924 | When an inode goes and nothing leaks, every block it named is free |
| `Sfs.Sfs.Balloc` | os161/kern/fs/sfs/sfs_vnode.c:60-78 | A cleared block that was free, or ENOSPC only when the volume is full, or EIO after a fault; no file changes |
| `Sfs.Sfs.Bfree` | os161/kern/fs/sfs/sfs_vnode.c:83-89 | The block is unmarked and the map is dirty |
| `Sfs.Sfs.Bused` | os161/kern/fs/sfs/sfs_vnode.c:94-103 | Whether the block is marked |
| `Sfs.Sfs.Bmap` | os161/kern/fs/sfs/sfs_vnode.c:115-261 | The block of any file position, mapped on demand; EINVAL exactly past block 142, ENOSPC only when no block is free; without allocation nothing changes; no file content changes, one owner each, only slots on the way to that block are filled, no leak without a fault |
| `Sfs.Sfs.BmapDirect` | os161/kern/fs/sfs/sfs_vnode.c:137-169 | The same for the direct slots |
| `Sfs.Sfs.BmapIndirect` | os161/kern/fs/sfs/sfs_vnode.c:171-261 | The same for the indirect entries, with the indirect block itself made on demand |
| `Sfs.Sfs.Io` | os161/kern/fs/sfs/sfs_vnode.c:417-513 | sfs_io refines a flat file: a read delivers the bytes up to the end of file, a write replaces exactly those bytes and sets size to the larger of old size and end; a failed write stops at a block boundary |
| `Sfs.Sfs.PartialIO` | os161/kern/fs/sfs/sfs_vnode.c:277-347 | A piece within one block is moved entirely or not at all, by read-modify-write |
| `Sfs.Sfs.WritePart` | os161/kern/fs/sfs/sfs_vnode.c:318-347 | A partial write reads, changes and writes back one block: it succeeds exactly if both transfers do, and when only the second fails the bytes are counted and nothing is stored |
| `Sfs.Sfs.BlockIO` | os161/kern/fs/sfs/sfs_vnode.c:352-412 | A whole block is moved entirely or not at all; a hole reads as zeros |
| `Sfs.Sfs.IoRead` | os161/kern/fs/sfs/sfs_vnode.c:426-513 | Reading is clipped to the size of the file and changes nothing |
| `Sfs.Sfs.IoWrite` | os161/kern/fs/sfs/sfs_vnode.c:447-513 | Writing past the end extends the file, also when it fails or moves nothing; what it counts is stored but for less than a block after a fault |
| `SfsFile.TouchWrite` | os161/kern/fs/sfs/sfs_vnode.c:277-347 | Writing part of a block touches exactly that byte range of that file |
| `SfsFile.MovedTrans` | os161/kern/fs/sfs/sfs_vnode.c:447-497 | The pieces of a transfer compose to one transfer |
| `SfsFile.HasWrittenMore` | os161/kern/fs/sfs/sfs_vnode.c:447-497 | Successive written pieces are one written range |
| `SfsFile.HasReadMore` | os161/kern/fs/sfs/sfs_vnode.c:447-497 | Successive read pieces are one read range |
| `SfsFile.FileWroteDone` | os161/kern/fs/sfs/sfs_vnode.c:499-506 | With the final size update a written range is a write of the flat file |
| `SfsFile.WrittenGap` | os161/kern/fs/sfs/sfs_vnode.c:447-513 | Of what a write counts all is stored without a fault, and with one all but at most the last piece: up to the end of a block or of the request, and not a whole block |
| `Uio.Uio.Move` | os161/kern/userprog/uio.c:11-82 | As many bytes as asked for, no more than the iovec holds, move in the direction of the request; offset, residue and base account for every byte; a request shorter than its iovec can be overrun, its residue wraps around, and it dies exactly if more is asked than the iovec holds while the residue is neither zero nor as long as the iovec |
| `Uio.Uio.MoveZeros` | os161/kern/userprog/uio.c:84-108 | Exactly as many zeros reach the buffer as are asked for and left, except that a request can be overrun to the end of its iovec; both that and its death exactly, for any residue and iovec |
| `Uio.Uio.constructor` | os161/kern/userprog/uio.c:110-123 | A kernel request covers the whole buffer |
| `Sfs.Sfs.Truncate` | os161/kern/fs/sfs/sfs_vnode.c:1063-1157 | Frees exactly the blocks it drops, which are told in bytes, keeps every byte below the new length and all other files, leaks nothing; after an unreadable indirect block the dropped direct blocks are gone cleanly; torn exactly if an indirect entry stays and another goes, the indirect block can be read and cannot be written back |
| `Sfs.Sfs.TruncBlocks` | os161/kern/fs/sfs/sfs_vnode.c:1089-1148 | Both loops together drop exactly what the code drops; torn exactly under that condition |
| `Sfs.Sfs.TruncDirect` | os161/kern/fs/sfs/sfs_vnode.c:1089-1100 | The direct slots from the new length on are emptied and their blocks freed |
| `Sfs.Sfs.TruncIndirect` | os161/kern/fs/sfs/sfs_vnode.c:1102-1148 | The doomed indirect entries are emptied and freed, and with the last entry the indirect block; the exact condition for a torn result |
| `Sfs.Sfs.FreeEntries` | os161/kern/fs/sfs/sfs_vnode.c:1120-1133 | What the loop leaves in the buffer and in the map, and when it reports something left or changed |
| `SfsTruncate.TruncExact` | os161/kern/fs/sfs/sfs_vnode.c:1089-1133 | Nothing from the new block length on stays mapped if and only if not (that block lies in the indirect range and was mapped) |
| `SfsTruncate.TruncKeepsBlock` | os161/kern/fs/sfs/sfs_vnode.c:1122-1128 | Cutting to 7680 bytes keeps block 15, one past the end |
| `SfsTruncate.TruncTail` | os161/kern/fs/sfs/sfs_vnode.c:1089-1151 | Bytes past the new end read as zero if and only if those in the blocks that are not dropped already did |
| `SfsTruncate.TruncBytes` | os161/kern/fs/sfs/sfs_vnode.c:1080-1133 | Every byte below the new length is kept; a direct block stays exactly if it has one of them, an indirect one exactly if the block before it has one or nearly all blocks have |
| `SfsTruncate.HalfCutBytes` | os161/kern/fs/sfs/sfs_vnode.c:1080-1100 | A truncation that fails after its first loop keeps those bytes too |
| `SfsTruncate.TearableBytes` | os161/kern/fs/sfs/sfs_vnode.c:1102-1148 | In bytes: it can be torn exactly if one mapped indirect block stays and another goes |
| `SfsTruncate.TornBreaks` | os161/kern/fs/sfs/sfs_vnode.c:1141-1147 | A torn file names a free block, so no ownership of blocks is right any more |
| `SfsTruncate.DropEntriesOk` | os161/kern/fs/sfs/sfs_vnode.c:1122-1147 | Emptying entries of an indirect block, freeing their blocks and writing it back keeps one owner each and leaks nothing |
| `SfsTruncate.DropIndirectOk` | os161/kern/fs/sfs/sfs_vnode.c:1135-1140 | Giving up the indirect block with all its entries keeps one owner each and leaks nothing |
| `SfsTruncate.CutTrans` | os161/kern/fs/sfs/sfs_vnode.c:1089-1148 | Successive cuts of a file are one cut |
| `Sfs.Sfs.LoadVnode` | os161/kern/fs/sfs/sfs_vnode.c:1545-1651 | At most one vnode per inode: a loaded one gains a reference, another is read from its block with four requests, and fails exactly if one of them does; files unchanged |
| `Sfs.Sfs.MakeObj` | os161/kern/fs/sfs/sfs_vnode.c:761-783 | A new empty inode of the given type, loaded with one reference; no file changes; without room only if no block is free, and then nothing changes; no leak without a fault |
| `Sfs.Sfs.SyncInode` | os161/kern/fs/sfs/sfs_vnode.c:38-51 | A synced vnode is clean and equals its block, and after a failure it is dirty; no file changes |
| `Sfs.Sfs.Reclaim` | os161/kern/fs/sfs/sfs_vnode.c:856-924 | An inode is erased exactly with no links and no other reference, and then all its blocks are free; one with links is written back and forgotten; EBUSY exactly while others hold it |
| `Sfs.Sfs.Decref` | os161/kern/fs/vfs/vnode.c:73-98 | The last reference reclaims, an earlier one only counts down; without a fault the count is one less, and a file without links is gone with the last one, its blocks free |
| `Sfs.Sfs.FindVnode` | os161/kern/fs/sfs/sfs_vnode.c:1555-1578 | The search finds a loaded inode if there is one |
| `SfsCache.LoadOk` | os161/kern/fs/sfs/sfs_vnode.c:1580-1651 | Loading an inode keeps all invariants and every file |
| `SfsCache.SyncOk` | os161/kern/fs/sfs/sfs_vnode.c:38-51 | Writing an inode back keeps all invariants and every file |
| `SfsCache.UnloadOk` | os161/kern/fs/sfs/sfs_vnode.c:890-915 | Dropping a clean vnode keeps every file |
| `SfsCache.EraseOk` | os161/kern/fs/sfs/sfs_vnode.c:896-915 | Freeing the inode of an empty file removes that file only and leaks nothing |
| `SfsTable.TableRemove` | os161/kern/fs/sfs/sfs_vnode.c:901-915 | Removing a vnode from the array forgets that inode and no other |
| `SfsOps.ReadDir` | os161/kern/fs/sfs/sfs_vnode.c:523-550 | The entry at a slot, as stored |
| `SfsOps.WriteDir` | os161/kern/fs/sfs/sfs_vnode.c:556-584 | An entry is stored whole or not at all; a failed append can leave one free slot at the end; ENOSPC only if fewer blocks were free than its directory block takes |
| `SfsOps.FindName` | os161/kern/fs/sfs/sfs_vnode.c:614-658 | Finds the inode of a name exactly if the directory has it, and the last free slot |
| `SfsOps.DirLink` | os161/kern/fs/sfs/sfs_vnode.c:664-703 | Adds one name at the last free slot or at the end; EEXIST and ENAMETOOLONG exactly as promised, ENOSPC only if fewer blocks were free than that slot takes, EINVAL only in a directory that is full and cannot grow; on failure all names are as before |
| `SfsOps.DirUnlink` | os161/kern/fs/sfs/sfs_vnode.c:708-720 | Frees exactly that slot, or nothing |
| `SfsOps.LookOnce` | os161/kern/fs/sfs/sfs_vnode.c:726-752 | Looks a name up and loads its inode, which has links |
| `SfsOps.LookupName` | os161/kern/fs/sfs/sfs_vnode.c:1416-1436 | lookup: ENOENT exactly when the name is absent; one reference more, nothing else |
| `SfsOps.Creat` | os161/kern/fs/sfs/sfs_vnode.c:1183-1236 | creat: an existing file opened or one new empty file with one link under exactly that name, held by one more; without a fault a new name fails only if it is too long, the directory cannot grow, or fewer blocks were free than the inode and its slot take; on any failure no name and no file changes |
| `SfsOps.Link` | os161/kern/fs/sfs/sfs_vnode.c:1243-1264 | link: one more name and one more link for the file, its contents kept; on failure neither, for the same reasons; nobody holds more or less than before |
| `SfsOps.Remove` | os161/kern/fs/sfs/sfs_vnode.c:1269-1297 | remove: exactly that name goes; the file loses a link, and disappears exactly when no link and no holder is left; without a fault nobody holds more or less than before |
| `SfsOps.Rename` | os161/kern/fs/sfs/sfs_vnode.c:1305-1379 | rename: the name moves and no file changes, or every name is as before, recovery included, for the reasons link has; with at most one fault the kernel dies exactly if the old name is a link to the root and no request failed |
| `SfsOps.FinishRename` | os161/kern/fs/sfs/sfs_vnode.c:1344-1379 | Second half of rename with its recovery path: it takes a second fault to die |
| `SfsDir.TreePut` | os161/kern/fs/sfs/sfs_vnode.c:614-752 | Setting or freeing one entry leaves exactly one inode owed a link, or one link too many |
| `SfsDir.TreeLinks` | os161/kern/fs/sfs/sfs_vnode.c:1259-1261 | Correcting the link count settles the debt |
| `SfsDir.TreeReleased` | os161/kern/fs/sfs/sfs_vnode.c:856-924 | Giving up a vnode keeps names unique and every link count equal to its names |
| `SfsDir.TreeLost` | os161/kern/fs/sfs/sfs_vnode.c:556-584 | A failed directory write keeps links and names consistent |
| `SfsDir.WriteDone` | os161/kern/fs/sfs/sfs_vnode.c:556-584 | A directory write of one entry replaces that entry in the list, or loses it entirely |
| `SfsDir.PutName` | os161/kern/fs/sfs/sfs_vnode.c:664-703 | A new name in a free slot: names stay unique, every other name keeps its inode |
| `SfsDir.PutFree` | os161/kern/fs/sfs/sfs_vnode.c:708-720 | Freeing a slot removes its name and no other |
| `SfsLayout.InodeRoundTrip` | os161/kern/include/kern/sfs.h:45-52 | Reading back a written inode gives it back |
| `SfsLayout.EntryRoundTrip` | os161/kern/include/kern/sfs.h:57-60 | Reading back a written directory entry gives it back, for every name that fits |
| `SfsLayout.WordsRoundTrip` | os161/kern/include/kern/sfs.h:4-25 | Reading back a written indirect block gives it back |
| `SfsLayout.ZeroInode` | os161/kern/fs/sfs/sfs_vnode.c:28-35 | A cleared block reads as an inode with nothing attached |
| `SfsLayout.InodeLayout` | os161/kern/include/kern/sfs.h:45-52 | At which byte of its block each field of an inode lies |
| `SfsLayout.EntryLayout` | os161/kern/include/kern/sfs.h:57-60 | At which byte of an entry number and name lie, and that zeros follow |
| `SfsLayout.WordIs` | os161/kern/include/kern/sfs.h:35-60 | A word is big-endian |
| `SfsLayout.BitBlocksExact` | os161/kern/include/kern/sfs.h:18-25 | Just as many map blocks as the bits of a volume need |
| `SfsImage.MapRoundTrip` | os161/kern/fs/sfs/sfs_fs.c:39-73 | Reading back a written map gives it back |
| `SfsMount.WriteMap` | os161/kern/fs/sfs/sfs_fs.c:39-73 | The map is on the disk afterwards, and only map blocks changed |
| `SfsMount.ReadMap` | os161/kern/fs/sfs/sfs_fs.c:39-73 | The map as it is on the disk; the kernel dies exactly if the disk ends before it |
| `SfsMount.SyncVnodes` | os161/kern/fs/sfs/sfs_fs.c:119-124 | Every vnode is clean afterwards exactly if there was no fault; a failure is not reported |
| `SfsMount.Sync` | os161/kern/fs/sfs/sfs_fs.c:80-145 | No file, name or mark changes; Ok means the map is on disk, and everything else exactly if there was no fault |
| `SfsMount.Unmount` | os161/kern/fs/sfs/sfs_fs.c:165-192 | Refused exactly while a vnode is loaded; dies exactly if then the map is dirty; else the disk is all there is |
| `SfsMount.SyncedImage` | os161/kern/fs/sfs/sfs_fs.c:39-73 | What a mount sees on the disk is the state of the running system without its vnodes, once the map is clean |
| `SfsMount.Mount` | os161/kern/fs/sfs/sfs_fs.c:208-311 | A mounted system is the image on the disk, and valid if the disk is in order; EINVAL exactly for a bad magic number; a fault only for a request of its own; the kernel dies exactly on a disk without superblock or too short for its map |
| `SfsMount.MapBitsExact` | os161/kern/include/kern/sfs.h:14-22 | The size of the map as the machine computes it is right exactly up to 0xfffff000 blocks, and zero above |
| `SfsRemount.Remount` | os161/kern/fs/sfs/sfs_fs.c:208-311 | A clean system and a fresh mount of its disk agree on names, contents and free set; the fresh one is leak-free exactly if the old one was and had no nameless file open |
| `SfsRemount.FreshBlocks` | os161/kern/fs/sfs/sfs_fs.c:208-311 | Forgetting the vnodes of a clean system leaks exactly the blocks of nameless files |
| `SfsRemount.FlushedOk` | os161/kern/fs/sfs/sfs_fs.c:39-73 | Writing outside the data area keeps ownership and leaks nothing |
| `SfsMake.Mksfs` | os161/sbin/mksfs/mksfs.c:39-165 | Succeeds exactly if the name is legal and short enough and the map and the reserved blocks fit; the image is a valid empty volume with that name |
| `SfsMake.CleanName` | os161/sbin/mksfs/mksfs.c:132-147 | Accepts exactly the names without a slash and without a colon but perhaps one at the end, which is removed |
| `SfsMake.SuperReads` | os161/sbin/mksfs/mksfs.c:39-56 | Magic number, size and volume name are read back from the superblock |
| `SfsMake.MarkReserved` | os161/sbin/mksfs/mksfs.c:96-108 | The marks are superblock, root, map and the bits past the end; it fails exactly if these overlap |
| `SfsMake.DoAllocBit` | os161/sbin/mksfs/mksfs.c:75-84 | Sets a clear bit; an already set one is an error |
| `SfsMake.NewBlocks` | os161/sbin/mksfs/mksfs.c:58-71 | In a new volume the root is the only owned block and nothing leaks |
| `SfsMake.NewConsistent` | os161/sbin/mksfs/mksfs.c:58-71 | A new volume has an empty, consistent directory |
| `Bitmap.Bitmap.Alloc` | os161/kern/lib/bitmap.c:72-94 | The lowest clear bit is set, or nothing if there is none |
| `Bitmap.Bitmap.Mark` | os161/kern/lib/bitmap.c:107-118 | Exactly that bit is set |
| `Bitmap.Bitmap.Unmark` | os161/kern/lib/bitmap.c:120-131 | Exactly that bit is cleared |
| `Bitmap.Bitmap.IsSet` | os161/kern/lib/bitmap.c:134-142 | Whether the bit is set |
| `Bitmap.Bitmap.constructor` | os161/kern/lib/bitmap.c:30-64 | All bits clear, the leftover bits of the last word never handed out |
| `Bitmap.FirstClear` | os161/kern/lib/bitmap.c:81-91 | The lowest clear bit of a word |
| `Stoplight.DeadlockFree` | os161/kern/asst1/stoplight.c:122-643 | For any number of cars and any schedule: unless all are gone some car can step, and the queue assertions hold |
| `Stoplight.AllCanLeave` | os161/kern/asst1/stoplight.c:122-643 | From every reachable state some schedule takes every car out |
| `Stoplight.Safety` | os161/kern/asst1/stoplight.c:122-643 | Each semaphore count plus its holders is 1, a quadrant has at most one car, at most three cars are inside and carnumber counts them |
| `Stoplight.Admission` | os161/kern/asst1/stoplight.c:143-158 | In every reachable state a car that tests is let in exactly if fewer than three are inside and it is the first of its direction that has announced itself and not entered |
| `Stoplight.ThreeInside` | os161/kern/asst1/stoplight.c:130-158 | Three cars, one each from the first three directions and whatever their turns, are inside at once on some run |
| `Stoplight.Routes` | os161/kern/asst1/stoplight.c:124-643 | On every run every car takes the quadrants of its turn in order and no others, and while inside holds the one it took last |
| `Stoplight.RouteIs` | os161/kern/asst1/stoplight.c:124-643 | The paths of the model are those of the twelve cases |
| `Stoplight.Fairness` | os161/kern/asst1/stoplight.c:130-158 | The cars of one direction that have entered are, in the order in which they entered, the first of those that announced themselves |
| `Stoplight.Restored` | os161/kern/asst1/stoplight.c:712-766 | When all cars are gone semaphores, waitlists and counters are as they were made |
| `Stoplight.StepInv` | os161/kern/asst1/stoplight.c:122-643 | Every step of every car keeps the invariant |
| `Stoplight.Exclusive` | os161/kern/thread/synch.c:63-98 | A semaphore used as a lock is never held twice |
| `Stoplight.AdmitAtHead` | os161/kern/asst1/stoplight.c:90-104 | A car that removes the head of its waitlist removes itself |
| `Stoplight.CrossingMoves` | os161/kern/asst1/stoplight.c:135-643 | Three cars cannot block one another around the four quadrants |
| `Stoplight.CarAhead` | os161/kern/asst1/stoplight.c:135-643 | A blocked crossing car has another one in the quadrant ahead |
| `Stoplight.HeadEnters` | os161/kern/asst1/stoplight.c:139-158 | In an empty intersection the head of any waitlist gets in |
| `Stoplight.Progress` | os161/kern/asst1/stoplight.c:122-643 | From every state of the invariant some run does real work |
| `CatMouse.EveryoneEats` | os161/kern/asst1/catlock.c:95-190 | For any number of cats and mice every run is finite, and one that cannot go on has fed everybody exactly four times |
| `CatMouse.NoLostWakeup` | os161/kern/asst1/catlock.c:95-190 | With the lock free whoever sleeps has a reason to: the other kind is eating or both bowls are taken |
| `CatMouse.Safety` | os161/kern/asst1/catlock.c:95-190 | Cats and mice never eat together, each taken bowl has one eater, the counters add up and the bowl search succeeds |
| `CatMouse.Admission` | os161/kern/asst1/catlock.c:95-111 | In every reachable state an animal that tests goes on exactly if none of the other kind is at a bowl and fewer than two of its own |
| `CatMouse.TwoEat` | os161/kern/asst1/catlock.c:95-190 | Two of a kind eat at once on some run |
| `CatMouse.BowlFree` | os161/kern/asst1/catlock.c:104-111 | Past the wait loop a bowl is free |
| `CatMouse.HolderMoves` | os161/kern/thread/synch.c:142-175 | While the lock is held only its holder moves |
| `CatMouse.WakeAllAt` | os161/kern/thread/synch.c:258-270 | A broadcast wakes exactly the sleepers of its queue |
| `CatMouse.StepWakes` | os161/kern/asst1/catlock.c:118-128 | Which steps wake which sleepers, both ways |
| `CatMouse.StepInv` | os161/kern/asst1/catlock.c:95-190 | Every step keeps the invariant |
| `CatMouse.StepTotal` | os161/kern/asst1/catlock.c:95-190 | Every step uses up some of a finite supply |
| `CatMouse.Mover` | os161/kern/asst1/catlock.c:95-190 | Unless all are done somebody can move |
| `Malloc.Heap.Run` | os161/lib/libc/malloc.c:305-514 | After any sequence of malloc, valid free and stores into live regions, up to a request that goes wild, the headers tile the heap, agree with one another, have no two free neighbours, the live pointers are those obtained and not freed, and each region holds what was last stored in it; the history tells what each call did, and a request got a new region exactly if a free block had room or the break could move |
| `Malloc.Heap.Step` | os161/lib/libc/malloc.c:305-514 | What one call does to the live pointers, to the blocks and to what is stored behind the pointers, exactly; it goes wild exactly if no free block has room, the request with its header reaches 2^31 and sbrk does not fail |
| `Malloc.Heap.Store` | os161/lib/libc/malloc.c:305-403 | A store into a live region leaves every header and every other region alone |
| `Malloc.Heap.Malloc` | os161/lib/libc/malloc.c:305-403 | The lowest free block with room, cut to the request if a header and a cell are left over, and the rest a free block; else the heap grows by just the request and a header; the region is new and no other block in use changes; NULL and going wild exactly when they happen; no corruption branch is reachable |
| `Malloc.Heap.Extend` | os161/lib/libc/malloc.c:380-403 | The heap grown by a block, NULL exactly if sbrk fails, and a header past the break exactly if the amount is not positive as an int |
| `Malloc.Heap.Free` | os161/lib/libc/malloc.c:455-514 | Exactly that region is released and merged both ways, no other block in use changes; a pointer is refused as out of range exactly outside the heap, a live one only at its top |
| `Malloc.Heap.SplitBlock` | os161/lib/libc/malloc.c:265-302 | The split headers describe the two parts; neither internal error is reachable |
| `Malloc.Heap.MergeAt` | os161/lib/libc/malloc.c:425-451 | Two free neighbours become one, header links agreeing |
| `Malloc.Heap.Sbrk` | os161/lib/libc/malloc.c:236-255 | The break moves by a signed amount, up or down, or not at all; the heap keeps what is below it |
| `Malloc.Heap.constructor` | os161/lib/libc/malloc.c:121-178 | An empty heap at the aligned break |
| `Malloc.AllocateTiles` | os161/lib/libc/malloc.c:364-370 | Allocating keeps the tiling |
| `Malloc.AllocateMerged` | os161/lib/libc/malloc.c:364-370 | Allocating makes no two free neighbours |
| `Malloc.AllocateCarves` | os161/lib/libc/malloc.c:265-302 | In bytes: what is handed out is the request or at most a cell more, and the rest is a free block if it holds a header and a cell |
| `Malloc.LayoutUnique` | os161/lib/libc/malloc.c:265-514 | Blocks in use and no free neighbours leave one layout of the heap only |
| `Malloc.ReleaseTiles` | os161/lib/libc/malloc.c:492-508 | Freeing keeps the tiling |
| `Malloc.ReleaseMerged` | os161/lib/libc/malloc.c:492-508 | Freeing leaves no two free neighbours |
| `Malloc.GrowTiles` | os161/lib/libc/malloc.c:382-396 | Growing keeps the tiling |
| `Malloc.AllocateRelease` | os161/lib/libc/malloc.c:305-514 | Freeing what was just taken from a free block restores the heap exactly |
| `Malloc.GrowRelease` | os161/lib/libc/malloc.c:305-514 | Freeing what the heap was grown for leaves one free block at the top |
| `Malloc.Disjoint` | os161/lib/libc/malloc.c:305-403 | Regions of different blocks share no cell |
| `Malloc.HeaderApart` | os161/lib/libc/malloc.c:305-403 | No region contains a header |
| `Malloc.RoundedExact` | os161/lib/libc/malloc.c:329-330 | A size is rounded to enough room exactly up to 2^32 - 8, and to an amount that raises the break with its header exactly up to 2^31 - 16 |
| `Malloc.RoundedWraps` | os161/lib/libc/malloc.c:329-330 | The largest request becomes a block without data |
| `Malloc.LowersBreak` | os161/lib/libc/malloc.c:386-386 | A request for 0xffff0000 bytes lowers the break by 65528 |
| `Malloc.WildRequest` | os161/lib/libc/malloc.c:305-403 | In a new program that request goes wild, the top of the heap below its base |
| `Malloc.FreeNothing` | os161/lib/libc/malloc.c:473-476 | In a new program malloc(0) gives a pointer that free refuses |
| `Malloc.SplitTwice` | os161/lib/libc/malloc.c:265-403 | In a new program 800 bytes, freed, serve two requests for 8, side by side, and the heap does not grow |
| `Malloc.TopOnly` | os161/lib/libc/malloc.c:473-476 | A pointer at or past the top belongs exactly to an empty block at the very top |
| `Kheap.Kheap.Run` | os161/kern/lib/kheap.c:544-577 | Over every run of kmalloc, kfree on live pointers and stores behind them: pages divide into live blocks and an acyclic free list of counted length, size lists divide the list of all pages, in-use bits match it, the live pointers are those obtained and not freed, and behind each is what was last stored there; the history tells what each call did, and a request got a new region exactly if there was memory |
| `Kheap.Kheap.Step` | os161/kern/lib/kheap.c:544-577 | What one call does to the live pointers and to what is stored behind them, exactly |
| `Kheap.Kheap.Store` | os161/kern/lib/kheap.c:350-460 | A store into a live block leaves every free list, in-band as it is, alone |
| `Kheap.Kheap.Kmalloc` | os161/kern/lib/kheap.c:544-563 | A new block of the smallest size that will do, or new whole pages; every other block stays as it is; NULL exactly if no page of that size has room and all page references are used or the page allocator has nothing, and then nothing changes |
| `Kheap.Kheap.Kfree` | os161/kern/lib/kheap.c:565-577 | Exactly that block or region is freed |
| `Kheap.Kheap.SubpageKmalloc` | os161/kern/lib/kheap.c:350-460 | The head of the free list of the first page with room, else a block of a new page, the others untouched; NULL exactly as for kmalloc |
| `Kheap.Kheap.SubpageKfree` | os161/kern/lib/kheap.c:462-540 | The block is freed and its page given back exactly when it was the last one in use; -1 exactly for whole-page regions |
| `Kheap.Kheap.AllocPageRef` | os161/kern/lib/kheap.c:110-133 | An unused page reference, or none if all are in use |
| `Kheap.Kheap.SetupPage` | os161/kern/lib/kheap.c:440-450 | The blocks of a new page form one list through all of them |
| `Kheap.Kheap.FindRoom` | os161/kern/lib/kheap.c:372-378 | The first page on the list of that size with room; none exactly if no page of that size has room |
| `Kheap.Kheap.NewPage` | os161/kern/lib/kheap.c:413-456 | A page of free blocks at the head of both lists; none exactly if all page references are used or the page allocator has nothing |
| `Kheap.Kheap.FindPage` | os161/kern/lib/kheap.c:481-498 | The page a pointer lies on, if it is managed |
| `Kheap.Kheap.PutBack` | os161/kern/lib/kheap.c:507-526 | The block heads the free list of its page; no other block changes |
| `Kheap.Kheap.ReleasePage` | os161/kern/lib/kheap.c:529-534 | An empty page leaves both lists and is given back |
| `Kheap.Kheap.RemoveLists` | os161/kern/lib/kheap.c:307-330 | Exactly that page leaves both lists |
| `Kheap.Unlink` | os161/kern/lib/kheap.c:307-330 | Walking to an element and unlinking it removes it from the list and touches no other |
| `Kheap.BlockType` | os161/kern/lib/kheap.c:332-348 | The smallest size class that is large enough |
| `Kheap.PopOk` | os161/kern/lib/kheap.c:382-400 | Taking the head of a free list puts exactly one more block in use and keeps the invariant |
| `Kheap.PushOk` | os161/kern/lib/kheap.c:518-526 | Putting back a block takes exactly that one out of use and keeps the invariant |
| `Kheap.AddPageOk` | os161/kern/lib/kheap.c:431-456 | A new page keeps the invariant and puts no block in use |
| `Kheap.DropPageOk` | os161/kern/lib/kheap.c:529-534 | Dropping an empty page keeps the invariant |
| `Kheap.FreeBound` | os161/kern/lib/kheap.c:165-199 | All blocks are on the free list exactly if none is in use |
| `Kheap.BlocksApart` | os161/kern/lib/kheap.c:350-460 | Blocks do not overlap, within a page or across pages |
| `Kheap.WordsApart` | os161/kern/lib/kheap.c:544-563 | Words behind different live pointers, blocks or whole pages, are different |
| `Kheap.TakenHolds` | os161/kern/lib/kheap.c:462-540 | Freeing a block, page given back or not, changes no word behind another pointer |
| `Kheap.HandedLive` | os161/kern/lib/kheap.c:350-460 | Handing out a block makes exactly its pointer live |
| `Kheap.HandedNew` | os161/kern/lib/kheap.c:350-460 | A block handed out was behind no live pointer, and has room for the request |
| `Kheap.TakenLive` | os161/kern/lib/kheap.c:462-540 | Freeing a block makes exactly its pointer dead, page given back or not |
| `Kheap.PagesExact` | os161/kern/lib/kheap.c:553-554 | A size is rounded to enough pages exactly up to 2^32 - 4096, and to none above |
| `Queue.Queue.AddTail` | os161/kern/lib/queue.c:90-108 | Appends through wrap-around and growth; with room it never grows, so the recursion ends |
| `Queue.Queue.Grow` | os161/kern/lib/queue.c:17-51 | The order is kept; on failure nothing changes |
| `Queue.Queue.Preallocate` | os161/kern/lib/queue.c:70-81 | The contents are kept and the ring has at least n places, all but one usable; it fails only if it has to grow and cannot |
| `Queue.Queue.RemHead` | os161/kern/lib/queue.c:110-121 | Takes the oldest element |
| `Queue.Queue.GetHead` | os161/kern/lib/queue.c:123-131 | Shows the oldest element |
| `Queue.Queue.Empty` | os161/kern/lib/queue.c:84-88 | Whether there is none |
| `Queue.Queue.constructor` | os161/kern/lib/queue.c:53-68 | An empty queue |
| `Rings.RingAppend` | os161/kern/lib/queue.c:90-108 | Storing at the write position appends to the sequence held in the ring |
| `Rings.RingTail` | os161/kern/lib/queue.c:110-121 | Advancing the read position drops the first element of the sequence held in the ring |
| `Printf.PrintfAtoi` | os161/lib/libc/__printf.c:149-456 | atoi of what %d prints is the number if and only if it is zero or no zeros are filled in behind it, for every 32-bit number, width and flags |
| `Printf.RoundTrip` | os161/lib/libc/__printf.c:330-369 | The same for the field: only - together with 0 and a width beyond the digits can spoil a nonzero number |
| `Printf.ShiftedExact` | os161/lib/libc/__printf.c:330-369 | A number times a power of ten wraps to itself only if one of them is trivial |
| `Printf.PercentDPrints` | os161/lib/libc/__printf.c:149-308 | Reading a conversion with flags and a width of any value prints that field |
| `Printf.DigitsValue` | os161/lib/libc/__printf.c:400-424 | The decimal digits of a number have its value |
| `Printf.DigitsNumeral` | os161/lib/libc/__printf.c:400-424 | The digits in any base up to 16 are a numeral of the number without leading zeros, a to f after 9 |
| `Printf.NumberText` | os161/lib/libc/__printf.c:376-456 | %d and %u print decimal, %o octal, %x and %p hexadecimal numerals of the number, after sign and base mark |
| `Printf.FieldShape` | os161/lib/libc/__printf.c:330-369 | Where a text stands in its field and what surrounds it |
| `Printf.AltPrints` | os161/lib/libc/__printf.c:426-456 | # puts 0x before hexadecimal and 0 before octal numbers |
| `Printf.TextPrints` | os161/lib/libc/__printf.c:461-528 | %s prints its text, or (null) |
| `Printf.CharPrints` | os161/lib/libc/__printf.c:461-528 | %c prints its character, and what is no conversion stands for itself |
| `Printf.Fits` | os161/lib/libc/__printf.c:391-424 | The digits of a 32-bit number in base 8, 10 or 16 are at most eleven |
| `Printf.ElevenDigits` | os161/lib/libc/__printf.c:391-424 | Eleven are needed |
| `Printf.PrintDigits` | os161/lib/libc/__printf.c:391-432 | The twelve-byte buffer filled from the right holds exactly the digits and is never overrun |
| `Printf.Printer.PutField` | os161/lib/libc/__printf.c:330-369 | A field is exactly as wide as asked or as its text, with the fill on the right side |
| `Printf.Printer.PutNum` | os161/lib/libc/__printf.c:376-456 | Sign, prefix, digits and fill of an integer conversion |
| `Printf.Printer.SendChar` | os161/lib/libc/__printf.c:461-528 | Each character of the format prints its part of the whole |
| `Printf.Printer.Vprintf` | os161/lib/libc/__printf.c:534-553 | The whole output reaches the client and is counted |
| `Printf.Snp.Send` | os161/lib/libc/snprintf.c:44-64 | The buffer holds the prefix that fits of everything sent, and nothing is written past it |
| `Printf.Vsnprintf` | os161/lib/libc/snprintf.c:68-112 | The prefix that fits is stored as a string with its terminator and no other, and the full length returned; a zero length writes nothing |
| `Printf.PrintIsText` | os161/lib/libc/__printf.c:461-553 | Nothing that is printed contains a terminator |
| `Atoi.Atoi` | os161/lib/libc/atoi.c:20-72 | Blanks, an optional sign and the digits up to the first other character, modulo 2^32 |
| `Atoi.Accumulate` | os161/lib/libc/atoi.c:41-63 | The value of the digits modulo 2^32 |
| `Atoi.ParseStops` | os161/lib/libc/atoi.c:20-72 | What lies behind the terminator in memory does not matter |
| `Random.State.Run` | os161/lib/libc/random.c:230-442 | Over any script of random, srandom, initstate and setstate to another array the library is a pool of independent generators: each array yields the sequence its generator would yield alone since it was last seeded |
| `Random.State.Random` | os161/lib/libc/random.c:413-442 | The next term of the recurrence, and the generator advanced by one; the pointers keep their distance |
| `Random.State.Srandom` | os161/lib/libc/random.c:230-247 | The generator is the seeded one after its warm-up, the rear pointer back at 0 |
| `Random.State.SetState` | os161/lib/libc/random.c:352-394 | Every array keeps its generator when another one is selected; selecting the current one keeps its type, and its position if and only if its stored word is up to date |
| `Random.State.InitState` | os161/lib/libc/random.c:280-332 | Fails exactly below 8 bytes; else the largest generator that fits, seeded, the others kept |
| `Random.TypeFor` | os161/lib/libc/random.c:303-325 | A type whose state fits in n bytes, and no larger type does |
| `Random.State.constructor` | os161/lib/libc/random.c:156-200 | The library starts with a generator of type 3 over its own table |
| `Random.State.Feedback` | os161/lib/libc/random.c:427-439 | One step on the ring is one step of the recurrence; the two pointers never wrap together |
| `Random.StepDecodes` | os161/lib/libc/random.c:427-439 | Replacing the front word is shifting the sequence by one term |
| `Random.MuxRoundTrip` | os161/lib/libc/random.c:363-371 | Type and rear position survive being stored in the word in front of the state |
| `Random.StoredWordStale` | os161/lib/libc/random.c:363-371 | After one call the stored word no longer tells the position |
| `Random.OutputRange` | os161/lib/libc/random.c:413-442 | Every output is below 2^31 |
| `Random.OutputsAppend` | os161/lib/libc/random.c:413-442 | One more call gives the output of the generator advanced that often |
| `Pseudorand.Schrage` | os161/kern/dev/generic/pseudorand.c:20-39 | The split product does not overflow 32 bits and is congruent to the product |
| `Pseudorand.Softc.Random` | os161/kern/dev/generic/pseudorand.c:20-39 | The seed times 16807 modulo 2^31 - 1, in range, the result within randmax |
| `Pseudorand.Softc.Draw` | os161/kern/dev/generic/pseudorand.c:20-48 | After k calls the seed is 16807^k times the first, modulo 2^31 - 1 |
| `Pseudorand.PowerStep` | os161/kern/dev/generic/pseudorand.c:20-39 | Reducing at every step is reducing once |

## Left out

- Sfs.Sfs.Io: offsets and lengths whose sum reaches 2^31 are excluded, because `off_t` would overflow.
- SfsMount.Mount: block numbers are not limited to 2^22, above which `off_t`, of 32 bits, cannot hold the position of a block; mksfs makes no such volume. Nothing is promised of a volume mounted with an empty map.
- SfsRun.Boot: one volume, and one operation after the other: this version of the file system has no locks of its own. A run stops at a panic or a torn file.
- SfsMake.Mksfs: the device is all the space there is, and its sectors have the right size.
- Sfs.Sfs.LoadVnode: an inode of invalid type panics in the code; the contract asks for a live inode with a valid type, which every directory entry is proved to name.
- Sfs.Sfs.Decref: open counts of vnodes, which only reach `sfs_close`, a function that syncs the inode.
- Uio.Uio.Move: user-space transfers and their faults. The buffer behind the iovec is there.
- Kheap.Kheap.AllocPageRef: the in-use bits are a sequence of booleans, not packed into words; `alloc_kpages` is given by its contract.
- Queue.Queue.AddTail: rings of more than 2^28 entries, where sizes in bytes would overflow.
- Printf.Vsnprintf: the format asks for arguments of the right kind and widths do not overflow `int`; the optional `long long` support is off, so `l` and `q` still take 32-bit arguments.
- Malloc.Heap.Free: pointers that malloc never returned, beyond the range test that the code makes; the break is moved by nobody else.
- Malloc.Heap.Run: a run ends at a request that goes wild, and what is promised of the heap with it.
- Random.State.SetState: arrays that were never set up by initstate.
- Random.State.Run: setstate to the array in use, which `Random.State.SetState` covers.
- Random.State.InitState: arrays are disjoint and word-aligned, and hold at least the bytes announced.
- Stoplight.Safety: messages to the console, and the abandoned variant in `stoplight1.c`. Joining a waitlist succeeds: the source ignores the ENOMEM of `q_addtail`, after which a thread would wait unlisted.
- Stoplight.Fairness: joining a waitlist succeeds, as for Safety.
- CatMouse.NoLostWakeup: joining a waitlist succeeds, as `cv_wait` ignores the ENOMEM of `q_addtail` too.
- CatMouse.Safety: messages and the time spent eating.
- The `superdirty` flag of SFS, which nothing sets.
- `sfs_stat`, `sfs_gettype`, `sfs_tryseek`, `sfs_lookparent` and the stubs: easy members.
- `pseudorand_read`, which only copies numbers out.
- `emufs`, device drivers, virtual memory, processes, system calls: register or hardware behaviour, or code that is not complete in this repository.
- `hashtable.c`, `array.c` and the string functions of the library.
