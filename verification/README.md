# Verification model of ukernel

ukernel is a small 32-bit x86 kernel in C: preemptive threads with semaphores and recursive locks, a process
tree with fork, exit and wait, a page and heap allocator, an inode file system over an IDE disk, pipes, and a
few shell built-ins. This project models its stateful core in Dafny and proves what that core is meant to
guarantee. Code that updates objects in place is modelled by classes and methods with loops, and each method
is proved against a specification on values; the lemmas are about those specifications.

An ASSERT or PANIC of the kernel stops the machine. Where one cannot fire, the model has an `assert` at its
place. Where one can, the method has an outcome for it (`Halted`, `Stops`, ...), and the contract says exactly
when that outcome occurs.

What a call promises about the disk is stated with `Stored`: every inode in use can be loaded again from its
slot of the inode table, and the other slots are blank. A mounted partition is `Valid` when it is sound in
memory and `Stored`.

System calls enter through an interrupt gate (interrupt.c:86-88) and run with interrupts off, so fork, each half
of exit and one turn of wait are single steps of the process model; the locks are also used by kernel threads
with interrupts on, so there every statement outside of `sema_down` and `sema_up` is a step of its own.

## How the files fit together

| files | what they model |
|---|---|
| `Bitmap`, `Lists`, `Sectors` | the bitmap with its first-fit search; the intrusive doubly linked list; sectors and words |
| `InodeTable`, `InodeStore`, `InodeCache`, `BlockMap`, `FileSystem`, `FileCalls` | inode slots on disk, the table against the inodes in memory, the open-inode list, block ownership, `file_write`, `file_read`, `inode_release`, `sys_lseek` |
| `DirEntries`, `DirSpec`, `Directory`, `DirReading`, `DirOverflow` | 24-byte entries, a directory as a finite map, insert, search, delete, reading in order, a directory whose direct blocks are full |
| `Paths`, `TreeSpec`, `Namespace`, `Washing`, `NameOps`, `Format`, `TreeCalls`, `Reload`, `CallRuns` | path parsing and washing, the directory tree, where a washed path leads, `search_file`, `sys_getcwd`, a formatted partition, the calls that change the tree, loading every inode anew, and runs of calls |
| `Paging`, `PageAlloc`, `HeapSpec`, `Heaps`, `Fork` | frames and page tables, `malloc_page`/`mfree_page`, `sys_malloc`/`sys_free`, the address-space copy of fork |
| `SchedSpec`, `LockSteps`, `SchedLaws`, `Threads` | the scheduler, the locks and the semaphores as a transition system and as code; who runs next, and the order of turns over runs |
| `ProcessSpec`, `ProcessRuns`, `Processes` | the process tree, as a transition system and as code; runs against a record kept of the system calls alone |
| `Ring`, `RingWaits`, `DiskSignals`, `Ide` | the ring buffer and pipes, waiting on the ring, the disk interrupt handshake, chunked transfers |

## Where the code does less than it promises

Each of these is a theorem with its exact condition, not only a remark.

- `bitmap_scan` tests one bit past the end. Its answer is right if that bit reads as set; if it reads as clear,
  it is wrong exactly when nothing fits and the last `cnt - 1` bits are clear (`Bitmaps.GuardBit`,
  `Bitmaps.GuardBitFails`). A kernel allocation then maps a page behind the range of the bitmap
  (`PageAlloc.StopsWhen`, `PageAlloc.PastWitness`); a user allocation runs into the limit of `vaddr_get` instead,
  in a space that ends at 0xc0000000 (`PageAlloc.UserNeverPast`).
- `partition_format` clears one bit too many, so the bitmap offers a block behind the partition exactly when the
  map has padding and its two sector counts agree, the common case (`Formats.OutsideBlock`,
  `Formats.OutsideWitness`).
- `inode_sync` keeps the inode number in a `uint8_t`: storing and loading agree exactly for numbers below 256
  (`InodeTable.SyncThenLoad`). So a call that stores an inode keeps the inode table sound if and only if the
  numbers it stores are below 256, which the inode bitmap or the path tells before the call
  (`InodeStore.SyncKeeps`, `TreeCalls.SysMkdir`, `Reload.LowNumbers`); at number 300 inode 44 is lost and 300 not
  stored (`InodeStore.Number300`).
- An entry name of 16 characters passes the ASSERT of `create_dir_entry` but is read back as another name unless
  the low byte of the inode number is zero (`DirEntries.StoredName`, `DirEntries.LongNameLost`).
- `sync_dir_entry` does not see an indirect table that is there already and makes another. An entry beyond the
  direct blocks comes on top of the others if and only if no entry was in the table; otherwise the names there
  are found no more. The blocks of the old table are lost if and only if there was one
  (`DirOverflow.KeptExactly`, `DirOverflow.NamesLost`, `DirOverflow.LeakExactly`, `DirOverflow.TwoPastDirect`).
- `sys_unlink` has no test of the depth that `sys_open` has: what it removes is not what the path names if and
  only if components remain after the file or the path ends in a slash (`TreeCalls.UnlinkBeyond`); `/f/x` and
  `/f/` remove `/f` (`TreeCalls.UnlinkBelow`).
- `wash_path` takes a component back for `..` without looking at the tree. A path that `search_file` finds a directory
  at, or a file with nothing behind it, leads to the same place when washed (`Washing.WashedLeads`); `/f/..`
  behind a file `f` is found as `f` but washed to the root (`Washing.BehindFile`).
- `sys_rmdir` of a path that ends in `.` releases the inode and leaves the entry at home; what is left is no tree
  (`TreeCalls.SysRmdir`, `TreeCalls.RemoveFromItself`).
- `inode_open` trusts the number stored in the slot. The list of open inodes keeps one entry per number exactly
  when that number is not open already (`InodeCaches.PushedOk`).
- `pipe_write` computes the room as 4096 minus the length, one more than the ring takes; it gets stuck exactly
  when asked for more than 4095 minus the length (`Rings.IoQueue.PipeWrite`).
- A thread that had to wait for the lock of the ring does not look again before it sleeps. Exactly then it can
  sleep although it need not (`RingWaits.StepOk`): with two consumers one can sleep beside a byte
  (`RingWaits.TwoConsumers`), and a consumer and a producer that both wait can wait for each other
  (`RingWaits.BothWait`). With one thread that waits it cannot happen (`RingWaits.OneWaiter`).
- init is not woken for a child it adopts that hangs already. While nobody misses a child, a step makes somebody
  miss one if and only if a process with a hanging child exits while init waits, and then it is init
  (`ProcessSpec.MissExactly`, `ProcessSpec.InitCanMiss`).
- `file_read` stops the machine from block 139 on and at the position that an empty write to an empty file
  leaves; the contract has both (`FileSystem.FileSystem.FileRead`).

## Model

| member | source | states |
|---|---|---|
| Bitmaps.Bitmap.Set | bitmap.c:66-76 | one bit of the map changes, every other bit and the bit past the end stay |
| Bitmaps.Bitmap.SetAll | memory.c:63-64 | the loop of vaddr_get and vaddr_remove changes exactly the cnt bits from the start on |
| Bitmaps.Bitmap.Scan | bitmap.c:20-64 | stops exactly on a full map; for one bit it returns the least clear one; for more, the least run in the map extended by the bit past the end, or -1 when there is none |
| Bitmaps.GuardBit | bitmap.c:42-60 | when a search that looks one bit too far is right: if and only if the guard bit is set, the tail is not clear, or a run fits |
| Bitmaps.GuardBitFails | bitmap.c:42-60 | a map and a length for which the clear bit past the end makes the search answer a run that does not fit |
| Bitmaps.ByteWrite | bitmap.c:66-76 | changing one bit of one byte changes exactly that bit of the whole map |
| Bitmaps.TakeOne | bitmap.c:66-76 | taking a free bit lowers the number of free bits by one |
| Bitmaps.NoneFree | bitmap.c:20-32 | the count of free bits is zero exactly when the map is full, the case bitmap_scan stops in |
| Lists.List.InsertBefore | list.c:12-20 | relinking puts the element at its place in the sequence and keeps the list well linked in both directions |
| Lists.List.Push | list.c:22-23 | the element becomes the first; used for woken threads and open inodes |
| Lists.List.Append | list.c:25-26 | the element becomes the last |
| Lists.List.Remove | list.c:28-34 | exactly that item is gone, the others keep their order and links |
| Lists.List.Pop | list.c:36-41 | returns and removes the first item |
| Lists.List.Find | list.c:43-53 | true exactly when the element is on the list |
| Lists.List.Len | list.c:70-80 | the number of items |
| Lists.List.IsEmpty | list.c:82-83 | true exactly for the empty list |
| InodeTable.InodeLocate | inode.c:22-43 | the sector and offset of a slot, whether it straddles, and that it never leaves the table |
| InodeTable.InodeSync | inode.c:46-77 | the 76 bytes of slot i_no mod 256 are replaced, every other byte of the disk stays |
| InodeTable.InodeDelete | inode.c:152-174 | the slot is zeroed and nothing else changes |
| InodeTable.InodeLoad | inode.c:98-123 | parses exactly the bytes of the slot, over one sector or two |
| InodeTable.StoredBytes | inode.h:8-18 | which byte of a slot holds which byte of the number, of the size and of the 13 block addresses; the others are zero |
| InodeTable.StoredFields | inode.c:56-60 | storing and parsing returns number, size and block addresses, with the in-memory members cleared |
| InodeTable.SlotsDisjoint | inode.c:22-43 | setting one slot leaves every other slot's bytes alone |
| InodeTable.SyncThenLoad | inode.c:46-121 | inode_sync then load gives the fields back if and only if the number is below 256 or the slot held them already |
| InodeStore.SyncKeeps | inode.c:46-77 | storing a changed or new inode keeps the table sound if and only if its number is below 256 |
| InodeStore.SyncBothKeeps | fs.c:654-675 | storing a directory and the new inode it names: if and only if both numbers are below 256 |
| InodeStore.SyncDeleteKeeps | fs.c:542-565 | storing a directory and clearing the slot of the inode it no longer names: if and only if the directory's number is below 256, whatever the other |
| InodeStore.Number300 | inode.c:46-48 | storing number 300 makes slot 44 load as 300, leaves slot 300 blank, and the table is not sound |
| InodeCaches.Cache.InodeOpen | inode.c:80-131 | an open inode is shared and counted; another is loaded and put in front; the list keeps one entry per number exactly when the loaded number is new |
| InodeCaches.Cache.InodeClose | inode.c:134-149 | the count goes down, and the entry leaves the list with the last close |
| InodeCaches.CountsBalance | inode.c:80-149 | over every run an inode is cached exactly while opened more often than closed, and its count is the difference |
| InodeCaches.PushedOk | inode.c:122-127 | one entry per number is kept if and only if the number loaded is not on the list |
| InodeCaches.GoneOk | inode.c:138-146 | removing the entry with the last close keeps one entry per number, and only that number goes |
| BlockMap.GrowOwned | file.c:331-442 | giving newly allocated blocks to one inode keeps every block in one place of one inode |
| BlockMap.GrowFile | file.c:331-442 | hanging new direct or indirect blocks on a file changes no byte of any file, its own included |
| BlockMap.AppendChunk | file.c:447-470 | one round of the write loop appends exactly its chunk to the content |
| BlockMap.OthersKept | file.c:447-470 | writing to a block of one file leaves every other inode's content and table alone |
| BlockMap.ReadChunk | file.c:570-589 | the bytes of a block within the file are the file's bytes there |
| BlockMap.DataWriteOwned | file.c:447-470 | ownership does not depend on data sectors |
| BlockMap.ShrinkOwned | inode.c:185-220 | dropping blocks together with their bits keeps ownership and leaks nothing |
| FileSystem.FileSystem.AllocBlock | file.c:71-78 | stops exactly when no block is free; otherwise exactly the first clear bit is set and its address returned |
| FileSystem.FileSystem.Collect | file.c:313-442 | the four cases of block collection: which blocks are new, where they hang, and that the collected addresses are the file's |
| FileSystem.FileSystem.Append | file.c:286-475 | the content grows by exactly the buffer, no other content changes; the inode table stays sound if and only if the number is below 256; stops exactly when the size reaches the ASSERT or blocks run out, the ASSERT at file.c:299 holding |
| FileSystem.FileSystem.FileWrite | file.c:249-476 | -1 and no change above the maximal size; otherwise content c becomes c + buf across the direct/indirect boundary, other files keep theirs, and when it stops; every inode still loads as it is if and only if the number is below 256 |
| FileSystem.FileSystem.ReadRange | file.c:482-511 | the uint32_t arithmetic of how much to read and from which blocks, wrap-around included |
| FileSystem.FileSystem.FileRead | file.c:479-593 | returns exactly c[p..min(p+n,size)] and advances the position, -1 at the end, and exactly when it stops; changes no file |
| FileSystem.FileSystem.InodeCreate | file.c:61-68 | the least number not in use, an empty inode, every other file unchanged; stops exactly when all numbers are in use |
| FileSystem.FileSystem.FreeBlocks | inode.c:207-220 | clears exactly the bits of the listed blocks |
| FileSystem.FileSystem.InodeRelease | inode.c:177-234 | exactly the bits the inode owned and its number become free, its slot is blank, no other file changes, ownership and the inode table stay sound |
| FileSystem.ReleaseOwned | inode.c:177-234 | after the release every remaining block is in one place and no set bit is without owner |
| FileCalls.Lseek | fs.c:472-508 | the new position for each whence, refused outside of the file even when int32_t overflows; stops exactly for another whence |
| FileCalls.AppendAndReadBack | file.c:249-593 | writing, seeking back and reading returns exactly what was appended, if and only if the last block is one that file_read allows; the inode table stays sound if and only if the number is below 256 |
| DirEntries.StoredName | dir.c:114-122 | an entry reads back as made if and only if its name leaves room for the zero or the inode number's low byte is zero |
| DirEntries.LongNameLost | dir.c:114-122 | a 16-character name that is lost |
| DirEntries.EntryBytes | dir.h:20-25 | which byte of an entry holds which byte of its name, inode number and type |
| DirEntries.LiveUpdate | dir.c:215-227 | filling an unused entry inserts exactly it among the entries in use, in order |
| DirSpec.PutInLookup | dir.c:33-235 | after an insertion the new name resolves to the entry and every other name as before |
| DirSpec.LookupAt | dir.c:33-101 | with distinct names each listed entry is found under its name |
| DirSpec.TakenOut | dir.c:238-366 | what is left after a deletion still has distinct names and inode numbers |
| Directory.SearchDirEntry | dir.c:33-101 | returns the entry of the name in the directory's list, or nothing if no entry has it, although unused entries are compared too |
| Directory.SyncDirEntry | dir.c:125-235 | puts exactly the entry in, at the first place that has none, keeps the shape, the size and every other file; takes a block exactly when that place is in a block not yet allocated; when it finds no free block |
| Directory.DeleteDirEntry | dir.c:238-366 | takes exactly the entry with the inode number out, gives its block back when it was alone there, and stores the directory |
| Directory.InsertExisting | dir.c:215-227 | an entry over an unused one: list, size, shape, ownership and all files |
| Directory.InsertFresh | dir.c:155-213 | an entry in a new block: the same, and the block is owned once |
| Directory.ClearEntry | dir.c:349-361 | clearing one of several entries of a block |
| Directory.ClearBlock | dir.c:309-319 | removing the only entry of a block with the block, whose bit is cleared |
| DirReading.DirRead | dir.c:369-437 | at position p returns entry p of the list and moves on by one entry, nothing past the last; its ASSERT holds |
| DirReading.ReadAll | buildin_cmd.c:214-245 | a full reading delivers each entry once in storage order: it is the list search_dir_entry searches |
| DirReading.DirIsEmpty | dir.c:440-455 | true if and only if only . and .. remain, and then no block after the first exists, as dir_remove asserts |
| DirOverflow.SyncDirEntry | dir.c:125-235 | any directory without an indirect table, full or not: exactly the entry is put in among those that search_dir_entry looks through, every other inode keeps its blocks and content, ownership holds; when it stops |
| DirOverflow.SyncPastDirect | dir.c:157-198 | the direct blocks full, with or without a table: two blocks are taken, the table names one block with only the new entry, no block is in two places, nothing else changes |
| DirOverflow.KeptExactly | dir.c:138-182 | the entries that were there stay if and only if none was in the table |
| DirOverflow.NamesLost | dir.c:138-182 | every name in the table before is found before the call and not after it |
| DirOverflow.LeakExactly | dir.c:161-181 | every set bit stays accounted for if and only if there was no table |
| DirOverflow.TwoPastDirect | dir.c:125-235 | two entries beyond the direct blocks: the first is lost, and blocks with it; stops if and only if fewer than 4 are free |
| Paths.PathParse | fs.c:180-194 | returns the first component and where the others are |
| Paths.PathDepthCnt | fs.c:197-213 | counts the components; for a path without any the answer depends on what the buffer held |
| Paths.StrRChr | string.c:85-96 | the last place of a character |
| Paths.ComponentsSplit | fs.c:180-194 | a slash separates and nothing else does: the components are those before it and those after it; without one the whole is one |
| Paths.ComponentsJoined | fs.c:180-213 | taking a rendered path apart gives its components back |
| Paths.WashPath | buildin_cmd.c:12-50 | the output is the path of the resolved components of the input, by the laws of ResolveLaws |
| Paths.ResolveLaws | buildin_cmd.c:30-43 | a name is one step down, .. takes back the step before it, . stays, and .. of the root is the root, whatever came before |
| Paths.ResolveClean | buildin_cmd.c:12-50 | the stack never holds an empty, . or .. component, and .. at the root stays there |
| Paths.WashedPath | buildin_cmd.c:12-50 | splitting the output gives the component list back, and washing twice is washing once |
| Paths.LastComponent | fs.c:606 | what follows the last slash is the last component, and what is before it are the others |
| TreeSpec.FindOn | fs.c:231-281 | searching a path is searching its parts one after the other |
| TreeSpec.FileReach | fs.c:231-281 | a search that ends at a file: the components up to it lead there alone, and they are all of them if and only if what comes before the last one is a directory |
| TreeSpec.PathLeads | fs.c:216-284 | the path made of the home names of a directory leads to it, in every tree, and has no zero byte |
| TreeSpec.AddAgrees | fs.c:569-695 | adding a linked entry (with . and .. for a directory) keeps the tree |
| TreeSpec.AddFinds | fs.c:569-695 | the new path is found, and every path that led somewhere leads there still |
| TreeSpec.RemoveAgrees | fs.c:511-566 | removing a leaf keeps the tree |
| TreeSpec.RemoveForgets | fs.c:511-566 | nothing leads to the removed inode any more |
| TreeSpec.LastStep | fs.c:749-776 | where a directory was found: at home, at itself for ., or at a child for .. |
| TreeSpec.Dangling | fs.c:749-776 | removing a directory's inode while it is listed at home leaves no tree |
| Namespace.Namespace.SearchFile | fs.c:216-284 | goes exactly where the components lead in the tree, and reports the part of the path it tried |
| Namespace.Namespace.GetParentDirInodeNr | fs.c:779-790 | the entry .. names the parent in the tree |
| Namespace.Namespace.GetChildDirName | fs.c:794-838 | the first entry with the child's number is the one that names it, and its name is appended |
| Namespace.Namespace.GetCwd | fs.c:841-885 | the upward walk ends at the root and the reversal gives the path from the root; stops exactly when the caller's buffer is too small |
| Namespace.Namespace.SearchCwd | fs.c:216-284 | search_file of what sys_getcwd returns is the directory it was asked for, with its parent; stops exactly when the buffer is too small |
| Washing.WashedLeads | buildin_cmd.c:12-50 | in every tree a path that leads to a directory, or to a file that it names to the end, leads to the same inode when washed; a washed path is no longer than the path |
| Washing.BehindFile | buildin_cmd.c:30-37 | a file f in the root: search_file of /f/.. stops at f, while the washed path is the root |
| Washing.SearchWashed | buildin_cmd.c:12-50 | search_file(p) and search_file(wash_path(p)), run one after the other, agree in these cases |
| NameOps.NewDirectory | fs.c:608-652 | a fresh inode with one block holding . and .. and nothing else; when it stops |
| NameOps.LinkDirectory | fs.c:654-675 | the new directory is entered at its home and both inodes are stored; the inode table stays sound if and only if both numbers are below 256 |
| NameOps.MakeDirectory | fs.c:605-681 | both together keep ownership, all files and the tree in memory, and the inode table if and only if both numbers are below 256; exactly when there is no room |
| NameOps.TreeAdd | fs.c:605-681 | an insertion in a directory on disk is an insertion in the tree |
| NameOps.TreeRemove | fs.c:542-565 | a deletion of a file or empty directory on disk is a deletion in the tree |
| Formats.BlockBitmap | fs.c:133-143 | the bits of a new block bitmap: the first taken, everything up to and including the bit past the last block free, the padding set |
| Formats.OutsideBlock | fs.c:88-142 | when the bit cleared too many offers a block behind the partition, which is the next sector: if and only if the map has padding and the two sector counts agree |
| Formats.OutsideWitness | fs.c:88-142 | a partition of 640 sectors offers sector 640 |
| Formats.RootOwned | fs.c:150-172 | the root directory owns the first data block, no set bit is without owner |
| Formats.RootTree | fs.c:158-172 | the root directory alone is a tree |
| Formats.PartitionFormat | fs.c:75-177 | what is on the disk afterwards, read back: the two bitmaps, the inode table with only the root, the root directory |
| Formats.Mount | fs.c:22-72 | bitmaps and inodes read from the disk; the partition satisfies the file-system invariant |
| Formats.Format | fs.c:22-177 | formatting and mounting starts every run in a sound state: no file, the root with . and .. stored and listed |
| TreeCalls.SysMkdir | fs.c:569-695 | outcome for every path; on success every path can be found and every file read after loading all inodes anew, older ones as before and the new path leading to the new directory, if and only if its number and its parent's are below 256 |
| TreeCalls.SysOpenCreate | fs.c:287-357 | creating a file: the same with an empty file; a path ending in / fails, an empty path depends on the byte in front of it |
| TreeCalls.SysOpen | fs.c:287-357 | opening without O_CREAT: which inode, or -1, or a failed ASSERT, for every path; the trailing slash and the two depths are tested |
| TreeCalls.OpensExactly | fs.c:287-330 | a path at which search_file finds a file opens it if and only if all components were needed and it does not end in a slash, that is, if the file is what the path names |
| TreeCalls.MakeFile | file.c:106-199 | inode, entry and both inodes stored, the tree grown by the file; the inode table stays sound if and only if both numbers are below 256 |
| TreeCalls.SysUnlink | fs.c:511-566 | fails for open files, directories and missing names; otherwise the file that search_file stops at and its content are gone and nothing else, the inode table sound if and only if the directory's number is below 256 |
| TreeCalls.UnlinkBeyond | fs.c:511-566 | the file removed is not what the path names, and sys_open would refuse the path, if and only if components remain after the file or the path ends in a slash |
| TreeCalls.UnlinkBelow | fs.c:511-566 | /f, /f/x and /f/ all remove the file f, and only the first opens it |
| TreeCalls.SysRmdir | fs.c:749-776 | outcome for every path; the directory is gone from the tree unless the path ended in ., when ownership and the inode table are still sound but the tree is not |
| TreeCalls.RemoveFromItself | dir.c:447-471 | the counterexample: removal through . leaves no tree |
| TreeCalls.SysWrite | file.c:249-476 | writing a file moves no path and changes no other content, also after loading all inodes anew if and only if its number is below 256 |
| Reload.LoadInodes | inode.c:95-127 | loading every marked inode from a sound table gives the inodes in memory |
| Reload.ReloadNames | inode.c:95-127 | after loading every inode anew each path leads where it led and each file holds what it held |
| Reload.LowNumbers | inode.c:46-48 | whether the numbers a new name needs are below 256, found out before the call |
| Reload.MkdirReloaded | fs.c:569-695 | sys_mkdir and a reload: the new path leads to the new directory, older paths and contents are as before, exactly when the numbers were low; otherwise the table is not sound |
| CallRuns.RunCalls | fs.c:287-776 | any sequence of mkdir, create, unlink, rmdir and write does what each should, up to the first that stops, fills a directory, stores a number of 256 or more, or removes a directory through its own .; how each call ends is told from the state before it |
| CallRuns.WriteReaches | fs.c:287-357 | a write through a path at which search_file finds a file appends to it if and only if all components were needed and the path does not end in a slash; otherwise it changes nothing |
| CallRuns.Untouched | fs.c:287-776 | over any run a file that no call writes or removes holds what it held |
| Paging.EntriesReached | memory.c:85-99 | the self-map: pte_ptr and pde_ptr reach the table entry and the directory entry of the address (32-bit paging, Intel SDM volume 3A section 4.3) |
| Paging.UseAdded | memory.c:113-142 | taking a free frame for a page or table keeps: no frame twice, none lost, pools apart, tables present |
| Paging.UseEnds | memory.c:360-385 | giving a page's frame back keeps the same |
| Paging.RightPool | memory.c:360-377 | the address test of pfree finds the pool palloc took the frame from |
| Paging.RoundTrip | memory.c:144-168 | allocating a range and freeing it restores the virtual bitmap and every frame bit except new page tables; in the kernel everything |
| PageAlloc.Memory.Palloc | memory.c:102-110 | the first free frame of the right pool, and its bit alone is set; stops exactly when there is none |
| PageAlloc.Memory.AddPage | memory.c:113-142 | maps one absent page to the first free frame, making its table in the first free kernel frame when missing; the already-present ASSERTs hold; stops exactly when frames run out |
| PageAlloc.Memory.MallocPage | memory.c:51-83 | first fit in the virtual bitmap extended by the bit past its end, every page of it mapped, bitmap bit set if and only if page present; NULL exactly when nothing fits; for a run past the end, which page it is and that the bitmap no longer describes the pages |
| PageAlloc.StopsWhen | memory.c:144-168 | malloc_page stops if and only if the bitmap is full, the fit reaches the last user page, or frames or tables are short, and runs past the end if and only if only that fits |
| PageAlloc.UserNeverPast | memory.c:58-64 | in a user space that ends at 0xc0000000 a run past the end of the bitmap always stops |
| PageAlloc.PastWitness | memory.c:548-559 | a kernel state in which a request for one page more than there are comes back with it |
| PageAlloc.Memory.Pfree | memory.c:360-377 | clears the bit of the frame in the pool its address tells |
| PageAlloc.Memory.MfreePage | memory.c:409-452 | unmaps exactly the range and clears exactly its bits; its ASSERTs hold |
| Fork.CopyPage | fork.c:59-78 | the child's page is in a frame that was free and holds the parent's bytes; the parent's directory is active again |
| Fork.CopyBody | fork.c:42-84 | every page of the parent's bitmap is in the child with equal bytes, nothing else is; the parent's pages and bytes stay; stops if and only if frames are short for the pages and their tables |
| Fork.ChildMapped | fork.c:42-84 | afterwards the parent's bitmap describes both address spaces exactly |
| HeapSpec.LiveApart | memory.c:240-249 | live blocks are disjoint |
| HeapSpec.LiveInPages | memory.c:240-249 | a live block lies in the pages of its arena behind the header |
| HeapSpec.LiveClearOfHeaders | memory.c:240-249 | no live block touches any arena header |
| HeapSpec.NewSmallOk | memory.c:321-346 | cutting a page into blocks keeps the heap invariant of the other arenas and lists |
| HeapSpec.TakeFirstOk | memory.c:348-353 | handing out a block keeps counts, lists and live blocks in agreement |
| HeapSpec.NewLargeOk | memory.c:286-301 | so does a large arena |
| HeapSpec.PutBackOk | memory.c:485-488 | so does returning a block |
| HeapSpec.DropOk | memory.c:488-498 | a page all of whose blocks are free can be given up |
| HeapSpec.FreeLargeOk | memory.c:480-481 | so can a large arena |
| HeapSpec.NothingLeft | memory.c:455-501 | with no live block there is no arena and every free list is empty |
| Heaps.Allocator.constructor | memory.c:563-574 | seven empty classes over the memory as it is |
| Heaps.Allocator.SysMalloc | memory.c:251-357 | up to 1024 bytes, a block of the least class that fits: the head of its list, with no page taken, or else the first block of one new page whose others are the list in order; above, pages of its own; every other list, arena and live block as before; exactly when it is NULL, stops, or runs past the bitmap |
| Heaps.Allocator.MallocSmall | memory.c:309-356 | the small case: which block, which list, and which page |
| Heaps.LastLive | memory.c:488 | the count in the header reaches the number of blocks exactly when no other block of the page is live |
| Heaps.Allocator.SysFree | memory.c:455-501 | the block goes to the end of the list of its class; its page is given back, and its blocks leave the list, exactly when no other block of it is live; a large block gives back exactly its pages; every other live block stays; its elem_find ASSERT holds |
| Heaps.EverythingBack | memory.c:455-501 | when all blocks are freed, lists are empty, and frames and virtual pages are as before the first allocation, but for page tables of a user space |
| SchedSpec.TickOk | timer.c:29-41 | a timer tick keeps the invariant: one running thread, ready list exact, ticks within priority |
| SchedSpec.YieldOk | thread.c:233-242 | so does thread_yield, whose thread was not on the ready list |
| SchedSpec.BlockOk | thread.c:206-214 | so does thread_block, the idle thread being there to be woken |
| SchedSpec.WakeOk | thread.c:217-230 | so does thread_unblock, by a thread or by an interrupt handler between two statements of the lock code, and its ASSERT holds |
| SchedSpec.StartOk | thread.c:147-161 | so does a new thread |
| SchedSpec.ReapOk | thread.c:320-340 | so does the removal of a hanging thread |
| LockSteps.AcquireOk | sync.c:61-73 | the test in lock_acquire is true exactly for the owner, at any preemption |
| LockSteps.DownOk | sync.c:23-42 | one turn of sema_down: taken, or queued and blocked without a lost wakeup |
| LockSteps.UpOk | sync.c:45-58 | the semaphore is 0 before sema_up and the wakeup is not lost despite barging |
| LockSteps.SetHolderOk | sync.c:67-68 | the count is zero when the holder is set |
| LockSteps.SetOneOk | sync.c:68-69 | and still when it is set to one |
| LockSteps.ReleaseOk | sync.c:76-85 | the ASSERTs of lock_release hold for a thread that has the lock |
| LockSteps.ClearHolderOk | sync.c:85-89 | clearing holder and count keeps the invariant |
| LockSteps.AwaitOk | sync.c:23-42 | sema_down of a semaphore of its own, by a thread that may hold locks: taken from one to zero, or queued where it was not, and blocked without a lost wakeup |
| LockSteps.SignalOk | sync.c:45-58 | sema_up of one in an interrupt handler: whom it wakes is blocked and on no other list, the value becomes one |
| LockSteps.StepOk | sync.c:23-91 | every event in every state keeps the whole invariant, that of the locks, of the semaphores and of the scheduler |
| LockSteps.RunOk | sync.c:23-91 | every state of every run satisfies it |
| LockSteps.BootOk | thread.c:370-384 | and the state after thread_init, with main running and init and idle ready, does |
| LockSteps.MutualExclusion | sync.c:61-91 | over every run at most one thread has a lock, and holder_repeat_nr is its nesting depth |
| LockSteps.OneList | thread.c:175-242 | over every run a general_tag is on at most one list, of the ready list and the waiters of all locks and semaphores, and there once; waiters are blocked |
| SchedLaws.TickLaw | timer.c:29-41 | at the end of a slice the thread goes behind all ready ones with a full slice, and the first of them runs; otherwise one tick is gone and nothing else |
| SchedLaws.YieldLaw | thread.c:233-242 | the same order of turns, the rest of the slice being kept |
| SchedLaws.BlockLaw | thread.c:206-214 | the thread is left in its new state and the first ready thread runs, or idle |
| SchedLaws.WakeLaw | thread.c:217-230 | the woken thread is the next in turn, and nobody else changes |
| SchedLaws.StartLaw | thread.c:147-161 | a new thread is the last in line, with a full slice |
| SchedLaws.ReapLaw | thread.c:320-340 | the others keep their turns when a thread is removed |
| SchedLaws.DownLaw | sync.c:23-42 | at zero the thread waits behind all others and the next one runs; otherwise the value is taken and it goes on |
| SchedLaws.UpLaw | sync.c:45-58 | who has waited longest is the next in turn, and the value is one |
| SchedLaws.AwaitLaw | sync.c:23-42 | the same as DownLaw for a semaphore of its own |
| SchedLaws.SignalLaw | sync.c:45-58 | the same as UpLaw for a semaphore of its own, in an interrupt handler |
| SchedLaws.RoundRobin | thread.c:175-203 | over every run in which nobody is woken, blocked, started or yields, the line of threads has turned once for each slice used up |
| SchedLaws.InTurn | thread.c:175-203 | in such a run the thread at place i of the ready list runs after i + 1 slices |
| SchedLaws.SliceLasts | timer.c:37-40 | a slice of n ticks lasts n timer interrupts, each taking one, and the next one ends it |
| SchedLaws.HeldRun | sync.c:61-91 | over every run the nesting depth of a thread, with the calls under way, goes up by its lock_acquire and down by its lock_release and by nothing else |
| SchedLaws.DepthCounts | sync.c:61-91 | from thread_init on the count in a lock is how often its holder called lock_acquire, less how often it called lock_release |
| Threads.Kernel.Schedule | thread.c:175-203 | the code does the step, its ASSERTs holding |
| Threads.Kernel.ThreadBlock | thread.c:206-214 | the same |
| Threads.Kernel.Block | thread.c:206-214 | the thread is left in its new state and the first ready thread, or idle, runs |
| Threads.Kernel.ThreadUnblock | thread.c:217-230 | the code does the step, its ASSERTs holding |
| Threads.Kernel.Wake | thread.c:217-230 | the woken thread is the first of the ready list, the running one goes on |
| Threads.Kernel.ThreadYield | thread.c:233-242 | the first of the ready list, followed by the thread itself, runs and the others are ready in that order; its ASSERT holds |
| Threads.Kernel.TimerHandler | timer.c:29-41 | with no ticks left the thread goes to the end of the ready list with a full slice and the first of the list runs; otherwise one tick less and nothing else |
| Threads.Kernel.SemaDown | sync.c:23-42 | at zero the thread is the last waiter and the next ready thread runs; its ASSERTs hold |
| Threads.Kernel.SemaUp | sync.c:45-58 | the first waiter leaves the list and is the next in turn; its ASSERTs hold |
| Threads.Kernel.SemaDownAt | sync.c:23-42 | the same for a semaphore of its own |
| Threads.Kernel.SemaUpAt | sync.c:45-58 | the same for a semaphore of its own |
| Threads.Kernel.Execute | sync.c:61-91 | lock_acquire and lock_release, one statement at a time |
| ProcessSpec.ForkOk | fork.c:182-204 | fork keeps the invariant of the process table |
| ProcessSpec.AdoptOk | wait_exit.c:153-161 | after the adoption nobody has the exiting process as parent |
| ProcessSpec.HangOk | wait_exit.c:163-173 | hanging after waking a waiting parent keeps it, so no waiting process but init misses a child |
| ProcessSpec.CollectOk | wait_exit.c:126-139 | collecting a hanging child keeps it, and no exit status is collected twice |
| ProcessSpec.BlockOk | wait_exit.c:142-148 | going to sleep without a hanging child keeps it |
| ProcessSpec.ParentFound | wait_exit.c:166-168 | pid2thread in sys_exit never yields NULL |
| ProcessSpec.NoCycle | fork.c:14-24 | parent chains never come back |
| ProcessSpec.RunOk | wait_exit.c:109-173 | the invariant holds over every run of fork, exit and wait |
| ProcessSpec.MissExactly | wait_exit.c:109-173 | while no waiting process has a hanging child, a step gives one to some if and only if a process with a hanging child exits while init waits; then init misses that child |
| ProcessSpec.NobodyEverMisses | wait_exit.c:109-173 | over every run without such an exit nobody, init included, misses a child |
| ProcessSpec.StartOk | thread.c:370-384 | the state after thread_init, with init, main and idle, satisfies the invariant |
| ProcessSpec.InitCanMiss | wait_exit.c:109-115 | a run from thread_init on after which init sleeps although a child of it hangs |
| ProcessRuns.RunRecorded | wait_exit.c:109-173 | over every run from thread_init on, parent, exit status, hanging and waiting of every task and the log of wait are what a record of the calls alone says |
| ProcessRuns.ExitsOnce | wait_exit.c:153-173 | no process calls exit twice |
| ProcessRuns.StatusGiven | wait_exit.c:119-156 | over every run each status that wait returned for a process is the one given to the single exit that this process made |
| ProcessRuns.StatusStays | wait_exit.c:119-173 | no step between exit and wait changes the status of a process |
| ProcessRuns.RunInOrder | thread.c:157-158 | over every run the list of all threads is in the order of creation |
| Processes.ProcTable.constructor | thread.c:370-384 | init, main and idle get the pids 1, 2 and 3 |
| Processes.ProcTable.AllocatePid | thread.c:72-79 | the least pid not in use; stops exactly when there is none |
| Processes.ProcTable.Fork | fork.c:14-24 | the child's pid is one no task has; the table is the old one with the child |
| Processes.ProcTable.ExitBegins | wait_exit.c:153-161 | the status given is stored, and the children of the process go to init over the whole list |
| Processes.ProcTable.InitAdopts | wait_exit.c:109-115 | exactly the children of the exiting process change parent |
| Processes.ProcTable.Pid2Thread | thread.c:351-367 | finds the task with the pid, or none has it |
| Processes.ProcTable.ExitEnds | wait_exit.c:163-173 | wakes a waiting parent and hangs |
| Processes.ProcTable.FindHangingChild | wait_exit.c:99-105 | finds the first hanging child on the list, or there is none |
| Processes.ProcTable.FindChild | wait_exit.c:89-95 | finds the first child on the list, or there is none |
| Processes.ProcTable.Wait | wait_exit.c:119-150 | the eldest hanging child with the status that its exit was given, -1 without children, or sleep exactly when children exist and none hangs; the pid is given back |
| Rings.FullMeans | ioqueue.c:19-30 | the position tests ask whether 4095 bytes, or none, are waiting |
| Rings.PutAppends | ioqueue.c:86-87 | a byte goes behind the waiting ones, across the wrap-around |
| Rings.TakeRemoves | ioqueue.c:62-63 | the byte at the tail is the oldest, the others keep their order |
| Rings.RunDelivers | ioqueue.c:49-101 | over every run delivered bytes plus waiting bytes are the bytes put, and the length is puts minus takes |
| Rings.IoQueue.Length | ioqueue.c:93-101 | the number of waiting bytes, at most 4095 |
| Rings.IoQueue.PutChar | ioqueue.c:73-91 | waits exactly when 4095 bytes are there; otherwise the byte is put and a sleeping consumer unblocked |
| Rings.IoQueue.GetChar | ioqueue.c:49-70 | waits exactly when empty; otherwise the oldest byte, and a sleeping producer is unblocked |
| Rings.IoQueue.PipeRead | pipe.c:39-58 | never waits; the oldest min(count, length) bytes; a sleeping producer is unblocked, once, exactly when a byte is read |
| Rings.IoQueue.PipeWrite | pipe.c:61-79 | puts as many as fit in order, and gets stuck if and only if asked for more than 4095 minus the length; a sleeping consumer is unblocked, once, exactly when a byte is put |
| Rings.FillsAndSticks | pipe.c:61-79 | an empty pipe offered the 4096 bytes that pipe_write computes as its room gets stuck after 4095 |
| RingWaits.StepOk | ioqueue.c:33-91 | with any number of consumers and producers no ASSERT of ioq_wait, wakeup or lock_release fires; a thread comes to sleep beside a byte or beside room exactly when it got the lock late |
| RingWaits.RunInv | ioqueue.c:33-91 | the waiter slots name exactly the sleeping lock holder in its role, over every run |
| RingWaits.OneWaiter | ioqueue.c:49-91 | a single thread that waits never sleeps beside a byte or beside room, over every run |
| RingWaits.OneWaiterFromStart | ioqueue.c:10-15 | the same from the empty ring on |
| RingWaits.TwoConsumers | ioqueue.c:54-59 | a run of two consumers after which one sleeps beside a byte |
| RingWaits.BothWait | ioqueue.c:49-91 | a run of a consumer and a producer after which neither can take a step |
| DiskSignals.StepOk | ide.c:104-109 | no step and no interrupt, wanted or not, fires an ASSERT of sema_up or sema_down; exactly one token per command under way |
| DiskSignals.OneTokenPerCommand | ide.c:349-365 | over every run commands sent equal completions taken, plus the one under way, and each took an interrupt |
| DiskSignals.WaitsForInterrupt | ide.c:170-176 | no thread passes sema_down before an interrupt |
| DiskSignals.FreshCommandWaits | ide.c:170-176 | nothing left over from an earlier command lets a new one pass |
| DiskSignals.InterruptWakes | ide.c:349-365 | and one interrupt is enough, whoever else runs in between |
| Ide.SelectedRead | ide.c:88-131 | the drive reads back the address, drive and count that were meant, 256 sectors being passed as the byte 0 |
| Ide.RoundTrip | ide.c:149-236 | reading a range just written gives its bytes |
| Ide.WriteElsewhere | ide.c:195-236 | reading a range a write did not touch gives the old bytes |
| Ide.WritesJoin | ide.c:206-233 | adjoining chunks make one write |
| Ide.ReadsJoin | ide.c:160-189 | adjoining chunks make one read |
| Ide.Channel.SelectSector | ide.c:88-101 | halts exactly above the largest lba; otherwise the registers |
| Ide.Channel.IntrHandler | ide.c:349-365 | turns the flag into one up, whose ASSERT holds; ignores an unwanted interrupt |
| Ide.Channel.ReadFromSector | ide.c:112-120 | exactly the next sectors of the transfer land at their place of the buffer |
| Ide.Channel.WriteToSector | ide.c:123-131 | word by word, exactly the bytes of the buffer land in the next sectors of the transfer |
| Ide.Channel.Read | ide.c:149-192 | fills the buffer with exactly the sectors [lba, lba+cnt) and leaves the rest; halts if and only if cnt is 0 or a chunk would start above the largest lba |
| Ide.Channel.Write | ide.c:195-236 | changes exactly the sectors [lba, lba+cnt) of that drive; when it halts, which chunks were written |
| Ide.Channel.WriteThenRead | ide.c:149-236 | what was written is read back, for every count and every pattern of interrupts |

## Left out

- File-system calls run one at a time in the model; preemption inside them, and two tasks in them at once, are not modelled.
- Formats.Format: the super block is left out; the disk reaches the last block that the bitmap offers.
- After the mount the on-disk copies of the two bitmaps are left out: `bitmap_sync` is taken as done.
- In the calls on paths, a directory that reaches its indirect table ends the model with an outcome of its own (`BeyondDirect`), exactly when its direct blocks are full; `DirOverflow` has what `sync_dir_entry` does from there. Deleting from a table and reading a directory in order past its direct blocks are left out.
- Directory.SyncDirEntry: stops before it changes anything in a directory whose 12 direct blocks are full; `DirOverflow.SyncDirEntry` goes on.
- The global file table, file descriptors and the roll-back of their slots; `sys_unlink` takes the open inode numbers as a parameter. `sys_open` always finds a free slot, and nobody else writes the file. `file_close`, `write_deny`, `sys_stat` and `sys_chdir` are not modelled.
- The buffers that the file system takes from `sys_malloc` are assumed to be given, and zeroed as `sys_malloc` does it; the contents of heap blocks are not modelled.
- InodeCaches.Cache.InodeOpen: the file-system modules use one object per inode number and do not go through this list; that an inode dropped from it and loaded again is the same is `Stored` and `Reload`.
- Names longer than 15 characters in paths overrun the 16-byte buffers of `search_file`, `path_depth_cnt` and `wash_path`; calls on paths ask for components of at most 15 characters.
- Paths.WashPath: says nothing of the buffer, so for a path with a component of more than 15 characters it holds only as far as the overrun does no harm.
- Paths.PathDepthCnt: says nothing of the buffer either.
- Washing.SearchWashed: asks for components of at most 15 characters and no zero byte in the path; Washing.WashedLeads does not.
- TreeCalls.SysMkdir: asks for components of at most 15 characters and no zero byte in the path, as above.
- FileSystem.FileSystem.FileWrite: the count is below 0xC0000000, as any buffer in user space is; beyond it the uint32_t sum at file.c:251 could wrap.
- Namespace.Namespace.GetCwd: for paths that fit MAX_PATH_LEN, the size of its own buffers.
- TreeCalls.RemoveFromItself: the state after it is only shown to be no tree; nothing is claimed for later calls.
- Several heaps at once: one heap at a time, kernel or user; the re-initialised block descriptors after fork and inodes allocated in one heap and freed in another are not modelled.
- Page tables are never given back by the code, and the model keeps them; `release_prog_resource` and the page count of the vaddr bitmap are left out, as is the TLB.
- In the scheduler, lists are sequences; that the linked lists behave as sequences is proved in `Lists`. `switch_to` is a change of the running thread.
- The size of `struct ioqueue` against the one page a pipe allocates; the ring is an object of its own. `sys_pipe` and redirection are left out.
- Ide.Channel.Read: `busy_wait` is assumed to succeed, and the range to lie on the disk; the drive is modelled by its registers and a transfer in progress. `identify_disk` and the partition scan, which run before other threads, are left out.
- Of fork, the child's kernel stack and the open counts of its inherited files (`build_child_stack`, `update_inode_open_cnts`) are not modelled.
- `thread_exit` of the current thread and the freeing of the PCB page: `sys_wait` removes the child, its pid and its task in one step.
- ELF loading, the console, keyboard decoding, boot and descriptor tables, varargs formatting and shell dispatch: hardware and user interface.
