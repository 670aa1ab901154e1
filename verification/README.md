# emexOS kernel: a verified model

emexOS is a from-scratch x86_64 kernel. This project models its algorithmic cores in Dafny and proves what they promise
over whole runs: the FAT32 file system from formatting to reading a file back, timer-driven multitasking and the
process life cycle, shared memory and message passing, SHA-256, UTF-8, line drawing, byte access to a sector disk, the
network card's receive ring and the virtual terminals. Code that updates state in place is modelled by classes, arrays
and loops with the same state; each loop is proved against a specification function, and the laws are proved about those
functions and as invariants of every operation. A whole run is proved either equal to a pure model, replies included
(message passing, the receive ring, the terminals, preemption), or step by step: it returns the state after every call, and
each call is proved to have done and returned exactly what it should in the state before it (files, shared memory, the
process life cycle). Laws about runs are then lemmas.

## The modules

| files | what they model |
|---|---|
| `Bytes`, `FatChains`, `Geometry`, `Volume` | bytes and memory primitives; the FAT as a set of disjoint chains; where clusters lie; the driver's globals, allocator, cluster I/O and table flush |
| `FatFile`, `FileAppend` | an open file as a byte sequence: `fat32_write`, `fat32_read`, and what a later open sees |
| `DirFormat`, `DirNames`, `DirPrint`, `DirModel`, `Directory`, `DirRead` | short names, long-name slots, the printer, the parser's state machine, a directory as a map |
| `FileSystem`, `FileCreate`, `FileOpen`, `DirCreate` | the tree of directories, creating files and directories in one of them, opening a name |
| `Paths`, `PathOpen`, `FileRuns` | creating and opening by path, when the two agree, and whole runs of directory creation, file creation, opening, writing through handles and allocation |
| `FatLayout` | formatting a partition and mounting it |
| `Processes`, `Multitask`, `Lifecycle`, `LifeRuns` | register files, quanta and picking; preemption; fork, execve, exit, waitpid; whole runs of all of them |
| `SharedMemory`, `Messages` | regions, frames, page tables and address ranges; bounded inboxes |
| `Sha256`, `Sha256Abc`, `Utf8`, `Line`, `ByteDisk`, `RxRing`, `VirtualTerminal` | the algorithms with an exact specification |

`dafny verify dfyconfig.toml` verifies the whole project.

## What the proofs found in the code

* `K[60]` in `sha256.c` is `0x90beffea` where FIPS 180-4 has `0x90befffa`. `Sha256.KFromPrimes` checks all 64 constants
  against the cube roots of the primes and finds this one; `Sha256.ShortNeverMatches` proves that no message of less than
  56 bytes gets its SHA-256 digest, and `Sha256.ShortTextNeverMatches` that the printed text differs as well. Everything
  else in the file is SHA-256: `Sha256.Hash` is proved for the source's table, `Sha256.RoundsAgree` and
  `Sha256.KFromPrimes` pin the difference to that constant, and `Sha256Abc.AbcDigest` checks the standard's side of the
  model against a published digest.
* `fat32_write` grows a file without updating its directory entry, so opening the name again shows the old size;
  `FileAppend.WriteReopen` proves that a second handle sees everything that was written if and only if, before the call,
  the buffer is empty, the write ends inside the file, or the file already has all the space its clusters and the free
  ones give. A file created empty has no cluster in its entry either, so a second handle sees nothing of it at all.
* `fat32_write_file` fails if and only if the data and its entry need more clusters than are free, and then leaves every
  free cluster taken by a chain no entry names (`FileCreate.WriteFile`, `Leaked`); `fat32_create_dir` is alike
  (`DirCreate.CreateDir`). An empty file is lost without a report if and only if its entry needs a cluster and none is
  free.
* `fat32_create_dir` asks `dir_lookup`, which compares short names only and gives up at the first free slot. With
  `abcdefgh1` present, creating `abcdefgh2` reports success and creates nothing (`DirCreate.CreateDirCanMiss`).
  `DirCreate.CreateDir` has the exact statement: after a success the name stands for the new directory if and only if
  `dir_lookup` did not claim the name (`Taken`) and no older entry with the name lies in a cluster before the one that
  gets the new entry (`Shadowed`); otherwise it stands for whatever it stood for before.
* `fat32_write_file` never looks for an existing name. The name then opens the new file if and only if no older entry with
  the name lies in a cluster before the one that gets the new entry; otherwise the old file with its old bytes
  (`DirModel.InsertLookup`, `FileOpen.WriteOpenRead`).
* `split_path` skips the first byte of the directory part without looking at it, so with `dir/file` it looks for `ir`:
  creating and opening take the same components if and only if the path is absolute or a bare name (`PathOpen.SameParts`).
* `split_path` never looks at attributes. It returns the first cluster of a plain file, which the creating calls then
  write directory entries into, if and only if the last component of the directory part finds a plain file that has a
  cluster (`Paths.WalkEnds`); `/f/x` with a file `f` is such a path (`Paths.IntoAFile`).
* `split_path` walks by short names and `fat32_open` by long names. On such a path, writing a file and opening it agree if
  and only if both walks reach the same directory and the new entry is not hidden there (`PathOpen.WriteOpenPath`).
* The formatter's layout and the driver's 16-bit table size agree exactly for 1042 to 67172382 sectors
  (`FatLayout.LayoutGood`).
* `resume_parent_sysret` is also used for tasks the timer stopped, and clears their caller-saved registers: such a task
  gets its registers back exactly when they already held those values (`Processes.ScrubLoses`).
  `Lifecycle.LoseRegisters` is a run in which a process is stopped with 1 in rax and goes on with 0.
* `mt_preempt` enters a task that never ran without its `entry_rsp`, unlike `mt_start` and `JumpToUserspace`; the two
  agree exactly under `Processes.EntryAgrees`, and `mt_add_task` keeps the invariant exactly when its process meets that or
  the table is full (`Multitask.Kernel.AddTask`). Fork and execve fill in the saved frame, so for their tasks the question
  does not arise.
* `scall_exit` wakes one waiter. Somebody is left waiting for the process that exited if and only if two were waiting
  before (`Lifecycle.Exit`, `Lifecycle.OneLeft`), and stays blocked over every later run (`LifeRuns.RunAll`).
  `Lifecycle.LeaveOneStuck` is a run of three processes that gets there.
* `send_msg` makes its receiver READY if it is BLOCKED, whatever it blocked for. The invariant of the process life cycle
  survives that if and only if the receiver is not waiting for a process and its saved frame is current; while the list
  of waiting parents has never overflowed, if and only if the receiver is not BLOCKED (`Lifecycle.WakeReceiver`). In the
  run `Lifecycle.WakeAWaiter` a parent that waits for a child is sent a message.
* `send_msg` blocks a sender that finds the queue full whether or not the list of waiters has a place for it. A blocked
  sender is woken if and only if it was listed and something is received or the inbox destroyed
  (`Messages.WokenExactly`); the seventeenth to wait never is (`Messages.SeventeenthForgotten`).
* With a full task table `scall_execve` runs a process that has no task: the invariant survives exactly when there is
  room (`Lifecycle.Execve`).
* The quantum computation doubles the priority in 64 bits. Quanta grow with priority up to a bound if and only if the
  bound is below 2^63 (`Processes.QuantumMonotoneExactly`): just above it the doubled value wraps to nearly nothing and the
  quantum is 1, while 2^63 + 1024 and the largest priority again get 16. No caller in the repository passes such a priority:
  `proc_create_proc` is given small constants or the parent's value.
* An input ring of 4096 bytes takes 341 key events of twelve bytes and four bytes of the next, after which it no longer
  holds whole events (`VirtualTerminals.EventsStayWhole`).
* `vt_focus` with an id that is not live takes the focus from whoever had it (`VirtualTerminals.VtTable.SetFocus`).

## Model

| member | source | states |
|---|---|---|
| FatChains.ChainUnique | emex/kernel/file_systems/fat32/fat32.c:230-234 | following the table from a cluster leads along one chain only |
| FatChains.ChainDistinct | emex/kernel/file_systems/fat32/fat32.c:230-234 | a chain never visits a cluster twice, so every walk ends |
| FatChains.ChainEntries | emex/kernel/file_systems/fat32/fat32.c:230-234 | the low 28 bits of each entry of a chain name the next cluster, and those of the last are at or above 0x0FFFFFF8 |
| FatChains.EntryMarks | emex/kernel/file_systems/fat32/fat32.c:230-234 | which values of the low 28 bits mean free and which end a chain |
| FatChains.ExtendRepresents | emex/kernel/file_systems/fat32/fat_create.c:137-145 | linking a freshly allocated cluster after the end of a chain keeps the table a set of disjoint chains |
| FatChains.GrowsTransitive | emex/kernel/file_systems/fat32/fat_write.c:46-94 | over any number of updates an entry changes only from free, or from end-of-chain to a cluster that was free |
| FatChains.GrowsExtends | emex/kernel/file_systems/fat32/fat_write.c:46-94 | after any updates every old chain is the beginning of a new one whose added clusters were free |
| FatChains.OneTaken | emex/kernel/file_systems/fat32/fat_write.c:46-57 | an allocation takes exactly one free cluster |
| Geometry.ClusterToLbaExact | emex/kernel/file_systems/fat32/fat32.c:236-241 | on a sound volume the truncating arithmetic is the intended layout: start, reserved sectors, the tables, and so many sectors per cluster from cluster 2 on |
| Geometry.RunInRange | emex/kernel/file_systems/fat32/fat32.c:236-241 | every cluster lies past the tables and on the disk |
| Geometry.RunsDisjoint | emex/kernel/file_systems/fat32/fat32.c:236-241 | distinct clusters occupy disjoint sectors |
| Volumes.Volume.AllocCluster | emex/kernel/file_systems/fat32/fat_write.c:46-57 | returns the lowest free cluster as a new one-cluster chain whose entry is 0x0FFFFFFF, or 0 with nothing changed if and only if none is free |
| Volumes.Volume.ExtendChain | emex/kernel/file_systems/fat32/fat_create.c:137-145 | the chain becomes itself plus the lowest free cluster, the old last entry naming it and its own being 0x0FFFFFFF; no other chain changes |
| Volumes.Volume.ReadCluster | emex/kernel/file_systems/fat32/fat_create.c:32-37 | the buffer gets exactly the cluster's bytes |
| Volumes.Volume.WriteCluster | emex/kernel/file_systems/fat32/fat_create.c:38-43 | the cluster gets the buffer's bytes; no other cluster and no table changes |
| Volumes.Volume.FlushFat | emex/kernel/file_systems/fat32/fat_write.c:29-44 | both tables on the disk equal the one in memory; no cluster changes |
| FatFiles.Write | emex/kernel/file_systems/fat32/fat_write.c:59-134 | the exact byte count from the free clusters before the call; the file's bytes become the old ones overwritten at the position by the prefix that was written; its chain gains exactly the clusters it needs and nothing else is taken; other chains keep their data, the tables are flushed |
| FatFiles.Read | emex/kernel/file_systems/fat32/fat32.c:468-512 | returns the slice at the position, cut at the end of the file, and -1 at the end |
| FatFiles.WalkTo | emex/kernel/file_systems/fat32/fat_write.c:59-94 | the walk ends at the wanted cluster of the chain, extending it past its end, or finds the disk full |
| FatFiles.EnsureFirst | emex/kernel/file_systems/fat32/fat_write.c:59-80 | an empty file gets its first cluster or the write fails with nothing changed |
| FileAppend.WriteReopen | emex/kernel/file_systems/fat32/fat_write.c:59-134 | a write through any handle, one on a file created empty included, keeps the directory tree sound; a new open sees the first bytes up to the size in the entry, and everything written if and only if a condition on the state before the call holds |
| FileAppend.TreeStays | emex/kernel/file_systems/fat32/fat_write.c:59-134 | writing a file leaves every directory and every other entry as it was |
| DirNames.StringToFatname | emex/kernel/file_systems/fat32/fat32.c:243-266 | the eight and three bytes of the padded name: letters 97 to 122 less 32, every other byte as it is, 32 where the name has none; the extension starts behind the last dot |
| DirNames.MakeSfn | emex/kernel/file_systems/fat32/fat_create.c:44-66 | the stored short name in bytes: as above, with a zero extension when the name has no dot |
| DirNames.LfnSum | emex/kernel/file_systems/fat32/fat_create.c:67-72 | the checksum as the last of twelve sums, each the one before turned right by one bit plus the next byte, modulo 256 |
| DirNames.StrCaseEq | emex/kernel/file_systems/fat32/fat32.c:280-294 | true exactly when the names have the same length and at each place the same byte, or a letter 65 to 90 on one side and the byte 32 above it on the other |
| DirFormat.FoldSame | emex/kernel/file_systems/fat32/fat32.c:280-294 | names that fold to the same are the same letter for letter up to case |
| DirNames.PrepareUnits | emex/kernel/file_systems/fat32/fat_create.c:169-172 | the name as 16-bit units, a terminator, then padding |
| DirNames.PrintLfn | emex/kernel/file_systems/fat32/fat_create.c:186-203 | each long-name slot holds its thirteen units, order byte and checksum, as the reader expects them |
| DirPrint.PrintGroup | emex/kernel/file_systems/fat32/fat_create.c:186-211 | the buffer's slots become the entry's group, and no other slot changes; in bytes, n long-name slots with 13(n-1) < length <= 13n, the first with order byte 0x40+n, then the short entry |
| DirPrint.EntryBytes | emex/kernel/file_systems/fat32/fat_create.c:186-211 | a printed entry byte for byte: order bytes, attribute 0x0F, checksum and thirteen 16-bit characters in each long-name slot, the short name, attributes, cluster and size in the short one, all other bytes as before |
| DirPrint.FindRun | emex/kernel/file_systems/fat32/fat_create.c:129-136 | the first run of free slots in a cluster, or none |
| DirFormat.RunGroup | emex/kernel/file_systems/fat32/fat32.c:296-418 | the parser's state machine undoes the printer: after an entry's slots it has found that entry exactly when the name matches |
| DirFormat.RunCluster | emex/kernel/file_systems/fat32/fat32.c:296-418 | parsing a printed cluster finds its last entry whose name matches, and nothing else |
| DirFormat.SfnSlotFields | emex/kernel/file_systems/fat32/fat_create.c:205-211 | cluster, size and attributes read from a slot are the ones written |
| DirRead.Reader.Visit | emex/kernel/file_systems/fat32/fat32.c:296-418 | one slot, of any order byte whose characters stay inside the name buffer, moves the reader's fields as the state machine says |
| DirRead.LookupInDir | emex/kernel/file_systems/fat32/fat32.c:296-418 | scanning the whole chain returns the slot the directory's map has for the name: one if and only if some entry has the name letter for letter up to case, and then with the attributes, cluster and size of the last such entry of the first cluster that has one |
| DirRead.FillAndFind | emex/kernel/file_systems/fat32/fat_create.c:152-216 | a directory on the disk is a map: entries with distinct names written one after the other, in however many clusters, are found by name, and no other name is |
| DirModel.LookupSound | emex/kernel/file_systems/fat32/fat32.c:296-418 | a lookup finds an entry with the name exactly when there is one |
| DirModel.LookupPlace | emex/kernel/file_systems/fat32/fat32.c:296-418 | which of several entries with a name a lookup finds, letter for letter up to case |
| DirModel.InsertIsUpdate | emex/kernel/file_systems/fat32/fat_create.c:152-216 | inserting a new name is a map update, wherever the entry lands |
| DirModel.InsertLookup | emex/kernel/file_systems/fat32/fat_create.c:152-216 | after any insertion, of a new name or an old one, a name finds the new entry if and only if it is that entry's name and no older entry with it lies in a cluster before; otherwise it finds what it found before |
| DirModel.DirectoryIsMap | emex/kernel/file_systems/fat32/fat_create.c:123-216 | after any run of insertions of distinct names a directory of any number of clusters is the map of those entries |
| Directories.FindSlots | emex/kernel/file_systems/fat32/fat_create.c:123-150 | finds the first cluster with room, extending the directory by at most one zeroed cluster; fails if and only if there is no room and no free cluster |
| Directories.WriteDirEntry | emex/kernel/file_systems/fat32/fat_create.c:152-216 | the directory's clusters come to hold the directory with the entry inserted; no other chain changes; in bytes, the entry's long-name slots and short entry stand in the first free slots of the first cluster with room for them, or of an appended cleared one, and nothing else in the cluster changes |
| FileSystem.AddEntry | emex/kernel/file_systems/fat32/fat_create.c:152-216 | adding an entry keeps the whole tree of directories and files sound |
| DirCreate.DirLookup | emex/kernel/file_systems/fat32/fat_create.c:73-93 | the first entry with the short name before the first free slot, else 0 |
| DirCreate.CreateDir | emex/kernel/file_systems/fat32/fat_create.c:218-238 | changes nothing if the short name is taken, else makes an empty directory in a cluster that was free and names it; the exact entry the name stands for afterwards, and when that is a directory; fails if and only if there are too few free clusters, and what it leaves taken then |
| DirCreate.FoldThenShort | emex/kernel/file_systems/fat32/fat_create.c:73-93 | names equal up to case have the same short name |
| DirCreate.CreateDirCanMiss | emex/kernel/file_systems/fat32/fat_create.c:226-226 | two different names for which the existence check wrongly succeeds |
| Paths.SplitPath | emex/kernel/file_systems/fat32/fat_create.c:96-121 | the last component, without byte 47 and directly behind one, and what the others lead to by short names, a directory or a plain file; 0 if one is missing |
| Paths.WalkEnds | emex/kernel/file_systems/fat32/fat_create.c:104-120 | the walk leads into a plain file if and only if its last lookup finds one that has a cluster |
| Paths.IntoAFile | emex/kernel/file_systems/fat32/fat_create.c:104-120 | a path whose directory part leads into a plain file |
| Paths.CreateDirAt | emex/kernel/file_systems/fat32/fat_create.c:218-238 | the same in the directory the path leads to, tables flushed and all files undisturbed; -1 with nothing changed when there is no name or no such directory; otherwise -1 if and only if there are too few free clusters |
| Paths.WriteFileAt | emex/kernel/file_systems/fat32/fat_create.c:240-280 | the path's directory gains an entry for a file with exactly the data, tables flushed and all other files undisturbed; fails if and only if there is no name, no such directory or not enough free clusters; when an empty file is lost |
| FileCreate.BuildChain | emex/kernel/file_systems/fat32/fat_create.c:256-273 | a new chain of exactly as many clusters as the data needs, holding it padded with zeros; fails if and only if fewer are free, with all of them taken |
| FileCreate.WriteFile | emex/kernel/file_systems/fat32/fat_create.c:240-280 | the new entry names a file with exactly the data; every other file reads as before; exactly the clusters of chain and entry are taken; fails if and only if they do not fit, and then leaves every free cluster taken |
| FileOpen.Open | emex/kernel/file_systems/fat32/fat32.c:420-466 | a handle on the entry the root directory has for a name without slashes, or none exactly when no entry has the name letter for letter up to case |
| FileOpen.WriteOpenRead | emex/kernel/file_systems/fat32/fat_create.c:240-280 | creating, opening and reading a file, an empty one included, gives back the data unless an older entry hides the new one or an empty file's entry was lost, and otherwise what the name stood for before |
| FileOpen.OtherNamesSame | emex/kernel/file_systems/fat32/fat_create.c:240-280 | every name that differs by more than case opens the same entry and the same bytes as before |
| PathOpen.OpenPath | emex/kernel/file_systems/fat32/fat32.c:420-466 | a handle on the entry the path's components lead to by long names, one that has the last component as its name letter for letter up to case, or null exactly when one is missing |
| PathOpen.TakenApart | emex/kernel/file_systems/fat32/fat32.c:420-466 | components written out with byte 47 before each are what opening takes the path apart into, and creating as well when each fits its buffer |
| PathOpen.SameParts | emex/kernel/file_systems/fat32/fat_create.c:96-121 | for components that fit their buffer, creating and opening take the same components if and only if the path is absolute or a bare name |
| PathOpen.WriteOpenPath | emex/kernel/file_systems/fat32/fat_create.c:240-280 | writing a path and opening it gives a handle on the new file, with exactly the data, if and only if the long names lead where the short names led and no older entry hides the new one; what holds for an empty file |
| FileRuns.Run | emex/kernel/file_systems/fat32/fat_create.c:96-280 | over any run of creating directories and files by path, also inside directories made during the run, opening them, writing through the handles and allocating: every call does and returns exactly what it should in the state the calls before it left, failures for lack of space included; the tree stays sound, and the tables on disk stay equal to the one in memory while every call succeeds |
| FileRuns.KeptOver | emex/kernel/file_systems/fat32/fat_create.c:96-280 | from any point of a run to any later one the table and the tree only grow, and a file no handle wrote in between keeps its bytes |
| FileRuns.DataStays | emex/kernel/file_systems/fat32/fat_create.c:240-280 | data put into a file is still there at any later point of a run unless it was written through a handle on that file |
| FatLayout.LayoutGood | emex/kernel/file_systems/fat32/format.c:109-114 | the layout fits the partition exactly for 1042 to 67172382 sectors |
| FatLayout.ClustersApart | emex/kernel/file_systems/fat32/fat32.c:236-241 | on those sizes distinct clusters map to disjoint runs |
| FatLayout.Format | emex/kernel/file_systems/fat32/format.c:66-303 | the whole effect on the disk for every sector count whose layout lies on it, a table of no sectors included: boot sector and its copy, FSInfo, two equal tables, a zeroed root, nothing else |
| FatLayout.BootReadBack | emex/kernel/file_systems/fat32/format.c:86-129 | the driver reads from the boot sector the geometry the formatter wrote |
| FatLayout.BootFields | emex/kernel/file_systems/fat32/format.c:86-129 | every field of the boot sector in bytes |
| FatLayout.EntryOnDisk | emex/kernel/file_systems/fat32/fat_write.c:29-44 | entry i of a table is bytes 4(i mod 128) on of sector i/128, least significant first |
| FatLayout.TableReadBack | emex/kernel/file_systems/fat32/fat32.c:210-218 | loading a table undoes flushing it |
| FatLayout.Mount | emex/kernel/file_systems/fat32/fat32.c:150-228 | refuses a partition without the label, else loads its geometry and first table |
| FatLayout.FormatAndMount | emex/kernel/file_systems/fat32/format.c:241-295 | gives an empty file system whose tables on disk and in memory agree |
| Processes.QuantumBounds | emex/kernel/proc/scheduler.c:28-37 | a quantum is between 1 and 16 for every priority |
| Processes.QuantumIs | emex/kernel/proc/scheduler.c:28-37 | the priority over 64 rounded down, at least 1 and at most 16, and what becomes of priorities from 2^63 on |
| Processes.QuantumMonotone | emex/kernel/proc/scheduler.c:28-37 | higher priority never means a shorter quantum below 2^63 |
| Processes.QuantumMonotoneExactly | emex/kernel/proc/scheduler.c:28-37 | quanta grow with priority up to a bound if and only if the bound is below 2^63 |
| Processes.PickIsFirst | emex/kernel/proc/scheduler.c:60-95 | the first runnable task in cyclic order, -1 exactly when none is |
| Processes.NoStarvation | emex/kernel/multitasking/multitasking.c:218-235 | every runnable task runs within 16(n-1) ticks |
| Processes.EntryAgreesExactly | emex/kernel/multitasking/multitasking.c:138-147 | when the two ways of entering a new task agree |
| Processes.EntryIs | emex/kernel/multitasking/multitasking.c:138-192 | the registers of a process as it is entered, one by one, both ways |
| Processes.DefaultRspIs | emex/kernel/multitasking/multitasking.c:146-147 | the stack starts at the highest multiple of 16 not above its end less 16 |
| Processes.ScrubLoses | emex/kernel/arch/x86_64/resume_parent_sysret.asm:25-69 | which registers survive being resumed that way |
| Processes.WaiterIs | emex/kernel/arch/x86_64/resume_parent_sysret.asm:25-69 | where and with which registers a waiter comes back |
| Lifecycle.LoseRegisters | emex/kernel/user/syscalls.c:226-249 | a run in which a process loses registers that way |
| Multitask.Kernel.PickNextTask | emex/kernel/proc/scheduler.c:60-95 | the loop computes the specified pick: a valid task that is neither BLOCKED nor ZOMBIE, or -1 when every one is |
| Multitask.Kernel.AddTask | emex/kernel/multitasking/multitasking.c:84-109 | a new slot with an unsaved frame, or -1 when the table of 64 is full; the registers the process will start with, one by one; sound exactly when full or when a tick enters the process as a start would |
| Multitask.Kernel.Start | emex/kernel/multitasking/multitasking.c:111-192 | enters the first ready task with rip at its entry point, rsp as given or at the top of its stack, flags 0x202, selectors 0x23 and 0x1B and everything else 0, or does nothing |
| Multitask.Kernel.LoadTask | emex/kernel/multitasking/multitasking.c:271-334 | loads the saved frame, or for a task that never ran its entry point, the top of its stack, flags 0x202, selectors 0x23 and 0x1B and everything else 0 |
| Multitask.Kernel.SwitchTo | emex/kernel/multitasking/multitasking.c:237-334 | saves and loads so that no process's register file changes |
| Multitask.Kernel.Preempt | emex/kernel/multitasking/multitasking.c:194-335 | one tick changes no register file and moves the scheduler exactly as specified |
| Multitask.Kernel.RunTimed | emex/kernel/multitasking/multitasking.c:194-335 | over any interleaving each process's registers are its own steps applied to its own start, where each step belongs to the process the ticks before it have put on the CPU; the schedule is that of the specified scheduler, and the CPU has the running process's registers and page table |
| Lifecycle.Fork | emex/kernel/user/syscalls.c:618-694 | the child's register file, the parent's return, nobody else's changed; the failing cases |
| Lifecycle.BlockedReturns | emex/kernel/arch/x86_64/resume_parent_sysret.asm:25-69 | a blocked caller comes back as from a call that returned 0 |
| Lifecycle.ReturnIs | emex/kernel/user/syscalls.c:711-783 | a call returns behind the instruction that made it with the preserved registers and its result |
| Lifecycle.ForkFrameIs | emex/kernel/user/syscalls.c:674-693 | the frame a child starts from, register by register |
| Lifecycle.Execve | emex/kernel/user/syscalls.c:301-442 | the caller is listed with its registers, the new process starts at its entry point and stack with flags 0x202, selectors 0x23 and 0x1B and everything else 0, and so says its saved frame; sound exactly when the task table has room |
| Lifecycle.Exit | emex/kernel/user/syscalls.c:150-255 | the first waiter resumes with exactly the registers it blocked with and the others stay as a multiset; else the first task that can run; somebody is left waiting for the process if and only if two were |
| Lifecycle.Waitpid | emex/kernel/user/syscalls.c:711-783 | unknown and zombie pids return at once, otherwise the caller is listed and blocked |
| Lifecycle.SwapRemoveKeeps | emex/kernel/user/syscalls.c:200-200 | the list's removal keeps all other entries |
| Lifecycle.OneRunning | emex/kernel/user/syscalls.c:192-249 | at most one RUNNING process, agreed on by task table, current process, registers and page table; waiters are BLOCKED and listed once |
| LifeRuns.RunAll | emex/kernel/user/syscalls.c:150-783 | over every run of ticks, user steps and calls each action does exactly what it should in the state before it, and the invariant holds; a waiter for a process that has exited stays blocked |
| LifeRuns.RegistersOver | emex/kernel/user/syscalls.c:150-783 | over every run a process's registers are what its own steps and the results of its own calls make of them, with a scrub at each resumption through `resume_parent_sysret` |
| LifeRuns.OffTheCpu | emex/kernel/arch/x86_64/resume_parent_sysret.asm:25-69 | a process that does not run keeps its registers, except that being resumed may scrub them; place, stack, flags and preserved registers are always kept |
| LifeRuns.ForkedTwins | emex/kernel/user/syscalls.c:674-693 | after fork parent and child stand at the same place, told apart by rax, and no other process's registers changed |
| Lifecycle.OneLeft | emex/kernel/user/syscalls.c:181-200 | taking the first waiter for a process off the list leaves another one if and only if there were two |
| Lifecycle.LeaveOneStuck | emex/kernel/user/syscalls.c:181-223 | a run from an empty kernel that leaves a process blocked for good |
| Lifecycle.WakeReceiver | emex/kernel/ipc/messages.c:136-138 | waking a blocked receiver is sound if and only if it is not waiting for a process and its saved frame is current; while the list never overflowed, if and only if it is not blocked |
| Lifecycle.WakeAWaiter | emex/kernel/ipc/messages.c:136-138 | a run in which waking a receiver breaks the invariant |
| SharedMemory.Shm.TakeRange | emex/kernel/ipc/shared_memory.c:107-108 | a page-aligned range after every range handed out before |
| SharedMemory.Shm.ProcRanges | emex/kernel/user/ulime.c:106-116 | code, heap and stack of a process are disjoint from every other range |
| SharedMemory.Shm.Create | emex/kernel/ipc/shared_memory.c:66-94 | a fresh id with frames of its own, or 0 with nothing changed if and only if the size is bad, the table full or the frames too few |
| SharedMemory.Shm.Attach | emex/kernel/ipc/shared_memory.c:96-126 | the same address again, or a new range whose pages map to the region's frames, and no other page changes |
| SharedMemory.Shm.Detach | emex/kernel/ipc/shared_memory.c:128-150 | unmaps exactly the process's pages; the last one to leave frees exactly the region's frames |
| SharedMemory.Shm.DetachAll | emex/kernel/ipc/shared_memory.c:152-160 | nothing stays attached or mapped in the process; exactly the regions it was attached to lose it, and those it left last are freed |
| SharedMemory.Shm.FreePhys | emex/kernel/ipc/shared_memory.c:54-64 | the frames return to the allocator, no page table mapping them |
| SharedMemory.Shm.Safe | emex/kernel/ipc/shared_memory.c:54-160 | no page table maps a free frame, two live regions share no frame, two mappings of one frame are the same page of the same region, counts equal attachments, a frame is free exactly when no region owns it |
| SharedMemory.Shm.Run | emex/kernel/ipc/shared_memory.c:66-160 | over every run each call does and returns exactly what it should in the state before it, and the invariant holds |
| SharedMemory.IdsIncrease | emex/kernel/ipc/shared_memory.c:66-94 | over any run no region id is given out twice |
| SharedMemory.RangesNeverReturn | emex/kernel/ipc/shared_memory.c:107-108 | over any run address ranges handed out are disjoint and never come back |
| Messages.Ipc.Open | emex/kernel/ipc/messages.c:58-78 | reopens a port or makes an empty one |
| Messages.Ipc.Send | emex/kernel/ipc/messages.c:107-141 | which of refused, waiting and sent it is, if and only if; refused changes nothing, waiting blocks the sender and lists it if there is a place, sent appends one new block and wakes the receiver |
| Messages.Ipc.Receive | emex/kernel/ipc/messages.c:143-165 | the oldest message cut to the buffer, its block freed, exactly the waiting senders woken, all other inboxes' queues as before |
| Messages.Ipc.Destroy | emex/kernel/ipc/messages.c:85-105 | frees exactly the queued blocks, closes only this port and wakes exactly the waiting senders |
| Messages.Ipc.WakeWaiters | emex/kernel/ipc/messages.c:50-56 | makes ready exactly the listed senders that were blocked |
| Messages.Ipc.Inbox | emex/kernel/ipc/messages.c:85-165 | an inbox is a bounded queue of distinct blocks, exactly the live ones; waiters only while it is full |
| Messages.Ipc.Exchange | emex/kernel/ipc/messages.c:107-165 | over any run of opening, closing, sending, receiving and destroying, the queue, the waiters, all process states and every reply with its bytes are those of the pure model |
| Messages.Conserved | emex/kernel/ipc/messages.c:107-165 | in the model no letter is lost, repeated or out of order |
| Messages.ReplyIs | emex/kernel/ipc/messages.c:143-165 | in the model a receive gets the next letter in the order of acceptance, cut to its buffer |
| Messages.WokenExactly | emex/kernel/ipc/messages.c:50-56 | a blocked sender is woken if and only if it was listed and something was received or the inbox destroyed |
| Messages.SeventeenthForgotten | emex/kernel/ipc/messages.c:116-123 | the seventeenth waiting sender is never woken |
| Sha256.MacrosAreSigmas | emex/kernel/data/sha256/sha256.c:27-35 | the shift macros are the standard's rotations |
| Sha256.ChChooses | emex/kernel/data/sha256/sha256.c:29-29 | each bit of x chooses between y and z |
| Sha256.MajIsMajority | emex/kernel/data/sha256/sha256.c:30-30 | where two of three words agree, that is the bit |
| Sha256.FipsConstants | emex/kernel/data/sha256/sha256.c:37-54 | the standard's constants are cube-root fractions of the primes |
| Sha256.KFromPrimes | emex/kernel/data/sha256/sha256.c:37-54 | the source's constants are, except number 60 |
| Sha256.H0FromPrimes | emex/kernel/data/sha256/sha256.c:67-70 | the initial hash is the square-root fractions of the primes |
| Sha256.LengthReadBack | emex/kernel/data/sha256/sha256.c:93-93 | the last eight bytes decode to the length they were made from |
| Sha256.PadIs | emex/kernel/data/sha256/sha256.c:71-104 | the message, byte 0x80, zeros, and in the last eight bytes, most significant first, eight times the number of bytes |
| Sha256.PadBytes | emex/kernel/data/sha256/sha256.c:77-104 | the padded message byte by byte |
| Sha256.NextBlock | emex/kernel/data/sha256/sha256.c:77-104 | the loop's chunk is the next block of the padded message and the loop ends after the last |
| Sha256.Expand | emex/kernel/data/sha256/sha256.c:106-119 | the schedule |
| Sha256.RoundInPlace | emex/kernel/data/sha256/sha256.c:125-136 | one round on the array is one round of section 6.2.2 |
| Sha256.CompressInPlace | emex/kernel/data/sha256/sha256.c:121-138 | the block's compression |
| Sha256.ToHex | emex/kernel/data/sha256/sha256.c:145-153 | 64 characters whose values are the digest's bytes |
| Sha256.DigestReadBack | emex/kernel/data/sha256/sha256.c:145-153 | the printed text determines the digest |
| Sha256.Hash | emex/kernel/data/sha256/sha256.c:61-156 | 64 characters that spell the digest of the padded message under the source's constants |
| Sha256Abc.AbcDigest | emex/kernel/data/sha256/sha256.c:61-156 | the standard side of the model gives the published digest of "abc", through padding, schedule and all sixty-four rounds |
| Sha256.RoundsAgree | emex/kernel/data/sha256/sha256.c:125-136 | the first sixty rounds are the standard's |
| Sha256.NeverAgreesTwice | emex/kernel/data/sha256/sha256.c:77-139 | equal hash values become different after one more block |
| Sha256.ShortNeverMatches | emex/kernel/data/sha256/sha256.c:61-156 | no message of less than 56 bytes gets its SHA-256 digest |
| Sha256.ShortTextNeverMatches | emex/kernel/data/sha256/sha256.c:61-156 | nor is the printed text ever that of its SHA-256 digest |
| Utf8.NextOfEncoded | emex/kernel/kernel_processes/bootscreen/print.c:35-124 | an encoded character is decoded and stepped over |
| Utf8.AcceptedIsEncoded | emex/kernel/kernel_processes/bootscreen/print.c:35-124 | whatever is accepted is the shortest encoding of a scalar value |
| Utf8.RecognisesExactly | emex/kernel/kernel_processes/bootscreen/print.c:35-124 | both directions at once: a character is taken if and only if it is encoded there |
| Utf8.MalformedIsQuestion | emex/kernel/kernel_processes/bootscreen/print.c:35-124 | where no character is encoded, one byte is shown as character 63 |
| Utf8.EncodeIs | emex/kernel/kernel_processes/bootscreen/print.c:35-124 | the encodings of RFC 3629 in bytes: length by range, lead and continuation bytes, payload |
| Utf8.NextInside | emex/kernel/kernel_processes/bootscreen/print.c:315-325 | on any bytes the decoder moves on and not past the terminator |
| Utf8.BeyondDoesNotMatter | emex/kernel/kernel_processes/bootscreen/print.c:76-105 | the bytes it may read behind the terminator never change the result |
| Utf8.Print | emex/kernel/kernel_processes/bootscreen/print.c:315-325 | the loop ends and shows exactly the decoded characters |
| Utf8.RoundTrip | emex/kernel/kernel_processes/bootscreen/print.c:315-325 | decoding the encoding of any list of characters gives the list |
| Line.NextReached | emex/kernel/graph/draw.c:109-119 | a turn of the loop steps the major axis and keeps the pixel nearest to the line, of two equally near the one with fewer steps on the minor axis |
| Line.DrawLine | emex/kernel/graph/draw.c:92-120 | in every octant: max(dx,dy)+1 pixels from end to end, each the nearest to the ideal line, of two equally near the one with fewer steps on the minor axis |
| Line.LineIsUnique | emex/kernel/graph/draw.c:92-120 | there is only one such line, so the contract determines every pixel |
| ByteDisks.HdaDevice.Read | emex/kernel/devices/disks/hdd0.c:51-79 | exactly the slice at the offset |
| ByteDisks.HdaDevice.Write | emex/kernel/devices/disks/hdd0.c:81-111 | exactly the bytes at the offset change, whatever the alignment |
| ByteDisks.ReadBack | emex/kernel/devices/disks/hdd0.c:51-111 | a read after a write sees the written bytes where they overlap and the old ones elsewhere |
| RxRings.RxRing.constructor | emex/drivers/net/e1000/e1000.c:85-113 | the empty ring |
| RxRings.RxRing.Fill | emex/drivers/net/e1000/e1000.c:104-109 | the card takes a packet exactly when fewer than 31 are unread and never touches an unread one |
| RxRings.RxRing.Recv | emex/drivers/net/e1000/e1000.c:258-275 | the oldest packet, cut to the caller's buffer; the tail register stays one behind |
| RxRings.RxRing.Run | emex/drivers/net/e1000/e1000.c:258-275 | over any interleaving of arrivals and calls the packets left, every taken or dropped packet and all bytes returned are those of a queue |
| RxRings.Conserved | emex/drivers/net/e1000/e1000.c:258-275 | in the queue no packet that was taken is lost, repeated or out of order |
| RxRings.ResultIs | emex/drivers/net/e1000/e1000.c:258-275 | a packet is dropped exactly when 31 are unread, and a call gets the next packet in the order of arrival, cut to its buffer |
| VirtualTerminals.ByteRing.Write | emex/kernel/devices/vt/vt.c:40-57 | takes the longest prefix that fits |
| VirtualTerminals.ByteRing.Read | emex/kernel/devices/vt/vt.c:59-76 | removes the oldest bytes |
| VirtualTerminals.WriteThenRead | emex/kernel/devices/vt/vt.c:40-76 | what goes in comes out |
| VirtualTerminals.VtTable.Get | emex/kernel/devices/vt/vt.c:78-89 | finds a live id or none |
| VirtualTerminals.VtTable.New | emex/kernel/devices/vt/vt.c:255-293 | a fresh id in the first free slot, live and with empty rings, in focus if nothing was; no other slot and no other terminal's ring changes; none exactly when the table is full |
| VirtualTerminals.VtTable.ResetRings | emex/kernel/devices/vt/vt.c:273-274 | the two rings of one slot are emptied and every other ring keeps its bytes |
| VirtualTerminals.VtTable.Remove | emex/kernel/devices/vt/vt.c:295-301 | the id is gone, and the focus with it; no ring changes |
| VirtualTerminals.VtTable.SetFocus | emex/kernel/devices/vt/vt.c:303-319 | who has the focus afterwards, for every id; no ring changes |
| VirtualTerminals.VtTable.WriteTo | emex/kernel/devices/vt/vt.c:326-334 | the longest prefix that fits goes to the output ring of that terminal and no other changes; -1 for an id that is not live |
| VirtualTerminals.VtTable.TypeTo | emex/kernel/devices/vt/vt.c:346-354 | the same for the input ring |
| VirtualTerminals.VtTable.ReadFrom | emex/kernel/devices/vt/vt.c:336-344 | the oldest bytes of that terminal's output ring, and no other changes; -1 for an id that is not live |
| VirtualTerminals.VtTable.Run | emex/kernel/devices/vt/vt.c:255-354 | over any run of creations, destructions, focus changes, writes and reads: the live terminals with all their unread bytes, the focus, every id given out and every byte handed out are those of the model |
| VirtualTerminals.VtTable.SeenOk | emex/kernel/devices/vt/vt.c:255-319 | at most sixteen terminals live, with ids below the counter, rings within their sizes, and whoever has the focus is one of them |
| VirtualTerminals.NoReuse | emex/kernel/devices/vt/vt.c:255-319 | over any run ids increase, none is a live one, and a creation fails exactly when sixteen are live |
| VirtualTerminals.StreamKept | emex/kernel/devices/vt/vt.c:40-76 | over any run a terminal survives, no byte of its output is lost, repeated, out of order or another terminal's |
| VirtualTerminals.EventsStayWhole | emex/kernel/devices/vt/vt.c:346-354 | a key event goes whole into the input ring if and only if fewer than 341 are unread; otherwise four of its bytes do |
| VirtualTerminals.OneFocused | emex/kernel/devices/vt/vt.c:303-319 | at most one slot is in focus, and it is the recorded one |

## Left out

- Disk errors: sector reads and writes succeed in range; I/O, serial output, boot messages and the partition table are not modelled.
- FAT volumes: `bytes_per_sector` is 512, a cluster at most 4096 bytes and the table sectors fit 16 bits, as the driver's static buffers and `cluster_to_Lba` assume.
- FAT names: 1 to 63 bytes without NUL and not starting with 0xE5, which the code stores as a deleted entry.
- FatFiles.Write: a write that would pass 2^32, the limit of a FAT32 file, on a volume with that much room; the wrap of the 32-bit position is not modelled.
- FatLayout.Format: layouts that would run past the end of the disk are not described. It updates a sequence of sectors, because no volume object exists yet.
- FatLayout.Mount: the geometry it loads must describe a sound volume; a damaged boot sector or table is not modelled.
- FileOpen.Open: names without a slash; `PathOpen.OpenPath` has the general case.
- DirRead.Reader.Visit: long-name slots whose characters would run past the 256-byte name buffer are excluded; no entry the system writes has one.
- PathOpen.OpenPath: paths of less than 256 bytes, as the component buffer demands, and no component on the way that names a plain file.
- PathOpen.WriteOpenPath: paths for which creating and opening take the same components, and the new file's own name is not among the names looked up in its directory on the way.
- Paths.SplitPath: looking a component up in a plain file is excluded, as is what the creating calls do with a plain file they take for a directory (`Paths.CreateDirAt`, `Paths.WriteFileAt`).
- FileRuns.Run: the run keeps the short names of directories apart from those of files, so that no path leads through a plain file; it writes through handles it opened itself and leaves out a write that would pass 2^32.
- Multitask.Kernel.Preempt: the kernel-mode branch, which only drops `current_idx` of a blocked task, and a kernel without a scheduler are not modelled.
- Multitask.Kernel.Start: `mt_find_next` and `scheduler_pick_next` search alike before any process is RUNNING, so one loop models both.
- Lifecycle.Fork: memory copies, page mapping and the registers a C function may leave behind are parameters.
- Lifecycle.Execve: loading the image is a parameter that may fail; the caller is the running process.
- LifeRuns.RunAll: a fork without a free pid and an execve with a full task table are not taken, and runs contain no wake-ups by message passing, which `Lifecycle.WakeReceiver` and `Messages` treat.
- SharedMemory.Shm.TakeRange: addresses are unbounded; the code checks no limit either.
- SharedMemory.Shm.AllocFrame: any free frame may come back, and allocation fails only when none is free.
- Messages.Ipc.Send: one turn of the waiting loop; the spin-wait is the caller coming back after it was woken, which then finds a closed inbox closed where the code looks at the queue only.
- Sha256.Hash: the message is the bytes before the terminator, and the rotation among four result buffers is not modelled. The word operations are a parameter of the algorithm's functions and methods, so the proofs hold for the standard's and the source's alike.
- Line.DrawLine: coordinates are unbounded integers and the pixels are a sequence; clipping and the flushed rectangle are not modelled.
- RxRings.RxRing.Fill: the card follows the 82540 rule of stopping when its head meets the tail register; packets are at most a buffer long.
- VirtualTerminals.VtTable.TypeTo: key events go in as bytes; `vt_input_read`, which waits for interrupts until it has an event, is not modelled.
- Not modelled at all: the transmit ring, the older `scheduler_tick` path, ATA, AHCI and PCI access, user interface, parsers and string helpers.
