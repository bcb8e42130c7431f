# A verified model of the Binbows kernel

This project models the file system, the process and memory managers, the scheduler, the shell's path
resolution and the context-switch assembly of the Binbows teaching kernel in Dafny, and proves what they
keep over whole runs.

**File system.** `FileSystem.dfy` gives each operation of `src/filesystem/fat32.c` as a function on the
cached cluster map and the bytes of every cluster, through the packed entry and word formats of
`DirectoryTable.dfy` and `ClusterMap.dfy`. `Fat32Driver.dfy` is the driver as a class over a byte image
(`BlockDevice.dfy`), loop by loop, proved to compute those functions. `VolumeInvariant.dfy` states who owns
each cluster and how the directories form a tree; `VolumeView.dfy` abstracts a volume to a map from
(directory, name, extension, kind) to contents. The main results are in `FileSystemTheorems.dfy` and
`FileSystemRuns.dfy`: one operation is one change of that map, what is written is read back until deleted,
deletion undoes writing, a restart loses nothing. `FileSystemAnswers.dfy` says of every return code exactly when
it is given.

**Processes, frames, scheduling.** `KernelState.dfy` gives exec, destroy, tick and exit as functions;
`KernelMachine.dfy` is the code as a class over its tables. `KernelInvariant.dfy` assigns every frame and
page directory an owner. `KernelRuns.dfy` and `KernelLimits.dfy` prove isolation, accounting and
bounded waiting over every run of timer ticks, execs, exits and kills, each taken as one atomic step, since
handlers run with interrupts off.

**Shell.** `ShellPath.dfy` and `Shell.dfy` model `multiple_cd` and `change_dir`.

**Context switch.** `ContextSwitch.dfy` runs the interrupt entry, the normal return and
`process_context_switch` on a register file and word memory. The frame follows section 6.12.1 of Intel SDM
Vol. 3A. `EndToEnd.dfy` joins the parts.

## Where the code and its intent differ

The model follows the code. Each difference has a lemma with the exact condition, and one with an input or
a run from a formatted disk or from boot that meets it.

- `create_fat32` does not write the cluster map, although its comment says so: `FormatThenRestart`;
  `BlankDiskLosesFormat`.
- The emptiness scan of `delete` starts at slot 3 although the first child sits in slot 2, and slot 1 (the
  parent) can be matched: `DeleteKeepsWellFormedIff`; `DeleteLosesOnlyChild`, `DeleteThroughParentEntry`.
- The "is a directory" test also accepts cluster 1 and the last cluster of any file: `GuardAccepts`,
  `WriteKeepsWellFormedIff`; `WriteIntoFile`.
- A failed exec leaks its page directory, until an exec finds none and writes through a null pointer:
  `FailedExecRestores`, `LeaksOverRun`, `ExecDefinedIff`; `DirectoriesRunOut`.
- Killing the running process leaves `current_pid` on a dead slot, which the next tick revives:
  `KillKeepsIff`; `KillCurrentThenTick`.
- The two digits of a typed process number are taken in the wrong order, and the result is not bounded:
  `KillDecodesIff`, `KillKeepsIff`.
- Exit runs on slot 0's page directory, which is cleared once the shell there has been killed, and which
  exit itself clears when the shell exits; with nothing Ready, it never returns from the search or selects
  the dead slot: `ExitMappedIff`, `ExitKeepsIff`; `ShellKilledRun`, `ShellCannotExit`.
- If the shell's file cannot be read at boot, the first search for a process never ends:
  `BootReachesInvariant`.
- The page count of exec wraps around for buffer sizes near 2^32: `LoadFits`; `LoadWraps`.
- `process_context_switch` loads `eax` through the restored `ecx`: `PreemptResume`; `EaxLost`.
- A path component that only starts with `..` goes to the parent as well: `CdUp`.
- A path component of exactly 8 characters leaves the shell's buffer without a terminating zero, and a
  path text of 128 characters or more overflows: `UndefinedIff`, with the sufficient test `FitsIsDefined`;
  `EightCharactersOverrun`, `NestedPathOverruns`. `MultipleCd` reports an overrun and stops there.

## Model

| member | source | states |
|---|---|---|
| FileSystemTheorems.WriteRefines | src/filesystem/fat32.c:304-388 | a successful write into a directory binds exactly one new key (directory, name, extension, kind) of the abstract map, a free one, to the bytes written rounded up to clusters or to a new empty directory; every other file and directory keeps its contents |
| FileSystemTheorems.DeleteRefines | src/filesystem/fat32.c:397-465 | a successful delete of a removable entry drops exactly one binding, one of the requested name and extension, and nothing else changes |
| FileSystemTheorems.ReadRefines | src/filesystem/fat32.c:261-296 | read returns 0 exactly when the file is bound and fits the caller's size, 2 exactly when it is bound and does not fit; on success the chain ends, it yields the bound bytes, and their number is the recorded filesize |
| FileSystemAnswers.WriteAnswers | src/filesystem/fat32.c:304-345 | in a directory, write answers 1 exactly when the name is taken (for a file, by a file or directory of the same extension, for a directory, by a directory; the directory itself and its parent count), else 0 exactly when fewer than 64 slots are used and the clusters that are not owned hold the data, else -1; 2 exactly when the map does not mark the cluster |
| FileSystemAnswers.DeleteAnswers | src/filesystem/fat32.c:397-465 | in a directory, delete answers 1 exactly when nothing bound there, nor the directory or its parent, has the name and extension, -1 exactly when the directory itself has, 2 exactly when the first match is another directory with a binding past slot 2, else 0; aimed at an unmarked cluster, -1 |
| FileSystemAnswers.LoneFileDeleted | src/filesystem/fat32.c:439-456 | a bound file whose name and extension nothing else there has is deleted |
| FileSystemAnswers.LoneDirectoryDeleted | src/filesystem/fat32.c:409-437 | a bound directory whose name nothing else there has is deleted when it has no bindings, and refused with 2 exactly when it has one past slot 2 |
| FileSystemAnswers.ReadAnswers | src/filesystem/fat32.c:261-296 | of a file that is not bound, read answers 1 exactly when a directory has the name, 3 exactly when nothing has, -1 exactly when only files with other extensions have |
| FileSystemAnswers.ReadDirectoryAnswers | src/filesystem/fat32.c:221-252 | read_directory answers 0 exactly when a directory has the name, else 1 exactly when a file has, else 2; -1 exactly for a wrong buffer size or an unmarked cluster |
| FileSystemRuns.WriteReadRoundTrip | src/filesystem/fat32.c:327-385 | after a successful write of a file and any later legal run that does not delete it, a read with a buffer of the rounded-up size returns 0 and the bytes written |
| FileSystemRuns.RunRefines | src/filesystem/fat32.c:304-465 | over any legal run the invariant holds and the abstract map is changed by one possible change per operation |
| FileSystemRuns.StepRefines | src/filesystem/fat32.c:304-465 | one operation is one change of the abstract map; every failing write or delete leaves map and disk unchanged |
| FileSystemRuns.BindingStays | src/filesystem/fat32.c:304-465 | on the abstract map no change overwrites a binding: it stays until it is dropped |
| FileSystemRuns.FormattedRun | src/filesystem/fat32.c:145-167 | every state reached from a formatted disk has the invariant, its view is what the changes made build from the empty map, and its free and owned clusters are 509 together |
| FileSystemRuns.FormatWellFormed | src/filesystem/fat32.c:145-167 | a formatted disk satisfies the invariant and holds no files |
| FileSystemRuns.MountUnsigned | src/filesystem/fat32.c:173-175 | mounting a disk without the signature leaves an empty well-formed volume that carries it, with the clusters from 3 on as they were |
| FileSystemRuns.MountedRun | src/filesystem/fat32.c:173-175 | every state reached from mounting an unsigned disk has the invariant, and its view is what the changes made build from the empty map |
| FileSystemRuns.MountedRunRestarts | src/filesystem/fat32.c:173-179 | and once one operation has succeeded, mounting again gives exactly that state |
| FileSystemRuns.RestartFindsRun | src/filesystem/fat32.c:173-179 | once one operation has succeeded since formatting (or the map on disk was current), a restart loads exactly the state the run ended in |
| FileSystemRuns.StepSyncs | src/filesystem/fat32.c:467-469 | every successful operation leaves cluster 1 equal to the cached map and the signature in place |
| FileSystemRuns.FormatThenRestart | src/filesystem/fat32.c:139-167 | the format routine does not write the map: a restart right after it finds the formatted volume if and only if cluster 1 already held the fresh map |
| FileSystemRuns.BlankDiskLosesFormat | src/filesystem/fat32.c:139-179 | on a blank disk that restart fails: the root then rejects writes with 2 and reads with -1 |
| FileSystemRuns.ReadsBackAfterRun | src/filesystem/fat32.c:261-296 | a bound file reads back its bytes after any legal run that does not drop it |
| FileSystemTheorems.WriteThenDelete | src/filesystem/fat32.c:327-456 | deleting a file just written succeeds and restores the cluster map exactly |
| FileSystemTheorems.WriteThenDeleteView | src/filesystem/fat32.c:327-456 | and restores the abstract map |
| FileSystemTheorems.ReleaseAllocated | src/filesystem/fat32.c:327-362 | allocation uses up exactly the clusters the size needs, and releasing them gives the map back |
| FileSystemTheorems.ParentsReachRoot | src/filesystem/fat32.c:82-90 | following the parent entries in slot 1 from any directory reaches the root in finitely many steps |
| FileSystemTheorems.ReadOwnDirectory | src/filesystem/fat32.c:231-241 | read_directory of a directory's own name at its own cluster returns its own table |
| FileSystemTheorems.ReadDirectoryFindsName | src/filesystem/fat32.c:221-252 | a directory read yields a directory whose slot 0 carries the requested name: the directory itself, its parent or a child |
| FileSystemTheorems.WellFormedIsReady | src/filesystem/fat32.c:275-283 | in a well-formed volume the walks of read and delete end inside the map and a read copies no more than the size it checked |
| VolumeOperations.WriteKeepsWellFormed | src/filesystem/fat32.c:304-388 | a write aimed at a directory keeps the invariant, whatever its outcome |
| VolumeOperations.DeleteKeepsWellFormed | src/filesystem/fat32.c:397-465 | a delete of a file or of a truly empty child directory keeps the invariant |
| VolumeOperations.DeleteIsDefined | src/filesystem/fat32.c:415-454 | in a well-formed volume every cluster number a delete follows is inside the map and its chain ends |
| VolumeOperations.WriteOnDisk | src/filesystem/fat32.c:346-385 | a successful write changes only the directory, the allocated clusters and cluster 1; the file's clusters hold the data |
| VolumeOperations.DeleteOnDisk | src/filesystem/fat32.c:425-456 | a successful delete changes only the directory, the freed clusters (zeroed) and cluster 1 |
| VolumeInvariant.OwnedChain | src/filesystem/fat32.c:279-283 | links go strictly upwards and never leave their owner, so every walk ends |
| VolumeInvariant.ChainIsOwnership | src/filesystem/fat32.c:346-362 | the chain of an entry is exactly the set of clusters it owns |
| VolumeInvariant.ChainsDisjoint | src/filesystem/fat32.c:346-362 | chains of different entries share no cluster |
| VolumeInvariant.Conservation | src/filesystem/fat32.c:327-362 | in every well-formed volume the free clusters and the clusters owned by an entry, each on its owner's chain, are 509 together |
| VolumeInvariant.AddedKeepsInv | src/filesystem/fat32.c:346-385 | adding one entry with its chain keeps every part of the invariant |
| VolumeInvariant.RemovedKeepsInv | src/filesystem/fat32.c:425-456 | removing one entry with its chain keeps every part of the invariant |
| VolumeView.AddedView | src/filesystem/fat32.c:369-385 | on the view, adding an entry is one update under a key that was free |
| VolumeView.RemovedView | src/filesystem/fat32.c:425-456 | on the view, removing an entry is removing one key |
| VolumeView.ChildSeen | src/filesystem/fat32.c:310-323 | each child entry is seen under its own key: no other slot of its directory has that key |
| FileSystemLimits.GuardAccepts | src/filesystem/fat32.c:305-307 | the test map[c] == END_OF_FILE accepts exactly the directories, cluster 1 and the last clusters of files |
| FileSystemLimits.WriteKeepsWellFormedIff | src/filesystem/fat32.c:304-388 | a successful write keeps the volume well formed if and only if its parent is a directory |
| FileSystemLimits.DeleteKeepsWellFormedIff | src/filesystem/fat32.c:397-465 | a successful delete keeps the volume well formed if and only if, in a directory, it matched a child, not slot 1, and a matched directory has slot 2 free as well; aimed at cluster 1 or a file's last cluster, if and only if the bytes it took for an entry name a free cluster |
| FileSystemWitnesses.WriteIntoFile | src/filesystem/fat32.c:305-307 | after format and a file of one zero cluster, a write aimed at that cluster is accepted, whatever it is, and no shape is well formed |
| FileSystemWitnesses.DeleteLosesOnlyChild | src/filesystem/fat32.c:417 | after format, mkdir a and mkdir b in a, deleting a is accepted and no shape is well formed |
| FileSystemWitnesses.DeleteThroughParentEntry | src/filesystem/fat32.c:410 | after format and mkdir a, deleting root in a is accepted and no shape is well formed |
| FileSystemWitnesses.ZeroedDiskMounts | src/filesystem/fat32.c:132-136 | a zeroed disk is unsigned, and once it is mounted the root takes a first file or directory |
| ClusterMap.FirstFitTakesLowest | src/filesystem/fat32.c:347-361 | the allocator's choice is the wanted number of smallest free clusters in ascending order |
| ClusterMap.LinkChainMakesChain | src/filesystem/fat32.c:347-362 | the links made are upward, end in END_OF_FILE, form exactly the chosen chain, and touch nothing else |
| ClusterMap.ReleaseUndoesLinkChain | src/filesystem/fat32.c:448-454 | releasing a chain made of free clusters restores the map |
| ClusterMap.LinkChainUses | src/filesystem/fat32.c:338-362 | linking n free clusters lowers the number of free clusters by n |
| ClusterMap.ReleaseFrees | src/filesystem/fat32.c:448-454 | releasing a chain raises the number of free clusters by its length |
| ClusterMap.ChainFrame | src/filesystem/fat32.c:279-283 | a chain depends on the map only at its own clusters |
| ClusterMap.MapRoundTrip | src/header/filesystem/fat32.h:58-60 | the map written to cluster 1 as little-endian words is the map read back |
| ClusterMap.MapLayout | src/header/filesystem/fat32.h:58-60 | map entry c is bytes 4c to 4c + 3, low byte first |
| DirectoryTable.DecodeEncodeTable | src/header/filesystem/fat32.h:82-103 | a table written to a cluster as 64 packed 32-byte entries is the table read back |
| DirectoryTable.EncodeDecodeTable | src/header/filesystem/fat32.h:82-103 | a cluster read as a table and written back keeps its bytes |
| DirectoryTable.EntryRoundTrip | src/header/filesystem/fat32.h:82-98 | one packed entry, with its split cluster number, decodes to itself |
| DirectoryTable.EntryLayout | src/header/filesystem/fat32.h:82-98 | the byte position of every field the file system uses, numbers low byte first |
| DirectoryTable.TableLayout | src/header/filesystem/fat32.h:100-103 | slot i is the 32 bytes from 32i on |
| FileSystem.GatherStore | src/filesystem/fat32.c:347-361 | data stored piece by piece into ascending clusters is gathered back unchanged |
| FileSystem.SignatureLayout | src/filesystem/fat32.c:8-16 | the signature is text, zeros from byte 80 to 509, and two letters at the end |
| Fat32Driver.Driver.Write | src/filesystem/fat32.c:304-388 | the driver's write computes the specified code and state |
| Fat32Driver.Driver.TakeClusters | src/filesystem/fat32.c:346-361 | the one-pass loop stores, links and stops after exactly the first-fit clusters |
| Fat32Driver.Driver.Allocate | src/filesystem/fat32.c:346-362 | the loop and its end-of-file mark build the first-fit chain and store the data in it |
| Fat32Driver.Driver.CountFree | src/filesystem/fat32.c:337-342 | the availability count is the number of free clusters |
| Fat32Driver.Driver.CheckNames | src/filesystem/fat32.c:309-323 | the scan reports a collision exactly when some entry collides, else whether a slot is free |
| Fat32Driver.Driver.InsertEntry | src/filesystem/fat32.c:370-382 | the slot loop fills the first free slot and no other |
| Fat32Driver.Driver.CreateDirectoryTable | src/filesystem/fat32.c:72-125 | a new directory's table, its map entry and its parent's entry are written as specified |
| Fat32Driver.Driver.Read | src/filesystem/fat32.c:261-296 | the driver's read returns the specified code; on success it writes exactly the file's bytes and never past the given size, else nothing |
| Fat32Driver.Driver.FindFile | src/filesystem/fat32.c:268-295 | the scan of read returns the specified code and the first matching slot |
| Fat32Driver.Driver.CopyChain | src/filesystem/fat32.c:278-283 | the walk copies the chain's clusters in order and nothing more |
| Fat32Driver.Driver.FindDirectory | src/filesystem/fat32.c:228-251 | the scan of read_directory returns the specified code and the first matching slot |
| Fat32Driver.Driver.ReadDirectory | src/filesystem/fat32.c:221-252 | the driver's read_directory returns the specified code and table |
| Fat32Driver.Driver.Delete | src/filesystem/fat32.c:397-465 | the driver's delete computes the specified code and state |
| Fat32Driver.Driver.ReleaseChain | src/filesystem/fat32.c:448-454 | the loop zeroes and frees exactly the chain |
| Fat32Driver.Driver.ScanChildren | src/filesystem/fat32.c:413-421 | the emptiness scan reports a used slot from 3 on |
| Fat32Driver.Driver.CreateFat32 | src/filesystem/fat32.c:145-167 | formatting writes the signature, the fresh map in memory and the root table |
| Fat32Driver.Driver.Initialize | src/filesystem/fat32.c:173-179 | mounting formats an unsigned disk and loads the map of a signed one |
| BlockDevice.ImageDisk.ReadBlocks | src/external/external-inserter.c:13-21 | block reads copy consecutive blocks of the image |
| BlockDevice.ImageDisk.WriteBlocks | src/external/external-inserter.c:23-31 | block writes replace consecutive blocks of the image and nothing else |
| BlockDevice.ClusterReplaced | src/filesystem/fat32.c:189-191 | writing one cluster's bytes replaces that cluster and no other |
| KernelRuns.Isolation | src/Paging/paging.c:86-203 | each used frame but frame 0 is mapped by exactly one user page of exactly one live process; the recorded pages of a live process are present, writable, user, 4 MiB pages and but for the kernel's nothing else is mapped; live processes have different directories; used directories map frame 0 at 0x300, present, writable, 4 MiB and not for the user |
| KernelLimits.IsolatedThroughout | src/Interrupt/interrupt.c:47-75 | in every state of every legal run after boot: isolation, one running process, cr3 on a directory that maps the kernel, free count equal to the free frames, held, free and kernel frames 32 together, live and directory counts, pids equal to slots, and every legal next event in bounds with the kernel mapped on every directory it runs on |
| KernelRuns.StepKeeps | src/Interrupt/interrupt.c:47-168 | tick, exec, kill of another process, and exit with somebody Ready and slot 0 on a kernel-mapping directory not the caller's, stay in bounds, keep the kernel mapped and keep the invariant |
| KernelRuns.ExitMappedIff | src/Interrupt/interrupt.c:138-144 | the directory in cr3 maps the kernel after line 141 and after process_destroy if and only if slot 0's directory maps it and is not the caller's; with process 0 live, if and only if the caller is another process |
| KernelRuns.BoundedWaiting | src/scheduler/scheduler.c:28-56 | a Ready process that is not killed runs within 16 context switches, whatever else is interleaved, with its saved registers, directory and mappings |
| KernelRuns.ServedWithinDistance | src/scheduler/scheduler.c:32-41 | more precisely, within as many switches as its cyclic distance from the current process |
| KernelRuns.StepServes | src/scheduler/scheduler.c:28-56 | each switch takes a waiting process or brings it strictly nearer, and no event changes its saved state |
| KernelRuns.NextReadyIsLeast | src/scheduler/scheduler.c:32-41 | the search finds the Ready slot of least cyclic distance, the current slot last |
| KernelRuns.SwitchPicksNearest | src/scheduler/scheduler.c:28-56 | a switch picks it and leaves exactly one process Running, on its own directory |
| KernelRuns.SwitchRoundRobin | src/scheduler/scheduler.c:28-47 | a switch takes the first Ready slot above the current one, going round |
| KernelRuns.TickRoundRobin | src/Interrupt/interrupt.c:51-62 | the timer saves the registers of the running process, makes it Ready, takes the first Ready one after it and changes no other process |
| KernelRuns.KillAnswers | src/Interrupt/interrupt.c:160-167 | a kill of another slot answers 1 for a dead one and changes nothing, 0 for a live one and frees exactly its frames and directory |
| KernelRuns.ExitAnswers | src/Interrupt/interrupt.c:138-144 | exit frees exactly the caller's frames and directory, takes the first Ready process after it and changes no other process |
| KernelLimits.BootReachesInvariant | src/kernel.c:27-45 | creating the shell and entering the scheduler establishes the invariant if the shell's file was read; otherwise the search for a process never ends |
| KernelLimits.LeaksOverRun | src/process/process.c:69-77 | only failed execs leak page directories, at most one each |
| KernelLimits.ExecDefinedWhileFewFailed | src/process/process.c:55-58 | while at most 16 execs have failed an exec always finds a page directory |
| KernelInvariant.ExecDefinedIff | src/process/process.c:55-58 | an admitted exec finds a page directory if and only if live processes and leaked directories leave one |
| KernelLimits.DirectoriesRunOut | src/process/process.c:55-58 | after boot and 31 failed execs, all legal, an admitted exec finds no page directory |
| KernelInvariant.FailedExecRestores | src/process/process.c:69-77 | an exec whose read fails gives back every frame and leaves one directory marked used |
| KernelInvariant.FailedExecKeeps | src/process/process.c:69-77 | and keeps the ownership invariant, with that directory leaked |
| KernelInvariant.SuccessfulExecKeeps | src/process/process.c:35-106 | a successful exec keeps the ownership invariant |
| KernelInvariant.DestroyKeeps | src/process/process.c:133-154 | destroying a process keeps the ownership invariant |
| KernelInvariant.DestroyIsDefined | src/process/process.c:143-150 | from invariant states destroy stays in bounds and its rollback branch is never taken |
| KernelInvariant.DestroyReleases | src/process/process.c:138-153 | destroy releases the process's frames and directory and nothing else |
| KernelInvariant.ExecThenDestroyRestores | src/process/process.c:35-154 | create then destroy restores frame map, counters and directory usage |
| KernelInvariant.AllocatePagesMaps | src/process/process.c:60-64 | n allocations map n fresh frames at pages 0 to n - 1 |
| KernelInvariant.FreePagesUnmaps | src/process/process.c:139-142 | freeing the recorded pages frees exactly their frames |
| KernelLimits.KillKeepsIff | src/Interrupt/interrupt.c:145-168 | for every number, a kill stays in bounds and keeps the invariant if and only if it names a slot other than the running process's |
| KernelLimits.KillDecodesIff | src/Interrupt/interrupt.c:147-158 | a typed number below 100 reaches the process it names if and only if it has one digit or two equal ones; 12 to 15 reach no slot |
| KernelLimits.KillCurrentThenTick | src/scheduler/scheduler.c:16-23 | after a kill of the running process cr3 names a directory without the kernel, and the next tick revives the slot on a directory that is not in use |
| KernelLimits.ExitKeepsIff | src/Interrupt/interrupt.c:138-144 | exit stays in bounds, ends, keeps the kernel mapped and keeps the invariant if and only if another process is Ready and slot 0's directory maps the kernel and is not the caller's; with nothing Ready the search diverges (slot 0) or takes the dead slot |
| KernelLimits.ShellKilledRun | src/Interrupt/interrupt.c:141 | a legal run from boot (two execs, a tick, a kill of the shell) after which exit finds a next process but first loads a directory that is not in use and has no kernel entry |
| KernelLimits.ExitAfterShellKilled | src/Interrupt/interrupt.c:141 | the same from every invariant state in which the shell lives, another process runs and a third is Ready |
| KernelLimits.ShellCannotExit | src/scheduler/scheduler.c:32-41 | right after boot, exit from the shell never returns from the search |
| KernelLimits.LoadFits | src/process/process.c:31-52 | the admitted pages cover the buffer size and one frame more if and only if the 32-bit sum does not wrap, and then a program loaded in the first frame fits |
| KernelLimits.LoadWraps | src/process/process.c:49 | right after boot a request of 0xFFC00000 bytes is admitted with no pages at all |
| KernelLimits.ExecAnswers | src/process/process.c:35-106 | exec answers 1 exactly when all 16 slots are live, else 2 exactly for a load address in the kernel's half, else 3 exactly when the memory asked for is more than 8 pages or than the free frames, else 4 exactly when the read fails, else 0 |
| KernelLimits.PagesAreLeast | src/process/process.c:31-33 | without wrap-around the page count is the least that covers the buffer size and one frame more |
| KernelLimits.ExecStartsFirstDead | src/process/process.c:54-99 | a refused exec changes nothing; an exec that succeeds starts a Ready process in the first dead slot, under that number, and changes no other |
| KernelMachine.Machine.AllocateUserPageFrame | src/Paging/paging.c:86-123 | the search loop takes the first free frame and maps it |
| KernelMachine.Machine.FreeUserPageFrame | src/Paging/paging.c:125-148 | a present entry's frame is freed and the entry cleared |
| KernelMachine.Machine.CreateNewPageDirectory | src/Paging/paging.c:151-185 | the search loop takes the first unused directory and resets it |
| KernelMachine.Machine.FreePageDirectory | src/Paging/paging.c:187-203 | a listed directory is cleared and marked unused; any other is refused |
| KernelMachine.Machine.CreateUserProcess | src/process/process.c:35-106 | process creation computes the specified code and state, or reports that it would go on outside its tables, exactly when no page directory or slot is found |
| KernelMachine.Machine.ProcessDestroy | src/process/process.c:133-154 | process destruction computes the specified result and state, rollback included, or reports a number that names no slot |
| KernelMachine.Machine.GetInactiveIndex | src/process/process.c:14-22 | the search returns the first inactive slot |
| KernelMachine.Machine.FindNext | src/scheduler/scheduler.c:32-41 | the search with the wrap inside the loop ends and returns the specified slot, start value -1 included |
| KernelMachine.Machine.SwitchToNextProcess | src/scheduler/scheduler.c:28-56 | the switch computes the specified state |
| KernelMachine.Machine.TimerInterrupt | src/Interrupt/interrupt.c:51-62 | the timer case saves and switches as specified |
| KernelMachine.Machine.ExitProcess | src/Interrupt/interrupt.c:138-144 | system call 10 computes the specified state |
| KernelMachine.Machine.KillProcess | src/Interrupt/interrupt.c:145-168 | system call 11 decodes its two characters, destroys that process and returns 0 or 1, or reports a number that names no slot |
| ShellPath.ResolveAgrees | src/user-shell.c:29-161 | after every successful multiple_cd the path text spells the names from the root down to the working directory |
| ShellPath.ResolveIsFold | src/user-shell.c:47-159 | the character loop equals folding a one-component step over the parsed path, from the root after a leading root |
| ShellPath.CdHere | src/user-shell.c:1057-1061 | an empty path and . stay |
| ShellPath.CdUp | src/user-shell.c:1063-1075 | .., and any component of at most 7 characters that starts with it, leads to the parent and its path text, and is refused at the root |
| ShellPath.CdDown | src/user-shell.c:1076-1090 | the name of a child directory that fits leads to it and its path text |
| ShellPath.CdNowhere | src/user-shell.c:1076-1093 | a name no child directory has, and any of more than 8 characters, is refused |
| ShellPath.CdFromRoot | src/user-shell.c:58-66 | root, alone or before a slash, goes to the root first |
| ShellPath.CdOneByOne | src/user-shell.c:67-122 | the component before a slash is taken first and the rest from where it led; with nothing before the slash the path is refused |
| ShellPath.UndefinedIff | src/user-shell.c:44-159 | multiple_cd overruns a buffer if and only if, after components that step successfully, the next has exactly 8 characters or names a child and makes the path text reach 128 |
| ShellPath.FitsIsDefined | src/user-shell.c:44-159 | a path without 8-character components whose components, each with a slash, fit behind the path text overruns nothing, whatever directories there are |
| ShellPath.EightCharactersOverrun | src/user-shell.c:44-55 | any 8 characters without a slash overrun from anywhere |
| ShellWitness.NestedPathOverruns | src/user-shell.c:1080-1081 | after format and 16 nested mkdirs, cd by path into the fifteenth succeeds from anywhere and cd by name into the sixteenth overruns the path text |
| ShellPath.PathRoundTrip | src/user-shell.c:58-66 | the path text shown for a directory leads back to it from anywhere |
| ShellPath.StepAgrees | src/user-shell.c:1056-1093 | one successful component keeps path text and directory in step |
| ShellPath.TruncateDropsLast | src/user-shell.c:1068-1071 | the clearing loop removes exactly the last component |
| ShellPath.WriteKeepsPadded | src/filesystem/fat32.c:72-79 | directory names stay zero-padded when every new directory gets such a name |
| ShellPath.DeleteKeepsPadded | src/filesystem/fat32.c:425-456 | deleting keeps directory names zero-padded |
| Shell.Session.MultipleCd | src/user-shell.c:29-161 | for every path, multiple_cd overruns a buffer exactly when the path resolves to Undefined; else it returns 0 exactly when the path resolves and then stands there, and on any failure directory and path text are as before |
| Shell.Session.WalkPath | src/user-shell.c:67-159 | the main loop computes the walk, overruns included |
| Shell.Session.TakeStep | src/user-shell.c:82-106 | read_directory followed by change_dir takes the specified step, overruns included |
| Shell.Session.ChangeDir | src/user-shell.c:1056-1093 | change_dir computes the specified outcome, overruns included, and the next name buffer |
| Shell.Session.TruncatePath | src/user-shell.c:1068-1071 | the clearing loop computes the truncated text |
| Shell.Session.ScanName | src/user-shell.c:33-40 | the scan back finds the last name of the path text |
| ContextSwitch.Processor.EnterHandler | src/header/cpu/intsetup.s:5-95 | both stub macros and the entry up to the call leave the same frame above the return address: all registers of the interrupted process, with its stack pointer if its ds was a user selector; ebp at the frame, the kernel's segments loaded |
| ContextSwitch.Processor.ReturnFromHandler | src/header/cpu/intsetup.s:54-72 | a normal return restores every register from an intact frame |
| ContextSwitch.Processor.SwitchTo | src/kernel-entrypoint.s:114-149 | process_context_switch loads every register from the context but eax, which it loads through the restored ecx; swapped, eax too |
| ContextSwitch.Processor.PreemptAndResume | src/kernel-entrypoint.s:114-149 | entry, copying the context out of the frame and process_context_switch in one run: every register is back but eax, which is the word at the process's ecx + 28, and esp, which is the recorded one; eax too with the two loads swapped |
| ContextSwitch.FrameGivesContext | src/Interrupt/interrupt.c:53-57 | what the timer copies out of the frame is the saved context |
| ContextSwitch.PreemptResume | src/kernel-entrypoint.s:134-149 | save followed by restore gives back every register if and only if the word at ecx + 28 equals eax and the stack pointer was recorded; only eax and esp can differ |
| ContextSwitch.EaxLost | src/kernel-entrypoint.s:146-147 | over zeroed memory a non-zero eax is lost |
| EndToEnd.PreemptedProcessResumes | src/Interrupt/interrupt.c:51-62 | a preempted process that is not killed is resumed within 16 switches with its directory, mappings and registers (eax as above) |
| EndToEnd.NewProcessStarts | src/process/process.c:80-96 | a new process starts at address 0 in user mode with esp 0x3FFFFC in page 0, its registers zero, interrupts enabled and no flag touched but bits 1 and 9 |
| EndToEnd.NewProcessHasStack | src/process/process.c:60-96 | after a successful exec the page of its stack and first instruction is present, writable and for the user exactly when the page count is not zero, which holds unless it wrapped around |
| EndToEnd.LoadedProgramFits | src/process/process.c:49-67 | every byte exec's read stores lies in a page that the new directory maps to a frame of the new process, free before, and there are at most 8 such pages |

## Left out

- ATA port I/O, keyboard, framebuffer, clock, GDT, IDT, PIC and PIT: device registers and constants.
- Address translation and TLB contents: CR3 is the name of a directory, a page entry is a record of the flags the kernel sets and its frame, and the kernel counts as mapped when the entry in memory maps it.
- `memcpy`, `memset`, `memcmp`, `strcmp`: taken as copying, filling and comparing sequences.
- Shell commands other than cd: they parse text and print around the same system calls.
- Process names and the process listing of system call 9.
- What the C code does once it has left a buffer or a table: the methods report it and stop there.
- The file read inside exec: its return code is a parameter of the process model; `LoadedProgramFits` joins it to the file system.
- Path text and component buffers of the shell are sequences up to their terminating zero, so bytes after it are not modelled.
- Segment selectors are whole words in the context-switch model, which does not truncate them to 16 bits.
- What a C handler may do to its by-value frame before a normal return: the return path is proved for an intact frame.
- Clusters of the 4 MiB image beyond the 512 that the map can name.
- Fat32Driver.Driver.Write: requires cluster 0 to be in use, which holds on every formatted volume, because the allocation loop uses 0 for "none yet".
- Fat32Driver.Driver.ReadCluster: reads one cluster, where the C function takes a count that every caller sets to 1.
- Shell.Session.MultipleCd: nothing is promised about directory and path text after an overrun; it requires directory names to be zero-padded C strings, as the shell makes them; `WriteKeepsPadded` and `DeleteKeepsPadded` say when they stay so.
