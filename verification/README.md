# AMQ-OS kernel components, verified

This project models the parts of the AMQ-OS kernel that carry state or arithmetic worth proving something about, and
proves what they promise. Each component is modelled in the form of its source: code that updates fields, tables and
buffers is a class or an in-place method with loops, proved against a specification made of functions and predicates;
the theorems are about that specification.

- **TinyFS and the VFS** (`Layout`, `DiskImage`, `DiskBytes`, `FatChains`, `FileBytes`, `FsSpec`, `TinyFs`,
  `FsTheorems`, `FsHistory`, `FsRuns`, `Paths`, `Vfs`, `VfsRuns`). A file allocation table with 1024 blocks on a disk
  of 512-byte sectors. The class `TinyFs` carries out allocation, chain walks, offset reads and writes, create,
  unlink, format, mount and the write-through flushes. Its invariant is that every chain is acyclic, stays in the data
  region, ends in the end mark, covers the size and shares no block with another chain; every non-free table entry is
  on exactly one chain; and the free counter counts the free entries. Above it, files are byte sequences, a mount of
  the image rebuilds the state, and paths resolve through a descriptor layer.
- **Scheduler, jobs and sleep** (`SchedSpec`, `SchedRuns`, `SchedLaws`, `Scheduler`, `JobsSpec`, `JobsTheorems`,
  `JobsLaws`, `JobTable`). The ready queue threaded through the thread table refines a duplicate-free sequence; runs
  of calls from boot keep the invariants, thread, process and job ids stay distinct, waiting is bounded, and sleeping
  threads wake when they should.
- **AES-256 and its modes** (`Gf256`, `GfProduct`, `AesTables`, `AesBlock`, `AesModes`, `AesLaws`, `AesExample`,
  `Aes256`). Decryption undoes encryption for every key and block, CBC and CTR are inverted for every length, PKCS7
  padding is recovered. `mix_columns` and `add_round_key` work on stride-4 groups, as in the source, so the cipher is
  not that of FIPS 197; its tables and key schedule are, which is proved from their algebra and on the key of appendix
  A.3 of that standard.
- **SHA-512 and HMAC** (`Sha512Spec`, `Sha512Example`, `Sha512`). A message handed over in any pieces hashes to the
  fold of the compression function over the padded whole, with the 128-bit bit count and its carry; the constants are
  the roots of primes, and the hash of "abc" is the one in FIPS 180-4.
- **Assembler** (`AsmCode`, `AsmText`, `AsmListing`, `AsmNotation`, `Assembler`). The meaning of a line, the encoding
  of an instruction, a decoder for the REX, ModRM and immediate formats of section 2.2.1 of Intel SDM volume 2A, and
  the context that collects code. The code returned decodes to the instructions of the source text, in whatever
  notation they are written.
- **Smaller cores**: the ARP cache (`ArpCache`), the ELF symbol index (`SymbolIndex`), the Internet checksum
  (`Checksum`) and the two text editors (`EditText`, `EditRows`, `Editors`, `AnthropicEditor`, `EditorFiles`).

`Basics` holds what several components share.

Where the code does not keep what one would expect of it, the model follows the code and the lemma states exactly when
the expectation holds: `ReadRefines` with `ReadWraps` (32-bit wrap in reads), `CreateSync`, `StoppedWriteSync`,
`CreateAfterStoppedWrite` and `SyncedStep` (the out-of-space return that skips the flush), `CreateUnique` (names cut to 31
characters), `CreatedResolvesIff` with `LongNameLost` and `EmptyNameLost` (which created paths resolve), `SequentialReads`
(the wrap again, over whole sequences of reads), `WakeTimeExact` (64-bit scaling of times), `SharpBound` (the ARP time
stamp), `MkdirResolves` (orphans of an unlinked directory reappear), `ImmediateKept` (immediates cut to 64 or 32 bits),
`UnlinksOwn` and `UnlinkMakesRoom` (unlink goes by name alone), `SaveLoad` (an editor file reloaded).

Modelling decisions:

- The disk never fails. Each kernel function is atomic. `sleep_ticks` marks the job and blocks the thread as one step,
  and the job properties assume that job tracking is enabled and that a thread has at most one job.
- Integers are unbounded; 32-bit and 64-bit wrap-around is written out wherever the source relies on it or can meet it.
  Or-ing disjoint bit fields is written as addition in the assembler, and 64-bit signed overflow in `parse_immediate` as
  two's complement wrap-around.
- The end-of-chain mark is the constant the source really uses, 0xFFFFFF, which its headers define as a colour.
- Bytes that the C structures leave as padding are zero on disk.
- Memory allocation is an oracle: a parameter says whether it succeeds (`thread_create`, `elf_resolve_symbols`).
- File names, paths and source lines are sequences without NUL; reading past the end of a C string gives NUL.

## Model

| member | source | states |
|---|---|---|
| `DiskImage.ImageRoundTrip` | src/kernel/VFS/tinyfs.c:59-134 | reading superblock, table and directory back from an image that holds them gives exactly them, for both sector packings |
| `DiskImage.DirRoundTrip` | src/kernel/VFS/tinyfs.c:108-134 | nine directory entries per sector: unpacking the written sectors gives every entry back |
| `DiskImage.FatRoundTrip` | src/kernel/VFS/tinyfs.c:80-106 | 128 table entries per sector: unpacking the written sectors gives every entry back |
| `DiskBytes.SuperblockBytes` | src/kernel/VFS/tinyfs.c:59-78 | the six words of the superblock at their offsets in sector 0 as sums of bytes times powers of 256, lowest first, and zeros behind them |
| `DiskBytes.FatBytes` | src/kernel/VFS/tinyfs.c:80-106 | table entry b is the little-endian word at offset 4 (b mod 128) of sector 1 + b / 128 |
| `DiskBytes.DirectoryBytes` | src/kernel/VFS/tinyfs.c:108-134 | directory entry i is at offset 52 (i mod 9) of sector 11 + i / 9, with its name and fields at their offsets |
| `DiskBytes.FormattedBytes` | src/kernel/VFS/tinyfs.c:172-193 | sector 0 of a formatted disk begins with the 24 bytes 59 4E 49 54, 00 04 00 00 and so on |
| `DiskBytes.FormattedTables` | src/kernel/VFS/tinyfs.c:195-232 | after a format the table has end marks for the first 101 blocks and zeros elsewhere, and the directory sectors are zero |
| `FatChains.ChainUnique` | src/kernel/VFS/tinyfs.c:151-160 | a table determines the chain from a first block: two chains that it links from the same block are equal |
| `FatChains.ChainsDisjoint` | src/kernel/VFS/tinyfs.c:137-160 | under the shape invariant chains of different entries share no block |
| `FatChains.AppendBlock` | src/kernel/VFS/tinyfs.c:137-149 | linking a free block behind a chain keeps the shape invariant for all entries and lowers the free count by one |
| `FatChains.DropChain` | src/kernel/VFS/tinyfs.c:151-160 | zeroing exactly one chain keeps the shape invariant for all the others |
| `TinyFsModule.TinyFs.AllocateBlock` | src/kernel/VFS/tinyfs.c:137-149 | returns the first free data block and marks it, or fails exactly when none is free |
| `TinyFsModule.TinyFs.FreeBlockChain` | src/kernel/VFS/tinyfs.c:151-160 | terminates, having zeroed exactly the blocks of the chain and counted them free |
| `TinyFsModule.TinyFs.Write` | src/kernel/VFS/tinyfs.c:403-474 | keeps the invariant; return value, chain length, size, bytes and flushed image are those of `FsSpec.WriteStep` for every size, offset and amount of free space |
| `TinyFsModule.TinyFs.WriteData` | src/kernel/VFS/tinyfs.c:432-466 | the block loop lays the data over the chain at the offset, extending it block by block until the data or the disk ends |
| `TinyFsModule.TinyFs.Read` | src/kernel/VFS/tinyfs.c:358-400 | returns the chain's bytes at the offset, as many as the 32-bit test and the chain allow |
| `TinyFsModule.TinyFs.FindDir` | src/kernel/VFS/tinyfs.c:512-541 | finds the first used entry with that parent and full name, or none |
| `TinyFsModule.TinyFs.Create` | src/kernel/VFS/tinyfs.c:544-596 | refuses a non-directory parent, a duplicate or a full directory, else fills the first free entry with the cut name; keeps the invariant |
| `TinyFsModule.TinyFs.Unlink` | src/kernel/VFS/tinyfs.c:599-627 | removes the first used entry of that name in whatever directory, frees its chain, flushes; keeps the invariant |
| `TinyFsModule.TinyFs.Mount` | src/kernel/VFS/tinyfs.c:236-303 | loads superblock, table and directory from the image; the state is consistent whenever the image holds a consistent filesystem |
| `TinyFsModule.TinyFs.Flush` | src/kernel/VFS/tinyfs.c:469-471 | afterwards the image holds exactly the superblock, table and directory in memory, and no data sector has changed |
| `TinyFsModule.FormatAndMount` | src/kernel/VFS/tinyfs.c:172-303 | a formatted and mounted disk satisfies the invariant, is empty and has 923 free blocks |
| `FsTheorems.WriteRefines` | src/kernel/VFS/tinyfs.c:403-474 | after a write that returns r the file has the new bytes in [offset, offset+r), the old bytes elsewhere below the old size, and size max(old, offset+r); a write stopped in the offset walk leaves the file as it was |
| `FsTheorems.WriteFrame` | src/kernel/VFS/tinyfs.c:403-474 | no write changes the size or a byte of another file |
| `FsTheorems.ReadRefines` | src/kernel/VFS/tinyfs.c:358-400 | a read returns the file's slice if and only if offset plus length stays below 2^32, the offset is past the end, or the file fills its blocks; otherwise it returns more |
| `FsTheorems.ReadWraps` | src/kernel/VFS/tinyfs.c:365-369 | a two-byte file on which a wrapping read returns 511 bytes instead of one |
| `FsTheorems.WriteThenRead` | src/kernel/VFS/tinyfs.c:358-474 | reading where a write went returns exactly what it wrote |
| `FsTheorems.UnlinkRefines` | src/kernel/VFS/tinyfs.c:599-627 | unlink empties one entry, makes exactly its blocks free, and changes no other entry or file |
| `FsTheorems.CreateRefines` | src/kernel/VFS/tinyfs.c:544-596 | create adds one empty entry with the cut name and changes no other entry or file |
| `FsHistory.MountRebuilds` | src/kernel/VFS/tinyfs.c:236-303 | mounting a synced image rebuilds superblock, table, directory, every chain and the bytes of every file |
| `FsHistory.MountRecovers` | src/kernel/VFS/tinyfs.c:236-303 | mounting an image that is behind but holds the same files gives an exact state with the same names and the bytes of every file |
| `FsHistory.StoppedBacked` | src/kernel/VFS/tinyfs.c:421-427 | a write stopped in the walk leaves such an image, and the directory in it exact unless the file had no block |
| `FsHistory.CreateBacked` | src/kernel/VFS/tinyfs.c:590-596 | a create keeps such an image if the directory in it was exact |
| `FsHistory.CreateSync` | src/kernel/VFS/tinyfs.c:590-596 | after create the image is exact if and only if superblock and table on disk were exact before |
| `FsHistory.StoppedWriteSync` | src/kernel/VFS/tinyfs.c:421-427 | after the out-of-space return in the offset walk a mount gives the state before the call, and the image is exact if and only if no block was free |
| `FsHistory.CreateAfterStoppedWrite` | src/kernel/VFS/tinyfs.c:421-427 | after such a stopped write and a create the image is behind, and a consistent filesystem can be mounted from it if and only if the file had a block before the write |
| `FsHistory.CreateUnique` | src/kernel/VFS/tinyfs.c:560-580 | create keeps (parent, name) unique if and only if the cut name is not taken; names of at most 31 characters always qualify |
| `FsHistory.UniqueStep` | src/kernel/VFS/tinyfs.c:403-627 | in every step (parent, name) stays unique if and only if a name that is created is stored fresh |
| `FsHistory.UniqueRun` | src/kernel/VFS/tinyfs.c:403-627 | over every run whose created names have at most 31 characters, or are not taken when cut, (parent, name) stays unique |
| `FsHistory.SyncedStep` | src/kernel/VFS/tinyfs.c:403-627 | an exact image stays exact in every step if and only if the step is not a write that takes the last free blocks and stops short of its offset |
| `FsHistory.SyncedRun` | src/kernel/VFS/tinyfs.c:236-627 | over every run from an exact image without such a write, the image holds exactly the superblock, table and directory in memory at every point |
| `FsHistory.LastWriterWins` | src/kernel/VFS/tinyfs.c:403-627 | over every run of writes, creates, unlinks and remounts each byte of a linked file is that of the last write that covered it, else its initial one |
| `FsRuns.Execute` | src/kernel/VFS/tinyfs.c:236-627 | whatever commands are given, the states passed through are consistent and form a run; every command is carried out in turn and nothing else is, except writes to unused entries and, from an exact image, remounts after a create that followed a write stopped short in a file without a block |
| `FsRuns.FormatAndExecute` | src/kernel/VFS/tinyfs.c:172-627 | the same from an unformatted disk; as long as no write stops short the image is exact at every point, and without such a create every remount is carried out |
| `FsRuns.RunPart` | src/kernel/VFS/tinyfs.c:403-627 | every part of a run is a run, so the history theorem applies from the creation of a file on |
| `Paths.Tokenize` | src/kernel/VFS/VFS.c:181-208 | the character loop computes the components of a path |
| `Paths.JoinComponents` | src/kernel/VFS/VFS.c:181-208 | tokenizing a path joined from components gives the components back |
| `Paths.PiecesComponents` | src/kernel/VFS/VFS.c:181-208 | a path of any pieces between slashes gives the non-empty ones, each cut to 255 bytes |
| `Paths.WalkInjective` | src/kernel/VFS/VFS.c:210-266 | two component lists that resolve to the same entry are equal |
| `Paths.CreateResolves` | src/kernel/VFS/VFS.c:210-266 | adding a file entry makes its path resolve to it and every other path resolve as before |
| `Paths.MkdirResolves` | src/kernel/VFS/VFS.c:451-519 | adding a directory makes its path resolve to it; all other paths resolve as before if and only if its index has no orphaned children |
| `VfsModule.Vfs.MountRoot` | src/kernel/VFS/VFS.c:90-169 | mounts the image and sets the root; every image that holds a consistent filesystem is mounted |
| `VfsModule.Vfs.ResolvePath` | src/kernel/VFS/VFS.c:210-266 | the loop over the tokens computes the walk from the root |
| `VfsModule.Vfs.Create` | src/kernel/VFS/VFS.c:381-449 | splits off the last component, resolves the rest and performs the create step there, refusing relative paths, missing parents and names already taken |
| `VfsModule.Vfs.Unlink` | src/kernel/VFS/VFS.c:521-556 | resolves the parent and performs the unlink step |
| `VfsModule.Vfs.AllocateFd` | src/kernel/VFS/VFS.c:171-179 | claims the lowest free descriptor from 3 on, or fails exactly when there is none |
| `VfsModule.Vfs.Open` | src/kernel/VFS/VFS.c:268-284 | gives the lowest free descriptor at position 0 exactly when the path resolves and a descriptor is free |
| `VfsModule.Vfs.Close` | src/kernel/VFS/VFS.c:286-302 | releases exactly that descriptor, or refuses one not in use |
| `VfsModule.Vfs.Read` | src/kernel/VFS/VFS.c:304-321 | performs the read step at the descriptor's position and advances only that position by the bytes read |
| `VfsModule.Vfs.Write` | src/kernel/VFS/VFS.c:323-340 | performs the write step at the descriptor's position and advances only that position by the bytes written |
| `VfsModule.VfsCreateResolves` | src/kernel/VFS/VFS.c:381-449 | after a successful create with a last component of 1 to 31 characters the path resolves to a new empty regular file and every path with other components resolves as before |
| `VfsModule.LongNameLost` | src/kernel/VFS/tinyfs.c:578-578 | after a successful create or mkdir with a last component of more than 31 characters the path does not resolve |
| `VfsModule.EmptyNameLost` | src/kernel/VFS/VFS.c:412-416 | after a successful create or mkdir of a path that ends in a slash the path resolves to the parent directory and no path leads to the new entry |
| `VfsModule.VfsMkdirResolves` | src/kernel/VFS/VFS.c:451-519 | after a successful mkdir with a last component of 1 to 31 characters the path resolves to the new directory; all other component lists resolve as before if and only if its index has no orphaned children |
| `VfsModule.CreatedResolvesIff` | src/kernel/VFS/VFS.c:381-519 | after every successful create or mkdir of at most 255 characters the path resolves to the new entry if and only if its last component has 1 to 31 characters |
| `VfsModule.WalkDropped` | src/kernel/VFS/VFS.c:210-266 | under unique names, removing an entry ends every walk through it and leaves every other walk as it was |
| `VfsModule.VfsUnlinkResolves` | src/kernel/VFS/VFS.c:521-556 | after a successful unlink under unique names exactly the paths through the removed entry stop resolving |
| `VfsModule.UnlinksOwn` | src/kernel/VFS/tinyfs.c:606-620 | the entry removed is the one the path leads to if and only if no entry in use with a lower index has the name, in whatever directory |
| `VfsRuns.WriteAll` | src/kernel/VFS/VFS.c:323-340 | writes of any chunks through a descriptor at the start of an empty file are all full if and only if the chunks together fit its blocks and the free ones; then the file is their concatenation, and no other file or descriptor has changed |
| `VfsRuns.ReadAll` | src/kernel/VFS/VFS.c:304-321 | reads of any sizes through a descriptor deliver consecutive slices of the file and then nothing, if and only if none of them meets the 32-bit wrap of offset plus length |
| `VfsRuns.WriteAndReadBack` | src/kernel/VFS/VFS.c:268-340 | an empty file opened twice, written through one descriptor and read through the other: both opens succeed if and only if two descriptors are free, and the reads deliver consecutive slices of the concatenated chunks |
| `VfsRuns.CreateWriteRead` | src/kernel/VFS/VFS.c:268-449 | the same for a file just created, with room for exactly what is free on the disk |
| `VfsRuns.SequentialReads` | src/kernel/VFS/VFS.c:304-321 | over any number of reads, each starting where the one before ended: slices if and only if no read meets the wrap; slices add up to the part of the file asked for |
| `VfsRuns.ModestReads` | src/kernel/VFS/tinyfs.c:366-368 | sizes that each stay below 2^32 when added to the file size, in any number, meet no wrap |
| `VfsRuns.SequentialWrites` | src/kernel/VFS/tinyfs.c:403-474 | over every run of filesystem operations, full writes to an empty file each at the end of the one before leave the concatenated data, whatever happens to other files in between |
| `SchedulerModule.Scheduler.ReadyQueueAdd` | src/kernel/Processes/scheduler.c:129-141 | the linked list represents the old sequence with the thread at its end |
| `SchedulerModule.Scheduler.ReadyQueueRemove` | src/kernel/Processes/scheduler.c:143-167 | the linked list represents the old sequence without the thread, wherever it was |
| `SchedulerModule.Scheduler.Reschedule` | src/kernel/Processes/scheduler.c:457-549 | requeues the current thread if it still runs and dispatches the head of the queue |
| `SchedulerModule.Scheduler.ThreadCreate` | src/kernel/Processes/scheduler.c:262-339 | refuses exactly in the source's cases, else fills the first free slot, appends to the parent's list and to the queue; keeps the invariant |
| `SchedulerModule.Scheduler.ThreadBlock` | src/kernel/Processes/scheduler.c:354-374 | refines the block step |
| `SchedulerModule.Scheduler.ThreadUnblock` | src/kernel/Processes/scheduler.c:376-391 | refines the unblock step |
| `SchedulerModule.Scheduler.ThreadExit` | src/kernel/Processes/scheduler.c:393-441 | refines the exit step, removing the thread from its parent's list in place |
| `SchedulerModule.Scheduler.ThreadYield` | src/kernel/Processes/scheduler.c:443-455 | refines the yield step |
| `SchedulerModule.Scheduler.SchedulerTick` | src/kernel/Processes/scheduler.c:551-562 | refines the tick step |
| `SchedulerModule.Scheduler.ProcessCreate` | src/kernel/Processes/process.c:48-73 | fills the first free process slot with the next pid and an empty thread list |
| `SchedRuns.StepInv` | src/kernel/Processes/scheduler.c:262-562 | every call keeps: the queue is exactly the READY threads without duplicates, at most the current thread RUNNING, each used thread once in its parent's first thread_count slots |
| `SchedRuns.Reachable` | src/kernel/Processes/scheduler.c:79-102 | the boot state and every state reachable from it by any calls satisfies these invariants |
| `SchedRuns.QueueMoves` | src/kernel/Processes/scheduler.c:129-167 | the index of a waiting thread that is not blocked never grows; every dispatch lowers it or runs the thread |
| `SchedRuns.BoundedWaiting` | src/kernel/Processes/scheduler.c:457-549 | over every run the thread at index k is RUNNING after at most k+1 dispatches unless it is blocked |
| `SchedRuns.IdleFeeds` | src/kernel/Processes/scheduler.c:457-549 | while some thread neither blocks nor exits, schedule never finds the queue empty |
| `SchedRuns.NeverHalts` | src/kernel/Processes/threads_init.c:10-19 | over every such run there is always a current thread |
| `SchedLaws.StepPids` | src/kernel/Processes/process.c:48-73 | every call keeps all process ids, and process_create gives the next number to a new process unless all 64 are in use |
| `SchedLaws.PidsReachable` | src/kernel/Processes/process.c:48-73 | in every state reachable from boot the processes in use have distinct ids, numbered in the order of their creation |
| `SchedLaws.ExitLeaves` | src/kernel/Processes/scheduler.c:393-441 | an exit frees the slot and takes the thread out of its list in order; the process is terminated if and only if that list became empty |
| `SchedLaws.CreateRefusals` | src/kernel/Processes/scheduler.c:262-295 | thread_create is refused exactly without entry point or stack, for an unknown process, one with 16 threads, or without a free slot |
| `SchedLaws.CreateAdds` | src/kernel/Processes/scheduler.c:262-339 | a created thread has the next id and belongs to the process asked for; all others keep id and process |
| `SchedLaws.UnblockReadies` | src/kernel/Processes/scheduler.c:376-391 | a blocked thread becomes READY at the end of the queue and nothing else changes |
| `SchedLaws.BlockBlocks` | src/kernel/Processes/scheduler.c:354-374 | afterwards the thread is BLOCKED and not in the queue, whatever it was before |
| `JobTableModule.JobTable.AddJob` | src/kernel/Processes/fg.c:46-108 | fills the first free job slot with the next id, or refuses when there is none |
| `JobTableModule.JobTable.SetActive` | src/kernel/Processes/fg.c:28-35 | switches job tracking on or off and changes nothing else |
| `JobTableModule.JobTable.UpdateJobsSafe` | src/kernel/Processes/fg.c:211-265 | the loop over the table computes the update function, waking threads on the way |
| `JobTableModule.JobTable.SleepTicks` | src/kernel/Processes/sleep.c:15-61 | marks the first job of the current thread with its wake time and blocks the thread |
| `JobsTheorems.UpdateResult` | src/kernel/Processes/fg.c:211-265 | after each update every used job has a live thread and agrees with its state; sleepers are untouched before their wake time and READY from the first update at or past it |
| `JobsTheorems.SysStepInv` | src/kernel/Processes/fg.c:211-265 | every scheduler, job and sleep call keeps the combined invariant |
| `JobsTheorems.StaysAsleep` | src/kernel/Processes/fg.c:228-240 | nothing but its own unblocking, an update at its wake time or bring_to_foreground wakes a sleeper |
| `JobsTheorems.WakeTimeExact` | src/kernel/Processes/sleep.c:32-34 | for 64-bit times the wake time is exactly ticks after now if and only if the scaled ticks and the sum fit 64 bits |
| `JobsTheorems.UptimeExact` | src/kernel/Processes/sleep.c:123-125 | the uptime in milliseconds is the tick count if and only if the scaled count fits 64 bits |
| `JobsTheorems.SysReachable` | src/kernel/Processes/fg.c:12-26 | every state reachable from boot and jobs_init by allowed calls satisfies the combined invariant |
| `JobsTheorems.SleepFalls` | src/kernel/Processes/sleep.c:45-61 | going to sleep blocks exactly the current thread and marks exactly its job |
| `JobsTheorems.SleepsThenWakes` | src/kernel/Processes/sleep.c:15-62 | over every run that does not rouse it a sleeper stays BLOCKED, and the first update at or past its wake time puts it on the ready queue |
| `JobsLaws.JobIdsReachable` | src/kernel/Processes/fg.c:46-108 | in every state reachable from boot job ids are distinct and below the next one |
| `JobsLaws.AddJobAdds` | src/kernel/Processes/fg.c:46-108 | a job added tracks its thread under the next id, running and without a wake time; no other job changes |
| `JobsLaws.ForegroundWakes` | src/kernel/Shell/shell.c:1789-1824 | a background job brought to the foreground is one no more, and a blocked thread of it is READY at once |
| `Gf256.Gmul` | src/kernel/Network/Cryptography/AES256.c:51-61 | the eight-step loop computes the shift-and-add product |
| `GfProduct.GMulIsProduct` | src/kernel/Network/Cryptography/AES256.c:51-61 | that product differs from the polynomial product over GF(2) by a multiple of x^8 + x^4 + x^3 + x + 1 |
| `GfProduct.RemainderUnique` | src/kernel/Network/Cryptography/AES256.c:51-61 | bytes that differ by a multiple of that polynomial are equal, so it is the product in GF(2^8) |
| `Gf256.GMulXor` | src/kernel/Network/Cryptography/AES256.c:51-61 | multiplication by a fixed factor is linear over XOR |
| `AesTables.SBoxInverse` | src/kernel/Network/Cryptography/AES256.c:6-43 | the second table inverts the first for every byte |
| `AesLaws.SBoxIsInverse` | src/kernel/Network/Cryptography/AES256.c:6-23 | the substitution of a byte is the affine image of its inverse in GF(2^8), as in section 5.1.1 of FIPS 197 |
| `AesBlock.ShiftInverse` | src/kernel/Network/Cryptography/AES256.c:120-171 | the inverse row shift undoes the row shift |
| `AesBlock.MixInverse` | src/kernel/Network/Cryptography/AES256.c:173-200 | the inverse column mix undoes the column mix on every block |
| `AesBlock.DecryptEncrypt` | src/kernel/Network/Cryptography/AES256.c:211-269 | for every key schedule and every block decryption undoes encryption through all 14 rounds |
| `AesLaws.ShiftRowsAt` | src/kernel/Network/Cryptography/AES256.c:120-144 | row r moves by r columns |
| `AesLaws.MixColumnsAt` | src/kernel/Network/Cryptography/AES256.c:173-186 | each byte is the double of its own, the triple of the next and the other two, at distance 4 |
| `AesLaws.RconDoubles` | src/kernel/Network/Cryptography/AES256.c:45-49 | the round constants are 1 and then each the double of the one before |
| `AesLaws.KeyScheduleBytes` | src/kernel/Network/Cryptography/AES256.c:64-105 | the key schedule byte by byte: rotation, substitution and constant every eight words, substitution alone between |
| `AesExample.ExampleKeyWords` | src/kernel/Network/Cryptography/AES256.c:64-105 | words 8 to 11 for the key of appendix A.3 of FIPS 197 are those of the standard |
| `AesExample.ExampleBlock` | src/kernel/Network/Cryptography/AES256.c:211-239 | the sixteen bytes that the fourteen rounds make of one block under that key |
| `Aes256Module.Aes256.constructor` | src/kernel/Network/Cryptography/AES256.c:64-105 | fills the 60 round keys of the key schedule |
| `Aes256Module.Aes256.EncryptBlock` | src/kernel/Network/Cryptography/AES256.c:211-239 | the in-place rounds compute the block encryption and change only the sixteen output bytes |
| `Aes256Module.Aes256.DecryptBlock` | src/kernel/Network/Cryptography/AES256.c:241-269 | the in-place inverse rounds compute the block decryption and change only the sixteen output bytes |
| `Aes256Module.Aes256.CbcEncryptBuffer` | src/kernel/Network/Cryptography/AES256.c:271-296 | the loop computes CBC encryption of whole blocks, between buffers or in place |
| `Aes256Module.Aes256.CbcDecryptBuffer` | src/kernel/Network/Cryptography/AES256.c:298-323 | the loop computes CBC decryption of whole blocks between distinct buffers |
| `Aes256Module.Aes256.CtrBuffer` | src/kernel/Network/Cryptography/AES256.c:325-353 | the loop computes CTR mode for every length, between buffers or in place |
| `Aes256Module.Increment` | src/kernel/Network/Cryptography/AES256.c:347-350 | the byte-carry loop computes the counter increment |
| `AesModes.CbcRoundTrip` | src/kernel/Network/Cryptography/AES256.c:271-323 | for every message of whole blocks CBC decryption undoes CBC encryption |
| `AesLaws.CbcBlock` | src/kernel/Network/Cryptography/AES256.c:271-296 | block k of the ciphertext is the encryption of block k of the message plus ciphertext block k-1, or the initial vector |
| `AesModes.CtrTwice` | src/kernel/Network/Cryptography/AES256.c:325-353 | for every length CTR applied twice is the identity |
| `AesModes.CtrBlock` | src/kernel/Network/Cryptography/AES256.c:336-352 | block k of the output is block k of the message under the keystream of counter k |
| `AesLaws.CtrKeystream` | src/kernel/Network/Cryptography/AES256.c:325-353 | block k of the keystream is the encryption of counter k |
| `AesModes.CounterValue` | src/kernel/Network/Cryptography/AES256.c:347-350 | counter k is the nonce plus k modulo 2^128 |
| `AesModes.UnpadPad` | src/kernel/Network/Cryptography/AES256.c:355-378 | unpadding recovers the length of every padded message |
| `AesModes.PadUnpad` | src/kernel/Network/Cryptography/AES256.c:366-378 | whatever unpadding accepts is a padded message |
| `AesLaws.PaddedBytes` | src/kernel/Network/Cryptography/AES256.c:355-364 | a padded message is the message and n times the byte n, with n from 1 to 16 |
| `Aes256Module.PadPkcs7` | src/kernel/Network/Cryptography/AES256.c:355-364 | pads in place, or changes nothing and returns 0 when the buffer is too small |
| `Aes256Module.UnpadPkcs7` | src/kernel/Network/Cryptography/AES256.c:366-378 | returns the length before padding, or 0 for malformed padding |
| `Sha512Spec.ChSelects` | src/kernel/Network/Cryptography/SHA512.c:33-33 | each bit is taken from the second or third word as the first one says |
| `Sha512Spec.MajVotes` | src/kernel/Network/Cryptography/SHA512.c:34-34 | each bit is the majority of the three |
| `Sha512Spec.FoldPrefix` | src/kernel/Network/Cryptography/SHA512.c:112-144 | blocks already folded are not affected by what follows them |
| `Sha512Module.Context.Transform` | src/kernel/Network/Cryptography/SHA512.c:40-95 | the schedule and round loops compute the compression function on the state |
| `Sha512Example.AbcCompressed` | src/kernel/Network/Cryptography/SHA512.c:40-95 | the compression function on the padded block of "abc" gives the eight words of FIPS 180-4, through all 80 rounds |
| `Sha512Example.AbcHash` | src/kernel/Network/Cryptography/SHA512.c:40-187 | the hash of "abc" is the one of FIPS 180-4 |
| `Sha512Example.RoundConstantsAreCubeRoots` | src/kernel/Network/Cryptography/SHA512.c:6-27 | round constant t is the first 64 fraction bits of the cube root of the t-th prime |
| `Sha512Example.InitialIsSquareRoots` | src/kernel/Network/Cryptography/SHA512.c:97-107 | the initial value is the first 64 fraction bits of the square roots of the first eight primes |
| `Sha512Module.Context.Update` | src/kernel/Network/Cryptography/SHA512.c:112-144 | appends the data to the message: state, buffer and both counters are those of the longer message, for every length and split |
| `Sha512Module.Context.Final` | src/kernel/Network/Cryptography/SHA512.c:146-180 | writes the hash of the message received |
| `Sha512Module.CountAdd` | src/kernel/Network/Cryptography/SHA512.c:117-120 | the two-word addition with its carry keeps the bit count modulo 2^128 |
| `Sha512Module.HashPieces` | src/kernel/Network/Cryptography/SHA512.c:112-187 | a message handed over in any list of pieces hashes to the hash of their concatenation |
| `Sha512Module.HmacSha512` | src/kernel/Network/Cryptography/SHA512.c:189-235 | computes the nested hash of section 2 of RFC 2104 for every key length, also over the data buffer and over a key that is hashed first |
| `Sha512Spec.HmacKeyHashed` | src/kernel/Network/Cryptography/SHA512.c:195-205 | a key of more than 128 bytes counts as its hash |
| `Sha512Spec.HmacKeyFilled` | src/kernel/Network/Cryptography/SHA512.c:195-210 | zeros behind a shorter key make no difference |
| `Sha512Spec.HmacEmptyKey` | src/kernel/Network/Cryptography/SHA512.c:189-235 | with the empty key the 128 bytes 5C and 36 go in front of the outer and the inner hash |
| `Sha512Spec.LengthFieldValue` | src/kernel/Network/Cryptography/SHA512.c:151-154 | read as a big-endian number the length field is the bit count |
| `Sha512Spec.PaddedInjective` | src/kernel/Network/Cryptography/SHA512.c:157-167 | different messages of fewer than 2^128 bits are padded differently |
| `Sha512Spec.PaddedShortest` | src/kernel/Network/Cryptography/SHA512.c:157-167 | padding is the message, 80, fewer than 128 zeros and the length field |
| `AsmCode.DecodeEncode` | src/kernel/assembler/asm.c:130-388 | whatever bytes follow it, an encoded instruction decodes to itself and its own length |
| `AsmCode.DecodeProgram` | src/kernel/assembler/asm.c:130-388 | the code of a program splits into exactly its instructions |
| `AsmCode.EncodingUnique` | src/kernel/assembler/asm.c:130-388 | no two programs have the same code |
| `AsmCode.RegRegBytes` | src/kernel/assembler/asm.c:130-388 | the machine code of every two-register operation on rax and rbx, and with r8 on either side |
| `AsmCode.OneRegBytes` | src/kernel/assembler/asm.c:43-388 | the machine code of inc, dec, neg, not and call on rax |
| `AsmCode.StackBytes` | src/kernel/assembler/asm.c:130-388 | the machine code of push and pop, with and without a prefix |
| `AsmCode.BareBytes` | src/kernel/assembler/asm.c:130-388 | the machine code of syscall, ret and nop |
| `AsmCode.Imm8Bytes` | src/kernel/assembler/asm.c:130-388 | the machine code of add, sub, cmp, shl and shr with an 8-bit immediate |
| `AsmCode.LongImmediateBytes` | src/kernel/assembler/asm.c:43-388 | the machine code of moves and calls with 32-bit and 64-bit immediates |
| `AsmText.LineAssemblable` | src/kernel/assembler/asm.c:391-640 | every line means nothing, an error, or an instruction whose immediate its encoding can carry |
| `AsmText.ImmediateKept` | src/kernel/assembler/asm.c:432-624 | for every mnemonic, the immediate assembled is the number written if and only if that fits 32 bits, or fits 64 bits and the instruction takes an 8-bit operand or moves to rax |
| `AsmText.LineImmediate` | src/kernel/assembler/asm.c:391-640 | the same for every accepted line |
| `AsmListing.DecimalWritten` | src/kernel/assembler/asm.c:91-127 | every number in decimal denotes itself |
| `AsmListing.DecimalRead` | src/kernel/assembler/asm.c:91-127 | a number in decimal is read back if and only if it fits 64 bits |
| `AsmListing.LongNumeral` | src/kernel/assembler/asm.c:445-449 | 2^64 + 1 written for rax is assembled as 1 |
| `AsmListing.PrintMeans` | src/kernel/assembler/asm.c:391-640 | every instruction that lines can stand for is the meaning of its own listing |
| `AsmListing.ListingMeans` | src/kernel/assembler/asm.c:642-699 | the lines of a program's listing mean that program |
| `AsmNotation.HexWritten` | src/kernel/assembler/asm.c:91-127 | every number in hexadecimal denotes itself, with a sign, after 0x or 0X and in upper or lower case |
| `AsmNotation.LookupPrefix` | src/kernel/assembler/asm.c:431-640 | a mnemonic counts by its beginning, whatever follows the name of the instruction |
| `AsmNotation.AluMnemonics` | src/kernel/assembler/asm.c:431-640 | the names of the two-operand instructions |
| `AsmNotation.OtherMnemonics` | src/kernel/assembler/asm.c:431-640 | the names of the one-operand and shift instructions |
| `AsmNotation.RegisterNumbers` | src/kernel/assembler/asm.c:62-89 | the numbers of the eight named registers |
| `AsmNotation.HexExample` | src/kernel/assembler/asm.c:91-127 | 0x10 is 16 and -0XfF is -255 |
| `AsmNotation.LongMnemonicCut` | src/kernel/assembler/asm.c:402-412 | a mnemonic is cut to 31 characters |
| `AsmNotation.AnyNotation` | src/kernel/assembler/asm.c:391-640 | a line stands for its instruction in any layout of blanks and commas, any letter case of the mnemonic, either register name and decimal or hexadecimal numbers |
| `AsmNotation.HexPrintMeans` | src/kernel/assembler/asm.c:391-640 | every instruction that lines can stand for is the meaning of its own hexadecimal listing |
| `AsmNotation.CommentMeansNothing` | src/kernel/assembler/asm.c:391-400 | a line of blanks, or of blanks and a comment, stands for nothing |
| `AsmNotation.LongLineCut` | src/kernel/assembler/asm.c:642-699 | a line of more than 255 characters is cut there and the rest read as a line of its own |
| `AssemblerModule.ReadImmediate` | src/kernel/assembler/asm.c:91-127 | the 64-bit digit loops compute the number the text denotes, reduced to 64 bits once |
| `AssemblerModule.Assembler.EmitInstr` | src/kernel/assembler/asm.c:130-388 | the emitters append exactly the encoding, or note an error when the buffer cannot hold all of it |
| `AssemblerModule.Assembler.Line` | src/kernel/assembler/asm.c:391-640 | appends the line's instruction, skips an empty line, or notes an error; error exactly for a wrong line or overflow |
| `AssemblerModule.Assembler.Program` | src/kernel/assembler/asm.c:642-699 | free of error afterwards if and only if it was before, every line is right and all the code fits; then exactly the lines' instructions have been added |
| `AssemblerModule.Assembler.GetCode` | src/kernel/assembler/asm.c:701-708 | code is returned if and only if there was no error, and it decodes to the program |
| `AssemblerModule.AssembleListing` | src/kernel/assembler/asm.c:642-708 | assembling a listing returns code if and only if it fits 4096 bytes, and that code decodes to the listed program |
| `ArpCacheModule.ArpCache.CacheAdd` | src/kernel/Network/Protocols/arp.c:28-64 | the two loops compute the cache of the history of additions, one addition longer, for any number of them |
| `ArpCacheModule.ArpCache.CacheLookup` | src/kernel/Network/Protocols/arp.c:66-76 | whatever is found is the last MAC added for the address; within 2^32 + 1 additions an address is found if and only if it was added and fewer than 32 others were added since |
| `ArpCacheModule.AlwaysCurrent` | src/kernel/Network/Protocols/arp.c:28-64 | after any history there is one slot per address, with the last MAC added for it |
| `ArpCacheModule.RecencyStep` | src/kernel/Network/Protocols/arp.c:42-63 | an addition keeps whatever is not held older than all that is, if and only if it overwrites its own, a free or the oldest slot |
| `ArpCacheModule.StampsExact` | src/kernel/Network/Protocols/arp.c:36-62 | for up to 2^32 additions the stamps are the indices of the additions and the most recent addresses are held |
| `ArpCacheModule.HeldIffRecent` | src/kernel/Network/Protocols/arp.c:28-76 | if whatever is not held is older than all that is, the addresses held are exactly the 32 most recently added distinct ones |
| `ArpCacheModule.FailingFails` | src/kernel/Network/Protocols/arp.c:45-61 | a history of every length from 2^32 + 2 on after which an address is not held although only one other was added since |
| `ArpCacheModule.SharpBound` | src/kernel/Network/Protocols/arp.c:28-76 | all histories of n additions leave the 32 most recent addresses if and only if n is at most 2^32 + 1 |
| `SymbolIndexModule.SymbolIndex.Resolve` | src/kernel/elf/elf_load.c:327-434 | afterwards the bucket lists answer every name like a scan of the two tables |
| `SymbolIndexModule.SymbolIndex.FindSymbol` | src/kernel/elf/elf_load.c:436-458 | returns the last eligible entry of the regular table, else the first eligible one of the dynamic table, else none |
| `SymbolIndexModule.PushAgrees` | src/kernel/elf/elf_load.c:366-368 | a push into its bucket changes the answer for its own name and no other |
| `SymbolIndexModule.LastNamedIs` | src/kernel/elf/elf_load.c:332-370 | the scan of the regular table gives the entry after which no eligible one has that name |
| `SymbolIndexModule.FirstNamedIs` | src/kernel/elf/elf_load.c:372-431 | the scan of the dynamic table gives the entry before which no eligible one has that name |
| `SymbolIndexModule.MeaningFields` | src/kernel/elf/elf_load.c:332-431 | the answer for a name has the fields of its table entry, the value plus the bias in 64 bits, and is none exactly when neither table has an eligible entry |
| `SymbolIndexModule.NameIs` | src/kernel/elf/elf_load.c:332-431 | a name is the characters from its offset to the first NUL |
| `SymbolIndexModule.HashName` | src/kernel/elf/elf_load.c:314-325 | the loop computes the 32-bit hash of a name |
| `SymbolIndexModule.HashExample` | src/kernel/elf/elf_load.c:314-325 | the hash of a name of seven letters, whose top bits are folded back in |
| `Checksum.NetChecksum` | src/kernel/Network/Drivers/net.c:262-279 | the loops compute the complement of the folded word sum kept in 32 bits, for every length |
| `Checksum.WordSumWeighs` | src/kernel/Network/Drivers/net.c:266-273 | every byte counts by its place, once at an even place and 256-fold at an odd one, for every length |
| `Checksum.OddLastByte` | src/kernel/Network/Drivers/net.c:271-273 | an odd last byte counts like a word with a zero byte behind it |
| `Checksum.ChecksumExample` | src/kernel/Network/Drivers/net.c:262-279 | the checksum of the example in section 3 of RFC 1071 goes out as 22 0D |
| `Checksum.FoldedValue` | src/kernel/Network/Drivers/net.c:274-276 | folding carries is reduction modulo 65535 with 65535 for positive multiples |
| `Checksum.NoOverflow` | src/kernel/Network/Drivers/net.c:266-269 | up to 65537 words the 32-bit sum cannot overflow |
| `Checksum.ChecksumVerifies` | src/kernel/Network/Drivers/net.c:262-279 | storing the checksum in a zeroed word at an even offset makes the recomputed checksum zero |
| `Checksum.ChecksumDetects` | src/kernel/Network/Drivers/net.c:262-279 | replacing a word in a buffer that checks out goes unnoticed if and only if the words agree modulo 65535 and the sum stays positive |
| `Checksum.ChecksumDetectsLast` | src/kernel/Network/Drivers/net.c:262-279 | in a buffer of odd length that checks out every change of the last byte is noticed |
| `Checksum.TcpChecksum` | src/kernel/Network/Protocols/tcp.c:32-60 | equals the checksum of the 12-byte pseudo-header followed by the segment |
| `Checksum.PseudoHeaderBytes` | src/kernel/Network/Protocols/tcp.c:32-46 | the twelve bytes are the two addresses as in memory, a zero, the protocol 6 and the length in network order |
| `EditText.FlatTyped` | src/kernel/GUI/text_editor.c:238-255 | typing in a line inserts the character at the cursor's offset of the flat text |
| `EditText.FlatSplit` | src/kernel/GUI/text_editor.c:290-316 | splitting a line inserts a line break at the cursor's offset of the flat text |
| `EditText.FlatRubbed` | src/kernel/GUI/text_editor.c:257-267 | rubbing out in a line deletes the character before the cursor's offset |
| `EditText.FlatMerged` | src/kernel/GUI/text_editor.c:268-288 | joining two lines deletes the line break before the cursor's offset |
| `EditorsModule.TextEditor.InsertChar` | src/kernel/GUI/text_editor.c:238-255 | inserts the character at the cursor's flat offset, or changes nothing exactly when the line is full |
| `EditorsModule.TextEditor.Backspace` | src/kernel/GUI/text_editor.c:257-288 | deletes the character before the cursor, or changes nothing exactly at the start and where the joined line would be too long |
| `EditorsModule.TextEditor.Newline` | src/kernel/GUI/text_editor.c:290-316 | inserts a line break at the cursor, or changes nothing exactly when all lines are in use |
| `EditorsModule.TextEditor.MoveCursor` | src/kernel/GUI/text_editor.c:318-346 | where the cursor goes: the line dy away if it exists with the column cut to it, then dx along the line if it stays inside; the line moved to is in the viewport and the text does not change |
| `AnthropicModule.AnthropicEditor.Type` | src/kernel/Anthropic/Anthropic.c:737-754 | inserts the character at the cursor's flat offset, or changes nothing exactly when the line is full |
| `AnthropicModule.AnthropicEditor.RubOut` | src/kernel/Anthropic/Anthropic.c:623-652 | deletes the character before the cursor, or changes nothing exactly at the start and where the joined line would be too long |
| `AnthropicModule.AnthropicEditor.BreakLine` | src/kernel/Anthropic/Anthropic.c:654-679 | inserts a line break at the cursor, or changes nothing exactly when all lines are in use |
| `AnthropicModule.AnthropicEditor.GoLeft` | src/kernel/Anthropic/Anthropic.c:596-607 | moves the cursor one back in the flat text unless at its start |
| `AnthropicModule.AnthropicEditor.GoRight` | src/kernel/Anthropic/Anthropic.c:609-621 | moves the cursor one on in the flat text unless at its end |
| `AnthropicModule.AnthropicEditor.HandleKey` | src/kernel/Anthropic/Anthropic.c:567-755 | each key makes its one-character edit at the cursor or its move, or changes nothing exactly when refused; the cursor stays in the text and its line in the viewport |
| `AnthropicModule.AnthropicEditor.Load` | src/kernel/Anthropic/Anthropic.c:277-339 | the buffer holds the lines of the bytes read, without carriage returns and with long lines cut |
| `AnthropicModule.AnthropicEditor.SaveText` | src/kernel/Anthropic/Anthropic.c:365-380 | the bytes to be saved are the flat text and fit the save buffer |
| `AnthropicModule.SaveLoad` | src/kernel/Anthropic/Anthropic.c:277-408 | saving and loading gives the same lines if and only if the text has at most 2047 characters and its last line is not empty or is the only one |
| `AnthropicModule.ReturnsSkipped` | src/kernel/Anthropic/Anthropic.c:308-335 | carriage returns make no difference, wherever they are among the bytes read |
| `AnthropicModule.LoadedIs` | src/kernel/Anthropic/Anthropic.c:277-339 | any content loads as the first 250 lines of its first 2047 bytes without carriage returns, an empty last one left out, each cut to 79 characters and shown up to a NUL |
| `AnthropicModule.LinesInFlat` | src/kernel/Anthropic/Anthropic.c:308-335 | these lines have no line breaks and make up exactly that text |
| `EditorFiles.UnlinkMakesRoom` | src/kernel/Anthropic/Anthropic.c:385-386 | under unique names, the unlink at the start of a save lets the file be created anew if and only if no entry in use with a lower index has its name |
| `EditorFiles.SaveFile` | src/kernel/Anthropic/Anthropic.c:385-407 | if the file can be created anew, the save succeeds if and only if a descriptor is free and the data fits the disk after the unlink; then the path leads to exactly the data |
| `EditorFiles.LoadFile` | src/kernel/Anthropic/Anthropic.c:296-306 | reads the first 2047 bytes of what the path leads to, if and only if a descriptor is free |
| `EditorFiles.SaveAndReload` | src/kernel/Anthropic/Anthropic.c:277-408 | through the VFS: the save succeeds if and only if the text fits the disk, and then the same lines are loaded if and only if the text has at most 2047 characters and its last line is not empty or is the only one |

## Left out

- Kernel heap and page allocator: their natural non-overlap properties do not hold of the code; allocation is an oracle here.
- ELF segment mapping and relocation: segments are copied to pages unrelated to the addresses that relocations patch.
- Device drivers, context switch, boot loader, interrupts, drawing, printing and the shell: hardware access and presentation.
- TCP connections, DHCP, DNS, ICMP and HTTP: polling loops around hardware; of TCP only the checksum is modelled.
- Command history: stepping back past the oldest entry of a full ring wraps to the newest, so the expected property fails.
- Interrupts that arrive in the middle of a kernel function, and a wakeup lost between the two halves of `sleep_ticks`.
- Failing disk operations: every sector read and write succeeds.
- `tinyfs_readdir`, `tinyfs_get_stats`, `vfs_seek`, `vfs_chdir`, mount points other than the root: easy members.
- Descriptors of entries that have been unlinked: reads and writes go through entries still in use.
- Paths of more than 255 characters or 32 components: the source overflows its token array, so shorter paths are required.
- The bytes of a file between its old end and a write that starts beyond it: the source leaves whatever the blocks held.
- SchedulerModule.Scheduler.Reschedule: the halt of schedule when nothing can run, and its second call afterwards, are a state without a current thread and a later step, because what happens in between is up to interrupts.
- Thread contexts, stacks and the runtime, deadline and period fields, which no decision depends on.
- Two jobs for the same thread, and job names and commands.
- Aes256Module.Aes256.CbcDecryptBuffer: input and output are distinct buffers, because in place the source would chain with plaintext.
- Published test vectors other than the hash of "abc" and the first key words of FIPS 197; the encrypted blocks of FIPS 197 do not apply to this cipher.
- Error texts of the assembler, including the line number in front of them.
- Scancode tables of the editors: a key is a parameter. Loading and saving in text_editor.c.
- EditorFiles.SaveFile: promises the file only when it can be created anew, because otherwise the source writes over the old version without cutting it. Characters above 255 and the working directory in front of a relative name are left out.
- `net_htonl` and `net_htons` on their own.
- JobTableModule.JobTable.SleepTicks: ends with the switch to another thread; the further call of schedule() in sleep.c:62 is a yield of the thread when it runs again. The busy wait without a current thread is left out.
- EditorsModule.TextEditor.InsertChar: the character is not NUL, as its callers ensure.
