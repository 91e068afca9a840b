# Tnix in Dafny

A model of the parts of the Tnix kernel whose correctness is not visible in any one function, with
proofs that hold for every input and every interleaving. `dafny verify dfyconfig.toml` checks all of it.

| file | what it models |
|---|---|
| `base.dfy` | machine word sizes, `Option`, `Outcome` (a result or `panic`), two counting lemmas |
| `virtio_disk.dfy`, `disk_array.dfy`, `virtio_driver.dfy` | the virtio block driver against its device: descriptors, split rings with u16 indices, interrupt handler, sleeping requesters (sections 2.7 and 5.2 of VIRTIO 1.2); its refinement of an array of sectors that serves each call at one instant; the driver's loops in place |
| `sv39.dfy`, `vm.dfy` | three-level page tables as a refinement of a flat map (section 4.4 of the RISC-V Privileged Architecture v1.12); the loops in place, with the lists that own the pages they take |
| `user_copy.dfy` | page-chunked copies between kernel and user memory, from the attributes given to `svmmap` to the bytes that arrive |
| `buffer_cache.dfy`, `list.dfy`, `bio.dfy` | the buffer cache under any interleaving, as a refinement of a flat array of blocks; the linked list; `bget` and `brelse` over that list |
| `scheduler.dfy` | `task_schedule`, `yield`, `sleep`, `wakeup` on many CPUs, one statement per step |
| `spinlock.dfy`, `sleeplock.dfy` | the two locks, one memory access per step |
| `pipe.dfy` | the 64-byte ring, its copy loops, and blocking readers and writers, as a refinement of a bounded queue |
| `pages.dfy` | page allocator, slot allocators, and the memory of a task from start to exit |
| `task_memory.dfy` | `task_mm_init`, `task_vmmap` and exit over page tables and page lists together, and the isolation of tasks |
| `bitmap.dfy` | `balloc` and `bfree` on 64-bit words, and the byte-wise bitmap of mkfs |
| `files.dfy`, `truncate.dfy` | file layout by mkfs, block lookup, `fread`, `fseek` and the growth of files in the kernel, `itrunc` |
| `directory.dfy` | name slots, the counted scan, `dentry_add` and `dentry_del` |

Each protocol is a state machine whose steps are the places where the code can be interleaved. Some
state fields record what happened (who posted a request, where a page went); they are marked history,
and no value the code computes depends on them: steps read them only to tell which task a value belongs
to, or whether a caller may make a request. Source that updates memory in loops also appears as methods and classes,
proved equal to the functions the theorems are about. `panic` is `Outcome.Panic`; a theorem that says a
run is `Ok` says it does not panic. Clocks, hardware registers and the scheduler's choices are
parameters. Interrupt handlers run as ordinary code of the context they interrupt.

## Where the code does not do what it is for

These are stated as theorems about the code as it is, each with the exact condition under which it is right.

- `svmmap` compares `pa + size` after it wrapped around 64 bits; an accepted call that maps anything maps all of it exactly if and only if `pa + size` is below 2^64 (`Sv39.SvmmapWhole`), and a call that is accepted and is not exists for every tree with two free pages (`Sv39.SvmmapWraps`).
- The disk driver ignores the device number of a buffer, so the cache is coherent exactly when a block is always read through one device (`BufferCache.CacheIsFlat`, `BufferCache.TwoDevicesDiverge`); block n is at byte 1024 n of the disk if and only if n is below 2^31 (`VirtioDisk.SectorExact`), and numbers that differ by 2^31 are the same sectors (`VirtioDisk.SectorsCollide`).
- `blockno_of_data` is right for the first 12544 bytes of a file and outside its tables for all later ones, so every read session is right if and only if the file is no longer than that (`Files.BlockOfDataExact`, `Files.MkfsThenRead`).
- mkfs writes the bytes of the previous block behind the end of a file's last block (`Files.RoundTrip`).
- mkfs's `block_alloc` accepts one block too many and then writes behind its bitmap (`Bitmap.MkfsAllocBound`).
- Adding an empty name, which creating a path that ends in `//` does, makes a block's count wrong (`Directory.AddAdds`). Deleting one, which `sys_rmdir` of a path that ends in `/` does in the directory itself (`sys_unlink` of such a path passes the file's own inode), does harm if and only if some block has an empty slot before one in use: the count becomes wrong, or a block with a live entry in it is removed (`Directory.DelEmptyName`); two additions and a deletion are enough to get there (`Directory.HolesHappen`).
- An inode of exactly 24 blocks refuses a 25th, far below what it can point to: a file that grows a block at a time, as directories do, panics if and only if it passes through 24 (`Files.GrowExtends`, `Directory.AddAdds`).
- `iblock_cnt` counts a file's blocks if and only if its size is a multiple of the block size (`Files.CountExact`). `fwrite` allocates all its blocks before it changes the size, so they end in one place, and it adds the bytes written to the size even where it overwrites: it gets size and blocks right if and only if it writes nothing, or appends at most one block to a file that ends at a block boundary and has neither 24 blocks nor all 780 (`Files.FwriteExact`).
- `sleep_get` sleeps without a spin lock, so a wakeup can be lost: between any two tasks there is a run that ends with one asleep on a free lock and nobody about to wake it (`SleepLocks.WakeupLost`). Through a whole run no task is left like that if and only if no release wakes the sleepers, as the last to do so, while another task is between its test-and-set and its sleep (`SleepLocks.AttendedUnlessMissed`).
- `spinlevel` is eight bits wide; interrupts stay off as they should, and outside all locks they are as last set there if and only if they were set off or the nesting since then stayed within 256 (`SpinLocks.InterruptsRestored`); every machine with more locks than that has a run that loses them (`SpinLocks.InterruptsLost`).

## Model

| member | source | states |
|---|---|---|
| `VirtioDisk.LowestFree` | kernel/dev/disk.c:251-261 | the scan returns the lowest free descriptor, or -1 exactly when none is free |
| `VirtioDisk.Alloc3Meaning` | kernel/dev/disk.c:294-308 | three different free descriptors are taken exactly when three are free; otherwise the driver is left as it was |
| `VirtioDisk.DecodeMeaning` | kernel/dev/disk.c:310-376 | a device that follows the descriptors sees exactly the posted direction, buffer, status byte and sector, which is byte 1024 blockno of the disk for block numbers below 2^31 |
| `VirtioDisk.RetireChain` | kernel/dev/disk.c:279-292 | free_chain visits exactly the three descriptors of the request, blanks and frees them, and does not reach the double-free panic |
| `VirtioDisk.NoThreeInFlight` | kernel/dev/disk.c:310-386 | eight descriptors never carry three requests |
| `VirtioDisk.RingsNeverFill` | kernel/dev/disk.c:366-376 | each ring has at most two entries not yet consumed, so no slot is overwritten |
| `VirtioDisk.IndicesAreExact` | kernel/dev/disk.c:388-424 | comparing the u16 indices tells exactly whether entries are left, however often they wrapped |
| `VirtioDisk.SectorExact` | kernel/dev/disk.c:313 | the sector addresses byte 1024 blockno of the disk if and only if the block number is below 2^31 |
| `VirtioDisk.SectorsCollide` | kernel/dev/disk.c:313 | two block numbers address the same sectors exactly when they agree modulo 2^31 |
| `VirtioDisk.DoKeeps` | kernel/dev/disk.c:310-424 | every step of requesters, device and interrupt handler keeps the invariant and does not panic |
| `VirtioDisk.InvPartitions` | kernel/dev/disk.c:250-308 | descriptors are the free ones plus disjoint three-element chains of requests in flight |
| `VirtioDisk.InvSleepers` | kernel/dev/disk.c:264-277 | a requester asleep for descriptors means fewer than three are free; one asleep for its buffer means the handler still has to wake it |
| `VirtioDisk.EveryRun` | kernel/dev/disk.c:250-424 | over every schedule from boot: no panic, the partition, at most two in flight, no ring overrun, justified sleepers, and the medium is the replay of the completed requests |
| `VirtioDisk.EveryReturn` | kernel/dev/disk.c:378-386 | a request that returns was finished by the device for that very buffer and the sector pair of its block number modulo 2^31, with the data transferred |
| `DiskArray.DriverIsArray` | kernel/dev/disk.c:310-424 | every run of requesters, device and handler is a run of an array of sectors in which each call is served exactly once, at one instant between its start and its return, for its own buffer, direction and block |
| `VirtioDriver.Disk.constructor` | kernel/dev/disk.c:239-241 | all eight descriptors start free and blank |
| `VirtioDriver.Disk.AllocDesc` | kernel/dev/disk.c:251-261 | the loop takes the descriptor the model takes |
| `VirtioDriver.Disk.FreeDesc` | kernel/dev/disk.c:263-277 | panics exactly where the model does, else frees and blanks one descriptor |
| `VirtioDriver.Disk.FreeChain` | kernel/dev/disk.c:279-292 | the loop over next computes the model's free_chain |
| `VirtioDriver.Disk.Alloc3Desc` | kernel/dev/disk.c:294-308 | three descriptors or none, giving back what a failed attempt took |
| `VirtioDriver.Disk.Post` | kernel/dev/disk.c:330-376 | the stores that fill the chain and publish it compute the model's posting step |
| `VirtioDriver.Disk.Retire` | kernel/dev/disk.c:378-386 | clearing the record and freeing the chain computes the model's retiring step |
| `VirtioDisk.ReapAllCounts` | kernel/dev/disk.c:388-424 | whatever the device writes while the handler runs, the loop wakes one buffer for each count its u16 index moves by and ends where the device's index is then |
| `VirtioDriver.Disk.Interrupt` | kernel/dev/disk.c:388-424 | for any sequence of device writes between the tests of the loop, the handler computes the model's interrupt loop, panicking where that does |
| `Sv39.PteFlags` | kernel/mem/vm.c:33-78 | setting V in an entry changes no other permission and not whether it is a leaf |
| `Sv39.WalkTree` | kernel/mem/vm.c:194-213 | get_pte of a well-formed tree is the flat map's entry when that is a valid leaf, else nothing |
| `Sv39.VaToPaReadsFlat` | kernel/mem/vm.c:215-233 | va_to_pa is the flat map's frame and the page offset, or 0 |
| `Sv39.MapPageRefines` | kernel/mem/vm.c:57-76 | mapping one page keeps each table reached by one path, new tables fresh and zero, and changes one point of the flat map |
| `Sv39.MapPageInPlace` | kernel/mem/vm.c:60-76 | a page whose leaf table exists is mapped without allocating |
| `Sv39.TrampolineIsFree` | kernel/task/task.c:100-106 | after the trapframe page, mapping the trampoline page allocates nothing |
| `Sv39.SvmmapRefines` | kernel/mem/vm.c:33-84 | as a change of the flat map: the pages of the rounded range lead to pa + (x - va) modulo 2^56, every other translation is unchanged, the tree stays well formed, pages come off the front of the free list |
| `Sv39.SvmmapMaps` | kernel/mem/vm.c:33-84 | by addresses alone: every x from va up to va + size leads to pa + (x - va) modulo 2^56, or nowhere if the attributes have none of R, W and X, and no x below va or on a page that starts at va + size or later changes; a range that wraps maps nothing |
| `Sv39.SvmmapEntry` | kernel/mem/vm.c:57-78 | the entry of every page of the range carries exactly the attribute bits given |
| `Sv39.SvmmapSucceeds` | kernel/mem/vm.c:33-84 | with two free pages for each page of the range and two over, svmmap succeeds if and only if its range check passes |
| `Sv39.SvmmapExact` | kernel/mem/vm.c:33-84 | the translation is exactly pa + (x - va) if and only if that is below 2^56 |
| `Sv39.SvmmapInRange` | kernel/mem/vm.c:38-39 | the range check ensures it as long as pa + size does not wrap |
| `Sv39.SvmmapWhole` | kernel/mem/vm.c:33-84 | every address from va up to va + size of an accepted non-empty range translates exactly if and only if pa + size is below 2^64 |
| `Sv39.SvmmapWraps` | kernel/mem/vm.c:38-39 | with two free pages, mapping two pages at the end of the 64-bit space is accepted and wrong |
| `Sv39.VmunmapRefines` | kernel/mem/vm.c:106-135 | as a change of the flat map: vmunmap removes exactly the translations of its rounded range and keeps the tree well formed |
| `Sv39.VmunmapRemoves` | kernel/mem/vm.c:106-135 | by addresses alone: nothing from va up to va + size translates afterwards, and no x below va or on a page that starts at va + size or later changes |
| `Sv39.VmunmapAccepts` | kernel/mem/vm.c:106-135 | vmunmap succeeds if and only if va is page-aligned and the u64 end of the range is within the address space |
| `Sv39.MapThenUnmap` | kernel/mem/vm.c:33-135 | mapping an unmapped range and unmapping it restores every translation |
| `Sv39.SvmmapTakes` | kernel/mem/vm.c:33-84 | svmmap writes nothing but tables of its tree, the old ones and pages it takes off the free list |
| `Sv39.SvmmapIsolates` | kernel/mem/vm.c:33-84 | of two trees on different pages, mapping in one changes no translation of the other and leaves them on different pages |
| `Sv39.VmunmapIsolates` | kernel/mem/vm.c:106-135 | the same for unmapping |
| `Vm.Memory.AllocPage` | kernel/mem/alloc.c:37-49 | takes the head of the free list and hands it out zeroed |
| `Vm.Memory.Level` | kernel/mem/vm.c:63-75 | one level of the walk computes the model's descent; a new table goes to the owning task's list |
| `Vm.Memory.MapOne` | kernel/mem/vm.c:57-76 | the three-level walk computes the model's mapping of one page |
| `Vm.Memory.MapPages` | kernel/mem/vm.c:33-84 | the whole loop computes svmmap, exactly the pages taken off the free list are appended to the task's list, and it fails only on a refused range or with no page left |
| `Vm.Memory.UnmapPages` | kernel/mem/vm.c:106-135 | the loop computes vmunmap |
| `Vm.Memory.Translate` | kernel/mem/vm.c:194-233 | the walk and va_to_pa compute the model's translation |
| `UserCopy.ChunkInPage` | kernel/mem/vm.c:245-252 | a chunk stays in one page and the next one starts a page |
| `UserCopy.CopyMoves` | kernel/mem/vm.c:236-272 | every byte before the stopping point equals the byte it was copied from, also when the copy is killed at an unmapped page |
| `UserCopy.CopyElsewhere` | kernel/mem/vm.c:236-272 | every byte that is not the target of a byte moved is unchanged, those after the stopping point included |
| `UserCopy.CopyStops` | kernel/mem/vm.c:236-272 | the copy stops at the first address whose page lacks the needed bits, and nowhere else |
| `UserCopy.SvmmapThenCopy` | kernel/mem/vm.c:236-272 | after svmmap of a physical range that does not wrap, a copy inside the range moves all its bytes if and only if the attributes have U and W (to the user) or U and R (from the user), and none otherwise |
| `UserCopy.CopyRoundTrip` | kernel/mem/vm.c:236-272 | what is copied out after svmmap with U, R and W lies at the physical bytes mapped, and is copied back the same |
| `UserCopy.VmunmapThenCopy` | kernel/mem/vm.c:106-135 | after vmunmap no copy that starts in the range moves a byte |
| `UserCopy.UserSpace.Memcpy` | kernel/util/string.c:11-27 | the result is the source as it was before, for every overlap of the two ranges |
| `UserCopy.UserSpace.CopyToUser` | kernel/mem/vm.c:236-253 | the loop computes the model's copy and reports kill exactly when that stops early |
| `UserCopy.UserSpace.CopyFromUser` | kernel/mem/vm.c:255-272 | the same in the other direction |
| `BufferCache.FindHit` | kernel/fs/bio.c:23-35 | the forward scan stops at the first buffer with the key, or passes all |
| `BufferCache.FindFree` | kernel/fs/bio.c:37-51 | the backward scan stops at the last unreferenced buffer, or passes all |
| `BufferCache.BgetChooses` | kernel/fs/bio.c:18-54 | bget returns a buffer with the key if there is one, else rekeys an unreferenced one, else panics; only unreferenced buffers are rekeyed |
| `BufferCache.HitIsLive` | kernel/fs/bio.c:25-35 | although all buffers start with key (0,0), a hit finds the live buffer of the block if there is one |
| `BufferCache.MissIsLru` | kernel/fs/bio.c:37-51 | the buffer recycled is the unreferenced one released longest ago |
| `BufferCache.MoveFront` | kernel/fs/bio.c:97-104 | the list stays a permutation of all buffers with the released one first and the others in order |
| `BufferCache.DoKeeps` | kernel/fs/bio.c:18-104 | every step of every session keeps the invariant and panics only when all buffers are referenced |
| `BufferCache.CacheIsFlat` | kernel/fs/bio.c:18-104 | every run of the cache is a run of a flat array of blocks with one lock per block: each session holds the block it asked for and sees, changes and writes what it would there, whatever was recycled, and disk and writes are the same |
| `BufferCache.EveryReadSeesLastWrite` | kernel/fs/bio.c:56-104 | in every interleaving a session's buffer carries the key it asked for from bget to brelse, a reader sees the last write to the block it asked for, and a valid unlocked buffer equals its disk block |
| `BufferCache.EveryRun` | kernel/fs/bio.c:18-115 | one live buffer per block, exact reference counts, a locked buffer referenced and held once, list a permutation in release order |
| `BufferCache.PanicMeansExhausted` | kernel/fs/bio.c:53-54 | the only panic is a miss while every buffer is referenced |
| `BufferCache.TwoDevicesDiverge` | kernel/dev/disk.c:310-313 | whenever one block is used through two device numbers some run reads stale data |
| `List.ListInit` | kernel/util/list.h:28-32 | an empty circle |
| `List.PushBack` | kernel/util/list.c:4-11 | the node comes last, the circle stays doubly linked, other nodes keep their links |
| `List.PushFront` | kernel/util/list.c:13-20 | the node comes first |
| `List.Remove` | kernel/util/list.c:22-28 | the circle loses that node only, which ends with null links |
| `List.MoveToFront` | kernel/fs/bio.c:99-102 | that node, then all others in their order |
| `Bio.LinkAll` | kernel/fs/bio.c:106-115 | all buffers linked in order |
| `Bio.Bcache.constructor` | kernel/fs/bio.c:106-115 | the initial cache of the state machine |
| `Bio.Bcache.ScanForward` | kernel/fs/bio.c:23-35 | following next computes the forward scan |
| `Bio.Bcache.ScanBackward` | kernel/fs/bio.c:37-51 | following prev computes the backward scan |
| `Bio.Bcache.Bget` | kernel/fs/bio.c:18-54 | over the linked list, bget computes the state machine's step |
| `Bio.Bcache.Drop` | kernel/fs/bio.c:97-104 | over the linked list, brelse computes the state machine's step |
| `Scheduler.PlainStepKeeps` | kernel/task/sche.c:49-63 | what ordinary code may do (locks, conditions, starting yield, sleep or wakeup, picking a task) keeps the invariant |
| `Scheduler.WakeStepKeeps` | kernel/task/sche.c:78-90 | each statement of the wakeup loop, with its skip of the current task, keeps it |
| `Scheduler.TaskStepKeeps` | kernel/task/sche.c:49-75 | each statement of yield and sleep, on both sides of the switch, keeps it; what the calls return with is `Scheduler.CallsReturn` |
| `Scheduler.SchedStepKeeps` | kernel/task/sche.c:109-130 | each statement of the scheduler loop keeps it |
| `Scheduler.EveryRun` | kernel/task/sche.c:49-130 | no interleaving of any number of CPUs and tasks panics in a spin lock or switches to a running context |
| `Scheduler.LevelsCountLocks` | kernel/task/cpu.h:44-61 | spinlevel is the number of spin locks the CPU owns, across hand-offs too, and interrupts are off while there is one |
| `Scheduler.OneCpuPerTask` | kernel/task/sche.c:109-130 | no task runs or is current on two CPUs |
| `Scheduler.FreeMeansParked` | kernel/task/sche.c:109-130 | a ready or sleeping task whose lock is free runs nowhere and its context is saved |
| `Scheduler.SwitchesOut` | kernel/task/sche.c:49-75 | at each switch to the scheduler exactly the task's own lock is held, and the scheduler on the same CPU owns it next |
| `Scheduler.SwitchesIn` | kernel/task/sche.c:115-128 | at each switch to a task exactly that task's lock is held, and the task owns it next on that CPU |
| `Scheduler.CallsReturn` | kernel/task/sche.c:49-90 | in every run ordinary code owns exactly the lock its own requests so far say: sleep returns with the lock it was given and no other, with none if it was given none, and yield and wakeup return with what they were called with |
| `Scheduler.OrdinaryCode` | kernel/task/sche.c:49-75 | a task in ordinary code is RUN, current on a CPU, and on no channel, so sleep has cleared the one it set |
| `Scheduler.PassesOver` | kernel/task/sche.c:109-130 | undisturbed, the loop takes and gives back the lock of a task that is not READY, changes nothing, and goes on |
| `Scheduler.SwitchesTo` | kernel/task/sche.c:115-130 | undisturbed, a READY task becomes RUN and the CPU runs it, with its lock held |
| `Scheduler.YieldAlone` | kernel/task/sche.c:49-57 | undisturbed, yield leaves the task READY with its context saved, its lock free and the CPU in its loop |
| `Scheduler.SleepAlone` | kernel/task/sche.c:59-68 | undisturbed, sleep gives up the lock passed and leaves the task in SLEEP on the channel, its lock free and the CPU in its loop |
| `Scheduler.ResumeAlone` | kernel/task/sche.c:69-75 | undisturbed, a task switched to again clears its channel, gives up its own lock, takes back the lock it slept with, and is in ordinary code |
| `Scheduler.StartsReached` | kernel/task/sche.c:49-130 | every state of a run in which a task whose lock is free is in ordinary code and owes no wakeup, or a CPU is in its loop, is one these start from |
| `Scheduler.NoLostWakeup` | kernel/task/sche.c:59-90 | once the lock guarding a condition is free no task is asleep on its channel with the condition true; before that the lock's owner still has the task ahead of it in a wakeup it owes |
| `Scheduler.Wakeup` | kernel/task/sche.c:78-90 | exactly the sleepers on the channel, the caller apart, become ready |
| `Scheduler.WakeupAlone` | kernel/task/sche.c:78-90 | undisturbed, the locked loop ends, does that, and gives back every lock and the interrupt state |
| `SpinLocks.EveryRun` | kernel/util/spinlock.c:5-33 | every interleaving of single memory accesses keeps the lock invariant until a panic |
| `SpinLocks.MutualExclusion` | kernel/util/spinlock.c:11-33 | no lock is owned by two CPUs |
| `SpinLocks.HoldingIsOwning` | kernel/util/spinlock.c:5-9 | spin_holding is true for a CPU exactly while it owns the lock, outside the two stores that open and close ownership |
| `SpinLocks.PanicIsMisuse` | kernel/util/spinlock.c:11-28 | a panic means getting an owned lock or putting one not owned, although spin_holding reads twice |
| `SpinLocks.MisuseIsStuck` | kernel/util/spinlock.c:11-28 | a call that gets an owned lock or puts one not owned starts its test doomed |
| `SpinLocks.MisusePanics` | kernel/util/spinlock.c:11-28 | and whatever other CPUs do meanwhile, its second step in the test panics at the latest |
| `SpinLocks.LevelCounts` | kernel/task/cpu.h:44-61 | spinlevel is, in eight bits, the number of locks owned, asked for or about to be popped; interrupts are off while it is positive |
| `SpinLocks.InterruptsRestored` | kernel/task/cpu.h:44-61 | outside all locks interrupts are as last set there if and only if they were set off or the nesting since then stayed within 256; the nesting is at most the number of locks |
| `SpinLocks.InterruptsLost` | kernel/task/cpu.h:44-61 | with more than 256 locks some run ends outside all locks with interrupts set on but off |
| `SleepLocks.EveryRun` | kernel/util/sleeplock.c:8-34 | every interleaving of single memory accesses, sleeps and wakeups keeps the lock invariant |
| `SleepLocks.MutualExclusion` | kernel/util/sleeplock.c:14-34 | no two tasks are inside one sleep lock |
| `SleepLocks.HoldingIsOwning` | kernel/util/sleeplock.c:8-34 | sleep_holding is exact and decides the panics: exactly the misuses |
| `SleepLocks.WokenExactly` | kernel/util/sleeplock.c:25-34 | a task asleep on a lock tries again when that lock's sleepers are woken, and at no other step |
| `SleepLocks.StepAttends` | kernel/util/sleeplock.c:14-34 | where every waiter has a release or a wakeup ahead, a step leaves one without if and only if it is the last wakeup of a free lock while a task is between its test-and-set and its sleep |
| `SleepLocks.AttendedUnlessMissed` | kernel/util/sleeplock.c:14-34 | over whole runs: no waiter is ever left without if and only if there is no such step |
| `SleepLocks.MissStrands` | kernel/util/sleeplock.c:19-33 | after such a step the task does sleep on a free lock with no wakeup due |
| `SleepLocks.WakeupLost` | kernel/util/sleeplock.c:14-34 | any two tasks have a run from the start that ends like that |
| `SleepLocks.GetAlone` | kernel/util/sleeplock.c:14-23 | undisturbed, sleep_get of a free lock returns with it |
| `SleepLocks.PutAlone` | kernel/util/sleeplock.c:25-34 | undisturbed, sleep_put frees the lock and exactly the tasks asleep on it try again |
| `Pipe.PutChunkAppends` | kernel/fs/pipe.c:92-96 | a chunk that fits overwrites nothing unread and is appended, also when the u32 counter wraps |
| `Pipe.GetChunkTakes` | kernel/fs/pipe.c:67-74 | a chunk is the oldest bytes, which leave the pipe |
| `Pipe.PutAppends` | kernel/fs/pipe.c:84-97 | the write loop appends as much of the data as there is room for |
| `Pipe.GetTakes` | kernel/fs/pipe.c:63-75 | the read loop takes exactly the n oldest bytes |
| `Pipe.Buffer.Read` | kernel/fs/pipe.c:63-78 | in place: min(len, readable) oldest bytes are returned and removed |
| `Pipe.Buffer.Write` | kernel/fs/pipe.c:84-97 | in place: as many bytes as fit are appended |
| `Pipe.DoKeeps` | kernel/fs/pipe.c:56-101 | each turn of a reader or writer between lock points keeps the invariant; what the turn does is `Pipe.PipeIsQueue` |
| `Pipe.EveryRun` | kernel/fs/pipe.c:56-101 | bytes delivered are the front of bytes accepted, in order, the rest (at most 64) is in the ring; each process's bytes keep their order at both ends, and with the rest of its present call they are the arguments of its calls |
| `Pipe.PipeIsQueue` | kernel/fs/pipe.c:56-101 | every run is a run of a queue of at most 64 bytes: a read sleeps exactly on an empty queue and else ends with the min(len, available) oldest bytes, a write sleeps exactly on a full one and ends when all its bytes are in |
| `Pipe.FinishedWrites` | kernel/fs/pipe.c:80-101 | of a process in no write call exactly the arguments of its write calls, whole and in order, are among the bytes accepted |
| `Pipe.Sleepers` | kernel/fs/pipe.c:61-98 | a sleeping reader means empty, a sleeping writer means full with bytes left to send, never both |
| `Pages.AllocPageMoves` | kernel/mem/alloc.c:37-49 | alloc_page panics exactly when no page is free, else moves the head of the list to its new place |
| `Pages.FreePageMoves` | kernel/mem/alloc.c:59-68 | a page in use is freed without the double-free panic and goes to the end of the list |
| `Pages.ScanEnds` | kernel/mem/slot.c:32-41 | with a count below capacity the chunk scan finds a free chunk, the first one |
| `Pages.AllocObjAdds` | kernel/mem/slot.c:20-44 | a slot allocation adds exactly one object, in the first slot with room, and fails only when all are full or a page is needed and none is left |
| `Pages.FreeObjRemoves` | kernel/mem/slot.c:45-56 | freeing removes exactly that object and returns the page exactly with the slot's last one |
| `Pages.ExitKeeps` | kernel/task/task.c:144-161 | exit never panics, frees every page the task had exactly once, frees its objects, and changes no other task |
| `Pages.DoKeeps` | kernel/task/task.c:74-107 | starting a task, growing it by a page, unlinking a vma, exit and boot allocations keep the invariant |
| `Pages.StepDoes` | kernel/mem/vm.c:92-104 | what each step does to its task's lists: task_vmmap adds one new vma at the end, a page allocation the head of the free list, a start one new mm_struct and empty lists, an unlink removes that one vma and frees it, exit leaves nothing; no other task's lists change |
| `Pages.LedgerHolds` | kernel/task/task.c:74-161 | over every run each task has exactly as many pages and vmas as it was given and has not given back |
| `Pages.EveryPageInOnePlace` | kernel/mem/alloc.c:21-68 | every page is free, on one task's list, in one slot, or kept at boot, in one place only, and not in use exactly when free |
| `Pages.PanicMeansExhausted` | kernel/mem/alloc.c:37-68 | the only panics left are running out of pages or of slots |
| `Pages.SlotCounts` | kernel/mem/slot.c:9-62 | refc is the number of chunks in use, and a slot has a page exactly while that is positive |
| `Pages.AllReturned` | kernel/task/task.c:144-161 | when no task is left every page not kept at boot is free again |
| `Pages.ScanChunks` | kernel/mem/slot.c:32-41 | the loop finds the first free chunk |
| `Pages.InitMemory` | kernel/mem/alloc.c:21-35 | kernel pages in use, all others free in address order |
| `Pages.Kernel.AllocObject` | kernel/mem/slot.c:20-44 | the nested loops compute the allocation and keep the slot counts exact |
| `Pages.Kernel.CleanMm` | kernel/task/task.c:144-161 | the three loops compute exit; all the task's pages end on the free list |
| `TaskMemory.GiveAgrees` | kernel/mem/vm.c:33-84 | what the mapping loop takes off the free list is a run of the page machine, for the owning task or, without one, for the kernel |
| `TaskMemory.TrampolineTakesNothing` | kernel/task/task.c:100-106 | the ownerless trampoline mapping after the trapframe mapping takes no page |
| `TaskMemory.Space.constructor` | kernel/mem/alloc.c:21-35 | page tables and page lists start in agreement |
| `TaskMemory.Space.AllocPageForTask` | kernel/mem/alloc.c:50-56 | the head of the free list, zeroed, ends on the task's list |
| `TaskMemory.Space.MapPages` | kernel/mem/vm.c:33-84 | svmmap over both views: every table page it takes goes to the owner's list |
| `TaskMemory.Space.TaskVmmap` | kernel/mem/vm.c:92-104 | one more vma is on the task's list, and its mapping translates the area as svmmap does, writes only pages of the task, keeps its tree on its own pages, and leaves every other task's tree and translations alone |
| `TaskMemory.Space.NewArea` | kernel/mem/vm.c:137-151 | a page, a vma and its mapping, as for each vma of a parent: the area leads to that page of the task and every other translation stays |
| `TaskMemory.Undisturbs` | kernel/mem/vm.c:33-135 | what writes only pages of one task leaves the trees of all other tasks well formed on their own pages with the same translations |
| `TaskMemory.Space.TaskMmInit` | kernel/task/task.c:74-107 | every table is a page of the task, it has one vma for each area, every address leads where the areas, trapframe and trampoline say, other tasks' trees keep their translations, nothing is allocated without an owner; it stops only when pages or slots run out or a range is refused |
| `TaskMemory.StaysHome` | kernel/task/task.c:74-107 | with areas of a page each, every address of a task leads to a page of the task, to the trampoline, or nowhere |
| `TaskMemory.Space.Exit` | kernel/task/task.c:144-161 | every page of the task, page tables included, is on the free list, and other tasks' trees are as before |
| `TaskMemory.NothingLost` | kernel/task/task.c:144-161 | when no task is left every page that was not the kernel's is free again, those that were page tables included |
| `Bitmap.SameSet` | mkfs/mkfs.cc:174-177 | mkfs's bytes and the kernel's little-endian words describe the same set of blocks |
| `Bitmap.MkfsAllocBound` | mkfs/mkfs.cc:165-181 | block_alloc is right exactly below the last block number, and at it passes its check and leaves the map |
| `Bitmap.MkfsAfter` | mkfs/mkfs.cc:165-181 | c calls of block_alloc hand out the first c data blocks in order if and only if there are that many; one call more writes outside the map |
| `Bitmap.MkfsMarks` | mkfs/mkfs.cc:165-181 | after c blocks exactly the first c bits are set |
| `Bitmap.MkfsSeenByKernel` | mkfs/mkfs.cc:141-146 | the kernel loads exactly that set |
| `Bitmap.BallocLowest` | kernel/fs/fs.c:35-66 | balloc returns the lowest block not in use and marks only it; it panics only when all are |
| `Bitmap.BfreeExact` | kernel/fs/fs.c:67-82 | bfree accepts exactly the blocks in use and clears only the one named |
| `Bitmap.BfreeInverts` | kernel/fs/fs.c:67-82 | bfree after balloc restores the bitmap word for word |
| `Bitmap.EveryRun` | kernel/fs/fs.c:35-82 | after any mkfs run and any calls, balloc returns the least block not live and bfree panics exactly on blocks not live |
| `Bitmap.Map.AllocBlock` | kernel/fs/fs.c:36-66 | the block, word and bit loops compute balloc |
| `Bitmap.Map.FreeBlock` | kernel/fs/fs.c:68-82 | the i and k arithmetic computes bfree |
| `Files.ReadBack` | mkfs/mkfs.cc:208-214 | a block number written to an index block reads back |
| `Files.MetaCopy` | mkfs/mkfs.cc:183-224 | the loops lay the file out as described below and refuse exactly files of more than 780 blocks |
| `Files.KernelFinds` | kernel/fs/inode.c:233-246 | data_block_get finds the block mkfs meant, for every block of every file that fits |
| `Files.BlocksDiffer` | mkfs/mkfs.cc:197-216 | no two data blocks coincide and none is an index block |
| `Files.DataCopy` | mkfs/mkfs.cc:226-255 | the loops write every block of the file and leave the index blocks alone |
| `Files.RoundTrip` | kernel/fs/inode.c:233-246 | for every file of up to 780 blocks the kernel reads the bytes mkfs was given, from distinct blocks; behind the end the last block repeats the one before, or is zero if it is the first |
| `Files.BlockOfDataExact` | kernel/fs/file.c:68-79 | blockno_of_data agrees with data_block_get exactly for offsets below 12544 and leaves its tables for all others |
| `Files.FreadExact` | kernel/fs/file.c:81-104 | fread returns exactly the bytes of the file, or leaves its tables; the range alone decides which |
| `Files.SeekClamps` | kernel/fs/file.c:52-66 | the offset stays within the file, and is the position asked for, clamped, if and only if the u32 sum does not wrap |
| `Files.EverySession` | kernel/fs/file.c:52-104 | for files of up to 12544 bytes every sequence of reads and seeks behaves as on a byte sequence |
| `Files.LongerFilesFail` | kernel/fs/file.c:68-79 | for every longer file some read does not |
| `Files.MkfsThenRead` | kernel/fs/file.c:52-104 | what mkfs wrote is read back by every sequence of reads and seeks if and only if the file has at most 12544 bytes |
| `Files.OpenFile.Read` | kernel/fs/file.c:81-104 | the chunk loop computes fread and advances the offset by what it read |
| `Files.OpenFile.SeekTo` | kernel/fs/file.c:52-66 | computes fseek, returns the old offset, keeps it within the file, and is exact under the same condition |
| `Files.AppendExtends` | kernel/fs/inode.c:249-275 | data_block_alloc panics exactly at 24 blocks; else the old blocks are found as before and the new one at the end, with a new index block when needed |
| `Files.CountExact` | kernel/fs/inode.h:36-39 | iblock_cnt is the number of blocks if and only if the size is a multiple of the block size |
| `Files.GrowExtends` | kernel/fs/dir.c:162-173 | from a whole number of blocks, allocating and adding a block to the size any number of times, up to 780 blocks, leaves all blocks in order; it panics if and only if it passes through 24 |
| `Files.AllocLoop` | kernel/fs/file.c:115-119 | fwrite's loop computes the repeated allocation at one size |
| `Files.ManyKeepLast` | kernel/fs/file.c:115-119 | of the blocks it allocates the last stays, in one place, and the blocks before it are as they were |
| `Files.FwriteExact` | kernel/fs/file.c:106-138 | size and blocks are right if and only if nothing is written, or at most one block is appended at a block boundary to a file that has neither 24 blocks nor all 780 |
| `Truncate.Truncates` | kernel/fs/inode.c:123-153 | on a dense inode itrunc frees each data and index block exactly once without the double-free panic, zeroes them, clears all pointers, touches no other block, and keeps free blocks zero |
| `Truncate.MkfsIsDense` | mkfs/mkfs.cc:183-224 | every file laid out by mkfs is such an inode |
| `Truncate.AppendKeeps` | kernel/fs/inode.c:249-275 | a block taken from the unused ones keeps the inode dense and free blocks zero, and is zero itself, as dentry_add relies on |
| `Truncate.GrowToIs` | kernel/fs/dir.c:162-173 | growth with the bitmap is the growth of `Files.GrowExtends` |
| `Truncate.GrowKeeps` | kernel/fs/inode.c:249-275 | however far a file grows it stays dense, and exactly the blocks it took have come into use |
| `Truncate.GrowThenTruncate` | kernel/fs/inode.c:123-275 | growing an empty file as far as the kernel can and truncating it gives back every block, zeroed |
| `Truncate.Itrunc` | kernel/fs/inode.c:123-153 | the nested loops compute it |
| `Directory.NameEqualIs` | kernel/fs/dir.c:46-59 | the comparison is equality with the name the slot holds, for names of every length |
| `Directory.NameSetIs` | kernel/fs/dir.c:35-43 | whatever stale bytes the slot held, it then holds the new name, cut to 28 bytes |
| `Directory.ScanIsFull` | kernel/fs/dir.c:102-118 | stopping after cnt names finds what a scan of all slots finds |
| `Directory.FindIs` | kernel/fs/dir.c:102-118 | a binding is found if and only if there is one |
| `Directory.AddAdds` | kernel/fs/dir.c:129-175 | exactly one binding is added, in an old or a new block; panics exactly when no block has room and none can be added; counts stay right exactly for non-empty names |
| `Directory.DelRemoves` | kernel/fs/dir.c:178-212 | exactly the binding found is removed, or nothing when there is none; a block is emptied only by its one entry |
| `Directory.DelEmptyName` | kernel/fs/dir.c:192-205 | deleting an empty name is wrong if and only if some block has an empty slot before one in use: a wrong count, or a live entry's block removed; else it does nothing |
| `Directory.HolesHappen` | kernel/fs/dir.c:129-212 | additions and one deletion from an empty directory reach both failures |
| `Directory.AddIsInsert` | kernel/fs/dir.c:129-175 | as a map, adding a new name of at most 28 bytes inserts it and changes nothing else |
| `Directory.DelIsRemove` | kernel/fs/dir.c:178-212 | as a map, deleting removes that name and nothing else |
| `Directory.EveryDirectoryDenotes` | kernel/fs/dir.c:102-118 | every directory with right counts and different names, such as one made by mkfs, is a finite map |
| `Directory.EveryRun` | kernel/fs/dir.c:102-212 | from any such directory, after any sequence of additions and deletions lookups agree with the finite map |
| `Directory.CompareName` | kernel/fs/dir.c:46-59 | the loop decides equality of names |
| `Directory.WriteName` | kernel/fs/dir.c:35-43 | the loop stores the name |
| `Directory.Folder.FindEntry` | kernel/fs/dir.c:102-118 | the double loop computes the search |
| `Directory.Folder.AddEntry` | kernel/fs/dir.c:129-175 | the loops compute dentry_add |
| `Directory.Folder.DeleteEntry` | kernel/fs/dir.c:178-212 | the loops compute dentry_del, for every name, up to the removal of an emptied block |

## Left out

- Boot, trap entry, interrupt controller, UART, CSR access and assembly: hardware plumbing; `context_switch` is one atomic change of the running context.
- `virtio_disk_init`: register negotiation; the model starts with all descriptors free. The device is assumed to finish requests without an error status.
- Console, printf, ELF loading, path splitting, `directory_copy`, system call wiring, user programs: easy or host I/O.
- 2 MB mappings: `va_to_pa` is documented for 4 KB pages only.
- User data in page-table pages: physical memory of tables and of user pages is kept apart.
- Sleep locks inside the buffer cache are one atomic step there; their micro-steps are `SleepLocks`. A task that reads the same block twice without releasing it stops in `sleep_get` and is not a run of the cache model.
- Wakeups of `sys_wait` and `sys_sleep`, which sleep with no spin lock as `sleep_get` does.
- `sys_exit`, `kill` and `sys_wait` in the scheduler: the state becomes EXIT before the task lock is taken.
- Scheduler interleavings: interrupts arrive only where a task runs ordinary code, a task holds one condition lock at a time, and making a task is no step.
- `push_intr` and `pop_intr` are single steps with respect to interrupts of their own CPU.
- The scheduler, locks and wakeup protocol are state machines over values; apart from `Scheduler.Wakeup` they are not written as updates in place.
- `pipealloc`, `pipeclose` and a copy that ends in `kill` in the middle of a pipe operation.
- The fs_struct and file slot allocators: the same macro as the two modelled; the model has the vma and mm_struct ones.
- Page contents copied by fork and exec, and a task that runs on its freed kernel stack after exit.
- `idx_remove` and emptying a directory block: `dentry_del` already holds the buffer that is read again; the model stops there.
- `iget` and the inode cache, `ialloc`, thread numbers, and the bytes `fwrite` copies; its size and blocks are modelled, without the wrap-around of `free` for requests within a block of 2^32.
- Directory.EveryRun: names are non-empty and at most 28 bytes and callers add only names a lookup did not find, because `dentry_add` does not look for duplicates. Names of exactly 28 bytes are right for NUL-terminated arguments only: the buffer in which `dentry_find` splits a path has 28 bytes.
- Truncate.Truncates: the bitmap is the set of blocks in use, which `Bitmap.EveryRun` shows it to be.
- BufferCache.EveryReadSeesLastWrite: each block is used through one device number, because the driver ignores it.
- UserCopy.CopyMoves: the bytes moved do not alias each other or the kernel buffer, because the copy gives no meaning to overlapping translations.
