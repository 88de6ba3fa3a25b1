# ArceOS: models and proofs

Dafny models of the parts of ArceOS whose correctness is not plain from reading one function, with
proofs over all inputs, all runs and all interleavings. Each module proves code against a simple
reference: a flat map, a sequence, a calendar, a byte image, a set of placements.

| files | subject | reference |
|---|---|---|
| `CriticalFactorization`, `TwoWay`, `Strstr` | `strstr` of the C library | first occurrence in a byte string |
| `PageTableEntry`, `PageWalk`, `PageMap`, `PageRuns`, `PageRegions`, `PageFrames`, `PageTable`, `PageHardware` | `PageTable64` with RISC-V and AArch64 entries | one partial map from virtual to physical addresses, and the walks of the hardware |
| `Scheduling`, `TaskSystem`, `MutexProgress`, `JoinHistory`, `RunQueue` | run queue, wait queues, sleeping mutex, `join` | interleavings of atomic steps on any number of CPUs |
| `LinkedList` | intrusive circular list | sequence of entries |
| `SlabAllocator`, `SlabHeap` | slab heap over a buddy allocator | disjoint pieces of memory |
| `CompletelyFair` | CFS ready queue | least virtual runtime first |
| `GuestMemory` | guest memory regions and nested table | disjoint regions |
| `Paths`, `RamFs`, `RamFsEffects` | `canonicalize` and the RAM filesystem | walk along a tree |
| `Calendar` | `__secs_to_tm` | Gregorian calendar |
| `Ratio` | fixed-point ratios | exact fractions |
| `Disk` | byte cursor over a block device | flat disk image |
| `Numerals`, `Printing`, `RoundTrip`, `PrintfStandard` | `strtoll`, `strtoull`, `print_integer` | value of a digit string, and sections 7.22.1.4 and 7.21.6.1 of ISO/IEC 9899:2011 |
| `Arith`, `CStrings`, `Options` | shared division facts, C strings and optional answers | |

`dafny verify dfyconfig.toml` checks everything.

Code that changes things in place is a class or a loop here; each such method is proved against a
function on values or states its effect outright, and the theorems are about those functions and
about every run of the methods.

## What is assumed

- Page table: `alloc_frame` gives fresh 4K-aligned frames or fails (`supply` lists its answers),
  physical addresses fit the entry's address field, and pages are mapped with READ or, on RISC-V,
  EXECUTE, as a debug assertion there asks. Bit fields of an entry are added, which is what `|` does
  on disjoint fields; entries are naturals below 2^64.
- Page-table regions do not wrap around the index range, and tables have three or four levels.
- Scheduling: the policy that picks among ready tasks is arbitrary (`choice`). A step is what runs
  between two points where another CPU can act; the run-queue lock is held across a context switch.
  A task that has panicked takes no more steps of its own, as the panic handler loops; the scheduler
  may switch away from it, and the others go on. Idle tasks never call `lock` or `join`.
- RAM filesystem: parent links are weak, so a node that no directory holds may die at any time
  (`ForgetNode`); two dots in a directory whose parent has died are not found.
- Slab heap: the buddy allocator answers with aligned memory that overlaps nothing it has handed
  out, inside memory it was given, rounded up to a power of two; its answer is a parameter.
- Guest memory: the nested table is taken as a flat map that may fail at any page (`full`). Sums of
  addresses wrap around, as in a build without overflow checks; one with them panics exactly where
  an end address wraps.
- C strings are byte buffers with one zero, at the end; pointers are indices into them. The 256-bit
  set of `strstr` is an array of booleans. Paths are ASCII.
- `long` and `size_t` have 64 bits.

## Where the code and its description part

- `Heap::allocate` promises the requested alignment, but a request of at most 4096 bytes with an
  alignment above 4096 goes to the 4096-byte class. `SlabAllocator.LiveAligned` and
  `SlabAllocator.Misaligned` give the exact boundary.
- `unmap` frees no tables, so a huge page over an emptied range is refused
  (`PageFrames.RefusedExactly`).
- `lookup` follows a path part by part, while `canonicalize` drops a component with the two dots
  behind it unseen and keeps two dots at the root there; so lookup of a canonical path finds more.
  `RamFs.LookupExactly` has the exact condition, `RamFs.CanonicalFindsMore` two inputs.
- The assertion in `lock` fails exactly for a caller that holds the guard, and the one in
  `force_unlock` never does when a guard is dropped (`TaskSystem.PanicsExactly`,
  `TaskSystem.NestedLock`).
- `map_region` of the guest memory set leaves the pages it mapped behind when the table gives out
  half-way, and `clear` never removes them (`GuestMemory.GuestPhysMemorySet.MapRegion`, `GuestMemory.LeftBehind`).
- A guest region that ends at or past 2^64 has an end address that wraps: hardly any overlap is
  noticed and none of its pages is mapped, yet it is stored (`GuestMemory.GuestPhysMemorySet.MapRegion`,
  `GuestMemory.LastPage`).
- RISC-V pages mapped with WRITE and without READ are reported by `query`, but their encoding is
  reserved and the hardware faults (`PageHardware.RiscvHardware`, `PageHardware.ReservedFaults`).
- `print_integer` has a 32-character buffer, and departs from section 7.21.6.1 of ISO/IEC 9899:2011
  exactly where a text does not fit it (`PrintfStandard.PrintsStandard`): `%#.31llx` prints the letter of the prefix without its
  zero, and a precision of 32 drops a minus sign (`RoundTrip.LostExamples`).
- `strtoll` and `strtoull` skip a hexadecimal prefix even if no digit follows, and then report that
  nothing was converted; section 7.22.1.4 of ISO/IEC 9899:2011 converts the zero. These are the only
  strings on which they depart from it (`Numerals.SignedConforms`, `Numerals.UnsignedConforms`).

## Model

| member | source | states |
|---|---|---|
| `CriticalFactorization.NoShortRepetition` | ulib/c_libax/src/string.c:322-368 | at the start of a maximal suffix every local repetition is longer than the part before it |
| `CriticalFactorization.RepetitionIsPeriod` | ulib/c_libax/src/string.c:322-368 | critical factorization theorem: at the later of the two maximal-suffix starts every local repetition is a period of the whole needle |
| `CriticalFactorization.LeastPeriodExtends` | ulib/c_libax/src/string.c:370-375 | if the needle has a period that fits in the maximal suffix, the least period of that suffix is a period of the whole needle, and no longer |
| `TwoWay.MaximalSuffix` | ulib/c_libax/src/string.c:322-368 | one scan returns the start of the greatest suffix in the byte order or its opposite, and the least period of that suffix |
| `TwoWay.CriticalPosition` | ulib/c_libax/src/string.c:365-368 | the later of the two suffix starts is a critical position of the needle |
| `TwoWay.RightMismatch` | ulib/c_libax/src/string.c:412-419 | after a mismatch in the right half, the shift `k - ms` skips no occurrence |
| `TwoWay.LeftMismatch` | ulib/c_libax/src/string.c:420-426 | after a mismatch in the left half, the shift by the period skips no occurrence |
| `TwoWay.RememberPrefix` | ulib/c_libax/src/string.c:425-426 | after a shift by a true period the remembered prefix really matches at the new position |
| `TwoWay.ShiftTableSkip` | ulib/c_libax/src/string.c:396-405 | the last-byte shift, raised to the remembered length, skips no occurrence |
| `TwoWay.LongShift` | ulib/c_libax/src/string.c:371-373 | for a needle that is not periodic the shift `max(ms, l - ms - 1) + 1` is below every repetition at the critical position |
| `TwoWay.ShortShift` | ulib/c_libax/src/string.c:374-375 | for a periodic needle the shift by its least period is safe |
| `Strstr.Strchr` | ulib/c_libax/src/string.c:198-207 | first position of a byte, or null if it does not occur |
| `Strstr.TwoByte` | ulib/c_libax/src/string.c:281-287 | the rolling 16-bit word search returns the first occurrence of a two-byte needle or null |
| `Strstr.ThreeByte` | ulib/c_libax/src/string.c:290-297 | the rolling 32-bit word search returns the first occurrence of a three-byte needle or null |
| `Strstr.FourByte` | ulib/c_libax/src/string.c:300-307 | the rolling 32-bit word search returns the first occurrence of a four-byte needle or null |
| `Strstr.MemEqual` | ulib/c_libax/src/string.c:254-260 | `memcmp` is zero exactly if the compared bytes lie in the needle and repeat with the shift |
| `Strstr.MemChrZero` | ulib/c_libax/src/string.c:37-44 | `memchr` for zero finds the terminator exactly if it is among the bytes looked at |
| `Strstr.FillTable` | ulib/c_libax/src/string.c:317-320 | the table holds for every byte its last position in the needle; the early return happens only at the end of the haystack |
| `Strstr.Factorize` | ulib/c_libax/src/string.c:322-376 | yields a critical position with a shift that is safe there and the length to remember after it |
| `Strstr.CompareRight` | ulib/c_libax/src/string.c:412-414 | the right half agrees up to the mismatch found, or up to the end of the needle |
| `Strstr.CompareLeft` | ulib/c_libax/src/string.c:420-422 | a mismatch of the left half above the remembered length, or agreement down to it |
| `Strstr.TryWindow` | ulib/c_libax/src/string.c:396-426 | a window either matches, or moves on by at least one without skipping an occurrence, and what it remembers is truly matched |
| `Strstr.Search` | ulib/c_libax/src/string.c:378-427 | the loop terminates with the first occurrence at or after its start, or null if there is none |
| `Strstr.TwoWayStrstr` | ulib/c_libax/src/string.c:310-428 | first occurrence or null, for every non-empty needle |
| `Strstr.Strstr` | ulib/c_libax/src/string.c:430-454 | first occurrence of the needle, or null, for all strings; section 7.24.5.7 of ISO/IEC 9899:2011 |
| `PageTableEntry.RiscvLawful` | crates/page_table_entry/src/arch/riscv.rs:33-110 | RISC-V entries give back the address and flags of a new page, are leaves exactly as pages, and as tables lead to their frame (sections 4.4 and 4.5 of the RISC-V Privileged Architecture v1.12) |
| `PageTableEntry.Aarch64Lawful` | crates/page_table_entry/src/arch/aarch64.rs:66-205 | the same of AArch64 descriptors (VMSAv8-64), whose empty entry answers `is_huge` with true |
| `PageTableEntry.RvPageBits` | crates/page_table_entry/src/arch/riscv.rs:8-88 | every bit of a RISC-V leaf, by literal position: V, R, W, X, U as the flags say, G clear, A and D set, the page number from bit 10 |
| `PageTableEntry.RvTableBits` | crates/page_table_entry/src/arch/riscv.rs:89-91 | a pointer to a table is V and the page number |
| `PageTableEntry.A64PageBits` | crates/page_table_entry/src/arch/aarch64.rs:12-182 | every field of an AArch64 block or page, by literal position: type, AttrIndx, AP, SH, AF, address, PXN, UXN |
| `PageTableEntry.A64TableBits` | crates/page_table_entry/src/arch/aarch64.rs:183-186 | a table descriptor is its address and type 3 |
| `PageHardware.RiscvHardware` | crates/page_table/src/bits64.rs:43-124 | after every run from a new table a RISC-V hardware walk, written with literal bits, translates every address as `query` reports it, except that it faults on pages with WRITE and without READ |
| `PageHardware.ReservedFaults` | crates/page_table_entry/src/arch/riscv.rs:84-88 | such a page has a reserved encoding and faults |
| `PageHardware.Aarch64Hardware` | crates/page_table/src/bits64.rs:43-124 | after every run from a new table a VMSAv8-64 hardware walk, written with literal bits, translates every address, with its rights, as `query` reports it |
| `PageWalk.BlocksNest` | crates/page_table/src/bits64.rs:13-27 | the four 9-bit indexes cut an address into nested blocks |
| `PageWalk.FrameTranslate` | crates/page_table/src/bits64.rs:276-321 | a write to one entry changes translations only of addresses in its block |
| `PageWalk.LinkTableTree` | crates/page_table/src/bits64.rs:286-295 | linking a new zeroed table under an unused entry keeps the tables a tree |
| `PageWalk.LinkTableTranslation` | crates/page_table/src/bits64.rs:286-295 | and changes no translation |
| `PageMap.CreateWalk` | crates/page_table/src/bits64.rs:323-351 | the creating walk, also when it fails half-way, keeps the tree and every translation, and ends at the table that serves the address |
| `PageMap.WalkCorrect` | crates/page_table/src/bits64.rs:297-321 | the lookup walk ends at the entry that decides the translation |
| `PageMap.QueryCorrect` | crates/page_table/src/bits64.rs:117-124 | `query` returns the translation; its only error is NotMapped |
| `PageMap.MapCorrect` | crates/page_table/src/bits64.rs:81-95 | a successful `map` finds its aligned page free and adds exactly it; a failed one changes no translation |
| `PageMap.UnmapCorrect` | crates/page_table/src/bits64.rs:100-111 | `unmap` reports and removes exactly the page that holds the address, or fails with NotMapped and changes nothing |
| `PageRuns.MapOutcome` | crates/page_table/src/bits64.rs:81-95 | MappedToHugePage exactly if a larger page holds the address; AlreadyMapped if another page does; success and NoMemory only where nothing does; no other error |
| `PageRuns.TranslatePeriodic` | crates/page_table/src/bits64.rs:13-27 | a translation depends only on the address modulo the index range |
| `PageRuns.StepCorrect` | crates/page_table/src/bits64.rs:81-111 | each call steps the flat map as its outcome says, and the outcome is one the flat map allows |
| `PageRuns.RunCorrect` | crates/page_table/src/bits64.rs:81-111 | so does every run of calls |
| `PageRuns.NewTable` | crates/page_table/src/bits64.rs:43-50 | a new table is in order and translates nothing |
| `PageRuns.FlatMapRefinement` | crates/page_table/src/bits64.rs:43-124 | from a new table of three or four levels every run of `map` and `unmap` refines one flat partial map, and `query` at any address is that map |
| `PageRegions.MapPagesCorrect` | crates/page_table/src/bits64.rs:137-192 | a successful `map_region` adds exactly the region; a failed one touches nothing outside it |
| `PageRegions.HugePagesInvisible` | crates/page_table/src/bits64.rs:137-192 | with or without huge pages a region gets the same addresses and flags, where both calls succeed |
| `PageRegions.UnmapPagesCorrect` | crates/page_table/src/bits64.rs:198-217 | unmapping pages that lie on top of a table gives the table back, and neither assertion fails |
| `PageRegions.UnmapStops` | crates/page_table/src/bits64.rs:198-217 | the loop removes whole pages up to where it stops, and the page that fails an assertion; no other translation changes |
| `PageRegions.UnmapEnds` | crates/page_table/src/bits64.rs:207-216 | it succeeds exactly if the region is whole pages, reports NotMapped exactly if these lead up to a hole, and panics exactly if they lead up to a page that sticks out |
| `PageRegions.UnmapRegionRestores` | crates/page_table/src/bits64.rs:137-217 | `unmap_region` after a successful `map_region` restores every translation, without error or panic |
| `PageFrames.ListIsReachable` | crates/page_table/src/bits64.rs:286-295 | `intrm_tables` lists exactly the tables a walk can pass, each once, also after failed calls |
| `PageFrames.OneLink` | crates/page_table/src/bits64.rs:286-295 | every listed table but the root hangs below exactly one entry, the root below none |
| `PageFrames.RefusedExactly` | crates/page_table/src/bits64.rs:81-95 | AlreadyMapped is returned exactly if a page of the same size or a lower table, even an emptied one, is in the place |
| `PageFrames.NoMemoryExactly` | crates/page_table/src/bits64.rs:323-351 | NoMemory is returned exactly if the supply fails within the tables that are missing on the way to the page; a successful call takes exactly those |
| `PageFrames.SucceedsExactly` | crates/page_table/src/bits64.rs:81-95 | `map` succeeds exactly if no page holds the address, no lower table is in the place and the supply gives every missing table |
| `PageFrames.UnmapUndoesMap` | crates/page_table/src/bits64.rs:81-111 | a 4K page mapped and unmapped again leaves all translations, but a 2M page in its place is then refused |
| `PageTable.PageTable64.TryNew` | crates/page_table/src/bits64.rs:43-50 | an empty table that owns its root and translates nothing, or NoMemory exactly if the supply has no frame |
| `PageTable.PageTable64.AllocFrame` | crates/page_table/src/bits64.rs:245-253 | takes the next frame of the supply, zeroed, or fails with NoMemory |
| `PageTable.PageTable64.NextTableMutOrCreate` | crates/page_table/src/bits64.rs:286-295 | the table below an entry, linking and listing a new one under an unused entry, or NoMemory or MappedToHugePage |
| `PageTable.PageTable64.GetEntryMut` | crates/page_table/src/bits64.rs:297-321 | refines the lookup walk |
| `PageTable.PageTable64.GetEntryMutOrCreate` | crates/page_table/src/bits64.rs:323-351 | refines the creating walk |
| `PageTable.PageTable64.Map` | crates/page_table/src/bits64.rs:81-95 | refines the `map` of the flat-map theorems, in place |
| `PageTable.PageTable64.Unmap` | crates/page_table/src/bits64.rs:100-111 | refines their `unmap` |
| `PageTable.PageTable64.Query` | crates/page_table/src/bits64.rs:117-124 | is the translation of the address |
| `PageTable.PageTable64.PickPageSize` | crates/page_table/src/bits64.rs:164-180 | a page to which both addresses are aligned and which fits the size, and no larger allowed one is and does |
| `PageTable.PageTable64.MapRegion` | crates/page_table/src/bits64.rs:137-192 | refines the region theorems, in place |
| `PageTable.PageTable64.UnmapRegion` | crates/page_table/src/bits64.rs:198-217 | refines the unmapping of a region, with its two assertions as a panic outcome |
| `PageTable.PageTable64.Drop` | crates/page_table/src/bits64.rs:383-389 | frees every reachable table exactly once |
| `Scheduling.ReschedPlaced` | modules/axtask/src/run_queue.rs:161-207 | putting the running task back and switching keeps every task in its one place |
| `Scheduling.LeavePlaced` | modules/axtask/src/run_queue.rs:112-128 | so does blocking or exiting |
| `Scheduling.UnblockPlaced` | modules/axtask/src/run_queue.rs:130-140 | so does unblocking any task |
| `Scheduling.AddTaskPlaced` | modules/axtask/src/run_queue.rs:32-36 | so does adding a new task |
| `Scheduling.UnblockAllPlaced` | modules/axtask/src/wait_queue.rs:210-215 | so does waking a whole queue |
| `Scheduling.WakeCommutes` | modules/axtask/src/run_queue.rs:103-106 | waking other tasks commutes with marking the exiting one |
| `TaskSystem.CasKeeps` | modules/axsync/src/mutex.rs:71-94 | a compare-exchange on the owner, strong or spuriously failing, keeps the invariant |
| `TaskSystem.TryLockKeeps` | modules/axsync/src/mutex.rs:103-119 | so does `try_lock` |
| `TaskSystem.TryLockExactly` | modules/axsync/src/mutex.rs:103-119 | in every interleaving `try_lock` takes the mutex exactly if nobody holds its guard, and changes nothing otherwise |
| `TaskSystem.WaitAcquireKeeps` | modules/axtask/src/wait_queue.rs:84-85 | so does taking the run-queue lock in `wait_until` |
| `TaskSystem.WaitEvalKeeps` | modules/axtask/src/wait_queue.rs:86-88 | so does evaluating the condition under it |
| `TaskSystem.WaitBlockKeeps` | modules/axtask/src/wait_queue.rs:89-92 | so does blocking with the lock held across the switch |
| `TaskSystem.UnlockSwapKeeps` | modules/axsync/src/mutex.rs:128-135 | so does giving up ownership before anyone is notified |
| `TaskSystem.UnlockWakeKeeps` | modules/axtask/src/wait_queue.rs:158-165 | so does the notification that follows |
| `TaskSystem.JoinKeeps` | modules/axtask/src/task.rs:137-141 | so does starting to join a task |
| `TaskSystem.ExitKeeps` | modules/axtask/src/run_queue.rs:94-108 | so does exiting: joiners and the collector wake, and the CPU switches away; the exit of the init task stops the machine |
| `TaskSystem.GcWaitKeeps` | modules/axtask/src/run_queue.rs:210-230 | so does the collector going to sleep |
| `TaskSystem.NapKeeps` | modules/axtask/src/run_queue.rs:143-155 | so does a sleep with a deadline |
| `TaskSystem.TimerFireKeeps` | modules/axtask/src/run_queue.rs:130-140 | so does its wake-up |
| `TaskSystem.SpawnKeeps` | modules/axtask/src/run_queue.rs:32-36 | so does a new task |
| `TaskSystem.YieldKeeps` | modules/axtask/src/run_queue.rs:58-63 | so does yielding |
| `TaskSystem.RunKeeps` | modules/axtask/src/run_queue.rs:24-208 | the invariant holds after every interleaving of these steps on any number of CPUs |
| `TaskSystem.OnePlace` | modules/axtask/src/run_queue.rs:94-207 | in every interleaving an ordinary task is Running and current on exactly one CPU, Ready and queued exactly once, or neither |
| `TaskSystem.MutualExclusion` | modules/axsync/src/mutex.rs:71-137 | in every interleaving, with any number of mutexes, at most one task holds a guard of a mutex, and the owner field names exactly that task |
| `TaskSystem.PanicsExactly` | modules/axsync/src/mutex.rs:71-137 | in every interleaving the assertion of `lock` fails exactly for a caller that held the guard when it called, and that of `force_unlock` fails for no guard that is dropped |
| `TaskSystem.NestedLock` | modules/axsync/src/mutex.rs:84-89 | a task that takes a free mutex and calls `lock` again panics |
| `TaskSystem.WaitersHaveHelp` | modules/axsync/src/mutex.rs:71-137 | no wake-up is lost: while a task sleeps on a mutex that mutex is owned, or an unlocker has yet to notify, or a contender that can run will retry |
| `MutexProgress.HelpArrives` | modules/axsync/src/mutex.rs:71-137 | in every interleaving the first sleeper on a free mutex can still come to own it by steps of calls already begun, if no idle task was switched away from inside an unlock |
| `MutexProgress.IdleAway` | modules/axsync/src/mutex.rs:128-136 | a run after which it cannot: an idle task, which runs only if nothing else is ready, was switched away from before its notification |
| `TaskSystem.JoinSafe` | modules/axtask/src/task.rs:137-141 | `join` returns only after the exit and with the code passed to it; the exit queue of an exited task is empty |
| `JoinHistory.JoinReturns` | modules/axtask/src/task.rs:137-141 | `join` returns the code that the task it was called with passed to its `exit`, both read off the calls made in the run |
| `JoinHistory.JoinExited` | modules/axtask/src/task.rs:137-141 | `join` of a task that has exited goes through without sleeping and returns its exit code |
| `JoinHistory.ExitCodeStays` | modules/axtask/src/task.rs:292-295 | from its `exit` on, the exit code of a task is the argument of that call |
| `JoinHistory.ExitWakesQueues` | modules/axtask/src/run_queue.rs:94-108 | an exit empties the queue of the joiners, takes the first waiter off the collector queue, and leaves other queues |
| `RunQueue.AxRunQueue.AddTask` | modules/axtask/src/run_queue.rs:32-36 | refines the placement step; the task pushed is in no queue |
| `RunQueue.AxRunQueue.UnblockTask` | modules/axtask/src/run_queue.rs:130-140 | refines unblocking; the push never meets a queued task |
| `RunQueue.AxRunQueue.Resched` | modules/axtask/src/run_queue.rs:161-174 | refines the switch |
| `RunQueue.AxRunQueue.YieldCurrent` | modules/axtask/src/run_queue.rs:58-63 | keeps every task in its one place |
| `RunQueue.AxRunQueue.BlockCurrent` | modules/axtask/src/run_queue.rs:112-128 | blocks the current task, puts it at the end of the wait queue and switches away |
| `RunQueue.AxRunQueue.NotifyOneLocked` | modules/axtask/src/wait_queue.rs:200-208 | the first waiter becomes ready; other queues stay |
| `RunQueue.AxRunQueue.NotifyAllLocked` | modules/axtask/src/wait_queue.rs:210-215 | all waiters become ready in order and the queue is empty |
| `RunQueue.AxRunQueue.ExitCurrent` | modules/axtask/src/run_queue.rs:94-108 | the init task empties the exited list and stops the machine; for others joiners and the first waiter of the collector queue wake, the task goes on the exited list and the CPU switches away; other queues stay |
| `LinkedList.List.InsertOnlyEntry` | crates/linked_list/src/unsafe_list.rs:111-126 | the list is that one entry |
| `LinkedList.List.InsertAfter` | crates/linked_list/src/unsafe_list.rs:210-231 | the sequence gains the entry behind the given one |
| `LinkedList.List.InsertBefore` | crates/linked_list/src/unsafe_list.rs:241-249 | the sequence gains the entry before the given one, also before the first |
| `LinkedList.List.PushBack` | crates/linked_list/src/unsafe_list.rs:137-146 | the sequence gains the entry at its end |
| `LinkedList.List.PushFront` | crates/linked_list/src/unsafe_list.rs:156-165 | the sequence gains the entry at its front |
| `LinkedList.List.Remove` | crates/linked_list/src/unsafe_list.rs:172-201 | the sequence loses that entry alone; removing the last one empties the list |
| `LinkedList.List.Front` | crates/linked_list/src/unsafe_list.rs:252-254 | first entry, or null |
| `LinkedList.List.Back` | crates/linked_list/src/unsafe_list.rs:257-259 | last entry, or null |
| `LinkedList.List.MoveNext` | crates/linked_list/src/unsafe_list.rs:455-471 | the cursor goes to the next entry, off the list after the last, and back onto the first |
| `LinkedList.List.MovePrev` | crates/linked_list/src/unsafe_list.rs:476-494 | the same backwards: off the list before the first entry, and back onto the last |
| `LinkedList.List.Iterate` | crates/linked_list/src/unsafe_list.rs:332-340 | iteration yields the entries in order and stops |
| `LinkedList.List.IterateBack` | crates/linked_list/src/unsafe_list.rs:342-348 | iteration from the back yields them in reverse and stops |
| `LinkedList.RunOne` | crates/linked_list/src/unsafe_list.rs:111-249 | each call acts on the sequence of entries as on a sequence |
| `LinkedList.Run` | crates/linked_list/src/unsafe_list.rs:111-249 | so does every run of calls that respects the safety contract |
| `Paths.PopChars` | crates/axfs_vfs/src/path.rs:26-34 | the character loop removes the last component and the slash before it, never the root slash |
| `Paths.PopComponent` | crates/axfs_vfs/src/path.rs:25-35 | the buffer then shows one component less |
| `Paths.PushComponent` | crates/axfs_vfs/src/path.rs:36-45 | the buffer then shows one component more |
| `Paths.Canonicalize` | crates/axfs_vfs/src/path.rs:19-52 | the result shows the components still open after reading the parts from left to right |
| `Paths.CanonicalParts` | crates/axfs_vfs/src/path.rs:19-52 | canonical text splits into its components again |
| `Paths.CanonicalIdempotent` | crates/axfs_vfs/src/path.rs:19-52 | no empty, dot or two-dot component is left, the result is absolute exactly if the path is, and canonicalizing again changes nothing |
| `RamFs.CreateTree` | crates/axfs_ramfs/src/dir.rs:120-142 | creation at any path keeps the tree: parent links name the one directory that holds a node |
| `RamFs.RemoveTree` | crates/axfs_ramfs/src/dir.rs:144-166 | so does removal |
| `RamFs.ForgetTree` | crates/axfs_ramfs/src/dir.rs:77-79 | so does the death of a node whose last handle is let go, after which parent links to it lead nowhere |
| `RamFs.LookupWalks` | crates/axfs_ramfs/src/dir.rs:81-99 | looking a path up is walking the parts between its slashes |
| `RamFs.ProcessWalks` | crates/axfs_ramfs/src/dir.rs:81-99 | two dots lead back to where the component before them started |
| `RamFs.CanonicalLookup` | crates/axfs_ramfs/src/dir.rs:81-99 | if a path leads to a node from the root, its canonical form leads to the same node |
| `RamFs.LookupExactly` | crates/axfs_ramfs/src/dir.rs:81-99 | a path leads somewhere exactly if its canonical form does and the path is passable: each empty, dot or two-dot part is met at a directory, and no two dots at the root |
| `RamFs.CanonicalFindsMore` | crates/axfs_ramfs/src/dir.rs:81-99 | the converse fails: `/..` in every tree, and `/a/..` in every tree without `a`, are not found, and the canonical form of both is the root |
| `RamFs.EveryRun` | crates/axfs_ramfs/src/dir.rs:44-176 | all three hold after every run of creations, removals and handles let go, in any directories |
| `RamFsEffects.Creates` | crates/axfs_ramfs/src/dir.rs:120-142 | after a successful creation the path leads to a new node, a file or an empty directory as asked, and every walk that does not take that entry goes where it went |
| `RamFsEffects.CreateAnswers` | crates/axfs_ramfs/src/dir.rs:120-142 | exactly when `create` returns each error, in terms of lookups; then nothing changes |
| `RamFsEffects.Removes` | crates/axfs_ramfs/src/dir.rs:144-166 | after a successful removal the path is not found, every walk that took the entry stops there, and every other goes where it went |
| `RamFsEffects.RemoveAnswers` | crates/axfs_ramfs/src/dir.rs:144-166 | exactly when `remove` returns each error, in terms of lookups; then nothing changes |
| `RamFsEffects.Forgets` | crates/axfs_ramfs/src/dir.rs:77-79 | a node that no directory holds can die; then two dots lead to it no more and all else stays |
| `RamFs.RamFileSystem.constructor` | crates/axfs_ramfs/src/dir.rs:21-27 | an empty root without a parent |
| `RamFs.RamFileSystem.CreateNodeIn` | crates/axfs_ramfs/src/dir.rs:44-56 | adds a node, or fails with AlreadyExists or Unsupported and changes nothing |
| `RamFs.RamFileSystem.RemoveNodeIn` | crates/axfs_ramfs/src/dir.rs:59-69 | removes a node, or fails with NotFound or DirectoryNotEmpty and changes nothing |
| `RamFs.RamFileSystem.ForgetNode` | crates/axfs_ramfs/src/dir.rs:14-32 | refines the death of a node that no directory holds |
| `RamFs.RamFileSystem.CreatePath` | crates/axfs_ramfs/src/dir.rs:120-142 | refines creation by path, with its errors |
| `RamFs.RamFileSystem.RemovePath` | crates/axfs_ramfs/src/dir.rs:144-166 | refines removal by path, with its errors |
| `Calendar.SplitSeconds` | ulib/c_libax/src/time.c:42-52 | floor quotient and remainder by the day and the weekday, for negative times too |
| `Calendar.SplitDays` | ulib/c_libax/src/time.c:54-74 | the 400-, 100-, 4- and 1-year cycles with their corrections at the last day |
| `Calendar.FindMonth` | ulib/c_libax/src/time.c:83-83 | the month of a year that begins in March, and the day of it |
| `Calendar.DateCorrect` | ulib/c_libax/src/time.c:76-88 | year, month, day and day of the year belong to the same day of the Gregorian calendar |
| `Calendar.DateOf` | ulib/c_libax/src/time.c:54-97 | so do those computed from a count of days |
| `Calendar.SecsToTm` | ulib/c_libax/src/time.c:29-104 | the date returned is valid and its Seconds Since the Epoch (section 4.16 of POSIX.1-2017 Base Definitions) are the argument; exactly when nothing is returned |
| `Calendar.DateUnique` | ulib/c_libax/src/time.c:29-104 | no other valid date has the same seconds |
| `SlabAllocator.LayoutToAllocator` | crates/slab_allocator/src/lib.rs:208-226 | the least class whose size covers both size and alignment; the buddy allocator exactly above 4096 bytes |
| `SlabAllocator.GrowKeeps` | crates/slab_allocator/src/slab.rs:26-33 | carving a chunk into blocks keeps the heap invariant |
| `SlabAllocator.PopKeeps` | crates/slab_allocator/src/slab.rs:35-55 | so does handing out a free block |
| `SlabAllocator.PushKeeps` | crates/slab_allocator/src/slab.rs:57-62 | so does taking one back |
| `SlabAllocator.LargeKeeps` | crates/slab_allocator/src/lib.rs:158-162 | so does a large allocation |
| `SlabAllocator.FreeLargeKeeps` | crates/slab_allocator/src/lib.rs:186-188 | so does freeing one |
| `SlabAllocator.AllocateKeeps` | crates/slab_allocator/src/lib.rs:135-164 | an allocation fails only if the buddy allocator does, and otherwise is live |
| `SlabAllocator.InvIsSafe` | crates/slab_allocator/src/lib.rs:135-190 | live allocations are disjoint from each other and from free blocks, lie in heap memory, and are aligned |
| `SlabAllocator.EveryRunSafe` | crates/slab_allocator/src/lib.rs:59-190 | this holds after every run of allocations, deallocations and added memory |
| `SlabAllocator.NoUnderflow` | crates/slab_allocator/src/lib.rs:229-255 | no subtraction of the byte accounting underflows |
| `SlabAllocator.GrowAccount` | crates/slab_allocator/src/slab.rs:26-33 | growing a class does not change the available bytes |
| `SlabAllocator.AllocateAccount` | crates/slab_allocator/src/lib.rs:253-255 | a successful allocation lowers the available bytes by exactly its class size, also when the class grows |
| `SlabAllocator.DeallocateAccount` | crates/slab_allocator/src/lib.rs:253-255 | deallocation raises them by exactly that |
| `SlabAllocator.AddMemoryAccount` | crates/slab_allocator/src/lib.rs:95-106 | added memory is available, byte for byte, and no memory is lost |
| `SlabAllocator.LiveAligned` | crates/slab_allocator/src/lib.rs:208-226 | alignments up to 4096, and all alignments of large requests, are met |
| `SlabAllocator.Misaligned` | crates/slab_allocator/src/lib.rs:208-226 | for every alignment above 4096 of a small request there is a new heap that hands out a misaligned block |
| `SlabHeap.FreeBlockList.constructor` | crates/slab_allocator/src/slab.rs:71-82 | the blocks of the chunk in ascending order |
| `SlabHeap.FreeBlockList.Pop` | crates/slab_allocator/src/slab.rs:92-98 | the first block, through its link word |
| `SlabHeap.FreeBlockList.Push` | crates/slab_allocator/src/slab.rs:100-104 | a new first block, linked to the old one |
| `SlabHeap.Slab.Grow` | crates/slab_allocator/src/slab.rs:26-33 | the blocks of the chunk, last first, in front of the list |
| `SlabHeap.Slab.Allocate` | crates/slab_allocator/src/slab.rs:35-55 | pops a block, after growing by a chunk if the list is empty |
| `SlabHeap.Slab.Deallocate` | crates/slab_allocator/src/slab.rs:57-62 | the block is first on the list |
| `SlabHeap.Slab.UsedBlocks` | crates/slab_allocator/src/slab.rs:22-24 | blocks that are not free |
| `SlabHeap.Heap.constructor` | crates/slab_allocator/src/lib.rs:59-85 | a new heap, under its three assertions |
| `SlabHeap.Heap.Allocate` | crates/slab_allocator/src/lib.rs:135-164 | refines allocation |
| `SlabHeap.Heap.Deallocate` | crates/slab_allocator/src/lib.rs:177-190 | refines deallocation |
| `SlabHeap.Heap.AddMemory` | crates/slab_allocator/src/lib.rs:95-106 | refines adding memory, under its two assertions |
| `SlabHeap.Heap.AvailableBytes` | crates/slab_allocator/src/lib.rs:229-255 | is the available bytes of the accounting lemmas |
| `CompletelyFair.TickGrows` | crates/scheduler/src/cfs.rs:43-63 | a tick never lowers a virtual runtime and raises it by at most 69, for every weight |
| `CompletelyFair.WeightsFall` | crates/scheduler/src/cfs.rs:22-28 | weights fall strictly with niceness, neighbours in a ratio between 1.19 and 1.30 |
| `CompletelyFair.NicerCostsMore` | crates/scheduler/src/cfs.rs:56-63 | the nicer a task, the more virtual time the same ticks cost |
| `CompletelyFair.CFSTask.SetPriority` | crates/scheduler/src/cfs.rs:71-77 | a new niceness leaves the virtual runtime unchanged |
| `CompletelyFair.CFSTask.Tick` | crates/scheduler/src/cfs.rs:83-85 | one more tick on the task, and the growth it can cause |
| `CompletelyFair.CFScheduler.AddTask` | crates/scheduler/src/cfs.rs:129-143 | files the task under the minimum and a new id; the minimum is again the first key |
| `CompletelyFair.CFScheduler.RemoveTask` | crates/scheduler/src/cfs.rs:145-159 | removes and returns what is filed under the key of the task: the task itself exactly if it is queued, possibly another one if it is not |
| `CompletelyFair.CFScheduler.PickNextTask` | crates/scheduler/src/cfs.rs:161-167 | removes and returns a task of least virtual runtime |
| `CompletelyFair.CFScheduler.PutPrevTask` | crates/scheduler/src/cfs.rs:169-174 | files the task under its virtual runtime and a new id; no entry is overwritten |
| `CompletelyFair.CFScheduler.TaskTick` | crates/scheduler/src/cfs.rs:176-180 | asks for a switch exactly if the virtual runtime is above the minimum |
| `CompletelyFair.CFScheduler.SetPriority` | crates/scheduler/src/cfs.rs:182-189 | accepts exactly niceness -20 to 19; ready tasks stay filed under their virtual runtime |
| `CompletelyFair.Start` | crates/scheduler/src/cfs.rs:129-167 | fresh tasks all added before the first pick are in a fair state |
| `CompletelyFair.RunTick` | crates/scheduler/src/cfs.rs:161-180 | a tick, followed by put-back and pick if it asks, charges the running task alone and keeps the state fair |
| `CompletelyFair.Reniced` | crates/scheduler/src/cfs.rs:182-189 | so does a new niceness of any task |
| `CompletelyFair.Run` | crates/scheduler/src/cfs.rs:129-190 | so does every run: no task is lost or doubled, the running one is least, and a task that keeps its niceness is charged one tick for each tick it ran |
| `CompletelyFair.FairSpread` | crates/scheduler/src/cfs.rs:129-190 | in a fair state all virtual runtimes lie within 69 of each other |
| `CompletelyFair.Shares` | crates/scheduler/src/cfs.rs:129-190 | in every run, tasks that keep their niceness get ticks in proportion to their weights, and the nicer of two no more than the other, up to a fixed bound |
| `Ratios.New` | crates/ratio/src/lib.rs:47-80 | the shift is the largest up to 32 that fits, trimming keeps the value, and the cast to 32 bits loses nothing |
| `Ratios.NoOverflow` | crates/ratio/src/lib.rs:62-62 | the 64-bit numerator does not wrap around |
| `Ratios.Nearest` | crates/ratio/src/lib.rs:62-62 | the multiplier is within half a unit of the true ratio |
| `Ratios.ProductError` | crates/ratio/src/lib.rs:107-109 | products are within v / 2^(s+1) of the true product |
| `Ratios.MulCorrect` | crates/ratio/src/lib.rs:107-125 | for v below 2^s `mul_trunc` is within one of the true floor, and `mul_round` is exact whenever the denominator divides v times the numerator |
| `Ratios.MulRounds` | crates/ratio/src/lib.rs:107-125 | `mul_trunc` rounds the product with the multiplier down, to the exact floor if the multiplier meets the ratio; `mul_round` rounds it to the nearest |
| `Disk.RamDisk.constructor` | crates/driver_block/src/ramdisk.rs:35-40 | the bytes given, zero-padded to whole blocks |
| `Disk.RamDisk.ReadBlock` | crates/driver_block/src/ramdisk.rs:69-79 | copies whole blocks, and fails exactly off the end or for other lengths |
| `Disk.RamDisk.WriteBlock` | crates/driver_block/src/ramdisk.rs:81-91 | splices whole blocks into the data, and fails in the same cases |
| `Disk.Cursor.SetPosition` | modules/axfs/src/dev.rs:34-37 | block and offset denote the position, with the offset below 512 |
| `Disk.Cursor.ReadOne` | modules/axfs/src/dev.rs:40-64 | a slice of the image up to the end of a block; fails exactly behind the end of the disk |
| `Disk.Cursor.WriteOne` | modules/axfs/src/dev.rs:67-91 | a splice into the image up to the end of a block, all other bytes kept |
| `Disk.Cursor.Read` | modules/axfs/src/fs/fatfs.rs:200-216 | a slice of the image of any length; past the end it stops there with an error |
| `Disk.Cursor.Write` | modules/axfs/src/fs/fatfs.rs:218-233 | a splice into the image of any length; past the end it stops there with an error |
| `Disk.Cursor.Seek` | modules/axfs/src/fs/fatfs.rs:238-253 | the position asked for, or an error and no move if it is not a 64-bit value |
| `Disk.WriteThenRead` | modules/axfs/src/fs/fatfs.rs:200-253 | seek, write, seek back and read return the data and leave all other bytes unchanged |
| `GuestMemory.TargetInStep` | apps/hv/src/x64.rs:47-78 | guest addresses of a region go to host addresses in step from its host start, modulo 2^64 |
| `GuestMemory.MapTo` | apps/hv/src/x64.rs:80-88 | maps the pages of a region in order and stops at the first that fails; a region whose end wraps around maps nothing |
| `GuestMemory.UnmapTo` | apps/hv/src/x64.rs:91-98 | unmaps exactly the pages of a mapped region, without error; a region whose end wraps around unmaps nothing |
| `GuestMemory.NeighboursSuffice` | apps/hv/src/x64.rs:136-148 | testing the two neighbours is testing all regions, and what it comes to for a region whose end wraps around |
| `GuestMemory.GuestPhysMemorySet.TestFreeArea` | apps/hv/src/x64.rs:136-148 | accepts a non-empty region whose end does not wrap exactly if it is disjoint from every stored one; which wrapping ones are noticed |
| `GuestMemory.GuestPhysMemorySet.MapRegion` | apps/hv/src/x64.rs:150-166 | keeps regions disjoint and mapped as they say exactly if it does not store a region whose end wraps, which then overlaps another or has its first page unmapped; when exactly it leaves pages of no region behind |
| `GuestMemory.GuestPhysMemorySet.Clear` | apps/hv/src/x64.rs:168-173 | unmaps every region without a panic and empties both maps |
| `GuestMemory.LeftBehind` | apps/hv/src/x64.rs:150-173 | a two-page region whose second page finds the table full: its first page outlives clearing the set |
| `GuestMemory.LastPage` | apps/hv/src/x64.rs:150-166 | the region of the last page is stored and not mapped |
| `GuestMemory.MapAll` | apps/hv/src/x64.rs:150-166 | after any run of successful calls every mapped page belongs to a region, wherever the table would have given out in each |
| `GuestMemory.TranslatesByRegion` | apps/hv/src/x64.rs:74-88 | each page is translated exactly as the one region that contains it says |
| `Numerals.OneNumeral` | ulib/c_libax/src/stdlib.c:225-242 | a string has one reading as white space, sign, prefix and digits |
| `Numerals.CutoffTest` | ulib/c_libax/src/stdlib.c:244-266 | the cutoff test is the exact test for leaving the range |
| `Numerals.ReadDigits` | ulib/c_libax/src/stdlib.c:244-267 | adds up the digits without overflow, or reports that their value is beyond the limit |
| `Numerals.ReadHeader` | ulib/c_libax/src/stdlib.c:225-242 | white space, sign, hexadecimal prefix and the base shown by the numeral |
| `Numerals.Strtoll` | ulib/c_libax/src/stdlib.c:209-279 | the value of the digits clamped to `long long`, the end pointer and the error; the results that section 7.22.1.4 of ISO/IEC 9899:2011 asks for exactly if the numeral is not a bare `0x` |
| `Numerals.Strtoull` | ulib/c_libax/src/stdlib.c:281-347 | the value modulo 2^64, or ULLONG_MAX beyond it, the end pointer and the error; as section 7.22.1.4 asks exactly if the numeral is not a bare `0x` |
| `Numerals.SignedConforms` | ulib/c_libax/src/stdlib.c:209-279 | the same of `strtoll` |
| `Numerals.UnsignedConforms` | ulib/c_libax/src/stdlib.c:281-347 | the code reads as the standard does exactly if no hexadecimal prefix stands without a digit behind it |
| `Numerals.OneSigned` | ulib/c_libax/src/stdlib.c:209-279 | the standard asks for one result |
| `Numerals.OneUnsigned` | ulib/c_libax/src/stdlib.c:281-347 | the standard asks for one result |
| `Numerals.BareResult` | ulib/c_libax/src/stdlib.c:235-239 | at every bare prefix the standard asks for zero and an end behind it, the code ends at the start |
| `Numerals.BarePrefixExample` | ulib/c_libax/src/stdlib.c:235-239 | `0x` in base 16 converts nothing, where the standard ends behind the zero |
| `Printing.Gadget.Putchar` | ulib/c_libax/src/printf.c:325-342 | counts every character and stores those that fit |
| `Printing.Gadget.AppendTermination` | ulib/c_libax/src/printf.c:344-356 | the buffer is the text, cut to what fits before its terminator |
| `Printing.FillDigits` | ulib/c_libax/src/printf.c:548-555 | the digits in reverse, as far as the buffer goes |
| `Printing.OutRev` | ulib/c_libax/src/printf.c:433-456 | field padding before or behind the reversed buffer |
| `Printing.BuildText` | ulib/c_libax/src/printf.c:460-523 | sign, prefix, leading zeros and digits in the order they are read |
| `Printing.PrintIntegerFinalization` | ulib/c_libax/src/printf.c:460-526 | prints the text of the layout |
| `Printing.PrintInteger` | ulib/c_libax/src/printf.c:529-558 | prints the text of the layout for every value, base, precision, width and flag |
| `PrintfStandard.NumberAgrees` | ulib/c_libax/src/printf.c:460-558 | prefix, zeros and digits are those of section 7.21.6.1 of ISO/IEC 9899:2011 if they fit the buffer, and so is the sign if a place is left |
| `PrintfStandard.PrintsStandard` | ulib/c_libax/src/printf.c:460-558 | for d, u, o, x and X the text is the one that section asks for exactly if it fits the buffer without its spaces, or only a space is lost that the padding puts back |
| `RoundTrip.DigitsValue` | ulib/c_libax/src/printf.c:548-555 | printed digits stand for the value |
| `RoundTrip.ReadParts` | ulib/c_libax/src/stdlib.c:225-267 | a text made of white space, sign, prefix, digits and padding is read back as those parts |
| `RoundTrip.ReadBlank` | ulib/c_libax/src/printf.c:460-558 | a text without digits, as a zero with precision 0 prints, is read as zero |
| `RoundTrip.UnsignedRoundTrip` | ulib/c_libax/src/printf.c:460-558 | printed and read with `strtoull`, a value returns exactly if it is zero or its hexadecimal prefix kept its zero |
| `RoundTrip.SignedRoundTrip` | ulib/c_libax/src/printf.c:460-558 | printed and read with `strtoll`, a value returns exactly if it is zero or kept its sign and the zero of its prefix |
| `RoundTrip.LostExamples` | ulib/c_libax/src/printf.c:501-523 | one printed to 31 and minus one printed to 32 digits, which fill the buffer, are read back as other values |
| `RoundTrip.PlainIntact` | ulib/c_libax/src/printf.c:460-558 | plain formats lose nothing: 64 bits take at most 22 digits |
| `RoundTrip.PrintThenStrtoll` | ulib/c_libax/src/printf.c:1242-1246 | plain signed formats and `strtoll` return the same integer and consume the whole text |
| `RoundTrip.PrintThenStrtoull` | ulib/c_libax/src/printf.c:1268-1271 | plain unsigned formats and `strtoull` do too |
| `LinkedList.List.constructor` | crates/linked_list/src/unsafe_list.rs:99-101 | an empty list |
| `SlabHeap.Slab.constructor` | crates/slab_allocator/src/slab.rs:10-16 | as many blocks as fit the memory, in ascending order |
| `CompletelyFair.CFSTask.constructor` | crates/scheduler/src/cfs.rs:33-41 | a fresh task at virtual runtime zero |
| `CompletelyFair.CFScheduler.constructor` | crates/scheduler/src/cfs.rs:111-117 | an empty queue without a minimum |
| `Disk.Cursor.constructor` | modules/axfs/src/dev.rs:14-21 | a cursor at position zero |
| `GuestMemory.GuestPhysMemorySet.constructor` | apps/hv/src/x64.rs:125-130 | no regions and no mapped page |
| `Printing.PadZeros` | ulib/c_libax/src/printf.c:468-481 | leading zeros up to the field width or the precision, within the buffer |
| `Printing.PrintPrefix` | ulib/c_libax/src/printf.c:490-513 | takes back padding zeros and writes the prefix, as far as the buffer goes |
| `Printing.PrintSign` | ulib/c_libax/src/printf.c:515-523 | a sign or space, if the buffer has room |

## Left out

- PageMap.MapCorrect: does not cover a physical address outside the entry's address field, nor flags that make no present leaf, such as none at all on RISC-V; the page size is one of 4K, 2M and 1G, as the Rust type has it.
- PageTable.PageTable64.Map: the same.
- PageTable.PageTable64.MapRegion: the same, for the whole physical range.
- CompletelyFair.CFScheduler.AddTask: for a task that has already run the key is the minimum but the virtual runtime is not, so ready tasks are said to be filed under their virtual runtime only if the task is fresh.
- TaskSystem.PanicsExactly: is about the two assertions of the mutex. A contended `lock` also meets those of `block_current`, which fail for an idle caller and, with feature `preempt`, for one that has preemption disabled; preemption counters are not modelled.
- Disk.Cursor.ReadOne: does not model the 64-bit wrap-around of positions in the last block of the address space.
- Disk.Cursor.WriteOne: the same.
- The creation of the collector task when the run queue is made; runs start from any placement.
- Timed waits (`wait_timeout`, `wait_timeout_until`), `notify_task` and the flags that cancel the other event: without timed waits `cancel_events` has nothing to do.
- Preemption counters, interrupts, context-switch assembly, and virtual CPU tasks.
- Binary (base 2) round trips: 64 digits do not fit the 32-character buffer.
- The alternative forms of `%p` and `%b`, which the C standard does not have, are described by the layout of `print_integer` alone.
- Virtual addresses are taken modulo the index range; that hardware also checks the bits above it is not modelled.
- Floating-point printing, the format-string loop and `%n`; `strtol` and `strtoul`, which repeat `strtoll` and `strtoull`.
- `Ratio::inverse`, `walk` of the page table, guest page-table creation, x86 and EPT entries, the hypervisor configuration of AArch64 entries.
- The buddy and bitmap allocators, FIFO and round-robin schedulers, mount points, file contents of the RAM filesystem, `read_dir`.
- Drivers, network, boot code, logging, build scripts and the other C library functions.
