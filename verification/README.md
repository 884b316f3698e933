# Pintos kernel and simulated scheduler

Dafny models of the parts of the Pintos kernel under `Lab1/.pintos/src` that are hardest to get right, and of the
scheduler in `Assignment5`, with proofs of what they are for. A component comes as a model (states, functions and the
lemmas about them, over all inputs or all runs) and, where the C code updates things in place, as classes and methods
with the same loops and branches whose contracts tie every result and new state to the model.

- **64-bit division from a 32-bit divide** (`Arithmetic.dfy`): quotients are exact, no divide instruction traps, and
  exactly when the signed quotient and the 32-bit remainders are the mathematical ones.
- **Threads, semaphores, locks, condition variables** (`KernelModel.dfy`, `Kernel*.dfy`): a state machine over atomic
  steps with Mesa-style wakeups, in which a woken thread can be overtaken. `KernelSched`, `KernelLock`, `KernelSema`,
  `KernelWait` and `KernelSignal` each carry one part of the invariant, `KernelRuns` puts them together over runs,
  `KernelTheorems`, `KernelRegister` and `KernelCalls` draw the conclusions, the last for whole calls from call to
  return, and `KernelSteps` says what single events do. `KernelList.dfy` is the kernel's intrusive doubly linked
  list, and `Kernel.dfy` the imperative kernel that keeps threads and waiters on such lists, one link element each,
  proved to take exactly these steps.
- **Allocator** (`Malloc.dfy`, `MallocProofs.dfy`, `MallocRuns.dfy`, `Allocator.dfy`): arenas, free lists and page pools
  agree with a set of live blocks over every run of malloc, realloc, free and page requests by others.
- **File system** (`FreeMap.dfy`, `InodeIO.dfy`, `FileSys.dfy`, `FileSysRuns.dfy`, `FileSysCalls.dfy`, `FileData.dfy`,
  `Volume.dfy`, `Directory.dfy`):
  sector-by-sector I/O refines a flat byte array, a directory of 20-byte entries refines a map, the free map refines
  disjoint extents, and sectors are released at the last close.
- **Page tables and program loader** (`TwoLevel.dfy`, `Pagedir.dfy`, `PageTable.dfy`, `LoaderModel.dfy`,
  `Executable.dfy`, `ElfSpec.dfy`, `ExecutableMeans.dfy`, `Loader.dfy`): two-level tables refine a map from pages to
  mappings, a loaded executable is exactly the image that the bytes of the file specify, and which files load is known
  exactly.
- **Sorting, printing, archive headers** (`HeapModel.dfy`, `HeapSort.dfy`, `PrintfModel.dfy`, `PrintfDigits.dfy`,
  `PrintfMeans.dfy`, `Printf.dfy`, `UstarModel.dfy`, `UstarMeans.dfy`, `Ustar.dfy`).
- **Simulated scheduler** (`SimModel.dfy`, `SimCalls.dfy`, `ThreadList.dfy`, `SimScheduler.dfy`): first come first served and round
  robin over a hand-written linked list.

`Common.dfy` holds options, word sizes and a few facts about division.

Where the code does not do what its comments or the standards say, the model follows the code and a lemma gives the
exact condition under which the promise is kept:

- `format_integer` prints max(width, body) characters unless the field is padded twice, which `%0*d` with a negative
  width asks for: the flags are reconciled before the width is known (`PrintfModel.WidthLaw`, `PaddedTwice`,
  `PaddedTwiceExample`). The precision counts commas as digits and stops at the end of the 64-byte buffer, so grouped
  or above 63 it may print fewer digits than it asks for (`PrintfDigits.PrecisionLaw`, `PrecisionMissed`).
- `sdiv64` truncates toward zero except for INT64_MIN / -1; `umod64` and `smod64` return 32 bits
  (`Arithmetic.SDiv64`, `UModExact`, `SModExact`).
- `filesys_create` leaks the data extent when there is room for the file but no directory entry for it
  (`FileSysRuns.CreateFails`, `CreateLeaks`).
- `io_complete` starts a thread on an idle processor without resetting `ticks_on_cpu`, so its first quantum is cut
  short by the ticks the previous thread left (`SimModel.PreemptedAfter`, `InheritsWhen`, `ShortQuantum`).
- `list_insert_end` on an empty list returns a node that is on no list (`ThreadList.List.InsertEnd`).
- `validate_segment` refuses a segment that ends exactly at PHYS_BASE, although user space ends there
  (`LoaderModel.SegmentIsValid`, `TopByteRefused`).

## Model

| member | source | states |
|---|---|---|
| Arithmetic.UDiv64 | Lab1/.pintos/src/lib/arithmetic.c:77-127 | for all 64-bit n and d the result is floor(n/d); a divide error happens for d = 0 and for nothing else, so no `divl` on the way has a quotient of 2^32 or more |
| Arithmetic.DivideByWord | Lab1/.pintos/src/lib/arithmetic.c:79-87 | the two-digit long division by a 32-bit divisor neither traps nor loses a carry |
| Arithmetic.DivideByLong | Lab1/.pintos/src/lib/arithmetic.c:88-126 | normalise, estimate, correct: the quotient by a divisor of 2^32 or more, with every intermediate value in range |
| Arithmetic.LongDivision | Lab1/.pintos/src/lib/arithmetic.c:79-87 | the remainder of the high digit keeps the second `divl` quotient below 2^32, and the two partial quotients add up to the whole one |
| Arithmetic.NormaliseDivisor | Lab1/.pintos/src/lib/arithmetic.c:92-101 | after the shift the divisor fits 64 bits and its high word has its top bit set |
| Arithmetic.TrialQuotient | Lab1/.pintos/src/lib/arithmetic.c:101-110 | the trial `divl` never traps, and shifting its result gives the quotient by the truncated divisor |
| Arithmetic.EstimateWithinOne | Lab1/.pintos/src/lib/arithmetic.c:94-119 | the estimate is floor(n/d) or one more, the half that the comment in the source leaves open included |
| Arithmetic.Correction | Lab1/.pintos/src/lib/arithmetic.c:111-126 | one comparison tells the two estimates apart, and the subtraction and the product in it do not wrap |
| Arithmetic.Nlz | Lab1/.pintos/src/lib/arithmetic.c:41-73 | the count of leading zeros: shifting by it brings the top bit into bit 31 and nothing beyond |
| Arithmetic.SDiv64 | Lab1/.pintos/src/lib/arithmetic.c:139-146 | the result truncates toward zero (section 6.5.5 of ISO C99) exactly when the pair is not INT64_MIN / -1, which wraps to INT64_MIN |
| Arithmetic.SignedDivision | Lab1/.pintos/src/lib/arithmetic.c:139-146 | from magnitudes and signs to the truncated quotient and the remainder with the sign of the dividend, and the one exception |
| Arithmetic.UMod64 | Lab1/.pintos/src/lib/arithmetic.c:131-135 | the low 32 bits of the remainder |
| Arithmetic.SMod64 | Lab1/.pintos/src/lib/arithmetic.c:150-154 | the low 32 bits of the truncated remainder, read as signed |
| Arithmetic.UModExact | Lab1/.pintos/src/lib/arithmetic.c:131-135 | the 32-bit result is the whole remainder for every dividend if and only if d <= 2^32 |
| Arithmetic.SModExact | Lab1/.pintos/src/lib/arithmetic.c:150-154 | the 32-bit result is the whole remainder for every dividend if and only if the magnitude of d is at most 2^31 |
| KernelTheorems.ListsAreExclusive | Lab1/.pintos/src/threads/thread.c:259-361 | in every run a thread other than idle is ready iff it is on the ready list, once; it is blocked iff it is on a wait list, on exactly one and once: its list element is never linked twice |
| KernelTheorems.BoundedWait | Lab1/.pintos/src/threads/thread.c:529-606 | the thread at position k of the ready list is dispatched by exactly the k+1st call of schedule from there |
| KernelTheorems.NoPanic | Lab1/.pintos/src/threads/thread.c:259-289 | no assertion of the modelled code fires in any run: thread_unblock finds a blocked thread, the lock assertions hold, and a thread that gives up the processor always has a successor |
| KernelTheorems.NeverStuck | Lab1/.pintos/src/threads/thread.c:592-606 | a thread inside an operation can always take its next step |
| KernelTheorems.NoLostWakeup | Lab1/.pintos/src/threads/semaphore.c:68-103 | in every run value = initial + ups - downs, and while threads wait the value is at most the number of woken threads that have not yet retried, so a free unit with waiters has a ready thread coming for it |
| KernelSema.FreeUnitIsComing | Lab1/.pintos/src/threads/semaphore.c:68-103 | names that thread: woken, off the wait list, about to retry, and ready or running, even after a third thread stole a unit |
| KernelSema.SemaKeeps | Lab1/.pintos/src/threads/semaphore.c:68-103 | the counting invariant is kept by every step of every interleaving |
| KernelTheorems.MutualExclusion | Lab1/.pintos/src/threads/lock.c:57-102 | in every run the lock's semaphore value plus the number of threads between semaphore_down and the increment in semaphore_up is 1, and a non-null holder is that one thread |
| KernelLock.LockKeeps | Lab1/.pintos/src/threads/lock.c:76-102 | each step moves every thread legally between outside, owning the unit, holding, and releasing |
| KernelTheorems.WaitReturns | Lab1/.pintos/src/threads/condvar.c:74-88 | condvar_wait returns only with the lock held and after its own semaphore was upped once; nothing still refers to that semaphore |
| KernelTheorems.SignalIsNotLost | Lab1/.pintos/src/threads/condvar.c:74-110 | a registered waiter is listed, or has exactly one signaller about to up it, or was upped and finds its unit: a signal that comes before it sleeps is not lost |
| KernelRegister.RegisteredBeforeRelease | Lab1/.pintos/src/threads/condvar.c:74-88 | in every reachable state a thread inside condvar_wait is either still to register, with the lock held, or its semaphore is initialised and its waiter is on a condition variable of that lock or was popped off it: so at the release and ever after |
| KernelTheorems.SignalsAreFifo | Lab1/.pintos/src/threads/condvar.c:81-109 | in every run the waiters registered are those released, in that order, followed by those still listed |
| KernelTheorems.SignalReleasesFirst | Lab1/.pintos/src/threads/condvar.c:99-110 | a signal with waiters releases the longest-registered one and no other |
| KernelTheorems.BroadcastReleasedAll | Lab1/.pintos/src/threads/condvar.c:120-129 | when condvar_broadcast finds the list empty, every waiter present at the call has been upped once |
| KernelTheorems.BroadcastTerminates | Lab1/.pintos/src/threads/condvar.c:120-129 | each step of the broadcasting thread leaves exactly one step less to do, and no other thread or interrupt adds any |
| KernelCalls.AcquireReturns | Lab1/.pintos/src/threads/lock.c:76-85 | over every run, when a thread returns from lock_acquire it is the holder of the lock and nobody else is inside |
| KernelCalls.ReleaseReturns | Lab1/.pintos/src/threads/lock.c:92-102 | when it returns from lock_release the lock has its unit back, no holder and nobody inside |
| KernelCalls.WaitReturnsUpped | Lab1/.pintos/src/threads/condvar.c:74-88 | when it returns from condvar_wait it holds the lock; the waiter it set up was registered on that condition variable, has been upped once and is off the list |
| KernelCalls.SignalReturns | Lab1/.pintos/src/threads/condvar.c:99-110 | when it returns from condvar_signal the waiter that was first at the call has been upped, by this call, and it alone has left the list; with no waiter nothing was done |
| KernelCalls.BroadcastReturns | Lab1/.pintos/src/threads/condvar.c:120-129 | when it returns from condvar_broadcast every waiter present at the call has been upped once by this call and the list is empty |
| KernelCalls.SemaphoreReturns | Lab1/.pintos/src/threads/semaphore.c:68-103 | semaphore_down has taken one unit by its return, and semaphore_up has given one |
| KernelCalls.CallCounts | Lab1/.pintos/src/threads/semaphore.c:68-103 | of every call and every semaphore: how many units the caller takes and gives between call and return, exactly, whatever other threads and interrupts do meanwhile |
| KernelCalls.CallHolds | Lab1/.pintos/src/threads/lock.c:76-102 | of every call and every lock: whether the caller holds it at the return |
| KernelCalls.CallEmpties | Lab1/.pintos/src/threads/condvar.c:99-129 | the list of waiters that a signal or broadcast leaves |
| KernelSteps.YieldMeans | Lab1/.pintos/src/threads/thread.c:347-361 | the running thread, unless idle, goes behind all that are ready and the first of them runs; nothing else changes |
| KernelSteps.ExitMeans | Lab1/.pintos/src/threads/thread.c:326-343 | the running thread is gone and the first ready thread, or the idle thread, runs |
| KernelSteps.SpawnMeans | Lab1/.pintos/src/threads/thread.c:200-248 | a thread with a number never used before is ready, behind all others |
| KernelSteps.IrqMeans | Lab1/.pintos/src/threads/semaphore.c:89-103 | an up from an interrupt handler: one unit more, the first waiter off the list and ready behind all others |
| KernelSteps.UpMeans | Lab1/.pintos/src/threads/semaphore.c:89-103 | the same for a thread |
| KernelSteps.TakeMeans | Lab1/.pintos/src/threads/semaphore.c:68-81 | with a unit to take semaphore_down takes it and the thread runs on |
| KernelSteps.SleepMeans | Lab1/.pintos/src/threads/semaphore.c:68-81 | without one the thread is last on the wait list and blocked, the next one runs, and it will test the value again |
| KernelSteps.IdleMeans | Lab1/.pintos/src/threads/thread.c:425-470 | the idle thread records itself, then blocks without being on any list |
| KernelSteps.MayCall | Lab1/.pintos/src/threads/lock.c:76-102 | a thread may acquire a lock iff it does not hold it, release it iff it does, and use a condition variable iff it holds its lock |
| KernelRuns.Reachable | Lab1/.pintos/src/threads/thread.c:141-153 | the whole invariant holds in every state of every run of threads, interrupts, semaphores, locks and condition variables |
| KernelSched.SchedKeeps | Lab1/.pintos/src/threads/thread.c:259-361 | the scheduler invariant is kept by every step |
| KernelWait.WaitKeeps | Lab1/.pintos/src/threads/condvar.c:74-88 | each waiter goes through initialised, registered, asleep, woken, done in that order, with a semaphore only its owner waits on |
| KernelSignal.SignalKeeps | Lab1/.pintos/src/threads/condvar.c:99-129 | the signalling invariant is kept by every step |
| Kernel.Machine.NextThreadToRun | Lab1/.pintos/src/threads/thread.c:529-536 | pops the front of the linked ready list, or returns the idle thread |
| Kernel.Machine.SwitchThreads | Lab1/.pintos/src/threads/thread.c:555-606 | schedule with its tail: the next thread runs |
| Kernel.Machine.ThreadBlock | Lab1/.pintos/src/threads/thread.c:259-267 | the running thread is blocked and the next one runs |
| Kernel.Machine.ThreadUnblock | Lab1/.pintos/src/threads/thread.c:278-289 | a blocked thread whose list element is on no list goes to the back of the ready list |
| Kernel.Machine.ThreadYield | Lab1/.pintos/src/threads/thread.c:347-361 | the running thread, unless idle, goes to the back of the ready list |
| Kernel.Machine.ThreadExit | Lab1/.pintos/src/threads/thread.c:326-343 | the running thread is gone and the next one runs |
| Kernel.Machine.ThreadCreate | Lab1/.pintos/src/threads/thread.c:200-248 | a new thread with a new number is ready; without a page for it there is no number (TID_ERROR) and nothing changes |
| Kernel.Machine.SemaphoreDownTurn | Lab1/.pintos/src/threads/semaphore.c:68-81 | one turn of the loop: take a unit, or join the wait list and sleep |
| Kernel.Machine.SemaphoreUp | Lab1/.pintos/src/threads/semaphore.c:89-103 | wakes the first waiter and counts a unit |
| Kernel.Machine.CondvarRegister | Lab1/.pintos/src/threads/condvar.c:80-86 | on the linked lists: a waiter that is on none of them, with a fresh semaphore, becomes the last of this one, and no other list changes |
| Kernel.Machine.CondvarPop | Lab1/.pintos/src/threads/condvar.c:99-110 | on the linked lists: the element after the header is the longest-registered waiter; it leaves, and no other list changes |
| Kernel.Machine.CondvarInit | Lab1/.pintos/src/threads/condvar.c:46-50 | a new condition variable has an empty list, and no other list changes |
| Kernel.Machine.RunStep | Lab1/.pintos/src/threads/thread.c:592-606 | the imperative kernel, with its threads and waiters on linked lists, takes in any state satisfying the invariant exactly the step of the state machine and keeps the invariant; the invariant is what shows every element it links to be on no list |
| Kernel.Machine.Disturb | Lab1/.pintos/src/threads/thread.c:259-361 | the same for preemption, interrupts, exit and thread creation |
| Kernel.Machine.Begin | Lab1/.pintos/src/threads/condvar.c:74-129 | the imperative kernel lays out the steps of each call as the state machine does, reading the waiters of a broadcast off the linked list |
| KernelList.Links.Elements | Lab1/.pintos/src/lib/kernel/list.c:60-110 | walking a list from its beginning to its end visits its elements in order |
| Kernel.NotRegistered | Lab1/.pintos/src/threads/condvar.c:80-86 | a waiter whose semaphore is not yet initialised is on no condition variable |
| Kernel.Unlisted | Lab1/.pintos/src/threads/thread.c:259-289 | the element of a thread that is neither ready nor blocked is on no list, so that list_push_back may link it |
| Kernel.WaiterUnlisted | Lab1/.pintos/src/threads/condvar.c:80-86 | and so is the element of a waiter not yet registered |
| Kernel.StartsRun | Lab1/.pintos/src/threads/thread.c:123-153 | the machine that thread_start leaves, given semaphores, locks and condition variables, is one that a run starts from |
| KernelList.Links.PushBack | Lab1/.pintos/src/lib/kernel/list.c:169-221 | with all lists threaded through the same elements: an element on no list becomes the last of one and every other list is intact |
| KernelList.Links.PopFront | Lab1/.pintos/src/lib/kernel/list.c:249-266 | the first element leaves its list, is then on none, and every other list is intact |
| KernelList.Links.Empty | Lab1/.pintos/src/lib/kernel/list.c:310-314 | the header points at the trailer exactly when the list is empty |
| KernelList.PushKeeps | Lab1/.pintos/src/lib/kernel/list.c:169-178 | linking an element before a trailer keeps every row of elements doubly linked, because no element is on two lists |
| KernelList.PopKeeps | Lab1/.pintos/src/lib/kernel/list.c:249-266 | unlinking the first element keeps every row doubly linked |
| Malloc.BlockToArena | Lab1/.pintos/src/threads/malloc.c:252-279 | block_to_arena undoes arena_to_block and its alignment assertions hold |
| Malloc.BlocksApart | Lab1/.pintos/src/threads/malloc.c:270-279 | different blocks of an arena do not overlap |
| MallocRuns.MallocGives | Lab1/.pintos/src/threads/malloc.c:88-149 | a block that was not in use, of at least the size asked for; every other block stays in use with its size, and the invariant holds |
| MallocRuns.MallocTight | Lab1/.pintos/src/threads/malloc.c:88-149 | the block is of the first size that is enough; when none is, it is less than a page longer than asked for |
| MallocRuns.MallocFails | Lab1/.pintos/src/threads/malloc.c:95-131 | a null pointer exactly for size 0, or when no run of free pages is long enough for what has to be allocated |
| MallocRuns.FreeTakesBack | Lab1/.pintos/src/threads/malloc.c:209-249 | that block and no other leaves use, and the invariant holds |
| MallocRuns.FullIsIdle | Lab1/.pintos/src/threads/malloc.c:228-240 | the assertion in free: the count never passes the number of blocks, and at that number all blocks of the arena are free, so none in use is lost with it |
| MallocRuns.FreeUndoesMalloc | Lab1/.pintos/src/threads/malloc.c:88-249 | freeing a block straight after malloc returned it restores the heap, the free lists and the page pool exactly |
| MallocRuns.ReallocTrades | Lab1/.pintos/src/threads/malloc.c:189-205 | success trades the old block for a new one, failure keeps the old one, size 0 frees it |
| MallocRuns.ReallocFails | Lab1/.pintos/src/threads/malloc.c:189-205 | realloc returns null exactly for a size of zero or when malloc would |
| MallocRuns.EventMeans | Lab1/.pintos/src/threads/malloc.c:88-249 | what each request leaves in use |
| MallocRuns.NextKeeps | Lab1/.pintos/src/threads/malloc.c:71-249 | malloc, free, realloc and page requests by other clients all keep the invariant: free_cnt counts the arena's blocks on the free list, the other blocks are in use, used pages are exactly those of arenas and other clients |
| MallocRuns.AllReturned | Lab1/.pintos/src/threads/palloc.c:72-141 | over every run: once every block is freed and every page returned, heap and page pool are back exactly where they started, so each page went back exactly once |
| MallocRuns.ArenaHasLive | Lab1/.pintos/src/threads/malloc.c:228-240 | every arena that survives has a block in use |
| MallocRuns.PiecesApart | Lab1/.pintos/src/threads/malloc.c:37-60 | blocks in use, free blocks and arena headers never share a byte |
| MallocRuns.PiecesOnOwnPages | Lab1/.pintos/src/threads/malloc.c:104-135 | none of them reaches into a page that is unused or belongs to another client |
| MallocProofs.ArenaPagesUsed | Lab1/.pintos/src/threads/palloc.c:135-140 | the assertion in palloc_free_multiple: all pages of an arena are marked used when they are given back |
| MallocProofs.TakeKeeps | Lab1/.pintos/src/threads/malloc.c:143-146 | taking a block off the free list |
| MallocProofs.NewArenaKeeps | Lab1/.pintos/src/threads/malloc.c:122-141 | a new arena whose blocks are all free |
| MallocProofs.DropKeeps | Lab1/.pintos/src/threads/malloc.c:230-240 | an arena with no block in use goes back to the pool |
| Allocator.BlockAllocator.constructor | Lab1/.pintos/src/threads/malloc.c:71-84 | the loop builds seven descriptors, block sizes 16 to 1024, each with as many blocks as fit after the header |
| Allocator.BlockAllocator.Malloc | Lab1/.pintos/src/threads/malloc.c:88-149 | in place, computes the function whose properties are proved, with its descriptor loop and page allocation |
| Allocator.BlockAllocator.FillArena | Lab1/.pintos/src/threads/malloc.c:133-140 | the loop appends every block of the new arena to the free list, in address order |
| Allocator.BlockAllocator.EmptyArena | Lab1/.pintos/src/threads/malloc.c:235-238 | the loop of list_remove takes exactly the arena's blocks off the free list |
| Allocator.BlockAllocator.Free | Lab1/.pintos/src/threads/malloc.c:209-249 | in place, computes the function whose properties are proved; clearing the block and the pages leaves every byte of every other block in use as it was; a null pointer is ignored |
| Allocator.BlockAllocator.BlockSize | Lab1/.pintos/src/threads/malloc.c:173-181 | the size of a block in use, small or big |
| Allocator.BlockAllocator.Realloc | Lab1/.pintos/src/threads/malloc.c:189-205 | the new block starts with the first min(old, new) bytes of the old one, and every other block keeps its bytes |
| Allocator.PageAllocator.constructor | Lab1/.pintos/src/threads/palloc.c:48-64 | half of memory for the user pool, up to the limit, the rest for the kernel pool; each begins after the pages, as few as possible, that hold its bitmap; the pools are disjoint and free |
| Allocator.PageAllocator.GetMultiple | Lab1/.pintos/src/threads/palloc.c:72-100 | with PAL_USER a run from the user pool and the kernel pool untouched, without it the other way round; the lowest run of free pages long enough, now used, and cleared iff asked for; with no such run null, or a panic if asked for |
| Allocator.PageAllocator.FreeMultiple | Lab1/.pintos/src/threads/palloc.c:116-141 | the pages are marked free in the pool they came from and cleared, and nothing else changes; a null pointer is ignored |
| InodeIO.Disk.ReadAt | Lab1/.pintos/src/filesys/inode.c:200-250 | returns max(0, min(size, length - offset)) and fills the buffer with exactly those bytes of the flat file |
| InodeIO.Disk.WriteAt | Lab1/.pintos/src/filesys/inode.c:257-318 | writes the same number of bytes, or none while writes are denied, and changes exactly those bytes of the disk |
| InodeIO.WriteFlat | Lab1/.pintos/src/filesys/inode.c:257-318 | on the flat file a write replaces exactly the written stretch |
| InodeIO.WriteElsewhere | Lab1/.pintos/src/filesys/inode.c:257-318 | a write changes no byte of a file in other sectors |
| InodeIO.ReadAfterWrite | Lab1/.pintos/src/filesys/inode.c:200-318 | what was written is what is read back |
| InodeIO.WriteChunk | Lab1/.pintos/src/filesys/inode.c:268-306 | one turn of the loop, whole or partial sector, extends the written stretch by its chunk and nothing else |
| FreeMap.FirstFit | Lab1/.pintos/src/lib/kernel/bitmap.c:292-306 | the lowest start of a run of the right length, or none exists |
| FreeMap.SetThenClear | Lab1/.pintos/src/filesys/free-map.c:27-50 | allocating a run and releasing it restores the map |
| FreeMap.Bitmap.Contains | Lab1/.pintos/src/lib/kernel/bitmap.c:247-260 | whether some bit of the run has the value |
| FreeMap.Bitmap.All | Lab1/.pintos/src/lib/kernel/bitmap.c:280-284 | whether every bit of the run is set |
| FreeMap.Bitmap.Scan | Lab1/.pintos/src/lib/kernel/bitmap.c:292-306 | the loop finds the first fit |
| FreeMap.Bitmap.SetMultiple | Lab1/.pintos/src/lib/kernel/bitmap.c:214-225 | exactly the bits of the run change |
| FreeMap.Bitmap.ScanAndFlip | Lab1/.pintos/src/lib/kernel/bitmap.c:315-322 | finds the first fit and flips exactly it |
| FreeMap.Bitmap.Allocate | Lab1/.pintos/src/filesys/free-map.c:27-41 | first fit, undone when the map file cannot be written |
| FreeMap.Bitmap.Release | Lab1/.pintos/src/filesys/free-map.c:44-50 | exactly the run is cleared |
| FileSysRuns.Reachable | Lab1/.pintos/src/filesys/filesys.c:45-91 | the file system invariant holds in every state of every run of create, open, reopen, deny, allow, close, remove and mounting again |
| FileSysRuns.FormatInv | Lab1/.pintos/src/filesys/filesys.c:94-103 | a formatted file system satisfies it |
| FileSysRuns.SectorsAreDisjoint | Lab1/.pintos/src/filesys/inode.c:72-106 | inode sectors and data extents of all named or open inodes are marked used and pairwise disjoint |
| FileData.WriteIsLocal | Lab1/.pintos/src/filesys/inode.c:257-318 | in every reachable state a write through one live inode changes no byte of any other live file, those of length 0 included, and no sector that holds a live inode |
| FileData.ClearIsLocal | Lab1/.pintos/src/filesys/inode.c:93-100 | the same for clearing the data of a new file, which then reads as zeros |
| FileSysRuns.RootIsWritable | Lab1/.pintos/src/filesys/filesys.c:45-91 | in every reachable state nobody has denied writes to the root directory, so dir_add and dir_remove can write |
| FileSysRuns.ReleasedAtLastClose | Lab1/.pintos/src/filesys/inode.c:163-195 | the sectors of an inode stay marked used until the event that gives up its last hold, and are all free right after it: released once, never earlier |
| FileSysRuns.LiveAfter | Lab1/.pintos/src/filesys/inode.c:163-195 | an inode stops being live exactly at that event, and until then keeps its sectors |
| FileSysCalls.OpenMeans | Lab1/.pintos/src/filesys/filesys.c:66-77 | filesys_open gives an opener of the inode the name stands for, with no denial; its openers grow by that one and its count by one; without such a name nothing changes |
| FileSysCalls.ReopenMeans | Lab1/.pintos/src/filesys/file.c:38-42 | file_reopen gives an opener of the same inode |
| FileSysCalls.DenyMeans | Lab1/.pintos/src/filesys/file.c:118-127 | after file_deny_write the opener denies and the inode counts it, once |
| FileSysCalls.AllowMeans | Lab1/.pintos/src/filesys/file.c:132-141 | after file_allow_write it does not, and the inode counts one less if it did |
| FileSysCalls.DeniedWrites | Lab1/.pintos/src/filesys/inode.c:257-265 | an inode that some opener denies refuses writes |
| FileSysCalls.CloseMeans | Lab1/.pintos/src/filesys/file.c:45-54 | the opener and its denial are gone; the inode stays in memory iff somebody else has it open |
| FileSysCalls.CreateMeans | Lab1/.pintos/src/filesys/filesys.c:45-59 | a create succeeds iff there is a free sector and besides it a free run for the data, the name is valid and new, and the directory has a slot; then the inode is in the lowest free sector, its length is the size asked for, its data in free sectors, those sectors alone become used, and only that name is added |
| FileSysCalls.RemoveMeans | Lab1/.pintos/src/filesys/filesys.c:83-91 | a remove takes away that name iff it is there; the file stays live iff somebody has it open |
| FileSysCalls.RemoveEvent | Lab1/.pintos/src/filesys/filesys.c:83-91 | a remove in a run is that call |
| FileSysCalls.RemovalMarks | Lab1/.pintos/src/filesys/inode.c:190-195 | what is in memory and its counts stay, and exactly that file is marked removed |
| FileSysCalls.FormatMeans | Lab1/.pintos/src/filesys/filesys.c:94-103 | an empty directory and a free map file of the sizes asked for, and no other sector in use |
| FileSysCalls.SectorsHold | Lab1/.pintos/src/filesys/inode.c:25-31 | as many sectors as hold the bytes, and no more |
| FileSysCalls.MountMeans | Lab1/.pintos/src/filesys/filesys.c:16-39 | mounting again changes nothing on the device and leaves only the free map open |
| FileSysRuns.CreateFails | Lab1/.pintos/src/filesys/filesys.c:45-59 | create succeeds iff there is room, the name is valid and new and a slot is free; a failed create restores the free map iff no room was found or the file is empty: otherwise the data extent leaks |
| FileSysRuns.CreateLeaks | Lab1/.pintos/src/filesys/filesys.c:45-59 | on a freshly formatted device of six sectors a create with an empty name and size 1 fails and leaks sector 5 |
| FileSysRuns.CreateThenRemove | Lab1/.pintos/src/filesys/filesys.c:45-91 | create followed by remove with no other opener restores the free map, the names and everything open |
| FileSysRuns.DenyCountsExact | Lab1/.pintos/src/filesys/file.c:116-141 | in every run deny_write_cnt is the number of openers with the flag set, never above open_cnt; the assertions hold whenever they are reached, and writes are denied exactly while some opener denies them |
| FileSys.ReleaseAssertions | Lab1/.pintos/src/filesys/free-map.c:44-50 | whatever is released was marked used |
| FileSys.CreateInv | Lab1/.pintos/src/filesys/filesys.c:45-59 | filesys_create keeps the invariant, whichever step fails |
| FileSys.RemoveInv | Lab1/.pintos/src/filesys/filesys.c:83-91 | filesys_remove keeps the invariant |
| FileSys.CloseFileKeeps | Lab1/.pintos/src/filesys/file.c:45-54 | file_close, which allows writes again and may release the sectors, keeps the invariant |
| FileSys.DenyKeeps | Lab1/.pintos/src/filesys/file.c:118-141 | deny and allow keep it |
| FileSysRuns.MountKeeps | Lab1/.pintos/src/filesys/filesys.c:16-39 | shutting down and mounting again, with no removed file open, keeps the invariant |
| Volume.FileSystem.Format | Lab1/.pintos/src/filesys/filesys.c:94-103 | the imperative do_format ends in the formatted state or reports failure |
| Volume.FileSystem.InodeOpen | Lab1/.pintos/src/filesys/inode.c:111-151 | one in-memory inode however often it is opened |
| Volume.FileSystem.InodeClose | Lab1/.pintos/src/filesys/inode.c:163-186 | the last close of a removed inode releases its sectors |
| Volume.FileSystem.FileDenyWrite | Lab1/.pintos/src/filesys/file.c:118-127 | an opener is counted at most once |
| Volume.FileSystem.FileAllowWrite | Lab1/.pintos/src/filesys/file.c:132-141 | and uncounted only if it was counted |
| Volume.FileSystem.FileClose | Lab1/.pintos/src/filesys/file.c:45-54 | closes with the invariant kept; its preconditions follow from the invariant |
| Volume.FileSystem.InodeCreate | Lab1/.pintos/src/filesys/inode.c:72-106 | allocates the data and stores the inode, or changes nothing |
| InodeIO.Disk.ZeroData | Lab1/.pintos/src/filesys/inode.c:93-100 | the loop of inode_create clears exactly the sectors of the new file |
| InodeIO.ZeroedFlat | Lab1/.pintos/src/filesys/inode.c:93-100 | a file so cleared reads as zeros from end to end; a file in other sectors keeps its bytes |
| Volume.FileSystem.FilesysCreate | Lab1/.pintos/src/filesys/filesys.c:45-59 | succeeds exactly when there is room, a valid new name and a directory slot, and then makes that file and changes nothing else |
| Volume.FileSystem.FilesysOpen | Lab1/.pintos/src/filesys/filesys.c:66-77 | with the directory open for the look-up only: an opener of the inode the name stands for, or nothing changed |
| Volume.FileSystem.FileReopen | Lab1/.pintos/src/filesys/file.c:38-42 | an opener of the inode that the given one has |
| Volume.FileSystem.FilesysRemove | Lab1/.pintos/src/filesys/filesys.c:83-91 | in place, computes the function whose properties are proved |
| Directory.Dir.Lookup | Lab1/.pintos/src/filesys/directory.c:91-112 | finds a slot with the name iff the name is in the map, reading entries that straddle sectors |
| Directory.Dir.Add | Lab1/.pintos/src/filesys/directory.c:141-179 | succeeds iff the name is valid, absent and a slot is free; then adds that one name to the map, and otherwise changes no byte |
| Directory.Dir.Remove | Lab1/.pintos/src/filesys/directory.c:184-216 | deletes that name and no other, and returns its sector |
| Directory.Dir.ReadDir | Lab1/.pintos/src/filesys/directory.c:221-236 | delivers the next name in use from the position and moves past it |
| Directory.ListsEachOnce | Lab1/.pintos/src/filesys/directory.c:221-236 | calls from position 0 list every name in use exactly once |
| Directory.ListingStep | Lab1/.pintos/src/filesys/directory.c:221-236 | one call delivers the head of that listing and leaves its tail |
| Directory.Dir.List | Lab1/.pintos/src/filesys/fsutil.c:15-29 | dir_readdir from the start until it delivers no more yields exactly the listing: each name once |
| Directory.RoomLeft | Lab1/.pintos/src/filesys/directory.c:160-170 | a slot is free iff the map has fewer names than the directory has slots |
| Directory.AddSlot | Lab1/.pintos/src/filesys/directory.c:141-179 | writing a new entry in a free slot adds its name to the map and keeps names distinct |
| Directory.EraseSlot | Lab1/.pintos/src/filesys/directory.c:184-216 | clearing in_use takes exactly that name out of the map |
| Directory.EntryMeans | Lab1/.pintos/src/filesys/directory.c:17-22 | the layout of an entry: sector, lowest byte first, name up to a null character, use flag |
| Directory.WordRoundTrip | Lab1/.pintos/src/filesys/directory.c:17-22 | the sector number survives its four bytes in the entry |
| Pagedir.SameIndexes | Lab1/.pintos/src/threads/pte.h:32-39 | addresses have the same directory and table index iff they are on the same page |
| Pagedir.EntryRoundTrip | Lab1/.pintos/src/threads/pte.h:71-104 | directory and table entries decode to the page and rights they were made from, and ptov's assertion holds of them |
| Pagedir.EntryMeans | Lab1/.pintos/src/threads/pte.h:71-100 | the numbers the processor reads: physical page plus 5, or 7 if writable; page tables plus 7 |
| Pagedir.PresentBit | Lab1/.pintos/src/threads/pte.h:20-70 | bit 0 of an entry says present |
| Pagedir.WritableBit | Lab1/.pintos/src/threads/pte.h:20-70 | bit 1 says writable |
| Pagedir.UserBit | Lab1/.pintos/src/threads/pte.h:20-70 | bit 2 says user |
| Pagedir.AccessedBit | Lab1/.pintos/src/threads/pte.h:20-70 | bit 5 says accessed |
| Pagedir.DirtyBit | Lab1/.pintos/src/threads/pte.h:20-70 | bit 6 says dirty |
| Pagedir.NoSharedEntry | Lab1/.pintos/src/userprog/pagedir.c:56-86 | two addresses whose entry is the same slot of the same table are on the same page |
| Pagedir.SetPageMaps | Lab1/.pintos/src/userprog/pagedir.c:98-119 | every address of the page then translates to kpage plus its offset; no other page changes, not even with a new table; failure only for want of a page table, changing nothing |
| Pagedir.ClearPageUnmaps | Lab1/.pintos/src/userprog/pagedir.c:143-157 | the page is unmapped, only the present bit goes, other pages are untouched |
| Pagedir.ClearedBits | Lab1/.pintos/src/userprog/pagedir.c:152-156 | the other bits of the entry are preserved |
| Pagedir.SetFlagOnly | Lab1/.pintos/src/userprog/pagedir.c:162-215 | the dirty and accessed bits change without disturbing the mapping, each other or other pages |
| TwoLevel.PutIs | Lab1/.pintos/src/userprog/pagedir.c:98-119 | storing an entry changes that entry and no other |
| TwoLevel.AddIs | Lab1/.pintos/src/userprog/pagedir.c:66-81 | a new zeroed table adds empty entries and changes none |
| TwoLevel.ContentsOnce | Lab1/.pintos/src/userprog/pagedir.c:36-46 | listing tables and what they hold lists nothing twice when they are all different |
| TwoLevel.ContentsAre | Lab1/.pintos/src/userprog/pagedir.c:36-46 | and lists exactly the tables and what they hold |
| PageTable.PageDirectory.LookupPage | Lab1/.pintos/src/userprog/pagedir.c:56-86 | the slot of the entry, with a new table only when asked for, missing and available |
| PageTable.PageDirectory.SetPage | Lab1/.pintos/src/userprog/pagedir.c:98-119 | in place, computes the function whose properties are proved |
| PageTable.PageDirectory.GetPage | Lab1/.pintos/src/userprog/pagedir.c:125-137 | the physical address, or none; the tables are unchanged |
| PageTable.PageDirectory.ClearPage | Lab1/.pintos/src/userprog/pagedir.c:143-157 | in place, computes the function whose properties are proved |
| PageTable.PageDirectory.SetFlag | Lab1/.pintos/src/userprog/pagedir.c:170-215 | in place, computes the function whose properties are proved |
| PageTable.PageDirectory.IsSet | Lab1/.pintos/src/userprog/pagedir.c:162-197 | the bit of the entry, false without a table |
| PageTable.PageDirectory.Destroy | Lab1/.pintos/src/userprog/pagedir.c:27-48 | the nested loops free the contents of the user part and then the directory |
| PageTable.DestroyFreesOnce | Lab1/.pintos/src/userprog/pagedir.c:27-48 | when frames are distinct, each present user frame, each user page table and the directory is freed exactly once, and nothing else |
| LoaderModel.SegmentIsValid | Lab1/.pintos/src/userprog/process.c:325-366 | the checks, in 32-bit arithmetic, accept a header iff offsets agree, the file holds the start, sizes are ordered and positive, and the region lies between page 0 and PHYS_BASE without wrapping |
| LoaderModel.SegmentCounts | Lab1/.pintos/src/userprog/process.c:274-293 | for an accepted header no count wraps; they cover whole pages that hold the segment and stay in user space |
| LoaderModel.TopByteRefused | Lab1/.pintos/src/userprog/process.c:325-366 | a segment whose last byte is the last of user space is refused; one byte less and it is accepted |
| LoaderModel.CountersStep | Lab1/.pintos/src/userprog/process.c:391-423 | one page of load_segment: neither counter underflows and whole pages stay before the end while work is left |
| Executable.ImageHasSegment | Lab1/.pintos/src/userprog/process.c:274-296 | page images loaded with those counts put byte p_offset+i of the file at p_vaddr+i for i < p_filesz, and zero up to p_memsz |
| LoaderModel.SegmentGrows | Lab1/.pintos/src/userprog/process.c:391-423 | one more page: earlier mappings and bytes are kept, nothing is mapped outside, the image is one page longer |
| Executable.MoreApart | Lab1/.pintos/src/userprog/process.c:456-465 | segments that load share no page |
| Executable.NextHeader | Lab1/.pintos/src/userprog/process.c:247-302 | loading one more segment keeps every earlier one in memory |
| Executable.HeaderFailed | Lab1/.pintos/src/userprog/process.c:247-302 | a header that could not be loaded although there were pages is bad, cut short in the file, or shares a page with an earlier segment: the file is not loadable |
| Executable.DoneIsLoadable | Lab1/.pintos/src/userprog/process.c:208-317 | once every header is loaded and the stack set up, the file is loadable: good headers, whole segments on pages of their own below the stack page |
| ExecutableMeans.LoadableIs | Lab1/.pintos/src/userprog/process.c:208-366 | the files that load are exactly those whose bytes are acceptable, header by header |
| ExecutableMeans.LoadedMeans | Lab1/.pintos/src/userprog/process.c:247-302 | memory is what the bytes of the file say: for each loadable header every address of its segment is mapped, writable iff bit 1 of its flags is set, and reads as the byte of the file or zero |
| ExecutableMeans.HeaderReads | Lab1/.pintos/src/userprog/process.c:160-196 | the fields of a program header by their offsets in the file |
| Loader.Process.InstallPage | Lab1/.pintos/src/userprog/process.c:456-465 | maps a page that was unmapped, or changes nothing |
| Loader.Process.LoadSegment | Lab1/.pintos/src/userprog/process.c:382-425 | on success the pages hold the file's bytes and then zeros and one frame a page was used; what was mapped before is kept, nothing is mapped outside the range, no frame is lost; it fails only when the file is too short, a page was mapped already, or pages ran out |
| Loader.Process.SetupStack | Lab1/.pintos/src/userprog/process.c:429-445 | a zeroed writable page just below PHYS_BASE |
| Loader.Process.Load | Lab1/.pintos/src/userprog/process.c:208-317 | in terms of the bytes of the file: with pages enough it succeeds iff the headers are acceptable (ElfSpec.Accepted); then each address of a segment is mapped, writable iff PF_W is set in its flags, and reads as the byte of the file or zero; the stack is ready, the entry point is that of the header, and exactly the pages of the segments and one for the stack are used; page 0 is never mapped |
| HeapModel.FloatDown | Lab1/.pintos/src/lib/stdlib.c:96-123 | swapping with the largest child moves the one misplaced element a level down and mends the rest |
| HeapModel.RootIsMax | Lab1/.pintos/src/lib/stdlib.c:146-151 | the first element of a heap is its largest, for any total preorder |
| HeapModel.RootOut | Lab1/.pintos/src/lib/stdlib.c:146-151 | moving the root behind the heap keeps the tail sorted and above the rest |
| HeapModel.HeapAgain | Lab1/.pintos/src/lib/stdlib.c:146-151 | mending the heap keeps it apart from the sorted tail |
| HeapSort.DoSwap | Lab1/.pintos/src/lib/stdlib.c:66-79 | the byte loop exchanges exactly two elements of an array of elements of any size |
| HeapSort.Heapify | Lab1/.pintos/src/lib/stdlib.c:96-123 | terminates; the heap reaches down to i, the first n elements are permuted and the rest untouched |
| HeapSort.BuildHeap | Lab1/.pintos/src/lib/stdlib.c:142-144 | the first loop makes a heap |
| HeapSort.ExtractRoot | Lab1/.pintos/src/lib/stdlib.c:146-151 | one turn of the second loop: a shorter heap, a longer sorted tail |
| HeapSort.Sort | Lab1/.pintos/src/lib/stdlib.c:131-152 | a sorted permutation of the elements, for every array and every total-preorder comparator |
| HeapSort.BinarySearch | Lab1/.pintos/src/lib/stdlib.c:184-207 | on a sorted array returns a match iff one exists |
| PrintfModel.CharsDenote | Lab1/.pintos/src/lib/stdio.c:501-513 | the digits denote the value in every base, grouped or not |
| PrintfMeans.DigitsRead | Lab1/.pintos/src/lib/stdio.c:501-524 | the digits in the order printed read as the value in base 8, 10 or 16, whatever the flags and the precision |
| PrintfMeans.BasesMean | Lab1/.pintos/src/lib/stdio.c:129-142 | the four bases are decimal, octal and hexadecimal, with the usual digits and groups |
| PrintfMeans.CommasAt | Lab1/.pintos/src/lib/stdio.c:501-513 | counted from the right every fourth character of a grouped decimal number is a comma, every fifth of a hexadecimal one, and no other |
| PrintfMeans.SignMeans | Lab1/.pintos/src/lib/stdio.c:482-494 | minus for the negative, else plus or a space if asked for, nothing for unsigned conversions |
| PrintfMeans.PrefixMeans | Lab1/.pintos/src/lib/stdio.c:496-499 | 0x or 0X for hexadecimal numbers other than zero, if asked for |
| PrintfMeans.OutputMeans | Lab1/.pintos/src/lib/stdio.c:526-546 | sign, prefix and digits, filled up to the width on the left, on the right, or with zeros in between |
| PrintfModel.BufferFits | Lab1/.pintos/src/lib/stdio.c:475-524 | for every 64-bit value, flags and precision the digits, zeros and commas stay inside the 64-byte buffer |
| PrintfModel.WidthLaw | Lab1/.pintos/src/lib/stdio.c:526-546 | the output has max(width, body) characters if and only if the field is not padded on both sides |
| PrintfDigits.PrecisionLaw | Lab1/.pintos/src/lib/stdio.c:501-524 | as many digits are printed as the precision promises (at least that many, and for octal with # a leading zero) if and only if there are that many already, or it is at most 63 and no comma is printed, or only the octal zero is missing |
| PrintfDigits.CommaLaw | Lab1/.pintos/src/lib/stdio.c:501-513 | a comma is printed if and only if the digits are grouped and are more than one group |
| PrintfDigits.PrecisionMissed | Lab1/.pintos/src/lib/stdio.c:515-524 | grouped, 1234 has four digits for a precision of 5 and 62 for a precision of 70 |
| PrintfModel.PaddedTwice | Lab1/.pintos/src/lib/stdio.c:339-460 | both paddings are asked for exactly by a 0 flag without a - flag, a negative * width, and no precision |
| PrintfModel.PaddedTwiceExample | Lab1/.pintos/src/lib/stdio.c:373-394 | %0*d with width -5 prints 7 in nine characters |
| PrintfModel.AtoiOfPrinted | Lab1/.pintos/src/lib/stdlib.c:9-41 | atoi of what %d prints is the number itself, INT_MIN included, for every flags, width and precision, if and only if the digits are not grouped or number at most three |
| Printf.FormatInteger | Lab1/.pintos/src/lib/stdio.c:469-547 | writes exactly that output, every buffer index in range |
| Printf.StoreDigits | Lab1/.pintos/src/lib/stdio.c:501-513 | the loop stores the digits in reverse, with commas |
| Printf.StoreZeros | Lab1/.pintos/src/lib/stdio.c:515-524 | the loop pads to the precision within the buffer |
| Printf.ParseConversion | Lab1/.pintos/src/lib/stdio.c:339-460 | the flags, width, precision and type that the characters and * arguments spell, and where they end |
| PrintfMeans.TypeMeans | Lab1/.pintos/src/lib/stdio.c:419-459 | which letters give which length modifier, two h or two l against one |
| PrintfMeans.FlagsMean | Lab1/.pintos/src/lib/stdio.c:339-391 | which characters set which flag and what undoes it; the width |
| PrintfMeans.PrecisionMeans | Lab1/.pintos/src/lib/stdio.c:393-415 | the precision, -1 when there is none or the argument is negative |
| PrintfMeans.NumberReads | Lab1/.pintos/src/lib/stdio.c:378-410 | numbers in a specification are decimal |
| Printf.Vsnprintf | Lab1/.pintos/src/lib/stdio.c:25-52 | stores the longest prefix that fits and a terminator, leaves the rest of the buffer alone, and returns the full length |
| Printf.Sink.Put | Lab1/.pintos/src/lib/stdio.c:44-52 | one more character: stored if it fits, counted in any case |
| Printf.Atoi | Lab1/.pintos/src/lib/stdlib.c:9-41 | the value of the string; some step overflows int iff that value is not an int |
| PrintfMeans.AtoiMeans | Lab1/.pintos/src/lib/stdlib.c:9-41 | white space, one sign, and decimal digits up to the first character that is none |
| Printf.PrintThenRead | Lab1/.pintos/src/lib/stdio.c:222-225 | every int printed by %d without grouping is read back without overflow |
| UstarModel.StripIsSafe | Lab1/.pintos/src/lib/ustar.c:56-73 | the stripped name is relative, not empty, does not start by leaving its directory, and stripping is idempotent |
| UstarMeans.StripMeans | Lab1/.pintos/src/lib/ustar.c:56-73 | a name loses pieces /, ./ and ../ at its front and nothing else; an empty rest and .. become . |
| UstarModel.OctalRoundTrip | Lab1/.pintos/src/lib/ustar.c:120-162 | parsing inverts an octal field of any width without overflow |
| UstarMeans.ParseMeans | Lab1/.pintos/src/lib/ustar.c:120-162 | a field parses to v iff it is digits for v, below 2^32, followed by a space or null character |
| UstarModel.PrintedOctal | Lab1/.pintos/src/lib/ustar.c:102-115 | `%0No` prints exactly that field |
| UstarModel.OctalFormats | Lab1/.pintos/src/lib/ustar.c:102-115 | the format strings %07o and %011o are parsed into those conversions |
| UstarModel.SumIs | Lab1/.pintos/src/lib/ustar.c:35-54 | the checksum does not depend on its own field and fits in seven octal digits |
| UstarMeans.ChecksumMeans | Lab1/.pintos/src/lib/ustar.c:35-54 | the sum of all bytes, the eight of its own field taken as spaces |
| UstarMeans.EntryHasChecksum | Lab1/.pintos/src/lib/ustar.c:199-212 | a block parses as an entry only if its checksum field holds that sum |
| UstarMeans.ChangeIsFound | Lab1/.pintos/src/lib/ustar.c:181-227 | any single byte changed outside the checksum field of an entry is detected |
| UstarModel.RoundTrip | Lab1/.pintos/src/lib/ustar.c:82-227 | parsing a made header returns the stripped name, the type and the size, 0 for a directory; only a negative size of a regular file is refused |
| UstarModel.HeaderFields | Lab1/.pintos/src/lib/ustar.c:82-118 | where a made header has its name, type, size, magic and version |
| UstarMeans.HeaderMeans | Lab1/.pintos/src/lib/ustar.c:99-112 | permissions 0644 for a file and 0755 for a directory, user and group 0 and root, the fixed time |
| UstarMeans.RestIsZero | Lab1/.pintos/src/lib/ustar.c:99-112 | every byte that belongs to no field in use is zero |
| Ustar.StripAntisocialPrefixes | Lab1/.pintos/src/lib/ustar.c:65-73 | the loop terminates and strips every such prefix |
| Ustar.MakeHeader | Lab1/.pintos/src/lib/ustar.c:82-118 | fails iff the stripped name is longer than 99 characters, writing nothing; otherwise fills in the header of the round trip |
| Ustar.ParseOctalField | Lab1/.pintos/src/lib/ustar.c:129-162 | the loop computes the parsed value or failure |
| Ustar.CalculateChksum | Lab1/.pintos/src/lib/ustar.c:36-54 | the loop computes the checksum |
| Ustar.IsAllZeros | Lab1/.pintos/src/lib/ustar.c:166-173 | whether every byte is zero |
| Ustar.ParseHeader | Lab1/.pintos/src/lib/ustar.c:181-227 | every error case in the order of the source, and the entry otherwise |
| SimModel.Reachable | Assignment5/scheduler.c:43-70 | in every run: the processor is not idle while a thread is ready, no thread is on the ready list twice or also running or waiting, threads leave the list in the order they entered, and with a quantum of at least 1 ticks_on_cpu never exceeds it |
| SimModel.NothingLost | Assignment5/scheduler.c:125-477 | no thread disappears: only sys_exit takes it out of running, ready and waiting |
| SimCalls.WhoIsKnown | Assignment5/scheduler.c:125-477 | the threads there are after an event are those there were, and one more after sys_exec alone |
| SimCalls.ExecMeans | Assignment5/scheduler.c:125-151 | the new thread runs at once with no ticks spent, or is behind all that are ready, and nothing else changes |
| SimCalls.CompleteMeans | Assignment5/scheduler.c:446-463 | the same for a thread back from its device, except that the ticks stay |
| SimCalls.BlockMeans | Assignment5/scheduler.c:191-303 | the running thread waits; the first ready one runs with no ticks spent, or nobody does |
| SimCalls.ExitMeans | Assignment5/scheduler.c:359-391 | the running thread is done; the first ready one runs with no ticks spent, or nobody does |
| SimCalls.ReadyMeans | Assignment5/scheduler.c:43-70 | nothing under first come first served; under round robin one tick, and at the end of a quantum the running thread goes behind all that are ready and the first of them runs |
| SimModel.BoundedWait | Assignment5/scheduler.c:43-70 | a thread at position k of the ready list is on the processor within (k+1) quanta of clock ticks, whatever else happens |
| SimModel.ZeroQuantum | Assignment5/scheduler.c:43-70 | a quantum of 0 breaks the bound at the first tick |
| SimModel.PreemptedAfter | Assignment5/scheduler.c:58-63 | a preempted thread has run a full quantum iff it inherited no ticks |
| SimModel.InheritsWhen | Assignment5/scheduler.c:450-463 | ticks are inherited only by a thread whose I/O completes on an idle processor |
| SimModel.ShortQuantum | Assignment5/scheduler.c:450-463 | with a quantum of 3 such a thread is preempted after one tick |
| ThreadList.List.InsertBeginning | Assignment5/List.c:51-56 | a new first node |
| ThreadList.List.InsertEnd | Assignment5/List.c:62-74 | a new node, which is the last of the list if there were any and on no list if there were none |
| ThreadList.List.Front | Assignment5/List.c:159-167 | the last node |
| ThreadList.List.FindByData | Assignment5/List.c:123-130 | the first node of the thread, or none has it |
| ThreadList.List.Remove | Assignment5/List.c:79-97 | exactly that node is unlinked, wherever it is; a node not in the list changes nothing |
| ThreadList.List.TakeFront | Assignment5/scheduler.c:196-221 | take the last node and unlink it: the oldest thread leaves, the order of the others is kept |
| SimScheduler.Scheduler.SimReady | Assignment5/scheduler.c:43-70 | the round-robin tick over the linked list is the step of the model |
| SimScheduler.Scheduler.SysExec | Assignment5/scheduler.c:125-151 | run at once on an idle processor, else enter the ready list |
| SimScheduler.Scheduler.SysBlock | Assignment5/scheduler.c:191-303 | sys_read and sys_write: the next ready thread runs |
| SimScheduler.Scheduler.SysExit | Assignment5/scheduler.c:359-391 | the next ready thread runs |
| SimScheduler.Scheduler.IoComplete | Assignment5/scheduler.c:446-463 | run at once on an idle processor, without a new quantum, else enter the ready list |

## Left out

- Integer widths: values that the code keeps in 32 or 64 bits are unbounded integers with the wrap-around written out where it can happen; where it cannot, the bounds are proved instead. Sizes passed to malloc are assumed not to overflow when header and rounding are added, and printf widths and precisions to fit in int.
- Memory for bounce buffers, in-memory inodes, directories, files and list nodes is assumed to be available; pages for malloc, page tables and user frames are not.
- Thread identifiers are never reused in the kernel model, although the addresses of thread structures may be; `tid_lock` and the list of all threads are not modelled.
- Context switches, interrupt delivery and the timer are steps that may happen whenever the code allows interrupts; time slices are not counted, so a thread may be made to yield at any such point.
- `Lab1/pintos/src/devices/timer.c`, whose wake loop unblocks threads it did not block, is not part of this model; neither are the `Lab2` and `Lab1/pintos` copies of the same files.
- Volume.FileSystem.InodeClose: states its preconditions itself, because inode_close is also called for openers that have already stopped denying writes; Volume.FileSystem.FileClose shows that the invariant implies them.
- FileSys.CreateInv: the opener of the root directory that filesys_create and filesys_remove hold for the duration of a call is a parameter.
- File contents are not part of the state of a file system run: InodeIO proves what reads and writes do to a device, and FileData what that means for the files of any reachable state. A run starts from a freshly formatted file system; shutting down while a removed file is still open is not an event.
- Volume.FileSystem.InodeCreate: the sectors are not part of this class, so the clearing of the data is InodeIO.Disk.ZeroData on the device, and the encoding of an inode in its sector is left out.
- The memset branch of inode_write_at for a sector that is not read first never leaves a byte of the sector unwritten inside a file and is not distinguished from a read of the old sector.
- Directory.Dir.Add: the failure of inode_write_at to write a whole entry is not shown, since a slot inside the file is always written whole.
- PageTable.PageDirectory.constructor: takes the page and the kernel's directory as arguments; activating a directory and flushing the TLB have no counterpart.
- Loader.Process.Load: how many of the kernel's pages the page tables take is only bounded, by one for each page mapped; file names, the current working directory and denying writes to the executable are not part of this model; the pages that palloc hands out are two lists, and the failure of pagedir_create is the caller's.
- Allocator.BlockAllocator.Malloc: locks around descriptors and pools are left out, each operation being one step; calloc adds an overflow check and a memset.
- HeapSort.Sort: the comparator is a pure function, its aux argument absorbed; comparators that are not total preorders are not considered.
- Printf.Vsnprintf: takes the characters that `__vprintf` outputs; the dispatch in `__vprintf` over conversion letters, strings, `%p` and the console are left out.
- UstarModel.RoundTrip: archive contents, padding to blocks and the end-of-archive marker are left out.
- SimScheduler.Scheduler.SimReady: the statistics kept in `all_threads_list` and the priority algorithms are left out; the queue they use is not part of this repository's source.
- ThreadList.List.Remove: freeing a node has no counterpart; the node is just unlinked.
- Partition tables, the real-time clock, interrupt queues, device drivers, console output, system call entry, assembly, user example programs and the other assignments are left out.
