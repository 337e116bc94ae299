# Resource managers of a small 64-bit kernel

This project models the parts of the kernel that hand out memory, CPU time, tokens and bytes, and proves what every run of them keeps.
`dafny verify dfyconfig.toml` checks all of it.
Each part has a specification on plain values, theorems about that specification over all runs, and, where the C code changes things in place, classes and methods with the same loops and branches that are proved to move the specification's state.

- **Buddy allocator.** `BuddyTree` describes the arena as a binary tree of free and used blocks, `BuddySizing` the choice of a bucket, `BuddyState` the four elementary steps on tree and free lists, `BuddyTheorems` malloc, free and all runs of them. `BuddyList` is the circular lists of headers in memory, and `BuddyAllocator` the C functions over them. `Bits` holds what XOR and masking do to aligned addresses.
- **Scheduler.** `Scheduler` says what each entry point does to current process, queue and pid counter; `SchedulerTheorems` holds the accounting of pids, the end of processes and bounded waiting, and `SchedulerSlices` how long a process has the CPU; `ProcessQueue` is the linked queue with its two counters and `ProcessManager` the C functions.
- **Semaphores and pipes.** `Semaphore` is one semaphore, `SemaphoreNode` its node with the array of waiters, `SemaphoreTable` the kernel's linked list of them calling into the process manager. `KernelSync` joins scheduler and semaphores (through `SchedulerView`, which looks at the scheduler by pid) and proves that no wake-up is lost; `KernelCalls` says what each call that names a process does to it and that it does it to no other, `KernelAccounts` carries the accounting of tokens and the order of waiters to runs of the kernel, `KernelOpeners` keeps account of who has a semaphore open, and says when the fixed array of waiters is large enough. `Pipes` is the protocol of a ring of 1024 bytes under two semaphores, `PipeBuffer` the C functions, and `PipeUsers` says how many processes can share a pipe.
- **Lost updates.** `SemaphoreTest` is the step machine of processes that read, give up the CPU and write, with or without the semaphore, and proves that the semaphore protects them; `LostUpdates` says exactly when an update can be lost, and `RunsEnd` that every run comes to an end.
- **Free-list allocator.** `FreeListState` is the address-ordered list as a value, `FreeListTiles` its canonical form, `FreeListLinks` the rewriting of the circle of headers, `FreeListAllocator` the C functions.
- **Numbers as text.** `Numerals`: printing and reading, with the loops over buffers; `Prints` has the kernel's own printing loop and its integer logarithm.
- **BMFS.** `BmfsPlacement` is the first-fit search, `Bmfs` the directory, and `BmfsFailures` says where creation goes wrong and how a directory gets there.

## How the model reads the code

- System calls enter through an interrupt gate and give up the CPU only at the software tick, so each call is one atomic step, cut only where it blocks. The spin lock inside the semaphores is never contended and is part of the step.
- Addresses in the two allocators are offsets from the base of the heap; payload bytes are arbitrary. A method `WritePayload` in each allocator writes anything into a block in use, behind its header, and is proved to disturb nothing; in the buddy allocator, where blocks can be read as headers at any offset, such a write changes what is read at every offset it overlaps.
- Whether an allocation made inside the kernel succeeds is a parameter (`Memory`, `room`).
- `getAvailableBucket` of the buddy allocator (Kernel/memoryManagement/buddy.c:136) lets the number of buckets through as an answer, so `malloc` then reads a list head that does not exist. The model keeps this as the outcome `Fault`; `BuddyTheorems.MallocOutcome` says when malloc answers a block, when NULL, and so when it is neither, and `BuddyTheorems.FaultExample` reaches it with two requests.
- Adding the header to a request wraps for sizes near 2^64 in both allocators. `BuddySizing.RoomIffNoWrap` and `FreeListState.MallocEffect` say that the block has room exactly when the sum does not wrap; `BuddySizing.WrapExample` and `FreeListState.WrapExample` are the inputs.
- The free-list allocator does not cover the free of a block that ends where the only free block starts (Kernel/memoryManagement/memoryManager.c:115-131): the freed block swallows the free one and stays linked to it. `FreeListAllocator.Allocator.Free` shows both halves: in every other case the result is a valid allocator, and in this one it is none, whatever abstract state one tries. `FreeListState.UncoveredReached` gets there with three requests and one free.
- The arena of the free-list allocator has `total_units` headers, one more than the heap size rounded up, as the code computes it (line 32).
- A node enqueued onto an empty queue keeps its `next` (Kernel/processManagement/processManagerQueue.c:6-8), which newProcess leaves unset. `ProcessQueue.ProcessList.QueueProcess` says that the queue is well formed afterwards if and only if it was not empty or that field was null; the process manager takes a new node's to be null.
- The array of waiters of a semaphore has 20 places, and semWait does not look whether one is left. `KernelOpeners` proves that it is if processes only wait on and close what they have opened, and `KernelOpeners.TwentyFirstWaiter` is a run from the start of the kernel in which one is not. A pipe's semaphores are opened once only, whoever uses it; `PipeUsers.RoomIffTwenty` says that room is always found if and only if at most 20 processes share the pipe.
- The dispatch loop looks once more at the state of a node it has just freed (Kernel/processManagement/processManager.c:112-117). The model does not look again: a freed node is not blocked.
- Process names, stacks, arguments and file descriptors play no part in scheduling and are not in the model.
- The `foreground` of newProcess is the byte that initializeProcessControlBlock gets (Kernel/processManagement/processManager.c:313), after the conversion.
- `create` of BMFS is called with sizes from 1 up that fit an int (Bootloader/BMFS/bmfs.c:134-149).
- `pipeWrite` of a string is a sequence of one-byte writes, as in the code.
- BMFS: an entry whose name is empty is the end marker, one whose name starts with the byte 1 is deleted and keeps its extent. The result of `qsort` is a parameter that must be a sorted permutation. A deleted entry's old extent can lead `create` astray when the new file fits nowhere; `BmfsPlacement.PlaceIsLowest` and `BmfsFailures.CreateIsSafeIff` say exactly when, and `BmfsFailures.StaleReached` is a run to such a directory. A full directory has no end marker, and creation then looks at no entry; `BmfsFailures.FullDirectory` says exactly what happens, `BmfsFailures.FullDirectoryReached` gets there.

## Model

| member | source | states |
|---|---|---|
| Bits.XorSelfInverse | Kernel/memoryManagement/buddy.c:143-150 | XOR with a fixed number undoes itself. |
| Bits.XorAligned | Kernel/memoryManagement/buddy.c:143-150 | XOR of a multiple of 2^k with 2^k is the sibling multiple inside the same multiple of 2^(k+1). |
| Bits.AndNotAligned | Kernel/memoryManagement/buddy.c:178-187 | Masking bit k of a multiple of 2^k rounds it down to a multiple of 2^(k+1). |
| BuddyTree.Cover | Kernel/memoryManagement/buddy.c:55-102 | Every byte of the arena lies in some block. |
| BuddyTree.Disjoint | Kernel/memoryManagement/buddy.c:55-102 | Two different blocks do not overlap. |
| BuddyTree.BuddyBits | Kernel/memoryManagement/buddy.c:143-187 | At a split node the XOR and the mask name exactly the two children and the lower of them. |
| BuddyTree.BuddyIsBlock | Kernel/memoryManagement/buddy.c:87-99 | Below the top bucket the buddy address is the start of a live block, never payload; that block is no larger, and if it is as large the two fill one parent, which starts at the masked address. |
| BuddyTree.NothingUsed | Kernel/memoryManagement/buddy.c:82-102 | A fully coalesced arena without a used block is one free block. |
| BuddyTree.UsedDecidesAll | Kernel/memoryManagement/buddy.c:82-102 | Two fully coalesced arenas with the same used blocks are the same, free blocks included. |
| Prints.FloorLog2Bounds | Kernel/libraries/prints.c:63-74 | The logarithm k of n satisfies 2^k <= n < 2^(k+1). |
| Prints.Log2 | Kernel/libraries/prints.c:63-74 | The shifting loop computes the logarithm, -1 for 0. |
| BuddySizing.PowerOfTwoTest | Kernel/memoryManagement/buddy.c:111-125 | n & (n - 1) is 0 exactly for powers of two, in terms of the logarithm. |
| BuddySizing.MinimumIsTight | Kernel/memoryManagement/buddy.c:111-125 | The bucket is the least b with 2^(4+b) >= request, for every 32-bit request. |
| BuddySizing.IdealIsTight | Kernel/memoryManagement/buddy.c:55-66 | malloc's bucket is the least whose blocks hold the 24-byte header and the payload, and never bucket 0. |
| BuddySizing.IdealIsLeast | Kernel/memoryManagement/buddy.c:55-66 | The buckets with room for header and payload are exactly those from malloc's bucket up. |
| BuddySizing.RoomIffNoWrap | Kernel/memoryManagement/buddy.c:55-66 | An admitted request gets a bucket with room for header and payload if and only if the 64-bit sum does not wrap. |
| BuddySizing.WrapExample | Kernel/memoryManagement/buddy.c:55-66 | A request of 2^64 - 8 bytes is admitted and mapped to a bucket too small for the header. |
| BuddyState.TakeInv | Kernel/memoryManagement/buddy.c:66-80 | Taking the last block of a list keeps the invariant and changes no other block. |
| BuddyState.SplitInv | Kernel/memoryManagement/buddy.c:69-76 | Halving a used block keeps the invariant: a free upper half appears where no block was, nothing else changes. |
| BuddyState.MergeInv | Kernel/memoryManagement/buddy.c:87-99 | Merging with the free buddy keeps the invariant, gives one block at the lower address and no block at the upper. |
| BuddyState.ReleaseInv | Kernel/memoryManagement/buddy.c:82-102 | Releasing a block whose buddy is not free keeps the invariant, so no two free buddies coexist. |
| BuddyTheorems.InitialInv | Kernel/memoryManagement/buddy.c:32-53 | One free block in the top bucket is a valid state. |
| BuddyTheorems.FirstAvailableIsFirst | Kernel/memoryManagement/buddy.c:127-141 | The bucket search stops at the first bucket from the ideal one up with a free block, or behind the last bucket. |
| BuddyTheorems.SearchFinds | Kernel/memoryManagement/buddy.c:127-141 | The search succeeds if and only if some free block is large enough, and then finds the smallest bucket that has one. |
| BuddyTheorems.MallocOutcome | Kernel/memoryManagement/buddy.c:55-80 | malloc answers a block if and only if the guard admits the request and some free block is large enough; NULL if and only if the guard refuses or the ideal bucket lies beyond the number of buckets; without a block nothing changes. |
| BuddyTheorems.MallocTakesSmallest | Kernel/memoryManagement/buddy.c:55-80 | The answered block was free and in the smallest bucket that could serve. |
| BuddyTheorems.MallocEffect | Kernel/memoryManagement/buddy.c:55-80 | Afterwards exactly this block is used in addition, in exactly the ideal bucket; header and payload fit inside it and the arena. |
| BuddyTheorems.CarveEffect | Kernel/memoryManagement/buddy.c:69-76 | malloc's loop of halvings ends in the ideal bucket and changes no other used block. |
| BuddyTheorems.CoalesceEffect | Kernel/memoryManagement/buddy.c:82-102 | free's loop of merges keeps the invariant and removes exactly its block from the used ones. |
| BuddyTheorems.FreeEffect | Kernel/memoryManagement/buddy.c:82-102 | free keeps the invariant and removes exactly its block from the used ones. |
| BuddyTheorems.MergeUndoesSplit | Kernel/memoryManagement/buddy.c:69-99 | A merge right after a split restores the state, lists included. |
| BuddyTheorems.CoalesceUndoesCarve | Kernel/memoryManagement/buddy.c:69-99 | All merges of free undo all splits of malloc. |
| BuddyTheorems.FreeUndoesMalloc | Kernel/memoryManagement/buddy.c:55-102 | Freeing what malloc just answered restores the state exactly, with the order of the lists. |
| BuddyTheorems.MallocAnswers | Kernel/memoryManagement/buddy.c:55-80 | malloc answers NULL if and only if nothing is asked for, or more than the heap or twice the top block can hold; a block if and only if it does not and some free block has room. |
| BuddyTheorems.MallocServes | Kernel/memoryManagement/buddy.c:55-80 | The payload lies behind the header of the smallest free block with room, which is now in use, no larger than it must be, with the bytes inside it; no other used block has changed, and freeing it gives the state before back. |
| BuddyTheorems.RunKeepsInv | Kernel/memoryManagement/buddy.c:55-102 | Every run of malloc and free keeps the invariant. |
| BuddyTheorems.RunTiles | Kernel/memoryManagement/buddy.c:32-109 | In every state reached from init each byte is in exactly one block, each block starts at a multiple of its size and holds its header, and list b holds exactly the free blocks of bucket b, each once. |
| BuddyTheorems.UsedDecidesFree | Kernel/memoryManagement/buddy.c:69-101 | The set of free blocks depends only on the set of used ones. |
| BuddyTheorems.EverythingFreed | Kernel/memoryManagement/buddy.c:69-101 | A run that has freed everything, in any order, is back at the single top block. |
| BuddyTheorems.FaultExample | Kernel/memoryManagement/buddy.c:127-141 | With a 32-byte arena the second request runs past the last bucket instead of answering NULL. |
| BuddyList.PushRings | Kernel/memoryManagement/buddyList.c:10-16 | The four link writes of listPush turn the ring of one list into the ring with the entry at its end, leave all other rings and all tags alone. |
| BuddyList.RemoveRings | Kernel/memoryManagement/buddyList.c:18-23 | The two link writes of listRemove take exactly the entry out of its ring, leave all other rings and all tags alone. |
| BuddyList.OverwriteRings | Kernel/memoryManagement/buddyList.c:5-34 | Writing over memory at places that are in no list keeps every ring. |
| BuddyList.Arena.Initialize | Kernel/memoryManagement/buddyList.c:5-8 | listInitialize adds an empty list. |
| BuddyList.Arena.Push | Kernel/memoryManagement/buddyList.c:10-16 | listPush makes the entry the last of its list. |
| BuddyList.Arena.Remove | Kernel/memoryManagement/buddyList.c:18-23 | listRemove takes the entry out of its list. |
| BuddyList.Arena.Pop | Kernel/memoryManagement/buddyList.c:25-32 | listPop answers and removes the last entry, NULL for an empty list. |
| BuddyList.Arena.IsEmpty | Kernel/memoryManagement/buddyList.c:34 | True exactly for an empty list. |
| BuddyAllocator.BucketsFor | Kernel/memoryManagement/buddy.c:40-44 | The number of buckets is the largest, up to the limit, whose top block fits the heap; there is a bucket whose blocks hold a header if and only if the heap has 32 bytes. |
| BuddyAllocator.Allocator.constructor | Kernel/memoryManagement/buddy.c:32-53 | Initialisation over arbitrary memory establishes the invariant with one free top block. |
| BuddyAllocator.Allocator.GetAvailableBucket | Kernel/memoryManagement/buddy.c:127-141 | The loop answers the first bucket with a free block; the number of buckets if there is none; -1 only beyond that. |
| BuddyAllocator.Allocator.Malloc | Kernel/memoryManagement/buddy.c:55-80 | NULL exactly for the refused requests, a payload exactly if some free block has room; the payload is what the caller may free, behind the header of the best-fitting block, with all its bytes inside it; every header keeps saying what its block is. For every request whose sum does not wrap. |
| BuddyAllocator.Allocator.HalveDown | Kernel/memoryManagement/buddy.c:69-76 | The splitting loop performs exactly the specified splits. |
| BuddyAllocator.Allocator.HalveOnce | Kernel/memoryManagement/buddy.c:69-76 | One turn writes the two halves' headers and pushes the upper one. |
| BuddyAllocator.Allocator.Free | Kernel/memoryManagement/buddy.c:82-102 | Exactly the block of the pointer goes out of use, no other; NULL changes nothing; every header keeps saying what its block is. |
| BuddyAllocator.Allocator.MallocThenFree | Kernel/memoryManagement/buddy.c:55-102 | malloc and then free of what it has answered leave blocks and free lists, with their order, as they were. |
| BuddyAllocator.Allocator.MergeUp | Kernel/memoryManagement/buddy.c:87-101 | The merging loop reads only real headers and performs exactly the specified merges. |
| BuddyAllocator.Allocator.MergeOnce | Kernel/memoryManagement/buddy.c:87-99 | One turn unlinks the buddy and goes on with the lower of the two in the next bucket. |
| BuddyAllocator.Allocator.WritePayload | Kernel/memoryManagement/buddy.c:55-80 | Whatever a process writes behind the header of its block and inside it, and whatever that makes of headers read at overlapping offsets, the allocator stays valid in the same state. |
| Scheduler.FirstReadyIs | Kernel/processManagement/processManager.c:108-119 | The first ready process is the only ready one with none before it. |
| SchedulerTheorems.DispatchOutcome | Kernel/processManagement/processManager.c:108-123 | The base process is picked if and only if nobody in the queue is ready; otherwise the first ready one, the ones behind it move up, the blocked ones before it follow in order, the terminated ones before it are gone; the time slice is the priority. |
| SchedulerTheorems.YieldLetsGo | Kernel/processManagement/processManager.c:220-223 | yield gives the CPU to the first ready process of the queue and the caller queues up. |
| SchedulerTheorems.DispatchPlaces | Kernel/processManagement/processManager.c:108-121 | Dispatching puts every queued pid in exactly one place: CPU, queue or freed. |
| SchedulerTheorems.TickPlaces | Kernel/processManagement/processManager.c:86-127 | A tick loses, duplicates and revives no pid. |
| SchedulerTheorems.StepPlaces | Kernel/processManagement/processManager.c:86-301 | Every call does so, but for the one new pid of newProcess. |
| SchedulerTheorems.StepCounter | Kernel/processManagement/processManager.c:311-338 | The pid counter moves exactly when a control block is begun, and the base process stays the same. |
| SchedulerTheorems.InitialInv | Kernel/processManagement/processManager.c:68-84 | The invariant holds after initialisation. |
| SchedulerTheorems.StepKeepsInv | Kernel/processManagement/processManager.c:86-301 | Every call keeps live pids distinct, never reuses one, and keeps priorities and time slices within the maximum. |
| SchedulerTheorems.RunKeepsInv | Kernel/processManagement/processManager.c:86-301 | So does every run. |
| SchedulerTheorems.StepDead | Kernel/processManagement/processManager.c:225-247 | TERMINATED is never left, and off the CPU a terminated process never gets it back. |
| SchedulerTheorems.DeadForEver | Kernel/processManagement/processManager.c:93-119 | Over every run a dead process is never dispatched and its memory is given back at most once. |
| SchedulerTheorems.DispatchNearer | Kernel/processManagement/processManager.c:108-123 | A dispatch gives a ready queued process the CPU or moves it a whole time slice nearer. |
| SchedulerTheorems.StepNearer | Kernel/processManagement/processManager.c:86-127 | For a ready waiting process, 51 times the number ahead plus the cycles left falls at every tick and rises at no other call that spares it. |
| SchedulerTheorems.RunsBeforeBound | Kernel/processManagement/processManager.c:86-127 | It has the CPU before that many ticks and one are over. |
| SchedulerTheorems.BoundedWait | Kernel/processManagement/processManager.c:86-127 | A ready process with k ahead of it, that nobody blocks or kills, gets the CPU within 51 * (k + 1) ticks, whatever else is created, blocked or re-prioritised. |
| SchedulerSlices.KeepsCpu | Kernel/processManagement/processManager.c:86-92 | While the running process has cycles left it stays on the CPU and each tick takes exactly one, whatever happens to others. |
| SchedulerSlices.GivesWay | Kernel/processManagement/processManager.c:86-127 | With no cycle left a tick gives the CPU to the first ready process of the queue, for as many cycles as its priority. |
| SchedulerSlices.StartsAgain | Kernel/processManagement/processManager.c:86-127 | If nobody in the queue is ready it goes on running, for as many cycles as its priority is now. |
| SchedulerSlices.ExactSlice | Kernel/processManagement/processManager.c:86-127 | A process that is dispatched, and that nobody blocks, kills or lets yield, has the CPU for exactly as many ticks as its priority; the next tick takes it away if and only if somebody else is ready. |
| ProcessQueue.ProcessList.QueueProcess | Kernel/processManagement/processManagerQueue.c:5-20 | The linked queue represents the old sequence with the process at its end, sizes exact, if and only if it was not empty or the process had no successor. |
| ProcessQueue.ProcessList.DequeueProcess | Kernel/processManagement/processManagerQueue.c:22-36 | The first process is taken off, NULL for an empty queue, sizes exact. |
| ProcessQueue.ProcessList.Restate | Kernel/processManagement/processManager.c:225-247 | A queued process changes state in place and the ready counter follows. |
| ProcessManager.SkipKeepsDispatch | Kernel/processManagement/processManager.c:109-119 | Passing over a process that is not ready changes nothing about what is dispatched. |
| ProcessManager.HeadIsDispatched | Kernel/processManagement/processManager.c:109-119 | A ready process at the head is the one dispatched, and the rest stays as it is. |
| ProcessManager.ChangeableIff | Kernel/processManagement/processManager.c:225-247 | setState, kill, block and ready answer the pid, not -1, if and only if a process with it is there and not terminated. |
| ProcessManager.Manager.constructor | Kernel/processManagement/processManager.c:68-84 | The base process exists and is neither queued nor current. |
| ProcessManager.Manager.GetProcess | Kernel/processManagement/processManager.c:395-408 | The current process, else the first queued one with the pid, else NULL. |
| ProcessManager.Manager.SetState | Kernel/processManagement/processManager.c:225-247 | State and ready counter change as specified; the answer is the pid, or -1 for an unknown or terminated process. |
| ProcessManager.Manager.FreeProcess | Kernel/processManagement/processManager.c:410-417 | Each node is given back at most once, when it is neither queued nor current nor the base process. |
| ProcessManager.Manager.Tick | Kernel/processManagement/processManager.c:86-127 | The code of the tick moves the abstract state as specified, and somebody runs afterwards; how long is SchedulerSlices.ExactSlice. |
| ProcessManager.Manager.Park | Kernel/processManagement/processManager.c:95-105 | The current process goes to the back of the queue, or is freed after waking a parent that waits for it. |
| ProcessManager.Manager.DispatchNext | Kernel/processManagement/processManager.c:108-123 | The base process is picked exactly when the ready counter is 0, which is when nobody in the queue is ready. |
| ProcessManager.Manager.PickReady | Kernel/processManagement/processManager.c:109-119 | The dispatch loop ends, picks the first ready process, and leaves the ones behind it followed by the blocked ones before it. |
| ProcessManager.Manager.SkipOne | Kernel/processManagement/processManager.c:112-118 | One turn frees a terminated process or puts a blocked one at the back. |
| ProcessManager.Manager.KillProcess | Kernel/processManagement/processManager.c:173-181 | Kills the process, and gives up the CPU if it is the current one. |
| ProcessManager.Manager.BlockProcess | Kernel/processManagement/processManager.c:183-191 | Blocks the process, and gives up the CPU if it is the current one. |
| ProcessManager.Manager.ReadyProcess | Kernel/processManagement/processManager.c:193 | Makes the process ready unless it is terminated. |
| ProcessManager.Manager.Yield | Kernel/processManagement/processManager.c:220-223 | Gives up the rest of the time slice. |
| ProcessManager.Manager.SetPriority | Kernel/processManagement/processManager.c:249-262 | Clamps the priority and writes it to the process, if there is one. |
| ProcessManager.Manager.Wait | Kernel/processManagement/processManager.c:295-301 | Makes the child a foreground process and blocks the caller. |
| ProcessManager.Manager.NewProcess | Kernel/processManagement/processManager.c:129-171 | A new ready process is last in the queue, under a pid never used; a foreground one blocks its parent; every failing allocation leaves all else alone. |
| Semaphore.Accounting | Kernel/semaphores/semaphores.c:37-71 | Value minus waiters equals the initial balance plus posts minus waits, and value and waiters are never both positive. |
| Semaphore.ArrivalOrder | Kernel/semaphores/semaphores.c:162-169 | Waiters are released in the order they arrived. |
| Semaphore.UsersFit | Kernel/semaphores/semaphores.c:37-54 | If at most 20 processes use a semaphore and each waits at most once, one more of them that wants to wait finds a place in the array. |
| SemaphoreNode.SemNode.TakeOrQueue | Kernel/semaphores/semaphores.c:37-54 | The node takes a token or writes the pid down, as specified. |
| SemaphoreNode.SemNode.GiveOrRelease | Kernel/semaphores/semaphores.c:56-71 | The node releases the longest waiter or raises its value, as specified. |
| SemaphoreNode.SemNode.Shift | Kernel/semaphores/semaphores.c:162-169 | The shifting loop takes exactly the first waiter out of the array. |
| SemaphoreTable.Table.GetSemaphore | Kernel/semaphores/semaphores.c:151-160 | Finds the semaphore with the id, NULL exactly if there is none. |
| SemaphoreTable.Table.SemOpen | Kernel/semaphores/semaphores.c:19-35 | Creates the semaphore or adds a listener; -1 exactly without memory or with 20 listeners. |
| SemaphoreTable.Table.SemWait | Kernel/semaphores/semaphores.c:37-54 | List, arrays and process manager together move as the kernel step says. |
| SemaphoreTable.Table.SemPost | Kernel/semaphores/semaphores.c:56-71 | The same for a post, which readies the released process. |
| SemaphoreTable.Table.SemClose | Kernel/semaphores/semaphores.c:73-88 | The last listener to close removes the semaphore. |
| SemaphoreTable.Table.CreateSemaphore | Kernel/semaphores/semaphores.c:125-137 | A new semaphore is last in the list, the others are as they were. |
| SemaphoreTable.Table.AddSemaphore | Kernel/semaphores/semaphores.c:139-149 | The node is linked behind the last one. |
| SemaphoreTable.Table.RemoveSemaphore | Kernel/semaphores/semaphores.c:112-123 | Exactly this node is unlinked. |
| SchedulerView.SetStateView | Kernel/processManagement/processManager.c:225-247 | By pid, only the target's state changes. |
| SchedulerView.DispatchView | Kernel/processManagement/processManager.c:108-123 | By pid, a dispatch changes nothing. |
| SchedulerView.TickView | Kernel/processManagement/processManager.c:86-127 | By pid, a tick only removes a terminated current process and readies its waiting parent; afterwards whoever runs is ready. |
| KernelSync.NewView | Kernel/processManagement/processManager.c:129-171 | By pid, newProcess adds the child and blocks the caller of a foreground one. |
| KernelSync.EndView | Kernel/processManagement/processManager.c:173-181 | By pid, a process that ends disappears and readies its waiting parent. |
| KernelCalls.SetStateEffect | Kernel/processManagement/processManager.c:225-247 | Exactly the control block with the pid changes its state, if it is there and not terminated; otherwise nothing changes. |
| KernelCalls.KillAndBlock | Kernel/processManagement/processManager.c:173-191 | Kill and block change exactly the state of their target, and a tick follows if and only if it runs. |
| KernelCalls.SetPriorityEffect | Kernel/processManagement/processManager.c:249-262 | Exactly the control block with the pid gets the priority from 0 to 50 nearest to the one asked for. |
| KernelCalls.NewChild | Kernel/processManagement/processManager.c:129-171 | The new process is ready, under the next pid, a child of the caller; it is a foreground one, of priority 2, if and only if a foreground process asked for that, which is then blocked, and else of priority 1; nobody else changes. |
| KernelCalls.FirstChild | Kernel/processManagement/processManager.c:311-326 | With no process running the child has parent 0 and is a foreground one as asked. |
| KernelCalls.IdleIsFirst | Kernel/processManagement/processManager.c:68-84 | The base process is what newProcess makes in an empty system, taken off the queue. |
| KernelCalls.NewFails | Kernel/processManagement/processManager.c:129-171 | When newProcess fails it has used up a pid if the control block was begun, and changed nothing else. |
| KernelCalls.WaitView | Kernel/processManagement/processManager.c:295-301 | By pid, wait makes its target a foreground process and blocks the caller; without a target it changes nothing. |
| KernelSync.WaitKeepsKInv | Kernel/semaphores/semaphores.c:37-54 | semWait keeps the joint invariant. |
| KernelSync.PostKeepsKInv | Kernel/semaphores/semaphores.c:56-71 | semPost keeps the joint invariant. |
| KernelSync.BootInv | Kernel/processManagement/processManager.c:68-84 | The joint invariant holds when the first process runs. |
| KernelSync.StepKeepsKInv | Kernel/semaphores/semaphores.c:19-88 | Every call keeps it: each pid in an array of waiters is a queued, blocked process waiting on that one semaphore only, and whoever is blocked waits on a semaphore or a child. |
| KernelSync.RunKeepsKInv | Kernel/semaphores/semaphores.c:19-88 | So does every run. |
| KernelSync.PostWakesLongest | Kernel/semaphores/semaphores.c:56-71 | No lost wake-up: a post with waiters makes exactly the longest waiter ready and raises the ready counter by one; no other process changes. |
| KernelSync.PostWakesTheLiving | Kernel/semaphores/semaphores.c:162-169 | In any scheduler state a post wakes a process if and only if the longest waiter is still queued and not terminated; otherwise nobody gets the token. |
| KernelSync.KilledWaiterTakesToken | Kernel/semaphores/semaphores.c:162-169 | After the longest waiter was killed a post takes its pid out of the array and changes nothing else: the token is gone. |
| KernelSync.LastCloseLosesWaiters | Kernel/semaphores/semaphores.c:73-88 | A last close that leaves waiters behind breaks the joint invariant: they stay blocked, no post finds the semaphore, and opening it anew does not bring them back. |
| KernelAccounts.TokensBalance | Kernel/semaphores/semaphores.c:37-71 | Over every run in which a semaphore stays open, value minus waiters is what it was, plus the posts, minus the waits on that id. |
| KernelAccounts.SinceOpened | Kernel/semaphores/semaphores.c:19-71 | Counted from the semOpen that created it: the balance is its initial value plus posts minus waits, held as value if it is not negative, else as that many waiters. |
| KernelAccounts.OthersUntouched | Kernel/semaphores/semaphores.c:19-88 | A call on one id changes no other semaphore, and a call on none changes none. |
| KernelAccounts.RunsOnItsOwn | Kernel/semaphores/semaphores.c:37-71 | In a run of the kernel each semaphore goes through the run of its own waits and posts. |
| KernelAccounts.FirstComeFirstServed | Kernel/semaphores/semaphores.c:37-71 | So its waiters are woken in the order in which they began to wait. |
| KernelAccounts.WaitTakesOrBlocks | Kernel/semaphores/semaphores.c:37-54 | A wait takes a token and lets the caller go on if there is one; else the caller is blocked, last of those that wait, and nobody else changes. |
| KernelAccounts.PostAdds | Kernel/semaphores/semaphores.c:56-71 | A post that finds nobody waiting adds a token and changes nothing else. |
| KernelOpeners.OwnedIsEnabled | Kernel/semaphores/semaphores.c:37-54 | A process that waits on a semaphore it has open finds room in the array; one that closes last leaves no waiter behind. |
| KernelOpeners.StepKeepsOpeners | Kernel/semaphores/semaphores.c:19-88 | Every call of processes that wait on and close only what they have open keeps the number of openers equal to the count of listeners, at most 20, with every waiter among them. |
| KernelOpeners.OwnedRunKeeps | Kernel/semaphores/semaphores.c:19-88 | Every run of such calls keeps all invariants, with nothing assumed about room. |
| KernelOpeners.RoomForOpeners | Kernel/semaphores/semaphores.c:19-54 | So from the start of the kernel on, a wait by an opener always finds fewer than 20 waiters. |
| KernelOpeners.TwentyFirstWaiter | Kernel/semaphores/semaphores.c:37-54 | A run from the start of the kernel in which 20 processes that did not open the semaphore wait, and a 21st is about to. |
| KernelOpeners.WaiterLost | Kernel/semaphores/semaphores.c:56-88 | A run from the start of the kernel to a state in which the running process can lose another that waits, by killing it and posting, or by closing the semaphore. |
| Pipes.OpenedInv | Kernel/pipes/pipes.c:119-140 | A pipe just opened satisfies the invariant. |
| Pipes.StepKeepsInv | Kernel/pipes/pipes.c:43-99 | Every half of a read or write keeps tokens, ring and order of writers. |
| Pipes.RunKeepsInv | Kernel/pipes/pipes.c:43-99 | So does every interleaving. |
| Pipes.Fifo | Kernel/pipes/pipes.c:43-99 | What was read is a prefix of what was stored, the rest is 0 to 1024 bytes and in the ring in order, and the bytes each process called write with are stored in that order, all but the last if it still waits. |
| Pipes.RingHoldsUnread | Kernel/pipes/pipes.c:43-99 | The i-th unread byte is where the read index says, and the write index is right behind the last one. |
| Pipes.ReadsOldest | Kernel/pipes/pipes.c:43-63 | A read that returns gives the oldest unread byte. |
| Pipes.BlocksIffGranted | Kernel/pipes/pipes.c:43-99 | A read blocks if and only if every unread byte is granted to a woken reader, a write if and only if every free place is granted to a woken writer. |
| Pipes.SleepersAreNeeded | Kernel/pipes/pipes.c:43-99 | If a reader sleeps every unread byte is granted to a woken reader, if a writer sleeps every free place to a woken writer. |
| Pipes.Progress | Kernel/pipes/pipes.c:43-99 | If readers and writers both sleep, some woken process holds a token and can go on. |
| PipeUsers.RoomIffTwenty | Kernel/pipes/pipes.c:43-99 | Whatever a set of processes does with a pipe, every call finds room among the waiters if and only if they are at most 20. |
| PipeBuffer.PipeObject.constructor | Kernel/pipes/pipes.c:119-140 | Two semaphores with 0 and 1024 tokens and an empty ring. |
| PipeBuffer.PipeObject.StartWrite | Kernel/pipes/pipes.c:87-99 | pipeWriter up to where it blocks, or to its end. |
| PipeBuffer.PipeObject.ResumeWrite | Kernel/pipes/pipes.c:87-99 | The rest of pipeWriter after it was woken. |
| PipeBuffer.PipeObject.StartRead | Kernel/pipes/pipes.c:43-63 | pipeRead up to where it blocks, or its result. |
| PipeBuffer.PipeObject.ResumeRead | Kernel/pipes/pipes.c:43-63 | The result of pipeRead after it was woken. |
| SemaphoreTest.StepKeepsInv | Userland/SampleCodeModule/semaphoreTest/semaphoreTest.c:22-52 | Every step of every process keeps one token, one process inside and all completed additions in the shared variable; whoever goes to sleep has a place in the array of 20. |
| SemaphoreTest.RoomToSleep | Userland/SampleCodeModule/semaphoreTest/semaphoreTest.c:38-46 | A process about to wait finds fewer than 20 waiters, because semOpen has turned away the 21st. |
| SemaphoreTest.TurnedAwayIff | Userland/SampleCodeModule/semaphoreTest/semaphoreTest.c:35-38 | semOpen turns a process away if and only if 20 have the semaphore open, or there is none and no memory for it. |
| SemaphoreTest.RunKeepsInv | Userland/SampleCodeModule/semaphoreTest/semaphoreTest.c:22-52 | So does every interleaving. |
| SemaphoreTest.MutualExclusion | Userland/SampleCodeModule/semaphoreTest/semaphoreTest.c:38-46 | At most one process is between semWait and semPost. |
| SemaphoreTest.NoLostUpdates | Userland/SampleCodeModule/semaphoreTest/semaphoreTest.c:22-52 | If every process with work uses the semaphore, then when all have finished the variable is its start value plus value * N of every process semOpen admitted, and the semaphore is gone. |
| SemaphoreTest.SomebodyMoves | Userland/SampleCodeModule/semaphoreTest/semaphoreTest.c:29-52 | While somebody has not finished, somebody can move. |
| LostUpdates.NoRaceNoLoss | Userland/SampleCodeModule/semaphoreTest/semaphoreTest.c:22-52 | Without a pair of racing processes every finished run has the right sum. |
| LostUpdates.RaceLoses | Userland/SampleCodeModule/semaphoreTest/semaphoreTest.c:22-52 | With such a pair some finished run has not: one is suspended between reading and writing while the other does a whole round. |
| LostUpdates.LosesIffRacy | Userland/SampleCodeModule/semaphoreTest/semaphoreTest.c:22-52 | When all start together, some run loses an update if and only if two processes with work, not both under the semaphore, are there and not both add zero. |
| LostUpdates.PairsLose | Userland/SampleCodeModule/semaphoreTest/semaphoreTest.c:58-86 | The pairs of testNoSync can lose updates, those of testSync cannot. |
| RunsEnd.StepCosts | Userland/SampleCodeModule/semaphoreTest/semaphoreTest.c:22-52 | Every step of every process lowers the number of steps that are left, a woken process included. |
| RunsEnd.RunsAreBounded | Userland/SampleCodeModule/semaphoreTest/semaphoreTest.c:22-52 | No run is longer than five steps a round and two a process, with or without the semaphore. |
| RunsEnd.StoppedIsFinished | Userland/SampleCodeModule/semaphoreTest/semaphoreTest.c:22-52 | Under the semaphore a run that cannot go on has everybody finished and nothing lost. |
| RunsEnd.EveryRunEnds | Userland/SampleCodeModule/semaphoreTest/semaphoreTest.c:22-52 | Under the semaphore every run can be brought to that end. |
| FreeListState.RequestIsTight | Kernel/memoryManagement/memoryManager.c:38-48 | The units asked for are no more than needed, and enough for header and bytes if and only if the sum does not wrap. |
| FreeListState.WrapExample | Kernel/memoryManagement/memoryManager.c:38-48 | A request of 2^64 - 1 bytes is answered with a block that is all header. |
| FreeListState.UnitsAreOneMore | Kernel/memoryManagement/memoryManager.c:28-36 | The arena is one header more than the heap size rounded up, and one free block at first. |
| FreeListState.FirstFitIsFirst | Kernel/memoryManagement/memoryManager.c:52-74 | The search stops at the first block, from the rover round, that is large enough. |
| FreeListState.EveryoneVisited | Kernel/memoryManagement/memoryManager.c:52-74 | One lap meets every free block. |
| FreeListState.MallocEffect | Kernel/memoryManagement/memoryManager.c:38-77 | malloc answers NULL if and only if nothing is asked for, no free block is large enough or the only one fits exactly; else a block apart from all others, inside the arena, of exactly the units asked for, with room for the bytes if and only if the sum did not wrap. |
| FreeListState.MallocPlaces | Kernel/memoryManagement/memoryManager.c:48-74 | The block is the end of the first one large enough on the lap from the rover; what is left of that stays free, all other free blocks stay as they are, and the next search starts behind the block before it. |
| FreeListState.RankSplits | Kernel/memoryManagement/memoryManager.c:94-106 | The place of a freed block in address order. |
| FreeListState.InsertedKeeps | Kernel/memoryManagement/memoryManager.c:115-131 | Joining with both neighbours leaves the free blocks in address order with no two touching. |
| FreeListState.FreeInv | Kernel/memoryManagement/memoryManager.c:79-134 | free as it is meant keeps the invariant and gives back exactly the units of the block; that the code does this outside the uncovered case is FreeListAllocator.Allocator.Free. |
| FreeListState.FreeRover | Kernel/memoryManagement/memoryManager.c:92-133 | After a free the next search starts behind the free block next below the freed one, or behind the last one if there is none below. |
| FreeListState.UncoveredReached | Kernel/memoryManagement/memoryManager.c:115-131 | Three requests and one free, from initialisation, lead to a used block that ends where the only free one starts. |
| FreeListState.RunKeepsInv | Kernel/memoryManagement/memoryManager.c:28-134 | Over every run blocks stay disjoint, free ones never touch, and free plus used units equal total_units. |
| FreeListState.EverythingFreed | Kernel/memoryManagement/memoryManager.c:28-134 | A run that has freed everything is back at the one initial block. |
| FreeListTiles.Tiles | Kernel/memoryManagement/memoryManager.c:28-134 | Free and used blocks cover every unit of the arena, none twice. |
| FreeListTiles.UsedDecidesFree | Kernel/memoryManagement/memoryManager.c:28-134 | The free list depends only on the set of used blocks. |
| FreeListTiles.FreeUndoesMalloc | Kernel/memoryManagement/memoryManager.c:38-134 | free, as it is meant, of what malloc has just answered gives the free list back. |
| FreeListLinks.BypassedLinked | Kernel/memoryManagement/memoryManager.c:55-57 | Linking the previous block past the current one leaves the circle without it. |
| FreeListLinks.ShrunkLinked | Kernel/memoryManagement/memoryManager.c:58-62 | Shrinking a block in place keeps the circle. |
| FreeListLinks.TestsAreRight | Kernel/memoryManagement/memoryManager.c:115-125 | free's two address comparisons hold exactly when the freed block touches its upper or lower neighbour. |
| FreeListLinks.RelinkedLinked | Kernel/memoryManagement/memoryManager.c:115-131 | In all covered cases the writes of free give the circle of the joined list. |
| FreeListLinks.UncoveredBreaks | Kernel/memoryManagement/memoryManager.c:115-131 | In the uncovered case what is left represents no state at all. |
| FreeListAllocator.StopsAt | Kernel/memoryManagement/memoryManager.c:94-106 | free's search stops at the block before the freed one, inside the list or at its wrap, nowhere else; no free header has the freed one's address. |
| FreeListAllocator.GuardPasses | Kernel/memoryManagement/memoryManager.c:109-113 | The overlap guard never rejects a block in use. |
| FreeListAllocator.PayloadIsNoHeader | Kernel/memoryManagement/memoryManager.c:38-77 | Writing behind a used block's header disturbs nothing. |
| FreeListAllocator.Allocator.constructor | Kernel/memoryManagement/memoryManager.c:28-36 | Initialisation over arbitrary memory gives one free block linked to itself. |
| FreeListAllocator.Allocator.Malloc | Kernel/memoryManagement/memoryManager.c:38-77 | The walking loop ends within a lap and headers, free_node and answer are as specified. |
| FreeListAllocator.Allocator.Take | Kernel/memoryManagement/memoryManager.c:54-72 | The writes for a block found, and the NULL for an exact fit of the only block. |
| FreeListAllocator.Allocator.FindPlace | Kernel/memoryManagement/memoryManager.c:92-113 | The search for the place ends within a lap, and no guard fires. |
| FreeListAllocator.Allocator.Free | Kernel/memoryManagement/memoryManager.c:79-134 | free moves the state as specified if and only if the block does not end where the only free block starts; in that case no valid state is left. |
| FreeListAllocator.Allocator.WritePayload | Kernel/memoryManagement/memoryManager.c:38-77 | Whatever a process writes behind its header, the allocator stays valid. |
| Numerals.NumeralUnique | Kernel/libraries/prints.c:34-61 | The printed numeral is the one digit string of that value without a needless leading zero. |
| Prints.UintToBase | Kernel/libraries/prints.c:34-61 | The buffer holds that numeral and a terminator, nothing behind it changes, and the answer is its length. |
| Numerals.Reverse | Userland/SampleCodeModule/libraries/libc.c:384-388 | Exactly the given stretch of the buffer is reversed in place. |
| Numerals.IntToStr | Userland/SampleCodeModule/libraries/libc.c:397-435 | The buffer holds the numeral, with a sign in base ten only; a base outside 2 to 32 changes nothing. |
| Numerals.StrToInt | Userland/SampleCodeModule/libraries/libc.c:299-331 | The loop reads the leading digits; the sign counts only if nothing else follows them; the size is what was read. |
| Numerals.StrToHex | Userland/SampleCodeModule/libraries/libc.c:333-348 | The value in base 16, or -1 for any other character. |
| Numerals.PrintThenReadInt | Userland/SampleCodeModule/libraries/libc.c:299-435 | strToInt undoes intToStr in base ten for every value, and the size is the length of the text. |
| Numerals.PrintThenReadHex | Userland/SampleCodeModule/libraries/libc.c:333-435 | strToHex undoes intToStr in base 16 for every value from 0 up. |
| Numerals.SignIsLost | Userland/SampleCodeModule/libraries/libc.c:420-427 | v and -v print alike if and only if v is 0 or the base is not ten. |
| Numerals.DigitCharIs | Userland/SampleCodeModule/libraries/libc.c:406-414 | The digits print as 0 to 9 and then upper-case letters. |
| Numerals.IntTextIs | Userland/SampleCodeModule/libraries/libc.c:397-435 | In every base the text is the one proper digit string of the absolute value, with a sign in base ten only. |
| Numerals.ParseIntIs | Userland/SampleCodeModule/libraries/libc.c:299-331 | Of any text at all strToInt reads a sign and the digits up to the first other character; the value carries the sign if and only if nothing follows, and the size is that of sign and digits. |
| Numerals.ParseHexIs | Userland/SampleCodeModule/libraries/libc.c:333-348 | A text of hexadecimal digits, in upper or lower case, reads as their value in base 16. |
| Numerals.ParseHexFails | Userland/SampleCodeModule/libraries/libc.c:333-348 | strToHex answers -1 if and only if some character is no hexadecimal digit. |
| BmfsPlacement.PlaceIsLowest | Bootloader/BMFS/bmfs.c:556-586 | The search finds the lowest place where the file fits, if it fits anywhere; if not, it says so if and only if no deleted entry's old extent leaves room behind it. |
| BmfsPlacement.PlaceStale | Bootloader/BMFS/bmfs.c:569-580 | Among deleted entries the search answers 0 if and only if none leaves room behind it. |
| Bmfs.SortedArranged | Bootloader/BMFS/bmfs.c:494-503 | A copy sorted by the comparison has the files in order of their blocks, without overlap, then the deleted entries. |
| Bmfs.CreateOutcome | Bootloader/BMFS/bmfs.c:505-612 | create says that the file exists if and only if the name is taken, and that there is no entry if and only if all are in use; without success nothing changes. |
| Bmfs.CreateKeepsLayout | Bootloader/BMFS/bmfs.c:505-612 | create succeeds if and only if the name is new and the file fits; it goes to the lowest place, nothing else changes, and extents stay disjoint, in range and of distinct names. |
| Bmfs.DeleteKeepsLayout | Bootloader/BMFS/bmfs.c:676-691 | delete takes exactly its file away and keeps the layout; the entry keeps its extent, its size and the rest of its name. |
| Bmfs.RunKeepsLayout | Bootloader/BMFS/bmfs.c:505-691 | So does every run of such calls. |
| BmfsFailures.FullDirectory | Bootloader/BMFS/bmfs.c:517-601 | In a full directory with a deleted entry a new file goes to block 1; if the first entry was free the end marker lands in the second and all other files are gone, otherwise the layout is kept if and only if the file fits at block 1. |
| BmfsFailures.FullDirectoryReached | Bootloader/BMFS/bmfs.c:505-691 | 64 creations and a deletion lead there, and the next creation loses 63 files or is put on top of one. |
| BmfsFailures.CreateIsSafeIff | Bootloader/BMFS/bmfs.c:505-612 | With an end marker and a new name, create keeps the layout if and only if the file fits somewhere or no deleted entry leaves room behind it. |
| BmfsFailures.StaleReached | Bootloader/BMFS/bmfs.c:556-586 | Two creations, two deletions and a creation lead to a directory in which the next creation is put on top of a file. |
| Bmfs.FindFile | Bootloader/BMFS/bmfs.c:167-188 | Found if and only if a live entry before the end marker has the name. |
| Bmfs.CountEntries | Bootloader/BMFS/bmfs.c:529-552 | The first entry to use, and the number of entries in use. |
| Bmfs.Search | Bootloader/BMFS/bmfs.c:560-586 | The loop computes the specified place. |
| Bmfs.CreateFile | Bootloader/BMFS/bmfs.c:505-612 | The writes to the directory are as specified, an odd size rounded up. |
| Bmfs.DeleteFile | Bootloader/BMFS/bmfs.c:676-691 | The first byte of the name is overwritten, the extent stays. |

## Left out

- BuddyAllocator.Allocator.Malloc: does not say what a request does whose sum with the header wraps, because the block is then too small for its own header (BuddySizing.RoomIffNoWrap, BuddySizing.WrapExample).
- BuddyAllocator.Allocator.constructor: heaps below 32 bytes or from 2^32 - 1 bytes on, for which the 32-bit logarithm does not see the size.
- BuddyTheorems.RunKeepsInv: runs in which malloc reads past the last bucket, because what it then does depends on memory outside the allocator.
- FreeListState.RunKeepsInv: runs with the uncovered free, after which there is no allocator left.
- FreeListAllocator.Allocator.Free: pointers that are not to a block in use, for which the guards of the code are not enough; so the alignment test, which all blocks in use pass, is not written out.
- ProcessManager.Manager.NewProcess: a new node whose unset `next` is not null (see ProcessQueue.ProcessList.QueueProcess).
- KernelSync.RunKeepsKInv: `wait`, and kill, block and ready calls aimed at other processes, for which the code does not keep this invariant (KernelSync.PostWakesTheLiving says what a post then does, KernelOpeners.WaiterLost that it happens); a semaphore with 20 waiters that gets another one, and a last close that leaves waiters behind, which KernelOpeners.OwnedRunKeeps shows do not happen to openers.
- SemaphoreTable.Table.SemWait: a 21st waiter, which the code writes behind the array (KernelOpeners.TwentyFirstWaiter).
- Pipes.RunKeepsInv: a 21st process that waits on one end of a pipe (PipeUsers.RoomIffTwenty).
- SemaphoreTest.NoLostUpdates: wrap-around of the 64-bit variable; conversion of the arguments; the printed messages.
- Numerals.IntToStr: the least int, whose absolute value does not exist in 32 bits.
- Numerals.StrToInt: wrap-around of a value outside 32 bits, here and in Numerals.StrToHex.
- Bmfs.CreateKeepsLayout: directories without an end marker (BmfsFailures.FullDirectory), and the case in which the search goes astray (BmfsFailures.CreateIsSafeIff, BmfsFailures.StaleReached).
- Bmfs.CreateFile: names longer than the entry's 31 characters, what becomes of a directory given an empty name, and writing the directory back to the disk file.
- Bmfs.SortedArranged: block numbers from 2^31 on, whose difference does not fit the comparison's int.
- Opening and closing of pipes with their reference counts: createPipe answers an id where pipeOpen uses an index.
- Invalid and repeated frees in both allocators.
- The dining philosophers program, whose semaphore is never assigned.
- Stack frames, register saving, interrupt assembly, the boot code, IDT and RTC: hardware.
- Keyboard buffer, shell, video, fonts and dumps of the managers' state: user interface.
- BMFS read, write, list, format and initialize: file input and output.
- Module loader and memory setting: only easy members.
