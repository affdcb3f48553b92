# dummyOS: a model of its memory, scheduling and path code

dummyOS is a small 32-bit kernel in C for x86 and ARMv7. This project models its hardest components in Dafny and proves
what they keep over every call and every run. Each module starts with the source files it models.

- `PhysicalMemory.dfy`, `X86Paging.dfy`, `CowModel.dfy`, `VirtualMemory.dfy`, `Boot.dfy`: page frames, the two-level page
  tables, reference-counted regions, mappings and address spaces. `CowModel.dfy` holds the reference: a memory in which
  fork copies every page at once. `Vmm.Run` shows that the lazy code shows exactly the same events, and says of every
  request when it is granted, refused or fatal. `MemoryHistory.dfy` says what those events mean: a load gives the value
  stored last.
- `ArmPaging.dfy`: the three-level page tables of ARMv7, down to the packed descriptor words (section B3.6 of
  ARM DDI 0406C).
- `KernelHeap.dfy`: `kmalloc` and `kfree` over headers that lie in the heap itself, and the growth of the heap.
- `Scheduling.dfy`: ready queues, wait queues, timers, semaphores and the reaper as one step machine with counted
  references. `SleepWindow.dfy`: an interrupt between the moment a thread enters a list to sleep and the switch.
  `ReaperRace.dfy`: a run that leaves the reaper asleep beside a thread it should destroy.
- `ExecArgs.dfy`: the argument block on a new user stack.
- `Paths.dfy`, `Lookup.dfy`: path components and symbolic links (section 4.13 of POSIX.1-2017 Base Definitions).
- `Pipes.dfy`: the ring buffer and the pipe on top of it.
- `Errors.dfy`, `Lists.dfy`: shared types.

How the model is set up: intrusive lists are sequences, a frame is named by its physical address, an address space by
the address of its directory. Where the outcome depends on something outside the model, it is a parameter: `heapOk` and
`copies` say what `kmalloc` grants, `stale` and `blank` what fresh frames hold, `avail` how many pages the heap can get.
Ghost state only records: `owner` names the owner of a used frame, `place` the list a thread is in, `held` the references
to a thread held outside the scheduler, `trace` what happened to the ready queues.

Where the code departs from what it promises, the code is kept and the exact condition is proved: `ScanEnds`,
`FinishesExact`, `HangingLayout` (boot), `Kmalloc`, `RequestLimit`, `SplitAtZero` (heap), `OneWaiter`, `LostWakeup`,
`ReaperExact`, `Race` (semaphores), `TickInWindow`, `WakeInWindow` (sleeping), `Setup`, `SpillExample` (exec),
`UserUnmap`, `UnmapAbsent` (ARM), `Iterate`, `PrefixIsNotProper` (paths), `ReadVisit` (pipes).

## Model

| member | source | states |
|---|---|---|
| PhysicalMemory.FindArea | kernel/mm/memory.c:13-41 | the binary search equals its recursive form, finds nothing if and only if no area holds the address or ends at it, and gives the null page and the kernel image priority |
| PhysicalMemory.SearchExact | kernel/mm/memory.c:24-40 | on a sorted layout the search between two positions fails if and only if no area there holds the address or ends at it |
| PhysicalMemory.ScanStep | kernel/mm/memory.c:118-137 | one turn of the scan of `init_frames` stays at its address if and only if the area found there ends there |
| PhysicalMemory.ScanEnds | kernel/mm/memory.c:108-139 | the whole scan ends if and only if no address it reaches is such an end |
| PhysicalMemory.FinishesExact | kernel/mm/memory.c:108-139 | for a sorted layout the scan of [base, top) ends if and only if no page in it is one at which the area found ends: the scan cannot jump over such a page |
| PhysicalMemory.HangingLayout | kernel/mm/memory.c:143-173 | a kernel image of one page at 1 MB and one page-sized area right after the early frames: the second scan of `memory_init` stops at 0x502000 for good |
| PhysicalMemory.NoStallExact | kernel/mm/memory.c:108-139 | the scan ends if no page outside the kernel image is the end of an area; for areas that do not touch each other, only then |
| PhysicalMemory.PartitionAfterInit | kernel/mm/memory.c:108-173 | the lists filled by the two scans around the early frames hold every page once; a page outside the hole is used if and only if it is reserved |
| PhysicalMemory.PageFrames.EarlyInit | kernel/mm/memory.c:82-96 | the early table and the free list describe 1024 consecutive frames from the top of the kernel |
| PhysicalMemory.PageFrames.InitFrames | kernel/mm/memory.c:108-139 | address and descriptor index are advanced apart and stay together: whenever the scan ends, it has filled one descriptor per page from its offset, returns their number, and has appended free and reserved pages to their lists in order |
| PhysicalMemory.PageFrames.BuildTable | kernel/mm/memory.c:157-172 | the table pointer, moved by the returned count and by the early frames, makes slot k describe page k, or defer to the early table |
| PhysicalMemory.PageFrames.MemoryInit | kernel/mm/memory.c:143-173 | after both scans the descriptor table is a correct index, the lists partition all memory, early frames keep their list and owner, and other pages are used if and only if reserved |
| PhysicalMemory.PageFrames.GetPageFrameAt | kernel/mm/memory.c:175-188 | the descriptor found for an address describes that address, for exactly the page-aligned addresses from base up to top |
| PhysicalMemory.PageFrames.Alloc | kernel/mm/memory.c:190-205 | fails if and only if no frame is free; otherwise the first free frame changes list and gets one owner |
| PhysicalMemory.PageFrames.EarlyAlloc | kernel/mm/memory.c:190-205 | the same before `memory_init`, within the early frames |
| PhysicalMemory.PageFrames.Free | kernel/mm/memory.c:207-221 | fails if and only if the address has no descriptor; otherwise the frame returns to the front of the free list and loses its owner |
| Boot.LayoutFinishes | arch/x86/arch.c:97-102 | with the memory layout of x86 and the kernel at 1 MB both scans end, for every kernel size and memory size |
| Boot.HeapInit | kernel/kheap.c:28-69 | before `memory_init` the pages of the initial heap are mapped, writable, each to an early frame of its own, with new page tables where needed |
| Boot.FramesUp | arch/x86/arch.c:104-120 | `memory_init` on the x86 layout, after which the frames of the image, the boot directory and the boot table have owners |
| Boot.MemoryUp | arch/x86/arch.c:104-120 | `arch_mm_init` brings up a memory manager that satisfies its whole invariant, with no address space and exactly the pages of the initial heap mapped to frames of their own; the frames from 0xa0000 to the end of the image are in use, those below but for the null page are free |
| X86Paging.Paging.constructor | arch/x86/mm/paging.c:184-192 | the boot directory becomes the active one |
| X86Paging.Paging.SyncKernelSpace | arch/x86/mm/paging.c:253-266 | a new kernel directory entry reaches every registered directory |
| X86Paging.Paging.InitKernelSpace | arch/x86/mm/paging.c:268-283 | a new directory gets exactly the kernel entries of the active one |
| X86Paging.Paging.KernelEverywhere | kernel/mm/vmm.c:146-163 | the active directory and all registered ones agree on the kernel entries, so a kernel page translates the same everywhere |
| X86Paging.Paging.MapPage | arch/x86/mm/paging.c:194-233 | the flat map gains exactly the named page; ENOMEM and EFAULT happen exactly when there is no frame for a table or the page is present, and change no translation |
| X86Paging.Paging.UnmapPage | arch/x86/mm/paging.c:235-251 | the flat map loses exactly the named page, or EFAULT if it was not there |
| X86Paging.Paging.UpdateProt | arch/x86/mm/paging.c:374-390 | only the write and user rights of the named page change, or EINVAL if it was not there |
| X86Paging.Paging.CreateDir | arch/x86/mm/vmm.c:23-57 | a new directory is registered with an empty user half, or nothing changes and its frame is given back |
| X86Paging.Paging.ClearUserspace | arch/x86/mm/paging.c:393-407 | every user page table of the directory is given back, each once, and no other frame |
| X86Paging.Paging.DestroyDir | arch/x86/mm/vmm.c:59-72 | the directory and its tables are free again; the other spaces and the kernel map are as before |
| X86Paging.Paging.CloneCow | arch/x86/mm/paging.c:315-356 | the child gets the pages of the slots cloned so far, both sides read-only there; all slots are cloned if and only if there is a free frame for every user page table |
| X86Paging.Paging.Switch | arch/x86/mm/paging.c:68-72 | after a switch every kernel page translates as the shared kernel entries say |
| VirtualMemory.UnmapRange | kernel/mm/vmm.c:165-177 | the pages of the range are gone and no other |
| VirtualMemory.MapRange | kernel/mm/vmm.c:195-211 | all pages of the range are mapped to the frames in order, or the partial mapping is rolled back and all translations are as before; succeeds if and only if the range is free and there is a frame for every missing table |
| VirtualMemory.ProtectRange | kernel/mm/vmm.c:433-447 | the range maps the same frames with the new protection |
| VirtualMemory.AllocFrames | kernel/mm/region.c:90-109 | succeeds if and only if enough frames are free; every frame taken so far is owned by the region at its index |
| VirtualMemory.FreeFrames | kernel/mm/region.c:7-17 | every frame of the region returns to the free list once |
| VirtualMemory.Vmm.RegionCreate | kernel/mm/region.c:122-140 | a region of exactly the frames asked for, or nothing is left behind |
| VirtualMemory.Vmm.RegionUnref | kernel/mm/region.c:25-29 | one reference less, or with the last one all frames of the region are free again |
| VirtualMemory.Vmm.CreateUserMapping | kernel/mm/vmm.c:316-344 | the reference gains exactly these pages, or nothing changes; succeeds if and only if the heap grants the descriptors, the range is free, and the free frames cover the pages and the missing tables |
| VirtualMemory.Vmm.HandleCowFault | kernel/mm/vmm.c:482-518 | no process sees a difference, and afterwards the mapping may be written; fails if and only if the region is shared and memory is missing |
| VirtualMemory.Vmm.CopyPages | kernel/mm/vmm.c:458-475 | the new frames hold what the mapping showed, other memory is untouched |
| VirtualMemory.Vmm.FindMapping | kernel/mm/vmm.c:55-67 | finds the mapping of the current space that covers the page, if any |
| VirtualMemory.Vmm.UserLoad | kernel/mm/vmm.c:520-552 | a user load returns what the eager reference returns, which is the byte stored last (`ReadBack`, `HistoryShown`) |
| MemoryHistory.ReadBack | kernel/mm/vmm.c:458-518 | a byte that was stored is read back, every other byte and every right is as before |
| MemoryHistory.ReadFresh | kernel/mm/vmm.c:316-344 | byte k of page j of a new mapping is what that page held, and may be written if and only if the mapping allows it |
| MemoryHistory.HistoryShown | kernel/mm/vmm.c:273-552 | after every run the memory shows, at every address, the value stored last by the process or by an ancestor before the fork, or else the initial byte of the mapping; it may be written as the mapping was created |
| MemoryHistory.RunRemembers | kernel/mm/vmm.c:482-552 | every load of a run gives that value, and a store is done or kills the process as the history says |
| MemoryHistory.StoreLasts | kernel/mm/vmm.c:458-518 | a stored byte is seen until the process stores there again, whatever other processes do |
| VirtualMemory.Vmm.UserStore | kernel/mm/vmm.c:520-552 | a user store, with the fault it may raise, does what it does to the reference; it kills the process if and only if the reference forbids the store, and panics if and only if it is allowed, the page is shared and there is no memory for the copy |
| VirtualMemory.Vmm.Clone | kernel/mm/vmm.c:273-297 | the child sees what the parent sees, or no other space sees a difference; succeeds if and only if there are descriptors for all mappings and frames for all user page tables |
| VirtualMemory.Vmm.Fork | kernel/fork.c:6-45 | the memory part of fork: a copy of the whole space in the reference, or no change at all, with the exact number of frames it needs |
| VirtualMemory.Vmm.Exit | kernel/mm/vmm.c:118-137 | a space goes away in the reference exactly when it is not the current one |
| VirtualMemory.Vmm.SwitchTo | kernel/mm/vmm.c:38-52 | the space left behind goes away exactly when no process holds it; the kernel map is unchanged |
| VirtualMemory.Vmm.CreateSpace | kernel/mm/vmm.c:85-102 | an empty space, or no change; succeeds if and only if heap and a frame are there |
| VirtualMemory.Vmm.MapKernelPage | kernel/kheap.c:53-60 | one more kernel page, if and only if it was free and there are frames for it and its table: it leads, writable and for the kernel only, to a frame that was free and is now its own; no two such pages share a frame, and no process sees a difference |
| VirtualMemory.Vmm.KernelPagesPrivate | kernel/kheap.c:53-60 | no page of a process leads to the frame of a kernel page |
| VirtualMemory.Vmm.RangeIsFree | kernel/mm/vmm.c:418-431 | true if and only if no mapping of the current space covers a page of the range |
| VirtualMemory.Vmm.ExtendMapping | kernel/mm/vmm.c:356-392 | the process keeps its pages and gains the bytes up to the new break, in blank pages with the rights of the page of the old break and none beyond the new one; or nothing changes; fails if and only if the pages behind the mapping are not free or there is no memory for them |
| VirtualMemory.Vmm.Sbrk | kernel/mm/vmm.c:394-416 | on success every byte between the old and the new break is there, the new pages are writable if the page of the old break was or if there was none, start at or below the new break and are blank, the break moves, and no other space changes; the condition of failure is exact |
| VirtualMemory.Vmm.Run | kernel/mm/vmm.c:273-552 | over every run of spawn, fork, exit, switch, mapping, load, store, kernel mapping and sbrk requests, the events are those of the memory that copies at fork, and it ends in the same contents; every load gives the value stored last; every single request is granted, refused or fatal exactly when the free frames, the tables, the shared mappings and the breaks before it say so; kernel pages lead to frames of their own at every moment |
| VirtualMemory.RequestsSatisfied | kernel/mm/vmm.c:273-552 | what a process can count on: each kind of request, when it can be satisfied, shows its event and its effect |
| VirtualMemory.Vmm.PageInvariant | kernel/mm/region.c:25-39 | page i of a mapping translates to frame i of its region, the reference count is the number of mappings, and a page is writable only if the region allows it and has one holder |
| VirtualMemory.Vmm.NeverOverlap | kernel/mm/vmm.c:316-344 | no two mappings of a space overlap |
| VirtualMemory.Vmm.FramesConserved | kernel/mm/memory.c:190-221 | every frame is free or has exactly one owner, and the owner (region, table, directory) really refers to it |
| ArmPaging.PackIsSum | arch/arm/v7/paging.c:35-42 | the fields of a descriptor do not overlap: the bitwise or is their sum |
| ArmPaging.WordRoundTrip | arch/arm/v7/paging.c:25-42 | decoding a packed word gives back the address and the protection |
| ArmPaging.WordUpdate | arch/arm/v7/paging.c:59-62 | repacking changes the protection and keeps the address |
| ArmPaging.WordReadOnly | arch/arm/v7/paging.c:64-67 | setting the read-only bit takes away write access and nothing else |
| ArmPaging.Mmu.WordsSpeak | arch/arm/v7/paging.c:25-33 | every page of the flat map is a valid packed word in the level-3 table that the processor reaches |
| ArmPaging.Mmu.MapPage | arch/arm/v7/paging.c:119-158 | a window on a frame at a page that was free, or no change; fails only without a free page or a frame for a table |
| ArmPaging.Mmu.UnmapPage | arch/arm/v7/paging.c:160-174 | exactly this window is closed, or EINVAL if it was not open |
| ArmPaging.Mmu.UserMap | arch/arm/v7/paging.c:393-465 | the flat map gains exactly the named page; whatever level fails, no translation changes, the fresh tables are given back and no window stays open |
| ArmPaging.Mmu.UpdateUserProt | arch/arm/v7/paging.c:327-364 | the named page keeps its frame and gets exactly the new protection, no other page changes; with two free windows and frames it succeeds if and only if the page is mapped |
| ArmPaging.Mmu.UserUnmap | arch/arm/v7/paging.c:483-520 | the named page is gone; with two free windows and frames it fails if and only if the level-1 entry is missing, because the other two errors are assigned after the jump |
| ArmPaging.Mmu.UnmapAbsent | arch/arm/v7/paging.c:483-520 | a page that is not mapped, in a gigabyte where another one is, is reported as unmapped |
| ArmPaging.Mmu.NewRoot | arch/arm/v7/vmm.c:23-51 | an empty space joins the flat maps, or ENOMEM if one of the two allocations fails |
| KernelHeap.RequestLimit | kernel/kmalloc.c:80-84 | rounding leaves room for the header and the request if and only if the size is at most 2^32 - 32 |
| KernelHeap.PagesCover | kernel/kheap.c:46-48 | the pages counted cover the increment, by less than a page, unless the 32-bit rounding wraps to zero |
| KernelHeap.SplitAtZero | kernel/kmalloc.c:119-128 | splitting a block at size zero makes its header point to itself: the list has no end any more |
| KernelHeap.Heap.Sbrk | kernel/kheap.c:46-69 | the result equals the growth of the heap if and only if every page was obtained |
| KernelHeap.Heap.Init | kernel/kheap.c:28-44 | one free block over the initial heap |
| KernelHeap.Heap.Kmalloc | kernel/kmalloc.c:80-142 | first fit, split and growth as functions of the block map; the heap stays a tiling with its grants if and only if the size is in range and growth is satisfied in full; other live blocks are not touched |
| KernelHeap.Heap.Kfree | kernel/kmalloc.c:160-201 | the block and the free blocks behind it become one free block; other live blocks are not touched; a pointer that is no live payload changes nothing |
| KernelHeap.MergedRoom | kernel/kmalloc.c:186-193 | a freed block has its own room and that of the free block behind it, and borders on a used one |
| KernelHeap.Heap.Write | kernel/kmalloc.c:130-132 | a client that writes inside its payload leaves the block map as it is |
| KernelHeap.Heap.Cover | kernel/kmalloc.c:80-142 | every address of the heap is in exactly one block |
| KernelHeap.Heap.LivePayloads | kernel/kmalloc.c:80-142 | live payloads are 16-byte aligned, disjoint, large enough, and at most twice the rounded request |
| KernelHeap.Heap.Run | kernel/kmalloc.c:80-201 | over every run the heap stays a tiling; every allocation puts its client at the first fitting block or at new pages, with its size, every free takes the client out and merges, and every grant that is not freed stays where it is |
| KernelHeap.AskedIsGranted | kernel/kmalloc.c:80-142 | while there are pages for it, every request that does not wrap is granted with its size, and no other grant changes |
| Scheduling.TimeOrder | kernel/time/time.c:46-50 | the comparison orders normalised times by their nanoseconds |
| Scheduling.Scheduler.constructor | kernel/sched/reaper.c:36-45 | the machine starts with the idle thread and the reaper ready and nothing else |
| Scheduling.Scheduler.AddThread | kernel/sched/sched.c:158-182 | a live thread of an unlocked process goes to the end of its queue with one more reference; a dead one is left, a locked one only marked |
| Scheduling.LockedWaits | kernel/sched/sched.c:158-182 | a thread of a locked process that is added is ready and in no list; added again after unlocking, it is the last of its queue |
| Scheduling.Scheduler.Unref | kernel/thread.c:162-166 | one reference less; with the last one the thread is reaped |
| Scheduling.Scheduler.Reap | kernel/sched/reaper.c:47-52 | the thread is appended to the list, the semaphore is raised, and the reaper is woken if it is queued |
| Scheduling.Scheduler.FirstNonEmpty | kernel/sched/sched.c:42-48 | the highest level with a ready thread |
| Scheduling.Scheduler.NextThread | kernel/sched/sched.c:76-88 | the front of that level is taken off |
| Scheduling.Scheduler.Switch | kernel/sched/sched.c:116-141 | the front of the first non-empty level runs; a thread that can go on is back at the end of its level, one that cannot is left as it was; no reference is lost or made |
| Scheduling.Scheduler.Yield | kernel/sched/sched.c:256-262 | nothing happens if only the lowest level has a thread; otherwise a switch |
| Scheduling.Scheduler.Preempt | kernel/sched/sched.c:143-153 | a switch when the quantum is over, and at the start |
| Scheduling.SwitchShows | kernel/sched/sched.c:143-153 | in the step machine a preempted or yielding thread gives way to the first thread of the highest level in use |
| Scheduling.Scheduler.Wait | kernel/sched/wait.c:26-35 | the caller is asleep at the end of the queue, no reference is lost |
| SleepWindow.WakeInWindow | kernel/sched/wait.c:26-57 | a wake-up between the push of `wait_wait` and the switch puts the running thread in a ready queue if and only if it wakes more threads than waited before it and its process is not locked |
| Scheduling.Scheduler.Wake | kernel/sched/wait.c:37-57 | the first threads of the queue are made ready in order; dead ones only lose their reference |
| Scheduling.Scheduler.Down | kernel/locking/semaphore.c:31-36 | the first half of down: the value is lowered, and the caller will block if it became negative |
| Scheduling.SleepShows | kernel/sched/wait.c:26-35 | in the step machine a waiting thread is the last of its queue, and lowering a semaphore takes one unit and leads to waiting if and only if none was left |
| Scheduling.Scheduler.Blocking | kernel/sched/wait.c:26-35 | the second half: the caller is asleep at the end of the queue of that semaphore |
| Scheduling.Scheduler.Up | kernel/locking/semaphore.c:24-29 | the value is raised and the first waiter is woken unless the value is still negative |
| Scheduling.SemaphoreSafe | kernel/locking/semaphore.c:24-36 | in every interleaving of the halves of down and of up from n, value plus waiters plus those about to wait is not negative, so at most n threads are past it |
| Scheduling.OneWaiter | kernel/locking/semaphore.c:24-36 | up keeps waiters equal to the missing units if and only if at most one thread waits and none is between the halves of down |
| Scheduling.LostWakeup | kernel/locking/semaphore.c:24-36 | two schedules that leave a waiter asleep at the value 0: two ups for two waiters, and an up between the halves of a down |
| Scheduling.Scheduler.AtMostInitial | kernel/locking/semaphore.c:24-36 | in every reachable state at most the initial number of threads is past a semaphore |
| Scheduling.Scheduler.ReaperDown | kernel/sched/reaper.c:54-59 | the reaper lowers its semaphore |
| Scheduling.Scheduler.ReaperPop | kernel/sched/reaper.c:61-65 | the list is not empty, and its first thread is destroyed |
| Scheduling.Scheduler.ReaperExact | kernel/sched/reaper.c:47-66 | the list holds exactly the threads without reference, in the order they were reaped, and is never popped empty; the semaphore is exact if and only if nothing was reaped since the reaper lowered it |
| Scheduling.Scheduler.LateReaper | kernel/sched/reaper.c:47-66 | a tick between the halves of the reaper's down reaps a dead sleeper without waking the reaper, which then sleeps on a non-empty list |
| ReaperRace.Race | kernel/sched/reaper.c:47-66 | initialisation, that run and one tick: the reaper sleeps, its list is not empty and its semaphore is not negative |
| ReaperRace.WindowReached | kernel/sched/reaper.c:47-66 | a run of 14 steps from the initialisation reaches a state in which `LateReaper` may start |
| Scheduling.Scheduler.Exit | kernel/sched/sched.c:264-272 | the running thread is dead and, if nobody refers to it, in the reaper's list |
| Scheduling.Scheduler.Nanosleep | kernel/sched/sched.c:291-304 | the caller is the last timer, with its alarm set |
| SleepWindow.TickInWindow | kernel/sched/sched.c:291-304 | a tick between `timer_register` and the switch puts the running thread in a ready queue if and only if its alarm is due and its process is not locked |
| Scheduling.Scheduler.Fire | kernel/sched/sched.c:274-280 | one sleeper leaves the timers and is made ready |
| Scheduling.Scheduler.Tick | kernel/time/time.c:25-74 | exactly the sleepers whose time has come leave the timers and are made ready; the others keep their order |
| Scheduling.Scheduler.Spawn | kernel/thread.c:72-90 | a new thread with one reference, in no list, or ENOMEM if the descriptor or the stack cannot be had |
| Scheduling.Scheduler.Remove | kernel/sched/sched.c:204-221 | succeeds if and only if the thread was in its ready queue, which it then leaves with the reference of the queue |
| Scheduling.Scheduler.Kill | kernel/process.c:343-347 | the thread is dead and in no ready queue |
| Scheduling.Scheduler.InitSemaphore | kernel/locking/semaphore.c:5-11 | a new semaphore with an empty queue |
| Scheduling.Scheduler.OnePlace | kernel/sched/sched.c:158-182 | every thread is in at most one list, in the ready queue of its own level if in any, and in none while it runs |
| Scheduling.Scheduler.LooseIsNowhere | kernel/thread.c:157-171 | the reference count of a thread is the number of holders outside plus one for its list or the processor |
| Scheduling.BoundedWaiting | kernel/sched/sched.c:42-88 | a thread with k threads ahead of it at its level is picked within k + 1 picks while nothing is ready above at a pick |
| Scheduling.Scheduler.Served | kernel/sched/sched.c:76-141 | the same for every run of the machine, from any earlier point of its history |
| Scheduling.Scheduler.Run | kernel/sched/sched.c:116-314 | over every run the invariant holds after every step (lists, reference counts, states, the idle thread ready or running, semaphores and reaper), and the machine ends where the composition of its steps on values ends |
| ExecArgs.StringRoundTrip | kernel/exec.c:128-161 | a string laid in memory reads back |
| ExecArgs.VectorRoundTrip | kernel/exec.c:128-161 | a laid block reads back as the strings, in order |
| ExecArgs.UserStack.CopyArgs | kernel/exec.c:128-161 | strings and pointers are laid below the top; ENOMEM exactly when the block is larger than the given size, and then nothing is written |
| ExecArgs.UserStack.CopyMainArgs | kernel/exec.c:163-187 | argc, argv and envp lie below the array; ENOMEM exactly when they do not fit, and then nothing is written |
| ExecArgs.UserStack.Setup | kernel/exec.c:189-213 | success means that all parts lie disjoint inside the stack and argc, argv and envp read back as given; on a mapped stack it succeeds if and only if they fit; bytes below the stack are written if and only if argv's block spills, and then the call fails |
| ExecArgs.SpillExample | kernel/exec.c:128-213 | four arguments of 1017 characters and no environment on the stack that exec creates: the array of argv is written four bytes below it |
| Paths.FirstX | fs/path.c:12-35 | the first slash, or the first other character |
| Paths.Component.First | fs/path.c:241-251 | the components to come are those of the path if and only if the base string after the path adds none |
| Paths.Component.Next | fs/path.c:253-262 | the next component of the base string |
| Paths.Iterate | fs/path.c:241-262 | the loop over first and next collects the components of the path if and only if there are none or only slashes follow the path in its base string |
| Paths.IterationExact | fs/path.c:225-262 | iteration yields the pieces of the path if and only if the base string goes on with slashes only, or not at all |
| Paths.TrailingSlashes | fs/path.c:264-274 | appending text keeps the components if and only if it is all slashes |
| Paths.JoinRoundTrip | fs/path.c:225-262 | names joined by slashes are the components of the path |
| Paths.VfsPathSame | fs/path.c:382-417 | true if and only if the component lists are equal, for paths that run to the end of their base string; always true for equal slices; for single names anywhere in their strings true if and only if they are equal |
| Paths.PrefixIsNotProper | fs/path.c:253-262 | a path that is a prefix of its base string is not covered; every NUL-free one that runs to the end is |
| Lookup.DoLookup | fs/vfs.c:156-222 | the loop over components equals the recursive walk, whose steps are pinned by `StepLaw` |
| Lookup.ReadLink | fs/vfs.c:88-117 | following a link equals its recursive form |
| Lookup.LookupPath | fs/vfs.c:224-282 | the lookup terminates on every path and every link graph, equals the resolution that the laws below describe, and never returns a link |
| Lookup.StartLaw | fs/vfs.c:224-282 | a path without components ends at the root or the directory it starts in, on top of what is mounted there |
| Lookup.StepLaw | fs/vfs.c:156-222 | one more component takes one step from where the path leads: into what is mounted there, then to itself, the parent or the child of that name, or nowhere |
| Lookup.NameLaw | fs/vfs.c:156-222 | the same for a relative path of one name, from the directory it starts in |
| Lookup.DotStays | fs/cache_node.c:162-167 | "." after a directory with nothing mounted on it changes nothing |
| Lookup.NameLeads | fs/cache_node.c:175-190 | an ordinary name leads exactly to the child of that name, followed if it is a link |
| Lookup.DownAndUp | fs/cache_node.c:168-172 | a child and ".." after it lead back to the directory |
| Lookup.LinkLaw | fs/vfs.c:88-117 | a link stands for its target, looked up from the root or from the directory of the link, one level deeper |
| Lookup.AbsoluteLaw | fs/vfs.c:88-117 | an absolute path, and a link to one, leads to the same node from everywhere |
| Lookup.NeverALink | fs/vfs.c:224-270 | a successful resolution never ends in a symbolic link |
| Lookup.ChainLimit | fs/vfs.c:224-282 | a chain of links is followed to its end if and only if fewer than 16 levels are needed |
| Lookup.SelfLink | fs/vfs.c:224-282 | a link to itself ends in ELOOP |
| Lookup.ResolveMonotone | fs/vfs.c:224-282 | what is found at a deeper level is found from any lower one |
| Pipes.Deque.Capacity | include/libk/deque.h:44-52 | the ring holds at most one byte less than its slots; empty and full mean what they say |
| Pipes.Deque.PushBack | include/libk/deque.h:65-74 | one byte at the end, or ENOSPC when full |
| Pipes.Deque.PushFront | include/libk/deque.h:54-63 | one byte at the front, or ENOSPC when full |
| Pipes.Deque.PopFront | include/libk/deque.h:76-86 | the first byte, or ESPIPE when empty |
| Pipes.Deque.PopBack | include/libk/deque.h:88-98 | the last byte, or ESPIPE when empty |
| Pipes.Pipe.ReadVisit | fs/pipe.c:229-264 | equals the visit on byte sequences: the oldest bytes leave in order, at least one and up to the count, fewer only if the ring is then empty; sleeping and the end of the file have exact conditions |
| Pipes.Pipe.WriteVisit | fs/pipe.c:276-309 | equals the visit on byte sequences: the longest prefix that fits enters, or the writer sleeps or the pipe is broken |
| Pipes.FirstInFirstOut | fs/pipe.c:229-309 | in every interleaving, the bytes the reads returned followed by those buffered are those buffered before followed by those the writes got rid of |
| Pipes.ReadsFollowWrites | fs/pipe.c:229-309 | from an empty pipe, what was read is a prefix of what was written, less than 128 bytes behind |
| Pipes.Pipe.Run | fs/pipe.c:229-309 | in every interleaving of visits the ring gives the same outcomes and contents as a plain byte sequence |

## Left out

- The translation lookaside buffer, the recursive and temporary windows of x86, and caches: page tables are read and
  written directly. The one reserved kernel page that other frames are written through is modelled.
- Kernel-mode accesses to user pages (`copy_to_user` and its fixups) outside the argument block: the copy-on-write claims
  are about user-mode loads and stores.
- CreateUserMapping: requires a page-aligned range of the user half. The guard in the source lets through addresses that
  meet only one of the two (kernel/mm/vmm.c:324).
- MapPage: user rights go with the user half and only there, as all callers ask for.
- UpdateProt: user pages only; nothing modelled here changes the protection of a kernel page.
- UnmapRange: the pages of the range are mapped, as they are for a mapping in a list.
- ProtectRange: the pages of the range are mapped; the EINVAL of a missing page is in `UpdateProt`.
- MapKernelPage: not the one reserved page that other frames are written through.
- ExtendMapping: mappings that do not grow down and positive increments.
- Sbrk: positive increments that leave a page of room below the kernel half, outside mappings that grow down.
- Fork: only the memory of `sys_fork`; the thread, the files and the process record are not modelled.
- Exit: the frames that come back are in `FramesConserved`, not counted.
- PageFrames.Free: a frame that has a descriptor is in use; freeing a free frame corrupts the lists in the source.
- InitFrames: required to end; `FinishesExact` says for which layouts it does.
- Paging.constructor: the boot page tables are given; the remap of the kernel image and the recursive entry are not modelled.
- `vmm_find_and_destroy_mapping` and `vmm_update_user_mapping_prot`: the first touches the mapping after destroying it
  (kernel/mm/vmm.c:222-224), the second changes the protection of a shared region.
- `exec` itself: a break is set by `ImageRequest`; that fork leaves the child's break at 0 is as in kernel/process.c:125-167.
- The descriptors of regions, mappings and spaces live in the kernel heap, whose success is the parameter `heapOk`; they are
  not placed in the model of `kmalloc`.
- MemoryUp: the memory map of x86 names [0xa0000, 0x1a0000) as hardware; what of it lies behind the kernel image is among the
  early frames and is handed out, as in the code.
- MemoryUp: the kernel image ends within the 4 MB that the boot table covers, and the early frames fit the memory; the
  descriptor table itself is not charged to the heap.
- ARM: `paging_kernel_map`, clearing and cloning of user tables. Cloning keeps its windows open after success
  (arch/arm/v7/paging.c:209-251), so the copy-on-write simulation uses x86. The level-1 tables and the kernel's level-2
  table are kept as decoded descriptors; all tables in page frames are words.
- UserUnmap: a missing page below a present level-1 entry is reported as success, as the code does.
- UnmapPage: on ARM, the level-3 table of the window is there, as the source reads it without a test.
- Kmalloc: the limit on the size of the whole heap is the parameter `avail`.
- Heap.Sbrk: a frame that cannot be mapped is lost in the source (kernel/kheap.c:55-60) and not followed here.
- Kfree: payload bytes that pass for a used header are not told apart from one; such a pointer is excluded.
- Heap.Run: a request is made only while growth can be satisfied in full and the size does not wrap; what happens otherwise
  is in `Kmalloc`.
- `kcalloc` (needs a count above zero) and `kmalloc_early`.
- Steps of the scheduler: kernel code is not preempted, and interrupts are modelled between steps and between the two halves
  of `semaphore_down`.
- Wait: one step from the push to the switch, although interrupts are on (kernel/sched/wait.c:26-35). `WakeInWindow` gives
  the exact condition under which a wake-up there breaks the invariant; runs that go on from there are not followed.
- Nanosleep: the same, with `TickInWindow` (kernel/sched/sched.c:291-304).
- Switch: without the loop that delivers signals to the picked thread.
- Preempt: the test of the quantum is left to the caller.
- Kill: a thread that does not run; the running one goes through `Exit`.
- Signals (kernel/signal.c): nothing interrupts a sleep, and a picked thread is never killed by a pending signal.
- Process bookkeeping: `PROC_LOCKED` is a set of threads, and the lists of a process appear only as references held outside.
- `semaphore_destroy` and `wait_reset`.
- Setup: the strings and arrays together are smaller than the address of the stack's bottom, so that no address wraps around
  32 bits; what a faulting copy leaves behind inside its own range is not described.
- CopyToUser: a copy that faults may have written any part of its range.
- DoLookup: on a given tree of cache nodes, without filling it and without reference counts.
- ReadLink: without reference counts.
- Cache nodes: the tree of nodes and the top of every stack of mounts are given; filling the cache from an inode, mounting and
  the reference counts of nodes are not modelled (they are not balanced in the code, for example fs/vfs.c:105-111).
- LookupPath: every failure inside `do_lookup` becomes ENOENT, as in fs/vfs.c:244-246; equality with the resolution is for
  paths that run to the end of their base string.
- ReadVisit: a reader that was asleep does not look at the number of writers again, so nothing is said about when a reader
  finally sees the end of the stream. Opening and closing of pipes and FIFOs is not modelled.
- File descriptors, ramfs, the ELF loader, terminals, devices, logging, string functions and everything that only talks to
  hardware: they would add easy members.
