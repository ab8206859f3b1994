# MOS: kernel, file system and library models

A Dafny model of the parts of the MOS teaching kernel, its file server, user library and shell that
carry state or need an argument, with proofs of what they promise. `dafny verify dfyconfig.toml`
checks everything.

The project follows the program's components:

- **Scheduling and IPC.** `tailq.dfy` has the intrusive queue of `include/queue.h` at pointer level.
  `sched_spec.dfy` is the scheduler, the IPC and the status calls as a state machine, `kernel.dfy`
  the same calls on env structures and the pointer queue, each method tied to its step;
  `syscalls.dfy` says call by call whom they may act on and every field they change.
  `fairness.dfy` and `rounds.dfy` bound the waiting time and count a round. `ipc.dfy` adds the
  retry loop of `ipc_send` and the reads of `ipc_recv`, interleaved.
- **Virtual memory.** `vm_spec.dfy` has frames, two-level tables, reference counts, the free list and
  the TLB with the invariant that relates them; `pmap.dfy` runs `kern/pmap.c`, `kern/tlbex.c` and the
  address-space half of `kern/env.c` on them, and `vm_runs.dfy` any sequence of these calls.
  `vm_words.dfy` is about the words of the pages that user programs see.
- **Copy-on-write fork.** `cow.dfy` is fork at the granularity of its system calls, `cow_refines.dfy`
  the proof that it implements a memory in which fork copies pages, `cow_user.dfy` the user-level
  functions themselves.
- **Pipes.** `pipe_close.dfy` is the closed test against concurrent dup, close and exit;
  `ring.dfy` the 32-byte buffer; `pipe_user.dfy` has the functions as they run when nobody interferes.
- **File system.** `bitmap.dfy`, `fs_spec.dfy`, `fs_runs.dfy`, `fs_words.dfy` and `fs.dfy` are the block
  map of the server and the words of its blocks; `fsformat.dfy`, `fsformat_image.dfy` and
  `fsformat_words.dfy` the image builder and what the server makes of it.
- **Text, paths, numbers, ELF, shell.** `strings.dfy`, `path.dfy`, `path_buffers.dfy`, `print.dfy`,
  `elf.dfy`, `shell.dfy`, `shell_lines.dfy`, `shell_state.dfy`.

Where the source works in place, a class or a method over arrays does what the source does, and its
contract names a function whose properties are proved next to it. Protocols between envs are state
machines whose steps are the shared accesses or system calls of the source.

Some promises hold only under a condition. In each case the code is modelled as it is, and the exact
condition is proved:

- A send queues its target twice exactly when that is receiving and already runnable
  (`SchedSpec.SendKeeps`), which takes a parent that sets a waiting child to ENV_RUNNABLE
  (`SchedSpec.StatusThenSend`); the links then form no queue (`TailQueue.PutTailTwice`).
- Destroying an env that is not queued is safe exactly when its stale links are harmless
  (`KernelSched.Kernel.SysEnvDestroy`); otherwise it can drop a runnable env from the queue
  (`KernelSched.DestroyLosesEnv`). Runs of the waiting-time and IPC results contain every step but a
  second queueing and a harmful destruction.
- A receive returns the message of the one send since it blocked exactly when env_ipc_recving is clear
  as its blocking call returns (`Ipc.ReceiveReturnsTheSend`). It is set when a parent has made the
  waiting child runnable, and the message is then one that nobody sent (`Ipc.WakingReturnsStale`).
- `page_insert` ors the whole of perm into the frame address. Counts, free list and isolation survive
  exactly when the word still names the frame, as it does for every perm below 0x1000
  (`Pmap.Memory.PageInsert`, `VmSpec.OrWithin`); perm 0x1000 on an even frame maps its neighbour
  (`VmSpec.NamesNeighbour`).
- duppage reads the permission before its first call; it is right exactly when no copy-on-write fault
  of the parent comes between the two (`CowUser.StalePermission`).
- A send wakes its target before it looks at the page argument, so a failed page mapping still
  delivers the message (`Ipc.SendOutcome`).
- `sys_mem_alloc` loses a frame when that frame was the last and a page table was missing
  (`Pmap.Memory.SysMemAlloc`); `env_alloc` keeps the directory when ASIDs run out.
- `_pipe_is_closed` is exact as long as an env is started fewer than 2^32 times inside one turn of
  its loop, and is wrong in the middle of a fork (`PipeClose.ForkRace`).
- A new indirect block must read as zeros; it does exactly when its cached page is absent or zero
  (`FsRuns.MapExact`). Truncating panics exactly when the old size reaches an entry that cannot be
  found (`FsSpec.TruncateKeeps`, `FsRuns.GrowThenShrink`), and drops entries beyond the old size
  without freeing them (`FsSpec.TruncateLoses`, `FsRuns.MapThenShrink`).
- `elf_load_seg` with an unaligned start needs the file part to fill the first page or to be all of
  the segment (`Elf.LoadsExactly`).

Two places where comments and code differ: the comment above `cat2Path` says that the first path must
end in a slash, while the code takes it with or without one; the comment above `sys_ipc_try_send`
lists the update of the target under success only, while the code has made it before a failing page
argument is found. The model follows the code.

## Model

| member | source | states |
|---|---|---|
| `TailQueue.PutTailLinks` | include/queue.h:204-210 | inserting at the tail of a well-formed queue q leaves a well-formed queue q + [elm], pointer for pointer |
| `TailQueue.PutHeadLinks` | include/queue.h:194-202 | the same at the head |
| `TailQueue.CutQueued` | include/queue.h:230-237 | removing the k-th element leaves the other links forming the queue without it, in order |
| `TailQueue.CutStale` | include/queue.h:230-237 | removing an element that is not queued leaves the queue well formed if and only if each of the two writes stores what is there already or lands outside it |
| `TailQueue.StaleRemoveLoses` | include/queue.h:230-237 | when the last element leaves, another arrives at the tail and the first is removed again, the links form the queue without the newcomer |
| `TailQueue.PutTailTwice` | include/queue.h:204-210 | inserting at the tail an element that is queued already leaves links that form no queue at all |
| `TailQueue.CutTwice` | kern/syscall_all.c:414-419 | a second removal with nothing in between changes no link at all, which is what blocking in sys_ipc_recv and then in schedule relies on |
| `TailQueue.Queue.Store` | include/queue.h:230-237 | one store through a tqe_prev or tqh_last pointer changes exactly the cell it names |
| `TailQueue.Queue.InsertTail` | include/queue.h:204-210 | the macro on the class: contents grow by the element at the end, and the links stay well formed if and only if it was not queued |
| `TailQueue.Queue.InsertHead` | include/queue.h:194-202 | the same at the front |
| `TailQueue.Queue.Head` | include/queue.h:260 | the first element, or null exactly when the queue is empty |
| `TailQueue.Queue.Remove` | include/queue.h:230-237 | the element is taken out if it was there; the queue stays valid if and only if it was there or its stale writes are harmless |
| `SchedSpec.ScheduleKeeps` | kern/sched.c:17-59 | entered with the queue holding each runnable env once, schedule leaves the picked env running, runnable and at the head |
| `SchedSpec.ScheduleRuns` | kern/sched.c:17-59 | scheduling changes nothing of any env but the run counter of the one picked |
| `SchedSpec.RequeueReady` | kern/sched.c:37-46 | moving the old env to the tail keeps every runnable env queued exactly once |
| `SchedSpec.RecvKeeps` | kern/syscall_all.c:395-420 | blocking in a receive takes exactly the caller out of the runnable envs and the queue |
| `SchedSpec.StatusKeeps` | kern/syscall_all.c:313-345 | whatever status a call sets on whomever it may, the queue still holds each runnable env once |
| `SchedSpec.DestroyKeeps` | kern/syscall_all.c:81-90 | destroying an env takes that env and no other off the queue and leaves the invariant; off the queue, this is what the code does exactly when its stale links are harmless (SysEnvDestroy) |
| `SchedSpec.SendKeeps` | kern/syscall_all.c:469-488 | a send keeps the invariant if and only if its target was not runnable already; if it was, the queue holds it twice |
| `SchedSpec.StatusThenSend` | kern/syscall_all.c:469-488 | the two calls that get there: a parent sets a child that waits for a message to ENV_RUNNABLE, and a send to it queues it a second time |
| `SchedSpec.StatusSendDestroy` | kern/syscall_all.c:81-90 | by statuses alone, stopping a child, sending to an env that waits and destroying the child leaves the woken env runnable and queued |
| `SchedSpec.StepKeepsInv` | kern/env.c:14 | every scheduler, IPC, status, fork and exit step but the destruction of an unqueued env through harmful links keeps "queued iff RUNNABLE, curenv at the head" if and only if it is not a send to an env that is receiving and runnable |
| `KernelSched.DestroyLosesEnv` | kern/env.c:485-488 | the same three calls on the links, the child being last in the queue: its second removal drops the woken env, runnable as it is, from the queue |
| `Fairness.WaitStep` | kern/sched.c:17-59 | no step that queues nobody twice and breaks no link lengthens the wait of an env that stays runnable, and each timer tick shortens it |
| `Fairness.WaitSwitch` | kern/sched.c:37-56 | a switch starts a full slice for the next env and brings every env behind it closer |
| `Fairness.WaitStatus` | kern/syscall_all.c:332-335 | waking, blocking or re-marking another env never lengthens the wait |
| `Fairness.WaitRun` | kern/sched.c:17-59 | over a whole run of such steps, waiting time plus ticks spent never exceeds the wait at the start |
| `Fairness.BoundedWait` | kern/sched.c:17-59 | in such a run an env that stays runnable runs before the remainder of the current slice plus max(1, priority) of each env ahead of it has passed, whatever yields, blocks, wake-ups and exits happen |
| `Rounds.SliceRuns` | kern/sched.c:37-56 | while a slice lasts, tick after tick runs the same env and changes nothing else |
| `Rounds.SliceEnds` | kern/sched.c:37-56 | after exactly max(1, priority) runs the head moves to the tail and the next env starts |
| `Rounds.RoundIsFair` | kern/sched.c:17-59 | with timer ticks only, one round gives each queued env exactly max(1, priority) runs and brings the queue back to its order |
| `KernelSched.Kernel.EnvRun` | kern/env.c:573-612 | makes the env current and counts the run; all else unchanged |
| `KernelSched.Kernel.Schedule` | kern/sched.c:17-59 | on the real queue and env structures it takes the step of the specification, and panics exactly when that has no env to run |
| `KernelSched.Kernel.EnvidToEnv` | kern/env.c:123-162 | what it returns is the caller for id 0 and otherwise the live env with that id in its slot, with permission checking the caller or a child of its; null exactly when there is none such |
| `KernelSched.Kernel.SysIpcRecv` | kern/syscall_all.c:395-420 | takes the step of the specification with its two removals of the caller, and panics exactly when nothing else is runnable |
| `KernelSched.Kernel.SysIpcTrySend` | kern/syscall_all.c:444-502 | takes the step of the specification, waking the target before the page argument is looked at; the links survive if and only if the target was not queued already |
| `KernelSched.Kernel.SysSetEnvStatus` | kern/syscall_all.c:313-345 | takes the step of the specification, including the panic when the caller blocks itself and nothing can run |
| `KernelSched.Kernel.EnvFree` | kern/env.c:449-488 | takes the env off the queue; the queue survives if and only if the env was on it or its stale links are harmless |
| `KernelSched.Kernel.EnvDestroy` | kern/env.c:542-553 | frees the env and, when it was the current one, schedules another; the queue survives if and only if the env was on it or its stale links are harmless |
| `KernelSched.Kernel.SysEnvDestroy` | kern/syscall_all.c:81-90 | takes the step of the specification; the queue survives if and only if there is no target, the target was queued, or its stale links are harmless, which is if and only if the step is one that runs may contain |
| `Syscalls.Envid2EnvIs` | kern/env.c:123-162 | an env is found exactly when it is the target of the id and, where permission is checked, the caller itself or its child |
| `Syscalls.IdsFind` | kern/env.c:123-162 | where ids are in their slots, every live env is found by its id, and nobody else |
| `Syscalls.StepKeepsPlaced` | kern/env.c:101-104 | every call keeps the ids of live envs in their slots |
| `Syscalls.RecvEffect` | kern/syscall_all.c:395-420 | a refused address changes nothing; else the caller is marked, not runnable, with its address noted, nothing of any other env changes but run counters, and the panic is that it was the only one queued |
| `Syscalls.SendEffect` | kern/syscall_all.c:444-502 | -E_INVAL, -E_BAD_ENV and -E_IPC_NOT_RECV each for its reason and with no change; a delivery sets value, sender and perm with PTE_V of the target, wakes and queues it, and changes nothing else |
| `Syscalls.StatusEffect` | kern/syscall_all.c:313-345 | -E_INVAL for a bad status and -E_BAD_ENV for a target that is neither the caller nor its child, with no change; else that one status changes, and the panic is that the caller stopped itself as the last one |
| `Syscalls.DestroyEffect` | kern/syscall_all.c:81-90 | -E_BAD_ENV with no change for a target that is neither the caller nor its child; else that env is free and nothing of any other changes but run counters |
| `Syscalls.ForkEffect` | kern/syscall_all.c:263-297 | a free slot becomes a child of the caller with the id, the priority of the caller and not runnable; nothing else changes |
| `Ipc.SendOutcome` | kern/syscall_all.c:444-502 | a send to an env that does not wait changes nothing and returns -E_IPC_NOT_RECV, which is for that alone; to one that waits, the message is handed over even when mapping the page then fails |
| `Ipc.OthersKeep` | kern/syscall_all.c:395-502 | only a receive by an env, a send to it and a fork into its slot touch its message block |
| `Ipc.DeliveredOnce` | user/lib/ipc.c:12-39 | in every interleaving, as long as an env's blocking calls return with env_ipc_recving clear, what its receives returned is a prefix of what was sent to it, in order, with at most one message outstanding |
| `Ipc.DeliveredExactly` | user/lib/ipc.c:24-39 | and for the next call to return, if no send comes between its reads, that goes on if and only if env_ipc_recving is clear then |
| `Ipc.ReceiveHistory` | user/lib/ipc.c:24-39 | in every run, whoever sets its status meanwhile: an env inside a receive has env_ipc_recving set exactly when no send reached it since it blocked, and clear exactly when one did, the only one, and then its message is in the block |
| `Ipc.ReceiveReturnsTheSend` | user/lib/ipc.c:24-39 | in every run, a receive returns the sender, permission and value of the one send that reached its env since it blocked if and only if env_ipc_recving is clear when its blocking call returns |
| `Ipc.WakingReturnsStale` | kern/syscall_all.c:332-345 | a receiver that its parent sets to ENV_RUNNABLE returns from its call with env_ipc_recving set and from its receive with a message nobody sent |
| `VmSpec.WalkFinds` | kern/pmap.c:180-213 | the two-level walk finds a page exactly when the map of references has it, and with that frame and permission |
| `VmSpec.StoreWalks` | kern/pmap.c:227-256 | a store to one page-table word changes the lookup of one page under one directory and of no other page of any env |
| `VmSpec.MappedGood` | kern/pmap.c:227-256 | mapping a page to a frame that is unreferenced or mapped by user pages alone keeps tables, counts, free list, isolation and TLB consistent if and only if the word stored names the frame that is counted |
| `VmSpec.RepermedGood` | kern/pmap.c:227-256 | so it is for changing the permission of a mapped page once its TLB pair is flushed |
| `VmSpec.OrWithin` | kern/pmap.c:252 | frame number or-ed with the high bits of perm is that number if and only if those bits are among its own |
| `VmSpec.NamesNeighbour` | kern/pmap.c:227-256 | an input that fails: perm 0x1000 on an even frame f stores a word for frame f + 1, which may be a page table or on the free list |
| `VmSpec.UnmappedGood` | kern/pmap.c:303-319 | so does unmapping, with the frame freed exactly when its last reference goes |
| `VmSpec.TakenGood` | kern/pmap.c:130-147 | an allocated frame is referred to by nothing, is zero, and has left the free list |
| `VmSpec.HookedGood` | kern/pmap.c:180-213 | so does hooking a cleared frame in as a page table |
| `VmSpec.UnhookedGood` | kern/env.c:449-488 | so does giving back an emptied page table |
| `VmSpec.NewDirGood` | kern/env.c:225-260 | a new page directory maps no user page and keeps everything consistent |
| `VmSpec.NoDirGood` | kern/env.c:449-488 | giving back an empty directory with its ASID keeps everything consistent |
| `VmSpec.OwnGood` | kern/env.c:30-48 | handing a free ASID to a new directory lets no stale translation answer for it |
| `VmSpec.FilledGood` | kern/tlbex.c:48-68 | writing the pair of current page-table words into the TLB keeps it coherent |
| `VmSpec.WrittenGood` | kern/tlbex.c:48-68 | whatever word a user program stores into a page it maps, every lookup of every env stays as it was, because no user page is a page table or directory |
| `VmSpec.Referenced` | kern/pmap.c:130-161 | a frame that any table, directory or owner refers to has a positive count and is not on the free list |
| `VmSpec.TlbIsCurrent` | kern/tlbex.c:13-68 | a valid half of a TLB entry for a user page is the present page-table entry of the env that owns its ASID, and the frame is not free |
| `VmSpec.FreeAsidIsSilent` | kern/env.c:449-488 | an ASID not in use has no valid half for any user page, so its next owner finds none |
| `VmSpec.CountGone` | kern/pmap.c:291-299 | when a set of references goes, exactly the frames all of whose references were in it reach count zero |
| `VmSpec.HalfAnswers` | kern/tlbex.c:66-67 | what is left of a page-table word in the TLB is valid exactly when the page is mapped, with its frame and write permission |
| `VmWords.PagesStay` | kern/pmap.c:227-319 | a page that stays mapped to its frame keeps all its words through any call that keeps held frames, which PageInsert, PageRemove, SysMemAlloc, SysMemMap, TlbRefill, EnvAlloc and EnvFree do |
| `VmWords.TakenStays` | kern/pmap.c:130-147 | page_alloc hands out a frame of zeros and changes no word of any frame in use |
| `VmWords.HookedStays` | kern/pmap.c:180-213 | nor does making a page table |
| `Pmap.Memory.constructor` | kern/pmap.c:92-118 | page_init leaves frames below the boot mark taken once and all others free, in a consistent state |
| `Pmap.Memory.PageAlloc` | kern/pmap.c:130-147 | hands out the head of the free list, cleared and unreferenced, or fails exactly when the list is empty |
| `Pmap.Memory.PageDecref` | kern/pmap.c:291-299 | one reference less, and back on the list at zero |
| `Pmap.Memory.TlbInvalidate` | kern/tlbex.c:13-15 | drops the TLB pair of that address and ASID and nothing else |
| `Pmap.Memory.PgdirWalk` | kern/pmap.c:180-213 | finds the slot, makes the table when asked to, and fails only when it needs a frame and none is free |
| `Pmap.Memory.PageLookup` | kern/pmap.c:264-284 | finds a frame exactly when the page is mapped |
| `Pmap.Memory.PageRemove` | kern/pmap.c:303-319 | removes exactly that mapping and frees at most its frame |
| `Pmap.Memory.PageInsert` | kern/pmap.c:227-256 | fails if and only if the page has no page table and no frame is free, then changing no mapping; otherwise changes exactly one page of one env, and keeps everything consistent if and only if the bits of perm from 12 up lie within the frame number |
| `Pmap.Memory.SysMemAlloc` | kern/syscall_all.c:155-177 | succeeds exactly with a frame for the page and one for a missing table, and then keeps everything consistent if and only if the word names the frame, which then reads as zeros; with only one frame left it fails and that frame is lost |
| `Pmap.Memory.SysMemMap` | kern/syscall_all.c:195-217 | fails with -E_INVAL exactly when the source page is unmapped; on success the destination alone changes, to a word with the bits of perm, and everything stays consistent if and only if the word names the same frame |
| `Pmap.Memory.PassiveAlloc` | kern/tlbex.c:18-43 | panics exactly at the two ends of user space and when a frame is missing; otherwise maps one fresh writable page of zeros |
| `Pmap.Memory.TlbRefill` | kern/tlbex.c:48-68 | afterwards the faulting page is mapped and its TLB half is valid, with its frame and its write permission; the other half is valid exactly when the other page is mapped; panics exactly when the page was unmapped and cannot be allocated; no held frame changes a word |
| `Pmap.Memory.StoreAfterMiss` | kern/tlbex.c:48-68 | a store that misses, made again after the refill, is done exactly when the page may be written |
| `Pmap.Memory.UserStore` | kern/tlbex.c:48-68 | a store by a user program reaches the one word its TLB entry names, only when that entry is valid and writable, and changes no lookup of any env |
| `Pmap.Memory.AsidAlloc` | kern/env.c:30-48 | the smallest ASID not in use, or -E_NO_FREE_ENV exactly when all are |
| `Pmap.Memory.EnvSetupVm` | kern/env.c:225-260 | a fresh directory with no user mapping and the template above UTOP, failing exactly when no frame is free |
| `Pmap.Memory.EnvAlloc` | kern/env.c:276-332 | a new address space with an ASID of its own; when ASIDs run out the directory it took stays allocated |
| `Pmap.Memory.FreeTable` | kern/env.c:455-475 | one turn of the outer loop: the pages and then the table of one directory slot are given back |
| `Pmap.Memory.EnvFree` | kern/env.c:449-488 | the references of that env go and no others, the free list gains exactly the frames that only that env referred to, and no page that stays changes a word |
| `VmRuns.GoodIsRight` | kern/pmap.c:130-161 | the invariant means: every count is the number of references, the free list has no duplicates and no referenced frame, and every valid TLB half is the current entry of the owner of its ASID |
| `VmRuns.Run` | kern/tlbex.c:48-68 | from page_init on, after any sequence of address-space creations, allocations, sharings, unmappings, refills, user stores and exits of any envs, all of that holds up to the first word that names another frame than it is stored for; there is none if every perm is below 0x1000 |
| `CowRefines.OwnedOnce` | user/lib/fork.c:85-116 | after any run from memory without shared frames, a frame mapped with PTE_D and without PTE_LIBRARY has exactly one mapping, except between the two calls of a duppage |
| `Cow.StepKeepsInv` | user/lib/fork.c:85-116 | every step of every env keeps that ownership: either half of duppage, stores with and without a fault, allocation, unmapping, exit |
| `CowRefines.MapChildMeans` | user/lib/fork.c:111 | mapping the child first hides a split page from it until the duppage is complete, and shows any other page at once |
| `CowRefines.RemapMeans` | user/lib/fork.c:113-115 | taking PTE_D from the parent copies the page, as it is then, to the child |
| `CowRefines.WriteMeans` | user/lib/fork.c:16-58 | a store, faulting or not, is a store to the private page or to every mapping of the library page, and to nothing else |
| `CowRefines.StepMeans` | user/lib/fork.c:16-58 | each step of copy-on-write memory is one step of a memory in which fork copies pages |
| `CowRefines.RunRefines` | user/lib/fork.c:134-181 | so every run is a run of that memory |
| `CowRefines.ReadsAgree` | user/lib/fork.c:134-181 | after any run over any process tree, every env that may run reads the bytes, and may write the pages, of the memory with eager copies |
| `CowRefines.PagesAreIsolated` | user/lib/fork.c:85-116 | a page keeps its bytes through any run in which its env leaves it alone, whatever parent and children write to the shared frame |
| `CowRefines.ForkCopies` | user/lib/fork.c:134-181 | fork among other envs: a page the parent neither stores to nor remaps between syscall_exofork and syscall_set_env_status shows in the child as it was at the start, whatever others do meanwhile |
| `CowUser.DuppageCopies` | user/lib/fork.c:85-116 | a whole duppage gives the child a copy of one page and changes nothing else |
| `CowUser.StalePermission` | user/lib/fork.c:85-116 | with the read of the permission taken as a step of its own, duppage is right if and only if the parent's page took no copy-on-write fault between the read and the first call; otherwise a store by the parent shows in the child |
| `CowUser.System.CowEntry` | user/lib/fork.c:16-58 | the faulting page gets a frame of its own with the same bytes, PTE_D and no PTE_COW, and UCOW is unmapped again; a fault on another page panics and changes nothing |
| `CowUser.System.Duppage` | user/lib/fork.c:85-116 | the two system calls in the order child, parent |
| `CowUser.System.Fork` | user/lib/fork.c:134-181 | as a sequence of calls with nobody else running, the child gets a copy of every page below USTACKTOP, and no page of any other env changes |
| `CowUser.WrongOrderLeaks` | user/lib/fork.c:98-99 | with the two calls of duppage exchanged, a store by the parent in between makes its later stores show in the child |
| `PipeClose.StepKeepsInv` | user/lib/fd.c:198-251 | in every interleaving of dup, close, exit and checks, who maps an Fd page maps the pipe page, and counts read in the current slice are those of now |
| `PipeClose.CountsDecide` | user/lib/pageref.c:14-30 | the two reference counts are equal if and only if no env maps the other end and nobody is between the two calls of a close or a dup |
| `PipeClose.CompareDecides` | user/lib/pipe.c:143-148 | with fewer than 2^32 starts of the env in between, the loop answers exactly when it was not rescheduled, and then exactly right |
| `PipeClose.GoneForGood` | user/lib/fd.c:209-238 | an end that nobody maps never comes back |
| `PipeClose.ClosedMeansClosed` | user/lib/pipe.c:123-149 | over every run, an env told that its pipe is closed has no peer at that moment or later |
| `PipeClose.StepKeepsOrder` | user/lib/fd.c:198-251 | in every run from an orderly start, a pipe page without its Fd page belongs to an env between the two calls of a close or a dup |
| `PipeClose.GoneIsSeen` | user/lib/pipe.c:123-149 | so once nobody is inside a close or a dup, an env that compares counts of its present slice is told closed if and only if the other end is gone |
| `PipeClose.DestroyLeaves` | kern/env.c:449-488 | the exit of an env leaves none of its pages and everything of everybody else |
| `PipeClose.CallLeaves` | user/lib/fd.c:198-251 | a call of one env leaves the pages of all others |
| `PipeClose.CountsRace` | user/lib/pipe.c:143-147 | a run in which counts read in different slices are equal although the writer is there: only the env_runs comparison prevents the answer |
| `PipeClose.Balance` | user/lib/pageref.c:14-30 | in any state the counts are equal if and only if other ends plus data-only holders number as many as Fd-only holders |
| `PipeClose.ForkRace` | user/lib/fork.c:161-169 | fork maps Fd pages before pipe pages, and in between a pipe with a writer can look closed |
| `Ring.WrapKeepsSlot` | user/lib/pipe.c:189 | positions that wrap at 2^32 still name the right slot, because 32 divides 2^32 |
| `Ring.StepKeepsInv` | user/lib/pipe.c:177-192 | every access of reader and writer keeps the distance within 0 to 32 and the ring equal to the bytes in flight |
| `Ring.ReadsArePrefix` | user/lib/pipe.c:221-236 | over every interleaving the bytes read are a prefix of the bytes written, with the wrapped distance equal to the true one |
| `Ring.PipeDelivers` | user/lib/pipe.c:221-236 | from a new pipe on, all bytes ever read are a prefix of all bytes ever written, with at most 32 in between |
| `Ring.TestsAreRight` | user/lib/pipe.c:181-225 | the empty and the full test are right when made, and calls that complete moved exactly their bytes |
| `PipeUser.Descriptors.Close` | user/lib/pipe.c:274-280 | takes the two steps of a close in their order, Fd page first |
| `PipeUser.Descriptors.Dup` | user/lib/fd.c:198-251 | closes the target and then maps the page of the pipe before the Fd page; fails exactly on a source that is not open, changing nothing, and on a descriptor dupped onto itself, which it closes |
| `PipeUser.Descriptors.IsClosed` | user/lib/pipe.c:123-149 | in one slice the answer is exactly whether nobody maps the other end and nobody is in the middle of a close or a dup |
| `PipeUser.Pipe.Write` | user/lib/pipe.c:221-236 | stores the bytes in order and stops early only with 32 bytes in the ring |
| `PipeUser.Pipe.Read` | user/lib/pipe.c:177-192 | takes the oldest bytes in order and stops early only when none is left |
| `Bitmap.SetBit` | fs/fs.c:203-218 | setting or clearing bit b % 32 of word b / 32 changes the test of block b and of no other block |
| `FsSpec.AllocBlockKeeps` | fs/fs.c:229-245 | the lowest free block, in no slot, is taken and no slot changes; errors leave the state as it was |
| `FsSpec.ReadBlockKeeps` | fs/fs.c:94-134 | reading changes no slot and panics exactly on blocks out of range or free |
| `FsSpec.WalkFinds` | fs/fs.c:362-397 | without a new indirect block the walk changes nothing and never panics; each error has its exact cause |
| `FsSpec.WalkAllocates` | fs/fs.c:362-397 | with one, the file has no entries in it if and only if the cached page of that block was zero or absent |
| `FsSpec.MapKeeps` | fs/fs.c:410-434 | file_map_block returns the block of the slot or takes a free one for it, and every other slot of every file stays |
| `FsSpec.ClearKeeps` | fs/fs.c:438-452 | file_clear_block empties one slot and frees its block, once; each error has its exact cause |
| `FsSpec.ClearFromKeeps` | fs/fs.c:714-725 | the clearing loop panics if and only if its last block cannot be found, and otherwise raises the free count by the number of slots it empties |
| `FsSpec.TruncateKeeps` | fs/fs.c:703-727 | truncation keeps blocks unshared, panics exactly when the old size reaches a block without entry, and frees as many blocks as it empties slots, indirect block included |
| `FsSpec.TruncateLoses` | fs/fs.c:713-721 | a block stays marked used without a slot exactly when it was an entry beyond the old size and the indirect block is dropped |
| `FsSpec.BlocksCover` | fs/fs.c:706-707 | the rounded size covers the bytes of the file and no block more, unless rounding passes 2^32; then it is 0 blocks |
| `FsWords.ReadBlockWords` | fs/fs.c:94-134 | an uncached block comes from disk word for word, no cached block changes, and it fails exactly on a panic or when no page is left |
| `FsWords.MapWords` | fs/fs.c:410-434 | finding or filling a slot changes word k of the index block and no other word of any cached block; a block taken holds zeros unless it was cached |
| `FsWords.ClearWords` | fs/fs.c:438-452 | so it is for clearing a slot |
| `FsWords.TruncateWords` | fs/fs.c:703-727 | truncation changes no word outside the index block of the file |
| `FsWords.GetBlockReads` | fs/fs.c:462-477 | file_get_block of a block that is there hands out the words cached, or those of the disk |
| `FsWords.GetBlockTakes` | fs/fs.c:462-477 | of one that is not, a free block that reads as zeros unless it was still cached |
| `FsRuns.GrowThenShrink` | fs/fs.c:713-721 | a file without an indirect block that is made larger than ten blocks and then smaller makes truncation panic |
| `FsRuns.MapThenShrink` | fs/fs.c:713-721 | a block mapped beyond the size of a file of at most ten blocks is, after truncation, neither free nor in any slot |
| `FsRuns.MapExact` | fs/fs.c:142-149 | file_map_block with a new indirect block does what it says if and only if that block was clean |
| `FsRuns.StaleAfterClear` | fs/fs.c:142-149 | a freed data block that becomes an indirect block has its old words taken for block numbers |
| `FsRuns.StoreKeeps` | fs/fs.c:410-434 | data written to a file is never read as an indirect block |
| `FsRuns.RunsStayGood` | fs/fs.c:94-107 | over any run on any files no block is in two slots, all are in range and marked used, and reading them cannot panic |
| `Fs.FileServer.BlockIsFree` | fs/fs.c:178-188 | tests the bit of a block in range |
| `Fs.FileServer.FreeBlock` | fs/fs.c:192-204 | sets that bit, except for block 0 and blocks out of range |
| `Fs.FileServer.AllocBlockNum` | fs/fs.c:212-225 | the lowest free block from 3 on, or -E_NO_DISK exactly when there is none |
| `Fs.FileServer.AllocBlock` | fs/fs.c:229-245 | takes the step of the specification, giving the block back when no page can be had |
| `Fs.FileServer.ReadBlock` | fs/fs.c:94-134 | takes the step of the specification; a block that was not cached holds the words of the disk, zeros where nothing was written, and no cached block changes |
| `Fs.FileServer.FileBlockWalk` | fs/fs.c:362-397 | takes the step of the specification |
| `Fs.FileServer.FileMapBlock` | fs/fs.c:410-434 | takes the step of the specification |
| `Fs.FileServer.FileClearBlock` | fs/fs.c:438-452 | takes the step of the specification |
| `Fs.FileServer.FileGetBlock` | fs/fs.c:462-477 | takes the step of the specification: the block is mapped, then read |
| `Fs.FileServer.FileTruncate` | fs/fs.c:703-727 | takes the step of the specification |
| `FsFormat.LinkKeeps` | tools/fsformat.c:194-208 | one link puts the new block in its slot, perhaps a new index block in the file, and changes no other slot |
| `FsFormat.RunIsFaithful` | tools/fsformat.c:194-217 | after any sequence of files and links the slots hold exactly the links made and the used blocks are exactly the named ones |
| `FsFormat.ServerReadsImage` | fs/fs.c:362-397 | whatever was built within NBLOCK, the server maps block k of a file to the very block saved for it, and read_bitmap asserts hold |
| `FsFormatWords.ImageReads` | fs/fs.c:462-477 | of any sound image the server hands out the words of each block |
| `FsFormatWords.ServerReadsWords` | tools/fsformat.c:194-217 | whatever was built within NBLOCK, file_get_block of block k of a file hands out the very words that were given for it |
| `FsFormatImage.ImageBuilder.constructor` | tools/fsformat.c:110-150 | the empty image, every bit of the disk set and none beyond |
| `FsFormatImage.ImageBuilder.SaveBlockLink` | tools/fsformat.c:194-208 | stores the link in place, making the index block first when it is needed |
| `FsFormatImage.ImageBuilder.WriteBlocks` | tools/fsformat.c:299-302 | the blocks of a host file take consecutive numbers in order, skipping one for the index block after the tenth, and hold the words of the file |
| `FsFormatImage.ImageBuilder.CreateFile` | tools/fsformat.c:232-272 | the first unused structure of the directory; a new directory block is linked exactly when all are in use |
| `FsFormatImage.ImageBuilder.WriteFile` | tools/fsformat.c:275-304 | a free structure of the directory is taken and named, the server finds the words of the host file behind it, block by block, and every other block of every file, older links of the directory among them, stays in its place with its words |
| `FsFormatImage.ImageBuilder.MakeLinkBlock` | tools/fsformat.c:211-217 | the new block is the next link of the directory, whose size grows by one block |
| `FsFormatImage.ImageBuilder.FlushBitmap` | tools/fsformat.c:162-170 | the blocks marked used are exactly those below nextbno |
| `FsFormatImage.ImageBuilder.Serve` | fs/fs.c:283-306 | a server on that disk starts in the state the image describes |
| `Strings.FindFits` | lib/string.c:125-146 | a match found lies within the text |
| `Strings.ReplaceFrom` | lib/string.c:168-197 | replacing everywhere is replacing the first match and then everywhere behind it |
| `Strings.ReplaceLength` | lib/string.c:185-191 | results are no shorter than the text when the replacement is no shorter than the pattern, and no longer when it is no longer |
| `Strings.Memory.StrLen` | lib/string.c:55-63 | the distance to the terminator |
| `Strings.Memory.StrStr` | lib/string.c:125-146 | the first occurrence or none, the early break losing no match |
| `Strings.Memory.MemMove` | lib/string.c:148-165 | the destination gets what the source held before, however the two overlap, and nothing else changes |
| `Strings.Memory.MemCpy` | lib/string.c:3-30 | the bytes are copied whatever the alignments, and nothing else changes |
| `Strings.Memory.ReplaceSubstr` | lib/string.c:168-197 | in place it equals the left-to-right non-overlapping replace-all for any text, pattern and replacement whose result fits, and it ends |
| `Strings.Memory.Trim` | lib/string.c:212-234 | in place, the text without the white space at both ends |
| `Strings.TrimKeeps` | lib/string.c:212-234 | what is taken off at either end is blanks, tabs, returns and newlines, and what is left neither starts nor ends with any |
| `Strings.TurnKeeps` | lib/string.c:182-196 | one turn replaces one match, shortens what is left to scan and keeps the result to come the same |
| `Print.DigitsRead` | lib/print.c:243-253 | the digits are worth the number and start with 0 only for 0 |
| `Print.DigitsCase` | lib/print.c:243-253 | letters are capitals for %X and small for %x |
| `Print.FormatReads` | lib/print.c:226-299 | for every base, sign, width, adjustment and padding the text reads back as the signed number and is max(width, digits plus sign) long |
| `Print.FormatPlaces` | lib/print.c:226-299 | padding stands behind the number when adjusted to the left, in front of it otherwise, zeros between sign and digits |
| `Print.Reversed` | lib/print.c:280-296 | reversing all or part of the padded buffer gives the documented format, zeros standing between sign and digits |
| `Print.WriteDigits` | lib/print.c:243-253 | the digits, last first, and at most 32 of them |
| `Print.AddPadding` | lib/print.c:265-278 | the padding, with the sign moved to the end when zeros go in front of it |
| `Print.ReversePrefix` | lib/print.c:281-296 | reverses exactly the first n characters |
| `Print.PrintNum` | lib/print.c:226-299 | prints the documented format for every 32-bit number without leaving its buffer of length + 70 |
| `Print.PrintDecimal` | lib/print.c:101-139 | %d and %u of any 32-bit argument, INT_MIN included, read back as the argument |
| `Path.SegsSlash` | user/lib/file.c:395-472 | the segments of a/b are those of a and then those of b |
| `Path.CatComposes` | user/lib/file.c:395-472 | joining b and then a relative c is joining b/c, for any first path |
| `Path.CatCanonical` | user/lib/file.c:395-472 | results are canonical when the first path is or the second is absolute, and canonical paths are fixed points as second argument |
| `Path.CatFits` | user/lib/file.c:395-472 | for arguments below 128 characters at most 127 segments are stacked and the result has at most 255 characters |
| `PathBuffers.NextSegment` | user/lib/file.c:410-424 | cuts the next segment out of the buffer in place and leaves everything before it alone |
| `PathBuffers.SplitFirst` | user/lib/file.c:408-425 | the stack points at the segments of the first path |
| `PathBuffers.SplitSecond` | user/lib/file.c:432-453 | the stack points at the result of walking the second path, and never has more than 128 entries |
| `PathBuffers.CatToPath` | user/lib/file.c:395-472 | the buffer ends up holding the joined path and its terminator |
| `Elf.LoadsExactly` | lib/elfloader.c:27-62 | each page meeting the segment is mapped once with the bytes of the file and zeros behind them, and no other page, if and only if the start is page aligned, or memory is not empty and the file part fills the first page or ends where memory does |
| `Elf.LoadsRight` | lib/elfloader.c:27-62 | the if direction, by the two loops staying on page boundaries |
| `Elf.MapsTwice` | lib/elfloader.c:54-60 | otherwise the page holding the bytes of the file is mapped again, empty |
| `Elf.Loader.MapPage` | kern/env.c:359-383 | a fresh zeroed page with the bytes at the offset replaces what was mapped, or nothing changes when the count of frames is used up |
| `Elf.Loader.LoadSegment` | lib/elfloader.c:27-62 | makes the calls in order, stops at the first that fails, and succeeds exactly when the count of frames, one a call, covers them all |
| `Shell.LexWithinCount` | user/sh.c:520-637 | the second tokenizer pass never emits more tokens than the first pass counted |
| `Shell.LexShown` | user/sh.c:557-630 | tokens written out with blanks between them are read back as the same tokens |
| `Shell.SimpleParses` | user/sh.c:710-823 | a command with at most one redirection parses to itself and leaves the rest |
| `Shell.SeqParses` | user/sh.c:827-918 | so do pipelines, AND/OR lists and sequences, each level associating to the left |
| `Shell.RoundTrip` | user/sh.c:520-918 | every such tree printed to text, tokenized and parsed is the same tree, with only the end token left |
| `ShellLines.RedirectReads` | user/sh.c:710-823 | a redirection without a word behind it or a command in front is refused; otherwise the tree is the redirection of exactly these words and all behind the file name is left |
| `ShellLines.RedirectLine` | user/sh.c:710-918 | the same for the whole line, unless an operator follows |
| `ShellLines.Dangles` | user/sh.c:827-918 | an operator with no command behind it is dropped; the line goes on if it bound tighter than the operator that follows, and else is the tree in front of it, with the rest left |
| `ShellLines.TrailingOperator` | user/sh.c:827-918 | so a line that ends in an operator is the line without it |
| `ShellLines.LeftBehind` | user/sh.c:710-918 | behind a redirection, anything but an operator ends the line and is left |
| `ShellLines.TwoCommands` | user/sh.c:827-918 | which tree each of the four operators makes |
| `ShellLines.WordCharIs` | user/sh.c:557-630 | a word holds no blank, no character of an operator but a single &, no backtick and no # |
| `ShellLines.LexSpaced` | user/sh.c:557-630 | tokens are found however they are spaced, as long as none runs into the next |
| `ShellLines.OperatorsRead` | user/sh.c:557-630 | the characters of each operator; a single & and a parenthesis are words |
| `ShellLines.CountSpaced` | user/sh.c:528-551 | for words without & and parentheses the first pass counts a token once and an operator of two characters twice |
| `ShellLines.LineReads` | user/sh.c:520-918 | every tree written with any such spacing, with or without a comment behind it, is read back |
| `ShellState.Parser.PeekToken` | user/sh.c:646-654 | the next token without taking it, an end token when there is none |
| `ShellState.Parser.NextToken` | user/sh.c:656-664 | takes the next token, and none past the end |
| `ShellState.Parser.MatchToken` | user/sh.c:667-673 | takes the next token exactly when it is of that type |
| `ShellState.Parser.CountPass` | user/sh.c:522-551 | counts as the first pass does and cuts the input at a comment |
| `ShellState.Parser.LexPass` | user/sh.c:553-630 | writes the tokens of the text, inside the count |
| `ShellState.Parser.Tokenize` | user/sh.c:520-637 | the token array holds the tokens, with an end token where the count was larger |
| `ShellState.Parser.ParseSimpleCommand` | user/sh.c:710-823 | returns the tree and leaves the tokens that the grammar says |
| `ShellState.Parser.ParsePipeline` | user/sh.c:827-850 | the same for pipelines, also when a command is missing after a bar |
| `ShellState.Parser.ParseAndOr` | user/sh.c:852-896 | the same for AND/OR lists |
| `ShellState.Parser.ParseCommand` | user/sh.c:898-918 | the same for sequences |

## Left out

- Ipc.SendOutcome: the page lookup and insertion are a result passed in, so where a page is mapped at
  `env_ipc_dstva`, also when that is 0, is not modelled.
- KernelSched.Kernel.SysIpcTrySend: the same; the result of the page transfer is a parameter.
- KernelSched.Kernel.EnvFree: the links of an env that was never queued name the head cell, while in
  the kernel they are NULL and the removal faults.
- VmSpec.TlbIsCurrent: page-table words have PTE_G clear. The kernel lets users set it, and the TLB
  then matches the page for every ASID.
- Pmap.Memory.SysMemAlloc: the address and env checks in front of it are not modelled.
- Pmap.Memory.SysMemMap: the address and env checks in front of it are not modelled.
- Pmap.Memory.PassiveAlloc: user pages only; its panics for addresses at or above UTOP are not modelled.
- Pmap.Memory.TlbRefill: user pages only; the pages the kernel maps above UTOP are not modelled.
- Pmap.Memory.EnvAlloc: the free list of env slots and the ids are not modelled.
- Cow.StepKeepsInv: the read of the permission and duppage's first call are one step of the runs;
  `CowUser.StalePermission` has them apart, for one duppage.
- CowUser.System.Fork: the sequence runs undisturbed here; `CowRefines.ForkCopies` has the copies made
  among other envs, and the pages the parent changes meanwhile are covered by `CowRefines.RunRefines`.
- User `sys_mem_map` outside of fork (dup, spawn, pages sent by IPC) is no step of the copy-on-write
  model, and a faulting store is one step with the three system calls of `cow_entry`.
- PipeClose.ForkRace: the state in the middle of a fork is written down, not reached by steps.
- PipeUser.Pipe.Write: stops where the source yields or asks whether the pipe is closed.
- PipeUser.Pipe.Read: stops where the source yields or asks whether the pipe is closed.
- FsFormatImage.ImageBuilder.Serve: reading the super block and the bitmap is a constructor call.
- Elf.Loader.MapPage: each call takes one frame from the count; frames given back by replacing a page
  and frames taken by page tables are not counted.
- Elf.Loader.LoadSegment: success is stated in frames as MapPage counts them.
- ShellState.Parser.Tokenize: the caller's token array must be longer than the count.
- ShellState.Parser.ParseSimpleCommand: token lists without backticks.
- ShellState.Parser.ParsePipeline: token lists without backticks.
- ShellState.Parser.ParseAndOr: token lists without backticks.
- ShellState.Parser.ParseCommand: token lists without backticks.
- Hardware and assembly: exception entry, trap frames, the IDE disk and the console. The TLB is a map
  that `tlb_out` removes a pair from.
- Words of more than one meaning: of a perm argument the bits from 12 up, PTE_V and PTE_D, and in fork
  PTE_COW and PTE_LIBRARY, are modelled; the other low bits are one opaque number. `pp_ref` is a
  natural number where the kernel has 16 bits.
- User addresses at or above UTOP: the part of each directory copied from the template and the UVPT
  self-map are carried along and never counted.
- `env_free_list`, `mkenvid` and the order in which env slots are reused; `env_create` and the body of
  `sys_exofork` on the class (the step of `sys_exofork` is in the state machine).
- The wrap of `env_runs` in the scheduler, where nothing depends on it; in the closed test it is modelled.
- Compiler freedom: shared memory is read when the source reads it.
- Fork in the middle of a run of the closed test, apart from the run that shows what goes wrong; runs
  start after the forks.
- Killing a parent in the middle of its fork, in the copy-on-write model; a child that never ran is
  then left behind.
- `pipe()` and `fd_alloc`: runs of the pipe models start from an open pipe.
- More than one reader or writer in the ring buffer: reading a byte and advancing the position are two
  steps, so two readers can take the same byte.
- That a read that returned 0 has seen every byte: a write and a close can come between its two tests.
- Directory contents: File structures are a table of their own instead of bytes in directory blocks,
  so `dir_lookup` and `walk_path` are not modelled.
- Writing blocks back: the disk is what was read, and `write_block`, `file_flush` and the order of
  writes are not modelled.
- The big-endian conversion of the image and the host side of `write_directory`.
- Fixed array sizes of the shell (100 tokens, 128 arguments, node arenas) and of message buffers; node
  arenas are values. The token array of the model is as long as its caller makes it.
- Backticks, variables, history and the executor of the shell, and the older shells.
- `memset`, `strcat` and `strcmp`, which are short loops, and the scanning of format
  strings in `vprintfmt`.
- `sys_mem_unmap`, which is `page_remove` behind the address and env checks, and those checks in the
  other memory calls.
- The waiting loops of `pipe_read`, `pipe_write`, `ipc_send` and `ipc_recv` as loops: between envs they
  are steps of the state machines, since they end only when another env acts.
- The wrap of `int` indices and of addresses beyond 2^32 in the string functions and the ELF loader.
