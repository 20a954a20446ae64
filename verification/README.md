# CherryOS: a verified model of the kernel's core

CherryOS is a small 32-bit kernel in the style of Linux 0.11.  It is not preempted in kernel
mode, so kernel code gives up the processor only where it calls `schedule`.  This project models
six parts of it and proves properties of them over all inputs, all runs or all interleavings.

Where the C code changes state in place, the model does so too: classes with the same fields,
methods with the same loops and branches.  Each such method is proved to compute a function on
values, and the main results are proved about those functions and about runs of them.

1. **Frames, address spaces, fork and exit** (`mm/memory.c`, `kernel/fork.c`, `kernel/exit.c`).
   `Paging` holds physical memory as a value, 4096 frames of 1024 words with the page directory
   in frame 0; `PhysMem` runs the loops on arrays.  `Ownership` is the invariant that every
   managed frame has at most one owner, kept by each step of copying and freeing; `CloneCost`
   counts the frames a copy takes; `PagingLaws` has what holds in any state.  `Tasks`, `Fork`
   and `Proc` add the task table; `ForkInv`, `ForkFixed`, `ForkRuns`, `ForkTheorems` and
   `Task0Fork` lift all this to every run from `mem_init` on.
2. **Buffer cache** (`fs/buffer.c`).  `Cache` is the cache as a value, `BufferCache` the hash
   chains and the ring over the same headers, `CacheTasks` any number of tasks that switch
   only inside `sleep_on`, `CacheRuns` what every interleaving of them keeps, `CacheOverflow`
   what 256 pins do, `CacheAlone` when a `getblk` that runs alone ends, `CacheLaws` what the
   callers may rely on: locks exclude, data are never stale.  `CacheSleep` joins these tasks
   to the wait queues of `WaitQueue` and proves that no wake-up is missed.
3. **Console** (`driver/console.c`).  `Terminal` is a plain grid; `Console` the window that
   slides over video memory, proved to show that grid after every byte; `TerminalLaws` says
   what strings of bytes do to the grid, in positions and cells.
4. **Scheduler and wait queues** (`kernel/sched.c`).  `Sched` and `Scheduler` for `schedule` and
   the timer, `SchedLaws` for who is woken, what is counted and how long a slice lasts;
   `WaitQueue` for the queue whose links are local variables of suspended tasks.
5. **Number formatting** (`kernel/vsprintf.c`).  `Number`: what is printed, how long it is, and
   a reader that knows only the base and gets the number back.  `NumberLaws`: the characters.
6. **Line discipline** (`driver/tty_io.c`, `include/linux/tty.h`).  `TtyQueue` for the ring
   macros, `LineDisc` for `copy_to_cooked`, with an independent account of line editing,
   `LineLaws` for what each key does under each setting.

## Findings

Properties one would expect that the code does not have, each with its exact condition and an
input that shows it:

- When a slot but no frame is free, `kernel/fork.c:115-118` writes the task structure through a
  null pointer, over the page directory.  `ForkTheorems.ForkIsAllOrNothing` says for every fork
  by a task from 1 on, in every reachable state, which of the three outcomes it has: a child,
  `-EAGAIN` with nothing changed but last_pid, or this one, if and only if a slot is free and no
  frame is.  `ForkRuns.NullTaskHappens` reaches it; `ForkRuns.FirstFork` has the same for task
  0's first fork.
- A fork by task 0 after the first is no clone: task 0 reaches its memory through 4 MB pages, and
  `copy_page_tables` takes their directory words for tables.  A child, if there is one, has
  nothing at address 0x4000 (`Task0Fork.LaterForkOfTask0`); `Task0Fork.LaterForkHappens` has
  such a child.  Forks by tasks from 1 on are clones (`ForkTheorems.CloneIsExact`).
- `exit` panics if and only if task 0 or task 1 calls it (`ForkRuns.ExitFindsFather`), and both
  can in every reachable state (`ForkRuns.TwoExitsPanic`): `free_page_tables` refuses address 0
  (`mm/memory.c:109`), and `free_page` refuses the low memory that task 1 maps
  (`mm/memory.c:57`).
- Task 1 maps the page directory.  A store of its own to it keeps the invariant and every mapping,
  the kernel's 4 MB pages included, if and only if it is harmless: the word still names the same
  frame in the same way, or still nothing (`ForkRuns.DirectoryStoreExactly`).
  `ForkRuns.DirectoryStoreHappens` has two that are not: one takes away task 1's own table, the
  other the kernel's first 4 MB.
- `fs/buffer.c:105` stores through `b_next_hash` without looking whether it is null.
  `BufferCache.BufferCache.LinkHash` and `InsertIntoQueues` report that store if and only if no
  other header is on the chain, and `TakeVictim` says so of the block that is asked for
  (`Cache.NullStore`).  The first `getblk` after `buffer_init` always does it
  (`BufferCache.BufferCache.FirstGetblk`).
- `b_count` is eight bits wide.  In every run, with any number of pins, `brelse` panics if and
  only if the pins are a multiple of 256 (`CacheOverflow.PanicsExactlyAt256`), and a `getblk`
  that has chosen a buffer gives it another identity if and only if its pins are
  (`CacheOverflow.RenamesExactlyAt256`).
  `CacheOverflow.BrelsePanicHappens` and `CacheOverflow.HeldBufferIsRenamed` are runs from
  `buffer_init` that panic, and that rename a buffer that is held.
- A `getblk` that runs alone ends if and only if its block is in an unlocked buffer, or is not
  cached and the victim is unlocked and not dirty (`CacheAlone.GetblkAloneEnds`): `sync_dev` is a
  stub.
- `ESC E` on the last line moves the cursor to row 25, below the window, because
  `driver/console.c:87` compares with `>`.  `Console.Console.WriteByte`: the console stays
  coherent if and only if the byte does not do that.  `Terminal.NextLineStrays` has the bytes,
  `Console.GoAstray` sends them after `console_init`.  The same comparison lets a BIOS cursor on
  row 25 through (`Console.Console.constructor`).
- `buffer_init` stores in front of its first header if and only if not one buffer fits; an end
  below 1024 counts as one above 4 GB, as the first subtraction wraps around
  (`BufferCache.BufferCache.BufferInit`).
- `skip_atoi` reads a formatted number back if and only if nothing but zeros precedes the
  digits (or the number is 0): `Number.AtoiReadsBack`.
- After `ESC [` the parser leaves no state that would end the sequence; every later byte is
  swallowed (`Terminal.CsiSwallows`).
- `mm/memory.c:215` converts both bounds with 32-bit wrap-around.  Nothing in the proofs needs
  a bound on them: `ForkRuns.BootInv` holds for every pair.

## Model

| member | source | states |
|---|---|---|
| PhysMem.PhysMem.constructor | mm/memory.c:207-219 | mem_map after mem_init: 0 exactly on the indices between the two bounds, NOT_EXIST elsewhere |
| PhysMem.PhysMem.GetFreePage | mm/memory.c:23-52 | the lowest frame with count 0 is counted and zeroed, nothing else changes; 0 if there is none |
| PhysMem.PhysMem.FreePage | mm/memory.c:55-72 | one count falls by one, or a panic: below 1 MB, from 16 MB on, or a count of 0 |
| PhysMem.PhysMem.FreePageTables | mm/memory.c:101-133 | the nested loops, in place, compute FreePageTables on memory as a value |
| PhysMem.PhysMem.FreeDirEntry | mm/memory.c:115-128 | one directory entry: nothing if absent; else every present page is freed, the table emptied and freed, the entry cleared, with the panics of free_page |
| PhysMem.PhysMem.CopyPageTables | mm/memory.c:141-204 | the nested loops, in place, compute CopyPageTables on memory as a value, each exit included |
| PhysMem.PhysMem.CopyDirEntry | mm/memory.c:156-169 | one round of the outer loop: panics, allocation of the table, its entry, the inner loop |
| PhysMem.PhysMem.CopyTable | mm/memory.c:171-198 | the inner loop: a new page for each present slot, copied and linked as present, writable and open to user mode (7), up to the slot where memory runs out |
| PhysMem.PhysMem.CopyPageInto | mm/memory.c:17 | copy_page copies 1024 words and changes no other frame |
| PhysMem.PhysMem.InitTask1Paging | mm/memory.c:81-98 | a new table maps the first megabyte and becomes directory entry 16 |
| Ownership.AllocKeeps | mm/memory.c:23-52 | get_free_page keeps the ownership invariant; the frame was free and owned by nobody |
| Ownership.CopySlotKeeps | mm/memory.c:173-193 | one slot copied: exact copy or out of memory, invariant kept, nothing in use changed |
| Ownership.CopySlotsKeeps | mm/memory.c:171-198 | the inner loop copies every slot exactly, or runs out of memory, and keeps the invariant |
| Ownership.CopyDirsKeeps | mm/memory.c:156-199 | copy_page_tables never panics on present sources and absent destinations; on success every entry is an exact copy; either way the invariant holds and only its own directory words changed |
| Ownership.FreeSlotsKeeps | mm/memory.c:120-125 | the inner loop of free_page_tables never panics, empties the table, keeps the invariant |
| Ownership.FreeDirsKeeps | mm/memory.c:115-128 | free_page_tables never panics under the invariant; entries become absent, and no other frame changes but the former tables |
| Ownership.FreedExactly | mm/memory.c:101-133 | the counts that fall to 0 are exactly those of tables and pages of the range |
| Ownership.RollbackRestores | kernel/fork.c:45-49 | after a copy that failed anywhere, freeing the range restores every count, every directory word and every frame in use |
| Ownership.FreeUndoesGrowth | mm/memory.c:101-133 | whatever memory grew by in a range, freeing the range takes back |
| Ownership.SameOwnersSameCounts | mm/memory.c:19 | directory and tables determine mem_map: the counts are exactly the owners |
| Ownership.FreeTwice | kernel/exit.c:148-149 | the two free_page_tables calls of do_exit: neither panics, nothing is freed twice; with equal limits the second changes nothing |
| Ownership.PageIsNoTable | mm/memory.c:141-204 | a page that a task maps is no table; of tasks from 2 on it is managed and mapped in that one slot only, of task 1 it is in low memory |
| Ownership.WriteKeeps | mm/memory.c:141-204 | a store to any frame but the directory and the tables keeps the ownership invariant |
| Ownership.DirectoryStore | mm/memory.c:81-98 | a store to the directory keeps ownership and what every word maps, the kernel's own included, if and only if it is harmless |
| CloneCost.CopyDirsCost | mm/memory.c:141-204 | copy_page_tables succeeds if and only if one free frame per table and per present page exists, and takes exactly that many |
| CloneCost.AllocFails | mm/memory.c:29-39 | get_free_page returns 0 just when no frame is free |
| PagingLaws.FreeFramesAreBetween | mm/memory.c:207-219 | after mem_init a frame is free just when it ends above the lower bound and not above the upper one; bounds below 1 MB count as 4 GB more |
| PagingLaws.FreeUndoesAlloc | mm/memory.c:23-72 | get_free_page gives the lowest free frame, zeroed and counted once; free_page restores the counts, and a second free_page panics |
| PagingLaws.FreeRefuses | mm/memory.c:55-72 | free_page panics, and changes nothing, if and only if the frame is below 1 MB, from 16 MB on or not counted; else it lowers that count by one |
| PagingLaws.DirsForCovers | mm/memory.c:113 | the directory entries for a size are enough for it, and not one more |
| PagingLaws.Alignment | mm/memory.c:107-154 | addresses that are not multiples of 4 MB are refused by both routines, address 0 by free_page_tables; a size of 0 does nothing |
| PagingLaws.CopyRefuses | mm/memory.c:158-167 | copy_page_tables panics, and changes nothing, on a present destination or an absent source; with neither and no frame it returns -ENOMEM |
| PagingLaws.FreeSkips | mm/memory.c:115-118 | an absent directory entry is skipped |
| PagingLaws.LimitsRefused | kernel/fork.c:26-27 | a code limit above the data limit is a panic |
| Tasks.CandidatesDiffer | kernel/fork.c:64-66 | up to 65 successive values of last_pid are pairwise different, wrap-around included |
| Tasks.PidsFit | kernel/fork.c:68-72 | a table of n slots holds at most n pids |
| Tasks.Pigeonhole | kernel/fork.c:61-76 | at most 64 candidates in a row are taken: the search for a pid ends |
| Tasks.FindPidIsFirst | kernel/fork.c:61-76 | the pid found is the first candidate that no task has, at most the 65th |
| Tasks.PassedOverAreUsed | kernel/fork.c:61-76 | the pids between the old and the new last_pid, 1 coming after the largest, are all in use |
| Tasks.FindPid | kernel/fork.c:57-76 | the pid is at least 1 and held by no task |
| Tasks.FindSlot | kernel/fork.c:79-85 | the first empty slot from 1 on, or 0 if all are occupied |
| Tasks.FindPidTask | kernel/sched.c:143-157 | the task found has the pid; if none is found no task from slot 1 on has it |
| Fork.AdoptEffect | kernel/exit.c:152-160 | exactly the children of the exiting task get father 1; task 1 gets SIGCHLD exactly if one of them is a zombie; nothing else changes |
| Fork.HangUpEffect | kernel/exit.c:102-111 | SIGHUP is added for exactly the tasks of the session, nothing else changes |
| Fork.BuryEffect | kernel/exit.c:151-188 | the task table after the loops of do_exit, slot by slot |
| Fork.TellFatherEffect | kernel/exit.c:114-138 | tell_father in all three cases, slot by slot: SIGCHLD to the first task with the father's pid and nothing else; nobody told for a child of task 0; without a father the slot is emptied and the page given back |
| Fork.FindPidTaskIsFirst | kernel/sched.c:143-157 | the slot found is the first, from 1 on, with the pid; none is found just when there is none |
| Proc.Proc.FindEmptyProcess | kernel/fork.c:57-86 | the loops over the table compute the pid and the slot |
| Proc.Proc.ChoosePid | kernel/fork.c:61-76 | the unbounded loop ends, with last_pid as specified |
| Proc.Proc.CopyMem | kernel/fork.c:13-53 | copy_mem in place: panics, task 1, the copy, and the rollback when the copy fails |
| Proc.Proc.CopyProcess | kernel/fork.c:89-177 | copy_process in place: slot, pid, father, frame and memory, every error return; up to the store when there is no page for the task |
| Proc.Proc.FindPidTask | kernel/sched.c:143-157 | the loop finds what the function specifies |
| Proc.Proc.TellFather | kernel/exit.c:114-138 | tell_father in place: task 0 is not told, a father in the table gets SIGCHLD, otherwise the task is released |
| Proc.Proc.BuryTask | kernel/exit.c:152-188 | in place: children adopted by task 1, SIGHUP for the session of a leader, zombie with the exit code |
| Proc.Proc.DoExit | kernel/exit.c:142-195 | do_exit in place: both ranges of tables freed, the table updated, the father told |
| ForkInv.CopyMemKeeps | kernel/fork.c:43-50 | copy_mem for slots from 2 on: an exact copy, or memory as before |
| ForkInv.ForkKeepsMemory | kernel/fork.c:89-177 | each outcome of fork by a task from 1 on: an exact clone under the new pid, nothing changed but last_pid, or the store through null, just when a slot but no frame is free |
| ForkInv.ForkKeeps | kernel/fork.c:89-177 | fork by a task from 1 on, unless it stores through null, keeps ownership, layout, distinct pids and the tree of fathers |
| ForkFixed.ExitExactly | kernel/exit.c:142-195 | exit of any live task: a panic if and only if it is task 0 or 1; otherwise the father is told, the table is known slot by slot, and ownership, layout, pids, the tree of fathers and what is fixed are kept |
| ForkFixed.ExitTableExactly | kernel/exit.c:142-195 | the task table after the exit of a task from 2 on, slot by slot: children to task 1, SIGHUP for the session of a leader, zombie with its exit code, SIGCHLD for exactly the slot with the father's pid |
| ForkFixed.ExitPanics | mm/memory.c:54-72 | exit of task 0 panics on address 0, exit of task 1 on the low memory that it maps |
| ForkFixed.ForkFixes | kernel/fork.c:89-177 | fork changes neither what the kernel's directory words map nor task 1's table nor the limits of tasks 0 and 1 |
| Task0Fork.Task0IsNotCloned | mm/memory.c:156-199 | a later fork by task 0 takes the directory for a page table: its child has nothing at address 0x4000 |
| ForkInv.TellFatherFinds | kernel/exit.c:114-138 | the father is always in the table |
| ForkRuns.BootInv | mm/memory.c:207-219 | after mem_init nothing is owned, whatever the bounds |
| ForkRuns.FirstFork | kernel/fork.c:37-42 | task 0's first fork, after mem_init: task 1 and the invariant if and only if two frames are free, a panic with one, the store through null with none |
| ForkRuns.RunKeeps | kernel/fork.c:89-177 | the invariant holds at the end of every run of forks by tasks from 1 on, exits of tasks from 2 on, stores by tasks from 1 on and stores by the kernel |
| ForkRuns.NothingIsShared | mm/memory.c:141-204 | in every reachable state no frame is in two address spaces of tasks from 1 on, nor both page and table, nor a task's own page |
| ForkRuns.StoresArePrivate | mm/memory.c:141-204 | in every reachable state a store by a task from 1 on, to the directory only if harmless, keeps all mappings and the words of every other page; a page of a task from 2 on is changed by that task only |
| ForkRuns.KernelStoresArePrivate | mm/memory.c:141-204 | in every reachable state a store by the kernel to its data or to a task's own page changes no page of a task from 2 on |
| ForkRuns.DirectoryStoreExactly | head.s:69-76 | in every reachable state a store to the directory keeps the invariant and every mapping, the kernel's 4 MB pages included, if and only if it is harmless |
| ForkRuns.DirectoryStoreHappens | mm/memory.c:91-95 | a reachable state, a store of task 1 that takes away its own table, and one that takes away the kernel's first 4 MB |
| ForkRuns.CountsAreOwners | mm/memory.c:19-72 | in every reachable state a count is 1 exactly if the frame has an owner, and then it has one only |
| ForkRuns.PagesAreUsable | mm/memory.c:93-191 | in every reachable state the directory word and the table word of every page that a task maps are present, writable and open to user mode |
| ForkRuns.LowMemoryStaysMapped | mm/memory.c:81-98 | in every reachable state task 1 maps the first megabyte to itself, page for page, and no more, and the kernel its first 16 MB by four 4 MB pages |
| ForkRuns.PidsAreDistinct | kernel/fork.c:57-86 | in every reachable state pids are distinct and every father is in the table |
| ForkRuns.AllDescendFromTask0 | kernel/exit.c:152-160 | in every reachable state the father links lead from every task to task 0 |
| ForkRuns.LimitsAlwaysFit | kernel/fork.c:19-27 | in every reachable state the limits of a live task fit its 64 MB, so fork and exit stay inside its 16 directory entries |
| ForkRuns.ExitFindsFather | kernel/exit.c:142-195 | in every reachable state exit panics if and only if task 0 or task 1 calls it; every other finds its father, so "no father found" is never reached, and leaves each slot as loops and tell_father together say, SIGCHLD going to the father only |
| ForkRuns.TwoExitsPanic | kernel/exit.c:148-149 | in every reachable state tasks 0 and 1 are alive, and their exit panics |
| Task0Fork.LaterForkOfTask0 | mm/memory.c:156-199 | in every reachable state a fork by task 0 gives no clone |
| Task0Fork.LaterForkHappens | mm/memory.c:156-199 | a reachable state in which task 0 forks and gets a child that is no clone |
| ForkRuns.ForkNeverPanics | kernel/fork.c:13-53 | in every reachable state fork by a task from 1 on does not panic; it gives a child or -EAGAIN if and only if no slot or some frame is free, else it stores through null |
| ForkRuns.NullTaskHappens | kernel/fork.c:115-118 | a reachable state in which fork stores through null |
| ForkTheorems.CloneIsExact | mm/memory.c:141-204 | after a successful fork by a task from 1 on every slot of every covered directory entry is an exact copy, linked as frame plus 7, in frames that were free, and the source is unchanged; a copy of the directory itself has the words that the copy had set by then |
| ForkTheorems.ChildIsFresh | kernel/fork.c:118-174 | the child of a successful fork, field by field: RUNNING, new pid, the parent its father, slice and priority the parent's priority, no pending signal, no alarm, no leader, no time used, blocked, session and limits the parent's, in a page that was free; all other slots unchanged |
| ForkTheorems.ForkIsAllOrNothing | kernel/fork.c:160-165 | fork by a task from 1 on gives a child if and only if a slot is free and enough frames are; it stores through null if and only if a slot but no frame is free; else it returns -EAGAIN and only last_pid has moved |
| ForkTheorems.ExitUndoesFork | kernel/exit.c:148-149 | fork and then the child's exit restore every count and directory word, but for the child's task page |
| ForkTheorems.ExitFreesItsOwn | kernel/exit.c:148-149 | exit, unless it panics, gives back exactly the frames of the task's own tables and pages |
| Cache.Find | fs/buffer.c:55-65 | finds a buffer exactly if one has the device and the block |
| Cache.VictimIsFirstLeast | fs/buffer.c:159-175 | the scan picks the first unpinned buffer of least badness in ring order; none just when all are pinned |
| Cache.ScanFinds | fs/buffer.c:159-175 | the scan resumed at any position ends with the first unpinned buffer of least badness of the whole ring |
| Cache.WithoutAt | fs/buffer.c:81-84 | taking one element out of the ring keeps the order of the others |
| Cache.MoveToBackKeeps | fs/buffer.c:81-94 | moving an element to the back leaves every buffer on the ring exactly once |
| Cache.ReassignKeeps | fs/buffer.c:202-208 | a new identity that no buffer had keeps identities unique, and the buffer is found under it |
| Cache.FreshCache | fs/buffer.c:102-105 | as long as no buffer has an identity some buffer can be taken, and giving it one stores through null |
| CacheRuns.StepKeeps | fs/buffer.c:22-251 | with fewer than 256 pins every uninterrupted stretch of every task, bread and lock_buffer included, and every device event, keeps each pin on the buffer asked for, and no step panics |
| CacheRuns.RunKeeps | fs/buffer.c:117-251 | the same at every point of every interleaving with fewer than 256 pins |
| CacheRuns.StepWraps | fs/buffer.c:22-251 | with any number of pins every step that does not panic keeps the cache well formed and the counts equal to the pins modulo 256 |
| CacheRuns.AnyRunKeeps | fs/buffer.c:22-251 | that holds at every point of every interleaving |
| CacheRuns.OneBufferPerBlock | fs/buffer.c:196-208 | in every interleaving, with any number of pins, at most one buffer has a device and block |
| CacheRuns.PinnedKeepsIdentity | fs/buffer.c:182-212 | no step changes the identity of a buffer whose b_count is not 0 |
| CacheRuns.RecheckSucceeds | fs/buffer.c:130-134 | the identity check after the wait always succeeds |
| CacheRuns.HeldIsWhatWasAsked | fs/buffer.c:117-215 | what a task holds is the buffer of the block it asked for, and tasks that ask for one block share one buffer |
| CacheRuns.CountIsPins | fs/buffer.c:130-134 | b_count is the number of pins, and no enabled step panics |
| CacheOverflow.PanicsExactlyAt256 | fs/buffer.c:246-247 | in every interleaving a step panics if and only if it is brelse of a buffer whose pins are a multiple of 256 |
| CacheOverflow.RenamesExactlyAt256 | fs/buffer.c:182-212 | in every interleaving a step gives a buffer another identity if and only if it ends a getblk that chose the buffer, found it unlocked and clean and its own block not cached, and the pins of the buffer are a multiple of 256 |
| CacheOverflow.BrelsePanicHappens | fs/buffer.c:246-247 | a run from buffer_init to the panic |
| CacheOverflow.HeldBufferIsRenamed | fs/buffer.c:182-212 | a run from buffer_init after which a buffer that is held has another identity |
| CacheAlone.GetblkAloneEnds | fs/buffer.c:147-215 | getblk alone ends if and only if the block is in an unlocked buffer, or is not cached and the victim is unlocked and its dirt is not 1; then in two steps |
| CacheAlone.ReadyEnds | fs/buffer.c:147-215 | then the caller holds a buffer of the block |
| CacheLaws.LocksExclude | fs/buffer.c:22-32 | in every run, between two returns from lock_buffer of one buffer, by any tasks, the buffer is unlocked |
| CacheLaws.StaysLocked | fs/buffer.c:22-32 | a locked buffer stays locked until it is unlocked, whoever moves |
| CacheLaws.LockReturnsLocked | fs/buffer.c:22-32 | lock_buffer returns by the step that finds the buffer unlocked and locks it |
| CacheLaws.SeekReturns | fs/buffer.c:117-215 | what getblk or get_hash_table returns in any run, with any number of pins: one more buffer, of the block asked for and unlocked; get_hash_table returns with nothing only when no buffer has the block |
| CacheLaws.ReturnsUnlocked | fs/buffer.c:129-133 | the step that returns a buffer finds it unlocked and of the block asked for |
| CacheLaws.LookupDoes | fs/buffer.c:117-180 | find_buffer hits just when some buffer has the block, which gets a pin; a miss changes nothing, ends get_hash_table, and makes getblk sleep just when every buffer is pinned |
| CacheLaws.LooksAgain | fs/buffer.c:177-197 | a getblk whose buffer was pinned, or whose block was cached meanwhile, looks its block up again |
| CacheLaws.BrelseReturns | fs/buffer.c:241-251 | brelse returns when the buffer is unlocked, with one pin less and nothing else changed |
| CacheLaws.BreadReturnsData | fs/buffer.c:218-238 | bread returns at once just when the buffer is up to date; when it returns the buffer is up to date and held, or was given up after it was seen unlocked and not up to date |
| CacheLaws.NothingDirtyIsTaken | fs/buffer.c:182-212 | only a buffer that is unpinned, unlocked and not dirty gets another block; it is then clean, not up to date, pinned once and last in the ring |
| CacheLaws.NoStaleData | fs/buffer.c:202-204 | in every run a buffer that got another block is clean and not up to date until the device changes it |
| CacheLaws.CleanIsTakenFirst | fs/buffer.c:146-175 | a clean buffer is taken before any dirty one, and a clean unlocked one in ring order |
| CacheLaws.TakenInTurn | fs/buffer.c:147-215 | with all buffers free and clean, one block after another takes the buffers in turn, in ring order |
| CacheLaws.HashValues | fs/buffer.c:9-10 | the hash is the exclusive or of device and block modulo 307: symmetric, 0 for equal numbers |
| CacheSleep.OnlyBrelseFrees | fs/buffer.c:246-250 | b_count falls to 0 only in brelse, which wakes buffer_wait |
| CacheSleep.NoneFree | fs/buffer.c:177-180 | a task falls asleep on buffer_wait only when every buffer is pinned |
| CacheSleep.WholeStepKeeps | fs/buffer.c:22-251 | every step of tasks, device and wait queues keeps: who sleeps while what it waits for is there is about to be woken |
| CacheSleep.NoWakeUpIsMissed | fs/buffer.c:22-251 | in every interleaving a task asleep in getblk while a buffer is unpinned, or asleep on a lock that is clear, in bread, brelse and lock_buffer too, hangs on a task set RUNNING |
| CacheSleep.AsleepUntilWoken | fs/buffer.c:22-251 | in every interleaving a task that falls asleep is not RUNNING until a wake_up finds it at the head of its queue or a task that remembers it returns |
| CacheSleep.BrelseWakesAll | fs/buffer.c:249-250 | after the wake_up of brelse every task asleep in getblk hangs on a task set RUNNING |
| BufferCache.FitsIsMaximal | fs/buffer.c:263-284 | n buffers fit if and only if headers and blocks do not overlap |
| BufferCache.BufferCache.BufferInit | fs/buffer.c:254-298 | buffer_init makes as many buffers as fit, blocks and headers apart, one ring through all, empty hash table; if and only if none fits it goes wrong |
| BufferCache.BufferCache.FirstGetblk | fs/buffer.c:147-215 | the first getblk after buffer_init stores through null, whatever the block |
| BufferCache.BufferCache.InitHeaders | fs/buffer.c:263-284 | as many headers as fit, each blank, with its block and its neighbours in the ring |
| BufferCache.BufferCache.FixEnds | fs/buffer.c:288-292 | the two fixed-up links close the ring |
| BufferCache.CutLinked | fs/buffer.c:71-74 | unlinking one node of a chain leaves a chain |
| BufferCache.CutRing | fs/buffer.c:81-84 | unlinking one node of a ring leaves a ring with inverse links |
| BufferCache.BufferCache.UnlinkHash | fs/buffer.c:71-76 | the header is on no chain any more, all other headers on exactly their own |
| BufferCache.BufferCache.UnlinkRing | fs/buffer.c:79-84 | the ring without the header, one-element rings included |
| BufferCache.BufferCache.LinkRing | fs/buffer.c:91-94 | the header is at the end of the ring |
| BufferCache.BufferCache.LinkHash | fs/buffer.c:97-105 | the header is on exactly its own chain; the store of line 105 goes through null if and only if no other header is on it |
| BufferCache.BufferCache.RemoveFromQueues | fs/buffer.c:68-85 | the header is on no chain and out of the ring; all other links are intact |
| BufferCache.BufferCache.InsertIntoQueues | fs/buffer.c:88-106 | the header is on exactly the chain of its identity and at the end of the ring; when line 105 stores through null, exactly |
| BufferCache.BufferCache.TakeVictim | fs/buffer.c:200-212 | the end of getblk turns the cache into the reassigned one, all links intact; it stores through null if and only if no other buffer hashes where the block does |
| BufferCache.BufferCache.FindBuffer | fs/buffer.c:55-65 | the search of one hash chain agrees with a search of all buffers |
| BufferCache.BufferCache.ScanFreeList | fs/buffer.c:159-175 | the scan along the ring pointers finds the specified victim |
| BufferCache.BufferCache.LookupAndPin | fs/buffer.c:123-130 | null just when no buffer has the block; otherwise that buffer gets one more pin and nothing else changes |
| BufferCache.BufferCache.Release | fs/buffer.c:246-249 | a panic just when b_count is 0; otherwise one pin less and nothing else changes |
| Terminal.CsiSwallows | driver/console.c:431-436 | after ESC [ nothing reaches the screen |
| Terminal.FeedSplit | driver/console.c:300-442 | bytes may be written in two calls or in one |
| Terminal.SafeLength | driver/console.c:395-399 | the bytes before the first that strays are safe, and that one strays |
| Terminal.NextLineStrays | driver/console.c:395-399 | line feeds to the last line and ESC E stray, from any terminal in its normal state |
| TerminalLaws.TextIsShown | driver/console.c:322-337 | a printable string that fits shows as its characters in grey from the cursor on, and nothing else changes |
| TerminalLaws.Wraps | driver/console.c:322-329 | a character at the margin goes to the start of the next line |
| TerminalLaws.LineFeeds3 | driver/console.c:343-346 | LF, VT and FF go one line down in the same column; on the last line the screen moves up over a blank line |
| TerminalLaws.LineIsShown | driver/console.c:318-349 | a line of text, CR and LF: the text is in its row and the cursor at the start of the next |
| TerminalLaws.TabStops | driver/console.c:364-380 | a tab goes to the next multiple of 8, in this line or counting on in the next |
| TerminalLaws.BackspaceGoesBack | driver/console.c:355-363 | backspace undoes the move of a character and leaves it |
| TerminalLaws.EraseBlanks | driver/console.c:351-354 | the erase character undoes the move and leaves a blank |
| TerminalLaws.OtherBytes | driver/console.c:318-387 | the other control bytes and those from 0x80 on do nothing |
| TerminalLaws.EscD | driver/console.c:400-404 | ESC D is a line feed |
| TerminalLaws.EscE | driver/console.c:395-399 | ESC E is CR and LF above the last line |
| TerminalLaws.EscM | driver/console.c:405-409 | ESC M undoes a line feed; on the first line the screen moves down |
| TerminalLaws.SaveRestore | driver/console.c:415-425 | ESC 7, anything without an escape, ESC 8: the cursor is back and what was written stays |
| TerminalLaws.OtherEscapes | driver/console.c:390-427 | any other byte after ESC but [ is dropped with it |
| Console.ScrolledUp | driver/console.c:121-170 | memory shifted by one line shows the screen scrolled up |
| Console.ScrolledDown | driver/console.c:173-193 | memory with a blank line before lines 0 to 23 shows the screen scrolled down |
| Console.PlotRows | driver/console.c:332 | a store inside the window changes one cell of the screen |
| Console.Console.constructor | driver/console.c:266-297 | console_init, for any number of columns: the letters EGAC at the end of the first line and nothing else, the cursor where the BIOS left it, unless refused; coherent if and only if there are 4 columns at least and the BIOS cursor is on the screen |
| Console.Console.GotoPos | driver/console.c:85-95 | cur_goto_pos, with the comparison as written |
| Console.Console.CopyForward | driver/console.c:140-143 | the overlapping forward copy moves every cell |
| Console.Console.CopyBackward | driver/console.c:183-186 | the overlapping backward copy moves every cell |
| Console.Console.ScrollUp | driver/console.c:121-170 | the screen scrolls up by one line whichever branch runs; the cursor stays coherent |
| Console.Console.ScrollDown | driver/console.c:173-193 | the screen scrolls down by one line |
| Console.Console.LineFeed | driver/console.c:209-225 | cursor one line down, or the screen scrolls up on the last line; screen and cursor address agree with the plain terminal |
| Console.Console.ReverseIndex | driver/console.c:228-244 | cursor one line up, or the screen scrolls down on the first line; agrees with the plain terminal |
| Console.Console.CarriageReturn | driver/console.c:196-206 | column 0, cursor address coherent |
| Console.Console.Delete | driver/console.c:248-261 | the character left of the cursor is blanked, nothing in column 0; agrees with the plain terminal |
| Console.Console.PutChar | driver/console.c:322-337 | a character, after a line feed if a wrap is pending; agrees with the plain terminal |
| Console.Console.Tab | driver/console.c:364-380 | the next multiple of 8, counting on in the next line past the margin; agrees with the plain terminal |
| Console.Console.WriteNormal | driver/console.c:321-387 | any byte in the normal state, as the plain terminal |
| Console.Console.WriteEsc | driver/console.c:390-427 | any byte after ESC, as the plain terminal, or ESC E on the last line |
| Console.Console.WriteByte | driver/console.c:314-439 | any byte: coherent afterwards if and only if it does not stray, and then the screen, cursor and state are the terminal's |
| Console.Console.Write | driver/console.c:300-443 | any byte sequence: coherent afterwards if and only if no byte strays, and then the window shows the terminal's screen and the queue is empty; else it shows the screen up to the byte that strays |
| Console.GoAstray | driver/console.c:85-95 | console_init and a console_write after which the cursor is below the window |
| Sched.PickIsMost | kernel/sched.c:374-384 | schedule picks a running task with most time left, the highest slot of several; none just when none has time left |
| Sched.TickCharges | kernel/sched.c:407-438 | the sum of the time slices falls by one per tick until nothing is left, and then all are refilled |
| Sched.RestOfEpoch | kernel/sched.c:386-395 | until the next refill every running task is charged exactly the time it had |
| Sched.NoRefillBefore | kernel/sched.c:386-395 | no refill before that |
| Sched.EpochsAreFair | kernel/sched.c:349-438 | k epochs charge every running task exactly k times its priority |
| Sched.NobodyStarves | kernel/sched.c:349-438 | within the rest of the epoch and one more every running task gets its time left and its priority, at least one tick |
| Sched.UtsCountsCharges | kernel/sched.c:429 | uts grows by exactly the ticks charged, modulo 2^32 |
| Scheduler.Scheduler.Schedule | kernel/sched.c:349-403 | the three loops in place; a refill does not switch |
| Scheduler.Scheduler.WakeTasks | kernel/sched.c:356-372 | alarms that are over raise SIGALRM; a pending unblocked signal wakes exactly the interruptible tasks |
| Scheduler.Scheduler.PickTask | kernel/sched.c:375-384 | the running task with most time left, none if all have used it up |
| Scheduler.Scheduler.RefillTasks | kernel/sched.c:388-394 | exactly the running tasks get their priority as time slice |
| Scheduler.Scheduler.DoTimerInterrupt | kernel/sched.c:407-438 | one tick is charged to the current task, in its slice and in uts or kts; schedule runs only in user mode and when the slice is used up |
| SchedLaws.ScheduleLooks | kernel/sched.c:349-403 | schedule in any state, for every task: who is woken, what becomes of alarm and signals, who is refilled, and that nothing else changes |
| SchedLaws.WhoIsReached | kernel/sched.c:356-372 | an interruptible task is woken if and only if a signal is pending, SIGALRM for an alarm that is over included, that is not blocked or is SIGKILL or SIGSTOP |
| SchedLaws.TicksAreCounted | kernel/sched.c:407-438 | over every run of ticks in either mode, from any state: uts and kts count exactly the ticks that found the task in user and in kernel mode, modulo 2^32 |
| SchedLaws.SliceIsWhole | kernel/sched.c:407-438 | until its slice is used up nothing takes the processor from a task, whatever else is willing to run |
| SchedLaws.KernelIsNotPreempted | kernel/sched.c:423-426 | ticks in kernel mode never switch, refill or wake, however many |
| SchedLaws.SliceEnds | kernel/sched.c:427-436 | the tick in user mode that uses a slice up goes to a willing task with most time left, the highest slot of several, or refills |
| WaitQueue.StepKeeps | kernel/sched.c:441-488 | every step keeps every task that sleep_on put to sleep, and that nothing has set RUNNING since, reachable |
| WaitQueue.NoSleeperIsLost | kernel/sched.c:441-488 | in every interleaving with spurious returns such a task, parked or not, is reachable from its queue's head or from a parked task set RUNNING |
| WaitQueue.WakeUpReachesAll | kernel/sched.c:482-488 | after wake_up every task put to sleep on the queue is RUNNING or hangs on a parked task that is |
| WaitQueue.RunCarries | kernel/sched.c:441-455 | it stays so over every run, on an ever shorter path |
| WaitQueue.ShortPath | kernel/sched.c:449-454 | although spurious returns can close the tmp links to a cycle, a sleeper hangs on a path no longer than there are tasks |
| WaitQueue.EverySleeperWakes | kernel/sched.c:441-488 | once the woken tasks get to return, round by round, every earlier sleeper is RUNNING after at most as many rounds as there are tasks |
| WaitQueue.StepRuns | kernel/sched.c:441-488 | who is RUNNING after any step: who was or is woken, but not the task that goes to sleep |
| WaitQueue.SleepsUntilWoken | kernel/sched.c:441-488 | in every run a task put to sleep is RUNNING again if and only if a wake_up has found it at the head or a task that remembers it has returned, as long as nothing else sets its state |
| WaitQueue.QueuesAreChained | kernel/sched.c:449-488 | wake_up leaves the queue empty; the next sleeper remembers nobody, and the one after it remembers the first |
| WaitQueue.OtherQueuesStay | kernel/sched.c:441-488 | a step changes no other queue |
| WaitQueue.WaitQueues.Enter | kernel/sched.c:441-452 | a null queue is ignored, task 0 panics; else the task remembers the old head, becomes the head and is no longer RUNNING |
| WaitQueue.WaitQueues.Leave | kernel/sched.c:453-454 | the task that was remembered is set RUNNING, whether or not anybody woke this one |
| WaitQueue.WaitQueues.WakeUpQueue | kernel/sched.c:482-488 | the head is set RUNNING and the queue is empty; nothing for an empty or a null queue |
| Number.Convert | kernel/vsprintf.c:54-58 | tmp holds the digits backwards, in at most 32 of its 36 places |
| Number.Layout | kernel/vsprintf.c:61-82 | the characters go out in the order of Pieces: blanks, sign, prefix, zeros, digits, blanks |
| Number.Number | kernel/vsprintf.c:30-84 | number stores exactly Text, and returns null for a base out of range |
| Number.WidthIsExact | kernel/vsprintf.c:46-82 | the length is max(width, sign + prefix + max(precision, digits)) under every flag |
| Number.AtMost32Digits | kernel/vsprintf.c:34 | a 32-bit number has at most 32 digits in any base |
| Number.DigitsAreWorth | kernel/vsprintf.c:57-58 | the digits are digits of the base and are worth the number |
| Number.ReadsBack | kernel/vsprintf.c:30-84 | reading the text back gives the number, for every base, width, precision and flags; signed under SIGN, the least int included |
| Number.SkipAtoi | kernel/vsprintf.c:7-14 | the value of the leading digits, wrapped to 32 bits, and the rest |
| Number.AtoiReadsBack | kernel/vsprintf.c:7-14 | decimal output is read back if and only if nothing but zeros precedes the digits, or the number is 0 |
| NumberLaws.TextLooks | kernel/vsprintf.c:30-84 | the text, character by character, for every number, base, width, precision and flags: blanks, the sign, the prefix, zeros, digits in the right case without a leading zero, blanks, each with its exact count |
| NumberLaws.DigitsLook | kernel/vsprintf.c:34-58 | digits and small letters just under SMALL, no leading zero but for 0 itself |
| NumberLaws.AtoiStops | kernel/vsprintf.c:7-14 | skip_atoi reads all decimal digits in front and no further |
| TtyQueue.Spaces | include/linux/tty.h:19-22 | both spaces add up to 1023; EMPTY just when nothing waits |
| TtyQueue.PushAppends | include/linux/tty.h:15 | storing at head appends, and empties a full ring |
| TtyQueue.PopDrops | include/linux/tty.h:15 | incrementing tail drops the oldest character |
| TtyQueue.UnpushDrops | include/linux/tty.h:16-23 | LAST is the newest character and DEC removes it |
| TtyQueue.TtyQueue.Take | driver/tty_io.c:73-74 | takes the oldest character |
| TtyQueue.TtyQueue.Put | driver/tty_io.c:242-243 | appends a character |
| TtyQueue.TtyQueue.Last | include/linux/tty.h:23 | the newest character |
| TtyQueue.TtyQueue.DropLast | include/linux/tty.h:16 | removes it |
| LineDisc.KillIsLongest | driver/tty_io.c:106-144 | kill leaves exactly the longest prefix that is empty or ends in NL or EOF |
| LineDisc.KillKeepsMarks | driver/tty_io.c:106-180 | neither kill nor erase removes an NL or EOF |
| LineDisc.StepKeepsCount | driver/tty_io.c:199-202 | one character keeps data equal to the number of NL and EOF in secondary, and secondary within its bounds |
| LineDisc.StepKeepsLines | driver/tty_io.c:67-244 | no character changes a finished line |
| LineDisc.CookIsSafe | driver/tty_io.c:67-244 | after a whole call, on every input: data counts the NL and EOF in secondary, secondary has not overflowed, no finished line has changed, and the call ended with read_q empty or 1023 characters in secondary |
| LineDisc.CookSplit | driver/tty_io.c:67-244 | input cooked in two calls or in one gives the same |
| LineDisc.EditingIsSurvival | driver/tty_io.c:103-195 | editing forwards keeps exactly the characters that a backward reading says survive |
| LineDisc.CookedText | driver/tty_io.c:67-244 | the contents of secondary after any call, by that backward reading |
| LineLaws.Ignores | driver/tty_io.c:76-86 | only CR is ignored, and just when it is not made NL and is to be ignored |
| LineLaws.KeyDoes | driver/tty_io.c:76-243 | what every key does, by the settings and the numbers of the characters: translated, then kill before erase before stop before start in canonical mode, else stored and counted if it ends a line |
| LineLaws.PlainKeysAreStored | driver/tty_io.c:242-243 | plain keys are stored as they are, in order |
| LineLaws.EnterEndsLine | driver/tty_io.c:76-80 | a line and CR under CRNL: the line with NL, counted once |
| LineLaws.EraseTakesBack | driver/tty_io.c:147-181 | n erase characters take back the last n plain keys |
| LineLaws.KillTakesBack | driver/tty_io.c:106-145 | the kill character takes back the line that was begun |
| LineLaws.StopAndStart | driver/tty_io.c:182-194 | stop and start leave no trace in the text, and the last of them counts |
| LineDisc.Tty.KillLine | driver/tty_io.c:108-143 | the loop takes back characters up to the last NL or EOF: secondary becomes Kill of it |
| LineDisc.Tty.EraseLast | driver/tty_io.c:149-162 | the last character goes, unless there is none or it is NL or EOF |
| LineDisc.Tty.OneCharacter | driver/tty_io.c:76-243 | one character, under every setting: the translations, then kill, erase, stop, start or store |
| LineDisc.Tty.CopyToCooked | driver/tty_io.c:67-244 | the loop over the two rings ends, and leaves the state and the rest of read_q that Cook says |

## Left out

- Proc.Proc.CopyProcess: the TSS and the descriptor tables are not modelled, and a task structure is a value in its slot, not the bytes of its frame. What memory is like after the store through null is left open: the page directory is overwritten, and what the processor does then is not part of this model.
- Proc.Proc.CopyMem: segment bases are task_nr * 64 MB by construction, so the check that the code and data bases agree cannot fail; set_segment_base (kernel/sched.c:506-520) is right for such bases only, and the descriptor writes are left out. The lsl instruction is modelled by the limits kept in the task.
- Proc.Proc.TellFather: the call of schedule in release is not part of it.
- Proc.Proc.DoExit: the final call of schedule is not part of it; `Sched` models that routine by itself.
- ForkRuns.RunKeeps: two frames are free at boot. Of what tasks from 1 on do, the steps left out are the forks that store through null, the stores to the directory that are not harmless, and the exit of task 1, which panics, see Findings. What task 0 does after the first fork is left out: its exit panics, a fork of its is no clone, and its segment (base 0, 16 MB, user bit set in head.s:69-76) reaches every frame.
- ForkRuns.StoresArePrivate: stores by task 0 reach every frame and are not covered; for the same reason ForkRuns.NothingIsShared does not count task 0 as an address space.
- ForkTheorems.ForkIsAllOrNothing: tasks from 1 on; the outcome of a later fork by task 0 depends on what the frames at 4, 8 and 12 MB hold, which it takes for page tables, so of it only Task0Fork.LaterForkOfTask0 is stated.
- ForkInv.ForkKeeps: tasks from 1 on, likewise.
- ForkInv.ForkKeepsMemory: tasks from 1 on, likewise.
- ForkRuns.ForkNeverPanics: tasks from 1 on, likewise.
- The accessed and dirty bits that the processor sets in directory and table words: the directory may have them (`Paging.SameWay`), but no step sets them in the words of a table.
- ForkRuns.KernelStoresArePrivate: mem_map, last_pid, tasks_ptr and the task structures are fields of the model and not bytes of low memory or of task pages, so a store there does not change them.
- ForkTheorems.CloneIsExact: tasks from 1 on; as mem_map and the like are fields of the model, low memory apart from the directory counts as unchanged during a fork; when task 1 forks, the child's copy of the pages with the kernel's own data is that of one moment, and the original copies them while the data change.
- ForkTheorems.ExitUndoesFork: the zombie keeps its task page, because nothing in the modelled code releases it.
- CacheRuns.RunKeeps: fewer than 256 pins on every buffer, see Findings for what happens then; devices are 1 to 65535.
- CacheSleep.NoWakeUpIsMissed: fewer than 256 pins; only the buffer cache uses these queues, signals do not change the state of a task that sleeps, which is uninterruptible, and task 0, for which sleep_on panics, does not sleep.
- BufferCache.BufferCache.LinkHash: the store through null is reported and not made; what it would destroy is not part of this model.
- BufferCache.BufferCache.InsertIntoQueues: as LinkHash.
- BufferCache.BufferCache.TakeVictim: as LinkHash.
- BufferCache.BufferCache.BufferInit: a header has 36 bytes, and what the original stores in front of the headers when none fits is not made.
- unlock_buffer and ll_rw_block appear as the device event, which locks, fills and unlocks a buffer.
- Console.Console.Write: after a byte that strays the model goes no further; what the original then stores may lie outside video memory.
- Console.Console.constructor: the BIOS data are parameters; with fewer than 4 columns what lies in front of video memory is not stored. Port writes, update_cursor and update_scroll are not modelled.
- Sched.EpochsAreFair: ticks arrive in user mode, no signal or alarm is pending and running tasks have positive priorities (`Sched.Quiet`); jiffies and time slices are unbounded integers.
- Scheduler.Scheduler.Schedule: switch_to is a change of `current`.
- WaitQueue.WaitQueues.Enter: interruptible_sleep_on (unused) is not modelled.
- Number.Number: the format loop of vsprintf beyond number and skip_atoi is not modelled.
- LineDisc.Tty.CopyToCooked: the echo to write_q, which is stored without a check for space, is left out, as is the reader of secondary; the bit tested at driver/tty_io.c:103 (L_ICANON, in c_iflag) is a free setting.
- LineDisc.Tty.KillLine: without the echo of the erased characters.
- LineDisc.Tty.EraseLast: without the echo of the erased character.
- LineDisc.Tty.OneCharacter: without the echo.
- driver/hd.c and driver/ll_rw_blk.c: port input and output.
- kernel/signal.c, kernel/traps.c, kernel/sys.c, the assembly files, boot code and lib/string.c.
- TLB flushes, cli and sti, printk.
