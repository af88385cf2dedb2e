# rt64: page tables, scheduler, context switches and loader in Dafny

rt64 is a small x86-64 kernel derived from xv6. This project models its core and proves what
the code is meant to guarantee, for every input, every run or every reachable state.

**Address spaces** (`Arch`, `Macros`, `PageTable`, `MapPage`, `MapRange`, `ByteView`, `CopyTree`, `Spaces`,
`KernelSpace`, `KernelMemory`). Physical memory is a sequence of 4K frames of 512 words; a word is split
into its upper 52 bits and its twelve flag bits, and `Macros` proves that the shift-and-mask macros on 64-bit
words compute that split and the model's indices. `Walk` is what the processor and `paging_getpteref` see: the leaf entry, its
level and the flags met above it. The free list lives in the free frames. The invariant `WF` gives each
table frame one place (root, level, page prefix, parent entry), so trees never share a table, and keeps
tables, free frames and held frames apart. `None` as a result stands for a failed `ASSERT`. The functions
(`MapPages`, `CopyRoot`, ...) specify the methods of the class `Memory`, which run as the C code does.

**Scheduling** (`Sched`, `SchedRuns`, `SchedCalls`, `ProcTable`). One CPU and one store per step, with a timer interrupt
possible wherever the interrupt flag is set. A probe of the scan reads a state and advances the cursor in one
step; an interrupt between the two would change neither. Threads may also disable and enable interrupts
themselves. The idle thread is slot 0. The number of slots is a parameter. `SchedCalls` follows each call, from the thread's own
code on, over whole runs.

**Switching and traps** (`Context`, `TrapFrame`, `TimerTrap`, `Spawn`, `Threads`). Registers and word-addressed
memory (an address counts 8-byte words), with `swtch`, `alltraps`, `trapret` and the hand-built first frames
instruction by instruction. A trap may come between any two instructions of `swtch`. `TimerTrap` gives
`trap()` on memory, the timer case on the words of `struct proc`. `Threads` is the machine of threads that compute, switch and
create threads: its switch and creation steps are proved to be what `swtch` and the two spawn functions do, and
the theorems are about its whole runs.

**Smaller routines** (`Strings`, `Console`, `BootLoader`): `memmove`, `memcpy`, `memset`, `printint` and the
multiboot loader.

Two places where the code differs from what is written about it:

- `procinit` gives the idle thread pid 1, so the invariant noted in `src/include/ktypes.h` (pid equals slot)
  holds for slots 1 and up only; `SchedRuns.Safe` states both.
- `paging_map` looks at 48 bits of an address. On a range that leaves the canonical addresses it writes the
  page of a canonical address outside the range. `ByteView.MapBytes` proves the mapping exact for canonical
  ranges and `ByteView.StrayPage` gives the stray page for every other range.

## Model

| member | source | states |
|---|---|---|
| Macros.IndexMacros | src/include/x64consts.h:84-87 | on every 64-bit address the four shift-and-mask index macros give the indices that the model's walk uses for its page number |
| Macros.EntryMacros | src/kernel/paging.c:50 | the 64-bit entry of an aligned address, flags and the present bit is the model's word with that page and those flags plus present |
| Macros.TableMacros | src/kernel/paging.c:29 | the entries of a new table and of a copied table are the model's words with the table's page and the fixed or the copied flags |
| Macros.WordMacros | src/include/x64consts.h:88-89 | 64-bit words and the model's words determine each other; the address macro keeps exactly the page, the flags macro exactly the flags |
| Macros.FlagMacros | src/include/x64consts.h:91-97 | each flag constant sets the flag it is named after and no other |
| Arch.IndicesIdentify | src/include/x64consts.h:84-87 | two pages with the same four indices are the same page |
| Arch.CanonicalPage | src/include/x64consts.h:84-87 | distinct canonical pages have distinct page numbers |
| MapPage.NextFacts | src/kernel/paging.c:20-31 | descending with allocation keeps the tree invariant, returns the table placed exactly below the entry, and touches nothing else |
| MapPage.MapAtFacts | src/kernel/paging.c:42-53 | mapping one page panics exactly when a huge page is on its path or its missing tables exceed the free frames; otherwise its walk ends in the new entry below unchanged flags, and it takes exactly the missing tables |
| MapPage.MapAtView | src/kernel/paging.c:42-53 | mapping one page changes no other walk, from any table of any root, and no flags or huge pages on any path |
| MapPage.NewTableView | src/kernel/paging.c:28-30 | linking a zeroed frame as a table is invisible to every walk |
| MapPage.EndTablePlace | src/kernel/paging.c:55-86 | the entry a walk finds is in the one table that its tree has for that level and page |
| MapRange.MapPagesKeeps | src/kernel/paging.c:91-108 | the tree, ownership and free-list invariant survives a whole range, and only free frames and tables of that root change |
| MapRange.MapPagesView | src/kernel/paging.c:91-108 | after a range is mapped, the entry of every page in it has its frame, the present bit and every other flag as given; every other page of every root walks as before |
| MapRange.HitExact | src/kernel/paging.c:97-106 | in a range no longer than the address space, page v+d is written with frame p+d, wrap-around included, and no other page is written |
| MapRange.HitSome | src/kernel/paging.c:97-106 | a range of any length writes exactly the pages that come less than its length after its first, modulo the address space |
| MapRange.MapAtMiss | src/kernel/paging.c:20-31 | mapping a page fills exactly its own missing table places, for the path of every other page |
| MapRange.MapPagesCost | src/kernel/paging.c:91-108 | a range panics if and only if a huge page is on a path or the distinct missing tables exceed the free frames; else it takes exactly one frame per distinct missing table |
| MapRange.MapPagesRest | src/kernel/paging.c:91-108 | what a range leaves missing for any other range is what that range lacked minus what it filled |
| ByteView.MapBytes | src/kernel/paging.c:91-108 | in a canonical range byte va+k translates to pa+k by an entry with the present bit and every other flag as given; every canonical address outside walks as before |
| ByteView.StrayPage | src/kernel/paging.c:91-108 | every range of an isize's length that leaves the canonical addresses also writes the page of a canonical address outside it |
| CopyTree.CopyTableFacts | src/kernel/paging.c:110-139 | cloning a tree panics if and only if it has more tables than there are free frames; else it takes exactly that many, keeps the invariant, and changes no frame that was in use |
| CopyTree.CopyTableWalk | src/kernel/paging.c:110-139 | below the clone every page has the same leaf value, the same flags at every level and the same huge pages as below the original |
| CopyTree.CopyRow | src/kernel/paging.c:115-136 | entry by entry: a last-level table is copied verbatim; above it huge pages are verbatim, absent entries zero, and links keep their flags and lead to frames that were free |
| CopyTree.SameBelow | src/kernel/paging.c:55-86 | what a walk sees depends on the tables of its own root only |
| Spaces.OnePlace | src/kernel/paging.c:20-31 | trees, not graphs: no two table frames have the same place |
| Spaces.CountUnder | src/kernel/paging.c:110-139 | the recursion visits exactly the tables placed below a table, each once |
| Spaces.CopyRootCost | src/kernel/paging.c:144-147 | a deep copy succeeds if and only if the source's tables fit the free list, takes exactly that many frames, all of them free before, and yields a new root |
| Spaces.CopyRootView | src/kernel/paging.c:144-147 | every page walks through the copy as through the original, and all earlier spaces walk as before |
| Spaces.PoolSize | src/kernel/kalloc.c:13-46 | free, table and held frames are disjoint and add up to the pool |
| Spaces.KallocKeeps | src/kernel/kalloc.c:37-46 | handing out a frame, which is zeroed and was in no other use, keeps every tree, the list, the pool and every other frame |
| Spaces.KfreeKeeps | src/kernel/kalloc.c:27-35 | freeing a held frame keeps every tree, the list and the pool and writes one word; allocating next gives it back and restores the list |
| Spaces.RunConserves | src/kernel/kalloc.c:27-46 | over any run of kalloc, kfree, paging_map and deep copies the list stays acyclic and duplicate-free and no frame is lost, shared or handed out twice |
| Spaces.RunIndependent | src/kernel/paging.c:144-147 | a run that maps nothing under a root leaves every walk under it unchanged for ever |
| KernelSpace.PagingInitSpec | src/kernel/paging.c:150-161 | building the kernel space needs exactly 28 frames, and gives exactly the two windows and nothing else |
| KernelSpace.UvmInitSpec | src/kernel/paging.c:171-179 | the user space succeeds exactly when the copy fits, takes no frame for the remap, and opens exactly the user segment |
| KernelSpace.OpenFrames | src/kernel/proc.c:174-176 | opening mapped frames to user code never panics, takes no frame, and changes nothing else in either space |
| KernelSpace.BootSpec | src/kernel/main.c:7-14 | from 56 free frames up both spaces are built, 28 frames each |
| KernelSpace.AfterBoot | src/kernel/proc.c:154-176 | in every state reachable after boot the kernel space is as built and the user space is open in exactly the user segment and the stacks mapped since |
| KernelSpace.SpacesExact | src/kernel/paging.c:154-157 | both spaces translate KERNBASE+x to x below 16M and DEVBASE+x to 0xFE000000+x below 32M and nothing else; effective user and write rights are exact, and so are all flags: device entries are uncached and written through, no other is |
| KernelSpace.WindowCost | src/kernel/paging.c:156-157 | in an empty space the kernel window needs 10 tables and the device window 17 more |
| KernelMemory.Memory.Kalloc | src/kernel/kalloc.c:37-46 | pops the head of the list stored in memory, zeroes it, and panics exactly on an empty list |
| KernelMemory.Memory.Kfree | src/kernel/kalloc.c:27-35 | pushes a frame on the list stored in memory |
| KernelMemory.Memory.Kallocinit | src/kernel/kalloc.c:48-58 | leaves exactly the whole frames from `end` to 16M on the list, lowest first, and the counter right |
| KernelMemory.Memory.NextMayalloc | src/kernel/paging.c:20-31 | computes the specified descent, panics exactly when it does, and never fails the ASSERT of safe_setent |
| KernelMemory.Memory.Map4K | src/kernel/paging.c:42-53 | computes the one-page specification, leaving an entry with that frame, the present bit and every other flag as given; panics exactly when the specification fails or an address is unaligned |
| KernelMemory.MapsWord | src/kernel/paging.c:50-52 | in 64-bit words, the entry left for an aligned address is address, flags and PF_P or-ed together |
| KernelMemory.Memory.PagingMap | src/kernel/paging.c:91-108 | the loop with 64-bit wrapping counters computes the range specification; panics exactly when it fails or an argument is unaligned |
| KernelMemory.Memory.Getpteref | src/kernel/paging.c:55-86 | finds an entry exactly when the walk ends in a leaf, and then that leaf, in the table where the walk ends, at the index of its level |
| KernelMemory.Memory.Deepcopy | src/kernel/paging.c:110-139 | the recursive copy in place computes the clone specification; panics exactly when it fails |
| KernelMemory.Memory.CopyOne | src/kernel/paging.c:121-136 | one turn of the copy loop: skip, verbatim huge page, or recursive copy with kept flags |
| KernelMemory.Memory.PaginginitBsp | src/kernel/paging.c:150-161 | computes the kernel-space specification |
| KernelMemory.Memory.Uvminit | src/kernel/paging.c:171-179 | computes the user-space specification |
| KernelMemory.Memory.BootMemory | src/kernel/main.c:7-14 | from bare memory with room for 56 tables, boot does not panic and ends in exactly the two spaces |
| Sched.StepKeeps | src/kernel/proc.c:12-215 | every step of threads, scheduler and timer keeps the scheduler invariant and reaches no ASSERT or panic |
| Sched.TimerKeeps | src/kernel/trap.c:101-123 | a timer interrupt at any interruptible point keeps the invariant |
| Sched.LeaveKeeps | src/kernel/proc.c:12-36 | the stores of yield, sleep, exit and sched keep it |
| Sched.DispatchKeeps | src/kernel/proc.c:89-101 | choosing, marking, loading CR3 and the TSS halves and switching keep it, with interrupts on |
| Sched.AllocKeeps | src/kernel/proc.c:116-124 | reserving a slot while timer interrupts arrive keeps it |
| Sched.SpawnKeeps | src/kernel/proc.c:126-191 | filling a reserved slot and making it runnable last keeps it |
| Sched.ScanKeeps | src/kernel/proc.c:65-89 | the scan chooses only runnable slots, never the idle thread's, and keeps it |
| Sched.CallKeeps | src/kernel/proc.c:30-36 | entering yield, sleep, exit or a spawn passes its ASSERT and keeps it |
| Sched.InitInv | src/kernel/proc.c:39-60 | the state procinit leaves satisfies it |
| SchedRuns.RunSafe | src/kernel/proc.c:12-215 | over all interleavings: idle stays RUNNING and is never chosen, only the current thread runs beside it, sleepers seen by the timer have ticks left, pids are right, own code runs under its own CR3 and TSS stack, threads resume with interrupts on |
| SchedRuns.RunExited | src/kernel/proc.c:193-202 | an exited thread stays exited for the rest of the run |
| SchedRuns.SleepEntry | src/kernel/proc.c:211-213 | behind cli nothing comes between the two stores of sleep, and the tick does not change |
| SchedRuns.WaitStep | src/kernel/proc.c:65-77 | while a runnable thread waits, each probe brings the cursor nearer and nothing moves it away, spawns included |
| SchedRuns.BoundedWait | src/kernel/proc.c:65-101 | a runnable thread is chosen after fewer than MAX_PROC dispatches of others |
| SchedRuns.SleepExact | src/kernel/trap.c:117-121 | a sleeper's count is the ticks left at every point, and it becomes runnable at exactly its tick |
| SchedCalls.KernelProgress | src/kernel/proc.c:12-191 | over any run, kernel code reaches a thread's own code, main() or the scan within eight steps, whatever the interrupts |
| SchedCalls.CallEnds | src/kernel/proc.c:12-36 | after yield, sleep or exit the idle thread is back within six steps |
| SchedCalls.YieldCall | src/kernel/proc.c:30-36 | from a thread's yield: when idle is back the thread is runnable, its sleep count untouched, and it waits for fewer than MAX_PROC dispatches of others |
| SchedCalls.ExitCall | src/kernel/proc.c:193-202 | from a thread's exit: from when idle is back, the slot is EXITED and the thread never has the CPU again |
| SchedCalls.SleepFromCall | src/kernel/proc.c:204-215 | from a thread's sleep(n): only timer interrupts come before its cli; with cli at tick t the slot sleeps with t+n-ticks to go at every point before tick t+n, and the interrupt that makes it that tick makes it runnable; sleep(0) changes nothing |
| SchedCalls.DispatchRuns | src/kernel/proc.c:89-101 | a thread that the scan chooses has the CPU and runs, with interrupts on, after exactly six more steps, and no other code runs before |
| SchedCalls.SpawnCall | src/kernel/proc.c:116-191 | from a call of spawn or spawnuser to its return: one slot more, runnable, with its number as pid, its own kernel stack, and the user page table exactly if it was spawnuser; the caller goes on as it was |
| SchedCalls.RunSpace | src/kernel/proc.c:97-100 | over every run from boot, CR3 is the user page table exactly while a thread created by spawnuser runs its own code, and the kernel's while idle scans |
| SchedCalls.CliMasks | src/kernel/proc.c:30-36 | a thread's cli keeps the timer out until its sti, its sti lets it in |
| ProcTable.Table.Tick | src/kernel/trap.c:101-121 | the in-place loop computes the tick of every slot in use and no other |
| ProcTable.Table.FindRunnable | src/kernel/proc.c:65-77 | returns the first runnable slot in cyclic order from the cursor, within nproc probes, and leaves the cursor behind it |
| ProcTable.ScanFinds | src/kernel/proc.c:65-77 | the step machine's scan, undisturbed, makes the same choice within nproc probes |
| Context.Cpu.Swtch | src/kernel/switch.S:9-43 | instruction by instruction, traps between any two of them included: stores the caller's callee-saved registers, stack pointer and return address, returns in the other context, and keeps every word that traps spare |
| Context.Cpu.Save | src/kernel/switch.S:11-25 | the stores write exactly the caller's context record |
| Context.Cpu.Load | src/kernel/switch.S:27-43 | the loads and ret resume the other record, writing one stack slot |
| TrapFrame.TrapCpu.Vector | src/tools/vectors.py:22-28 | the processor's and the vector's pushes are the hardware part of struct trapframe, word by word |
| TrapFrame.TrapCpu.Alltraps | src/kernel/trapasm.S:2-21 | the pushes complete struct trapframe in its field order, below the hardware part, and touch nothing else |
| TrapFrame.TrapCpu.Trapret | src/kernel/trapasm.S:24-44 | the pops and iretq load every register from its own field |
| TrapFrame.TrapCpu.Trap | src/kernel/trap.c:96-127 | entry, any handler that keeps the frame, and return restore the interrupted state exactly, except a system call's result in rax, and change no word outside the frame that the handler spares |
| TrapFrame.SyscallKeepsFrame | src/kernel/trap.c:124-127 | a system call that returns, whatever registers and words its code uses, keeps the frame but for its result, 0 for print and -1 for an unknown number, and every word it does not use |
| TimerTrap.SlotWords | src/include/ktypes.h:41-71 | the words the timer writes are the state and sleep count of slots in use, never a context record or any other word |
| TimerTrap.TimerKeepsFrame | src/kernel/trap.c:101-123 | the timer case keeps the whole frame and every word but the counter, those slot words and its own |
| TimerTrap.TimerTicks | src/kernel/trap.c:117-121 | on the 32-bit fields in memory the loop does to every slot in use what the scheduler machine's tick does, and advances the counter |
| TimerTrap.TrapKeepsFrame | src/kernel/trap.c:100-127 | the case is chosen by the trap number in the frame; both returning cases keep it, but for the result of a system call |
| TimerTrap.SyscallInterrupt | src/kernel/syscall.c:3-20 | a system call by print's or an unknown number restores the interrupted state but for rax, 0 or -1, and changes no word outside the frame and the kernel's own |
| TimerTrap.TimerInterrupt | src/kernel/trap.c:96-123 | a timer interrupt of any code restores the interrupted state exactly, ticks the slots, and changes no word outside the frame, the slots' two fields, the counter and the handler's own |
| Spawn.Builder.SpawnKernel | src/kernel/proc.c:126-152 | builds the first context and the return address spawnret, writing only the context and one word of the thread's own stack |
| Spawn.Builder.SpawnUser | src/kernel/proc.c:154-191 | builds the first context, the trap frame and the user return address, writing only the context and the thread's own stacks |
| Spawn.Builder.RoomForFrame | src/kernel/proc.c:167-172 | makes room for a zeroed frame and a return slot, and touches nothing else |
| Spawn.Builder.FillFrame | src/kernel/proc.c:174-185 | the field stores build exactly the user frame, and one word of the user stack |
| Threads.CallSwtch | src/kernel/switch.S:9-43 | the instructions of swtch, interrupted anywhere, make a switch step of the thread machine |
| Threads.CallSpawn | src/kernel/proc.c:126-191 | the stores of spawn and spawnuser make a creation step of it |
| Threads.FrozenStep | src/kernel/proc.c:24-27 | no step of another thread, computing, switching or creating, changes a suspended thread's context or stacks |
| Threads.ResumesExactly | src/kernel/switch.S:9-43 | over any run of computing, switching and creating threads, a thread resumes with the rip, rsp, rbp, rbx and r12 to r15 it had, and its stacks intact |
| Threads.KernelThread | src/kernel/proc.c:126-152 | from spawn, over any run, to the first dispatch: enters func with its argument, on its own stack, the other saved registers zero, spawnret being the return address; and whenever func returns, exit gets its result |
| Threads.UserThread | src/kernel/proc.c:154-191 | from spawnuser, over any run, to the first dispatch: trapret's pops enter privilege level 3, on the user code and data descriptors, at func with interrupts on, the argument in rdi, all other general registers zero and spawnuserret on the user stack; and whenever func returns, the exit system call finds its result in the frame |
| Threads.RunWord | src/kernel/proc.c:140-142 | a return address on a thread's stack survives any run in which that thread keeps the calling convention |
| Strings.Memmove | src/klib/string.c:28-45 | the destination ends equal to the old source for every overlap, and nothing else changes |
| Strings.Memcpy | src/klib/string.c:48-51 | the same |
| Strings.Memset | src/klib/string.c:3-11 | word path and byte path both fill with the low byte, and nothing else changes |
| Strings.Stosl | src/include/x64defs.h:46-52 | stores the word's bytes, lowest first, cnt times, and nothing else |
| Strings.WordBytes | src/include/x64defs.h:46-52 | the four bytes, lowest first, make up the word |
| Strings.ReplicateBytes | src/klib/string.c:7 | every byte of the replicated word is the fill byte |
| Console.Digits | src/kernel/console.c:26-29 | the digit loop yields the numeral, lowest digit first, in at most 32 places for every base from 4 up |
| Console.Emit | src/kernel/console.c:41-42 | emits the buffer backwards |
| Console.Printint | src/kernel/console.c:15-43 | prints sign, padding and numeral to the exact width, stays in its buffer, and fails exactly where an ASSERT does |
| Console.Layout | src/kernel/console.c:31-42 | a minus exactly if negative, then nothing but padding, then a numeral without needless zeros |
| Console.RoundTrip | src/kernel/console.c:15-43 | reading the output back gives the value, and its length is the larger of the width and digits plus sign |
| BootLoader.Readseg | src/boot/bootmain.c:94-111 | every byte written, in whole sectors from the boundary below, is the image byte that belongs there |
| BootLoader.FindHeader | src/boot/bootmain.c:37-43 | finds the first good header that starts in the scratch area, or none when there is none |
| BootLoader.HeaderInImage | src/boot/bootmain.c:35 | a header wholly in the first 8192 bytes is the image's |
| BootLoader.HeaderLoaded | src/boot/bootmain.c:55-56 | the header itself comes to the address it gives, when the segment holds it |
| BootLoader.Load | src/boot/bootmain.c:55-64 | fails exactly when the sectors or the cleared bytes do not fit in memory; else byte a of the segment is image byte 4n+a-header_addr, 2^32 further on if that wraps, the rest up to bss_end is zero, nothing outside the sectors and the cleared bytes has changed, and the entry is the header's, provided nothing written covers the header |
| BootLoader.Bootmain | src/boot/bootmain.c:25-66 | finds no header exactly when none is good, refuses the first good one exactly when it is not acceptable, and otherwise ends as `Load` states; a refusal changes nothing but the scratch area |

## Left out

- Multi-processor start-up, ACPI, LAPIC, UART and CGA drivers and port I/O: hardware set-up; `readsect` is a sector copy and `lapiceoi` a no-op.
- The TLB, caches, and the processor's own writes to accessed and dirty bits.
- `paging_map` flags beyond the low twelve bits: callers pass none.
- Addresses of table frames are frame numbers; `P2V` and `V2P` are exact for the 16M of memory the kernel uses.
- SchedRuns.SleepExact: ticks are unbounded, because the 32-bit counter wraps only after 2^31 ticks.
- Sched.StepKeeps: `sleep` with a negative count and `spawn` with a full table are not steps, because the code panics on the one and does not check the other; faults in kernel code, which panic, are not steps either.
- Thread priorities, names and `exit`'s value in `struct proc`: stored and never read.
- The default case of `trap`: it exits the thread or panics and does not return.
- ProcTable.Table.FindRunnable: needs a runnable slot, because without one the loop waits for a timer interrupt; `Sched` models that wait.
- Console.Printint: the value -2^63 with a sign, whose negation overflows in C, and bases below 4, whose numerals can exceed the 34-byte buffer and which no caller passes, are excluded.
- BootLoader.Bootmain: when the load covers the header it was described by, the code reads the rest of it from what it has just written, and nothing is stated but that it enters or runs out of memory.
- Threads.ResumesExactly: threads are taken to write only their own stacks and no context record; user threads share one address space, so their code is trusted in this.
- The remaining string functions, `vcprintf`, the backtrace, GDT and IDT set-up and the mode-switch assembly: easy or pure set-up.
